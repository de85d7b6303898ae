/** The records the explorer stores and serves (models/models.go): blocks,
    transactions with their receipts, delegate statistics, and the JSON
    renderings the API emits. JSON is modelled as the record of fields an
    encoder receives; the `input` payload is rendered to its string form
    because that is where the models do their own encoding. */
module Models {
  import opened Common

  datatype Block = Block(
    number: nat,
    timeStamp: nat,
    hash: Hash,
    parentHash: Hash,
    signature: seq<Byte>,
    transactionsRoot: Hash,
    receiptsRoot: Hash,
    size: nat,
    transactionCount: nat,
    gasUsed: nat,
    gasLimit: nat,
    transactions: seq<Hash>,
    delegates: seq<Address>,
    producer: Address)

  /** A block with every field at its zero value. */
  const EmptyBlock: Block := Block(0, 0, ZeroHash, ZeroHash, [], ZeroHash, ZeroHash,
                                   0, 0, 0, 0, [], [], ZeroAddress)

  datatype Transaction = Transaction(
    hash: Hash,
    timestamp: nat,
    nonce: nat,
    blockHash: Hash,
    blockNumber: nat,
    transactionIndex: nat,
    from: Address,
    to: Option<Address>,
    value: nat,
    gasLimit: nat,
    gasPrice: nat,
    workNonce: nat,
    input: seq<Byte>)

  datatype TransactionReceipt = TransactionReceipt(
    status: nat,
    gasUsed: nat,
    cumulativeGasUsed: nat,
    contractAddress: Option<Address>)

  datatype TransactionFull = TransactionFull(tx: Transaction, receipt: TransactionReceipt)

  /** Per-delegate statistics for one look-back window. The density is kept
      as an exact real, 1 - missed/total. */
  datatype DelegateInfo = DelegateInfo(
    address: Address,
    secondsExamined: nat,
    missedBlocks: nat,
    totalBlocks: nat,
    density: real,
    stake: nat)

  datatype DelegateVoteInfo = DelegateVoteInfo(address: Address, stake: nat)

  /** A transaction hash queued for fetching, stamped with its block's time. */
  datatype TransactionWithTimestamp = TransactionWithTimestamp(hash: Hash, timestamp: nat)

  /** The address-type selector of the transaction lookups. */
  datatype AddressType = AddressFrom | AddressTo | AddressAll | AddressBlockHash | Latest

  // ---------------------------------------------------------------------------
  // Hexadecimal, as encoding/hex writes (lower case) and reads (either case).

  const HexDigits: string := "0123456789abcdef"

  function HexEncode(b: seq<Byte>): (s: string)
    ensures |s| == 2 * |b|
  {
    if b == [] then []
    else [HexDigits[b[0] / 16], HexDigits[b[0] % 16]] + HexEncode(b[1..])
  }

  /** Every rendered character is a lower-case hex digit. */
  lemma {:induction false} HexEncodeLowercase(b: seq<Byte>)
    ensures forall i :: 0 <= i < |HexEncode(b)| ==> HexEncode(b)[i] in HexDigits
  {
    if b != [] {
      HexEncodeLowercase(b[1..]);
      var s := HexEncode(b);
      assert s == [HexDigits[b[0] / 16], HexDigits[b[0] % 16]] + HexEncode(b[1..]);
      forall i | 0 <= i < |s|
        ensures s[i] in HexDigits
      {
        if i >= 2 {
          assert s[i] == HexEncode(b[1..])[i - 2];
        }
      }
    }
  }

  /** The value of one hex digit; upper-case letters are accepted too. */
  function HexValue(c: char): (v: Option<nat>)
    ensures v.Some? ==> v.value < 16
    ensures v.Some? <==> ('0' <= c <= '9' || 'a' <= c <= 'f' || 'A' <= c <= 'F')
  {
    if '0' <= c <= '9' then Some(c as nat - '0' as nat)
    else if 'a' <= c <= 'f' then Some(c as nat - 'a' as nat + 10)
    else if 'A' <= c <= 'F' then Some(c as nat - 'A' as nat + 10)
    else None
  }

  /** hex.DecodeString: an odd length or a non-hex character is an error. */
  function HexDecode(s: string): (r: Option<seq<Byte>>)
    ensures r.Some? ==> |s| == 2 * |r.value|
    decreases |s|
  {
    if |s| == 0 then Some([])
    else if |s| == 1 then None
    else
      var hi, lo, rest := HexValue(s[0]), HexValue(s[1]), HexDecode(s[2..]);
      if hi.Some? && lo.Some? && rest.Some? then Some([hi.value * 16 + lo.value] + rest.value)
      else None
  }

  /** Decoding two leading characters and a tail. */
  lemma HexDecodeCons(c0: char, c1: char, t: string)
    ensures HexDecode([c0, c1] + t) ==
      (if HexValue(c0).Some? && HexValue(c1).Some? && HexDecode(t).Some?
       then Some([HexValue(c0).value * 16 + HexValue(c1).value] + HexDecode(t).value)
       else None)
  {
    var s := [c0, c1] + t;
    assert s[0] == c0 && s[1] == c1 && s[2..] == t;
  }

  lemma {:induction false} HexDigitValue(n: nat)
    requires n < 16
    ensures HexValue(HexDigits[n]) == Some(n)
  {
  }

  /** Decoding a rendering gives the bytes back. */
  lemma {:induction false} HexRoundTrip(b: seq<Byte>)
    ensures HexDecode(HexEncode(b)) == Some(b)
  {
    if b != [] {
      var hi, lo := b[0] / 16, b[0] % 16;
      HexDigitValue(hi);
      HexDigitValue(lo);
      HexRoundTrip(b[1..]);
      HexDecodeCons(HexDigits[hi], HexDigits[lo], HexEncode(b[1..]));
      assert hi * 16 + lo == b[0];
      assert [b[0]] + b[1..] == b;
    }
  }

  /** Distinct byte strings render differently. */
  lemma HexEncodeInjective(a: seq<Byte>, b: seq<Byte>)
    ensures HexEncode(a) == HexEncode(b) <==> a == b
  {
    if HexEncode(a) == HexEncode(b) {
      HexRoundTrip(a);
      HexRoundTrip(b);
    }
  }

  /** The `input` field as both MarshalJSON methods write it. */
  function RenderInput(input: seq<Byte>): (s: string)
    ensures |s| == 2 + 2 * |input| && s[..2] == "0x"
  {
    "0x" + HexEncode(input)
  }

  // ---------------------------------------------------------------------------
  // InputData.UnmarshalJSON, as written and as evidently intended.

  datatype InputError = InvalidHex | MissingPrefix | SliceOutOfRange

  /** The decoder as written: "0x" leaves the target alone; anything else has
      its first two characters dropped, unchecked, and the rest hex-decoded.
      A string shorter than two characters makes the slice `str[2:]` panic,
      modelled as SliceOutOfRange. */
  function UnmarshalInputAsWritten(str: string, current: seq<Byte>): (r: Result<seq<Byte>, InputError>)
    ensures str == "0x" ==> r == Ok(current)
    ensures |str| < 2 ==> r == Err(SliceOutOfRange)
  {
    if str == "0x" then Ok(current)
    else if |str| < 2 then Err(SliceOutOfRange)
    else
      match HexDecode(str[2..])
      case Some(b) => Ok(b)
      case None => Err(InvalidHex)
  }

  /** Inputs without the prefix are accepted as written: "abcd" silently loses
      its first byte, and the empty string panics. */
  lemma UnmarshalInputAsWrittenIgnoresPrefix()
    ensures UnmarshalInputAsWritten("abcd", []) == Ok([0xcd])
    ensures UnmarshalInputAsWritten("", []) == Err(SliceOutOfRange)
  {
    assert "abcd"[2..] == "cd";
    assert "cd"[2..] == [];
    assert HexValue('c') == Some(12) && HexValue('d') == Some(13);
    var empty: string := [];
    assert HexDecode(empty) == Some([]);
    HexDecodeCons('c', 'd', empty);
    assert ['c', 'd'] + empty == "cd";
    assert HexDecode("cd") == Some([HexValue('c').value * 16 + HexValue('d').value] + []);
    assert [0xcd] + [] == [0xcd];
    assert "abcd" != "0x" by { assert "abcd"[0] != "0x"[0]; }
  }

  /** The decoder as intended: it strips a "0x" prefix and rejects input
      without one. */
  function UnmarshalInput(str: string, current: seq<Byte>): (r: Result<seq<Byte>, InputError>)
    ensures str == "0x" ==> r == Ok(current)
    ensures (|str| < 2 || str[..2] != "0x") ==> r == Err(MissingPrefix)
    ensures r.Ok? && str != "0x" ==> |str| == 2 + 2 * |r.value|
  {
    if str == "0x" then Ok(current)
    else if |str| < 2 || str[..2] != "0x" then Err(MissingPrefix)
    else
      match HexDecode(str[2..])
      case Some(b) => Ok(b)
      case None => Err(InvalidHex)
  }

  /** On every string that carries the prefix the two decoders agree. */
  lemma UnmarshalInputAgreesWhenPrefixed(str: string, current: seq<Byte>)
    requires |str| >= 2 && str[..2] == "0x"
    ensures UnmarshalInput(str, current) == UnmarshalInputAsWritten(str, current)
  {
  }

  /** Decoding the rendering of `input` into an empty target yields `input`
      (for empty input the rendering is "0x" and the target stays empty). */
  lemma InputRoundTrip(input: seq<Byte>)
    ensures UnmarshalInput(RenderInput(input), []) == Ok(input)
  {
    var s := RenderInput(input);
    assert s[2..] == HexEncode(input);
    HexRoundTrip(input);
    if input != [] {
      assert s != "0x";
    }
  }

  // ---------------------------------------------------------------------------
  // MarshalJSON field maps.

  /** The fields Block.MarshalJSON emits: every header field, no transactions. */
  datatype BlockJson = BlockJson(
    number: nat,
    timeStamp: nat,
    hash: Hash,
    parentHash: Hash,
    signature: seq<Byte>,
    transactionsRoot: Hash,
    receiptsRoot: Hash,
    size: nat,
    transactionCount: nat,
    gasUsed: nat,
    gasLimit: nat,
    delegates: seq<Address>,
    producer: Address)

  function MarshalBlock(b: Block): BlockJson
  {
    BlockJson(b.number, b.timeStamp, b.hash, b.parentHash, b.signature,
              b.transactionsRoot, b.receiptsRoot, b.size, b.transactionCount,
              b.gasUsed, b.gasLimit, b.delegates, b.producer)
  }

  /** The block rendering loses exactly the transaction list: two blocks render
      alike if and only if they differ at most in their transactions. */
  lemma MarshalBlockForgetsOnlyTransactions(b1: Block, b2: Block)
    ensures MarshalBlock(b1) == MarshalBlock(b2) <==>
            b1.(transactions := []) == b2.(transactions := [])
  {
  }

  datatype TransactionJson = TransactionJson(
    hash: Hash,
    timestamp: nat,
    nonce: nat,
    blockHash: Hash,
    blockNumber: nat,
    transactionIndex: nat,
    from: Address,
    to: Option<Address>,
    value: nat,
    gas: nat,
    gasPrice: nat,
    workNonce: nat,
    input: string)

  function MarshalTransaction(t: Transaction): TransactionJson
  {
    TransactionJson(t.hash, t.timestamp, t.nonce, t.blockHash, t.blockNumber,
                    t.transactionIndex, t.from, t.to, t.value, t.gasLimit,
                    t.gasPrice, t.workNonce, RenderInput(t.input))
  }

  datatype TransactionFullJson = TransactionFullJson(
    hash: Hash,
    timestamp: nat,
    status: nat,
    nonce: nat,
    blockHash: Hash,
    blockNumber: nat,
    transactionIndex: nat,
    from: Address,
    to: Option<Address>,
    value: nat,
    gasUsed: nat,
    cumulativeGasUsed: nat,
    gasLimit: nat,
    gasPrice: nat,
    workNonce: nat,
    contractAddress: Option<Address>,
    input: string)

  function MarshalTransactionFull(tf: TransactionFull): TransactionFullJson
  {
    var t := tf.tx;
    var r := tf.receipt;
    TransactionFullJson(t.hash, t.timestamp, r.status, t.nonce, t.blockHash,
                        t.blockNumber, t.transactionIndex, t.from, t.to, t.value,
                        r.gasUsed, r.cumulativeGasUsed, t.gasLimit, t.gasPrice,
                        t.workNonce, r.contractAddress, RenderInput(t.input))
  }

  /** The transaction rendering loses nothing, and its input reads back. */
  lemma MarshalTransactionFaithful(t1: Transaction, t2: Transaction)
    ensures MarshalTransaction(t1) == MarshalTransaction(t2) <==> t1 == t2
    ensures UnmarshalInput(MarshalTransaction(t1).input, []) == Ok(t1.input)
  {
    HexEncodeInjective(t1.input, t2.input);
    if MarshalTransaction(t1) == MarshalTransaction(t2) {
      assert RenderInput(t1.input)[2..] == HexEncode(t1.input);
      assert RenderInput(t2.input)[2..] == HexEncode(t2.input);
    }
    InputRoundTrip(t1.input);
  }

  /** The full rendering loses nothing either, and renders the input exactly as
      the plain transaction rendering does. */
  lemma MarshalTransactionFullFaithful(tf1: TransactionFull, tf2: TransactionFull)
    ensures MarshalTransactionFull(tf1) == MarshalTransactionFull(tf2) <==> tf1 == tf2
    ensures MarshalTransactionFull(tf1).input == MarshalTransaction(tf1.tx).input
  {
    HexEncodeInjective(tf1.tx.input, tf2.tx.input);
    if MarshalTransactionFull(tf1) == MarshalTransactionFull(tf2) {
      assert RenderInput(tf1.tx.input)[2..] == HexEncode(tf1.tx.input);
      assert RenderInput(tf2.tx.input)[2..] == HexEncode(tf2.tx.input);
    }
  }
}
