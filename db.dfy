/** The Postgres store (db/db.go), with the database itself abstracted to
    maps keyed by block number and transaction hash. What is modelled is
    the store's own logic: the delegate-list byte codec, the block and
    transaction rows it writes and reads, the value scaling by 10^14, the
    error semantics of the two batch inserts and the hash check of
    GetBlockByHash. */
module Db {
  import opened Common
  import opened Models

  // ---------------------------------------------------------------------------
  // Delegates column: concatenated 20-byte addresses.

  /** The bytes InsertBlocks writes for a delegate list. */
  function ConcatAddresses(ds: seq<Address>): (raw: seq<Byte>)
    ensures |raw| == AddressLength * |ds|
  {
    if ds == [] then [] else ConcatAddresses(ds[..|ds| - 1]) + ds[|ds| - 1]
  }

  /** The list the readers rebuild: chunk `i` is bytes [20i, 20i+20); a
      trailing partial chunk is dropped. */
  function SplitAddresses(raw: seq<Byte>): seq<Address>
  {
    seq(|raw| / AddressLength, i requires 0 <= i < |raw| / AddressLength =>
      raw[AddressLength * i..AddressLength * i + AddressLength])
  }

  /** The append loop of InsertBlocks that builds `dbytes`. */
  method EncodeDelegates(ds: seq<Address>) returns (raw: seq<Byte>)
    ensures raw == ConcatAddresses(ds)
  {
    raw := [];
    var i := 0;
    while i < |ds|
      invariant 0 <= i <= |ds|
      invariant raw == ConcatAddresses(ds[..i])
    {
      assert ds[..i + 1][..i] == ds[..i];
      raw := raw + ds[i];
      i := i + 1;
    }
    assert ds[..|ds|] == ds;
  }

  /** The decoding loop shared by GetBlockByID, GetBlockByHash and GetBlockRange. */
  method DecodeDelegates(raw: seq<Byte>) returns (ds: seq<Address>)
    ensures |ds| == |raw| / AddressLength
    ensures forall i :: 0 <= i < |ds| ==>
              ds[i] == raw[AddressLength * i..AddressLength * i + AddressLength]
    ensures ds == SplitAddresses(raw)
  {
    ds := [];
    var n := |raw| / AddressLength;
    var i := 0;
    while i < n
      invariant 0 <= i <= n
      invariant |ds| == i
      invariant forall j :: 0 <= j < i ==>
                  ds[j] == raw[AddressLength * j..AddressLength * j + AddressLength]
    {
      ds := ds + [raw[AddressLength * i..AddressLength * i + AddressLength]];
      i := i + 1;
    }
  }

  /** Chunk `i` of an encoding is the `i`-th address. */
  lemma {:induction false} ConcatChunk(ds: seq<Address>, i: nat)
    requires i < |ds|
    ensures ConcatAddresses(ds)[AddressLength * i..AddressLength * i + AddressLength] == ds[i]
  {
    var init := ds[..|ds| - 1];
    assert ConcatAddresses(ds) == ConcatAddresses(init) + ds[|ds| - 1];
    if i < |ds| - 1 {
      ConcatChunk(init, i);
    }
  }

  /** Decoding an encoding gives the delegate list back, whatever fewer than
      20 bytes trail it. */
  lemma DelegatesRoundTrip(ds: seq<Address>, extra: seq<Byte>)
    requires |extra| < AddressLength
    ensures SplitAddresses(ConcatAddresses(ds) + extra) == ds
  {
    var raw := ConcatAddresses(ds) + extra;
    var r := SplitAddresses(raw);
    assert |r| == |ds|;
    forall i | 0 <= i < |ds|
      ensures r[i] == ds[i]
    {
      ConcatChunk(ds, i);
      assert raw[AddressLength * i..AddressLength * i + AddressLength]
          == ConcatAddresses(ds)[AddressLength * i..AddressLength * i + AddressLength];
    }
  }

  /** Re-encoding a decoding keeps exactly the whole 20-byte chunks. */
  lemma {:induction false} SplitThenConcat(raw: seq<Byte>)
    ensures ConcatAddresses(SplitAddresses(raw)) == raw[..AddressLength * (|raw| / AddressLength)]
    decreases |raw|
  {
    var n := |raw| / AddressLength;
    if n > 0 {
      var m := AddressLength * (n - 1);
      var shorter := raw[..m];
      assert |shorter| / AddressLength == n - 1;
      SplitThenConcat(shorter);
      var ds := SplitAddresses(raw);
      forall j | 0 <= j < n - 1
        ensures ds[j] == SplitAddresses(shorter)[j]
      {
        assert AddressLength * j + AddressLength <= m;
        assert shorter[AddressLength * j..AddressLength * j + AddressLength]
            == raw[AddressLength * j..AddressLength * j + AddressLength];
      }
      assert ds[..n - 1] == SplitAddresses(shorter);
      assert ds[n - 1] == raw[m..m + AddressLength];
      assert shorter[..AddressLength * (n - 1)] == raw[..m];
      assert raw[..m] + raw[m..m + AddressLength] == raw[..AddressLength * n];
    }
  }

  // ---------------------------------------------------------------------------
  // Block rows.

  /** The columns of the `blocks` table, in the order the readers scan them. */
  datatype BlockRow = BlockRow(
    number: nat,
    timestamp: nat,
    hash: seq<Byte>,
    parentHash: seq<Byte>,
    transactionsRoot: seq<Byte>,
    receiptsRoot: seq<Byte>,
    size: nat,
    transactionCount: nat,
    gasUsed: nat,
    gasLimit: nat,
    delegates: seq<Byte>,
    producer: seq<Byte>,
    signature: seq<Byte>)

  /** What Scan leaves behind when the query returns no row: every column at
      its zero value. */
  const EmptyRow := BlockRow(0, 0, [], [], [], [], 0, 0, 0, 0, [], [], [])

  /** The row InsertBlocks writes: the transaction count column is the length
      of the block's transaction list, not its TransactionCount field. */
  function BlockToRow(b: Block): BlockRow
  {
    BlockRow(b.number, b.timeStamp, b.hash, b.parentHash, b.transactionsRoot,
             b.receiptsRoot, b.size, |b.transactions|, b.gasUsed, b.gasLimit,
             ConcatAddresses(b.delegates), b.producer, b.signature)
  }

  /** The block a reader builds from a row: hashes and producer through
      SetBytes, delegates split into chunks, no transaction list. */
  function RowToBlock(r: BlockRow): Block
  {
    Block(r.number, r.timestamp, HashFromBytes(r.hash), HashFromBytes(r.parentHash),
          r.signature, HashFromBytes(r.transactionsRoot), HashFromBytes(r.receiptsRoot),
          r.size, r.transactionCount, r.gasUsed, r.gasLimit, [],
          SplitAddresses(r.delegates), AddressFromBytes(r.producer))
  }

  /** A stored block reads back with its transaction list dropped and its
      transaction count replaced by the length of that list; nothing else
      changes. */
  lemma BlockRowRoundTrip(b: Block)
    ensures RowToBlock(BlockToRow(b)) ==
            b.(transactionCount := |b.transactions|, transactions := [])
  {
    DelegatesRoundTrip(b.delegates, []);
    assert ConcatAddresses(b.delegates) + [] == ConcatAddresses(b.delegates);
  }

  /** GetBlockByID: the row with that number, or the zero block when there is
      none (the scan error of an empty result is not checked). */
  function GetBlockByID(blocks: map<nat, BlockRow>, number: nat): (b: Block)
    ensures number !in blocks ==> b.number == 0 && b.hash == ZeroHash && b.delegates == []
    ensures number in blocks ==> b == RowToBlock(blocks[number])
  {
    RowToBlock(if number in blocks then blocks[number] else EmptyRow)
  }

  /** GetLatestBlockNumber: the largest stored number, 0 for an empty table. */
  ghost function LatestBlockNumber(numbers: set<nat>): (n: nat)
    ensures forall k :: k in numbers ==> k <= n
    ensures numbers != {} ==> n in numbers
    ensures numbers == {} ==> n == 0
    decreases numbers
  {
    if numbers == {} then 0
    else
      var x :| x in numbers;
      var rest := LatestBlockNumber(numbers - {x});
      assert forall y :: y in numbers ==> y == x || y in numbers - {x};
      if rest < x then x else rest
  }

  // ---------------------------------------------------------------------------
  // GetBlockByHash.

  datatype ReadError = WrongBlockFound | QuerySlicePanic

  /** GetBlockByHash given the row the hash query returned (if any). The
      query itself is case-insensitive bytea matching; the code then insists
      that "0x" followed by the lower-case hex of the stored hash is exactly
      the requested string. An empty request panics on `hash[1:]`. */
  function GetBlockByHash(requested: string, found: Option<BlockRow>): (r: Result<Block, ReadError>)
    ensures |requested| == 0 ==> r == Err(QuerySlicePanic)
  {
    if |requested| == 0 then Err(QuerySlicePanic)
    else
      var row := if found.Some? then found.value else EmptyRow;
      if requested != "0x" + HexEncode(row.hash) then Err(WrongBlockFound)
      else Ok(RowToBlock(row))
  }

  /** A successful lookup returns the block whose stored hash the request
      spells, and the request decodes to exactly those bytes. */
  lemma GetBlockByHashSound(requested: string, row: BlockRow)
    requires GetBlockByHash(requested, Some(row)).Ok?
    ensures requested == "0x" + HexEncode(row.hash)
    ensures HexDecode(requested[2..]) == Some(row.hash)
    ensures GetBlockByHash(requested, Some(row)).value == RowToBlock(row)
  {
    assert requested[2..] == HexEncode(row.hash);
    HexRoundTrip(row.hash);
  }

  /** The lookup of a stored block succeeds exactly for its lower-case
      rendering. */
  lemma GetBlockByHashFindsStored(b: Block, requested: string)
    ensures GetBlockByHash(requested, Some(BlockToRow(b))).Ok? <==>
            requested == "0x" + HexEncode(b.hash)
    ensures requested == "0x" + HexEncode(b.hash) ==>
            GetBlockByHash(requested, Some(BlockToRow(b))) ==
            Ok(b.(transactionCount := |b.transactions|, transactions := []))
  {
    BlockRowRoundTrip(b);
  }

  /** A request spelled with any upper-case hex digit never succeeds, even
      though the database query matches it. */
  lemma UppercaseRequestRejected(requested: string, found: Option<BlockRow>, i: nat)
    requires 2 <= i < |requested| && 'A' <= requested[i] <= 'F'
    ensures GetBlockByHash(requested, found) == Err(WrongBlockFound)
  {
    var row := if found.Some? then found.value else EmptyRow;
    HexEncodeLowercase(row.hash);
  }

  /** When no row matches, the zero-valued scan has an empty hash, so every
      request other than "0x" ends in WrongBlockFound. */
  lemma GetBlockByHashMissing(requested: string)
    requires requested != "0x" && |requested| > 0
    ensures GetBlockByHash(requested, None) == Err(WrongBlockFound)
  {
    assert HexEncode([]) == [];
    assert "0x" + [] == "0x";
  }

  // ---------------------------------------------------------------------------
  // Value scaling: wei are stored divided by 10^(18-4).

  const PrecisionFactor: nat := 100_000_000_000_000

  /** The stored column: big.Int division by 10^14, then Uint64, which keeps
      the low 64 bits. */
  function ScaleDown(v: nat): (s: nat)
    ensures s < Uint64Limit
    ensures v / PrecisionFactor < Uint64Limit ==> s * PrecisionFactor <= v < (s + 1) * PrecisionFactor
  {
    (v / PrecisionFactor) % Uint64Limit
  }

  /** The value a reader rebuilds from the stored column. */
  function ScaleUp(s: nat): nat
  {
    s * PrecisionFactor
  }

  /** Storing then reading a value rounds it down to a multiple of 10^14,
      losing less than 10^14 wei, as long as the quotient fits in 64 bits. */
  lemma ScaleRoundTrip(v: nat)
    requires v / PrecisionFactor < Uint64Limit
    ensures ScaleUp(ScaleDown(v)) == v - v % PrecisionFactor
    ensures ScaleUp(ScaleDown(v)) <= v < ScaleUp(ScaleDown(v)) + PrecisionFactor
  {
  }

  /** Every stored column value reads back and is stored again unchanged. */
  lemma ScaleUpThenDown(s: nat)
    requires s < Uint64Limit
    ensures ScaleDown(ScaleUp(s)) == s
  {
    assert ScaleUp(s) / PrecisionFactor == s;
  }

  /** Beyond 2^64 * 10^14 wei the quotient wraps: such a value is stored as 0. */
  lemma ScaleDownWraps()
    ensures ScaleDown(Uint64Limit * PrecisionFactor) == 0
  {
    assert (Uint64Limit * PrecisionFactor) / PrecisionFactor == Uint64Limit;
  }

  // ---------------------------------------------------------------------------
  // Transaction rows.

  /** The columns of the `transactions` table that InsertTransactions writes.
      Only a transaction with a recipient has a row: the `to` column is read
      through the recipient pointer, which a contract creation leaves nil. */
  datatype TransactionRow = TransactionRow(
    hash: Hash,
    timestamp: nat,
    status: nat,
    nonce: nat,
    blockHash: Hash,
    blockNumber: nat,
    transactionIndex: nat,
    from: Address,
    to: Address,
    value: nat,
    gasUsed: nat,
    cumulativeGasUsed: nat,
    gasLimit: nat,
    gasPrice: nat,
    workNonce: nat,
    input: seq<Byte>)

  function TransactionToRow(tf: TransactionFull): TransactionRow
    requires tf.tx.to.Some?
  {
    var t := tf.tx;
    TransactionRow(t.hash, t.timestamp, tf.receipt.status, t.nonce, t.blockHash,
                   t.blockNumber, t.transactionIndex, t.from, t.to.value,
                   ScaleDown(t.value), tf.receipt.gasUsed, tf.receipt.cumulativeGasUsed,
                   t.gasLimit, t.gasPrice, t.workNonce, t.input)
  }

  /** Every column but the value copies its field; the value column is the
      scaled-down amount, so it reads back rounded down to 10^14 wei. */
  lemma TransactionRowValue(tf: TransactionFull)
    requires tf.tx.to.Some? && tf.tx.value / PrecisionFactor < Uint64Limit
    ensures var r := TransactionToRow(tf);
            r.hash == tf.tx.hash && r.from == tf.tx.from && r.to == tf.tx.to.value &&
            r.input == tf.tx.input &&
            r.blockNumber == tf.tx.blockNumber && r.status == tf.receipt.status &&
            ScaleUp(r.value) == tf.tx.value - tf.tx.value % PrecisionFactor
  {
    ScaleRoundTrip(tf.tx.value);
  }

  // ---------------------------------------------------------------------------
  // Batch inserts.

  /** Failures the database may report during one batch insert, by stage:
      opening the transaction, preparing the COPY statement, each row (by its
      position in the batch), and the final flush, close or commit. */
  datatype InsertFaults = InsertFaults(
    beginFails: bool,
    prepareFails: bool,
    rowFails: nat -> bool,
    finishFails: bool)

  /** How a batch insert ends without committing. NilRecipientPanic is not a
      returned error: InsertTransactions dereferences the recipient of a
      contract creation, and the process panics with the batch uncommitted. */
  datatype InsertError = BeginFailed | PrepareFailed | NilRecipientPanic

  /** The table after writing `rows` in order, skipping the failed ones; a
      later row with the same key replaces an earlier one. */
  function Upsert<K, R>(table: map<K, R>, rows: seq<(K, R)>, rowFails: nat -> bool): map<K, R>
    decreases |rows|
  {
    if rows == [] then table
    else
      var before := Upsert(table, rows[..|rows| - 1], rowFails);
      var last := rows[|rows| - 1];
      if rowFails(|rows| - 1) then before else before[last.0 := last.1]
  }

  /** Writing one more row. */
  lemma UpsertSnoc<K, R>(table: map<K, R>, rows: seq<(K, R)>, rowFails: nat -> bool, i: nat)
    requires i < |rows|
    ensures Upsert(table, rows[..i + 1], rowFails) ==
            if rowFails(i) then Upsert(table, rows[..i], rowFails)
            else Upsert(table, rows[..i], rowFails)[rows[i].0 := rows[i].1]
  {
    assert rows[..i + 1][..i] == rows[..i];
  }

  /** The last successful row for a key decides what the table holds for it. */
  lemma {:induction false} UpsertLastWins<K, R>(table: map<K, R>, rows: seq<(K, R)>, rowFails: nat -> bool, j: nat)
    requires j < |rows| && !rowFails(j)
    requires forall k :: j < k < |rows| && !rowFails(k) ==> rows[k].0 != rows[j].0
    ensures rows[j].0 in Upsert(table, rows, rowFails)
    ensures Upsert(table, rows, rowFails)[rows[j].0] == rows[j].1
    decreases |rows|
  {
    if j < |rows| - 1 {
      UpsertLastWins(table, rows[..|rows| - 1], rowFails, j);
    }
  }

  /** Keys no successful row mentions keep their old entry (or absence). */
  lemma {:induction false} UpsertOtherKeys<K, R>(table: map<K, R>, rows: seq<(K, R)>, rowFails: nat -> bool, key: K)
    requires forall k :: 0 <= k < |rows| && !rowFails(k) ==> rows[k].0 != key
    ensures key in Upsert(table, rows, rowFails) <==> key in table
    ensures key in table ==> Upsert(table, rows, rowFails)[key] == table[key]
    decreases |rows|
  {
    if rows != [] {
      UpsertOtherKeys(table, rows[..|rows| - 1], rowFails, key);
    }
  }

  function BlockRows(blocks: seq<Block>): seq<(nat, BlockRow)>
  {
    seq(|blocks|, i requires 0 <= i < |blocks| => (blocks[i].number, BlockToRow(blocks[i])))
  }

  /** InsertBlocks: an empty batch is a no-op; only Begin and Prepare
      failures are reported; row, flush, close and commit failures are
      logged and the call still succeeds, with the failed rows (or, when the
      commit fails, the whole batch) missing from the table. */
  method InsertBlocks(table: map<nat, BlockRow>, blocks: seq<Block>, faults: InsertFaults)
    returns (table': map<nat, BlockRow>, err: Option<InsertError>)
    ensures blocks == [] ==> err == None && table' == table
    ensures blocks != [] && faults.beginFails ==> err == Some(BeginFailed) && table' == table
    ensures blocks != [] && !faults.beginFails && faults.prepareFails ==>
              err == Some(PrepareFailed) && table' == table
    ensures blocks != [] && !faults.beginFails && !faults.prepareFails ==>
              err == None &&
              table' == (if faults.finishFails then table
                         else Upsert(table, BlockRows(blocks), faults.rowFails))
  {
    if blocks == [] {
      return table, None;
    }
    if faults.beginFails {
      return table, Some(BeginFailed);
    }
    if faults.prepareFails {
      return table, Some(PrepareFailed);
    }
    var pending := table;
    var i := 0;
    while i < |blocks|
      invariant 0 <= i <= |blocks|
      invariant pending == Upsert(table, BlockRows(blocks)[..i], faults.rowFails)
    {
      var dbytes := EncodeDelegates(blocks[i].delegates);
      var row := BlockRow(blocks[i].number, blocks[i].timeStamp, blocks[i].hash,
                          blocks[i].parentHash, blocks[i].transactionsRoot,
                          blocks[i].receiptsRoot, blocks[i].size, |blocks[i].transactions|,
                          blocks[i].gasUsed, blocks[i].gasLimit, dbytes,
                          blocks[i].producer, blocks[i].signature);
      UpsertSnoc(table, BlockRows(blocks), faults.rowFails, i);
      assert BlockRows(blocks)[i] == (blocks[i].number, row);
      if !faults.rowFails(i) {
        pending := pending[blocks[i].number := row];
      }
      i := i + 1;
    }
    assert BlockRows(blocks)[..|blocks|] == BlockRows(blocks);
    if faults.finishFails {
      return table, None;
    }
    return pending, None;
  }

  /** After a committed insert, a block that no later successful row of the
      batch overwrites reads back by number as written. */
  lemma InsertedBlockReadsBack(table: map<nat, BlockRow>, blocks: seq<Block>, rowFails: nat -> bool, j: nat)
    requires j < |blocks| && !rowFails(j)
    requires forall k :: j < k < |blocks| && !rowFails(k) ==> blocks[k].number != blocks[j].number
    ensures var b := blocks[j];
            GetBlockByID(Upsert(table, BlockRows(blocks), rowFails), b.number) ==
            b.(transactionCount := |b.transactions|, transactions := [])
  {
    UpsertLastWins(table, BlockRows(blocks), rowFails, j);
    BlockRowRoundTrip(blocks[j]);
  }

  /** Every transaction of the batch has a recipient. */
  predicate HaveRecipients(txs: seq<TransactionFull>)
  {
    forall k :: 0 <= k < |txs| ==> txs[k].tx.to.Some?
  }

  function TransactionRows(txs: seq<TransactionFull>): seq<(Hash, TransactionRow)>
    requires HaveRecipients(txs)
  {
    seq(|txs|, i requires 0 <= i < |txs| => (txs[i].tx.hash, TransactionToRow(txs[i])))
  }

  /** InsertTransactions: the same error semantics as InsertBlocks, with the
      value column scaled down by 10^14, except that a contract creation in
      the batch panics when its row is built, so nothing of the batch is
      committed. */
  method InsertTransactions(table: map<Hash, TransactionRow>, txs: seq<TransactionFull>, faults: InsertFaults)
    returns (table': map<Hash, TransactionRow>, err: Option<InsertError>)
    ensures txs == [] ==> err == None && table' == table
    ensures txs != [] && faults.beginFails ==> err == Some(BeginFailed) && table' == table
    ensures txs != [] && !faults.beginFails && faults.prepareFails ==>
              err == Some(PrepareFailed) && table' == table
    ensures txs != [] && !faults.beginFails && !faults.prepareFails && !HaveRecipients(txs) ==>
              err == Some(NilRecipientPanic) && table' == table
    ensures txs != [] && !faults.beginFails && !faults.prepareFails && HaveRecipients(txs) ==>
              err == None &&
              table' == (if faults.finishFails then table
                         else Upsert(table, TransactionRows(txs), faults.rowFails))
  {
    if txs == [] {
      return table, None;
    }
    if faults.beginFails {
      return table, Some(BeginFailed);
    }
    if faults.prepareFails {
      return table, Some(PrepareFailed);
    }
    var pending := table;
    var i := 0;
    while i < |txs|
      invariant 0 <= i <= |txs|
      invariant HaveRecipients(txs[..i])
      invariant pending == Upsert(table, TransactionRows(txs[..i]), faults.rowFails)
    {
      var t := txs[i].tx;
      if t.to.None? {
        return table, Some(NilRecipientPanic);
      }
      var v := (t.value / PrecisionFactor) % Uint64Limit;
      var row := TransactionRow(t.hash, t.timestamp, txs[i].receipt.status, t.nonce,
                                t.blockHash, t.blockNumber, t.transactionIndex, t.from,
                                t.to.value, v,
                                txs[i].receipt.gasUsed, txs[i].receipt.cumulativeGasUsed,
                                t.gasLimit, t.gasPrice, t.workNonce, t.input);
      assert txs[..i + 1] == txs[..i] + [txs[i]];
      TransactionRowsSnoc(txs[..i], txs[i]);
      UpsertSnoc(table, TransactionRows(txs[..i + 1]), faults.rowFails, i);
      if !faults.rowFails(i) {
        pending := pending[t.hash := row];
      }
      i := i + 1;
    }
    assert txs[..i] == txs;
    if faults.finishFails {
      return table, None;
    }
    return pending, None;
  }

  /** The rows of a batch with one more transaction. */
  lemma TransactionRowsSnoc(txs: seq<TransactionFull>, tf: TransactionFull)
    requires HaveRecipients(txs) && tf.tx.to.Some?
    ensures HaveRecipients(txs + [tf])
    ensures TransactionRows(txs + [tf]) == TransactionRows(txs) + [(tf.tx.hash, TransactionToRow(tf))]
    ensures TransactionRows(txs + [tf])[..|txs|] == TransactionRows(txs)
  {
    assert forall k :: 0 <= k < |txs| ==> (txs + [tf])[k] == txs[k];
  }

  /** A failed row leaves the table as it was for every hash no successful
      row of the batch writes. */
  lemma FailedRowsSkipped(table: map<Hash, TransactionRow>, txs: seq<TransactionFull>, rowFails: nat -> bool, h: Hash)
    requires HaveRecipients(txs)
    requires forall k :: 0 <= k < |txs| && !rowFails(k) ==> txs[k].tx.hash != h
    ensures h in Upsert(table, TransactionRows(txs), rowFails) <==> h in table
    ensures h in table ==> Upsert(table, TransactionRows(txs), rowFails)[h] == table[h]
  {
    UpsertOtherKeys(table, TransactionRows(txs), rowFails, h);
  }
}
