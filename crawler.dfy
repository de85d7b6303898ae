/** The crawler's pipeline stages (cmd/crawler/main.go), each modelled as a
    sequential loop over what its input channel delivers: the block and
    transaction batchers, the delete stage of a re-import, the
    producer-reward aggregator, and the rich-list scan. Store and node calls
    are parameters: a failure oracle indexed by call number, or a function
    from height or address to an optional answer. */
module Crawler {
  import opened Common
  import opened Models
  import Db

  // ---------------------------------------------------------------------------
  // Failures of a sequence of store calls.

  /** The first of the first `n` calls that fails, if any. */
  function FirstFailure(fails: nat -> bool, n: nat): (r: Option<nat>)
    ensures r.None? <==> forall k :: 0 <= k < n ==> !fails(k)
    ensures r.Some? ==> r.value < n && fails(r.value) && forall k :: 0 <= k < r.value ==> !fails(k)
  {
    if n == 0 then None
    else
      match FirstFailure(fails, n - 1)
      case Some(k) => Some(k)
      case None => if fails(n - 1) then Some(n - 1) else None
  }

  /** A failing call with only successful calls before it is the first
      failure. */
  lemma FirstFailureIs(fails: nat -> bool, n: nat, k: nat)
    requires k < n && fails(k) && forall j :: 0 <= j < k ==> !fails(j)
    ensures FirstFailure(fails, n) == Some(k)
  {
  }

  /** The call the stage gave up on. */
  datatype StageError = InsertFailed(call: nat)

  // ---------------------------------------------------------------------------
  // Batchers.

  const BlockBatchSize: nat := 400
  const TransactionBatchSize: nat := 20

  /** Appending one item to the open buffer; when that fills it, the buffer
      is closed into a batch for the store and a new one is opened. */
  method Push<T>(calls: seq<seq<T>>, buffer: seq<T>, x: T, size: nat, ghost seen: seq<T>)
    returns (calls': seq<seq<T>>, buffer': seq<T>)
    requires size > 0 && calls + [buffer] == Batches(seen, size) && |buffer| < size
    ensures calls' + [buffer'] == Batches(seen + [x], size) && |buffer'| < size
    ensures |buffer| + 1 == size ==> calls' == calls + [buffer + [x]] && buffer' == []
    ensures |buffer| + 1 < size ==> calls' == calls && buffer' == buffer + [x]
  {
    BatchesSnoc(seen, x, size);
    assert Batches(seen, size)[..|calls|] == calls;
    calls', buffer' := calls, buffer + [x];
    if |buffer'| >= size {
      calls', buffer' := calls' + [buffer'], [];
    }
  }

  /** streamInsertBlocks: blocks are buffered and written 400 at a time, and
      whatever remains (possibly nothing) is written once the input ends.
      The first failing write ends the stage with a count of 0 and no
      further writes; otherwise the count is every block received. */
  method StreamInsertBlocks(received: seq<Block>, fails: nat -> bool)
    returns (count: nat, err: Option<StageError>, calls: seq<seq<Block>>)
    ensures var batches := Batches(received, BlockBatchSize);
            match FirstFailure(fails, |batches|)
            case None => err.None? && calls == batches && count == |received|
            case Some(k) => err == Some(InsertFailed(k)) && count == 0 && calls == batches[..k + 1]
  {
    count, err := 0, None;
    calls := [];
    var blocks: seq<Block> := [];
    var i := 0;
    while i < |received|
      invariant 0 <= i <= |received|
      invariant calls + [blocks] == Batches(received[..i], BlockBatchSize)
      invariant |blocks| < BlockBatchSize && count + |blocks| == i
      invariant forall k :: 0 <= k < |calls| ==> !fails(k)
    {
      assert received[..i + 1] == received[..i] + [received[i]];
      var k := |calls|;
      calls, blocks := Push(calls, blocks, received[i], BlockBatchSize, received[..i]);
      if |calls| > k {
        if fails(k) {
          FailedBatch(received, i + 1, calls, blocks, fails, k);
          return 0, Some(InsertFailed(k)), calls;
        }
        count := count + BlockBatchSize;
      }
      i := i + 1;
    }
    assert received[..i] == received;
    var k := |calls|;
    calls := calls + [blocks];
    if fails(k) {
      FirstFailureIs(fails, |calls|, k);
      return 0, Some(InsertFailed(k)), calls;
    }
    count := count + |blocks|;
  }

  /** A write that fails right after a batch is closed is the first failure
      among all the batches of the input. */
  lemma FailedBatch<T>(received: seq<T>, i: nat, calls: seq<seq<T>>, buffer: seq<T>, fails: nat -> bool, k: nat)
    requires i <= |received| && calls + [buffer] == Batches(received[..i], BlockBatchSize)
    requires k + 1 == |calls| && fails(k) && forall j :: 0 <= j < k ==> !fails(j)
    ensures k < |Batches(received, BlockBatchSize)|
    ensures FirstFailure(fails, |Batches(received, BlockBatchSize)|) == Some(k)
    ensures calls == Batches(received, BlockBatchSize)[..k + 1]
  {
    BatchesPrefix(received[..i], received[i..], BlockBatchSize);
    assert received[..i] + received[i..] == received;
    FirstFailureIs(fails, |Batches(received, BlockBatchSize)|, k);
  }

  /** streamInsertTransactions: the same batching by 20; a failing write is
      only logged, so every batch is written and every transaction counted. */
  method StreamInsertTransactions(received: seq<TransactionFull>)
    returns (count: nat, calls: seq<seq<TransactionFull>>)
    ensures calls == Batches(received, TransactionBatchSize)
    ensures count == |received|
  {
    count := 0;
    calls := [];
    var txs: seq<TransactionFull> := [];
    var i := 0;
    while i < |received|
      invariant 0 <= i <= |received|
      invariant calls + [txs] == Batches(received[..i], TransactionBatchSize)
      invariant |txs| < TransactionBatchSize && count + |txs| == i
    {
      assert received[..i + 1] == received[..i] + [received[i]];
      var k := |calls|;
      calls, txs := Push(calls, txs, received[i], TransactionBatchSize, received[..i]);
      if |calls| > k {
        count := count + TransactionBatchSize;
      }
      i := i + 1;
    }
    assert received[..i] == received;
    calls := calls + [txs];
    count := count + |txs|;
  }

  /** What a batcher hands the store: every batch but the last is full, the
      last is not, and together they are the input in order; so a stage
      that stops at the first failing write has written a prefix of its
      input, in full batches. */
  lemma BatchedStages(blocks: seq<Block>, k: nat)
    requires k < |Batches(blocks, BlockBatchSize)|
    ensures Flatten(Batches(blocks, BlockBatchSize)) == blocks
    ensures forall j :: 0 <= j < |Batches(blocks, BlockBatchSize)| - 1 ==>
              |Batches(blocks, BlockBatchSize)[j]| == BlockBatchSize
    ensures Flatten(Batches(blocks, BlockBatchSize)[..k + 1]) <= blocks
  {
    var b := Batches(blocks, BlockBatchSize);
    BatchesShape(blocks, BlockBatchSize);
    FlattenSplit(b, k + 1);
  }

  /** Flattening splits at any point. */
  lemma {:induction false} FlattenSplit<T>(ss: seq<seq<T>>, k: nat)
    requires k <= |ss|
    ensures Flatten(ss) == Flatten(ss[..k]) + Flatten(ss[k..])
  {
    if k > 0 {
      assert ss[1..][..k - 1] == ss[1..k];
      assert ss[1..][k - 1..] == ss[k..];
      FlattenSplit(ss[1..], k - 1);
      assert ss[..k] == [ss[0]] + ss[1..k];
      assert ss[..k][1..] == ss[1..k];
    } else {
      assert ss[..0] == [];
      assert ss[0..] == ss;
    }
  }

  // ---------------------------------------------------------------------------
  // The delete stage of a re-import.

  /** The indices, below `n`, of the deletes that succeeded, in order. */
  function Kept(fails: nat -> bool, n: nat): (ks: seq<nat>)
    ensures forall k :: 0 <= k < |ks| ==> ks[k] < n && !fails(ks[k])
    ensures forall j, k :: 0 <= j < k < |ks| ==> ks[j] < ks[k]
  {
    if n == 0 then [] else Kept(fails, n - 1) + (if fails(n - 1) then [] else [n - 1])
  }

  /** No successful delete is left out. */
  lemma {:induction false} KeptComplete(fails: nat -> bool, n: nat, j: nat)
    requires j < n && !fails(j)
    ensures j in Kept(fails, n)
  {
    if j < n - 1 {
      KeptComplete(fails, n - 1, j);
    }
  }

  /** The blocks the delete stage forwards, in the order it forwards them
      (deletes are numbered in input order). */
  function Deleted<T>(blocks: seq<T>, fails: nat -> bool): (r: seq<T>)
    ensures |r| <= |blocks|
  {
    if blocks == [] then []
    else
      var n := |blocks| - 1;
      Deleted(blocks[..n], fails) + (if fails(n) then [] else [blocks[n]])
  }

  function ProducersOf(blocks: seq<Block>): (ps: seq<Address>)
    ensures |ps| == |blocks| && forall k :: 0 <= k < |ps| ==> ps[k] == blocks[k].producer
  {
    seq(|blocks|, k requires 0 <= k < |blocks| => blocks[k].producer)
  }

  /** One block's transaction hashes, each stamped with the block's time. */
  function Stamped(b: Block): (t: seq<TransactionWithTimestamp>)
    ensures |t| == |b.transactions|
    ensures forall k :: 0 <= k < |t| ==> t[k] == TransactionWithTimestamp(b.transactions[k], b.timeStamp)
  {
    seq(|b.transactions|, k requires 0 <= k < |b.transactions| =>
          TransactionWithTimestamp(b.transactions[k], b.timeStamp))
  }

  function TransactionsOf(blocks: seq<Block>): (t: seq<TransactionWithTimestamp>)
    ensures |t| == TransactionTotal(blocks)
  {
    if blocks == [] then [] else TransactionsOf(blocks[..|blocks| - 1]) + Stamped(blocks[|blocks| - 1])
  }

  /** streamDeleteBlockWithTransactions: a block whose delete fails is
      dropped; any other is forwarded to the block output, its producer to
      the producer output, and its transaction hashes, stamped with the
      block's time, to the transaction output. */
  method StreamDeleteBlockWithTransactions(received: seq<Block>, fails: nat -> bool)
    returns (blockOut: seq<Block>, txOut: seq<TransactionWithTimestamp>, producerOut: seq<Address>)
    ensures blockOut == Deleted(received, fails)
    ensures producerOut == ProducersOf(blockOut)
    ensures txOut == TransactionsOf(blockOut)
  {
    blockOut, txOut, producerOut := [], [], [];
    var i := 0;
    while i < |received|
      invariant 0 <= i <= |received|
      invariant Forwarded(received[..i], fails, blockOut, txOut, producerOut)
    {
      assert received[..i + 1] == received[..i] + [received[i]];
      blockOut, txOut, producerOut := DeleteOne(received[..i], i, received[i], fails, blockOut, txOut, producerOut);
      i := i + 1;
    }
    assert received[..i] == received;
  }

  /** What the stage has sent after the input `blocks`. */
  ghost predicate Forwarded(blocks: seq<Block>, fails: nat -> bool, blockOut: seq<Block>,
                            txOut: seq<TransactionWithTimestamp>, producerOut: seq<Address>)
  {
    blockOut == Deleted(blocks, fails) && producerOut == ProducersOf(blockOut) && txOut == TransactionsOf(blockOut)
  }

  /** Deleting the next block and, if that succeeds, forwarding it. */
  method DeleteOne(ghost blocks: seq<Block>, i: nat, bl: Block, fails: nat -> bool, blockOut: seq<Block>,
                   txOut: seq<TransactionWithTimestamp>, producerOut: seq<Address>)
    returns (blockOut': seq<Block>, txOut': seq<TransactionWithTimestamp>, producerOut': seq<Address>)
    requires i == |blocks| && Forwarded(blocks, fails, blockOut, txOut, producerOut)
    ensures Forwarded(blocks + [bl], fails, blockOut', txOut', producerOut')
  {
    DeletedSnoc(blocks, bl, fails);
    blockOut', txOut', producerOut' := blockOut, txOut, producerOut;
    if !fails(i) {
      ForwardSnoc(blockOut, bl);
      blockOut' := blockOut + [bl];
      producerOut' := producerOut + [bl.producer];
      txOut' := SendStamped(txOut, bl);
    }
  }

  lemma ForwardSnoc(blocks: seq<Block>, b: Block)
    ensures ProducersOf(blocks + [b]) == ProducersOf(blocks) + [b.producer]
    ensures TransactionsOf(blocks + [b]) == TransactionsOf(blocks) + Stamped(b)
  {
    assert (blocks + [b])[..|blocks|] == blocks;
  }

  lemma DeletedSnoc<T>(s: seq<T>, x: T, fails: nat -> bool)
    ensures Deleted(s + [x], fails) == Deleted(s, fails) + (if fails(|s|) then [] else [x])
  {
    assert (s + [x])[..|s|] == s;
  }

  /** Sending one block's transaction hashes, stamped with its time. */
  method SendStamped(txOut: seq<TransactionWithTimestamp>, bl: Block)
    returns (txOut': seq<TransactionWithTimestamp>)
    ensures txOut' == txOut + Stamped(bl)
  {
    txOut' := txOut;
    var k := 0;
    while k < |bl.transactions|
      invariant 0 <= k <= |bl.transactions|
      invariant txOut' == txOut + Stamped(bl)[..k]
    {
      txOut' := txOut' + [TransactionWithTimestamp(bl.transactions[k], bl.timeStamp)];
      assert Stamped(bl)[..k + 1] == Stamped(bl)[..k] + [Stamped(bl)[k]];
      k := k + 1;
    }
    assert Stamped(bl)[..k] == Stamped(bl);
  }

  /** The forwarded blocks are exactly the input blocks whose delete
      succeeded, in input order. */
  lemma {:induction false} DeletedAreKept<T>(blocks: seq<T>, fails: nat -> bool)
    ensures var d, ks := Deleted(blocks, fails), Kept(fails, |blocks|);
            |d| == |ks| && forall k :: 0 <= k < |d| ==> d[k] == blocks[ks[k]]
  {
    if blocks != [] {
      var n := |blocks| - 1;
      var init := blocks[..n];
      DeletedAreKept(init, fails);
      var d, ks := Deleted(blocks, fails), Kept(fails, |blocks|);
      assert d == Deleted(init, fails) + (if fails(n) then [] else [blocks[n]]);
      assert ks == Kept(fails, n) + (if fails(n) then [] else [n]);
      forall k | 0 <= k < |d|
        ensures d[k] == blocks[ks[k]]
      {
        if k < |Deleted(init, fails)| {
          assert d[k] == init[ks[k]];
        }
      }
    }
  }

  /** With no failing delete every block is forwarded. */
  lemma {:induction false} DeletedAll<T>(blocks: seq<T>, fails: nat -> bool)
    requires forall j :: 0 <= j < |blocks| ==> !fails(j)
    ensures Deleted(blocks, fails) == blocks
  {
    if blocks != [] {
      var n := |blocks| - 1;
      DeletedAll(blocks[..n], fails);
      assert blocks == blocks[..n] + [blocks[n]];
    }
  }

  /** Every forwarded transaction carries a hash of a forwarded block and
      that block's time, and there is one per transaction hash of the
      forwarded blocks. */
  lemma {:induction false} TransactionsStamped(blocks: seq<Block>)
    ensures forall k :: 0 <= k < |TransactionsOf(blocks)| ==> Stems(TransactionsOf(blocks)[k], blocks)
  {
    if blocks != [] {
      var n := |blocks| - 1;
      var init := blocks[..n];
      TransactionsStamped(init);
      var t := TransactionsOf(blocks);
      assert t == TransactionsOf(init) + Stamped(blocks[n]);
      forall k | 0 <= k < |t|
        ensures Stems(t[k], blocks)
      {
        if k < |TransactionsOf(init)| {
          assert Stems(t[k], init);
          var i :| 0 <= i < |init| && t[k].hash in init[i].transactions && t[k].timestamp == init[i].timeStamp;
          assert blocks[i] == init[i];
        } else {
          var i := k - |TransactionsOf(init)|;
          assert t[k] == Stamped(blocks[n])[i];
          assert t[k].hash == blocks[n].transactions[i];
        }
      }
    }
  }

  /** `t` carries a transaction hash of one of `blocks` and that block's time. */
  predicate Stems(t: TransactionWithTimestamp, blocks: seq<Block>)
  {
    exists i :: 0 <= i < |blocks| && t.hash in blocks[i].transactions && t.timestamp == blocks[i].timeStamp
  }

  function TransactionTotal(blocks: seq<Block>): nat
  {
    if blocks == [] then 0 else TransactionTotal(blocks[..|blocks| - 1]) + |blocks[|blocks| - 1].transactions|
  }

  // ---------------------------------------------------------------------------
  // The producer-reward aggregator.

  /** The reward per block: 3171 units of 10^-4 coin, that is 3171·10^14 wei. */
  const BlockReward: nat := 3171 * 100_000_000_000_000
  const ProducerBufferSize: nat := 50

  datatype Producer = Producer(address: Address, producedBlocksCount: nat, blockRewards: nat)

  /** A record as the aggregator builds it: at least one block, and rewards
      of one block reward per block. */
  predicate Consistent(p: Producer)
  {
    p.producedBlocksCount >= 1 && p.blockRewards == p.producedBlocksCount * BlockReward
  }

  ghost predicate Pending(producers: map<Address, Producer>)
  {
    forall a :: a in producers ==> producers[a].address == a && Consistent(producers[a])
  }

  function CountOf(producers: map<Address, Producer>, a: Address): nat
  {
    if a in producers then producers[a].producedBlocksCount else 0
  }

  /** The blocks the written records credit to `a`. */
  function CountFor(written: seq<Producer>, a: Address): nat
  {
    if written == [] then 0
    else
      var p := written[|written| - 1];
      CountFor(written[..|written| - 1], a) + (if p.address == a then p.producedBlocksCount else 0)
  }

  /** The blocks the written records credit to anyone. */
  function CountSum(written: seq<Producer>): nat
  {
    if written == [] then 0 else CountSum(written[..|written| - 1]) + written[|written| - 1].producedBlocksCount
  }

  ghost function Counts(producers: map<Address, Producer>): map<Address, nat>
  {
    map a | a in producers :: producers[a].producedBlocksCount
  }

  lemma WrittenSnoc(written: seq<Producer>, p: Producer)
    ensures forall a :: CountFor(written + [p], a) ==
              CountFor(written, a) + (if p.address == a then p.producedBlocksCount else 0)
    ensures CountSum(written + [p]) == CountSum(written) + p.producedBlocksCount
  {
    assert (written + [p])[..|written|] == written;
  }

  /** Crediting one block to `address`: a first block creates its record
      with a count of 1, a later one adds 1 and one block reward. */
  function Credit(producers: map<Address, Producer>, address: Address): map<Address, Producer>
  {
    if address !in producers then producers[address := Producer(address, 1, BlockReward)]
    else
      var p := producers[address];
      producers[address := p.(producedBlocksCount := p.producedBlocksCount + 1,
                              blockRewards := p.blockRewards + BlockReward)]
  }

  /** Crediting keeps every record consistent and adds exactly one block, to
      `address`. */
  lemma CreditFacts(producers: map<Address, Producer>, address: Address)
    requires Pending(producers)
    ensures Pending(Credit(producers, address))
    ensures forall a :: CountOf(Credit(producers, address), a) ==
              CountOf(producers, a) + (if a == address then 1 else 0)
    ensures MapSum(Counts(Credit(producers, address))) == MapSum(Counts(producers)) + 1
  {
    var c := Credit(producers, address);
    assert Counts(c) == Counts(producers)[address := CountOf(producers, address) + 1];
    MapSumUpdate(Counts(producers), address, CountOf(producers, address) + 1);
  }

  /** How far a flush has got: the records written since `written` plus
      those still pending credit every address, and all addresses, with
      what was pending at the start. */
  ghost predicate Flushed(written: seq<Producer>, producers: map<Address, Producer>,
                          written': seq<Producer>, producers': map<Address, Producer>)
  {
    |written| <= |written'| && written'[..|written|] == written &&
    (forall a :: CountFor(written', a) + CountOf(producers', a) == CountFor(written, a) + CountOf(producers, a)) &&
    CountSum(written') + MapSum(Counts(producers')) == CountSum(written) + MapSum(Counts(producers))
  }

  /** Writing one pending record and removing it keeps the tally. */
  lemma FlushStep(written: seq<Producer>, producers: map<Address, Producer>,
                  written': seq<Producer>, producers': map<Address, Producer>, a: Address)
    requires Flushed(written, producers, written', producers') && Pending(producers') && a in producers'
    ensures Flushed(written, producers, written' + [producers'[a]], producers' - {a})
    ensures Pending(producers' - {a})
  {
    var prod := producers'[a];
    WrittenSnoc(written', prod);
    MapSumRemove(Counts(producers'), a);
    assert Counts(producers' - {a}) == Counts(producers') - {a};
    assert (written' + [prod])[..|written|] == written'[..|written|];
    forall x
      ensures CountFor(written' + [prod], x) + CountOf(producers' - {a}, x) ==
              CountFor(written', x) + CountOf(producers', x)
    {
    }
  }

  /** Writing every pending record, in an arbitrary order, and removing each
      from the map once written; the first failing write stops the flush. */
  method FlushProducers(producers: map<Address, Producer>, written: seq<Producer>, fails: nat -> bool)
    returns (producers': map<Address, Producer>, written': seq<Producer>, failed: bool)
    requires Pending(producers) && forall k :: 0 <= k < |written| ==> Consistent(written[k])
    ensures forall k :: 0 <= k < |written'| ==> Consistent(written'[k])
    ensures |written| <= |written'| && written'[..|written|] == written
    ensures forall k :: |written| <= k < |written'| ==> !fails(k)
    ensures failed ==> fails(|written'|)
    ensures !failed ==> producers' == map[]
    ensures !failed ==> forall a :: CountFor(written', a) == CountFor(written, a) + CountOf(producers, a)
    ensures !failed ==> CountSum(written') == CountSum(written) + MapSum(Counts(producers))
  {
    producers', written' := producers, written;
    while producers' != map[]
      invariant Pending(producers') && forall k :: 0 <= k < |written'| ==> Consistent(written'[k])
      invariant Flushed(written, producers, written', producers')
      invariant forall k :: |written| <= k < |written'| ==> !fails(k)
      decreases |producers'.Keys|
    {
      var a :| a in producers';
      if fails(|written'|) {
        return producers', written', true;
      }
      FlushStep(written, producers, written', producers', a);
      written' := written' + [producers'[a]];
      producers' := producers' - {a};
    }
    assert Counts(producers') == map[];
    assert forall a :: CountOf(producers', a) == 0;
    return producers', written', false;
  }

  /** The records written plus those pending credit each address with the
      blocks received for it, and all addresses with every block received. */
  ghost predicate Tallied(written: seq<Producer>, producers: map<Address, Producer>, prefix: seq<Address>)
  {
    (forall a :: CountFor(written, a) + CountOf(producers, a) == Occurrences(prefix, a)) &&
    CountSum(written) + MapSum(Counts(producers)) == |prefix|
  }

  lemma TallyCredit(written: seq<Producer>, producers: map<Address, Producer>, prefix: seq<Address>, x: Address)
    requires Tallied(written, producers, prefix) && Pending(producers)
    ensures Tallied(written, Credit(producers, x), prefix + [x]) && Pending(Credit(producers, x))
  {
    CreditFacts(producers, x);
    assert (prefix + [x])[..|prefix|] == prefix;
  }

  lemma TallyFlush(written: seq<Producer>, producers: map<Address, Producer>, prefix: seq<Address>,
                   written': seq<Producer>)
    requires Tallied(written, producers, prefix)
    requires forall a :: CountFor(written', a) == CountFor(written, a) + CountOf(producers, a)
    requires CountSum(written') == CountSum(written) + MapSum(Counts(producers))
    ensures Tallied(written', map[], prefix)
    ensures CountSum(written') == |prefix| && forall a :: CountFor(written', a) == Occurrences(prefix, a)
  {
    assert Counts(map[]) == map[];
  }

  /** The aggregator between two received addresses: fewer than 50
      records pending, every record consistent, every write so far
      successful, and the tally of what has been received kept. */
  ghost predicate Aggregating(written: seq<Producer>, producers: map<Address, Producer>,
                              fails: nat -> bool, prefix: seq<Address>)
  {
    |producers.Keys| < ProducerBufferSize && Pending(producers) &&
    WrittenOk(written, fails) && Tallied(written, producers, prefix)
  }

  /** Every record written is consistent, and every write succeeded. */
  predicate WrittenOk(written: seq<Producer>, fails: nat -> bool)
  {
    forall k :: 0 <= k < |written| ==> Consistent(written[k]) && !fails(k)
  }

  /** The records written credit each address with exactly the blocks
      received for it, and all of them with every block received. */
  ghost predicate Credits(written: seq<Producer>, received: seq<Address>)
  {
    CountSum(written) == |received| && forall a :: CountFor(written, a) == Occurrences(received, a)
  }

  /** One received address: credit it, and flush when 50 records are
      pending. */
  method Receive(producers: map<Address, Producer>, written: seq<Producer>, fails: nat -> bool,
                 address: Address, ghost prefix: seq<Address>)
    returns (producers': map<Address, Producer>, written': seq<Producer>, failed: bool)
    requires Aggregating(written, producers, fails, prefix)
    ensures failed ==> fails(|written'|) && WrittenOk(written', fails)
    ensures !failed ==> Aggregating(written', producers', fails, prefix + [address])
  {
    TallyCredit(written, producers, prefix, address);
    producers', written', failed := Credit(producers, address), written, false;
    if |producers'.Keys| >= ProducerBufferSize {
      var pending := producers';
      producers', written', failed := FlushProducers(producers', written', fails);
      if !failed {
        TallyFlush(written, pending, prefix + [address], written');
      }
    }
  }

  /** streamInsertProducers: every received address credits one block to
      its producer's record; when 50 records are pending they are all
      written and removed; at the end the rest are written. A failing write
      ends the stage with a count of 0. On success the records written
      credit each address with exactly the blocks it was received for, so
      their counts sum to the number received. */
  method StreamInsertProducers(received: seq<Address>, fails: nat -> bool)
    returns (count: nat, err: Option<StageError>, written: seq<Producer>)
    ensures WrittenOk(written, fails)
    ensures err.Some? ==> count == 0 && err == Some(InsertFailed(|written|)) && fails(|written|)
    ensures err.None? ==> count == |written| && Credits(written, received)
  {
    var producers: map<Address, Producer> := map[];
    written := [];
    var i := 0;
    var failed := false;
    assert Counts(producers) == map[];
    while i < |received| && !failed
      invariant 0 <= i <= |received|
      invariant !failed ==> Aggregating(written, producers, fails, received[..i])
      invariant failed ==> fails(|written|) && WrittenOk(written, fails)
    {
      assert received[..i + 1] == received[..i] + [received[i]];
      producers, written, failed := Receive(producers, written, fails, received[i], received[..i]);
      i := i + 1;
    }
    if !failed {
      assert received[..i] == received;
      written, failed := Finish(producers, written, fails, received);
    }
    if failed {
      return 0, Some(InsertFailed(|written|)), written;
    }
    return |written|, None, written;
  }

  /** The final flush once the input ends. */
  method Finish(producers: map<Address, Producer>, written: seq<Producer>, fails: nat -> bool,
                ghost received: seq<Address>)
    returns (written': seq<Producer>, failed: bool)
    requires Aggregating(written, producers, fails, received)
    ensures WrittenOk(written', fails)
    ensures failed ==> fails(|written'|)
    ensures !failed ==> Credits(written', received)
  {
    var rest;
    rest, written', failed := FlushProducers(producers, written, fails);
    if !failed {
      TallyFlush(written, producers, received, written');
    }
  }

  // ---------------------------------------------------------------------------
  // The rich-list scan.

  const MaxAccountsPerRun: nat := 1_000_000
  const MaxBlocksPerRun: nat := 500_000
  const PrecisionFactor: nat := 100_000_000_000_000

  /** 0x0000000000000000000000000000000000000101, dropped before balances
      are fetched. */
  const SystemContractAddress: Address := Zeros(18) + [1, 1]

  /** The height the scan stops before, as the crawler computes it: the
      difference `tip - first` is taken in uint64, so a stored cursor above
      the node's tip wraps it and the cap applies. */
  function ScanEndAsWritten(first: nat, tip: nat): (last: nat)
    requires first < Uint64Limit && tip < Uint64Limit
    ensures last < Uint64Limit
    ensures first <= tip && tip - first <= MaxBlocksPerRun ==> last == tip
    ensures first <= tip && tip - first > MaxBlocksPerRun ==> last == first + MaxBlocksPerRun
    ensures first + MaxBlocksPerRun < Uint64Limit ==> last <= first + MaxBlocksPerRun
  {
    if Sub64(tip, first) > MaxBlocksPerRun then Add64(first, MaxBlocksPerRun) else tip
  }

  /** A cursor five blocks above the tip: the wrapped difference exceeds the
      cap, so the scan is sent 500000 blocks past the cursor, far beyond
      the tip. */
  lemma ScanEndAsWrittenWraps()
    ensures ScanEndAsWritten(10, 5) == 10 + MaxBlocksPerRun
  {
    assert Sub64(5, 10) == Uint64Limit - 5;
  }

  /** The height the scan stops before, as intended: the tip, but no more
      than `MaxBlocksPerRun` past the stored cursor, and nothing to scan
      when the cursor is already above the tip. */
  function ScanEnd(first: nat, tip: nat): (last: nat)
    requires first < Uint64Limit && tip < Uint64Limit
    ensures last < Uint64Limit
    ensures first <= tip ==> first <= last <= tip && last <= first + MaxBlocksPerRun
    ensures first <= tip && tip - first <= MaxBlocksPerRun ==> last == tip
    ensures tip < first ==> last == first
  {
    if tip < first then first
    else if tip - first > MaxBlocksPerRun then first + MaxBlocksPerRun
    else tip
  }

  /** The two agree whenever the cursor is not above the tip. */
  lemma ScanEndAgrees(first: nat, tip: nat)
    requires first < Uint64Limit && tip < Uint64Limit && first <= tip
    ensures ScanEnd(first, tip) == ScanEndAsWritten(first, tip)
  {
  }

  /** A block and its transactions, as the scan reads them. */
  datatype Fetched = Fetched(block: Block, txs: seq<TransactionFull>)

  /** The read at height `h`: the block GetBlockByID returns for that
      number, which is the zero block when no row has it, and the
      transactions a query by its hash returns. */
  function Read(blocks: map<nat, Db.BlockRow>, txsOf: Hash -> seq<TransactionFull>, h: nat): Fetched
  {
    var b := Db.GetBlockByID(blocks, h);
    Fetched(b, txsOf(b.hash))
  }

  /** A height with no stored block reads without error as block 0,
      produced by the zero address, with the transactions of the zero hash. */
  lemma ReadMissing(blocks: map<nat, Db.BlockRow>, txsOf: Hash -> seq<TransactionFull>, h: nat)
    requires h !in blocks
    ensures var f := Read(blocks, txsOf, h);
            f.block.number == 0 && f.block.producer == ZeroAddress && f.txs == txsOf(ZeroHash)
  {
    assert Zeros(20) + [] == ZeroAddress;
  }

  /** The scan's store: the heights at which neither query fails, each
      with what the two queries return there. A height with no stored
      block is among them. */
  ghost predicate ReadFrom(store: map<nat, Fetched>, blocks: map<nat, Db.BlockRow>,
                           txsOf: Hash -> seq<TransactionFull>)
  {
    forall h :: h in store ==> store[h] == Read(blocks, txsOf, h)
  }

  /** The accounts one block touches, each with the block's number, in the
      order the scan records them: the producer, then each transaction's
      sender and recipient (when it has one). */
  function Touches(f: Fetched): seq<(Address, nat)>
  {
    [(f.block.producer, f.block.number)] + TxTouches(f.txs, f.block.number)
  }

  function TxTouches(txs: seq<TransactionFull>, n: nat): seq<(Address, nat)>
  {
    if txs == [] then []
    else
      var tx := txs[|txs| - 1].tx;
      TxTouches(txs[..|txs| - 1], n) + [(tx.from, n)] + (if tx.to.Some? then [(tx.to.value, n)] else [])
  }

  /** The `n` heights from `first` on were all read without error. */
  predicate Stored(store: map<nat, Fetched>, first: nat, n: nat)
  {
    forall j :: first <= j < first + n ==> j in store
  }

  /** The touches of the `n` heights from `first` on, in scan order. */
  function Touched(store: map<nat, Fetched>, first: nat, n: nat): seq<(Address, nat)>
    requires Stored(store, first, n)
  {
    if n == 0 then [] else Touched(store, first, n - 1) + Touches(store[first + n - 1])
  }

  lemma TouchedSnoc(store: map<nat, Fetched>, first: nat, n: nat)
    requires Stored(store, first, n) && first + n in store
    ensures Stored(store, first, n + 1)
    ensures Touched(store, first, n + 1) == Touched(store, first, n) + Touches(store[first + n])
  {
  }

  /** How many distinct accounts those blocks touch. */
  function TouchedCount(store: map<nat, Fetched>, first: nat, n: nat): nat
    requires Stored(store, first, n)
  {
    |LastWins(Touched(store, first, n))|
  }

  /** Recording one block's touches: each touched account is set to the
      block's number, in the order `Touches` lists them. */
  method TouchBlock(accounts: map<Address, nat>, f: Fetched, ghost before: seq<(Address, nat)>)
    returns (accounts': map<Address, nat>)
    requires accounts == LastWins(before)
    ensures accounts' == LastWins(before + Touches(f))
  {
    accounts' := Assign(accounts, before, Touches(f));
  }

  /** Assigning `m[k] = v` for each pair in order. */
  method Assign<K, V>(m: map<K, V>, ghost before: seq<(K, V)>, pairs: seq<(K, V)>) returns (m': map<K, V>)
    requires m == LastWins(before)
    ensures m' == LastWins(before + pairs)
  {
    m' := m;
    assert before + pairs[..0] == before;
    var k := 0;
    while k < |pairs|
      invariant 0 <= k <= |pairs|
      invariant m' == LastWins(before + pairs[..k])
    {
      LastWinsSnoc(before + pairs[..k], pairs[k]);
      assert before + pairs[..k + 1] == before + pairs[..k] + [pairs[k]];
      m' := m'[pairs[k].0 := pairs[k].1];
      k := k + 1;
    }
    assert pairs[..k] == pairs;
  }

  /** The scan from the stored cursor `first` up to `last`: it stops at the
      first height where a query fails (a height missing from `store`), or
      right after the block that takes the touched accounts past
      `MaxAccountsPerRun`; the cursor it returns is the height it stopped at
      (that height is scanned again next run). Each touched account maps to
      the number of the last block it was touched in. */
  method ScanAccounts(first: nat, last: nat, store: map<nat, Fetched>)
    returns (accounts: map<Address, nat>, cursor: nat, ghost scanned: nat)
    ensures first <= cursor && (first <= last ==> cursor <= last) && (first > last ==> cursor == first)
    ensures Scanned(store, first, scanned, accounts)
    ensures scanned == cursor - first ==> |accounts| <= MaxAccountsPerRun
    ensures scanned == cursor - first && cursor < last ==> cursor !in store
    ensures scanned != cursor - first ==>
              scanned == cursor + 1 - first && |accounts| > MaxAccountsPerRun &&
              TouchedCount(store, first, cursor - first) <= MaxAccountsPerRun
  {
    accounts := map[];
    var i := first;
    ghost var n := 0;
    while i < last
      invariant i == first + n && (first <= last ==> i <= last) && (first > last ==> n == 0)
      invariant Scanned(store, first, n, accounts) && |accounts| <= MaxAccountsPerRun
    {
      if i !in store {
        break;
      }
      var next := ScanBlock(store, first, n, accounts, store[i]);
      if |next| > MaxAccountsPerRun {
        return next, i, n + 1;
      }
      accounts := next;
      i, n := i + 1, n + 1;
    }
    return accounts, i, n;
  }

  /** The scan after `n` heights from `first`: all of them were read and
      the accounts are exactly those they touch. */
  ghost predicate Scanned(store: map<nat, Fetched>, first: nat, n: nat, accounts: map<Address, nat>)
  {
    Stored(store, first, n) && accounts == LastWins(Touched(store, first, n))
  }

  /** Recording the next block of the scan. */
  method ScanBlock(store: map<nat, Fetched>, first: nat, ghost n: nat, accounts: map<Address, nat>,
                   f: Fetched)
    returns (accounts': map<Address, nat>)
    requires Scanned(store, first, n, accounts) && first + n in store && store[first + n] == f
    ensures Scanned(store, first, n + 1, accounts')
    ensures |accounts| == TouchedCount(store, first, n)
  {
    TouchedSnoc(store, first, n);
    accounts' := TouchBlock(accounts, f, Touched(store, first, n));
  }

  /** The accounts touched only grow as the scan goes on, so a scan that
      stops on the cap was under it at every earlier block. */
  lemma {:induction false} TouchedGrows(store: map<nat, Fetched>, first: nat, m: nat, n: nat)
    requires m <= n && Stored(store, first, n)
    ensures Stored(store, first, m) && TouchedCount(store, first, m) <= TouchedCount(store, first, n)
    decreases n - m
  {
    if m < n {
      TouchedGrows(store, first, m + 1, n);
      TouchedSnoc(store, first, m);
      LastWinsGrows(Touched(store, first, m), Touches(store[first + m]));
    }
  }

  /** A height with no stored block does not stop the scan: it is read as
      the zero block, so once the scan has passed it the zero address is
      among the accounts, at block number 0 unless a later block touches it. */
  lemma MissingHeightRecorded(store: map<nat, Fetched>, blocks: map<nat, Db.BlockRow>,
                              txsOf: Hash -> seq<TransactionFull>, first: nat, n: nat, h: nat)
    requires ReadFrom(store, blocks, txsOf) && Stored(store, first, n)
    requires first <= h < first + n && h !in blocks
    ensures ZeroAddress in LastWins(Touched(store, first, n))
  {
    MissingHeightTouch(store, blocks, txsOf, h);
    ProducerRecorded(store, first, n, h);
  }

  /** Once the scan has passed a height, that block's producer is among the
      accounts. */
  lemma {:induction false} ProducerRecorded(store: map<nat, Fetched>, first: nat, n: nat, h: nat)
    requires Stored(store, first, n) && first <= h < first + n
    ensures store[h].block.producer in LastWins(Touched(store, first, n))
    decreases n
  {
    var m := n - 1;
    TouchedSnoc(store, first, m);
    if h == first + m {
      FirstTouchKept(Touched(store, first, m), Touches(store[h]));
    } else {
      ProducerRecorded(store, first, m, h);
      LastWinsGrows(Touched(store, first, m), Touches(store[first + m]));
    }
  }

  /** The first pair of what is appended names a key of the result. */
  lemma FirstTouchKept(before: seq<(Address, nat)>, here: seq<(Address, nat)>)
    requires |here| > 0
    ensures here[0].0 in LastWins(before + here)
  {
    assert (before + here)[|before|] == here[0];
    LastWinsKeys(before + here, here[0].0);
  }

  /** A height with no stored block is recorded as block 0 produced by the
      zero address. */
  lemma MissingHeightTouch(store: map<nat, Fetched>, blocks: map<nat, Db.BlockRow>,
                           txsOf: Hash -> seq<TransactionFull>, h: nat)
    requires ReadFrom(store, blocks, txsOf) && h in store && h !in blocks
    ensures store[h].block.producer == ZeroAddress && store[h].block.number == 0
  {
    ReadMissing(blocks, txsOf, h);
  }

  /** A row of the balance table. */
  datatype BalanceRow = BalanceRow(address: Address, liquid: nat, staked: nat, blockNumber: nat)

  /** The liquid balance stored: the wei balance in units of 10^-4 coin,
      truncated to its low 64 bits as big.Int's Uint64 does. */
  function Liquid(balance: nat): (l: nat)
    ensures l < Uint64Limit
    ensures balance < Uint64Limit * PrecisionFactor ==> l == balance / PrecisionFactor
    ensures l * PrecisionFactor <= balance
  {
    (balance / PrecisionFactor) % Uint64Limit
  }

  /** The row written for a touched account, if its balance and its stake
      can both be read. */
  function RowFor(accounts: map<Address, nat>, balanceOf: Address -> Option<nat>,
                  stakedOf: Address -> Option<nat>, a: Address): (r: Option<BalanceRow>)
    requires a in accounts
    ensures r.Some? <==> balanceOf(a).Some? && stakedOf(a).Some?
    ensures r.Some? ==> r.value.address == a && r.value.blockNumber == accounts[a] &&
                        r.value.liquid == Liquid(balanceOf(a).value) && r.value.staked == stakedOf(a).value
  {
    match balanceOf(a)
    case None => None
    case Some(balance) =>
      match stakedOf(a)
      case None => None
      case Some(staked) => Some(BalanceRow(a, Liquid(balance), staked, accounts[a]))
  }

  /** Writing a balance row for every touched account, in an arbitrary
      order; an account whose balance or stake cannot be read is skipped.
      Every row is the one its account calls for, each account has at most
      one, and every account that calls for one has one. */
  method UpdateBalances(accounts: map<Address, nat>, balanceOf: Address -> Option<nat>,
                        stakedOf: Address -> Option<nat>)
    returns (rows: seq<BalanceRow>)
    ensures forall k :: 0 <= k < |rows| ==>
              rows[k].address in accounts && RowFor(accounts, balanceOf, stakedOf, rows[k].address) == Some(rows[k])
    ensures forall a :: a in accounts && RowFor(accounts, balanceOf, stakedOf, a).Some? ==>
              exists k :: 0 <= k < |rows| && rows[k].address == a
    ensures forall j, k :: 0 <= j < k < |rows| ==> rows[j].address != rows[k].address
  {
    rows := [];
    var todo := accounts.Keys;
    ghost var index: map<Address, nat> := map[];
    while todo != {}
      invariant todo <= accounts.Keys
      invariant forall k :: 0 <= k < |rows| ==>
                  rows[k].address in accounts && rows[k].address !in todo &&
                  RowFor(accounts, balanceOf, stakedOf, rows[k].address) == Some(rows[k])
      invariant forall a :: a in index ==> index[a] < |rows| && rows[index[a]].address == a
      invariant forall a :: a in accounts && a !in todo && RowFor(accounts, balanceOf, stakedOf, a).Some? ==>
                  a in index
      invariant forall j, k :: 0 <= j < k < |rows| ==> rows[j].address != rows[k].address
      decreases todo
    {
      var address :| address in todo;
      todo := todo - {address};
      var bigBalance := balanceOf(address);
      if bigBalance.None? {
        continue;
      }
      var liquid := Liquid(bigBalance.value);
      var staked := stakedOf(address);
      if staked.None? {
        continue;
      }
      index := index[address := |rows|];
      rows := rows + [BalanceRow(address, liquid, staked.value, accounts[address])];
    }
    forall a | a in accounts && RowFor(accounts, balanceOf, stakedOf, a).Some?
      ensures exists k :: 0 <= k < |rows| && rows[k].address == a
    {
      assert rows[index[a]].address == a;
    }
  }

  /** doRichlist: scan from the stored cursor, drop the system contract,
      write the balances of the accounts touched, and return the cursor to
      store for the next run. `store` holds what the block and transaction
      queries return at the heights where neither fails, so a height with
      no stored block is scanned as the zero block; `scanned` is the number
      of heights whose accounts were recorded. */
  method RichList(first: nat, tip: nat, store: map<nat, Fetched>,
                  ghost blocks: map<nat, Db.BlockRow>, ghost txsOf: Hash -> seq<TransactionFull>,
                  balanceOf: Address -> Option<nat>, stakedOf: Address -> Option<nat>)
    returns (cursor: nat, rows: seq<BalanceRow>, ghost scanned: nat)
    requires first < Uint64Limit && tip < Uint64Limit
    requires ReadFrom(store, blocks, txsOf)
    ensures first <= cursor <= first + MaxBlocksPerRun
    ensures first <= tip ==> cursor <= tip
    ensures tip < first ==> cursor == first
    ensures Stored(store, first, scanned) && (scanned == cursor - first || scanned == cursor + 1 - first)
    ensures cursor < ScanEnd(first, tip) ==>
              cursor !in store ||
              (scanned == cursor + 1 - first && TouchedCount(store, first, scanned) > MaxAccountsPerRun)
    ensures var touched := LastWins(Touched(store, first, scanned));
            forall k :: 0 <= k < |rows| ==>
              rows[k].address in touched && rows[k].address != SystemContractAddress &&
              rows[k].blockNumber == touched[rows[k].address] &&
              balanceOf(rows[k].address).Some? && stakedOf(rows[k].address).Some? &&
              rows[k].liquid == Liquid(balanceOf(rows[k].address).value) &&
              rows[k].staked == stakedOf(rows[k].address).value
    ensures var touched := LastWins(Touched(store, first, scanned));
            forall a :: a in touched && a != SystemContractAddress &&
                        balanceOf(a).Some? && stakedOf(a).Some? ==>
              exists k :: 0 <= k < |rows| && rows[k].address == a
    ensures forall j, k :: 0 <= j < k < |rows| ==> rows[j].address != rows[k].address
  {
    var last := ScanEnd(first, tip);
    var accounts;
    accounts, cursor, scanned := ScanAccounts(first, last, store);
    ghost var touched := accounts;
    accounts := accounts - {SystemContractAddress};
    rows := UpdateBalances(accounts, balanceOf, stakedOf);
    forall a | a in touched && a != SystemContractAddress && balanceOf(a).Some? && stakedOf(a).Some?
      ensures exists k :: 0 <= k < |rows| && rows[k].address == a
    {
      assert a in accounts && RowFor(accounts, balanceOf, stakedOf, a).Some?;
    }
  }
}
