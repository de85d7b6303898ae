/** The one-shot `fetchblocks` command (main.go): it downloads the heights
    from one past the newest stored block up to the node's tip with a pool
    of stride workers, and inserts transactions one at a time. Blocks go
    through the same 400-block batcher as the crawler
    (Crawler.StreamInsertBlocks). */
module LegacySync {
  import opened Common
  import opened Models
  import Ipc
  import Db

  // ---------------------------------------------------------------------------
  // streamInsertTransactions: one insert per transaction.

  /** Every received transaction is inserted in a call of its own, and one
      more call with an empty batch follows the end of the stream. Insert
      errors are not looked at. */
  method StreamInsertTransactionsEach(received: seq<Transaction>)
    returns (calls: seq<seq<Transaction>>)
    ensures |calls| == |received| + 1
    ensures forall k :: 0 <= k < |received| ==> calls[k] == [received[k]]
    ensures calls[|received|] == []
  {
    calls := [];
    var i := 0;
    while i < |received|
      invariant 0 <= i <= |received|
      invariant |calls| == i
      invariant forall k :: 0 <= k < i ==> calls[k] == [received[k]]
    {
      var txs := [received[i]];
      calls := calls + [txs];
      i := i + 1;
    }
    calls := calls + [[]];
  }

  /** Calls shaped as StreamInsertTransactionsEach makes them hand the
      database every received transaction exactly once, in order. */
  lemma {:induction false} EachInsertedOnce(received: seq<Transaction>, calls: seq<seq<Transaction>>)
    requires |calls| == |received| + 1
    requires forall k :: 0 <= k < |received| ==> calls[k] == [received[k]]
    requires calls[|received|] == []
    ensures Flatten(calls) == received
    decreases |received|
  {
    if received == [] {
      assert calls == [[]];
      assert Flatten(calls) == [] + Flatten(calls[1..]);
      assert calls[1..] == [];
    } else {
      EachInsertedOnce(received[1..], calls[1..]);
      assert Flatten(calls) == calls[0] + Flatten(calls[1..]);
    }
  }

  // ---------------------------------------------------------------------------
  // The sync range.

  /** The first height to fetch: one past the newest stored block, computed
      by `first++` on a uint64. */
  function SyncFirst(latestStored: nat): (first: nat)
    requires latestStored < Uint64Limit
    ensures first < Uint64Limit
    ensures latestStored + 1 < Uint64Limit ==> first == latestStored + 1 && first > latestStored
    ensures latestStored + 1 == Uint64Limit ==> first == 0
  {
    Add64(latestStored, 1)
  }

  // ---------------------------------------------------------------------------
  // The worker pool.

  /** The StreamBlocks call of one worker: its stride and its offset. */
  datatype Worker = Worker(stride: int, offset: int)

  /** The launch loop: `threads` workers with offsets 0, 1, ..., threads - 1,
      all with stride `threads`, and the shared counter set to `threads`. */
  method LaunchWorkers(threads: int) returns (workers: seq<Worker>, ops: int)
    ensures ops == threads
    ensures |workers| == if threads > 0 then threads else 0
    ensures forall k :: 0 <= k < |workers| ==> workers[k] == Worker(threads, k)
  {
    ops := threads;
    workers := [];
    var i := 0;
    while i < threads
      invariant 0 <= i <= (if threads > 0 then threads else 0)
      invariant |workers| == i
      invariant forall k :: 0 <= k < i ==> workers[k] == Worker(threads, k)
    {
      workers := workers + [Worker(threads, i)];
      i := i + 1;
    }
  }

  /** Worker `w` requests height `h` of [first, last]. */
  predicate Requests(first: nat, last: nat, w: Worker, h: nat)
  {
    w.stride > 0 && w.offset >= 0 && first <= last + 1 &&
    h in Ipc.StrideHeights(first, last + 1 - first, w.stride, w.offset)
  }

  /** The launched workers split [first, last]: every height is requested by
      one worker and by no other, and no worker strays outside the range. */
  lemma WorkersPartitionRange(first: nat, last: nat, threads: nat, workers: seq<Worker>, h: nat)
    requires threads > 0 && first <= last + 1
    requires |workers| == threads
    requires forall k :: 0 <= k < |workers| ==> workers[k] == Worker(threads, k)
    ensures first <= h <= last ==> exists k :: 0 <= k < |workers| && Requests(first, last, workers[k], h)
    ensures forall k :: 0 <= k < |workers| && Requests(first, last, workers[k], h) ==>
              first <= h <= last && k == (h - first) % threads
  {
    var count := last + 1 - first;
    Ipc.StrideHeightsPartition(first, count, threads, h);
    if first <= h <= last {
      var o := (h - first) % threads;
      assert workers[o] == Worker(threads, o);
      assert Requests(first, last, workers[o], h);
    }
    forall k | 0 <= k < |workers| && Requests(first, last, workers[k], h)
      ensures first <= h <= last && k == (h - first) % threads
    {
      assert workers[k] == Worker(threads, k);
    }
  }

  /** Every height worker `o` requests is available from the node. */
  ghost predicate WorkerOk(node: Ipc.Node, first: nat, count: nat, stride: nat, o: nat)
    requires stride > 0
  {
    var hs := Ipc.StrideHeights(first, count, stride, o);
    forall i :: 0 <= i < |hs| ==> node(hs[i]).Some?
  }

  /** All workers of a pool get through exactly when the node has every
      height of the range. */
  lemma AllWorkersOk(node: Ipc.Node, first: nat, count: nat, stride: nat)
    requires stride > 0
    ensures (forall o :: 0 <= o < stride ==> WorkerOk(node, first, count, stride, o)) <==>
            (forall h :: first <= h < first + count ==> node(h).Some?)
  {
    if forall o :: 0 <= o < stride ==> WorkerOk(node, first, count, stride, o) {
      forall h | first <= h < first + count
        ensures node(h).Some?
      {
        var o := (h - first) % stride;
        Ipc.StrideHeightsCover(first, count, stride, h);
        assert WorkerOk(node, first, count, stride, o);
        var hs := Ipc.StrideHeights(first, count, stride, o);
        var i :| 0 <= i < |hs| && hs[i] == h;
      }
    }
    if forall h :: first <= h < first + count ==> node(h).Some? {
      forall o | 0 <= o < stride
        ensures WorkerOk(node, first, count, stride, o)
      {
        var hs := Ipc.StrideHeights(first, count, stride, o);
        forall i | 0 <= i < |hs|
          ensures node(hs[i]).Some?
        {
          Ipc.StrideHeightsOwner(first, count, stride, o, hs[i]);
        }
      }
    }
  }

  /** Worker `o` has sent the blocks at the first heights it requests. */
  ghost predicate SentInOrder(node: Ipc.Node, first: nat, count: nat, stride: nat, o: nat, sent: seq<Block>)
    requires stride > 0
  {
    var hs := Ipc.StrideHeights(first, count, stride, o);
    |sent| <= |hs| && forall j :: 0 <= j < |sent| ==> node(hs[j]) == Some(sent[j])
  }

  /** Worker `o` has sent the blocks at its heights in order, all of them
      exactly when the node has them all, and otherwise up to the first
      height the node does not have. */
  ghost predicate WorkerSent(node: Ipc.Node, first: nat, count: nat, stride: nat, o: nat, sent: seq<Block>)
    requires stride > 0
  {
    var hs := Ipc.StrideHeights(first, count, stride, o);
    SentInOrder(node, first, count, stride, o, sent) &&
    (|sent| == |hs| <==> WorkerOk(node, first, count, stride, o)) &&
    (|sent| < |hs| ==> node(hs[|sent|]).None?)
  }

  /** When every worker of the pool got through, the block at each height of
      the range was sent, by the worker that owns that height. */
  lemma WorkersSyncRange(node: Ipc.Node, first: nat, count: nat, threads: nat, sent: seq<seq<Block>>)
    requires threads > 0 && |sent| == threads
    requires forall k :: 0 <= k < threads ==> WorkerSent(node, first, count, threads, k, sent[k])
    requires forall h :: first <= h < first + count ==> node(h).Some?
    ensures forall h :: first <= h < first + count ==>
              node(h).value in sent[(h - first) % threads]
  {
    forall h | first <= h < first + count
      ensures node(h).value in sent[(h - first) % threads]
    {
      var o := (h - first) % threads;
      var hs := Ipc.StrideHeights(first, count, threads, o);
      Ipc.StrideHeightsCover(first, count, threads, h);
      var i :| 0 <= i < |hs| && hs[i] == h;
      assert WorkerSent(node, first, count, threads, o, sent[o]);
      if |sent[o]| < |hs| {
        Ipc.StrideHeightsOwner(first, count, threads, o, hs[|sent[o]|]);
        assert false;
      }
      assert node(hs[i]) == Some(sent[o][i]);
    }
  }

  /** pullNewBlocks up to the insert stage, with the workers run one after
      another (each worker's outcome does not depend on the others, and
      Ipc.CloseRule covers the finishing order). `sent[k]` is what worker k
      put on the block channel; `closed` says whether the channel was closed,
      which is what lets the insert stage finish. `latestStored` is what
      GetLatestBlockNumber read from the block numbers `stored`: on an empty
      table that is 0, so the sync starts at height 1 and height 0 is never
      fetched. */
  method PullNewBlocks(node: Ipc.Node, tip: nat, ghost stored: set<nat>, latestStored: nat, threads: int)
    returns (first: nat, sent: seq<seq<Block>>, closed: bool)
    requires tip < Uint64Limit && latestStored < Uint64Limit
    requires latestStored == Db.LatestBlockNumber(stored)
    ensures first == SyncFirst(latestStored)
    ensures stored == {} ==> first == 1
    ensures latestStored + 1 < Uint64Limit ==> forall h :: h in stored ==> h < first
    ensures |sent| == if threads > 0 then threads else 0
    ensures first <= tip + 1 ==>
              forall k :: 0 <= k < |sent| ==> WorkerSent(node, first, tip + 1 - first, threads, k, sent[k])
    ensures first > tip + 1 ==> forall k :: 0 <= k < |sent| ==> sent[k] == []
    ensures closed <==> threads > 0 && first <= tip + 1 &&
                        forall h :: first <= h <= tip ==> node(h).Some?
    ensures closed ==> forall h :: first <= h <= tip ==>
              node(h).Some? && node(h).value in sent[(h - first) % threads]
  {
    first := SyncFirst(latestStored);
    var workers, ops := LaunchWorkers(threads);
    var count := if first <= tip + 1 then tip + 1 - first else 0;
    sent := [];
    closed := false;
    ghost var allOk := first <= tip + 1;
    ghost var done := 0;
    var k := 0;
    while k < |workers|
      invariant 0 <= done <= k <= |workers|
      invariant |sent| == k
      invariant first <= tip + 1 ==>
                  forall j :: 0 <= j < k ==> WorkerSent(node, first, count, threads, j, sent[j])
      invariant first > tip + 1 ==> forall j :: 0 <= j < k ==> sent[j] == []
      invariant allOk <==> first <= tip + 1 &&
                           forall j :: 0 <= j < k ==> WorkerOk(node, first, count, threads, j)
      invariant done == k <==> k == 0 || allOk
      invariant ops == threads - done
      invariant closed <==> k > 0 && done == threads
    {
      var s, opsAfter, c, err := Ipc.StreamBlocks(node, first, tip, workers[k].stride, workers[k].offset, ops);
      if first <= tip + 1 {
        assert WorkerSent(node, first, count, threads, k, s);
        assert err == None <==> WorkerOk(node, first, count, threads, k);
      }
      allOk := allOk && err == None;
      if err == None {
        done := done + 1;
      }
      sent := sent + [s];
      ops := opsAfter;
      closed := closed || c;
      k := k + 1;
    }
    if threads > 0 && first <= tip + 1 {
      AllWorkersOk(node, first, count, threads);
      if closed {
        WorkersSyncRange(node, first, count, threads, sent);
      }
    }
  }
}
