/** The node client (ipc/ipc.go). The node itself is a function from height
    to block that may fail (`None`); the ops counter shared by the workers
    is a plain integer threaded through the calls, and the block channel is
    the sequence of blocks a worker sends. */
module Ipc {
  import opened Common
  import opened Models

  datatype NodeError = InvalidBlockRange | FetchFailed(height: nat) | TipUnavailable

  /** A node: the block at each height, or a failed request. */
  type Node = nat -> Option<Block>

  // ---------------------------------------------------------------------------
  // Block counts of a range, as written and as intended.

  /** `last - first + 1` on uint64, as GetBlocks and StreamBlocks compute it:
      the `count < 0` guard that follows can never fire. */
  function BlockCountAsWritten(first: nat, last: nat): (c: nat)
    requires first < Uint64Limit && last < Uint64Limit
    ensures c < Uint64Limit
  {
    Add64(Sub64(last, first), 1)
  }

  /** A reversed range is not rejected: it wraps to an enormous count. */
  lemma BlockCountAsWrittenWraps()
    ensures BlockCountAsWritten(5, 3) == Uint64Limit - 1
  {
  }

  /** On every ordered range whose size fits in 64 bits the written
      arithmetic gives the true count. */
  lemma BlockCountAsWrittenAgrees(first: nat, last: nat)
    requires first <= last + 1 && first < Uint64Limit && last < Uint64Limit
    requires last + 1 - first < Uint64Limit
    ensures BlockCountAsWritten(first, last) == last + 1 - first
  {
  }

  /** The range check as the guard intends it: the number of heights in
      [first, last], or an error when last < first - 1. */
  function BlockCount(first: nat, last: nat): (r: Result<nat, NodeError>)
    ensures r.Err? <==> last + 1 < first
    ensures r.Ok? ==> r.value == last + 1 - first && first + r.value == last + 1
  {
    if last + 1 < first then Err(InvalidBlockRange) else Ok(last + 1 - first)
  }

  // ---------------------------------------------------------------------------
  // GetBlocks.

  /** GetBlocks: fills an array with the blocks at heights first..last in
      order, and gives up with the error of the first failed request. */
  method GetBlocks(node: Node, first: nat, last: nat) returns (r: Result<seq<Block>, NodeError>)
    ensures last + 1 < first ==> r == Err(InvalidBlockRange)
    ensures first <= last + 1 ==>
              (r.Ok? <==> forall h :: first <= h <= last ==> node(h).Some?)
    ensures r.Ok? ==> (|r.value| == last + 1 - first &&
              forall i :: 0 <= i < |r.value| ==> node(first + i) == Some(r.value[i]))
    ensures first <= last + 1 && r.Err? ==>
              r.error.FetchFailed? && first <= r.error.height <= last &&
              node(r.error.height).None? &&
              forall h :: first <= h < r.error.height ==> node(h).Some?
  {
    var count := BlockCount(first, last);
    if count.Err? {
      return Err(count.error);
    }
    var n := count.value;
    var blocks := new Block[n](_ => EmptyBlock);
    var i := 0;
    while i < n
      invariant 0 <= i <= n
      invariant forall k :: 0 <= k < i ==> node(first + k) == Some(blocks[k])
    {
      var bl := node(i + first);
      if bl.None? {
        forall h | first <= h < i + first
          ensures node(h).Some?
        {
          assert node(first + (h - first)) == Some(blocks[h - first]);
        }
        return Err(FetchFailed(i + first));
      }
      blocks[i] := bl.value;
      i := i + 1;
    }
    r := Ok(blocks[..]);
    forall h | first <= h <= last
      ensures node(h).Some?
    {
      assert node(first + (h - first)) == Some(blocks[h - first]);
    }
  }

  // ---------------------------------------------------------------------------
  // GetLastBlocks.

  /** `last - count + 1` on uint64, as GetLastBlocks computes its first
      height: the `first < 0` clamp that follows can never fire. */
  function LastBlocksFirstAsWritten(last: nat, count: nat): (first: nat)
    requires last < Uint64Limit && count < Uint64Limit
    ensures first < Uint64Limit
  {
    Add64(Sub64(last, count), 1)
  }

  /** Asking for more blocks than exist wraps the first height around
      instead of clamping it to 0. */
  lemma LastBlocksFirstAsWrittenWraps()
    ensures LastBlocksFirstAsWritten(10, 20) == Uint64Limit - 9
  {
  }

  /** When enough blocks exist, the written arithmetic is exact. */
  lemma LastBlocksFirstAsWrittenAgrees(last: nat, count: nat)
    requires count <= last + 1 && last < Uint64Limit && count < Uint64Limit
    requires last + 1 - count < Uint64Limit
    ensures LastBlocksFirstAsWritten(last, count) == last + 1 - count
  {
    if count == last + 1 {
      assert Sub64(last, count) == Uint64Limit - 1;
      assert Add64(Uint64Limit - 1, 1) == 0;
    } else {
      assert Sub64(last, count) == last - count;
    }
  }

  /** The first height as the clamp intends: never below 0. */
  function LastBlocksFirst(last: nat, count: nat): (first: nat)
    ensures first <= last + 1
    ensures count <= last + 1 ==> first + count == last + 1
    ensures count > last + 1 ==> first == 0
  {
    if count > last + 1 then 0 else last + 1 - count
  }

  /** GetLastBlocks: the `count` most recent blocks up to the node's tip (all
      of them when fewer exist), oldest first. */
  method GetLastBlocks(node: Node, tip: Option<nat>, count: nat) returns (r: Result<seq<Block>, NodeError>)
    ensures tip.None? ==> r == Err(TipUnavailable)
    ensures r.Ok? ==> (tip.Some? &&
              |r.value| == (if count <= tip.value + 1 then count else tip.value + 1) &&
              LastBlocksFirst(tip.value, count) + |r.value| == tip.value + 1 &&
              forall i :: 0 <= i < |r.value| ==>
                node(LastBlocksFirst(tip.value, count) + i) == Some(r.value[i]))
    ensures tip.Some? ==> (r.Ok? <==> forall h :: LastBlocksFirst(tip.value, count) <= h <= tip.value ==> node(h).Some?)
  {
    if tip.None? {
      return Err(TipUnavailable);
    }
    var last := tip.value;
    var first := LastBlocksFirst(last, count);
    r := GetBlocks(node, first, last);
  }

  // ---------------------------------------------------------------------------
  // StreamBlocks: one worker of the download pool.

  /** The heights a worker with this stride and offset requests, in order:
      first + offset, first + offset + stride, ... below first + count. */
  function StrideHeights(first: nat, count: nat, stride: nat, offset: nat): seq<nat>
    requires stride > 0
    decreases count - offset
  {
    if offset >= count then [] else [first + offset] + StrideHeights(first, count, stride, offset + stride)
  }

  lemma MulMonotone(s: nat, a: nat, b: nat)
    requires a <= b
    ensures s * a <= s * b
  {
    assert s * b == s * a + s * (b - a);
  }

  /** Euclidean division is unique. */
  lemma DivModUnique(d: nat, s: nat, q: nat, o: nat)
    requires 0 <= o < s && d == s * q + o
    ensures d % s == o && d / s == q
  {
    var q', o' := d / s, d % s;
    assert d == s * q' + o';
    if q' > q {
      MulMonotone(s, q + 1, q');
    } else if q' < q {
      MulMonotone(s, q' + 1, q);
    }
  }

  /** A height is requested exactly when it lies in the range at or after the
      offset and is congruent to it modulo the stride. */
  lemma {:induction false} StrideHeightsMembers(first: nat, count: nat, stride: nat, offset: nat, h: nat)
    requires stride > 0
    ensures h in StrideHeights(first, count, stride, offset) <==>
            first + offset <= h < first + count && (h - first - offset) % stride == 0
    decreases count - offset
  {
    if offset < count {
      StrideHeightsMembers(first, count, stride, offset + stride, h);
      if first + offset <= h {
        StrideStep(h - first - offset, stride);
      }
    }
  }

  /** A multiple of the stride is 0 or the stride plus a multiple of it. */
  lemma StrideStep(d: nat, stride: nat)
    requires stride > 0
    ensures d % stride == 0 <==> d == 0 || (d >= stride && (d - stride) % stride == 0)
  {
    if d >= stride {
      DivModUnique(d, stride, (d - stride) / stride + 1, (d - stride) % stride);
    } else if d > 0 {
      DivModUnique(d, stride, 0, d);
    }
  }

  /** The heights of one worker strictly increase by the stride. */
  lemma {:induction false} StrideHeightsIncreasing(first: nat, count: nat, stride: nat, offset: nat)
    requires stride > 0
    ensures var hs := StrideHeights(first, count, stride, offset);
            (|hs| > 0 ==> hs[0] == first + offset) &&
            forall k :: 0 <= k < |hs| - 1 ==> hs[k + 1] == hs[k] + stride
    decreases count - offset
  {
    if offset < count {
      StrideHeightsIncreasing(first, count, stride, offset + stride);
    }
  }

  /** Workers with offsets 0..stride-1 split the range: each height of
      [first, first+count) belongs to exactly one of them, and no worker
      requests a height outside the range. */
  lemma StrideHeightsPartition(first: nat, count: nat, stride: nat, h: nat)
    requires stride > 0
    ensures first <= h < first + count ==>
              h in StrideHeights(first, count, stride, (h - first) % stride)
    ensures forall o :: 0 <= o < stride && h in StrideHeights(first, count, stride, o) ==>
              first <= h < first + count && o == (h - first) % stride
  {
    if first <= h < first + count {
      StrideHeightsCover(first, count, stride, h);
    }
    forall o | 0 <= o < stride && h in StrideHeights(first, count, stride, o)
      ensures first <= h < first + count && o == (h - first) % stride
    {
      StrideHeightsOwner(first, count, stride, o, h);
    }
  }

  lemma StrideHeightsCover(first: nat, count: nat, stride: nat, h: nat)
    requires stride > 0 && first <= h < first + count
    ensures h in StrideHeights(first, count, stride, (h - first) % stride)
  {
    var o := (h - first) % stride;
    StrideHeightsMembers(first, count, stride, o, h);
    DivModUnique(h - first - o, stride, (h - first) / stride, 0);
  }

  lemma StrideHeightsOwner(first: nat, count: nat, stride: nat, o: nat, h: nat)
    requires 0 <= o < stride && h in StrideHeights(first, count, stride, o)
    ensures first <= h < first + count && o == (h - first) % stride
  {
    StrideHeightsMembers(first, count, stride, o, h);
    var q := (h - first - o) / stride;
    DivModUnique(h - first, stride, q, o);
  }

  /** The node has a block at each of these heights. */
  ghost predicate Available(node: Node, hs: seq<nat>)
  {
    forall k :: 0 <= k < |hs| ==> node(hs[k]).Some?
  }

  /** `sent` holds the node's blocks at the first heights of `hs`, in order. */
  ghost predicate Delivered(node: Node, hs: seq<nat>, sent: seq<Block>)
  {
    |sent| <= |hs| && forall k :: 0 <= k < |sent| ==> node(hs[k]) == Some(sent[k])
  }

  lemma DeliveredSnoc(node: Node, hs: seq<nat>, sent: seq<Block>, b: Block)
    requires Delivered(node, hs, sent) && |sent| < |hs| && node(hs[|sent|]) == Some(b)
    ensures Delivered(node, hs, sent + [b])
  {
  }

  /** The request loop of StreamBlocks: asks for first + offset,
      first + offset + stride, ... below first + n, sending each block, and
      stops at the first height the node does not have. */
  method FetchHeights(node: Node, first: nat, n: nat, stride: nat, offset: nat)
    returns (sent: seq<Block>, missing: Option<nat>)
    requires stride > 0
    ensures var hs := StrideHeights(first, n, stride, offset);
            Delivered(node, hs, sent) &&
            (missing.None? <==> Available(node, hs)) &&
            (missing.None? ==> |sent| == |hs|) &&
            (missing.Some? ==> |sent| < |hs| && missing.value == hs[|sent|] && node(hs[|sent|]).None?)
  {
    ghost var hs := StrideHeights(first, n, stride, offset);
    sent := [];
    var i := offset;
    while i < n
      invariant Delivered(node, hs, sent)
      invariant hs[|sent|..] == StrideHeights(first, n, stride, i)
      decreases n - i
    {
      FetchStep(node, hs, sent, first, n, stride, i);
      var bl := node(i + first);
      if bl.None? {
        return sent, Some(i + first);
      }
      sent := sent + [bl.value];
      i := i + stride;
    }
    assert Available(node, hs);
    missing := None;
  }

  /** One turn of the request loop: the next height is `first + i`; when the
      node lacks it the heights are not all available, and otherwise the
      block extends what was sent and the loop invariant holds again. */
  lemma FetchStep(node: Node, hs: seq<nat>, sent: seq<Block>, first: nat, n: nat, stride: nat, i: nat)
    requires stride > 0 && i < n
    requires Delivered(node, hs, sent) && hs[|sent|..] == StrideHeights(first, n, stride, i)
    ensures |sent| < |hs| && hs[|sent|] == first + i
    ensures node(first + i).None? ==> !Available(node, hs)
    ensures node(first + i).Some? ==>
              Delivered(node, hs, sent + [node(first + i).value]) &&
              hs[|sent| + 1..] == StrideHeights(first, n, stride, i + stride)
  {
    var m := |sent|;
    assert hs[m..] == [first + i] + StrideHeights(first, n, stride, i + stride);
    assert hs[m] == hs[m..][0];
    assert hs[m + 1..] == hs[m..][1..];
    if node(first + i).Some? {
      DeliveredSnoc(node, hs, sent, node(first + i).value);
    }
  }

  /** StreamBlocks for one worker: requests its heights in order and sends
      each block; on the first failed request it returns that error at once,
      without touching the counter. Otherwise it decrements the shared
      counter and closes the channel when the counter reaches 0. */
  method StreamBlocks(node: Node, first: nat, last: nat, stride: nat, offset: nat, ops: int)
    returns (sent: seq<Block>, opsAfter: int, closed: bool, err: Option<NodeError>)
    requires stride > 0
    ensures last + 1 < first ==> err == Some(InvalidBlockRange) && sent == [] && opsAfter == ops && !closed
    ensures first <= last + 1 ==>
              var hs := StrideHeights(first, last + 1 - first, stride, offset);
              Delivered(node, hs, sent) &&
              (err == None <==> Available(node, hs)) &&
              (err == None ==> |sent| == |hs| && opsAfter == ops - 1 && closed == (ops - 1 == 0)) &&
              (err != None ==> |sent| < |hs| && err == Some(FetchFailed(hs[|sent|])) &&
                               node(hs[|sent|]).None? && opsAfter == ops && !closed)
  {
    var count := BlockCount(first, last);
    if count.Err? {
      return [], ops, false, Some(count.error);
    }
    var missing;
    sent, missing := FetchHeights(node, first, count.value, stride, offset);
    if missing.Some? {
      return sent, ops, false, Some(FetchFailed(missing.value));
    }
    opsAfter := ops - 1;
    closed := opsAfter == 0;
    err := None;
  }

  // ---------------------------------------------------------------------------
  // The closing rule of the pool.

  /** Workers report in the order they finish; `succeeded[k]` says whether the
      k-th to finish got through its range. The counter starts at the number
      of workers and each successful worker decrements it; the one that
      brings it to 0 closes the channel. */
  method CloseRule(succeeded: seq<bool>) returns (closer: Option<nat>, ops: int)
    ensures closer.Some? <==> |succeeded| > 0 && forall k :: 0 <= k < |succeeded| ==> succeeded[k]
    ensures closer.Some? ==> closer.value == |succeeded| - 1
    ensures ops == |succeeded| - Occurrences(succeeded, true)
  {
    ops := |succeeded|;
    closer := None;
    var k := 0;
    while k < |succeeded|
      invariant 0 <= k <= |succeeded|
      invariant ops == |succeeded| - Occurrences(succeeded[..k], true)
      invariant Occurrences(succeeded[..k], true) <= k
      invariant Occurrences(succeeded[..k], true) == k <==> forall j :: 0 <= j < k ==> succeeded[j]
      invariant closer.Some? ==> k == |succeeded| && closer.value == k - 1 && ops == 0
      invariant closer.None? && k == |succeeded| ==> ops != 0 || |succeeded| == 0
    {
      assert succeeded[..k + 1][..k] == succeeded[..k];
      if succeeded[k] {
        ops := ops - 1;
        if ops == 0 {
          closer := Some(k);
        }
      }
      k := k + 1;
    }
    assert succeeded[..k] == succeeded;
  }
}
