/** The block-density engine behind the stats endpoint (api/delegates.go).
    Going back one second at a time from the latest block's timestamp, each
    second is charged to the delegate whose turn it was; a second counts as
    missed when no stored block carries that timestamp or a different
    delegate produced it. At each look-back window the running counters are
    copied into that delegate's list of per-window records.

    The engine is specified component by component over the sequence of
    ticks (`Counters`, `Pending`, `Records`) and implemented by
    `DelegatesStats`, whose loops are proved to compute `Stats`. Densities are
    exact rationals here, slots use integer division, and the node and store
    results arrive as parameters. */
module Delegates {
  import opened Common
  import opened Models

  /** The DPoS constants the explorer assumes the node runs with. */
  datatype DposConfig = DposConfig(period: nat, turnBlockCount: nat, delegateCount: nat)

  const DefaultConfig: DposConfig := DposConfig(1, 6, 2)

  /** The look-back windows, in seconds: five minutes and one hour. */
  const LookBackWindows: seq<nat> := [300, 3600]

  // ---------------------------------------------------------------------------
  // The schedule.

  /** getSignerAtSlot: turns of `turnBlockCount` slots rotate through the
      first `delegateCount` seats; an empty seat, or a configuration with no
      seats or no turn length, yields the zero address. */
  function SignerAtSlot(cfg: DposConfig, delegates: seq<Address>, slot: nat): (a: Address)
    ensures cfg.delegateCount == 0 || cfg.turnBlockCount == 0 ==> a == ZeroAddress
    ensures a == ZeroAddress || a in delegates
    ensures (cfg.delegateCount > 0 && cfg.turnBlockCount > 0 &&
             (slot / cfg.turnBlockCount) % cfg.delegateCount >= |delegates|) ==> a == ZeroAddress
  {
    if cfg.delegateCount == 0 || cfg.turnBlockCount == 0 then ZeroAddress
    else
      var seat := (slot / cfg.turnBlockCount) % cfg.delegateCount;
      if seat < |delegates| then delegates[seat] else ZeroAddress
  }

  /** With the default configuration the seat changes every 6 seconds and
      alternates between the first two delegates. */
  lemma DefaultRotation(delegates: seq<Address>, t: nat)
    requires |delegates| >= 2
    ensures SignerAtSlot(DefaultConfig, delegates, t) == delegates[(t / 6) % 2]
    ensures SignerAtSlot(DefaultConfig, delegates, t + 6) == delegates[1 - (t / 6) % 2]
    ensures t % 6 < 5 ==> SignerAtSlot(DefaultConfig, delegates, t + 1) == SignerAtSlot(DefaultConfig, delegates, t)
  {
    assert (t + 6) / 6 == t / 6 + 1;
    if t % 6 < 5 {
      assert (t + 1) / 6 == t / 6;
    }
  }

  // ---------------------------------------------------------------------------
  // The address filter.

  /** The text after an optional "0x" or "0X" prefix: the input itself or
      the input without its first two characters. */
  function StripHexPrefix(s: string): (t: string)
    ensures (|t| == |s| || |t| + 2 == |s|) && t == s[|s| - |t|..]
  {
    if |s| >= 2 && s[0] == '0' && (s[1] == 'x' || s[1] == 'X') then s[2..] else s
  }

  /** IsHexAddress then HexToAddress: a request names a delegate when, after
      an optional prefix, it is exactly 40 hex digits of either case;
      anything else turns the filter off. */
  function ParseLookup(address: string): Option<Address>
  {
    var h := StripHexPrefix(address);
    if |h| == 2 * AddressLength then
      match HexDecode(h)
      case Some(b) => Some(b)
      case None => None
    else None
  }

  /** Lower-case hex never starts with a prefix, and a "0x" in front of it is
      removed. */
  lemma StripEncoded(a: Address)
    ensures StripHexPrefix(HexEncode(a)) == HexEncode(a)
    ensures StripHexPrefix("0x" + HexEncode(a)) == HexEncode(a)
  {
    var h := HexEncode(a);
    assert ("0x" + h)[2..] == h;
    if h[0] == '0' {
      HexEncodeLowercase(a);
      assert h[1] in HexDigits;
    }
  }

  /** An address rendered in hex, with or without the prefix, is parsed back
      to itself. */
  lemma LookupRoundTrip(a: Address)
    ensures ParseLookup(HexEncode(a)) == Some(a)
    ensures ParseLookup("0x" + HexEncode(a)) == Some(a)
  {
    HexRoundTrip(a);
    StripEncoded(a);
  }

  /** A text of neither 40 nor 42 characters never names a delegate. */
  lemma LookupLength(s: string)
    requires |s| != 40 && |s| != 42
    ensures ParseLookup(s) == None
  {
  }

  // ---------------------------------------------------------------------------
  // One tick.

  /** Everything the loop reads: the configuration, the latest block's
      delegate list and timestamp, the address filter, stored blocks by
      timestamp, stakes by address and the sorted windows. */
  datatype Inputs = Inputs(
    cfg: DposConfig,
    delegates: seq<Address>,
    latestTs: nat,
    lookup: Option<Address>,
    byTimestamp: map<nat, Block>,
    stakes: map<Address, nat>,
    windows: seq<nat>)

  /** Windows as the source configures them once sorted: non-empty, positive
      and strictly increasing. */
  predicate ValidWindows(windows: seq<nat>)
  {
    |windows| > 0 && windows[0] >= 1 &&
    forall j, k :: 0 <= j < k < |windows| ==> windows[j] < windows[k]
  }

  function Longest(windows: seq<nat>): nat
    requires |windows| > 0
  {
    windows[|windows| - 1]
  }

  /** The engine's configuration: a positive slot length, valid windows
      whose ticks fit the uint64 subtraction. */
  predicate ValidConfig(cfg: DposConfig, windows: seq<nat>)
  {
    cfg.period > 0 && ValidWindows(windows) && Longest(windows) < Uint64Limit
  }

  lemma DefaultsValid()
    ensures ValidConfig(DefaultConfig, LookBackWindows) && Longest(LookBackWindows) == 3600
  {
  }

  predicate ValidInputs(inp: Inputs)
  {
    ValidConfig(inp.cfg, inp.windows) && inp.latestTs < Uint64Limit
  }

  /** What one tick contributes: whether it is counted, whose turn it was,
      and whether it was missed. */
  datatype Tick = Tick(counted: bool, scheduled: Address, missed: bool)

  /** Tick `i` examines the second `latest - i` (a uint64 subtraction): it is
      charged to the delegate scheduled then, counted when there is no filter
      or the filter names that delegate, and missed unless a stored block
      has that timestamp and was produced by that delegate. */
  function TickAt(inp: Inputs, i: nat): (t: Tick)
    requires inp.cfg.period > 0 && inp.latestTs < Uint64Limit && i < Uint64Limit
    ensures t.scheduled == ZeroAddress || t.scheduled in inp.delegates
    ensures t.counted <==> inp.lookup.None? || inp.lookup.value == t.scheduled
  {
    var ts := Sub64(inp.latestTs, i);
    var p := SignerAtSlot(inp.cfg, inp.delegates, ts / inp.cfg.period);
    Tick(inp.lookup.None? || inp.lookup.value == p, p,
         !(ts in inp.byTimestamp && inp.byTimestamp[ts].producer == p))
  }

  /** The first `n` ticks. */
  function Ticks(inp: Inputs, n: nat): (ts: seq<Tick>)
    requires ValidInputs(inp) && n <= Longest(inp.windows)
    ensures |ts| == n && forall j :: 0 <= j < n ==> ts[j] == TickAt(inp, j)
  {
    seq(n, j requires 0 <= j < n => TickAt(inp, j))
  }

  // ---------------------------------------------------------------------------
  // The engine state, one component at a time, over any sequence of ticks.

  /** A delegate's running counters: seconds charged and seconds missed. */
  datatype Counter = Counter(total: nat, missed: nat)

  predicate CountersValid(runtime: map<Address, Counter>)
  {
    forall a :: a in runtime ==> 1 <= runtime[a].total && runtime[a].missed <= runtime[a].total
  }

  /** 1 - missed/total, the share of its seconds a delegate did produce. */
  function Density(c: Counter): (d: real)
    requires 1 <= c.total && c.missed <= c.total
    ensures 0.0 <= d <= 1.0
    ensures d == 1.0 <==> c.missed == 0
  {
    DensityBounds(c.missed, c.total);
    1.0 - (c.missed as real) / (c.total as real)
  }

  lemma DensityBounds(missed: nat, total: nat)
    requires 1 <= total && missed <= total
    ensures 0.0 <= (missed as real) / (total as real) <= 1.0
    ensures (missed as real) / (total as real) == 0.0 <==> missed == 0
  {
    var q := (missed as real) / (total as real);
    assert q * (total as real) == missed as real;
  }

  function StakeOf(stakes: map<Address, nat>, a: Address): nat
  {
    if a in stakes then stakes[a] else 0
  }

  /** The record a snapshot stores: the counters at that moment, the seconds
      examined so far, and the delegate's stake (0 when the node reported
      none). */
  function Record(a: Address, c: Counter, seconds: nat, stakes: map<Address, nat>): DelegateInfo
    requires 1 <= c.total && c.missed <= c.total
  {
    DelegateInfo(a, seconds, c.missed, c.total, Density(c), StakeOf(stakes, a))
  }

  /** Counting a tick: the scheduled delegate's counter is created if need
      be, its total goes up by one and its missed count by one when the tick
      was missed. Ticks outside the filter change nothing. */
  function CountTick(runtime: map<Address, Counter>, t: Tick): map<Address, Counter>
  {
    if !t.counted then runtime
    else
      var c := if t.scheduled in runtime then runtime[t.scheduled] else Counter(0, 0);
      runtime[t.scheduled := Counter(c.total + 1, c.missed + (if t.missed then 1 else 0))]
  }

  /** The list of `a` with a record of its current counters appended. */
  function Appended(info: map<Address, seq<DelegateInfo>>, runtime: map<Address, Counter>,
                    a: Address, seconds: nat, stakes: map<Address, nat>): seq<DelegateInfo>
    requires a in runtime && CountersValid(runtime)
  {
    (if a in info then info[a] else []) + [Record(a, runtime[a], seconds, stakes)]
  }

  /** A snapshot appends a record to the list of every delegate that has
      counters; other lists are left alone. */
  function Snapshot(info: map<Address, seq<DelegateInfo>>, runtime: map<Address, Counter>,
                    seconds: nat, stakes: map<Address, nat>): map<Address, seq<DelegateInfo>>
    requires CountersValid(runtime)
  {
    info + map a | a in runtime :: Appended(info, runtime, a, seconds, stakes)
  }

  /** The counters after the first `n` ticks. Every counter that exists has
      counted at least one tick and missed no more than it counted, so no
      snapshot divides by zero. */
  function Counters(ticks: seq<Tick>, n: nat): (r: map<Address, Counter>)
    requires n <= |ticks|
    ensures CountersValid(r)
  {
    if n == 0 then map[] else CountTick(Counters(ticks, n - 1), ticks[n - 1])
  }

  /** The windows still ahead after `n` ticks: a window is consumed by the
      tick that completes it. */
  function Pending(windows: seq<nat>, n: nat): seq<nat>
  {
    if n == 0 then windows
    else
      var w := Pending(windows, n - 1);
      if w != [] && w[0] == n then w[1..] else w
  }

  /** The per-window lists after `n` ticks. */
  function Records(ticks: seq<Tick>, windows: seq<nat>, stakes: map<Address, nat>, n: nat)
    : map<Address, seq<DelegateInfo>>
    requires n <= |ticks|
  {
    if n == 0 then map[]
    else
      var prev := Records(ticks, windows, stakes, n - 1);
      var w := Pending(windows, n - 1);
      if w != [] && w[0] == n then Snapshot(prev, Counters(ticks, n), n, stakes) else prev
  }

  /** The number of ticks among the first `n` that were counted. */
  function CountedTicks(ticks: seq<Tick>, n: nat): nat
    requires n <= |ticks|
  {
    if n == 0 then 0 else CountedTicks(ticks, n - 1) + (if ticks[n - 1].counted then 1 else 0)
  }

  /** The number of ticks among the first `n` that were counted and missed;
      this is the overall missed total the loop keeps. */
  function MissedTicks(ticks: seq<Tick>, n: nat): nat
    requires n <= |ticks|
  {
    if n == 0 then 0
    else MissedTicks(ticks, n - 1) + (if ticks[n - 1].counted && ticks[n - 1].missed then 1 else 0)
  }

  lemma CountersUnfold(ticks: seq<Tick>, n: nat)
    requires 0 < n <= |ticks|
    ensures Counters(ticks, n) == CountTick(Counters(ticks, n - 1), ticks[n - 1])
  {
  }

  /** Records after one more tick: the previous ones, with a snapshot when
      the tick completes the next window. */
  lemma RecordsUnfold(ticks: seq<Tick>, windows: seq<nat>, stakes: map<Address, nat>, n: nat, snap: bool)
    requires 0 < n <= |ticks|
    requires snap == (Pending(windows, n - 1) != [] && Pending(windows, n - 1)[0] == n)
    ensures Records(ticks, windows, stakes, n) ==
              if snap then Snapshot(Records(ticks, windows, stakes, n - 1), Counters(ticks, n), n, stakes)
              else Records(ticks, windows, stakes, n - 1)
  {
  }

  // ---------------------------------------------------------------------------
  // Counting: totals add up to the counted ticks.

  ghost function Totals(runtime: map<Address, Counter>): map<Address, nat>
  {
    map a | a in runtime :: runtime[a].total
  }

  ghost function Misses(runtime: map<Address, Counter>): map<Address, nat>
  {
    map a | a in runtime :: runtime[a].missed
  }

  /** Replacing one counter moves each sum by the difference. */
  lemma TotalsUpdate(r: map<Address, Counter>, p: Address, c: Counter)
    ensures MapSum(Totals(r[p := c])) == MapSum(Totals(r)) - (if p in r then r[p].total else 0) + c.total
  {
    assert Totals(r[p := c]) == Totals(r)[p := c.total];
    MapSumUpdate(Totals(r), p, c.total);
  }

  lemma MissesUpdate(r: map<Address, Counter>, p: Address, c: Counter)
    ensures MapSum(Misses(r[p := c])) == MapSum(Misses(r)) - (if p in r then r[p].missed else 0) + c.missed
  {
    assert Misses(r[p := c]) == Misses(r)[p := c.missed];
    MapSumUpdate(Misses(r), p, c.missed);
  }

  /** Counting one tick moves the sums by exactly what it adds. */
  lemma CountSums(runtime: map<Address, Counter>, t: Tick)
    ensures MapSum(Totals(CountTick(runtime, t))) == MapSum(Totals(runtime)) + (if t.counted then 1 else 0)
    ensures MapSum(Misses(CountTick(runtime, t))) ==
              MapSum(Misses(runtime)) + (if t.counted && t.missed then 1 else 0)
  {
    if t.counted {
      var p := t.scheduled;
      var c := if p in runtime then runtime[p] else Counter(0, 0);
      var c' := Counter(c.total + 1, c.missed + (if t.missed then 1 else 0));
      assert CountTick(runtime, t) == runtime[p := c'];
      TotalsUpdate(runtime, p, c');
      MissesUpdate(runtime, p, c');
    }
  }

  /** Each counted tick adds one to exactly one total, so the totals sum to
      the counted ticks and the missed counters (the zero address's included)
      sum to the overall missed total. */
  lemma {:induction false} CounterSums(ticks: seq<Tick>, n: nat)
    requires n <= |ticks|
    ensures MapSum(Totals(Counters(ticks, n))) == CountedTicks(ticks, n)
    ensures MapSum(Misses(Counters(ticks, n))) == MissedTicks(ticks, n)
  {
    if n == 0 {
      assert Totals(map[]) == map[];
      assert Misses(map[]) == map[];
    } else {
      CounterSums(ticks, n - 1);
      CountersUnfold(ticks, n);
      CountSums(Counters(ticks, n - 1), ticks[n - 1]);
    }
  }

  /** When every tick is counted, the counted ticks are all the ticks. */
  lemma {:induction false} AllCounted(ticks: seq<Tick>, n: nat)
    requires n <= |ticks| && forall j :: 0 <= j < n ==> ticks[j].counted
    ensures CountedTicks(ticks, n) == n
  {
    if n > 0 {
      AllCounted(ticks, n - 1);
    }
  }

  /** Only delegates some counted tick was charged to have counters. */
  lemma {:induction false} CountersCharged(ticks: seq<Tick>, n: nat, a: Address)
    requires n <= |ticks| && a in Counters(ticks, n)
    ensures exists j :: 0 <= j < n && ticks[j].counted && ticks[j].scheduled == a
  {
    CountersUnfold(ticks, n);
    var t := ticks[n - 1];
    if !(t.counted && t.scheduled == a) {
      CountersCharged(ticks, n - 1, a);
      var j :| 0 <= j < n - 1 && ticks[j].counted && ticks[j].scheduled == a;
      assert ticks[j].counted && ticks[j].scheduled == a;
    }
  }

  // ---------------------------------------------------------------------------
  // Windows: a snapshot exactly when the next window is reached.

  /** After `n` ticks the windows still ahead are exactly those longer than
      `n`: every window of at most `n` seconds has had its snapshot. */
  lemma {:induction false} PendingWindows(ws: seq<nat>, n: nat)
    requires ValidWindows(ws)
    ensures var r := |ws| - |Pending(ws, n)|;
            0 <= r <= |ws| && Pending(ws, n) == ws[r..] &&
            (forall j :: 0 <= j < r ==> ws[j] <= n) &&
            (r < |ws| ==> ws[r] > n)
  {
    if n > 0 {
      PendingWindows(ws, n - 1);
      var r := |ws| - |Pending(ws, n - 1)|;
      if r + 1 < |ws| {
        assert ws[r] < ws[r + 1];
      }
    }
  }

  /** Before the longest window is reached some window is always pending
      (so the loop's look at the next window never finds the list empty),
      one tick before it only the longest one is, and at it none is. */
  lemma PendingUntilLongest(ws: seq<nat>, n: nat)
    requires ValidWindows(ws)
    ensures n < Longest(ws) ==> Pending(ws, n) != []
    ensures n + 1 == Longest(ws) ==> Pending(ws, n) == [Longest(ws)]
    ensures n >= Longest(ws) ==> Pending(ws, n) == []
  {
    PendingWindows(ws, n);
    var r := |ws| - |Pending(ws, n)|;
  }

  /** The window a snapshot is taken at is one of the configured windows. */
  lemma PendingHeadIsWindow(ws: seq<nat>, n: nat)
    requires ValidWindows(ws) && Pending(ws, n) != []
    ensures Pending(ws, n)[0] in ws
  {
    PendingWindows(ws, n);
    assert Pending(ws, n)[0] == ws[|ws| - |Pending(ws, n)|];
  }

  // ---------------------------------------------------------------------------
  // Records: what every stored per-window list satisfies.

  /** One record: about `a`, at least one tick counted, no more missed than
      counted, taken at a window no later than `n`, with the current stake and
      a density between 0 and 1. */
  ghost predicate RecordValid(windows: seq<nat>, stakes: map<Address, nat>, a: Address, r: DelegateInfo, n: nat)
  {
    r.address == a && 1 <= r.totalBlocks && r.missedBlocks <= r.totalBlocks &&
    r.secondsExamined in windows && r.secondsExamined <= n &&
    r.stake == StakeOf(stakes, a) && 0.0 <= r.density <= 1.0
  }

  /** A delegate's list: non-empty, every record valid, windows strictly
      increasing and counters never decreasing from one record to the next,
      and the last record not ahead of the running counter `c`. */
  ghost predicate ListValid(windows: seq<nat>, stakes: map<Address, nat>, a: Address,
                            recs: seq<DelegateInfo>, c: Counter, n: nat)
  {
    |recs| >= 1 &&
    recs[|recs| - 1].totalBlocks <= c.total && recs[|recs| - 1].missedBlocks <= c.missed &&
    (forall j :: 0 <= j < |recs| ==> RecordValid(windows, stakes, a, recs[j], n)) &&
    (forall j :: 0 <= j < |recs| - 1 ==>
       recs[j].secondsExamined < recs[j + 1].secondsExamined &&
       recs[j].totalBlocks <= recs[j + 1].totalBlocks &&
       recs[j].missedBlocks <= recs[j + 1].missedBlocks)
  }

  ghost predicate RecordsValid(windows: seq<nat>, stakes: map<Address, nat>,
                               info: map<Address, seq<DelegateInfo>>, runtime: map<Address, Counter>, n: nat)
  {
    forall a :: a in info ==> a in runtime && ListValid(windows, stakes, a, info[a], runtime[a], n)
  }

  /** `c1` keeps every counter of `c0`, none of them smaller. */
  predicate CountersGrow(c0: map<Address, Counter>, c1: map<Address, Counter>)
  {
    forall a :: a in c0 ==> a in c1 && c0[a].total <= c1[a].total && c0[a].missed <= c1[a].missed
  }

  /** Counting never removes a counter nor decreases one. */
  lemma CountGrows(runtime: map<Address, Counter>, t: Tick)
    ensures CountersGrow(runtime, CountTick(runtime, t))
  {
  }

  lemma CountersGrowStep(ticks: seq<Tick>, n: nat)
    requires 0 < n <= |ticks|
    ensures CountersGrow(Counters(ticks, n - 1), Counters(ticks, n))
  {
    CountersUnfold(ticks, n);
    CountGrows(Counters(ticks, n - 1), ticks[n - 1]);
  }

  lemma ListGrows(windows: seq<nat>, stakes: map<Address, nat>, a: Address, recs: seq<DelegateInfo>,
                  c: Counter, c': Counter, n: nat, n': nat)
    requires ListValid(windows, stakes, a, recs, c, n)
    requires c.total <= c'.total && c.missed <= c'.missed && n <= n'
    ensures ListValid(windows, stakes, a, recs, c', n')
  {
    forall j | 0 <= j < |recs|
      ensures RecordValid(windows, stakes, a, recs[j], n')
    {
      assert RecordValid(windows, stakes, a, recs[j], n);
    }
  }

  lemma ListAppend(windows: seq<nat>, stakes: map<Address, nat>, a: Address, recs: seq<DelegateInfo>,
                   c: Counter, n: nat)
    requires recs != [] ==> ListValid(windows, stakes, a, recs, c, n)
    requires 1 <= c.total && c.missed <= c.total && n + 1 in windows
    ensures ListValid(windows, stakes, a, recs + [Record(a, c, n + 1, stakes)], c, n + 1)
  {
    var recs' := recs + [Record(a, c, n + 1, stakes)];
    forall j | 0 <= j < |recs'|
      ensures RecordValid(windows, stakes, a, recs'[j], n + 1)
    {
      if j < |recs| {
        assert RecordValid(windows, stakes, a, recs[j], n);
      }
    }
    forall j | 0 <= j < |recs'| - 1
      ensures recs'[j].secondsExamined < recs'[j + 1].secondsExamined &&
              recs'[j].totalBlocks <= recs'[j + 1].totalBlocks &&
              recs'[j].missedBlocks <= recs'[j + 1].missedBlocks
    {
      if j == |recs| - 1 {
        assert RecordValid(windows, stakes, a, recs[j], n);
      }
    }
  }

  /** Lists stay valid as the counters grow and time passes. */
  lemma RecordsGrow(windows: seq<nat>, stakes: map<Address, nat>, info: map<Address, seq<DelegateInfo>>,
                    c0: map<Address, Counter>, c1: map<Address, Counter>, n: nat, n': nat)
    requires RecordsValid(windows, stakes, info, c0, n) && n <= n' && CountersGrow(c0, c1)
    ensures RecordsValid(windows, stakes, info, c1, n')
  {
    forall a | a in info
      ensures a in c1 && ListValid(windows, stakes, a, info[a], c1[a], n')
    {
      ListGrows(windows, stakes, a, info[a], c0[a], c1[a], n, n');
    }
  }

  /** A snapshot at a window keeps every list valid. */
  lemma SnapshotValid(windows: seq<nat>, stakes: map<Address, nat>, info: map<Address, seq<DelegateInfo>>,
                      runtime: map<Address, Counter>, n: nat)
    requires CountersValid(runtime) && n in windows && n > 0
    requires RecordsValid(windows, stakes, info, runtime, n - 1)
    ensures RecordsValid(windows, stakes, Snapshot(info, runtime, n, stakes), runtime, n)
  {
    var info' := Snapshot(info, runtime, n, stakes);
    forall a | a in info'
      ensures a in runtime && ListValid(windows, stakes, a, info'[a], runtime[a], n)
    {
      if a in runtime {
        var prev := if a in info then info[a] else [];
        ListAppend(windows, stakes, a, prev, runtime[a], n - 1);
        assert info'[a] == prev + [Record(a, runtime[a], n, stakes)];
      }
    }
  }

  /** One tick keeps every list valid: the counters grow, and a snapshot,
      if the tick completes a window, appends valid records. */
  lemma TickKeepsRecords(windows: seq<nat>, stakes: map<Address, nat>, prev: map<Address, seq<DelegateInfo>>,
                         c0: map<Address, Counter>, c1: map<Address, Counter>, n: nat, snap: bool)
    requires 0 < n && RecordsValid(windows, stakes, prev, c0, n - 1)
    requires CountersGrow(c0, c1) && CountersValid(c1) && (snap ==> n in windows)
    ensures RecordsValid(windows, stakes, if snap then Snapshot(prev, c1, n, stakes) else prev, c1, n)
  {
    if snap {
      RecordsGrow(windows, stakes, prev, c0, c1, n - 1, n - 1);
      SnapshotValid(windows, stakes, prev, c1, n);
    } else {
      RecordsGrow(windows, stakes, prev, c0, c1, n - 1, n);
    }
  }

  /** Every list the engine builds is valid at every step. */
  lemma {:induction false} RecordsInvariant(ticks: seq<Tick>, windows: seq<nat>, stakes: map<Address, nat>, n: nat)
    requires ValidWindows(windows) && n <= |ticks|
    ensures RecordsValid(windows, stakes, Records(ticks, windows, stakes, n), Counters(ticks, n), n)
  {
    if n > 0 {
      RecordsInvariant(ticks, windows, stakes, n - 1);
      CountersGrowStep(ticks, n);
      var w := Pending(windows, n - 1);
      var snap := w != [] && w[0] == n;
      if snap {
        PendingHeadIsWindow(windows, n - 1);
      }
      RecordsUnfold(ticks, windows, stakes, n, snap);
      TickKeepsRecords(windows, stakes, Records(ticks, windows, stakes, n - 1),
                       Counters(ticks, n - 1), Counters(ticks, n), n, snap);
    }
  }

  function Last(recs: seq<DelegateInfo>): DelegateInfo
    requires |recs| >= 1
  {
    recs[|recs| - 1]
  }

  /** After a snapshot every address with counters has a list ending in a
      record of its current counters. */
  lemma SnapshotFacts(info: map<Address, seq<DelegateInfo>>, runtime: map<Address, Counter>,
                      seconds: nat, stakes: map<Address, nat>)
    requires CountersValid(runtime) && info.Keys <= runtime.Keys
    ensures Snapshot(info, runtime, seconds, stakes).Keys == runtime.Keys
    ensures forall a :: a in runtime ==>
              |Snapshot(info, runtime, seconds, stakes)[a]| >= 1 &&
              Last(Snapshot(info, runtime, seconds, stakes)[a]).totalBlocks == runtime[a].total &&
              Last(Snapshot(info, runtime, seconds, stakes)[a]).missedBlocks == runtime[a].missed &&
              Last(Snapshot(info, runtime, seconds, stakes)[a]).secondsExamined == seconds
  {
  }

  /** After the longest window every address with counters has a list, and
      its last record holds its final counters. */
  lemma FinalRecords(ticks: seq<Tick>, windows: seq<nat>, stakes: map<Address, nat>, L: nat)
    requires ValidWindows(windows) && L == Longest(windows) <= |ticks|
    ensures Pending(windows, L) == []
    ensures Records(ticks, windows, stakes, L).Keys == Counters(ticks, L).Keys
    ensures forall a :: a in Records(ticks, windows, stakes, L) ==>
              |Records(ticks, windows, stakes, L)[a]| >= 1 &&
              Last(Records(ticks, windows, stakes, L)[a]).totalBlocks == Counters(ticks, L)[a].total &&
              Last(Records(ticks, windows, stakes, L)[a]).missedBlocks == Counters(ticks, L)[a].missed &&
              Last(Records(ticks, windows, stakes, L)[a]).secondsExamined == L
  {
    PendingUntilLongest(windows, L - 1);
    PendingUntilLongest(windows, L);
    RecordsUnfold(ticks, windows, stakes, L, true);
    RecordsInvariant(ticks, windows, stakes, L - 1);
    CountersGrowStep(ticks, L);
    assert Records(ticks, windows, stakes, L - 1).Keys <= Counters(ticks, L).Keys;
    SnapshotFacts(Records(ticks, windows, stakes, L - 1), Counters(ticks, L), L, stakes);
  }

  /** The totals and missed counts of the last record of each list. */
  ghost function FinalTotals(info: map<Address, seq<DelegateInfo>>): map<Address, nat>
  {
    map a | a in info :: if info[a] == [] then 0 else Last(info[a]).totalBlocks
  }

  ghost function FinalMisses(info: map<Address, seq<DelegateInfo>>): map<Address, nat>
  {
    map a | a in info :: if info[a] == [] then 0 else Last(info[a]).missedBlocks
  }

  /** When every address has a list ending in its final counters, the last
      records' sums are the counters' sums. */
  lemma FinalSums(info: map<Address, seq<DelegateInfo>>, runtime: map<Address, Counter>)
    requires info.Keys == runtime.Keys
    requires forall a :: a in info ==>
               |info[a]| >= 1 && Last(info[a]).totalBlocks == runtime[a].total &&
               Last(info[a]).missedBlocks == runtime[a].missed
    ensures MapSum(FinalTotals(info)) == MapSum(Totals(runtime))
    ensures MapSum(FinalMisses(info)) == MapSum(Misses(runtime))
  {
    assert FinalTotals(info) == Totals(runtime);
    assert FinalMisses(info) == Misses(runtime);
  }

  /** At the end, the last records' missed counts sum to the overall missed
      total (the zero address's included), and their totals sum to the
      counted ticks, which without a filter are all `L` of them: every
      second was charged to exactly one address. */
  lemma FinalTotalsSum(ticks: seq<Tick>, windows: seq<nat>, stakes: map<Address, nat>, L: nat)
    requires ValidWindows(windows) && L == Longest(windows) <= |ticks|
    ensures MapSum(FinalMisses(Records(ticks, windows, stakes, L))) == MissedTicks(ticks, L)
    ensures MapSum(FinalTotals(Records(ticks, windows, stakes, L))) == CountedTicks(ticks, L)
    ensures (forall j :: 0 <= j < L ==> ticks[j].counted) ==>
              MapSum(FinalTotals(Records(ticks, windows, stakes, L))) == L
  {
    FinalRecords(ticks, windows, stakes, L);
    CounterSums(ticks, L);
    FinalSums(Records(ticks, windows, stakes, L), Counters(ticks, L));
    if forall j :: 0 <= j < L ==> ticks[j].counted {
      AllCounted(ticks, L);
    }
  }

  // ---------------------------------------------------------------------------
  // The report.

  /** The latest block's delegates that have records, in the block's order
      (a delegate listed twice appears twice). */
  function Reported(delegates: seq<Address>, info: map<Address, seq<DelegateInfo>>): (ks: seq<Address>)
    ensures |ks| <= |delegates|
    ensures forall k :: 0 <= k < |ks| ==> ks[k] in delegates && ks[k] in info
  {
    if delegates == [] then []
    else
      var d := delegates[|delegates| - 1];
      Reported(delegates[..|delegates| - 1], info) + (if d in info then [d] else [])
  }

  /** Every delegate of the block that has records is reported; when all of
      them have records, all are reported in the block's order. */
  lemma {:induction false} ReportedComplete(delegates: seq<Address>, info: map<Address, seq<DelegateInfo>>)
    ensures forall a :: a in delegates && a in info ==> a in Reported(delegates, info)
    ensures (forall a :: a in delegates ==> a in info) ==> Reported(delegates, info) == delegates
  {
    if delegates != [] {
      var init := delegates[..|delegates| - 1];
      ReportedComplete(init, info);
      assert delegates == init + [delegates[|delegates| - 1]];
      forall a | a in delegates && a in info
        ensures a in Reported(delegates, info)
      {
        if a in init {
          assert a in Reported(init, info);
        }
      }
    }
  }

  /** The per-delegate lists, in the order of `Reported`. */
  function Ordered(delegates: seq<Address>, info: map<Address, seq<DelegateInfo>>): (o: seq<seq<DelegateInfo>>)
    ensures |o| == |Reported(delegates, info)|
    ensures forall k :: 0 <= k < |o| ==> o[k] == info[Reported(delegates, info)[k]]
  {
    var ks := Reported(delegates, info);
    seq(|ks|, k requires 0 <= k < |ks| => info[ks[k]])
  }

  /** What a reported list promises: at least one record, the last one at
      the longest window, windows strictly increasing and counters never
      decreasing along it, each record's window configured and its missed
      count at most its total. */
  ghost predicate ReportedList(windows: seq<nat>, L: nat, recs: seq<DelegateInfo>)
  {
    |recs| >= 1 && Last(recs).secondsExamined == L &&
    (forall j :: 0 <= j < |recs| - 1 ==>
       recs[j].secondsExamined < recs[j + 1].secondsExamined &&
       recs[j].totalBlocks <= recs[j + 1].totalBlocks &&
       recs[j].missedBlocks <= recs[j + 1].missedBlocks) &&
    (forall j :: 0 <= j < |recs| ==>
       recs[j].missedBlocks <= recs[j].totalBlocks && recs[j].secondsExamined in windows)
  }

  ghost predicate AllAbout(recs: seq<DelegateInfo>, a: Address)
  {
    forall j :: 0 <= j < |recs| ==> recs[j].address == a
  }

  /** A valid list that ends at the longest window is a reported list. */
  lemma ListReported(windows: seq<nat>, stakes: map<Address, nat>, a: Address, recs: seq<DelegateInfo>,
                     c: Counter, L: nat)
    requires ListValid(windows, stakes, a, recs, c, L) && Last(recs).secondsExamined == L
    ensures ReportedList(windows, L, recs) && AllAbout(recs, a)
  {
    forall j | 0 <= j < |recs|
      ensures recs[j].missedBlocks <= recs[j].totalBlocks && recs[j].secondsExamined in windows &&
              recs[j].address == a
    {
      assert RecordValid(windows, stakes, a, recs[j], L);
    }
  }

  /** Every list the engine reports is a reported list of one delegate, and
      with a filter that delegate is the filtered one. */
  lemma OrderedLists(ticks: seq<Tick>, windows: seq<nat>, stakes: map<Address, nat>, L: nat,
                     delegates: seq<Address>, filter: Option<Address>)
    requires ValidWindows(windows) && L == Longest(windows) <= |ticks|
    requires filter.Some? ==> forall j :: 0 <= j < |ticks| && ticks[j].counted ==> ticks[j].scheduled == filter.value
    ensures forall k :: 0 <= k < |Ordered(delegates, Records(ticks, windows, stakes, L))| ==>
              ReportedList(windows, L, Ordered(delegates, Records(ticks, windows, stakes, L))[k]) &&
              (filter.Some? ==> AllAbout(Ordered(delegates, Records(ticks, windows, stakes, L))[k], filter.value))
  {
    var info := Records(ticks, windows, stakes, L);
    var ks := Reported(delegates, info);
    FinalRecords(ticks, windows, stakes, L);
    RecordsInvariant(ticks, windows, stakes, L);
    forall k | 0 <= k < |ks|
      ensures ReportedList(windows, L, info[ks[k]]) && (filter.Some? ==> AllAbout(info[ks[k]], filter.value))
    {
      var a := ks[k];
      ListReported(windows, stakes, a, info[a], Counters(ticks, L)[a], L);
      if filter.Some? {
        CountersCharged(ticks, L, a);
      }
    }
  }

  lemma {:induction false} MissedAtMostTicks(ticks: seq<Tick>, n: nat)
    requires n <= |ticks|
    ensures MissedTicks(ticks, n) <= CountedTicks(ticks, n) <= n
  {
    if n > 0 {
      MissedAtMostTicks(ticks, n - 1);
    }
  }

  datatype StatsError = AddressNotFoundInDelegates | StoreError | NodeError

  /** total_seconds_examined, total_missed_blocks, the per-delegate lists,
      and the requested address when it named a delegate. */
  datatype StatsReport = StatsReport(
    totalSecondsExamined: nat,
    totalMissedBlocks: nat,
    delegates: seq<seq<DelegateInfo>>,
    address: Option<string>)

  function VotePairs(votes: seq<DelegateVoteInfo>): seq<(Address, nat)>
  {
    seq(|votes|, j requires 0 <= j < |votes| => (votes[j].address, votes[j].stake))
  }

  function BlockPairs(blocks: seq<Block>): seq<(nat, Block)>
  {
    seq(|blocks|, j requires 0 <= j < |blocks| => (blocks[j].timeStamp, blocks[j]))
  }

  /** The stake of `a` is that of the last vote entry for it, or 0 when the
      node reported none. */
  lemma StakeFromVotes(votes: seq<DelegateVoteInfo>, a: Address, j: nat)
    ensures (forall k :: 0 <= k < |votes| ==> votes[k].address != a) ==>
              StakeOf(LastWins(VotePairs(votes)), a) == 0
    ensures j < |votes| && votes[j].address == a &&
            (forall k :: j < k < |votes| ==> votes[k].address != a) ==>
              StakeOf(LastWins(VotePairs(votes)), a) == votes[j].stake
  {
    var pairs := VotePairs(votes);
    LastWinsKeys(pairs, a);
    if j < |votes| && votes[j].address == a && (forall k :: j < k < |votes| ==> votes[k].address != a) {
      forall k | j < k < |pairs|
        ensures pairs[k].0 != pairs[j].0
      {
        assert pairs[k].0 == votes[k].address;
      }
      LastWinsFind(pairs, j);
    }
  }

  /** The block a second is looked up in is the last stored block with that
      timestamp; a second no stored block has is missing. */
  lemma BlockAtSecond(blocks: seq<Block>, ts: nat, j: nat)
    ensures (forall k :: 0 <= k < |blocks| ==> blocks[k].timeStamp != ts) ==>
              ts !in LastWins(BlockPairs(blocks))
    ensures j < |blocks| && blocks[j].timeStamp == ts &&
            (forall k :: j < k < |blocks| ==> blocks[k].timeStamp != ts) ==>
              ts in LastWins(BlockPairs(blocks)) && LastWins(BlockPairs(blocks))[ts] == blocks[j]
  {
    var pairs := BlockPairs(blocks);
    LastWinsKeys(pairs, ts);
    if j < |blocks| && blocks[j].timeStamp == ts && (forall k :: j < k < |blocks| ==> blocks[k].timeStamp != ts) {
      forall k | j < k < |pairs|
        ensures pairs[k].0 != pairs[j].0
      {
        assert pairs[k].0 == blocks[k].timeStamp;
      }
      LastWinsFind(pairs, j);
    }
  }

  function StatsInputs(cfg: DposConfig, windows: seq<nat>, lookup: Option<Address>, latest: Block,
                       votes: seq<DelegateVoteInfo>, stored: seq<Block>): Inputs
  {
    Inputs(cfg, latest.delegates, latest.timeStamp, lookup, LastWins(BlockPairs(stored)),
           LastWins(VotePairs(votes)), windows)
  }

  /** getDelegatesStats, given the store's latest block (None when a store
      read fails), the node's vote list for it, and the stored blocks of the
      last longest window. */
  function Stats(cfg: DposConfig, windows: seq<nat>, address: string, latest: Option<Block>,
                 votes: Option<seq<DelegateVoteInfo>>, stored: Option<seq<Block>>)
    : Result<StatsReport, StatsError>
    requires ValidConfig(cfg, windows)
    requires latest.Some? ==> latest.value.timeStamp < Uint64Limit
  {
    if latest.None? then Err(StoreError)
    else
      var b := latest.value;
      var lookup := ParseLookup(address);
      if lookup.Some? && lookup.value !in b.delegates then Err(AddressNotFoundInDelegates)
      else if votes.None? then Err(NodeError)
      else if stored.None? then Err(StoreError)
      else
        var inp := StatsInputs(cfg, windows, lookup, b, votes.value, stored.value);
        var L := Longest(windows);
        var ticks := Ticks(inp, L);
        Ok(StatsReport(L, MissedTicks(ticks, L),
                       Ordered(b.delegates, Records(ticks, windows, inp.stakes, L)),
                       if lookup.Some? then Some(address) else None))
  }

  /** Which error, if any: a store failure first, then a named address that
      is not a delegate of the latest block, then the node, then the store
      again. */
  lemma StatsErrors(cfg: DposConfig, windows: seq<nat>, address: string, latest: Option<Block>,
                    votes: Option<seq<DelegateVoteInfo>>, stored: Option<seq<Block>>)
    requires ValidConfig(cfg, windows)
    requires latest.Some? ==> latest.value.timeStamp < Uint64Limit
    ensures var r := Stats(cfg, windows, address, latest, votes, stored);
            (r == Err(AddressNotFoundInDelegates) <==>
               latest.Some? && ParseLookup(address).Some? &&
               ParseLookup(address).value !in latest.value.delegates) &&
            (r == Err(NodeError) <==>
               latest.Some? && votes.None? &&
               (ParseLookup(address).Some? ==> ParseLookup(address).value in latest.value.delegates)) &&
            (r.Ok? <==>
               latest.Some? && votes.Some? && stored.Some? &&
               (ParseLookup(address).Some? ==> ParseLookup(address).value in latest.value.delegates))
  {
  }

  /** A successful report covers the longest window; the missed total is at
      most the seconds examined; the address is echoed exactly when it named
      a delegate; every list is a reported list, and with a filter every
      record in it is about the named delegate. */
  lemma StatsReportFacts(cfg: DposConfig, windows: seq<nat>, address: string, latest: Option<Block>,
                         votes: Option<seq<DelegateVoteInfo>>, stored: Option<seq<Block>>)
    requires ValidConfig(cfg, windows)
    requires latest.Some? ==> latest.value.timeStamp < Uint64Limit
    ensures var r := Stats(cfg, windows, address, latest, votes, stored);
            r.Ok? ==>
              r.value.totalSecondsExamined == Longest(windows) &&
              r.value.totalMissedBlocks <= Longest(windows) &&
              (r.value.address.Some? <==> ParseLookup(address).Some?) &&
              forall k :: 0 <= k < |r.value.delegates| ==>
                ReportedList(windows, Longest(windows), r.value.delegates[k]) &&
                (ParseLookup(address).Some? ==> AllAbout(r.value.delegates[k], ParseLookup(address).value))
  {
    if latest.Some? && votes.Some? && stored.Some? {
      var lookup := ParseLookup(address);
      var inp := StatsInputs(cfg, windows, lookup, latest.value, votes.value, stored.value);
      var L := Longest(windows);
      var ticks := Ticks(inp, L);
      MissedAtMostTicks(ticks, L);
      OrderedLists(ticks, windows, inp.stakes, L, latest.value.delegates, lookup);
    }
  }

  /** Without a filter every second of the longest window is charged to
      exactly one address (the zero address included): the last records'
      totals sum to the window and their missed counts to the missed total. */
  lemma StatsUnfilteredSums(cfg: DposConfig, windows: seq<nat>, latest: Block,
                            votes: seq<DelegateVoteInfo>, stored: seq<Block>)
    requires ValidConfig(cfg, windows) && latest.timeStamp < Uint64Limit
    ensures var inp := StatsInputs(cfg, windows, None, latest, votes, stored);
            var L := Longest(windows);
            var info := Records(Ticks(inp, L), windows, inp.stakes, L);
            MapSum(FinalTotals(info)) == L &&
            MapSum(FinalMisses(info)) == MissedTicks(Ticks(inp, L), L)
  {
    var inp := StatsInputs(cfg, windows, None, latest, votes, stored);
    var L := Longest(windows);
    FinalTotalsSum(Ticks(inp, L), windows, inp.stakes, L);
  }

  // ---------------------------------------------------------------------------
  // The implementation: the loops of getDelegatesStats.

  /** Whether `a` is one of the block's delegates, scanning until found. */
  method ContainsAddress(delegates: seq<Address>, a: Address) returns (found: bool)
    ensures found <==> a in delegates
  {
    found := false;
    var i := 0;
    while i < |delegates|
      invariant 0 <= i <= |delegates|
      invariant !found && a !in delegates[..i]
    {
      found := a == delegates[i];
      if found {
        break;
      }
      i := i + 1;
    }
  }

  /** The stakes reported by the node, by address; a later entry for the
      same address overwrites an earlier one. */
  method BuildStakeMap(votes: seq<DelegateVoteInfo>) returns (stakes: map<Address, nat>)
    ensures stakes == LastWins(VotePairs(votes))
  {
    stakes := map[];
    var i := 0;
    while i < |votes|
      invariant 0 <= i <= |votes|
      invariant stakes == LastWins(VotePairs(votes)[..i])
    {
      assert VotePairs(votes)[..i + 1][..i] == VotePairs(votes)[..i];
      stakes := stakes[votes[i].address := votes[i].stake];
      i := i + 1;
    }
    assert VotePairs(votes)[..i] == VotePairs(votes);
  }

  /** The stored blocks by timestamp; a later block with the same timestamp
      overwrites an earlier one. */
  method BuildTimestampIndex(blocks: seq<Block>) returns (byTimestamp: map<nat, Block>)
    ensures byTimestamp == LastWins(BlockPairs(blocks))
  {
    byTimestamp := map[];
    var i := 0;
    while i < |blocks|
      invariant 0 <= i <= |blocks|
      invariant byTimestamp == LastWins(BlockPairs(blocks)[..i])
    {
      assert BlockPairs(blocks)[..i + 1][..i] == BlockPairs(blocks)[..i];
      byTimestamp := byTimestamp[blocks[i].timeStamp := blocks[i]];
      i := i + 1;
    }
    assert BlockPairs(blocks)[..i] == BlockPairs(blocks);
  }

  /** Tick `i`: the second examined, whose turn it was, whether the filter
      lets it through, and whether a stored block by that delegate has that
      timestamp. */
  method ExamineSecond(inp: Inputs, i: nat) returns (t: Tick)
    requires inp.cfg.period > 0 && inp.latestTs < Uint64Limit && i < Uint64Limit
    ensures t == TickAt(inp, i)
  {
    var timestamp := Sub64(inp.latestTs, i);
    var slot := timestamp / inp.cfg.period;
    var origProducer := SignerAtSlot(inp.cfg, inp.delegates, slot);
    var counted := inp.lookup.None? || inp.lookup.value == origProducer;
    var actualProducer := ZeroAddress;
    var blockFound := timestamp in inp.byTimestamp;
    if blockFound {
      actualProducer := inp.byTimestamp[timestamp].producer;
    }
    t := Tick(counted, origProducer, !blockFound || actualProducer != origProducer);
  }

  /** Counting one tick into the running counters and the overall missed
      total. */
  method CountSecond(runtime: map<Address, Counter>, totalMissed: nat, t: Tick)
    returns (runtime': map<Address, Counter>, totalMissed': nat)
    ensures runtime' == CountTick(runtime, t)
    ensures totalMissed' == totalMissed + (if t.counted && t.missed then 1 else 0)
  {
    runtime', totalMissed' := runtime, totalMissed;
    if t.counted {
      var info := if t.scheduled in runtime then runtime[t.scheduled] else Counter(0, 0);
      info := info.(total := info.total + 1);
      if t.missed {
        info := info.(missed := info.missed + 1);
        totalMissed' := totalMissed' + 1;
      }
      runtime' := runtime'[t.scheduled := info];
    }
  }

  /** The keys visited so far, while `todo` are left. */
  lemma Visited<K>(all: set<K>, todo: set<K>)
    requires todo <= all
    ensures all - todo <= all
    ensures todo == all ==> all - todo == {}
    ensures todo == {} ==> all - todo == all
  {
  }

  lemma VisitOne<K>(all: set<K>, todo: set<K>, a: K)
    requires todo <= all && a in todo
    ensures all - (todo - {a}) == (all - todo) + {a}
    ensures a !in all - todo
  {
  }

  /** `base` with the entries of `update` for the keys in `done` laid over
      it: a snapshot part-way through its delegates. */
  function Overlay<K, V>(base: map<K, V>, update: map<K, V>, done: set<K>): map<K, V>
    requires done <= update.Keys
  {
    base + map k | k in done :: update[k]
  }

  /** Laying one more key over: the value it had is still the base's. */
  lemma OverlayStep<K, V>(base: map<K, V>, update: map<K, V>, done: set<K>, a: K)
    requires done <= update.Keys && a in update && a !in done
    ensures a in Overlay(base, update, done) <==> a in base
    ensures a in base ==> Overlay(base, update, done)[a] == base[a]
    ensures Overlay(base, update, done + {a}) == Overlay(base, update, done)[a := update[a]]
  {
    var next := Overlay(base, update, done + {a});
    var rhs := Overlay(base, update, done)[a := update[a]];
    assert next.Keys == rhs.Keys;
  }

  /** Every delegate's list with its new record, as a snapshot appends it. */
  function Fresh(info: map<Address, seq<DelegateInfo>>, runtime: map<Address, Counter>,
                 seconds: nat, stakes: map<Address, nat>): map<Address, seq<DelegateInfo>>
    requires CountersValid(runtime)
  {
    map a | a in runtime :: Appended(info, runtime, a, seconds, stakes)
  }

  /** A snapshot lays every delegate's extended list over the old lists. */
  lemma SnapshotIsOverlay(info: map<Address, seq<DelegateInfo>>, runtime: map<Address, Counter>,
                          seconds: nat, stakes: map<Address, nat>)
    requires CountersValid(runtime)
    ensures Fresh(info, runtime, seconds, stakes).Keys == runtime.Keys
    ensures Snapshot(info, runtime, seconds, stakes) ==
              Overlay(info, Fresh(info, runtime, seconds, stakes), runtime.Keys)
  {
  }

  /** Appending to a list that is still the one before the snapshot gives
      the snapshot's list. */
  lemma FreshAt(info: map<Address, seq<DelegateInfo>>, current: map<Address, seq<DelegateInfo>>,
                runtime: map<Address, Counter>, a: Address, seconds: nat, stakes: map<Address, nat>)
    requires CountersValid(runtime) && a in runtime
    requires (a in current <==> a in info) && (a in info ==> current[a] == info[a])
    ensures Appended(current, runtime, a, seconds, stakes) == Fresh(info, runtime, seconds, stakes)[a]
  {
  }

  /** The snapshot at a window: every delegate with counters gets a record
      appended to its list, visiting them in an arbitrary order. */
  method SnapshotAll(info: map<Address, seq<DelegateInfo>>, runtime: map<Address, Counter>,
                     seconds: nat, stakes: map<Address, nat>)
    returns (info': map<Address, seq<DelegateInfo>>)
    requires CountersValid(runtime)
    ensures info' == Snapshot(info, runtime, seconds, stakes)
  {
    ghost var update := Fresh(info, runtime, seconds, stakes);
    SnapshotIsOverlay(info, runtime, seconds, stakes);
    info' := info;
    var todo := runtime.Keys;
    Visited(runtime.Keys, todo);
    while todo != {}
      invariant todo <= runtime.Keys
      invariant info' == Overlay(info, update, runtime.Keys - todo)
      decreases todo
    {
      var a :| a in todo;
      Visited(runtime.Keys, todo);
      OverlayStep(info, update, runtime.Keys - todo, a);
      FreshAt(info, info', runtime, a, seconds, stakes);
      info' := info'[a := Appended(info', runtime, a, seconds, stakes)];
      VisitOne(runtime.Keys, todo, a);
      todo := todo - {a};
    }
    Visited(runtime.Keys, todo);
  }

  /** The lists of the block's delegates that have any, in the block's
      order. */
  method OrderLists(delegates: seq<Address>, info: map<Address, seq<DelegateInfo>>)
    returns (response: seq<seq<DelegateInfo>>)
    ensures response == Ordered(delegates, info)
  {
    response := [];
    var i := 0;
    while i < |delegates|
      invariant 0 <= i <= |delegates|
      invariant response == Ordered(delegates[..i], info)
    {
      assert delegates[..i + 1][..i] == delegates[..i];
      if delegates[i] in info {
        response := response + [info[delegates[i]]];
      }
      i := i + 1;
    }
    assert delegates[..i] == delegates;
  }

  /** Counting tick `n - 1` moves the counters and the missed total from
      `n - 1` ticks to `n`. */
  lemma CountedUnfold(ticks: seq<Tick>, n: nat)
    requires 0 < n <= |ticks|
    ensures Counters(ticks, n) == CountTick(Counters(ticks, n - 1), ticks[n - 1])
    ensures MissedTicks(ticks, n) ==
              MissedTicks(ticks, n - 1) + (if ticks[n - 1].counted && ticks[n - 1].missed then 1 else 0)
  {
  }

  /** When second `n` completes the next window, the window is consumed and
      the snapshot taken; otherwise nothing changes. */
  method SnapshotIfDue(ghost ticks: seq<Tick>, windows: seq<nat>, stakes: map<Address, nat>, n: nat,
                       runtime: map<Address, Counter>, info: map<Address, seq<DelegateInfo>>,
                       remaining: seq<nat>)
    returns (info': map<Address, seq<DelegateInfo>>, remaining': seq<nat>)
    requires ValidWindows(windows) && 0 < n <= Longest(windows) <= |ticks|
    requires runtime == Counters(ticks, n)
    requires info == Records(ticks, windows, stakes, n - 1) && remaining == Pending(windows, n - 1)
    ensures info' == Records(ticks, windows, stakes, n) && remaining' == Pending(windows, n)
  {
    PendingUntilLongest(windows, n - 1);
    info', remaining' := info, remaining;
    var snap := n == remaining[0];
    if snap {
      remaining' := remaining[1..];
      info' := SnapshotAll(info, runtime, n, stakes);
    }
    RecordsUnfold(ticks, windows, stakes, n, snap);
  }

  /** The loop's variables hold the engine state after `i` ticks. */
  ghost predicate EngineAt(ticks: seq<Tick>, windows: seq<nat>, stakes: map<Address, nat>, i: nat,
                           runtime: map<Address, Counter>, info: map<Address, seq<DelegateInfo>>,
                           totalMissed: nat, remaining: seq<nat>)
  {
    i <= |ticks| &&
    runtime == Counters(ticks, i) && info == Records(ticks, windows, stakes, i) &&
    totalMissed == MissedTicks(ticks, i) && remaining == Pending(windows, i)
  }

  /** One second of the main loop, given its tick: count it, then take the
      snapshot if it is due. The engine state after `i` ticks becomes the
      state after `i + 1`. */
  method Advance(ghost ticks: seq<Tick>, windows: seq<nat>, stakes: map<Address, nat>, i: nat, t: Tick,
                 runtime: map<Address, Counter>, info: map<Address, seq<DelegateInfo>>,
                 totalMissed: nat, remaining: seq<nat>)
    returns (runtime': map<Address, Counter>, info': map<Address, seq<DelegateInfo>>,
             totalMissed': nat, remaining': seq<nat>)
    requires ValidWindows(windows) && i < Longest(windows) <= |ticks| && t == ticks[i]
    requires EngineAt(ticks, windows, stakes, i, runtime, info, totalMissed, remaining)
    ensures EngineAt(ticks, windows, stakes, i + 1, runtime', info', totalMissed', remaining')
  {
    runtime', totalMissed' := CountSecond(runtime, totalMissed, t);
    CountedUnfold(ticks, i + 1);
    info', remaining' := SnapshotIfDue(ticks, windows, stakes, i + 1, runtime', info, remaining);
  }

  /** The main loop over the seconds of the longest window: the per-window
      lists and the overall missed total after all of them. */
  method CountWindows(inp: Inputs) returns (info: map<Address, seq<DelegateInfo>>, totalMissed: nat)
    requires ValidInputs(inp)
    ensures info == Records(Ticks(inp, Longest(inp.windows)), inp.windows, inp.stakes, Longest(inp.windows))
    ensures totalMissed == MissedTicks(Ticks(inp, Longest(inp.windows)), Longest(inp.windows))
  {
    var L := Longest(inp.windows);
    ghost var ticks := Ticks(inp, L);
    info := map[];
    var runtime: map<Address, Counter> := map[];
    totalMissed := 0;
    var remaining := inp.windows;
    var i := 0;
    while i < L
      invariant i <= L
      invariant EngineAt(ticks, inp.windows, inp.stakes, i, runtime, info, totalMissed, remaining)
    {
      var t := ExamineSecond(inp, i);
      runtime, info, totalMissed, remaining :=
        Advance(ticks, inp.windows, inp.stakes, i, t, runtime, info, totalMissed, remaining);
      i := i + 1;
    }
  }

  /** getDelegatesStats: the error checks in the source's order, then the
      main loop, then the lists in the block's order. It computes `Stats`. */
  method DelegatesStats(cfg: DposConfig, windows: seq<nat>, address: string, latest: Option<Block>,
                        votes: Option<seq<DelegateVoteInfo>>, stored: Option<seq<Block>>)
    returns (r: Result<StatsReport, StatsError>)
    requires ValidConfig(cfg, windows)
    requires latest.Some? ==> latest.value.timeStamp < Uint64Limit
    ensures r == Stats(cfg, windows, address, latest, votes, stored)
  {
    if latest.None? {
      return Err(StoreError);
    }
    var latestBlock := latest.value;
    var lookup := ParseLookup(address);
    if lookup.Some? {
      var found := ContainsAddress(latestBlock.delegates, lookup.value);
      if !found {
        return Err(AddressNotFoundInDelegates);
      }
    }
    if votes.None? {
      return Err(NodeError);
    }
    var stakes := BuildStakeMap(votes.value);
    if stored.None? {
      return Err(StoreError);
    }
    var byTimestamp := BuildTimestampIndex(stored.value);
    var inp := Inputs(cfg, latestBlock.delegates, latestBlock.timeStamp, lookup, byTimestamp, stakes, windows);
    assert inp == StatsInputs(cfg, windows, lookup, latestBlock, votes.value, stored.value);
    var info, totalMissed := CountWindows(inp);
    var response := OrderLists(latestBlock.delegates, info);
    r := Ok(StatsReport(Longest(windows), totalMissed, response, if lookup.Some? then Some(address) else None));
  }
}
