/** Shared vocabulary: bytes, addresses, hashes, failure-carrying results,
    64-bit unsigned wrap-around, sums over maps and the fixed-size batching
    rule used by every insert stage of the sync pipeline. */
module Common {

  type Byte = b: int | 0 <= b < 256

  const AddressLength: nat := 20
  const HashLength: nat := 32

  /** A 20-byte account address (common.Address). */
  type Address = s: seq<Byte> | |s| == 20 witness seq(20, _ => 0)

  /** A 32-byte block or transaction hash (common.Hash). */
  type Hash = s: seq<Byte> | |s| == 32 witness seq(32, _ => 0)

  /** `n` zero bytes. */
  function Zeros(n: nat): (z: seq<Byte>)
    ensures |z| == n
    ensures forall i :: 0 <= i < n ==> z[i] == 0
  {
    if n == 0 then [] else [0] + Zeros(n - 1)
  }

  const ZeroAddress: Address := Zeros(20)
  const ZeroHash: Hash := Zeros(32)

  /** Address.SetBytes: keeps the last 20 bytes, left-pads shorter input with zeros. */
  function AddressFromBytes(b: seq<Byte>): (a: Address)
    ensures |b| == AddressLength ==> a == b
    ensures |b| <= AddressLength ==> a[AddressLength - |b|..] == b
  {
    if |b| >= 20 then b[|b| - 20..] else Zeros(20 - |b|) + b
  }

  /** Hash.SetBytes: keeps the last 32 bytes, left-pads shorter input with zeros. */
  function HashFromBytes(b: seq<Byte>): (h: Hash)
    ensures |b| == HashLength ==> h == b
    ensures |b| <= HashLength ==> h[HashLength - |b|..] == b
  {
    if |b| >= 32 then b[|b| - 32..] else Zeros(32 - |b|) + b
  }

  datatype Option<+T> = None | Some(value: T)

  datatype Result<+T, +E> = Ok(value: T) | Err(error: E)

  // ---------------------------------------------------------------------------
  // Unsigned 64-bit arithmetic as Go performs it on uint64.

  const Uint64Limit: nat := 0x1_0000_0000_0000_0000
  const Uint32Limit: nat := 0x1_0000_0000

  /** Go's uint64 `a - b`: wraps below zero. */
  function Sub64(a: nat, b: nat): (r: nat)
    requires a < Uint64Limit && b < Uint64Limit
    ensures r < Uint64Limit
    ensures b <= a ==> r == a - b
    ensures a < b ==> r == Uint64Limit + a - b
  {
    (a - b) % Uint64Limit
  }

  /** Go's uint64 `a + b`: wraps above 2^64 - 1. */
  function Add64(a: nat, b: nat): (r: nat)
    requires a < Uint64Limit && b < Uint64Limit
    ensures r < Uint64Limit
    ensures a + b < Uint64Limit ==> r == a + b
    ensures Uint64Limit <= a + b ==> r == a + b - Uint64Limit
  {
    (a + b) % Uint64Limit
  }

  // ---------------------------------------------------------------------------
  // Sums over maps (the Go code folds counters kept in maps).

  ghost function PickKey<K>(m: map<K, nat>): (k: K)
    requires m != map[]
    ensures k in m
  {
    var k :| k in m; k
  }

  /** The sum of all values of `m`. */
  ghost function MapSum<K>(m: map<K, nat>): nat
    decreases m.Keys
  {
    if m == map[] then 0
    else
      var k := PickKey(m);
      m[k] + MapSum(m - {k})
  }

  /** Removing any one key takes its value out of the sum. */
  lemma {:induction false} MapSumRemove<K>(m: map<K, nat>, k: K)
    requires k in m
    ensures MapSum(m) == m[k] + MapSum(m - {k})
    decreases m.Keys
  {
    var p := PickKey(m);
    if p != k {
      assert m - {p} - {k} == m - {k} - {p};
      MapSumRemove(m - {p}, k);
      MapSumRemove(m - {k}, p);
    }
  }

  /** Updating one entry moves the sum by the difference of the two values. */
  lemma MapSumUpdate<K>(m: map<K, nat>, k: K, v: nat)
    ensures MapSum(m[k := v]) == MapSum(m) - (if k in m then m[k] else 0) + v
  {
    var m' := m[k := v];
    MapSumRemove(m', k);
    assert m' - {k} == m - {k};
    if k in m {
      MapSumRemove(m, k);
    } else {
      assert m - {k} == m;
    }
  }

  /** The map a Go loop builds by assigning `m[k] = v` for each pair in
      order: a later pair for the same key replaces an earlier one. */
  function LastWins<K, V>(pairs: seq<(K, V)>): map<K, V>
  {
    if pairs == [] then map[]
    else LastWins(pairs[..|pairs| - 1])[pairs[|pairs| - 1].0 := pairs[|pairs| - 1].1]
  }

  /** One more pair overrides its key. */
  lemma LastWinsSnoc<K, V>(pairs: seq<(K, V)>, p: (K, V))
    ensures LastWins(pairs + [p]) == LastWins(pairs)[p.0 := p.1]
  {
    assert (pairs + [p])[..|pairs|] == pairs;
  }

  /** A key is present exactly when some pair names it, and holds the value
      of the last such pair. */
  lemma {:induction false} LastWinsFind<K, V>(pairs: seq<(K, V)>, j: nat)
    requires j < |pairs|
    requires forall k :: j < k < |pairs| ==> pairs[k].0 != pairs[j].0
    ensures pairs[j].0 in LastWins(pairs) && LastWins(pairs)[pairs[j].0] == pairs[j].1
  {
    if j < |pairs| - 1 {
      LastWinsFind(pairs[..|pairs| - 1], j);
    }
  }

  lemma {:induction false} LastWinsKeys<K, V>(pairs: seq<(K, V)>, key: K)
    ensures key in LastWins(pairs) <==> exists j :: 0 <= j < |pairs| && pairs[j].0 == key
  {
    if pairs != [] {
      var init := pairs[..|pairs| - 1];
      LastWinsKeys(init, key);
      if key in LastWins(init) {
        var j :| 0 <= j < |init| && init[j].0 == key;
        assert pairs[j].0 == key;
      }
      if exists j :: 0 <= j < |pairs| && pairs[j].0 == key {
        var j :| 0 <= j < |pairs| && pairs[j].0 == key;
        if j < |init| {
          assert init[j].0 == key;
        }
      }
    }
  }

  /** More pairs never remove a key. */
  lemma LastWinsGrows<K, V>(pairs: seq<(K, V)>, more: seq<(K, V)>)
    ensures LastWins(pairs).Keys <= LastWins(pairs + more).Keys
    ensures |LastWins(pairs)| <= |LastWins(pairs + more)|
  {
    forall key | key in LastWins(pairs)
      ensures key in LastWins(pairs + more)
    {
      LastWinsKeys(pairs, key);
      var j :| 0 <= j < |pairs| && pairs[j].0 == key;
      assert (pairs + more)[j].0 == key;
      LastWinsKeys(pairs + more, key);
    }
    assert LastWins(pairs).Keys <= LastWins(pairs + more).Keys;
    SubsetCard(LastWins(pairs).Keys, LastWins(pairs + more).Keys);
  }

  lemma SubsetCard<K>(a: set<K>, b: set<K>)
    requires a <= b
    ensures |a| <= |b|
  {
    if a != {} {
      var x :| x in a;
      SubsetCard(a - {x}, b - {x});
    }
  }

  // ---------------------------------------------------------------------------
  // Sequences.

  /** Concatenation of a sequence of sequences, in order. */
  function Flatten<T>(ss: seq<seq<T>>): seq<T>
  {
    if ss == [] then [] else ss[0] + Flatten(ss[1..])
  }

  lemma {:induction false} FlattenAppend<T>(ss: seq<seq<T>>, s: seq<T>)
    ensures Flatten(ss + [s]) == Flatten(ss) + s
  {
    if ss != [] {
      assert (ss + [s])[1..] == ss[1..] + [s];
      FlattenAppend(ss[1..], s);
    }
  }

  /** Number of occurrences of `x` in `s`. */
  function Occurrences<T(==)>(s: seq<T>, x: T): nat
  {
    if s == [] then 0
    else Occurrences(s[..|s| - 1], x) + (if s[|s| - 1] == x then 1 else 0)
  }

  // ---------------------------------------------------------------------------
  // Fixed-size batching: the insert stages append to a buffer and flush it
  // whenever it reaches `size`, then flush whatever is left (possibly
  // nothing) once the input ends.

  /** The batches handed to the store: full batches in input order, then the
      final remainder, which is shorter than `size` and may be empty. */
  function Batches<T>(s: seq<T>, size: nat): seq<seq<T>>
    requires size > 0
    decreases |s|
  {
    if |s| < size then [s] else [s[..size]] + Batches(s[size..], size)
  }

  /** Every batch but the last is full, the last is not, and together they are the input. */
  lemma {:induction false} BatchesShape<T>(s: seq<T>, size: nat)
    requires size > 0
    ensures |Batches(s, size)| >= 1
    ensures Flatten(Batches(s, size)) == s
    ensures forall k :: 0 <= k < |Batches(s, size)| - 1 ==> |Batches(s, size)[k]| == size
    ensures |Batches(s, size)[|Batches(s, size)| - 1]| < size
    decreases |s|
  {
    if |s| >= size {
      BatchesShape(s[size..], size);
      var rest := Batches(s[size..], size);
      var b := Batches(s, size);
      assert b == [s[..size]] + rest;
      assert Flatten(b) == s[..size] + Flatten(rest);
      assert s[..size] + s[size..] == s;
      forall k | 0 <= k < |b| - 1
        ensures |b[k]| == size
      {
        if k > 0 {
          assert b[k] == rest[k - 1];
        }
      }
      assert b[|b| - 1] == rest[|rest| - 1];
    }
  }

  /** Appending one element either grows the open remainder or closes it into a
      full batch, which is how the streaming loop discovers batches. */
  lemma {:induction false} BatchesSnoc<T>(s: seq<T>, x: T, size: nat)
    requires size > 0
    ensures var b := Batches(s, size);
            var last := b[|b| - 1] + [x];
            Batches(s + [x], size) ==
              b[..|b| - 1] + (if |last| == size then [last, []] else [last])
    decreases |s|
  {
    if |s| < size {
      if |s| + 1 == size {
        assert (s + [x])[size..] == [];
        assert (s + [x])[..size] == s + [x];
      }
    } else {
      assert (s + [x])[..size] == s[..size];
      assert (s + [x])[size..] == s[size..] + [x];
      BatchesSnoc(s[size..], x, size);
    }
  }

  /** The full batches of a prefix are the first batches of the whole input. */
  lemma {:induction false} BatchesPrefix<T>(s: seq<T>, t: seq<T>, size: nat)
    requires size > 0
    ensures var b := Batches(s, size);
            |b| <= |Batches(s + t, size)| &&
            b[..|b| - 1] == Batches(s + t, size)[..|b| - 1]
    decreases |s|
  {
    if |s| >= size {
      assert (s + t)[..size] == s[..size];
      assert (s + t)[size..] == s[size..] + t;
      BatchesPrefix(s[size..], t, size);
    }
  }
}
