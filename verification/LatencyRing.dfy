/** The 256-slot latency ring of server/stats.go as a fast form of "the last 256
    samples", and the percentiles taken from it. */
module LatencyRing {

  const CAPACITY := 256

  datatype Ring = Ring(slots: seq<nat>, head: nat, n: nat)

  predicate Shaped(r: Ring) {
    |r.slots| == CAPACITY && r.head < CAPACITY && r.n <= CAPACITY
  }

  function NoSamples(): Ring {
    Ring(seq(CAPACITY, i => 0), 0, 0)
  }

  function Push(r: Ring, v: nat): (q: Ring)
    requires Shaped(r)
    ensures Shaped(q)
  {
    Ring(r.slots[r.head := v], (r.head + 1) % CAPACITY, if r.n < CAPACITY then r.n + 1 else r.n)
  }

  function Distance(a: int, b: int): nat {
    if a < b then b - a else a - b
  }

  /** The value nearest to usec that a 32-bit slot can hold. */
  function Clamp(usec: int): (v: nat)
    ensures v <= 0xffff_ffff
    ensures forall w :: 0 <= w <= 0xffff_ffff ==> Distance(v, usec) <= Distance(w, usec)
  {
    if usec < 0 then 0 else if usec > 0xffff_ffff then 0xffff_ffff else usec
  }

  function PushAll(samples: seq<nat>): (r: Ring)
    ensures Shaped(r)
  {
    if samples == [] then NoSamples() else Push(PushAll(samples[..|samples| - 1]), samples[|samples| - 1])
  }

  function Min(a: nat, b: nat): nat {
    if a < b then a else b
  }

  function Cell(r: Ring, k: nat): nat
    requires Shaped(r)
  {
    r.slots[k % CAPACITY]
  }

  /** After `samples`, sample k sits in slot k % 256 as long as it is among the
      last 256. */
  ghost predicate Holds(r: Ring, samples: seq<nat>) {
    && Shaped(r)
    && r.n == Min(|samples|, CAPACITY) && r.head == |samples| % CAPACITY
    && (forall k: nat :: |samples| - r.n <= k < |samples| ==> Cell(r, k) == samples[k])
  }

  lemma PushHolds(r: Ring, samples: seq<nat>, v: nat)
    requires Holds(r, samples)
    ensures Holds(Push(r, v), samples + [v])
  {}

  lemma {:induction false} RingHolds(samples: seq<nat>)
    ensures Holds(PushAll(samples), samples)
    decreases |samples|
  {
    if samples != [] {
      var prior := samples[..|samples| - 1];
      RingHolds(prior);
      PushHolds(PushAll(prior), prior, samples[|samples| - 1]);
      assert prior + [samples[|samples| - 1]] == samples;
    }
  }

  /** What Snapshot copies out of the ring. */
  function Kept(r: Ring): seq<nat>
    requires Shaped(r)
  {
    if r.n < CAPACITY then r.slots[..r.n] else r.slots
  }

  /** The samples in order of arrival: the slots as they are while the ring has
      not wrapped, and turned at the head afterwards. */
  function InOrder(r: Ring): seq<nat>
    requires Shaped(r)
  {
    if r.n < CAPACITY then r.slots[..r.n] else r.slots[r.head..] + r.slots[..r.head]
  }

  lemma InOrderIsLast(r: Ring, samples: seq<nat>)
    requires Holds(r, samples)
    ensures InOrder(r) == samples[|samples| - r.n..]
  {
    var m := |samples|;
    var turned := InOrder(r);
    forall i: nat | i < r.n ensures turned[i] == samples[m - r.n + i] {
      var k: nat := m - r.n + i;
      assert Cell(r, k) == samples[k];
      if r.n == CAPACITY { WrappedIndex(m, i); }
    }
  }

  lemma WrappedIndex(m: nat, i: nat)
    requires m >= CAPACITY && i < CAPACITY
    ensures var head := m % CAPACITY;
            (m - CAPACITY + i) % CAPACITY == if head + i < CAPACITY then head + i else head + i - CAPACITY
  {}

  /** The last min(total, 256) samples. */
  function Last(samples: seq<nat>): seq<nat> {
    if |samples| <= 256 then samples else samples[|samples| - 256..]
  }

  lemma HeldSamples(r: Ring, samples: seq<nat>)
    requires Holds(r, samples)
    ensures InOrder(r) == Last(samples) && multiset(Kept(r)) == multiset(Last(samples))
  {
    InOrderIsLast(r, samples);
    KeptIsPermuted(r);
  }

  /** The ring holds exactly the last min(total, 256) samples. */
  lemma LastSamples(samples: seq<nat>)
    ensures PushAll(samples).n == |Last(samples)|
    ensures InOrder(PushAll(samples)) == Last(samples)
    ensures multiset(Kept(PushAll(samples))) == multiset(Last(samples))
  {
    RingHolds(samples);
    HeldSamples(PushAll(samples), samples);
  }

  lemma KeptIsPermuted(r: Ring)
    requires Shaped(r)
    ensures multiset(Kept(r)) == multiset(InOrder(r))
  {
    assert r.slots == r.slots[..r.head] + r.slots[r.head..];
  }

  // ---------------------------------------------------------------------
  // Order statistics.

  predicate Sorted(s: seq<nat>) {
    forall i, j :: 0 <= i < j < |s| ==> s[i] <= s[j]
  }

  function Insert(x: nat, s: seq<nat>): (r: seq<nat>)
    ensures multiset(r) == multiset(s) + multiset{x}
  {
    if s == [] || x <= s[0] then [x] + s
    else
      assert s == [s[0]] + s[1..];
      [s[0]] + Insert(x, s[1..])
  }

  lemma ConsSorted(h: nat, t: seq<nat>)
    requires Sorted(t) && (t != [] ==> h <= t[0])
    ensures Sorted([h] + t)
  {}

  lemma {:induction false} InsertKeepsSorted(x: nat, s: seq<nat>)
    requires Sorted(s)
    ensures Sorted(Insert(x, s))
    ensures Insert(x, s) != [] && (Insert(x, s)[0] == x || (s != [] && Insert(x, s)[0] == s[0]))
    decreases |s|
  {
    if s == [] || x <= s[0] {
      ConsSorted(x, s);
    } else {
      InsertKeepsSorted(x, s[1..]);
      ConsSorted(s[0], Insert(x, s[1..]));
    }
  }

  /** What the program relies on from sort.Slice. */
  function SortedCopy(s: seq<nat>): (r: seq<nat>)
    ensures Sorted(r) && multiset(r) == multiset(s)
  {
    if s == [] then []
    else
      assert s == [s[0]] + s[1..];
      var t := SortedCopy(s[1..]);
      InsertKeepsSorted(s[0], t);
      Insert(s[0], t)
  }

  function CountBelow(s: seq<nat>, v: nat): (c: nat)
    ensures c <= |s|
  {
    if s == [] then 0 else CountBelow(s[..|s| - 1], v) + (if s[|s| - 1] < v then 1 else 0)
  }

  /** v is the k-th smallest of s, counted from 0: at most k samples are below
      it and more than k are not above it. */
  predicate OrderStatistic(s: seq<nat>, k: nat, v: nat) {
    v in s && CountBelow(s, v) <= k < CountBelow(s, v + 1)
  }

  lemma {:induction false} CountConcat(a: seq<nat>, b: seq<nat>, v: nat)
    ensures CountBelow(a + b, v) == CountBelow(a, v) + CountBelow(b, v)
    decreases |b|
  {
    if b == [] {
      assert a + b == a;
    } else {
      assert (a + b)[..|a + b| - 1] == a + b[..|b| - 1];
      CountConcat(a, b[..|b| - 1], v);
    }
  }

  lemma CountWithout(b: seq<nat>, i: nat, v: nat)
    requires i < |b|
    ensures var rest := b[..i] + b[i + 1..];
            && multiset(b) == multiset(rest) + multiset{b[i]}
            && CountBelow(b, v) == CountBelow(rest, v) + (if b[i] < v then 1 else 0)
  {
    var x := b[i];
    assert b == b[..i] + ([x] + b[i + 1..]);
    CountConcat(b[..i], [x] + b[i + 1..], v);
    CountConcat([x], b[i + 1..], v);
    CountConcat(b[..i], b[i + 1..], v);
    assert [x][..0] == [];
  }

  /** Counting depends on the samples only, not on their order. */
  lemma {:induction false} CountPermuted(a: seq<nat>, b: seq<nat>, v: nat)
    requires multiset(a) == multiset(b)
    ensures CountBelow(a, v) == CountBelow(b, v)
    decreases |a|
  {
    if a == [] {
      assert |multiset(b)| == 0;
    } else {
      var last := |a| - 1;
      assert a[last] in multiset(b);
      var i :| 0 <= i < |b| && b[i] == a[last];
      CountWithout(a, last, v);
      CountWithout(b, i, v);
      var restA, restB := a[..last] + a[last + 1..], b[..i] + b[i + 1..];
      assert multiset(restA) == multiset(a) - multiset{b[i]} == multiset(restB);
      CountPermuted(restA, restB, v);
    }
  }

  lemma {:induction false} CountSorted(s: seq<nat>, k: nat)
    requires Sorted(s) && k < |s|
    ensures CountBelow(s, s[k]) <= k < CountBelow(s, s[k] + 1)
  {
    var v := s[k];
    var low, high := s[..k], s[k..];
    forall i | 0 <= i < |high| ensures high[i] >= v { assert high[i] == s[k + i]; }
    NoneBelow(high, v);
    assert s == low + high;
    CountConcat(low, high, v);
    CountUpTo(s, k);
  }

  lemma {:induction false} CountUpTo(s: seq<nat>, k: nat)
    requires Sorted(s) && k < |s|
    ensures k < CountBelow(s, s[k] + 1)
  {
    var low, high := s[..k + 1], s[k + 1..];
    forall i | 0 <= i < |low| ensures low[i] < s[k] + 1 { assert low[i] == s[i]; }
    AllBelow(low, s[k] + 1);
    assert s == low + high;
    CountConcat(low, high, s[k] + 1);
  }

  lemma NoneBelow(s: seq<nat>, v: nat)
    requires forall i :: 0 <= i < |s| ==> s[i] >= v
    ensures CountBelow(s, v) == 0
  {}

  lemma AllBelow(s: seq<nat>, v: nat)
    requires forall i :: 0 <= i < |s| ==> s[i] < v
    ensures CountBelow(s, v) == |s|
  {}

  /** Indexing any sorted arrangement of the samples yields the order statistic. */
  lemma PickIsOrderStatistic(samples: seq<nat>, r: seq<nat>, k: nat)
    requires Sorted(r) && multiset(r) == multiset(samples) && k < |r|
    ensures OrderStatistic(samples, k, r[k])
  {
    CountSorted(r, k);
    CountPermuted(r, samples, r[k]);
    CountPermuted(r, samples, r[k] + 1);
    assert r[k] in multiset(samples);
  }

  lemma PercentilePermuted(a: seq<nat>, b: seq<nat>, percent: nat, v: nat)
    requires multiset(a) == multiset(b) && Percentile(a, percent, v)
    ensures Percentile(b, percent, v)
  {
    var k: nat :| Rank(|a|, percent, k) && OrderStatistic(a, k, v);
    assert |a| == |multiset(a)| == |multiset(b)| == |b|;
    OrderStatisticPermuted(a, b, k, v);
  }

  lemma OrderStatisticPermuted(a: seq<nat>, b: seq<nat>, k: nat, v: nat)
    requires multiset(a) == multiset(b)
    ensures OrderStatistic(a, k, v) <==> OrderStatistic(b, k, v)
  {
    CountPermuted(a, b, v);
    CountPermuted(a, b, v + 1);
    assert v in a <==> v in multiset(a);
    assert v in b <==> v in multiset(b);
  }

  /** There is only one k-th smallest, so the statement pins the value down. */
  lemma OrderStatisticUnique(s: seq<nat>, k: nat, v: nat, w: nat)
    requires OrderStatistic(s, k, v) && OrderStatistic(s, k, w)
    ensures v == w
  {
    if v < w { CountMonotone(s, v + 1, w); }
    if w < v { CountMonotone(s, w + 1, v); }
  }

  /** Nor is there a second percentile. */
  lemma PercentileUnique(s: seq<nat>, percent: nat, v: nat, w: nat)
    requires Percentile(s, percent, v) && Percentile(s, percent, w)
    ensures v == w
  {
    var k: nat :| Rank(|s|, percent, k) && OrderStatistic(s, k, v);
    var m: nat :| Rank(|s|, percent, m) && OrderStatistic(s, m, w);
    assert k == m;
    OrderStatisticUnique(s, k, v, w);
  }

  lemma CountMonotone(s: seq<nat>, v: nat, w: nat)
    requires v <= w
    ensures CountBelow(s, v) <= CountBelow(s, w)
  {}

  /** k is (n - 1) * percent / 100 rounded down. */
  predicate Rank(n: nat, percent: nat, k: nat) {
    100 * k <= (n - 1) * percent < 100 * (k + 1)
  }

  /** v is the order statistic of s at that rank. */
  ghost predicate Percentile(s: seq<nat>, percent: nat, v: nat) {
    exists k: nat :: Rank(|s|, percent, k) && OrderStatistic(s, k, v)
  }

  function PickIndex(n: nat, percent: nat): (k: nat)
    requires n > 0 && percent <= 100
    ensures k < n && Rank(n, percent, k)
  {
    ScaledDown(n - 1, percent);
    (n - 1) * percent / 100
  }

  lemma ScaledDown(m: nat, percent: nat)
    requires percent <= 100
    ensures 0 <= m * percent <= m * 100
  {}

  lemma PickMonotone(n: nat)
    requires n > 0
    ensures PickIndex(n, 50) <= PickIndex(n, 95) <= PickIndex(n, 99)
  {}

  /** `percentiles`: sorts its argument in place and picks three entries. */
  method Percentiles(samples: array<nat>) returns (p50: nat, p95: nat, p99: nat)
    modifies samples
    ensures multiset(samples[..]) == multiset(old(samples[..])) && Sorted(samples[..])
    ensures samples.Length == 0 ==> p50 == p95 == p99 == 0
    ensures samples.Length > 0 ==>
              && Percentile(old(samples[..]), 50, p50)
              && Percentile(old(samples[..]), 95, p95)
              && Percentile(old(samples[..]), 99, p99)
    ensures p50 <= p95 <= p99
  {
    if samples.Length == 0 {
      return 0, 0, 0;
    }
    ghost var before := samples[..];
    SortInPlace(samples);
    var n := samples.Length;
    var i, j, k := PickIndex(n, 50), PickIndex(n, 95), PickIndex(n, 99);
    p50, p95, p99 := samples[i], samples[j], samples[k];
    ghost var sorted := samples[..];
    PickIsOrderStatistic(before, sorted, i);
    PickIsOrderStatistic(before, sorted, j);
    PickIsOrderStatistic(before, sorted, k);
    assert i <= j <= k by { PickMonotone(n); }
    assert sorted[i] <= sorted[j] <= sorted[k];
  }

  /** Stands for sort.Slice. */
  method SortInPlace(a: array<nat>)
    modifies a
    ensures Sorted(a[..]) && multiset(a[..]) == multiset(old(a[..]))
  {
    var r := SortedCopy(a[..]);
    assert |r| == |multiset(r)| == |multiset(a[..])| == a.Length;
    for i := 0 to a.Length
      invariant forall j :: 0 <= j < i ==> a[j] == r[j]
    {
      a[i] := r[i];
    }
    assert a[..] == r;
  }
}
