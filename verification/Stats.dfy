/** server/stats.go: per-service counters and the two rings, updated in place.
    Each method body between Lock and Unlock is atomic; the clock readings and
    the measured latency are parameters. */
module Stats {
  import opened Words
  import RateRing
  import LatencyRing

  /** Go's %, which takes the sign of the dividend. */
  function GoRem(a: int, b: int): int
    requires b > 0
  {
    if a >= 0 then a % b else -((-a) % b)
  }

  /** Adding the modulus to a negative remainder gives the slot of a second. */
  lemma GoSlot(t: int)
    ensures var idx := GoRem(t, RateRing.SLOTS);
            (if idx < 0 then idx + RateRing.SLOTS else idx) == t % RateRing.SLOTS
  {}

  datatype Snapshot = Snapshot(
    rps60: seq<nat>, bps60: seq<nat>,
    p50: nat, p95: nat, p99: nat,
    httpRequests: nat, httpBytesIn: nat, httpBytesOut: nat, httpActive: int,
    wsUpgrades: nat, wsBytesIn: nat, wsBytesOut: nat, wsActive: int)

  /** A snapshot that is on time shows the log. */
  lemma SnapshotShows(l: RateRing.Ledger, word: nat, now: int)
    requires RateRing.Sound(l, word)
    ensures var m := RateRing.Entered(l, RateRing.SnapOp(now), word);
            m.onTime ==>
              && RateRing.ShowsLog(RateRing.Entries(m.ring, now), m.log, m.ring.unix, now, word)
              && (now >= l.ring.unix ==> RateRing.ShowsSeconds(RateRing.Entries(m.ring, now), m.log, now, word))
  {
    assert l.log + [] == l.log;
    if RateRing.Entered(l, RateRing.SnapOp(now), word).onTime { RateRing.WindowShowsLog(l, word, now); }
  }

  class Stats {
    var httpRequests: nat
    var httpBytesIn: nat
    var httpBytesOut: nat
    var httpActive: int
    var wsUpgrades: nat
    var wsBytesIn: nat
    var wsBytesOut: nat
    var wsActive: int

    const latencies: array<nat>
    var latencyHead: nat
    var latencyN: nat

    const rps: array<nat>
    const bps: array<nat>
    var bucketUnix: int

    /** What was counted in each rate ring, and every latency recorded. */
    ghost var requests: RateRing.Ledger
    ghost var bytes: RateRing.Ledger
    ghost var samples: seq<nat>

    ghost predicate Shape()
      reads this`latencyHead, this`latencyN, this`bucketUnix
    {
      && rps.Length == RateRing.SLOTS && bps.Length == RateRing.SLOTS && rps != bps
      && latencies.Length == LatencyRing.CAPACITY && latencies != rps && latencies != bps
      && latencyHead < LatencyRing.CAPACITY && latencyN <= LatencyRing.CAPACITY
      && 0 <= bucketUnix
    }

    /** The rings hold what was logged. */
    ghost predicate Valid()
      reads this`latencyHead, this`latencyN, this`bucketUnix, this`requests, this`bytes, this`samples
      reads latencies, rps, bps
    {
      && Shape()
      && requests.ring == Requests() && RateRing.Sound(requests, WORD32)
      && bytes.ring == Bytes() && RateRing.Sound(bytes, WORD64)
      && LatencyRing.Holds(Latency(), samples)
    }

    ghost function Requests(): RateRing.Ring reads this`bucketUnix, rps { RateRing.Ring(rps[..], bucketUnix) }
    ghost function Bytes(): RateRing.Ring reads this`bucketUnix, bps { RateRing.Ring(bps[..], bucketUnix) }
    ghost function Latency(): LatencyRing.Ring reads this`latencyHead, this`latencyN, latencies {
      LatencyRing.Ring(latencies[..], latencyHead, latencyN)
    }

    constructor ()
      ensures Valid() && fresh(rps) && fresh(bps) && fresh(latencies)
      ensures requests == bytes == RateRing.NewLedger() && samples == []
      ensures httpRequests == httpBytesIn == httpBytesOut == wsUpgrades == wsBytesIn == wsBytesOut == 0
      ensures httpActive == wsActive == 0
    {
      httpRequests, httpBytesIn, httpBytesOut, httpActive := 0, 0, 0, 0;
      wsUpgrades, wsBytesIn, wsBytesOut, wsActive := 0, 0, 0, 0;
      latencies := new nat[LatencyRing.CAPACITY](i => 0);
      latencyHead, latencyN := 0, 0;
      rps := new nat[RateRing.SLOTS](i => 0);
      bps := new nat[RateRing.SLOTS](i => 0);
      bucketUnix := 0;
      requests, bytes, samples := RateRing.NewLedger(), RateRing.NewLedger(), [];
      RateRing.NewLedgerBalanced(WORD32);
      RateRing.NewLedgerBalanced(WORD64);
    }

    method ZeroAll()
      requires Shape()
      modifies rps, bps
      ensures forall j :: 0 <= j < RateRing.SLOTS ==> rps[j] == 0 && bps[j] == 0
    {
      for i := 0 to RateRing.SLOTS
        invariant forall j :: 0 <= j < i ==> rps[j] == 0 && bps[j] == 0
      {
        rps[i] := 0;
        bps[i] := 0;
      }
    }

    /** Zeroes the buckets of the `gap` seconds after bucketUnix. */
    method ZeroAfter(gap: int)
      requires Shape() && 0 < gap < RateRing.SLOTS
      modifies rps, bps
      ensures forall j :: 0 <= j < RateRing.SLOTS ==>
                && rps[j] == (if RateRing.Stale(bucketUnix, bucketUnix + gap, j) then 0 else old(rps[j]))
                && bps[j] == (if RateRing.Stale(bucketUnix, bucketUnix + gap, j) then 0 else old(bps[j]))
    {
      for k := 1 to gap + 1
        invariant forall j :: 0 <= j < RateRing.SLOTS ==>
          && rps[j] == (if RateRing.Past(bucketUnix, j) < k - 1 then 0 else old(rps[j]))
          && bps[j] == (if RateRing.Past(bucketUnix, j) < k - 1 then 0 else old(bps[j]))
      {
        var idx := (bucketUnix + k) % RateRing.SLOTS;
        forall j | 0 <= j < RateRing.SLOTS ensures idx == j <==> RateRing.Past(bucketUnix, j) == k - 1 {
          RateRing.SlotAfter(bucketUnix, k, j);
        }
        rps[idx] := 0;
        bps[idx] := 0;
      }
    }

    /** Zeroes every bucket whose second is now stale. */
    method AdvanceBuckets(now: int)
      requires Shape() && now >= 0
      modifies this`bucketUnix, rps, bps
      ensures Shape()
      ensures Requests() == RateRing.Advance(old(Requests()), now)
      ensures Bytes() == RateRing.Advance(old(Bytes()), now)
    {
      if bucketUnix == 0 {
        bucketUnix := now;
        return;
      }
      var gap := now - bucketUnix;
      if gap <= 0 {
        return;
      }
      if gap >= RateRing.SLOTS {
        ZeroAll();
      } else {
        ZeroAfter(gap);
      }
      bucketUnix := now;
    }

    method BumpBucket(now: int, requestCount: nat, byteCount: nat)
      requires Valid() && now >= 0
      modifies this`bucketUnix, this`requests, this`bytes, rps, bps
      ensures Valid()
      ensures requests == RateRing.Entered(old(requests), RateRing.BumpOp(now, requestCount), WORD32)
      ensures bytes == RateRing.Entered(old(bytes), RateRing.BumpOp(now, byteCount), WORD64)
    {
      RateRing.EnteredSound(requests, RateRing.BumpOp(now, requestCount), WORD32);
      RateRing.EnteredSound(bytes, RateRing.BumpOp(now, byteCount), WORD64);
      AdvanceBuckets(now);
      var idx := now % RateRing.SLOTS;
      rps[idx] := (rps[idx] + requestCount) % WORD32;
      bps[idx] := (bps[idx] + byteCount) % WORD64;
      requests := RateRing.Entered(requests, RateRing.BumpOp(now, requestCount), WORD32);
      bytes := RateRing.Entered(bytes, RateRing.BumpOp(now, byteCount), WORD64);
    }

    method AddHTTPBytes(now: int, bytesIn: nat, bytesOut: nat)
      requires Valid() && now >= 0
      modifies this`httpBytesIn, this`httpBytesOut, this`bucketUnix, this`requests, this`bytes, rps, bps
      ensures Valid()
      ensures httpBytesIn == if bytesIn > 0 then (old(httpBytesIn) + bytesIn) % 0x1_0000_0000_0000_0000 else old(httpBytesIn)
      ensures httpBytesOut == if bytesOut > 0 then (old(httpBytesOut) + bytesOut) % 0x1_0000_0000_0000_0000 else old(httpBytesOut)
      ensures requests == RateRing.Entered(old(requests), RateRing.BumpOp(now, 0), WORD32)
      ensures bytes == RateRing.Entered(old(bytes), RateRing.BumpOp(now, (bytesIn + bytesOut) % WORD64), WORD64)
    {
      if bytesIn > 0 {
        httpBytesIn := (httpBytesIn + bytesIn) % WORD64;
      }
      if bytesOut > 0 {
        httpBytesOut := (httpBytesOut + bytesOut) % WORD64;
      }
      BumpBucket(now, 0, (bytesIn + bytesOut) % WORD64);
    }

    method RecordLatency(usec: int)
      requires Valid()
      modifies this`latencyHead, this`latencyN, this`samples, latencies
      ensures Valid() && samples == old(samples) + [LatencyRing.Clamp(usec)]
    {
      var v := LatencyRing.Clamp(usec);
      LatencyRing.PushHolds(Latency(), samples, v);
      latencies[latencyHead] := v;
      latencyHead := (latencyHead + 1) % LatencyRing.CAPACITY;
      if latencyN < LatencyRing.CAPACITY {
        latencyN := latencyN + 1;
      }
      samples := samples + [v];
      assert Latency() == LatencyRing.Push(old(Latency()), v);
    }

    /** One finished request: its bytes under the second read first, itself under
        the second read last, and its latency in between. */
    method HTTPCompleted(usec: int, bytesIn: nat, bytesOut: nat, first: int, second: int)
      requires Valid() && first >= 0 && second >= 0
      modifies this`httpRequests, this`httpBytesIn, this`httpBytesOut
      modifies this`latencyHead, this`latencyN, this`bucketUnix, this`requests, this`bytes, this`samples
      modifies latencies, rps, bps
      ensures Valid()
      ensures httpRequests == (old(httpRequests) + 1) % 0x1_0000_0000_0000_0000
      ensures httpBytesIn == if bytesIn > 0 then (old(httpBytesIn) + bytesIn) % 0x1_0000_0000_0000_0000 else old(httpBytesIn)
      ensures httpBytesOut == if bytesOut > 0 then (old(httpBytesOut) + bytesOut) % 0x1_0000_0000_0000_0000 else old(httpBytesOut)
      ensures samples == old(samples) + [LatencyRing.Clamp(usec)]
      ensures requests == RateRing.Entered(
                RateRing.Entered(old(requests), RateRing.BumpOp(first, 0), WORD32), RateRing.BumpOp(second, 1), WORD32)
      ensures bytes == RateRing.Entered(
                RateRing.Entered(old(bytes), RateRing.BumpOp(first, (bytesIn + bytesOut) % WORD64), WORD64),
                RateRing.BumpOp(second, 0), WORD64)
    {
      httpRequests := (httpRequests + 1) % WORD64;
      AddHTTPBytes(first, bytesIn, bytesOut);
      RecordLatency(usec);
      BumpBucket(second, 1, 0);
    }

    /** The last 60 seconds oldest first, and the percentiles of the last samples. */
    method TakeSnapshot(now: int) returns (snap: Snapshot)
      requires Valid() && now >= 0
      modifies this`bucketUnix, this`requests, this`bytes, rps, bps
      ensures Valid()
      ensures requests == RateRing.Entered(old(requests), RateRing.SnapOp(now), WORD32)
      ensures bytes == RateRing.Entered(old(bytes), RateRing.SnapOp(now), WORD64)
      ensures requests.onTime ==> RateRing.ShowsLog(snap.rps60, requests.log, bucketUnix, now, 0x1_0000_0000)
      ensures requests.onTime && now >= old(bucketUnix) ==> RateRing.ShowsSeconds(snap.rps60, requests.log, now, 0x1_0000_0000)
      ensures bytes.onTime ==> RateRing.ShowsLog(snap.bps60, bytes.log, bucketUnix, now, 0x1_0000_0000_0000_0000)
      ensures bytes.onTime && now >= old(bucketUnix) ==> RateRing.ShowsSeconds(snap.bps60, bytes.log, now, 0x1_0000_0000_0000_0000)
      ensures |snap.rps60| == |snap.bps60| == 60
      ensures LastPercentiles(snap.p50, snap.p95, snap.p99)
      ensures snap.httpRequests == httpRequests && snap.httpActive == httpActive
      ensures snap.httpBytesIn == httpBytesIn && snap.httpBytesOut == httpBytesOut
      ensures snap.wsUpgrades == wsUpgrades && snap.wsActive == wsActive
      ensures snap.wsBytesIn == wsBytesIn && snap.wsBytesOut == wsBytesOut
    {
      RateRing.EnteredSound(requests, RateRing.SnapOp(now), WORD32);
      RateRing.EnteredSound(bytes, RateRing.SnapOp(now), WORD64);
      SnapshotShows(requests, WORD32, now);
      SnapshotShows(bytes, WORD64, now);
      AdvanceBuckets(now);
      requests := RateRing.Entered(requests, RateRing.SnapOp(now), WORD32);
      bytes := RateRing.Entered(bytes, RateRing.SnapOp(now), WORD64);
      var r, b := CopyWindow(now);
      var p50, p95, p99 := SamplePercentiles();
      snap := Snapshot(r, b, p50, p95, p99,
                       httpRequests, httpBytesIn, httpBytesOut, httpActive,
                       wsUpgrades, wsBytesIn, wsBytesOut, wsActive);
    }

    /** Percentiles of the last min(total, 256) samples; zeros if there are none. */
    ghost predicate LastPercentiles(p50: nat, p95: nat, p99: nat)
      reads this`samples
    {
      var last := LatencyRing.Last(samples);
      && (samples == [] ==> p50 == p95 == p99 == 0)
      && (samples != [] ==>
            && LatencyRing.Percentile(last, 50, p50)
            && LatencyRing.Percentile(last, 95, p95)
            && LatencyRing.Percentile(last, 99, p99))
      && p50 <= p95 <= p99
    }

    /** The percentiles of a copy of the samples kept. */
    method SamplePercentiles() returns (p50: nat, p95: nat, p99: nat)
      requires Shape() && LatencyRing.Holds(Latency(), samples)
      ensures LastPercentiles(p50, p95, p99)
    {
      var copied := new nat[latencyN](i requires 0 <= i < latencyN && latencyN <= latencies.Length reads this, latencies => latencies[i]);
      ghost var kept := copied[..];
      assert kept == LatencyRing.Kept(Latency());
      p50, p95, p99 := LatencyRing.Percentiles(copied);
      LatencyRing.HeldSamples(Latency(), samples);
      ghost var last := LatencyRing.Last(samples);
      if samples != [] {
        LatencyRing.PercentilePermuted(kept, last, 50, p50);
        LatencyRing.PercentilePermuted(kept, last, 95, p95);
        LatencyRing.PercentilePermuted(kept, last, 99, p99);
      }
    }

    method CopyWindow(now: int) returns (r: seq<nat>, b: seq<nat>)
      requires Shape()
      ensures r == RateRing.Entries(Requests(), now) && b == RateRing.Entries(Bytes(), now)
    {
      r, b := [], [];
      for i := 0 to RateRing.SLOTS
        invariant |r| == i && |b| == i
        invariant forall j :: 0 <= j < i ==> r[j] == RateRing.Entries(Requests(), now)[j]
        invariant forall j :: 0 <= j < i ==> b[j] == RateRing.Entries(Bytes(), now)[j]
      {
        var t := now - (RateRing.SLOTS - 1) + i;
        GoSlot(t);
        var idx := GoRem(t, RateRing.SLOTS);
        if idx < 0 {
          idx := idx + RateRing.SLOTS;
        }
        r := r + [rps[idx]];
        b := b + [bps[idx]];
      }
    }
  }
}
