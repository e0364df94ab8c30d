/** The second-aligned ring of server/stats.go as a fast form of "sum the event
    log over a window". Slots hold machine words, so sums are modulo `word`. */
module RateRing {
  import opened Words

  const SLOTS := 60

  /** `unix` is the newest second the ring covers; 0 also marks an unused ring. */
  datatype Ring = Ring(slots: seq<nat>, unix: int)

  datatype Event = Event(second: int, amount: nat)

  predicate Shaped(r: Ring) {
    |r.slots| == SLOTS
  }

  function Slot(r: Ring, t: int): nat
    requires Shaped(r)
  {
    r.slots[t % SLOTS]
  }

  function NoTraffic(): Ring {
    Ring(seq(SLOTS, i => 0), 0)
  }

  /** How many slots i lies after the one following unix. */
  function Past(unix: int, i: int): nat {
    (i - unix - 1) % SLOTS
  }

  /** Slot i stands for a second in (unix, now], or the whole ring aged out. */
  predicate Stale(unix: int, now: int, i: nat) {
    now - unix >= SLOTS || Past(unix, i) < now - unix
  }

  function Advance(r: Ring, now: int): (a: Ring)
    requires Shaped(r)
    ensures Shaped(a)
  {
    if r.unix == 0 then r.(unix := now)
    else if now <= r.unix then r
    else Ring(seq(SLOTS, i requires 0 <= i < SLOTS => if Stale(r.unix, now, i) then 0 else r.slots[i]), now)
  }

  function Bump(r: Ring, now: int, amount: nat, word: nat): (b: Ring)
    requires Shaped(r) && word > 0
    ensures Shaped(b)
  {
    var a := Advance(r, now);
    a.(slots := a.slots[now % SLOTS := (Slot(a, now) + amount) % word])
  }

  /** The 60 entries of a snapshot, oldest first. */
  function Window(r: Ring, now: int): (w: seq<nat>)
    requires Shaped(r)
    ensures |w| == SLOTS
  {
    Entries(Advance(r, now), now)
  }

  function Entries(a: Ring, now: int): (w: seq<nat>)
    requires Shaped(a)
    ensures |w| == SLOTS
    ensures forall i :: 0 <= i < SLOTS ==> w[i] == Slot(a, now - (SLOTS - 1) + i)
  {
    seq<nat>(SLOTS, i requires 0 <= i < SLOTS && Shaped(a) => Slot(a, now - (SLOTS - 1) + i))
  }

  // ---------------------------------------------------------------------
  // The reference: sums over the log.

  function Total(log: seq<Event>, t: int): nat {
    if log == [] then 0
    else Total(log[..|log| - 1], t) + (if log[|log| - 1].second == t then log[|log| - 1].amount else 0)
  }

  predicate Covers(r: Ring, t: int) {
    r.unix - SLOTS < t <= r.unix
  }

  /** Every second the ring covers is in its slot; nothing logged is newer, or
      before the epoch. */
  ghost predicate Refines(r: Ring, log: seq<Event>, word: nat) {
    && word > 0 && Shaped(r)
    && (forall k :: 0 <= k < |log| ==> 0 <= log[k].second <= r.unix)
    && (forall t :: Covers(r, t) ==> Slot(r, t) == Total(log, t) % word)
  }

  /** An event that a ring can still count. */
  predicate InWindow(r: Ring, now: int) {
    r.unix - SLOTS < now
  }

  /** Moving on forgets nothing it should not keep: a ring that has counted in
      second 0 looks unused, and is not cleared when it is left behind. */
  predicate Fresh(r: Ring, now: int)
    requires Shaped(r)
  {
    r.unix != 0 || now < SLOTS || r.slots[0] == 0
  }

  lemma TotalOutside(log: seq<Event>, t: int)
    requires forall k :: 0 <= k < |log| ==> log[k].second != t
    ensures Total(log, t) == 0
  {}

  /** Seconds less than a ring apart do not share a slot. */
  lemma SameSlot(t: int, u: int)
    requires -SLOTS < t - u < SLOTS && t % SLOTS == u % SLOTS
    ensures t == u
  {}

  /** The k-th second after unix is the one whose slot lies k - 1 past it. */
  lemma SlotAfter(unix: int, k: int, j: int)
    requires 0 <= j < SLOTS && 1 <= k <= SLOTS
    ensures (unix + k) % SLOTS == j <==> Past(unix, j) == k - 1
  {}

  lemma StaleMeansNew(unix: int, now: int, t: int)
    requires 0 < now - unix < SLOTS && now - SLOTS < t <= now
    ensures Stale(unix, now, t % SLOTS) <==> unix < t
  {}

  /** Moving the ring forward is exact iff it is fresh. */
  lemma AdvanceRefinesIff(r: Ring, log: seq<Event>, word: nat, now: int)
    requires Refines(r, log, word) && now >= 0
    ensures Refines(Advance(r, now), log, word) <==> Fresh(r, now)
  {
    if Fresh(r, now) { AdvanceRefines(r, log, word, now); } else { StaleStart(r, log, word, now); }
  }

  lemma AdvanceRefines(r: Ring, log: seq<Event>, word: nat, now: int)
    requires Refines(r, log, word) && now >= 0 && Fresh(r, now)
    ensures Refines(Advance(r, now), log, word)
  {
    var a := Advance(r, now);
    forall t | Covers(a, t) ensures Slot(a, t) == Total(log, t) % word {
      if r.unix == 0 {
        FirstAdvance(r, log, word, now, t);
      } else if r.unix < now {
        if now - r.unix < SLOTS { StaleMeansNew(r.unix, now, t); }
        if t > r.unix || now - r.unix >= SLOTS {
          TotalOutsideWindow(r, log, word, now, t);
        } else {
          assert Slot(r, t) == Total(log, t) % word;
        }
      }
    }
  }

  /** At unix 0 every slot but that of second 0 is empty. */
  lemma OnlySlotZero(r: Ring, log: seq<Event>, word: nat, t: int)
    requires Refines(r, log, word) && r.unix == 0
    ensures t % SLOTS != 0 ==> Slot(r, t) == 0
    ensures t != 0 ==> Total(log, t) == 0
    ensures Slot(r, 0) == Total(log, 0) % word < word
  {
    if t != 0 { TotalOutside(log, t); }
    assert Covers(r, 0);
    if t % SLOTS != 0 {
      CoveredTwin(0, t);
      var u := Shown(0, t);
      assert u % SLOTS != 0;
      TotalOutside(log, u);
      ZeroWord(word);
      assert Covers(r, u) && Slot(r, u) == Slot(r, t);
    }
  }

  lemma ZeroWord(word: nat)
    requires word > 0
    ensures 0 % word == 0
  {}

  /** A word that is not zero shows. */
  lemma WordShows(v: nat, amount: nat, word: nat)
    requires 0 < v < word
    ensures (v + amount) % word != amount % word
  {
    AddsToWord(amount, v, word);
    assert v % word == v;
  }

  lemma FirstAdvance(r: Ring, log: seq<Event>, word: nat, now: int, t: int)
    requires Refines(r, log, word) && r.unix == 0 && now - SLOTS < t <= now && now >= 0 && Fresh(r, now)
    ensures Slot(r, t) == Total(log, t) % word
  {
    OnlySlotZero(r, log, word, t);
    if t % SLOTS == 0 && now < SLOTS { SameSlot(t, 0); }
  }

  lemma StaleStart(r: Ring, log: seq<Event>, word: nat, now: int)
    requires Refines(r, log, word) && !Fresh(r, now)
    ensures !Refines(Advance(r, now), log, word)
  {
    CoveredTwin(now, 0);
    var u := Shown(now, 0);
    OnlySlotZero(r, log, word, u);
    assert Covers(Advance(r, now), u) && Slot(r, u) == r.slots[0];
  }

  lemma TotalOutsideWindow(r: Ring, log: seq<Event>, word: nat, now: int, t: int)
    requires Refines(r, log, word) && now - SLOTS < t && (t > r.unix || now - r.unix >= SLOTS)
    ensures Total(log, t) == 0
  {
    TotalOutside(log, t);
  }

  lemma TotalAppend(log: seq<Event>, e: Event, t: int)
    ensures Total(log + [e], t) == Total(log, t) + (if t == e.second then e.amount else 0)
  {}

  lemma TimelyBump(r: Ring, log: seq<Event>, word: nat, now: int, amount: nat)
    requires Refines(r, log, word) && now >= 0 && Fresh(r, now) && (InWindow(r, now) || amount % word == 0)
    ensures Refines(Bump(r, now, amount, word), log + [Event(now, amount)], word)
  {
    AdvanceRefines(r, log, word, now);
    var a := Advance(r, now);
    var b := Bump(r, now, amount, word);
    forall t | Covers(b, t) ensures Slot(b, t) == Total(log + [Event(now, amount)], t) % word {
      assert Slot(a, t) == Total(log, t) % word;
      TotalAppend(log, Event(now, amount), t);
      BumpedSlot(a, log, word, now, amount, t);
    }
  }

  lemma LateBump(r: Ring, log: seq<Event>, word: nat, now: int, amount: nat)
    requires Refines(r, log, word) && now >= 0 && !InWindow(r, now) && amount % word != 0
    ensures !Refines(Bump(r, now, amount, word), log + [Event(now, amount)], word)
  {
    var b := Bump(r, now, amount, word);
    CoveredTwin(r.unix, now);
    var u := Shown(r.unix, now);
    assert Covers(b, u) && u != now;
    assert Slot(r, u) == Total(log, u) % word;
    TotalAppend(log, Event(now, amount), u);
    AddsToWord(Total(log, u), amount, word);
    assert Slot(b, u) == (Slot(r, u) + amount) % word;
  }

  lemma StaleBump(r: Ring, log: seq<Event>, word: nat, now: int, amount: nat)
    requires Refines(r, log, word) && !Fresh(r, now)
    ensures !Refines(Bump(r, now, amount, word), log + [Event(now, amount)], word)
  {
    CoveredTwin(now, 0);
    var u := Shown(now, 0);
    OnlySlotZero(r, log, word, u);
    TotalAppend(log, Event(now, amount), u);
    StaleSlot(r, word, now, amount);
    WordShows(r.slots[0], amount, word);
    ZeroWord(word);
    assert Covers(Bump(r, now, amount, word), u);
  }

  lemma StaleSlot(r: Ring, word: nat, now: int, amount: nat)
    requires Shaped(r) && word > 0 && !Fresh(r, now)
    ensures Slot(Bump(r, now, amount, word), Shown(now, 0)) ==
            if Shown(now, 0) == now then (r.slots[0] + amount) % word else r.slots[0]
  {
    CoveredTwin(now, 0);
    if Shown(now, 0) != now { SlotsApart(now, Shown(now, 0)); }
  }

  lemma SlotsApart(now: int, u: int)
    requires now - SLOTS < u < now
    ensures now % SLOTS != u % SLOTS
  {}

  /** The counting step is exact precisely on the events the ring can still
      count: one older than the window is booked under a newer second, unless it
      adds nothing. */
  lemma BumpRefinesIff(r: Ring, log: seq<Event>, word: nat, now: int, amount: nat)
    requires Refines(r, log, word) && now >= 0
    ensures Refines(Bump(r, now, amount, word), log + [Event(now, amount)], word)
       <==> Fresh(r, now) && (InWindow(r, now) || amount % word == 0)
  {
    if !Fresh(r, now) {
      StaleBump(r, log, word, now, amount);
    } else if InWindow(r, now) || amount % word == 0 {
      TimelyBump(r, log, word, now, amount);
    } else {
      LateBump(r, log, word, now, amount);
    }
  }

  lemma BumpedSlot(a: Ring, log: seq<Event>, word: nat, now: int, amount: nat, t: int)
    requires Shaped(a) && word > 0 && Covers(a, t) && Slot(a, t) == Total(log, t) % word
    requires Covers(a, now) || amount % word == 0
    ensures (if t % SLOTS == now % SLOTS then (Slot(a, now) + amount) % word else Slot(a, t))
         == (Total(log, t) + (if t == now then amount else 0)) % word
  {
    if t % SLOTS == now % SLOTS {
      AddsToWord(Total(log, t), amount, word);
      if Covers(a, now) { SameSlot(t, now); }
    }
  }

  lemma AddsToWord(x: nat, amount: nat, word: nat)
    requires word > 0
    ensures (x % word + amount) % word == (x + amount) % word
    ensures (x % word + amount) % word == x % word <==> amount % word == 0
  {
    var q, r := x / word, x % word;
    var p, s := amount / word, amount % word;
    ModShift(r + amount, q, word);
    assert x + amount == (r + amount) + q * word;
    ModShift(r + s, p, word);
    assert r + amount == (r + s) + p * word;
    WrapOnce(r, s, word);
  }

  lemma WrapOnce(r: nat, s: nat, word: nat)
    requires r < word && s < word
    ensures (r + s) % word == r <==> s == 0
  {}

  lemma ModShift(x: nat, k: nat, word: nat)
    requires word > 0
    ensures (x + k * word) % word == x % word
  {
    var q, r := x / word, x % word;
    assert x + k * word == (q + k) * word + r by { assert (q + k) * word == q * word + k * word; }
    QuotientUnique(x + k * word, q + k, r, word);
  }

  lemma QuotientUnique(x: nat, q: nat, r: nat, word: nat)
    requires word > 0 && x == q * word + r && r < word
    ensures x % word == r
  {
    var q', r' := x / word, x % word;
    assert x == q' * word + r';
    if q > q' { MulGap(q, q', word); }
    if q < q' { MulGap(q', q, word); }
  }

  lemma MulGap(a: nat, b: nat, word: nat)
    requires a > b
    ensures a * word >= b * word + word
  {
    var d := a - b - 1;
    assert a * word == b * word + word + d * word by { assert a == b + 1 + d; }
    assert d * word >= 0;
  }

  /** What a snapshot shows. The entry for second t is the logged sum of the one
      covered second that shares its slot, which is t itself for every second a
      snapshot with a current clock asks about. */
  lemma WindowExact(r: Ring, log: seq<Event>, word: nat, now: int, i: nat)
    requires Refines(r, log, word) && now >= 0 && Fresh(r, now) && i < SLOTS
    ensures var t := now - (SLOTS - 1) + i;
            var newest := Advance(r, now).unix;
            && Window(r, now)[i] == Total(log, Shown(newest, t)) % word
            && (Shown(newest, t) == t <==> newest - SLOTS < t)
            && (now >= r.unix ==> Shown(newest, t) == t)
  {
    AdvanceRefines(r, log, word, now);
    var a := Advance(r, now);
    var t := now - (SLOTS - 1) + i;
    CoveredTwin(a.unix, t);
    var shown := Shown(a.unix, t);
    assert Covers(a, shown);
    assert Slot(a, shown) == Slot(a, t) == Entries(a, now)[i];
  }

  /** The second, of those a ring up to `newest` covers, that shares the slot of t. */
  function Shown(newest: int, t: int): int {
    newest - (newest - t) % SLOTS
  }

  lemma CoveredTwin(newest: int, t: int)
    ensures var shown := Shown(newest, t);
            && newest - SLOTS < shown <= newest && shown % SLOTS == t % SLOTS
            && (shown == t <==> newest - SLOTS < t <= newest)
  {}

  // ---------------------------------------------------------------------
  // Whole runs.

  datatype Op = BumpOp(now: int, amount: nat) | SnapOp(now: int)

  function Do(r: Ring, op: Op, word: nat): (q: Ring)
    requires Shaped(r) && word > 0
    ensures Shaped(q)
  {
    match op
    case BumpOp(now, amount) => Bump(r, now, amount, word)
    case SnapOp(now) => Advance(r, now)
  }

  function Logged(op: Op): seq<Event> {
    match op
    case BumpOp(now, amount) => [Event(now, amount)]
    case SnapOp(_) => []
  }

  /** The clock is not before the epoch, no event is a whole ring late unless it
      adds nothing, and no traffic of the very second 0 is left behind; events may
      otherwise arrive in any order. */
  predicate OnTime(r: Ring, op: Op, word: nat)
    requires Shaped(r) && word > 0
  {
    op.now >= 0 && Fresh(r, op.now) && (op.BumpOp? ==> InWindow(r, op.now) || op.amount % word == 0)
  }

  /** A ring beside the log of what it was told, and whether all of that was on time. */
  datatype Ledger = Ledger(ring: Ring, log: seq<Event>, onTime: bool)

  function NewLedger(): Ledger {
    Ledger(NoTraffic(), [], true)
  }

  function Entered(l: Ledger, op: Op, word: nat): (m: Ledger)
    requires Shaped(l.ring) && word > 0
    ensures Shaped(m.ring)
  {
    Ledger(Do(l.ring, op, word), l.log + Logged(op), l.onTime && OnTime(l.ring, op, word))
  }

  function LedgerOf(ops: seq<Op>, word: nat): (l: Ledger)
    requires word > 0
    ensures Shaped(l.ring)
  {
    if ops == [] then NewLedger() else Entered(LedgerOf(ops[..|ops| - 1], word), ops[|ops| - 1], word)
  }

  ghost predicate Balanced(l: Ledger, word: nat) {
    Refines(l.ring, l.log, word)
  }

  /** What was on time is in the ring. */
  ghost predicate Sound(l: Ledger, word: nat) {
    word > 0 && Shaped(l.ring) && (l.onTime ==> Balanced(l, word))
  }

  lemma EnteredBalancedIff(l: Ledger, op: Op, word: nat)
    requires Balanced(l, word) && op.now >= 0
    ensures Balanced(Entered(l, op, word), word) <==> OnTime(l.ring, op, word)
  {
    match op
    case BumpOp(now, amount) => BumpRefinesIff(l.ring, l.log, word, now, amount);
    case SnapOp(now) =>
      AdvanceRefinesIff(l.ring, l.log, word, now);
      assert l.log + [] == l.log;
  }

  lemma EnteredSound(l: Ledger, op: Op, word: nat)
    requires Sound(l, word)
    ensures Sound(Entered(l, op, word), word)
  {
    if l.onTime && OnTime(l.ring, op, word) { EnteredBalancedIff(l, op, word); }
  }

  /** A sequence of bumps and snapshots is on time iff the ring refines the log
      after each of them. */
  lemma {:induction false} RunRefines(ops: seq<Op>, word: nat)
    requires word > 0 && forall k :: 0 <= k < |ops| ==> ops[k].now >= 0
    ensures LedgerOf(ops, word).onTime <==> Throughout(ops, word)
    decreases |ops|
  {
    if ops == [] {
      NewLedgerBalanced(word);
    } else {
      var n := |ops| - 1;
      RunRefines(ops[..n], word);
      assert ops[..n][..n] == ops[..n];
      if BalancedAfter(ops[..n], word) { EnteredBalancedIff(LedgerOf(ops[..n], word), ops[n], word); }
      ThroughoutLast(ops, word);
    }
  }

  lemma NewLedgerBalanced(word: nat)
    requires word > 0
    ensures Balanced(NewLedger(), word)
  {
    ZeroWord(word);
    assert forall t :: Total([], t) == 0;
  }

  ghost predicate BalancedAfter(ops: seq<Op>, word: nat) {
    word > 0 && Balanced(LedgerOf(ops, word), word)
  }

  ghost predicate Throughout(ops: seq<Op>, word: nat) {
    forall j :: 0 <= j <= |ops| ==> BalancedAfter(ops[..j], word)
  }

  lemma ThroughoutLast(ops: seq<Op>, word: nat)
    requires ops != []
    ensures Throughout(ops, word) <==> Throughout(ops[..|ops| - 1], word) && BalancedAfter(ops, word)
  {
    var n := |ops| - 1;
    assert ops[..n + 1] == ops;
    assert forall j :: 0 <= j <= n ==> ops[..n][..j] == ops[..j];
    if Throughout(ops[..n], word) && BalancedAfter(ops, word) {
      forall j | 0 <= j <= |ops| ensures BalancedAfter(ops[..j], word) {
        if j <= n { assert BalancedAfter(ops[..n][..j], word); }
      }
    }
  }

  /** The entry of a snapshot for second t shows the logged sum of the covered
      second in its slot. */
  ghost predicate ShowsLog(window: seq<nat>, log: seq<Event>, newest: int, now: int, word: nat) {
    && word > 0 && |window| == SLOTS
    && forall i :: 0 <= i < SLOTS ==> window[i] == Total(log, Shown(newest, now - (SLOTS - 1) + i)) % word
  }

  /** It shows the logged sum of t itself. */
  ghost predicate ShowsSeconds(window: seq<nat>, log: seq<Event>, now: int, word: nat) {
    && word > 0 && |window| == SLOTS
    && forall i :: 0 <= i < SLOTS ==> window[i] == Total(log, now - (SLOTS - 1) + i) % word
  }

  lemma WindowShowsLog(l: Ledger, word: nat, now: int)
    requires Balanced(l, word) && now >= 0 && Fresh(l.ring, now)
    ensures ShowsLog(Window(l.ring, now), l.log, Advance(l.ring, now).unix, now, word)
    ensures now >= l.ring.unix ==> ShowsSeconds(Window(l.ring, now), l.log, now, word)
  {
    forall i | 0 <= i < SLOTS
      ensures var t := now - (SLOTS - 1) + i;
              var shown := Shown(Advance(l.ring, now).unix, t);
              Window(l.ring, now)[i] == Total(l.log, shown) % word && (now >= l.ring.unix ==> shown == t)
    {
      WindowExact(l.ring, l.log, word, now, i);
    }
  }

  /** Clocks after second 0 never leave anything behind. */
  lemma {:induction false} PositiveClocksFresh(ops: seq<Op>, word: nat)
    requires word > 0 && forall k :: 0 <= k < |ops| ==> ops[k].now > 0
    ensures LedgerOf(ops, word).ring.unix == 0 ==> ops == []
    ensures forall now :: Fresh(LedgerOf(ops, word).ring, now)
    decreases |ops|
  {
    if ops != [] { PositiveClocksFresh(ops[..|ops| - 1], word); }
  }

  /** The lag condition is needed: a single event 60 seconds late shows up as
      traffic of the current second. */
  lemma LateEventMiscounted()
    ensures !BalancedAfter([BumpOp(100, 0), BumpOp(40, 7)], WORD32)
  {
    TwoOps(BumpOp(100, 0), BumpOp(40, 7), WORD32);
  }

  /** So is freshness: an event of second 0 shows up again as one of second 60. */
  lemma EpochEventRepeated()
    ensures !BalancedAfter([BumpOp(0, 7), SnapOp(60)], WORD32)
  {
    TwoOps(BumpOp(0, 7), SnapOp(60), WORD32);
  }

  /** After a first bump, which is always on time, the second operation decides. */
  lemma TwoOps(first: Op, second: Op, word: nat)
    requires word > 0 && first.BumpOp? && first.now >= 0 && second.now >= 0
    ensures BalancedAfter([first, second], word)
       <==> OnTime(Bump(NoTraffic(), first.now, first.amount, word), second, word)
  {
    FirstBump(first, word);
    assert [first, second][..1] == [first];
    EnteredBalancedIff(LedgerOf([first], word), second, word);
  }

  lemma FirstBump(first: Op, word: nat)
    requires word > 0 && first.BumpOp? && first.now >= 0
    ensures LedgerOf([first], word) == Entered(NewLedger(), first, word)
    ensures Balanced(Entered(NewLedger(), first, word), word)
  {
    assert [first][..0] == [];
    NewLedgerBalanced(word);
    assert OnTime(NewLedger().ring, first, word);
    EnteredBalancedIff(NewLedger(), first, word);
  }
}
