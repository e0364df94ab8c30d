/** The statistics of forwardHTTP in server/proxy.go: any number of forwards to
    one service, interleaved between any two counter updates. The counters that
    only grow wrap at 2^64. */
module HttpAccounting {
  import opened Sums
  import opened Words
  import Tr = Transition

  datatype Phase =
    | Dialing
    | Refused
    | InFlight
    | Counted
    | AddedIn
    | AddedOut
    | Logged
    | Timed
    | Tallied
    | Failed
    | Ended(completed: bool)

  /** One forward. `sent` and `received` are the byte counts it reports. */
  datatype Forward = Forward(phase: Phase, sent: nat, received: nat)

  datatype State = State(
    calls: seq<Forward>,
    httpActive: int,
    httpRequests: nat,
    httpBytesIn: nat,
    httpBytesOut: nat,
    /** Bytes and requests in the log of the rate ring, and latencies recorded. */
    ringBytes: nat,
    ringRequests: nat,
    samples: nat)

  function Idle(): State {
    State([], 0, 0, 0, 0, 0, 0, 0)
  }

  datatype Act =
    | OpenFails
    | StreamStart
    | ReadFails
    | Complete(sent: nat, received: nat)
    | AddIn
    | AddOut
    | LogBytes
    | RecordLatency
    | LogRequest
    | StreamEnd

  datatype Step = Arrive | Local(i: nat, act: Act)

  predicate Can(c: Forward, act: Act) {
    match act
    case OpenFails => c.phase.Dialing?
    case StreamStart => c.phase.Dialing?
    case ReadFails => c.phase.InFlight?
    case Complete(_, _) => c.phase.InFlight?
    case AddIn => c.phase.Counted?
    case AddOut => c.phase.AddedIn?
    case LogBytes => c.phase.AddedOut?
    case RecordLatency => c.phase.Logged?
    case LogRequest => c.phase.Timed?
    case StreamEnd => c.phase.Tallied? || c.phase.Failed?
  }

  predicate Enabled(st: State, step: Step) {
    step.Arrive? || (step.i < |st.calls| && Can(st.calls[step.i], step.act))
  }

  function Moved(st: State, i: nat, phase: Phase): State
    requires i < |st.calls|
  {
    st.(calls := st.calls[i := st.calls[i].(phase := phase)])
  }

  function Apply(st: State, step: Step): State
    requires Enabled(st, step)
  {
    match step
    case Arrive => st.(calls := st.calls + [Forward(Dialing, 0, 0)])
    case Local(i, act) =>
      var c := st.calls[i];
      match act
      case OpenFails => Moved(st, i, Refused)
      case StreamStart => Moved(st, i, InFlight).(httpActive := st.httpActive + 1)
      case ReadFails => Moved(st, i, Failed)
      case Complete(sent, received) =>
        st.(calls := st.calls[i := Forward(Counted, sent, received)], httpRequests := (st.httpRequests + 1) % WORD64)
      case AddIn =>
        Moved(st, i, AddedIn).(httpBytesIn := if c.sent > 0 then (st.httpBytesIn + c.sent) % WORD64 else st.httpBytesIn)
      case AddOut =>
        Moved(st, i, AddedOut).(httpBytesOut := if c.received > 0 then (st.httpBytesOut + c.received) % WORD64 else st.httpBytesOut)
      case LogBytes => Moved(st, i, Logged).(ringBytes := st.ringBytes + (c.sent + c.received) % WORD64)
      case RecordLatency => Moved(st, i, Timed).(samples := st.samples + 1)
      case LogRequest => Moved(st, i, Tallied).(ringRequests := st.ringRequests + 1)
      case StreamEnd => Moved(st, i, Ended(c.phase.Tallied?)).(httpActive := st.httpActive - 1)
  }

  function Next(st: State, step: Step): State {
    if Enabled(st, step) then Apply(st, step) else st
  }

  function Machine(): Tr.Machine<State, Step> {
    Tr.Machine(Enabled, Next)
  }

  ghost predicate Runs(st: State, steps: seq<Step>) {
    Tr.Runs(Machine(), st, steps)
  }

  ghost function Exec(st: State, steps: seq<Step>): State {
    Tr.Exec(Machine(), st, steps)
  }

  // ---------------------------------------------------------------------
  // What each call has contributed so far, by its phase.

  /** How far into HTTPCompleted a call is. */
  function Progress(p: Phase): nat {
    match p
    case Counted => 1
    case AddedIn => 2
    case AddedOut => 3
    case Logged => 4
    case Timed => 5
    case Tallied => 6
    case Ended(completed) => if completed then 6 else 0
    case _ => 0
  }

  /** Between HTTPStreamStart and HTTPStreamEnd. */
  predicate Active(c: Forward) {
    !c.phase.Dialing? && !c.phase.Refused? && !c.phase.Ended?
  }

  function ActiveCount(c: Forward): int { if Active(c) then 1 else 0 }
  function Done(c: Forward): int { if Progress(c.phase) >= 1 then 1 else 0 }
  function InDone(c: Forward): int { if Progress(c.phase) >= 2 then c.sent else 0 }
  function OutDone(c: Forward): int { if Progress(c.phase) >= 3 then c.received else 0 }
  function RingDone(c: Forward): int { if Progress(c.phase) >= 4 then (c.sent + c.received) % WORD64 else 0 }
  function SampleDone(c: Forward): int { if Progress(c.phase) >= 5 then 1 else 0 }
  function TallyDone(c: Forward): int { if Progress(c.phase) >= 6 then 1 else 0 }

  ghost predicate Inv(st: State) {
    && st.httpActive == Sum(st.calls, ActiveCount)
    && st.httpRequests == Sum(st.calls, Done) % WORD64
    && st.httpBytesIn == Sum(st.calls, InDone) % WORD64
    && st.httpBytesOut == Sum(st.calls, OutDone) % WORD64
    && st.ringBytes == Sum(st.calls, RingDone)
    && st.samples == Sum(st.calls, SampleDone)
    && st.ringRequests == Sum(st.calls, TallyDone)
  }

  /** A step of call i changes each counter by as much as the call's contribution. */
  predicate Balance(st: State, st': State, i: nat) {
    && i < |st.calls| && i < |st'.calls|
    && var c, c' := st.calls[i], st'.calls[i];
       && st'.calls == st.calls[i := c']
       && st'.httpActive - st.httpActive == ActiveCount(c') - ActiveCount(c)
       && st'.httpRequests == (st.httpRequests + (Done(c') - Done(c))) % WORD64
       && st'.httpBytesIn == (st.httpBytesIn + (InDone(c') - InDone(c))) % WORD64
       && st'.httpBytesOut == (st.httpBytesOut + (OutDone(c') - OutDone(c))) % WORD64
       && st'.ringBytes - st.ringBytes == RingDone(c') - RingDone(c)
       && st'.samples - st.samples == SampleDone(c') - SampleDone(c)
       && st'.ringRequests - st.ringRequests == TallyDone(c') - TallyDone(c)
  }

  lemma LocalBalance(st: State, i: nat, act: Act)
    requires st.httpRequests < WORD64 && st.httpBytesIn < WORD64 && st.httpBytesOut < WORD64
    requires i < |st.calls| && Can(st.calls[i], act)
    ensures Balance(st, Apply(st, Local(i, act)), i)
  {
    LocalWraps(st, i, act);
  }

  lemma LocalWraps(st: State, i: nat, act: Act)
    requires st.httpRequests < WORD64 && st.httpBytesIn < WORD64 && st.httpBytesOut < WORD64
    requires i < |st.calls| && Can(st.calls[i], act)
    ensures var st' := Apply(st, Local(i, act));
            && i < |st'.calls|
            && var c, c' := st.calls[i], st'.calls[i];
            && st'.httpRequests == (st.httpRequests + (Done(c') - Done(c))) % WORD64
            && st'.httpBytesIn == (st.httpBytesIn + (InDone(c') - InDone(c))) % WORD64
            && st'.httpBytesOut == (st.httpBytesOut + (OutDone(c') - OutDone(c))) % WORD64
  {}

  lemma {:induction false} ArriveKeeps(st: State)
    requires Inv(st)
    ensures Inv(Apply(st, Arrive))
  {
    var c := Forward(Dialing, 0, 0);
    SumAppend(st.calls, c, ActiveCount);
    SumAppend(st.calls, c, Done);
    SumAppend(st.calls, c, InDone);
    SumAppend(st.calls, c, OutDone);
    SumAppend(st.calls, c, RingDone);
    SumAppend(st.calls, c, SampleDone);
    SumAppend(st.calls, c, TallyDone);
  }

  lemma {:induction false} WrappedUpdate(calls: seq<Forward>, i: nat, c: Forward, f: Forward -> int, counter: int, counter': int)
    requires i < |calls| && counter == Sum(calls, f) % WORD64
    requires counter' == (counter + (f(c) - f(calls[i]))) % WORD64
    ensures counter' == Sum(calls[i := c], f) % WORD64
  {
    SumUpdate(calls, i, c, f);
    Wrapped(Sum(calls, f), f(c) - f(calls[i]));
  }

  lemma Wrapped(x: int, y: int)
    ensures (x % WORD64 + y) % WORD64 == (x + y) % WORD64
    ensures (x % WORD64 + y % WORD64) % WORD64 == (x + y) % WORD64
  {}

  lemma {:induction false} BalanceKeepsLogs(st: State, st': State, i: nat)
    requires Inv(st) && Balance(st, st', i)
    ensures st'.httpActive == Sum(st'.calls, ActiveCount) && st'.ringBytes == Sum(st'.calls, RingDone)
    ensures st'.samples == Sum(st'.calls, SampleDone) && st'.ringRequests == Sum(st'.calls, TallyDone)
  {
    var c := st'.calls[i];
    SumUpdate(st.calls, i, c, ActiveCount);
    SumUpdate(st.calls, i, c, RingDone);
    SumUpdate(st.calls, i, c, SampleDone);
    SumUpdate(st.calls, i, c, TallyDone);
  }

  lemma {:induction false} BalanceKeeps(st: State, st': State, i: nat)
    requires Inv(st) && Balance(st, st', i)
    ensures Inv(st')
  {
    BalanceKeepsLogs(st, st', i);
    var c := st'.calls[i];
    WrappedUpdate(st.calls, i, c, Done, st.httpRequests, st'.httpRequests);
    WrappedUpdate(st.calls, i, c, InDone, st.httpBytesIn, st'.httpBytesIn);
    WrappedUpdate(st.calls, i, c, OutDone, st.httpBytesOut, st'.httpBytesOut);
  }

  lemma {:induction false} StepKeeps(st: State, step: Step)
    requires Inv(st) && Enabled(st, step)
    ensures Inv(Apply(st, step))
  {
    match step
    case Arrive => ArriveKeeps(st);
    case Local(i, act) =>
      LocalBalance(st, i, act);
      BalanceKeeps(st, Apply(st, step), i);
  }

  lemma ReachableInv(steps: seq<Step>)
    requires Runs(Idle(), steps)
    ensures Inv(Exec(Idle(), steps))
  {
    forall st, step | Inv(st) && Enabled(st, step) ensures Inv(Next(st, step)) { StepKeeps(st, step); }
    Tr.Invariant(Machine(), Inv, Idle(), steps);
  }

  /** In every interleaving httpActive is the number of forwards between start
      and end, and httpRequests the number that reached completion, the failing
      ones not among them. */
  lemma {:induction false} CountersExact(steps: seq<Step>)
    requires Runs(Idle(), steps)
    ensures var st := Exec(Idle(), steps);
            && st.httpActive == Sum(st.calls, ActiveCount) && st.httpActive >= 0
            && st.httpRequests == Sum(st.calls, Done) % WORD64
  {
    ReachableInv(steps);
    SumBounds(Exec(Idle(), steps).calls, ActiveCount);
  }

  /** What a call has added to a counter and not yet to the log. */
  function Unlogged(c: Forward): int {
    Added(c) - Sent(c)
  }

  function Added(c: Forward): int {
    InDone(c) + OutDone(c)
  }

  /** The bytes of a call whose logging is done, before the word wraps. */
  function Sent(c: Forward): int {
    if Progress(c.phase) >= 4 then c.sent + c.received else 0
  }

  /** The two byte counters are, modulo the word, the bytes in the ring's log plus
      what the calls inside HTTPCompleted have yet to log. */
  ghost predicate Conserved(st: State) {
    && (st.httpBytesIn + st.httpBytesOut) % WORD64 == (st.ringBytes + Sum(st.calls, Unlogged)) % WORD64
    && 0 <= Sum(st.calls, Unlogged)
  }

  /** Conservation, in every interleaving. */
  lemma {:induction false} BytesConserved(steps: seq<Step>)
    requires Runs(Idle(), steps)
    ensures Conserved(Exec(Idle(), steps))
  {
    ReachableInv(steps);
    InvConserves(Exec(Idle(), steps));
  }

  lemma InvConserves(st: State)
    requires Inv(st)
    ensures Conserved(st)
  {
    UnloggedSums(st.calls);
  }

  lemma {:induction false} UnloggedSums(calls: seq<Forward>)
    ensures (Sum(calls, InDone) % WORD64 + Sum(calls, OutDone) % WORD64) % WORD64
         == (Sum(calls, RingDone) + Sum(calls, Unlogged)) % WORD64
    ensures 0 <= Sum(calls, Unlogged)
  {
    SumSplit(calls, Added, InDone, OutDone);
    SumSplit(calls, Added, Sent, Unlogged);
    SumBounds(calls, Unlogged);
    WrappedSums(calls);
    Wrapped(Sum(calls, InDone), Sum(calls, OutDone));
    Wrapped(Sum(calls, Sent), Sum(calls, Unlogged));
    Wrapped(Sum(calls, RingDone), Sum(calls, Unlogged));
  }

  /** Wrapping every amount wraps the sum. */
  lemma {:induction false} WrappedSums(calls: seq<Forward>)
    ensures Sum(calls, Sent) % WORD64 == Sum(calls, RingDone) % WORD64
    decreases |calls|
  {
    if calls != [] {
      var n := |calls| - 1;
      WrappedSums(calls[..n]);
      Wrapped(Sum(calls[..n], Sent), Sent(calls[n]));
      Wrapped(Sum(calls[..n], RingDone), Sent(calls[n]));
      Wrapped(Sent(calls[n]), Sum(calls[..n], RingDone));
    }
  }

  predicate Resting(c: Forward) {
    c.phase.Refused? || c.phase.Ended?
  }

  predicate AtRest(st: State) {
    forall i :: 0 <= i < |st.calls| ==> Resting(st.calls[i])
  }

  function Completed(c: Forward): int {
    if c.phase == Ended(true) then 1 else 0
  }

  function CompletedSent(c: Forward): int {
    if c.phase == Ended(true) then c.sent else 0
  }

  function CompletedReceived(c: Forward): int {
    if c.phase == Ended(true) then c.received else 0
  }

  /** Nothing is active; the bytes counted each way are those of the completed
      forwards, and together the bytes logged; and the requests counted are the
      latencies recorded and the requests logged, one per completed forward. */
  ghost predicate Settled(st: State) {
    && st.httpActive == 0
    && st.httpBytesIn == Sum(st.calls, CompletedSent) % 0x1_0000_0000_0000_0000
    && st.httpBytesOut == Sum(st.calls, CompletedReceived) % 0x1_0000_0000_0000_0000
    && (st.httpBytesIn + st.httpBytesOut) % 0x1_0000_0000_0000_0000 == st.ringBytes % 0x1_0000_0000_0000_0000
    && st.samples == st.ringRequests == Sum(st.calls, Completed)
    && st.httpRequests == Sum(st.calls, Completed) % 0x1_0000_0000_0000_0000
  }

  /** At rest the counters settle, on the error paths too. */
  lemma {:induction false} RestBalances(steps: seq<Step>)
    requires Runs(Idle(), steps) && AtRest(Exec(Idle(), steps))
    ensures Settled(Exec(Idle(), steps))
  {
    ReachableInv(steps);
    BytesConserved(steps);
    RestSettles(Exec(Idle(), steps));
  }

  lemma RestSettles(st: State)
    requires Inv(st) && Conserved(st) && AtRest(st)
    ensures Settled(st)
  {
    SumZero(st.calls, ActiveCount);
    SumZero(st.calls, Unlogged);
    RestCounts(st.calls);
    RestBytes(st.calls);
  }

  lemma RestCounts(calls: seq<Forward>)
    requires forall i :: 0 <= i < |calls| ==> Resting(calls[i])
    ensures Sum(calls, Done) == Sum(calls, SampleDone) == Sum(calls, TallyDone) == Sum(calls, Completed)
  {}

  lemma RestBytes(calls: seq<Forward>)
    requires forall i :: 0 <= i < |calls| ==> Resting(calls[i])
    ensures Sum(calls, InDone) == Sum(calls, CompletedSent) && Sum(calls, OutDone) == Sum(calls, CompletedReceived)
  {}

  /** Since the response was read to its end, the bytes of the call are known. */
  predicate Reported(c: Forward) {
    Progress(c.phase) >= 1
  }

  /** The bytes of a call are those that its own completion reported. */
  lemma {:induction false} BytesAsReported(steps: seq<Step>, i: nat) returns (j: nat)
    requires Runs(Idle(), steps) && i < |Exec(Idle(), steps).calls| && Reported(Exec(Idle(), steps).calls[i])
    ensures j < |steps|
    ensures var c := Exec(Idle(), steps).calls[i]; steps[j] == Local(i, Complete(c.sent, c.received))
    decreases |steps|
  {
    var n := |steps| - 1;
    var before := Exec(Idle(), steps[..n]);
    if i < |before.calls| && Reported(before.calls[i]) {
      StepKeepsReport(before, steps[n], i);
      j := BytesAsReported(steps[..n], i);
    } else {
      j := n;
    }
  }

  lemma StepKeepsReport(st: State, step: Step, i: nat)
    requires Enabled(st, step) && i < |st.calls| && Reported(st.calls[i])
    ensures i < |Apply(st, step).calls|
    ensures var c := Apply(st, step).calls[i]; c.sent == st.calls[i].sent && c.received == st.calls[i].received
  {}

  // ---------------------------------------------------------------------
  // Every call can come to rest.

  /** The next action of a call whose response will be read to its end, with these
      byte counts, or fail. */
  function NextAct(c: Forward, completes: bool, sent: nat, received: nat): Act {
    match c.phase
    case Dialing => StreamStart
    case InFlight => if completes then Complete(sent, received) else ReadFails
    case Counted => AddIn
    case AddedIn => AddOut
    case AddedOut => LogBytes
    case Logged => RecordLatency
    case Timed => LogRequest
    case _ => StreamEnd
  }

  function Remaining(p: Phase): nat {
    match p
    case Dialing => 8
    case InFlight => 7
    case Counted => 6
    case AddedIn => 5
    case AddedOut => 4
    case Logged => 3
    case Timed => 2
    case Tallied => 1
    case Failed => 1
    case _ => 0
  }

  /** How a call ends: as it will go, if it is still open, else as it went. */
  function Outlook(c: Forward, completes: bool, sent: nat, received: nat): Forward {
    if c.phase.Dialing? || c.phase.InFlight? then
      if completes then Forward(Ended(true), sent, received) else Forward(Ended(false), c.sent, c.received)
    else if c.phase.Failed? then c.(phase := Ended(false))
    else if Resting(c) then c
    else c.(phase := Ended(true))
  }

  lemma NextActMoves(st: State, i: nat, completes: bool, sent: nat, received: nat)
    requires i < |st.calls| && !Resting(st.calls[i])
    ensures var act := NextAct(st.calls[i], completes, sent, received);
            && Can(st.calls[i], act)
            && var e := Apply(st, Local(i, act));
               && i < |e.calls| && e.calls == st.calls[i := e.calls[i]]
               && Remaining(e.calls[i].phase) < Remaining(st.calls[i].phase)
               && Outlook(e.calls[i], completes, sent, received) == Outlook(st.calls[i], completes, sent, received)
  {}

  /** Every forward can come to rest by its own steps, whatever becomes of the
      response and whatever the others do. */
  lemma {:induction false} CallCanRest(st: State, i: nat, completes: bool, sent: nat, received: nat) returns (more: seq<Step>)
    requires i < |st.calls|
    ensures Runs(st, more) && forall k :: 0 <= k < |more| ==> more[k].Local? && more[k].i == i
    ensures Exec(st, more).calls == st.calls[i := Outlook(st.calls[i], completes, sent, received)]
    ensures Resting(Outlook(st.calls[i], completes, sent, received))
    decreases Remaining(st.calls[i].phase)
  {
    more := [];
    if !Resting(st.calls[i]) {
      NextActMoves(st, i, completes, sent, received);
      var step := Local(i, NextAct(st.calls[i], completes, sent, received));
      Tr.JustOne(Machine(), st, step);
      var rest := CallCanRest(Apply(st, step), i, completes, sent, received);
      Tr.Continue(Machine(), st, [step], rest);
      more := [step] + rest;
    }
  }

  /** Forwards can start in every state; one whose connection cannot be opened
      never becomes active. */
  lemma CanArrive(st: State, i: nat)
    ensures Enabled(st, Arrive) && Apply(st, Arrive) == st.(calls := st.calls + [Forward(Dialing, 0, 0)])
    ensures i < |st.calls| && st.calls[i].phase.Dialing? ==>
              && Enabled(st, Local(i, OpenFails))
              && Apply(st, Local(i, OpenFails)) == st.(calls := st.calls[i := st.calls[i].(phase := Refused)])
  {}

  /** From every reachable state some continuation brings all forwards to rest,
      and the counters settle. */
  lemma AllCanRest(steps: seq<Step>) returns (more: seq<Step>)
    requires Runs(Idle(), steps)
    ensures Runs(Idle(), steps + more)
    ensures AtRest(Exec(Idle(), steps + more)) && Settled(Exec(Idle(), steps + more))
  {
    var st := Exec(Idle(), steps);
    more := FirstCanRest(st, |st.calls|);
    Tr.Continue(Machine(), Idle(), steps, more);
    RestBalances(steps + more);
  }

  lemma {:induction false} FirstCanRest(st: State, n: nat) returns (more: seq<Step>)
    requires n <= |st.calls|
    ensures Runs(st, more) && |Exec(st, more).calls| == |st.calls|
    ensures forall i :: 0 <= i < n ==> Resting(Exec(st, more).calls[i])
  {
    more := [];
    if n > 0 {
      var first := FirstCanRest(st, n - 1);
      var last := CallCanRest(Exec(st, first), n - 1, true, 0, 0);
      Tr.Continue(Machine(), st, first, last);
      more := first + last;
    }
  }
}
