/** What the activations of the registry can always bring to an end by their own
    steps, and what a wake-up proves about the past. */
module RegistryProgress {
  import opened Options
  import opened RegistrySlots
  import opened RegistryProtocol
  import opened RegistryInvariant
  import RT = RegistryTheorems
  import Tr = Transition

  // ---------------------------------------------------------------------
  // Lookups.

  /** A step of lookup p itself, other than giving up on its caller's account,
      or the passing of time. */
  predicate OwnLookupStep(step: Step, p: CallId) {
    || step.Tick?
    || ((step.LookupLocked? || step.Arm? || step.Timeout? || step.RecheckLocked?) && step.p == p)
  }

  function Later(a: int, b: int): int {
    if a < b then b else a
  }

  /** When a lookup in progress can return if no session comes. */
  ghost function Due(st: State, l: Lookup): int {
    match l
    case Entering(service) =>
      if service in st.slots.sessions || service !in st.slots.lastSeen then st.clock
      else Later(st.clock, st.slots.lastSeen[service] + st.grace)
    case Deciding(_, _, _, _, remaining) => Later(st.clock, st.clock + remaining)
    case Parked(_, _, _, _, _, deadline) => Later(st.clock, deadline)
    case _ => st.clock
  }

  /** What it then returns: the occupant if it is about to look, else nobody. */
  ghost function Answer(st: State, l: Lookup): Outcome {
    if (l.Entering? || l.Woken?) && l.service in st.slots.sessions
    then Found(st.slots.sessions[l.service])
    else NoClient
  }

  /** `more` takes lookup p of st to its end, at the time it is due, with its
      answer, and touches nothing that other activations use. */
  ghost predicate Returns(st: State, more: seq<Step>, p: CallId) {
    && p in st.lookups && Runs(st, more)
    && (forall i :: 0 <= i < |more| ==> OwnLookupStep(more[i], p))
    && var l, e := st.lookups[p], Exec(st, more);
       && e.clock == Due(st, l)
       && e.lookups == st.lookups[p := Returned(l.service, Answer(st, l))]
       && e.slots.sessions == st.slots.sessions && e.slots.lastSeen == st.slots.lastSeen
       && e.names == st.names && e.handlers == st.handlers && e.closed == st.closed && e.sweeps == st.sweeps
  }

  /** A parked lookup: time passes to its deadline, and its timer fires. */
  lemma ParkedReturns(st: State, p: CallId) returns (more: seq<Step>)
    requires p in st.lookups && st.lookups[p].Parked?
    ensures more == [Tick(Later(st.clock, st.lookups[p].deadline)), Timeout(p)]
    ensures Returns(st, more, p)
    ensures Exec(st, more) == st.(clock := Later(st.clock, st.lookups[p].deadline),
                                  lookups := st.lookups[p := Returned(st.lookups[p].service, NoClient)])
  {
    var due := Tick(Later(st.clock, st.lookups[p].deadline));
    Tr.JustOne(Machine(), st, due);
    Tr.OneMore(Machine(), st, [due], Timeout(p));
    more := [due] + [Timeout(p)];
  }

  /** The other ways out of the wait: the caller can cancel at any time, and once
      the channel is closed the lookup can look again. */
  lemma ParkedCanLeave(st: State, p: CallId)
    requires p in st.lookups && st.lookups[p].Parked?
    ensures Enabled(st, Cancel(p))
         && Apply(st, Cancel(p)) == st.(lookups := st.lookups[p := Returned(st.lookups[p].service, Cancelled)])
    ensures st.lookups[p].ch in st.chans && st.chans[st.lookups[p].ch].closes > 0 ==>
              Enabled(st, WakeUp(p)) && Apply(st, WakeUp(p)) == st.(lookups := st.lookups[p := Woken(st.lookups[p].service)])
  {}

  lemma DecidingReturns(st: State, p: CallId) returns (more: seq<Step>)
    requires p in st.lookups && st.lookups[p].Deciding?
    ensures Returns(st, more, p)
  {
    var arm := Arm(p, st.clock);
    Tr.JustOne(Machine(), st, arm);
    more := [arm];
    var armed := Exec(st, [arm]);
    if armed.lookups[p].Parked? {
      var rest := ParkedReturns(armed, p);
      ReturnsLater(st, arm, armed, rest, p);
      more := [arm] + rest;
    }
  }

  lemma WokenReturns(st: State, p: CallId) returns (more: seq<Step>)
    requires p in st.lookups && st.lookups[p].Woken?
    ensures Returns(st, more, p)
  {
    Tr.JustOne(Machine(), st, RecheckLocked(p));
    more := [RecheckLocked(p)];
  }

  lemma UnusedChan(chans: map<ChanId, Chan>) returns (c: ChanId)
    ensures c !in chans
  {
    c := AboveAll(chans.Keys);
  }

  lemma AboveAll(used: set<ChanId>) returns (c: ChanId)
    ensures forall d :: d in used ==> d < c
  {
    if used == {} {
      c := 0;
    } else {
      var d :| d in used;
      var rest := AboveAll(used - {d});
      c := rest + d + 1;
      assert forall e :: e in used ==> e == d || e in used - {d};
    }
  }

  /** What the first critical section of a lookup decides, and all it changes. A
      service unseen for longer than the grace gets no client at once, and no
      channel is made. */
  lemma EntryDecides(st: State, p: CallId, first: int, second: int, spare: ChanId)
    requires Enabled(st, LookupLocked(p, first, second, spare))
    ensures var service, e := st.lookups[p].service, Apply(st, LookupLocked(p, first, second, spare));
            var last := Find(st.slots.lastSeen, service);
            var waits := service !in st.slots.sessions && last.Some? && first - last.value <= st.grace;
            && e.lookups == st.lookups[p :=
                 if service in st.slots.sessions then Returned(service, Found(st.slots.sessions[service]))
                 else if !waits then Returned(service, NoClient)
                 else Deciding(service, if service in st.slots.notifiers then st.slots.notifiers[service] else spare,
                               last.value, second, last.value + st.grace - second)]
            && (!waits ==> e == st.(clock := second, lookups := e.lookups))
            && (waits ==> e.slots.notifiers == st.slots.notifiers[service := e.lookups[p].ch])
            && e == st.(clock := second, lookups := e.lookups, chans := e.chans, slots := st.slots.(notifiers := e.slots.notifiers))
  {
    LookupShape(st, p, first, second, spare);
  }

  lemma EnteringReturns(st: State, p: CallId) returns (more: seq<Step>)
    requires p in st.lookups && st.lookups[p].Entering?
    ensures Returns(st, more, p)
  {
    var spare := UnusedChan(st.chans);
    var look := LookupLocked(p, st.clock, st.clock, spare);
    EntryDecides(st, p, st.clock, st.clock, spare);
    Tr.JustOne(Machine(), st, look);
    more := [look];
    var decided := Apply(st, look);
    if decided.lookups[p].Deciding? {
      var rest := DecidingReturns(decided, p);
      more := [look] + rest;
      ReturnsLater(st, look, decided, rest, p);
    }
  }

  lemma ReturnsLater(st: State, first: Step, next: State, rest: seq<Step>, p: CallId)
    requires Runs(st, [first]) && Exec(st, [first]) == next && OwnLookupStep(first, p)
    requires p in st.lookups && Returns(next, rest, p)
    requires next.lookups == st.lookups[p := next.lookups[p]] && next.lookups[p].service == st.lookups[p].service
    requires Due(next, next.lookups[p]) == Due(st, st.lookups[p]) && Answer(next, next.lookups[p]) == Answer(st, st.lookups[p])
    requires next.slots.sessions == st.slots.sessions && next.slots.lastSeen == st.slots.lastSeen
    requires next.names == st.names && next.handlers == st.handlers && next.closed == st.closed && next.sweeps == st.sweeps
    ensures Returns(st, [first] + rest, p)
  {
    Tr.Continue(Machine(), st, [first], rest);
  }

  /** Every lookup in progress can return, by its own steps and the passing of
      time alone, exactly when it is due: at once if it is about to look, and at
      its deadline if it waits. */
  lemma LookupCanReturn(grace: int, steps: seq<Step>, p: CallId) returns (more: seq<Step>)
    requires Runs(Init(grace), steps)
    requires p in Exec(Init(grace), steps).lookups && !Exec(Init(grace), steps).lookups[p].Returned?
    ensures Returns(Exec(Init(grace), steps), more, p)
  {
    var st := Exec(Init(grace), steps);
    match st.lookups[p]
    case Entering(_) => more := EnteringReturns(st, p);
    case Deciding(_, _, _, _, _) => more := DecidingReturns(st, p);
    case Parked(_, _, _, _, _, _) => more := ParkedReturns(st, p);
    case Woken(_) => more := WokenReturns(st, p);
  }

  /** A session or a lookup of any service can start in every state. */
  lemma CanStart(st: State, s: SessionId, p: CallId, service: string)
    ensures s !in st.names ==>
              && Enabled(st, Connect(s, service))
              && Apply(st, Connect(s, service)) == st.(names := st.names[s := service], handlers := st.handlers[s := Starting])
    ensures p !in st.lookups ==>
              Enabled(st, Call(p, service)) && Apply(st, Call(p, service)) == st.(lookups := st.lookups[p := Entering(service)])
  {}

  // ---------------------------------------------------------------------
  // Handlers and sweeps.

  predicate OwnHandlerStep(step: Step, s: SessionId) {
    (step.RegisterLocked? || step.CloseOld? || step.CloseChan? || step.Warm? || step.WatchClose? || step.UnregisterLocked?)
    && step.s == s
  }

  ghost function Remaining(st: State, s: SessionId): nat
    requires s in st.handlers
  {
    match st.handlers[s]
    case Starting => 6
    case ClosingOld(_, _) => 5
    case Waking(_) => 4
    case Warming => 3
    case Serving => if s in st.closed then 1 else 2
    case Gone => 0
  }

  ghost function NextHandlerStep(st: State, s: SessionId): Step
    requires s in st.handlers && !st.handlers[s].Gone?
  {
    match st.handlers[s]
    case Starting => RegisterLocked(s, st.clock)
    case ClosingOld(_, _) => CloseOld(s)
    case Waking(_) => CloseChan(s)
    case Warming => Warm(s)
    case Serving => if s in st.closed then UnregisterLocked(s, st.clock) else WatchClose(s)
  }

  lemma HandlerMovesOn(st: State, s: SessionId)
    requires s in st.names && s in st.handlers && !st.handlers[s].Gone?
    ensures var step := NextHandlerStep(st, s);
            && OwnHandlerStep(step, s) && Enabled(st, step)
            && var e := Apply(st, step);
               && e.names == st.names && e.lookups == st.lookups && e.clock == st.clock && e.sweeps == st.sweeps
               && s in e.handlers && e.handlers == st.handlers[s := e.handlers[s]] && Remaining(e, s) < Remaining(st, s)
               && st.closed <= e.closed && (e.handlers[s].Gone? ==> s in e.closed)
  {}

  /** The handler of every session can return, by its own steps and the death of
      its own multiplexer, without time passing; the session is then closed. */
  lemma {:induction false} HandlerCanReturn(st: State, s: SessionId) returns (more: seq<Step>)
    requires s in st.names && s in st.handlers && (st.handlers[s].Gone? ==> s in st.closed)
    ensures Runs(st, more) && forall i :: 0 <= i < |more| ==> OwnHandlerStep(more[i], s)
    ensures var e := Exec(st, more);
            && e.handlers == st.handlers[s := Gone] && s in e.closed && st.closed <= e.closed
            && e.names == st.names && e.lookups == st.lookups && e.clock == st.clock && e.sweeps == st.sweeps
    decreases Remaining(st, s)
  {
    if st.handlers[s].Gone? {
      more := [];
    } else {
      HandlerMovesOn(st, s);
      var step := NextHandlerStep(st, s);
      Tr.JustOne(Machine(), st, step);
      var rest := HandlerCanReturn(Apply(st, step), s);
      Tr.Continue(Machine(), st, [step], rest);
      more := [step] + rest;
    }
  }

  /** CloseAll can close every session it took, by its own steps. */
  lemma {:induction false} SweepCanFinish(st: State, p: CallId) returns (more: seq<Step>)
    requires p in st.sweeps
    ensures Runs(st, more) && forall i :: 0 <= i < |more| ==> more[i].CloseSwept? && more[i].p == p
    ensures Exec(st, more) == st.(closed := st.closed + st.sweeps[p], sweeps := st.sweeps[p := {}])
    decreases |st.sweeps[p]|
  {
    if st.sweeps[p] == {} {
      more := [];
      assert st.closed + st.sweeps[p] == st.closed && st.sweeps[p := {}] == st.sweeps;
    } else {
      var s :| s in st.sweeps[p];
      Tr.JustOne(Machine(), st, CloseSwept(p, s));
      var next := st.(closed := st.closed + {s}, sweeps := st.sweeps[p := st.sweeps[p] - {s}]);
      var rest := SweepCanFinish(next, p);
      Tr.Continue(Machine(), st, [CloseSwept(p, s)], rest);
      more := [CloseSwept(p, s)] + rest;
      Swept(st.closed, st.sweeps, p, s);
    }
  }

  /** CloseAll empties every slot in its critical section and can then close every
      session it found in one. */
  lemma CloseAllExact(st: State, p: CallId) returns (more: seq<Step>)
    requires p !in st.sweeps
    ensures Enabled(st, CloseAllLocked(p)) && Runs(Apply(st, CloseAllLocked(p)), more)
    ensures forall i :: 0 <= i < |more| ==> more[i].CloseSwept? && more[i].p == p
    ensures Exec(Apply(st, CloseAllLocked(p)), more) ==
            st.(slots := st.slots.(sessions := map[]),
                closed := st.closed + st.slots.sessions.Values, sweeps := st.sweeps[p := {}])
  {
    var taken := Apply(st, CloseAllLocked(p));
    more := SweepCanFinish(taken, p);
    assert taken.sweeps[p := {}] == st.sweeps[p := {}];
  }

  lemma Swept(closed: set<SessionId>, sweeps: map<CallId, set<SessionId>>, p: CallId, s: SessionId)
    requires p in sweeps && s in sweeps[p]
    ensures closed + {s} + (sweeps[p] - {s}) == closed + sweeps[p]
    ensures sweeps[p := sweeps[p] - {s}][p := {}] == sweeps[p := {}]
  {}

  ghost predicate ServedIsWarmed(st: State) {
    forall s :: s in st.handlers && (st.handlers[s].Serving? || st.handlers[s].Gone?) ==>
      s in st.names && st.names[s] in st.warmed
  }

  lemma StepKeepsWarmed(st: State, step: Step)
    requires ServedIsWarmed(st) && Enabled(st, step)
    ensures ServedIsWarmed(Apply(st, step))
  {
    match step
    case LookupLocked(p, first, second, spare) => EntryDecides(st, p, first, second, spare);
    case _ =>
  }

  /** Every session that gets to serve has had a certificate pre-warmed for its service. */
  lemma ServingIsWarmed(grace: int, steps: seq<Step>, s: SessionId)
    requires Runs(Init(grace), steps) && s in Exec(Init(grace), steps).handlers
    requires Exec(Init(grace), steps).handlers[s].Serving? || Exec(Init(grace), steps).handlers[s].Gone?
    ensures s in Exec(Init(grace), steps).names && Exec(Init(grace), steps).names[s] in Exec(Init(grace), steps).warmed
  {
    forall st, step | ServedIsWarmed(st) && Enabled(st, step) ensures ServedIsWarmed(Next(st, step)) { StepKeepsWarmed(st, step); }
    Tr.Invariant(Machine(), ServedIsWarmed, Init(grace), steps);
  }

  // ---------------------------------------------------------------------
  // Every wake-up has its cause.

  ghost predicate Open(chans: map<ChanId, Chan>, c: ChanId, service: string) {
    c in chans && chans[c] == Chan(service, 0)
  }

  /** The channel a lookup waits on, if it waits. */
  ghost function WaitsOn(st: State, p: CallId): Option<ChanId> {
    if RT.Waiting(st, p) then Some(st.lookups[p].ch) else None
  }

  lemma StepWaitsOn(st: State, step: Step, p: CallId)
    requires Enabled(st, step) && WaitsOn(Apply(st, step), p).Some?
    ensures if WaitsOn(st, p).Some? then WaitsOn(st, p) == WaitsOn(Apply(st, step), p)
            else && step.LookupLocked? && step.p == p
                 && var l := Apply(st, step).lookups[p];
                    Find(Apply(st, step).slots.notifiers, l.service) == Some(l.ch)
    ensures p in st.lookups && st.lookups[p].service == Apply(st, step).lookups[p].service
  {
    match step
    case LookupLocked(q, first, second, spare) => EntryDecides(st, q, first, second, spare);
    case _ =>
  }

  /** The channel a waiting lookup waits on was open when its entry section ended. */
  lemma {:induction false} OpenAtEntry(grace: int, steps: seq<Step>, p: CallId) returns (j: nat)
    requires Runs(Init(grace), steps) && RT.Waiting(Exec(Init(grace), steps), p)
    ensures j < |steps| && steps[j].LookupLocked? && steps[j].p == p
    ensures var l := Exec(Init(grace), steps).lookups[p];
            Open(Exec(Init(grace), steps[..j + 1]).chans, l.ch, l.service)
    decreases |steps|
  {
    var n := |steps| - 1;
    var before := Exec(Init(grace), steps[..n]);
    StepWaitsOn(before, steps[n], p);
    if RT.Waiting(before, p) {
      j := OpenAtEntry(grace, steps[..n], p);
      assert steps[..n][..j + 1] == steps[..j + 1];
    } else {
      j := n;
      assert steps[..n + 1] == steps;
      ReachableInv(grace, steps);
    }
  }

  /** A channel is closed only by the Register that holds it. */
  lemma StepCloses(st: State, step: Step, c: ChanId, service: string)
    requires Enabled(st, step) && Open(st.chans, c, service) && !Open(Apply(st, step).chans, c, service)
    ensures step.CloseChan? && Holds(st.handlers, step.s, c)
  {
    match step
    case LookupLocked(q, first, second, spare) => EntryKeepsChans(st, q, first, second, spare, c);
    case _ =>
  }

  lemma EntryKeepsChans(st: State, q: CallId, first: int, second: int, spare: ChanId, c: ChanId)
    requires Enabled(st, LookupLocked(q, first, second, spare)) && c in st.chans
    ensures var e := AfterLookupLocked(st, q, first, second, spare); c in e.chans && e.chans[c] == st.chans[c]
  {}

  lemma {:induction false} ClosedBySomeRegister(grace: int, steps: seq<Step>, j: nat, c: ChanId, service: string) returns (k: nat)
    requires Runs(Init(grace), steps) && j <= |steps|
    requires Open(Exec(Init(grace), steps[..j]).chans, c, service) && !Open(Exec(Init(grace), steps).chans, c, service)
    ensures j <= k < |steps| && steps[k].CloseChan?
    ensures var at := Exec(Init(grace), steps[..k]);
            Holds(at.handlers, steps[k].s, c) && steps[k].s in at.names && at.names[steps[k].s] == service
    decreases |steps|
  {
    assert steps[..|steps|] == steps;
    var n := |steps| - 1;
    var before := Exec(Init(grace), steps[..n]);
    if Open(before.chans, c, service) {
      k := n;
      StepCloses(before, steps[n], c, service);
      ReachableInv(grace, steps[..n]);
    } else {
      assert steps[..n][..j] == steps[..j];
      k := ClosedBySomeRegister(grace, steps[..n], j, c, service);
      assert steps[..n][..k] == steps[..k];
    }
  }

  /** No lookup wakes without cause: after its entry section, at step j, a
      Register of its own service closed the channel it waited on, at step k. */
  lemma {:induction false} WokenByRegister(grace: int, steps: seq<Step>, p: CallId) returns (j: nat, k: nat)
    requires Runs(Init(grace), steps)
    requires p in Exec(Init(grace), steps).lookups && Exec(Init(grace), steps).lookups[p].Woken?
    ensures j < k < |steps| && steps[j].LookupLocked? && steps[j].p == p && steps[k].CloseChan?
    ensures var at := Exec(Init(grace), steps[..k]);
            steps[k].s in at.names && at.names[steps[k].s] == Exec(Init(grace), steps).lookups[p].service
    decreases |steps|
  {
    var n := |steps| - 1;
    var before := Exec(Init(grace), steps[..n]);
    if p in before.lookups && before.lookups[p].Woken? {
      StepWoken(before, steps[n], p);
      j, k := WokenByRegister(grace, steps[..n], p);
      assert steps[..n][..k] == steps[..k];
    } else {
      StepWoken(before, steps[n], p);
      j := OpenAtEntry(grace, steps[..n], p);
      assert steps[..n][..j + 1] == steps[..j + 1];
      k := ClosedBySomeRegister(grace, steps[..n], j + 1, before.lookups[p].ch, before.lookups[p].service);
      assert steps[..n][..k] == steps[..k];
    }
  }

  lemma StepWoken(st: State, step: Step, p: CallId)
    requires Enabled(st, step) && p in Apply(st, step).lookups && Apply(st, step).lookups[p].Woken?
    ensures p in st.lookups && st.lookups[p].service == Apply(st, step).lookups[p].service
    ensures st.lookups[p].Woken? ||
            (st.lookups[p].Parked? && st.lookups[p].ch in st.chans && st.chans[st.lookups[p].ch].closes > 0)
  {
    match step
    case LookupLocked(q, first, second, spare) => EntryDecides(st, q, first, second, spare);
    case _ =>
  }
}
