/** What the session registry guarantees in every reachable state of every
    interleaving, and over whole runs. */
module RegistryTheorems {
  import opened Options
  import opened RegistrySlots
  import opened RegistryProtocol
  import opened RegistryInvariant
  import Tr = Transition

  // ---------------------------------------------------------------------
  // Facts about single steps.

  lemma StepMonotone(st: State, step: Step)
    requires Enabled(st, step)
    ensures Apply(st, step).grace == st.grace
    ensures st.slots.lastSeen.Keys <= Apply(st, step).slots.lastSeen.Keys
  {
    match step
    case Tick(_) =>
    case RegisterLocked(_, _) =>
    case UnregisterLocked(_, _) =>
    case LookupLocked(p, first, second, spare) => LookupShape(st, p, first, second, spare);
    case _ =>
  }

  lemma StepOccupant(st: State, step: Step, service: string, t: SessionId)
    requires Enabled(st, step) && OccupantsOwned(st.slots.sessions, st.names, st.handlers)
    requires Find(st.slots.sessions, service) == Some(t)
    requires Find(Apply(st, step).slots.sessions, service) != Some(t)
    ensures || (step.UnregisterLocked? && step.s == t && service !in Apply(st, step).slots.sessions)
            || (step.RegisterLocked? && step.s != t && st.names[step.s] == service
                && Find(Apply(st, step).slots.sessions, service) == Some(step.s))
            || step.CloseAllLocked?
  {
    match step
    case RegisterLocked(_, _) =>
    case UnregisterLocked(_, _) =>
    case LookupLocked(p, first, second, spare) => LookupShape(st, p, first, second, spare);
    case _ =>
  }

  /** A lookup comes to return a session only in one of its own critical
      sections, and it is the session then in the slot. */
  lemma StepFound(st: State, step: Step, p: CallId)
    requires Enabled(st, step) && p in Apply(st, step).lookups
    requires Apply(st, step).lookups[p].Returned? && Apply(st, step).lookups[p].outcome.Found?
    requires p !in st.lookups || st.lookups[p] != Apply(st, step).lookups[p]
    ensures var l := Apply(st, step).lookups[p];
            && p in st.lookups && !st.lookups[p].Returned? && st.lookups[p].service == l.service
            && Find(st.slots.sessions, l.service) == Some(l.outcome.session)
  {
    match step
    case LookupLocked(q, first, second, spare) => LookupShape(st, q, first, second, spare);
    case RecheckLocked(_) =>
    case _ =>
  }

  /** When a lookup gives up. */
  lemma StepGaveUp(st: State, step: Step, p: CallId)
    requires Enabled(st, step) && p in Apply(st, step).lookups
    requires Apply(st, step).lookups[p].Returned? && Apply(st, step).lookups[p].outcome.NoClient?
    requires p !in st.lookups || st.lookups[p] != Apply(st, step).lookups[p]
    requires LookupsOk(st.lookups, st.chans, st.grace, st.clock)
    ensures p in st.lookups && !st.lookups[p].Returned? && st.lookups[p].service == Apply(st, step).lookups[p].service
    ensures GivesUp(st, step, p)
  {
    match step
    case LookupLocked(q, first, second, spare) => EntryGaveUp(st, q, first, second, spare, p);
    case RecheckLocked(_) =>
    case Arm(q, _) => assert LookupOk(st.lookups[q], st.chans, st.grace, st.clock);
    case _ =>
  }

  lemma EntryGaveUp(st: State, q: CallId, first: int, second: int, spare: ChanId, p: CallId)
    requires Enabled(st, LookupLocked(q, first, second, spare))
    ensures var st' := AfterLookupLocked(st, q, first, second, spare);
            && (p != q ==> (p in st'.lookups <==> p in st.lookups) && (p in st.lookups ==> st'.lookups[p] == st.lookups[p]))
            && (p == q && st'.lookups[p].Returned? && st'.lookups[p].outcome.NoClient? ==>
                  GivesUp(st, LookupLocked(q, first, second, spare), p) && st'.lookups[p].service == st.lookups[p].service)
  {
    LookupShape(st, q, first, second, spare);
  }

  /** The slot is empty and was not seen within the grace window, or the window
      ran out, or the slot is empty again after a wake-up. */
  ghost predicate GivesUp(st: State, step: Step, p: CallId)
    requires p in st.lookups
  {
    var l := st.lookups[p];
    match step
    case LookupLocked(q, first, _, _) =>
      && q == p && l.service !in st.slots.sessions
      && (l.service !in st.slots.lastSeen || first - st.slots.lastSeen[l.service] > st.grace)
    case Arm(q, _) => q == p && l.Deciding? && l.readAt - l.last >= st.grace
    case Timeout(q) => q == p && l.Parked? && l.deadline <= st.clock
    case RecheckLocked(q) => q == p && l.Woken? && l.service !in st.slots.sessions
    case _ => false
  }

  /** The time, if any, at which a step records the service as seen: an install,
      or the departure of the current occupant. */
  ghost function Sighting(st: State, step: Step, service: string): Option<int> {
    match step
    case RegisterLocked(s, now) => if s in st.names && st.names[s] == service then Some(now) else None
    case UnregisterLocked(s, now) =>
      if s in st.names && st.names[s] == service && Find(st.slots.sessions, service) == Some(s) then Some(now) else None
    case _ => None
  }

  lemma StepSighting(st: State, step: Step, service: string)
    requires Enabled(st, step)
    ensures Find(Apply(st, step).slots.lastSeen, service) ==
              if Sighting(st, step, service).Some? then Sighting(st, step, service)
              else Find(st.slots.lastSeen, service)
  {
    match step
    case LookupLocked(p, first, second, spare) => LookupShape(st, p, first, second, spare);
    case _ =>
  }

  ghost predicate Waiting(st: State, p: CallId) {
    p in st.lookups && (st.lookups[p].Parked? || st.lookups[p].Deciding?)
  }

  /** The waiting part of a lookup, if it waits. */
  ghost function Memory(st: State, p: CallId): Option<(string, int, int)> {
    if Waiting(st, p) then Some((st.lookups[p].service, st.lookups[p].last, st.lookups[p].readAt)) else None
  }

  /** A lookup starts waiting only in its entry section, and then keeps what it
      read there. */
  lemma StepWaiting(st: State, step: Step, p: CallId)
    requires Enabled(st, step) && Waiting(Apply(st, step), p)
    ensures var l := Apply(st, step).lookups[p];
            if Waiting(st, p) then Memory(st, p) == Memory(Apply(st, step), p)
            else && step.LookupLocked? && step.p == p && step.second == l.readAt
                 && Find(st.slots.lastSeen, l.service) == Some(l.last)
  {
    match step
    case LookupLocked(q, first, second, spare) => EntryWaiting(st, q, first, second, spare, p);
    case Arm(_, _) =>
    case _ =>
  }

  lemma EntryWaiting(st: State, q: CallId, first: int, second: int, spare: ChanId, p: CallId)
    requires Enabled(st, LookupLocked(q, first, second, spare))
    requires Waiting(AfterLookupLocked(st, q, first, second, spare), p)
    ensures var st' := AfterLookupLocked(st, q, first, second, spare);
            if p == q then st'.lookups[p].readAt == second && Find(st.slots.lastSeen, st'.lookups[p].service) == Some(st'.lookups[p].last)
            else p in st.lookups && st.lookups[p] == st'.lookups[p]
  {
    LookupShape(st, q, first, second, spare);
  }

  // ---------------------------------------------------------------------
  // Wake-ups.

  /** A parked lookup's channel is closed, or waits in the map for its own
      service, or is held by exactly one Register in flight. While the slot is
      occupied the middle case is impossible: the wake-up has happened or is
      being delivered. */
  lemma NoLostWakeup(grace: int, steps: seq<Step>, p: CallId)
    requires Runs(Init(grace), steps)
    requires var st := Exec(Init(grace), steps); p in st.lookups && st.lookups[p].Parked?
    ensures var st := Exec(Init(grace), steps);
            var l := st.lookups[p];
            && l.ch in st.chans && st.chans[l.ch].service == l.service
            && (|| st.chans[l.ch].closes == 1
                || Find(st.slots.notifiers, l.service) == Some(l.ch)
                || exists s :: Holds(st.handlers, s, l.ch))
            && (l.service in st.slots.sessions ==>
                  st.chans[l.ch].closes == 1 || exists s :: Holds(st.handlers, s, l.ch))
            && (forall s, s' :: Holds(st.handlers, s, l.ch) && Holds(st.handlers, s', l.ch) ==> s == s')
  {
    ReachableInv(grace, steps);
    var st := Exec(Init(grace), steps);
    assert LookupOk(st.lookups[p], st.chans, st.grace, st.clock);
  }

  /** A Register holding a channel can always go on by itself, in at most two
      steps, to a state where everyone parked on that channel can wake up. */
  lemma HeldWakeupIsDelivered(grace: int, steps: seq<Step>, p: CallId, s: SessionId) returns (more: seq<Step>)
    requires Runs(Init(grace), steps)
    requires var st := Exec(Init(grace), steps);
             p in st.lookups && st.lookups[p].Parked? && Holds(st.handlers, s, st.lookups[p].ch)
    ensures |more| <= 2 && (forall i :: 0 <= i < |more| ==> more[i] in {CloseOld(s), CloseChan(s)})
    ensures var st := Exec(Init(grace), steps);
            Runs(st, more) && Enabled(Exec(st, more), WakeUp(p))
  {
    ReachableInv(grace, steps);
    var st := Exec(Init(grace), steps);
    if st.handlers[s].ClosingOld? {
      more := [CloseOld(s), CloseChan(s)];
      TwoStepsWake(st, s, p);
    } else {
      more := [CloseChan(s)];
      Tr.JustOne(Machine(), st, CloseChan(s));
      ClosedCanWake(st, s, p);
    }
  }

  lemma TwoStepsWake(st: State, s: SessionId, p: CallId)
    requires Inv(st) && s in st.handlers && st.handlers[s].ClosingOld?
    requires p in st.lookups && st.lookups[p].Parked? && Holds(st.handlers, s, st.lookups[p].ch)
    ensures Runs(st, [CloseOld(s), CloseChan(s)]) && Enabled(Exec(st, [CloseOld(s), CloseChan(s)]), WakeUp(p))
  {
    var mid := AfterCloseOld(st, s);
    Tr.JustOne(Machine(), st, CloseOld(s));
    CloseOldKeeps(st, s);
    Tr.OneMore(Machine(), st, [CloseOld(s)], CloseChan(s));
    assert [CloseOld(s)] + [CloseChan(s)] == [CloseOld(s), CloseChan(s)];
    ClosedCanWake(mid, s, p);
  }

  lemma ClosedCanWake(st: State, s: SessionId, p: CallId)
    requires Inv(st) && s in st.handlers && st.handlers[s].Waking?
    requires p in st.lookups && st.lookups[p].Parked? && Holds(st.handlers, s, st.lookups[p].ch)
    ensures Enabled(AfterCloseChan(st, s), WakeUp(p))
  {}

  /** No channel is closed twice, no close is issued on a closed channel, and a
      live slot never has a wake-up channel. */
  lemma NoDoubleClose(grace: int, steps: seq<Step>, c: ChanId, s: SessionId, service: string)
    requires Runs(Init(grace), steps)
    ensures var st := Exec(Init(grace), steps);
            && (c in st.chans ==> st.chans[c].closes <= 1)
            && (Enabled(st, CloseChan(s)) && st.handlers[s].ch == Some(c) ==> c in st.chans && st.chans[c].closes == 0)
            && (service in st.slots.sessions ==> service !in st.slots.notifiers)
  {
    ReachableInv(grace, steps);
    var st := Exec(Init(grace), steps);
    if Enabled(st, CloseChan(s)) && st.handlers[s].ch == Some(c) {
      assert Holds(st.handlers, s, c);
    }
  }

  // ---------------------------------------------------------------------
  // Takeover.

  /** A session that was installed and is not the occupant is closed, or an
      in-flight Register or CloseAll is about to close it; and any occupant,
      alive or dead, has its handler's Unregister still to come. */
  lemma TakeoverSafety(grace: int, steps: seq<Step>, s: SessionId)
    requires Runs(Init(grace), steps)
    requires s in Exec(Init(grace), steps).names
    ensures var st := Exec(Init(grace), steps);
            var occupant := Find(st.slots.sessions, st.names[s]) == Some(s);
            && (Installed(st.handlers, s) && !occupant ==> s in st.closed || Doomed(st.handlers, st.sweeps, s))
            && (occupant ==> Installed(st.handlers, s) && !st.handlers[s].Gone?)
            && (s in st.handlers && st.handlers[s].Gone? ==> s in st.closed && !occupant)
  {
    ReachableInv(grace, steps);
  }

  /** Why an occupant can stop being one: its own Unregister, a newer session of
      the same service, or CloseAll. In particular a stale Unregister evicts
      nobody. */
  lemma OccupantLeavesOnlyBy(grace: int, steps: seq<Step>, step: Step, service: string, t: SessionId)
    requires Runs(Init(grace), steps) && Enabled(Exec(Init(grace), steps), step)
    requires Find(Exec(Init(grace), steps).slots.sessions, service) == Some(t)
    ensures var st := Exec(Init(grace), steps);
            var st' := Apply(st, step);
            Find(st'.slots.sessions, service) != Some(t) ==>
              || (step.UnregisterLocked? && step.s == t && service !in st'.slots.sessions)
              || (step.RegisterLocked? && step.s != t && st.names[step.s] == service
                  && st'.slots.sessions[service] == step.s)
              || step.CloseAllLocked?
  {
    ReachableInv(grace, steps);
    var st := Exec(Init(grace), steps);
    if Find(Apply(st, step).slots.sessions, service) != Some(t) {
      StepOccupant(st, step, service, t);
    }
  }

  /** Nothing is stranded: once every handler has returned, every slot is free
      and every session is closed. */
  lemma NothingStranded(grace: int, steps: seq<Step>)
    requires Runs(Init(grace), steps)
    requires forall s :: s in Exec(Init(grace), steps).handlers ==> Exec(Init(grace), steps).handlers[s].Gone?
    ensures var st := Exec(Init(grace), steps);
            st.slots.sessions == map[] && forall s :: s in st.names ==> s in st.closed
  {
    ReachableInv(grace, steps);
    var st := Exec(Init(grace), steps);
    forall service ensures service !in st.slots.sessions {}
  }

  // ---------------------------------------------------------------------
  // Lookup.

  /** Lookup is linearizable: the session it returns occupied the slot of the
      requested service at an instant at which the call was in progress, and is
      a session of that very service. */
  lemma {:induction false} FoundWasOccupant(grace: int, steps: seq<Step>, p: CallId) returns (j: nat)
    requires Runs(Init(grace), steps)
    requires var st := Exec(Init(grace), steps);
             p in st.lookups && st.lookups[p].Returned? && st.lookups[p].outcome.Found?
    ensures j < |steps|
    ensures var l := Exec(Init(grace), steps).lookups[p];
            var during := Exec(Init(grace), steps[..j]);
            && p in during.lookups && !during.lookups[p].Returned? && during.lookups[p].service == l.service
            && Find(during.slots.sessions, l.service) == Some(l.outcome.session)
            && l.outcome.session in during.names && during.names[l.outcome.session] == l.service
    decreases |steps|
  {
    var n := |steps| - 1;
    var before := Exec(Init(grace), steps[..n]);
    var after := Exec(Init(grace), steps);
    if p in before.lookups && before.lookups[p] == after.lookups[p] {
      j := FoundWasOccupant(grace, steps[..n], p);
      assert steps[..n][..j] == steps[..j];
    } else {
      j := n;
      ReachableInv(grace, steps[..n]);
      StepFound(before, steps[n], p);
    }
  }

  /** Lookup refuses a request only for a reason it found while in progress. */
  lemma {:induction false} RefusalJustified(grace: int, steps: seq<Step>, p: CallId) returns (j: nat)
    requires Runs(Init(grace), steps)
    requires var st := Exec(Init(grace), steps);
             p in st.lookups && st.lookups[p].Returned? && st.lookups[p].outcome.NoClient?
    ensures j < |steps|
    ensures var during := Exec(Init(grace), steps[..j]);
            && p in during.lookups && !during.lookups[p].Returned?
            && during.lookups[p].service == Exec(Init(grace), steps).lookups[p].service
            && GivesUp(during, steps[j], p)
    decreases |steps|
  {
    var n := |steps| - 1;
    var before := Exec(Init(grace), steps[..n]);
    var after := Exec(Init(grace), steps);
    if p in before.lookups && before.lookups[p] == after.lookups[p] {
      j := RefusalJustified(grace, steps[..n], p);
      assert steps[..n][..j] == steps[..j];
    } else {
      j := n;
      ReachableInv(grace, steps[..n]);
      StepGaveUp(before, steps[n], p);
    }
  }

  /** What a waiting lookup remembers was true in its entry section. */
  lemma {:induction false} WaitingSince(grace: int, steps: seq<Step>, p: CallId) returns (j: nat)
    requires Runs(Init(grace), steps) && Waiting(Exec(Init(grace), steps), p)
    ensures j < |steps| && steps[j].LookupLocked? && steps[j].p == p
    ensures var l := Exec(Init(grace), steps).lookups[p];
            && Find(Exec(Init(grace), steps[..j]).slots.lastSeen, l.service) == Some(l.last)
            && steps[j].second == l.readAt
    decreases |steps|
  {
    var n := |steps| - 1;
    var before := Exec(Init(grace), steps[..n]);
    StepWaiting(before, steps[n], p);
    if Waiting(before, p) {
      j := WaitingSince(grace, steps[..n], p);
      assert steps[..n][..j] == steps[..j];
    } else {
      j := n;
    }
  }

  /** The timer of a parked lookup. `last` is the last-seen time its entry read
      at step j; the timer is armed after the lock is released, so it fires that
      much after last + grace: exactly at last + grace iff no time passed in
      between, and never more than grace after it was armed. */
  lemma ParkedDeadline(grace: int, steps: seq<Step>, p: CallId) returns (j: nat)
    requires Runs(Init(grace), steps)
    requires var st := Exec(Init(grace), steps); p in st.lookups && st.lookups[p].Parked?
    ensures j < |steps| && steps[j].LookupLocked? && steps[j].p == p
    ensures var l := Exec(Init(grace), steps).lookups[p];
            && Find(Exec(Init(grace), steps[..j]).slots.lastSeen, l.service) == Some(l.last)
            && steps[j].second == l.readAt
            && l.deadline == l.last + grace + (l.armedAt - l.readAt)
            && (l.deadline == l.last + grace <==> l.armedAt == l.readAt)
            && l.armedAt < l.deadline <= l.armedAt + grace
  {
    j := WaitingSince(grace, steps, p);
    GraceFixed(grace, steps);
    ReachableInv(grace, steps);
    var st := Exec(Init(grace), steps);
    assert LookupOk(st.lookups[p], st.chans, st.grace, st.clock);
  }

  /** The delay can be any: a client comes and goes, a request looks its service
      up at once and arms its timer `delay` later. */
  lemma TimerCanBeLate(grace: int, delay: int) returns (steps: seq<Step>)
    requires grace > 0 && delay >= 0
    ensures Runs(Init(grace), steps)
    ensures var st := Exec(Init(grace), steps);
            && 0 in st.lookups && st.lookups[0].Parked?
            && st.lookups[0].deadline == st.lookups[0].last + grace + delay
  {
    steps := ServiceLookedUp(grace);
    Tr.OneMore(Machine(), Init(grace), steps, Arm(0, delay));
    steps := steps + [Arm(0, delay)];
  }

  lemma ServiceLookedUp(grace: int) returns (steps: seq<Step>)
    requires grace > 0
    ensures Runs(Init(grace), steps)
    ensures Exec(Init(grace), steps).clock == 0
    ensures Exec(Init(grace), steps).lookups == map[0 := Deciding("a", 0, 0, 0, grace)]
  {
    steps := ClientComesAndGoes(grace);
    Tr.OneMore(Machine(), Init(grace), steps, Call(0, "a"));
    steps := steps + [Call(0, "a")];
    var calling := Exec(Init(grace), steps);
    Tr.OneMore(Machine(), Init(grace), steps, LookupLocked(0, 0, 0, 0));
    steps := steps + [LookupLocked(0, 0, 0, 0)];
    assert Exec(Init(grace), steps) == AfterLookupLocked(calling, 0, 0, 0, 0);
  }

  /** One client of service "a", all at time 0. */
  lemma ClientComesAndGoes(grace: int) returns (steps: seq<Step>)
    ensures Runs(Init(grace), steps)
    ensures var st := Exec(Init(grace), steps);
            && st.grace == grace && st.clock == 0 && st.lookups == map[] && st.chans == map[]
            && st.slots == Slots(map[], map[], map["a" := 0])
  {
    var st := Init(grace);
    steps := ClientRegisters(grace);
    var up := Exec(st, steps);
    Tr.OneMore(Machine(), st, steps, WatchClose(0));
    steps := steps + [WatchClose(0)];
    Tr.OneMore(Machine(), st, steps, UnregisterLocked(0, 0));
    steps := steps + [UnregisterLocked(0, 0)];
    assert Exec(st, steps).slots == Evict(up.slots, "a", 0, 0);
  }

  lemma ClientRegisters(grace: int) returns (steps: seq<Step>)
    ensures Runs(Init(grace), steps)
    ensures var st := Exec(Init(grace), steps);
            && st.grace == grace && st.clock == 0 && st.lookups == map[] && st.chans == map[]
            && st.slots == Slots(map["a" := 0], map[], map["a" := 0]) && st.names == map[0 := "a"] && At(st, 0, Serving)
  {
    var st := Init(grace);
    steps := [Connect(0, "a")];
    Tr.JustOne(Machine(), st, Connect(0, "a"));
    Tr.OneMore(Machine(), st, steps, RegisterLocked(0, 0));
    steps := steps + [RegisterLocked(0, 0)];
    Tr.OneMore(Machine(), st, steps, CloseOld(0));
    steps := steps + [CloseOld(0)];
    Tr.OneMore(Machine(), st, steps, CloseChan(0));
    steps := steps + [CloseChan(0)];
    Tr.OneMore(Machine(), st, steps, Warm(0));
    steps := steps + [Warm(0)];
  }

  lemma GraceFixed(grace: int, steps: seq<Step>)
    requires Runs(Init(grace), steps)
    ensures Exec(Init(grace), steps).grace == grace
  {
    forall st, step | Enabled(st, step) ensures Next(st, step).grace == st.grace { StepMonotone(st, step); }
    Tr.Invariant(Machine(), (st: State) => st.grace == grace, Init(grace), steps);
  }

  // ---------------------------------------------------------------------
  // History.

  /** The time of the last sighting of a service in a run. */
  ghost function LastSighting(grace: int, steps: seq<Step>, service: string): Option<int>
    requires Runs(Init(grace), steps)
  {
    if steps == [] then None
    else
      var n := |steps| - 1;
      var now := Sighting(Exec(Init(grace), steps[..n]), steps[n], service);
      if now.Some? then now else LastSighting(grace, steps[..n], service)
  }

  /** The grace window is measured from the last install of the service or the
      last departure of its occupant, and from nothing else. */
  lemma {:induction false} LastSeenIsLastSighting(grace: int, steps: seq<Step>, service: string)
    requires Runs(Init(grace), steps)
    ensures Find(Exec(Init(grace), steps).slots.lastSeen, service) == LastSighting(grace, steps, service)
    decreases |steps|
  {
    if steps != [] {
      var n := |steps| - 1;
      LastSeenIsLastSighting(grace, steps[..n], service);
      StepSighting(Exec(Init(grace), steps[..n]), steps[n], service);
    }
  }

  /** HasService answers exactly whether a session of that service was ever
      installed, whatever has been closed or unregistered since; and it only
      ever turns from no to yes. */
  lemma HasServiceIsHistory(grace: int, steps: seq<Step>, service: string)
    requires Runs(Init(grace), steps)
    ensures var st := Exec(Init(grace), steps);
            HasService(st.slots, service) <==> exists s :: Registered(st.names, st.handlers, s, service)
  {
    ReachableInv(grace, steps);
    var st := Exec(Init(grace), steps);
    if service in st.slots.sessions {
      assert Registered(st.names, st.handlers, st.slots.sessions[service], service);
    }
  }

  lemma HasServiceStable(grace: int, steps: seq<Step>, j: nat, service: string)
    requires Runs(Init(grace), steps) && j <= |steps|
    requires HasService(Exec(Init(grace), steps[..j]).slots, service)
    ensures HasService(Exec(Init(grace), steps).slots, service)
  {
    Tr.Prefix(Machine(), Init(grace), steps, j);
    ReachableInv(grace, steps[..j]);
    var early := Exec(Init(grace), steps[..j]);
    if service in early.slots.sessions {
      assert Registered(early.names, early.handlers, early.slots.sessions[service], service);
    }
    forall st: State, step | service in st.slots.lastSeen && Enabled(st, step) ensures service in Next(st, step).slots.lastSeen {
      StepMonotone(st, step);
    }
    Tr.Invariant(Machine(), (st: State) => service in st.slots.lastSeen, early, steps[j..]);
  }

  /** A certificate is only ever pre-warmed for a service already registered. */
  lemma WarmedIsRegistered(grace: int, steps: seq<Step>, service: string)
    requires Runs(Init(grace), steps) && service in Exec(Init(grace), steps).warmed
    ensures HasService(Exec(Init(grace), steps).slots, service)
  {
    ReachableInv(grace, steps);
  }
}
