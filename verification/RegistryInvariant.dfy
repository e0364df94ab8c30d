/** The inductive invariant of the registry protocol. */
module RegistryInvariant {
  import opened Options
  import opened RegistrySlots
  import opened RegistryProtocol
  import Tr = Transition

  // ---------------------------------------------------------------------
  // The invariant, in parts that depend on as little of the state as possible.

  type Names = map<SessionId, string>
  type Handlers = map<SessionId, Handler>

  /** The handler of s is inside Register and will close channel c. */
  ghost predicate Holds(handlers: Handlers, s: SessionId, c: ChanId) {
    && s in handlers
    && (handlers[s].ClosingOld? || handlers[s].Waking?)
    && handlers[s].ch == Some(c)
  }

  ghost predicate Installed(handlers: Handlers, s: SessionId) {
    s in handlers && !handlers[s].Starting?
  }

  /** The Register of h has taken the slot from s and is about to close s. */
  ghost predicate Displaces(handlers: Handlers, h: SessionId, s: SessionId) {
    h in handlers && h != s && handlers[h].ClosingOld? && handlers[h].prev == Some(s)
  }

  /** CloseAll p has taken s and is about to close it. */
  ghost predicate Sweeps(sweeps: map<CallId, set<SessionId>>, p: CallId, s: SessionId) {
    p in sweeps && s in sweeps[p]
  }

  /** Some in-flight Register or CloseAll is about to close s. */
  ghost predicate Doomed(handlers: Handlers, sweeps: map<CallId, set<SessionId>>, s: SessionId) {
    || (exists h :: Displaces(handlers, h, s))
    || (exists p :: Sweeps(sweeps, p, s))
  }

  /** An occupant is a session of that service whose handler has yet to unregister it. */
  ghost predicate OccupantsOwned(sessions: map<string, SessionId>, names: Names, handlers: Handlers) {
    && handlers.Keys == names.Keys
    && forall service :: service in sessions ==>
         && sessions[service] in names && names[sessions[service]] == service
         && Installed(handlers, sessions[service]) && !handlers[sessions[service]].Gone?
  }

  ghost predicate TimesPast(lastSeen: map<string, int>, clock: int) {
    forall service :: service in lastSeen ==> lastSeen[service] <= clock
  }

  /** A channel waiting in the map is open and belongs to its service. */
  ghost predicate NotifiersOpen(notifiers: map<string, ChanId>, chans: map<ChanId, Chan>) {
    && (forall c :: c in chans ==> chans[c].closes <= 1)
    && (forall service :: service in notifiers ==>
          notifiers[service] in chans && chans[notifiers[service]] == Chan(service, 0))
  }

  /** A channel in the hands of Register is open, out of the map, and in no
      other hands. */
  ghost predicate HeldOnce(notifiers: map<string, ChanId>, names: Names, handlers: Handlers, chans: map<ChanId, Chan>) {
    && (forall s, c :: Holds(handlers, s, c) ==>
          && s in names && c in chans && chans[c] == Chan(names[s], 0)
          && Find(notifiers, names[s]) != Some(c))
    && (forall s, s', c :: Holds(handlers, s, c) && Holds(handlers, s', c) ==> s == s')
  }

  /** No wake-up is lost: a channel is closed, or Register will find it, or
      Register holds it. */
  ghost predicate ChannelsReach(notifiers: map<string, ChanId>, handlers: Handlers, chans: map<ChanId, Chan>) {
    forall c :: c in chans ==>
      || chans[c].closes == 1
      || Find(notifiers, chans[c].service) == Some(c)
      || exists s :: Holds(handlers, s, c)
  }

  ghost predicate LookupOk(l: Lookup, chans: map<ChanId, Chan>, grace: int, clock: int) {
    match l
    case Deciding(service, ch, last, readAt, remaining) =>
      && ch in chans && chans[ch].service == service
      && last <= readAt <= clock && remaining == grace - (readAt - last)
    case Parked(service, ch, last, readAt, armedAt, deadline) =>
      && ch in chans && chans[ch].service == service
      && last <= readAt <= armedAt <= clock
      && armedAt < deadline == armedAt + grace - (readAt - last)
    case _ => true
  }

  ghost predicate LookupsOk(lookups: map<CallId, Lookup>, chans: map<ChanId, Chan>, grace: int, clock: int) {
    forall p :: p in lookups ==> LookupOk(lookups[p], chans, grace, clock)
  }

  /** A displaced session is closed, or someone in flight is about to close it. */
  ghost predicate DisplacedClosed(sessions: map<string, SessionId>, names: Names, closed: set<SessionId>,
                                  handlers: Handlers, sweeps: map<CallId, set<SessionId>>) {
    forall s :: s in names && Installed(handlers, s) ==>
      Find(sessions, names[s]) == Some(s) || s in closed || Doomed(handlers, sweeps, s)
  }

  ghost predicate Bookkeeping(names: Names, closed: set<SessionId>, handlers: Handlers, sweeps: map<CallId, set<SessionId>>) {
    && (forall s :: s in names && s in handlers && handlers[s].Gone? ==> s in closed)
    && (forall h, s :: Displaces(handlers, h, s) ==>
          h in names && s in names && Installed(handlers, s) && names[s] == names[h])
    && (forall h :: h in handlers && handlers[h].ClosingOld? ==> handlers[h].prev != Some(h))
    && (forall p, s :: Sweeps(sweeps, p, s) ==> s in names && Installed(handlers, s))
  }

  ghost predicate Registered(names: Names, handlers: Handlers, s: SessionId, service: string) {
    s in names && Installed(handlers, s) && names[s] == service
  }

  /** The last-seen map records exactly the services ever registered. */
  ghost predicate HistoryExact(lastSeen: map<string, int>, names: Names, handlers: Handlers) {
    && (forall s, service :: Registered(names, handlers, s, service) ==> service in lastSeen)
    && (forall service :: service in lastSeen ==> exists s :: Registered(names, handlers, s, service))
  }

  ghost predicate Inv(st: State) {
    && OccupantsOwned(st.slots.sessions, st.names, st.handlers)
    && st.slots.sessions.Keys !! st.slots.notifiers.Keys
    && TimesPast(st.slots.lastSeen, st.clock)
    && NotifiersOpen(st.slots.notifiers, st.chans)
    && HeldOnce(st.slots.notifiers, st.names, st.handlers, st.chans)
    && ChannelsReach(st.slots.notifiers, st.handlers, st.chans)
    && LookupsOk(st.lookups, st.chans, st.grace, st.clock)
    && DisplacedClosed(st.slots.sessions, st.names, st.closed, st.handlers, st.sweeps)
    && Bookkeeping(st.names, st.closed, st.handlers, st.sweeps)
    && HistoryExact(st.slots.lastSeen, st.names, st.handlers)
    && st.warmed <= st.slots.lastSeen.Keys
  }

  // ---------------------------------------------------------------------
  // Preservation. Most steps leave alone who holds, displaces and sweeps what.

  /** b records the same registrations in flight as a. */
  ghost predicate SameFlight(a: Handlers, b: Handlers) {
    && (forall s, c :: Holds(a, s, c) <==> Holds(b, s, c))
    && (forall h, s :: Displaces(a, h, s) <==> Displaces(b, h, s))
    && (forall s :: Installed(a, s) <==> Installed(b, s))
  }

  ghost predicate Extends(a: Names, b: Names) {
    forall s :: s in a ==> s in b && b[s] == a[s]
  }

  lemma HeldOnceFrame(notifiers: map<string, ChanId>, names: Names, names': Names, a: Handlers, b: Handlers, chans: map<ChanId, Chan>)
    requires HeldOnce(notifiers, names, a, chans) && SameFlight(a, b) && Extends(names, names')
    ensures HeldOnce(notifiers, names', b, chans)
  {}

  lemma ReachFrame(notifiers: map<string, ChanId>, a: Handlers, b: Handlers, chans: map<ChanId, Chan>)
    requires ChannelsReach(notifiers, a, chans) && SameFlight(a, b)
    ensures ChannelsReach(notifiers, b, chans)
  {}

  lemma DoomedFrame(a: Handlers, b: Handlers, sweeps: map<CallId, set<SessionId>>, s: SessionId)
    requires Doomed(a, sweeps, s) && SameFlight(a, b)
    ensures Doomed(b, sweeps, s)
  {}

  lemma HistoryFrame(lastSeen: map<string, int>, names: Names, names': Names, a: Handlers, b: Handlers)
    requires HistoryExact(lastSeen, names, a) && SameFlight(a, b) && Extends(names, names')
    requires a.Keys <= names.Keys
    ensures HistoryExact(lastSeen, names', b)
  {
    forall s, service | Registered(names', b, s, service) ensures service in lastSeen {
      assert Registered(names, a, s, service);
    }
    forall service | service in lastSeen ensures exists s :: Registered(names', b, s, service) {
      var s :| Registered(names, a, s, service);
      assert Registered(names', b, s, service);
    }
  }

  lemma FrameKeeps(st: State, st': State)
    requires Inv(st)
    requires st' == st.(names := st'.names, closed := st'.closed, handlers := st'.handlers, warmed := st'.warmed)
    requires SameFlight(st.handlers, st'.handlers) && Extends(st.names, st'.names) && st.closed <= st'.closed
    requires st'.handlers.Keys == st'.names.Keys && st'.warmed <= st.slots.lastSeen.Keys
    requires forall s :: s in st'.handlers && st'.handlers[s].Gone? ==> s in st.handlers && st.handlers[s].Gone?
    requires forall s :: s in st'.handlers && st'.handlers[s].ClosingOld? ==> s in st.handlers && st.handlers[s] == st'.handlers[s]
    ensures Inv(st')
  {
    HeldOnceFrame(st.slots.notifiers, st.names, st'.names, st.handlers, st'.handlers, st.chans);
    ReachFrame(st.slots.notifiers, st.handlers, st'.handlers, st.chans);
    HistoryFrame(st.slots.lastSeen, st.names, st'.names, st.handlers, st'.handlers);
    forall s | s in st'.names && Installed(st'.handlers, s)
      ensures Find(st.slots.sessions, st'.names[s]) == Some(s) || s in st'.closed || Doomed(st'.handlers, st.sweeps, s)
    {
      assert Installed(st.handlers, s) && s in st.names;
      if Doomed(st.handlers, st.sweeps, s) {
        DoomedFrame(st.handlers, st'.handlers, st.sweeps, s);
      }
    }
    BookkeepingFrame(st, st');
    forall service | service in st.slots.sessions
      ensures Installed(st'.handlers, st.slots.sessions[service])
    {}
  }

  lemma BookkeepingFrame(st: State, st': State)
    requires Bookkeeping(st.names, st.closed, st.handlers, st.sweeps) && st'.sweeps == st.sweeps
    requires SameFlight(st.handlers, st'.handlers) && Extends(st.names, st'.names) && st.closed <= st'.closed
    requires st.handlers.Keys == st.names.Keys
    requires forall s :: s in st'.handlers && st'.handlers[s].Gone? ==> s in st.handlers && st.handlers[s].Gone?
    requires forall s :: s in st'.handlers && st'.handlers[s].ClosingOld? ==> s in st.handlers && st.handlers[s] == st'.handlers[s]
    ensures Bookkeeping(st'.names, st'.closed, st'.handlers, st'.sweeps)
  {}

  lemma ConnectKeeps(st: State, s: SessionId, service: string)
    requires Inv(st) && s !in st.names
    ensures Inv(st.(names := st.names[s := service], handlers := st.handlers[s := Starting]))
  {
    var st' := st.(names := st.names[s := service], handlers := st.handlers[s := Starting]);
    FrameKeeps(st, st');
  }

  lemma WarmKeeps(st: State, s: SessionId)
    requires Inv(st) && At(st, s, Warming)
    ensures Inv(st.(warmed := st.warmed + {st.names[s]}, handlers := st.handlers[s := Serving]))
  {
    var st' := st.(warmed := st.warmed + {st.names[s]}, handlers := st.handlers[s := Serving]);
    assert Registered(st.names, st.handlers, s, st.names[s]);
    FrameKeeps(st, st');
  }

  // --- Register

  lemma RegisterHeld(st: State, s: SessionId, now: int)
    requires Inv(st) && At(st, s, Starting)
    ensures var st' := AfterRegister(st, s, now);
            && NotifiersOpen(st'.slots.notifiers, st'.chans)
            && HeldOnce(st'.slots.notifiers, st'.names, st'.handlers, st'.chans)
  {
    var st' := AfterRegister(st, s, now);
    forall t, c | Holds(st'.handlers, t, c)
      ensures && t in st.names && c in st.chans && st.chans[c] == Chan(st.names[t], 0)
              && Find(st'.slots.notifiers, st.names[t]) != Some(c)
              && (t != s ==> Holds(st.handlers, t, c))
              && (t == s ==> Find(st.slots.notifiers, st.names[s]) == Some(c))
    {
      if t != s { assert Holds(st.handlers, t, c); }
    }
  }

  lemma RegisterReach(st: State, s: SessionId, now: int)
    requires Inv(st) && At(st, s, Starting)
    ensures var st' := AfterRegister(st, s, now);
            ChannelsReach(st'.slots.notifiers, st'.handlers, st'.chans)
  {
    var st' := AfterRegister(st, s, now);
    forall c | c in st.chans && st.chans[c].closes != 1 && Find(st'.slots.notifiers, st.chans[c].service) != Some(c)
      ensures exists t :: Holds(st'.handlers, t, c)
    {
      if Find(st.slots.notifiers, st.chans[c].service) == Some(c) {
        assert Holds(st'.handlers, s, c);
      } else {
        var t :| Holds(st.handlers, t, c);
        assert Holds(st'.handlers, t, c);
      }
    }
  }

  lemma RegisterDisplaced(st: State, s: SessionId, now: int)
    requires Inv(st) && At(st, s, Starting)
    ensures var st' := AfterRegister(st, s, now);
            DisplacedClosed(st'.slots.sessions, st'.names, st'.closed, st'.handlers, st'.sweeps)
  {
    var st' := AfterRegister(st, s, now);
    forall t | t in st.names && Installed(st'.handlers, t) && t != s && t !in st.closed
      ensures Find(st'.slots.sessions, st.names[t]) == Some(t) || Doomed(st'.handlers, st.sweeps, t)
    {
      assert Installed(st.handlers, t);
      if Find(st.slots.sessions, st.names[t]) == Some(t) {
        if st.names[t] == st.names[s] { assert Displaces(st'.handlers, s, t); }
      } else if h :| Displaces(st.handlers, h, t) {
        assert Displaces(st'.handlers, h, t);
      }
    }
  }

  lemma RegisterBooks(st: State, s: SessionId, now: int)
    requires Inv(st) && At(st, s, Starting)
    ensures var st' := AfterRegister(st, s, now);
            && Bookkeeping(st'.names, st'.closed, st'.handlers, st'.sweeps)
            && OccupantsOwned(st'.slots.sessions, st'.names, st'.handlers)
            && HistoryExact(st'.slots.lastSeen, st'.names, st'.handlers)
  {
    var st' := AfterRegister(st, s, now);
    forall h, t | Displaces(st'.handlers, h, t)
      ensures h in st.names && t in st.names && Installed(st'.handlers, t) && st.names[t] == st.names[h]
    {
      if h != s { assert Displaces(st.handlers, h, t); }
    }
    forall t, service | Registered(st'.names, st'.handlers, t, service) ensures service in st'.slots.lastSeen {
      if t != s { assert Registered(st.names, st.handlers, t, service); }
    }
    forall service | service in st'.slots.lastSeen
      ensures exists t :: Registered(st'.names, st'.handlers, t, service)
    {
      if service == st.names[s] {
        assert Registered(st'.names, st'.handlers, s, service);
      } else {
        var t :| Registered(st.names, st.handlers, t, service);
        assert Registered(st'.names, st'.handlers, t, service);
      }
    }
  }

  lemma RegisterKeeps(st: State, s: SessionId, now: int)
    requires Inv(st) && At(st, s, Starting) && st.clock <= now
    ensures Inv(AfterRegister(st, s, now))
  {
    RegisterHeld(st, s, now);
    RegisterReach(st, s, now);
    RegisterDisplaced(st, s, now);
    RegisterBooks(st, s, now);
    ClockKeepsLookups(st, now);
  }

  lemma ClockKeepsLookups(st: State, now: int)
    requires Inv(st) && st.clock <= now
    ensures LookupsOk(st.lookups, st.chans, st.grace, now) && TimesPast(st.slots.lastSeen, now)
  {}

  // --- closing the displaced session, and the wake-up channel

  lemma CloseOldKeeps(st: State, s: SessionId)
    requires Inv(st) && s in st.handlers && st.handlers[s].ClosingOld?
    ensures Inv(AfterCloseOld(st, s))
  {
    var st' := AfterCloseOld(st, s);
    assert forall t, c :: Holds(st.handlers, t, c) <==> Holds(st'.handlers, t, c);
    assert forall t :: Installed(st.handlers, t) <==> Installed(st'.handlers, t);
    assert forall h, t :: Displaces(st'.handlers, h, t) ==> Displaces(st.handlers, h, t);
    CloseOldChannels(st, st', s);
    CloseOldDisplaced(st, s);
    CloseOldHistory(st, st', s);
  }

  lemma CloseOldChannels(st: State, st': State, s: SessionId)
    requires Inv(st) && s in st.handlers && st.handlers[s].ClosingOld? && st' == AfterCloseOld(st, s)
    ensures HeldOnce(st'.slots.notifiers, st'.names, st'.handlers, st'.chans)
    ensures ChannelsReach(st'.slots.notifiers, st'.handlers, st'.chans)
  {
    forall c | c in st.chans && st.chans[c].closes != 1 && Find(st.slots.notifiers, st.chans[c].service) != Some(c)
      ensures exists t :: Holds(st'.handlers, t, c)
    {
      var t :| Holds(st.handlers, t, c);
      assert Holds(st'.handlers, t, c);
    }
    assert forall t, c :: Holds(st'.handlers, t, c) ==> Holds(st.handlers, t, c);
  }

  lemma CloseOldDisplaced(st: State, s: SessionId)
    requires Inv(st) && s in st.handlers && st.handlers[s].ClosingOld?
    ensures var st' := AfterCloseOld(st, s);
            DisplacedClosed(st'.slots.sessions, st'.names, st'.closed, st'.handlers, st'.sweeps)
  {
    var st' := AfterCloseOld(st, s);
    forall t | t in st.names && Installed(st'.handlers, t) && t !in st'.closed
      ensures Find(st.slots.sessions, st.names[t]) == Some(t) || Doomed(st'.handlers, st.sweeps, t)
    {
      assert Installed(st.handlers, t);
      if h :| Displaces(st.handlers, h, t) {
        assert h != s;
        assert Displaces(st'.handlers, h, t);
      }
    }
  }

  lemma CloseOldHistory(st: State, st': State, s: SessionId)
    requires Inv(st) && s in st.handlers && st.handlers[s].ClosingOld? && st' == AfterCloseOld(st, s)
    ensures HistoryExact(st'.slots.lastSeen, st'.names, st'.handlers)
  {
    assert forall t, service :: Registered(st'.names, st'.handlers, t, service) <==> Registered(st.names, st.handlers, t, service);
  }

  lemma CloseChanKeeps(st: State, s: SessionId)
    requires Inv(st) && s in st.names && s in st.handlers && st.handlers[s].Waking?
    ensures Inv(AfterCloseChan(st, s))
  {
    var st' := AfterCloseChan(st, s);
    CloseChanChannels(st, s);
    CloseChanRest(st, s);
  }

  lemma CloseChanChannels(st: State, s: SessionId)
    requires Inv(st) && s in st.names && s in st.handlers && st.handlers[s].Waking?
    ensures var st' := AfterCloseChan(st, s);
            && NotifiersOpen(st'.slots.notifiers, st'.chans)
            && HeldOnce(st'.slots.notifiers, st'.names, st'.handlers, st'.chans)
            && ChannelsReach(st'.slots.notifiers, st'.handlers, st'.chans)
            && LookupsOk(st'.lookups, st'.chans, st'.grace, st'.clock)
  {
    var st' := AfterCloseChan(st, s);
    var ch := st.handlers[s].ch;
    if ch.Some? { assert Holds(st.handlers, s, ch.value); }
    assert forall t, c :: Holds(st'.handlers, t, c) ==> Holds(st.handlers, t, c) && t != s;
    forall c | c in st'.chans && st'.chans[c].closes != 1 && Find(st.slots.notifiers, st'.chans[c].service) != Some(c)
      ensures exists t :: Holds(st'.handlers, t, c)
    {
      var t :| Holds(st.handlers, t, c);
      assert t != s;
      assert Holds(st'.handlers, t, c);
    }
    forall p | p in st.lookups ensures LookupOk(st.lookups[p], st'.chans, st.grace, st.clock) {
      assert LookupOk(st.lookups[p], st.chans, st.grace, st.clock);
    }
  }

  lemma CloseChanRest(st: State, s: SessionId)
    requires Inv(st) && s in st.names && s in st.handlers && st.handlers[s].Waking?
    ensures var st' := AfterCloseChan(st, s);
            && DisplacedClosed(st'.slots.sessions, st'.names, st'.closed, st'.handlers, st'.sweeps)
            && Bookkeeping(st'.names, st'.closed, st'.handlers, st'.sweeps)
            && OccupantsOwned(st'.slots.sessions, st'.names, st'.handlers)
            && HistoryExact(st'.slots.lastSeen, st'.names, st'.handlers)
  {
    var st' := AfterCloseChan(st, s);
    assert forall h, t :: Displaces(st'.handlers, h, t) <==> Displaces(st.handlers, h, t);
    assert forall t :: Installed(st'.handlers, t) <==> Installed(st.handlers, t);
    assert forall t, service :: Registered(st'.names, st'.handlers, t, service) <==> Registered(st.names, st.handlers, t, service);
    assert forall t :: Doomed(st.handlers, st.sweeps, t) ==> Doomed(st'.handlers, st.sweeps, t);
  }

  // --- Unregister and CloseAll

  lemma UnregisterChannels(st: State, s: SessionId, now: int)
    requires Inv(st) && At(st, s, Serving) && s in st.closed
    ensures var hs := st.handlers[s := Gone];
            && HeldOnce(st.slots.notifiers, st.names, hs, st.chans)
            && ChannelsReach(st.slots.notifiers, hs, st.chans)
  {
    var hs := st.handlers[s := Gone];
    assert SameFlight(st.handlers, hs);
    HeldOnceFrame(st.slots.notifiers, st.names, st.names, st.handlers, hs, st.chans);
    ReachFrame(st.slots.notifiers, st.handlers, hs, st.chans);
  }

  lemma UnregisterDisplaced(st: State, s: SessionId, now: int)
    requires Inv(st) && At(st, s, Serving) && s in st.closed
    ensures DisplacedClosed(Evict(st.slots, st.names[s], s, now).sessions, st.names, st.closed, st.handlers[s := Gone], st.sweeps)
  {
    var hs := st.handlers[s := Gone];
    var slots := Evict(st.slots, st.names[s], s, now);
    assert SameFlight(st.handlers, hs);
    forall t | t in st.names && Installed(hs, t) && t !in st.closed
      ensures Find(slots.sessions, st.names[t]) == Some(t) || Doomed(hs, st.sweeps, t)
    {
      assert Installed(st.handlers, t);
      if Doomed(st.handlers, st.sweeps, t) { DoomedFrame(st.handlers, hs, st.sweeps, t); }
    }
  }

  lemma UnregisterRest(st: State, s: SessionId, now: int)
    requires Inv(st) && At(st, s, Serving) && s in st.closed
    ensures var hs := st.handlers[s := Gone];
            var slots := Evict(st.slots, st.names[s], s, now);
            && Bookkeeping(st.names, st.closed, hs, st.sweeps)
            && OccupantsOwned(slots.sessions, st.names, hs)
            && HistoryExact(slots.lastSeen, st.names, hs)
  {
    var hs := st.handlers[s := Gone];
    var slots := Evict(st.slots, st.names[s], s, now);
    assert SameFlight(st.handlers, hs);
    assert Registered(st.names, st.handlers, s, st.names[s]);
    assert slots.lastSeen.Keys == st.slots.lastSeen.Keys;
    HistoryFrame(st.slots.lastSeen, st.names, st.names, st.handlers, hs);
  }

  lemma UnregisterKeeps(st: State, s: SessionId, now: int)
    requires Inv(st) && At(st, s, Serving) && s in st.closed && st.clock <= now
    ensures Inv(st.(slots := Evict(st.slots, st.names[s], s, now), clock := now, handlers := st.handlers[s := Gone]))
  {
    UnregisterChannels(st, s, now);
    UnregisterDisplaced(st, s, now);
    UnregisterRest(st, s, now);
    ClockKeepsLookups(st, now);
    assert Registered(st.names, st.handlers, s, st.names[s]);
  }

  lemma CloseAllKeeps(st: State, p: CallId)
    requires Inv(st) && p !in st.sweeps
    ensures Inv(st.(slots := st.slots.(sessions := map[]), sweeps := st.sweeps[p := st.slots.sessions.Values]))
  {
    var sweeps := st.sweeps[p := st.slots.sessions.Values];
    forall t | t in st.names && Installed(st.handlers, t) && t !in st.closed ensures Doomed(st.handlers, sweeps, t) {
      if Find(st.slots.sessions, st.names[t]) == Some(t) {
        assert st.slots.sessions[st.names[t]] in st.slots.sessions.Values;
        assert Sweeps(sweeps, p, t);
      } else if q :| Sweeps(st.sweeps, q, t) {
        assert Sweeps(sweeps, q, t);
      }
    }
    forall q, t | Sweeps(sweeps, q, t) ensures t in st.names && Installed(st.handlers, t) {
      if q != p { assert Sweeps(st.sweeps, q, t); }
    }
  }

  lemma CloseSweptKeeps(st: State, p: CallId, s: SessionId)
    requires Inv(st) && p in st.sweeps && s in st.sweeps[p]
    ensures Inv(st.(closed := st.closed + {s}, sweeps := st.sweeps[p := st.sweeps[p] - {s}]))
  {
    var sweeps := st.sweeps[p := st.sweeps[p] - {s}];
    forall t | t in st.names && Installed(st.handlers, t) && t !in st.closed + {s}
      ensures Find(st.slots.sessions, st.names[t]) == Some(t) || Doomed(st.handlers, sweeps, t)
    {
      if q :| Sweeps(st.sweeps, q, t) { assert Sweeps(sweeps, q, t); }
    }
    forall q, t | Sweeps(sweeps, q, t) ensures t in st.names && Installed(st.handlers, t) {
      assert Sweeps(st.sweeps, q, t);
    }
  }

  // --- Lookup

  /** The state once the channel of a waiting lookup exists. */
  ghost function WithChannel(st: State, service: string, spare: ChanId): State {
    if service in st.slots.notifiers then st
    else st.(slots := st.slots.(notifiers := st.slots.notifiers[service := spare]),
             chans := st.chans[spare := Chan(service, 0)])
  }

  lemma NewChannel(notifiers: map<string, ChanId>, names: Names, handlers: Handlers, chans: map<ChanId, Chan>,
                   service: string, spare: ChanId)
    requires NotifiersOpen(notifiers, chans) && HeldOnce(notifiers, names, handlers, chans)
    requires ChannelsReach(notifiers, handlers, chans)
    requires service !in notifiers && spare !in chans
    ensures var notifiers', chans' := notifiers[service := spare], chans[spare := Chan(service, 0)];
            && NotifiersOpen(notifiers', chans') && HeldOnce(notifiers', names, handlers, chans')
            && ChannelsReach(notifiers', handlers, chans')
  {}

  lemma WithChannelKeeps(st: State, service: string, spare: ChanId)
    requires Inv(st) && service !in st.slots.sessions && spare !in st.chans
    ensures Inv(WithChannel(st, service, spare))
  {
    if service !in st.slots.notifiers {
      NewChannel(st.slots.notifiers, st.names, st.handlers, st.chans, service, spare);
      var st' := WithChannel(st, service, spare);
      forall q | q in st.lookups ensures LookupOk(st.lookups[q], st'.chans, st.grace, st.clock) {
        assert LookupOk(st.lookups[q], st.chans, st.grace, st.clock);
      }
    }
  }

  lemma MoveKeeps(st: State, now: int, p: CallId, l: Lookup)
    requires Inv(st) && st.clock <= now && LookupOk(l, st.chans, st.grace, now)
    ensures Inv(Move(st.(clock := now), p, l))
  {}

  lemma LookupShape(st: State, p: CallId, first: int, second: int, spare: ChanId)
    requires Enabled(st, LookupLocked(p, first, second, spare))
    ensures var l := AfterLookupLocked(st, p, first, second, spare).lookups[p];
            var mid := if l.Deciding? then WithChannel(st, l.service, spare) else st;
            && AfterLookupLocked(st, p, first, second, spare) == Move(mid.(clock := second), p, l)
            && (l.Deciding? ==> l.service !in st.slots.sessions)
  {
    var l := AfterLookupLocked(st, p, first, second, spare).lookups[p];
    if l.Deciding? && l.service in st.slots.notifiers {
      assert st.slots.notifiers[l.service := l.ch] == st.slots.notifiers;
    }
  }

  lemma LookupEntryOk(st: State, p: CallId, first: int, second: int, spare: ChanId)
    requires Enabled(st, LookupLocked(p, first, second, spare))
    requires NotifiersOpen(st.slots.notifiers, st.chans) && TimesPast(st.slots.lastSeen, st.clock)
    ensures var st' := AfterLookupLocked(st, p, first, second, spare);
            LookupOk(st'.lookups[p], st'.chans, st.grace, second)
  {
    var service := st.lookups[p].service;
    var e := LookupEntry(st.slots, st.grace, service, first, second, spare);
    if e.Wait? {
      assert st.slots.lastSeen[service] <= st.clock;
      if service in st.slots.notifiers { assert st.chans[e.ch].service == service; }
    }
  }

  lemma LookupKeeps(st: State, p: CallId, first: int, second: int, spare: ChanId)
    requires Inv(st) && Enabled(st, LookupLocked(p, first, second, spare))
    ensures Inv(AfterLookupLocked(st, p, first, second, spare))
  {
    LookupShape(st, p, first, second, spare);
    LookupEntryOk(st, p, first, second, spare);
    var st' := AfterLookupLocked(st, p, first, second, spare);
    var l := st'.lookups[p];
    if l.Deciding? {
      WithChannelKeeps(st, l.service, spare);
      MoveKeeps(WithChannel(st, l.service, spare), second, p, l);
    } else {
      MoveKeeps(st, second, p, l);
    }
  }

  lemma StepKeeps(st: State, step: Step)
    requires Inv(st) && Enabled(st, step)
    ensures Inv(Apply(st, step))
  {
    match step
    case Tick(now) => ClockKeepsLookups(st, now);
    case Connect(s, service) => ConnectKeeps(st, s, service);
    case RegisterLocked(s, now) => RegisterKeeps(st, s, now);
    case CloseOld(s) => CloseOldKeeps(st, s);
    case CloseChan(s) => CloseChanKeeps(st, s);
    case Warm(s) => WarmKeeps(st, s);
    case WatchClose(s) => WatchKeeps(st, s);
    case UnregisterLocked(s, now) => UnregisterKeeps(st, s, now);
    case CloseAllLocked(p) => CloseAllKeeps(st, p);
    case CloseSwept(p, s) => CloseSweptKeeps(st, p, s);
    case _ => CallStepKeeps(st, step);
  }

  lemma WatchKeeps(st: State, s: SessionId)
    requires Inv(st)
    ensures Inv(st.(closed := st.closed + {s}))
  {}

  lemma CallStepKeeps(st: State, step: Step)
    requires Inv(st) && Enabled(st, step)
    requires step.Call? || step.LookupLocked? || step.Arm? || step.WakeUp? || step.Timeout? || step.Cancel? || step.RecheckLocked?
    ensures Inv(Apply(st, step))
  {
    match step
    case LookupLocked(p, first, second, spare) => LookupKeeps(st, p, first, second, spare);
    case Arm(p, now) =>
      assert LookupOk(st.lookups[p], st.chans, st.grace, st.clock);
      MoveKeeps(st, now, p, Apply(st, step).lookups[p]);
    case Call(p, service) => MoveKeeps(st, st.clock, p, Entering(service));
    case WakeUp(p) => MoveKeeps(st, st.clock, p, Woken(st.lookups[p].service));
    case Timeout(p) => MoveKeeps(st, st.clock, p, Returned(st.lookups[p].service, NoClient));
    case Cancel(p) => MoveKeeps(st, st.clock, p, Returned(st.lookups[p].service, Cancelled));
    case RecheckLocked(p) => MoveKeeps(st, st.clock, p, Apply(st, step).lookups[p]);
  }

  /** Every reachable state satisfies the invariant. */
  lemma ReachableInv(grace: int, steps: seq<Step>)
    requires Runs(Init(grace), steps)
    ensures Inv(Exec(Init(grace), steps))
  {
    forall st, step | Inv(st) && Enabled(st, step) ensures Inv(Next(st, step)) { StepKeeps(st, step); }
    Tr.Invariant(Machine(), Inv, Init(grace), steps);
  }
}
