/** The session registry as a protocol: every activation of handleControl,
    Lookup and CloseAll has a program counter, every critical section is one
    step, and so is every action outside the lock. Steps interleave freely. */
module RegistryProtocol {
  import opened Options
  import opened RegistrySlots
  import Tr = Transition

  type SessionId = nat
  type ChanId = nat
  type CallId = nat

  /** A wake-up channel; a second close would panic. */
  datatype Chan = Chan(service: string, closes: nat)

  /** handleControl from the creation of its session on. */
  datatype Handler =
    | Starting
    | ClosingOld(prev: Option<SessionId>, ch: Option<ChanId>)
    | Waking(ch: Option<ChanId>)
    | Warming
    | Serving
    | Gone

  datatype Outcome = Found(session: SessionId) | NoClient | Cancelled

  datatype Lookup =
    | Entering(service: string)
    | Deciding(service: string, ch: ChanId, last: int, readAt: int, remaining: int)
    | Parked(service: string, ch: ChanId, last: int, readAt: int, armedAt: int, deadline: int)
    | Woken(service: string)
    | Returned(service: string, outcome: Outcome)

  /** `names` gives each session its service; `closed` holds the sessions whose
      closed channel is closed. Session.Close runs once, and closing the
      multiplexer first is indistinguishable from the multiplexer dying, so
      Close is the one step that closes that channel. */
  datatype State = State(
    grace: int,
    clock: int,
    slots: Slots<SessionId, ChanId>,
    names: map<SessionId, string>,
    closed: set<SessionId>,
    handlers: map<SessionId, Handler>,
    chans: map<ChanId, Chan>,
    lookups: map<CallId, Lookup>,
    sweeps: map<CallId, set<SessionId>>,
    warmed: set<string>)

  function Init(grace: int): State {
    State(grace, 0, Slots(map[], map[], map[]), map[], {}, map[], map[], map[], map[], {})
  }

  datatype Step =
    | Tick(now: int)
    | Connect(s: SessionId, service: string)
    | RegisterLocked(s: SessionId, now: int)
    | CloseOld(s: SessionId)
    | CloseChan(s: SessionId)
    | Warm(s: SessionId)
    | WatchClose(s: SessionId)
    | UnregisterLocked(s: SessionId, now: int)
    | Call(p: CallId, service: string)
    | LookupLocked(p: CallId, first: int, second: int, spare: ChanId)
    | Arm(p: CallId, now: int)
    | WakeUp(p: CallId)
    | Timeout(p: CallId)
    | Cancel(p: CallId)
    | RecheckLocked(p: CallId)
    | CloseAllLocked(p: CallId)
    | CloseSwept(p: CallId, s: SessionId)

  ghost predicate At(st: State, s: SessionId, h: Handler) {
    s in st.names && s in st.handlers && st.handlers[s] == h
  }

  ghost predicate Enabled(st: State, step: Step) {
    match step
    case Tick(now) => st.clock <= now
    case Connect(s, _) => s !in st.names
    case RegisterLocked(s, now) => At(st, s, Starting) && st.clock <= now
    case CloseOld(s) => s in st.names && s in st.handlers && st.handlers[s].ClosingOld?
    case CloseChan(s) => s in st.names && s in st.handlers && st.handlers[s].Waking?
    case Warm(s) => At(st, s, Warming)
    case WatchClose(s) => At(st, s, Serving)
    case UnregisterLocked(s, now) => At(st, s, Serving) && s in st.closed && st.clock <= now
    case Call(p, _) => p !in st.lookups
    case LookupLocked(p, first, second, spare) =>
      p in st.lookups && st.lookups[p].Entering? && st.clock <= first <= second && spare !in st.chans
    case Arm(p, now) => p in st.lookups && st.lookups[p].Deciding? && st.clock <= now
    case WakeUp(p) =>
      && p in st.lookups && st.lookups[p].Parked?
      && st.lookups[p].ch in st.chans && st.chans[st.lookups[p].ch].closes > 0
    case Timeout(p) => p in st.lookups && st.lookups[p].Parked? && st.lookups[p].deadline <= st.clock
    case Cancel(p) => p in st.lookups && st.lookups[p].Parked?
    case RecheckLocked(p) => p in st.lookups && st.lookups[p].Woken?
    case CloseAllLocked(p) => p !in st.sweeps
    case CloseSwept(p, s) => p in st.sweeps && s in st.sweeps[p]
  }

  ghost function Apply(st: State, step: Step): State
    requires Enabled(st, step)
  {
    match step
    case Tick(now) => st.(clock := now)
    case Connect(s, service) => st.(names := st.names[s := service], handlers := st.handlers[s := Starting])
    case RegisterLocked(s, now) => AfterRegister(st, s, now)
    case CloseOld(s) => AfterCloseOld(st, s)
    case CloseChan(s) => AfterCloseChan(st, s)
    case Warm(s) => st.(warmed := st.warmed + {st.names[s]}, handlers := st.handlers[s := Serving])
    case WatchClose(s) => st.(closed := st.closed + {s})
    case UnregisterLocked(s, now) =>
      st.(slots := Evict(st.slots, st.names[s], s, now), clock := now, handlers := st.handlers[s := Gone])
    case Call(p, service) => Move(st, p, Entering(service))
    case LookupLocked(p, first, second, spare) => AfterLookupLocked(st, p, first, second, spare)
    case Arm(p, now) =>
      var l := st.lookups[p];
      Move(st.(clock := now), p,
           if l.remaining <= 0 then Returned(l.service, NoClient)
           else Parked(l.service, l.ch, l.last, l.readAt, now, now + l.remaining))
    case WakeUp(p) => Move(st, p, Woken(st.lookups[p].service))
    case Timeout(p) => Move(st, p, Returned(st.lookups[p].service, NoClient))
    case Cancel(p) => Move(st, p, Returned(st.lookups[p].service, Cancelled))
    case RecheckLocked(p) =>
      var service := st.lookups[p].service;
      Move(st, p, Returned(service, if service in st.slots.sessions then Found(st.slots.sessions[service]) else NoClient))
    case CloseAllLocked(p) =>
      st.(slots := st.slots.(sessions := map[]), sweeps := st.sweeps[p := st.slots.sessions.Values])
    case CloseSwept(p, s) => st.(closed := st.closed + {s}, sweeps := st.sweeps[p := st.sweeps[p] - {s}])
  }

  ghost function Move(st: State, p: CallId, l: Lookup): State {
    st.(lookups := st.lookups[p := l])
  }

  ghost function AfterRegister(st: State, s: SessionId, now: int): State
    requires s in st.names
  {
    var service := st.names[s];
    st.(slots := Install(st.slots, service, s, now),
        clock := now,
        handlers := st.handlers[s := ClosingOld(Find(st.slots.sessions, service), Find(st.slots.notifiers, service))])
  }

  ghost function AfterCloseOld(st: State, s: SessionId): State
    requires s in st.handlers && st.handlers[s].ClosingOld?
  {
    var h := st.handlers[s];
    st.(closed := if h.prev.Some? && h.prev.value != s then st.closed + {h.prev.value} else st.closed,
        handlers := st.handlers[s := Waking(h.ch)])
  }

  ghost function AfterCloseChan(st: State, s: SessionId): State
    requires s in st.handlers && st.handlers[s].Waking?
  {
    st.(chans := Closed(st.chans, st.handlers[s].ch), handlers := st.handlers[s := Warming])
  }

  ghost function Closed(chans: map<ChanId, Chan>, ch: Option<ChanId>): map<ChanId, Chan> {
    if ch.Some? && ch.value in chans
    then chans[ch.value := chans[ch.value].(closes := chans[ch.value].closes + 1)]
    else chans
  }

  ghost function AfterLookupLocked(st: State, p: CallId, first: int, second: int, spare: ChanId): State
    requires p in st.lookups && st.lookups[p].Entering?
  {
    var service := st.lookups[p].service;
    var e := LookupEntry(st.slots, st.grace, service, first, second, spare);
    var st' := st.(slots := AfterLookup(st.slots, service, e), clock := second);
    match e
    case Hit(s) => Move(st', p, Returned(service, Found(s)))
    case Miss => Move(st', p, Returned(service, NoClient))
    case Wait(ch, last, remaining) =>
      Move(if service in st.slots.notifiers then st' else st'.(chans := st.chans[spare := Chan(service, 0)]),
           p, Deciding(service, ch, last, second, remaining))
  }

  // ---------------------------------------------------------------------
  // Runs.

  ghost function Next(st: State, step: Step): State {
    if Enabled(st, step) then Apply(st, step) else st
  }

  ghost function Machine(): Tr.Machine<State, Step> {
    Tr.Machine(Enabled, Next)
  }

  ghost predicate Runs(st: State, steps: seq<Step>) {
    Tr.Runs(Machine(), st, steps)
  }

  ghost function Exec(st: State, steps: seq<Step>): State {
    Tr.Exec(Machine(), st, steps)
  }
}
