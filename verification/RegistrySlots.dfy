/** The critical sections of server/registry.go, as functions of the three maps
    that the registry's mutex guards. S is the identity of a session, C that of
    a wake-up channel. */
module RegistrySlots {
  import opened Options

  datatype Slots<S, C> = Slots(
    sessions: map<string, S>,
    notifiers: map<string, C>,
    lastSeen: map<string, int>)

  /** Register, between Lock and Unlock. */
  function Install<S, C>(r: Slots<S, C>, service: string, s: S, now: int): Slots<S, C> {
    Slots(r.sessions[service := s], r.notifiers - {service}, r.lastSeen[service := now])
  }

  /** Unregister, between Lock and Unlock: only the current occupant leaves. */
  function Evict<S(==), C>(r: Slots<S, C>, service: string, s: S, now: int): Slots<S, C> {
    if Find(r.sessions, service) == Some(s)
    then Slots(r.sessions - {service}, r.notifiers, r.lastSeen[service := now])
    else r
  }

  /** What the first critical section of Lookup decides. */
  datatype Entry<S, C> =
    | Hit(session: S)
    | Miss
    | Wait(ch: C, last: int, remaining: int)

  /** `first` and `second` are the two clock readings, `spare` the channel made
      when the service has none. */
  function LookupEntry<S, C>(r: Slots<S, C>, grace: int, service: string, first: int, second: int, spare: C): Entry<S, C> {
    if service in r.sessions then Hit(r.sessions[service])
    else if service !in r.lastSeen || first - r.lastSeen[service] > grace then Miss
    else
      var last := r.lastSeen[service];
      Wait(if service in r.notifiers then r.notifiers[service] else spare, last, grace - (second - last))
  }

  function AfterLookup<S, C>(r: Slots<S, C>, service: string, e: Entry<S, C>): Slots<S, C> {
    if e.Wait? then r.(notifiers := r.notifiers[service := e.ch]) else r
  }

  predicate HasService<S, C>(r: Slots<S, C>, service: string) {
    service in r.sessions || service in r.lastSeen
  }
}
