/** server/registry.go and server/session.go as objects. Each critical section
    has exactly the effect that the protocol's steps use. */
module Registry {
  import opened Options
  import opened RegistrySlots

  /** A wake-up channel: closing it twice would panic. */
  class Notifier {
    var closed: bool

    constructor ()
      ensures !closed
    {
      closed := false;
    }

    method Close()
      requires !closed
      modifies this
      ensures closed
    {
      closed := true;
    }
  }

  class Session {
    const service: string
    var once: bool
    var muxClosed: bool
    /** How often the closed channel has been closed. */
    var closes: nat

    ghost predicate Valid() reads this {
      if once then closes == 1 && muxClosed else closes == 0
    }

    constructor (service: string)
      ensures Valid() && !once && this.service == service
    {
      this.service := service;
      once, muxClosed, closes := false, false, 0;
    }

    /** However often it is called, the channel is closed exactly once. */
    method Close()
      requires Valid()
      modifies this
      ensures Valid() && once
    {
      if !once {
        once := true;
        muxClosed := true;
        closes := closes + 1;
      }
    }
  }

  class Registry {
    const grace: int
    var sessions: map<string, Session>
    var notifiers: map<string, Notifier>
    var lastSeen: map<string, int>

    ghost function View(): Slots<Session, Notifier> reads this {
      Slots(sessions, notifiers, lastSeen)
    }

    ghost predicate Valid() reads this, sessions.Values, notifiers.Values {
      && (forall service :: service in sessions ==> sessions[service].Valid() && sessions[service].service == service)
      && (forall service :: service in notifiers ==> !notifiers[service].closed)
      && (forall a, b :: a in notifiers && b in notifiers && a != b ==> notifiers[a] != notifiers[b])
      && sessions.Keys !! notifiers.Keys
      && sessions.Keys <= lastSeen.Keys
    }

    constructor (grace: int)
      ensures Valid() && this.grace == grace && View() == Slots(map[], map[], map[])
    {
      this.grace := grace;
      sessions, notifiers, lastSeen := map[], map[], map[];
    }

    /** Last writer wins: the new session takes the slot, the one it displaces is
        closed, and whoever waited for the service is woken. */
    method Register(s: Session, now: int)
      requires Valid() && s.Valid()
      modifies this, sessions.Values, notifiers.Values
      ensures Valid() && View() == Install(old(View()), s.service, s, now)
      ensures s.service in old(sessions) && old(sessions)[s.service] != s ==> old(sessions)[s.service].once
      ensures s.service in old(notifiers) ==> old(notifiers)[s.service].closed
      ensures forall t :: t in old(sessions).Values && Some(t) != Find(old(sessions), s.service) ==> unchanged(t)
      ensures unchanged(s)
      ensures forall c :: c in old(notifiers).Values && Some(c) != Find(old(notifiers), s.service) ==> unchanged(c)
    {
      var service := s.service;
      var prev := Find(sessions, service);
      sessions := sessions[service := s];
      lastSeen := lastSeen[service := now];
      var ch := Find(notifiers, service);
      notifiers := notifiers - {service};
      if prev.Some? && prev.value != s {
        prev.value.Close();
      }
      if ch.Some? {
        ch.value.Close();
      }
    }

    /** A stale unregister, after a takeover, changes nothing. */
    method Unregister(s: Session, now: int) returns (current: bool)
      requires Valid()
      modifies this
      ensures Valid() && View() == Evict(old(View()), s.service, s, now)
      ensures current <==> Find(old(sessions), s.service) == Some(s)
      ensures !current ==> unchanged(this)
      ensures forall t: Session :: t in old(sessions).Values && t != s ==> t in sessions.Values
    {
      current := s.service in sessions && sessions[s.service] == s;
      if current {
        sessions := sessions - {s.service};
        lastSeen := lastSeen[s.service := now];
      }
      forall t: Session | t in old(sessions).Values && t != s ensures t in sessions.Values {
        var service :| service in old(sessions) && old(sessions)[service] == t;
        assert service in sessions && sessions[service] == t;
      }
    }

    /** The first critical section of Lookup. */
    method LookupLocked(service: string, first: int, second: int) returns (entry: Entry<Session, Notifier>)
      requires Valid()
      modifies this
      ensures Valid()
      ensures entry.Wait? && service !in old(notifiers) ==> fresh(entry.ch)
      ensures entry.Hit? <==> service in sessions
      ensures entry.Hit? ==> entry.session == sessions[service]
      ensures entry.Miss? <==> service !in sessions && (service !in lastSeen || first - lastSeen[service] > grace)
      ensures entry.Wait? ==> entry.last == lastSeen[service] && entry.remaining == lastSeen[service] + grace - second
      ensures entry.Wait? && service in old(notifiers) ==> entry.ch == old(notifiers)[service]
      ensures entry.Wait? ==> entry == LookupEntry(old(View()), grace, service, first, second, entry.ch)
      ensures View() == AfterLookup(old(View()), service, entry)
    {
      if service in sessions {
        return Hit(sessions[service]);
      }
      if service !in lastSeen || first - lastSeen[service] > grace {
        return Miss;
      }
      var last := lastSeen[service];
      if service !in notifiers {
        var ch := new Notifier();
        notifiers := notifiers[service := ch];
      } else {
        assert notifiers == notifiers[service := notifiers[service]];
      }
      entry := Wait(notifiers[service], last, grace - (second - last));
    }

    method HasService(service: string) returns (known: bool)
      requires Valid()
      ensures known <==> service in lastSeen
    {
      if service in sessions {
        return true;
      }
      known := service in lastSeen;
    }

    /** Empties every slot and closes every session that was in one. */
    method CloseAll()
      requires Valid()
      modifies this, sessions.Values
      ensures Valid() && View() == old(View()).(sessions := map[])
      ensures forall s :: s in old(sessions).Values ==> s.once && s.Valid()
    {
      ghost var all := sessions.Values;
      var sess := sessions.Values;
      sessions := map[];
      while sess != {}
        modifies all
        invariant sess <= all
        invariant forall s :: s in all ==> s.Valid() && (s !in sess ==> s.once)
        decreases sess
      {
        var s :| s in sess;
        s.Close();
        sess := sess - {s};
      }
    }
  }
}
