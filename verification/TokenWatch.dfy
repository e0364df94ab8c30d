/** The watch loop of server/reload.go as an event machine: file events are
    debounced by one timer, SIGHUP reloads at once. Times are in milliseconds. */
module TokenWatch {
  import opened Options
  import Tr = Transition

  const DELAY := 150

  /** What the loop has done: file events it accepted, and reloads. */
  datatype Entry =
    | Accepted(at: int)
    | DebounceReload(at: int)
    | HupReload(at: int)

  /** `armed` is the deadline of the running timer; `fired` means its firing has
      not been received yet. */
  datatype Watch = Watch(now: int, pending: bool, armed: Option<int>, fired: bool, stopped: bool, log: seq<Entry>)

  function Initial(): Watch {
    Watch(0, false, None, false, false, [])
  }

  datatype Step =
    | Tick(now: int)
    | FileEvent(qualifies: bool)
    | Hup
    | WatchError
    | TimerFires
    | Debounce
    | Stop

  predicate Enabled(w: Watch, step: Step) {
    match step
    case Tick(now) => w.now <= now
    case TimerFires => w.armed.Some? && w.armed.value <= w.now
    case Debounce => !w.stopped && w.fired
    case _ => !w.stopped
  }

  function Triggered(w: Watch): Watch {
    if w.pending then w else w.(pending := true, armed := Some(w.now + DELAY))
  }

  function Apply(w: Watch, step: Step): Watch
    requires Enabled(w, step)
  {
    match step
    case Tick(now) => w.(now := now)
    case FileEvent(qualifies) => if qualifies then Triggered(w).(log := w.log + [Accepted(w.now)]) else w
    case Hup => w.(log := w.log + [HupReload(w.now)])
    case WatchError => w
    case TimerFires => w.(armed := None, fired := true)
    case Debounce => w.(pending := false, fired := false, log := w.log + [DebounceReload(w.now)])
    case Stop => w.(stopped := true)
  }

  function Next(w: Watch, step: Step): Watch {
    if Enabled(w, step) then Apply(w, step) else w
  }

  function Machine(): Tr.Machine<Watch, Step> {
    Tr.Machine(Enabled, Next)
  }

  ghost predicate Runs(w: Watch, steps: seq<Step>) {
    Tr.Runs(Machine(), w, steps)
  }

  ghost function Exec(w: Watch, steps: seq<Step>): Watch {
    Tr.Exec(Machine(), w, steps)
  }

  /** A firing of the timer is still to be received. */
  predicate Outstanding(w: Watch) {
    w.armed.Some? || w.fired
  }

  ghost predicate ReloadedAfter(log: seq<Entry>, i: nat) {
    exists j :: i < j < |log| && log[j].DebounceReload?
  }

  /** Debounce reloads are at least the delay apart. */
  ghost predicate Spaced(log: seq<Entry>) {
    forall i, j :: 0 <= i < j < |log| && log[i].DebounceReload? && log[j].DebounceReload? ==>
      log[i].at + 150 <= log[j].at
  }

  ghost predicate Inv(w: Watch) {
    && (w.pending <==> Outstanding(w)) && !(w.armed.Some? && w.fired)
    && (w.armed.Some? ==> w.armed.value <= w.now + DELAY)
    && (forall i :: 0 <= i < |w.log| ==> w.log[i].at <= w.now)
    && Spaced(w.log)
    && (forall i :: 0 <= i < |w.log| && w.log[i].DebounceReload? ==>
          && (w.armed.Some? ==> w.log[i].at + DELAY <= w.armed.value)
          && (w.fired ==> w.log[i].at + DELAY <= w.now))
    && (forall i :: 0 <= i < |w.log| && w.log[i].Accepted? && !ReloadedAfter(w.log, i) ==>
          && w.pending
          && (w.armed.Some? ==> w.armed.value <= w.log[i].at + DELAY))
  }

  lemma AppendKeepsReloads(log: seq<Entry>, e: Entry, i: nat)
    requires i < |log|
    ensures ReloadedAfter(log + [e], i) <==> ReloadedAfter(log, i) || e.DebounceReload?
  {
    var more := log + [e];
    if ReloadedAfter(log, i) {
      var j :| i < j < |log| && log[j].DebounceReload?;
      assert more[j].DebounceReload?;
    }
    if e.DebounceReload? { assert more[|log|].DebounceReload?; }
  }

  lemma StepKeeps(w: Watch, step: Step)
    requires Inv(w) && Enabled(w, step)
    ensures Inv(Apply(w, step))
  {
    var w' := Apply(w, step);
    if |w'.log| > |w.log| {
      var e := w'.log[|w.log|];
      assert w'.log == w.log + [e];
      forall i: nat | i < |w.log| ensures ReloadedAfter(w'.log, i) <==> ReloadedAfter(w.log, i) || e.DebounceReload? {
        AppendKeepsReloads(w.log, e, i);
      }
    }
  }

  lemma ReachableInv(steps: seq<Step>)
    requires Runs(Initial(), steps)
    ensures Inv(Exec(Initial(), steps))
  {
    forall w, step | Inv(w) && Enabled(w, step) ensures Inv(Next(w, step)) { StepKeeps(w, step); }
    Tr.Invariant(Machine(), Inv, Initial(), steps);
  }

  /** What the running loop does with each thing it receives: a file event that
      qualifies is accepted and arms the timer unless one is pending, a SIGHUP
      reloads at once, the rest changes nothing but a stop. */
  lemma LoopReacts(w: Watch)
    requires !w.stopped
    ensures Enabled(w, FileEvent(true)) && Enabled(w, FileEvent(false)) && Enabled(w, Hup) && Enabled(w, WatchError) && Enabled(w, Stop)
    ensures Apply(w, Hup) == w.(log := w.log + [HupReload(w.now)])
    ensures Apply(w, WatchError) == w && Apply(w, FileEvent(false)) == w
    ensures Apply(w, Stop) == w.(stopped := true)
    ensures var e := Apply(w, FileEvent(true));
            && e.log == w.log + [Accepted(w.now)] && e.pending
            && (w.pending ==> e == w.(log := e.log))
            && (!w.pending ==> e == w.(log := e.log, pending := true, armed := Some(w.now + 150)))
  {}

  /** `pending` says exactly that a firing is outstanding, stopped or not. */
  lemma PendingIsOutstanding(steps: seq<Step>)
    requires Runs(Initial(), steps)
    ensures Exec(Initial(), steps).pending <==> Outstanding(Exec(Initial(), steps))
  {
    ReachableInv(steps);
  }

  /** Every accepted event has been followed by a debounce reload or has a firing
      outstanding, armed for no later than the delay after the event. */
  lemma NoEventLost(steps: seq<Step>, i: nat)
    requires Runs(Initial(), steps)
    requires i < |Exec(Initial(), steps).log| && Exec(Initial(), steps).log[i].Accepted?
    ensures var w := Exec(Initial(), steps);
            || ReloadedAfter(w.log, i)
            || w.fired
            || (w.armed.Some? && w.armed.value <= w.log[i].at + 150)
  {
    ReachableInv(steps);
  }

  /** Debounce reloads are at least the delay apart, over every run. */
  lemma ReloadsSpaced(steps: seq<Step>)
    requires Runs(Initial(), steps)
    ensures Spaced(Exec(Initial(), steps).log)
  {
    ReachableInv(steps);
  }

  /** An accepted event that opened a burst: no debounce reload lies between it
      and place i of the log, and its delay is over by time t. */
  ghost predicate Opened(log: seq<Entry>, j: nat, i: nat, t: int) {
    && j < i <= |log| && log[j].Accepted? && log[j].at + 150 <= t
    && forall k :: j < k < i ==> !log[k].DebounceReload?
  }

  ghost predicate Caused(w: Watch) {
    && (w.armed.Some? ==> exists j :: Opened(w.log, j, |w.log|, w.armed.value))
    && (w.fired ==> exists j :: Opened(w.log, j, |w.log|, w.now))
    && (forall i :: 0 <= i < |w.log| && w.log[i].DebounceReload? ==> exists j :: Opened(w.log, j, i, w.log[i].at))
  }

  lemma OpenedStays(log: seq<Entry>, e: Entry, j: nat, i: nat, t: int)
    requires Opened(log, j, i, t)
    ensures Opened(log + [e], j, i, t)
    ensures i == |log| && !e.DebounceReload? ==> Opened(log + [e], j, i + 1, t)
  {}

  lemma PastStaysCaused(w: Watch, w': Watch)
    requires Caused(w) && (w'.log == w.log || exists e :: w'.log == w.log + [e])
    ensures forall i :: 0 <= i < |w.log| && w'.log[i].DebounceReload? ==> exists j :: Opened(w'.log, j, i, w'.log[i].at)
  {
    forall i: nat | i < |w.log| && w'.log[i].DebounceReload? ensures exists j :: Opened(w'.log, j, i, w'.log[i].at) {
      var j :| Opened(w.log, j, i, w.log[i].at);
      if w'.log != w.log {
        var e :| w'.log == w.log + [e];
        OpenedStays(w.log, e, j, i, w.log[i].at);
      }
      assert Opened(w'.log, j, i, w'.log[i].at);
    }
  }

  /** A log entry that is no debounce reload leaves outstanding firings caused. */
  lemma EntryKeepsCaused(w: Watch, e: Entry)
    requires Caused(w) && !e.DebounceReload?
    ensures Caused(w.(log := w.log + [e]))
  {
    var w' := w.(log := w.log + [e]);
    PastStaysCaused(w, w');
    if w.armed.Some? {
      var j :| Opened(w.log, j, |w.log|, w.armed.value);
      OpenedStays(w.log, e, j, |w.log|, w.armed.value);
    }
    if w.fired {
      var j :| Opened(w.log, j, |w.log|, w.now);
      OpenedStays(w.log, e, j, |w.log|, w.now);
    }
  }

  lemma StepKeepsCaused(w: Watch, step: Step)
    requires Inv(w) && Caused(w) && Enabled(w, step)
    ensures Caused(Apply(w, step))
  {
    match step
    case Hup => EntryKeepsCaused(w, HupReload(w.now));
    case FileEvent(qualifies) =>
      if qualifies {
        EntryKeepsCaused(w, Accepted(w.now));
        if !w.pending { assert Opened(w.log + [Accepted(w.now)], |w.log|, |w.log| + 1, w.now + 150); }
      }
    case Tick(now) =>
      if w.fired {
        var j :| Opened(w.log, j, |w.log|, w.now);
        assert Opened(w.log, j, |w.log|, now);
      }
    case TimerFires =>
      var j :| Opened(w.log, j, |w.log|, w.armed.value);
      assert Opened(w.log, j, |w.log|, w.now);
    case Debounce =>
      PastStaysCaused(w, Apply(w, step));
      var j :| Opened(w.log, j, |w.log|, w.now);
      OpenedStays(w.log, DebounceReload(w.now), j, |w.log|, w.now);
    case _ =>
  }

  /** No debounce reload without cause: one comes only for an accepted event that
      none before it has followed, and no sooner than the delay after it. */
  lemma ReloadHasCause(steps: seq<Step>, i: nat) returns (j: nat)
    requires Runs(Initial(), steps) && i < |Exec(Initial(), steps).log| && Exec(Initial(), steps).log[i].DebounceReload?
    ensures var log := Exec(Initial(), steps).log;
            && j < i && log[j].Accepted? && log[j].at + 150 <= log[i].at
            && forall k :: j < k < i ==> !log[k].DebounceReload?
  {
    ReachableCaused(steps);
    j := CauseOf(Exec(Initial(), steps), i);
  }

  lemma CauseOf(w: Watch, i: nat) returns (j: nat)
    requires Caused(w) && i < |w.log| && w.log[i].DebounceReload?
    ensures Opened(w.log, j, i, w.log[i].at)
  {
    j :| Opened(w.log, j, i, w.log[i].at);
  }

  ghost predicate InvCaused(w: Watch) {
    Inv(w) && Caused(w)
  }

  lemma ReachableCaused(steps: seq<Step>)
    requires Runs(Initial(), steps)
    ensures Caused(Exec(Initial(), steps))
  {
    forall w, step | InvCaused(w) && Enabled(w, step) ensures InvCaused(Next(w, step)) {
      StepKeeps(w, step);
      StepKeepsCaused(w, step);
    }
    Tr.Invariant(Machine(), InvCaused, Initial(), steps);
  }

  /** While the loop runs, an outstanding firing leads to a reload by waiting
      alone: at once if the timer has fired or is due, else when it is due. */
  lemma OutstandingDelivers(steps: seq<Step>) returns (more: seq<Step>)
    requires Runs(Initial(), steps)
    requires var w := Exec(Initial(), steps); w.pending && !w.stopped
    ensures forall i :: 0 <= i < |more| ==> more[i].Tick? || more[i].TimerFires? || more[i].Debounce?
    ensures var w := Exec(Initial(), steps);
            var due := if w.armed.Some? && w.now < w.armed.value then w.armed.value else w.now;
            Runs(w, more) && Exec(w, more) == w.(now := due, pending := false, armed := None, fired := false,
                                                 log := w.log + [DebounceReload(due)])
  {
    ReachableInv(steps);
    var w := Exec(Initial(), steps);
    if w.fired {
      more := [Debounce];
      Tr.JustOne(Machine(), w, Debounce);
    } else {
      var due := if w.armed.value < w.now then w.now else w.armed.value;
      more := [Tick(due)];
      Tr.JustOne(Machine(), w, Tick(due));
      Tr.OneMore(Machine(), w, more, TimerFires);
      more := more + [TimerFires];
      Tr.OneMore(Machine(), w, more, Debounce);
      more := more + [Debounce];
    }
  }

  /** A stopped loop does nothing more. */
  lemma StoppedForGood(w: Watch, more: seq<Step>)
    requires w.stopped && Runs(w, more)
    ensures Exec(w, more).stopped && Exec(w, more).log == w.log
  {
    Tr.Invariant(Machine(), (later: Watch) => later.stopped && later.log == w.log, w, more);
  }

  ghost predicate CanReload(w: Watch, i: nat) {
    exists more :: Runs(w, more) && ReloadedAfter(Exec(w, more).log, i)
  }

  /** An accepted event that no debounce reload has followed yet can still be
      followed by one iff the loop has not stopped. */
  lemma ReloadComesIffRunning(steps: seq<Step>, i: nat)
    requires Runs(Initial(), steps)
    requires i < |Exec(Initial(), steps).log| && Exec(Initial(), steps).log[i].Accepted?
    requires !ReloadedAfter(Exec(Initial(), steps).log, i)
    ensures CanReload(Exec(Initial(), steps), i) <==> !Exec(Initial(), steps).stopped
  {
    var w := Exec(Initial(), steps);
    if w.stopped {
      forall more | Runs(w, more) ensures !ReloadedAfter(Exec(w, more).log, i) { StoppedForGood(w, more); }
    } else {
      ReachableInv(steps);
      var more := OutstandingDelivers(steps);
      assert Exec(w, more).log[|w.log|].DebounceReload?;
    }
  }
}
