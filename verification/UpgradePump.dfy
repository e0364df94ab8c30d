/** forwardUpgrade of server/proxy.go after the hijack: the handler's goroutine,
    the ticker and the two copy goroutines, around a done channel of capacity 2.
    Any number of upgrades share the wsActive and wsUpgrades counters. */
module UpgradePump {
  import opened Sums
  import opened Words
  import Tr = Transition

  /** The handler: two receives, the final report, WSEnd, close(done). */
  datatype Main = First | Second | Reporting | Ending | Closing | Returned

  datatype Pump = Copying | Sending | Finished

  datatype Upgrade = Upgrade(
    main: Main,
    left: Pump,
    right: Pump,
    ticking: bool,
    /** Messages in the channel, messages the ticker took, closes, and sends
        made on the closed channel. */
    buffered: nat,
    stolen: nat,
    closes: nat,
    panics: nat)

  const CAPACITY := 2

  /** Right after WSStart and the four goroutines' start. */
  function Opened(): Upgrade {
    Upgrade(First, Copying, Copying, true, 0, 0, 0, 0)
  }

  datatype Side = Left | Right

  datatype Act =
    | CopyEnds(side: Side)
    | Send(side: Side)
    | TickerTakes
    | TickerSeesClose
    | MainTakes
    | Report
    | End
    | Close

  function PumpOf(u: Upgrade, side: Side): Pump {
    if side.Left? then u.left else u.right
  }

  function WithPump(u: Upgrade, side: Side, p: Pump): Upgrade {
    if side.Left? then u.(left := p) else u.(right := p)
  }

  predicate Can(u: Upgrade, act: Act) {
    match act
    case CopyEnds(side) => PumpOf(u, side).Copying?
    case Send(side) => PumpOf(u, side).Sending? && (u.closes > 0 || u.buffered < CAPACITY)
    case TickerTakes => u.ticking && u.buffered > 0
    case TickerSeesClose => u.ticking && u.buffered == 0 && u.closes > 0
    case MainTakes => (u.main.First? || u.main.Second?) && (u.buffered > 0 || u.closes > 0)
    case Report => u.main.Reporting?
    case End => u.main.Ending?
    case Close => u.main.Closing?
  }

  function Do(u: Upgrade, act: Act): Upgrade
    requires Can(u, act)
  {
    match act
    case CopyEnds(side) => WithPump(u, side, Sending)
    case Send(side) =>
      if u.closes > 0 then u.(panics := u.panics + 1)
      else WithPump(u.(buffered := u.buffered + 1), side, Finished)
    case TickerTakes => u.(ticking := false, buffered := u.buffered - 1, stolen := u.stolen + 1)
    case TickerSeesClose => u.(ticking := false)
    case MainTakes =>
      u.(main := if u.main.First? then Second else Reporting,
         buffered := if u.buffered > 0 then u.buffered - 1 else 0)
    case Report => u.(main := Ending)
    case End => u.(main := Closing)
    case Close => u.(main := Returned, closes := u.closes + 1)
  }

  // ---------------------------------------------------------------------
  // One upgrade.

  function Taken(m: Main): nat {
    if m.First? then 0 else if m.Second? then 1 else 2
  }

  function Sends(p: Pump): nat {
    if p.Finished? then 1 else 0
  }

  /** Every message sent is in the channel, with the handler, or with the ticker. */
  predicate Sound(u: Upgrade) {
    && Sends(u.left) + Sends(u.right) == u.buffered + Taken(u.main) + u.stolen
    && u.closes == (if u.main.Returned? then 1 else 0)
    && u.panics == 0
    && (u.ticking ==> u.stolen == 0)
    && u.stolen <= 1
  }

  lemma DoSound(u: Upgrade, act: Act)
    requires Sound(u) && Can(u, act)
    ensures Sound(Do(u, act))
  {}

  /** Counted by wsActive: between WSStart and WSEnd. */
  predicate Active(u: Upgrade) {
    !u.main.Closing? && !u.main.Returned?
  }

  function ActiveCount(u: Upgrade): int {
    if Active(u) then 1 else 0
  }

  // ---------------------------------------------------------------------
  // All upgrades of a service.

  datatype State = State(ups: seq<Upgrade>, wsActive: int, wsUpgrades: nat)

  datatype Step = Open | Local(i: nat, act: Act)

  predicate Enabled(st: State, step: Step) {
    step.Open? || (step.i < |st.ups| && Can(st.ups[step.i], step.act))
  }

  function Apply(st: State, step: Step): State
    requires Enabled(st, step)
  {
    match step
    case Open => State(st.ups + [Opened()], st.wsActive + 1, (st.wsUpgrades + 1) % WORD64)
    case Local(i, act) =>
      st.(ups := st.ups[i := Do(st.ups[i], act)], wsActive := if act.End? then st.wsActive - 1 else st.wsActive)
  }

  function Next(st: State, step: Step): State {
    if Enabled(st, step) then Apply(st, step) else st
  }

  function Machine(): Tr.Machine<State, Step> {
    Tr.Machine(Enabled, Next)
  }

  ghost predicate Runs(st: State, steps: seq<Step>) {
    Tr.Runs(Machine(), st, steps)
  }

  ghost function Exec(st: State, steps: seq<Step>): State {
    Tr.Exec(Machine(), st, steps)
  }

  function Idle(): State {
    State([], 0, 0)
  }

  predicate AllSound(ups: seq<Upgrade>) {
    forall i :: 0 <= i < |ups| ==> Sound(ups[i])
  }

  ghost predicate Counted(st: State) {
    st.wsActive == Sum(st.ups, ActiveCount) && st.wsUpgrades == |st.ups| % WORD64
  }

  ghost predicate Inv(st: State) {
    AllSound(st.ups) && Counted(st)
  }

  lemma {:induction false} SoundKept(st: State, step: Step)
    requires AllSound(st.ups) && Enabled(st, step)
    ensures AllSound(Apply(st, step).ups)
  {
    if step.Local? { DoSound(st.ups[step.i], step.act); }
  }

  lemma {:induction false} CountKept(st: State, step: Step)
    requires Counted(st) && Enabled(st, step)
    ensures Counted(Apply(st, step))
  {
    match step
    case Open => SumAppend(st.ups, Opened(), ActiveCount);
    case Local(i, act) =>
      var u := Do(st.ups[i], act);
      assert ActiveCount(u) - ActiveCount(st.ups[i]) == if act.End? then -1 else 0;
      SumUpdate(st.ups, i, u, ActiveCount);
  }

  lemma {:induction false} StepKeeps(st: State, step: Step)
    requires Inv(st) && Enabled(st, step)
    ensures Inv(Apply(st, step))
  {
    SoundKept(st, step);
    CountKept(st, step);
  }

  lemma ReachableInv(steps: seq<Step>)
    requires Runs(Idle(), steps)
    ensures Inv(Exec(Idle(), steps))
  {
    forall st, step | Inv(st) && Enabled(st, step) ensures Inv(Next(st, step)) { StepKeeps(st, step); }
    Tr.Invariant(Machine(), Inv, Idle(), steps);
  }

  /** In every interleaving: nobody sends on the closed channel or finds it full,
      it is closed at most once, the handler ends only after both directions have
      ended, and wsActive is exactly the number of upgrades between WSStart and
      WSEnd. */
  lemma {:induction false} PumpSafety(steps: seq<Step>, i: nat)
    requires Runs(Idle(), steps)
    ensures var st := Exec(Idle(), steps);
            && st.wsActive == Sum(st.ups, ActiveCount) && st.wsActive >= 0 && st.wsUpgrades == |st.ups| % WORD64
            && (i < |st.ups| ==>
                  var u := st.ups[i];
                  && u.panics == 0 && u.closes <= 1
                  && (u.left.Sending? || u.right.Sending? ==> u.closes == 0 && u.buffered < CAPACITY)
                  && (Can(u, End) || !Active(u) ==> u.left.Finished? && u.right.Finished?)
                  && (u.closes == 1 ==> !Active(u)))
  {
    ReachableInv(steps);
    var st := Exec(Idle(), steps);
    SumBounds(st.ups, ActiveCount);
  }

  // ---------------------------------------------------------------------
  // The ticker shares the done channel, and can take a message from it.

  /** WSEnd can still happen iff it is not the ticker that took a message. */
  predicate Leaked(u: Upgrade) {
    u.stolen > 0
  }

  lemma LeakedStays(u: Upgrade, act: Act)
    requires Sound(u) && Leaked(u) && Can(u, act)
    ensures Leaked(Do(u, act)) && Active(u) && !act.End?
  {}

  lemma {:induction false} LeakStep(st: State, step: Step, i: nat)
    requires AllSound(st.ups) && Enabled(st, step) && i < |st.ups| && Leaked(st.ups[i])
    ensures i < |Apply(st, step).ups| && Leaked(Apply(st, step).ups[i])
  {
    if step.Local? && step.i == i { LeakedStays(st.ups[i], step.act); }
  }

  lemma {:induction false} LeakIsCounted(st: State, i: nat)
    requires Inv(st) && i < |st.ups| && Leaked(st.ups[i])
    ensures Active(st.ups[i]) && st.wsActive >= 1
  {
    assert Sound(st.ups[i]);
    SumBounds(st.ups, ActiveCount);
    assert ActiveCount(st.ups[i]) <= st.wsActive;
  }

  /** Once the ticker has taken a message, no continuation ever ends the upgrade:
      wsActive stays above zero for good. */
  lemma {:induction false} LeakIsForever(st: State, steps: seq<Step>, i: nat)
    requires Inv(st) && Runs(st, steps) && i < |st.ups| && Leaked(st.ups[i])
    ensures i < |Exec(st, steps).ups| && Active(Exec(st, steps).ups[i]) && Exec(st, steps).wsActive >= 1
  {
    forall later, step | HasLeak(later, i) && Enabled(later, step) ensures HasLeak(Next(later, step), i) {
      StepKeeps(later, step);
      LeakStep(later, step, i);
    }
    Tr.Invariant(Machine(), later => HasLeak(later, i), st, steps);
    LeakIsCounted(Exec(st, steps), i);
  }

  ghost predicate HasLeak(st: State, i: nat) {
    Inv(st) && i < |st.ups| && Leaked(st.ups[i])
  }

  /** The next action towards WSEnd while the ticker has taken nothing. */
  function NextAct(u: Upgrade): Act {
    if u.left.Copying? then CopyEnds(Left)
    else if u.right.Copying? then CopyEnds(Right)
    else if u.left.Sending? then Send(Left)
    else if u.right.Sending? then Send(Right)
    else if u.main.First? || u.main.Second? then MainTakes
    else if u.main.Reporting? then Report
    else End
  }

  function PumpWork(p: Pump): nat {
    if p.Copying? then 2 else if p.Sending? then 1 else 0
  }

  function Work(u: Upgrade): nat {
    PumpWork(u.left) + PumpWork(u.right) +
    (match u.main
     case First => 4 case Second => 3 case Reporting => 2 case Ending => 1 case _ => 0)
  }

  lemma NextActWorks(u: Upgrade)
    requires Sound(u) && !Leaked(u) && Active(u)
    ensures Can(u, NextAct(u)) && Work(Do(u, NextAct(u))) < Work(u) && !Leaked(Do(u, NextAct(u)))
  {}

  /** As long as the ticker has taken nothing, some continuation, using only this
      upgrade's own goroutines, ends it. */
  lemma {:induction false} CanEnd(st: State, i: nat) returns (steps: seq<Step>)
    requires Inv(st) && i < |st.ups| && Active(st.ups[i]) && !Leaked(st.ups[i])
    ensures Runs(st, steps) && i < |Exec(st, steps).ups| && !Active(Exec(st, steps).ups[i])
    ensures forall k :: 0 <= k < |steps| ==> steps[k].Local? && steps[k].i == i
    decreases Work(st.ups[i])
  {
    var u := st.ups[i];
    NextActWorks(u);
    var step := Local(i, NextAct(u));
    var next := Apply(st, step);
    StepKeeps(st, step);
    Tr.JustOne(Machine(), st, step);
    steps := [step];
    if Active(next.ups[i]) {
      var more := CanEnd(next, i);
      Tr.Continue(Machine(), st, [step], more);
      steps := [step] + more;
    }
  }

  /** Upgrades can start in every state, and either direction can end at any time. */
  lemma CanOpen(st: State, i: nat, side: Side)
    ensures Enabled(st, Open) && Apply(st, Open).ups == st.ups + [Upgrade(First, Copying, Copying, true, 0, 0, 0, 0)]
    ensures i < |st.ups| && PumpOf(st.ups[i], side).Copying? ==>
              && Enabled(st, Local(i, CopyEnds(side)))
              && Apply(st, Local(i, CopyEnds(side))).ups == st.ups[i := WithPump(st.ups[i], side, Sending)]
  {}

  /** Nothing of the upgrade is left running. */
  predicate Quiet(u: Upgrade) {
    u.main.Returned? && !u.ticking && u.left.Finished? && u.right.Finished?
  }

  /** The next action towards that, also after WSEnd. */
  function NextToQuiet(u: Upgrade): Act {
    if Active(u) then NextAct(u) else if u.main.Closing? then Close else TickerSeesClose
  }

  function AllWork(u: Upgrade): nat {
    Work(u) + (if Active(u) then 2 else if u.main.Closing? then 1 else 0) + (if u.ticking then 1 else 0)
  }

  lemma NextToQuietWorks(u: Upgrade)
    requires Sound(u) && !Leaked(u) && !Quiet(u)
    ensures Can(u, NextToQuiet(u)) && AllWork(Do(u, NextToQuiet(u))) < AllWork(u) && !Leaked(Do(u, NextToQuiet(u)))
  {}

  /** As long as the ticker has taken nothing, all four goroutines of the upgrade
      can return, by their own steps. */
  lemma {:induction false} CanQuiesce(st: State, i: nat) returns (steps: seq<Step>)
    requires Inv(st) && i < |st.ups| && !Leaked(st.ups[i])
    ensures Runs(st, steps) && i < |Exec(st, steps).ups| && Quiet(Exec(st, steps).ups[i])
    ensures forall k :: 0 <= k < |steps| ==> steps[k].Local? && steps[k].i == i
    decreases AllWork(st.ups[i])
  {
    steps := [];
    if !Quiet(st.ups[i]) {
      NextToQuietWorks(st.ups[i]);
      var step := Local(i, NextToQuiet(st.ups[i]));
      StepKeeps(st, step);
      Tr.JustOne(Machine(), st, step);
      var more := CanQuiesce(Apply(st, step), i);
      Tr.Continue(Machine(), st, [step], more);
      steps := [step] + more;
    }
  }

  ghost predicate EndReachable(st: State, i: nat) {
    exists steps :: Runs(st, steps) && i < |Exec(st, steps).ups| && !Active(Exec(st, steps).ups[i])
  }

  /** Exactly when an upgrade in progress can still reach WSEnd. */
  lemma EndsIffNothingStolen(prior: seq<Step>, i: nat)
    requires Runs(Idle(), prior) && i < |Exec(Idle(), prior).ups| && Active(Exec(Idle(), prior).ups[i])
    ensures EndReachable(Exec(Idle(), prior), i) <==> !Leaked(Exec(Idle(), prior).ups[i])
  {
    ReachableInv(prior);
    var st := Exec(Idle(), prior);
    if Leaked(st.ups[i]) {
      forall steps | Runs(st, steps) ensures i < |Exec(st, steps).ups| && Active(Exec(st, steps).ups[i]) {
        LeakIsForever(st, steps, i);
      }
    } else {
      var steps := CanEnd(st, i);
    }
  }

  /** The leak does happen: the ticker takes the message of the first direction
      that ends. */
  lemma LeakReachable() returns (steps: seq<Step>)
    ensures Runs(Idle(), steps) && |Exec(Idle(), steps).ups| == 1 && Leaked(Exec(Idle(), steps).ups[0])
  {
    steps := [Open];
    Tr.JustOne(Machine(), Idle(), Open);
    Tr.OneMore(Machine(), Idle(), steps, Local(0, CopyEnds(Left)));
    steps := steps + [Local(0, CopyEnds(Left))];
    Tr.OneMore(Machine(), Idle(), steps, Local(0, Send(Left)));
    steps := steps + [Local(0, Send(Left))];
    Tr.OneMore(Machine(), Idle(), steps, Local(0, TickerTakes));
    steps := steps + [Local(0, TickerTakes)];
  }
}
