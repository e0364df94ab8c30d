/** server/cert_warmup.go: at most one issuance in flight per host. Records are
    shared: the map and the goroutine of an issuance hold the same one, so they
    live in a heap and are named by identity. */
module CertIssuer {
  import opened Ascii
  import opened Options
  import Tr = Transition

  datatype Status = Pending | Ready | Failed

  datatype Record = Record(host: string, status: Status, startedAt: int, doneAt: int, error: string)

  type RecordId = nat
  type RunId = nat

  /** A goroutine executing run(host, record), from the moment Issue decides to
      start it until it has written its outcome. */
  datatype Flight = Flight(host: string, rec: RecordId)

  datatype State = State(
    states: map<string, RecordId>,
    heap: map<RecordId, Record>,
    flights: map<RunId, Flight>)

  function Initial(): State {
    State(map[], map[], map[])
  }

  function Normal(host: string): string {
    Lower(TrimDot(host))
  }

  function StatusAt(st: State, h: string): Option<Record> {
    if h in st.states && st.states[h] in st.heap then Some(st.heap[st.states[h]]) else None
  }

  /** A host in flight or ready is left alone. */
  predicate Skips(st: State, h: string) {
    StatusAt(st, h).Some? && !StatusAt(st, h).value.status.Failed?
  }

  datatype Step =
    | Issue(host: string, now: int, rec: RecordId, run: RunId)
    | Finish(run: RunId, error: Option<string>, now: int)

  predicate Enabled(st: State, step: Step) {
    match step
    case Issue(_, _, rec, run) => rec !in st.heap && run !in st.flights
    case Finish(run, _, _) => run in st.flights && st.flights[run].rec in st.heap
  }

  function AfterIssue(st: State, h: string, now: int, rec: RecordId, run: RunId): State {
    if Skips(st, h) then st
    else State(st.states[h := rec],
               st.heap[rec := Record(h, Pending, now, 0, "")],
               st.flights[run := Flight(h, rec)])
  }

  /** What run writes into its record. */
  function Outcome(r: Record, error: Option<string>, now: int): Record {
    if error.Some? then r.(status := Failed, error := error.value, doneAt := now)
    else r.(status := Ready, doneAt := now)
  }

  function AfterFinish(st: State, run: RunId, error: Option<string>, now: int): State
    requires run in st.flights && st.flights[run].rec in st.heap
  {
    var rec := st.flights[run].rec;
    st.(heap := st.heap[rec := Outcome(st.heap[rec], error, now)], flights := st.flights - {run})
  }

  function Apply(st: State, step: Step): State
    requires Enabled(st, step)
  {
    match step
    case Issue(host, now, rec, run) => AfterIssue(st, Normal(host), now, rec, run)
    case Finish(run, error, now) => AfterFinish(st, run, error, now)
  }

  function Next(st: State, step: Step): State {
    if Enabled(st, step) then Apply(st, step) else st
  }

  function Machine(): Tr.Machine<State, Step> {
    Tr.Machine(Enabled, Next)
  }

  ghost predicate Runs(st: State, steps: seq<Step>) {
    Tr.Runs(Machine(), st, steps)
  }

  ghost function Exec(st: State, steps: seq<Step>): State {
    Tr.Exec(Machine(), st, steps)
  }

  // ---------------------------------------------------------------------
  // The invariant.

  ghost predicate InFlight(st: State, run: RunId, h: string) {
    run in st.flights && st.flights[run].host == h
  }

  /** Every flight works on the very record stored for its host, still pending;
      every pending record has its flight. */
  ghost predicate Inv(st: State) {
    && (forall h :: h in st.states ==> st.states[h] in st.heap && st.heap[st.states[h]].host == h)
    && (forall run, h :: InFlight(st, run, h) ==>
          h in st.states && st.states[h] == st.flights[run].rec && st.heap[st.states[h]].status.Pending?)
    && (forall run, run', h :: InFlight(st, run, h) && InFlight(st, run', h) ==> run == run')
    && (forall h :: h in st.states && st.heap[st.states[h]].status.Pending? ==> exists run :: InFlight(st, run, h))
    && (forall id :: id in st.heap && st.heap[id].status.Pending? ==> st.heap[id].error == "" && st.heap[id].doneAt == 0)
    && (forall id :: id in st.heap && st.heap[id].status.Ready? ==> st.heap[id].error == "")
  }

  lemma IssueKeeps(st: State, h: string, now: int, rec: RecordId, run: RunId)
    requires Inv(st) && rec !in st.heap && run !in st.flights
    ensures Inv(AfterIssue(st, h, now, rec, run))
  {
    if !Skips(st, h) {
      var st' := AfterIssue(st, h, now, rec, run);
      forall r, k | InFlight(st', r, k)
        ensures (r == run && k == h) || (r != run && k != h && InFlight(st, r, k))
      {
        if r != run { assert InFlight(st, r, k); }
      }
      forall k | k in st'.states && st'.heap[st'.states[k]].status.Pending? ensures exists r :: InFlight(st', r, k) {
        if k == h {
          assert InFlight(st', run, h);
        } else {
          var r :| InFlight(st, r, k);
          assert InFlight(st', r, k);
        }
      }
    }
  }

  lemma FinishKeeps(st: State, run: RunId, error: Option<string>, now: int)
    requires Inv(st) && run in st.flights && st.flights[run].rec in st.heap
    ensures Inv(AfterFinish(st, run, error, now))
  {
    var st' := AfterFinish(st, run, error, now);
    var h := st.flights[run].host;
    assert InFlight(st, run, h);
    forall r, k | InFlight(st', r, k) ensures InFlight(st, r, k) && k != h && st.states[k] != st.states[h] {
      assert InFlight(st, r, k);
    }
    forall k | k in st'.states && st'.heap[st'.states[k]].status.Pending? ensures exists r :: InFlight(st', r, k) {
      var r :| InFlight(st, r, k);
      assert InFlight(st', r, k);
    }
  }

  lemma StepKeeps(st: State, step: Step)
    requires Inv(st) && Enabled(st, step)
    ensures Inv(Apply(st, step))
  {
    match step
    case Issue(host, now, rec, run) => IssueKeeps(st, Normal(host), now, rec, run);
    case Finish(run, error, now) => FinishKeeps(st, run, error, now);
  }

  lemma ReachableInv(steps: seq<Step>)
    requires Runs(Initial(), steps)
    ensures Inv(Exec(Initial(), steps))
  {
    forall st, step | Inv(st) && Enabled(st, step) ensures Inv(Next(st, step)) { StepKeeps(st, step); }
    Tr.Invariant(Machine(), Inv, Initial(), steps);
  }

  // ---------------------------------------------------------------------
  // Main results.

  /** In every interleaving a host has an issuance in flight iff its record is
      pending, never more than one, and that flight will write to the record
      stored for the host. */
  lemma SingleFlight(steps: seq<Step>, h: string)
    requires Runs(Initial(), steps)
    ensures var st := Exec(Initial(), steps);
            && ((exists run :: InFlight(st, run, h)) <==> StatusAt(st, h).Some? && StatusAt(st, h).value.status.Pending?)
            && (forall run, run' :: InFlight(st, run, h) && InFlight(st, run', h) ==> run == run')
            && (forall run :: InFlight(st, run, h) ==> Find(st.states, h) == Some(st.flights[run].rec))
  {
    ReachableInv(steps);
  }

  /** Issue is always possible. A host without a record or with a failed one gets
      a fresh pending record and an issuance that will write to it, whatever the
      old error; for a host pending or ready nothing happens. */
  lemma IssueExact(st: State, host: string, now: int, rec: RecordId, run: RunId)
    requires rec !in st.heap && run !in st.flights
    ensures Enabled(st, Issue(host, now, rec, run))
    ensures var h, e := Lower(TrimDot(host)), Apply(st, Issue(host, now, rec, run));
            if StatusAt(st, h).None? || StatusAt(st, h).value.status == Failed then
              && e.states == st.states[h := rec]
              && e.heap == st.heap[rec := Record(h, Pending, now, 0, "")]
              && e.flights == st.flights[run := Flight(h, rec)]
            else e == st
  {}

  /** A pending issuance can always end, in success or with any error; only a
      failure leaves the host to be tried again. */
  lemma PendingCanFinish(steps: seq<Step>, h: string, error: Option<string>, now: int) returns (run: RunId)
    requires Runs(Initial(), steps)
    requires StatusAt(Exec(Initial(), steps), h).Some? && StatusAt(Exec(Initial(), steps), h).value.status == Pending
    ensures var st := Exec(Initial(), steps);
            && Enabled(st, Finish(run, error, now)) && InFlight(st, run, h)
            && var e := Apply(st, Finish(run, error, now));
               && e.flights == st.flights - {run} && e.states == st.states
               && var r := StatusAt(st, h).value;
                  StatusAt(e, h) == Some(match error
                                         case None => r.(status := Ready, doneAt := now)
                                         case Some(text) => r.(status := Failed, doneAt := now, error := text))
  {
    ReachableInv(steps);
    var st := Exec(Initial(), steps);
    run :| InFlight(st, run, h);
  }

  /** The life of a host's record under one step: unchanged; or created pending;
      or, from pending only, finished in place; or, from failed only, replaced by
      a new record that carries neither the old error nor the old end time, while
      the old record stays as it was. */
  lemma Lifecycle(st: State, step: Step, h: string)
    requires Inv(st) && Enabled(st, step)
    ensures var st' := Apply(st, step);
            var before, after := StatusAt(st, h), StatusAt(st', h);
            || (Find(st'.states, h) == Find(st.states, h) && after == before)
            || (&& before.Some? && before.value.status.Pending? && step.Finish?
                && Find(st'.states, h) == Find(st.states, h)
                && after == Some(Record(h, if step.error.None? then Ready else Failed, before.value.startedAt, step.now,
                                        if step.error.None? then "" else step.error.value)))
            || (&& (before.None? || before.value.status.Failed?) && step.Issue? && Normal(step.host) == h
                && Find(st'.states, h) == Some(step.rec) && step.rec !in st.heap
                && after == Some(Record(h, Pending, step.now, 0, ""))
                && (before.Some? ==> st'.heap[st.states[h]] == before.value))
  {
    match step
    case Issue(host, now, rec, run) =>
    case Finish(run, error, now) =>
      assert InFlight(st, run, st.flights[run].host);
  }

  /** Ready is absorbing: the record and its contents never change again. */
  lemma ReadyIsFinal(st: State, steps: seq<Step>, h: string)
    requires Inv(st) && Runs(st, steps)
    requires StatusAt(st, h).Some? && StatusAt(st, h).value.status.Ready?
    ensures Find(Exec(st, steps).states, h) == Find(st.states, h)
    ensures StatusAt(Exec(st, steps), h) == StatusAt(st, h)
  {
    var asBefore := (later: State) =>
      Inv(later) && Find(later.states, h) == Find(st.states, h) && StatusAt(later, h) == StatusAt(st, h);
    forall later, step | asBefore(later) && Enabled(later, step) ensures asBefore(Next(later, step)) {
      Lifecycle(later, step, h);
      StepKeeps(later, step);
    }
    Tr.Invariant(Machine(), asBefore, st, steps);
  }

  // ---------------------------------------------------------------------
  // The objects.

  class Issuance {
    /** Which record of the model this is; distinct objects are distinct records. */
    ghost const id: RecordId
    const host: string
    var status: Status
    var startedAt: int
    var doneAt: int
    var error: string

    ghost function View(): Record reads this {
      Record(host, status, startedAt, doneAt, error)
    }

    constructor (host: string, now: int, ghost id: RecordId)
      ensures View() == Record(host, Pending, now, 0, "") && this.id == id
    {
      this.host, this.id := host, id;
      status, startedAt, doneAt, error := Pending, now, 0, "";
    }
  }

  class Issuer {
    var states: map<string, Issuance>
    ghost var objects: map<RecordId, Issuance>
    ghost var model: State

    ghost predicate Valid()
      reads this, objects.Values
    {
      && objects.Keys == model.heap.Keys
      && (forall id :: id in objects ==> objects[id].id == id && objects[id].View() == model.heap[id])
      && states.Keys == model.states.Keys
      && (forall h :: h in states ==> model.states[h] in objects && states[h] == objects[model.states[h]])
    }

    constructor ()
      ensures Valid() && model == Initial()
    {
      states, objects, model := map[], map[], Initial();
    }

    /** Starts an issuance unless one is in flight or done. `started` is the
        record handed to the new goroutine. */
    method Issue(host: string, now: int, ghost rec: RecordId, ghost run: RunId) returns (started: Issuance?)
      requires Valid() && rec !in model.heap && run !in model.flights
      modifies this
      ensures Valid() && model == AfterIssue(old(model), Normal(host), now, rec, run)
      ensures started == null <==> exists r :: StatusAt(old(model), Lower(TrimDot(host))) == Some(r) && r.status != Failed
      ensures started != null ==> fresh(started) && Normal(host) in states && states[Normal(host)] == started
    {
      var h := Normal(host);
      assert h in states ==> StatusAt(model, h) == Some(states[h].View());
      if h in states && (states[h].status.Pending? || states[h].status.Ready?) {
        assert Skips(model, h);
        return null;
      }
      started := Enter(h, now, rec, run);
    }

    /** Stores a fresh record for h. */
    method Enter(h: string, now: int, ghost rec: RecordId, ghost run: RunId) returns (s: Issuance)
      requires Valid() && rec !in model.heap && !Skips(model, h)
      modifies this
      ensures Valid() && model == AfterIssue(old(model), h, now, rec, run)
      ensures fresh(s) && h in states && states[h] == s
    {
      s := new Issuance(h, now, rec);
      states := states[h := s];
      objects := objects[rec := s];
      model := AfterIssue(model, h, now, rec, run);
    }

    /** The record a goroutine was handed is still the one in the map. */
    lemma FlightRecordStored(run: RunId)
      requires Valid() && Inv(model) && run in model.flights
      ensures model.flights[run].host in states && model.flights[run].rec in objects
      ensures states[model.flights[run].host] == objects[model.flights[run].rec]
    {
      assert InFlight(model, run, model.flights[run].host);
    }

    /** The end of run: the outcome is written into the record it was handed. */
    method Finish(s: Issuance, error: Option<string>, now: int, ghost run: RunId)
      requires Valid() && run in model.flights
      requires model.flights[run].rec in objects && objects[model.flights[run].rec] == s
      modifies this`model, s
      ensures Valid() && model == AfterFinish(old(model), run, error, now)
    {
      if error.Some? {
        s.status := Failed;
        s.error := error.value;
      } else {
        s.status := Ready;
      }
      s.doneAt := now;
      model := AfterFinish(model, run, error, now);
    }

    /** Whether a request for the host is answered with the loading or error
        page instead of being forwarded. */
    method Intercepts(host: string) returns (page: bool)
      requires Valid()
      ensures page <==> exists r :: StatusAt(model, Normal(host)) == Some(r) && !r.status.Ready?
    {
      var h := Normal(host);
      if h !in states {
        return false;
      }
      page := states[h].status.Pending? || states[h].status.Failed?;
      assert StatusAt(model, h) == Some(states[h].View());
    }
  }
}
