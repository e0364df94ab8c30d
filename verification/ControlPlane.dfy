/** handleControl of server/server.go on top of the registry protocol and the
    token store: admission of connections, interleaved with token reloads and
    with every step of the registry. */
module ControlPlane {
  import opened Ascii
  import opened Bytes
  import opened Options
  import opened Hosts
  import opened RegistrySlots
  import R = RegistryProtocol
  import RI = RegistryInvariant
  import RT = RegistryTheorems
  import T = Tokens
  import H = Handshake
  import Tr = Transition

  datatype Hello = Hello(token: string, service: string)

  datatype Decision = Admit(name: string) | Reject(status: byte)

  /** The name a connection may register under, given what its token is bound to. */
  function Decide(hello: Hello, bound: Option<string>): Decision {
    match bound
    case None => Reject(H.STATUS_BAD_AUTH)
    case Some(b) =>
      if b == "*" then
        var name := Lower(TrimSpace(hello.service));
        if ServiceName(name) then Admit(name) else Reject(H.STATUS_BAD_REQUEST)
      else if hello.service != "" && !EqualFold(hello.service, b) then Reject(H.STATUS_BAD_REQUEST)
      else Admit(b)
  }

  type ConnId = nat

  /** A control connection. `Acked` has been told OK and its name; `Attached` has
      become a session. */
  datatype Conn =
    | Greeting
    | Dropped
    | Refused(status: byte)
    | Acked(hello: Hello, bound: string, name: string)
    | Attached(hello: Hello, bound: string, name: string, session: R.SessionId)

  datatype State = State(reg: R.State, tokens: T.Store, conns: map<ConnId, Conn>)

  function Init(grace: int, tokens: T.Store): State {
    State(R.Init(grace), tokens, map[])
  }

  datatype Step =
    | Accept(c: ConnId)
    | BadHello(c: ConnId)
    | Handshake(c: ConnId, hello: Hello)
    | AckFails(c: ConnId)
    | MuxFails(c: ConnId)
    | Attach(c: ConnId, s: R.SessionId)
    | Reload(attempt: T.Attempt)
    | Registry(step: R.Step)

  ghost predicate Enabled(st: State, step: Step) {
    match step
    case Accept(c) => c !in st.conns
    case BadHello(c) => c in st.conns && st.conns[c].Greeting?
    case Handshake(c, _) => c in st.conns && st.conns[c].Greeting?
    case AckFails(c) => c in st.conns && st.conns[c].Acked?
    case MuxFails(c) => c in st.conns && st.conns[c].Acked?
    case Attach(c, s) => c in st.conns && st.conns[c].Acked? && R.Enabled(st.reg, R.Connect(s, st.conns[c].name))
    case Reload(_) => true
    case Registry(step) => !step.Connect? && R.Enabled(st.reg, step)
  }

  ghost function Apply(st: State, step: Step): State
    requires Enabled(st, step)
  {
    match step
    case Accept(c) => st.(conns := st.conns[c := Greeting])
    case BadHello(c) => st.(conns := st.conns[c := Dropped])
    case Handshake(c, hello) =>
      var bound := T.Resolve(st.tokens, hello.token);
      st.(conns := st.conns[c :=
        match Decide(hello, bound)
        case Reject(status) => Refused(status)
        case Admit(name) => Acked(hello, if bound.Some? then bound.value else "", name)])
    case AckFails(c) => st.(conns := st.conns[c := Dropped])
    case MuxFails(c) => st.(conns := st.conns[c := Dropped])
    case Attach(c, s) =>
      var k := st.conns[c];
      st.(reg := R.Apply(st.reg, R.Connect(s, k.name)),
          conns := st.conns[c := Attached(k.hello, k.bound, k.name, s)])
    case Reload(attempt) => st.(tokens := T.Reloaded(st.tokens, attempt))
    case Registry(step) => st.(reg := R.Apply(st.reg, step))
  }

  ghost function Next(st: State, step: Step): State {
    if Enabled(st, step) then Apply(st, step) else st
  }

  ghost function Machine(): Tr.Machine<State, Step> {
    Tr.Machine(Enabled, Next)
  }

  ghost predicate Runs(st: State, steps: seq<Step>) {
    Tr.Runs(Machine(), st, steps)
  }

  ghost function Exec(st: State, steps: seq<Step>): State {
    Tr.Exec(Machine(), st, steps)
  }

  // ---------------------------------------------------------------------
  // The registry part of a run is a run of the registry, so everything proved
  // of the registry holds here.

  /** The registry step inside a step of the control plane, if there is one. */
  ghost function RegistryPart(st: State, step: Step): seq<R.Step> {
    match step
    case Registry(step) => [step]
    case Attach(c, s) => if c in st.conns && st.conns[c].Acked? then [R.Connect(s, st.conns[c].name)] else []
    case _ => []
  }

  ghost function RegistrySteps(init: State, steps: seq<Step>): seq<R.Step> {
    if steps == [] then []
    else
      var n := |steps| - 1;
      RegistrySteps(init, steps[..n]) + RegistryPart(Exec(init, steps[..n]), steps[n])
  }

  lemma {:induction false} RegistryProjection(grace: int, tokens: T.Store, steps: seq<Step>) returns (rsteps: seq<R.Step>)
    requires Runs(Init(grace, tokens), steps)
    ensures rsteps == RegistrySteps(Init(grace, tokens), steps)
    ensures R.Runs(R.Init(grace), rsteps)
    ensures Exec(Init(grace, tokens), steps).reg == R.Exec(R.Init(grace), rsteps)
    decreases |steps|
  {
    if steps == [] {
      rsteps := [];
    } else {
      var n := |steps| - 1;
      var prior := RegistryProjection(grace, tokens, steps[..n]);
      var before := Exec(Init(grace, tokens), steps[..n]);
      rsteps := prior + RegistryPart(before, steps[n]);
      match steps[n] {
        case Registry(step) => Tr.OneMore(R.Machine(), R.Init(grace), prior, step);
        case Attach(c, s) => Tr.OneMore(R.Machine(), R.Init(grace), prior, R.Connect(s, before.conns[c].name));
        case _ => assert rsteps == prior;
      }
    }
  }

  /** The attempts to read the token file that a run makes. */
  function Reloads(steps: seq<Step>): seq<T.Attempt> {
    if steps == [] then []
    else
      var n := |steps| - 1;
      Reloads(steps[..n]) + (if steps[n].Reload? then [steps[n].attempt] else [])
  }

  /** The token store is at every moment what its history of reloads makes of it. */
  lemma {:induction false} TokensAreHistory(grace: int, inline: T.TokenMap, hasPath: bool, past: seq<T.Attempt>, steps: seq<Step>)
    requires Runs(Init(grace, T.After(inline, hasPath, past)), steps)
    ensures Exec(Init(grace, T.After(inline, hasPath, past)), steps).tokens == T.After(inline, hasPath, past + Reloads(steps))
    decreases |steps|
  {
    if steps == [] {
      assert past + [] == past;
    } else {
      var n := |steps| - 1;
      TokensAreHistory(grace, inline, hasPath, past, steps[..n]);
      StepTokens(Exec(Init(grace, T.After(inline, hasPath, past)), steps[..n]), steps[n]);
      if steps[n].Reload? {
        AfterOneMore(inline, hasPath, past + Reloads(steps[..n]), steps[n].attempt);
        assert past + Reloads(steps) == past + Reloads(steps[..n]) + [steps[n].attempt];
      } else {
        assert past + Reloads(steps) == past + Reloads(steps[..n]);
      }
    }
  }

  lemma StepTokens(st: State, step: Step)
    requires Enabled(st, step)
    ensures Apply(st, step).tokens == if step.Reload? then T.Reloaded(st.tokens, step.attempt) else st.tokens
  {}

  lemma AfterOneMore(inline: T.TokenMap, hasPath: bool, history: seq<T.Attempt>, a: T.Attempt)
    ensures T.After(inline, hasPath, history + [a]) == T.Reloaded(T.After(inline, hasPath, history), a)
  {
    assert (history + [a])[..|history|] == history;
  }

  // ---------------------------------------------------------------------
  // Admission.

  /** Connection c is where session s comes from. */
  ghost predicate Origin(st: State, c: ConnId, s: R.SessionId) {
    c in st.conns && st.conns[c].Attached? && st.conns[c].session == s
  }

  ghost predicate Admitted(k: Conn) {
    (k.Acked? || k.Attached?) ==> Decide(k.hello, Some(k.bound)) == Admit(k.name)
  }

  ghost predicate Inv(st: State) {
    && (forall c :: c in st.conns ==> Admitted(st.conns[c]))
    && (forall s :: s in st.reg.names ==> exists c :: Origin(st, c, s))
    && (forall c, s :: Origin(st, c, s) ==> s in st.reg.names && st.reg.names[s] == st.conns[c].name)
    && (forall c, c', s :: Origin(st, c, s) && Origin(st, c', s) ==> c == c')
  }

  /** Sessions come into being only by Connect, and keep their names. */
  lemma NamesFixed(reg: R.State, step: R.Step)
    requires R.Enabled(reg, step) && !step.Connect?
    ensures R.Apply(reg, step).names == reg.names
  {
    match step
    case LookupLocked(p, first, second, spare) => RI.LookupShape(reg, p, first, second, spare);
    case _ =>
  }

  lemma ConnKeeps(st: State, c: ConnId, k: Conn)
    requires Inv(st) && Admitted(k) && !k.Attached?
    requires c in st.conns ==> !st.conns[c].Attached?
    ensures Inv(st.(conns := st.conns[c := k]))
  {
    var st' := st.(conns := st.conns[c := k]);
    assert forall d, s :: Origin(st', d, s) <==> Origin(st, d, s);
    forall s | s in st.reg.names ensures exists d :: Origin(st', d, s) {
      var d :| Origin(st, d, s);
      assert Origin(st', d, s);
    }
  }

  lemma AttachKeeps(st: State, c: ConnId, s: R.SessionId)
    requires Inv(st) && Enabled(st, Attach(c, s))
    ensures Inv(Apply(st, Attach(c, s)))
  {
    var st' := Apply(st, Attach(c, s));
    assert st'.reg.names == st.reg.names[s := st.conns[c].name];
    forall d, t | Origin(st', d, t) ensures (d == c && t == s) || (d != c && t != s && Origin(st, d, t)) {
      if d != c { assert Origin(st, d, t); }
    }
    forall t | t in st'.reg.names ensures exists d :: Origin(st', d, t) {
      if t == s {
        assert Origin(st', c, s);
      } else {
        var d :| Origin(st, d, t);
        assert Origin(st', d, t);
      }
    }
  }

  lemma SameConnsKeeps(st: State, st': State)
    requires Inv(st) && st'.conns == st.conns && st'.reg.names == st.reg.names
    ensures Inv(st')
  {
    assert forall c, s :: Origin(st', c, s) <==> Origin(st, c, s);
    forall s | s in st.reg.names ensures exists c :: Origin(st', c, s) {
      var c :| Origin(st, c, s);
      assert Origin(st', c, s);
    }
  }

  lemma StepKeeps(st: State, step: Step)
    requires Inv(st) && Enabled(st, step)
    ensures Inv(Apply(st, step))
  {
    match step
    case Accept(c) => ConnKeeps(st, c, Greeting);
    case BadHello(c) => ConnKeeps(st, c, Dropped);
    case Handshake(c, hello) => ConnKeeps(st, c, Apply(st, step).conns[c]);
    case AckFails(c) => ConnKeeps(st, c, Dropped);
    case MuxFails(c) => ConnKeeps(st, c, Dropped);
    case Attach(c, s) => AttachKeeps(st, c, s);
    case Reload(_) => SameConnsKeeps(st, Apply(st, step));
    case Registry(rstep) =>
      NamesFixed(st.reg, rstep);
      SameConnsKeeps(st, Apply(st, step));
  }

  lemma ReachableInv(grace: int, tokens: T.Store, steps: seq<Step>)
    requires Runs(Init(grace, tokens), steps)
    ensures Inv(Exec(Init(grace, tokens), steps))
  {
    forall st, step | Inv(st) && Enabled(st, step) ensures Inv(Next(st, step)) { StepKeeps(st, step); }
    Tr.Invariant(Machine(), Inv, Init(grace, tokens), steps);
  }

  /** A connection that carries an admission resolved its token when it shook
      hands, at step j of the run. */
  lemma {:induction false} ResolvedAtHandshake(init: State, steps: seq<Step>, c: ConnId) returns (j: nat)
    requires Runs(init, steps) && init.conns == map[]
    requires c in Exec(init, steps).conns && (Exec(init, steps).conns[c].Acked? || Exec(init, steps).conns[c].Attached?)
    ensures j < |steps| && steps[j] == Handshake(c, Exec(init, steps).conns[c].hello)
    ensures var k := Exec(init, steps).conns[c];
            T.Resolve(Exec(init, steps[..j]).tokens, k.hello.token) == Some(k.bound)
    decreases |steps|
  {
    var n := |steps| - 1;
    var before := Exec(init, steps[..n]);
    if c in before.conns && (before.conns[c].Acked? || before.conns[c].Attached?) {
      j := ResolvedAtHandshake(init, steps[..n], c);
      assert steps[..n][..j] == steps[..j];
    } else {
      j := n;
    }
  }

  /** Every session ever created stems from exactly one connection, which was
      told OK with the very name the session is registered under; that name is
      what its token was bound to at the handshake or, for a wildcard token, the
      requested name in normal form, which is a service name. Reloads in between
      change none of it. */
  lemma AdmissionExact(grace: int, tokens: T.Store, steps: seq<Step>, s: R.SessionId) returns (c: ConnId, j: nat)
    requires Runs(Init(grace, tokens), steps)
    requires s in Exec(Init(grace, tokens), steps).reg.names
    ensures var st := Exec(Init(grace, tokens), steps);
            && Origin(st, c, s) && (forall d :: Origin(st, d, s) ==> d == c)
            && j < |steps| && steps[j] == Handshake(c, st.conns[c].hello)
            && var k := st.conns[c];
               var bound := T.Resolve(Exec(Init(grace, tokens), steps[..j]).tokens, k.hello.token);
               && k.name == st.reg.names[s] && bound == Some(k.bound)
               && (if k.bound == "*" then k.name == Lower(TrimSpace(k.hello.service)) && ServiceName(k.name)
                   else k.name == k.bound && (k.hello.service == "" || EqualFold(k.hello.service, k.bound)))
  {
    ReachableInv(grace, tokens, steps);
    var st := Exec(Init(grace, tokens), steps);
    c :| Origin(st, c, s);
    assert Admitted(st.conns[c]);
    j := ResolvedAtHandshake(Init(grace, tokens), steps, c);
  }

  /** A connection that was refused or dropped stays so: it never has a session. */
  lemma RefusedStaysOut(init: State, steps: seq<Step>, j: nat, c: ConnId)
    requires Runs(init, steps) && j <= |steps|
    requires c in Exec(init, steps[..j]).conns
    requires Exec(init, steps[..j]).conns[c].Refused? || Exec(init, steps[..j]).conns[c].Dropped?
    ensures c in Exec(init, steps).conns && Exec(init, steps).conns[c] == Exec(init, steps[..j]).conns[c]
    ensures forall s :: !Origin(Exec(init, steps), c, s)
  {
    Tr.Prefix(Machine(), init, steps, j);
    var fate := Exec(init, steps[..j]).conns[c];
    Tr.Invariant(Machine(), (st: State) => Find(st.conns, c) == Some(fate), Exec(init, steps[..j]), steps[j..]);
  }

  /** A connection whose Hello could not be read, whose Ack could not be sent or
      whose multiplexer did not start never has a session. */
  lemma FailedNeverAttaches(init: State, steps: seq<Step>, j: nat, c: ConnId)
    requires Runs(init, steps) && j < |steps| && steps[j] in {BadHello(c), AckFails(c), MuxFails(c)}
    ensures forall s :: !Origin(Exec(init, steps), c, s)
  {
    Tr.Prefix(Machine(), init, steps, j);
    Tr.Prefix(Machine(), init, steps, j + 1);
    assert steps[..j + 1][..j] == steps[..j];
    RefusedStaysOut(init, steps, j + 1, c);
  }

  /** The name a wildcard token is given: the requested name without the white
      space around it, in lower case, if that has the service shape. */
  lemma WildcardName(hello: Hello, name: string)
    ensures Decide(hello, Some("*")) == Admit(name)
       <==> && ServiceName(name)
            && exists before, core, after :: Blank(before) && Blank(after) && hello.service == before + core + after && Lower(core) == name
  {
    if Decide(hello, Some("*")) == Admit(name) {
      var before, after := TrimSpaceSplits(hello.service);
      assert hello.service == before + TrimSpace(hello.service) + after;
    }
    if ServiceName(name) {
      forall before, core, after | Blank(before) && Blank(after) && hello.service == before + core + after && Lower(core) == name
        ensures TrimSpace(hello.service) == core
      {
        assert LowerChar(core[0]) == name[0] && LowerChar(core[|core| - 1]) == name[|name| - 1];
        TrimSpaceOfPadded(before, core, after);
      }
    }
  }

  /** What a client may register as, given what its token is bound to. */
  ghost predicate MayRegister(hello: Hello, bound: string, name: string) {
    if bound == "*" then
      && ServiceName(name)
      && exists before, core, after :: Blank(before) && Blank(after) && hello.service == before + core + after && Lower(core) == name
    else name == bound && (hello.service == "" || Lower(hello.service) == Lower(bound))
  }

  /** Admission decides just that: an unknown token is refused with status 1, a
      client that may not register under any name with status 3, and every other
      client is admitted. */
  lemma DecideExact(hello: Hello, bound: Option<string>)
    ensures bound == None ==> Decide(hello, bound) == Reject(1)
    ensures bound.Some? ==>
              && (forall name :: Decide(hello, bound) == Admit(name) <==> MayRegister(hello, bound.value, name))
              && (Decide(hello, bound) == Reject(3) <==> forall name :: !MayRegister(hello, bound.value, name))
  {
    if bound == Some("*") {
      forall name ensures Decide(hello, bound) == Admit(name) <==> MayRegister(hello, "*", name) { WildcardName(hello, name); }
    } else if bound.Some? {
      assert Decide(hello, bound).Admit? ==> MayRegister(hello, bound.value, bound.value);
    }
  }

  /** Connections are accepted, reloads made and registry steps taken in every
      state, whatever the other connections do; a bad Hello drops its connection. */
  lemma AlwaysPossible(st: State, c: ConnId, attempt: T.Attempt, rstep: R.Step)
    ensures c !in st.conns ==> Enabled(st, Accept(c)) && Apply(st, Accept(c)) == st.(conns := st.conns[c := Greeting])
    ensures c in st.conns && st.conns[c].Greeting? ==>
              Enabled(st, BadHello(c)) && Apply(st, BadHello(c)) == st.(conns := st.conns[c := Dropped])
    ensures Enabled(st, Reload(attempt))
    ensures !rstep.Connect? && R.Enabled(st.reg, rstep) ==>
              Enabled(st, Registry(rstep)) && Apply(st, Registry(rstep)) == st.(reg := R.Apply(st.reg, rstep))
  {}

  /** The handshake of a new connection, in every state. */
  lemma HandshakeExact(st: State, c: ConnId, hello: Hello)
    requires c in st.conns && st.conns[c].Greeting?
    ensures Enabled(st, Handshake(c, hello))
    ensures var e := Apply(st, Handshake(c, hello));
            && c in e.conns && e == st.(conns := st.conns[c := e.conns[c]])
            && match T.Resolve(st.tokens, hello.token)
               case None => e.conns[c] == Refused(1)
               case Some(b) =>
                 && (forall name :: e.conns[c] == Acked(hello, b, name) <==> MayRegister(hello, b, name))
                 && (e.conns[c] == Refused(3) <==> forall name :: !MayRegister(hello, b, name))
  {
    DecideExact(hello, T.Resolve(st.tokens, hello.token));
  }

  /** A client told OK becomes a session under the name it was told, unless its
      Ack or its multiplexer fails first. */
  lemma AckedExact(st: State, c: ConnId, s: R.SessionId)
    requires c in st.conns && st.conns[c].Acked? && s !in st.reg.names
    ensures Enabled(st, Attach(c, s))
    ensures var e := Apply(st, Attach(c, s));
            && Origin(e, c, s) && e.reg.names == st.reg.names[s := st.conns[c].name]
            && e.reg.handlers == st.reg.handlers[s := R.Starting] && e.tokens == st.tokens
    ensures Enabled(st, AckFails(c)) && Apply(st, AckFails(c)) == st.(conns := st.conns[c := Dropped])
    ensures Enabled(st, MuxFails(c)) && Apply(st, MuxFails(c)) == st.(conns := st.conns[c := Dropped])
  {}

  /** So over a whole run: what a client that was told OK is bound to comes from
      the boot map or, failing that, from the last token file read successfully
      before its handshake. */
  lemma BoundByLastGoodFile(grace: int, inline: T.TokenMap, past: seq<T.Attempt>, steps: seq<Step>, c: ConnId) returns (j: nat)
    requires Runs(Init(grace, T.After(inline, true, past)), steps)
    requires var st := Exec(Init(grace, T.After(inline, true, past)), steps);
             c in st.conns && (st.conns[c].Acked? || st.conns[c].Attached?)
    ensures j < |steps|
    ensures var k := Exec(Init(grace, T.After(inline, true, past)), steps).conns[c];
            && steps[j] == Handshake(c, k.hello)
            && Some(k.bound) == if k.hello.token in inline then Some(inline[k.hello.token])
                                else Find(T.LastGood(past + Reloads(steps[..j])), k.hello.token)
  {
    var init := Init(grace, T.After(inline, true, past));
    j := ResolvedAtHandshake(init, steps, c);
    Tr.Prefix(Machine(), init, steps, j);
    TokensAreHistory(grace, inline, true, past, steps[..j]);
    T.ResolutionHistory(inline, past + Reloads(steps[..j]), Exec(init, steps).conns[c].hello.token);
  }

  // ---------------------------------------------------------------------
  // Routing and certificates.

  ghost predicate LowerNames(st: State) {
    && T.Tidy(st.tokens)
    && forall c :: c in st.conns && (st.conns[c].Acked? || st.conns[c].Attached?) ==>
         Lower(st.conns[c].name) == st.conns[c].name
  }

  lemma AdmittedNameIsLower(st: State, hello: Hello)
    requires T.Tidy(st.tokens)
    ensures var d := Decide(hello, T.Resolve(st.tokens, hello.token)); d.Admit? ==> Lower(d.name) == d.name
  {
    LowerIdempotent(TrimSpace(hello.service));
  }

  lemma StepKeepsLower(st: State, step: Step)
    requires LowerNames(st) && Enabled(st, step)
    ensures LowerNames(Apply(st, step))
  {
    match step
    case Handshake(_, hello) => AdmittedNameIsLower(st, hello);
    case Reload(attempt) => T.ReloadKeepsTidy(st.tokens, attempt, "");
    case _ =>
  }

  lemma NamesStayLower(grace: int, tokens: T.Store, steps: seq<Step>)
    requires Runs(Init(grace, tokens), steps) && T.Tidy(tokens)
    ensures LowerNames(Exec(Init(grace, tokens), steps))
  {
    forall st, step | LowerNames(st) && Enabled(st, step) ensures LowerNames(Next(st, step)) { StepKeepsLower(st, step); }
    Tr.Invariant(Machine(), LowerNames, Init(grace, tokens), steps);
  }

  /** Some Host header is routed to the name of a session iff that name is one
      non-empty label without a dot or a colon, and the base has no colon: letter
      case never stands in the way, whatever clients ask for and whatever is
      reloaded. */
  lemma SessionReachableIff(grace: int, tokens: T.Store, steps: seq<Step>, s: R.SessionId, base: string)
    requires Runs(Init(grace, tokens), steps) && T.Tidy(tokens)
    requires s in Exec(Init(grace, tokens), steps).reg.names
    ensures var name := Exec(Init(grace, tokens), steps).reg.names[s];
            (exists host :: Route(host, base) == Service(name))
            <==> name != "" && DotFree(name) && ':' !in name && ':' !in base
  {
    NamesStayLower(grace, tokens, steps);
    var c, _ := AdmissionExact(grace, tokens, steps, s);
    RoutableNames(Exec(Init(grace, tokens), steps).reg.names[s], base);
  }

  /** A token bound to a name with a colon is admitted, and its session then gets
      no request: no host is routed to it, under any base. */
  lemma ColonNameUnreachable(grace: int) returns (steps: seq<Step>)
    ensures var init := Init(grace, T.NewStore(map["tok" := "a:b"], false));
            && Runs(init, steps)
            && 0 in Exec(init, steps).reg.names && Exec(init, steps).reg.names[0] == "a:b"
    ensures forall host, base :: Route(host, base) != Service("a:b")
  {
    steps := BoundNameRegisters(grace, "a:b");
    forall host, base ensures Route(host, base) != Service("a:b") {
      assert "a:b"[1] == ':';
      RoutableNames("a:b", base);
    }
  }

  /** A token bound to any name but the wildcard leads to a session of that name. */
  lemma BoundNameRegisters(grace: int, name: string) returns (steps: seq<Step>)
    requires name != "*"
    ensures var init := Init(grace, T.NewStore(map["tok" := name], false));
            Runs(init, steps) && 0 in Exec(init, steps).reg.names && Exec(init, steps).reg.names[0] == name
  {
    var init := Init(grace, T.NewStore(map["tok" := name], false));
    var hello := Hello("tok", "");
    steps := [Accept(0)];
    Tr.JustOne(Machine(), init, Accept(0));
    Tr.OneMore(Machine(), init, steps, Handshake(0, hello));
    steps := steps + [Handshake(0, hello)];
    assert Exec(init, steps).conns[0] == Acked(hello, name, name);
    Tr.OneMore(Machine(), init, steps, Attach(0, 0));
    steps := steps + [Attach(0, 0)];
  }

  /** A forwarded request reaches a session registered under exactly the label
      its host names. */
  lemma RequestReachesItsLabel(grace: int, tokens: T.Store, steps: seq<Step>, p: R.CallId, host: string, base: string)
    requires Runs(Init(grace, tokens), steps)
    requires var st := Exec(Init(grace, tokens), steps);
             && p in st.reg.lookups && st.reg.lookups[p].Returned? && st.reg.lookups[p].outcome.Found?
             && Route(host, base) == Service(st.reg.lookups[p].service)
    ensures var st := Exec(Init(grace, tokens), steps);
            var s := st.reg.lookups[p].outcome.session;
            && s in st.reg.names
            && st.reg.names[s] == ExtractService(StripPort(host), Lower(base))
            && st.reg.names[s] != "" && DotFree(st.reg.names[s])
  {
    var st := Exec(Init(grace, tokens), steps);
    var rsteps := RegistryProjection(grace, tokens, steps);
    var j := RT.FoundWasOccupant(grace, rsteps, p);
    NamesGrow(grace, rsteps, j, st.reg.lookups[p].outcome.session);
    var _ := ExtractIsLastLabel(StripPort(host), Lower(base));
  }

  lemma NamesGrow(grace: int, steps: seq<R.Step>, j: nat, s: R.SessionId)
    requires R.Runs(R.Init(grace), steps) && j <= |steps|
    requires s in R.Exec(R.Init(grace), steps[..j]).names
    ensures s in R.Exec(R.Init(grace), steps).names
    ensures R.Exec(R.Init(grace), steps).names[s] == R.Exec(R.Init(grace), steps[..j]).names[s]
  {
    Tr.Prefix(R.Machine(), R.Init(grace), steps, j);
    var early := R.Exec(R.Init(grace), steps[..j]);
    var named := (reg: R.State) => Find(reg.names, s) == Some(early.names[s]);
    forall reg, step | named(reg) && R.Enabled(reg, step) ensures named(R.Next(reg, step)) {
      if !step.Connect? { NamesFixed(reg, step); }
    }
    Tr.Invariant(R.Machine(), named, early, steps[j..]);
  }

  /** The services the certificate policy may issue for. */
  ghost function Known(reg: R.State): set<string> {
    reg.slots.lastSeen.Keys
  }

  /** A host the policy accepts stays accepted on every continuation of the run. */
  lemma PolicyStable(grace: int, steps: seq<R.Step>, j: nat, host: string, domains: seq<string>, base: string)
    requires R.Runs(R.Init(grace), steps) && j <= |steps|
    requires Accepts(host, domains, base, Known(R.Exec(R.Init(grace), steps[..j])))
    ensures Accepts(host, domains, base, Known(R.Exec(R.Init(grace), steps)))
  {
    var early, late := R.Exec(R.Init(grace), steps[..j]), R.Exec(R.Init(grace), steps);
    forall service | service in Known(early) ensures service in Known(late) {
      RT.HasServiceStable(grace, steps, j, service);
      RI.ReachableInv(grace, steps);
      if service in late.slots.sessions {
        assert RI.Registered(late.names, late.handlers, late.slots.sessions[service], service);
      }
    }
    AcceptsMonotone(host, domains, base, Known(early), Known(late));
  }

  /** A host accepted only for its service is one that routing sends to that
      service, unless the base has a colon; and a session of that name has been
      registered. */
  lemma PolicyAgreesWithRouting(grace: int, steps: seq<R.Step>, host: string, domains: seq<string>, base: string)
    requires R.Runs(R.Init(grace), steps)
    requires Accepts(host, domains, base, Known(R.Exec(R.Init(grace), steps)))
    requires Lower(TrimDot(host)) !in AllowList(domains, base)
    ensures ServiceName(ExtractService(host, base))
    ensures Route(host, base) == Service(ExtractService(host, base)) <==> ':' !in base
    ensures var reg := R.Exec(R.Init(grace), steps);
            exists s :: RI.Registered(reg.names, reg.handlers, s, ExtractService(host, base))
  {
    var reg := R.Exec(R.Init(grace), steps);
    AcceptedHostIsRoutedToIt(host, domains, base, Known(reg));
    RT.HasServiceIsHistory(grace, steps, ExtractService(host, base));
  }

  /** Every host handleControl hands to Issue for a service of the wildcard shape
      is acceptable at that moment and ever after, because Register came first. */
  lemma PrewarmedIsAcceptable(grace: int, steps: seq<R.Step>, service: string, domains: seq<string>, base: string)
    requires R.Runs(R.Init(grace), steps) && service in R.Exec(R.Init(grace), steps).warmed
    requires ServiceName(service) && ProperBase(base)
    ensures Accepts(service + "." + Lower(base), domains, base, Known(R.Exec(R.Init(grace), steps)))
  {
    RI.ReachableInv(grace, steps);
    ServiceNameIsLabel(service);
    PrewarmedHostAccepted(service, domains, base, Known(R.Exec(R.Init(grace), steps)));
  }
}
