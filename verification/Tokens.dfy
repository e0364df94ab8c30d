/** The token store of server/reload.go: which service a token is bound to, over
    any history of reloads of the token file. */
module Tokens {
  import opened Ascii
  import opened Options

  type TokenMap = map<string, string>

  datatype Store = Store(inline: TokenMap, file: TokenMap, hasPath: bool, lastErr: string)

  /** Reading the file: a parsed JSON object, or a failure to read or parse. */
  datatype Attempt = Good(parsed: TokenMap) | Unreadable(cause: string) | Unparsable(cause: string)

  /** The values of a file are trimmed and lower-cased. */
  function Clean(m: TokenMap): TokenMap {
    map token | token in m :: Lower(TrimSpace(m[token]))
  }

  function ErrorText(a: Attempt): string
    requires !a.Good?
  {
    (if a.Unreadable? then "read tokens file: " else "parse tokens file: ") + a.cause
  }

  /** LoadConfig merges the file into the map that becomes `inline`. */
  function BootMap(env: TokenMap, bootFile: Option<TokenMap>): TokenMap {
    if bootFile.Some? then env + Clean(bootFile.value) else env
  }

  function NewStore(inline: TokenMap, hasPath: bool): Store {
    Store(inline, map[], hasPath, "")
  }

  function Reloaded(s: Store, a: Attempt): Store {
    if !s.hasPath then s
    else if a.Good? then s.(file := Clean(a.parsed), lastErr := "")
    else s.(lastErr := ErrorText(a))
  }

  function Resolve(s: Store, token: string): Option<string> {
    if token in s.inline then Some(s.inline[token])
    else if token in s.file then Some(s.file[token])
    else None
  }

  /** The dashboard's view, in which the file overrides. */
  function AllTokens(s: Store): TokenMap {
    s.inline + s.file
  }

  /** /health answers 500. */
  predicate Unhealthy(s: Store) {
    s.lastErr != ""
  }

  /** The store after a history of reloads, the one at start included. */
  function After(inline: TokenMap, hasPath: bool, history: seq<Attempt>): Store {
    if history == [] then NewStore(inline, hasPath)
    else Reloaded(After(inline, hasPath, history[..|history| - 1]), history[|history| - 1])
  }

  /** The file as last read successfully. */
  function LastGood(history: seq<Attempt>): TokenMap {
    if history == [] then map[]
    else if history[|history| - 1].Good? then Clean(history[|history| - 1].parsed)
    else LastGood(history[..|history| - 1])
  }

  /** The name that a value in a token file stands for: its text without the
      white space around it, in lower case. */
  ghost predicate Stands(value: string, name: string) {
    exists before, core, after ::
      Blank(before) && Blank(after) && Trimmed(core) && value == before + core + after && name == Lower(core)
  }

  lemma StandsExact(value: string, name: string)
    ensures Stands(value, name) <==> name == Lower(TrimSpace(value))
  {
    var core := TrimSpace(value);
    TrimSpaceExact(value, core);
    if name == Lower(core) {
      var before, after :| Blank(before) && Blank(after) && value == before + core + after;
    }
    if Stands(value, name) {
      var before, part, after :|
        Blank(before) && Blank(after) && Trimmed(part) && value == before + part + after && name == Lower(part);
      TrimSpaceExact(value, part);
    }
  }

  /** A file binds exactly the tokens in it, each to the name its value stands for. */
  lemma FileExact(parsed: TokenMap)
    ensures Clean(parsed).Keys == parsed.Keys
    ensures forall token, name :: token in parsed ==> (Clean(parsed)[token] == name <==> Stands(parsed[token], name))
  {
    forall token, name | token in parsed ensures Clean(parsed)[token] == name <==> Stands(parsed[token], name) {
      StandsExact(parsed[token], name);
    }
  }

  /** At boot the file wins over the environment. */
  lemma BootExact(env: TokenMap, bootFile: Option<TokenMap>, token: string, name: string)
    ensures Find(BootMap(env, bootFile), token) == Some(name) <==>
            if bootFile.Some? && token in bootFile.value then Stands(bootFile.value[token], name)
            else Find(env, token) == Some(name)
  {
    if bootFile.Some? && token in bootFile.value { StandsExact(bootFile.value[token], name); }
  }

  /** Over any mix of good and failed reloads a token resolves through the boot
      map, then through the file as last read successfully; and the server is
      unhealthy exactly when the latest attempt failed. */
  lemma {:induction false} ResolutionHistory(inline: TokenMap, history: seq<Attempt>, token: string)
    ensures var s := After(inline, true, history);
            && s.hasPath && s.inline == inline && s.file == LastGood(history)
            && Resolve(s, token) == (if token in inline then Some(inline[token]) else Find(LastGood(history), token))
            && (Unhealthy(s) <==> history != [] && !history[|history| - 1].Good?)
    decreases |history|
  {
    if history != [] {
      ResolutionHistory(inline, history[..|history| - 1], token);
      var a := history[|history| - 1];
      if !a.Good? { assert |ErrorText(a)| > 0; }
    }
  }

  /** Every service name a map binds is in lower case. */
  ghost predicate LowerCased(m: TokenMap) {
    forall token :: token in m ==> Lower(m[token]) == m[token]
  }

  ghost predicate Tidy(s: Store) {
    LowerCased(s.inline) && LowerCased(s.file)
  }

  lemma CleanIsLower(m: TokenMap)
    ensures LowerCased(Clean(m)) && Clean(m).Keys == m.Keys
  {
    forall token | token in m ensures Lower(Clean(m)[token]) == Clean(m)[token] {
      LowerIdempotent(TrimSpace(m[token]));
    }
  }

  /** Whatever the file says, no reload makes a token resolve to a name that is
      not in lower case. */
  lemma ReloadKeepsTidy(s: Store, a: Attempt, token: string)
    requires Tidy(s)
    ensures Tidy(Reloaded(s, a))
    ensures var r := Resolve(Reloaded(s, a), token); r.Some? ==> Lower(r.value) == r.value
  {
    if a.Good? { CleanIsLower(a.parsed); }
  }

  /** A failed reload changes no resolution. */
  lemma FailedReloadIsHarmless(s: Store, a: Attempt, token: string)
    requires !a.Good?
    ensures Resolve(Reloaded(s, a), token) == Resolve(s, token) && AllTokens(Reloaded(s, a)) == AllTokens(s)
    ensures Unhealthy(Reloaded(s, a)) <==> s.hasPath || Unhealthy(s)
  {}

  /** Because the boot map already contains the file as it was at boot, editing
      the file can change what a token means iff the token was in neither the
      environment nor the boot-time file: all others keep their boot binding
      under every history of reloads. */
  lemma ReloadMattersIff(env: TokenMap, bootFile: TokenMap, token: string)
    ensures var inline := BootMap(env, Some(bootFile));
            (exists one: seq<Attempt>, other: seq<Attempt> ::
               Resolve(After(inline, true, one), token) != Resolve(After(inline, true, other), token))
            <==> (token !in env && token !in bootFile)
  {
    var inline := BootMap(env, Some(bootFile));
    assert token in inline <==> token in env || token in bootFile;
    if token in inline {
      forall one: seq<Attempt>, other: seq<Attempt>
        ensures Resolve(After(inline, true, one), token) == Resolve(After(inline, true, other), token)
      {
        ResolutionHistory(inline, one, token);
        ResolutionHistory(inline, other, token);
      }
    } else {
      var one: seq<Attempt> := [];
      var other := [Good(map[token := "*"])];
      ResolutionHistory(inline, one, token);
      ResolutionHistory(inline, other, token);
      assert token in LastGood(other);
      assert Resolve(After(inline, true, one), token) != Resolve(After(inline, true, other), token);
    }
  }

  /** The dashboard and the handshake agree on every token iff the two maps agree
      wherever they overlap. */
  lemma AllAgreesIff(s: Store)
    ensures (forall token :: Find(AllTokens(s), token) == Resolve(s, token))
       <==> (forall token :: token in s.inline && token in s.file ==> s.inline[token] == s.file[token])
  {
    if forall token :: Find(AllTokens(s), token) == Resolve(s, token) {
      forall token | token in s.inline && token in s.file ensures s.inline[token] == s.file[token] {
        assert Find(AllTokens(s), token) == Resolve(s, token);
      }
    }
  }

  /** It happens: after some history the two disagree on a token iff the token
      was already there at boot. Re-binding it in the file then shows the new name
      on the dashboard, while handshakes go on using the old one. */
  lemma DisagreementReachableIff(env: TokenMap, bootFile: TokenMap, token: string)
    ensures var inline := BootMap(env, Some(bootFile));
            (exists history: seq<Attempt> ::
               Find(AllTokens(After(inline, true, history)), token) != Resolve(After(inline, true, history), token))
            <==> token in env || token in bootFile
  {
    var inline := BootMap(env, Some(bootFile));
    assert token in inline <==> token in env || token in bootFile;
    forall history: seq<Attempt> | token !in inline
      ensures Find(AllTokens(After(inline, true, history)), token) == Resolve(After(inline, true, history), token)
    {
      ResolutionHistory(inline, history, token);
    }
    if token in inline {
      var name := if inline[token] == "a" then "b" else "a";
      var history := [Good(map[token := name])];
      RebindingShows(inline, token, name);
      assert Find(AllTokens(After(inline, true, history)), token) != Resolve(After(inline, true, history), token);
    }
  }

  lemma RebindingShows(inline: TokenMap, token: string, name: string)
    requires token in inline && Lower(TrimSpace(name)) == name
    ensures var s := After(inline, true, [Good(map[token := name])]);
            Find(AllTokens(s), token) == Some(name) && Resolve(s, token) == Some(inline[token])
  {
    var history := [Good(map[token := name])];
    ResolutionHistory(inline, history, token);
    assert LastGood(history)[token] == name;
  }

  class TokenStore {
    const inline: TokenMap
    const hasPath: bool
    var file: TokenMap
    var lastErr: string

    ghost function View(): Store reads this {
      Store(inline, file, hasPath, lastErr)
    }

    constructor (inline: TokenMap, hasPath: bool, first: Attempt)
      ensures View() == Reloaded(NewStore(inline, hasPath), first)
    {
      this.inline, this.hasPath := inline, hasPath;
      file, lastErr := map[], "";
      new;
      Reload(first);
    }

    method Reload(a: Attempt)
      modifies this
      ensures View() == Reloaded(old(View()), a)
    {
      if !hasPath {
        return;
      }
      if !a.Good? {
        lastErr := ErrorText(a);
        return;
      }
      file := Clean(a.parsed);
      lastErr := "";
    }

    method Lookup(token: string) returns (service: Option<string>)
      ensures service == Resolve(View(), token)
    {
      if token in inline {
        return Some(inline[token]);
      }
      if token in file {
        return Some(file[token]);
      }
      service := None;
    }

    method All() returns (out: TokenMap)
      ensures out == AllTokens(View())
    {
      out := CopyInto(map[], inline);
      out := CopyInto(out, file);
      assert out == inline + file;
    }
  }

  /** The copying loop of All. */
  method CopyInto(target: TokenMap, source: TokenMap) returns (out: TokenMap)
    ensures out == target + source
  {
    out := target;
    var todo := source.Keys;
    while todo != {}
      invariant todo <= source.Keys
      invariant out == target + (source - todo)
      decreases todo
    {
      var k :| k in todo;
      out := out[k := source[k]];
      todo := todo - {k};
    }
    assert source - todo == source;
  }
}
