/** Which service a Host header names (server/server.go), and which hosts the
    certificate policy accepts (server/tls.go). */
module Hosts {
  import opened Ascii

  /** `^[a-z0-9][a-z0-9-]{0,30}$`. */
  predicate ServiceName(s: string) {
    && 1 <= |s| <= 31
    && LowerAlnum(s[0])
    && forall i :: 0 <= i < |s| ==> LowerAlnum(s[i]) || s[i] == '-'
  }

  predicate LowerAlnum(c: char) {
    'a' <= c <= 'z' || '0' <= c <= '9'
  }

  function StripPort(host: string): string {
    var i := IndexOf(host, ':');
    if i >= 0 then host[..i] else host
  }

  function ExtractService(host: string, base: string): string {
    LabelUnder(Lower(TrimDot(host)), Lower(base))
  }

  /** The body of ExtractService once host and base are normalised. */
  function LabelUnder(h: string, b: string): string {
    if h == "" || h == b then ""
    else
      var suffix := "." + b;
      if !HasSuffix(h, suffix) then ""
      else LastLabel(h[..|h| - |suffix|])
  }

  function LastLabel(inner: string): string {
    var i := LastIndexOf(inner, '.');
    if i >= 0 then inner[i + 1..] else inner
  }

  /** Where the public handler sends a request for a non-/health path. */
  datatype Destination = Admin | UnknownHost | Service(name: string)

  predicate AdminHost(host: string, base: string) {
    EqualFold(host, base) || EqualFold(host, "www." + base)
  }

  function Route(hostHeader: string, baseDomain: string): Destination {
    var host := StripPort(hostHeader);
    var base := Lower(baseDomain);
    if AdminHost(host, base) then Admin
    else
      var service := ExtractService(host, base);
      if service == "" then UnknownHost else Service(service)
  }

  /** The front of a host: nothing, or a chain of labels each closed by a dot. */
  predicate LabelChain(pre: string) {
    pre == "" || EndsWithDot(pre)
  }

  /** A base domain under which hosts can be told apart at all. */
  predicate ProperBase(base: string) {
    base != "" && !EndsWithDot(base)
  }

  // ---------------------------------------------------------------------
  // ExtractService and host construction are inverse to each other.

  lemma LastLabelOf(pre: string, s: string)
    requires LabelChain(pre) && DotFree(s)
    ensures LastLabel(pre + s) == s
  {
    var inner := pre + s;
    var i := LastIndexOf(inner, '.');
    forall k | |pre| <= k < |inner| ensures inner[k] != '.' { assert inner[k] == s[k - |pre|]; }
    if pre != "" { assert inner[|pre| - 1] == '.'; }
    assert i == |pre| - 1;
    assert inner[i + 1..] == s;
  }

  lemma LastLabelSplits(inner: string) returns (pre: string)
    ensures LabelChain(pre) && DotFree(LastLabel(inner)) && inner == pre + LastLabel(inner)
  {
    var i := LastIndexOf(inner, '.');
    pre := inner[..i + 1];
    assert inner == inner[..i + 1] + inner[i + 1..];
  }

  lemma LabelUnderProperBase(pre: string, s: string, b: string)
    requires LabelChain(pre) && s != "" && DotFree(s)
    ensures LabelUnder(pre + s + "." + b, b) == s
  {
    var h := pre + s + "." + b;
    assert h == (pre + s) + ("." + b);
    assert h[..|h| - |"." + b|] == pre + s;
    LastLabelOf(pre, s);
  }

  /** A base ending in a dot (or an empty one) does not match a host it is joined
      to once: trimming takes off the dot that belongs to the base. */
  lemma ImproperJoinNeverMatches(front: string, b: string)
    requires front != "" && !EndsWithDot(front) && !ProperBase(b)
    ensures LabelUnder(TrimDot(front + "." + b), b) == ""
  {
    var suffix := "." + b;
    var h := TrimDot(front + "." + b);
    var at := |h| - |suffix|;
    assert EndsWithDot(front + "." + b);
    assert h[at] == front[|front| - 1];
    assert suffix[0] != h[at] == h[at..][0];
  }

  /** Lower-casing and trimming a joined host. */
  lemma NormaliseJoin(pre: string, s: string, base: string)
    ensures Lower(TrimDot(pre + s + "." + base)) == TrimDot(Lower(pre) + Lower(s) + "." + Lower(base))
  {}

  /** Under any chain of labels, the label next to the base comes back in lower
      case exactly when the base is non-empty and has no trailing dot. */
  lemma ExtractInvertsJoin(pre: string, s: string, base: string)
    requires LabelChain(pre) && s != "" && DotFree(s)
    ensures ExtractService(pre + s + "." + base, base) == Lower(s) <==> ProperBase(base)
  {
    NormaliseJoin(pre, s, base);
    LowerKeepsDots(pre);
    LowerKeepsDots(s);
    LowerKeepsDots(base);
    var p, l, b := Lower(pre), Lower(s), Lower(base);
    var joined := p + l + "." + b;
    if ProperBase(base) {
      assert joined[|joined| - 1] == b[|b| - 1];
      LabelUnderProperBase(p, l, b);
    } else {
      assert (p + l)[|p + l| - 1] == l[|l| - 1];
      ImproperJoinNeverMatches(p + l, b);
    }
  }

  lemma LabelUnderSplits(h: string, b: string) returns (pre: string)
    ensures var s := LabelUnder(h, b);
            DotFree(s) && (s != "" ==> LabelChain(pre) && h == pre + s + "." + b)
  {
    var suffix := "." + b;
    pre := "";
    if h != "" && h != b && HasSuffix(h, suffix) {
      var inner := h[..|h| - |suffix|];
      pre := LastLabelSplits(inner);
      assert h == inner + suffix;
      assert h == pre + LastLabel(inner) + "." + b;
    }
  }

  /** Conversely, every answer is the label next to the base of the host asked
      about, in lower case, without a dot. */
  lemma ExtractIsLastLabel(host: string, base: string) returns (pre: string)
    ensures var s := ExtractService(host, base);
            && DotFree(s)
            && Lower(s) == s
            && (s != "" ==> LabelChain(pre) && Lower(TrimDot(host)) == pre + s + "." + Lower(base))
  {
    LowerIdempotent(TrimDot(host));
    pre := LabelUnderSplits(Lower(TrimDot(host)), Lower(base));
    var s := ExtractService(host, base);
    if s != "" { LowerMiddle(pre, s, "." + Lower(base), Lower(TrimDot(host))); }
  }

  lemma LowerMiddle(pre: string, s: string, rest: string, whole: string)
    requires whole == pre + s + rest && Lower(whole) == whole
    ensures Lower(s) == s
  {
    assert s == whole[|pre|..|pre| + |s|];
    LowerOfPart(whole, |pre|, |pre| + |s|);
  }

  /** Letter case, one trailing dot and a port do not change the answer. */
  lemma ExtractIgnoresDecoration(host: string, other: string, base: string, port: string)
    requires EqualFold(host, other) && !EndsWithDot(host)
    ensures ExtractService(other, base) == ExtractService(host, base)
    ensures ExtractService(host + ".", base) == ExtractService(host, base)
    ensures StripPort(host + ":" + port) == StripPort(host)
    ensures ':' !in host ==> StripPort(host) == host
  {
    LowerKeepsDots(host);
    LowerKeepsDots(other);
    assert TrimDot(host + ".") == host;
    StripPortOfJoin(host, port);
  }

  lemma StripPortOfJoin(host: string, port: string)
    ensures StripPort(host + ":" + port) == StripPort(host)
  {
    var full := host + ":" + port;
    var i := IndexOf(host, ':');
    var j := IndexOf(full, ':');
    assert full[|host|] == ':';
    assert forall k :: 0 <= k < |host| ==> full[k] == host[k];
    if i >= 0 {
      assert j == i;
      assert full[..i] == host[..i];
    } else {
      assert j == |host|;
      assert full[..j] == host;
    }
  }

  /** Case folded and without one trailing dot, the host is a chain of labels, the
      label s and the base. */
  ghost predicate Names(host: string, base: string, s: string) {
    s != "" && DotFree(s) && exists pre :: LabelChain(pre) && Lower(TrimDot(host)) == pre + s + "." + Lower(base)
  }

  /** Extraction finds a service exactly in the hosts that name one. */
  lemma ExtractServiceIff(host: string, base: string, s: string)
    requires s != ""
    ensures ExtractService(host, base) == s <==> Names(host, base, s)
  {
    if ExtractService(host, base) == s {
      var _ := ExtractIsLastLabel(host, base);
    }
    if Names(host, base, s) {
      var pre :| LabelChain(pre) && Lower(TrimDot(host)) == pre + s + "." + Lower(base);
      LabelUnderProperBase(pre, s, Lower(base));
    }
  }

  /** Under a base that ends in a dot (or an empty one) a host names a service iff
      it spells out the dot of the base and one more, which is trimmed. */
  lemma ImproperBaseNeedsTwoDots(host: string, base: string, s: string)
    requires !ProperBase(base) && s != ""
    ensures ExtractService(host, base) == s
       <==> DotFree(s) && exists pre :: LabelChain(pre) && Lower(host) == pre + s + "." + Lower(base) + "."
    ensures ExtractService(host, base) == s ==> EndsWithDot(host) && EndsWithDot(host[..|host| - 1])
  {
    ExtractServiceIff(host, base, s);
    forall pre ensures Lower(TrimDot(host)) == pre + s + "." + Lower(base) <==> Lower(host) == pre + s + "." + Lower(base) + "." {
      TrimsToDot(host, pre + s + ".", base);
    }
    if pre :| LabelChain(pre) && Lower(host) == pre + s + "." + Lower(base) + "." {
      var l := Lower(host);
      LowerKeepsDots(base);
      assert l[|l| - 2] == '.' && l[|l| - 1] == '.';
    }
  }

  lemma TrimsToDot(host: string, front: string, base: string)
    requires !ProperBase(base) && EndsWithDot(front)
    ensures Lower(TrimDot(host)) == front + Lower(base) <==> Lower(host) == front + Lower(base) + "."
  {
    var whole := front + Lower(base);
    LowerKeepsDots(base);
    LowerKeepsDots(host);
    LowerKeepsDots(TrimDot(host));
    assert whole[|whole| - 1] == if base == "" then front[|front| - 1] else Lower(base)[|base| - 1];
    UntrimDot(Lower(host), whole);
  }

  lemma UntrimDot(s: string, t: string)
    requires EndsWithDot(t)
    ensures TrimDot(s) == t <==> s == t + "."
  {
    if TrimDot(s) == t { assert s == s[..|s| - 1] + "."; }
  }

  /** With its own dot and one more, a host names its last label under every base. */
  lemma QualifiedJoin(pre: string, s: string, base: string)
    requires LabelChain(pre) && s != "" && DotFree(s)
    ensures ExtractService(pre + s + "." + base + ".", base) == Lower(s)
  {
    var host := pre + s + "." + base;
    assert TrimDot(host + ".") == host;
    LowerKeepsDots(pre);
    LowerKeepsDots(s);
    assert Lower(host) == Lower(pre) + Lower(s) + "." + Lower(base);
    LabelUnderProperBase(Lower(pre), Lower(s), Lower(base));
  }

  lemma RouteWithoutPort(host: string, base: string)
    requires ':' !in host
    ensures Route(host, base) ==
            if AdminHost(host, Lower(base)) then Admin
            else if ExtractService(host, base) == "" then UnknownHost
            else Service(ExtractService(host, base))
  {
    LowerIdempotent(base);
    assert StripPort(host) == host;
  }

  /** The dashboard test spares every host that names a service, but www. */
  lemma RouteOfNamedHost(host: string, base: string)
    requires ':' !in host && ExtractService(host, base) != ""
    ensures Lower(host) == "www." + Lower(base) ==> !EndsWithDot(host)
    ensures Route(host, base) ==
            if Lower(host) == "www." + Lower(base) then Admin else Service(ExtractService(host, base))
  {
    var pre := ExtractIsLastLabel(host, base);
    var s, b, h := ExtractService(host, base), Lower(base), Lower(TrimDot(host));
    assert |host| >= |h| >= |b| + 2;
    LowerIdempotent(base);
    assert Lower("www." + b) == "www." + b;
    RouteWithoutPort(host, base);
    if EndsWithDot(host) && |host| == |b| + 4 {
      assert Lower(host)[2] == h[2] == h[|pre + s|] == '.';
    }
  }

  /** With two final dots, or with one under a base without, a label is routed to
      under every base free of colons. */
  lemma RouteOfQualified(host: string, pre: string, s: string, base: string)
    requires host == pre + s + "." + base + "." && LabelChain(pre) && s != "" && DotFree(s) && Lower(s) == s
    requires ':' !in pre && ':' !in s && ':' !in base
    ensures Route(host, base) == Service(s)
  {
    QualifiedJoin(pre, s, base);
    RouteOfNamedHost(host, base);
    assert EndsWithDot(host);
  }

  /** A host that spells out two final dots reaches a service under a base that ends in one. */
  lemma TwoDotHost()
    ensures !ProperBase("r.com.") && Route("foo.r.com..", "r.com.") == Service("foo")
  {
    PlainLabel("foo");
    assert "foo.r.com.." == "" + "foo" + "." + "r.com." + ".";
    RouteOfQualified("foo.r.com..", "", "foo", "r.com.");
  }

  lemma PlainLabel(s: string)
    requires forall i :: 0 <= i < |s| ==> 'a' <= s[i] <= 'z'
    ensures DotFree(s) && Lower(s) == s && ':' !in s
  {}

  /** The range of routing: requests can be sent to a service name by some Host
      header iff it is one lower-case, non-empty label without a dot or a colon,
      and the base has no colon either. A session of any other name serves nobody. */
  lemma RoutableNames(name: string, base: string)
    ensures (exists host :: Route(host, base) == Service(name))
       <==> name != "" && DotFree(name) && Lower(name) == name && ':' !in name && ':' !in base
  {
    if name != "" && DotFree(name) && Lower(name) == name && ':' !in name && ':' !in base {
      RouteOfQualified("" + name + "." + base + ".", "", name, base);
    }
    if host :| Route(host, base) == Service(name) {
      ColonsStayOut(host, base, name);
    }
  }

  lemma ColonsStayOut(host: string, base: string, name: string)
    requires Route(host, base) == Service(name)
    ensures name != "" && DotFree(name) && Lower(name) == name && ':' !in name && ':' !in base
  {
    var h := StripPort(host);
    var pre := ExtractIsLastLabel(h, Lower(base));
    LowerIdempotent(base);
    assert NoColon(h);
    LowerKeepsColons(TrimDot(h));
    NoColonParts(Lower(TrimDot(h)), pre, name, Lower(base));
    LowerKeepsColons(name);
    LowerKeepsColons(base);
  }

  lemma NoColonParts(whole: string, pre: string, s: string, b: string)
    requires whole == pre + s + "." + b
    ensures NoColon(whole) <==> NoColon(pre) && NoColon(s) && NoColon(b)
  {
    assert forall i :: 0 <= i < |pre| ==> pre[i] == whole[i];
    assert forall i :: 0 <= i < |s| ==> s[i] == whole[|pre| + i];
    assert forall i :: 0 <= i < |b| ==> b[i] == whole[|pre| + |s| + 1 + i];
  }

  predicate NoColon(s: string) {
    forall i :: 0 <= i < |s| ==> s[i] != ':'
  }

  lemma LowerKeepsColons(s: string)
    ensures NoColon(Lower(s)) <==> NoColon(s)
    ensures NoColon(s) <==> ':' !in s
  {}

  /** The port of a Host header does not matter. */
  lemma PortIgnored(host: string, port: string, base: string)
    ensures Route(host + ":" + port, base) == Route(host, base)
  {
    StripPortOfJoin(host, port);
  }

  /** Where a host without a port goes: to the dashboard iff it is the base or
      www under it, to a service iff it is neither and names it, and nowhere iff
      it is neither and names none. */
  lemma RouteExact(host: string, base: string)
    requires ':' !in host
    ensures var dashboard := Lower(host) == Lower(base) || Lower(host) == "www." + Lower(base);
            && (Route(host, base) == Admin <==> dashboard)
            && (forall s :: Route(host, base) == Service(s) <==> !dashboard && Names(host, base, s))
            && (Route(host, base) == UnknownHost <==> !dashboard && forall s :: !Names(host, base, s))
  {
    RouteWithoutPort(host, base);
    AdminHostExact(host, base);
    forall s ensures Names(host, base, s) <==> s != "" && ExtractService(host, base) == s {
      if s != "" { ExtractServiceIff(host, base, s); }
    }
  }

  lemma AdminHostExact(host: string, base: string)
    ensures AdminHost(host, Lower(base)) <==> Lower(host) == Lower(base) || Lower(host) == "www." + Lower(base)
  {
    LowerIdempotent(base);
    assert Lower("www." + Lower(base)) == "www." + Lower(base);
  }

  const LABEL_CHARS := "abcdefghijklmnopqrstuvwxyz0123456789-"

  /** The service shape: one to 31 of these characters, not starting with a hyphen. */
  lemma ServiceNameExact(s: string)
    ensures ServiceName(s) <==> 1 <= |s| <= 31 && s[0] != '-' && forall i :: 0 <= i < |s| ==> s[i] in LABEL_CHARS
  {
    forall c: char ensures c in LABEL_CHARS <==> LowerAlnum(c) || c == '-' { LabelCharsExact(c); }
  }

  lemma LabelCharsExact(c: char)
    ensures c in LABEL_CHARS <==> LowerAlnum(c) || c == '-'
  {
    LabelCharsInOrder();
    if 'a' <= c <= 'z' { assert LABEL_CHARS[c as int - 'a' as int] == c; }
    if '0' <= c <= '9' { assert LABEL_CHARS[26 + (c as int - '0' as int)] == c; }
    if c == '-' { assert LABEL_CHARS[36] == c; }
  }

  lemma LabelCharsInOrder()
    ensures forall k :: 0 <= k < 26 ==> LABEL_CHARS[k] as int == 'a' as int + k
    ensures forall k :: 26 <= k < 36 ==> LABEL_CHARS[k] as int == '0' as int + (k - 26)
    ensures LABEL_CHARS[36] == '-'
  {}

  /** The regular expression admits only reachable names. */
  lemma ServiceNameIsLabel(s: string)
    requires ServiceName(s)
    ensures s != "" && DotFree(s) && Lower(s) == s && ':' !in s && !EndsWithDot(s)
  {}

  /** The dot of a fully qualified host changes the destination exactly when
      one of the two forms is a dashboard host. */
  lemma TrailingDotAndRouting(host: string, base: string)
    requires ':' !in host && !EndsWithDot(host)
    ensures Route(host + ".", base) == Route(host, base)
       <==> !AdminHost(host, Lower(base)) && !AdminHost(host + ".", Lower(base))
  {}

  /** Appended to the apex it turns the dashboard into an unknown host, appended
      to www into a request for a service "www". */
  lemma DashboardTrailingDot(base: string)
    requires ProperBase(base) && ':' !in base
    ensures Route(base, base) == Admin && Route(base + ".", base) == UnknownHost
    ensures Route("www." + base, base) == Admin && Route("www." + base + ".", base) == Service("www")
  {
    LowerIdempotent(base);
    RouteWithoutPort(base, base);
    DottedApex(base);
    WwwIsAdmin(base);
    DottedWww(base);
  }

  lemma DottedWww(base: string)
    requires ':' !in base
    ensures Route("www." + base + ".", base) == Service("www")
  {
    PlainLabel("www");
    WwwJoin(base);
    RouteOfQualified("www." + base + ".", "", "www", base);
  }

  lemma WwwJoin(base: string)
    ensures "www." + base + "." == "" + "www" + "." + base + "."
  {
    assert "www" + "." == "www.";
  }

  lemma WwwIsAdmin(base: string)
    requires ':' !in base
    ensures Route("www." + base, base) == Admin
  {
    RouteWithoutPort("www." + base, base);
    LowerIdempotent(base);
    assert Lower("www." + base) == "www." + Lower(base) == Lower("www." + Lower(base));
  }

  lemma DottedApex(base: string)
    requires ProperBase(base) && ':' !in base
    ensures Route(base + ".", base) == UnknownHost
  {
    RouteWithoutPort(base + ".", base);
    LowerIdempotent(base);
    assert TrimDot(base + ".") == base;
    assert |Lower("www." + Lower(base))| == |base| + 4;
  }

  // ---------------------------------------------------------------------
  // The certificate policy.

  /** The hosts accepted whatever has been registered. */
  function AllowList(domains: seq<string>, baseDomain: string): set<string> {
    (set d | d in domains :: Lower(d)) + {Lower(baseDomain), "www." + Lower(baseDomain)}
  }

  /** autocertHostPolicy; `registered` are the services HasService accepts. */
  predicate Accepts(host: string, domains: seq<string>, baseDomain: string, registered: set<string>) {
    var h := Lower(TrimDot(host));
    var suffix := "." + Lower(baseDomain);
    || h in AllowList(domains, baseDomain)
    || (HasSuffix(h, suffix) &&
        var inner := h[..|h| - |suffix|];
        ServiceName(inner) && inner in registered)
  }

  /** Building the allow list by the loop of the source. */
  method BuildAllowList(domains: seq<string>, baseDomain: string) returns (allow: set<string>)
    ensures allow == AllowList(domains, baseDomain)
  {
    var base := Lower(baseDomain);
    allow := {};
    for i := 0 to |domains|
      invariant allow == set d | d in domains[..i] :: Lower(d)
    {
      allow := allow + {Lower(domains[i])};
      assert domains[..i + 1] == domains[..i] + [domains[i]];
    }
    assert domains[..|domains|] == domains;
    allow := allow + {base};
    allow := allow + {"www." + base};
  }

  /** The policy agrees with routing: a host accepted for its service is one
      whose requests go to that same, registered, service, unless a colon in the
      base makes every host lose its end to the port. */
  lemma AcceptedHostIsRoutedToIt(host: string, domains: seq<string>, base: string, registered: set<string>)
    requires Accepts(host, domains, base, registered)
    requires Lower(TrimDot(host)) !in AllowList(domains, base)
    ensures ServiceName(ExtractService(host, base)) && ExtractService(host, base) in registered
    ensures Lower(TrimDot(host)) == ExtractService(host, base) + "." + Lower(base)
    ensures Route(host, base) == Service(ExtractService(host, base)) <==> ':' !in base
  {
    AcceptedIsJoin(host, domains, base, registered);
    var s := ExtractService(host, base);
    if ':' in base {
      RoutableNames(s, base);
    } else {
      LowerKeepsColons(base);
      LowerKeepsColons(TrimDot(host));
      assert Lower(TrimDot(host)) == "" + s + "." + Lower(base);
      NoColonParts(Lower(TrimDot(host)), "", s, Lower(base));
      UndottedHasNoColon(host);
      RouteOfNamedHost(host, base);
    }
  }

  lemma UndottedHasNoColon(host: string)
    requires NoColon(TrimDot(host))
    ensures ':' !in host
  {
    assert forall i :: 0 <= i < |TrimDot(host)| ==> TrimDot(host)[i] == host[i];
  }

  lemma AcceptedIsJoin(host: string, domains: seq<string>, base: string, registered: set<string>)
    requires Accepts(host, domains, base, registered)
    requires Lower(TrimDot(host)) !in AllowList(domains, base)
    ensures ServiceName(ExtractService(host, base)) && ExtractService(host, base) in registered
    ensures Lower(TrimDot(host)) == ExtractService(host, base) + "." + Lower(base)
  {}

  /** The hosts a certificate may be issued for: those listed, the base, www under
      it, and "<service>.<base>" for registered services of the right shape. */
  lemma AcceptsExact(host: string, domains: seq<string>, base: string, registered: set<string>)
    ensures var h := Lower(TrimDot(host));
            Accepts(host, domains, base, registered)
            <==> || (exists i :: 0 <= i < |domains| && h == Lower(domains[i]))
                 || h == Lower(base) || h == "www." + Lower(base)
                 || (exists s :: s in registered && ServiceName(s) && h == s + "." + Lower(base))
  {
    ListedExact(Lower(TrimDot(host)), domains, base);
    RegisteredExact(Lower(TrimDot(host)), "." + Lower(base), registered);
    forall s: string ensures s + "." + Lower(base) == s + ("." + Lower(base)) {}
  }

  lemma RegisteredExact(h: string, suffix: string, registered: set<string>)
    ensures (HasSuffix(h, suffix) && var inner := h[..|h| - |suffix|]; ServiceName(inner) && inner in registered)
       <==> exists s :: s in registered && ServiceName(s) && h == s + suffix
  {
    if HasSuffix(h, suffix) { assert h == h[..|h| - |suffix|] + suffix; }
  }

  lemma ListedExact(h: string, domains: seq<string>, base: string)
    ensures h in AllowList(domains, base)
       <==> (exists i :: 0 <= i < |domains| && h == Lower(domains[i])) || h == Lower(base) || h == "www." + Lower(base)
  {}

  /** What is registered only grows, and so does what is accepted. */
  lemma AcceptsMonotone(host: string, domains: seq<string>, base: string, some: set<string>, more: set<string>)
    requires some <= more && Accepts(host, domains, base, some)
    ensures Accepts(host, domains, base, more)
  {}

  /** The suffix test of the policy on a trimmed "<service>.<base>". */
  lemma TrimmedJoinUnderBase(service: string, b: string)
    requires service != "" && !EndsWithDot(service)
    ensures HasSuffix(TrimDot(service + "." + b), "." + b) <==> ProperBase(b)
    ensures ProperBase(b) ==> TrimDot(service + "." + b) == service + ("." + b)
  {
    var host := service + "." + b;
    var h := TrimDot(host);
    var at := |h| - |"." + b|;
    if ProperBase(b) {
      assert host[|host| - 1] == b[|b| - 1];
      assert h == service + ("." + b);
    } else {
      assert EndsWithDot(host);
      assert h[at] == service[|service| - 1];
      assert h[at..][0] != ("." + b)[0];
    }
  }

  /** The pre-warmed host "<service>.<base>" of a registered service is accepted
      iff it is listed or its name has the service shape and the base is proper. */
  lemma PrewarmedHostAccepted(service: string, domains: seq<string>, base: string, registered: set<string>)
    requires service in registered && service != "" && !EndsWithDot(service) && Lower(service) == service
    ensures Accepts(service + "." + Lower(base), domains, base, registered)
       <==> || TrimDot(service + "." + Lower(base)) in AllowList(domains, base)
            || (ServiceName(service) && ProperBase(base))
  {
    var b := Lower(base);
    LowerKeepsDots(base);
    LowerIdempotent(base);
    NormaliseJoin("", service, b);
    assert "" + service + "." + b == service + "." + b;
    assert Lower("") + Lower(service) + "." + Lower(b) == service + "." + b;
    var h := TrimDot(service + "." + b);
    assert Lower(TrimDot(service + "." + b)) == h;
    TrimmedJoinUnderBase(service, b);
    if ProperBase(b) {
      assert h[..|h| - |"." + b|] == service;
    }
  }
}
