/** Programs the privacy gate passes although they may reach any host, and exactly which calls they
    are about. */
module GateLimits {
  import opened Wrappers
  import opened Text
  import opened PythonTree
  import opened Urls
  import opened PrivacyGate
  import opened GateSoundness

  // ---------- Small programs ----------

  // from moduleName import name
  datatype From = From(moduleName: string, name: string)

  function Statement(f: From): Node {
    ImportFrom(Some(f.moduleName), [Alias(f.name, None)])
  }

  function Program(imports: seq<From>, e: Node): Node {
    Other(seq(|imports|, i requires 0 <= i < |imports| => Statement(imports[i])) + [e], 0)
  }

  predicate IsExpression(e: Node) {
    match e
    case Str(_) => true
    case Name(_) => true
    case Call(func, args, keywords, _) =>
      && IsExpression(func)
      && (forall a | a in args :: IsExpression(a)) && (forall k | k in keywords :: IsExpression(k))
    case Keyword(_, value) => IsExpression(value)
    case _ => false
  }

  predicate AreImports(imports: seq<From>) {
    && (forall f | f in imports :: f.name != "" && f.name != "*" && '.' !in f.name)
    && (forall f, g | f in imports && g in imports && f.name == g.name :: f == g)
  }

  lemma {:induction false} ExpressionsOnly(n: Node, e: Node)
    requires IsExpression(e) && Within(n, e)
    ensures IsExpression(n)
    decreases e
  {
    if n != e {
      var c :| c in Children(e) && Within(n, c);
      ExpressionsOnly(n, c);
    }
  }

  lemma WithinProgram(imports: seq<From>, e: Node, n: Node)
    ensures Within(n, Program(imports, e)) <==>
              n == Program(imports, e) || Within(n, e) || exists f :: f in imports && n == Statement(f)
  {
    hide Program, Statement, Within;
    InsideProgram(imports, e, n);
    ProgramHolds(imports, e, n);
    forall f | f in imports && n == Statement(f)
      ensures Within(n, Program(imports, e))
    {
      ProgramHoldsImport(imports, e, f);
    }
  }

  lemma InsideProgram(imports: seq<From>, e: Node, n: Node)
    ensures Within(n, Program(imports, e)) ==>
              n == Program(imports, e) || Within(n, e) || exists f :: f in imports && n == Statement(f)
  {
    var p := Program(imports, e);
    if Within(n, p) && n != p {
      var c :| c in Children(p) && Within(n, c);
      if c != e {
        var i :| 0 <= i < |imports| && c == Statement(imports[i]);
        assert Children(c) == [] && n == c && imports[i] in imports;
      }
    }
  }

  lemma ProgramHolds(imports: seq<From>, e: Node, n: Node)
    ensures Within(n, e) || n == Program(imports, e) ==> Within(n, Program(imports, e))
  {
    assert e == Children(Program(imports, e))[|imports|];
  }

  lemma ProgramHoldsImport(imports: seq<From>, e: Node, f: From)
    requires f in imports
    ensures Within(Statement(f), Program(imports, e))
  {
    var i :| 0 <= i < |imports| && imports[i] == f;
    assert Statement(f) == Children(Program(imports, e))[i] && Within(Statement(f), Statement(f));
  }

  // A program binds exactly the names it imports.
  lemma ProgramBinds(imports: seq<From>, e: Node, local: string, target: string)
    requires AreImports(imports) && IsExpression(e)
    ensures Imported(Program(imports, e), local, target) <==>
              exists f :: f in imports && local == f.name && target == f.moduleName + "." + f.name
  {
    var p := Program(imports, e);
    if Imported(p, local, target) {
      var n :| Within(n, p) && Binds(n, local, target);
      WithinProgram(imports, e, n);
      if Within(n, e) {
        ExpressionsOnly(n, e);
      }
      assert exists f :: f in imports && n == Statement(f);
    }
    forall f | f in imports && local == f.name && target == f.moduleName + "." + f.name
      ensures Imported(p, local, target)
    {
      WithinProgram(imports, e, Statement(f));
      assert Alias(f.name, None) in Statement(f).members;
      assert Binds(Statement(f), local, target);
    }
  }

  lemma ProgramIsReadable(imports: seq<From>, e: Node)
    requires AreImports(imports) && IsExpression(e)
    ensures var p := Program(imports, e);
            && NoShadowing(p)
            && forall f | f in imports ::
                 && Denotes(p, Name(f.name), f.moduleName + "." + f.name)
                 && DottedName(AliasMap(Walk([p])), Name(f.name)) == Some(f.moduleName + "." + f.name)
    ensures Within(e, Program(imports, e))
  {
    hide AliasMap, Walk, Imported;
    var p := Program(imports, e);
    forall local, target
      ensures Imported(p, local, target) <==>
                exists f :: f in imports && local == f.name && target == f.moduleName + "." + f.name
    {
      ProgramBinds(imports, e, local, target);
    }
    WithinProgram(imports, e, e);
    forall f | f in imports
      ensures Denotes(p, Name(f.name), f.moduleName + "." + f.name)
      ensures DottedName(AliasMap(Walk([p])), Name(f.name)) == Some(f.moduleName + "." + f.name)
    {
      NameIsRight(p, Name(f.name), f.moduleName + "." + f.name);
    }
  }

  lemma {:induction false} NothingToReport(nodes: seq<Node>, aliases: map<string, string>)
    requires forall n | n in nodes :: Verdict(n, aliases) == []
    ensures Verdicts(nodes, aliases) == []
    decreases |nodes|
  {
    if nodes != [] {
      NothingToReport(nodes[..|nodes| - 1], aliases);
    }
  }

  // A program is clean when the gate passes every call in its expression.
  lemma ProgramIsClean(imports: seq<From>, e: Node)
    requires forall n | Within(n, e) && n.Call? :: Verdict(n, AliasMap(Walk([Program(imports, e)]))) == []
    ensures Violations(Parsed(Program(imports, e))) == []
  {
    hide AliasMap, Walk, Within, Program, DottedName;
    var p := Program(imports, e);
    var nodes, aliases := Walk([p]), AliasMap(Walk([p]));
    forall n | n in nodes
      ensures Verdict(n, aliases) == []
    {
      assert Within(p, p) by { RootIsWithin(p); }
      WalkStaysInside([p], p, n);
      WithinProgram(imports, e, n);
      ProgramIsNoCall(imports, e);
    }
    NothingToReport(nodes, aliases);
  }

  lemma RootIsWithin(p: Node)
    ensures Within(p, p)
  {
  }

  lemma ProgramIsNoCall(imports: seq<From>, e: Node)
    ensures !Program(imports, e).Call?
  {
  }

  // ---------- The method in place of the URL ----------

  const GOOD := "https://pypi.org/x"
  const EVIL := "https://evil.example/"

  lemma GoodIsAllowed()
    ensures Hostname(GOOD) == Some("pypi.org") && ClosesAuthority(GOOD) && "pypi.org" in ALLOWED_HOSTNAMES
  {
    hide Hostname, ClosesAuthority;
    PlainUrl("pypi.org", "x");
    assert "https://" + "pypi.org" + "/" + "x" == GOOD;
    assert Lower("pypi.org") == "pypi.org";
  }

  lemma EvilIsNot()
    ensures Hostname(EVIL) == Some("evil.example") && ClosesAuthority(EVIL) && "evil.example" !in ALLOWED_HOSTNAMES
  {
    hide Hostname, ClosesAuthority;
    PlainUrl("evil.example", "");
    assert "https://" + "evil.example" + "/" + "" == EVIL;
    assert Lower("evil.example") == "evil.example";
    assert forall h | h in ALLOWED_HOSTNAMES :: |h| != 12 || h[0] != 'e';
  }

  predicate AreStrings(args: seq<Node>, keywords: seq<Node>) {
    && (forall a | a in args :: a.Str?)
    && (forall k | k in keywords :: k.Keyword? && k.keywordValue.Str?)
  }

  function RequestCall(args: seq<Node>, keywords: seq<Node>): Node {
    Call(Name("request"), args, keywords, 1)
  }

  // from <library> import request
  // request(<args>, <keywords>)
  function RequestProgram(library: string, args: seq<Node>, keywords: seq<Node>): Node {
    Program([From(library, "request")], RequestCall(args, keywords))
  }

  lemma LeafOnly(n: Node, leaf: Node)
    ensures Children(leaf) == [] && Within(n, leaf) ==> n == leaf
  {
  }

  lemma StringsAreExpressions(args: seq<Node>, keywords: seq<Node>)
    requires AreStrings(args, keywords)
    ensures IsExpression(RequestCall(args, keywords))
  {
    forall k | k in keywords
      ensures IsExpression(k)
    {
      assert IsExpression(k.keywordValue);
    }
  }

  lemma StringsHoldNoCall(args: seq<Node>, keywords: seq<Node>, n: Node)
    requires AreStrings(args, keywords) && Within(n, RequestCall(args, keywords)) && n.Call?
    ensures n == RequestCall(args, keywords)
  {
    var call := RequestCall(args, keywords);
    if n != call {
      var c :| c in Children(call) && Within(n, c);
      assert c == Name("request") || c in args || c in keywords;
      if c.Keyword? && n != c {
        LeafOnly(n, c.keywordValue);
      } else {
        LeafOnly(n, c);
      }
    }
  }

  // The gate passes any such program whose first argument is an allowed URL.
  lemma RequestProgramIsClean(library: string, args: seq<Node>, keywords: seq<Node>)
    requires AreStrings(args, keywords) && args != [] && args[0] == Str(GOOD)
    requires library + ".request" in METHOD_FIRST
    ensures var p, call := RequestProgram(library, args, keywords), RequestCall(args, keywords);
            && Violations(Parsed(p)) == [] && NoShadowing(p)
            && IsClientCall(p, call, library + ".request") && IsClosedAndGenuine(p, call)
  {
    hide AliasMap, Walk, Within, Program, DottedName, NoShadowing, Denotes, Hostname, ClosesAuthority;
    var p, call := RequestProgram(library, args, keywords), RequestCall(args, keywords);
    var imports := [From(library, "request")];
    StringsAreExpressions(args, keywords);
    assert library + ".request" in HTTP_CLIENT_CALLS;
    ProgramIsReadable(imports, call);
    assert imports[0] in imports && library + "." + "request" == library + ".request";
    GoodIsAllowed();
    forall n | Within(n, call) && n.Call?
      ensures Verdict(n, AliasMap(Walk([p]))) == []
    {
      StringsHoldNoCall(args, keywords, n);
    }
    ProgramIsClean(imports, call);
  }

  // request("https://pypi.org/x", "https://evil.example/") passes the gate and goes to evil.example.
  lemma MethodIsTakenForTheUrl(rho: Node -> string)
    ensures var args := [Str(GOOD), Str(EVIL)];
            var p, call := RequestProgram("requests", args, []), RequestCall(args, []);
            && Violations(Parsed(p)) == [] && NoShadowing(p) && IsClientCall(p, call, "requests.request")
            && UsedUrl("requests.request", call) == Some(Str(EVIL))
            && Hostname(UrlValue(p, rho, Str(EVIL))) == Some("evil.example")
            && !ReachesAllowedHost(p, rho, "requests.request", call)
  {
    hide AliasMap, Walk, Within, Program, DottedName, NoShadowing, Denotes, Hostname, ClosesAuthority, Verdicts;
    assert "requests" + ".request" == "requests.request";
    RequestProgramIsClean("requests", [Str(GOOD), Str(EVIL)], []);
    EvilIsNot();
  }

  // The gate's silence about client call `path` with this many positional arguments is enough.
  ghost predicate GateSuffices(path: string, arity: nat) {
    forall tree, call, rho: Node -> string |
      && Violations(Parsed(tree)) == [] && NoShadowing(tree)
      && IsClientCall(tree, call, path) && |call.args| == arity && IsClosedAndGenuine(tree, call) ::
      ReachesAllowedHost(tree, rho, path, call)
  }

  lemma MethodFirstEscapes(library: string, arity: nat)
    requires library + ".request" in METHOD_FIRST && arity > 0
    ensures !GateSuffices(library + ".request", arity)
  {
    hide AliasMap, Walk, Within, Program, DottedName, NoShadowing, Denotes, Hostname, ClosesAuthority, Verdicts;
    var path := library + ".request";
    var args, keywords := [Str(GOOD)] + seq(arity - 1, _ => Str(EVIL)), [Keyword(Some("url"), Str(EVIL))];
    var p, call := RequestProgram(library, args, keywords), RequestCall(args, keywords);
    RequestProgramIsClean(library, args, keywords);
    assert UsedUrl(path, call) == Some(Str(EVIL));
    EvilIsNot();
    var rho: Node -> string := _ => "";
    assert UrlValue(p, rho, Str(EVIL)) == EVIL;
    assert !ReachesAllowedHost(p, rho, path, call);
  }

  // Main result: for each client call and number of positional arguments, the gate's silence is
  // enough exactly when the call does not take the method first or gets no positional argument.
  lemma GateSufficesIffItReadsTheUrl(path: string, arity: nat)
    requires path in HTTP_CLIENT_CALLS
    ensures GateSuffices(path, arity) <==> ReadsTheUrl(path, arity)
  {
    hide Violations, NoShadowing, ReachesAllowedHost, IsClosedAndGenuine;
    if ReadsTheUrl(path, arity) {
      forall tree, call, rho: Node -> string |
        && Violations(Parsed(tree)) == [] && NoShadowing(tree)
        && IsClientCall(tree, call, path) && |call.args| == arity && IsClosedAndGenuine(tree, call)
        ensures ReachesAllowedHost(tree, rho, path, call)
      {
        ClientCallReachesAllowedHost(tree, call, path, rho);
      }
    } else {
      assert "requests" + ".request" == "requests.request" && "httpx" + ".request" == "httpx.request";
      MethodFirstEscapes(if path == "requests.request" then "requests" else "httpx", arity);
    }
  }

  // ---------- A wrapper by name only ----------

  // from urllib.request import urlopen
  // from x import Request
  // urlopen(Request("https://pypi.org/x"))
  function ForeignRequest(): Node {
    Call(Name("Request"), [Str(GOOD)], [], 1)
  }

  function ForeignCall(): Node {
    Call(Name("urlopen"), [ForeignRequest()], [], 1)
  }

  const FOREIGN_IMPORTS := [From("urllib.request", "urlopen"), From("x", "Request")]

  lemma OneArgument(n: Node, f: string, arg: Node)
    ensures Within(n, Call(Name(f), [arg], [], 1)) ==>
              n == Call(Name(f), [arg], [], 1) || n == Name(f) || Within(n, arg)
  {
    var call := Call(Name(f), [arg], [], 1);
    if Within(n, call) && n != call {
      var c :| c in Children(call) && Within(n, c);
      assert c == Name(f) || c == arg;
      LeafOnly(n, Name(f));
    }
  }

  lemma CallsOfForeignCall(n: Node)
    requires Within(n, ForeignCall()) && n.Call?
    ensures n == ForeignCall() || n == ForeignRequest()
  {
    OneArgument(n, "urlopen", ForeignRequest());
    OneArgument(n, "Request", Str(GOOD));
    LeafOnly(n, Str(GOOD));
  }

  function ForeignProgram(): Node {
    Program(FOREIGN_IMPORTS, ForeignCall())
  }

  // The gate passes the program, but the URL is whatever x.Request makes of it.
  lemma ForeignWrapperPasses(url: string)
    ensures var p, call := ForeignProgram(), ForeignCall();
            && Violations(Parsed(p)) == [] && NoShadowing(p)
            && IsClientCall(p, call, "urllib.request.urlopen") && !GenuineWrappers(p, ForeignRequest())
            && UrlValue(p, _ => url, UsedUrl("urllib.request.urlopen", call).value) == url
  {
    hide *;
    ForeignNames();
    ForeignVerdicts();
    ForeignProgramIsClean();
    ForeignCallIsClientCall();
    ForeignValue(url);
  }

  lemma ForeignNames()
    ensures var p := ForeignProgram();
            && NoShadowing(p) && Within(ForeignCall(), p)
            && Denotes(p, Name("urlopen"), "urllib.request.urlopen") && Denotes(p, Name("Request"), "x.Request")
            && DottedName(AliasMap(Walk([p])), Name("urlopen")) == Some("urllib.request.urlopen")
            && DottedName(AliasMap(Walk([p])), Name("Request")) == Some("x.Request")
  {
    hide AliasMap, Walk, Within, Program, DottedName, NoShadowing, Denotes;
    ForeignImports();
    assert IsExpression(ForeignRequest()) && IsExpression(ForeignCall());
    ProgramIsReadable(FOREIGN_IMPORTS, ForeignCall());
    assert From("urllib.request", "urlopen") in FOREIGN_IMPORTS && From("x", "Request") in FOREIGN_IMPORTS;
  }

  lemma ForeignImports()
    ensures AreImports(FOREIGN_IMPORTS)
    ensures From("urllib.request", "urlopen") in FOREIGN_IMPORTS && From("x", "Request") in FOREIGN_IMPORTS
    ensures "urllib.request" + "." + "urlopen" == "urllib.request.urlopen" && "x" + "." + "Request" == "x.Request"
  {
  }

  lemma PassedCall(n: Node, aliases: map<string, string>, name: string)
    requires n.Call? && DottedName(aliases, n.func) == Some(name)
    requires name !in HTTP_CLIENT_CALLS || HasAllowedLiteral(n)
    ensures Verdict(n, aliases) == []
  {
  }

  lemma ForeignRequestIsNoClient()
    ensures "x.Request" !in HTTP_CLIENT_CALLS
  {
    assert forall c | c in HTTP_CLIENT_CALLS :: c[0] != 'x';
  }

  lemma ForeignVerdicts()
    ensures var aliases := AliasMap(Walk([ForeignProgram()]));
            Verdict(ForeignCall(), aliases) == [] && Verdict(ForeignRequest(), aliases) == []
  {
    hide AliasMap, Walk, DottedName, Hostname, Verdict, ForeignProgram, HTTP_CLIENT_CALLS, UrlLiteral;
    ForeignNames();
    ForeignLiteral();
    GoodIsAllowed();
    ForeignRequestIsNoClient();
    var aliases := AliasMap(Walk([ForeignProgram()]));
    PassedCall(ForeignCall(), aliases, "urllib.request.urlopen");
    PassedCall(ForeignRequest(), aliases, "x.Request");
  }

  lemma ForeignLiteral()
    ensures WrapsUrl(ForeignRequest()) && LeftmostLiteral(ForeignRequest()) == Some(GOOD)
    ensures UrlLiteral(ForeignCall()) == Some(GOOD)
  {
    assert FuncAttrName(Name("Request")) == Some("Request");
    assert LeftmostLiteral(Str(GOOD)) == Some(GOOD);
  }

  lemma ForeignProgramIsClean()
    ensures Violations(Parsed(ForeignProgram())) == []
  {
    hide AliasMap, Walk, Verdict, Program;
    ForeignVerdicts();
    forall n | Within(n, ForeignCall()) && n.Call?
      ensures Verdict(n, AliasMap(Walk([ForeignProgram()]))) == []
    {
      CallsOfForeignCall(n);
    }
    ProgramIsClean(FOREIGN_IMPORTS, ForeignCall());
  }

  lemma ForeignCallIsClientCall()
    ensures IsClientCall(ForeignProgram(), ForeignCall(), "urllib.request.urlopen")
  {
    hide AliasMap, Walk, Program, Within, Denotes;
    ForeignNames();
  }

  // Without shadowing a name that means x.Request does not mean urllib's.
  lemma ForeignValue(url: string)
    ensures var p := ForeignProgram();
            && !GenuineWrappers(p, ForeignRequest())
            && UrlValue(p, _ => url, UsedUrl("urllib.request.urlopen", ForeignCall()).value) == url
  {
    hide AliasMap, Walk, Program, Within, Imported;
    ForeignNames();
    ForeignLiteral();
    assert "x.Request" != REQUEST;
  }

  lemma ForeignWrapperReachesEvil(tree: Node, arg: Node)
    requires LeftmostLiteral(arg).Some? && !GenuineWrappers(tree, arg)
    ensures Hostname(UrlValue(tree, _ => EVIL, arg)) == Some("evil.example")
  {
    hide Hostname, ClosesAuthority, UrlValue;
    EvilIsNot();
    ForeignWrapperDecides(tree, EVIL, arg);
    var url := UrlValue(tree, _ => EVIL, arg);
    assert url == EVIL + url[|EVIL|..];
    ClosedAuthorityIsSettled(EVIL, url[|EVIL|..]);
  }

  // Main result: a call that the gate passes and reads, and whose literal closes its authority,
  // reaches an allowed host in every environment exactly when its wrappers are genuine.
  lemma CallReachesIffGenuine(tree: Node, call: Node, path: string)
    requires Violations(Parsed(tree)) == [] && NoShadowing(tree) && IsClientCall(tree, call, path)
    requires ReadsTheUrl(path, |call.args|)
    requires UrlLiteral(call).Some? && ClosesAuthority(UrlLiteral(call).value)
    ensures (forall rho: Node -> string :: ReachesAllowedHost(tree, rho, path, call))
       <==> GenuineWrappers(tree, UrlArgument(call).value)
  {
    hide Violations, NoShadowing, Hostname, ClosesAuthority, UrlValue;
    hide GenuineWrappers, LeftmostLiteral, Within, Denotes;
    var arg := UrlArgument(call).value;
    if GenuineWrappers(tree, arg) {
      forall rho: Node -> string
        ensures ReachesAllowedHost(tree, rho, path, call)
      {
        ClientCallReachesAllowedHost(tree, call, path, rho);
      }
    } else {
      ForeignWrapperReachesEvil(tree, arg);
      EvilIsNot();
      assert !ReachesAllowedHost(tree, _ => EVIL, path, call);
    }
  }
}
