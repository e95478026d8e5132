/** What the privacy gate accepts and what it reports, in terms of where the leading text of a URL
    stands in the expression. */
module GateAcceptance {
  import opened Wrappers
  import opened Text
  import opened PythonTree
  import opened Urls
  import opened PrivacyGate
  import opened GateSoundness

  // ---------- The leading text ----------

  // The value of n starts with that of m: m is the left operand, or what a wrapper wraps.
  predicate LeadsInto(n: Node, m: Node) {
    (n.Add? && m == n.left) || (WrapsUrl(n) && m == n.args[0])
  }

  predicate IsSpine(path: seq<Node>) {
    path != [] && forall i | 0 <= i < |path| - 1 :: LeadsInto(path[i], path[i + 1])
  }

  // A string, or an f-string whose first part names a host.
  predicate IsLeadingText(leaf: Node, text: string) {
    || leaf == Str(text)
    || (leaf.JoinedStr? && leaf.values != [] && leaf.values[0] == Str(text) && Hostname(text).Some?)
  }

  ghost predicate LeadsTo(n: Node, text: string) {
    exists path :: IsSpine(path) && path[0] == n && IsLeadingText(path[|path| - 1], text)
  }

  lemma {:induction false} SpineIsFollowed(path: seq<Node>, text: string)
    requires IsSpine(path) && IsLeadingText(path[|path| - 1], text)
    ensures LeftmostLiteral(path[0]) == Some(text)
    decreases |path|
  {
    hide Hostname, FuncAttrName;
    if |path| > 1 {
      SpineIsFollowed(path[1..], text);
      assert LeadsInto(path[0], path[1]);
    }
  }

  lemma {:induction false} SpineExists(n: Node) returns (path: seq<Node>)
    requires LeftmostLiteral(n).Some?
    ensures IsSpine(path) && path[0] == n && IsLeadingText(path[|path| - 1], LeftmostLiteral(n).value)
    decreases n
  {
    hide Hostname, FuncAttrName;
    match n
    case Add(left, _) =>
      var rest := SpineExists(left);
      path := [n] + rest;
    case Call(_, args, _, _) =>
      var rest := SpineExists(args[0]);
      path := [n] + rest;
    case _ => path := [n];
  }

  lemma LeadsToIff(n: Node, text: string)
    ensures LeadsTo(n, text) <==> LeftmostLiteral(n) == Some(text)
  {
    hide LeftmostLiteral, LeadsInto, IsLeadingText;
    if LeadsTo(n, text) {
      var path :| IsSpine(path) && path[0] == n && IsLeadingText(path[|path| - 1], text);
      SpineIsFollowed(path, text);
    }
    if LeftmostLiteral(n) == Some(text) {
      var path := SpineExists(n);
    }
  }

  // ---------- The wrappers ----------

  // The names at the end of a callee, as written: ["urllib", "request", "Request"].
  function Trail(callee: Node): seq<string> {
    match callee
    case Attribute(receiver, attr) => Trail(receiver) + [attr]
    case Name(id) => [id]
    case _ => []
  }

  predicate IsIdentifier(s: string) {
    s != "" && '.' !in s
  }

  function Joined(trail: seq<string>): string
    requires trail != []
  {
    var n := |trail| - 1;
    if n == 0 then trail[0] else Joined(trail[..n]) + "." + trail[n]
  }

  lemma {:induction false} NameIsJoinedTrail(callee: Node)
    requires forall id | id in Trail(callee) :: IsIdentifier(id)
    ensures FuncAttrName(callee) == if Trail(callee) == [] then None else Some(Joined(Trail(callee)))
    ensures Trail(callee) != [] ==> Joined(Trail(callee)) != ""
    decreases callee
  {
    hide Joined, IsIdentifier;
    match callee
    case Attribute(receiver, attr) =>
      assert Trail(callee) == Trail(receiver) + [attr];
      assert forall id | id in Trail(receiver) :: id in Trail(callee);
      NameIsJoinedTrail(receiver);
      JoinedSnoc(Trail(receiver), attr);
    case Name(id) =>
      assert id in Trail(callee) && Trail(callee) == [] + [id];
      JoinedSnoc([], id);
    case _ =>
  }

  lemma JoinedSnoc(trail: seq<string>, last: string)
    requires IsIdentifier(last)
    ensures Joined(trail + [last]) == if trail == [] then last else Joined(trail) + "." + last
    ensures last in trail + [last] && Joined(trail + [last]) != ""
  {
    assert (trail + [last])[..|trail|] == trail;
  }

  // A joined name determines its parts.
  lemma {:induction false} JoinedIsInjective(a: seq<string>, b: seq<string>)
    requires a != [] && b != []
    requires (forall id | id in a :: IsIdentifier(id)) && (forall id | id in b :: IsIdentifier(id))
    requires Joined(a) == Joined(b)
    ensures a == b
    decreases |a|
  {
    var m, n := |a| - 1, |b| - 1;
    assert a[m] in a && b[n] in b;
    if m == 0 && n > 0 {
      JoinedHasDot(b);
    } else if m > 0 && n == 0 {
      JoinedHasDot(a);
    } else if m > 0 && n > 0 {
      LastPart(Joined(a[..m]), a[m], Joined(b[..n]), b[n]);
      JoinedIsInjective(a[..m], b[..n]);
      assert a == a[..m] + [a[m]] && b == b[..n] + [b[n]];
    }
  }

  lemma JoinedHasDot(trail: seq<string>)
    requires |trail| > 1
    ensures '.' in Joined(trail)
  {
    var n := |trail| - 1;
    assert Joined(trail)[|Joined(trail[..n])|] == '.';
  }

  lemma LastPart(a: string, x: string, b: string, y: string)
    requires '.' !in x && '.' !in y && a + "." + x == b + "." + y
    ensures a == b && x == y
  {
    var s := a + "." + x;
    assert s == b + "." + y;
    assert s[|a|] == '.' && s[|b|] == '.';
    assert forall i | |a| < i < |s| :: s[i] == x[i - |a| - 1];
    assert forall i | |b| < i < |s| :: s[i] == y[i - |b| - 1];
    assert |a| == |b|;
    assert s[..|a|] == a && s[..|b|] == b;
    assert s[|a| + 1..] == x && s[|b| + 1..] == y;
  }

  lemma WrapperNames()
    ensures Joined(["Request"]) == "Request"
    ensures Joined(["urllib", "request", "Request"]) == "urllib.request.Request"
  {
    var long := ["urllib", "request", "Request"];
    assert long[..2] == ["urllib", "request"] && long[..2][..1] == ["urllib"];
    assert Joined(long[..2]) == "urllib.request";
  }

  // A call is taken for a wrapper exactly when it has an argument and is written Request(...) or
  // urllib.request.Request(...), on whatever object.
  lemma WrapsUrlIff(n: Node)
    requires n.Call? && forall id | id in Trail(n.func) :: IsIdentifier(id)
    ensures WrapsUrl(n) <==> n.args != [] && Trail(n.func) in [["Request"], ["urllib", "request", "Request"]]
  {
    var short, long := ["Request"], ["urllib", "request", "Request"];
    var trail := Trail(n.func);
    NameIsJoinedTrail(n.func);
    WrapperNames();
    hide Joined, Trail;
    if trail != [] {
      if Joined(trail) == "Request" {
        JoinedIsInjective(trail, short);
      }
      if Joined(trail) == "urllib.request.Request" {
        JoinedIsInjective(trail, long);
      }
    }
  }

  // ---------- One call ----------

  predicate IsUrlKeyword(k: Node) {
    k.Keyword? && k.arg == Some("url")
  }

  // The argument that names the URL: the first, or else the first that is called url.
  ghost predicate NamesUrl(call: Node, arg: Node)
    requires call.Call?
  {
    if call.args != [] then arg == call.args[0]
    else
      exists k :: 0 <= k < |call.keywords| && IsUrlKeyword(call.keywords[k])
                  && arg == call.keywords[k].keywordValue
                  && forall j | 0 <= j < k :: !IsUrlKeyword(call.keywords[j])
  }

  lemma {:induction false} UrlKeywordIsFirst(keywords: seq<Node>, k: nat)
    requires k < |keywords| && IsUrlKeyword(keywords[k]) && forall j | 0 <= j < k :: !IsUrlKeyword(keywords[j])
    ensures UrlKeyword(keywords) == Some(keywords[k].keywordValue)
  {
    if k > 0 {
      assert !IsUrlKeyword(keywords[0]);
      UrlKeywordIsFirst(keywords[1..], k - 1);
    }
  }

  lemma {:induction false} UrlKeywordFound(keywords: seq<Node>) returns (k: nat)
    requires UrlKeyword(keywords).Some?
    ensures k < |keywords| && IsUrlKeyword(keywords[k]) && forall j | 0 <= j < k :: !IsUrlKeyword(keywords[j])
    ensures UrlKeyword(keywords) == Some(keywords[k].keywordValue)
  {
    if IsUrlKeyword(keywords[0]) {
      k := 0;
    } else {
      var l := UrlKeywordFound(keywords[1..]);
      k := l + 1;
    }
  }

  lemma NamesUrlIff(call: Node, arg: Node)
    requires call.Call?
    ensures NamesUrl(call, arg) <==> UrlArgument(call) == Some(arg)
  {
    if call.args == [] {
      if k :| 0 <= k < |call.keywords| && IsUrlKeyword(call.keywords[k]) && arg == call.keywords[k].keywordValue
              && forall j | 0 <= j < k :: !IsUrlKeyword(call.keywords[j]) {
        UrlKeywordIsFirst(call.keywords, k);
      }
      if UrlKeyword(call.keywords) == Some(arg) {
        var k := UrlKeywordFound(call.keywords);
      }
    }
  }

  ghost predicate UrlStartsWith(call: Node, text: string)
    requires call.Call?
  {
    exists arg :: NamesUrl(call, arg) && LeadsTo(arg, text)
  }

  lemma UrlStartsWithIff(call: Node, text: string)
    requires call.Call?
    ensures UrlStartsWith(call, text) <==> UrlLiteral(call) == Some(text)
  {
    hide NamesUrl, LeadsTo, UrlArgument, LeftmostLiteral;
    if arg :| NamesUrl(call, arg) && LeadsTo(arg, text) {
      NamesUrlIff(call, arg);
      LeadsToIff(arg, text);
    }
    if UrlLiteral(call) == Some(text) {
      NamesUrlIff(call, UrlArgument(call).value);
      LeadsToIff(UrlArgument(call).value, text);
    }
  }

  // The URL visibly goes to an allowed host.
  ghost predicate IsAcceptable(call: Node)
    requires call.Call?
  {
    exists text :: UrlStartsWith(call, text) && Hostname(text).Some? && Hostname(text).value in ALLOWED_HOSTNAMES
  }

  ghost predicate Deserves(call: Node, reason: Reason)
    requires call.Call?
  {
    match reason
    case RuntimeUrl => forall text :: !UrlStartsWith(call, text)
    case UnparseableUrl(url) => UrlStartsWith(call, url) && Hostname(url).None?
    case ForbiddenHost(host) =>
      host !in ALLOWED_HOSTNAMES && exists text :: UrlStartsWith(call, text) && Hostname(text) == Some(host)
    case SyntaxError => false
  }

  // Main result: a call of a client function is passed exactly when its URL visibly goes to an allowed
  // host, and otherwise reported once, for the one reason it deserves.
  lemma VerdictIff(call: Node, aliases: map<string, string>, name: string)
    requires call.Call? && DottedName(aliases, call.func) == Some(name) && name in HTTP_CLIENT_CALLS
    ensures Verdict(call, aliases) == [] <==> IsAcceptable(call)
    ensures forall reason :: Deserves(call, reason) <==> Verdict(call, aliases) == [Violation(call.line, name, reason)]
  {
    hide UrlStartsWith, Hostname, DottedName, UrlLiteral;
    forall text ensures UrlStartsWith(call, text) <==> UrlLiteral(call) == Some(text) {
      UrlStartsWithIff(call, text);
    }
    if UrlLiteral(call).Some? {
      assert UrlStartsWith(call, UrlLiteral(call).value);
    }
  }

  // ---------- The whole scan ----------

  // A call in the tree that the gate knows as client function `name`.
  ghost predicate IsKnownAs(tree: Node, call: Node, name: string) {
    && Within(call, tree) && call.Call?
    && DottedName(AliasMap(Walk([tree])), call.func) == Some(name) && name in HTTP_CLIENT_CALLS
  }

  lemma {:induction false} VerdictsAreThose(nodes: seq<Node>, aliases: map<string, string>, v: Violation)
    ensures v in Verdicts(nodes, aliases) <==> exists n :: n in nodes && v in Verdict(n, aliases)
  {
    hide Verdict;
    if nodes != [] {
      var k := |nodes| - 1;
      VerdictsAreThose(nodes[..k], aliases, v);
      assert forall n :: n in nodes <==> n in nodes[..k] || n == nodes[k];
    }
  }

  lemma KnownIsReported(tree: Node, call: Node, v: Violation)
    requires IsKnownAs(tree, call, v.callName) && v.line == call.line && Deserves(call, v.reason)
    ensures v in Violations(Parsed(tree))
  {
    hide Walk, AliasMap, Verdict, Deserves, DottedName;
    var nodes := Walk([tree]);
    WalkVisits([tree], tree, call);
    VerdictIff(call, AliasMap(nodes), v.callName);
    VerdictsAreThose(nodes, AliasMap(nodes), v);
  }

  lemma ReportedIsKnown(tree: Node, v: Violation) returns (call: Node)
    requires v in Violations(Parsed(tree))
    ensures IsKnownAs(tree, call, v.callName) && v.line == call.line && Deserves(call, v.reason)
  {
    hide Walk, AliasMap, Deserves, DottedName, UrlLiteral, Hostname;
    var nodes := Walk([tree]);
    VerdictsAreThose(nodes, AliasMap(nodes), v);
    call :| call in nodes && v in Verdict(call, AliasMap(nodes));
    assert Within(tree, tree);
    WalkStaysInside([tree], tree, call);
    VerdictIff(call, AliasMap(nodes), v.callName);
  }

  // Main result: the scan of a program reports exactly the client calls in it that deserve it, each at
  // its line, under its resolved name and for its reason.
  lemma ReportIsExact(tree: Node, v: Violation)
    ensures v in Violations(Parsed(tree)) <==>
              exists call :: IsKnownAs(tree, call, v.callName) && v.line == call.line && Deserves(call, v.reason)
  {
    hide Violations, Within, DottedName, Walk, AliasMap, Deserves;
    if v in Violations(Parsed(tree)) {
      var call := ReportedIsKnown(tree, v);
    }
    if call :| IsKnownAs(tree, call, v.callName) && v.line == call.line && Deserves(call, v.reason) {
      KnownIsReported(tree, call, v);
    }
  }

  // A program is passed exactly when every client call in it visibly goes to an allowed host.
  lemma IsPassedIff(tree: Node)
    ensures Violations(Parsed(tree)) == [] <==> forall call, name | IsKnownAs(tree, call, name) :: IsAcceptable(call)
  {
    hide Violations, Deserves, IsAcceptable, Walk, AliasMap, Verdict, Within, DottedName;
    if Violations(Parsed(tree)) != [] {
      var v := Violations(Parsed(tree))[0];
      var call := ReportedIsKnown(tree, v);
      VerdictIff(call, AliasMap(Walk([tree])), v.callName);
    } else {
      forall call, name | IsKnownAs(tree, call, name) ensures IsAcceptable(call) {
        var aliases := AliasMap(Walk([tree]));
        VerdictIff(call, aliases, name);
        if !IsAcceptable(call) {
          var reason := SomeReason(call);
          KnownIsReported(tree, call, Violation(call.line, name, reason));
        }
      }
    }
  }

  lemma SomeReason(call: Node) returns (reason: Reason)
    requires call.Call? && !IsAcceptable(call)
    ensures Deserves(call, reason)
  {
    hide UrlStartsWith, Hostname;
    if text :| UrlStartsWith(call, text) {
      reason := if Hostname(text).None? then UnparseableUrl(text) else ForbiddenHost(Hostname(text).value);
    } else {
      reason := RuntimeUrl;
    }
  }

  // ---------- Appending to a URL ----------

  // Appending text to a URL changes nothing about the verdict, allowed or not.
  lemma AppendingIsHarmless(call: Node, more: Node, aliases: map<string, string>)
    requires call.Call? && call.args != []
    ensures Verdict(call.(args := [Add(call.args[0], more)] + call.args[1..]), aliases) == Verdict(call, aliases)
  {
    hide Hostname, DottedName;
    var longer := call.(args := [Add(call.args[0], more)] + call.args[1..]);
    assert UrlArgument(longer) == Some(Add(call.args[0], more));
    assert UrlLiteral(longer) == UrlLiteral(call);
  }

  // An ordinary URL of an allowed host is acceptable, whatever is appended.
  lemma PlainUrlIsAcceptable(call: Node, host: string, path: string)
    requires call.Call? && call.args != [] && host in ALLOWED_HOSTNAMES && IsPlainHost(host) && Lower(host) == host
    requires call.args[0] == Str("https://" + host + "/" + path)
    ensures IsAcceptable(call)
  {
    var text := "https://" + host + "/" + path;
    assert UrlStartsWith(call, text) by {
      UrlStartsWithIff(call, text);
    }
    PlainUrl(host, path);
  }
}
