/** Exactly which URL expressions keep to the allowed hosts, whatever the run-time values. */
module GateExact {
  import opened Wrappers
  import opened PythonTree
  import opened Urls
  import opened PrivacyGate
  import opened GateSoundness

  // The text an expression's value starts with in every environment, and whether that is all of it.
  datatype Constant = Constant(text: string, whole: bool)

  function Then(a: Constant, b: Constant): Constant {
    if a.whole then Constant(a.text + b.text, b.whole) else a
  }

  ghost function ConstantPart(tree: Node, n: Node): Constant
    decreases n
  {
    match n
    case Str(value) => Constant(value, true)
    case Add(left, right) => Then(ConstantPart(tree, left), ConstantPart(tree, right))
    case JoinedStr(values) => JoinedPart(tree, values)
    case Call(_, args, _, _) => if BuildsRequest(tree, n) then ConstantPart(tree, args[0]) else Constant("", false)
    case _ => Constant("", false)
  }

  ghost function JoinedPart(tree: Node, values: seq<Node>): Constant
    decreases values
  {
    if values == [] then Constant("", true) else Then(ConstantPart(tree, values[0]), JoinedPart(tree, values[1..]))
  }

  // c is how value starts, and all of it when it is whole.
  predicate Begins(c: Constant, value: string) {
    if c.whole then value == c.text else c.text <= value
  }

  lemma ThenBegins(a: Constant, b: Constant, v: string, w: string)
    requires Begins(a, v) && Begins(b, w)
    ensures Begins(Then(a, b), v + w)
  {
  }

  lemma {:induction false} ConstantBegins(tree: Node, rho: Node -> string, n: Node)
    ensures Begins(ConstantPart(tree, n), UrlValue(tree, rho, n))
    decreases n
  {
    match n
    case Add(left, right) =>
      ConstantBegins(tree, rho, left);
      ConstantBegins(tree, rho, right);
      ThenBegins(ConstantPart(tree, left), ConstantPart(tree, right),
                 UrlValue(tree, rho, left), UrlValue(tree, rho, right));
    case JoinedStr(values) => JoinedBegins(tree, rho, values);
    case Call(_, args, _, _) =>
      if BuildsRequest(tree, n) {
        ConstantBegins(tree, rho, args[0]);
      }
    case _ =>
  }

  lemma {:induction false} JoinedBegins(tree: Node, rho: Node -> string, values: seq<Node>)
    ensures Begins(JoinedPart(tree, values), JoinedValue(tree, rho, values))
    decreases values
  {
    if values != [] {
      ConstantBegins(tree, rho, values[0]);
      JoinedBegins(tree, rho, values[1..]);
      ThenBegins(ConstantPart(tree, values[0]), JoinedPart(tree, values[1..]),
                 UrlValue(tree, rho, values[0]), JoinedValue(tree, rho, values[1..]));
    }
  }

  // What comes right after a constant part that is not all is up to the environment.
  predicate IsFollowedBy(c: Constant, next: string, value: string) {
    !c.whole ==> c.text + next <= value
  }

  lemma ThenFollowed(a: Constant, b: Constant, next: string, v: string, w: string)
    requires Begins(a, v) && IsFollowedBy(a, next, v) && IsFollowedBy(b, next, w)
    ensures IsFollowedBy(Then(a, b), next, v + w)
  {
    if a.whole && !b.whole {
      assert a.text + b.text + next == a.text + (b.text + next);
    }
  }

  lemma {:induction false} UnknownFollows(tree: Node, next: string, n: Node)
    ensures IsFollowedBy(ConstantPart(tree, n), next, UrlValue(tree, _ => next, n))
    decreases n
  {
    var rho: Node -> string := _ => next;
    match n
    case Add(left, right) =>
      UnknownFollows(tree, next, left);
      UnknownFollows(tree, next, right);
      ConstantBegins(tree, rho, left);
      ThenFollowed(ConstantPart(tree, left), ConstantPart(tree, right), next,
                   UrlValue(tree, rho, left), UrlValue(tree, rho, right));
    case JoinedStr(values) => UnknownFollowsJoined(tree, next, values);
    case Call(_, args, _, _) =>
      if BuildsRequest(tree, n) {
        UnknownFollows(tree, next, args[0]);
      }
    case _ =>
  }

  lemma {:induction false} UnknownFollowsJoined(tree: Node, next: string, values: seq<Node>)
    ensures IsFollowedBy(JoinedPart(tree, values), next, JoinedValue(tree, _ => next, values))
    decreases values
  {
    var rho: Node -> string := _ => next;
    if values != [] {
      UnknownFollows(tree, next, values[0]);
      UnknownFollowsJoined(tree, next, values[1..]);
      ConstantBegins(tree, rho, values[0]);
      ThenFollowed(ConstantPart(tree, values[0]), JoinedPart(tree, values[1..]), next,
                   UrlValue(tree, rho, values[0]), JoinedValue(tree, rho, values[1..]));
    }
  }

  // ---------- The exact condition ----------

  predicate IsAllowed(url: string) {
    Hostname(url).Some? && Hostname(url).value in ALLOWED_HOSTNAMES
  }

  // An allowed host, and either nothing after the constant part or an authority that is closed in it.
  predicate IsSafe(c: Constant) {
    IsAllowed(c.text) && (c.whole || ClosesAuthority(c.text))
  }

  lemma ElsewhereIsNotAllowed()
    ensures ELSEWHERE !in ALLOWED_HOSTNAMES
  {
    assert forall h | h in ALLOWED_HOSTNAMES :: |h| != 12 || h[0] != 'e';
  }

  lemma ClosedDecides(c: Constant, value: string)
    requires Begins(c, value) && (c.whole || ClosesAuthority(c.text))
    ensures IsAllowed(value) <==> IsAllowed(c.text)
  {
    hide Hostname, ClosesAuthority;
    if !c.whole {
      ClosedAuthorityIsSettled(c.text, value[|c.text|..]);
      assert value == c.text + value[|c.text|..];
    }
  }

  lemma OpenIsDiverted(c: Constant, value: string)
    requires !c.whole && !ClosesAuthority(c.text) && IsFollowedBy(c, Diversion(c.text), value)
    ensures !IsAllowed(value)
  {
    hide Hostname, ClosesAuthority, Diversion;
    var next := Diversion(c.text);
    var more := value[|c.text + next|..];
    assert value == c.text + (next + more);
    OpenAuthorityIsDiverted(c.text, more);
    ElsewhereIsNotAllowed();
  }

  // Main result: a client call reaches an allowed host in every environment if and only if the constant
  // part of the URL it uses has one, and either nothing follows it or it closes its authority.
  lemma CallIsSafeIff(tree: Node, call: Node, path: string)
    requires call.Call? && UsedUrl(path, call).Some?
    ensures (forall rho: Node -> string :: ReachesAllowedHost(tree, rho, path, call))
       <==> IsSafe(ConstantPart(tree, UsedUrl(path, call).value))
  {
    hide Hostname, ClosesAuthority, UrlValue, ConstantPart, UsedUrl, Diversion;
    var arg := UsedUrl(path, call).value;
    var c := ConstantPart(tree, arg);
    if c.whole || ClosesAuthority(c.text) {
      forall rho: Node -> string
        ensures ReachesAllowedHost(tree, rho, path, call) <==> IsAllowed(c.text)
      {
        ConstantBegins(tree, rho, arg);
        ClosedDecides(c, UrlValue(tree, rho, arg));
      }
      var rho: Node -> string := _ => "";
      assert ReachesAllowedHost(tree, rho, path, call) <==> IsAllowed(c.text);
    } else {
      var rho: Node -> string := _ => Diversion(c.text);
      UnknownFollows(tree, Diversion(c.text), arg);
      OpenIsDiverted(c, UrlValue(tree, rho, arg));
      assert !ReachesAllowedHost(tree, rho, path, call);
    }
  }

  // So a clean scan is enough for a call exactly when the gate reads its URL or not: what decides is
  // the constant part, which a wholly literal URL has in full.
  lemma WholeLiteralIsSafe(tree: Node, call: Node, path: string, url: string, rho: Node -> string)
    requires Violations(Parsed(tree)) == [] && NoShadowing(tree) && IsClientCall(tree, call, path)
    requires UsedUrl(path, call) == Some(Str(url)) && UrlArgument(call) == Some(Str(url))
    ensures ReachesAllowedHost(tree, rho, path, call)
  {
    hide Violations, NoShadowing, Hostname, Within, Denotes;
    ClientCallIsChecked(tree, call, path);
    assert LeftmostLiteral(Str(url)) == Some(url);
    assert ConstantPart(tree, Str(url)) == Constant(url, true);
    CallIsSafeIff(tree, call, path);
  }
}
