/** What the privacy gate's silence means: which URLs the calls it passes really use. */
module GateSoundness {
  import opened Wrappers
  import opened Text
  import opened PythonTree
  import opened Urls
  import opened PrivacyGate

  // ---------- What names refer to ----------

  function TopPackage(name: string): string {
    name[..FirstIndex(name, '.')]
  }

  // What an import really binds: `import a.b` binds a to the package a.
  predicate Binds(n: Node, local: string, target: string) {
    match n
    case Import(names) =>
      exists a :: a in names &&
        if IsRenamed(a) then local == a.asname.value && target == a.name
        else local == target == TopPackage(a.name)
    case ImportFrom(Some(m), members) =>
      exists a :: a in members && a.name != "*" && target == m + "." + a.name
                  && local == if IsRenamed(a) then a.asname.value else a.name
    case _ => false
  }

  // `import a as b`
  predicate IsRenamed(a: Alias) {
    a.asname.Some? && a.asname.value != ""
  }

  ghost predicate Imported(tree: Node, local: string, target: string) {
    exists n :: Within(n, tree) && Binds(n, local, target)
  }

  // No two imports give one name different meanings: the shadowing the gate documents as unseen.
  ghost predicate NoShadowing(tree: Node) {
    forall local, t1, t2 | Imported(tree, local, t1) && Imported(tree, local, t2) :: t1 == t2
  }

  // What a callee refers to when its root is an imported name.
  ghost predicate Denotes(tree: Node, callee: Node, path: string)
    decreases callee
  {
    match callee
    case Name(id) => '.' !in id && Imported(tree, id, path)
    case Attribute(receiver, attr) => exists p :: Denotes(tree, receiver, p) && path == p + "." + attr
    case _ => false
  }

  // ---------- What the program computes ----------

  const REQUEST := "urllib.request.Request"

  // A call that really builds a request object from the URL that is its first argument.
  ghost predicate BuildsRequest(tree: Node, n: Node) {
    n.Call? && n.args != [] && Denotes(tree, n.func, REQUEST)
  }

  // The URL an expression stands for. `rho` gives the run-time value of everything that is neither
  // a literal, a concatenation nor a genuine request object.
  ghost function UrlValue(tree: Node, rho: Node -> string, n: Node): string
    decreases n
  {
    match n
    case Str(value) => value
    case Add(left, right) => UrlValue(tree, rho, left) + UrlValue(tree, rho, right)
    case JoinedStr(values) => JoinedValue(tree, rho, values)
    case Call(_, args, _, _) => if BuildsRequest(tree, n) then UrlValue(tree, rho, args[0]) else rho(n)
    case _ => rho(n)
  }

  ghost function JoinedValue(tree: Node, rho: Node -> string, values: seq<Node>): string
    decreases values
  {
    if values == [] then "" else UrlValue(tree, rho, values[0]) + JoinedValue(tree, rho, values[1..])
  }

  // The client calls whose first positional argument is the HTTP method and whose second is the URL.
  const METHOD_FIRST := {"requests.request", "httpx.request"}

  // The argument that client call `path` uses as its URL; None when it comes in some other way.
  function UsedUrl(path: string, call: Node): Option<Node>
    requires call.Call?
  {
    var position := if path in METHOD_FIRST then 1 else 0;
    if |call.args| > position then Some(call.args[position]) else UrlKeyword(call.keywords)
  }

  // The gate looks at the argument that is used.
  predicate ReadsTheUrl(path: string, arity: nat) {
    path !in METHOD_FIRST || arity == 0
  }

  // Every wrapper the gate looks through on its way to the literal does build a request object.
  ghost predicate GenuineWrappers(tree: Node, n: Node)
    decreases n
  {
    match n
    case Add(left, _) => GenuineWrappers(tree, left)
    case Call(_, args, _, _) => WrapsUrl(n) ==> BuildsRequest(tree, n) && GenuineWrappers(tree, args[0])
    case _ => true
  }

  ghost predicate ReachesAllowedHost(tree: Node, rho: Node -> string, path: string, call: Node)
    requires call.Call?
  {
    && UsedUrl(path, call).Some?
    && Hostname(UrlValue(tree, rho, UsedUrl(path, call).value)).Some?
    && Hostname(UrlValue(tree, rho, UsedUrl(path, call).value)).value in ALLOWED_HOSTNAMES
  }

  // ---------- The literal against the value ----------

  lemma {:induction false} LiteralIsPrefix(tree: Node, rho: Node -> string, n: Node)
    requires LeftmostLiteral(n).Some? && GenuineWrappers(tree, n)
    ensures LeftmostLiteral(n).value <= UrlValue(tree, rho, n)
    decreases n
  {
    match n
    case Add(left, right) => LiteralIsPrefix(tree, rho, left);
    case Call(_, args, _, _) => LiteralIsPrefix(tree, rho, args[0]);
    case JoinedStr(values) =>
      assert UrlValue(tree, rho, n) == UrlValue(tree, rho, values[0]) + JoinedValue(tree, rho, values[1..]);
      LiteralIsPrefix(tree, rho, values[0]);
    case _ =>
  }

  // Behind a foreign wrapper the value starts with whatever the environment likes.
  lemma {:induction false} ForeignWrapperDecides(tree: Node, start: string, n: Node)
    requires LeftmostLiteral(n).Some? && !GenuineWrappers(tree, n)
    ensures start <= UrlValue(tree, _ => start, n)
    decreases n
  {
    match n
    case Add(left, right) => ForeignWrapperDecides(tree, start, left);
    case Call(_, args, _, _) =>
      if BuildsRequest(tree, n) {
        ForeignWrapperDecides(tree, start, args[0]);
      }
    case _ =>
  }

  // The leftmost literal is a prefix of the value in every environment exactly when it is empty or
  // every wrapper on the way to it is genuine.
  lemma LiteralIsPrefixIffGenuine(tree: Node, n: Node)
    requires LeftmostLiteral(n).Some?
    ensures (forall rho: Node -> string :: LeftmostLiteral(n).value <= UrlValue(tree, rho, n))
       <==> LeftmostLiteral(n).value == "" || GenuineWrappers(tree, n)
  {
    var literal := LeftmostLiteral(n).value;
    if GenuineWrappers(tree, n) {
      forall rho: Node -> string
        ensures literal <= UrlValue(tree, rho, n)
      {
        LiteralIsPrefix(tree, rho, n);
      }
    } else if literal != "" {
      var c := if literal[0] == 'a' then 'b' else 'a';
      ForeignWrapperDecides(tree, [c], n);
      assert !(literal <= UrlValue(tree, _ => [c], n));
    }
  }

  // ---------- Soundness ----------

  lemma {:induction false} UpdatedSource(aliases: map<string, string>, bindings: seq<Binding>, local: string)
    requires local in Updated(aliases, bindings)
    ensures Binding(local, Updated(aliases, bindings)[local]) in bindings
         || (local in aliases && Updated(aliases, bindings)[local] == aliases[local])
  {
    if bindings != [] {
      var n := |bindings| - 1;
      if bindings[n].local != local {
        UpdatedSource(aliases, bindings[..n], local);
      } else {
        assert bindings[n] == Binding(local, Updated(aliases, bindings)[local]);
      }
    }
  }

  lemma {:induction false} AliasSource(nodes: seq<Node>, local: string) returns (n: Node)
    requires local in AliasMap(nodes)
    ensures n in nodes && Binding(local, AliasMap(nodes)[local]) in BindingsOf(n)
  {
    var i := |nodes| - 1;
    var before := AliasMap(nodes[..i]);
    UpdatedSource(before, BindingsOf(nodes[i]), local);
    if Binding(local, AliasMap(nodes)[local]) in BindingsOf(nodes[i]) {
      n := nodes[i];
    } else {
      n := AliasSource(nodes[..i], local);
    }
  }

  lemma {:induction false} ImportBindingSource(names: seq<Alias>, b: Binding) returns (a: Alias)
    requires b in ImportBindings(names)
    ensures a in names && b == Binding(LocalName(a), a.name)
  {
    a := names[|names| - 1];
    if b != Binding(LocalName(a), a.name) {
      a := ImportBindingSource(names[..|names| - 1], b);
    }
  }

  lemma {:induction false} FromBindingSource(m: string, names: seq<Alias>, b: Binding) returns (a: Alias)
    requires b in FromBindings(m, names)
    ensures a in names && a.name != "*" && b == Binding(LocalName(a), m + "." + a.name)
  {
    a := names[|names| - 1];
    if a.name == "*" || b != Binding(LocalName(a), m + "." + a.name) {
      a := FromBindingSource(m, names[..|names| - 1], b);
    }
  }

  lemma TopOfPlainName(name: string)
    requires '.' !in name
    ensures TopPackage(name) == name
  {
    assert FirstIndex(name, '.') == |name|;
  }

  // An entry of the alias map under a plain identifier is what an import really binds.
  lemma EntryIsBinding(n: Node, local: string, target: string)
    requires Binding(local, target) in BindingsOf(n) && '.' !in local
    ensures Binds(n, local, target)
  {
    match n
    case Import(names) =>
      var a := ImportBindingSource(names, Binding(local, target));
      if !IsRenamed(a) {
        TopOfPlainName(a.name);
      }
    case ImportFrom(Some(m), members) =>
      var a := FromBindingSource(m, members, Binding(local, target));
    case _ =>
  }

  lemma {:induction false} WalkStaysInside(todo: seq<Node>, tree: Node, n: Node)
    requires n in Walk(todo) && forall t | t in todo :: Within(t, tree)
    ensures Within(n, tree)
    decreases SizeAll(todo)
  {
    SizeOfStep(todo);
    var rest := todo[1..] + Children(todo[0]);
    if n != todo[0] {
      forall t | t in rest ensures Within(t, tree) {
        if t in Children(todo[0]) {
          WithinChild(t, todo[0], tree);
        }
      }
      WalkStaysInside(rest, tree, n);
    }
  }

  lemma {:induction false} WithinChild(c: Node, n: Node, tree: Node)
    requires c in Children(n) && Within(n, tree)
    ensures Within(c, tree)
    decreases tree
  {
    if n == tree {
      assert Within(c, c);
    } else {
      var d :| d in Children(tree) && Within(n, d);
      WithinChild(c, n, d);
    }
  }

  // Without shadowing, the gate resolves a plain identifier to what it is imported as.
  lemma ResolveIsRight(tree: Node, id: string, target: string)
    requires NoShadowing(tree) && '.' !in id && Imported(tree, id, target)
    ensures Resolve(AliasMap(Walk([tree])), id) == target
  {
    var aliases := AliasMap(Walk([tree]));
    if id in aliases {
      var n := AliasSource(Walk([tree]), id);
      assert Within(tree, tree);
      WalkStaysInside([tree], tree, n);
      EntryIsBinding(n, id, aliases[id]);
      assert Imported(tree, id, aliases[id]);
    } else {
      var n :| Within(n, tree) && Binds(n, id, target);
      WalkVisits([tree], tree, n);
      UnlistedBinding(Walk([tree]), n, id, target);
    }
  }

  lemma {:induction false} UpdatedHas(aliases: map<string, string>, bindings: seq<Binding>, local: string)
    requires local in aliases || exists b :: b in bindings && b.local == local
    ensures local in Updated(aliases, bindings)
  {
    if bindings != [] {
      var n := |bindings| - 1;
      if bindings[n].local != local {
        assert forall b | b in bindings && b.local == local :: b in bindings[..n];
        UpdatedHas(aliases, bindings[..n], local);
      }
    }
  }

  lemma {:induction false} AliasMapHas(nodes: seq<Node>, n: Node, b: Binding)
    requires n in nodes && b in BindingsOf(n)
    ensures b.local in AliasMap(nodes)
  {
    hide BindingsOf, Updated;
    var i := |nodes| - 1;
    if n in nodes[..i] {
      AliasMapHas(nodes[..i], n, b);
    } else {
      assert n == nodes[i];
    }
    UpdatedHas(AliasMap(nodes[..i]), BindingsOf(nodes[i]), b.local);
  }

  lemma {:induction false} ImportBindingsHave(names: seq<Alias>, a: Alias)
    requires a in names
    ensures Binding(LocalName(a), a.name) in ImportBindings(names)
  {
    if a != names[|names| - 1] {
      ImportBindingsHave(names[..|names| - 1], a);
    }
  }

  lemma {:induction false} FromBindingsHave(m: string, names: seq<Alias>, a: Alias)
    requires a in names && a.name != "*"
    ensures Binding(LocalName(a), m + "." + a.name) in FromBindings(m, names)
  {
    if a != names[|names| - 1] {
      FromBindingsHave(m, names[..|names| - 1], a);
    }
  }

  // A real binding missing from the alias map comes from `import a.b`, which binds a to itself.
  lemma UnlistedBinding(nodes: seq<Node>, n: Node, local: string, target: string)
    requires n in nodes && Binds(n, local, target) && local !in AliasMap(nodes)
    ensures local == target
  {
    match n
    case Import(names) =>
      var a :| a in names &&
        if IsRenamed(a) then local == a.asname.value && target == a.name
        else local == target == TopPackage(a.name);
      ImportBindingsHave(names, a);
      AliasMapHas(nodes, n, Binding(LocalName(a), a.name));
    case ImportFrom(Some(m), members) =>
      var a :| a in members && a.name != "*" && target == m + "." + a.name
               && local == if IsRenamed(a) then a.asname.value else a.name;
      FromBindingsHave(m, members, a);
      AliasMapHas(nodes, n, Binding(local, target));
    case _ =>
  }

  // Under every form of import, the gate names a callee by what it denotes.
  lemma {:induction false} NameIsRight(tree: Node, callee: Node, path: string)
    requires NoShadowing(tree) && Denotes(tree, callee, path)
    ensures DottedName(AliasMap(Walk([tree])), callee) == Some(path)
    decreases callee
  {
    match callee
    case Name(id) => ResolveIsRight(tree, id, path);
    case Attribute(receiver, attr) =>
      var p :| Denotes(tree, receiver, p) && path == p + "." + attr;
      NameIsRight(tree, receiver, p);
    case _ =>
  }

  lemma {:induction false} CleanScanIsCleanEverywhere(nodes: seq<Node>, aliases: map<string, string>, n: Node)
    requires n in nodes && Verdicts(nodes, aliases) == []
    ensures Verdict(n, aliases) == []
  {
    var i := |nodes| - 1;
    if n in nodes[..i] {
      CleanScanIsCleanEverywhere(nodes[..i], aliases, n);
    } else {
      assert n == nodes[i];
    }
  }

  // A call that denotes HTTP client call `path`.
  ghost predicate IsClientCall(tree: Node, call: Node, path: string) {
    Within(call, tree) && call.Call? && Denotes(tree, call.func, path) && path in HTTP_CLIENT_CALLS
  }

  // What the gate cannot see: the argument it reads is the one used, its literal closes its
  // authority, and the wrappers it looks through are genuine.
  ghost predicate IsPlainlyWritten(tree: Node, call: Node, path: string)
    requires call.Call?
  {
    && ReadsTheUrl(path, |call.args|)
    && IsClosedAndGenuine(tree, call)
  }

  ghost predicate IsClosedAndGenuine(tree: Node, call: Node)
    requires call.Call?
  {
    UrlLiteral(call).Some? && ClosesAuthority(UrlLiteral(call).value) && GenuineWrappers(tree, UrlArgument(call).value)
  }

  predicate HasAllowedLiteral(call: Node)
    requires call.Call?
  {
    && UrlLiteral(call).Some?
    && Hostname(UrlLiteral(call).value).Some? && Hostname(UrlLiteral(call).value).value in ALLOWED_HOSTNAMES
  }

  lemma ClientCallIsChecked(tree: Node, call: Node, path: string)
    requires Violations(Parsed(tree)) == [] && NoShadowing(tree) && IsClientCall(tree, call, path)
    ensures HasAllowedLiteral(call)
  {
    hide Hostname, AliasMap, DottedName, LeftmostLiteral, Walk;
    var nodes := Walk([tree]);
    WalkVisits([tree], tree, call);
    CleanScanIsCleanEverywhere(nodes, AliasMap(nodes), call);
    NameIsRight(tree, call.func, path);
  }

  lemma ClosedLiteralDecides(tree: Node, rho: Node -> string, arg: Node)
    requires LeftmostLiteral(arg).Some? && ClosesAuthority(LeftmostLiteral(arg).value) && GenuineWrappers(tree, arg)
    ensures Hostname(UrlValue(tree, rho, arg)) == Hostname(LeftmostLiteral(arg).value)
  {
    hide Hostname, ClosesAuthority, LeftmostLiteral, UrlValue, GenuineWrappers;
    var literal, url := LeftmostLiteral(arg).value, UrlValue(tree, rho, arg);
    LiteralIsPrefix(tree, rho, arg);
    assert url == literal + url[|literal|..];
    ClosedAuthorityIsSettled(literal, url[|literal|..]);
  }

  lemma ClientCallReachesAllowedHost(tree: Node, call: Node, path: string, rho: Node -> string)
    requires Violations(Parsed(tree)) == [] && NoShadowing(tree)
    requires IsClientCall(tree, call, path) && IsPlainlyWritten(tree, call, path)
    ensures ReachesAllowedHost(tree, rho, path, call)
  {
    hide Hostname, ClosesAuthority, LeftmostLiteral, UrlValue, GenuineWrappers, Violations, NoShadowing;
    ClientCallIsChecked(tree, call, path);
    ClosedLiteralDecides(tree, rho, UrlArgument(call).value);
  }

  // Main result: when the scan reports nothing, every plainly written HTTP client call in the tree,
  // under every form of import, uses a URL with an allowed host, whatever the run-time values.
  lemma CleanScanReachesAllowedHosts(tree: Node, rho: Node -> string)
    requires Violations(Parsed(tree)) == [] && NoShadowing(tree)
    ensures forall call, path | IsClientCall(tree, call, path) && IsPlainlyWritten(tree, call, path) ::
              ReachesAllowedHost(tree, rho, path, call)
  {
    hide Violations, NoShadowing, ReachesAllowedHost, IsPlainlyWritten, Within, Denotes;
    forall call, path | IsClientCall(tree, call, path) && IsPlainlyWritten(tree, call, path)
      ensures ReachesAllowedHost(tree, rho, path, call)
    {
      ClientCallReachesAllowedHost(tree, call, path, rho);
    }
  }

  // For a literal the gate accepts, every continuation keeps to the allowed hosts exactly when the
  // literal closes its authority.
  lemma AcceptedLiteralIsSafeIffClosed(literal: string)
    requires Hostname(literal).Some? && Hostname(literal).value in ALLOWED_HOSTNAMES
    ensures ClosesAuthority(literal) <==>
            forall more :: Hostname(literal + more).Some? && Hostname(literal + more).value in ALLOWED_HOSTNAMES
  {
    hide Hostname, ClosesAuthority;
    if ClosesAuthority(literal) {
      forall more ensures Hostname(literal + more) == Hostname(literal) {
        ClosedAuthorityIsSettled(literal, more);
      }
    } else {
      assert IsPlainHost("x") && Lower("x") == "x";
      OpenAuthorityIsUnsettled(literal, "x");
      assert literal + "@" + "x" == literal + "@x";
      assert "x" !in ALLOWED_HOSTNAMES;
    }
  }
}
