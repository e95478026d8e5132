/** The privacy gate: a static scan that reports every HTTP client call whose destination it cannot
    verify to be an allowed host. */
module PrivacyGate {
  import opened Wrappers
  import opened PythonTree
  import opened Urls

  const ALLOWED_HOSTNAMES := {
    "api.osv.dev", "localhost", "127.0.0.1", "::1", "registry.npmjs.org", "api.npmjs.org",
    "pypi.org", "pypistats.org", "chrome.google.com", "marketplace.visualstudio.com"
  }

  const HTTP_CLIENT_CALLS := {
    "requests.get", "requests.post", "requests.put", "requests.patch", "requests.delete",
    "requests.head", "requests.request", "urllib.request.urlopen", "urllib.request.Request",
    "httpx.get", "httpx.post", "httpx.put", "httpx.patch", "httpx.delete", "httpx.head", "httpx.request"
  }

  const URL_WRAPPER_CALLS := {"Request", "urllib.request.Request"}

  // ---------- Import aliases ----------

  datatype Binding = Binding(local: string, target: string)

  function LocalName(a: Alias): string {
    if a.asname.Some? && a.asname.value != "" then a.asname.value else a.name
  }

  // The entries one import statement adds to the gate's alias map, in order.
  function ImportBindings(names: seq<Alias>): seq<Binding> {
    if names == [] then []
    else ImportBindings(names[..|names| - 1]) +
         [Binding(LocalName(names[|names| - 1]), names[|names| - 1].name)]
  }

  function FromBindings(moduleName: string, names: seq<Alias>): seq<Binding> {
    if names == [] then []
    else
      var a := names[|names| - 1];
      FromBindings(moduleName, names[..|names| - 1]) +
      if a.name == "*" then [] else [Binding(LocalName(a), moduleName + "." + a.name)]
  }

  function BindingsOf(n: Node): seq<Binding> {
    match n
    case Import(names) => ImportBindings(names)
    case ImportFrom(Some(m), members) => FromBindings(m, members)
    case _ => []
  }

  function Updated(aliases: map<string, string>, bindings: seq<Binding>): map<string, string> {
    if bindings == [] then aliases
    else
      var n := |bindings| - 1;
      Updated(aliases, bindings[..n])[bindings[n].local := bindings[n].target]
  }

  function AliasMap(nodes: seq<Node>): map<string, string> {
    if nodes == [] then map[]
    else Updated(AliasMap(nodes[..|nodes| - 1]), BindingsOf(nodes[|nodes| - 1]))
  }

  method AddImports(before: map<string, string>, names: seq<Alias>) returns (aliases: map<string, string>)
    ensures aliases == Updated(before, ImportBindings(names))
  {
    aliases := before;
    for j := 0 to |names|
      invariant aliases == Updated(before, ImportBindings(names[..j]))
    {
      assert names[..j + 1][..j] == names[..j];
      UpdatedSnoc(before, ImportBindings(names[..j]), Binding(LocalName(names[j]), names[j].name));
      aliases := aliases[LocalName(names[j]) := names[j].name];
    }
    assert names[..|names|] == names;
  }

  method AddMembers(before: map<string, string>, m: string, members: seq<Alias>)
      returns (aliases: map<string, string>)
    ensures aliases == Updated(before, FromBindings(m, members))
  {
    aliases := before;
    for j := 0 to |members|
      invariant aliases == Updated(before, FromBindings(m, members[..j]))
    {
      assert members[..j + 1][..j] == members[..j];
      if members[j].name != "*" {
        var b := Binding(LocalName(members[j]), m + "." + members[j].name);
        UpdatedSnoc(before, FromBindings(m, members[..j]), b);
        aliases := aliases[b.local := b.target];
      } else {
        assert FromBindings(m, members[..j + 1]) == FromBindings(m, members[..j]);
      }
    }
    assert members[..|members|] == members;
  }

  method BuildAliasMap(nodes: seq<Node>) returns (aliases: map<string, string>)
    ensures aliases == AliasMap(nodes)
  {
    aliases := map[];
    for i := 0 to |nodes|
      invariant aliases == AliasMap(nodes[..i])
    {
      assert nodes[..i + 1][..i] == nodes[..i];
      match nodes[i]
      case Import(names) =>
        aliases := AddImports(aliases, names);
      case ImportFrom(Some(m), members) =>
        aliases := AddMembers(aliases, m, members);
      case _ =>
    }
    assert nodes[..|nodes|] == nodes;
  }

  lemma UpdatedSnoc(aliases: map<string, string>, bindings: seq<Binding>, b: Binding)
    ensures Updated(aliases, bindings + [b]) == Updated(aliases, bindings)[b.local := b.target]
  {
    assert (bindings + [b])[..|bindings|] == bindings;
  }

  // ---------- Names of calls ----------

  function Resolve(aliases: map<string, string>, id: string): string {
    if id in aliases then aliases[id] else id
  }

  // The dotted name of a callee that is a name or an attribute chain on a name.
  function DottedName(aliases: map<string, string>, callee: Node): Option<string> {
    match callee
    case Name(id) => Some(Resolve(aliases, id))
    case Attribute(receiver, attr) =>
      (match DottedName(aliases, receiver)
       case Some(p) => Some(p + "." + attr)
       case None => None)
    case _ => None
  }

  function Dots(root: string, parts: seq<string>): string {
    if parts == [] then root else Dots(root, parts[1..]) + "." + parts[0]
  }

  lemma {:induction false} DotsSnoc(root: string, parts: seq<string>, attr: string)
    ensures Dots(root, parts + [attr]) == Dots(root + "." + attr, parts)
  {
    if parts == [] {
      assert [attr][1..] == [];
    } else {
      assert (parts + [attr])[1..] == parts[1..] + [attr];
      DotsSnoc(root, parts[1..], attr);
    }
  }

  // The loop collects the attributes from the outside in, then joins them in reverse.
  method DottedCallName(aliases: map<string, string>, callee: Node) returns (name: Option<string>)
    ensures name == DottedName(aliases, callee)
  {
    if callee.Name? {
      return Some(Resolve(aliases, callee.id));
    }
    var parts: seq<string> := [];
    var node := callee;
    while node.Attribute?
      invariant DottedName(aliases, node).None? ==> DottedName(aliases, callee).None?
      invariant DottedName(aliases, node).Some? ==>
                  DottedName(aliases, callee) == Some(Dots(DottedName(aliases, node).value, parts))
      decreases node
    {
      if DottedName(aliases, node.receiver).Some? {
        DotsSnoc(DottedName(aliases, node.receiver).value, parts, node.attr);
      }
      parts := parts + [node.attr];
      node := node.receiver;
    }
    if node.Name? {
      return Some(Dots(Resolve(aliases, node.id), parts));
    }
    return None;
  }

  // ---------- The literal at the start of a URL ----------

  // The name of a callee as written, without resolving aliases.
  function FuncAttrName(callee: Node): Option<string> {
    match callee
    case Attribute(receiver, attr) =>
      (match FuncAttrName(receiver)
       case Some(p) => if p == "" then Some(attr) else Some(p + "." + attr)
       case None => Some(attr))
    case Name(id) => Some(id)
    case _ => None
  }

  predicate WrapsUrl(n: Node) {
    n.Call? && n.args != [] && FuncAttrName(n.func).Some? && FuncAttrName(n.func).value in URL_WRAPPER_CALLS
  }

  function LeftmostLiteral(n: Node): Option<string> {
    match n
    case Str(value) => Some(value)
    case Add(left, _) => LeftmostLiteral(left)
    case JoinedStr(values) =>
      if values != [] && values[0].Str? && Hostname(values[0].value).Some? then Some(values[0].value) else None
    case Call(_, args, _, _) => if WrapsUrl(n) then LeftmostLiteral(args[0]) else None
    case _ => None
  }

  function UrlKeyword(keywords: seq<Node>): Option<Node> {
    if keywords == [] then None
    else if keywords[0].Keyword? && keywords[0].arg == Some("url") then Some(keywords[0].keywordValue)
    else UrlKeyword(keywords[1..])
  }

  // The first positional argument, or else the url= argument.
  function UrlArgument(call: Node): Option<Node>
    requires call.Call?
  {
    if call.args != [] then Some(call.args[0]) else UrlKeyword(call.keywords)
  }

  function UrlLiteral(call: Node): Option<string>
    requires call.Call?
  {
    if UrlArgument(call).None? then None else LeftmostLiteral(UrlArgument(call).value)
  }

  method ExtractUrlLiteral(call: Node) returns (literal: Option<string>)
    requires call.Call?
    ensures literal == UrlLiteral(call)
  {
    var arg: Option<Node> := None;
    if call.args != [] {
      arg := Some(call.args[0]);
    }
    if arg.None? {
      var i := 0;
      while i < |call.keywords|
        invariant i <= |call.keywords|
        invariant arg.None?
        invariant UrlKeyword(call.keywords) == UrlKeyword(call.keywords[i..])
      {
        if call.keywords[i].Keyword? && call.keywords[i].arg == Some("url") {
          arg := Some(call.keywords[i].keywordValue);
          break;
        }
        i := i + 1;
      }
    }
    if arg.None? {
      return None;
    }
    literal := LeftmostLiteral(arg.value);
  }

  // ---------- The scan ----------

  datatype Reason =
    | RuntimeUrl
    | UnparseableUrl(url: string)
    | ForbiddenHost(host: string)
    | SyntaxError

  datatype Violation = Violation(line: nat, callName: string, reason: Reason)

  datatype Source = Malformed(line: nat) | Parsed(tree: Node)

  function Verdict(n: Node, aliases: map<string, string>): seq<Violation> {
    if !n.Call? || DottedName(aliases, n.func).None? || DottedName(aliases, n.func).value !in HTTP_CLIENT_CALLS then []
    else
      var name, url := DottedName(aliases, n.func).value, UrlLiteral(n);
      if url.None? then [Violation(n.line, name, RuntimeUrl)]
      else if Hostname(url.value).None? then [Violation(n.line, name, UnparseableUrl(url.value))]
      else if Hostname(url.value).value !in ALLOWED_HOSTNAMES
        then [Violation(n.line, name, ForbiddenHost(Hostname(url.value).value))]
      else []
  }

  function Verdicts(nodes: seq<Node>, aliases: map<string, string>): seq<Violation> {
    if nodes == [] then []
    else Verdicts(nodes[..|nodes| - 1], aliases) + Verdict(nodes[|nodes| - 1], aliases)
  }

  function Violations(source: Source): seq<Violation> {
    match source
    case Malformed(line) => [Violation(line, "", SyntaxError)]
    case Parsed(tree) => Verdicts(Walk([tree]), AliasMap(Walk([tree])))
  }

  method CheckNode(n: Node, aliases: map<string, string>) returns (violations: seq<Violation>)
    ensures violations == Verdict(n, aliases)
  {
    if !n.Call? {
      return [];
    }
    var name := DottedCallName(aliases, n.func);
    if name.None? || name.value !in HTTP_CLIENT_CALLS {
      return [];
    }
    var url := ExtractUrlLiteral(n);
    if url.None? {
      return [Violation(n.line, name.value, RuntimeUrl)];
    }
    var host := Hostname(url.value);
    if host.None? {
      return [Violation(n.line, name.value, UnparseableUrl(url.value))];
    }
    if host.value !in ALLOWED_HOSTNAMES {
      return [Violation(n.line, name.value, ForbiddenHost(host.value))];
    }
    return [];
  }

  lemma NoVerdicts(aliases: map<string, string>)
    ensures Verdicts([], aliases) == []
  {
  }

  lemma OneMoreVerdict(nodes: seq<Node>, i: nat, aliases: map<string, string>)
    requires i < |nodes|
    ensures Verdicts(nodes[..i + 1], aliases) == Verdicts(nodes[..i], aliases) + Verdict(nodes[i], aliases)
  {
    assert nodes[..i + 1][..i] == nodes[..i];
  }

  method ScanNodes(nodes: seq<Node>, aliases: map<string, string>) returns (violations: seq<Violation>)
    ensures violations == Verdicts(nodes, aliases)
  {
    hide Verdict, Verdicts;
    violations := [];
    NoVerdicts(aliases);
    for i := 0 to |nodes|
      invariant violations == Verdicts(nodes[..i], aliases)
    {
      OneMoreVerdict(nodes, i, aliases);
      var found := CheckNode(nodes[i], aliases);
      violations := violations + found;
    }
    assert nodes[..|nodes|] == nodes;
  }

  method ScanFile(source: Source) returns (violations: seq<Violation>)
    ensures violations == Violations(source)
  {
    hide Walk, AliasMap, Verdicts;
    if source.Malformed? {
      return [Violation(source.line, "", SyntaxError)];
    }
    var nodes := WalkTree(source.tree);
    var aliases := BuildAliasMap(nodes);
    violations := ScanNodes(nodes, aliases);
  }
}
