/** The part of Python's syntax trees that the privacy gate looks at, and ast.walk over it. */
module PythonTree {
  import opened Wrappers

  datatype Alias = Alias(name: string, asname: Option<string>)

  datatype Node =
    | Str(value: string)
    | Name(id: string)
    | Attribute(receiver: Node, attr: string)
    | Add(left: Node, right: Node)
    | JoinedStr(values: seq<Node>)
    | Call(func: Node, args: seq<Node>, keywords: seq<Node>, line: nat)
    | Keyword(arg: Option<string>, keywordValue: Node)
    | Import(names: seq<Alias>)
    | ImportFrom(moduleName: Option<string>, members: seq<Alias>)
    | Other(children: seq<Node>, tag: nat)

  function Children(n: Node): (r: seq<Node>)
    ensures forall c | c in r :: c < n
  {
    match n
    case Attribute(receiver, _) => [receiver]
    case Add(left, right) => [left, right]
    case JoinedStr(values) => values
    case Call(func, args, keywords, _) => [func] + args + keywords
    case Keyword(_, value) => [value]
    case Other(children, _) => children
    case _ => []
  }

  // n occurs somewhere in the tree under root.
  ghost predicate Within(n: Node, root: Node)
    decreases root
  {
    n == root || exists c :: c in Children(root) && Within(n, c)
  }

  function Size(n: Node): nat {
    match n
    case Attribute(receiver, _) => 1 + Size(receiver)
    case Add(left, right) => 1 + Size(left) + Size(right)
    case JoinedStr(values) => 1 + SizeAll(values)
    case Call(func, args, keywords, _) => 1 + Size(func) + SizeAll(args) + SizeAll(keywords)
    case Keyword(_, value) => 1 + Size(value)
    case Other(children, _) => 1 + SizeAll(children)
    case _ => 1
  }

  function SizeAll(nodes: seq<Node>): nat {
    if nodes == [] then 0 else Size(nodes[0]) + SizeAll(nodes[1..])
  }

  lemma {:induction false} SizeAppend(a: seq<Node>, b: seq<Node>)
    ensures SizeAll(a + b) == SizeAll(a) + SizeAll(b)
  {
    if a == [] {
      assert a + b == b;
    } else {
      assert (a + b)[1..] == a[1..] + b;
      SizeAppend(a[1..], b);
    }
  }

  lemma SizeOfChildren(n: Node)
    ensures SizeAll(Children(n)) < Size(n)
  {
    match n
    case Add(left, right) =>
      assert [left, right] == [left] + [right];
      SizeAppend([left], [right]);
    case Call(func, args, keywords, _) =>
      assert ([func] + args)[1..] == args;
      SizeAppend([func] + args, keywords);
    case _ =>
  }

  lemma SizeOfStep(todo: seq<Node>)
    requires todo != []
    ensures SizeAll(todo[1..] + Children(todo[0])) < SizeAll(todo)
  {
    SizeOfChildren(todo[0]);
    SizeAppend(todo[1..], Children(todo[0]));
  }

  // ast.walk: breadth first, with a queue.
  function Walk(todo: seq<Node>): seq<Node>
    decreases SizeAll(todo)
  {
    if todo == [] then []
    else
      SizeOfStep(todo);
      [todo[0]] + Walk(todo[1..] + Children(todo[0]))
  }

  lemma WalkStep(todo: seq<Node>)
    ensures Walk(todo) == if todo == [] then [] else [todo[0]] + Walk(todo[1..] + Children(todo[0]))
  {
  }

  method WalkTree(root: Node) returns (visited: seq<Node>)
    ensures visited == Walk([root])
  {
    hide Walk, Children, SizeAll;
    var todo := [root];
    visited := [];
    while todo != []
      invariant visited + Walk(todo) == Walk([root])
      decreases SizeAll(todo)
    {
      SizeOfStep(todo);
      WalkStep(todo);
      var node := todo[0];
      ghost var rest := Walk(todo[1..] + Children(node));
      assert visited + ([node] + rest) == (visited + [node]) + rest;
      todo := todo[1..] + Children(node);
      visited := visited + [node];
    }
    WalkStep([]);
  }

  // Every node of the tree is visited.
  lemma {:induction false} WalkVisits(todo: seq<Node>, root: Node, n: Node)
    requires root in todo && Within(n, root)
    ensures n in Walk(todo)
    decreases SizeAll(todo)
  {
    SizeOfStep(todo);
    var rest := todo[1..] + Children(todo[0]);
    if root in todo[1..] {
      WalkVisits(rest, root, n);
    } else if n != root {
      var c :| c in Children(root) && Within(n, c);
      WalkVisits(rest, c, n);
    }
  }

  // Every direct part of a node is visited with it: operands, callee, arguments, keywords, values.
  lemma PartsAreChildren(n: Node, c: Node)
    ensures c in Children(n) <==>
              match n
              case Attribute(receiver, _) => c == receiver
              case Add(left, right) => c == left || c == right
              case JoinedStr(values) => c in values
              case Call(func, args, keywords, _) => c == func || c in args || c in keywords
              case Keyword(_, value) => c == value
              case Other(children, _) => c in children
              case _ => false
  {
  }
}
