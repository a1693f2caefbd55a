/** The part of Python's syntax tree the safety screen and the import scanner look at,
    and `ast.walk`, the breadth-first traversal both of them use. */
module PyAst {
  import opened Maybe

  /** A syntax-tree node. Only the node kinds the screen and the scanner inspect are
      distinguished; every other node is `Other` with its child nodes in field order. */
  datatype Node =
    | Import(names: seq<string>)              // `import a.b, c`: the dotted names of its aliases
    | ImportFrom(moduleName: Option<string>)  // `from m import x`; None for `from . import x`
    | Name(id: string)                        // a bare identifier reference
    | Call(func: Node, args: seq<Node>)       // `func(args...)`
    | Other(children: seq<Node>)

  /** The outcome of `ast.parse`: a tree, or the text of the exception it raised. */
  datatype Parse = Parsed(tree: Node) | Unparseable(error: string)

  /** The direct children of a node, in the order `ast.iter_child_nodes` yields them. */
  function Children(n: Node): seq<Node>
  {
    match n
    case Call(f, args) => [f] + args
    case Other(cs) => cs
    case _ => []
  }

  /** Number of nodes in a tree. */
  function Size(n: Node): nat
    decreases n, 1
  {
    match n
    case Call(f, args) => 1 + Size(f) + SizeSum(args)
    case Other(cs) => 1 + SizeSum(cs)
    case _ => 1
  }

  /** Number of nodes in a forest. */
  function SizeSum(ns: seq<Node>): nat
    decreases ns, 0
  {
    if ns == [] then 0 else Size(ns[0]) + SizeSum(ns[1..])
  }

  lemma {:induction false} SizeSumAppend(a: seq<Node>, b: seq<Node>)
    ensures SizeSum(a + b) == SizeSum(a) + SizeSum(b)
  {
    if a != [] {
      assert (a + b)[1..] == a[1..] + b;
      SizeSumAppend(a[1..], b);
    } else {
      assert a + b == b;
    }
  }

  lemma SizeCountsChildren(n: Node)
    ensures Size(n) == 1 + SizeSum(Children(n))
  {
    match n
    case Call(f, args) =>
      assert ([f] + args)[1..] == args;
    case _ =>
  }

  /** Every node of a tree: the node itself and every node below it. */
  ghost function Subtrees(n: Node): set<Node>
    decreases n, 1
  {
    match n
    case Call(f, args) => {n} + Subtrees(f) + SubtreesOf(args)
    case Other(cs) => {n} + SubtreesOf(cs)
    case _ => {n}
  }

  /** Every node of a forest. */
  ghost function SubtreesOf(ns: seq<Node>): set<Node>
    decreases ns, 0
  {
    if ns == [] then {} else Subtrees(ns[0]) + SubtreesOf(ns[1..])
  }

  lemma {:induction false} SubtreesOfAppend(a: seq<Node>, b: seq<Node>)
    ensures SubtreesOf(a + b) == SubtreesOf(a) + SubtreesOf(b)
  {
    if a != [] {
      assert (a + b)[1..] == a[1..] + b;
      SubtreesOfAppend(a[1..], b);
    } else {
      assert a + b == b;
    }
  }

  lemma SubtreesOfChildren(n: Node)
    ensures Subtrees(n) == {n} + SubtreesOf(Children(n))
  {
    match n
    case Call(f, args) =>
      assert ([f] + args)[1..] == args;
    case _ =>
  }

  /** Every node of a tree, counted as often as it occurs. */
  ghost function Bag(n: Node): multiset<Node>
    decreases n, 1
  {
    match n
    case Call(f, args) => multiset{n} + Bag(f) + BagOf(args)
    case Other(cs) => multiset{n} + BagOf(cs)
    case _ => multiset{n}
  }

  /** Every node of a forest, counted as often as it occurs. */
  ghost function BagOf(ns: seq<Node>): multiset<Node>
    decreases ns, 0
  {
    if ns == [] then multiset{} else Bag(ns[0]) + BagOf(ns[1..])
  }

  lemma {:induction false} BagOfAppend(a: seq<Node>, b: seq<Node>)
    ensures BagOf(a + b) == BagOf(a) + BagOf(b)
  {
    if a != [] {
      assert (a + b)[1..] == a[1..] + b;
      BagOfAppend(a[1..], b);
    } else {
      assert a + b == b;
    }
  }

  lemma BagOfChildren(n: Node)
    ensures Bag(n) == multiset{n} + BagOf(Children(n))
  {
    match n
    case Call(f, args) =>
      assert ([f] + args)[1..] == args;
    case _ =>
  }

  /** `ast.walk`: a breadth-first traversal driven by a queue. The head of the queue is
      yielded and its children are appended to the back. Starting from `[tree]`, every node
      of the tree is yielded, and yielded exactly as often as it occurs in the tree. */
  function Walk(todo: seq<Node>): (r: seq<Node>)
    ensures |r| == SizeSum(todo)
    ensures forall n :: n in r <==> n in SubtreesOf(todo)
    ensures multiset(r) == BagOf(todo)
    decreases SizeSum(todo)
  {
    if todo == [] then []
    else
      var next := todo[1..] + Children(todo[0]);
      SizeSumAppend(todo[1..], Children(todo[0]));
      SizeCountsChildren(todo[0]);
      SubtreesOfAppend(todo[1..], Children(todo[0]));
      SubtreesOfChildren(todo[0]);
      BagOfAppend(todo[1..], Children(todo[0]));
      BagOfChildren(todo[0]);
      [todo[0]] + Walk(next)
  }

  /** A subtree of a subtree is a subtree. */
  lemma {:induction false} SubtreeTransitive(a: Node, b: Node, c: Node)
    requires b in Subtrees(a) && c in Subtrees(b)
    ensures c in Subtrees(a)
    decreases a, 1
  {
    match a
    case Call(f, args) =>
      if b == a {
      } else if b in Subtrees(f) {
        SubtreeTransitive(f, b, c);
      } else {
        ForestSubtreeTransitive(args, b, c);
      }
    case Other(cs) =>
      if b != a {
        ForestSubtreeTransitive(cs, b, c);
      }
    case _ =>
  }

  lemma {:induction false} ForestSubtreeTransitive(ns: seq<Node>, b: Node, c: Node)
    requires b in SubtreesOf(ns) && c in Subtrees(b)
    ensures c in SubtreesOf(ns)
    decreases ns, 0
  {
    if b in Subtrees(ns[0]) {
      SubtreeTransitive(ns[0], b, c);
    } else {
      ForestSubtreeTransitive(ns[1..], b, c);
    }
  }
}
