/** The static safety screen run before any submission is executed: a denylist of
    module roots and of dynamic-evaluation builtins, checked at every node of the tree.
    It is a first line of defence, not a sandbox. */
module Safety {
  import opened Maybe
  import opened Text
  import opened PyAst

  /** Modules whose root may not be imported: process, OS and network access. */
  const BlacklistedModules: set<string> :=
    {"os", "subprocess", "socket", "shutil", "psutil", "multiprocessing"}

  /** Builtins that import or evaluate code dynamically. */
  const BlacklistedNames: set<string> := {"__import__", "exec", "eval"}

  const PassMessage: string := "通过安全检查"
  const ParseErrorPrefix: string := "无法解析代码："
  const ImportPrefix: string := "禁止导入模块："
  const ImportFromPrefix: string := "禁止从模块导入："
  const NamePrefix: string := "禁止使用危险内建名："
  const CallPrefix: string := "禁止调用危险函数："

  /** The pair `(ok, message)` the screen returns. */
  datatype Verdict = Verdict(passed: bool, reason: string)

  /** The root package of a module path is denylisted. */
  predicate DeniedModule(name: string)
  {
    Root(name) in BlacklistedModules
  }

  /** The position of the first alias of an `import` whose root package is denylisted,
      or the number of aliases when there is none. */
  function FirstDeniedAlias(names: seq<string>): (i: nat)
    ensures i <= |names|
    ensures forall j :: 0 <= j < i ==> !DeniedModule(names[j])
    ensures i < |names| ==> DeniedModule(names[i])
  {
    if names == [] || DeniedModule(names[0]) then 0
    else
      var k := FirstDeniedAlias(names[1..]);
      assert forall j :: 1 <= j < |names| ==> names[1..][j - 1] == names[j];
      1 + k
  }

  /** The rejection message the screen produces at one node, if any of its four rules
      fires there. A node has one kind, so at most one rule applies to it. */
  function NodeMessage(n: Node): (r: Option<string>)
    ensures n.Import? ==>
              (r.Some? <==> exists i :: 0 <= i < |n.names| && DeniedModule(n.names[i]))
              && (r.Some? ==> exists i :: 0 <= i < |n.names| && DeniedModule(n.names[i])
                                          && r.value == ImportPrefix + n.names[i])
    ensures n.ImportFrom? ==>
              (r.Some? <==> n.moduleName.Some? && DeniedModule(n.moduleName.value))
              && (r.Some? ==> r.value == ImportFromPrefix + n.moduleName.value)
    ensures n.Name? ==>
              (r.Some? <==> n.id in BlacklistedNames) && (r.Some? ==> r.value == NamePrefix + n.id)
    ensures n.Call? ==>
              (r.Some? <==> n.func.Name? && n.func.id in BlacklistedNames)
              && (r.Some? ==> r.value == CallPrefix + n.func.id)
    ensures n.Other? ==> r.None?
  {
    assert Root("") == "";
    match n
    case Import(names) =>
      var i := FirstDeniedAlias(names);
      if i < |names| then Some(ImportPrefix + names[i]) else None
    case ImportFrom(m) =>
      var mod := m.GetOr("");
      if DeniedModule(mod) then Some(ImportFromPrefix + mod) else None
    case Name(id) =>
      if id in BlacklistedNames then Some(NamePrefix + id) else None
    case Call(f, _) =>
      if f.Name? && f.id in BlacklistedNames then Some(CallPrefix + f.id) else None
    case Other(_) => None
  }

  /** Some rule fires at this node. */
  predicate Flagged(n: Node)
  {
    NodeMessage(n).Some?
  }

  /** The position of the first flagged node in traversal order, or the number of
      nodes when none is flagged. */
  function FirstViolation(ns: seq<Node>): (i: nat)
    ensures i <= |ns|
    ensures forall j :: 0 <= j < i ==> !Flagged(ns[j])
    ensures i < |ns| ==> Flagged(ns[i])
  {
    if ns == [] || Flagged(ns[0]) then 0
    else
      var k := FirstViolation(ns[1..]);
      assert forall j :: 1 <= j < |ns| ==> ns[1..][j - 1] == ns[j];
      1 + k
  }

  /** `_ast_safety_check` on the outcome of parsing. Unparseable code is rejected with
      the parser's message; a tree passes exactly when no node anywhere in it is flagged,
      and a rejected tree is rejected with the message of one of its flagged nodes. */
  function SafetyCheck(p: Parse): (v: Verdict)
    ensures p.Unparseable? ==> v == Verdict(false, ParseErrorPrefix + p.error)
    ensures p.Parsed? ==> (v.passed <==> forall n :: n in Subtrees(p.tree) ==> !Flagged(n))
    ensures v.passed ==> v.reason == PassMessage
    ensures p.Parsed? && !v.passed ==>
              exists n :: n in Subtrees(p.tree) && NodeMessage(n) == Some(v.reason)
  {
    match p
    case Unparseable(e) => Verdict(false, ParseErrorPrefix + e)
    case Parsed(t) =>
      assert SubtreesOf([t]) == Subtrees(t);
      var walked := Walk([t]);
      var i := FirstViolation(walked);
      if i == |walked| then Verdict(true, PassMessage)
      else Verdict(false, NodeMessage(walked[i]).value)
  }

  /** `name` is a denylisted module or one of its submodules: `os`, `os.path`, ... */
  predicate UnderDenylisted(name: string, root: string)
  {
    root in BlacklistedModules && root <= name && (|name| == |root| || name[|root|] == '.')
  }

  lemma DenylistedRootOf(name: string, root: string)
    requires UnderDenylisted(name, root)
    ensures Root(name) == root && Root(name) in BlacklistedModules
  {
    assert '.' !in root;
    RootOfDottedPath(name, root);
  }

  /** An `import` anywhere in the tree with an alias under a denylisted module, such as
      `import os.path`, makes the screen fail. */
  lemma DenylistedImportRejected(t: Node, names: seq<string>, i: int, root: string)
    requires Import(names) in Subtrees(t)
    requires 0 <= i < |names| && UnderDenylisted(names[i], root)
    ensures !SafetyCheck(Parsed(t)).passed
  {
    DenylistedRootOf(names[i], root);
    assert Flagged(Import(names));
  }

  /** A `from m import ...` anywhere in the tree whose module is under a denylisted
      module makes the screen fail. */
  lemma DenylistedImportFromRejected(t: Node, m: string, root: string)
    requires ImportFrom(Some(m)) in Subtrees(t)
    requires UnderDenylisted(m, root)
    ensures !SafetyCheck(Parsed(t)).passed
  {
    DenylistedRootOf(m, root);
    assert NodeMessage(ImportFrom(Some(m))) == Some(ImportFromPrefix + m);
  }

  /** A relative `from . import x` has no module; it is read as the empty name, whose
      root is never denylisted, so this rule never fires for it. */
  lemma RelativeImportFromNotFlagged()
    ensures NodeMessage(ImportFrom(None)) == None
  {
    assert Root("") == "";
  }

  /** A reference to `__import__`, `exec` or `eval` anywhere in the tree makes the screen fail. */
  lemma DangerousNameRejected(t: Node, id: string)
    requires Name(id) in Subtrees(t)
    requires id in BlacklistedNames
    ensures !SafetyCheck(Parsed(t)).passed
  {
    assert Flagged(Name(id));
  }

  /** The call rule never changes the verdict: the callee of a flagged call is itself a
      flagged `Name` node of the same tree, so ignoring calls rejects the same trees. */
  lemma {:induction false} CallRuleRedundant(t: Node)
    ensures (exists n :: n in Subtrees(t) && Flagged(n))
        <==> (exists n :: n in Subtrees(t) && Flagged(n) && !n.Call?)
  {
    if n :| n in Subtrees(t) && Flagged(n) {
      if n.Call? {
        SubtreesOfChildren(n);
        assert n.func in Subtrees(n) by {
          assert n.func in Subtrees(n.func);
        }
        SubtreeTransitive(t, n, n.func);
        assert Flagged(n.func);
      }
    }
  }

  /** A screen verdict is the same whichever way the rule for calls is read: with
      or without it, exactly the trees free of denylisted imports and names pass. */
  lemma PassesIffNoImportOrNameViolation(t: Node)
    ensures SafetyCheck(Parsed(t)).passed
        <==> forall n :: n in Subtrees(t) ==> !(Flagged(n) && !n.Call?)
  {
    CallRuleRedundant(t);
  }
}
