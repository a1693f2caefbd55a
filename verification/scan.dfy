/** `scan_imports`: the sorted, de-duplicated root packages a submission imports,
    and how that list relates to the safety screen. */
module ImportScan {
  import opened Maybe
  import opened Text
  import opened StringOrder
  import opened PyAst
  import opened Safety

  /** The root packages one node contributes: the root of every alias of an `import`,
      and the root of the module of a `from ... import` when that module is non-empty. */
  function NodeRoots(n: Node): seq<string>
  {
    match n
    case Import(names) => seq(|names|, i requires 0 <= i < |names| => Root(names[i]))
    case ImportFrom(Some(m)) => if m != "" then [Root(m)] else []
    case _ => []
  }

  /** The roots contributed by a sequence of nodes, in order, duplicates kept. */
  function CollectRoots(ns: seq<Node>): (r: seq<string>)
    ensures forall x :: x in r <==> exists i :: 0 <= i < |ns| && x in NodeRoots(ns[i])
  {
    if ns == [] then []
    else
      var rest := CollectRoots(ns[1..]);
      assert forall i :: 1 <= i < |ns| ==> ns[1..][i - 1] == ns[i];
      NodeRoots(ns[0]) + rest
  }

  /** `x` is the root of an import somewhere in tree `t`. */
  ghost predicate ImportedRoot(x: string, t: Node)
  {
    exists n :: n in Subtrees(t) && x in NodeRoots(n)
  }

  /** `scan_imports`: nothing for unparseable code; otherwise the strictly sorted list of
      exactly the roots imported anywhere in the tree, none of which contains a dot. */
  function ScanImports(p: Parse): (r: seq<string>)
    ensures p.Unparseable? ==> r == []
    ensures StrictlySorted(r)
    ensures forall i :: 0 <= i < |r| ==> '.' !in r[i]
    ensures p.Parsed? ==> forall x :: x in r <==> ImportedRoot(x, p.tree)
  {
    match p
    case Unparseable(_) => []
    case Parsed(t) =>
      WalkedRootsAreImported(t);
      SortUnique(CollectRoots(Walk([t])))
  }

  /** The roots collected along the walk are exactly the roots imported in the tree. */
  lemma WalkedRootsAreImported(t: Node)
    ensures forall x :: x in CollectRoots(Walk([t])) <==> ImportedRoot(x, t)
    ensures forall x :: x in CollectRoots(Walk([t])) ==> '.' !in x
  {
    var walked := Walk([t]);
    assert SubtreesOf([t]) == Subtrees(t);
    assert forall n :: n in walked <==> n in Subtrees(t);
    CollectedRootsImported(t, walked);
    ImportedRootsCollected(t, walked);
  }

  lemma CollectedRootsImported(t: Node, walked: seq<Node>)
    requires forall n :: n in walked ==> n in Subtrees(t)
    ensures forall x :: x in CollectRoots(walked) ==> ImportedRoot(x, t) && '.' !in x
  {
    forall x | x in CollectRoots(walked) ensures ImportedRoot(x, t) && '.' !in x {
      var i :| 0 <= i < |walked| && x in NodeRoots(walked[i]);
      assert walked[i] in walked;
    }
  }

  lemma ImportedRootsCollected(t: Node, walked: seq<Node>)
    requires forall n :: n in Subtrees(t) ==> n in walked
    ensures forall x :: ImportedRoot(x, t) ==> x in CollectRoots(walked)
  {
    forall x | ImportedRoot(x, t) ensures x in CollectRoots(walked) {
      var n :| n in Subtrees(t) && x in NodeRoots(n);
      var i :| 0 <= i < |walked| && walked[i] == n;
    }
  }

  /** Every alias of every `import` anywhere in the tree is scanned, reduced to its root. */
  lemma ImportAliasScanned(t: Node, names: seq<string>, i: int)
    requires Import(names) in Subtrees(t)
    requires 0 <= i < |names|
    ensures Root(names[i]) in ScanImports(Parsed(t))
  {
    assert Root(names[i]) in NodeRoots(Import(names));
  }

  /** The module of every `from m import ...` anywhere in the tree is scanned, reduced to
      its root, unless it is empty (`from . import x`). */
  lemma ImportFromScanned(t: Node, m: string)
    requires ImportFrom(Some(m)) in Subtrees(t)
    requires m != ""
    ensures Root(m) in ScanImports(Parsed(t))
  {
    assert Root(m) in NodeRoots(ImportFrom(Some(m)));
  }

  /** The scan result does not depend on the traversal order: it is the only strictly
      sorted list holding exactly the tree's imported roots. */
  lemma ScanIsCanonical(t: Node, s: seq<string>)
    requires StrictlySorted(s)
    requires forall x :: x in s <==> ImportedRoot(x, t)
    ensures s == ScanImports(Parsed(t))
  {
    StrictlySortedUnique(s, ScanImports(Parsed(t)));
  }

  /** Code that passes the safety screen never scans to a denylisted import. */
  lemma {:induction false} ScreenedCodeImportsNoDenylisted(t: Node)
    requires SafetyCheck(Parsed(t)).passed
    ensures forall x :: x in ScanImports(Parsed(t)) ==> x !in BlacklistedModules
  {
    forall x | x in ScanImports(Parsed(t)) ensures x !in BlacklistedModules {
      // x is the root of an import at some node n, and n is not flagged.
      var n :| n in Subtrees(t) && x in NodeRoots(n);
      assert !Flagged(n);
    }
  }
}
