/** `analyze_imports_against_env`: splits imported names into those available in the
    host environment and those missing. The installed-distribution registry and
    Python's `__import__` are host state, so both are passed in: `installed` is the
    lower-cased registry snapshot (empty when the registry cannot be read) and
    `importable` says whether importing a name succeeds. */
module EnvResolver {
  import opened Text
  import opened StringOrder
  import opened PyAst
  import opened ImportScan

  /** A name is available when its lower-case form is an installed distribution or
      importing it succeeds. */
  predicate Available(name: string, installed: set<string>, importable: string -> bool)
  {
    Lower(name) in installed || importable(name)
  }

  /** Reference filter: the non-empty names whose availability is `want`, in input order. */
  function Kept(names: seq<string>, installed: set<string>, importable: string -> bool, want: bool): seq<string>
  {
    if names == [] then []
    else
      var last := names[|names| - 1];
      Kept(names[..|names| - 1], installed, importable, want)
        + (if last != "" && Available(last, installed, importable) == want then [last] else [])
  }

  /** The resolver loop: empty names are skipped, every other name is appended to
      `found` or to `missing`. Both lists are the order-preserving filters of the input. */
  method AnalyzeImports(names: seq<string>, installed: set<string>, importable: string -> bool)
    returns (found: seq<string>, missing: seq<string>)
    ensures found == Kept(names, installed, importable, true)
    ensures missing == Kept(names, installed, importable, false)
    ensures forall x :: x in found <==> x in names && x != "" && Available(x, installed, importable)
    ensures forall x :: x in missing <==> x in names && x != "" && !Available(x, installed, importable)
  {
    found := [];
    missing := [];
    for i := 0 to |names|
      invariant found == Kept(names[..i], installed, importable, true)
      invariant missing == Kept(names[..i], installed, importable, false)
    {
      assert names[..i + 1][..i] == names[..i];
      var m := names[i];
      if m == "" {
        continue;
      }
      if Lower(m) in installed {
        found := found + [m];
      } else if importable(m) {
        found := found + [m];
      } else {
        missing := missing + [m];
      }
    }
    assert names[..|names|] == names;
    KeptMembership(names, installed, importable, true);
    KeptMembership(names, installed, importable, false);
  }

  /** A name is kept exactly when it occurs in the input, is non-empty and has the wanted availability. */
  lemma {:induction false} KeptMembership(names: seq<string>, installed: set<string>, importable: string -> bool, want: bool)
    ensures forall x :: x in Kept(names, installed, importable, want)
                <==> x in names && x != "" && Available(x, installed, importable) == want
  {
    if names != [] {
      var init := names[..|names| - 1];
      KeptMembership(init, installed, importable, want);
      assert names == init + [names[|names| - 1]];
    }
  }

  /** Every non-empty input name, counted with multiplicity, lands in exactly one of
      the two lists; empty names land in neither. */
  lemma {:induction false} KeptPartition(names: seq<string>, installed: set<string>, importable: string -> bool)
    ensures forall x :: x != "" ==>
              multiset(Kept(names, installed, importable, true))[x]
                + multiset(Kept(names, installed, importable, false))[x] == multiset(names)[x]
  {
    if names != [] {
      var init := names[..|names| - 1];
      var last := names[|names| - 1];
      KeptPartition(init, installed, importable);
      assert names == init + [last];
      var f0 := Kept(init, installed, importable, true);
      var m0 := Kept(init, installed, importable, false);
      var f := Kept(names, installed, importable, true);
      var m := Kept(names, installed, importable, false);
      assert multiset(names) == multiset(init) + multiset{last};
      if last == "" {
        assert f == f0 && m == m0;
      } else if Available(last, installed, importable) {
        assert f == f0 + [last] && m == m0;
        assert multiset(f) == multiset(f0) + multiset{last};
      } else {
        assert f == f0 && m == m0 + [last];
        assert multiset(m) == multiset(m0) + multiset{last};
      }
    }
  }

  /** Filtering keeps the input order: a strictly sorted input gives strictly sorted lists. */
  lemma {:induction false} KeptKeepsOrder(names: seq<string>, installed: set<string>, importable: string -> bool, want: bool)
    requires StrictlySorted(names)
    ensures StrictlySorted(Kept(names, installed, importable, want))
  {
    if names != [] {
      var init := names[..|names| - 1];
      var last := names[|names| - 1];
      KeptKeepsOrder(init, installed, importable, want);
      KeptMembership(init, installed, importable, want);
      var k := Kept(init, installed, importable, want);
      forall i | 0 <= i < |k| ensures Less(k[i], last) {
        assert k[i] in k;
        var j :| 0 <= j < |init| && init[j] == k[i];
      }
    }
  }

  /** With an unreadable registry every name that cannot be imported is missing. */
  lemma EmptyRegistryMissesUnimportable(names: seq<string>, importable: string -> bool)
    ensures forall x :: x in Kept(names, {}, importable, false) <==> x in names && x != "" && !importable(x)
  {
    KeptMembership(names, {}, importable, false);
  }

  /** Resolving the scan of a submission partitions the scanned roots: found and missing
      are disjoint, together they are the non-empty scanned roots, and both stay sorted. */
  lemma ResolveScanPartitions(p: Parse, installed: set<string>, importable: string -> bool)
    ensures var names := ScanImports(p);
            var found := Kept(names, installed, importable, true);
            var missing := Kept(names, installed, importable, false);
            && (forall x :: x in found || x in missing <==> x in names && x != "")
            && (forall x :: !(x in found && x in missing))
            && StrictlySorted(found) && StrictlySorted(missing)
  {
    var names := ScanImports(p);
    KeptMembership(names, installed, importable, true);
    KeptMembership(names, installed, importable, false);
    KeptKeepsOrder(names, installed, importable, true);
    KeptKeepsOrder(names, installed, importable, false);
  }
}
