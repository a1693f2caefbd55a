/** String helpers shared by the safety screen, the import scanner, the resolver and the translator. */
module Text {

  /** The root package of a dotted module path: the text before the first '.', as
      Python's `name.split(".")[0]` computes it. It is the longest prefix free of dots. */
  function Root(s: string): (r: string)
    ensures '.' !in r
    ensures r <= s
    ensures r == s || s[|r|] == '.'
  {
    if s == [] || s[0] == '.' then [] else [s[0]] + Root(s[1..])
  }

  /** A name without dots is its own root. */
  lemma {:induction false} RootOfDotFree(s: string)
    requires '.' !in s
    ensures Root(s) == s
  {
    if s != [] {
      RootOfDotFree(s[1..]);
    }
  }

  /** A dotted path's root is its leading dot-free component: `os.path` has root `os`. */
  lemma {:induction false} RootOfDottedPath(s: string, root: string)
    requires '.' !in root
    requires root <= s && (|s| == |root| || s[|root|] == '.')
    ensures Root(s) == root
  {
    if root != [] {
      RootOfDottedPath(s[1..], root[1..]);
    } else if s != [] {
      assert s[0] == '.';
    }
  }

  /** Taking the root twice is the same as taking it once. */
  lemma RootIdempotent(s: string)
    ensures Root(Root(s)) == Root(s)
  {
    RootOfDotFree(Root(s));
  }

  /** Lower-cases one ASCII letter and leaves every other character alone. */
  function LowerChar(c: char): char
  {
    if 'A' <= c <= 'Z' then (c as int + 32) as char else c
  }

  /** Lower-case form of a string (ASCII letters only). */
  function Lower(s: string): (r: string)
    ensures |r| == |s|
    ensures forall i :: 0 <= i < |r| ==> !('A' <= r[i] <= 'Z')
    ensures forall i :: 0 <= i < |s| && !('A' <= s[i] <= 'Z') ==> r[i] == s[i]
    ensures forall i :: 0 <= i < |s| && 'A' <= s[i] <= 'Z' ==> r[i] as int == s[i] as int + 32
  {
    seq(|s|, i requires 0 <= i < |s| => LowerChar(s[i]))
  }

  /** JavaScript's `s.startsWith(prefix)`. */
  predicate StartsWith(s: string, prefix: string)
  {
    prefix <= s
  }
}
