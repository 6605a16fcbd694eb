/** The order in which theme fonts are loaded: the `*.pf2` files directly
    in the theme directory, then those in its `f` subdirectory, each group
    sorted case-insensitively, as GRUB's own `00_header` script does. */
module FontOrder {
  import opened Text

  /** Python's `a <= b` on strings: lexicographic by code point, a proper
      prefix before the longer string. */
  predicate LexLeq(a: string, b: string)
    decreases |a|
  {
    |a| == 0 || (|b| > 0 && (a[0] < b[0] || (a[0] == b[0] && LexLeq(a[1..], b[1..]))))
  }

  lemma {:induction false} LexLeqReflexive(a: string)
    ensures LexLeq(a, a)
    decreases |a|
  {
    if |a| > 0 {
      LexLeqReflexive(a[1..]);
    }
  }

  lemma {:induction false} LexLeqTotal(a: string, b: string)
    ensures LexLeq(a, b) || LexLeq(b, a)
    decreases |a|
  {
    if |a| > 0 && |b| > 0 && a[0] == b[0] {
      LexLeqTotal(a[1..], b[1..]);
    }
  }

  lemma {:induction false} LexLeqTransitive(a: string, b: string, c: string)
    requires LexLeq(a, b) && LexLeq(b, c)
    ensures LexLeq(a, c)
    decreases |a|
  {
    if |a| > 0 && a[0] == b[0] && b[0] == c[0] {
      LexLeqTransitive(a[1..], b[1..], c[1..]);
    }
  }

  /** Comparing two paths under one directory compares what follows it. */
  lemma {:induction false} LexLeqCommonPrefix(prefix: string, a: string, b: string)
    ensures LexLeq(prefix + a, prefix + b) == LexLeq(a, b)
    decreases |prefix|
  {
    if |prefix| > 0 {
      assert (prefix + a)[1..] == prefix[1..] + a;
      assert (prefix + b)[1..] == prefix[1..] + b;
      LexLeqCommonPrefix(prefix[1..], a, b);
    } else {
      assert prefix + a == a && prefix + b == b;
    }
  }

  /** The sort key `path.lower()` compared as Python compares strings. */
  predicate KeyLeq(a: string, b: string) {
    LexLeq(Lower(a), Lower(b))
  }

  /** The glob matches are absolute paths under the theme directory;
      sorting them by key orders them as their relative parts are ordered,
      so the model sorts the relative paths. */
  lemma {:induction false} KeyLeqUnderDirectory(directory: string, a: string, b: string)
    ensures KeyLeq(directory + a, directory + b) == KeyLeq(a, b)
  {
    LowerAppend(directory, a);
    LowerAppend(directory, b);
    LexLeqCommonPrefix(Lower(directory), Lower(a), Lower(b));
  }

  /** Put `x` before the first element whose key is not below its own. */
  function Insert(x: string, s: seq<string>): (r: seq<string>)
    decreases |s|
  {
    if |s| == 0 then [x]
    else if KeyLeq(x, s[0]) then [x] + s
    else [s[0]] + Insert(x, s[1..])
  }

  lemma {:induction false} InsertPermutes(x: string, s: seq<string>)
    ensures multiset(Insert(x, s)) == multiset(s) + multiset{x}
    decreases |s|
  {
    if |s| > 0 && !KeyLeq(x, s[0]) {
      InsertPermutes(x, s[1..]);
      assert s == [s[0]] + s[1..];
    }
  }

  /** `sorted(paths, key=lambda path: path.lower())` (a stable sort). */
  function SortedByLower(paths: seq<string>): seq<string>
    decreases |paths|
  {
    if |paths| == 0 then [] else Insert(paths[0], SortedByLower(paths[1..]))
  }

  /** The result is a permutation of the matches. */
  lemma {:induction false} SortedByLowerPermutes(paths: seq<string>)
    ensures multiset(SortedByLower(paths)) == multiset(paths)
    decreases |paths|
  {
    if |paths| > 0 {
      SortedByLowerPermutes(paths[1..]);
      InsertPermutes(paths[0], SortedByLower(paths[1..]));
      assert paths == [paths[0]] + paths[1..];
    }
  }

  ghost predicate SortedByKey(s: seq<string>) {
    forall i, j :: 0 <= i < j < |s| ==> KeyLeq(s[i], s[j])
  }

  lemma {:induction false} InsertSorted(x: string, s: seq<string>)
    requires SortedByKey(s)
    ensures SortedByKey(Insert(x, s))
    decreases |s|
  {
    if |s| > 0 && !KeyLeq(x, s[0]) {
      LexLeqTotal(Lower(x), Lower(s[0]));
      InsertSorted(x, s[1..]);
      InsertPermutes(x, s[1..]);
      var t := Insert(x, s[1..]);
      var r := [s[0]] + t;
      forall j | 0 < j < |r|
        ensures KeyLeq(s[0], r[j])
      {
        assert r[j] in multiset(t);
        if r[j] != x {
          assert r[j] in multiset(s[1..]);
          var k :| 0 <= k < |s[1..]| && s[1..][k] == r[j];
          assert s[k + 1] == r[j];
        }
      }
    } else if |s| > 0 {
      var r := [x] + s;
      forall i, j | 0 <= i < j < |r|
        ensures KeyLeq(r[i], r[j])
      {
        if i == 0 && j > 1 {
          LexLeqTransitive(Lower(x), Lower(s[0]), Lower(s[j - 1]));
        }
      }
    }
  }

  /** The result is in ascending case-insensitive order. */
  lemma {:induction false} SortedByLowerIsSorted(paths: seq<string>)
    ensures SortedByKey(SortedByLower(paths))
    decreases |paths|
  {
    if |paths| > 0 {
      SortedByLowerIsSorted(paths[1..]);
      InsertSorted(paths[0], SortedByLower(paths[1..]));
    }
  }

  /** The paths whose key is `key`, in their order in `s`. */
  function WithKey(s: seq<string>, key: string): seq<string>
    decreases |s|
  {
    if |s| == 0 then []
    else (if Lower(s[0]) == key then [s[0]] else []) + WithKey(s[1..], key)
  }

  lemma {:induction false} WithKeyInsert(x: string, s: seq<string>, key: string)
    ensures WithKey(Insert(x, s), key) == (if Lower(x) == key then [x] else []) + WithKey(s, key)
    decreases |s|
  {
    if |s| == 0 {
      assert WithKey([x], key) == (if Lower(x) == key then [x] else []) + WithKey([], key);
    } else if KeyLeq(x, s[0]) {
      assert ([x] + s)[1..] == s;
    } else {
      LexLeqReflexive(Lower(x));
      assert Lower(s[0]) != Lower(x);
      WithKeyInsert(x, s[1..], key);
      assert ([s[0]] + Insert(x, s[1..]))[1..] == Insert(x, s[1..]);
    }
  }

  /** The sort is stable: paths with equal keys keep their glob order. */
  lemma {:induction false} SortedByLowerIsStable(paths: seq<string>, key: string)
    ensures WithKey(SortedByLower(paths), key) == WithKey(paths, key)
    decreases |paths|
  {
    if |paths| > 0 {
      SortedByLowerIsStable(paths[1..], key);
      WithKeyInsert(paths[0], SortedByLower(paths[1..]), key);
    }
  }

  /** Each path of `paths` placed under `directory`. */
  function Prefixed(directory: string, paths: seq<string>): (r: seq<string>)
    ensures |r| == |paths|
    ensures forall i :: 0 <= i < |paths| ==> r[i] == directory + paths[i]
    decreases |paths|
  {
    if |paths| == 0 then [] else [directory + paths[0]] + Prefixed(directory, paths[1..])
  }

  lemma {:induction false} InsertUnderDirectory(directory: string, x: string, s: seq<string>)
    ensures Insert(directory + x, Prefixed(directory, s)) == Prefixed(directory, Insert(x, s))
    decreases |s|
  {
    if |s| > 0 {
      var t := Prefixed(directory, s);
      assert t[0] == directory + s[0] && t[1..] == Prefixed(directory, s[1..]);
      KeyLeqUnderDirectory(directory, x, s[0]);
      if KeyLeq(x, s[0]) {
        assert Prefixed(directory, [x] + s) == [directory + x] + t;
      } else {
        InsertUnderDirectory(directory, x, s[1..]);
        assert ([s[0]] + Insert(x, s[1..]))[1..] == Insert(x, s[1..]);
      }
    }
  }

  /** Sorting the paths under one directory orders them as sorting their
      relative parts does: the model may sort the relative paths. */
  lemma {:induction false} SortedUnderDirectory(directory: string, paths: seq<string>)
    ensures SortedByLower(Prefixed(directory, paths)) == Prefixed(directory, SortedByLower(paths))
    decreases |paths|
  {
    if |paths| > 0 {
      var t := Prefixed(directory, paths);
      assert t[0] == directory + paths[0] && t[1..] == Prefixed(directory, paths[1..]);
      SortedUnderDirectory(directory, paths[1..]);
      InsertUnderDirectory(directory, paths[0], SortedByLower(paths[1..]));
    }
  }

  /** The sorted groups of `groups`, one after the other. */
  function ConcatSorted(groups: seq<seq<string>>): seq<string>
    decreases |groups|
  {
    if |groups| == 0 then []
    else ConcatSorted(groups[..|groups| - 1]) + SortedByLower(groups[|groups| - 1])
  }

  lemma {:induction false} ConcatSortedStep(groups: seq<seq<string>>, p: nat)
    requires p < |groups|
    ensures ConcatSorted(groups[..p + 1]) == ConcatSorted(groups[..p]) + SortedByLower(groups[p])
  {
    assert groups[..p + 1][..p] == groups[..p];
  }

  /** `iterate_pf2_files_relative`: for each of the two glob patterns (the
      `.pf2` files in the theme directory, then those in its `f`
      subdirectory), yield its matches sorted by lower-cased path. The
      matches are given relative to the theme directory. */
  method IteratePf2FilesRelative(rootMatches: seq<string>, subdirectoryMatches: seq<string>)
    returns (fonts: seq<string>)
    ensures fonts == SortedByLower(rootMatches) + SortedByLower(subdirectoryMatches)
  {
    var patterns := [rootMatches, subdirectoryMatches];
    fonts := [];
    for p := 0 to |patterns|
      invariant fonts == ConcatSorted(patterns[..p])
    {
      ghost var before := fonts;
      var sorted := SortedByLower(patterns[p]);
      for j := 0 to |sorted|
        invariant fonts == before + sorted[..j]
      {
        fonts := fonts + [sorted[j]];
        assert sorted[..j + 1] == sorted[..j] + [sorted[j]];
      }
      assert sorted[..|sorted|] == sorted;
      ConcatSortedStep(patterns, p);
    }
    assert patterns[..2] == [rootMatches] + [subdirectoryMatches];
    ConcatSortedStep(patterns, 0);
    assert patterns[..0] == [];
  }
}
