/** String helpers with the meaning Python gives them: `'\n'.join`,
    `str.split('\n')`, `startswith`/`endswith`, ASCII `lower()`, and the
    number of (possibly overlapping) occurrences of a substring. */
module Text {

  const Newline: char := '\n'

  /** `'\n'.join(lines)`. */
  function Join(lines: seq<string>): (r: string)
    ensures |lines| == 1 ==> r == lines[0]
    decreases |lines|
  {
    if |lines| == 0 then ""
    else if |lines| == 1 then lines[0]
    else lines[0] + [Newline] + Join(lines[1..])
  }

  predicate NoNewline(s: string) {
    Newline !in s
  }

  predicate AllNoNewline(lines: seq<string>) {
    forall i :: 0 <= i < |lines| ==> NoNewline(lines[i])
  }

  /** Index of the first `c` in `s`, or `|s|` when there is none. */
  function IndexOf(s: string, c: char): (i: nat)
    ensures i <= |s|
    ensures i < |s| ==> s[i] == c
    ensures forall j :: 0 <= j < i ==> s[j] != c
  {
    if |s| == 0 then 0
    else if s[0] == c then 0
    else 1 + IndexOf(s[1..], c)
  }

  /** `s.split('\n')`: always at least one piece, no piece holds a newline. */
  function Split(s: string): (r: seq<string>)
    ensures |r| >= 1
    decreases |s|
  {
    var i := IndexOf(s, Newline);
    if i == |s| then
      assert s[..i] == s;
      [s]
    else
      [s[..i]] + Split(s[i + 1..])
  }

  lemma {:induction false} SplitNoNewline(s: string)
    ensures AllNoNewline(Split(s))
    decreases |s|
  {
    var i := IndexOf(s, Newline);
    if i < |s| {
      SplitNoNewline(s[i + 1..]);
    }
  }

  /** Splitting undoes joining, as long as no line holds a newline itself. */
  lemma {:induction false} SplitJoin(lines: seq<string>)
    requires |lines| >= 1 && AllNoNewline(lines)
    ensures Split(Join(lines)) == lines
    decreases |lines|
  {
    if |lines| == 1 {
      assert IndexOf(lines[0], Newline) == |lines[0]|;
    } else {
      var s := Join(lines);
      var rest := Join(lines[1..]);
      assert s == lines[0] + [Newline] + rest;
      assert s[|lines[0]|] == Newline;
      assert IndexOf(s, Newline) == |lines[0]|;
      assert s[..|lines[0]|] == lines[0];
      assert s[|lines[0]| + 1..] == rest;
      SplitJoin(lines[1..]);
      assert lines == [lines[0]] + lines[1..];
    }
  }

  /** Joining undoes splitting. */
  lemma {:induction false} JoinSplit(s: string)
    ensures Join(Split(s)) == s
    decreases |s|
  {
    var i := IndexOf(s, Newline);
    if i < |s| {
      var head, tail := s[..i], s[i + 1..];
      SplitUnfold(s);
      JoinCons(head, Split(tail));
      JoinSplit(tail);
      Reassemble(s, i);
    }
  }

  lemma {:induction false} SplitUnfold(s: string)
    requires IndexOf(s, Newline) < |s|
    ensures Split(s) == [s[..IndexOf(s, Newline)]] + Split(s[IndexOf(s, Newline) + 1..])
  {
  }

  lemma {:induction false} Reassemble(s: string, i: nat)
    requires i < |s| && s[i] == Newline
    ensures s == s[..i] + [Newline] + s[i + 1..]
  {
  }

  lemma {:induction false} JoinCons(head: string, rest: seq<string>)
    requires |rest| >= 1
    ensures Join([head] + rest) == head + [Newline] + Join(rest)
  {
    assert ([head] + rest)[1..] == rest;
  }

  lemma {:induction false} JoinAppend(a: seq<string>, b: seq<string>)
    requires |a| >= 1 && |b| >= 1
    ensures Join(a + b) == Join(a) + [Newline] + Join(b)
    decreases |a|
  {
    var ab := a + b;
    assert ab[0] == a[0];
    if |a| == 1 {
      assert ab[1..] == b;
      assert Join(ab) == a[0] + [Newline] + Join(b);
    } else {
      assert ab[1..] == a[1..] + b;
      JoinAppend(a[1..], b);
      assert Join(ab) == a[0] + [Newline] + Join(a[1..] + b);
      assert Join(a) == a[0] + [Newline] + Join(a[1..]);
    }
  }

  predicate StartsWith(s: string, prefix: string) {
    |prefix| <= |s| && s[..|prefix|] == prefix
  }

  predicate EndsWith(s: string, suffix: string) {
    |suffix| <= |s| && s[|s| - |suffix|..] == suffix
  }

  /** ASCII lower-casing of one character. */
  function LowerChar(c: char): (r: char)
    ensures 'A' <= c <= 'Z' ==> r as int == c as int + 32
    ensures !('A' <= c <= 'Z') ==> r == c
  {
    if 'A' <= c <= 'Z' then (c as int + 32) as char else c
  }

  /** `s.lower()` restricted to ASCII letters. */
  function Lower(s: string): (r: string)
    ensures |r| == |s|
    ensures forall i :: 0 <= i < |s| ==> r[i] == LowerChar(s[i])
  {
    seq(|s|, i requires 0 <= i < |s| => LowerChar(s[i]))
  }

  lemma {:induction false} LowerIdempotent(s: string)
    ensures Lower(Lower(s)) == Lower(s)
  {
  }

  lemma {:induction false} LowerAppend(a: string, b: string)
    ensures Lower(a + b) == Lower(a) + Lower(b)
  {
  }

  /** Number of positions at which `p` occurs in `s` (Python's
      `s.count(p)` for patterns that cannot overlap themselves). */
  function Occurrences(s: string, p: string): (n: nat)
    requires |p| > 0
    ensures n <= |s|
    decreases |s|
  {
    if |s| < |p| then 0
    else (if s[..|p|] == p then 1 else 0) + Occurrences(s[1..], p)
  }

  /** A pattern one of whose characters is missing from `s` does not occur in it. */
  lemma {:induction false} OccurrencesMissingChar(s: string, p: string, c: char)
    requires |p| > 0 && c in p && c !in s
    ensures Occurrences(s, p) == 0
    decreases |s|
  {
    if |s| >= |p| {
      var k :| 0 <= k < |p| && p[k] == c;
      assert s[..|p|][k] != c;
      OccurrencesMissingChar(s[1..], p, c);
    }
  }

  /** Cutting a string at a character the pattern does not contain splits
      the occurrences between the two sides. */
  lemma {:induction false} OccurrencesCut(a: string, c: char, b: string, p: string)
    requires |p| > 0 && c !in p
    ensures Occurrences(a + [c] + b, p) == Occurrences(a, p) + Occurrences(b, p)
    decreases |a|
  {
    var s := a + [c] + b;
    if |a| == 0 {
      assert s == [c] + b;
      if |s| >= |p| {
        assert s[..|p|] != p by {
          assert s[..|p|][0] == c;
        }
        assert s[1..] == b;
      }
    } else {
      assert s[1..] == a[1..] + [c] + b;
      OccurrencesCut(a[1..], c, b, p);
      if |a| >= |p| {
        assert s[..|p|] == a[..|p|];
      } else if |s| >= |p| {
        assert s[..|p|] != p by {
          assert s[..|p|][|a|] == c;
        }
      }
    }
  }

  /** Total number of occurrences over a list of lines. */
  function SumOccurrences(lines: seq<string>, p: string): nat
    requires |p| > 0
    decreases |lines|
  {
    if |lines| == 0 then 0 else Occurrences(lines[0], p) + SumOccurrences(lines[1..], p)
  }

  lemma {:induction false} SumOccurrencesAppend(a: seq<string>, b: seq<string>, p: string)
    requires |p| > 0
    ensures SumOccurrences(a + b, p) == SumOccurrences(a, p) + SumOccurrences(b, p)
    decreases |a|
  {
    if |a| == 0 {
      assert a + b == b;
    } else {
      assert (a + b)[0] == a[0];
      assert (a + b)[1..] == a[1..] + b;
      SumOccurrencesAppend(a[1..], b, p);
    }
  }

  /** A newline-free pattern never spans two joined lines. */
  lemma {:induction false} OccurrencesJoin(lines: seq<string>, p: string)
    requires |p| > 0 && Newline !in p
    ensures Occurrences(Join(lines), p) == SumOccurrences(lines, p)
    decreases |lines|
  {
    if |lines| == 0 {
    } else if |lines| == 1 {
      assert SumOccurrences(lines[1..], p) == 0;
    } else {
      OccurrencesJoin(lines[1..], p);
      OccurrencesCut(lines[0], Newline, Join(lines[1..]), p);
    }
  }

  /** Number of lines equal to `line`. */
  function CountEqual(lines: seq<string>, line: string): nat
    decreases |lines|
  {
    if |lines| == 0 then 0 else (if lines[0] == line then 1 else 0) + CountEqual(lines[1..], line)
  }

  /** Number of lines that start with `prefix`. */
  function CountStartingWith(lines: seq<string>, prefix: string): nat
    decreases |lines|
  {
    if |lines| == 0 then 0
    else (if StartsWith(lines[0], prefix) then 1 else 0) + CountStartingWith(lines[1..], prefix)
  }

  lemma {:induction false} CountAppend(a: seq<string>, b: seq<string>, line: string, prefix: string)
    ensures CountEqual(a + b, line) == CountEqual(a, line) + CountEqual(b, line)
    ensures CountStartingWith(a + b, prefix) == CountStartingWith(a, prefix) + CountStartingWith(b, prefix)
    decreases |a|
  {
    if |a| == 0 {
      assert a + b == b;
    } else {
      assert (a + b)[0] == a[0];
      assert (a + b)[1..] == a[1..] + b;
      CountAppend(a[1..], b, line, prefix);
    }
  }

  /** The lines of two texts written one after the other: the last line of
      the first and the first line of the second become a single line. */
  function Glue(a: seq<string>, b: seq<string>): (r: seq<string>)
    requires |a| >= 1 && |b| >= 1
    ensures |r| == |a| + |b| - 1
  {
    a[..|a| - 1] + [a[|a| - 1] + b[0]] + b[1..]
  }

  lemma {:induction false} JoinGlue(a: seq<string>, b: seq<string>)
    requires |a| >= 1 && |b| >= 1
    ensures Join(a) + Join(b) == Join(Glue(a, b))
    decreases |a|
  {
    if |a| == 1 {
      GlueSingle(a[0], b);
      if |b| > 1 {
        JoinCons(a[0] + b[0], b[1..]);
        assert b == [b[0]] + b[1..];
        JoinCons(b[0], b[1..]);
      }
    } else {
      JoinGlue(a[1..], b);
      GlueCons(a, b);
      JoinCons(a[0], Glue(a[1..], b));
      assert a == [a[0]] + a[1..];
      JoinCons(a[0], a[1..]);
    }
  }

  lemma {:induction false} GlueSingle(line: string, b: seq<string>)
    requires |b| >= 1
    ensures Glue([line], b) == [line + b[0]] + b[1..]
  {
  }

  lemma {:induction false} GlueCons(a: seq<string>, b: seq<string>)
    requires |a| >= 2 && |b| >= 1
    ensures Glue(a, b) == [a[0]] + Glue(a[1..], b)
  {
    assert a[1..][..|a| - 2] == a[1..|a| - 1];
    assert a[..|a| - 1] == [a[0]] + a[1..|a| - 1];
  }

  /** An empty first line of `b` vanishes into the last line of `a`. */
  lemma {:induction false} GlueBlankFirst(a: seq<string>, b: seq<string>)
    requires |a| >= 1 && |b| >= 1 && b[0] == ""
    ensures Glue(a, b) == a + b[1..]
  {
    assert a[|a| - 1] + b[0] == a[|a| - 1];
    assert a[..|a| - 1] + [a[|a| - 1]] == a;
  }

  /** An empty last line of `a` vanishes into the first line of `b`. */
  lemma {:induction false} GlueBlankLast(a: seq<string>, b: seq<string>)
    requires |a| >= 1 && |b| >= 1 && a[|a| - 1] == ""
    ensures Glue(a, b) == a[..|a| - 1] + b
  {
    assert a[|a| - 1] + b[0] == b[0];
    assert [b[0]] + b[1..] == b;
  }

  /** Text framed by a block ending in an empty line and one starting with
      an empty line: those two empty lines only carry the newlines. */
  lemma {:induction false} JoinFramed(prolog: seq<string>, body: seq<string>, epilog: seq<string>)
    requires |prolog| >= 1 && prolog[|prolog| - 1] == ""
    requires |body| >= 1
    requires |epilog| >= 1 && epilog[0] == ""
    ensures Join(prolog) + Join(body) + Join(epilog)
         == Join(prolog[..|prolog| - 1] + body + epilog[1..])
  {
    JoinGlue(body, epilog);
    GlueBlankFirst(body, epilog);
    JoinGlue(prolog, body + epilog[1..]);
    GlueBlankLast(prolog, body + epilog[1..]);
    assert prolog[..|prolog| - 1] + (body + epilog[1..])
        == prolog[..|prolog| - 1] + body + epilog[1..];
  }

  lemma {:induction false} AllNoNewlineSlice(lines: seq<string>, lo: int, hi: int)
    requires AllNoNewline(lines) && 0 <= lo <= hi <= |lines|
    ensures AllNoNewline(lines[lo..hi])
  {
    forall i | 0 <= i < hi - lo
      ensures NoNewline(lines[lo..hi][i])
    {
      assert lines[lo..hi][i] == lines[lo + i];
    }
  }

  lemma {:induction false} AllNoNewlineAppend(a: seq<string>, b: seq<string>)
    requires AllNoNewline(a) && AllNoNewline(b)
    ensures AllNoNewline(a + b)
  {
    forall i | 0 <= i < |a + b|
      ensures NoNewline((a + b)[i])
    {
      if i < |a| {
        assert (a + b)[i] == a[i];
      } else {
        assert (a + b)[i] == b[i - |a|];
      }
    }
  }

  /** Occurrences that cannot start inside `a` (its characters all differ
      from the first one of the pattern) are those of `b`. */
  lemma {:induction false} OccurrencesSkip(a: string, b: string, p: string)
    requires |p| > 0 && p[0] !in a
    ensures Occurrences(a + b, p) == Occurrences(b, p)
    decreases |a|
  {
    if |a| > 0 {
      var s := a + b;
      assert s[1..] == a[1..] + b;
      OccurrencesSkip(a[1..], b, p);
      if |s| >= |p| {
        assert s[..|p|][0] == a[0];
      }
    } else {
      assert a + b == b;
    }
  }

  /** A text that starts with the pattern and holds its first character
      nowhere else contains the pattern exactly once. */
  lemma {:induction false} OccurrencesLeading(s: string, p: string)
    requires |p| > 0 && StartsWith(s, p) && p[0] !in s[1..]
    ensures Occurrences(s, p) == 1
  {
    OccurrencesMissingChar(s[1..], p, p[0]);
  }

  lemma {:induction false} SumOccurrencesSingle(line: string, p: string)
    requires |p| > 0
    ensures SumOccurrences([line], p) == Occurrences(line, p)
  {
    assert [line][1..] == [];
  }

  lemma {:induction false} SumOccurrencesAbsent(lines: seq<string>, p: string)
    requires |p| > 0
    requires forall i :: 0 <= i < |lines| ==> Occurrences(lines[i], p) == 0
    ensures SumOccurrences(lines, p) == 0
    decreases |lines|
  {
    if |lines| > 0 {
      SumOccurrencesAbsent(lines[1..], p);
    }
  }

  /** Lines that all miss a character of the pattern hold it nowhere. */
  lemma {:induction false} SumOccurrencesMissingChar(lines: seq<string>, p: string, c: char)
    requires |p| > 0 && c in p
    requires forall i :: 0 <= i < |lines| ==> c !in lines[i]
    ensures SumOccurrences(lines, p) == 0
  {
    forall i | 0 <= i < |lines|
      ensures Occurrences(lines[i], p) == 0
    {
      OccurrencesMissingChar(lines[i], p, c);
    }
    SumOccurrencesAbsent(lines, p);
  }

  /** A text cut by a character the pattern lacks, with each side missing
      some character of the pattern, holds it nowhere. */
  lemma {:induction false} OccurrencesAcrossCut(a: string, c: char, b: string, p: string, ca: char, cb: char)
    requires |p| > 0 && c !in p
    requires ca in p && ca !in a && cb in p && cb !in b
    ensures Occurrences(a + [c] + b, p) == 0
  {
    OccurrencesMissingChar(a, p, ca);
    OccurrencesMissingChar(b, p, cb);
    OccurrencesCut(a, c, b, p);
  }

  lemma {:induction false} CountEqualAbsent(lines: seq<string>, line: string)
    requires forall i :: 0 <= i < |lines| ==> lines[i] != line
    ensures CountEqual(lines, line) == 0
    decreases |lines|
  {
    if |lines| > 0 {
      CountEqualAbsent(lines[1..], line);
    }
  }

  lemma {:induction false} CountStartingWithAbsent(lines: seq<string>, prefix: string)
    requires forall i :: 0 <= i < |lines| ==> !StartsWith(lines[i], prefix)
    ensures CountStartingWith(lines, prefix) == 0
    decreases |lines|
  {
    if |lines| > 0 {
      CountStartingWithAbsent(lines[1..], prefix);
    }
  }

  /** Lines that all begin with `c` neither equal nor start with a string
      that begins with another character. */
  lemma {:induction false} CountsByFirstChar(lines: seq<string>, c: char, line: string, prefix: string)
    requires forall i :: 0 <= i < |lines| ==> |lines[i]| > 0 && lines[i][0] == c
    requires |line| > 0 && line[0] != c && |prefix| > 0 && prefix[0] != c
    ensures CountEqual(lines, line) == 0
    ensures CountStartingWith(lines, prefix) == 0
  {
    CountEqualAbsent(lines, line);
    CountStartingWithAbsent(lines, prefix);
  }
}
