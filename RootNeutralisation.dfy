/** Neutralising `set root=...` lines of the base configuration: the
    rescue image boots from a disk whose only device is `hd0`, so every
    root assignment is pointed there and the old value is kept in a comment. */
module RootNeutralisation {
  import opened Text

  const SetRoot: string := "set root="
  /** The program's name, left in the comment that keeps the old value. */
  const Marker: string := "grub2-theme-preview"
  const Replacement: string := "'hd0'  # replaced by " + Marker + ", was "

  predicate IsBlank(c: char) {
    c == ' ' || c == '\t'
  }

  predicate AllBlank(s: string) {
    forall i :: 0 <= i < |s| ==> IsBlank(s[i])
  }

  /** Length of the run of spaces and tabs that starts the line. */
  function IndentLength(line: string): (k: nat)
    ensures k <= |line| && AllBlank(line[..k])
    ensures k < |line| ==> !IsBlank(line[k])
    decreases |line|
  {
    if |line| == 0 || !IsBlank(line[0]) then 0
    else
      var k := IndentLength(line[1..]);
      assert line[..1 + k] == [line[0]] + line[1..][..k];
      1 + k
  }

  /** A line the pattern `^([ \t]*set root=)(.+)` matches: blanks, the
      assignment, and a non-empty value. */
  ghost predicate IsRootAssignment(line: string) {
    exists indent, value :: line == indent + SetRoot + value && AllBlank(indent) && |value| > 0
  }

  /** The substitution applied to one line (a line holds no newline, so
      `.+` takes the rest of the line). */
  function NeutraliseLine(line: string): string
  {
    var k := IndentLength(line);
    var head := k + |SetRoot|;
    if head < |line| && line[k..head] == SetRoot then
      line[..head] + Replacement + line[head..]
    else
      line
  }

  /** A root assignment gets `'hd0'` and keeps its old value in a comment. */
  lemma {:induction false} NeutraliseLineRewrites(indent: string, value: string)
    requires AllBlank(indent) && |value| > 0
    ensures NeutraliseLine(indent + SetRoot + value) == indent + SetRoot + Replacement + value
  {
    var line := indent + SetRoot + value;
    IndentOfRootAssignment(indent, value);
    var head := |indent| + |SetRoot|;
    assert line[|indent|..head] == SetRoot;
    assert line[..head] == indent + SetRoot;
    assert line[head..] == value;
  }

  lemma {:induction false} IndentOfRootAssignment(indent: string, value: string)
    requires AllBlank(indent)
    ensures IndentLength(indent + SetRoot + value) == |indent|
  {
    IndentLengthAfterBlanks(indent, SetRoot + value);
    assert indent + SetRoot + value == indent + (SetRoot + value);
    assert (SetRoot + value)[0] == 's';
  }

  /** Blanks in front add their number to the indentation. */
  lemma {:induction false} IndentLengthAfterBlanks(indent: string, rest: string)
    requires AllBlank(indent)
    ensures IndentLength(indent + rest) == |indent| + IndentLength(rest)
    decreases |indent|
  {
    if |indent| == 0 {
      assert indent + rest == rest;
    } else {
      var line := indent + rest;
      assert line[0] == indent[0];
      assert line[1..] == indent[1..] + rest;
      IndentLengthAfterBlanks(indent[1..], rest);
    }
  }

  /** Exactly the root assignments are changed; every other line (an
      empty value, text before `set`, anything else) stays as it was. */
  lemma {:induction false} NeutraliseLineChangesExactlyRootAssignments(line: string)
    ensures NeutraliseLine(line) != line <==> IsRootAssignment(line)
  {
    if NeutraliseLine(line) != line {
      ChangedLineIsRootAssignment(line);
    }
    if IsRootAssignment(line) {
      var indent, value :| line == indent + SetRoot + value && AllBlank(indent) && |value| > 0;
      NeutraliseLineRewrites(indent, value);
      assert |NeutraliseLine(line)| > |line|;
    }
  }

  lemma {:induction false} ChangedLineIsRootAssignment(line: string)
    requires NeutraliseLine(line) != line
    ensures IsRootAssignment(line)
  {
    var k := IndentLength(line);
    var head := k + |SetRoot|;
    assert head < |line| && line[k..head] == SetRoot;
    SplitAtSetRoot(line, k);
    WitnessRootAssignment(line, line[..k], line[head..]);
  }

  lemma {:induction false} SplitAtSetRoot(line: string, k: nat)
    requires k + |SetRoot| < |line| && line[k..k + |SetRoot|] == SetRoot
    ensures line == line[..k] + SetRoot + line[k + |SetRoot|..]
  {
  }

  lemma {:induction false} WitnessRootAssignment(line: string, indent: string, value: string)
    requires line == indent + SetRoot + value && AllBlank(indent) && |value| > 0
    ensures IsRootAssignment(line)
  {
  }

  lemma {:induction false} NeutraliseLineNoNewline(line: string)
    requires NoNewline(line)
    ensures NoNewline(NeutraliseLine(line))
  {
    var k := IndentLength(line);
    var head := k + |SetRoot|;
    if head < |line| && line[k..head] == SetRoot {
      assert Newline !in line[..head];
      assert Newline !in line[head..];
      ReplacementHasNoNewline();
      assert NeutraliseLine(line) == line[..head] + Replacement + line[head..];
    }
  }

  lemma {:induction false} ReplacementHasNoNewline()
    ensures Newline !in Replacement
  {
  }

  /** Every line rewritten on its own, in order. */
  function NeutraliseLines(lines: seq<string>): (r: seq<string>)
    ensures |r| == |lines|
  {
    if |lines| == 0 then [] else [NeutraliseLine(lines[0])] + NeutraliseLines(lines[1..])
  }

  /** The i-th output line is the i-th input line, rewritten. */
  lemma {:induction false} NeutraliseLinesAt(lines: seq<string>)
    ensures forall i :: 0 <= i < |lines| ==> NeutraliseLines(lines)[i] == NeutraliseLine(lines[i])
    decreases |lines|
  {
    if |lines| > 0 {
      NeutraliseLinesAt(lines[1..]);
      forall i | 1 <= i < |lines|
        ensures NeutraliseLines(lines)[i] == NeutraliseLine(lines[i])
      {
        assert NeutraliseLines(lines)[i] == NeutraliseLines(lines[1..])[i - 1];
      }
    }
  }

  /** The multi-line substitution of root assignments: each line of the
      content is rewritten on its own and the lines are joined again. */
  function NeutraliseRoot(content: string): string
  {
    Join(NeutraliseLines(Split(content)))
  }

  /** The result has as many lines as the input, and its i-th line is the
      i-th input line, neutralised. */
  lemma {:induction false} NeutraliseRootByLine(content: string)
    ensures Split(NeutraliseRoot(content)) == NeutraliseLines(Split(content))
    ensures |Split(NeutraliseRoot(content))| == |Split(content)|
  {
    var lines := Split(content);
    SplitNoNewline(content);
    var out := NeutraliseLines(lines);
    NeutraliseLinesAt(lines);
    forall i | 0 <= i < |out|
      ensures NoNewline(out[i])
    {
      NeutraliseLineNoNewline(lines[i]);
    }
    SplitJoin(out);
  }

  /** Content without any root assignment comes back unchanged. */
  lemma {:induction false} NeutraliseRootUnchanged(content: string)
    requires forall i :: 0 <= i < |Split(content)| ==> !IsRootAssignment(Split(content)[i])
    ensures NeutraliseRoot(content) == content
  {
    var lines := Split(content);
    NeutraliseLinesAt(lines);
    forall i | 0 <= i < |lines|
      ensures NeutraliseLines(lines)[i] == lines[i]
    {
      NeutraliseLineChangesExactlyRootAssignments(lines[i]);
    }
    assert NeutraliseLines(lines) == lines;
    JoinSplit(content);
  }

  /** A line that begins neither with a blank nor the way `set root=` does
      (it differs from it at position `j`) starts with `prefix` after the
      rewrite exactly when it did before; likewise for equality. */
  lemma {:induction false} NeutraliseLineKeepsStart(line: string, prefix: string, j: nat)
    requires 0 < |prefix| && !IsBlank(prefix[0])
    requires j < |prefix| && j < |SetRoot| && prefix[j] != SetRoot[j]
    ensures StartsWith(NeutraliseLine(line), prefix) <==> StartsWith(line, prefix)
    ensures NeutraliseLine(line) == prefix <==> line == prefix
  {
    NeutraliseLineChangesExactlyRootAssignments(line);
    if NeutraliseLine(line) != line {
      var indent, value :| line == indent + SetRoot + value && AllBlank(indent) && |value| > 0;
      NeutraliseLineRewrites(indent, value);
      var rewritten := indent + SetRoot + Replacement + value;
      if |indent| > 0 {
        assert line[0] == indent[0] && rewritten[0] == indent[0];
      } else {
        assert line[j] == SetRoot[j] && rewritten[j] == SetRoot[j];
      }
      assert !StartsWith(line, prefix) && !StartsWith(rewritten, prefix);
    }
  }

  lemma {:induction false} NeutraliseLinesKeepCounts(lines: seq<string>, prefix: string, j: nat)
    requires 0 < |prefix| && !IsBlank(prefix[0])
    requires j < |prefix| && j < |SetRoot| && prefix[j] != SetRoot[j]
    ensures CountStartingWith(NeutraliseLines(lines), prefix) == CountStartingWith(lines, prefix)
    ensures CountEqual(NeutraliseLines(lines), prefix) == CountEqual(lines, prefix)
    decreases |lines|
  {
    if |lines| > 0 {
      assert NeutraliseLines(lines)[1..] == NeutraliseLines(lines[1..]);
      NeutraliseLineKeepsStart(lines[0], prefix, j);
      NeutraliseLinesKeepCounts(lines[1..], prefix, j);
    }
  }

  /** A root assignment holds an `=`, so a line without one is left alone. */
  lemma {:induction false} RootAssignmentHoldsEquals(line: string)
    requires IsRootAssignment(line)
    ensures '=' in line
  {
    var indent, value :| line == indent + SetRoot + value && AllBlank(indent) && |value| > 0;
    assert line[|indent| + 8] == '=';
  }

  /** Lines the substitution leaves alone: an assignment with nothing after
      `=`, and one with other text before `set`. */
  lemma {:induction false} NeutraliseLineExamples()
    ensures NeutraliseLine("set root=") == "set root="
    ensures NeutraliseLine("# set root=(hd0,1)") == "# set root=(hd0,1)"
  {
  }
}
