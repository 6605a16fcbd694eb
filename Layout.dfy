/** Where each generated line sits in the configuration, and how often the
    lines that must be unique occur. Everything is stated over
    `OutputLines`, which `SplitGrubCfgText` shows to be the lines GRUB reads
    from the generated text whenever no font path holds a newline. */
module Layout {
  import opened Wrappers
  import opened Text
  import opened SourceKinds
  import opened Arguments
  import opened RootNeutralisation
  import opened Synthesis

  /** The prolog without its trailing empty chunk. */
  function PrologPart(resolution: Option<Size>, fonts: seq<string>): (r: seq<string>)
    ensures r == [LoadUnicodeFont] + FontLoads(fonts) + InsmodLines + ModeLines(resolution) + [""]
  {
    var prolog := PrologLines(resolution, fonts);
    prolog[..|prolog| - 1]
  }

  /** The epilog without its leading empty chunk. */
  function EpilogPart(sourceType: SourceType, resolution: Option<Size>, timeoutSeconds: int): (r: seq<string>)
    ensures r == FallbackMenuLines + [TimeoutLine(timeoutSeconds)]
                 + (if resolution.None? then [TerminalOutputGfxterm] else [])
                 + [ThemeDirective(sourceType)]
  {
    EpilogLines(sourceType, resolution, timeoutSeconds)[1..]
  }

  lemma {:induction false} OutputLinesParts(content: string, sourceType: SourceType, resolution: Option<Size>,
                         fonts: seq<string>, timeoutSeconds: int)
    ensures OutputLines(content, sourceType, resolution, fonts, timeoutSeconds)
         == PrologPart(resolution, fonts) + NeutraliseLines(Split(content))
            + EpilogPart(sourceType, resolution, timeoutSeconds)
  {
  }

  lemma {:induction false} PrologPartOrder(resolution: Option<Size>, fonts: seq<string>)
    ensures var prolog := PrologPart(resolution, fonts);
      && |prolog| == |fonts| + (if resolution.Some? then 9 else 7)
      && prolog[0] == LoadUnicodeFont
      && (forall i :: 0 <= i < |fonts| ==> prolog[1 + i] == FontLoad(fonts[i]))
      && prolog[1 + |fonts|..6 + |fonts|] == InsmodLines
      && (resolution.Some? ==>
            prolog[6 + |fonts|] == GfxmodeLine(resolution.value)
            && prolog[7 + |fonts|] == TerminalOutputGfxterm)
      && prolog[|prolog| - 1] == ""
  {
    var prolog := PrologPart(resolution, fonts);
    var loads := [LoadUnicodeFont] + FontLoads(fonts);
    FontLoadsAt(fonts);
    assert prolog == loads + (InsmodLines + ModeLines(resolution) + [""]);
    assert prolog[1 + |fonts|..6 + |fonts|] == InsmodLines;
  }

  /** The unicode font comes first, then one load per theme font in the
      order given, then the five modules; with a resolution the mode is set
      and graphics output switched on right after them. A blank line follows,
      then the first line of the base configuration. */
  lemma {:induction false} PrologOrder(content: string, sourceType: SourceType, resolution: Option<Size>,
                    fonts: seq<string>, timeoutSeconds: int)
    ensures var lines := OutputLines(content, sourceType, resolution, fonts, timeoutSeconds);
      && |lines| > |fonts| + (if resolution.Some? then 9 else 7)
      && lines[0] == LoadUnicodeFont
      && (forall i :: 0 <= i < |fonts| ==> lines[1 + i] == FontLoad(fonts[i]))
      && lines[1 + |fonts|..6 + |fonts|] == InsmodLines
      && (resolution.Some? ==>
            lines[6 + |fonts|] == GfxmodeLine(resolution.value)
            && lines[7 + |fonts|] == TerminalOutputGfxterm
            && lines[8 + |fonts|] == ""
            && lines[9 + |fonts|] == NeutraliseLines(Split(content))[0])
      && (resolution.None? ==>
            lines[6 + |fonts|] == ""
            && lines[7 + |fonts|] == NeutraliseLines(Split(content))[0])
  {
    var lines := OutputLines(content, sourceType, resolution, fonts, timeoutSeconds);
    var body := NeutraliseLines(Split(content));
    LinesArePrologThenRest(content, sourceType, resolution, fonts, timeoutSeconds);
    PrologLayout(lines, resolution, fonts, body + EpilogPart(sourceType, resolution, timeoutSeconds));
  }

  lemma {:induction false} PrologLayout(lines: seq<string>, resolution: Option<Size>, fonts: seq<string>, rest: seq<string>)
    requires |rest| >= 1 && lines == PrologPart(resolution, fonts) + rest
    ensures var n := |fonts|;
      && |lines| > n + (if resolution.Some? then 9 else 7)
      && lines[0] == LoadUnicodeFont
      && (forall i :: 0 <= i < n ==> lines[1 + i] == FontLoad(fonts[i]))
      && lines[1 + n..6 + n] == InsmodLines
      && (resolution.Some? ==>
            lines[6 + n] == GfxmodeLine(resolution.value)
            && lines[7 + n] == TerminalOutputGfxterm
            && lines[8 + n] == ""
            && lines[9 + n] == rest[0])
      && (resolution.None? ==> lines[6 + n] == "" && lines[7 + n] == rest[0])
  {
    var prolog := PrologPart(resolution, fonts);
    PrologPartOrder(resolution, fonts);
    PrefixOfConcat(prolog, rest);
    var n := |fonts|;
    assert lines[1 + n..6 + n] == prolog[1 + n..6 + n];
  }

  lemma {:induction false} LinesArePrologThenRest(content: string, sourceType: SourceType, resolution: Option<Size>,
                               fonts: seq<string>, timeoutSeconds: int)
    ensures OutputLines(content, sourceType, resolution, fonts, timeoutSeconds)
         == PrologPart(resolution, fonts)
            + (NeutraliseLines(Split(content)) + EpilogPart(sourceType, resolution, timeoutSeconds))
  {
    OutputLinesParts(content, sourceType, resolution, fonts, timeoutSeconds);
    ConcatAssociates(PrologPart(resolution, fonts), NeutraliseLines(Split(content)),
                     EpilogPart(sourceType, resolution, timeoutSeconds));
  }

  lemma {:induction false} ConcatAssociates(a: seq<string>, b: seq<string>, c: seq<string>)
    ensures a + b + c == a + (b + c)
  {
  }

  lemma {:induction false} PrefixOfConcat(a: seq<string>, b: seq<string>)
    ensures forall i :: 0 <= i < |a| ==> (a + b)[i] == a[i]
    ensures |b| > 0 ==> (a + b)[|a|] == b[0]
  {
  }

  lemma {:induction false} EpilogPartOrder(sourceType: SourceType, resolution: Option<Size>, timeoutSeconds: int)
    ensures var epilog := EpilogPart(sourceType, resolution, timeoutSeconds);
      && |epilog| == (if resolution.None? then 9 else 8)
      && epilog[..6] == FallbackMenuLines
      && epilog[6] == TimeoutLine(timeoutSeconds)
      && (resolution.None? ==> epilog[7] == TerminalOutputGfxterm)
      && epilog[|epilog| - 1] == ThemeDirective(sourceType)
  {
    var epilog := EpilogPart(sourceType, resolution, timeoutSeconds);
    assert epilog == FallbackMenuLines + ([TimeoutLine(timeoutSeconds)]
                     + (if resolution.None? then [TerminalOutputGfxterm] else [])
                     + [ThemeDirective(sourceType)]);
  }

  /** The fallback submenu and `set default=0` come right after the base
      configuration, then the timeout. */
  lemma {:induction false} EpilogOrder(content: string, sourceType: SourceType, resolution: Option<Size>,
                    fonts: seq<string>, timeoutSeconds: int)
    ensures var lines := OutputLines(content, sourceType, resolution, fonts, timeoutSeconds);
      var start := |lines| - (if resolution.None? then 9 else 8);
      && start >= 1
      && lines[start..start + 6] == FallbackMenuLines
      && lines[start + 6] == TimeoutLine(timeoutSeconds)
  {
    var lines := OutputLines(content, sourceType, resolution, fonts, timeoutSeconds);
    var front := PrologPart(resolution, fonts) + NeutraliseLines(Split(content));
    var epilog := EpilogPart(sourceType, resolution, timeoutSeconds);
    OutputLinesParts(content, sourceType, resolution, fonts, timeoutSeconds);
    EpilogPartOrder(sourceType, resolution, timeoutSeconds);
    PrologPartNonEmpty(resolution, fonts);
    var k := if resolution.None? then 9 else 8;
    assert lines == front + epilog && |epilog| == k;
    BackLayout(lines, front, epilog, FallbackMenuLines, TimeoutLine(timeoutSeconds), k);
  }

  /** The last line of the base configuration, neutralised (see
      `NeutraliseLinesAt`), comes right before the fallback submenu. */
  lemma {:induction false} BaseBeforeEpilog(content: string, sourceType: SourceType, resolution: Option<Size>,
                         fonts: seq<string>, timeoutSeconds: int)
    ensures var lines := OutputLines(content, sourceType, resolution, fonts, timeoutSeconds);
      var start := |lines| - (if resolution.None? then 9 else 8);
      var base := Split(content);
      && start >= 1
      && lines[start - 1] == NeutraliseLines(base)[|base| - 1]
  {
    var lines := OutputLines(content, sourceType, resolution, fonts, timeoutSeconds);
    var front := PrologPart(resolution, fonts) + NeutraliseLines(Split(content));
    var epilog := EpilogPart(sourceType, resolution, timeoutSeconds);
    OutputLinesParts(content, sourceType, resolution, fonts, timeoutSeconds);
    EpilogPartOrder(sourceType, resolution, timeoutSeconds);
    LastOfNeutralised(PrologPart(resolution, fonts), Split(content));
    BackLayout(lines, front, epilog, epilog[..6], epilog[6], if resolution.None? then 9 else 8);
  }

  /** The theme directive is the last line; without a resolution, graphics
      output is switched on right before it. */
  lemma {:induction false} ThemeDirectiveLast(content: string, sourceType: SourceType, resolution: Option<Size>,
                           fonts: seq<string>, timeoutSeconds: int)
    ensures var lines := OutputLines(content, sourceType, resolution, fonts, timeoutSeconds);
      && |lines| >= 2
      && lines[|lines| - 1] == ThemeDirective(sourceType)
      && (resolution.None? ==> lines[|lines| - 2] == TerminalOutputGfxterm)
  {
    var lines := OutputLines(content, sourceType, resolution, fonts, timeoutSeconds);
    var front := PrologPart(resolution, fonts) + NeutraliseLines(Split(content));
    var epilog := EpilogPart(sourceType, resolution, timeoutSeconds);
    OutputLinesParts(content, sourceType, resolution, fonts, timeoutSeconds);
    EpilogPartOrder(sourceType, resolution, timeoutSeconds);
    PrologPartNonEmpty(resolution, fonts);
    BackLayout(lines, front, epilog, epilog[..6], epilog[6], if resolution.None? then 9 else 8);
  }

  lemma {:induction false} PrologPartNonEmpty(resolution: Option<Size>, fonts: seq<string>)
    ensures |PrologPart(resolution, fonts)| >= 1
  {
  }

  lemma {:induction false} LastOfNeutralised(prolog: seq<string>, base: seq<string>)
    requires |base| >= 1
    ensures var front := prolog + NeutraliseLines(base);
      |front| >= 1 && front[|front| - 1] == NeutraliseLines(base)[|base| - 1]
  {
  }

  /** Where the lines of a back part of `k` lines land in `front + back`. */
  lemma {:induction false} BackLayout(lines: seq<string>, front: seq<string>, back: seq<string>,
                   menu: seq<string>, timeout: string, k: nat)
    requires lines == front + back
    requires |front| >= 1 && |back| == k && k >= 8
    requires back[..6] == menu && back[6] == timeout
    ensures var start := |lines| - k;
      && start == |front| && start >= 1
      && lines[start - 1] == front[|front| - 1]
      && lines[start..start + 6] == menu
      && lines[start + 6] == timeout
      && lines[|lines| - 1] == back[k - 1]
      && lines[|lines| - 2] == back[k - 2]
  {
    assert lines[|front|..] == back;
    assert lines[|front|..|front| + 6] == lines[|front|..][..6];
  }

  lemma {:induction false} CountsOfThree(lines: seq<string>, a: seq<string>, b: seq<string>, c: seq<string>,
                      line: string, prefix: string)
    requires lines == a + b + c
    ensures CountEqual(lines, line) == CountEqual(a, line) + CountEqual(b, line) + CountEqual(c, line)
    ensures CountStartingWith(lines, prefix)
         == CountStartingWith(a, prefix) + CountStartingWith(b, prefix) + CountStartingWith(c, prefix)
  {
    CountAppend(a + b, c, line, prefix);
    CountAppend(a, b, line, prefix);
  }

  /** The unicode font and the theme fonts are loaded by lines that all
      begin with `l`. */
  lemma {:induction false} FontLoadLinesCounts(fonts: seq<string>, line: string, prefix: string)
    requires |line| > 0 && line[0] != 'l' && |prefix| > 0 && prefix[0] != 'l'
    ensures CountEqual([LoadUnicodeFont] + FontLoads(fonts), line) == 0
    ensures CountStartingWith([LoadUnicodeFont] + FontLoads(fonts), prefix) == 0
  {
    var loads := [LoadUnicodeFont] + FontLoads(fonts);
    FontLoadsAt(fonts);
    forall i | 0 <= i < |loads|
      ensures |loads[i]| > 0 && loads[i][0] == 'l'
    {
      if i > 0 {
        assert loads[i] == FontLoad(fonts[i - 1]);
      }
    }
    CountsByFirstChar(loads, 'l', line, prefix);
  }

  lemma {:induction false} InsmodLinesCounts(line: string, prefix: string)
    requires |line| > 0 && line[0] != 'i' && |prefix| > 0 && prefix[0] != 'i'
    ensures CountEqual(InsmodLines, line) == 0
    ensures CountStartingWith(InsmodLines, prefix) == 0
  {
    CountsByFirstChar(InsmodLines, 'i', line, prefix);
  }

  lemma {:induction false} BlankLineCounts(line: string, prefix: string)
    requires |line| > 0 && |prefix| > 0
    ensures CountEqual([""], line) == 0
    ensures CountStartingWith([""], prefix) == 0
  {
    assert [""][1..] == [];
  }

  lemma {:induction false} PrologPartCounts(sourceType: SourceType, resolution: Option<Size>, fonts: seq<string>)
    ensures CountEqual(PrologPart(resolution, fonts), TerminalOutputGfxterm)
         == (if resolution.Some? then 1 else 0)
    ensures CountEqual(PrologPart(resolution, fonts), ThemeDirective(sourceType)) == 0
    ensures CountStartingWith(PrologPart(resolution, fonts), TimeoutPrefix) == 0
  {
    var theme := ThemeDirective(sourceType);
    var loads := [LoadUnicodeFont] + FontLoads(fonts);
    var mode := ModeLines(resolution);
    var prolog := PrologPart(resolution, fonts);
    assert theme[0] == 's' || theme[0] == 'b';
    assert |theme| > 4 && (theme[0] == 'b' || theme[4] == 't');
    FontLoadLinesCounts(fonts, TerminalOutputGfxterm, TimeoutPrefix);
    FontLoadLinesCounts(fonts, theme, TimeoutPrefix);
    InsmodLinesCounts(TerminalOutputGfxterm, TimeoutPrefix);
    InsmodLinesCounts(theme, TimeoutPrefix);
    ModeLinesCounts(resolution, theme);
    BlankLineCounts(TerminalOutputGfxterm, TimeoutPrefix);
    BlankLineCounts(theme, TimeoutPrefix);
    assert prolog == loads + InsmodLines + (mode + [""]);
    CountsOfThree(prolog, loads, InsmodLines, mode + [""], TerminalOutputGfxterm, TimeoutPrefix);
    CountsOfThree(prolog, loads, InsmodLines, mode + [""], theme, TimeoutPrefix);
    CountAppend(mode, [""], TerminalOutputGfxterm, TimeoutPrefix);
    CountAppend(mode, [""], theme, TimeoutPrefix);
  }

  lemma {:induction false} ModeLinesCounts(resolution: Option<Size>, theme: string)
    requires |theme| > 4 && (theme[0] == 'b' || theme[4] == 't')
    ensures CountEqual(ModeLines(resolution), TerminalOutputGfxterm) == (if resolution.Some? then 1 else 0)
    ensures CountEqual(ModeLines(resolution), theme) == 0
    ensures CountStartingWith(ModeLines(resolution), TimeoutPrefix) == 0
  {
    if resolution.Some? {
      var mode := GfxmodeLine(resolution.value);
      assert mode[0] == 's' && mode[4] == 'g';
      assert mode != TerminalOutputGfxterm && mode != theme && !StartsWith(mode, TimeoutPrefix);
      assert TerminalOutputGfxterm[0] == 't' && TerminalOutputGfxterm[4] == 'i' && TimeoutPrefix[0] == 's';
      assert TerminalOutputGfxterm != theme && !StartsWith(TerminalOutputGfxterm, TimeoutPrefix);
      assert ModeLines(resolution) == [mode] + [TerminalOutputGfxterm];
      CountAppend([mode], [TerminalOutputGfxterm], TerminalOutputGfxterm, TimeoutPrefix);
      CountAppend([mode], [TerminalOutputGfxterm], theme, TimeoutPrefix);
    }
  }

  lemma {:induction false} FallbackMenuCounts(sourceType: SourceType)
    ensures CountEqual(FallbackMenuLines, TerminalOutputGfxterm) == 0
    ensures CountEqual(FallbackMenuLines, ThemeDirective(sourceType)) == 0
    ensures CountStartingWith(FallbackMenuLines, TimeoutPrefix) == 0
  {
    var theme := ThemeDirective(sourceType);
    assert (theme[0] == 's' && theme[1] == 'e' && theme[4] == 't') || theme[0] == 'b';
    forall i | 0 <= i < |FallbackMenuLines|
      ensures FallbackMenuLines[i] != TerminalOutputGfxterm
      ensures FallbackMenuLines[i] != theme
      ensures !StartsWith(FallbackMenuLines[i], TimeoutPrefix)
    {
      var l := FallbackMenuLines[i];
      if |l| >= |TimeoutPrefix| {
        assert l[..12][1] != TimeoutPrefix[1] || l[..12][4] != TimeoutPrefix[4];
      }
    }
    CountEqualAbsent(FallbackMenuLines, TerminalOutputGfxterm);
    CountEqualAbsent(FallbackMenuLines, theme);
    CountStartingWithAbsent(FallbackMenuLines, TimeoutPrefix);
  }

  lemma {:induction false} EpilogTailFacts(sourceType: SourceType, timeoutSeconds: int)
    ensures var theme := ThemeDirective(sourceType);
      var timeout := TimeoutLine(timeoutSeconds);
      && StartsWith(timeout, TimeoutPrefix)
      && timeout != TerminalOutputGfxterm && timeout != theme
      && theme != TerminalOutputGfxterm && !StartsWith(theme, TimeoutPrefix)
      && !StartsWith(TerminalOutputGfxterm, TimeoutPrefix)
  {
    var theme := ThemeDirective(sourceType);
    var timeout := TimeoutLine(timeoutSeconds);
    assert (theme[0] == 's' && theme[5] == 'h') || theme[0] == 'b';
    assert timeout[0] == 's' && timeout[5] == 'i';
  }

  lemma {:induction false} EpilogPartCounts(sourceType: SourceType, resolution: Option<Size>, timeoutSeconds: int,
                         line: string, prefix: string)
    requires line == TerminalOutputGfxterm || line == ThemeDirective(sourceType)
    requires prefix == TimeoutPrefix
    ensures CountEqual(EpilogPart(sourceType, resolution, timeoutSeconds), line)
         == (if line == TerminalOutputGfxterm then (if resolution.None? then 1 else 0) else 1)
    ensures CountStartingWith(EpilogPart(sourceType, resolution, timeoutSeconds), prefix) == 1
  {
    var theme := ThemeDirective(sourceType);
    var timeout := TimeoutLine(timeoutSeconds);
    var gfxterm: seq<string> := if resolution.None? then [TerminalOutputGfxterm] else [];
    EpilogTailFacts(sourceType, timeoutSeconds);
    FallbackMenuCounts(sourceType);
    CountsAfterMenu(FallbackMenuLines, timeout, gfxterm, theme, line, prefix);
  }

  /** Counting over the menu, the timeout line, at most one more line and
      the theme directive, when only the timeout line starts with `prefix`. */
  lemma {:induction false} CountsAfterMenu(menu: seq<string>, timeout: string, gfxterm: seq<string>, theme: string,
                        line: string, prefix: string)
    requires CountEqual(menu, line) == 0 && CountStartingWith(menu, prefix) == 0
    requires StartsWith(timeout, prefix) && timeout != line && !StartsWith(theme, prefix)
    requires |gfxterm| <= 1 && (|gfxterm| == 1 ==> !StartsWith(gfxterm[0], prefix))
    ensures CountEqual(menu + [timeout] + gfxterm + [theme], line)
         == (if |gfxterm| == 1 && gfxterm[0] == line then 1 else 0) + (if theme == line then 1 else 0)
    ensures CountStartingWith(menu + [timeout] + gfxterm + [theme], prefix) == 1
  {
    var tail := [timeout] + gfxterm + [theme];
    assert menu + [timeout] + gfxterm + [theme] == menu + tail;
    CountAppend(menu, tail, line, prefix);
    CountsOfThree(tail, [timeout], gfxterm, [theme], line, prefix);
    assert [timeout][1..] == [] && [theme][1..] == [];
    if |gfxterm| == 1 {
      assert gfxterm[1..] == [];
    }
  }

  /** Counting over the generated parts around the rewritten base lines:
      the rewrite keeps the count of a line (or prefix) that starts neither
      with a blank nor the way `set root=` does. */
  lemma {:induction false} CountAroundBase(lines: seq<string>, prolog: seq<string>, base: seq<string>, epilog: seq<string>,
                        line: string, j: nat)
    requires lines == prolog + NeutraliseLines(base) + epilog
    requires 0 < |line| && !IsBlank(line[0]) && j < |line| && j < |SetRoot| && line[j] != SetRoot[j]
    ensures CountEqual(lines, line)
         == CountEqual(prolog, line) + CountEqual(base, line) + CountEqual(epilog, line)
    ensures CountStartingWith(lines, line)
         == CountStartingWith(prolog, line) + CountStartingWith(base, line) + CountStartingWith(epilog, line)
  {
    CountsOfThree(lines, prolog, NeutraliseLines(base), epilog, line, line);
    NeutraliseLinesKeepCounts(base, line, j);
  }

  lemma {:induction false} TerminalOutputInParts(sourceType: SourceType, resolution: Option<Size>, fonts: seq<string>,
                              timeoutSeconds: int)
    ensures CountEqual(PrologPart(resolution, fonts), TerminalOutputGfxterm)
            + CountEqual(EpilogPart(sourceType, resolution, timeoutSeconds), TerminalOutputGfxterm) == 1
    ensures !IsBlank(TerminalOutputGfxterm[0]) && TerminalOutputGfxterm[0] != SetRoot[0]
  {
    PrologPartCounts(sourceType, resolution, fonts);
    EpilogPartCounts(sourceType, resolution, timeoutSeconds, TerminalOutputGfxterm, TimeoutPrefix);
  }

  /** Whatever the base configuration holds, the generated lines add
      exactly one `terminal_output gfxterm` to it: in the prolog with a
      resolution, in the epilog without (the root rewrite never creates or
      removes one). */
  lemma {:induction false} TerminalOutputOnce(content: string, sourceType: SourceType, resolution: Option<Size>,
                           fonts: seq<string>, timeoutSeconds: int)
    ensures CountEqual(OutputLines(content, sourceType, resolution, fonts, timeoutSeconds),
                       TerminalOutputGfxterm)
         == 1 + CountEqual(Split(content), TerminalOutputGfxterm)
  {
    OutputLinesParts(content, sourceType, resolution, fonts, timeoutSeconds);
    TerminalOutputInParts(sourceType, resolution, fonts, timeoutSeconds);
    CountAroundBase(OutputLines(content, sourceType, resolution, fonts, timeoutSeconds),
                    PrologPart(resolution, fonts), Split(content),
                    EpilogPart(sourceType, resolution, timeoutSeconds), TerminalOutputGfxterm, 0);
  }

  lemma {:induction false} ThemeDirectiveInParts(sourceType: SourceType, resolution: Option<Size>, fonts: seq<string>,
                              timeoutSeconds: int)
    ensures var theme := ThemeDirective(sourceType);
      && CountEqual(PrologPart(resolution, fonts), theme) == 0
      && CountEqual(EpilogPart(sourceType, resolution, timeoutSeconds), theme) == 1
    ensures var theme := ThemeDirective(sourceType);
      var j := if sourceType == Directory then 4 else 0;
      |theme| > 4 && !IsBlank(theme[0]) && theme[j] != SetRoot[j]
  {
    PrologPartCounts(sourceType, resolution, fonts);
    EpilogPartCounts(sourceType, resolution, timeoutSeconds, ThemeDirective(sourceType), TimeoutPrefix);
  }

  /** Exactly one theme directive is added. */
  lemma {:induction false} ThemeDirectiveOnce(content: string, sourceType: SourceType, resolution: Option<Size>,
                           fonts: seq<string>, timeoutSeconds: int)
    ensures CountEqual(OutputLines(content, sourceType, resolution, fonts, timeoutSeconds),
                       ThemeDirective(sourceType))
         == 1 + CountEqual(Split(content), ThemeDirective(sourceType))
  {
    OutputLinesParts(content, sourceType, resolution, fonts, timeoutSeconds);
    ThemeDirectiveInParts(sourceType, resolution, fonts, timeoutSeconds);
    CountAroundBase(OutputLines(content, sourceType, resolution, fonts, timeoutSeconds),
                    PrologPart(resolution, fonts), Split(content),
                    EpilogPart(sourceType, resolution, timeoutSeconds), ThemeDirective(sourceType),
                    if sourceType == Directory then 4 else 0);
  }

  lemma {:induction false} TimeoutInParts(sourceType: SourceType, resolution: Option<Size>, fonts: seq<string>,
                       timeoutSeconds: int)
    ensures CountStartingWith(PrologPart(resolution, fonts), TimeoutPrefix) == 0
    ensures CountStartingWith(EpilogPart(sourceType, resolution, timeoutSeconds), TimeoutPrefix) == 1
    ensures !IsBlank(TimeoutPrefix[0]) && TimeoutPrefix[4] != SetRoot[4]
  {
    PrologPartCounts(sourceType, resolution, fonts);
    EpilogPartCounts(sourceType, resolution, timeoutSeconds, TerminalOutputGfxterm, TimeoutPrefix);
  }

  /** Exactly one line setting the timeout is added. */
  lemma {:induction false} TimeoutOnce(content: string, sourceType: SourceType, resolution: Option<Size>,
                    fonts: seq<string>, timeoutSeconds: int)
    ensures CountStartingWith(OutputLines(content, sourceType, resolution, fonts, timeoutSeconds),
                              TimeoutPrefix)
         == 1 + CountStartingWith(Split(content), TimeoutPrefix)
  {
    OutputLinesParts(content, sourceType, resolution, fonts, timeoutSeconds);
    TimeoutInParts(sourceType, resolution, fonts, timeoutSeconds);
    CountAroundBase(OutputLines(content, sourceType, resolution, fonts, timeoutSeconds),
                    PrologPart(resolution, fonts), Split(content),
                    EpilogPart(sourceType, resolution, timeoutSeconds), TimeoutPrefix, 4);
  }
}
