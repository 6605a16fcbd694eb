/** Where the text `gfxmode` occurs in the generated configuration. The
    generated lines hold it exactly once, in the `set gfxmode=` line of the
    prolog, when a resolution is given, and nowhere otherwise; every other
    occurrence comes from a font path or from the base configuration, whose
    root rewrite neither adds nor removes one. The same holds for the whole
    assignment `set gfxmode=`. */
module GfxmodeOccurrences {
  import opened Wrappers
  import opened Text
  import opened Decimal
  import opened SourceKinds
  import opened Arguments
  import opened RootNeutralisation
  import opened Synthesis
  import opened Layout

  const Gfxmode: string := "gfxmode"

  /** The two texts looked for: the mode variable and its assignment. */
  predicate IsGfxmodePattern(p: string) {
    p == Gfxmode || p == GfxmodePrefix
  }

  lemma {:induction false} PatternChars(p: string)
    requires IsGfxmodePattern(p)
    ensures |p| > 0 && Newline !in p
    ensures 'g' in p && 'x' in p && 'd' in p
    ensures 'r' !in p && 'a' !in p && '/' !in p
    ensures p[0] == 'g' || p[0] == 's'
  {
  }

  lemma {:induction false} DigitsLack(s: string, c: char)
    requires AllDigits(s) && !IsDigit(c)
    ensures c !in s
  {
    forall i | 0 <= i < |s|
      ensures s[i] != c
    {
      assert IsDigit(s[i]);
    }
  }

  lemma {:induction false} BlanksLack(s: string, c: char)
    requires AllBlank(s) && !IsBlank(c)
    ensures c !in s
  {
    forall i | 0 <= i < |s|
      ensures s[i] != c
    {
      assert IsBlank(s[i]);
    }
  }

  lemma {:induction false} UnicodeFontAbsent(p: string)
    requires IsGfxmodePattern(p)
    ensures Occurrences(LoadUnicodeFont, p) == 0
  {
    PatternChars(p);
    assert 'g' !in LoadUnicodeFont;
    OccurrencesMissingChar(LoadUnicodeFont, p, 'g');
  }

  lemma {:induction false} TerminalOutputAbsent(p: string)
    requires IsGfxmodePattern(p)
    ensures Occurrences(TerminalOutputGfxterm, p) == 0
  {
    PatternChars(p);
    assert 'd' !in TerminalOutputGfxterm;
    OccurrencesMissingChar(TerminalOutputGfxterm, p, 'd');
  }

  /** No module line assigns anything; all but `insmod gfxterm` miss `x`,
      and that one is cut by a blank into halves missing `g` and `d`. */
  lemma {:induction false} InsmodLinesShape()
    ensures forall i :: 0 <= i < |InsmodLines| ==> '=' !in InsmodLines[i]
    ensures forall i :: 0 <= i < |InsmodLines| && i != 1 ==> 'x' !in InsmodLines[i]
    ensures InsmodLines[1] == "insmod" + [' '] + "gfxterm"
    ensures 'g' !in "insmod" && 'd' !in "gfxterm"
  {
  }

  /** Lines that all miss a character of the pattern, except one line
      known to hold it nowhere, hold it nowhere. */
  lemma {:induction false} AbsentBesideOne(lines: seq<string>, k: int, p: string, c: char)
    requires |p| > 0 && c in p && 0 <= k < |lines|
    requires forall i :: 0 <= i < |lines| && i != k ==> c !in lines[i]
    requires Occurrences(lines[k], p) == 0
    ensures SumOccurrences(lines, p) == 0
  {
    forall i | 0 <= i < |lines|
      ensures Occurrences(lines[i], p) == 0
    {
      if i != k {
        OccurrencesMissingChar(lines[i], p, c);
      }
    }
    SumOccurrencesAbsent(lines, p);
  }

  lemma {:induction false} InsmodLinesAbsent(p: string)
    requires IsGfxmodePattern(p)
    ensures SumOccurrences(InsmodLines, p) == 0
  {
    PatternChars(p);
    InsmodLinesShape();
    if p == GfxmodePrefix {
      SumOccurrencesMissingChar(InsmodLines, p, '=');
    } else {
      OccurrencesAcrossCut("insmod", ' ', "gfxterm", p, 'g', 'd');
      AbsentBesideOne(InsmodLines, 1, p, 'x');
    }
  }

  lemma {:induction false} FallbackMenuLacksG()
    ensures forall i :: 0 <= i < |FallbackMenuLines| ==> 'g' !in FallbackMenuLines[i]
  {
  }

  lemma {:induction false} FallbackMenuAbsent(p: string)
    requires IsGfxmodePattern(p)
    ensures SumOccurrences(FallbackMenuLines, p) == 0
  {
    PatternChars(p);
    FallbackMenuLacksG();
    SumOccurrencesMissingChar(FallbackMenuLines, p, 'g');
  }

  lemma {:induction false} TimeoutLineAbsent(seconds: int, p: string)
    requires IsGfxmodePattern(p)
    ensures Occurrences(TimeoutLine(seconds), p) == 0
  {
    PatternChars(p);
    DigitsLack(NatToString(if seconds < 0 then -seconds else seconds), 'g');
    assert 'g' !in IntToString(seconds);
    assert 'g' !in TimeoutPrefix;
    OccurrencesMissingChar(TimeoutLine(seconds), p, 'g');
  }

  /** `background_image` and the image path each miss a letter of `gfxmode`. */
  lemma {:induction false} ThemeDirectiveShape(sourceType: SourceType)
    ensures sourceType == Directory ==> 'g' !in ThemeDirective(sourceType)
    ensures sourceType != Directory ==>
              ThemeDirective(sourceType) == "background_image" + [' '] + ImageLocation(sourceType)
  {
  }

  function ImageLocation(sourceType: SourceType): string {
    "$prefix/" + GetImagePathFor(sourceType)
  }

  lemma {:induction false} ImageLocationLetters(sourceType: SourceType)
    ensures '=' !in ImageLocation(sourceType) && 'd' !in ImageLocation(sourceType)
  {
  }

  lemma {:induction false} ImageCommandLetters()
    ensures '=' !in "background_image" && 'x' !in "background_image"
  {
  }

  lemma {:induction false} ThemeDirectiveAbsent(sourceType: SourceType, p: string)
    requires IsGfxmodePattern(p)
    ensures Occurrences(ThemeDirective(sourceType), p) == 0
  {
    PatternChars(p);
    ThemeDirectiveShape(sourceType);
    ImageLocationLetters(sourceType);
    ImageCommandLetters();
    if sourceType == Directory {
      OccurrencesMissingChar(ThemeDirective(sourceType), p, 'g');
    } else if p == GfxmodePrefix {
      assert '=' !in ThemeDirective(sourceType);
      OccurrencesMissingChar(ThemeDirective(sourceType), p, '=');
    } else {
      OccurrencesAcrossCut("background_image", ' ', ImageLocation(sourceType), p, 'x', 'd');
    }
  }

  /** The mode line holds the pattern once, at its start (for `gfxmode`,
      after `set `). */
  lemma {:induction false} GfxmodeLineOnce(size: Size, p: string)
    requires IsGfxmodePattern(p)
    ensures Occurrences(GfxmodeLine(size), p) == 1
  {
    var w, h := NatToString(size.width), NatToString(size.height);
    var tail := w + "x" + h;
    assert GfxmodeLine(size) == GfxmodePrefix + tail;
    if p == Gfxmode {
      DigitsLack(w, 'g');
      DigitsLack(h, 'g');
      WordOnceBefore(tail);
    } else {
      DigitsLack(w, 's');
      DigitsLack(h, 's');
      PrefixOnceBefore(tail);
    }
  }

  lemma {:induction false} WordOnceBefore(tail: string)
    requires 'g' !in tail
    ensures Occurrences(GfxmodePrefix + tail, Gfxmode) == 1
  {
    var rest := Gfxmode + "=" + tail;
    assert GfxmodePrefix + tail == "set " + rest;
    assert rest[1..] == "fxmode=" + tail;
    OccurrencesLeading(rest, Gfxmode);
    OccurrencesSkip("set ", rest, Gfxmode);
  }

  lemma {:induction false} PrefixOnceBefore(tail: string)
    requires 's' !in tail
    ensures Occurrences(GfxmodePrefix + tail, GfxmodePrefix) == 1
  {
    var line := GfxmodePrefix + tail;
    assert line[1..] == "et gfxmode=" + tail;
    OccurrencesLeading(line, GfxmodePrefix);
  }

  /** Occurrences in `s ` followed by an old root value are those of the value. */
  lemma {:induction false} AfterWas(value: string, p: string)
    requires IsGfxmodePattern(p)
    ensures Occurrences("s " + value, p) == Occurrences(value, p)
  {
    if p == Gfxmode {
      OccurrencesSkip("s ", value, p);
    } else {
      var s := "s " + value;
      if |s| >= |p| {
        assert s[..|p|][1] != p[1];
      }
      assert s[1..] == " " + value;
      OccurrencesSkip(" ", value, p);
    }
  }

  /** A root assignment holds the pattern as often as its value does. */
  lemma {:induction false} RootAssignmentOccurrences(indent: string, value: string, p: string)
    requires IsGfxmodePattern(p) && AllBlank(indent)
    ensures Occurrences(indent + SetRoot + value, p) == Occurrences(value, p)
  {
    PatternChars(p);
    BlanksLack(indent, 'g');
    var before := indent + "set ";
    assert indent + SetRoot + value == before + ['r'] + ("oot=" + value);
    OccurrencesMissingChar(before, p, 'g');
    OccurrencesCut(before, 'r', "oot=" + value, p);
    OccurrencesSkip("oot=", value, p);
  }

  /** So does its rewrite, whose inserted text misses `x`. */
  lemma {:induction false} RewrittenRootOccurrences(indent: string, value: string, p: string)
    requires IsGfxmodePattern(p) && AllBlank(indent)
    ensures Occurrences(indent + SetRoot + Replacement + value, p) == Occurrences(value, p)
  {
    PatternChars(p);
    BlanksLack(indent, 'x');
    var marked := indent + SetRoot + "'hd0'  # replaced by " + Marker + ", w";
    assert indent + SetRoot + Replacement + value == marked + ['a'] + ("s " + value);
    assert 'x' !in marked;
    OccurrencesMissingChar(marked, p, 'x');
    OccurrencesCut(marked, 'a', "s " + value, p);
    AfterWas(value, p);
  }

  lemma {:induction false} NeutraliseLineOccurrences(line: string, p: string)
    requires IsGfxmodePattern(p)
    ensures Occurrences(NeutraliseLine(line), p) == Occurrences(line, p)
  {
    NeutraliseLineChangesExactlyRootAssignments(line);
    if NeutraliseLine(line) != line {
      var indent, value :| line == indent + SetRoot + value && AllBlank(indent) && |value| > 0;
      NeutraliseLineRewrites(indent, value);
      RootAssignmentOccurrences(indent, value, p);
      RewrittenRootOccurrences(indent, value, p);
    }
  }

  lemma {:induction false} NeutraliseLinesOccurrences(lines: seq<string>, p: string)
    requires IsGfxmodePattern(p)
    ensures SumOccurrences(NeutraliseLines(lines), p) == SumOccurrences(lines, p)
    decreases |lines|
  {
    if |lines| > 0 {
      assert NeutraliseLines(lines)[1..] == NeutraliseLines(lines[1..]);
      NeutraliseLineOccurrences(lines[0], p);
      NeutraliseLinesOccurrences(lines[1..], p);
    }
  }

  lemma {:induction false} FontLoadOccurrences(path: string, p: string)
    requires IsGfxmodePattern(p)
    ensures Occurrences(FontLoad(path), p) == Occurrences(path, p)
  {
    PatternChars(p);
    var head := "loadfont $prefix/" + PathFullTheme;
    assert FontLoad(path) == head + ['/'] + path;
    assert 'g' !in head;
    OccurrencesMissingChar(head, p, 'g');
    OccurrencesCut(head, '/', path, p);
  }

  lemma {:induction false} FontLoadsOccurrences(fonts: seq<string>, p: string)
    requires IsGfxmodePattern(p)
    ensures SumOccurrences(FontLoads(fonts), p) == SumOccurrences(fonts, p)
    decreases |fonts|
  {
    PatternChars(p);
    if |fonts| > 0 {
      var init, last := fonts[..|fonts| - 1], fonts[|fonts| - 1];
      FontLoadsOccurrences(init, p);
      SumOccurrencesAppend(FontLoads(init), [FontLoad(last)], p);
      assert fonts == init + [last];
      SumOccurrencesAppend(init, [last], p);
      SumOccurrencesSingle(FontLoad(last), p);
      SumOccurrencesSingle(last, p);
      FontLoadOccurrences(last, p);
    }
  }

  lemma {:induction false} PairOccurrences(first: string, second: string, p: string)
    requires |p| > 0
    ensures SumOccurrences([first, second], p) == Occurrences(first, p) + Occurrences(second, p)
  {
    assert [first, second][1..] == [second];
    SumOccurrencesSingle(second, p);
  }

  lemma {:induction false} ModeLinesOccurrences(resolution: Option<Size>, p: string)
    requires IsGfxmodePattern(p)
    ensures SumOccurrences(ModeLines(resolution), p) == (if resolution.Some? then 1 else 0)
  {
    PatternChars(p);
    if resolution.Some? {
      PairOccurrences(GfxmodeLine(resolution.value), TerminalOutputGfxterm, p);
      GfxmodeLineOnce(resolution.value, p);
      TerminalOutputAbsent(p);
    }
  }

  lemma {:induction false} PrologPartOccurrences(resolution: Option<Size>, fonts: seq<string>, p: string)
    requires IsGfxmodePattern(p)
    ensures SumOccurrences(PrologPart(resolution, fonts), p)
         == (if resolution.Some? then 1 else 0) + SumOccurrences(fonts, p)
  {
    PatternChars(p);
    var unicode, loads, mode := [LoadUnicodeFont], FontLoads(fonts), ModeLines(resolution);
    SumOccurrencesAppend(unicode + loads + InsmodLines + mode, [""], p);
    SumOccurrencesAppend(unicode + loads + InsmodLines, mode, p);
    SumOccurrencesAppend(unicode + loads, InsmodLines, p);
    SumOccurrencesAppend(unicode, loads, p);
    SumOccurrencesSingle(LoadUnicodeFont, p);
    SumOccurrencesSingle("", p);
    UnicodeFontAbsent(p);
    FontLoadsOccurrences(fonts, p);
    InsmodLinesAbsent(p);
    ModeLinesOccurrences(resolution, p);
  }

  lemma {:induction false} EpilogPartAbsent(sourceType: SourceType, resolution: Option<Size>, timeoutSeconds: int,
                         p: string)
    requires IsGfxmodePattern(p)
    ensures SumOccurrences(EpilogPart(sourceType, resolution, timeoutSeconds), p) == 0
  {
    PatternChars(p);
    var timeout, theme := [TimeoutLine(timeoutSeconds)], [ThemeDirective(sourceType)];
    var gfxterm: seq<string> := if resolution.None? then [TerminalOutputGfxterm] else [];
    SumOccurrencesAppend(FallbackMenuLines + timeout + gfxterm, theme, p);
    SumOccurrencesAppend(FallbackMenuLines + timeout, gfxterm, p);
    SumOccurrencesAppend(FallbackMenuLines, timeout, p);
    SumOccurrencesSingle(TimeoutLine(timeoutSeconds), p);
    SumOccurrencesSingle(ThemeDirective(sourceType), p);
    SumOccurrencesSingle(TerminalOutputGfxterm, p);
    FallbackMenuAbsent(p);
    TimeoutLineAbsent(timeoutSeconds, p);
    TerminalOutputAbsent(p);
    ThemeDirectiveAbsent(sourceType, p);
  }

  /** Counted over the output lines. */
  lemma {:induction false} OutputLinesOccurrences(content: string, sourceType: SourceType, resolution: Option<Size>,
                               fonts: seq<string>, timeoutSeconds: int, p: string)
    requires IsGfxmodePattern(p)
    ensures SumOccurrences(OutputLines(content, sourceType, resolution, fonts, timeoutSeconds), p)
         == (if resolution.Some? then 1 else 0) + SumOccurrences(fonts, p)
            + SumOccurrences(Split(content), p)
  {
    PatternChars(p);
    var prolog := PrologPart(resolution, fonts);
    var body := NeutraliseLines(Split(content));
    var epilog := EpilogPart(sourceType, resolution, timeoutSeconds);
    OutputLinesParts(content, sourceType, resolution, fonts, timeoutSeconds);
    SumOccurrencesAppend(prolog + body, epilog, p);
    SumOccurrencesAppend(prolog, body, p);
    PrologPartOccurrences(resolution, fonts, p);
    NeutraliseLinesOccurrences(Split(content), p);
    EpilogPartAbsent(sourceType, resolution, timeoutSeconds, p);
  }

  lemma {:induction false} ContentOccurrences(content: string, p: string)
    requires IsGfxmodePattern(p)
    ensures SumOccurrences(Split(content), p) == Occurrences(content, p)
  {
    PatternChars(p);
    JoinSplit(content);
    OccurrencesJoin(Split(content), p);
  }

  /** The generated text holds `gfxmode` (and `set gfxmode=`) once more
      than the font paths and the base configuration together when a
      resolution is given, and exactly as often otherwise. */
  lemma {:induction false} GfxmodeOccurrencesInText(content: string, sourceType: SourceType, resolution: Option<Size>,
                                 fonts: seq<string>, timeoutSeconds: int, p: string)
    requires IsGfxmodePattern(p)
    ensures Occurrences(GrubCfgText(content, sourceType, resolution, fonts, timeoutSeconds), p)
         == (if resolution.Some? then 1 else 0) + SumOccurrences(fonts, p) + Occurrences(content, p)
  {
    PatternChars(p);
    GrubCfgTextIsOutputLines(content, sourceType, resolution, fonts, timeoutSeconds);
    OccurrencesJoin(OutputLines(content, sourceType, resolution, fonts, timeoutSeconds), p);
    OutputLinesOccurrences(content, sourceType, resolution, fonts, timeoutSeconds, p);
    ContentOccurrences(content, p);
  }

  /** Without a resolution, and with a base configuration and font paths
      that do not mention it, the output never mentions `gfxmode`. */
  lemma {:induction false} NoGfxmodeWithoutResolution(content: string, sourceType: SourceType, fonts: seq<string>,
                                   timeoutSeconds: int)
    requires Occurrences(content, Gfxmode) == 0 && SumOccurrences(fonts, Gfxmode) == 0
    ensures Occurrences(GrubCfgText(content, sourceType, None, fonts, timeoutSeconds), Gfxmode) == 0
  {
    GfxmodeOccurrencesInText(content, sourceType, None, fonts, timeoutSeconds, Gfxmode);
  }

  /** With a resolution, and a base configuration and font paths without a
      mode assignment of their own, the output assigns the mode exactly once. */
  lemma {:induction false} OneGfxmodeAssignmentWithResolution(content: string, sourceType: SourceType, size: Size,
                                           fonts: seq<string>, timeoutSeconds: int)
    requires Occurrences(content, GfxmodePrefix) == 0 && SumOccurrences(fonts, GfxmodePrefix) == 0
    ensures Occurrences(GrubCfgText(content, sourceType, Some(size), fonts, timeoutSeconds),
                        GfxmodePrefix) == 1
  {
    GfxmodeOccurrencesInText(content, sourceType, Some(size), fonts, timeoutSeconds, GfxmodePrefix);
  }

  /** An empty base configuration with the resolution 1024x768 yields one
      mode assignment; without a resolution, no mention of the mode. */
  lemma {:induction false} GfxmodeExamples()
    ensures Occurrences(GrubCfgText("", Directory, Some(Size(1024, 768)), [], 123), GfxmodePrefix) == 1
    ensures Occurrences(GrubCfgText("", Directory, None, [], 123), Gfxmode) == 0
    ensures GfxmodeLine(Size(1024, 768)) == "set gfxmode=1024x768"
  {
    GfxmodeLineExample();
    OneGfxmodeAssignmentWithResolution("", Directory, Size(1024, 768), [], 123);
    NoGfxmodeWithoutResolution("", Directory, [], 123);
  }

  lemma {:induction false} GfxmodeLineExample()
    ensures GfxmodeLine(Size(1024, 768)) == "set gfxmode=1024x768"
  {
    assert NatToString(1) == "1" && NatToString(7) == "7";
    assert NatToString(10) == "10" && NatToString(76) == "76";
    assert NatToString(102) == "102" && NatToString(768) == "768";
    assert NatToString(1024) == "1024";
  }
}
