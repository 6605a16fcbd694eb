/** The `grub.cfg` the rescue image boots with: a prolog that loads the
    theme's fonts and the graphics modules, the base configuration with its
    root assignments neutralised, and an epilog with a fallback menu, the
    timeout and the theme directive. */
module Synthesis {
  import opened Wrappers
  import opened Text
  import opened Decimal
  import opened SourceKinds
  import opened Arguments
  import opened RootNeutralisation

  /** Loading a font file given relative to GRUB's `$prefix`. */
  function LoadFont(path: string): string {
    "loadfont $prefix/" + path
  }

  const LoadUnicodeFont: string := LoadFont("fonts/unicode.pf2")
  const TerminalOutputGfxterm: string := "terminal_output gfxterm"
  function Insmod(name: string): string {
    "insmod " + name
  }

  /** The GRUB modules for graphics output and the three image formats. */
  const InsmodLines: seq<string> :=
    [Insmod("all_video"), Insmod("gfxterm"), Insmod("png"), Insmod("tga"), Insmod("jpeg")]
  /** A menu that is there whatever the base configuration holds, and the
      entry selected first. */
  const FallbackMenuLines: seq<string> :=
    ["submenu 'Reboot / Shutdown' {", "    menuentry Reboot { reboot }",
     "    menuentry Shutdown { halt }", "}", "", "set default=0"]

  const TimeoutPrefix: string := "set timeout="
  const GfxmodePrefix: string := "set gfxmode="

  /** Loading one of the theme's fonts, given relative to the theme directory. */
  function FontLoad(relativePath: string): string {
    LoadFont(PathFullTheme + "/" + relativePath)
  }

  /** One load per theme font, in the order given. */
  function FontLoads(fonts: seq<string>): (r: seq<string>)
    ensures |r| == |fonts|
  {
    if |fonts| == 0 then [] else FontLoads(fonts[..|fonts| - 1]) + [FontLoad(fonts[|fonts| - 1])]
  }

  lemma {:induction false} FontLoadsAt(fonts: seq<string>)
    ensures forall i :: 0 <= i < |fonts| ==> FontLoads(fonts)[i] == FontLoad(fonts[i])
    decreases |fonts|
  {
    if |fonts| > 0 {
      var init := fonts[..|fonts| - 1];
      FontLoadsAt(init);
      forall i | 0 <= i < |init|
        ensures FontLoads(fonts)[i] == FontLoad(fonts[i])
      {
        assert FontLoads(fonts)[i] == FontLoads(init)[i];
        assert fonts[i] == init[i];
      }
    }
  }

  /** `set gfxmode=<W>x<H>`. */
  function GfxmodeLine(size: Size): string {
    GfxmodePrefix + NatToString(size.width) + "x" + NatToString(size.height)
  }

  /** `set timeout=<n>`, with `n` written the way `%d` writes it. */
  function TimeoutLine(seconds: int): string {
    TimeoutPrefix + IntToString(seconds)
  }

  /** The theme directory's `theme.txt`, or the embedded background image. */
  function ThemeDirective(sourceType: SourceType): string {
    if sourceType == Directory then "set theme=$prefix/" + PathFullTheme + "/theme.txt"
    else "background_image $prefix/" + GetImagePathFor(sourceType)
  }

  /** With a resolution, the mode is set and graphics output switched on
      before anything in the base configuration can do so. */
  function ModeLines(resolution: Option<Size>): seq<string> {
    if resolution.Some? then [GfxmodeLine(resolution.value), TerminalOutputGfxterm] else []
  }

  function PrologLines(resolution: Option<Size>, fonts: seq<string>): seq<string> {
    [LoadUnicodeFont] + FontLoads(fonts) + InsmodLines + ModeLines(resolution) + ["", ""]
  }

  function EpilogLines(sourceType: SourceType, resolution: Option<Size>, timeoutSeconds: int): seq<string> {
    [""] + FallbackMenuLines + [TimeoutLine(timeoutSeconds)]
    + (if resolution.None? then [TerminalOutputGfxterm] else [])
    + [ThemeDirective(sourceType)]
  }

  /** The generated configuration text. */
  function GrubCfgText(content: string, sourceType: SourceType, resolution: Option<Size>,
                       fonts: seq<string>, timeoutSeconds: int): string
  {
    Join(PrologLines(resolution, fonts)) + NeutraliseRoot(content)
    + Join(EpilogLines(sourceType, resolution, timeoutSeconds))
  }

  /** The prolog chunks are collected one by one (a loop over the fonts,
      then the modules, then the optional mode lines), the epilog likewise,
      and the three parts are concatenated. */
  method MakeGrubCfgLoadOurTheme(grubCfgContent: string, sourceType: SourceType,
                                 resolution: Option<Size>, fontFilesToLoad: seq<string>,
                                 timeoutSeconds: int)
    returns (cfg: string)
    ensures cfg == GrubCfgText(grubCfgContent, sourceType, resolution, fontFilesToLoad, timeoutSeconds)
  {
    var prologChunks := [LoadUnicodeFont];
    for i := 0 to |fontFilesToLoad|
      invariant prologChunks == [LoadUnicodeFont] + FontLoads(fontFilesToLoad[..i])
    {
      prologChunks := prologChunks + [FontLoad(fontFilesToLoad[i])];
      assert fontFilesToLoad[..i + 1][..i] == fontFilesToLoad[..i];
    }
    assert fontFilesToLoad[..|fontFilesToLoad|] == fontFilesToLoad;
    prologChunks := prologChunks + InsmodLines;
    ghost var modeless := prologChunks;
    if resolution.Some? {
      prologChunks := prologChunks + [GfxmodeLine(resolution.value)];
      prologChunks := prologChunks + [TerminalOutputGfxterm];
    }
    assert prologChunks == modeless + ModeLines(resolution);
    prologChunks := prologChunks + [""];
    prologChunks := prologChunks + [""];

    var epilogChunks := [""] + FallbackMenuLines + [TimeoutLine(timeoutSeconds)];
    if resolution.None? {
      epilogChunks := epilogChunks + [TerminalOutputGfxterm];
    }
    ghost var themeless := epilogChunks;
    if sourceType == Directory {
      epilogChunks := epilogChunks + ["set theme=$prefix/" + PathFullTheme + "/theme.txt"];
    } else {
      epilogChunks := epilogChunks + ["background_image $prefix/" + GetImagePathFor(sourceType)];
    }

    assert prologChunks == PrologLines(resolution, fontFilesToLoad);
    assert epilogChunks == themeless + [ThemeDirective(sourceType)];
    assert epilogChunks == EpilogLines(sourceType, resolution, timeoutSeconds);
    var body := NeutraliseRoot(grubCfgContent);
    cfg := Join(prologChunks) + body + Join(epilogChunks);
  }

  /** The lines of the generated text: the prolog (its trailing empty
      chunk only ends the last prolog line), the neutralised lines of the
      base configuration, then the epilog after its leading empty chunk. */
  function OutputLines(content: string, sourceType: SourceType, resolution: Option<Size>,
                       fonts: seq<string>, timeoutSeconds: int): (r: seq<string>)
  {
    var prolog := PrologLines(resolution, fonts);
    prolog[..|prolog| - 1] + NeutraliseLines(Split(content))
    + EpilogLines(sourceType, resolution, timeoutSeconds)[1..]
  }

  /** The text is those lines joined with newlines. */
  lemma {:induction false} GrubCfgTextIsOutputLines(content: string, sourceType: SourceType, resolution: Option<Size>,
                                 fonts: seq<string>, timeoutSeconds: int)
    ensures GrubCfgText(content, sourceType, resolution, fonts, timeoutSeconds)
         == Join(OutputLines(content, sourceType, resolution, fonts, timeoutSeconds))
  {
    PrologEndsBlank(resolution, fonts);
    EpilogStartsBlank(sourceType, resolution, timeoutSeconds);
    JoinFramed(PrologLines(resolution, fonts), NeutraliseLines(Split(content)),
               EpilogLines(sourceType, resolution, timeoutSeconds));
  }

  lemma {:induction false} PrologEndsBlank(resolution: Option<Size>, fonts: seq<string>)
    ensures |PrologLines(resolution, fonts)| >= 1
    ensures PrologLines(resolution, fonts)[|PrologLines(resolution, fonts)| - 1] == ""
  {
  }

  lemma {:induction false} EpilogStartsBlank(sourceType: SourceType, resolution: Option<Size>, timeoutSeconds: int)
    ensures |EpilogLines(sourceType, resolution, timeoutSeconds)| >= 1
    ensures EpilogLines(sourceType, resolution, timeoutSeconds)[0] == ""
  {
  }

  lemma {:induction false} FontLoadsHaveNoNewline(fonts: seq<string>)
    requires AllNoNewline(fonts)
    ensures AllNoNewline(FontLoads(fonts))
  {
    FontLoadsAt(fonts);
    forall i | 0 <= i < |fonts|
      ensures NoNewline(FontLoads(fonts)[i])
    {
      assert NoNewline(fonts[i]);
    }
  }

  lemma {:induction false} ModeLinesHaveNoNewline(resolution: Option<Size>)
    ensures AllNoNewline(ModeLines(resolution))
  {
    if resolution.Some? {
      var size := resolution.value;
      assert Canonical(NatToString(size.width)) && Canonical(NatToString(size.height));
      assert NoNewline(GfxmodeLine(size));
    }
  }

  lemma {:induction false} TimeoutLineHasNoNewline(seconds: int)
    ensures NoNewline(TimeoutLine(seconds))
  {
    assert Canonical(NatToString(if seconds < 0 then -seconds else seconds));
  }

  lemma {:induction false} FixedLinesHaveNoNewline()
    ensures NoNewline(LoadUnicodeFont) && NoNewline(TerminalOutputGfxterm)
    ensures AllNoNewline(InsmodLines)
    ensures AllNoNewline(FallbackMenuLines)
  {
    InsmodLinesHaveNoNewline();
    FallbackMenuHasNoNewline();
  }

  lemma {:induction false} InsmodLinesHaveNoNewline()
    ensures AllNoNewline(InsmodLines)
  {
  }

  lemma {:induction false} FallbackMenuHasNoNewline()
    ensures AllNoNewline(FallbackMenuLines)
  {
    forall i | 0 <= i < |FallbackMenuLines|
      ensures NoNewline(FallbackMenuLines[i])
    {
    }
  }

  lemma {:induction false} ThemeDirectiveHasNoNewline(sourceType: SourceType)
    ensures NoNewline(ThemeDirective(sourceType))
  {
    assert NoNewline("set theme=$prefix/") && NoNewline("/theme.txt");
    assert NoNewline("background_image $prefix/");
    assert NoNewline(PathFullTheme) && NoNewline(GetImagePathFor(sourceType));
  }

  lemma {:induction false} GeneratedLinesHaveNoNewline(sourceType: SourceType, resolution: Option<Size>,
                                    fonts: seq<string>, timeoutSeconds: int)
    requires AllNoNewline(fonts)
    ensures AllNoNewline(PrologLines(resolution, fonts))
    ensures AllNoNewline(EpilogLines(sourceType, resolution, timeoutSeconds))
  {
    FixedLinesHaveNoNewline();
    FontLoadsHaveNoNewline(fonts);
    ModeLinesHaveNoNewline(resolution);
    TimeoutLineHasNoNewline(timeoutSeconds);
    ThemeDirectiveHasNoNewline(sourceType);
    var unicode, fontLoads, mode := [LoadUnicodeFont], FontLoads(fonts), ModeLines(resolution);
    AllNoNewlineAppend(unicode, fontLoads);
    AllNoNewlineAppend(unicode + fontLoads, InsmodLines);
    AllNoNewlineAppend(unicode + fontLoads + InsmodLines, mode);
    AllNoNewlineAppend(unicode + fontLoads + InsmodLines + mode, ["", ""]);
    var timeout := [TimeoutLine(timeoutSeconds)];
    var gfxterm: seq<string> := if resolution.None? then [TerminalOutputGfxterm] else [];
    var theme := [ThemeDirective(sourceType)];
    AllNoNewlineAppend([""], FallbackMenuLines);
    AllNoNewlineAppend([""] + FallbackMenuLines, timeout);
    AllNoNewlineAppend([""] + FallbackMenuLines + timeout, gfxterm);
    AllNoNewlineAppend([""] + FallbackMenuLines + timeout + gfxterm, theme);
  }

  /** No output line holds a newline, as long as no font path does. */
  lemma {:induction false} OutputLinesHaveNoNewline(content: string, sourceType: SourceType, resolution: Option<Size>,
                                 fonts: seq<string>, timeoutSeconds: int)
    requires AllNoNewline(fonts)
    ensures AllNoNewline(OutputLines(content, sourceType, resolution, fonts, timeoutSeconds))
  {
    var prolog := PrologLines(resolution, fonts);
    var epilog := EpilogLines(sourceType, resolution, timeoutSeconds);
    var body := NeutraliseLines(Split(content));
    GeneratedLinesHaveNoNewline(sourceType, resolution, fonts, timeoutSeconds);
    NeutraliseRootByLine(content);
    SplitNoNewline(NeutraliseRoot(content));
    AllNoNewlineSlice(prolog, 0, |prolog| - 1);
    AllNoNewlineSlice(epilog, 1, |epilog|);
    AllNoNewlineAppend(prolog[..|prolog| - 1], body);
    AllNoNewlineAppend(prolog[..|prolog| - 1] + body, epilog[1..]);
  }

  /** Splitting the generated text at newlines gives back exactly those
      lines, as long as no font path holds a newline. */
  lemma {:induction false} SplitGrubCfgText(content: string, sourceType: SourceType, resolution: Option<Size>,
                         fonts: seq<string>, timeoutSeconds: int)
    requires AllNoNewline(fonts)
    ensures Split(GrubCfgText(content, sourceType, resolution, fonts, timeoutSeconds))
         == OutputLines(content, sourceType, resolution, fonts, timeoutSeconds)
  {
    GrubCfgTextIsOutputLines(content, sourceType, resolution, fonts, timeoutSeconds);
    OutputLinesHaveNoNewline(content, sourceType, resolution, fonts, timeoutSeconds);
    SplitJoin(OutputLines(content, sourceType, resolution, fonts, timeoutSeconds));
  }
}
