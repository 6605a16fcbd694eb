/** Choosing the configuration the generated one is built around: an
    explicitly named file, which must exist, or else the first readable
    file of the distribution defaults, and a built-in menu of dummy entries
    when nothing can be read. The file system is a value: a map from path
    to the state of the file there, a path outside it naming no file. */
module BaseConfig {
  import opened Wrappers
  import opened Text
  import opened Decimal
  import opened SourceKinds
  import opened Arguments
  import opened RootNeutralisation
  import opened Synthesis

  /** A file that exists: one whose content can be read, or one whose
      opening or reading fails (a directory, no permission, ...). */
  datatype FileState = Readable(content: string) | Unreadable(reason: string)

  type FileSystem = map<string, FileState>

  predicate IsReadable(fs: FileSystem, path: string) {
    path in fs && fs[path].Readable?
  }

  /** What the selection ends in: the process exiting with a status and a
      message on standard error, or a configuration text. */
  datatype Outcome = Fatal(code: int, message: string) | Config(text: string)

  /** Where GRUB 2 keeps its configuration on distributions naming it
      `grub2` and on those naming it `grub`, tried in this order. */
  const DefaultCandidates: seq<string> := ["/boot/grub2/grub.cfg", "/boot/grub/grub.cfg"]

  /** `errno.ENOENT` and its `os.strerror` text on Linux. */
  const ENOENT: int := 2
  const NoSuchFile: string := "No such file or directory"

  function MissingFileMessage(path: string): (message: string)
    ensures EndsWith(message, "'" + path + "'")
  {
    var message := "ERROR: [Errno " + IntToString(ENOENT) + "] " + NoSuchFile + ": '" + path + "'";
    assert message[|message| - |"'" + path + "'"|..] == "'" + path + "'";
    message
  }

  /** One entry of the built-in menu, as dedented: its header, a body
      that reboots, the closing brace and a blank line. */
  function DummyEntry(header: string): seq<string> {
    [header, "    reboot", "}", ""]
  }

  const DebianHeader: string :=
    "menuentry 'Debian'" + " --class debian" + " --class gnu-linux" + " --class linux"
    + " --class gnu" + " --class os {"
  const GentooHeader: string :=
    "menuentry 'Gentoo'" + " --class gentoo" + " --class gnu-linux" + " --class linux"
    + " --class gnu" + " --class os {"
  const MemtestHeader: string := "menuentry \"Memtest86+\" {"

  /** The lines of the built-in menu; the last entry's blank line makes
      the text end in a newline. */
  const DummyMenuLines: seq<string> :=
    DummyEntry(DebianHeader) + DummyEntry(GentooHeader) + DummyEntry(MemtestHeader)

  function DummyMenuEntries(): string {
    Join(DummyMenuLines)
  }

  /** The candidates tried in order: a missing one is fatal when
      `failIfMissing` and skipped otherwise, an unreadable one is skipped,
      the first readable one is used, and the dummy menu when none is. */
  function BaseContent(candidates: seq<string>, failIfMissing: bool, fs: FileSystem): (r: Outcome)
    ensures r.Fatal? ==> failIfMissing && r.code == 1
    ensures r.Fatal? ==>
              exists i :: 0 <= i < |candidates| && candidates[i] !in fs
                          && r.message == MissingFileMessage(candidates[i])
    ensures r.Config? ==>
              r.text == DummyMenuEntries()
              || exists i :: 0 <= i < |candidates| && IsReadable(fs, candidates[i])
                             && r.text == fs[candidates[i]].content
    decreases |candidates|
  {
    if |candidates| == 0 then Config(DummyMenuEntries())
    else
      var candidate := candidates[0];
      if candidate !in fs then
        if failIfMissing then Fatal(1, MissingFileMessage(candidate))
        else SkipFirst(candidates, failIfMissing, fs)
      else if fs[candidate].Readable? then Config(fs[candidate].content)
      else SkipFirst(candidates, failIfMissing, fs)
  }

  /** The outcome of trying all candidates but the first. */
  function SkipFirst(candidates: seq<string>, failIfMissing: bool, fs: FileSystem): (r: Outcome)
    requires |candidates| > 0
    ensures r == BaseContent(candidates[1..], failIfMissing, fs)
    ensures r.Fatal? ==> failIfMissing && r.code == 1
    ensures r.Fatal? ==>
              exists i :: 0 <= i < |candidates| && candidates[i] !in fs
                          && r.message == MissingFileMessage(candidates[i])
    ensures r.Config? ==>
              r.text == DummyMenuEntries()
              || exists i :: 0 <= i < |candidates| && IsReadable(fs, candidates[i])
                             && r.text == fs[candidates[i]].content
    decreases |candidates|, 0
  {
    var rest := candidates[1..];
    assert forall i :: 0 <= i < |rest| ==> rest[i] == candidates[i + 1];
    BaseContent(rest, failIfMissing, fs)
  }

  /** An explicitly named file is the only candidate and must exist; the
      defaults are tried otherwise, and may all be missing. */
  function SelectBaseConfig(sourceGrubCfg: Option<string>, fs: FileSystem): (r: Outcome)
    ensures r.Fatal? <==> sourceGrubCfg.Some? && sourceGrubCfg.value !in fs
    ensures r.Fatal? ==> r == Fatal(1, MissingFileMessage(sourceGrubCfg.value))
  {
    if sourceGrubCfg.Some? then BaseContent([sourceGrubCfg.value], true, fs)
    else BaseContent(DefaultCandidates, false, fs)
  }

  /** The whole configuration, or the fatal exit. */
  function FinalOutcome(sourceType: SourceType, sourceGrubCfg: Option<string>,
                        resolution: Option<Size>, fonts: seq<string>, timeoutSeconds: int,
                        fs: FileSystem): Outcome
  {
    match SelectBaseConfig(sourceGrubCfg, fs)
    case Fatal(code, message) => Fatal(code, message)
    case Config(content) => Config(GrubCfgText(content, sourceType, resolution, fonts, timeoutSeconds))
  }

  method MakeFinalGrubCfgContent(sourceType: SourceType, sourceGrubCfg: Option<string>,
                                 resolution: Option<Size>, fonts: seq<string>, timeoutSeconds: int,
                                 fs: FileSystem)
    returns (r: Outcome)
    ensures r == FinalOutcome(sourceType, sourceGrubCfg, resolution, fonts, timeoutSeconds, fs)
  {
    var filesToTryToRead: seq<string>;
    var failIfMissing: bool;
    if sourceGrubCfg.Some? {
      filesToTryToRead := [sourceGrubCfg.value];
      failIfMissing := true;
    } else {
      filesToTryToRead := DefaultCandidates;
      failIfMissing := false;
    }
    ghost var selected := BaseContent(filesToTryToRead, failIfMissing, fs);
    assert selected == SelectBaseConfig(sourceGrubCfg, fs);
    var content: string;
    var read := false;
    var i := 0;
    while i < |filesToTryToRead|
      invariant 0 <= i <= |filesToTryToRead|
      invariant selected == BaseContent(filesToTryToRead[i..], failIfMissing, fs)
    {
      var candidate := filesToTryToRead[i];
      assert filesToTryToRead[i..][1..] == filesToTryToRead[i + 1..];
      BaseContentStep(filesToTryToRead[i..], failIfMissing, fs);
      if candidate !in fs {
        if failIfMissing {
          FinalOutcomeOfSelection(sourceType, sourceGrubCfg, resolution, fonts, timeoutSeconds, fs);
          return Fatal(1, MissingFileMessage(candidate));
        }
      } else if fs[candidate].Readable? {
        content := fs[candidate].content;
        read := true;
        break;
      }
      i := i + 1;
    }
    if !read {
      content := DummyMenuEntries();
    }
    assert selected == Config(content);
    FinalOutcomeOfSelection(sourceType, sourceGrubCfg, resolution, fonts, timeoutSeconds, fs);
    r := Config(GrubCfgText(content, sourceType, resolution, fonts, timeoutSeconds));
  }

  /** The final outcome follows the selected base configuration. */
  lemma {:induction false} FinalOutcomeOfSelection(sourceType: SourceType, sourceGrubCfg: Option<string>,
                                                   resolution: Option<Size>, fonts: seq<string>,
                                                   timeoutSeconds: int, fs: FileSystem)
    ensures var selected := SelectBaseConfig(sourceGrubCfg, fs);
      FinalOutcome(sourceType, sourceGrubCfg, resolution, fonts, timeoutSeconds, fs)
      == if selected.Fatal? then selected
         else Config(GrubCfgText(selected.text, sourceType, resolution, fonts, timeoutSeconds))
  {
  }

  /** One step of `BaseContent`: the first candidate decides, or is skipped. */
  lemma {:induction false} BaseContentStep(candidates: seq<string>, failIfMissing: bool, fs: FileSystem)
    requires |candidates| > 0
    ensures candidates[0] !in fs && failIfMissing
            ==> BaseContent(candidates, failIfMissing, fs) == Fatal(1, MissingFileMessage(candidates[0]))
    ensures IsReadable(fs, candidates[0])
            ==> BaseContent(candidates, failIfMissing, fs) == Config(fs[candidates[0]].content)
    ensures (candidates[0] !in fs && !failIfMissing) || (candidates[0] in fs && fs[candidates[0]].Unreadable?)
            ==> BaseContent(candidates, failIfMissing, fs) == BaseContent(candidates[1..], failIfMissing, fs)
  {
  }

  /** A named file that exists but cannot be read gives way to the dummy
      menu; one that can be read is used as it is. */
  lemma {:induction false} ExplicitExistingFile(path: string, fs: FileSystem)
    requires path in fs
    ensures fs[path].Unreadable? ==> SelectBaseConfig(Some(path), fs) == Config(DummyMenuEntries())
    ensures fs[path].Readable? ==> SelectBaseConfig(Some(path), fs) == Config(fs[path].content)
  {
    assert [path][1..] == [];
  }

  /** Without a named file the run never ends in an error. */
  lemma {:induction false} DefaultsNeverFatal(candidates: seq<string>, fs: FileSystem)
    ensures BaseContent(candidates, false, fs).Config?
    decreases |candidates|
  {
    if |candidates| > 0 {
      DefaultsNeverFatal(candidates[1..], fs);
    }
  }

  /** The first readable candidate is used, whatever precedes it. */
  lemma {:induction false} FirstReadableChosen(candidates: seq<string>, failIfMissing: bool,
                                               fs: FileSystem, k: int)
    requires 0 <= k < |candidates| && IsReadable(fs, candidates[k])
    requires forall j :: 0 <= j < k ==>
               !IsReadable(fs, candidates[j]) && (failIfMissing ==> candidates[j] in fs)
    ensures BaseContent(candidates, failIfMissing, fs) == Config(fs[candidates[k]].content)
    decreases k
  {
    if k > 0 {
      var rest := candidates[1..];
      forall j | 0 <= j < k - 1
        ensures !IsReadable(fs, rest[j]) && (failIfMissing ==> rest[j] in fs)
      {
        assert rest[j] == candidates[j + 1];
      }
      FirstReadableChosen(rest, failIfMissing, fs, k - 1);
    }
  }

  /** Candidates that are all missing or unreadable, none fatally, give
      the dummy menu. */
  lemma {:induction false} NoneReadableGivesDummy(candidates: seq<string>, failIfMissing: bool,
                                                  fs: FileSystem)
    requires forall j :: 0 <= j < |candidates| ==> !IsReadable(fs, candidates[j])
    requires failIfMissing ==> forall j :: 0 <= j < |candidates| ==> candidates[j] in fs
    ensures BaseContent(candidates, failIfMissing, fs) == Config(DummyMenuEntries())
    decreases |candidates|
  {
    if |candidates| > 0 {
      var rest := candidates[1..];
      assert forall j :: 0 <= j < |rest| ==> rest[j] == candidates[j + 1];
      NoneReadableGivesDummy(rest, failIfMissing, fs);
    }
  }

  /** The defaults: `grub2` before `grub`, the dummy menu when neither
      can be read. */
  lemma {:induction false} DefaultOrder(fs: FileSystem)
    ensures IsReadable(fs, DefaultCandidates[0]) ==>
              SelectBaseConfig(None, fs) == Config(fs[DefaultCandidates[0]].content)
    ensures !IsReadable(fs, DefaultCandidates[0]) && IsReadable(fs, DefaultCandidates[1]) ==>
              SelectBaseConfig(None, fs) == Config(fs[DefaultCandidates[1]].content)
    ensures !IsReadable(fs, DefaultCandidates[0]) && !IsReadable(fs, DefaultCandidates[1]) ==>
              SelectBaseConfig(None, fs) == Config(DummyMenuEntries())
  {
    var cs := DefaultCandidates;
    if IsReadable(fs, cs[0]) {
      FirstReadableChosen(cs, false, fs, 0);
    } else if IsReadable(fs, cs[1]) {
      FirstReadableChosen(cs, false, fs, 1);
    } else {
      NoneReadableGivesDummy(cs, false, fs);
    }
  }

  predicate NoneHolds(lines: seq<string>, c: char) {
    forall i :: 0 <= i < |lines| ==> c !in lines[i]
  }

  lemma {:induction false} NoneHoldsAppend(a: seq<string>, b: seq<string>, c: char)
    requires NoneHolds(a, c) && NoneHolds(b, c)
    ensures NoneHolds(a + b, c)
  {
    forall i | 0 <= i < |a + b|
      ensures c !in (a + b)[i]
    {
      if i >= |a| {
        assert (a + b)[i] == b[i - |a|];
      }
    }
  }

  lemma {:induction false} DummyEntryLacks(header: string, c: char)
    requires c !in header && (c == Newline || c == '=')
    ensures NoneHolds(DummyEntry(header), c)
  {
  }

  lemma {:induction false} DummyEntryCount(header: string)
    requires StartsWith(header, "menuentry ")
    ensures CountStartingWith(DummyEntry(header), "menuentry ") == 1
  {
    var entry := DummyEntry(header);
    var rest := entry[1..];
    forall i | 0 <= i < |rest|
      ensures !StartsWith(rest[i], "menuentry ")
    {
      assert |rest[i]| < 10 || rest[i][0] != 'm';
    }
    CountStartingWithAbsent(rest, "menuentry ");
  }

  lemma {:induction false} DebianHeaderLacks()
    ensures Newline !in DebianHeader && '=' !in DebianHeader
  {
  }

  lemma {:induction false} GentooHeaderLacks()
    ensures Newline !in GentooHeader && '=' !in GentooHeader
  {
  }

  lemma {:induction false} MemtestHeaderLacks()
    ensures Newline !in MemtestHeader && '=' !in MemtestHeader
  {
  }

  lemma {:induction false} HeadersStartEntries()
    ensures StartsWith(DebianHeader, "menuentry ") && StartsWith(GentooHeader, "menuentry ")
    ensures StartsWith(MemtestHeader, "menuentry ")
  {
  }

  lemma {:induction false} DummyMenuLinesLack(c: char)
    requires c == Newline || c == '='
    ensures NoneHolds(DummyMenuLines, c)
  {
    DebianHeaderLacks();
    GentooHeaderLacks();
    MemtestHeaderLacks();
    DummyEntryLacks(DebianHeader, c);
    DummyEntryLacks(GentooHeader, c);
    DummyEntryLacks(MemtestHeader, c);
    NoneHoldsAppend(DummyEntry(DebianHeader), DummyEntry(GentooHeader), c);
    NoneHoldsAppend(DummyEntry(DebianHeader) + DummyEntry(GentooHeader), DummyEntry(MemtestHeader), c);
  }

  /** Three menu entries. */
  lemma {:induction false} DummyMenuLinesCount()
    ensures CountStartingWith(DummyMenuLines, "menuentry ") == 3
  {
    var debian, gentoo, memtest := DummyEntry(DebianHeader), DummyEntry(GentooHeader), DummyEntry(MemtestHeader);
    HeadersStartEntries();
    DummyEntryCount(DebianHeader);
    DummyEntryCount(GentooHeader);
    DummyEntryCount(MemtestHeader);
    CountAppend(debian + gentoo, memtest, "", "menuentry ");
    CountAppend(debian, gentoo, "", "menuentry ");
  }

  /** Lines that hold no newline and no `=` read back from their text,
      which the root rewrite leaves as it is. */
  lemma {:induction false} PlainLinesReadBack(lines: seq<string>)
    requires |lines| >= 1 && NoneHolds(lines, Newline) && NoneHolds(lines, '=')
    ensures Split(Join(lines)) == lines
    ensures NeutraliseRoot(Join(lines)) == Join(lines)
  {
    assert AllNoNewline(lines);
    SplitJoin(lines);
    forall i | 0 <= i < |lines|
      ensures !IsRootAssignment(lines[i])
    {
      if IsRootAssignment(lines[i]) {
        RootAssignmentHoldsEquals(lines[i]);
      }
    }
    NeutraliseRootUnchanged(Join(lines));
  }

  /** The dummy text reads back as its twelve lines, three of them menu
      entries, and, holding no assignment, passes the root rewrite unchanged. */
  lemma {:induction false} DummyMenuEntriesLines()
    ensures Split(DummyMenuEntries()) == DummyMenuLines
    ensures CountStartingWith(Split(DummyMenuEntries()), "menuentry ") == 3
    ensures NeutraliseRoot(DummyMenuEntries()) == DummyMenuEntries()
  {
    DummyMenuLinesLack(Newline);
    DummyMenuLinesLack('=');
    DummyMenuLinesCount();
    PlainLinesReadBack(DummyMenuLines);
  }

  /** Dedenting keeps the closing newline of the last entry. */
  lemma {:induction false} DummyMenuEntriesEndWithNewline()
    ensures EndsWith(DummyMenuEntries(), "\n")
  {
    var entries := DummyMenuLines[..11];
    assert DummyMenuLines == entries + [""];
    JoinAppend(entries, [""]);
  }
}
