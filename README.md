# grub2-theme-preview: the generated `grub.cfg`

grub2-theme-preview shows a GRUB 2 theme by building a rescue image whose
`grub.cfg` loads the theme and then booting that image in a virtual machine.
This project models how that `grub.cfg` text is put together, and proves
properties of the model. Everything is in `grub2_theme_preview/__main__.py`.

- **Source kind** (`SourceKinds`). A theme source is a directory, or a PNG,
  TGA or JPEG background image. The kind is decided by the lower-cased
  suffix of the path. Each image kind has a fixed place in the image.
- **Command-line values** (`Arguments`, `Decimal`):
  - `--resolution WIDTHxHEIGHT`, both sides at least 100;
  - `--timeout`, where every negative value becomes -1;
  - `--add TARGET=/SOURCE`.
- **Font order** (`FontOrder`). The theme's `*.pf2` files are loaded in
  this order: the ones in the theme directory, then the ones in its `f`
  subdirectory. Each group is sorted by lower-cased path, with a stable sort.
- **Root rewrite** (`RootNeutralisation`). Every `set root=...` line of the
  base configuration is pointed at `'hd0'`. The old value is kept in a comment.
- **Synthesis** (`Synthesis`, `Layout`, `GfxmodeOccurrences`). The output is
  three parts, in this order:
  - a prolog: the unicode font, the theme's fonts, five modules, and the
    graphics mode when a resolution is given;
  - the rewritten base configuration;
  - an epilog: a reboot/shutdown submenu, `set default=0`, the timeout,
    graphics output when no resolution is given, and the theme directive.

  The method that builds the text is proved equal to a specification
  function. Lemmas about that function state:
  - where each line sits;
  - that the theme directive, the timeout and `terminal_output gfxterm`
    are each added exactly once;
  - how often `gfxmode` occurs in the output.
- **Base configuration** (`BaseConfig`). The base configuration is one of:
  - the file named on the command line, which must exist;
  - otherwise, the first readable file of `/boot/grub2/grub.cfg` and
    `/boot/grub/grub.cfg`;
  - otherwise, a built-in menu of three dummy entries.

  The file system is a value: a map from path to file state. The candidate
  loop is proved equal to a recursive specification.

Python's own operations are written out in `Text` and `Decimal`:
- `'\n'.join` and `str.split('\n')`;
- `startswith` and `endswith`;
- `str.count`, as the number of positions where the pattern starts; Python counts non-overlapping matches, and the two agree for `gfxmode` and `set gfxmode=` because neither can overlap itself;
- `%d` and `int()`.

## Model

| member | source | states |
|---|---|---|
| `SourceKinds.ClassifySourceCases` | grub2_theme_preview/__main__.py:49-59 | each kind holds exactly the paths whose lower-cased form ends with its suffixes (`.tga`; `.png`; `.jpeg` or `.jpg`); Directory holds exactly the paths with none of them, so classification is total and the test order never matters |
| `SourceKinds.ClassifySourceIgnoresCase` | grub2_theme_preview/__main__.py:49-50 | paths that agree after lower-casing get the same kind, and a path gets the kind of its lower-cased form |
| `SourceKinds.GetImagePathFor` | grub2_theme_preview/__main__.py:62-67 | TGA maps to `themes/DEMO.tga`, JPEG to `themes/DEMO.jpeg`, anything else to `themes/DEMO.png` |
| `SourceKinds.ClassifyImagePath` | grub2_theme_preview/__main__.py:22-24 | for an image kind, the path the image is embedded under is classified as that same kind |
| `Decimal.NatToString` | grub2_theme_preview/__main__.py:136 | `%d` of a natural number is a non-empty run of ASCII digits with no leading zero |
| `Decimal.IntToString` | grub2_theme_preview/__main__.py:152 | `%d` of an integer is the digits of its magnitude, with a `-` in front exactly when it is negative |
| `Decimal.DigitsValueOfNatToString` | grub2_theme_preview/__main__.py:136 | reading the digits that `%d` writes gives back the number |
| `Decimal.NatToStringOfDigitsValue` | grub2_theme_preview/__main__.py:212-213 | a canonical run of digits, read and written again, is unchanged |
| `Decimal.ParseInt` | grub2_theme_preview/__main__.py:218 | `int()` succeeds exactly on a non-empty run of digits, possibly after one `+` or `-`; its value is the digits' decimal value, negated after `-` |
| `Decimal.ParseIntOfIntToString` | grub2_theme_preview/__main__.py:218 | `int()` of what `%d` wrote gives back the number, for every integer |
| `Arguments.ParseResolution` | grub2_theme_preview/__main__.py:208-214 | an accepted resolution has a width and a height of at least 100 each |
| `Arguments.ParseResolutionAcceptsPattern` | grub2_theme_preview/__main__.py:209-211 | a text is accepted exactly when it matches `[1-9][0-9]{2,}x[1-9][0-9]{2,}` in full |
| `Arguments.ParseResolutionOfRendered` | grub2_theme_preview/__main__.py:208-214 | a size of at least 100x100, written as `%dx%d`, is parsed back to the same size |
| `Arguments.ParseResolutionIsCanonical` | grub2_theme_preview/__main__.py:208-214 | an accepted text is exactly `%dx%d` of the size parsed from it |
| `Arguments.NormaliseTimeout` | grub2_theme_preview/__main__.py:219-220 | the result is at least -1; a non-negative value is kept; every negative value becomes -1 |
| `Arguments.Timeout` | grub2_theme_preview/__main__.py:217-221 | it fails exactly where `int()` fails; otherwise it returns the integer `int()` reads, with every negative value changed to -1 |
| `Arguments.NormaliseTimeoutIdempotent` | grub2_theme_preview/__main__.py:217-221 | normalising twice gives the same as normalising once |
| `Arguments.TimeoutFixedPoint` | grub2_theme_preview/__main__.py:217-221 | a timeout written with `%d` and converted again comes back unchanged |
| `Arguments.ContainsEqualsSlash` | grub2_theme_preview/__main__.py:238 | true exactly when `=` is directly followed by `/` somewhere in the text |
| `Arguments.ValidateGrub2MkrescueAddition` | grub2_theme_preview/__main__.py:237-240 | accepted exactly when the text holds `=/`, and then returned unchanged |
| `FontOrder.LexLeqTotal` | grub2_theme_preview/__main__.py:231 | any two sort keys are comparable under Python's string order |
| `FontOrder.LexLeqTransitive` | grub2_theme_preview/__main__.py:231 | Python's string order is transitive |
| `FontOrder.KeyLeqUnderDirectory` | grub2_theme_preview/__main__.py:231-232 | two paths under one directory compare by lower-cased form as their relative parts do |
| `FontOrder.InsertUnderDirectory` | grub2_theme_preview/__main__.py:231-232 | inserting a path under a directory into paths under it places it as inserting its relative part does |
| `FontOrder.SortedUnderDirectory` | grub2_theme_preview/__main__.py:231-232 | sorting paths under one directory by lower-cased form gives the sorted relative paths, each under that directory |
| `FontOrder.SortedByLowerPermutes` | grub2_theme_preview/__main__.py:231 | the sort returns a permutation of the matches |
| `FontOrder.SortedByLowerIsSorted` | grub2_theme_preview/__main__.py:231 | the sort's result is ordered by lower-cased path |
| `FontOrder.SortedByLowerIsStable` | grub2_theme_preview/__main__.py:231 | paths with the same lower-cased form keep their glob order |
| `FontOrder.IteratePf2FilesRelative` | grub2_theme_preview/__main__.py:224-234 | the nested loops yield the sorted matches of the theme directory, then the sorted matches of its `f` subdirectory |
| `Text.SplitJoin` | grub2_theme_preview/__main__.py:172 | splitting at newlines undoes `'\n'.join` when no line holds a newline |
| `Text.JoinSplit` | grub2_theme_preview/__main__.py:172 | joining the pieces of a split gives back the text |
| `Text.LowerIdempotent` | grub2_theme_preview/__main__.py:50 | lower-casing twice gives the same as lower-casing once |
| `RootNeutralisation.NeutraliseLineRewrites` | grub2_theme_preview/__main__.py:167-170 | blanks, `set root=` and a non-empty value become the same blanks and `set root=`, then `'hd0'  # replaced by grub2-theme-preview, was `, then the old value |
| `RootNeutralisation.NeutraliseLineChangesExactlyRootAssignments` | grub2_theme_preview/__main__.py:167-170 | a line is changed exactly when it matches `^[ \t]*set root=.+` |
| `RootNeutralisation.RootAssignmentHoldsEquals` | grub2_theme_preview/__main__.py:167 | a line the pattern matches holds an `=` |
| `RootNeutralisation.NeutraliseLineNoNewline` | grub2_theme_preview/__main__.py:167-170 | the rewrite never puts a newline into a line |
| `RootNeutralisation.NeutraliseLinesAt` | grub2_theme_preview/__main__.py:167-170 | the i-th rewritten line is the i-th line, rewritten on its own |
| `RootNeutralisation.NeutraliseRootByLine` | grub2_theme_preview/__main__.py:167-170 | the lines of the rewritten text are the original lines, each rewritten, in order, so there are as many as before |
| `RootNeutralisation.NeutraliseRootUnchanged` | grub2_theme_preview/__main__.py:167-170 | a text without a root assignment is left exactly as it was |
| `RootNeutralisation.NeutraliseLineKeepsStart` | grub2_theme_preview/__main__.py:167-170 | for a prefix that cannot begin a root assignment, a line starts with it (or equals it) after the rewrite exactly when it did before |
| `RootNeutralisation.NeutraliseLinesKeepCounts` | grub2_theme_preview/__main__.py:167-170 | the rewrite keeps the number of lines equal to, or starting with, such a prefix |
| `RootNeutralisation.NeutraliseLineExamples` | grub2_theme_preview/__main__.py:167 | `set root=` with nothing after it, and a commented-out assignment, are left alone |
| `Synthesis.FontLoadsAt` | grub2_theme_preview/__main__.py:122-123 | the i-th font load is `loadfont $prefix/themes/DEMO/` followed by the i-th font path |
| `Synthesis.MakeGrubCfgLoadOurTheme` | grub2_theme_preview/__main__.py:114-172 | the chunk-by-chunk construction, with its loop over the fonts, returns exactly the prolog lines joined, the rewritten base text, and the epilog lines joined |
| `Synthesis.PrologEndsBlank` | grub2_theme_preview/__main__.py:139-140 | the last prolog chunk is empty, so the base configuration starts on a line of its own |
| `Synthesis.EpilogStartsBlank` | grub2_theme_preview/__main__.py:142-144 | the first epilog chunk is empty, so the epilog starts right after the base text |
| `Synthesis.GrubCfgTextIsOutputLines` | grub2_theme_preview/__main__.py:172 | the text is its output lines joined with newlines: the prolog without its trailing empty chunk, the rewritten base lines, and the epilog without its leading empty chunk |
| `Synthesis.OutputLinesHaveNoNewline` | grub2_theme_preview/__main__.py:114-172 | no output line holds a newline when no font path does |
| `Synthesis.SplitGrubCfgText` | grub2_theme_preview/__main__.py:172 | when no font path holds a newline, the lines GRUB reads from the text are exactly the output lines |
| `Layout.OutputLinesParts` | grub2_theme_preview/__main__.py:172 | the output lines are the prolog part, the rewritten base lines and the epilog part, in that order |
| `Layout.PrologPartOrder` | grub2_theme_preview/__main__.py:118-140 | the prolog is the unicode font, one load per font in order, the five modules, the mode line and `terminal_output gfxterm` when there is a resolution, then a blank line; its length is counted exactly |
| `Layout.PrologOrder` | grub2_theme_preview/__main__.py:118-140 | line by line, the output starts with the unicode font, then the font loads in order, the modules, the mode lines when there is a resolution, and a blank line; the first base line follows |
| `Layout.EpilogPartOrder` | grub2_theme_preview/__main__.py:142-163 | the epilog is the six submenu and default lines, the timeout, `terminal_output gfxterm` only when there is no resolution, and the theme directive last |
| `Layout.EpilogOrder` | grub2_theme_preview/__main__.py:142-153 | 8 lines from the end (9 without a resolution), the output holds the submenu and `set default=0`, then `set timeout=` |
| `Layout.BaseBeforeEpilog` | grub2_theme_preview/__main__.py:165-172 | the last base line, rewritten, comes right before the submenu |
| `Layout.ThemeDirectiveLast` | grub2_theme_preview/__main__.py:155-163 | the theme directive is the last line; without a resolution, `terminal_output gfxterm` is the line just before it |
| `Layout.TerminalOutputOnce` | grub2_theme_preview/__main__.py:133-158 | the output has exactly one more `terminal_output gfxterm` line than the base configuration |
| `Layout.ThemeDirectiveOnce` | grub2_theme_preview/__main__.py:160-163 | the output has exactly one more theme directive line than the base configuration |
| `Layout.TimeoutOnce` | grub2_theme_preview/__main__.py:152 | the output has exactly one more line starting with `set timeout=` than the base configuration |
| `GfxmodeOccurrences.GfxmodeLineOnce` | grub2_theme_preview/__main__.py:136 | the mode line holds `gfxmode`, and `set gfxmode=`, exactly once |
| `GfxmodeOccurrences.NeutraliseLineOccurrences` | grub2_theme_preview/__main__.py:167-170 | the root rewrite neither adds nor removes an occurrence in a line |
| `GfxmodeOccurrences.NeutraliseLinesOccurrences` | grub2_theme_preview/__main__.py:167-170 | nor over all lines |
| `GfxmodeOccurrences.FontLoadsOccurrences` | grub2_theme_preview/__main__.py:122-123 | the font loads hold exactly the occurrences in the font paths |
| `GfxmodeOccurrences.OutputLinesOccurrences` | grub2_theme_preview/__main__.py:114-172 | over the output lines, the count is one with a resolution (zero without), plus the count in the font paths, plus the count in the base lines |
| `GfxmodeOccurrences.GfxmodeOccurrencesInText` | grub2_theme_preview/__main__.py:114-172 | in the generated text, `gfxmode` and `set gfxmode=` each occur: one time if there is a resolution, plus their count in the font paths, plus their count in the base configuration |
| `GfxmodeOccurrences.NoGfxmodeWithoutResolution` | grub2_theme_preview/tests/test_main.py:142-148 | with no resolution, and a base configuration and font paths that do not mention `gfxmode`, the output does not mention it |
| `GfxmodeOccurrences.OneGfxmodeAssignmentWithResolution` | grub2_theme_preview/tests/test_main.py:166-173 | with a resolution, and no `set gfxmode=` in the base configuration or the font paths, the output holds exactly one `set gfxmode=` |
| `GfxmodeOccurrences.GfxmodeExamples` | grub2_theme_preview/tests/test_main.py:142-173 | the test inputs (an empty base configuration, no fonts, timeout 123): one `set gfxmode=` and the mode line `set gfxmode=1024x768`, and no `gfxmode` without a resolution |
| `BaseConfig.MissingFileMessage` | grub2_theme_preview/__main__.py:189 | the error message ends with the missing path in quotes |
| `BaseConfig.BaseContent` | grub2_theme_preview/__main__.py:186-203 | a fatal outcome occurs only when missing files are fatal; it has status 1 and names a candidate that is missing; otherwise the text is the dummy menu or the content of a readable candidate |
| `BaseConfig.SelectBaseConfig` | grub2_theme_preview/__main__.py:176-191 | the outcome is fatal exactly when a file is named and it is missing; the fatal outcome is status 1 with the `[Errno 2]` message for that path |
| `BaseConfig.MakeFinalGrubCfgContent` | grub2_theme_preview/__main__.py:175-205 | the loop over the candidates, with its early exit and its break, returns the selected outcome; a selected base text is wrapped by the synthesis |
| `BaseConfig.ExplicitExistingFile` | grub2_theme_preview/__main__.py:193-203 | a named file that exists is used when it is readable; when it is unreadable, the dummy menu is used instead |
| `BaseConfig.DefaultsNeverFatal` | grub2_theme_preview/__main__.py:179-191 | without a named file, the selection never ends in an error |
| `BaseConfig.FirstReadableChosen` | grub2_theme_preview/__main__.py:186-200 | when every earlier candidate is unreadable or missing, and none is missing where that is fatal, the first readable candidate's content is used |
| `BaseConfig.NoneReadableGivesDummy` | grub2_theme_preview/__main__.py:197-203 | when no candidate can be read, and none is missing where that is fatal, the dummy menu is used |
| `BaseConfig.DefaultOrder` | grub2_theme_preview/__main__.py:180-203 | `/boot/grub2/grub.cfg` is used when readable; otherwise `/boot/grub/grub.cfg` is used when readable; otherwise the dummy menu |
| `BaseConfig.DummyMenuLinesCount` | grub2_theme_preview/__main__.py:98-111 | the dummy menu has three entries |
| `BaseConfig.DummyMenuEntriesLines` | grub2_theme_preview/__main__.py:98-111 | the dummy text reads back as its twelve lines, three of which start menu entries; holding no assignment, it passes the root rewrite unchanged |
| `BaseConfig.DummyMenuEntriesEndWithNewline` | grub2_theme_preview/__main__.py:98-111 | the dummy text ends with a newline |

## Left out

- Orchestration is not modelled, because it does not shape the configuration text:
  - `main` and argument parsing;
  - the platform and OVMF firmware lookup;
  - the `grub-mkrescue` and QEMU runs;
  - temporary files;
  - signal handling.
- The `INFO:` lines printed on standard output are not modelled: the unreadable candidate, the fallback notice, and each appended font. The fatal message is returned in the outcome, not printed.
- `FontOrder.IteratePf2FilesRelative`: the sort key lower-cases ASCII letters only (`Text.Lower`), while `path.lower()` covers all of Unicode. For file names with non-ASCII letters, the order and the keeping of ties differ from the source: Python puts `éa.pf2` before `Éb.pf2` and keeps `É.pf2` and `é.pf2` in glob order, while the model orders both pairs by code point.
- `FontOrder.SortedByLowerIsSorted`: the result is ordered by the ASCII-only lower-cased key, not by Python's Unicode `str.lower` key.
- `FontOrder.SortedByLowerIsStable`: ties are paths whose keys are equal under ASCII-only lower-casing; paths that tie only under Unicode lower-casing, such as `É.pf2` and `é.pf2`, are ordered by code point instead of keeping their glob order.
- `FontOrder.IteratePf2FilesRelative`: the two `glob` match lists are inputs, already relative to the theme directory. `glob` and `os.path.relpath` are not modelled, and the generator is returned as one sequence. `FontOrder.SortedUnderDirectory` shows that sorting the absolute paths gives the order of the sorted relative ones.
- `SourceKinds.ClassifySourceCases`: `Text.Lower` lower-cases ASCII letters only, while Python's `str.lower` covers all of Unicode.
- `Decimal.ParseInt` does not accept everything Python's `int()` accepts:
  - surrounding whitespace;
  - `_` digit separators;
  - non-ASCII digits.
- `Arguments.ParseResolution` rejects a text with a trailing newline such as `1024x768\n`. Python's `$` also matches just before a final newline, so `resolution('1024x768\n')` returns `(1024, 768)`; the model rejects it.
- `BaseConfig.MakeFinalGrubCfgContent` does not model a file whose bytes do not decode as text. There, `open(...).read()` raises `UnicodeDecodeError`, which is not an `IOError`, so the source stops with that exception instead of skipping the file. File contents are strings in the model.
- `BaseConfig.MissingFileMessage` fixes `os.strerror(ENOENT)` to the Linux text.
- Layout facts are stated over `Synthesis.OutputLines`:
  - `Layout.PrologOrder`, `Layout.EpilogOrder`, `Layout.BaseBeforeEpilog` and `Layout.ThemeDirectiveLast` give positions;
  - `Layout.TerminalOutputOnce`, `Layout.ThemeDirectiveOnce` and `Layout.TimeoutOnce` give counts.

  They hold for the generated text through `Synthesis.SplitGrubCfgText`, which needs font paths without newlines. A file name with a newline is left out.
- The test at `grub2_theme_preview/tests/test_main.py:150-164` expects `set gfxmode=auto` lines of the base configuration to be rewritten to the chosen resolution. `_make_grub_cfg_load_our_theme` has no such rewrite, and the model follows the code. `GfxmodeOccurrences.GfxmodeOccurrencesInText` gives the `1 + 3` count of `set gfxmode=` that the test asserts. The three `auto` assignments stay in the output, so the test's other assertions do not hold for this code.
- The dummy configuration holds only the three entries (`BaseConfig.DummyMenuEntriesLines`). The reboot/power-off submenu is in the epilog, which every output gets (`Layout.EpilogOrder`).
- A named file that exists but cannot be read is treated like any other candidate: the dummy menu is used instead (`BaseConfig.ExplicitExistingFile`). Only a named file that is missing is fatal.
- Without a resolution the code adds no `gfxmode` itself, but keeps any found in the base configuration or the font paths. `GfxmodeOccurrences.GfxmodeOccurrencesInText` states the exact count.
