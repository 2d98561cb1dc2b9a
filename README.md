# DAC value writer, modelled in Dafny

This project models `scripts/write_DAC_values.py` from the GEM CTP7 user tools.
That script sets the nominal DAC register values of the VFAT3 front-end chips
behind one optical hybrid (board `OH`). It reads a manifest of
`REGISTER_NAME /path/to/nominal/file` lines. For each register it reads that
file's `slot<TAB>value` lines. It clamps each value into the register's
hardware range and skips slots 11 and 12. It then runs
`sed '/^REG/{s/ [0-9]\+/ VALUE/;}'` on the slot's configuration file
`config_OH{OH}_VFAT{slot}_cal.txt`: in place normally, and only printing with
`--dry_run`.

Modules, one per piece of the script:

- `PyStr` (PyStr.dfy): the Python built-ins the script relies on. These are
  iterating over a file's lines, `str.strip`, `str.split` with a separator,
  `int()` on text and `str()` on an integer.
- `DacLimits` (DacLimits.dfy): the `max_DAC_values` table, the excluded slots
  and the clamp.
- `Manifest` (Manifest.dfy): the manifest loop that builds the
  register→file dictionary. It has a functional specification
  (`ManifestEntries`) and the loop itself as a method (`ParseManifest`).
- `SedPatch` (SedPatch.dfy): the one sed program, as a pure function on a line
  and on a file's lines.
- `DacWriter` (DacWriter.dfy): the rest of the script. The run is specified as
  functions (`ApplyRecord`, `ApplyValueLines`, `ApplyRegisters`,
  `WriteDacValues`). The configuration directory is a class whose `configs`
  map sed edits in place. The script's nested loops are methods proved
  against those functions.
- `RunProperties` (RunProperties.dfy): what a whole run does and does not
  change.
- `ScriptErrors`, `Wrappers`: the exceptions that end a run, and Option/Result.

Each uncaught exception ends the run with an `Error` value. The files already
patched stay patched, and nothing after the failing line or file is applied
(`ValueLinesFirstError`, `RegistersFirstError`). A register missing from the
table is recorded and written without an upper clamp.

In three places the code does something other than what a plain reading of the
script's purpose suggests. The model follows the code in each:

- Manifest lines are split on single blanks, not on any whitespace.
  `REG␣␣/path` maps REG to the empty path, and `REG<TAB>/path` raises.
- A blank manifest line is not skipped. It raises, because `split(' ')[1]`
  is out of range.
- The sed address `/^REG/` is a prefix match. A line is patched when it
  starts with the register name, even if its first token is longer. When
  one manifest register is a prefix of another (`THR` and `THR_ARM_DAC`),
  both patch the longer register's lines. The value such a line keeps is
  then the one written last, so it depends on the order in which the
  dictionary yields its registers (`SedPatch.PrefixRegistersLastWins`).

## Model

| member | source | states |
|---|---|---|
| `DacLimits.ClampValue` | scripts/write_DAC_values.py:55-61 | A negative value becomes 0. For a register in the table, the result is at most its maximum (never above 0xff), and a value above the maximum becomes the maximum. A value in range, or any non-negative value of a register not in the table, passes through unchanged. |
| `DacLimits.MaxDacValuesTable` | scripts/write_DAC_values.py:14-31 | Every maximum in `max_DAC_values` is 0x3, 0x3f or 0xff; the registers listed twice keep 0xff. |
| `PyStr.FileLines` | scripts/write_DAC_values.py:35 | The lines a file yields: none empty, each but the last ending in a newline, no newline elsewhere, and together they concatenate back to the text. |
| `PyStr.FirstLineLength` | scripts/write_DAC_values.py:35 | The first line runs up to and including the first newline, or to the end of the text. |
| `PyStr.StripLeftSuffix` | scripts/write_DAC_values.py:38 | `lstrip` keeps the longest suffix that does not start with a stripped character, and drops only stripped characters. |
| `PyStr.StripRightPrefix` | scripts/write_DAC_values.py:38 | `rstrip` keeps the longest prefix that does not end with a stripped character, and drops only stripped characters. |
| `PyStr.Strip` | scripts/write_DAC_values.py:38-40 | `s.strip(chars)`: `rstrip` after `lstrip`. The result is never longer than the text, and it neither starts nor ends with a stripped character. |
| `PyStr.StripPadded` | scripts/write_DAC_values.py:38 | Stripping padding made of stripped characters from text that neither starts nor ends with one gives the text back. |
| `PyStr.Split` | scripts/write_DAC_values.py:39-40 | `s.split(sep)` with an explicit separator always gives at least one piece; the rest of its meaning is stated by the four lemmas below. |
| `PyStr.SplitPiecesFree` | scripts/write_DAC_values.py:39-40 | No piece of `s.split(sep)` holds the separator. |
| `PyStr.SplitSingle` | scripts/write_DAC_values.py:39-40 | `s.split(sep)` has exactly one piece if and only if `sep` does not occur in `s`. |
| `PyStr.SplitThenJoin` | scripts/write_DAC_values.py:39-40 | Joining the pieces of `s.split(sep)` with `sep` gives `s` back. |
| `PyStr.SplitJoin` | scripts/write_DAC_values.py:39-40 | `split(sep)` gives pieces free of `sep`, more than one exactly when `sep` occurs, and joining them with `sep` gives the text back. |
| `PyStr.JoinSplit` | scripts/write_DAC_values.py:39-40 | The other half of the round trip: splitting a join of separator-free pieces gives the pieces back. |
| `PyStr.JoinFirstTwo` | scripts/write_DAC_values.py:39-40 | A join of two or more pieces is the first piece, the separator, the second piece, then nothing or the separator and the join of the rest. |
| `PyStr.SplitFirstTwo` | scripts/write_DAC_values.py:39-40 | Text made of two separator-free fields followed by nothing or by the separator and anything splits into those two fields first. |
| `PyStr.SplitShape` | scripts/write_DAC_values.py:39-40 | Conversely, when the separator occurs, the first two pieces are the fields before and after its first occurrence, and what follows them is nothing or the separator. |
| `PyStr.NatToDecimal` | scripts/write_DAC_values.py:66 | `str(n)`: non-empty decimal digits without a leading zero, denoting `n`. |
| `PyStr.ParseInt` | scripts/write_DAC_values.py:52-53 | `int()` on text: it succeeds exactly when the text, stripped of whitespace, is decimal digits with at most one leading sign. The number it gives is the value of those digits, negated exactly when the sign is `-`, so leading zeros, `+7` and `-0` read as 5, 7 and 0. |
| `PyStr.ParseIntRoundTrip` | scripts/write_DAC_values.py:52-53 | `int()` reads back what `str()` writes, with any whitespace around it (for example the newline after the value). |
| `PyStr.ParseIntLeadingZero` | scripts/write_DAC_values.py:52-53 | `int("05")` is 5 and `int(" 12\n")` is 12. |
| `PyStr.ParseIntSigned` | scripts/write_DAC_values.py:52-53 | `int("+7")` is 7 and `int("-0")` is 0. |
| `PyStr.FileLinesSingle` | scripts/write_DAC_values.py:35 | A text of one newline-terminated line yields exactly that line. |
| `PyStr.FileLinesCons` | scripts/write_DAC_values.py:35 | The first line of a text followed by the lines of the rest has the properties of a file's lines: none empty, each but the last ending in its only newline, together the whole text. |
| `Manifest.ParseManifestLine` | scripts/write_DAC_values.py:36-40 | One pass of the manifest loop's body: a line contributes nothing exactly when it starts with `#`, and the only error it raises is the IndexError for that line. Which entry a line gives is stated by `ManifestLineEntry` and `ManifestLineOfFields`. |
| `Manifest.ManifestLineFailsIff` | scripts/write_DAC_values.py:36-40 | A manifest line raises exactly when it is not a comment and, after stripping, holds no blank. |
| `Manifest.BlankLineRaises` | scripts/write_DAC_values.py:38-40 | A line of blanks (with or without a newline) raises IndexError; it is not skipped. |
| `Manifest.ParseManifest` | scripts/write_DAC_values.py:33-45 | The manifest loop builds exactly the map `ManifestEntries` specifies, or stops with the same error. |
| `Manifest.ManifestEntries` | scripts/write_DAC_values.py:33-45 | The dictionary after reading the lines in turn, or the exception the loop stopped on. It has no contract of its own: `ManifestKeys`, `ManifestLastWins` and `ManifestFailsIff` state which registers it holds, which path each gets and when it fails. |
| `Manifest.AddLineEntry` | scripts/write_DAC_values.py:45 | One assignment `nominal_DAC_value_files[first] = second` adds the declared register with its path and keeps every other entry. |
| `Manifest.AddLine` | scripts/write_DAC_values.py:36-45 | One pass of the loop: after an error nothing more happens, a comment changes nothing, and the pass raises exactly when an earlier one did or this line does. `AddLineEntry` states what a recorded entry does to the dictionary. |
| `Manifest.ManifestFailureSticks` | scripts/write_DAC_values.py:35-45 | Once a prefix of the manifest raises, the lines after it do not matter. |
| `Manifest.CommentLineIgnored` | scripts/write_DAC_values.py:36-37 | A line starting with `#`, wherever it stands, changes neither the map nor the error. |
| `Manifest.ManifestFailsIff` | scripts/write_DAC_values.py:38-40 | The manifest raises exactly when one of its lines does, and with the first such line's error. |
| `Manifest.ManifestKeys` | scripts/write_DAC_values.py:39-45 | The map's keys are exactly the registers some line declares. |
| `Manifest.ManifestLastWins` | scripts/write_DAC_values.py:45 | Each register maps to the path on the last line that declares it. |
| `Manifest.ManifestLastWinsAt` | scripts/write_DAC_values.py:45 | The same, for one register and the last line that declares it. |
| `Manifest.ManifestLineRoundTrip` | scripts/write_DAC_values.py:38-40 | `NAME PATH`, with or without a newline, parses to the entry (NAME, PATH). |
| `Manifest.ManifestLineEntry` | scripts/write_DAC_values.py:38-40 | For any line that gives an entry (NAME, PATH): once stripped, the line is `NAME PATH` followed by nothing or by a blank and anything, and neither NAME nor PATH holds a blank. |
| `Manifest.ManifestLineOfFields` | scripts/write_DAC_values.py:36-40 | Conversely, a non-comment line whose stripped text has that shape gives exactly the entry (NAME, PATH): token 0 maps to token 1, whatever follows. |
| `Manifest.DoubleBlankGivesEmptyPath` | scripts/write_DAC_values.py:38-40 | `REG␣␣/path` gives the entry (REG, ""). |
| `Manifest.TrailingBlankIgnored` | scripts/write_DAC_values.py:38-40 | `NAME PATH␣` before the newline gives (NAME, PATH): the trailing blank is split off as a third, empty token. |
| `Manifest.DeclaredNameHasNoBlank` | scripts/write_DAC_values.py:39 | The register a line declares contains no blank. |
| `Manifest.ManifestKeysHaveNoBlank` | scripts/write_DAC_values.py:39-45 | No register name in a parsed manifest contains a blank. |
| `Manifest.EveryRegisterRecorded` | scripts/write_DAC_values.py:42-45 | Appending `NAME PATH` maps NAME to PATH whatever NAME is: a register absent from the table is recorded as well. |
| `Manifest.ManifestOfOneLine` | scripts/write_DAC_values.py:33-45 | A manifest of the single line `NAME PATH` gives the map {NAME: PATH}. |
| `SedPatch.FindNumber` | scripts/write_DAC_values.py:68 | The leftmost position of ` [0-9]` in the line, or none. |
| `SedPatch.DigitRunEnd` | scripts/write_DAC_values.py:68 | `[0-9]\+` matches the longest run of digits. |
| `SedPatch.Substitute` | scripts/write_DAC_values.py:68 | `s/ [0-9]\+/ TEXT/`: with no blank-then-digit match the line is unchanged. Otherwise the line up to the matched blank and the line after the digit run are kept, and TEXT stands in between. |
| `SedPatch.PatchLine` | scripts/write_DAC_values.py:66-68 | `/^REG/{s/ [0-9]\+/ VALUE/;}` on one line. A line not starting with REG, or with no number field, is unchanged. A REG without blanks stays the line's prefix. |
| `SedPatch.PatchFile` | scripts/write_DAC_values.py:66-68 | sed keeps the number of lines, leaves every line that does not start with the register name as it is, and patches the others one by one. |
| `SedPatch.SubstituteFindsSameField` | scripts/write_DAC_values.py:68 | After the substitution, the first number field is still at the same place and is exactly the new digits; the text before and after is untouched. |
| `SedPatch.FirstNumberIs` | scripts/write_DAC_values.py:68 | The first blank-then-digit match is at `i` when there is one at `i` and none earlier. |
| `SedPatch.DigitRunEndIs` | scripts/write_DAC_values.py:68 | `[0-9]\+` stops exactly where the run of digits ends. |
| `SedPatch.SamePrefixSameNumber` | scripts/write_DAC_values.py:68 | Two lines that agree up to the first match of one, and continue with a digit, have the same first match. |
| `SedPatch.DigitsThenNonDigit` | scripts/write_DAC_values.py:68 | Digits followed by a non-digit or by the end are exactly the run `[0-9]\+` matches. |
| `SedPatch.StartsWith` | scripts/write_DAC_values.py:66-68 | The address `/^REG/`: the line's first characters are the register name, whatever follows them. |
| `SedPatch.SubstituteKeepsPrefix` | scripts/write_DAC_values.py:68 | A register name without blanks stays the line's prefix after the substitution. |
| `SedPatch.SubstituteReadBack` | scripts/write_DAC_values.py:68 | The substituted field reads back as the number its digits denote. |
| `SedPatch.PatchLineReadBack` | scripts/write_DAC_values.py:66-68 | On a register line with a number field, the patch keeps the register prefix. The field reads back as the value, and every character before and after the field is unchanged. |
| `SedPatch.PatchLineNoField` | scripts/write_DAC_values.py:68 | A line with no blank followed by digits is left unchanged. |
| `SedPatch.PatchLineLastWins` | scripts/write_DAC_values.py:68 | Patching with v1 then v2 equals patching with v2. |
| `SedPatch.PatchLineIdempotent` | scripts/write_DAC_values.py:68 | Patching twice with the same value equals patching once. |
| `SedPatch.PatchFileLastWins` | scripts/write_DAC_values.py:68 | Patching a file with v1 then v2 equals patching it with v2. |
| `SedPatch.PatchFileIdempotent` | scripts/write_DAC_values.py:68 | Patching a file twice with the same value equals patching it once. |
| `SedPatch.PatchRegisterLine` | scripts/write_DAC_values.py:68 | A configuration line `REG digits` becomes `REG value`. |
| `SedPatch.PrefixRegistersLastWins` | scripts/write_DAC_values.py:47-68 | If register `short` is a prefix of `long`, both patch `long`'s lines. The line ends with whichever value was written last, and the two orders differ whenever the values do. |
| `SedPatch.PrefixRegisterSelectsLine` | scripts/write_DAC_values.py:66-68 | A register that is a prefix of `long` patches a `long` line exactly as `long` does. |
| `DacWriter.ConfigDirectory.constructor` | scripts/write_DAC_values.py:66-68 | The directory starts with the given configuration files. |
| `DacWriter.ConfigDirectory.SedInPlace` | scripts/write_DAC_values.py:67-68 | `sed -i` replaces the file with its patched lines. A missing file is left missing, because the failing shell call is ignored. |
| `DacWriter.ConfigDirectory.SedPreview` | scripts/write_DAC_values.py:65-66 | `sed` without `-i` computes the file as it would be written and changes nothing. |
| `DacWriter.ParseValueLine` | scripts/write_DAC_values.py:52-53 | A line without a tab always fails: with the ValueError of the slot's `int()` when the line is not a number, and with the IndexError exactly when it is; every error names its line. `ValueLineFields` states when a line with a tab succeeds and which record it gives. |
| `DacWriter.SedFile` | scripts/write_DAC_values.py:66-68 | sed on one configuration file: a missing file leaves every file as it was, and no other file changes. An existing file keeps its number of lines. |
| `DacWriter.ApplyRecord` | scripts/write_DAC_values.py:55-68 | One record changes no other board's or slot's file and creates no file. In dry-run mode, or for slots 11 and 12, it changes nothing. |
| `DacWriter.ApplyValueLines` | scripts/write_DAC_values.py:51-68 | The inner loop keeps the set of files. It completes exactly when every line of the nominal file parses; `ValueLinesFirstError` states how it stops otherwise. |
| `DacWriter.ApplyRegisters` | scripts/write_DAC_values.py:47-68 | The outer loop keeps the set of files. It completes exactly when every register's nominal value file exists and every line of it parses (`AllReadable`); a missing file or a malformed value line makes it raise, and `RegistersFirstError` states where it stops. |
| `DacWriter.NominalFileReadable` | scripts/write_DAC_values.py:50-53 | `open()` succeeds on the nominal value file and both `int()` calls succeed on each of its lines. |
| `DacWriter.AllReadable` | scripts/write_DAC_values.py:47-53 | The nominal value file of every register in the order is readable in that sense. |
| `DacWriter.AllReadableCons` | scripts/write_DAC_values.py:47-53 | All registers' files are readable exactly when the first register's is and all the others' are. |
| `DacWriter.WriteDacValues` | scripts/write_DAC_values.py:33-68 | The whole script keeps the set of files. A manifest error ends the run before any file changes, with that error. The run completes exactly when the manifest parses and every register's nominal value file exists and parses. |
| `DacWriter.ApplyNominalFile` | scripts/write_DAC_values.py:51-68 | The inner loop leaves the directory, and ends, as `ApplyValueLines` specifies. It parses the slot, then the value field, then the value; it zeroes negatives, skips slots 11 and 12, clamps and patches. |
| `DacWriter.RunScript` | scripts/write_DAC_values.py:33-68 | The whole script leaves the directory and ends as `WriteDacValues` specifies, for any order in which the dictionary yields its registers. |
| `RunProperties.ValueLineRoundTrip` | scripts/write_DAC_values.py:52-53 | `slot<TAB>value<NEWLINE>` parses to that slot and value. |
| `RunProperties.ValueLineFields` | scripts/write_DAC_values.py:52-53 | For `SLOT<TAB>VALUE` followed by nothing or a tab and anything: a slot that is not a number raises ValueError first, then a value that is not one; the line parses exactly when both are numbers, to the record of the two numbers. |
| `RunProperties.ValueLineExtraField` | scripts/write_DAC_values.py:52-53 | Fields after the value are ignored. |
| `RunProperties.BadSlotReportedFirst` | scripts/write_DAC_values.py:52-53 | A bad slot is reported even when the value is bad too. |
| `RunProperties.DryRunChangesNothing` | scripts/write_DAC_values.py:65-66 | In dry-run mode no configuration file changes, whatever the inputs and however the run ends. |
| `RunProperties.DryRunSameOutcome` | scripts/write_DAC_values.py:65-68 | A dry run completes or raises exactly as the real run on the same inputs does. |
| `RunProperties.ValueLinesFirstError` | scripts/write_DAC_values.py:51-53 | When line k is the first that does not parse, the inner loop raises that line's error, with the files as the records of lines 0..k-1 left them: no later record is applied. |
| `RunProperties.RegistersFirstError` | scripts/write_DAC_values.py:47-53 | When register k is the first whose nominal file is missing or holds a bad line, the outer loop raises: with MissingNominalFile on the files the registers before it left, or as that register's inner loop ends from those files. No later register is applied. |
| `RunProperties.ValueLinesOutcome` | scripts/write_DAC_values.py:51-53 | How the inner loop ends depends only on the lines, not on the files or the mode. |
| `RunProperties.RegistersOutcome` | scripts/write_DAC_values.py:47-53 | How the outer loop ends depends only on the registers and their nominal files. |
| `RunProperties.WriteDacValuesFrame` | scripts/write_DAC_values.py:47-68 | A run creates and removes no file. It never touches slots 11 and 12 or other boards, and keeps every file's line count. It changes no line that starts with none of the manifest's registers. |
| `RunProperties.RegistersFrame` | scripts/write_DAC_values.py:47-68 | The same frame for the register loop. |
| `RunProperties.ValueLinesFrame` | scripts/write_DAC_values.py:51-68 | The same frame for one register's nominal file. |
| `RunProperties.RecordFrame` | scripts/write_DAC_values.py:58-68 | The same frame for one record. |
| `RunProperties.OnlyRegisterLinesTransitive` | scripts/write_DAC_values.py:47-68 | The frame composes across successive records and registers. |
| `RunProperties.RecordLastWins` | scripts/write_DAC_values.py:51-68 | Of two records for the same slot of a register, applied one after the other, the later one alone decides the file. |
| `RunProperties.RecordsCommute` | scripts/write_DAC_values.py:51-68 | Records for different slots can be applied in either order with the same result. |
| `RunProperties.ValueLinesLastWins` | scripts/write_DAC_values.py:51-68 | Once a nominal file has been read to the end outside dry-run mode, each slot's file (except 11 and 12) is its old content patched with the clamped value of the last record for that slot. Records for other slots may stand in between. With no record for the slot, the file is unchanged. |
| `RunProperties.RecordReadBack` | scripts/write_DAC_values.py:55-68 | Outside dry-run mode and slots 11 and 12, the slot's file keeps its line count. Every line starting with the register that has a number field then reads back the clamped value. |
| `RunProperties.OneRecordRun` | scripts/write_DAC_values.py:33-68 | With manifest `NAME PATH` and nominal file `slot<TAB>value`, the run completes having applied exactly that record. |
| `RunProperties.ClampedWriteExample` | scripts/write_DAC_values.py:55-68 | Manifest `THR_ARM_DAC PATH` with nominal file `5<TAB>300`: the run completes and slot 5's `THR_ARM_DAC n` line becomes `THR_ARM_DAC 255`. |
| `RunProperties.ClampedRecordExample` | scripts/write_DAC_values.py:59-68 | The record (5, 300) of THR_ARM_DAC writes the clamped 255 into slot 5's register line. |
| `RunProperties.ExcludedSlotExample` | scripts/write_DAC_values.py:58 | Manifest `THR_ARM_DAC PATH` with nominal file `11<TAB>10`: the run completes and no file changes. |

## Left out

- `scripts/setLinks.py` is not part of this model. It only issues `cp` and `ln -sf` shell commands for 24 slots.
- Command-line parsing (scripts/write_DAC_values.py:5-11). `OH`, the manifest's text and `dry_run` are parameters.
- File I/O. The manifest and the nominal files are given as text. An unreadable manifest file is not modelled. The configuration files are a map from (board, slot) to their lines. Each line is what sed holds in its pattern space: the text without its newline. The model does not check that a line is free of newlines, so a "line" holding one is not patched the way sed would patch it. The path string `/mnt/persistent/gemdaq/vfat3/config_OH{OH}_VFAT{slot}_cal.txt` is reduced to that pair.
- Console output: the warning for a register missing from the table, the `value --> max` clamp log, and the file that a dry run's sed prints. `SedPreview` computes that file, but the model does not print it.
- sed as a regular-expression engine, and the shell. The register name is matched literally as a prefix. The register name, `OH` and the value are pasted into the command without quotes, and the path built from `OH` is unquoted too. A register name with regex metacharacters, or a register name or `OH` with a blank, a quote or another shell metacharacter, would make sed match differently or act on other files. Failures of sed other than a missing file are not modelled.
- The order of registers. Python 2 dictionaries yield keys in an unspecified order, so the run takes that order as a parameter (`order`, which must list every key once).
- `PyStr.ParseInt`: accepts surrounding whitespace, one sign and decimal digits. Looser spellings that Python 2's `int()` also takes (blanks between the sign and the digits) are treated as errors.
- Concurrency and partial writes inside one `sed -i` call. Each sed call is one atomic update of one file.
