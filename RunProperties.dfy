/** What a run of the DAC value writer does and does not do to the configuration files. */
module RunProperties {
  import opened Wrappers
  import opened PyStr
  import opened ScriptErrors
  import opened DacLimits
  import opened SedPatch
  import opened Manifest
  import opened DacWriter

  // ---------------------------------------------------------------------
  // Nominal value lines
  // ---------------------------------------------------------------------

  /** `str(i)` holds neither a tab nor a newline. */
  lemma DecimalHasNoTab(i: int)
    ensures '\t' !in IntToDecimal(i) && '\n' !in IntToDecimal(i)
  {
    var d := NatToDecimal(if i < 0 then -i else i);
    assert forall k :: 0 <= k < |d| ==> IsDigit(d[k]);
    if i < 0 {
      assert IntToDecimal(i) == ['-'] + d;
    }
  }

  /** A line `slot<TAB>value` as the nominal value files hold it parses back to that slot and value. */
  lemma ValueLineRoundTrip(vfat: int, value: int)
    ensures ParseValueLine(IntToDecimal(vfat) + "\t" + IntToDecimal(value) + "\n") == Success(Record(vfat, value))
  {
    var slotText, valueText := IntToDecimal(vfat), IntToDecimal(value);
    var line := slotText + "\t" + valueText + "\n";
    assert Split(line, '\t') == [slotText, valueText + "\n"] by {
      DecimalHasNoTab(vfat);
      DecimalHasNoTab(value);
      assert Join([slotText, valueText + "\n"], '\t') == line by {
        assert Join([slotText, valueText + "\n"], '\t') == slotText + ['\t'] + Join([valueText + "\n"], '\t');
      }
      JoinSplit([slotText, valueText + "\n"], '\t');
    }
    assert ParseInt(slotText) == Some(vfat) by {
      ParseIntRoundTrip(vfat, [], []);
      assert [] + slotText + [] == slotText;
    }
    assert ParseInt(valueText + "\n") == Some(value) by {
      ParseIntRoundTrip(value, [], "\n");
      assert [] + valueText + "\n" == valueText + "\n";
    }
  }

  /**
   * A line with a tab reads `SLOT<TAB>VALUE`, then nothing or a tab and
   * anything (`SplitShape`). Such a line fails on its slot before its value
   * is looked at, then on its value, and otherwise gives the record of the
   * two numbers, whatever further fields follow.
   */
  lemma ValueLineFields(line: string, slot: string, value: string, rest: string)
    requires '\t' !in slot && '\t' !in value
    requires line == slot + "\t" + value + rest
    requires rest == [] || rest[0] == '\t'
    ensures ParseInt(slot).None? ==> ParseValueLine(line) == Failure(BadSlot(line))
    ensures ParseInt(slot).Some? && ParseInt(value).None? ==> ParseValueLine(line) == Failure(BadValue(line))
    ensures ParseValueLine(line).Success? <==> ParseInt(slot).Some? && ParseInt(value).Some?
    ensures ParseValueLine(line).Success? ==>
      ParseValueLine(line).value == Record(ParseInt(slot).value, ParseInt(value).value)
  {
    SplitFirstTwo(line, '\t', slot, value, rest);
  }

  /** A third field after the value is ignored. */
  lemma ValueLineExtraField(vfat: int, value: int, extra: string)
    ensures ParseValueLine(IntToDecimal(vfat) + "\t" + IntToDecimal(value) + "\t" + extra) == Success(Record(vfat, value))
  {
    var slotText, valueText := IntToDecimal(vfat), IntToDecimal(value);
    var line := slotText + "\t" + valueText + "\t" + extra;
    DecimalHasNoTab(vfat);
    DecimalHasNoTab(value);
    assert line == slotText + "\t" + valueText + ("\t" + extra);
    assert ParseInt(slotText) == Some(vfat) by {
      ParseIntRoundTrip(vfat, [], []);
      assert [] + slotText + [] == slotText;
    }
    assert ParseInt(valueText) == Some(value) by {
      ParseIntRoundTrip(value, [], []);
      assert [] + valueText + [] == valueText;
    }
    ValueLineFields(line, slotText, valueText, "\t" + extra);
  }

  /** A slot that is not a number is reported even when the value is not one either. */
  lemma BadSlotReportedFirst(slot: string, value: string)
    requires '\t' !in slot && '\t' !in value
    requires ParseInt(slot).None?
    ensures ParseValueLine(slot + "\t" + value) == Failure(BadSlot(slot + "\t" + value))
  {
    assert slot + "\t" + value == slot + "\t" + value + [];
    ValueLineFields(slot + "\t" + value, slot, value, []);
  }

  // ---------------------------------------------------------------------
  // Dry run
  // ---------------------------------------------------------------------

  lemma {:induction false} DryRunValueLines(configs: Configs, oh: string, reg: string, lines: seq<string>)
    ensures ApplyValueLines(configs, oh, reg, lines, true).configs == configs
    decreases |lines|
  {
    if lines != [] && ParseValueLine(lines[0]).Success? {
      DryRunValueLines(configs, oh, reg, lines[1..]);
    }
  }

  lemma {:induction false} DryRunRegisters(configs: Configs, oh: string, order: seq<string>,
                                           paths: map<string, string>, nominalFiles: map<string, string>)
    requires forall r :: r in order ==> r in paths
    ensures ApplyRegisters(configs, oh, order, paths, nominalFiles, true).configs == configs
    decreases |order|
  {
    if order != [] && paths[order[0]] in nominalFiles {
      DryRunValueLines(configs, oh, order[0], FileLines(nominalFiles[paths[order[0]]]));
      DryRunRegisters(configs, oh, order[1..], paths, nominalFiles);
    }
  }

  /** In dry-run mode no configuration file changes, whatever the inputs. */
  lemma DryRunChangesNothing(configs: Configs, oh: string, manifest: string, order: seq<string>,
                             nominalFiles: map<string, string>)
    requires OrderFits(manifest, order)
    ensures WriteDacValues(configs, oh, manifest, order, nominalFiles, true).configs == configs
  {
    var parsed := ManifestEntries(FileLines(manifest));
    if parsed.Success? {
      DryRunRegisters(configs, oh, order, parsed.value, nominalFiles);
    }
  }

  lemma {:induction false} ValueLinesOutcome(c1: Configs, c2: Configs, oh: string, reg: string, lines: seq<string>,
                                             d1: bool, d2: bool)
    ensures ApplyValueLines(c1, oh, reg, lines, d1).outcome == ApplyValueLines(c2, oh, reg, lines, d2).outcome
    decreases |lines|
  {
    if lines != [] && ParseValueLine(lines[0]).Success? {
      var rec := ParseValueLine(lines[0]).value;
      ValueLinesOutcome(ApplyRecord(c1, oh, reg, rec, d1), ApplyRecord(c2, oh, reg, rec, d2), oh, reg, lines[1..], d1, d2);
    }
  }

  lemma {:induction false} RegistersOutcome(c1: Configs, c2: Configs, oh: string, order: seq<string>,
                                            paths: map<string, string>, nominalFiles: map<string, string>,
                                            d1: bool, d2: bool)
    requires forall r :: r in order ==> r in paths
    ensures ApplyRegisters(c1, oh, order, paths, nominalFiles, d1).outcome ==
            ApplyRegisters(c2, oh, order, paths, nominalFiles, d2).outcome
    decreases |order|
  {
    if order != [] && paths[order[0]] in nominalFiles {
      var lines := FileLines(nominalFiles[paths[order[0]]]);
      ValueLinesOutcome(c1, c2, oh, order[0], lines, d1, d2);
      var r1 := ApplyValueLines(c1, oh, order[0], lines, d1);
      var r2 := ApplyValueLines(c2, oh, order[0], lines, d2);
      if r1.outcome.Completed? {
        RegistersOutcome(r1.configs, r2.configs, oh, order[1..], paths, nominalFiles, d1, d2);
      }
    }
  }

  /** A dry run ends exactly as the real run on the same inputs does: same completion, same exception. */
  lemma DryRunSameOutcome(configs: Configs, oh: string, manifest: string, order: seq<string>,
                          nominalFiles: map<string, string>)
    requires OrderFits(manifest, order)
    ensures WriteDacValues(configs, oh, manifest, order, nominalFiles, true).outcome ==
            WriteDacValues(configs, oh, manifest, order, nominalFiles, false).outcome
  {
    var parsed := ManifestEntries(FileLines(manifest));
    if parsed.Success? {
      RegistersOutcome(configs, configs, oh, order, parsed.value, nominalFiles, true, false);
    }
  }

  // ---------------------------------------------------------------------
  // Where a run stops
  // ---------------------------------------------------------------------

  /**
   * The first nominal value line that does not parse ends the inner loop with
   * its own error: the records before it have been applied, and no record
   * after it is.
   */
  lemma {:induction false} ValueLinesFirstError(configs: Configs, oh: string, reg: string, lines: seq<string>,
                                                dryRun: bool, k: nat)
    requires k < |lines| && ParseValueLine(lines[k]).Failure?
    requires forall j :: 0 <= j < k ==> ParseValueLine(lines[j]).Success?
    ensures ApplyValueLines(configs, oh, reg, lines, dryRun) ==
            Run(ApplyValueLines(configs, oh, reg, lines[..k], dryRun).configs, Raised(ParseValueLine(lines[k]).error))
    decreases k
  {
    if k > 0 {
      var next := ApplyRecord(configs, oh, reg, ParseValueLine(lines[0]).value, dryRun);
      assert lines[..k][0] == lines[0] && lines[..k][1..] == lines[1..][..k - 1];
      ValueLinesFirstError(next, oh, reg, lines[1..], dryRun, k - 1);
    }
  }

  /**
   * The first register whose nominal value file is missing or holds a bad
   * line ends the outer loop there: the registers before it have been applied
   * in full, a missing file raises before anything of that register is
   * applied, and a bad line raises as in `ValueLinesFirstError`. No later
   * register is applied.
   */
  lemma {:induction false} RegistersFirstError(configs: Configs, oh: string, order: seq<string>,
                                               paths: map<string, string>, nominalFiles: map<string, string>,
                                               dryRun: bool, k: nat)
    requires forall r :: r in order ==> r in paths
    requires k < |order| && !NominalFileReadable(paths[order[k]], nominalFiles)
    requires forall j :: 0 <= j < k ==> NominalFileReadable(paths[order[j]], nominalFiles)
    ensures forall r :: r in order[..k] ==> r in paths
    ensures var before := ApplyRegisters(configs, oh, order[..k], paths, nominalFiles, dryRun).configs;
            var path := paths[order[k]];
            ApplyRegisters(configs, oh, order, paths, nominalFiles, dryRun) ==
              if path !in nominalFiles then Run(before, Raised(MissingNominalFile(path)))
              else ApplyValueLines(before, oh, order[k], FileLines(nominalFiles[path]), dryRun)
    ensures ApplyRegisters(configs, oh, order, paths, nominalFiles, dryRun).outcome.Raised?
    decreases k
  {
    assert forall r :: r in order[..k] ==> r in order;
    if k > 0 {
      var run := ApplyValueLines(configs, oh, order[0], FileLines(nominalFiles[paths[order[0]]]), dryRun);
      assert order[..k][0] == order[0] && order[..k][1..] == order[1..][..k - 1];
      RegistersFirstError(run.configs, oh, order[1..], paths, nominalFiles, dryRun, k - 1);
    }
  }

  // ---------------------------------------------------------------------
  // What may change
  // ---------------------------------------------------------------------

  /**
   * From `before` to `after`: no file appears or disappears; the files of
   * other boards and of slots 11 and 12 are untouched; every file keeps its
   * number of lines; and a line that starts with none of `regs` is unchanged.
   */
  ghost predicate OnlyRegisterLines(before: Configs, after: Configs, oh: string, regs: set<string>)
  {
    after.Keys == before.Keys &&
    (forall key :: key in before && (key.vfat in ExcludedSlots || key.oh != oh) ==> after[key] == before[key]) &&
    (forall key :: key in before ==> |after[key]| == |before[key]|) &&
    (forall key, k ::
      (key in before && 0 <= k < |before[key]| && forall r :: r in regs ==> !StartsWith(before[key][k], r)) ==>
      after[key][k] == before[key][k])
  }

  lemma OnlyRegisterLinesTransitive(a: Configs, b: Configs, c: Configs, oh: string, regs: set<string>)
    requires OnlyRegisterLines(a, b, oh, regs) && OnlyRegisterLines(b, c, oh, regs)
    ensures OnlyRegisterLines(a, c, oh, regs)
  {
    forall key, k | key in a && 0 <= k < |a[key]| && (forall r :: r in regs ==> !StartsWith(a[key][k], r))
      ensures c[key][k] == a[key][k]
    {
      assert b[key][k] == a[key][k];
    }
  }

  lemma RecordFrame(configs: Configs, oh: string, reg: string, rec: Record, dryRun: bool, regs: set<string>)
    requires reg in regs
    ensures OnlyRegisterLines(configs, ApplyRecord(configs, oh, reg, rec, dryRun), oh, regs)
  {
  }

  lemma {:induction false} ValueLinesFrame(configs: Configs, oh: string, reg: string, lines: seq<string>,
                                           dryRun: bool, regs: set<string>)
    requires reg in regs
    ensures OnlyRegisterLines(configs, ApplyValueLines(configs, oh, reg, lines, dryRun).configs, oh, regs)
    decreases |lines|
  {
    if lines != [] && ParseValueLine(lines[0]).Success? {
      var next := ApplyRecord(configs, oh, reg, ParseValueLine(lines[0]).value, dryRun);
      RecordFrame(configs, oh, reg, ParseValueLine(lines[0]).value, dryRun, regs);
      ValueLinesFrame(next, oh, reg, lines[1..], dryRun, regs);
      OnlyRegisterLinesTransitive(configs, next, ApplyValueLines(next, oh, reg, lines[1..], dryRun).configs, oh, regs);
    }
  }

  lemma {:induction false} RegistersFrame(configs: Configs, oh: string, order: seq<string>,
                                          paths: map<string, string>, nominalFiles: map<string, string>,
                                          dryRun: bool, regs: set<string>)
    requires forall r :: r in order ==> r in paths && r in regs
    ensures OnlyRegisterLines(configs, ApplyRegisters(configs, oh, order, paths, nominalFiles, dryRun).configs, oh, regs)
    decreases |order|
  {
    if order != [] && paths[order[0]] in nominalFiles {
      var run := ApplyValueLines(configs, oh, order[0], FileLines(nominalFiles[paths[order[0]]]), dryRun);
      ValueLinesFrame(configs, oh, order[0], FileLines(nominalFiles[paths[order[0]]]), dryRun, regs);
      if run.outcome.Completed? {
        RegistersFrame(run.configs, oh, order[1..], paths, nominalFiles, dryRun, regs);
        OnlyRegisterLinesTransitive(configs, run.configs,
          ApplyRegisters(run.configs, oh, order[1..], paths, nominalFiles, dryRun).configs, oh, regs);
      }
    }
  }

  /**
   * A run, however it ends, changes only lines of board `oh`'s files that
   * start with a register of the manifest; slots 11 and 12 and other boards
   * are never touched, and no file is created or removed.
   */
  lemma WriteDacValuesFrame(configs: Configs, oh: string, manifest: string, order: seq<string>,
                            nominalFiles: map<string, string>, dryRun: bool)
    requires OrderFits(manifest, order)
    ensures OnlyRegisterLines(configs, WriteDacValues(configs, oh, manifest, order, nominalFiles, dryRun).configs,
                              oh, set r | r in order)
  {
    var parsed := ManifestEntries(FileLines(manifest));
    if parsed.Success? {
      RegistersFrame(configs, oh, order, parsed.value, nominalFiles, dryRun, set r | r in order);
    }
  }

  // ---------------------------------------------------------------------
  // What is written
  // ---------------------------------------------------------------------

  /** Of two records for the same slot of a register, the later one decides the file. */
  lemma RecordLastWins(configs: Configs, oh: string, reg: string, vfat: int, v1: int, v2: int, dryRun: bool)
    requires ' ' !in reg
    ensures ApplyRecord(ApplyRecord(configs, oh, reg, Record(vfat, v1), dryRun), oh, reg, Record(vfat, v2), dryRun) ==
            ApplyRecord(configs, oh, reg, Record(vfat, v2), dryRun)
  {
    var key := ConfigKey(oh, vfat);
    if vfat !in ExcludedSlots && !dryRun && key in configs {
      PatchFileLastWins(configs[key], reg, ClampValue(reg, v1), ClampValue(reg, v2));
    }
  }

  /**
   * Outside dry-run mode and slots 11 and 12, a record rewrites the number
   * field of every line of its slot's file that starts with the register
   * name, so that it reads back as the clamped value.
   */
  lemma RecordReadBack(configs: Configs, oh: string, reg: string, vfat: int, value: int)
    requires ' ' !in reg && vfat !in ExcludedSlots && ConfigKey(oh, vfat) in configs
    ensures var key, after := ConfigKey(oh, vfat), ApplyRecord(configs, oh, reg, Record(vfat, value), false);
      key in after && |after[key]| == |configs[key]| &&
      forall k :: 0 <= k < |configs[key]| && StartsWith(configs[key][k], reg) && NumberField(configs[key][k]).Some? ==>
        StartsWith(after[key][k], reg) && NumberField(after[key][k]) == Some(ClampValue(reg, value))
  {
    var key := ConfigKey(oh, vfat);
    forall k | 0 <= k < |configs[key]| && StartsWith(configs[key][k], reg) && NumberField(configs[key][k]).Some?
      ensures var after := ApplyRecord(configs, oh, reg, Record(vfat, value), false);
        StartsWith(after[key][k], reg) && NumberField(after[key][k]) == Some(ClampValue(reg, value))
    {
      PatchLineReadBack(configs[key][k], reg, ClampValue(reg, value));
    }
  }

  /** Records for different slots touch different files, so their order does not matter. */
  lemma RecordsCommute(configs: Configs, oh: string, reg: string, r1: Record, r2: Record, dryRun: bool)
    requires r1.vfat != r2.vfat
    ensures ApplyRecord(ApplyRecord(configs, oh, reg, r1, dryRun), oh, reg, r2, dryRun) ==
            ApplyRecord(ApplyRecord(configs, oh, reg, r2, dryRun), oh, reg, r1, dryRun)
  {
  }

  /** The value of the last line of a nominal value file that parses to slot `vfat`, if any. */
  function LastValueFor(lines: seq<string>, vfat: int): Option<int>
    decreases |lines|
  {
    if lines == [] then None
    else
      match LastValueFor(lines[1..], vfat)
      case Some(v) => Some(v)
      case None =>
        if ParseValueLine(lines[0]).Success? && ParseValueLine(lines[0]).value.vfat == vfat
        then Some(ParseValueLine(lines[0]).value.value)
        else None
  }

  /**
   * The last record for a slot wins, whatever records for other slots stand
   * between: once a nominal value file has been read to the end outside
   * dry-run mode, every slot's file (slots 11 and 12 aside) is its old
   * content patched with the clamped value of the last record for that slot,
   * or its old content when no record names the slot.
   */
  lemma {:induction false} ValueLinesLastWins(configs: Configs, oh: string, reg: string, lines: seq<string>, vfat: int)
    requires ' ' !in reg && vfat !in ExcludedSlots && ConfigKey(oh, vfat) in configs
    requires ApplyValueLines(configs, oh, reg, lines, false).outcome.Completed?
    ensures var key, after := ConfigKey(oh, vfat), ApplyValueLines(configs, oh, reg, lines, false).configs;
      key in after &&
      after[key] == match LastValueFor(lines, vfat)
                    case None => configs[key]
                    case Some(v) => PatchFile(configs[key], reg, ClampValue(reg, v))
    decreases |lines|
  {
    if lines != [] {
      var key := ConfigKey(oh, vfat);
      var rec := ParseValueLine(lines[0]).value;
      var next := ApplyRecord(configs, oh, reg, rec, false);
      ValueLinesLastWins(next, oh, reg, lines[1..], vfat);
      match LastValueFor(lines[1..], vfat)
      case Some(v) =>
        if rec.vfat == vfat {
          PatchFileLastWins(configs[key], reg, ClampValue(reg, rec.value), ClampValue(reg, v));
        }
      case None =>
    }
  }

  // ---------------------------------------------------------------------
  // Worked examples
  // ---------------------------------------------------------------------

  /** A nominal value file of one line `vfat<TAB>value`. */
  lemma OneLineValueFile(vfat: int, value: int)
    ensures FileLines(IntToDecimal(vfat) + "\t" + IntToDecimal(value) + "\n") ==
      [IntToDecimal(vfat) + "\t" + IntToDecimal(value) + "\n"]
    ensures ParseValueLine(IntToDecimal(vfat) + "\t" + IntToDecimal(value) + "\n") == Success(Record(vfat, value))
  {
    var body := IntToDecimal(vfat) + "\t" + IntToDecimal(value);
    assert '\n' !in body by {
      DecimalHasNoTab(vfat);
      DecimalHasNoTab(value);
    }
    FileLinesSingle(body);
    ValueLineRoundTrip(vfat, value);
  }

  /**
   * A run with the manifest `NAME PATH` and the nominal file `vfat<TAB>value`
   * completes and applies that one record.
   */
  lemma OneRecordRun(name: string, path: string, vfat: int, value: int, configs: Configs, oh: string)
    requires |name| > 0 && name[0] != '#' && |path| > 0
    requires ' ' !in name && '\n' !in name && ' ' !in path && '\n' !in path
    ensures OrderFits(name + " " + path + "\n", [name])
    ensures WriteDacValues(configs, oh, name + " " + path + "\n", [name],
                           map[path := IntToDecimal(vfat) + "\t" + IntToDecimal(value) + "\n"], false) ==
            Run(ApplyRecord(configs, oh, name, Record(vfat, value), false), Completed)
  {
    var nominal := IntToDecimal(vfat) + "\t" + IntToDecimal(value) + "\n";
    var paths, files := map[name := path], map[path := nominal];
    ManifestOfOneLine(name, path);
    OneLineValueFile(vfat, value);
    var after := ApplyRecord(configs, oh, name, Record(vfat, value), false);
    assert ApplyValueLines(configs, oh, name, [nominal], false) == ApplyValueLines(after, oh, name, [], false);
    assert ApplyRegisters(configs, oh, [name], paths, files, false) == ApplyRegisters(after, oh, [], paths, files, false);
  }

  /** A configuration file of the one line `REG digits` becomes `REG value`. */
  lemma RegisterFilePatched(reg: string, digits: string, v: nat)
    requires ' ' !in reg && |digits| > 0 && AllDigits(digits)
    ensures PatchFile([reg + " " + digits], reg, v) == [reg + " " + NatToDecimal(v)]
  {
    PatchRegisterLine(reg, digits, v);
  }

  /** The record `5<TAB>300` of THR_ARM_DAC writes the clamped 255 into slot 5's register line. */
  lemma ClampedRecordExample(oh: string, digits: string)
    requires |digits| > 0 && AllDigits(digits)
    ensures ApplyRecord(map[ConfigKey(oh, 5) := ["THR_ARM_DAC" + " " + digits]], oh, "THR_ARM_DAC", Record(5, 300), false) ==
            map[ConfigKey(oh, 5) := ["THR_ARM_DAC" + " " + NatToDecimal(255)]]
  {
    assert ClampValue("THR_ARM_DAC", 300) == 255;
    RegisterFilePatched("THR_ARM_DAC", digits, 255);
  }

  /** The numerals of the examples below, spelled out as `str` writes them. */
  lemma ExampleNumerals()
    ensures IntToDecimal(5) + "\t" + IntToDecimal(300) + "\n" == "5\t300\n"
    ensures NatToDecimal(255) == "255"
    ensures IntToDecimal(11) + "\t" + IntToDecimal(10) + "\n" == "11\t10\n"
  {
  }

  /**
   * Manifest `THR_ARM_DAC PATH`, nominal file `5<TAB>300`: slot 5's line
   * `THR_ARM_DAC n` is rewritten with the register's maximum, 255.
   */
  lemma ClampedWriteExample(oh: string, path: string, digits: string)
    requires |path| > 0 && ' ' !in path && '\n' !in path
    requires |digits| > 0 && AllDigits(digits)
    ensures IntToDecimal(5) + "\t" + IntToDecimal(300) + "\n" == "5\t300\n" && NatToDecimal(255) == "255"
    ensures OrderFits("THR_ARM_DAC" + " " + path + "\n", ["THR_ARM_DAC"])
    ensures WriteDacValues(map[ConfigKey(oh, 5) := ["THR_ARM_DAC" + " " + digits]], oh,
                           "THR_ARM_DAC" + " " + path + "\n", ["THR_ARM_DAC"],
                           map[path := IntToDecimal(5) + "\t" + IntToDecimal(300) + "\n"], false) ==
            Run(map[ConfigKey(oh, 5) := ["THR_ARM_DAC" + " " + NatToDecimal(255)]], Completed)
  {
    ExampleNumerals();
    OneRecordRun("THR_ARM_DAC", path, 5, 300, map[ConfigKey(oh, 5) := ["THR_ARM_DAC" + " " + digits]], oh);
    ClampedRecordExample(oh, digits);
  }

  /** Manifest `THR_ARM_DAC PATH`, nominal file `11<TAB>10`: slot 11 is skipped and no file changes. */
  lemma ExcludedSlotExample(configs: Configs, oh: string, path: string)
    requires |path| > 0 && ' ' !in path && '\n' !in path
    ensures IntToDecimal(11) + "\t" + IntToDecimal(10) + "\n" == "11\t10\n"
    ensures OrderFits("THR_ARM_DAC" + " " + path + "\n", ["THR_ARM_DAC"])
    ensures WriteDacValues(configs, oh, "THR_ARM_DAC" + " " + path + "\n", ["THR_ARM_DAC"],
                           map[path := IntToDecimal(11) + "\t" + IntToDecimal(10) + "\n"], false) ==
            Run(configs, Completed)
  {
    ExampleNumerals();
    OneRecordRun("THR_ARM_DAC", path, 11, 10, configs, oh);
  }
}
