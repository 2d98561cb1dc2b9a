/**
 * The DAC value writer: for every register of the manifest, read its nominal
 * value file (`slot<TAB>value` per line), clamp each value and run sed on
 * that slot's configuration file, except for slots 11 and 12. In dry-run
 * mode sed only prints what it would write.
 */
module DacWriter {
  import opened Wrappers
  import opened PyStr
  import opened ScriptErrors
  import opened DacLimits
  import opened SedPatch
  import opened Manifest

  /** Names the configuration file `config_OH{oh}_VFAT{vfat}_cal.txt`. */
  datatype ConfigKey = ConfigKey(oh: string, vfat: int)

  /**
   * The configuration files on disk, each as the sequence of lines sed works
   * on. A line is sed's pattern space: its text without the newline.
   */
  type Configs = map<ConfigKey, seq<string>>

  /** One line of a nominal value file. */
  datatype Record = Record(vfat: int, value: int)

  datatype Outcome = Completed | Raised(error: Error)

  /** The configuration files at the end of a run, and how the run ended. */
  datatype Run = Run(configs: Configs, outcome: Outcome)

  /**
   * `int(line.split('\t')[0])`, then `int(line.split('\t')[1])`, in that
   * order: a line without a tab fails, with a ValueError on the slot when
   * the line is not a number and an IndexError when it is; every error names
   * the line.
   */
  function ParseValueLine(line: string): (r: Result<Record, Error>)
    ensures '\t' !in line ==> r.Failure?
    ensures '\t' !in line && ParseInt(line).None? ==> r == Failure(BadSlot(line))
    ensures r == Failure(MissingValueField(line)) <==> '\t' !in line && ParseInt(line).Some?
    ensures r.Failure? ==> r.error in {BadSlot(line), MissingValueField(line), BadValue(line)}
  {
    SplitJoin(line, '\t');
    var fields := Split(line, '\t');
    match ParseInt(fields[0])
    case None => Failure(BadSlot(line))
    case Some(vfat) =>
      if |fields| < 2 then Failure(MissingValueField(line))
      else
        match ParseInt(fields[1])
        case None => Failure(BadValue(line))
        case Some(value) => Success(Record(vfat, value))
  }

  /** sed on one configuration file. On a missing file sed fails, and the script ignores the failure. */
  function SedFile(configs: Configs, key: ConfigKey, reg: string, value: nat): (r: Configs)
    ensures r.Keys == configs.Keys
    ensures key !in configs ==> r == configs
    ensures forall other :: other in configs && other != key ==> r[other] == configs[other]
    ensures key in configs ==> |r[key]| == |configs[key]|
  {
    if key in configs then configs[key := PatchFile(configs[key], reg, value)] else configs
  }

  /** What one record of register `reg` does to the configuration files of board `oh`. */
  function ApplyRecord(configs: Configs, oh: string, reg: string, rec: Record, dryRun: bool): (r: Configs)
    ensures r.Keys == configs.Keys
    ensures forall key :: key in configs && key != ConfigKey(oh, rec.vfat) ==> r[key] == configs[key]
    ensures rec.vfat in ExcludedSlots || dryRun ==> r == configs
  {
    if rec.vfat in ExcludedSlots || dryRun then configs
    else SedFile(configs, ConfigKey(oh, rec.vfat), reg, ClampValue(reg, rec.value))
  }

  /** The inner loop over the lines of one nominal value file; a line that does not parse ends the run. */
  function ApplyValueLines(configs: Configs, oh: string, reg: string, lines: seq<string>, dryRun: bool): (run: Run)
    ensures run.configs.Keys == configs.Keys
    ensures run.outcome.Completed? <==> forall k :: 0 <= k < |lines| ==> ParseValueLine(lines[k]).Success?
    decreases |lines|
  {
    if lines == [] then Run(configs, Completed)
    else
      match ParseValueLine(lines[0])
      case Failure(e) => Run(configs, Raised(e))
      case Success(rec) => ApplyValueLines(ApplyRecord(configs, oh, reg, rec, dryRun), oh, reg, lines[1..], dryRun)
  }

  /** The nominal value file at `path` exists and every one of its lines parses. */
  predicate NominalFileReadable(path: string, nominalFiles: map<string, string>)
  {
    path in nominalFiles &&
    forall k :: 0 <= k < |FileLines(nominalFiles[path])| ==> ParseValueLine(FileLines(nominalFiles[path])[k]).Success?
  }

  /** The nominal value file of every register in `order` exists and parses. */
  predicate AllReadable(order: seq<string>, paths: map<string, string>, nominalFiles: map<string, string>)
    requires forall r :: r in order ==> r in paths
  {
    forall k :: 0 <= k < |order| ==> NominalFileReadable(paths[order[k]], nominalFiles)
  }

  /** Every register's file is readable exactly when the first one's is and all the others' are. */
  lemma AllReadableCons(order: seq<string>, paths: map<string, string>, nominalFiles: map<string, string>)
    requires order != [] && forall r :: r in order ==> r in paths
    ensures AllReadable(order, paths, nominalFiles) <==>
      NominalFileReadable(paths[order[0]], nominalFiles) && AllReadable(order[1..], paths, nominalFiles)
  {
    assert forall k :: 1 <= k < |order| ==> order[k] == order[1..][k - 1];
  }

  /** The outer loop over the registers, in the order the dictionary yields them. */
  function ApplyRegisters(configs: Configs, oh: string, order: seq<string>, paths: map<string, string>,
                          nominalFiles: map<string, string>, dryRun: bool): (run: Run)
    requires forall r :: r in order ==> r in paths
    ensures run.configs.Keys == configs.Keys
    ensures run.outcome.Completed? ==> forall k :: 0 <= k < |order| ==> paths[order[k]] in nominalFiles
    ensures run.outcome.Completed? <==> AllReadable(order, paths, nominalFiles)
    decreases |order|
  {
    if order == [] then Run(configs, Completed)
    else
      var path := paths[order[0]];
      if path !in nominalFiles then Run(configs, Raised(MissingNominalFile(path)))
      else
        var run := ApplyValueLines(configs, oh, order[0], FileLines(nominalFiles[path]), dryRun);
        AllReadableCons(order, paths, nominalFiles);
        if run.outcome.Raised? then run
        else ApplyRegisters(run.configs, oh, order[1..], paths, nominalFiles, dryRun)
  }

  /** `order` lists every key once: the order in which a Python 2 dictionary happens to yield its keys. */
  ghost predicate Enumerates(order: seq<string>, keys: set<string>)
  {
    (forall i, j :: 0 <= i < j < |order| ==> order[i] != order[j]) &&
    (forall r :: r in order <==> r in keys)
  }

  ghost predicate OrderFits(manifest: string, order: seq<string>)
  {
    var parsed := ManifestEntries(FileLines(manifest));
    parsed.Success? ==> Enumerates(order, parsed.value.Keys)
  }

  /** A whole run of the script on board `oh`: the manifest, then every register's nominal file. */
  function WriteDacValues(configs: Configs, oh: string, manifest: string, order: seq<string>,
                          nominalFiles: map<string, string>, dryRun: bool): (run: Run)
    requires OrderFits(manifest, order)
    ensures run.configs.Keys == configs.Keys
    ensures ManifestEntries(FileLines(manifest)).Failure? ==>
      run == Run(configs, Raised(ManifestEntries(FileLines(manifest)).error))
    ensures run.outcome.Completed? ==> ManifestEntries(FileLines(manifest)).Success?
    ensures run.outcome.Completed? <==>
      ManifestEntries(FileLines(manifest)).Success? &&
      AllReadable(order, ManifestEntries(FileLines(manifest)).value, nominalFiles)
  {
    match ManifestEntries(FileLines(manifest))
    case Failure(e) => Run(configs, Raised(e))
    case Success(paths) => ApplyRegisters(configs, oh, order, paths, nominalFiles, dryRun)
  }

  /** The directory of configuration files, which sed edits in place. */
  class ConfigDirectory {
    var configs: Configs

    constructor (initial: Configs)
      ensures configs == initial
    {
      configs := initial;
    }

    /** `sed -i '/^REG/{s/ [0-9]\+/ VALUE/;}' file`. */
    method SedInPlace(key: ConfigKey, reg: string, value: nat)
      modifies this
      ensures configs == SedFile(old(configs), key, reg, value)
    {
      if key in configs {
        configs := configs[key := PatchFile(configs[key], reg, value)];
      }
    }

    /** `sed '/^REG/{s/ [0-9]\+/ VALUE/;}' file`: the file as it would be written, printed and not stored (nothing if it is missing). */
    method SedPreview(key: ConfigKey, reg: string, value: nat) returns (output: seq<string>)
      ensures key in configs ==> output == SedFile(configs, key, reg, value)[key]
      ensures key !in configs ==> output == []
    {
      output := if key in configs then PatchFile(configs[key], reg, value) else [];
    }
  }

  /** The inner loop: every line of register `reg`'s nominal value file, clamped and patched in turn. */
  method ApplyNominalFile(dir: ConfigDirectory, oh: string, reg: string, lines: seq<string>, dryRun: bool)
    returns (outcome: Outcome)
    modifies dir
    ensures Run(dir.configs, outcome) == ApplyValueLines(old(dir.configs), oh, reg, lines, dryRun)
  {
    var j := 0;
    while j < |lines|
      invariant 0 <= j <= |lines|
      invariant ApplyValueLines(old(dir.configs), oh, reg, lines, dryRun) ==
        ApplyValueLines(dir.configs, oh, reg, lines[j..], dryRun)
    {
      var line := lines[j];
      assert lines[j..][0] == line && lines[j..][1..] == lines[j + 1..];
      ghost var before := dir.configs;
      var fields := Split(line, '\t');
      var vfat := ParseInt(fields[0]);
      if vfat.None? {
        assert ParseValueLine(line) == Failure(BadSlot(line));
        return Raised(BadSlot(line));
      }
      if |fields| < 2 {
        assert ParseValueLine(line) == Failure(MissingValueField(line));
        return Raised(MissingValueField(line));
      }
      var value := ParseInt(fields[1]);
      if value.None? {
        assert ParseValueLine(line) == Failure(BadValue(line));
        return Raised(BadValue(line));
      }
      ghost var rec := Record(vfat.value, value.value);
      assert ParseValueLine(line) == Success(rec);
      var v := value.value;
      if v < 0 {
        v := 0;
      }
      if vfat.value !in ExcludedSlots {
        if reg in MaxDacValues && v > MaxDacValues[reg] {
          v := MaxDacValues[reg];
        }
        if dryRun {
          var _ := dir.SedPreview(ConfigKey(oh, vfat.value), reg, v);
        } else {
          dir.SedInPlace(ConfigKey(oh, vfat.value), reg, v);
        }
      }
      assert dir.configs == ApplyRecord(before, oh, reg, rec, dryRun);
      j := j + 1;
    }
    return Completed;
  }

  /** The script: parse the manifest, then for each register patch the slots its nominal value file lists. */
  method RunScript(dir: ConfigDirectory, oh: string, manifest: string, order: seq<string>,
                   nominalFiles: map<string, string>, dryRun: bool) returns (outcome: Outcome)
    requires OrderFits(manifest, order)
    modifies dir
    ensures Run(dir.configs, outcome) == WriteDacValues(old(dir.configs), oh, manifest, order, nominalFiles, dryRun)
  {
    var parsed := ParseManifest(manifest);
    if parsed.Failure? {
      return Raised(parsed.error);
    }
    var paths := parsed.value;
    var i := 0;
    while i < |order|
      invariant 0 <= i <= |order|
      invariant WriteDacValues(old(dir.configs), oh, manifest, order, nominalFiles, dryRun) ==
        ApplyRegisters(dir.configs, oh, order[i..], paths, nominalFiles, dryRun)
    {
      var reg := order[i];
      assert order[i..][0] == reg && order[i..][1..] == order[i + 1..];
      var path := paths[reg];
      if path !in nominalFiles {
        return Raised(MissingNominalFile(path));
      }
      outcome := ApplyNominalFile(dir, oh, reg, FileLines(nominalFiles[path]), dryRun);
      if outcome.Raised? {
        return;
      }
      i := i + 1;
    }
    return Completed;
  }
}
