/**
 * The manifest of nominal DAC files: one `REGISTER_NAME /path/to/file` per
 * line, lines starting with `#` are comments. Reading it builds the map from
 * register name to file path.
 */
module Manifest {
  import opened Wrappers
  import opened PyStr
  import opened ScriptErrors

  /**
   * What one line of the manifest contributes: nothing for a comment, else
   * the first two single-blank-separated tokens of the line with blanks and
   * the newline stripped, or an error when there is no second token.
   */
  function ParseManifestLine(line: string): (r: Result<Option<(string, string)>, Error>)
    requires |line| > 0
    ensures line[0] == '#' <==> r == Success(None)
    ensures r.Failure? ==> r.error == ManifestLineWithoutSpace(line)
  {
    if line[0] == '#' then Success(None)
    else
      var tokens := Split(Strip(Strip(line, {' '}), {'\n'}), ' ');
      if |tokens| < 2 then Failure(ManifestLineWithoutSpace(line))
      else Success(Some((Strip(tokens[0], {' '}), Strip(tokens[1], {' '}))))
  }

  predicate NonEmptyLines(lines: seq<string>)
  {
    forall k :: 0 <= k < |lines| ==> |lines[k]| > 0
  }

  /** The line records an entry for register `reg`. */
  predicate Declares(line: string, reg: string)
  {
    |line| > 0 && ParseManifestLine(line).Success? && ParseManifestLine(line).value.Some? &&
    ParseManifestLine(line).value.value.0 == reg
  }

  function PathOf(line: string): string
    requires |line| > 0 && ParseManifestLine(line).Success? && ParseManifestLine(line).value.Some?
  {
    ParseManifestLine(line).value.value.1
  }

  /** One pass of the manifest loop: skip a comment, record an entry (overwriting any earlier one), or raise. */
  function AddLine(acc: Result<map<string, string>, Error>, line: string): (r: Result<map<string, string>, Error>)
    requires |line| > 0
    ensures acc.Failure? ==> r == acc
    ensures acc.Success? && line[0] == '#' ==> r == acc
    ensures r.Failure? <==> acc.Failure? || ParseManifestLine(line).Failure?
  {
    match acc
    case Failure(e) => Failure(e)
    case Success(m) =>
      match ParseManifestLine(line)
      case Failure(e) => Failure(e)
      case Success(None) => Success(m)
      case Success(Some(entry)) => Success(m[entry.0 := entry.1])
  }

  /** The map the manifest loop has built after reading `lines`, or the exception it stopped on. */
  function ManifestEntries(lines: seq<string>): (r: Result<map<string, string>, Error>)
    requires NonEmptyLines(lines)
    decreases |lines|
  {
    if lines == [] then Success(map[])
    else AddLine(ManifestEntries(lines[..|lines| - 1]), lines[|lines| - 1])
  }

  lemma ManifestSnoc(lines: seq<string>, i: nat)
    requires NonEmptyLines(lines) && i < |lines|
    ensures ManifestEntries(lines[..i + 1]) == AddLine(ManifestEntries(lines[..i]), lines[i])
  {
    assert lines[..i + 1][..i] == lines[..i];
  }

  /** A manifest line raises exactly when it is not a comment and, once stripped, holds no blank. */
  lemma ManifestLineFailsIff(line: string)
    requires |line| > 0
    ensures ParseManifestLine(line).Failure? <==> line[0] != '#' && ' ' !in Strip(Strip(line, {' '}), {'\n'})
  {
    SplitJoin(Strip(Strip(line, {' '}), {'\n'}), ' ');
  }

  /** A blank line (blanks, then perhaps a newline) is not skipped: it raises. */
  lemma BlankLineRaises(line: string)
    requires |line| > 0
    requires forall k :: 0 <= k < |line| - 1 ==> line[k] == ' '
    requires line[|line| - 1] == ' ' || line[|line| - 1] == '\n'
    ensures ParseManifestLine(line) == Failure(ManifestLineWithoutSpace(line))
  {
    var l := StripLeft(line, {' '});
    StripLeftSuffix(line, {' '});
    assert l == [] || l == "\n";
    var t := Strip(Strip(line, {' '}), {'\n'});
    StripRightPrefix(l, {' '});
    assert Strip(line, {' '}) == l;
    if l != [] {
      assert l[0] == '\n' && l[1..] == [];
      assert StripLeft(l, {'\n'}) == StripLeft([], {'\n'});
    }
    assert t == [];
    SplitJoin(t, ' ');
  }

  /** Once a prefix of the manifest has raised, the rest of it is never read. */
  lemma {:induction false} ManifestFailureSticks(lines: seq<string>, n: nat)
    requires NonEmptyLines(lines) && n <= |lines|
    requires ManifestEntries(lines[..n]).Failure?
    ensures ManifestEntries(lines) == ManifestEntries(lines[..n])
    decreases |lines|
  {
    if n < |lines| {
      var init := lines[..|lines| - 1];
      assert init[..n] == lines[..n];
      ManifestFailureSticks(init, n);
    } else {
      assert lines[..n] == lines;
    }
  }

  /** The manifest loop, building the dictionary one line at a time. */
  method ParseManifest(text: string) returns (res: Result<map<string, string>, Error>)
    ensures res == ManifestEntries(FileLines(text))
  {
    var lines := FileLines(text);
    var entries: map<string, string> := map[];
    var i := 0;
    while i < |lines|
      invariant 0 <= i <= |lines|
      invariant ManifestEntries(lines[..i]) == Success(entries)
    {
      ManifestSnoc(lines, i);
      var line := lines[i];
      if line[0] == '#' {
        i := i + 1;
        continue;
      }
      line := Strip(Strip(line, {' '}), {'\n'});
      var tokens := Split(line, ' ');
      if |tokens| < 2 {
        ManifestFailureSticks(lines, i + 1);
        return Failure(ManifestLineWithoutSpace(lines[i]));
      }
      var first := Strip(tokens[0], {' '});
      var second := Strip(tokens[1], {' '});
      entries := entries[first := second];
      i := i + 1;
    }
    assert lines[..i] == lines;
    return Success(entries);
  }

  /** A comment line, wherever it stands, changes neither the map nor the error. */
  lemma {:induction false} CommentLineIgnored(before: seq<string>, comment: string, after: seq<string>)
    requires NonEmptyLines(before) && NonEmptyLines(after)
    requires |comment| > 0 && comment[0] == '#'
    ensures NonEmptyLines(before + [comment] + after)
    ensures ManifestEntries(before + [comment] + after) == ManifestEntries(before + after)
    decreases |after|
  {
    var with, without := before + [comment] + after, before + after;
    if after == [] {
      assert with[..|with| - 1] == before;
      assert without == before;
    } else {
      var init := after[..|after| - 1];
      CommentLineIgnored(before, comment, init);
      assert with[..|with| - 1] == before + [comment] + init;
      assert without[..|without| - 1] == before + init;
      assert with[|with| - 1] == without[|without| - 1];
    }
  }

  /** The manifest raises exactly when one of its lines does, and then with the error of the first such line. */
  lemma {:induction false} ManifestFailsIff(lines: seq<string>)
    requires NonEmptyLines(lines)
    ensures ManifestEntries(lines).Failure? <==> exists k :: 0 <= k < |lines| && ParseManifestLine(lines[k]).Failure?
    ensures ManifestEntries(lines).Failure? ==>
      exists k :: 0 <= k < |lines| && ParseManifestLine(lines[k]) == Failure(ManifestEntries(lines).error) &&
        forall j :: 0 <= j < k ==> ParseManifestLine(lines[j]).Success?
    decreases |lines|
  {
    if lines != [] {
      var init := lines[..|lines| - 1];
      ManifestFailsIff(init);
      var last := |lines| - 1;
      if ManifestEntries(init).Failure? {
        var k :| 0 <= k < |init| && ParseManifestLine(init[k]) == Failure(ManifestEntries(init).error) &&
          forall j :: 0 <= j < k ==> ParseManifestLine(init[j]).Success?;
        assert lines[k] == init[k];
        assert forall j :: 0 <= j < k ==> lines[j] == init[j];
      } else {
        assert forall j :: 0 <= j < last ==> lines[j] == init[j];
        if ParseManifestLine(lines[last]).Failure? {
          assert forall j :: 0 <= j < last ==> ParseManifestLine(lines[j]).Success?;
        }
      }
    }
  }

  /** One pass of the loop adds the register the line declares, with its path, and keeps every other entry. */
  lemma AddLineEntry(m0: map<string, string>, line: string, m: map<string, string>)
    requires |line| > 0 && AddLine(Success(m0), line) == Success(m)
    ensures forall r :: r in m <==> r in m0 || Declares(line, r)
    ensures forall r :: Declares(line, r) ==> m[r] == PathOf(line)
    ensures forall r :: r in m0 && !Declares(line, r) ==> m[r] == m0[r]
  {
  }

  /** A register is declared in `lines` exactly when it is declared before the last line or on it. */
  lemma DeclaredSnoc(lines: seq<string>, init: seq<string>, r: string)
    requires lines != [] && init == lines[..|lines| - 1]
    ensures (exists k :: 0 <= k < |lines| && Declares(lines[k], r)) <==>
      (exists k :: 0 <= k < |init| && Declares(init[k], r)) || Declares(lines[|lines| - 1], r)
  {
    if exists k :: 0 <= k < |lines| && Declares(lines[k], r) {
      var k :| 0 <= k < |lines| && Declares(lines[k], r);
      if k < |lines| - 1 {
        assert init[k] == lines[k];
      }
    }
    if exists k :: 0 <= k < |lines| - 1 && Declares(init[k], r) {
      var k :| 0 <= k < |lines| - 1 && Declares(init[k], r);
      assert init[k] == lines[k];
    }
  }

  /** The map's keys are exactly the registers some line of the manifest declares. */
  lemma {:induction false} ManifestKeys(lines: seq<string>, m: map<string, string>)
    requires NonEmptyLines(lines) && ManifestEntries(lines) == Success(m)
    ensures forall r :: r in m <==> exists k :: 0 <= k < |lines| && Declares(lines[k], r)
    decreases |lines|
  {
    if lines != [] {
      var init := lines[..|lines| - 1];
      var m0 := ManifestEntries(init).value;
      ManifestKeys(init, m0);
      AddLineEntry(m0, lines[|lines| - 1], m);
      forall r
        ensures r in m <==> exists k :: 0 <= k < |lines| && Declares(lines[k], r)
      {
        DeclaredSnoc(lines, init, r);
      }
    }
  }

  /** Line `k` declares `reg`, and no later line does. */
  predicate LastDeclares(lines: seq<string>, k: int, reg: string)
  {
    0 <= k < |lines| && Declares(lines[k], reg) && forall j :: k < j < |lines| ==> !Declares(lines[j], reg)
  }

  /** Last write wins, for one register and the last line `k` that declares it. */
  lemma {:induction false} ManifestLastWinsAt(lines: seq<string>, m: map<string, string>, r: string, k: nat)
    requires NonEmptyLines(lines) && ManifestEntries(lines) == Success(m)
    requires LastDeclares(lines, k, r)
    ensures r in m && m[r] == PathOf(lines[k])
    decreases |lines|
  {
    var last := |lines| - 1;
    var init := lines[..last];
    var m0 := ManifestEntries(init).value;
    AddLineEntry(m0, lines[last], m);
    if k < last {
      assert !Declares(lines[last], r);
      assert init[k] == lines[k];
      forall j | k < j < |init|
        ensures !Declares(init[j], r)
      {
        assert init[j] == lines[j];
      }
      assert LastDeclares(init, k, r);
      ManifestLastWinsAt(init, m0, r, k);
      assert m[r] == m0[r];
    }
  }

  /** Last write wins: a register maps to the path on the last line that declares it. */
  lemma ManifestLastWins(lines: seq<string>, m: map<string, string>)
    requires NonEmptyLines(lines) && ManifestEntries(lines) == Success(m)
    ensures forall r, k :: LastDeclares(lines, k, r) ==> r in m && m[r] == PathOf(lines[k])
  {
    forall r, k | LastDeclares(lines, k, r)
      ensures r in m && m[r] == PathOf(lines[k])
    {
      ManifestLastWinsAt(lines, m, r, k);
    }
  }

  /** Stripping blanks, then the newline, from `NAME PATH` with an optional newline leaves `NAME PATH`. */
  lemma StripManifestLine(body: string, eol: string)
    requires |body| > 0 && body[0] != ' ' && body[0] != '\n'
    requires body[|body| - 1] != ' ' && body[|body| - 1] != '\n'
    requires eol == "" || eol == "\n"
    ensures Strip(Strip(body + eol, {' '}), {'\n'}) == body
  {
    var line := body + eol;
    assert line[0] == body[0];
    assert line[|line| - 1] == if eol == "" then body[|body| - 1] else '\n';
    StripPadded([], line, [], {' '});
    assert [] + line + [] == line;
    StripPadded([], body, eol, {'\n'});
    assert [] + body + eol == line;
  }

  /** Stripping blanks from a non-empty token without blanks changes nothing. */
  lemma StripToken(token: string)
    requires ' ' !in token
    ensures Strip(token, {' '}) == token
  {
    if token != [] {
      StripPadded([], token, [], {' '});
      assert [] + token + [] == token;
    }
  }

  /** A well-formed manifest line `NAME PATH`, newline or not, reads back as that entry, known register or not. */
  lemma ManifestLineRoundTrip(name: string, path: string, eol: string)
    requires |name| > 0 && name[0] != '#' && |path| > 0
    requires ' ' !in name && '\n' !in name && ' ' !in path && '\n' !in path
    requires eol == "" || eol == "\n"
    ensures ParseManifestLine(name + " " + path + eol) == Success(Some((name, path)))
  {
    var body := name + " " + path;
    var line := name + " " + path + eol;
    assert line == body + eol;
    assert line[0] == body[0] == name[0];
    assert body[|body| - 1] == path[|path| - 1];
    StripManifestLine(body, eol);
    assert Join([name, path], ' ') == body by {
      assert Join([name, path], ' ') == name + [' '] + Join([path], ' ');
    }
    JoinSplit([name, path], ' ');
    var tokens := Split(Strip(Strip(line, {' '}), {'\n'}), ' ');
    assert tokens == [name, path];
    StripToken(name);
    StripToken(path);
  }

  /**
   * What a recorded entry is, for any line: once stripped, the line reads
   * `NAME PATH` followed by nothing or by a blank and anything (further
   * tokens, a trailing blank), and neither NAME nor PATH holds a blank.
   */
  lemma ManifestLineEntry(line: string)
    requires |line| > 0 && ParseManifestLine(line).Success? && ParseManifestLine(line).value.Some?
    ensures var t := Strip(Strip(line, {' '}), {'\n'});
      var name, path := ParseManifestLine(line).value.value.0, ParseManifestLine(line).value.value.1;
      var n := |name| + 1 + |path|;
      ' ' !in name && ' ' !in path && n <= |t| && t[..n] == name + " " + path && (n == |t| || t[n] == ' ')
  {
    var t := Strip(Strip(line, {' '}), {'\n'});
    var tokens := Split(t, ' ');
    SplitJoin(t, ' ');
    StripToken(tokens[0]);
    StripToken(tokens[1]);
    JoinFirstTwo(tokens, ' ');
  }

  /** Conversely, a line of that shape records exactly (NAME, PATH). */
  lemma ManifestLineOfFields(line: string, name: string, path: string, rest: string)
    requires |line| > 0 && line[0] != '#'
    requires ' ' !in name && ' ' !in path
    requires Strip(Strip(line, {' '}), {'\n'}) == name + " " + path + rest
    requires rest == [] || rest[0] == ' '
    ensures ParseManifestLine(line) == Success(Some((name, path)))
  {
    SplitFirstTwo(Strip(Strip(line, {' '}), {'\n'}), ' ', name, path, rest);
    StripToken(name);
    StripToken(path);
  }

  /** `REG␣␣/path`: the second blank-separated token is empty, so REG maps to the empty path. */
  lemma DoubleBlankGivesEmptyPath(name: string, path: string)
    requires |name| > 0 && name[0] != '#' && |path| > 0
    requires ' ' !in name && '\n' !in name && ' ' !in path && '\n' !in path
    ensures ParseManifestLine(name + "  " + path) == Success(Some((name, "")))
  {
    var line := name + "  " + path;
    assert line[0] == name[0] && line[|line| - 1] == path[|path| - 1];
    StripManifestLine(line, "");
    assert line + "" == line;
    assert line == name + " " + "" + (" " + path);
    ManifestLineOfFields(line, name, "", " " + path);
  }

  /** `NAME PATH␣` before the newline: the trailing blank does not end up in the path. */
  lemma TrailingBlankIgnored(name: string, path: string)
    requires |name| > 0 && name[0] != '#' && |path| > 0
    requires ' ' !in name && '\n' !in name && ' ' !in path && '\n' !in path
    ensures ParseManifestLine(name + " " + path + " \n") == Success(Some((name, path)))
  {
    var body := name + " " + path + " ";
    var line := name + " " + path + " \n";
    assert Strip(line, {' '}) == line by {
      assert line[0] == name[0] && line[|line| - 1] == '\n';
      StripPadded([], line, [], {' '});
      assert [] + line + [] == line;
    }
    assert Strip(line, {'\n'}) == body by {
      assert body[0] == name[0] && body[|body| - 1] == ' ';
      StripPadded([], body, "\n", {'\n'});
      assert [] + body + "\n" == line;
    }
    ManifestLineOfFields(line, name, path, " ");
  }

  /** The register a line declares is the first blank-separated token, so it holds no blank. */
  lemma DeclaredNameHasNoBlank(line: string, reg: string)
    requires Declares(line, reg)
    ensures ' ' !in reg
  {
    var t := Strip(Strip(line, {' '}), {'\n'});
    SplitJoin(t, ' ');
    var token := Split(t, ' ')[0];
    StripLeftSuffix(token, {' '});
    StripRightPrefix(StripLeft(token, {' '}), {' '});
  }

  /** No register name in the parsed manifest contains a blank. */
  lemma ManifestKeysHaveNoBlank(lines: seq<string>, m: map<string, string>)
    requires NonEmptyLines(lines) && ManifestEntries(lines) == Success(m)
    ensures forall r :: r in m ==> ' ' !in r
  {
    ManifestKeys(lines, m);
    forall r | r in m
      ensures ' ' !in r
    {
      var k :| 0 <= k < |lines| && Declares(lines[k], r);
      DeclaredNameHasNoBlank(lines[k], r);
    }
  }

  /**
   * A register is recorded whether or not it has a known maximum: the script
   * only warns about an unknown one. Appending `NAME PATH` to a manifest that
   * parses maps NAME to PATH, replacing any earlier path.
   */
  lemma EveryRegisterRecorded(lines: seq<string>, name: string, path: string)
    requires NonEmptyLines(lines) && ManifestEntries(lines).Success?
    requires |name| > 0 && name[0] != '#' && |path| > 0
    requires ' ' !in name && '\n' !in name && ' ' !in path && '\n' !in path
    ensures NonEmptyLines(lines + [name + " " + path + "\n"])
    ensures ManifestEntries(lines + [name + " " + path + "\n"]) ==
      Success(ManifestEntries(lines).value[name := path])
  {
    var line := name + " " + path + "\n";
    var all := lines + [line];
    ManifestLineRoundTrip(name, path, "\n");
    assert all[..|all| - 1] == lines;
  }

  /** A manifest of the single line `NAME PATH` maps NAME to PATH. */
  lemma ManifestOfOneLine(name: string, path: string)
    requires |name| > 0 && name[0] != '#' && |path| > 0
    requires ' ' !in name && '\n' !in name && ' ' !in path && '\n' !in path
    ensures ManifestEntries(FileLines(name + " " + path + "\n")) == Success(map[name := path])
  {
    var body := name + " " + path;
    assert forall k :: 0 <= k < |body| ==> body[k] != '\n';
    FileLinesSingle(body);
    assert FileLines(name + " " + path + "\n") == [] + [name + " " + path + "\n"];
    EveryRegisterRecorded([], name, path);
  }
}
