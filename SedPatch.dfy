/**
 * The one sed program the DAC value writer runs on a slot's configuration
 * file, `/^REG/{s/ [0-9]\+/ VALUE/;}`: on every line that starts with the
 * register name, the first blank followed by a maximal run of digits becomes
 * a blank followed by the decimal text of the value.
 */
module SedPatch {
  import opened Wrappers
  import opened PyStr

  /** The address `/^REG/`: the line starts with the register name (a prefix, not a whole first token). */
  predicate StartsWith(line: string, prefix: string)
  {
    |prefix| <= |line| && line[..|prefix|] == prefix
  }

  /** The pattern ` [0-9]` matches at index `i`. */
  predicate NumberAt(line: string, i: int)
  {
    0 <= i && i + 1 < |line| && line[i] == ' ' && IsDigit(line[i + 1])
  }

  /** The leftmost index, from `from` on, where a blank is followed by a digit. */
  function FindNumber(line: string, from: nat): (r: Option<nat>)
    ensures r.Some? ==> from <= r.value && NumberAt(line, r.value)
    ensures r.Some? ==> forall j :: from <= j < r.value ==> !NumberAt(line, j)
    ensures r.None? ==> forall j :: from <= j ==> !NumberAt(line, j)
    decreases |line| - from
  {
    if from + 1 >= |line| then None
    else if NumberAt(line, from) then Some(from)
    else FindNumber(line, from + 1)
  }

  /** Where the run of digits starting at `from` ends: `[0-9]\+` matches as much as it can. */
  function DigitRunEnd(line: string, from: nat): (e: nat)
    requires from <= |line|
    ensures from <= e <= |line|
    ensures forall k :: from <= k < e ==> IsDigit(line[k])
    ensures e == |line| || !IsDigit(line[e])
    decreases |line| - from
  {
    if from < |line| && IsDigit(line[from]) then DigitRunEnd(line, from + 1) else from
  }

  /**
   * `s/ [0-9]\+/ TEXT/`: replace the digits of the first blank-then-digits
   * match by `text`. Without a match the line is unchanged; with one, the
   * line up to and including the matched blank and the line after the digit
   * run are kept, and `text` stands in between.
   */
  function Substitute(line: string, text: string): (r: string)
    ensures FindNumber(line, 0).None? ==> r == line
    ensures FindNumber(line, 0).Some? ==>
      var i := FindNumber(line, 0).value;
      var e := DigitRunEnd(line, i + 1);
      |r| == |line| - (e - i - 1) + |text| &&
      r[..i + 1] == line[..i + 1] && r[i + 1..i + 1 + |text|] == text && r[i + 1 + |text|..] == line[e..]
  {
    match FindNumber(line, 0)
    case None => line
    case Some(i) => line[..i + 1] + text + line[DigitRunEnd(line, i + 1)..]
  }

  /**
   * `/^REG/{s/ [0-9]\+/ VALUE/;}` on one line: a line that does not start
   * with the register name, or has no blank-then-digits field, is left as it
   * is; a register name without blanks stays the line's prefix.
   */
  function PatchLine(line: string, reg: string, value: nat): (r: string)
    ensures !StartsWith(line, reg) ==> r == line
    ensures FindNumber(line, 0).None? ==> r == line
    ensures ' ' !in reg && StartsWith(line, reg) ==> StartsWith(r, reg)
  {
    if StartsWith(line, reg) then
      (if ' ' !in reg then SubstituteKeepsPrefix(line, reg, NatToDecimal(value)); Substitute(line, NatToDecimal(value))
       else Substitute(line, NatToDecimal(value)))
    else line
  }

  /** sed runs the program on every line of the file in turn. */
  function PatchFile(lines: seq<string>, reg: string, value: nat): (r: seq<string>)
    ensures |r| == |lines|
    ensures forall k :: 0 <= k < |lines| && !StartsWith(lines[k], reg) ==> r[k] == lines[k]
    ensures forall k :: 0 <= k < |lines| ==> r[k] == PatchLine(lines[k], reg, value)
    decreases |lines|
  {
    if lines == [] then []
    else [PatchLine(lines[0], reg, value)] + PatchFile(lines[1..], reg, value)
  }

  /** The number in a line's first blank-then-digits field, as the substitution sees it. */
  function NumberField(line: string): Option<nat>
  {
    match FindNumber(line, 0)
    case None => None
    case Some(i) =>
      var e := DigitRunEnd(line, i + 1);
      assert AllDigits(line[i + 1..e]);
      Some(DecimalValue(line[i + 1..e]))
  }

  /** Once a field `digits` replaces the first number field, that field is still the first and is exactly `digits`. */
  lemma SubstituteFindsSameField(line: string, digits: string, i: nat)
    requires FindNumber(line, 0) == Some(i)
    requires |digits| > 0 && AllDigits(digits)
    ensures FindNumber(Substitute(line, digits), 0) == Some(i)
    ensures DigitRunEnd(Substitute(line, digits), i + 1) == i + 1 + |digits|
    ensures Substitute(line, digits)[..i + 1] == line[..i + 1]
    ensures Substitute(line, digits)[i + 1 + |digits|..] == line[DigitRunEnd(line, i + 1)..]
  {
    var e := DigitRunEnd(line, i + 1);
    var l := Substitute(line, digits);
    var end := i + 1 + |digits|;
    assert l[..i + 1] == line[..i + 1] && l[i + 1..end] == digits && l[end..] == line[e..];
    assert l[i + 1] == l[i + 1..end][0];
    SamePrefixSameNumber(line, l, i);
    assert end < |l| ==> l[end] == l[end..][0] == line[e];
    DigitsThenNonDigit(l, i + 1, digits);
  }

  /** Two lines that agree up to the first match of one, and whose next character is a digit, have the same first match. */
  lemma SamePrefixSameNumber(line: string, l: string, i: nat)
    requires FindNumber(line, 0) == Some(i)
    requires i + 1 < |l| && l[..i + 1] == line[..i + 1] && IsDigit(l[i + 1])
    ensures FindNumber(l, 0) == Some(i)
  {
    forall j | 0 <= j < i
      ensures !NumberAt(l, j)
    {
      assert !NumberAt(line, j);
      assert l[j] == l[..i + 1][j] && l[j + 1] == l[..i + 1][j + 1];
    }
    assert l[i] == l[..i + 1][i];
    FirstNumberIs(l, i);
  }

  /** Digits placed at `from` and followed by a non-digit or the end form the whole run. */
  lemma DigitsThenNonDigit(l: string, from: nat, digits: string)
    requires AllDigits(digits)
    requires from + |digits| <= |l| && l[from..from + |digits|] == digits
    requires from + |digits| == |l| || !IsDigit(l[from + |digits|])
    ensures DigitRunEnd(l, from) == from + |digits|
  {
    forall k | from <= k < from + |digits|
      ensures IsDigit(l[k])
    {
      assert l[k] == l[from..from + |digits|][k - from];
    }
    DigitRunEndIs(l, from, from + |digits|);
  }

  /** `FindNumber` finds a match at `i` when there is one there and none before it. */
  lemma FirstNumberIs(line: string, i: nat)
    requires NumberAt(line, i)
    requires forall j :: 0 <= j < i ==> !NumberAt(line, j)
    ensures FindNumber(line, 0) == Some(i)
  {
    var f := FindNumber(line, 0);
    assert f.Some?;
    assert !(f.value < i) && !(i < f.value);
  }

  /** A run of digits from `from` that stops at `e` is what `DigitRunEnd` measures. */
  lemma DigitRunEndIs(line: string, from: nat, e: nat)
    requires from <= e <= |line|
    requires forall k :: from <= k < e ==> IsDigit(line[k])
    requires e == |line| || !IsDigit(line[e])
    ensures DigitRunEnd(line, from) == e
  {
    var d := DigitRunEnd(line, from);
    assert !(d < e) && !(e < d);
  }

  /** The register name contains no blank, so the substituted field lies after it and the line keeps its prefix. */
  lemma SubstituteKeepsPrefix(line: string, reg: string, digits: string)
    requires ' ' !in reg && StartsWith(line, reg)
    ensures StartsWith(Substitute(line, digits), reg)
  {
    match FindNumber(line, 0)
    case None =>
    case Some(i) =>
      assert line[i] == ' ';
      assert |reg| <= i;
      var l := Substitute(line, digits);
      assert l[..i + 1] == line[..i + 1];
      assert l[..|reg|] == l[..i + 1][..|reg|];
  }

  /** Writing value `v1`, then `v2`, to a register's lines leaves what writing `v2` alone leaves. */
  lemma PatchLineLastWins(line: string, reg: string, v1: nat, v2: nat)
    requires ' ' !in reg
    ensures PatchLine(PatchLine(line, reg, v1), reg, v2) == PatchLine(line, reg, v2)
  {
    if StartsWith(line, reg) {
      match FindNumber(line, 0)
      case None =>
      case Some(i) =>
        var d1, d2 := NatToDecimal(v1), NatToDecimal(v2);
        var l1 := Substitute(line, d1);
        SubstituteFindsSameField(line, d1, i);
        SubstituteKeepsPrefix(line, reg, d1);
        var l2 := Substitute(l1, d2);
        assert l2 == l1[..i + 1] + d2 + l1[i + 1 + |d1|..];
    }
  }

  lemma PatchLineIdempotent(line: string, reg: string, v: nat)
    requires ' ' !in reg
    ensures PatchLine(PatchLine(line, reg, v), reg, v) == PatchLine(line, reg, v)
  {
    PatchLineLastWins(line, reg, v, v);
  }

  /** Reading the number field back after a substitution gives the number the substituted digits denote. */
  lemma SubstituteReadBack(line: string, digits: string, i: nat)
    requires FindNumber(line, 0) == Some(i)
    requires |digits| > 0 && AllDigits(digits)
    ensures NumberField(Substitute(line, digits)) == Some(DecimalValue(digits))
  {
    var l := Substitute(line, digits);
    SubstituteFindsSameField(line, digits, i);
    assert l[i + 1..i + 1 + |digits|] == digits;
  }

  /**
   * On a line that starts with the register name and has a number field, the
   * patch keeps the name, writes the value into that field (reading it back
   * gives the value) and leaves every character before and after the field alone.
   */
  lemma PatchLineReadBack(line: string, reg: string, v: nat)
    requires ' ' !in reg && StartsWith(line, reg)
    requires NumberField(line).Some?
    ensures StartsWith(PatchLine(line, reg, v), reg)
    ensures NumberField(PatchLine(line, reg, v)) == Some(v)
    ensures var i, d := FindNumber(line, 0).value, NatToDecimal(v);
      PatchLine(line, reg, v)[..i + 1] == line[..i + 1] &&
      PatchLine(line, reg, v)[i + 1..i + 1 + |d|] == d &&
      PatchLine(line, reg, v)[i + 1 + |d|..] == line[DigitRunEnd(line, i + 1)..]
  {
    var i := FindNumber(line, 0).value;
    var d := NatToDecimal(v);
    SubstituteFindsSameField(line, d, i);
    SubstituteReadBack(line, d, i);
    SubstituteKeepsPrefix(line, reg, d);
    var l := Substitute(line, d);
    assert l[i + 1..i + 1 + |d|] == d;
  }

  /** A register line without a blank-then-digits field passes through sed unchanged. */
  lemma PatchLineNoField(line: string, reg: string, v: nat)
    requires NumberField(line).None?
    ensures PatchLine(line, reg, v) == line
  {
  }

  lemma {:induction false} PatchFileLastWins(lines: seq<string>, reg: string, v1: nat, v2: nat)
    requires ' ' !in reg
    ensures PatchFile(PatchFile(lines, reg, v1), reg, v2) == PatchFile(lines, reg, v2)
  {
    var a := PatchFile(PatchFile(lines, reg, v1), reg, v2);
    var b := PatchFile(lines, reg, v2);
    forall k | 0 <= k < |lines|
      ensures a[k] == b[k]
    {
      PatchLineLastWins(lines[k], reg, v1, v2);
    }
  }

  lemma PatchFileIdempotent(lines: seq<string>, reg: string, v: nat)
    requires ' ' !in reg
    ensures PatchFile(PatchFile(lines, reg, v), reg, v) == PatchFile(lines, reg, v)
  {
    PatchFileLastWins(lines, reg, v, v);
  }

  /** A configuration line `REG digits` becomes `REG value`. */
  lemma PatchRegisterLine(reg: string, digits: string, v: nat)
    requires ' ' !in reg && |digits| > 0 && AllDigits(digits)
    ensures PatchLine(reg + " " + digits, reg, v) == reg + " " + NatToDecimal(v)
  {
    var line := reg + " " + digits;
    var i := |reg|;
    assert line[..|reg|] == reg;
    assert NumberAt(line, i);
    assert forall j :: 0 <= j < i ==> line[j] == reg[j];
    assert FindNumber(line, 0) == Some(i);
    assert forall k :: i + 1 <= k < |line| ==> line[k] == digits[k - i - 1];
    assert DigitRunEnd(line, i + 1) == |line|;
    assert line[..i + 1] == reg + " ";
  }

  /**
   * When one register name is a prefix of another (`THR` and `THR_ARM_DAC`),
   * both addresses select the longer register's lines, so the value such a
   * line ends up with is the one written last: the order in which the
   * registers are visited decides it.
   */
  lemma PrefixRegistersLastWins(short: string, long: string, digits: string, v1: nat, v2: nat)
    requires ' ' !in long && StartsWith(long, short)
    requires |digits| > 0 && AllDigits(digits)
    ensures PatchLine(PatchLine(long + " " + digits, short, v1), long, v2) == long + " " + NatToDecimal(v2)
    ensures PatchLine(PatchLine(long + " " + digits, long, v2), short, v1) == long + " " + NatToDecimal(v1)
    ensures v1 != v2 ==>
      PatchLine(PatchLine(long + " " + digits, short, v1), long, v2) !=
      PatchLine(PatchLine(long + " " + digits, long, v2), short, v1)
  {
    var line := long + " " + digits;
    PrefixRegisterSelectsLine(long, short, digits, v1);
    PatchRegisterLine(long, digits, v1);
    PatchRegisterLine(long, NatToDecimal(v1), v2);
    PatchRegisterLine(long, digits, v2);
    PrefixRegisterSelectsLine(long, short, NatToDecimal(v2), v1);
    PatchRegisterLine(long, NatToDecimal(v2), v1);
    if v1 != v2 {
      var a, b := long + " " + NatToDecimal(v2), long + " " + NatToDecimal(v1);
      assert a[|long| + 1..] == NatToDecimal(v2);
      assert b[|long| + 1..] == NatToDecimal(v1);
    }
  }

  /** A register whose name is a prefix of `long` patches `long`'s lines as `long` does. */
  lemma PrefixRegisterSelectsLine(long: string, short: string, digits: string, v: nat)
    requires StartsWith(long, short)
    ensures PatchLine(long + " " + digits, short, v) == PatchLine(long + " " + digits, long, v)
  {
    var line := long + " " + digits;
    assert line[..|long|] == long;
    assert line[..|short|] == long[..|short|];
  }
}
