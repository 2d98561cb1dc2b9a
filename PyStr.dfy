/**
 * The few Python built-ins the DAC value writer relies on, on `string`
 * (a sequence of characters): iterating over the lines of a file,
 * `str.strip`, `str.split` with an explicit separator, `int()` on text and
 * `str()` on a non-negative integer.
 */
module PyStr {
  import opened Wrappers

  predicate IsDigit(c: char) { '0' <= c <= '9' }

  predicate AllDigits(s: string) { forall i :: 0 <= i < |s| ==> IsDigit(s[i]) }

  /** The characters Python's `str.strip()` and `int()` treat as whitespace. */
  const Whitespace: set<char> := {' ', '\t', '\n', '\r', '\U{000B}', '\U{000C}'}

  // ---------------------------------------------------------------------
  // Iterating over a file: `for line in open(path)`
  // ---------------------------------------------------------------------

  /** Length of the first line of a non-empty text: up to and including the first newline, or all of it. */
  function FirstLineLength(text: string): (n: nat)
    requires text != []
    ensures 0 < n <= |text|
    ensures forall i :: 0 <= i < n - 1 ==> text[i] != '\n'
    ensures n < |text| ==> text[n - 1] == '\n'
  {
    if text[0] == '\n' || |text| == 1 then 1 else 1 + FirstLineLength(text[1..])
  }

  /** A file holding one newline-terminated line yields just that line. */
  lemma FileLinesSingle(body: string)
    requires '\n' !in body
    ensures FileLines(body + "\n") == [body + "\n"]
  {
    var text := body + "\n";
    var n := FirstLineLength(text);
    assert forall i :: 0 <= i < |body| ==> text[i] == body[i];
    assert n == |text|;
    assert text[..n] == text;
  }

  function Concat(lines: seq<string>): string
  {
    if lines == [] then [] else lines[0] + Concat(lines[1..])
  }

  /**
   * The lines a Python file object yields: each keeps its newline, only the
   * last may lack one, none is empty, and together they are the whole text.
   */
  function FileLines(text: string): (lines: seq<string>)
    ensures Concat(lines) == text
    ensures forall k :: 0 <= k < |lines| ==> |lines[k]| > 0
    ensures forall k :: 0 <= k < |lines| - 1 ==> lines[k][|lines[k]| - 1] == '\n'
    ensures forall k, i :: 0 <= k < |lines| && 0 <= i < |lines[k]| - 1 ==> lines[k][i] != '\n'
    decreases |text|
  {
    if text == [] then []
    else
      var n := FirstLineLength(text);
      var rest := FileLines(text[n..]);
      FileLinesCons(text, n, rest);
      [text[..n]] + rest
  }

  /** The first line followed by the lines of the rest of the text are the lines of the whole text. */
  lemma FileLinesCons(text: string, n: nat, rest: seq<string>)
    requires text != [] && n == FirstLineLength(text)
    requires Concat(rest) == text[n..]
    requires forall k :: 0 <= k < |rest| ==> |rest[k]| > 0
    requires forall k :: 0 <= k < |rest| - 1 ==> rest[k][|rest[k]| - 1] == '\n'
    requires forall k, i :: 0 <= k < |rest| && 0 <= i < |rest[k]| - 1 ==> rest[k][i] != '\n'
    ensures var lines := [text[..n]] + rest;
      Concat(lines) == text &&
      (forall k :: 0 <= k < |lines| ==> |lines[k]| > 0) &&
      (forall k :: 0 <= k < |lines| - 1 ==> lines[k][|lines[k]| - 1] == '\n') &&
      (forall k, i :: 0 <= k < |lines| && 0 <= i < |lines[k]| - 1 ==> lines[k][i] != '\n')
  {
    var head := text[..n];
    var lines := [head] + rest;
    assert Concat(lines) == text by {
      assert lines[1..] == rest;
      assert text == head + text[n..];
    }
    forall k | 0 <= k < |lines|
      ensures |lines[k]| > 0
      ensures k < |lines| - 1 ==> lines[k][|lines[k]| - 1] == '\n'
      ensures forall i :: 0 <= i < |lines[k]| - 1 ==> lines[k][i] != '\n'
    {
      if k == 0 {
        assert rest != [] ==> text[n..] != [];
      } else {
        assert lines[k] == rest[k - 1];
      }
    }
  }

  // ---------------------------------------------------------------------
  // `s.strip(chars)`
  // ---------------------------------------------------------------------

  /** `s.lstrip(chars)`: drop leading characters that are among `chars`. */
  function StripLeft(s: string, chars: set<char>): (r: string)
    decreases |s|
  {
    if s != [] && s[0] in chars then StripLeft(s[1..], chars) else s
  }

  /** `s.rstrip(chars)`: drop trailing characters that are among `chars`. */
  function StripRight(s: string, chars: set<char>): (r: string)
    decreases |s|
  {
    if s != [] && s[|s| - 1] in chars then StripRight(s[..|s| - 1], chars) else s
  }

  /**
   * `s.strip(chars)`: what is left of `s` once the leading and the trailing
   * characters among `chars` are cut off; it neither starts nor ends with one
   * of `chars`.
   */
  function Strip(s: string, chars: set<char>): (r: string)
    ensures |r| <= |s|
    ensures r == [] || (r[0] !in chars && r[|r| - 1] !in chars)
  {
    StripLeftSuffix(s, chars);
    StripRightPrefix(StripLeft(s, chars), chars);
    StripRight(StripLeft(s, chars), chars)
  }

  /** `lstrip` keeps the longest suffix that does not start with a stripped character. */
  lemma {:induction false} StripLeftSuffix(s: string, chars: set<char>)
    ensures var r := StripLeft(s, chars);
      |r| <= |s| && r == s[|s| - |r|..] &&
      (forall i :: 0 <= i < |s| - |r| ==> s[i] in chars) &&
      (r == [] || r[0] !in chars)
    decreases |s|
  {
    if s != [] && s[0] in chars {
      StripLeftSuffix(s[1..], chars);
    }
  }

  /** `rstrip` keeps the longest prefix that does not end with a stripped character. */
  lemma {:induction false} StripRightPrefix(s: string, chars: set<char>)
    ensures var r := StripRight(s, chars);
      |r| <= |s| && r == s[..|r|] &&
      (forall i :: |r| <= i < |s| ==> s[i] in chars) &&
      (r == [] || r[|r| - 1] !in chars)
    decreases |s|
  {
    if s != [] && s[|s| - 1] in chars {
      StripRightPrefix(s[..|s| - 1], chars);
    }
  }

  /** Stripping text that neither starts nor ends with a stripped character, padded with stripped characters, gives back the text. */
  lemma StripPadded(pre: string, s: string, post: string, chars: set<char>)
    requires s != [] && s[0] !in chars && s[|s| - 1] !in chars
    requires forall i :: 0 <= i < |pre| ==> pre[i] in chars
    requires forall i :: 0 <= i < |post| ==> post[i] in chars
    ensures Strip(pre + s + post, chars) == s
  {
    var t := pre + s + post;
    var l := StripLeft(t, chars);
    StripLeftSuffix(t, chars);
    assert t[|pre|] == s[0];
    assert |t| - |l| == |pre|;
    assert l == s + post;
    var r := StripRight(l, chars);
    StripRightPrefix(l, chars);
    assert l[|s| - 1] == s[|s| - 1];
    assert |r| == |s|;
    assert r == l[..|s|];
  }

  // ---------------------------------------------------------------------
  // `s.split(sep)` with an explicit one-character separator
  // ---------------------------------------------------------------------

  function Join(parts: seq<string>, sep: char): string
    decreases |parts|
  {
    if parts == [] then []
    else if |parts| == 1 then parts[0]
    else parts[0] + [sep] + Join(parts[1..], sep)
  }

  /**
   * `s.split(sep)`: cut at every occurrence of `sep`, keeping empty pieces, so
   * that there is always one piece more than there are separators.
   */
  function Split(s: string, sep: char): (parts: seq<string>)
    ensures |parts| >= 1
    decreases |s|
  {
    if s == [] then [[]]
    else
      var rest := Split(s[1..], sep);
      if s[0] == sep then [[]] + rest
      else [[s[0]] + rest[0]] + rest[1..]
  }

  /** No piece of `s.split(sep)` holds the separator. */
  lemma {:induction false} SplitPiecesFree(s: string, sep: char)
    ensures forall k :: 0 <= k < |Split(s, sep)| ==> sep !in Split(s, sep)[k]
    decreases |s|
  {
    if s != [] {
      SplitPiecesFree(s[1..], sep);
      var rest, parts := Split(s[1..], sep), Split(s, sep);
      forall k | 0 <= k < |parts|
        ensures sep !in parts[k]
      {
        if s[0] == sep {
          assert parts == [[]] + rest;
          if k > 0 {
            assert parts[k] == rest[k - 1];
          }
        } else {
          assert parts == [[s[0]] + rest[0]] + rest[1..];
          if k > 0 {
            assert parts[k] == rest[k];
          }
        }
      }
    }
  }

  /** `s.split(sep)` has a single piece exactly when `s` holds no separator. */
  lemma {:induction false} SplitSingle(s: string, sep: char)
    ensures |Split(s, sep)| == 1 <==> sep !in s
    decreases |s|
  {
    if s != [] {
      SplitSingle(s[1..], sep);
      assert s == [s[0]] + s[1..];
      assert sep in s <==> s[0] == sep || sep in s[1..];
    }
  }

  /** Joining the pieces of `s.split(sep)` with `sep` gives `s` back. */
  lemma {:induction false} SplitThenJoin(s: string, sep: char)
    ensures Join(Split(s, sep), sep) == s
    decreases |s|
  {
    if s != [] {
      var rest, parts := Split(s[1..], sep), Split(s, sep);
      SplitThenJoin(s[1..], sep);
      assert s == [s[0]] + s[1..];
      if s[0] == sep {
        assert parts[1..] == rest;
        assert Join(parts, sep) == [] + [sep] + Join(rest, sep);
      } else if |rest| == 1 {
        assert parts == [[s[0]] + rest[0]];
      } else {
        assert parts[1..] == rest[1..];
        assert Join(parts, sep) == [s[0]] + rest[0] + [sep] + Join(rest[1..], sep);
        assert Join(rest, sep) == rest[0] + [sep] + Join(rest[1..], sep);
      }
    }
  }

  /** The pieces contain no separator, there is more than one exactly when the text holds a separator, and joining them gives the text back. */
  lemma SplitJoin(s: string, sep: char)
    ensures |Split(s, sep)| == 1 <==> sep !in s
    ensures forall k :: 0 <= k < |Split(s, sep)| ==> sep !in Split(s, sep)[k]
    ensures Join(Split(s, sep), sep) == s
  {
    SplitPiecesFree(s, sep);
    SplitSingle(s, sep);
    SplitThenJoin(s, sep);
  }

  /** Splitting a join of separator-free pieces gives the pieces back: the other half of the round trip. */
  lemma {:induction false} JoinSplit(parts: seq<string>, sep: char)
    requires |parts| >= 1
    requires forall k :: 0 <= k < |parts| ==> sep !in parts[k]
    ensures Split(Join(parts, sep), sep) == parts
    decreases |parts|, |parts[0]|
  {
    if |parts[0]| > 0 {
      var head := parts[0];
      var parts' := [head[1..]] + parts[1..];
      assert Join(parts, sep) == [head[0]] + Join(parts', sep) by {
        if |parts| > 1 {
          assert parts'[1..] == parts[1..];
        }
      }
      JoinSplit(parts', sep);
      assert head == [head[0]] + head[1..];
    } else if |parts| > 1 {
      JoinSplit(parts[1..], sep);
      assert Join(parts, sep) == [sep] + Join(parts[1..], sep);
      assert parts == [[]] + parts[1..];
    }
  }

  /** The first two pieces of a join, and what follows them. */
  lemma JoinFirstTwo(parts: seq<string>, sep: char)
    requires |parts| >= 2
    ensures Join(parts, sep) ==
      parts[0] + [sep] + parts[1] + (if |parts| == 2 then [] else [sep] + Join(parts[2..], sep))
  {
    assert parts[1..][0] == parts[1];
    if |parts| > 2 {
      assert parts[1..][1..] == parts[2..];
    }
  }

  /**
   * Text made of two separator-free fields and then either nothing or the
   * separator and anything: `split(sep)` gives those two fields first.
   */
  lemma SplitFirstTwo(s: string, sep: char, a: string, b: string, rest: string)
    requires sep !in a && sep !in b
    requires s == a + [sep] + b + rest
    requires rest == [] || rest[0] == sep
    ensures |Split(s, sep)| >= 2 && Split(s, sep)[0] == a && Split(s, sep)[1] == b
  {
    var more := if rest == [] then [] else Split(rest[1..], sep);
    if rest != [] {
      SplitJoin(rest[1..], sep);
      assert rest == [sep] + rest[1..];
    }
    var parts := [a, b] + more;
    assert parts[2..] == more;
    JoinFirstTwo(parts, sep);
    assert Join(parts, sep) == s;
    JoinSplit(parts, sep);
  }

  /**
   * When `sep` occurs, the first two pieces are the text before its first
   * occurrence and the text up to the next one or to the end.
   */
  lemma SplitShape(s: string, sep: char)
    requires sep in s
    ensures |Split(s, sep)| >= 2
    ensures var p := Split(s, sep);
      var n := |p[0]| + 1 + |p[1]|;
      sep !in p[0] && sep !in p[1] && n <= |s| && s[..n] == p[0] + [sep] + p[1] && (n == |s| || s[n] == sep)
  {
    SplitJoin(s, sep);
    JoinFirstTwo(Split(s, sep), sep);
  }

  // ---------------------------------------------------------------------
  // Decimal numerals: `str(n)` and `int(s)`
  // ---------------------------------------------------------------------

  function DigitValue(c: char): nat
    requires IsDigit(c)
  {
    c as int - '0' as int
  }

  function DigitChar(d: nat): (c: char)
    requires d < 10
    ensures IsDigit(c) && DigitValue(c) == d
  {
    ('0' as int + d) as char
  }

  /** The number a run of decimal digits denotes, most significant digit first. */
  function DecimalValue(s: string): nat
    requires AllDigits(s)
    decreases |s|
  {
    if s == [] then 0 else 10 * DecimalValue(s[..|s| - 1]) + DigitValue(s[|s| - 1])
  }

  /** `str(n)` for a non-negative integer: digits with no leading zero that denote `n`. */
  function NatToDecimal(n: nat): (s: string)
    ensures |s| > 0 && AllDigits(s)
    ensures DecimalValue(s) == n
    ensures s[0] == '0' ==> s == "0"
    decreases n
  {
    if n < 10 then [DigitChar(n)]
    else
      var s := NatToDecimal(n / 10) + [DigitChar(n % 10)];
      assert s[..|s| - 1] == NatToDecimal(n / 10);
      s
  }

  /** `str(i)` for any integer. */
  function IntToDecimal(i: int): string
  {
    if i < 0 then "-" + NatToDecimal(-i) else NatToDecimal(i)
  }

  function SignedDigits(t: string): Option<int>
  {
    if |t| > 1 && t[0] == '-' && AllDigits(t[1..]) then Some(-(DecimalValue(t[1..]) as int))
    else if |t| > 1 && t[0] == '+' && AllDigits(t[1..]) then Some(DecimalValue(t[1..]))
    else if |t| > 0 && AllDigits(t) then Some(DecimalValue(t))
    else None
  }

  /**
   * `int(s)` on text: surrounding whitespace, one optional sign and at least
   * one decimal digit; anything else is a `ValueError` (here `None`).
   */
  function ParseInt(s: string): (r: Option<int>)
    ensures var t := Strip(s, Whitespace);
      r.Some? <==> ((|t| > 0 && AllDigits(t)) || (|t| > 1 && (t[0] == '-' || t[0] == '+') && AllDigits(t[1..])))
    ensures r.Some? && r.value < 0 ==> Strip(s, Whitespace)[0] == '-'
    ensures var t := Strip(s, Whitespace);
      r.Some? ==>
        (t[0] == '-' ==> AllDigits(t[1..]) && r.value == -(DecimalValue(t[1..]) as int)) &&
        (t[0] == '+' ==> AllDigits(t[1..]) && r.value == DecimalValue(t[1..])) &&
        (t[0] != '-' && t[0] != '+' ==> AllDigits(t) && r.value == DecimalValue(t))
  {
    SignedDigits(Strip(s, Whitespace))
  }

  /** `int()` takes leading zeros and surrounding whitespace. */
  lemma ParseIntLeadingZero()
    ensures ParseInt("05") == Some(5)
    ensures ParseInt(" 12\n") == Some(12)
  {
    assert DecimalValue("05") == 5 by { assert "05"[..1] == "0"; }
    assert DecimalValue("12") == 12 by { assert "12"[..1] == "1"; }
    assert Strip("05", Whitespace) == "05" by { StripPadded([], "05", [], Whitespace); }
    assert Strip(" 12\n", Whitespace) == "12" by { StripPadded(" ", "12", "\n", Whitespace); }
  }

  /** `int()` takes a plus sign, and a minus sign before zero gives zero. */
  lemma ParseIntSigned()
    ensures ParseInt("+7") == Some(7)
    ensures ParseInt("-0") == Some(0)
  {
    assert Strip("+7", Whitespace) == "+7" by { StripPadded([], "+7", [], Whitespace); }
    assert "+7"[1..] == "7" && DecimalValue("7") == 7;
    assert Strip("-0", Whitespace) == "-0" by { StripPadded([], "-0", [], Whitespace); }
    assert "-0"[1..] == "0" && DecimalValue("0") == 0;
  }

  /** `int` reads back what `str` writes, whatever whitespace surrounds it. */
  lemma ParseIntRoundTrip(i: int, pre: string, post: string)
    requires forall k :: 0 <= k < |pre| ==> pre[k] in Whitespace
    requires forall k :: 0 <= k < |post| ==> post[k] in Whitespace
    ensures ParseInt(pre + IntToDecimal(i) + post) == Some(i)
  {
    var t := IntToDecimal(i);
    var d := NatToDecimal(if i < 0 then -i else i);
    assert IsDigit(d[0]) && IsDigit(d[|d| - 1]);
    assert t[|t| - 1] == d[|d| - 1];
    StripPadded(pre, t, post, Whitespace);
    if i < 0 {
      assert t[1..] == d;
    }
  }
}
