/**
 * The text primitives the score files are read and written with: Python's
 * `str.strip()`, `str.split(sep)`, iteration over the lines of a text file,
 * `int(s)` and `str(i)`, and the all-time high-score file built on them.
 *
 * `int(s)` is modelled as: optional whitespace of the set `int()` skips, an
 * optional sign, one or more ASCII digits, optional whitespace of that set.
 */
module ScoreText {
  import opened Wrappers
  import opened Chars

  // ---------------------------------------------------------------- strip

  /** `s` has no whitespace of the set `ws` at either end. */
  predicate NoOuterSpace(s: string, ws: Spaces) {
    s == [] || (!IsSpaceIn(s[0], ws) && !IsSpaceIn(s[|s| - 1], ws))
  }

  /** `s.lstrip()` (for `StrSpaces`): the suffix left after dropping the leading whitespace. */
  function StripLeft(s: string, ws: Spaces): (r: string)
    ensures |r| <= |s| && r == s[|s| - |r|..]
    ensures r == [] || !IsSpaceIn(r[0], ws)
    ensures forall k :: 0 <= k < |s| - |r| ==> IsSpaceIn(s[k], ws)
  {
    if |s| > 0 && IsSpaceIn(s[0], ws) then StripLeft(s[1..], ws) else s
  }

  /** `s.rstrip()` (for `StrSpaces`): the prefix left after dropping the trailing whitespace. */
  function StripRight(s: string, ws: Spaces): (r: string)
    ensures |r| <= |s| && r == s[..|r|]
    ensures r == [] || !IsSpaceIn(r[|r| - 1], ws)
    ensures forall k :: |r| <= k < |s| ==> IsSpaceIn(s[k], ws)
  {
    if |s| > 0 && IsSpaceIn(s[|s| - 1], ws) then StripRight(s[..|s| - 1], ws) else s
  }

  /**
   * `s.strip()` for `StrSpaces`, and what `int()` skips around a number for
   * `IntSpaces`: whitespace removed from both ends, and only from the ends.
   */
  function Strip(s: string, ws: Spaces): (r: string)
    ensures NoOuterSpace(r, ws)
    ensures NoOuterSpace(s, ws) ==> r == s
  {
    var t := StripLeft(s, ws);
    var r := StripRight(t, ws);
    assert r != [] ==> !IsSpaceIn(r[0], ws) by {
      if r != [] {
        assert r[0] == t[0];
      }
    }
    r
  }

  // ---------------------------------------------------------------- split

  /** `sep.join(parts)`. */
  function Join(parts: seq<string>, sep: char): (r: string)
    requires |parts| >= 1
    ensures parts[0] <= r
  {
    if |parts| == 1 then parts[0] else parts[0] + [sep] + Join(parts[1..], sep)
  }

  /** Joining two pieces puts one separator between them. */
  lemma JoinTwo(parts: seq<string>, sep: char)
    requires |parts| == 2
    ensures Join(parts, sep) == parts[0] + [sep] + parts[1]
  {
    assert parts[1..] == [parts[1]];
  }

  /**
   * `s.split(sep)`: the maximal pieces of `s` between separators, so that
   * joining them back with `sep` gives `s`; an empty string gives `[""]`.
   */
  function SplitOn(s: string, sep: char): (r: seq<string>)
    ensures |r| >= 1
    ensures forall k :: 0 <= k < |r| ==> sep !in r[k]
    ensures Join(r, sep) == s
    decreases |s|
  {
    if s == [] then [[]]
    else
      var rest := SplitOn(s[1..], sep);
      if s[0] == sep then
        assert s == [sep] + s[1..];
        [[]] + rest
      else
        var r := [[s[0]] + rest[0]] + rest[1..];
        assert r[1..] == rest[1..];
        assert s == [s[0]] + s[1..];
        r
  }

  lemma {:induction false} SplitOnNoSeparator(s: string, sep: char)
    requires sep !in s
    ensures SplitOn(s, sep) == [s]
    decreases |s|
  {
    if s != [] {
      SplitOnNoSeparator(s[1..], sep);
    }
  }

  /** A piece free of separators followed by a separator is split off as the first piece. */
  lemma {:induction false} SplitOnFirstPiece(a: string, sep: char, b: string)
    requires sep !in a
    ensures SplitOn(a + [sep] + b, sep) == [a] + SplitOn(b, sep)
    decreases |a|
  {
    var s := a + [sep] + b;
    if a == [] {
      assert s[1..] == b;
    } else {
      assert s[1..] == a[1..] + [sep] + b;
      SplitOnFirstPiece(a[1..], sep, b);
      assert [a[0]] + a[1..] == a;
    }
  }

  /** Splitting undoes joining, whenever no piece holds the separator. */
  lemma {:induction false} SplitOnJoin(parts: seq<string>, sep: char)
    requires |parts| >= 1
    requires forall k :: 0 <= k < |parts| ==> sep !in parts[k]
    ensures SplitOn(Join(parts, sep), sep) == parts
    decreases |parts|
  {
    if |parts| == 1 {
      SplitOnNoSeparator(parts[0], sep);
    } else {
      SplitOnJoin(parts[1..], sep);
      SplitOnFirstPiece(parts[0], sep, Join(parts[1..], sep));
      assert [parts[0]] + parts[1..] == parts;
    }
  }

  // ---------------------------------------------------------------- lines

  /**
   * The lines `for line in f` yields from a file holding `text`, with their
   * line terminators dropped: there is no line after a final "\n", and an
   * empty file has no lines.
   */
  function FileLines(text: string): (lines: seq<string>)
    ensures forall k :: 0 <= k < |lines| ==> '\n' !in lines[k]
  {
    var parts := SplitOn(text, '\n');
    if parts[|parts| - 1] == [] then parts[..|parts| - 1] else parts
  }

  /** The text of a file whose lines are `lines`, each followed by "\n". */
  function Terminated(lines: seq<string>): string {
    if lines == [] then "" else lines[0] + "\n" + Terminated(lines[1..])
  }

  lemma {:induction false} TerminatedSnoc(lines: seq<string>, line: string)
    ensures Terminated(lines + [line]) == Terminated(lines) + line + "\n"
    decreases |lines|
  {
    if lines == [] {
      assert lines + [line] == [line];
    } else {
      assert (lines + [line])[1..] == lines[1..] + [line];
      TerminatedSnoc(lines[1..], line);
    }
  }

  lemma {:induction false} SplitTerminated(lines: seq<string>)
    requires forall k :: 0 <= k < |lines| ==> '\n' !in lines[k]
    ensures SplitOn(Terminated(lines), '\n') == lines + [""]
    decreases |lines|
  {
    if lines != [] {
      SplitTerminated(lines[1..]);
      SplitOnFirstPiece(lines[0], '\n', Terminated(lines[1..]));
      assert lines[0] + "\n" + Terminated(lines[1..]) == lines[0] + ['\n'] + Terminated(lines[1..]);
      assert [lines[0]] + (lines[1..] + [""]) == lines + [""];
    }
  }

  /** Reading back a file written line by line gives the same lines. */
  lemma FileLinesOfTerminated(lines: seq<string>)
    requires forall k :: 0 <= k < |lines| ==> '\n' !in lines[k]
    ensures FileLines(Terminated(lines)) == lines
  {
    SplitTerminated(lines);
    assert (lines + [""])[..|lines|] == lines;
  }

  // ---------------------------------------------------------------- int() and str()

  function DigitValue(c: char): nat
    requires IsDigit(c)
  {
    c as int - '0' as int
  }

  function DigitChar(d: nat): (c: char)
    requires d < 10
    ensures IsDigit(c) && DigitValue(c) == d
  {
    ('0' as int + d) as char
  }

  /** The value of a string of decimal digits, most significant first. */
  function DigitsValue(s: string): nat
    requires AllDigits(s)
  {
    if s == [] then 0 else 10 * DigitsValue(s[..|s| - 1]) + DigitValue(s[|s| - 1])
  }

  /** `str(n)` for n >= 0: decimal digits of `n`, without leading zeros. */
  function NatToString(n: nat): (r: string)
    ensures |r| >= 1 && AllDigits(r)
    ensures DigitsValue(r) == n
    ensures r[0] == '0' ==> r == "0"
  {
    if n < 10 then [DigitChar(n)]
    else
      var r := NatToString(n / 10) + [DigitChar(n % 10)];
      assert r[..|r| - 1] == NatToString(n / 10);
      r
  }

  /** Python's `str(i)` for an int. */
  function IntToString(i: int): (r: string)
    ensures |r| >= 1 && NoOuterSpace(r, StrSpaces) && NoOuterSpace(r, IntSpaces)
    ensures ':' !in r && '\n' !in r
  {
    if i < 0 then "-" + NatToString(-i) else NatToString(i)
  }

  /** `s` is a base-10 integer literal: an optional sign, then one or more digits. */
  predicate IsIntLiteral(t: string) {
    if |t| > 0 && (t[0] == '+' || t[0] == '-') then |t| > 1 && AllDigits(t[1..])
    else |t| > 0 && AllDigits(t)
  }

  function ParseDigits(s: string): (r: Option<nat>)
    ensures r.Some? <==> |s| > 0 && AllDigits(s)
    ensures r.Some? ==> r.value == DigitsValue(s)
  {
    if |s| > 0 && AllDigits(s) then Some(DigitsValue(s)) else None
  }

  /**
   * Python's `int(s)`: surrounding whitespace of the set `int()` skips is
   * ignored, the rest must be a sign-optional digit string; None stands for
   * the ValueError.
   */
  function ParseInt(s: string): (r: Option<int>)
    ensures r.Some? <==> IsIntLiteral(Strip(s, IntSpaces))
    ensures r.Some? ==>
      var t := Strip(s, IntSpaces);
      var ds := if t[0] == '+' || t[0] == '-' then t[1..] else t;
      AllDigits(ds) && r.value == (if t[0] == '-' then -(DigitsValue(ds) as int) else DigitsValue(ds))
  {
    var t := Strip(s, IntSpaces);
    if |t| > 0 && (t[0] == '+' || t[0] == '-') then
      match ParseDigits(t[1..])
      case None => None
      case Some(n) =>
        var v: int := if t[0] == '-' then -(n as int) else n;
        Some(v)
    else
      match ParseDigits(t)
      case None => None
      case Some(n) => Some(n)
  }

  /** `strip()` only removes characters, so it adds none. */
  lemma StripKeepsOut(s: string, c: char, ws: Spaces)
    ensures c !in s ==> c !in Strip(s, ws)
  {
    var t := StripLeft(s, ws);
    assert t == s[|s| - |t|..];
    assert Strip(s, ws) == t[..|Strip(s, ws)|];
  }

  lemma StripIdempotent(s: string, ws: Spaces)
    ensures Strip(Strip(s, ws), ws) == Strip(s, ws)
  {
  }

  /**
   * `int()` skips less than `strip()`: a leading 0x1C makes `int()` fail,
   * while the text stripped first parses.
   */
  lemma IntSkipsLessThanStrip()
    ensures ParseInt("\U{1C}5") == None
    ensures ParseInt(Strip("\U{1C}5", StrSpaces)) == Some(5)
  {
    SeparatorNotIntSpace();
    SeparatorStripped();
  }

  lemma SeparatorNotIntSpace()
    ensures ParseInt("\U{1C}5") == None
  {
    var s := "\U{1C}5";
    assert NoOuterSpace(s, IntSpaces);
    assert !IsDigit(s[0]) && s[0] != '+' && s[0] != '-';
  }

  lemma SeparatorStripped()
    ensures ParseInt(Strip("\U{1C}5", StrSpaces)) == Some(5)
  {
    StripSeparator();
    ParseFive();
  }

  lemma StripSeparator()
    ensures Strip("\U{1C}5", StrSpaces) == "5"
  {
    var sep := "\U{1C}";
    assert IsSpaceIn(sep[0], StrSpaces) && NoOuterSpace("5", StrSpaces);
    StripPadded(sep, "5", "", StrSpaces);
    assert sep + "5" + "" == "\U{1C}5";
  }

  lemma ParseFive()
    ensures ParseInt("5") == Some(5)
  {
    ParseIntToString(5);
    assert IntToString(5) == "5";
  }

  /** `int(str(i)) == i` for every int. */
  lemma ParseIntToString(i: int)
    ensures ParseInt(IntToString(i)) == Some(i)
  {
    if i < 0 {
      ParseNegative(i);
    } else {
      ParseNatural(i);
    }
  }

  lemma ParseNatural(n: nat)
    ensures ParseInt(IntToString(n)) == Some(n)
  {
    var r := IntToString(n);
    assert r == NatToString(n);
    assert Strip(r, IntSpaces) == r;
    assert r[0] != '+' && r[0] != '-' by {
      assert IsDigit(r[0]);
    }
    assert ParseDigits(r) == Some(n);
  }

  lemma ParseNegative(i: int)
    requires i < 0
    ensures ParseInt(IntToString(i)) == Some(i)
  {
    var r := IntToString(i);
    var d := NatToString(-i);
    assert r == "-" + d;
    assert Strip(r, IntSpaces) == r;
    assert r[1..] == d;
    assert ParseDigits(d) == Some(-i);
  }

  /** `int()` also accepts the digits with whitespace of its own set around them. */
  lemma {:induction false} ParseIntPadded(pre: string, i: int, post: string)
    requires forall k :: 0 <= k < |pre| ==> IsIntSpace(pre[k])
    requires forall k :: 0 <= k < |post| ==> IsIntSpace(post[k])
    ensures ParseInt(pre + IntToString(i) + post) == Some(i)
  {
    var r := IntToString(i);
    StripPadded(pre, r, post, IntSpaces);
    ParseIntStrip(pre + r + post);
    ParseIntToString(i);
  }

  /** `int(s)` only looks at `s` with the whitespace `int()` skips removed. */
  lemma ParseIntStrip(s: string)
    ensures ParseInt(s) == ParseInt(Strip(s, IntSpaces))
  {
    StripIdempotent(s, IntSpaces);
  }

  lemma StripPadded(pre: string, r: string, post: string, ws: Spaces)
    requires forall k :: 0 <= k < |pre| ==> IsSpaceIn(pre[k], ws)
    requires forall k :: 0 <= k < |post| ==> IsSpaceIn(post[k], ws)
    requires r != [] && NoOuterSpace(r, ws)
    ensures Strip(pre + r + post, ws) == r
  {
    assert pre + r + post == pre + (r + post);
    StripLeftPadded(pre, r + post, ws);
    StripRightPadded(r, post, ws);
  }

  lemma {:induction false} StripLeftPadded(pre: string, x: string, ws: Spaces)
    requires forall k :: 0 <= k < |pre| ==> IsSpaceIn(pre[k], ws)
    requires x != [] && !IsSpaceIn(x[0], ws)
    ensures StripLeft(pre + x, ws) == x
    decreases |pre|
  {
    if pre != [] {
      assert (pre + x)[1..] == pre[1..] + x;
      StripLeftPadded(pre[1..], x, ws);
    }
  }

  lemma {:induction false} StripRightPadded(x: string, post: string, ws: Spaces)
    requires forall k :: 0 <= k < |post| ==> IsSpaceIn(post[k], ws)
    requires x != [] && !IsSpaceIn(x[|x| - 1], ws)
    ensures StripRight(x + post, ws) == x
    decreases |post|
  {
    if post != [] {
      assert (x + post)[..|x + post| - 1] == x + post[..|post| - 1];
      StripRightPadded(x, post[..|post| - 1], ws);
    } else {
      assert x + post == x;
    }
  }

  // ---------------------------------------------------------------- high_score.txt

  /**
   * The all-time high score as `__init__` loads it: a missing file gives 0,
   * and so does content that `int()` rejects after `strip()`.
   */
  function LoadHighScore(file: Option<string>): (r: int)
    ensures file.None? ==> r == 0
    ensures file.Some? && ParseInt(Strip(file.value, StrSpaces)).None? ==> r == 0
    ensures file.Some? && ParseInt(Strip(file.value, StrSpaces)).Some? ==>
      r == ParseInt(Strip(file.value, StrSpaces)).value
  {
    match file
    case None => 0
    case Some(text) =>
      match ParseInt(Strip(text, StrSpaces))
      case None => 0
      case Some(v) => v
  }

  /** What `save_high_score` writes: `str(high_score)`. */
  function HighScoreText(high: int): (text: string)
    ensures ParseInt(text) == Some(high)
  {
    ParseIntToString(high);
    IntToString(high)
  }

  /** Loading the text `save_high_score` wrote gives back the same score. */
  lemma HighScoreRoundTrip(high: int)
    ensures LoadHighScore(Some(HighScoreText(high))) == high
  {
  }
}
