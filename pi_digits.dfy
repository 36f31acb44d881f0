/**
 * The reference sequence of the game: the literal "3." followed by the first
 * 500 fractional digits of pi, and the Python slices the game takes of it
 * (a forward slice `s[lo:hi]` and a tail slice `s[-n:]`).
 *
 * The digits are written as four blocks of 125, each built from 25-digit
 * pieces: the verifier reads single characters of short literals only.
 */
module PiDigits {
  const Fraction1: string :=
    "1415926535897932384626433"
    + ("8327950288419716939937510"
    + ("5820974944592307816406286"
    + ("2089986280348253421170679"
    + ("8214808651328230664709384"))))

  const Fraction2: string :=
    "4609550582231725359408128"
    + ("4811174502841027019385211"
    + ("0555964462294885493038196"
    + ("4428810975665933446128475"
    + ("6482337867831652712019091"))))

  const Fraction3: string :=
    "4564856692346034861045432"
    + ("6648213393607260249141273"
    + ("7245870066063155881748815"
    + ("2092096282925409171536436"
    + ("7892590360011330530548820"))))

  const Fraction4: string :=
    "4665213841469519415116094"
    + ("3305727036575959195309218"
    + ("6117381932611793105118548"
    + ("0744623799627495673518857"
    + ("5272489122793818301194912"))))

  /** The 500 fractional digits. */
  const Fraction: string := Fraction1 + (Fraction2 + (Fraction3 + Fraction4))

  /** The game's `pi_digits` string once its separating spaces are removed. */
  const Pi: string := "3." + Fraction

  /** Number of characters before the first fractional digit ("3."). */
  const Offset: nat := 2

  /** Number of fractional digits the game knows. */
  const FractionDigits: nat := 500

  /** `pi_digits` has 502 characters in all, and its first two are "3.". */
  lemma PiShape()
    ensures |Pi| == Offset + FractionDigits
    ensures Pi[..Offset] == "3."
  {
  }

  /** The first eight fractional digits. */
  lemma PiStart()
    ensures Pi[Offset..Offset + 8] == "14159265"
  {
    FractionStart();
    AfterPrefix("3.", Fraction, 8);
  }

  /** Characters counted from the end of a prefix a are the characters of what follows it. */
  lemma AfterPrefix(a: string, b: string, n: nat)
    requires n <= |b|
    ensures (a + b)[|a|..|a| + n] == b[..n]
  {
  }

  lemma FractionStart()
    ensures Fraction[..8] == "14159265"
  {
    var piece := "1415926535897932384626433";
    assert Fraction1[..8] == piece[..8];
    assert Fraction[..8] == Fraction1[..8];
  }

  function Min(a: int, b: int): int { if a <= b then a else b }

  /** Python's `s[lo:hi]` for non-negative bounds: clamped to the string, never fails. */
  function Slice(s: string, lo: nat, hi: nat): (r: string)
    ensures lo < |s| && lo < hi ==> |r| == Min(hi, |s|) - lo
    ensures lo >= |s| || hi <= lo ==> r == []
    ensures |r| <= |s| && |r| <= if lo <= hi then hi - lo else 0
    ensures forall k :: 0 <= k < |r| ==> lo + k < |s| && r[k] == s[lo + k]
  {
    if lo >= |s| || hi <= lo then [] else s[lo..Min(hi, |s|)]
  }

  /** Python's `s[-n:]` for n > 0: the last n characters, or all of s when it is shorter. */
  function Tail(s: string, n: nat): (r: string)
    requires n > 0
    ensures |r| == Min(n, |s|)
    ensures forall k :: 0 <= k < |r| ==> r[k] == s[|s| - |r| + k]
  {
    if n >= |s| then s else s[|s| - n..]
  }
}
