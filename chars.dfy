/** Character classes shared by the digit string and the score-file parsers. */
module Chars {

  /** An ASCII decimal digit, the only kind of digit the model accepts. */
  predicate IsDigit(c: char) {
    '0' <= c <= '9'
  }

  /**
   * Whitespace as Python's `str.isspace()` and `str.strip()` see it: tab to
   * carriage return, the separators 0x1C to 0x1F, space, 0x85, no-break
   * space and the Unicode space and line separators.
   */
  predicate IsSpace(c: char) {
    var n := c as int;
    (9 <= n <= 13) || (0x1C <= n <= 0x20) || n == 0x85 || n == 0xA0 || n == 0x1680
    || (0x2000 <= n <= 0x200A) || n == 0x2028 || n == 0x2029 || n == 0x202F
    || n == 0x205F || n == 0x3000
  }

  /**
   * Whitespace `int()` skips around a number: the same set without the
   * separators 0x1C to 0x1F, which `int()` leaves as they are and rejects.
   */
  predicate IsIntSpace(c: char) {
    IsSpace(c) && !(0x1C <= c as int <= 0x1F)
  }

  /** Which whitespace is meant: that of `str.strip()`, or the narrower one of `int()`. */
  datatype Spaces = StrSpaces | IntSpaces

  predicate IsSpaceIn(c: char, ws: Spaces) {
    match ws
    case StrSpaces => IsSpace(c)
    case IntSpaces => IsIntSpace(c)
  }

  predicate AllDigits(s: string) {
    forall i :: 0 <= i < |s| ==> IsDigit(s[i])
  }
}
