/**
 The character classes of the SSTP host pattern of main.py:32,
   SSTP Hostname\s*:\s*([a-zA-Z0-9\.\-]+(?::\d+)?)
 as Python 3 interprets them on `str` input: `\s` and `\d` are Unicode-aware,
 the bracketed host class is plain ASCII.
 */
module Chars {

  /** The literal the pattern starts with; matched case-sensitively. */
  const Label: string := "SSTP Hostname"

  /** The three classes the pattern uses. */
  datatype Class = Space | Host | Digit

  /** Python's `\s` on str patterns: exactly the characters for which
      `str.isspace()` holds. */
  predicate IsSpace(c: char) {
    var n := c as int;
    || 0x09 <= n <= 0x0D
    || 0x1C <= n <= 0x20
    || n == 0x85
    || n == 0xA0
    || n == 0x1680
    || 0x2000 <= n <= 0x200A
    || n == 0x2028
    || n == 0x2029
    || n == 0x202F
    || n == 0x205F
    || n == 0x3000
  }

  /** Code points of the digit zero of every non-ASCII run of ten decimal
      digits (general category Nd) in Unicode 15.0/15.1, ascending. */
  const OtherDigitZeros: seq<int> := [
    0x0660, 0x06F0, 0x07C0, 0x0966, 0x09E6, 0x0A66, 0x0AE6, 0x0B66, 0x0BE6,
    0x0C66, 0x0CE6, 0x0D66, 0x0DE6, 0x0E50, 0x0ED0, 0x0F20, 0x1040, 0x1090,
    0x17E0, 0x1810, 0x1946, 0x19D0, 0x1A80, 0x1A90, 0x1B50, 0x1BB0, 0x1C40,
    0x1C50, 0xA620, 0xA8D0, 0xA900, 0xA9D0, 0xA9F0, 0xAA50, 0xABF0, 0xFF10,
    0x104A0, 0x10D30, 0x11066, 0x110F0, 0x11136, 0x111D0, 0x112F0, 0x11450,
    0x114D0, 0x11650, 0x116C0, 0x11730, 0x118E0, 0x11950, 0x11C50, 0x11D50,
    0x11DA0, 0x11F50, 0x16A60, 0x16AC0, 0x16B50, 0x1D7CE, 0x1D7D8, 0x1D7E2,
    0x1D7EC, 0x1D7F6, 0x1E140, 0x1E2F0, 0x1E4F0, 0x1E950, 0x1FBF0
  ]

  /** Python's `\d` on str patterns: any Unicode decimal digit. All the
      non-ASCII ones lie at U+0660 or above. */
  predicate IsDigit(c: char) {
    || '0' <= c <= '9'
    || (0x0660 <= c as int && InDigitRunFrom(c as int, 0))
  }

  /** Code point `n` lies in one of the runs of ten from the `k`-th zero on. */
  predicate InDigitRunFrom(n: int, k: nat)
    decreases |OtherDigitZeros| - k
  {
    && k < |OtherDigitZeros|
    && (OtherDigitZeros[k] <= n < OtherDigitZeros[k] + 10 || InDigitRunFrom(n, k + 1))
  }

  /** The bracketed class `[a-zA-Z0-9\.\-]`: ASCII letters, ASCII digits, dot, hyphen. */
  predicate IsHostChar(c: char) {
    || 'a' <= c <= 'z'
    || 'A' <= c <= 'Z'
    || '0' <= c <= '9'
    || c == '.'
    || c == '-'
  }

  /** The facts about the classes that make the pattern unambiguous: no
      class holds ':', no host character is whitespace, and a line break is
      whitespace only. */
  lemma ClassesSeparate(c: char)
    ensures IsHostChar(c) ==> !IsSpace(c)
    ensures c == ':' ==> !IsSpace(c) && !IsHostChar(c) && !IsDigit(c)
    ensures c == '\n' ==> IsSpace(c) && !IsHostChar(c) && !IsDigit(c)
    ensures '0' <= c <= '9' ==> IsDigit(c) && IsHostChar(c)
  {
  }

  predicate In(k: Class, c: char) {
    match k
    case Space => IsSpace(c)
    case Host => IsHostChar(c)
    case Digit => IsDigit(c)
  }

  /** Every character of `s` belongs to class `k`. */
  predicate All(k: Class, s: string) {
    forall j :: 0 <= j < |s| ==> In(k, s[j])
  }
}
