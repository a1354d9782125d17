/**
 * JavaScript strings as the handler sees them: sequences of UTF-16 code
 * units. Regular expressions without the `u` flag, `.length` and `slice`
 * all work on code units, so a character outside the Basic Multilingual
 * Plane counts as two.
 */
module JsText {

  /** One UTF-16 code unit. */
  newtype CodeUnit = x: int | 0 <= x < 0x1_0000

  type JsString = seq<CodeUnit>

  /** The UTF-16 encoding of one Unicode scalar value. */
  function EncodeChar(c: char): (r: JsString)
    ensures 1 <= |r| <= 2
    ensures |r| == 1 <==> c as int < 0x1_0000
    ensures |r| == 1 ==> r[0] as int == c as int
    ensures |r| == 2 ==> IsHighSurrogate(r[0]) && IsLowSurrogate(r[1])
  {
    var v := c as int;
    if v < 0x1_0000 then [v as CodeUnit]
    else
      var w := v - 0x1_0000;
      [(0xD800 + w / 0x400) as CodeUnit, (0xDC00 + w % 0x400) as CodeUnit]
  }

  /** The UTF-16 encoding of a Dafny string. */
  function Utf16(s: string): (r: JsString)
    ensures |s| <= |r| <= 2 * |s|
  {
    if s == [] then [] else EncodeChar(s[0]) + Utf16(s[1..])
  }

  predicate IsAscii(s: string) {
    forall i | 0 <= i < |s| :: s[i] as int < 0x80
  }

  /** An ASCII literal of the source, one code unit per character. */
  function Ascii(s: string): (r: JsString)
    requires IsAscii(s)
    ensures |r| == |s|
    ensures forall i | 0 <= i < |s| :: r[i] as int == s[i] as int
  {
    seq(|s|, i requires 0 <= i < |s| => s[i] as int as CodeUnit)
  }

  predicate IsHighSurrogate(u: CodeUnit) { 0xD800 <= u <= 0xDBFF }
  predicate IsLowSurrogate(u: CodeUnit) { 0xDC00 <= u <= 0xDFFF }

  /** The code units that end a line for `.` in a regular expression: LF, CR, U+2028, U+2029. */
  predicate IsLineTerminator(u: CodeUnit) {
    u == 0x0A || u == 0x0D || u == 0x2028 || u == 0x2029
  }

  /** The class `[/\\]`: a slash or a backslash. */
  predicate IsSeparator(u: CodeUnit) {
    u == 0x2F || u == 0x5C
  }

  /** The class `[\w.\-]` without the `u` flag: ASCII letters, digits, `_`, `.` and `-`. */
  predicate IsSafe(u: CodeUnit)
    ensures IsSafe(u) ==> !IsSeparator(u) && !IsLineTerminator(u)
  {
    || (0x41 <= u <= 0x5A)   // A-Z
    || (0x61 <= u <= 0x7A)   // a-z
    || (0x30 <= u <= 0x39)   // 0-9
    || u == Underscore
    || u == 0x2E             // .
    || u == Hyphen
  }

  const Underscore: CodeUnit := 0x5F
  const Hyphen: CodeUnit := 0x2D

  predicate AllSafe(s: JsString) {
    forall i | 0 <= i < |s| :: IsSafe(s[i])
  }

  predicate NoSeparator(s: JsString) {
    forall i | 0 <= i < |s| :: !IsSeparator(s[i])
  }

  /** `s.endsWith(t)`. */
  predicate EndsWith(s: JsString, t: JsString) {
    |t| <= |s| && s[|s| - |t|..] == t
  }

  predicate NoLineTerminator(s: JsString) {
    forall i | 0 <= i < |s| :: !IsLineTerminator(s[i])
  }

  /** A safe code unit is neither a separator nor a line terminator. */
  lemma SafeIsPlain(s: JsString)
    requires AllSafe(s)
    ensures NoSeparator(s) && NoLineTerminator(s)
  {
  }

  /** On ASCII text the general encoding and the literal shortcut agree. */
  lemma {:induction false} AsciiIsUtf16(s: string)
    requires IsAscii(s)
    ensures Utf16(s) == Ascii(s)
  {
    if s != [] {
      AsciiIsUtf16(s[1..]);
      assert Ascii(s) == [Ascii(s)[0]] + Ascii(s[1..]);
    }
  }
}
