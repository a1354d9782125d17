/**
 * `sanitizeFilename` of the presign handler: keep the basename, fall back
 * to `upload` when it is empty, replace every code unit outside
 * `[A-Za-z0-9_.-]` by `_`, and keep at most the first 200 code units.
 */
module Sanitize {
  import opened JsText

  /** Longest name kept by `slice(0, 200)`. */
  const MaxNameLength: nat := 200

  /** The fallback name used when stripping the path leaves nothing. */
  const Upload: JsString := Ascii("upload")

  /**
   * What `^.*[/\\]` matches as a prefix of a string: a non-empty run of code
   * units, none of them a line terminator (which `.` refuses), ending in a
   * slash or a backslash.
   */
  predicate IsLeadingPath(p: JsString) {
    && |p| > 0
    && IsSeparator(p[|p| - 1])
    && NoLineTerminator(p)
  }

  /**
   * The length of the text removed by `replace(/^.*[/\\]/, '')`: the greedy
   * `.*` makes it the LONGEST prefix that is a leading path, or 0 when no
   * prefix is one (the regular expression then does not match).
   */
  function PathEnd(s: JsString): (k: nat)
    ensures k <= |s|
    ensures k == 0 || IsLeadingPath(s[..k])
    ensures forall j | k < j <= |s| :: !IsLeadingPath(s[..j])
  {
    if s == [] then 0
    else
      LeadingPathStep(s);
      if IsLineTerminator(s[0]) then 0
      else
        var k' := PathEnd(s[1..]);
        if k' > 0 then k' + 1
        else if IsSeparator(s[0]) then 1
        else 0
  }

  /** A prefix longer than one unit is a leading path when its first unit ends no line and the rest is one. */
  lemma LeadingPathStep(s: JsString)
    requires |s| > 0
    ensures IsLeadingPath(s[..1]) <==> IsSeparator(s[0]) && !IsLineTerminator(s[0])
    ensures forall j | 1 < j <= |s| ::
      IsLeadingPath(s[..j]) <==> !IsLineTerminator(s[0]) && IsLeadingPath(s[1..][..j - 1])
  {
    forall j | 1 < j <= |s|
      ensures IsLeadingPath(s[..j]) <==> !IsLineTerminator(s[0]) && IsLeadingPath(s[1..][..j - 1])
    {
      assert s[..j] == [s[0]] + s[1..][..j - 1];
    }
  }

  /** `filename.replace(/^.*[/\\]/, '')`. */
  function StripLeadingPath(s: JsString): (r: JsString)
    ensures EndsWith(s, r)
    ensures r == s || IsLeadingPath(s[..|s| - |r|])
    ensures forall j | |s| - |r| < j <= |s| :: !IsLeadingPath(s[..j])
  {
    s[PathEnd(s)..]
  }

  /** `filename.replace(/^.*[/\\]/, '') || 'upload'`: an empty string is falsy. */
  function Basename(s: JsString): (r: JsString)
    ensures |r| > 0
  {
    var b := StripLeadingPath(s);
    if b == [] then Upload else b
  }

  /** The replacement of one code unit by `replace(/[^\w.\-]/g, '_')`. */
  function SafeUnit(u: CodeUnit): (r: CodeUnit)
    ensures IsSafe(r)
    ensures IsSafe(u) ==> r == u
    ensures !IsSafe(u) ==> r == Underscore
  {
    if IsSafe(u) then u else Underscore
  }

  /** `replace(/[^\w.\-]/g, '_')`: one code unit in, one code unit out. */
  function ReplaceUnsafe(s: JsString): (r: JsString)
    ensures |r| == |s|
    ensures AllSafe(r)
    ensures forall i | 0 <= i < |s| :: r[i] == SafeUnit(s[i])
    ensures AllSafe(s) ==> r == s
  {
    seq(|s|, i requires 0 <= i < |s| => SafeUnit(s[i]))
  }

  /** `s.slice(0, n)` for a non-negative `n`. */
  function SliceTo(s: JsString, n: nat): (r: JsString)
    ensures |r| == if |s| < n then |s| else n
    ensures r <= s
  {
    if |s| <= n then s else s[..n]
  }

  /** `sanitizeFilename(filename)`. */
  function SanitizeFilename(f: JsString): (r: JsString)
    ensures 0 < |r| <= MaxNameLength
    ensures |r| == Min(MaxNameLength, |Basename(f)|)
    ensures AllSafe(r)
    ensures NoSeparator(r)
  {
    var r := SliceTo(ReplaceUnsafe(Basename(f)), MaxNameLength);
    SafeIsPlain(r);
    r
  }

  function Min(a: nat, b: nat): nat { if a < b then a else b }

  /**
   * Falling back to `upload` after replacement and slicing, instead of
   * before, would give the same result: replacement is one-for-one and a
   * non-empty string keeps at least one unit under the cut.
   */
  lemma {:induction false} FallbackOrderIrrelevant(f: JsString)
    ensures SanitizeFilename(f) ==
      var r := SliceTo(ReplaceUnsafe(StripLeadingPath(f)), MaxNameLength);
      if r == [] then Upload else r
  {
    SafeNameUnchanged(Upload);
  }

  /** The strip never reaches past the first line terminator. */
  lemma StripStopsAtLineTerminator(s: JsString, i: nat)
    requires i < |s| && IsLineTerminator(s[i])
    ensures PathEnd(s) <= i
    ensures s[i..] == StripLeadingPath(s)[i - PathEnd(s)..]
  {
  }

  /** A name without slash or backslash keeps all of its text. */
  lemma {:induction false} NoSeparatorNoPath(s: JsString)
    requires NoSeparator(s)
    ensures PathEnd(s) == 0
    ensures StripLeadingPath(s) == s
  {
  }

  /** The replacement is one-for-one on the basename, before the cut at 200. */
  lemma SanitizeAt(f: JsString, i: nat)
    requires i < |SanitizeFilename(f)|
    ensures i < |Basename(f)|
    ensures SanitizeFilename(f)[i] == SafeUnit(Basename(f)[i])
  {
  }

  /** A name that is already non-empty, safe and at most 200 code units long comes back unchanged. */
  lemma {:induction false} SafeNameUnchanged(s: JsString)
    requires 0 < |s| <= MaxNameLength
    requires AllSafe(s)
    ensures SanitizeFilename(s) == s
  {
    SafeIsPlain(s);
    NoSeparatorNoPath(s);
  }

  /** Sanitizing twice is sanitizing once. */
  lemma {:induction false} SanitizeIdempotent(f: JsString)
    ensures SanitizeFilename(SanitizeFilename(f)) == SanitizeFilename(f)
  {
    SafeNameUnchanged(SanitizeFilename(f));
  }

  /**
   * When nothing before the last separator ends a line, only the text after
   * that separator matters: `a/b/c.pdf` sanitizes like `c.pdf`.
   */
  lemma {:induction false} SanitizeLastSegment(p: JsString, sep: CodeUnit, t: JsString)
    requires IsSeparator(sep)
    requires NoLineTerminator(p)
    requires NoSeparator(t)
    ensures StripLeadingPath(p + [sep] + t) == t
    ensures SanitizeFilename(p + [sep] + t) == SanitizeFilename(t)
  {
    var s := p + [sep] + t;
    var n := |p| + 1;
    assert s[..n] == p + [sep];
    assert IsLeadingPath(s[..n]);
    var k := PathEnd(s);
    assert k == n;
    assert s[n..] == t;
    NoSeparatorNoPath(t);
  }

  /** A name ending in a separator, with no line terminator before it, becomes `upload`. */
  lemma {:induction false} SanitizeTrailingSeparator(p: JsString, sep: CodeUnit)
    requires IsSeparator(sep)
    requires NoLineTerminator(p)
    ensures SanitizeFilename(p + [sep]) == Upload
  {
    var e: JsString := [];
    assert p + [sep] + e == p + [sep];
    SanitizeLastSegment(p, sep, e);
    SanitizeEmpty();
  }

  /** The empty name becomes `upload`. */
  lemma SanitizeEmpty()
    ensures SanitizeFilename([]) == Upload
  {
    SafeNameUnchanged(Upload);
    assert Basename([]) == Upload;
  }

  // The worked examples below take the name as a parameter fixed by their
  // requires, so that the verifier reasons about it symbolically instead of
  // unfolding every function on a literal.

  /** A path-traversal name keeps only its last segment. */
  lemma TraversalExample(s: JsString)
    requires s == Ascii("../../etc/passwd")
    ensures SanitizeFilename(s) == Ascii("passwd")
  {
    var p, t := Ascii("../../etc"), Ascii("passwd");
    assert s == p + [0x2F] + t by {
      assert |s| == |p + [0x2F] + t|;
      forall i | 0 <= i < |s| ensures s[i] == (p + [0x2F] + t)[i] { }
    }
    assert NoLineTerminator(p);
    assert NoSeparator(t) && AllSafe(t);
    SanitizeLastSegment(p, 0x2F, t);
    SafeNameUnchanged(t);
  }

  /**
   * `.` does not cross a line break, so only `a/` is stripped from
   * `a/b<LF>c/d`; the line break and the second slash become `_`.
   */
  lemma LineBreakExample(s: JsString)
    requires s == Ascii("a/b\nc/d")
    ensures SanitizeFilename(s) == Ascii("b_c_d")
  {
    assert s == [0x61, 0x2F, 0x62, 0x0A, 0x63, 0x2F, 0x64];
    assert Ascii("b_c_d") == [0x62, 0x5F, 0x63, 0x5F, 0x64];
    LineBreakUnits(s);
  }

  /** `LineBreakExample` on the code units themselves. */
  lemma LineBreakUnits(s: JsString)
    requires s == [0x61, 0x2F, 0x62, 0x0A, 0x63, 0x2F, 0x64]
    ensures SanitizeFilename(s) == [0x62, 0x5F, 0x63, 0x5F, 0x64]
  {
    LineBreakStrip(s);
    var b: JsString := [0x62, 0x0A, 0x63, 0x2F, 0x64];
    assert Basename(s) == b;
    var r := ReplaceUnsafe(b);
    assert r[0] == 0x62 && r[1] == 0x5F && r[2] == 0x63 && r[3] == 0x5F && r[4] == 0x64;
    assert r == [0x62, 0x5F, 0x63, 0x5F, 0x64];
  }

  /** Only `a/` is a leading path of `a/b<LF>c/d`. */
  lemma LineBreakStrip(s: JsString)
    requires s == [0x61, 0x2F, 0x62, 0x0A, 0x63, 0x2F, 0x64]
    ensures StripLeadingPath(s) == [0x62, 0x0A, 0x63, 0x2F, 0x64]
  {
    StripStopsAtLineTerminator(s, 3);
    assert IsLeadingPath(s[..2]);
    assert !IsLeadingPath(s[..3]);
    assert PathEnd(s) == 2;
  }

  /** The name used by the integration test comes back unchanged. */
  lemma IntegrationNameExample(s: JsString)
    requires s == Ascii("integration-test.pdf")
    ensures SanitizeFilename(s) == s
  {
    assert 0 < |s| <= MaxNameLength && AllSafe(s);
    SafeNameUnchanged(s);
  }

  /** A character outside the Basic Multilingual Plane is two code units, so two underscores. */
  lemma AstralExample(s: JsString)
    requires s == Utf16("\U{1F600}.txt")
    ensures SanitizeFilename(s) == Ascii("__.txt")
  {
    EmojiEncoding();
    assert "\U{1F600}.txt"[0] == '\U{1F600}' && "\U{1F600}.txt"[1..] == ".txt";
    assert Utf16(".txt") == [0x2E, 0x74, 0x78, 0x74];
    assert s == [0xD83D, 0xDE00, 0x2E, 0x74, 0x78, 0x74];
    assert Ascii("__.txt") == [0x5F, 0x5F, 0x2E, 0x74, 0x78, 0x74];
    NoSeparatorNoPath(s);
    assert Basename(s) == s;
  }

  /** U+1F600 is the surrogate pair D83D DE00. */
  lemma EmojiEncoding()
    ensures EncodeChar('\U{1F600}') == [0xD83D, 0xDE00]
  {
  }

  /** An empty name and a bare directory both fall back to `upload`. */
  lemma FallbackExamples(s: JsString)
    requires s == Ascii("reports/")
    ensures SanitizeFilename(s) == Upload
    ensures SanitizeFilename([]) == Upload
  {
    var p := Ascii("reports");
    assert s == p + [0x2F];
    assert NoLineTerminator(p);
    SanitizeTrailingSeparator(p, 0x2F);
    SafeNameUnchanged(Upload);
  }
}
