/** The three string primitives the request boundary relies on:
    JavaScript's `String.prototype.trim`, lower-casing for the comparison with
    ".pdf", and Node's POSIX `path.extname`.
 */
module Text {

  /** The characters `trim` removes: ECMAScript WhiteSpace and LineTerminator. */
  predicate IsSpace(c: char) {
    || c == ' ' || c == '\t' || c == '\n' || c == '\r'
    || c == '\U{000B}' || c == '\U{000C}' || c == '\U{00A0}' || c == '\U{1680}'
    || ('\U{2000}' <= c <= '\U{200A}')
    || c == '\U{2028}' || c == '\U{2029}' || c == '\U{202F}' || c == '\U{205F}'
    || c == '\U{3000}' || c == '\U{FEFF}'
  }

  predicate AllSpace(s: string) {
    forall i :: 0 <= i < |s| ==> IsSpace(s[i])
  }

  /** The first index at or after `i` that does not hold white space, or
      `|s|` when there is none. */
  function SkipSpace(s: string, i: nat): (j: nat)
    requires i <= |s|
    ensures i <= j <= |s|
    ensures forall k :: i <= k < j ==> IsSpace(s[k])
    ensures j < |s| ==> !IsSpace(s[j])
    decreases |s| - i
  {
    if i < |s| && IsSpace(s[i]) then SkipSpace(s, i + 1) else i
  }

  /** The least index `k` at or above `lo` such that `s[k..j]` is all white
      space. */
  function SkipSpaceBack(s: string, lo: nat, j: nat): (k: nat)
    requires lo <= j <= |s|
    ensures lo <= k <= j
    ensures forall m :: k <= m < j ==> IsSpace(s[m])
    ensures k > lo ==> !IsSpace(s[k - 1])
  {
    if j > lo && IsSpace(s[j - 1]) then SkipSpaceBack(s, lo, j - 1) else j
  }

  /** Length of the white space `s` starts with. */
  function LeadLength(s: string): nat
    ensures LeadLength(s) <= |s|
  {
    SkipSpace(s, 0)
  }

  /** `s.trim()`: the slice of `s` left once the white space at both ends is
      cut, which neither starts nor ends with white space. */
  function Trim(s: string): (r: string)
    ensures LeadLength(s) + |r| <= |s|
    ensures r == s[LeadLength(s) .. LeadLength(s) + |r|]
    ensures AllSpace(s[..LeadLength(s)]) && AllSpace(s[LeadLength(s) + |r|..])
    ensures r == [] || (!IsSpace(r[0]) && !IsSpace(r[|r| - 1]))
  {
    var a := SkipSpace(s, 0);
    var e := SkipSpaceBack(s, a, |s|);
    assert AllSpace(s[..a]) by {
      assert forall k :: 0 <= k < a ==> s[..a][k] == s[k];
    }
    assert AllSpace(s[e..]) by {
      assert forall k :: 0 <= k < |s| - e ==> s[e..][k] == s[e + k];
    }
    s[a..e]
  }

  /** A string trims to nothing exactly when it is all white space. */
  lemma {:induction false} TrimEmptyIffBlank(s: string)
    ensures Trim(s) == [] <==> AllSpace(s)
  {
    var a := LeadLength(s);
    var r := Trim(s);
    if r == [] {
      assert a == |s|;
      forall i | 0 <= i < |s|
        ensures IsSpace(s[i])
      {
        assert s[i] == s[..a][i];
      }
    } else {
      assert s[a] == r[0];
    }
  }

  /** Trimming twice trims nothing more. */
  lemma TrimIdempotent(s: string)
    ensures Trim(Trim(s)) == Trim(s)
  {
    var t := Trim(s);
    if t != [] {
      assert SkipSpace(t, 0) == 0;
      assert SkipSpaceBack(t, 0, |t|) == |t|;
    }
  }

  /** ASCII lower-casing of one character. */
  function LowerChar(c: char): char {
    if 'A' <= c <= 'Z' then (c as int + 32) as char else c
  }

  /** Lower-casing as used on file extensions. Only ASCII letters are mapped:
      no other character lower-cases to one of `.`, `p`, `d`, `f`, so for the
      comparison with ".pdf" this agrees with `toLowerCase`. */
  function ToLower(s: string): (r: string)
    ensures |r| == |s|
    ensures forall i :: 0 <= i < |s| ==> r[i] == LowerChar(s[i])
  {
    seq(|s|, i requires 0 <= i < |s| => LowerChar(s[i]))
  }

  /** `p` without its trailing slashes. */
  function StripTrailingSlashes(p: string): (r: string)
    ensures |r| <= |p| && r == p[..|r|]
    ensures r == [] || r[|r| - 1] != '/'
    ensures forall i :: |r| <= i < |p| ==> p[i] == '/'
  {
    p[..SlashRunStart(p, |p|)]
  }

  /** The least `k` such that `p[k..n]` is all slashes. */
  function SlashRunStart(p: string, n: nat): (k: nat)
    requires n <= |p|
    ensures k <= n
    ensures k == 0 || p[k - 1] != '/'
    ensures forall i :: k <= i < n ==> p[i] == '/'
  {
    if n > 0 && p[n - 1] == '/' then SlashRunStart(p, n - 1) else n
  }

  /** The part of `p` after its last slash. */
  function AfterLastSlash(p: string): (r: string)
    ensures |r| <= |p| && r == p[|p| - |r|..]
    ensures '/' !in r
    ensures |r| < |p| ==> p[|p| - |r| - 1] == '/'
  {
    var k := SegmentStart(p, |p|);
    assert forall i :: 0 <= i < |p| - k ==> p[k..][i] == p[k + i];
    p[k..]
  }

  /** The index just after the last slash among the first `n` characters of
      `p`, or 0 when there is none. */
  function SegmentStart(p: string, n: nat): (k: nat)
    requires n <= |p|
    ensures k <= n
    ensures k == 0 || p[k - 1] == '/'
    ensures forall i :: k <= i < n ==> p[i] != '/'
  {
    if n == 0 || p[n - 1] == '/' then n else SegmentStart(p, n - 1)
  }

  /** Index of the last '.' of `b`, or -1 when there is none. */
  function LastDot(b: string): (k: int)
    ensures -1 <= k < |b|
    ensures k >= 0 ==> b[k] == '.'
    ensures forall i :: k < i < |b| ==> b[i] != '.'
  {
    LastDotBelow(b, |b|)
  }

  /** Index of the last '.' among the first `n` characters of `b`, or -1. */
  function LastDotBelow(b: string, n: nat): (k: int)
    requires n <= |b|
    ensures -1 <= k < n
    ensures k >= 0 ==> b[k] == '.'
    ensures forall i :: k < i < n ==> b[i] != '.'
  {
    if n == 0 then -1
    else if b[n - 1] == '.' then n - 1
    else LastDotBelow(b, n - 1)
  }

  /** The last segment of `path` once its trailing slashes are dropped. */
  function LastSegment(path: string): string {
    AfterLastSlash(StripTrailingSlashes(path))
  }

  /** Some '.' of `b` follows its first character. */
  predicate HasInnerDot(b: string) {
    exists k :: 0 < k < |b| && b[k] == '.'
  }

  /** `r` is a suffix of `s`. */
  predicate IsSuffix(r: string, s: string) {
    |r| <= |s| && r == s[|s| - |r|..]
  }

  /** Node's POSIX `path.extname`: from the last '.' of the last path segment
      (trailing slashes ignored) to its end; empty when the segment has no '.',
      when its only '.' leads the segment, or when the segment is "..". */
  function Extname(path: string): (r: string)
    ensures r == [] || (r[0] == '.' && '.' !in r[1..] && '/' !in r)
    ensures IsSuffix(r, StripTrailingSlashes(path)) && IsSuffix(r, LastSegment(path))
    ensures r != [] <==> HasInnerDot(LastSegment(path)) && !IsDotDot(LastSegment(path))
  {
    var stripped := StripTrailingSlashes(path);
    ExtensionFacts(stripped);
    ExtensionOf(stripped)
  }

  /** The extension of the last segment of `stripped`, a path without
      trailing slashes. */
  function ExtensionOf(stripped: string): string {
    var base := AfterLastSlash(stripped);
    var k := LastDot(base);
    if k <= 0 || IsDotDot(base) then [] else base[k..]
  }

  lemma ExtensionFacts(stripped: string)
    ensures var r := ExtensionOf(stripped);
      && (r == [] || (r[0] == '.' && '.' !in r[1..] && '/' !in r))
      && IsSuffix(r, stripped) && IsSuffix(r, AfterLastSlash(stripped))
      && (r != [] <==> HasInnerDot(AfterLastSlash(stripped)) && !IsDotDot(AfterLastSlash(stripped)))
  {
    var base := AfterLastSlash(stripped);
    var k := LastDot(base);
    if IsDotDot(base) {
      assert stripped[|stripped|..] == [] && base[|base|..] == [];
    } else if k <= 0 {
      assert stripped[|stripped|..] == [] && base[|base|..] == [];
      assert !HasInnerDot(base) by {
        forall j | 0 < j < |base|
          ensures base[j] != '.'
        {
        }
      }
    } else {
      ExtensionOfSegment(stripped, base, k);
      assert base[k..] == base[|base| - |base[k..]|..];
    }
  }

  /** `b` is the segment "..". */
  predicate IsDotDot(b: string) {
    |b| == 2 && b[0] == '.' && b[1] == '.'
  }

  /** The extension cut from the last segment `base` of `stripped` at its last
      dot `k` is a suffix of `stripped` with one leading dot and no slash. */
  lemma ExtensionOfSegment(stripped: string, base: string, k: nat)
    requires |base| <= |stripped| && base == stripped[|stripped| - |base|..]
    requires '/' !in base
    requires k < |base| && base[k] == '.'
    requires forall i :: k < i < |base| ==> base[i] != '.'
    ensures var r := base[k..];
      && r[0] == '.' && '.' !in r[1..] && '/' !in r
      && |r| <= |stripped| && r == stripped[|stripped| - |r|..]
  {
    var r := base[k..];
    assert '.' !in r[1..] by {
      forall j | 0 <= j < |r[1..]|
        ensures r[1..][j] != '.'
      {
        assert r[1..][j] == base[k + 1 + j];
      }
    }
    assert '/' !in r by {
      forall j | 0 <= j < |r|
        ensures r[j] != '/'
      {
        assert r[j] == base[k + j];
      }
    }
    assert r == stripped[|stripped| - |r|..] by {
      assert |stripped| - |r| == |stripped| - |base| + k;
    }
  }

  /** A name with no slash is its own last segment. */
  lemma AfterLastSlashOfPlainName(p: string)
    requires forall i :: 0 <= i < |p| ==> p[i] != '/'
    ensures AfterLastSlash(p) == p
  {
    assert SegmentStart(p, |p|) == 0;
  }

  /** A '.' with no other '.' after it is the last one. */
  lemma LastDotIs(b: string, k: nat)
    requires k < |b| && b[k] == '.'
    requires forall i :: k < i < |b| ==> b[i] != '.'
    ensures LastDot(b) == k
  {
  }

  /** A dot followed by at least one character and no further '.' or '/'. */
  predicate IsExtension(ext: string) {
    && |ext| >= 2 && ext[0] == '.'
    && forall i :: 1 <= i < |ext| ==> ext[i] != '.' && ext[i] != '/'
  }

  /** Any non-empty slash-free stem followed by an extension has exactly
      that extension. */
  lemma ExtensionRecognised(stem: string, ext: string)
    requires stem != [] && '/' !in stem
    requires IsExtension(ext)
    ensures Extname(stem + ext) == ext
  {
    var p := stem + ext;
    NameIsOneSegment(stem, ext);
    NameLastDot(stem, ext);
    assert p[|stem|..] == ext;
  }

  /** In particular ".pdf" is the extension of any such "<stem>.pdf". */
  lemma PdfExtensionRecognised(stem: string)
    requires stem != [] && '/' !in stem
    ensures Extname(stem + ".pdf") == ".pdf"
  {
    var e := ".pdf";
    assert e[1] == 'p' && e[2] == 'd' && e[3] == 'f';
    ExtensionRecognised(stem, e);
  }

  lemma NameIsOneSegment(stem: string, ext: string)
    requires '/' !in stem
    requires IsExtension(ext)
    ensures AfterLastSlash(StripTrailingSlashes(stem + ext)) == stem + ext
  {
    var p := stem + ext;
    assert p[|p| - 1] == ext[|ext| - 1];
    assert StripTrailingSlashes(p) == p;
    forall i | 0 <= i < |p|
      ensures p[i] != '/'
    {
      if i < |stem| {
        assert p[i] == stem[i];
      } else {
        assert p[i] == ext[i - |stem|];
      }
    }
    AfterLastSlashOfPlainName(p);
  }

  lemma NameLastDot(stem: string, ext: string)
    requires IsExtension(ext)
    ensures LastDot(stem + ext) == |stem|
  {
    var p := stem + ext;
    var n := |stem|;
    forall i | n < i < |p|
      ensures p[i] != '.'
    {
      assert p[i] == ext[i - n];
    }
    LastDotIs(p, n);
  }

  /** A character that lower-cases to a '.', 'p', 'd' or 'f' is not a '.'
      unless it is one, and never a '/'. */
  lemma LowerCharKeepsPunctuation(c: char)
    ensures LowerChar(c) == '.' <==> c == '.'
    ensures LowerChar(c) != '/' || c == '/'
  {
  }

  /** A name ending in ".pdf" in any letter case has an extension that
      lower-cases to ".pdf". */
  lemma {:induction false} LowerPdfExtension(stem: string, ext: string)
    requires stem != [] && '/' !in stem
    requires ToLower(ext) == ".pdf"
    ensures ToLower(Extname(stem + ext)) == ".pdf"
  {
    var low := ToLower(ext);
    assert low[0] == '.' && low[1] == 'p' && low[2] == 'd' && low[3] == 'f';
    assert IsExtension(ext) by {
      LowerCharKeepsPunctuation(ext[0]);
      forall i | 1 <= i < |ext|
        ensures ext[i] != '.' && ext[i] != '/'
      {
        assert LowerChar(ext[i]) == low[i];
        LowerCharKeepsPunctuation(ext[i]);
      }
    }
    ExtensionRecognised(stem, ext);
  }

  /** A file named just ".pdf" has no extension: its only dot leads the name. */
  lemma DotfileHasNoExtension()
    ensures Extname(".pdf") == []
  {
    var name := ".pdf";
    assert name[0] == '.' && name[1] == 'p' && name[2] == 'd' && name[3] == 'f';
    assert StripTrailingSlashes(name) == name by {
      assert SlashRunStart(name, 4) == 4;
    }
    assert AfterLastSlash(name) == name by {
      AfterLastSlashOfPlainName(name);
    }
    LastDotIs(name, 0);
  }
}
