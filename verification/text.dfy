/**
  The JavaScript string primitives the validators and the product search use,
  written out explicitly: the whitespace class shared by the regular
  expression escape `\s` and `String.prototype.trim`, ASCII character classes,
  an ASCII-only `toLowerCase`, `includes`, and `length` counted in UTF-16 code
  units.
 */
module Text {

  /** The ECMAScript WhiteSpace and LineTerminator code points: what `\s` matches and `trim` strips. */
  predicate IsSpace(c: char)
  {
    var n := c as int;
    (0x09 <= n <= 0x0D) || n == 0x20 || n == 0xA0 || n == 0x1680
    || (0x2000 <= n <= 0x200A) || n == 0x2028 || n == 0x2029
    || n == 0x202F || n == 0x205F || n == 0x3000 || n == 0xFEFF
  }

  predicate IsDigit(c: char) { '0' <= c <= '9' }

  predicate IsUpper(c: char) { 'A' <= c <= 'Z' }

  predicate IsLower(c: char) { 'a' <= c <= 'z' }

  /** `toLowerCase` restricted to ASCII: `A`-`Z` map to `a`-`z`, every other character is kept. */
  function ToLower(c: char): (r: char)
    ensures IsLower(r) <==> IsUpper(c) || IsLower(c)
    ensures !IsUpper(c) ==> r == c
  {
    if IsUpper(c) then (c as int - 'A' as int + 'a' as int) as char else c
  }

  function Lower(s: string): (r: string)
    ensures |r| == |s|
    ensures forall i | 0 <= i < |s| :: r[i] == ToLower(s[i])
  {
    seq(|s|, i requires 0 <= i < |s| => ToLower(s[i]))
  }

  /** `hay.includes(needle)`: `needle` occurs in `hay` at some offset. */
  predicate Includes(hay: string, needle: string)
  {
    exists i | 0 <= i <= |hay| - |needle| :: needle <= hay[i..]
  }

  /** Number of UTF-16 code units, which is what JavaScript's `length` counts. */
  function Utf16Length(s: string): (n: nat)
    ensures |s| <= n <= 2 * |s|
  {
    if |s| == 0 then 0
    else (if s[0] as int > 0xFFFF then 2 else 1) + Utf16Length(s[1..])
  }

  /** Every character lies in the Basic Multilingual Plane, so it is one UTF-16 code unit. */
  predicate InBmp(s: string)
  {
    forall i | 0 <= i < |s| :: s[i] as int <= 0xFFFF
  }

  /** `trimStart`: drops the leading whitespace and nothing else. */
  function TrimStart(s: string): (r: string)
    ensures |r| <= |s| && r == s[|s| - |r|..]
    ensures forall i | 0 <= i < |s| - |r| :: IsSpace(s[i])
    ensures |r| > 0 ==> !IsSpace(r[0])
  {
    if |s| > 0 && IsSpace(s[0]) then TrimStart(s[1..]) else s
  }

  /** `trimEnd`: drops the trailing whitespace and nothing else. */
  function TrimEnd(s: string): (r: string)
    ensures |r| <= |s| && r == s[..|r|]
    ensures forall i | |r| <= i < |s| :: IsSpace(s[i])
    ensures |r| > 0 ==> !IsSpace(r[|r| - 1])
  {
    if |s| > 0 && IsSpace(s[|s| - 1]) then TrimEnd(s[..|s| - 1]) else s
  }

  /**
    `trim`: the slice of `s` left after cutting whitespace from both ends, and
    only from the ends; it neither starts nor ends with whitespace.
   */
  function Trim(s: string): (r: string)
    ensures |r| > 0 ==> !IsSpace(r[0]) && !IsSpace(r[|r| - 1])
    ensures exists a, b :: CutAtEnds(s, r, a, b)
  {
    var t := TrimStart(s);
    var r := TrimEnd(t);
    TrimBothEnds(s);
    assert r <= s[|s| - |t|..];
    r
  }

  /** `r` is `s[a..b]`, and everything cut off before `a` and from `b` on is whitespace. */
  ghost predicate CutAtEnds(s: string, r: string, a: int, b: int)
  {
    && 0 <= a <= b <= |s|
    && r == s[a..b]
    && (forall i | 0 <= i < a :: IsSpace(s[i]))
    && (forall i | b <= i < |s| :: IsSpace(s[i]))
  }

  /** Trimming the start and then the end cuts whitespace at the two ends only. */
  lemma TrimBothEnds(s: string)
    ensures var t := TrimStart(s);
            CutAtEnds(s, TrimEnd(t), |s| - |t|, |s| - |t| + |TrimEnd(t)|)
  {
    var t := TrimStart(s);
    var a := |s| - |t|;
    var r := TrimEnd(t);
    var b := a + |r|;
    assert t == s[a..];
    assert r == t[..|r|];
    SliceOfSuffix(s, a, |r|);
    forall i | b <= i < |s| ensures IsSpace(s[i]) {
      TrimEndSpace(t, i - a);
      assert s[i] == t[i - a];
    }
  }

  /** A prefix of a suffix is a slice. */
  lemma SliceOfSuffix(s: string, a: int, k: int)
    requires 0 <= a <= |s| && 0 <= k <= |s| - a
    ensures s[a..][..k] == s[a..a + k]
  {
  }

  /** Every character `TrimEnd` cuts off is whitespace. */
  lemma TrimEndSpace(t: string, j: int)
    requires |TrimEnd(t)| <= j < |t|
    ensures IsSpace(t[j])
  {
  }

  /** Trimming strips exactly the whitespace-only strings down to nothing. */
  lemma TrimEmptyIffBlank(s: string)
    ensures |Trim(s)| == 0 <==> forall i | 0 <= i < |s| :: IsSpace(s[i])
  {
    var t := TrimStart(s);
    if |t| > 0 {
      assert !IsSpace(t[0]);
      assert |TrimEnd(t)| > 0;
      assert !IsSpace(s[|s| - |t|]);
    }
  }

  /** For strings of the Basic Multilingual Plane, `length` is the number of characters. */
  lemma {:induction false} Utf16LengthInBmp(s: string)
    ensures InBmp(s) ==> Utf16Length(s) == |s|
  {
    if |s| > 0 && InBmp(s) {
      Utf16LengthInBmp(s[1..]);
    }
  }

  lemma LowerIdempotent(s: string)
    ensures Lower(Lower(s)) == Lower(s)
  {
  }

  /** Lower-casing commutes with taking a slice. */
  lemma LowerSlice(s: string, i: nat, j: nat)
    requires i <= j <= |s|
    ensures Lower(s[i..j]) == Lower(s)[i..j]
  {
  }

  /** An occurrence survives lower-casing both strings. */
  lemma IncludesLower(hay: string, needle: string)
    ensures Includes(hay, needle) ==> Includes(Lower(hay), Lower(needle))
  {
    if Includes(hay, needle) {
      var i :| 0 <= i <= |hay| - |needle| && needle <= hay[i..];
      assert needle == hay[i..i + |needle|];
      LowerSlice(hay, i, i + |needle|);
      assert Lower(needle) <= Lower(hay)[i..];
    }
  }

  /** An occurrence of an occurrence is an occurrence. */
  lemma IncludesTransitive(a: string, b: string, c: string)
    requires Includes(a, b) && Includes(b, c)
    ensures Includes(a, c)
  {
    var i :| 0 <= i <= |a| - |b| && b <= a[i..];
    var j :| 0 <= j <= |b| - |c| && c <= b[j..];
    assert c == a[i + j..i + j + |c|];
    assert c <= a[i + j..];
  }

  /** Every string includes the empty string. */
  lemma IncludesEmpty(s: string)
    ensures Includes(s, "")
  {
    assert "" <= s[0..];
  }
}
