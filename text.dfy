/**
 * The string operations of the Java and Python runtimes that the modelled
 * code relies on: Java's `String.length()` (UTF-16 code units), the case
 * mapping of `toUpperCase()` / `str.upper()` on the characters that can
 * matter here, and Python's `str.strip()`.
 */
module Text {

  /** Java's `String.length()`: characters outside the Basic Multilingual Plane take two UTF-16 code units. */
  function JavaLength(s: string): (n: nat)
    ensures |s| <= n <= 2 * |s|
  {
    if s == [] then 0 else (if s[0] as int >= 0x10000 then 2 else 1) + JavaLength(s[1..])
  }

  /**
   * Upper-case mapping of one character. ASCII letters map to their capitals;
   * of the non-ASCII letters only the two whose capital is an ASCII letter
   * (dotless i, U+0131, and long s, U+017F) are mapped. Other characters are
   * left as they are.
   */
  function UpperChar(c: char): (u: char)
    ensures 'a' <= c <= 'z' ==> u as int == c as int - 32
    ensures !('a' <= c <= 'z') && c != '\U{131}' && c != '\U{17F}' ==> u == c
  {
    if 'a' <= c <= 'z' then (c as int - 32) as char
    else if c == '\U{131}' then 'I'
    else if c == '\U{17F}' then 'S'
    else c
  }

  /** `toUpperCase()` / `upper()`, character by character. */
  function Upper(s: string): (r: string)
    ensures |r| == |s| && forall i | 0 <= i < |s| :: r[i] == UpperChar(s[i])
  {
    if s == [] then [] else [UpperChar(s[0])] + Upper(s[1..])
  }

  lemma UpperIdempotent(s: string)
    ensures Upper(Upper(s)) == Upper(s)
  {
    var u := Upper(s);
    forall i | 0 <= i < |s| ensures Upper(u)[i] == u[i] {
      assert UpperChar(UpperChar(s[i])) == UpperChar(s[i]);
    }
  }

  /** The characters for which Python's `str.isspace()` holds; `strip()` removes these. */
  predicate IsSpace(c: char) {
    || '\t' <= c <= '\r' || '\U{1C}' <= c <= ' '
    || c == '\U{85}' || c == '\U{A0}' || c == '\U{1680}'
    || '\U{2000}' <= c <= '\U{200A}' || c == '\U{2028}' || c == '\U{2029}'
    || c == '\U{202F}' || c == '\U{205F}' || c == '\U{3000}'
  }

  /** Every character of `s[a..b]` is whitespace. */
  predicate SpaceBetween(s: string, a: nat, b: nat)
    requires a <= b <= |s|
  {
    forall k | a <= k < b :: IsSpace(s[k])
  }

  predicate AllSpace(s: string) {
    SpaceBetween(s, 0, |s|)
  }

  /** `s` neither starts nor ends with whitespace. */
  predicate Trimmed(s: string) {
    s == [] || (!IsSpace(s[0]) && !IsSpace(s[|s| - 1]))
  }

  /** The index of the first non-whitespace character of `s` at or after `i` (`|s|` if none). */
  function Start(s: string, i: nat): (n: nat)
    requires i <= |s|
    ensures i <= n <= |s| && SpaceBetween(s, i, n) && (n < |s| ==> !IsSpace(s[n]))
    decreases |s| - i
  {
    if i == |s| || !IsSpace(s[i]) then i else Start(s, i + 1)
  }

  /** The end of `s[lo..j]` once its trailing whitespace is removed. */
  function End(s: string, lo: nat, j: nat): (n: nat)
    requires lo <= j <= |s|
    ensures lo <= n <= j && SpaceBetween(s, n, j) && (n > lo ==> !IsSpace(s[n - 1]))
    decreases j
  {
    if j == lo || !IsSpace(s[j - 1]) then j else End(s, lo, j - 1)
  }

  /**
   * Python's `str.strip()`: the result is a slice of `s` that starts at the
   * first non-whitespace character, is preceded and followed only by
   * whitespace, and neither starts nor ends with whitespace.
   */
  function Strip(s: string): (r: string)
    ensures |r| <= |s| && Trimmed(r)
    ensures var i := Start(s, 0);
      && i + |r| <= |s| && r == s[i..i + |r|]
      && SpaceBetween(s, 0, i) && SpaceBetween(s, i + |r|, |s|)
  {
    var i := Start(s, 0);
    s[i..End(s, i, |s|)]
  }

  lemma {:induction false} StartAtEnd(s: string, i: nat)
    requires i <= |s| && SpaceBetween(s, i, |s|)
    ensures Start(s, i) == |s|
    decreases |s| - i
  {
    if i < |s| {
      StartAtEnd(s, i + 1);
    }
  }

  lemma {:induction false} EndAt(s: string, lo: nat, m: nat, j: nat)
    requires lo < m <= j <= |s| && !IsSpace(s[m - 1]) && SpaceBetween(s, m, j)
    ensures End(s, lo, j) == m
    decreases j
  {
    if j > m {
      EndAt(s, lo, m, j - 1);
    }
  }

  /** Text with no surrounding whitespace, followed by whitespace only, strips to itself. */
  lemma StripTrailing(t: string, ws: string)
    requires Trimmed(t) && AllSpace(ws)
    ensures Strip(t + ws) == t
  {
    var s := t + ws;
    if t == [] {
      assert s == ws;
      StartAtEnd(s, 0);
    } else {
      assert s[0] == t[0] && s[|t| - 1] == t[|t| - 1];
      assert SpaceBetween(s, |t|, |s|) by {
        forall k | |t| <= k < |s| ensures IsSpace(s[k]) {
          assert s[k] == ws[k - |t|];
        }
      }
      EndAt(s, 0, |t|, |s|);
      assert s[..|t|] == t;
    }
  }
}
