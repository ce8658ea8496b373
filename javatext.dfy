/** The handful of java.lang.Character and java.lang.String operations the
    calculator and the database client rely on, written out over `string`. */
module JavaText {

  /** Character.isWhitespace: the Unicode space, line and paragraph separators
      except the three non-breaking spaces, plus the ASCII controls
      U+0009..U+000D and U+001C..U+001F. */
  predicate IsWhitespace(c: char)
    ensures IsWhitespace(c) ==> !IsDigit(c)
    ensures IsWhitespace(c) && c < '\U{80}' ==> IsTrimmable(c)
  {
    || ('\t' <= c <= '\r')
    || ('\U{1C}' <= c <= '\U{1F}')
    || c == ' '
    || c == '\U{1680}'
    || ('\U{2000}' <= c <= '\U{200A}' && c != '\U{2007}')
    || c == '\U{2028}' || c == '\U{2029}'
    || c == '\U{205F}' || c == '\U{3000}'
  }

  /** Character.isDigit, restricted to the ASCII decimal digits. */
  predicate IsDigit(c: char) {
    '0' <= c <= '9'
  }

  function DigitValue(c: char): (d: nat)
    requires IsDigit(c)
    ensures d < 10
  {
    c as int - '0' as int
  }

  /** The range of a Java `int`. */
  const IntMin: int := -0x8000_0000
  const IntMax: int := 0x7FFF_FFFF

  predicate InInt32(n: int) {
    IntMin <= n <= IntMax
  }

  predicate AllDigits(s: string) {
    forall k :: 0 <= k < |s| ==> IsDigit(s[k])
  }

  /** The value of a run of decimal digits, most significant first. */
  function DigitsValue(s: string): nat
    requires AllDigits(s)
  {
    if s == [] then 0 else DigitsValue(s[..|s| - 1]) * 10 + DigitValue(s[|s| - 1])
  }

  /** String.trim removes every leading and trailing character whose code is
      at most U+0020. */
  predicate IsTrimmable(c: char) {
    c <= ' '
  }

  /** The first position at or after i that is not trimmable (|s| if none). */
  function TrimFrom(s: string, i: nat): (n: nat)
    requires i <= |s|
    ensures i <= n <= |s|
    ensures forall k :: i <= k < n ==> IsTrimmable(s[k])
    ensures n == |s| || !IsTrimmable(s[n])
    decreases |s| - i
  {
    if i < |s| && IsTrimmable(s[i]) then TrimFrom(s, i + 1) else i
  }

  /** The end of s[lo..j] once its trailing trimmable characters are cut. */
  function TrimTo(s: string, lo: nat, j: nat): (e: nat)
    requires lo <= j <= |s|
    ensures lo <= e <= j
    ensures forall k :: e <= k < j ==> IsTrimmable(s[k])
    ensures e == lo || !IsTrimmable(s[e - 1])
    decreases j
  {
    if lo < j && IsTrimmable(s[j - 1]) then TrimTo(s, lo, j - 1) else j
  }

  /** The number of trimmable characters String.trim drops at the front. */
  function LeadingTrimmable(s: string): (n: nat)
    ensures n <= |s|
    ensures forall k :: 0 <= k < n ==> IsTrimmable(s[k])
    ensures n == |s| || !IsTrimmable(s[n])
  {
    TrimFrom(s, 0)
  }

  /** String.trim: the longest infix whose first and last characters are not
      trimmable; everything cut away on either side is trimmable. */
  function Trim(s: string): (r: string)
    ensures LeadingTrimmable(s) + |r| <= |s|
    ensures r == s[LeadingTrimmable(s)..LeadingTrimmable(s) + |r|]
    ensures forall k :: LeadingTrimmable(s) + |r| <= k < |s| ==> IsTrimmable(s[k])
    ensures r == [] || (!IsTrimmable(r[0]) && !IsTrimmable(r[|r| - 1]))
  {
    var n := LeadingTrimmable(s);
    s[n..TrimTo(s, n, |s|)]
  }

  lemma {:induction false} TrimIdempotent(s: string)
    ensures Trim(Trim(s)) == Trim(s)
  {
    var r := Trim(s);
    if r != [] {
      assert TrimFrom(r, 0) == 0;
      assert TrimTo(r, 0, |r|) == |r|;
    }
  }

  /** Trimming adds no character. */
  lemma TrimWithout(s: string, c: char)
    requires c !in s
    ensures c !in Trim(s)
  {
    var r := Trim(s);
    var n := LeadingTrimmable(s);
    forall j | 0 <= j < |r|
      ensures r[j] != c
    {
      assert r[j] == s[n + j];
    }
  }

  /** The position of the first c in s, or |s| when there is none: what
      String.indexOf and String.split look for. */
  function FirstIndex(s: string, c: char): (k: nat)
    ensures k <= |s|
    ensures forall j :: 0 <= j < k ==> s[j] != c
    ensures k < |s| ==> s[k] == c
  {
    if s == [] then 0
    else if s[0] == c then 0
    else 1 + FirstIndex(s[1..], c)
  }

  /** A text that starts and ends with a character above U+0020 is its own
      trimming. */
  lemma TrimUntrimmed(s: string)
    requires s != [] && !IsTrimmable(s[0]) && !IsTrimmable(s[|s| - 1])
    ensures Trim(s) == s
  {
    assert TrimFrom(s, 0) == 0;
    assert TrimTo(s, 0, |s|) == |s|;
  }

  /** Character.toUpperCase on the ASCII letters; every other character is
      left as it is. */
  function UpperChar(c: char): (u: char)
    ensures !('a' <= u <= 'z')
    ensures 'a' <= c <= 'z' ==> u as int == c as int - 32
    ensures !('a' <= c <= 'z') ==> u == c
  {
    if 'a' <= c <= 'z' then (c as int - 32) as char else c
  }

  /** String.toUpperCase over the ASCII letters. */
  function ToUpper(s: string): (r: string)
    ensures |r| == |s|
    ensures forall k :: 0 <= k < |s| ==> r[k] == UpperChar(s[k])
  {
    if s == [] then [] else [UpperChar(s[0])] + ToUpper(s[1..])
  }

  lemma ToUpperIdempotent(s: string)
    ensures ToUpper(ToUpper(s)) == ToUpper(s)
  {
  }

  /** A text without lower-case letters is its own upper-casing. */
  lemma {:induction false} ToUpperOfUpper(s: string)
    requires forall c :: c in s ==> !('a' <= c <= 'z')
    ensures ToUpper(s) == s
  {
    var r := ToUpper(s);
    forall k | 0 <= k < |s|
      ensures r[k] == s[k]
    {
      assert s[k] in s;
    }
  }

  /** String.equalsIgnoreCase over the ASCII letters. */
  predicate EqualsIgnoreCase(a: string, b: string) {
    ToUpper(a) == ToUpper(b)
  }
}
