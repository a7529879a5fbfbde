/** String helpers the components rely on: the order used to sort times,
    JavaScript's `trim`, and zero-padded decimal numbers. */
module Text {

  // ---------------------------------------------------------------------------
  // Lexicographic order (the model of `localeCompare` on "HH:mm" strings)
  // ---------------------------------------------------------------------------

  /** `a` sorts before or together with `b` by code units, a prefix first. */
  predicate LexLe(a: string, b: string)
  {
    |a| == 0 || (|b| > 0 && (a[0] < b[0] || (a[0] == b[0] && LexLe(a[1..], b[1..]))))
  }

  lemma {:induction false} LexLeReflexive(a: string)
    ensures LexLe(a, a)
  {
    if |a| > 0 {
      LexLeReflexive(a[1..]);
    }
  }

  lemma {:induction false} LexLeTotal(a: string, b: string)
    ensures LexLe(a, b) || LexLe(b, a)
  {
    if |a| > 0 && |b| > 0 && a[0] == b[0] {
      LexLeTotal(a[1..], b[1..]);
    }
  }

  lemma {:induction false} LexLeTransitive(a: string, b: string, c: string)
    requires LexLe(a, b) && LexLe(b, c)
    ensures LexLe(a, c)
  {
    if |a| > 0 && a[0] == b[0] && b[0] == c[0] {
      LexLeTransitive(a[1..], b[1..], c[1..]);
    }
  }

  lemma {:induction false} LexLeAntisymmetric(a: string, b: string)
    requires LexLe(a, b) && LexLe(b, a)
    ensures a == b
  {
    if |a| > 0 {
      LexLeAntisymmetric(a[1..], b[1..]);
      assert a == [a[0]] + a[1..];
      assert b == [b[0]] + b[1..];
    }
  }

  // ---------------------------------------------------------------------------
  // String.prototype.trim
  // ---------------------------------------------------------------------------

  /** The white space and line terminator code points that `trim` removes. */
  predicate IsWhiteSpace(c: char)
  {
    var u := c as int;
    (0x09 <= u <= 0x0D) || u == 0x20 || u == 0xA0 || u == 0x1680
    || (0x2000 <= u <= 0x200A) || u == 0x2028 || u == 0x2029 || u == 0x202F
    || u == 0x205F || u == 0x3000 || u == 0xFEFF
  }

  predicate Blank(s: string)
  {
    forall i :: 0 <= i < |s| ==> IsWhiteSpace(s[i])
  }

  /** The end of the run of white space in `s` that starts at `k`. */
  function SpaceRunFrom(s: string, k: nat): (n: nat)
    requires k <= |s|
    ensures k <= n <= |s|
    ensures forall i :: k <= i < n ==> IsWhiteSpace(s[i])
    ensures n < |s| ==> !IsWhiteSpace(s[n])
    decreases |s| - k
  {
    if k < |s| && IsWhiteSpace(s[k]) then SpaceRunFrom(s, k + 1) else k
  }

  /** The start of the run of white space in `s` that ends just before `k`. */
  function SpaceRunTo(s: string, k: nat): (n: nat)
    requires k <= |s|
    ensures n <= k
    ensures forall i :: n <= i < k ==> IsWhiteSpace(s[i])
    ensures n > 0 ==> !IsWhiteSpace(s[n - 1])
  {
    if k > 0 && IsWhiteSpace(s[k - 1]) then SpaceRunTo(s, k - 1) else k
  }

  /** Drops leading white space: what is left is a suffix of `s`, everything
      before it is white space, and it starts with a non-space. */
  function TrimStart(s: string): (r: string)
    ensures |r| <= |s|
    ensures forall i :: 0 <= i < |r| ==> r[i] == s[|s| - |r| + i]
    ensures forall i :: 0 <= i < |s| - |r| ==> IsWhiteSpace(s[i])
    ensures r != [] ==> !IsWhiteSpace(r[0])
  {
    s[SpaceRunFrom(s, 0)..]
  }

  /** Drops trailing white space: what is left is a prefix of `s`, everything
      after it is white space, and it ends with a non-space. */
  function TrimEnd(s: string): (r: string)
    ensures |r| <= |s|
    ensures forall i :: 0 <= i < |r| ==> r[i] == s[i]
    ensures forall i :: |r| <= i < |s| ==> IsWhiteSpace(s[i])
    ensures r != [] ==> !IsWhiteSpace(r[|r| - 1])
  {
    s[..SpaceRunTo(s, |s|)]
  }

  function Trim(s: string): string
  {
    TrimEnd(TrimStart(s))
  }

  /** `s.trim()` is falsy exactly when `s` is empty or made only of white space. */
  lemma TrimEmptyIffBlank(s: string)
    ensures Trim(s) == [] <==> Blank(s)
  {
  }

  // ---------------------------------------------------------------------------
  // Zero-padded decimal numbers
  // ---------------------------------------------------------------------------

  predicate IsDigit(c: char)
  {
    '0' <= c <= '9'
  }

  /** The decimal digits of `n`, most significant first, without leading zeros. */
  function Digits(n: nat): (r: string)
    ensures |r| >= 1
    ensures forall i :: 0 <= i < |r| ==> IsDigit(r[i])
    ensures n < 10 <==> |r| == 1
  {
    if n < 10 then [('0' as int + n) as char] else Digits(n / 10) + [('0' as int + n % 10) as char]
  }

  function Pow10(k: nat): (r: nat)
    ensures r >= 1
  {
    if k == 0 then 1 else 10 * Pow10(k - 1)
  }

  /** A number below 10^k has at most k digits. */
  lemma {:induction false} DigitsFit(n: nat, k: nat)
    requires 1 <= k && n < Pow10(k)
    ensures |Digits(n)| <= k
  {
    if n >= 10 {
      DigitsFit(n / 10, k - 1);
    }
  }

  /** `n` written in decimal with leading zeros up to `width` characters. */
  function ZeroPad(n: nat, width: nat): (r: string)
    ensures |r| == if |Digits(n)| < width then width else |Digits(n)|
    ensures forall i :: 0 <= i < |r| ==> IsDigit(r[i])
  {
    var d := Digits(n);
    if |d| < width then seq(width - |d|, _ => '0') + d else d
  }

  /** The value of a string of decimal digits. */
  function DecimalValue(s: string): nat
    requires forall i :: 0 <= i < |s| ==> IsDigit(s[i])
  {
    if s == [] then 0
    else
      assert IsDigit(s[|s| - 1]);
      10 * DecimalValue(s[..|s| - 1]) + (s[|s| - 1] as int - '0' as int)
  }

  lemma {:induction false} DigitsRoundTrip(n: nat)
    ensures DecimalValue(Digits(n)) == n
  {
    if n >= 10 {
      DigitsRoundTrip(n / 10);
      var d := Digits(n);
      assert d[..|d| - 1] == Digits(n / 10);
    }
  }

  lemma {:induction false} LeadingZerosAddNothing(k: nat, d: string)
    requires forall i :: 0 <= i < |d| ==> IsDigit(d[i])
    ensures DecimalValue(seq(k, _ => '0') + d) == DecimalValue(d)
    decreases |d|
  {
    var z := seq(k, _ => '0');
    if d == [] {
      LeadingZerosValue(k);
      assert z + d == z;
    } else {
      LeadingZerosAddNothing(k, d[..|d| - 1]);
      assert (z + d)[..|z + d| - 1] == z + d[..|d| - 1];
    }
  }

  lemma {:induction false} LeadingZerosValue(k: nat)
    ensures DecimalValue(seq(k, _ => '0')) == 0
  {
    if k > 0 {
      LeadingZerosValue(k - 1);
      assert seq(k, _ => '0')[..k - 1] == seq(k - 1, _ => '0');
    }
  }

  /** Padding never changes the number that is written: reading it back gives `n`. */
  lemma ZeroPadRoundTrip(n: nat, width: nat)
    ensures DecimalValue(ZeroPad(n, width)) == n
  {
    var d := Digits(n);
    DigitsRoundTrip(n);
    if |d| < width {
      LeadingZerosAddNothing(width - |d|, d);
    }
  }
}
