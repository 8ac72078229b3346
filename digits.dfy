/** Decimal text: Python's `str(n)`, the `'%02d'` format, Python slicing with
    non-negative bounds, a SQL prefix pattern, and the check that a winning
    number is four digits. */
module Digits {

  predicate IsDigit(c: char) {
    '0' <= c <= '9'
  }

  predicate IsDigitString(s: string) {
    forall i :: 0 <= i < |s| ==> IsDigit(s[i])
  }

  function DigitValue(c: char): (d: nat)
    requires IsDigit(c)
    ensures d < 10
  {
    c as int - '0' as int
  }

  function DigitChar(d: nat): (c: char)
    requires d < 10
    ensures IsDigit(c) && DigitValue(c) == d
  {
    ('0' as int + d) as char
  }

  /** The value of a digit string read in base ten, as `int(s)` gives it. */
  function DecimalValue(s: string): nat
    requires IsDigitString(s)
  {
    if s == [] then 0 else 10 * DecimalValue(s[..|s| - 1]) + DigitValue(s[|s| - 1])
  }

  /** `str(n)`: the decimal digits of `n`, without leading zeros. */
  function DecimalString(n: nat): (s: string)
    ensures IsDigitString(s)
    ensures |s| >= 1
  {
    if n < 10 then [DigitChar(n)] else DecimalString(n / 10) + [DigitChar(n % 10)]
  }

  /** `'%02d' % n`: the decimal digits of `n`, with one leading zero when `n < 10`. */
  function ZeroPadded(n: nat): (s: string)
    ensures IsDigitString(s)
  {
    if n < 10 then "0" + DecimalString(n) else DecimalString(n)
  }

  /** Python's `s[i:j]` for non-negative `i` and `j`: both bounds are clipped to
      the length, and an empty string results when they cross. */
  function Slice(s: string, i: nat, j: nat): (r: string)
    ensures |r| == if i <= j && i <= |s| then (if j <= |s| then j else |s|) - i else 0
    ensures forall k :: 0 <= k < |r| ==> r[k] == s[i + k]
  {
    var hi := if j <= |s| then j else |s|;
    var lo := if i <= hi then i else hi;
    s[lo..hi]
  }

  /** `s LIKE p || '%'` when `p` holds no wildcard: `s` begins with `p`. */
  predicate StartsWith(s: string, p: string) {
    |p| <= |s| && s[..|p|] == p
  }

  /** The check made before a draw is recorded: `len(num) == 4 and num.isdigit()`. */
  predicate IsWinningNumber(s: string) {
    |s| == 4 && IsDigitString(s)
  }

  // ---------------------------------------------------------------------------
  // Properties
  // ---------------------------------------------------------------------------

  /** Reading back the text of a number gives the number. */
  lemma {:induction false} DecimalRoundTrip(n: nat)
    ensures DecimalValue(DecimalString(n)) == n
  {
    var s := DecimalString(n);
    if n >= 10 {
      DecimalRoundTrip(n / 10);
      assert s[..|s| - 1] == DecimalString(n / 10);
    }
  }

  /** The zero-padded text reads back as the number too. */
  lemma ZeroPaddedRoundTrip(n: nat)
    ensures DecimalValue(ZeroPadded(n)) == n
  {
    DecimalRoundTrip(n);
    if n < 10 {
      var s := ZeroPadded(n);
      assert s[..|s| - 1] == "0";
      assert DecimalValue("0") == 10 * DecimalValue([]) + DigitValue('0');
    }
  }

  /** Two digit strings of the same length with the same value are equal. */
  lemma {:induction false} DecimalValueInjective(a: string, b: string)
    requires IsDigitString(a) && IsDigitString(b)
    requires |a| == |b|
    requires DecimalValue(a) == DecimalValue(b)
    ensures a == b
  {
    if a != [] {
      var m := |a| - 1;
      var x, y := DigitValue(a[m]), DigitValue(b[m]);
      var p, q := DecimalValue(a[..m]), DecimalValue(b[..m]);
      assert 10 * p + x == 10 * q + y;
      assert x == y && p == q by {
        assert x == (10 * p + x) % 10 && y == (10 * q + y) % 10;
      }
      DecimalValueInjective(a[..m], b[..m]);
      assert a == a[..m] + [a[m]] && b == b[..m] + [b[m]];
    }
  }

  /** Single-digit numbers print as one character, the numbers 10 to 99 as two. */
  lemma DecimalStringLength(n: nat)
    requires n < 100
    ensures |DecimalString(n)| == if n < 10 then 1 else 2
  {
    if n >= 10 {
      assert DecimalString(n / 10) == [DigitChar(n / 10)];
    }
  }

  /** Every number below 100 pads to exactly two characters. */
  lemma ZeroPaddedLength(n: nat)
    requires n < 100
    ensures |ZeroPadded(n)| == 2
  {
    DecimalStringLength(n);
  }

  /** A four-digit winning number's three windows `[:2]`, `[1:3]` and `[2:]` are
      its first two, middle two and last two characters. */
  lemma WindowsOfWinningNumber(w: string)
    requires IsWinningNumber(w)
    ensures Slice(w, 0, 2) == [w[0], w[1]]
    ensures Slice(w, 1, 3) == [w[1], w[2]]
    ensures Slice(w, 2, |w|) == [w[2], w[3]]
  {
  }

  /** Each window of a four-digit number is itself a two-digit string. */
  lemma WindowsAreTwoDigits(w: string, i: nat)
    requires IsWinningNumber(w)
    requires i <= 2
    ensures |Slice(w, i, i + 2)| == 2 && IsDigitString(Slice(w, i, i + 2))
  {
  }
}
