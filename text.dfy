/**
 * Decimal digit strings: rendering a natural number the way Python's
 * `str(n)` and `format(n, "0<width>d")` do, and reading such a string back.
 */
module Text {

  predicate IsDigit(c: char) {
    '0' <= c <= '9'
  }

  predicate AllDigits(s: string) {
    forall i | 0 <= i < |s| :: IsDigit(s[i])
  }

  function DigitValue(c: char): (d: nat)
    requires IsDigit(c)
    ensures d < 10
  {
    (c as int) - ('0' as int)
  }

  function DigitChar(d: nat): (c: char)
    requires d < 10
    ensures IsDigit(c) && DigitValue(c) == d
  {
    (('0' as int) + d) as char
  }

  /** The number a string of decimal digits denotes (leading zeros allowed). */
  function DigitsValue(s: string): nat
    requires AllDigits(s)
    decreases |s|
  {
    if s == [] then 0 else DigitsValue(s[..|s| - 1]) * 10 + DigitValue(s[|s| - 1])
  }

  /** Decimal rendering of `n` without leading zeros; reading it back gives `n`. */
  function NatText(n: nat): (s: string)
    ensures 1 <= |s| && AllDigits(s)
    ensures DigitsValue(s) == n
  {
    if n < 10 then [DigitChar(n)]
    else
      var s := NatText(n / 10) + [DigitChar(n % 10)];
      assert s[..|s| - 1] == NatText(n / 10);
      s
  }

  function Pow10(k: nat): (p: nat)
    ensures 1 <= p
  {
    if k == 0 then 1 else 10 * Pow10(k - 1)
  }

  /** A number below 10^k needs at most k digits. */
  lemma {:induction false} NatTextWidth(n: nat, k: nat)
    requires 1 <= k && n < Pow10(k)
    ensures |NatText(n)| <= k
  {
    if 10 <= n {
      assert k != 1 by { assert Pow10(1) == 10; }
      assert n / 10 < Pow10(k - 1);
      NatTextWidth(n / 10, k - 1);
    }
  }

  function Zeros(z: nat): (s: string)
    ensures |s| == z && AllDigits(s)
  {
    seq(z, _ => '0')
  }

  lemma {:induction false} ZerosValue(z: nat)
    ensures DigitsValue(Zeros(z)) == 0
  {
    if z > 0 {
      assert Zeros(z)[..z - 1] == Zeros(z - 1);
      ZerosValue(z - 1);
    }
  }

  /** Leading zeros do not change the number a digit string denotes. */
  lemma {:induction false} LeadingZeros(z: nat, s: string)
    requires AllDigits(s)
    ensures AllDigits(Zeros(z) + s)
    ensures DigitsValue(Zeros(z) + s) == DigitsValue(s)
    decreases |s|
  {
    if s == [] {
      assert Zeros(z) + s == Zeros(z);
      ZerosValue(z);
    } else {
      var t := Zeros(z) + s;
      assert t[..|t| - 1] == Zeros(z) + s[..|s| - 1];
      LeadingZeros(z, s[..|s| - 1]);
    }
  }

  /**
   * Python's `format(n, "0<width>d")` for `n >= 0`: the digits of `n`,
   * left-padded with '0' to at least `width` characters, never truncated.
   */
  function ZeroPad(n: nat, width: nat): (s: string)
    ensures AllDigits(s) && DigitsValue(s) == n
    ensures |s| == if |NatText(n)| < width then width else |NatText(n)|
  {
    var digits := NatText(n);
    if |digits| < width then
      LeadingZeros(width - |digits|, digits);
      Zeros(width - |digits|) + digits
    else
      digits
  }

  /** The pieces joined in order (Python's repeated `+=` on a string). */
  /** Sequence concatenation is associative; stated generically so callers need not unfold their own functions. */
  lemma AppendAssociative<T>(a: seq<T>, b: seq<T>, c: seq<T>)
    ensures (a + b) + c == a + (b + c)
  {
  }

  function Concat(pieces: seq<string>): string
    decreases |pieces|
  {
    if pieces == [] then "" else Concat(pieces[..|pieces| - 1]) + pieces[|pieces| - 1]
  }

  lemma ConcatExtend(pieces: seq<string>, piece: string)
    ensures Concat(pieces + [piece]) == Concat(pieces) + piece
  {
    assert (pieces + [piece])[..|pieces|] == pieces;
  }

  lemma ConcatTake(pieces: seq<string>, i: nat)
    requires i < |pieces|
    ensures Concat(pieces[..i + 1]) == Concat(pieces[..i]) + pieces[i]
  {
    assert pieces[..i + 1] == pieces[..i] + [pieces[i]];
    ConcatExtend(pieces[..i], pieces[i]);
  }

  lemma ConcatAll(pieces: seq<string>)
    ensures Concat(pieces[..|pieces|]) == Concat(pieces)
  {
    assert pieces[..|pieces|] == pieces;
  }

  /** Joining a prefix of the pieces gives a prefix of the whole. */
  lemma {:induction false} ConcatPrefix(pieces: seq<string>, k: nat)
    requires k <= |pieces|
    ensures Concat(pieces[..k]) <= Concat(pieces)
    decreases |pieces|
  {
    if k < |pieces| {
      var n := |pieces| - 1;
      assert pieces[..n][..k] == pieces[..k];
      ConcatPrefix(pieces[..n], k);
    } else {
      assert pieces[..k] == pieces;
    }
  }
}
