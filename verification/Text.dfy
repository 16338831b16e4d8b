/**
 * Byte order of texts, as SQLite's BINARY collation compares them, and the order of
 * fixed-width decimal numbers under it.
 */
module Text {
  predicate TextLess(a: string, b: string) {
    |b| > 0 && (|a| == 0 || a[0] < b[0] || (a[0] == b[0] && TextLess(a[1..], b[1..])))
  }

  lemma {:induction false} TextOrderIsTotal(a: string, b: string)
    ensures a == b || TextLess(a, b) || TextLess(b, a)
    ensures !(TextLess(a, b) && TextLess(b, a)) && (a == b ==> !TextLess(a, b))
  {
    if |a| > 0 && |b| > 0 {
      TextOrderIsTotal(a[1..], b[1..]);
      assert a == [a[0]] + a[1..] && b == [b[0]] + b[1..];
    }
  }

  lemma {:induction false} TextOrderIsTransitive(a: string, b: string, c: string)
    requires TextLess(a, b) && TextLess(b, c)
    ensures TextLess(a, c)
  {
    if |a| > 0 && a[0] == b[0] == c[0] {
      TextOrderIsTransitive(a[1..], b[1..], c[1..]);
    }
  }

  /** Behind two first fields of equal length, the rest counts only when the fields agree. */
  lemma {:induction false} FieldOrder(a: string, b: string, x: string, y: string)
    requires |a| == |b|
    ensures TextLess(a + x, b + y) <==> TextLess(a, b) || (a == b && TextLess(x, y))
  {
    if |a| == 0 {
      assert a + x == x && b + y == y;
    } else {
      assert (a + x)[1..] == a[1..] + x && (b + y)[1..] == b[1..] + y;
      assert a == [a[0]] + a[1..] && b == [b[0]] + b[1..];
      FieldOrder(a[1..], b[1..], x, y);
    }
  }

  /** The first place where two texts differ decides. */
  lemma FirstDifference(a: string, b: string, i: nat)
    requires i < |a| && i < |b| && a[..i] == b[..i] && a[i] < b[i]
    ensures TextLess(a, b)
  {
    assert a == a[..i] + a[i..] && b == b[..i] + b[i..];
    FieldOrder(a[..i], b[..i], a[i..], b[i..]);
  }

  function Digit(n: int): char
    requires 0 <= n < 10
  {
    '0' + (n as char)
  }

  predicate IsDigit(c: char) { '0' <= c <= '9' }

  function DigitValue(c: char): (n: int)
    requires IsDigit(c)
    ensures 0 <= n < 10 && Digit(n) == c
  {
    (c - '0') as int
  }

  function Pow10(width: nat): (p: int)
    ensures p > 0
  {
    if width == 0 then 1 else 10 * Pow10(width - 1)
  }

  /** The number in exactly `width` digits, with leading zeros. */
  function Digits(n: int, width: nat): (s: string)
    requires 0 <= n < Pow10(width)
    ensures |s| == width && forall i :: 0 <= i < |s| ==> IsDigit(s[i])
  {
    if width == 0 then "" else Digits(n / 10, width - 1) + [Digit(n % 10)]
  }

  predicate AllDigits(s: string) { forall i :: 0 <= i < |s| ==> IsDigit(s[i]) }

  function Number(s: string): (n: int)
    requires AllDigits(s)
    ensures 0 <= n < Pow10(|s|)
  {
    if s == "" then 0 else 10 * Number(s[..|s| - 1]) + DigitValue(s[|s| - 1])
  }

  lemma {:induction false} NumberOfDigits(n: int, width: nat)
    requires 0 <= n < Pow10(width)
    ensures Number(Digits(n, width)) == n
  {
    if width > 0 {
      var s := Digits(n, width);
      assert s[..width - 1] == Digits(n / 10, width - 1);
      NumberOfDigits(n / 10, width - 1);
    }
  }

  /** Fixed-width numbers sort as numbers. */
  lemma {:induction false} DigitsOrder(m: int, n: int, width: nat)
    requires 0 <= m < Pow10(width) && 0 <= n < Pow10(width)
    ensures TextLess(Digits(m, width), Digits(n, width)) <==> m < n
    ensures Digits(m, width) == Digits(n, width) ==> m == n
  {
    if width > 0 {
      DigitsOrder(m / 10, n / 10, width - 1);
      LastDigitOrder(Digits(m / 10, width - 1), Digits(n / 10, width - 1), m % 10, n % 10);
    }
    NumberOfDigits(m, width);
    NumberOfDigits(n, width);
  }

  lemma {:induction false} LastDigitOrder(a: string, b: string, d: int, e: int)
    requires |a| == |b| && 0 <= d < 10 && 0 <= e < 10
    ensures TextLess(a + [Digit(d)], b + [Digit(e)]) <==> TextLess(a, b) || (a == b && d < e)
  {
    FieldOrder(a, b, [Digit(d)], [Digit(e)]);
  }
}
