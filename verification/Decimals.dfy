/** Decimal digits, zero-padded and plain. */
module Decimals {
  import opened Text

  predicate IsDigit(c: char) {
    '0' <= c <= '9'
  }

  predicate AllDigits(s: string) {
    forall i :: 0 <= i < |s| ==> IsDigit(s[i])
  }

  function Digit(n: int): char
    requires 0 <= n <= 9
  {
    (n + '0' as int) as char
  }

  function Pow10(k: nat): int {
    if k == 0 then 1 else 10 * Pow10(k - 1)
  }

  // The last k digits of n.
  function Digits(n: int, k: nat): (s: string)
    ensures |s| == k && AllDigits(s)
    decreases k
  {
    if k == 0 then "" else Digits(n / 10, k - 1) + [Digit(n % 10)]
  }

  // str(n)
  function Decimal(n: nat): (s: string)
    ensures |s| > 0 && AllDigits(s)
  {
    if n < 10 then [Digit(n)] else Decimal(n / 10) + [Digit(n % 10)]
  }

  // int(s)
  function Value(s: string): nat
    requires AllDigits(s)
  {
    if |s| == 0 then 0 else 10 * Value(s[..|s| - 1]) + (s[|s| - 1] as int - '0' as int)
  }

  lemma {:induction false} ValueOfDigits(n: int, k: nat)
    requires 0 <= n < Pow10(k)
    ensures Value(Digits(n, k)) == n
    decreases k
  {
    if k > 0 {
      ValueOfDigits(n / 10, k - 1);
    }
  }

  lemma {:induction false} ValueOfDecimal(n: nat)
    ensures Value(Decimal(n)) == n
    ensures n > 0 ==> Decimal(n)[0] != '0'
  {
    if n >= 10 {
      ValueOfDecimal(n / 10);
    }
  }

  // ---------- order ----------

  lemma {:induction false} BeforeConcat(a: string, b: string, x: string, y: string)
    requires |a| == |b|
    ensures Before(a + x, b + y) <==> Before(a, b) || (a == b && Before(x, y))
  {
    if |a| > 0 {
      assert (a + x)[1..] == a[1..] + x && (b + y)[1..] == b[1..] + y;
      BeforeConcat(a[1..], b[1..], x, y);
      assert a == [a[0]] + a[1..] && b == [b[0]] + b[1..];
    } else {
      assert a + x == x && b + y == y;
    }
  }

  /** Zero-padded numbers of one width sort as numbers. */
  lemma {:induction false} PaddedOrder(a: int, b: int, k: nat)
    requires 0 <= a < Pow10(k) && 0 <= b < Pow10(k)
    ensures Before(Digits(a, k), Digits(b, k)) <==> a < b
    ensures Digits(a, k) == Digits(b, k) <==> a == b
    decreases k
  {
    if k > 0 {
      PaddedOrder(a / 10, b / 10, k - 1);
      var p, q, c, d := Digits(a / 10, k - 1), Digits(b / 10, k - 1), [Digit(a % 10)], [Digit(b % 10)];
      BeforeConcat(p, q, c, d);
      assert Before(c, d) <==> c[0] < d[0];
      ValueOfDigits(a, k);
      ValueOfDigits(b, k);
    }
  }

  lemma PowersOfTen()
    ensures Pow10(2) == 100 && Pow10(4) == 10000
  {
  }
}
