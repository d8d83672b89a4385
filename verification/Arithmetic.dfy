/** Quotients and remainders. */
module Arithmetic {

  lemma MultipleIsAtLeast(d: nat, k: int)
    requires k >= 1
    ensures d * k >= d
  {
  }

  lemma RemainderUnique(x: int, d: nat, q: int, r: int)
    requires x == d * q + r && 0 <= r < d
    ensures x % d == r && x / d == q
  {
    var q', r' := x / d, x % d;
    assert d * (q' - q) == r - r' by {
      assert x == d * q' + r';
      assert d * (q' - q) == d * q' - d * q;
    }
    if q' > q {
      MultipleIsAtLeast(d, q' - q);
    } else if q' < q {
      MultipleIsAtLeast(d, q - q');
    }
  }

  lemma ShiftByMultiple(x: int, d: nat, q: int)
    requires d > 0
    ensures (x - d * q) % d == x % d
  {
    assert d * (x / d - q) == d * (x / d) - d * q;
    RemainderUnique(x - d * q, d, x / d - q, x % d);
  }

  lemma MultipleMinusOne(n: nat, d: nat)
    requires d > 0 && n % d == 0
    ensures n >= d ==> (n - d) % d == 0
    ensures n < d ==> n == 0
  {
    var k := n / d;
    assert n == d * k;
    if n >= d {
      assert n - d == d * (k - 1);
      ProductIsMultiple(d, k - 1);
    }
  }

  lemma ProductIsMultiple(d: nat, k: int)
    requires d > 0
    ensures (d * k) % d == 0
  {
    RemainderUnique(d * k, d, k, 0);
  }

  lemma OneTimesMore(n: nat, c: nat)
    ensures (n + 1) * c == n * c + c
  {
  }

  lemma TimesMonotone(a: nat, b: nat, c: nat)
    requires a <= b
    ensures a * c <= b * c && c * a <= c * b
  {
  }

  lemma QuotientBelow(i: nat, n: nat, q: nat)
    requires n > 0 && i < n * q
    ensures i / n < q
  {
    if i / n >= q {
      TimesMonotone(q, i / n, n);
    }
  }

  lemma Divides(n: nat, a: nat)
    requires a > 0
    ensures n == a * (n / a) + n % a && n % a < a
  {
  }

  lemma QuotientOfParts(n: nat, a: nat, b: nat, q: nat, r: nat, s: nat)
    requires n == a * (b * q + r) + s && r < b && s < a
    ensures a * b > 0 && n / (a * b) == q
  {
    Regroup(a, b, q, r);
    DigitBelow(a, b, r, s);
    RemainderUnique(n, a * b, q, a * r + s);
  }

  lemma DivideTwice(n: nat, a: nat, b: nat)
    requires a > 0 && b > 0
    ensures a * b > 0 && n / a / b == n / (a * b)
  {
    var x := n / a;
    Divides(n, a);
    Divides(x, b);
    QuotientOfParts(n, a, b, x / b, x % b, n % a);
  }

  lemma Regroup(a: nat, b: nat, q: nat, r: nat)
    ensures a * (b * q + r) == (a * b) * q + a * r
  {
  }

  lemma DigitBelow(a: nat, b: nat, r: nat, s: nat)
    requires r < b && s < a
    ensures a * r + s < a * b
  {
    assert a * (r + 1) <= a * b;
  }
}
