/** Divisors, greatest common divisors and least common multiples. */
module Divisibility {

  predicate Divides(d: int, n: int) {
    d != 0 && n % d == 0
  }

  lemma MultipleDivides(d: int, k: int)
    requires d != 0
    ensures Divides(d, d * k) && (d * k) / d == k
  {
    var n := d * k;
    var q, r := n / d, n % d;
    assert n == d * q + r && 0 <= r < (if d > 0 then d else -d);
    assert d * (k - q) == r && d * (q - k) == -r;
    if k - q >= 1 {
      SignedMultiple(d, k - q);
    } else if k - q <= -1 {
      SignedMultiple(d, q - k);
    }
  }

  lemma SignedMultiple(d: int, m: int)
    requires m >= 1
    ensures d > 0 ==> d * m >= d
    ensures d < 0 ==> d * m <= d
  {
  }

  lemma Quotient(d: int, n: int)
    requires Divides(d, n)
    ensures n == d * (n / d)
  {
  }

  lemma DividesProduct(d: int, n: int, c: int)
    requires Divides(d, n)
    ensures Divides(d, n * c)
  {
    Quotient(d, n);
    assert n * c == d * ((n / d) * c);
    MultipleDivides(d, (n / d) * c);
  }

  lemma DividesDifference(d: int, m: int, n: int)
    requires Divides(d, m) && Divides(d, n)
    ensures Divides(d, m - n) && Divides(d, m + n)
  {
    Quotient(d, m);
    Quotient(d, n);
    assert m - n == d * (m / d - n / d) && m + n == d * (m / d + n / d);
    MultipleDivides(d, m / d - n / d);
    MultipleDivides(d, m / d + n / d);
  }

  lemma DividesTransitive(c: int, d: int, n: int)
    requires Divides(c, d) && Divides(d, n)
    ensures Divides(c, n)
  {
    Quotient(d, n);
    DividesProduct(c, d, n / d);
  }

  lemma CancelFactor(g: int, d: int, n: int)
    requires g != 0 && Divides(g * d, g * n)
    ensures Divides(d, n)
  {
    Quotient(g * d, g * n);
    var k := (g * n) / (g * d);
    assert g * n == g * (d * k);
    CancelEqual(g, n, d * k);
    MultipleDivides(d, k);
  }

  lemma CancelEqual(g: int, x: int, y: int)
    requires g != 0 && g * x == g * y
    ensures x == y
  {
    assert g * (x - y) == 0 && g * (y - x) == 0;
    if x > y {
      SignedMultiple(g, x - y);
    } else if x < y {
      SignedMultiple(g, y - x);
    }
  }

  lemma PositiveFactor(g: int, k: int, n: int)
    requires g > 0 && n > 0 && n == g * k
    ensures k > 0
  {
  }

  function Abs(n: int): nat {
    if n < 0 then -n else n
  }

  function Gcd(a: nat, b: nat): nat
    decreases b
  {
    if b == 0 then a else Gcd(b, a % b)
  }

  lemma {:induction false} GcdDivides(a: nat, b: nat)
    requires a > 0 || b > 0
    ensures Gcd(a, b) > 0 && Divides(Gcd(a, b), a) && Divides(Gcd(a, b), b)
    decreases b
  {
    if b > 0 {
      GcdDivides(b, a % b);
      DividesProduct(Gcd(a, b), b, a / b);
      assert a == b * (a / b) + a % b;
      DividesDifference(Gcd(a, b), b * (a / b), a % b);
    }
  }

  /** What divides two multiples of `c` divides that of their greatest common divisor. */
  lemma {:induction false} GcdCombines(d: int, a: nat, b: nat, c: int)
    requires Divides(d, a * c) && Divides(d, b * c)
    ensures Divides(d, Gcd(a, b) * c)
    decreases b
  {
    if b > 0 {
      var q, r := a / b, a % b;
      DividesProduct(d, b * c, q);
      DividesDifference(d, a * c, (b * c) * q);
      assert a == b * q + r;
      assert r * c == a * c - (b * c) * q;
      GcdCombines(d, b, r, c);
    }
  }

  function Lcm(a: nat, b: nat): nat
    requires a > 0 && b > 0
  {
    GcdDivides(a, b);
    a / Gcd(a, b) * b
  }

  lemma LcmTimesGcd(a: nat, b: nat)
    requires a > 0 && b > 0
    ensures Gcd(a, b) * Lcm(a, b) == a * b && Lcm(a, b) > 0
  {
    GcdDivides(a, b);
    var g := Gcd(a, b);
    Quotient(g, a);
    assert g * (a / g * b) == (g * (a / g)) * b;
    PositiveFactor(g, a / g, a);
    SignedMultiple(b, a / g);
  }

  lemma LcmDivides(a: nat, b: nat)
    requires a > 0 && b > 0
    ensures Lcm(a, b) > 0 && Divides(a, Lcm(a, b)) && Divides(b, Lcm(a, b))
  {
    LcmTimesGcd(a, b);
    GcdDivides(a, b);
    var g := Gcd(a, b);
    MultipleDivides(b, a / g);
    Quotient(g, b);
    assert g * Lcm(a, b) == g * (a * (b / g)) by {
      assert a * b == a * (g * (b / g)) == g * (a * (b / g));
    }
    CancelEqual(g, Lcm(a, b), a * (b / g));
    MultipleDivides(a, b / g);
  }

  /** The least common multiple divides all common multiples. */
  lemma LcmLeast(a: nat, b: nat, m: int)
    requires a > 0 && b > 0 && Divides(a, m) && Divides(b, m)
    ensures Divides(Lcm(a, b), m)
  {
    Quotient(a, m);
    Quotient(b, m);
    assert a * m == (a * b) * (m / b) && b * m == (a * b) * (m / a);
    SignedMultiple(a, b);
    MultipleDivides(a * b, m / b);
    MultipleDivides(a * b, m / a);
    GcdCombines(a * b, a, b, m);
    LcmTimesGcd(a, b);
    GcdDivides(a, b);
    CancelFactor(Gcd(a, b), Lcm(a, b), m);
  }
}
