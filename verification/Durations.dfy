/** The scaling of all durations of a problem, exact rationals, to integers. */
module Durations {
  import opened Divisibility

  datatype Rational = Rational(num: int, den: int)

  /** The quotient rounded up. */
  function CeilDiv(a: int, b: int): int
    requires b != 0
  {
    if b > 0 then -((-a) / b) else -(a / -b)
  }

  lemma CeilDivExact(a: int, b: int, k: int)
    requires b != 0 && a == b * k
    ensures CeilDiv(a, b) == k
  {
    assert -a == b * -k && a == -b * -k;
    if b > 0 {
      MultipleDivides(b, -k);
    } else {
      MultipleDivides(-b, -k);
    }
  }

  lemma CeilDivLeast(a: int, b: int)
    requires b > 0
    ensures a <= CeilDiv(a, b) * b && forall k: int :: a <= k * b ==> CeilDiv(a, b) <= k
  {
    var q := (-a) / b;
    assert -a == b * q + (-a) % b;
    forall k: int | a <= k * b ensures CeilDiv(a, b) <= k {
      assert (k + q) * b > -b && b * -(k + q) == -((k + q) * b);
      if k + q <= -1 {
        SignedMultiple(b, -(k + q));
      }
    }
  }

  function Canonicalized(num: int, den: int): Rational
    requires den > 0
  {
    GcdDivides(Abs(num), den);
    Rational(num / Gcd(Abs(num), den), den / Gcd(Abs(num), den))
  }

  lemma CanonicalizedSame(num: int, den: int)
    requires den > 0
    ensures var r := Canonicalized(num, den); r.den > 0 && r.num * den == num * r.den
  {
    var g := Gcd(Abs(num), den);
    GcdDivides(Abs(num), den);
    DividesAbs(g, num);
    Quotient(g, den);
    Quotient(g, num);
    PositiveFactor(g, den / g, den);
    assert (num / g) * (g * (den / g)) == (g * (num / g)) * (den / g);
  }

  lemma DividesAbs(d: int, n: int)
    requires d != 0
    ensures Divides(d, Abs(n)) <==> Divides(d, n)
  {
    if Divides(d, n) {
      DividesProduct(d, n, -1);
    }
    if Divides(d, Abs(n)) {
      DividesProduct(d, Abs(n), -1);
    }
  }

  // ----- rounding to a precision

  /** The number of units `p` that `q` is rounded to. */
  function Units(q: Rational, p: Rational): int
    requires q.den > 0 && p.den > 0 && p.num != 0
  {
    assert q.den * p.num != 0 by {
      if p.num > 0 { SignedMultiple(q.den, p.num); } else { SignedMultiple(q.den, -p.num); assert q.den * -p.num == -(q.den * p.num); }
    }
    CeilDiv(q.num * p.den, q.den * p.num)
  }

  function Rounded(q: Rational, p: Rational): Rational
    requires q.den > 0 && p.den > 0 && p.num != 0
  {
    Canonicalized(Units(q, p) * p.num, p.den)
  }

  predicate AtMost(q: Rational, r: Rational) {
    q.num * r.den <= r.num * q.den
  }

  /** With a positive precision this is the least multiple of it that is not below the duration. */
  lemma RoundedIsLeast(q: Rational, p: Rational)
    requires q.den > 0 && p.den > 0 && p.num > 0
    ensures var r := Rounded(q, p); var k := Units(q, p);
            && r.den > 0 && r.num * p.den == k * p.num * r.den
            && AtMost(q, Rational(k * p.num, p.den))
            && forall j: int :: AtMost(q, Rational(j * p.num, p.den)) ==> k <= j
  {
    var k := Units(q, p);
    CanonicalizedSame(k * p.num, p.den);
    SignedMultiple(q.den, p.num);
    CeilDivLeast(q.num * p.den, q.den * p.num);
    assert k * (q.den * p.num) == k * p.num * q.den;
    forall j: int | AtMost(q, Rational(j * p.num, p.den)) ensures k <= j {
      assert j * (q.den * p.num) == j * p.num * q.den;
    }
  }

  // ----- the scale

  predicate Positive(qs: seq<Rational>) {
    forall i :: 0 <= i < |qs| ==> qs[i].den > 0
  }

  /** The least common multiple of the first `k` denominators. */
  function LcmTo(qs: seq<Rational>, k: nat): (l: nat)
    requires Positive(qs) && k <= |qs|
    ensures l > 0
  {
    if k == 0 then 1
    else
      LcmDivides(LcmTo(qs, k - 1), qs[k - 1].den);
      Lcm(LcmTo(qs, k - 1), qs[k - 1].den)
  }

  lemma {:induction false} LcmToPrefix(qs: seq<Rational>, rs: seq<Rational>, k: nat)
    requires Positive(qs) && Positive(rs) && k <= |qs| && k <= |rs| && forall i :: 0 <= i < k ==> qs[i] == rs[i]
    ensures LcmTo(qs, k) == LcmTo(rs, k)
  {
    if k > 0 {
      LcmToPrefix(qs, rs, k - 1);
    }
  }

  lemma {:induction false} DenominatorsDivide(qs: seq<Rational>, k: nat, i: nat)
    requires Positive(qs) && i < k <= |qs|
    ensures Divides(qs[i].den, LcmTo(qs, k))
  {
    LcmDivides(LcmTo(qs, k - 1), qs[k - 1].den);
    if i < k - 1 {
      DenominatorsDivide(qs, k - 1, i);
      DividesTransitive(qs[i].den, LcmTo(qs, k - 1), LcmTo(qs, k));
    }
  }

  /** The multiple divides every common multiple of the denominators. */
  lemma {:induction false} LcmToLeast(qs: seq<Rational>, k: nat, m: int)
    requires Positive(qs) && k <= |qs| && forall i :: 0 <= i < k ==> Divides(qs[i].den, m)
    ensures Divides(LcmTo(qs, k), m)
  {
    if k > 0 {
      LcmToLeast(qs, k - 1, m);
      LcmLeast(LcmTo(qs, k - 1), qs[k - 1].den, m);
    }
  }

  function Scaled(q: Rational, l: int): int
    requires q.den != 0
  {
    q.num * l / q.den
  }

  /** The greatest common divisor of the first `k` scaled durations; the first one that is not zero sets its sign. */
  function GcdTo(qs: seq<Rational>, l: int, k: nat): int
    requires Positive(qs) && k <= |qs|
  {
    if k == 0 then 0
    else if GcdTo(qs, l, k - 1) == 0 then Scaled(qs[k - 1], l)
    else Gcd(Abs(GcdTo(qs, l, k - 1)), Abs(Scaled(qs[k - 1], l)))
  }

  /** The scaled durations are integers. */
  lemma ScaledExact(q: Rational, l: int)
    requires q.den > 0 && Divides(q.den, l)
    ensures Scaled(q, l) * q.den == q.num * l
  {
    DividesProduct(q.den, l, q.num);
    Quotient(q.den, l * q.num);
  }

  /** The divisor divides them all, and what divides them all divides it. */
  lemma {:induction false} GcdToDivides(qs: seq<Rational>, l: int, k: nat, i: nat)
    requires Positive(qs) && i < k <= |qs|
    ensures GcdTo(qs, l, k) == 0 ==> Scaled(qs[i], l) == 0
    ensures GcdTo(qs, l, k) != 0 ==> Divides(GcdTo(qs, l, k), Scaled(qs[i], l))
  {
    var g, s := GcdTo(qs, l, k - 1), Scaled(qs[k - 1], l);
    if i < k - 1 {
      GcdToDivides(qs, l, k - 1, i);
    }
    if g == 0 {
      if s != 0 {
        MultipleDivides(s, 1);
        MultipleDivides(s, 0);
      }
    } else {
      GcdDivides(Abs(g), Abs(s));
      DividesAbs(GcdTo(qs, l, k), g);
      DividesAbs(GcdTo(qs, l, k), s);
      if i < k - 1 {
        DividesTransitive(GcdTo(qs, l, k), g, Scaled(qs[i], l));
      }
    }
  }

  lemma {:induction false} DividesGcdTo(qs: seq<Rational>, l: int, k: nat, d: int)
    requires Positive(qs) && k <= |qs| && d != 0
    requires forall i :: 0 <= i < k ==> Divides(d, Scaled(qs[i], l))
    ensures Divides(d, GcdTo(qs, l, k))
  {
    if k == 0 {
      MultipleDivides(d, 0);
    } else {
      var g, s := GcdTo(qs, l, k - 1), Scaled(qs[k - 1], l);
      DividesGcdTo(qs, l, k - 1, d);
      if g != 0 {
        DividesAbs(d, g);
        DividesAbs(d, s);
        GcdCombines(d, Abs(g), Abs(s), 1);
      }
    }
  }

  /** The divisor is not negative, unless the only duration that is not zero is negative and comes last. */
  lemma {:induction false} GcdToSign(qs: seq<Rational>, l: int, k: nat)
    requires Positive(qs) && k <= |qs|
    ensures GcdTo(qs, l, k) < 0 <==>
              k > 0 && Scaled(qs[k - 1], l) < 0 && forall i :: 0 <= i < k - 1 ==> Scaled(qs[i], l) == 0
  {
    if k > 0 {
      var g := GcdTo(qs, l, k - 1);
      if g == 0 {
        forall i | 0 <= i < k - 1 ensures Scaled(qs[i], l) == 0 {
          GcdToDivides(qs, l, k - 1, i);
        }
      } else {
        if forall i :: 0 <= i < k - 1 ==> Scaled(qs[i], l) == 0 {
          AllZero(qs, l, k - 1);
        }
      }
    }
  }

  lemma {:induction false} AllZero(qs: seq<Rational>, l: int, k: nat)
    requires Positive(qs) && k <= |qs| && forall i :: 0 <= i < k ==> Scaled(qs[i], l) == 0
    ensures GcdTo(qs, l, k) == 0
  {
    if k > 0 {
      AllZero(qs, l, k - 1);
    }
  }

  // ----- the durations as integers

  function Duration(q: Rational, l: int, g: int): int
    requires q.den > 0 && (q.num != 0 ==> g != 0)
  {
    if q.num == 0 then 0
    else
      assert q.den * g != 0 by { NonZeroProduct(q.den, g); }
      CeilDiv(q.num * l, q.den * g)
  }

  lemma NonZeroProduct(a: int, b: int)
    requires a > 0 && b != 0
    ensures a * b != 0
  {
    if b > 0 { SignedMultiple(a, b); } else { SignedMultiple(a, -b); NegatedProduct(a, b); }
  }

  lemma NonZeroFactor(a: int, b: int)
    requires a * b != 0
    ensures a != 0
  {
  }

  lemma NegatedProduct(a: int, b: int)
    ensures a * -b == -(a * b)
  {
  }

  /** The scale of a list of durations: a common multiple of the denominators over a common divisor. */
  function LcmOf(qs: seq<Rational>): nat
    requires Positive(qs)
  {
    LcmTo(qs, |qs|)
  }

  function GcdOf(qs: seq<Rational>): int
    requires Positive(qs)
  {
    GcdTo(qs, LcmOf(qs), |qs|)
  }

  /** A duration that is not zero has a divisor that is not zero. */
  lemma GcdNonZero(qs: seq<Rational>, i: nat)
    requires Positive(qs) && i < |qs| && qs[i].num != 0
    ensures GcdOf(qs) != 0
  {
    var l := LcmOf(qs);
    DenominatorsDivide(qs, |qs|, i);
    ScaledExact(qs[i], l);
    NonZeroProduct(l, qs[i].num);
    assert l * qs[i].num == qs[i].num * l;
    NonZeroFactor(Scaled(qs[i], l), qs[i].den);
    GcdToDivides(qs, l, |qs|, i);
  }

  function DurationOf(qs: seq<Rational>, i: nat): int
    requires Positive(qs) && i < |qs|
  {
    if qs[i].num == 0 then 0
    else
      GcdNonZero(qs, i);
      Duration(qs[i], LcmOf(qs), GcdOf(qs))
  }

  lemma Reordered(s: int, g: int, t: int, d: int)
    requires s == g * t
    ensures s * d == d * g * t
  {
  }

  /** Nothing is rounded: every integer duration is exactly the rational one, scaled. */
  lemma DurationsExact(qs: seq<Rational>, i: nat)
    requires Positive(qs) && i < |qs|
    ensures DurationOf(qs, i) * GcdOf(qs) == Scaled(qs[i], LcmOf(qs))
    ensures Scaled(qs[i], LcmOf(qs)) * qs[i].den == qs[i].num * LcmOf(qs)
  {
    var q, l, g := qs[i], LcmOf(qs), GcdOf(qs);
    DenominatorsDivide(qs, |qs|, i);
    ScaledExact(q, l);
    if q.num == 0 {
      assert Scaled(q, l) == 0;
    } else {
      GcdNonZero(qs, i);
      GcdToDivides(qs, l, |qs|, i);
      var t := Scaled(q, l) / g;
      Quotient(g, Scaled(q, l));
      NonZeroProduct(q.den, g);
      Reordered(Scaled(q, l), g, t, q.den);
      CeilDivExact(q.num * l, q.den * g, t);
    }
  }

  lemma SignOfProduct(x: int, y: int, u: int, v: int)
    requires x * y == u * v && y > 0 && v > 0
    ensures (x < 0 <==> u < 0) && (x > 0 <==> u > 0)
  {
    if x > 0 { SignedMultiple(x, y); } else if x < 0 { SignedMultiple(x, y); }
    if u > 0 { SignedMultiple(u, v); } else if u < 0 { SignedMultiple(u, v); }
  }

  lemma ScaledSign(qs: seq<Rational>, i: nat)
    requires Positive(qs) && i < |qs|
    ensures Scaled(qs[i], LcmOf(qs)) < 0 <==> qs[i].num < 0
    ensures Scaled(qs[i], LcmOf(qs)) > 0 <==> qs[i].num > 0
  {
    DenominatorsDivide(qs, |qs|, i);
    ScaledExact(qs[i], LcmOf(qs));
    SignOfProduct(Scaled(qs[i], LcmOf(qs)), qs[i].den, qs[i].num, LcmOf(qs));
  }

  /** The only duration that is not zero is negative and comes last. */
  predicate OnlyLastNegative(qs: seq<Rational>) {
    |qs| > 0 && qs[|qs| - 1].num < 0 && forall i :: 0 <= i < |qs| - 1 ==> qs[i].num == 0
  }

  lemma GcdOfSign(qs: seq<Rational>)
    requires Positive(qs)
    ensures GcdOf(qs) < 0 <==> OnlyLastNegative(qs)
  {
    GcdToSign(qs, LcmOf(qs), |qs|);
    forall i | 0 <= i < |qs|
      ensures (Scaled(qs[i], LcmOf(qs)) < 0 <==> qs[i].num < 0) && (Scaled(qs[i], LcmOf(qs)) > 0 <==> qs[i].num > 0)
    {
      ScaledSign(qs, i);
    }
  }

  predicate SameSign(x: int, y: int) {
    (x < 0 <==> y < 0) && (x > 0 <==> y > 0)
  }

  lemma DurationSign(qs: seq<Rational>, i: nat)
    requires Positive(qs) && i < |qs|
    ensures GcdOf(qs) >= 0 ==> SameSign(DurationOf(qs, i), qs[i].num)
    ensures GcdOf(qs) < 0 && qs[i].num < 0 ==> DurationOf(qs, i) > 0
  {
    if qs[i].num != 0 {
      GcdNonZero(qs, i);
      DurationsExact(qs, i);
      ScaledSign(qs, i);
      var t, g := DurationOf(qs, i), GcdOf(qs);
      if g > 0 {
        SignOfProduct(t, g, Scaled(qs[i], LcmOf(qs)), 1);
      } else {
        NegatedProduct(t, g);
        SignOfProduct(t, -g, -Scaled(qs[i], LcmOf(qs)), 1);
      }
    }
  }

  /**
   Exactly when every integer duration has the sign of the rational one.  The queue ends with the
   bound on the makespan, or with another option; with a bound that is not negative it does.
   */
  lemma SignsKeptIff(qs: seq<Rational>)
    requires Positive(qs)
    ensures (forall i :: 0 <= i < |qs| ==> SameSign(DurationOf(qs, i), qs[i].num)) <==> !OnlyLastNegative(qs)
  {
    GcdOfSign(qs);
    forall i | 0 <= i < |qs|
      ensures GcdOf(qs) >= 0 ==> SameSign(DurationOf(qs, i), qs[i].num)
      ensures GcdOf(qs) < 0 && qs[i].num < 0 ==> DurationOf(qs, i) > 0
    {
      DurationSign(qs, i);
    }
    if OnlyLastNegative(qs) {
      assert !SameSign(DurationOf(qs, |qs| - 1), qs[|qs| - 1].num);
    }
  }

  /** The integer durations that are not zero have no common divisor. */
  lemma DurationsCoprime(qs: seq<Rational>, d: int)
    requires Positive(qs) && GcdOf(qs) != 0 && d > 0
    requires forall i :: 0 <= i < |qs| ==> Divides(d, DurationOf(qs, i))
    ensures d == 1
  {
    var l, g := LcmOf(qs), GcdOf(qs);
    NonZeroProduct(d, g);
    forall i | 0 <= i < |qs| ensures Divides(d * g, Scaled(qs[i], l)) {
      DurationsExact(qs, i);
      DividesMultiple(d, DurationOf(qs, i), g);
    }
    DividesGcdTo(qs, l, |qs|, d * g);
    DividesItself(d, g);
  }

  lemma DividesMultiple(d: int, t: int, g: int)
    requires d > 0 && g != 0 && Divides(d, t)
    ensures d * g != 0 && Divides(d * g, t * g)
  {
    NonZeroProduct(d, g);
    Quotient(d, t);
    var k := t / d;
    assert t * g == (d * k) * g == (d * g) * k;
    MultipleDivides(d * g, k);
  }

  lemma DividesItself(d: int, g: int)
    requires d > 0 && g != 0 && d * g != 0 && Divides(d * g, g)
    ensures d == 1
  {
    assert d * g == g * d && g == g * 1;
    CancelFactor(g, d, 1);
  }

  /** What divides the product of each integer duration with `c` divides `c`. */
  lemma {:induction false} DividesAllProducts(qs: seq<Rational>, k: nat, d: int, c: int)
    requires Positive(qs) && k <= |qs| && d != 0
    requires forall i :: 0 <= i < k ==> Divides(d, Scaled(qs[i], LcmOf(qs)) * c)
    ensures Divides(d, GcdTo(qs, LcmOf(qs), k) * c)
  {
    if k == 0 {
      MultipleDivides(d, 0);
    } else {
      var l := LcmOf(qs);
      var g, s := GcdTo(qs, l, k - 1), Scaled(qs[k - 1], l);
      DividesAllProducts(qs, k - 1, d, c);
      if g != 0 {
        DividesAbsProduct(d, g, c);
        DividesAbsProduct(d, s, c);
        GcdCombines(d, Abs(g), Abs(s), c);
      }
    }
  }

  lemma DividesAbsProduct(d: int, n: int, c: int)
    requires Divides(d, n * c)
    ensures Divides(d, Abs(n) * c)
  {
    DividesProduct(d, n * c, -1);
    assert (n * c) * -1 == -n * c;
  }

  lemma SwapLast(a: int, b: int, c: int)
    ensures (a * b) * c == (a * c) * b == a * (b * c)
  {
  }

  lemma RegroupScaled(num: int, den: int, s: int, l: int, x: int, y: int, k: int)
    requires den * s == num * l && num * x == (den * y) * k
    ensures den * (s * x) == den * ((l * y) * k)
  {
    SwapLast(den, s, x);
    SwapLast(num, l, x);
    SwapLast(den * y, k, l);
    SwapLast(den, y, k * l);
    SwapLast(y, k, l);
    assert y * (k * l) == (l * y) * k;
  }

  /**
   No smaller scale will do: a scale `x / y` that makes every duration an integer is a whole
   multiple of the one that is used.
   */
  lemma ScaleIsLeast(qs: seq<Rational>, x: int, y: int)
    requires Positive(qs) && GcdOf(qs) != 0 && x > 0 && y > 0
    requires forall i :: 0 <= i < |qs| ==> Divides(qs[i].den * y, qs[i].num * x)
    ensures Divides(LcmOf(qs) * y, GcdOf(qs) * x)
  {
    var l := LcmOf(qs);
    NonZeroProduct(l, y);
    forall i | 0 <= i < |qs| ensures Divides(l * y, Scaled(qs[i], l) * x) {
      DurationsExact(qs, i);
      var q, s := qs[i], Scaled(qs[i], l);
      var k := (q.num * x) / (q.den * y);
      Quotient(q.den * y, q.num * x);
      RegroupScaled(q.num, q.den, s, l, x, y, k);
      CancelEqual(q.den, s * x, (l * y) * k);
      MultipleDivides(l * y, k);
    }
    DividesAllProducts(qs, |qs|, l * y, x);
  }

  // ----- the passes over the durations

  class DurationTable {
    const q: array<Rational>
    const t: array<int>
    const precision: Rational
    const rounds: bool
    var timeLcm: nat
    var timeGcd: int

    constructor (durations: seq<Rational>, precision: Rational, rounds: bool)
      ensures this.precision == precision && this.rounds == rounds
      ensures q[..] == durations && t.Length == |durations| && fresh(q) && fresh(t)
    {
      q := new Rational[|durations|](i requires 0 <= i < |durations| => durations[i]);
      t := new int[|durations|](_ => 0);
      this.precision, this.rounds := precision, rounds;
      timeLcm, timeGcd := 1, 0;
    }

    /** A duration after the first pass. */
    function Settled(r: Rational): Rational
      requires r.den > 0 && precision.den > 0
    {
      if rounds && precision.num != 0 then Rounded(r, precision) else r
    }

    method Normalize()
      requires q.Length == t.Length && Positive(q[..]) && precision.den > 0
      modifies this, q, t
      ensures forall i :: 0 <= i < q.Length ==> old(q[i]).den > 0 && q[i] == Settled(old(q[i]))
      ensures Positive(q[..]) && timeLcm == LcmOf(q[..]) && timeGcd == GcdOf(q[..])
      ensures forall i :: 0 <= i < t.Length ==> t[i] == DurationOf(q[..], i)
    {
      timeLcm := 1;
      timeGcd := 0;
      ApplyPrecision();
      ComputeGcd();
      ComputeDurations();
    }

    method RoundOne(i: nat)
      requires i < q.Length && q[i].den > 0 && precision.den > 0
      modifies q
      ensures old(q[i]).den > 0 && q[..] == old(q[..])[i := Settled(old(q[i]))] && q[i].den > 0
    {
      ghost var before := q[..];
      SettledPositive(q[i]);
      if rounds && precision.num != 0 {
        q[i] := Rounded(q[i], precision);
      }
      assert q[..] == before[i := Settled(before[i])];
    }

    /** Rounds the durations, and collects their denominators. */
    method ApplyPrecision()
      requires Positive(q[..]) && precision.den > 0 && timeLcm == 1
      modifies this`timeLcm, q
      ensures forall i :: 0 <= i < q.Length ==> old(q[i]).den > 0 && q[i] == Settled(old(q[i]))
      ensures Positive(q[..]) && timeLcm == LcmOf(q[..])
    {
      for i := 0 to q.Length
        invariant Positive(q[..]) && timeLcm == LcmTo(q[..], i)
        invariant forall k :: 0 <= k < q.Length ==>
                    old(q[k]).den > 0 && q[k] == if k < i then Settled(old(q[k])) else old(q[k])
      {
        ghost var before := q[..];
        assert before[i].den > 0;
        RoundOne(i);
        LcmToPrefix(before, q[..], i);
        LcmDivides(timeLcm, q[i].den);
        timeLcm := Lcm(timeLcm, q[i].den);
      }
    }

    lemma SettledPositive(r: Rational)
      requires r.den > 0 && precision.den > 0
      ensures Settled(r).den > 0
    {
      if rounds && precision.num != 0 {
        CanonicalizedSame(Units(r, precision) * precision.num, precision.den);
      }
    }

    method ComputeGcd()
      requires Positive(q[..]) && timeGcd == 0
      modifies this`timeGcd
      ensures timeGcd == GcdTo(q[..], timeLcm, q.Length)
    {
      for i := 0 to q.Length
        invariant timeGcd == GcdTo(q[..], timeLcm, i)
      {
        assert q[..][i].den > 0;
        var s := q[i].num * timeLcm / q[i].den;
        if timeGcd == 0 {
          timeGcd := s;
        } else {
          timeGcd := Gcd(Abs(timeGcd), Abs(s));
        }
      }
    }

    method ComputeDurations()
      requires q.Length == t.Length && Positive(q[..]) && timeLcm == LcmOf(q[..]) && timeGcd == GcdOf(q[..])
      modifies t
      ensures forall i :: 0 <= i < t.Length ==> t[i] == DurationOf(q[..], i)
    {
      for i := 0 to t.Length
        invariant forall k :: 0 <= k < i ==> t[k] == DurationOf(q[..], k)
      {
        assert q[..][i].den > 0;
        if q[i].num == 0 {
          t[i] := 0;
        } else {
          GcdNonZero(q[..], i);
          NonZeroProduct(q[i].den, timeGcd);
          t[i] := CeilDiv(q[i].num * timeLcm, q[i].den * timeGcd);
        }
      }
    }
  }
}
