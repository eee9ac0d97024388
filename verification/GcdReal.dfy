/** The Euclidean algorithm on real weights with a cut-off, and its agreement with the integer one on a grid. */
module GcdReal {
  import opened Primes

  const EPSILON: real := 0.0001

  /** `a % b` for floating-point a >= 0 and b > 0. */
  function Fmod(a: real, b: real): real
    requires b > 0.0
  {
    a - b * (a / b).Floor as real
  }

  lemma FmodUnique(a: real, b: real, q: int, r: real)
    requires b > 0.0 && 0.0 <= r < b && a == b * q as real + r
    ensures Fmod(a, b) == r && (a / b).Floor == q
  {
    var x, y := a / b, r / b;
    assert y * b == r;
    if y < 0.0 { NegativeTimes(y, b); assert false; }
    if y >= 1.0 { AtLeastTimes(y, b); assert false; }
    assert (q as real + y) * b == a;
    assert x == q as real + y by { CancelFactor(x, q as real + y, b); }
    assert x.Floor == q;
  }

  lemma NegativeTimes(y: real, b: real)
    requires y < 0.0 && b > 0.0
    ensures y * b < 0.0
  {
  }

  lemma AtLeastTimes(y: real, b: real)
    requires y >= 1.0 && b > 0.0
    ensures y * b >= b
  {
  }

  lemma CancelFactor(x: real, y: real, b: real)
    requires b > 0.0 && x * b == y * b
    ensures x == y
  {
    assert (x - y) * b == x * b - y * b;
    assert (y - x) * b == y * b - x * b;
    if x < y { NegativeTimes(x - y, b); assert false; }
    if y < x { NegativeTimes(y - x, b); assert false; }
  }

  lemma QuotientBounds(a: real, b: real)
    requires a >= 0.0 && b > 0.0
    ensures a / b >= 0.0
    ensures a >= b <==> a / b >= 1.0
  {
    var x := a / b;
    assert x * b == a;
    if x < 0.0 {
      NegativeTimes(x, b);
    } else if x < 1.0 {
      Fraction(x, b);
    } else {
      AtLeastTimes(x, b);
    }
  }

  /** The integral quotient q and the multiple p = b * q that the remainder takes away. */
  lemma Quotient(a: real, b: real) returns (q: int, p: real)
    requires a >= 0.0 && b > 0.0
    ensures p == b * q as real && Fmod(a, b) == a - p
    ensures p <= a < p + b
    ensures a >= b ==> p >= b
    ensures a < b ==> p == 0.0
  {
    QuotientBounds(a, b);
    q := (a / b).Floor;
    p := b * q as real;
    assert Fmod(a, b) == a - p;
    var f := a / b - q as real;
    var g := Parts(a, b, q as real, f, p);
    TimesWhole(b, q as real, p);
  }

  lemma Parts(a: real, b: real, q: real, f: real, p: real) returns (g: real)
    requires b > 0.0 && f == a / b - q && p == b * q
    requires 0.0 <= f < 1.0
    ensures a == p + g && 0.0 <= g < b
  {
    g := f * b;
    Fraction(f, b);
    assert a / b == q + f;
    assert (a / b) * b == a;
    assert (q + f) * b == b * q + f * b;
  }

  lemma FmodRange(a: real, b: real)
    requires a >= 0.0 && b > 0.0
    ensures 0.0 <= Fmod(a, b) < b
    ensures a >= b ==> 2.0 * Fmod(a, b) < a
    ensures a < b ==> Fmod(a, b) == a
  {
    var q, p := Quotient(a, b);
    hide Fmod;
  }

  lemma TimesWhole(b: real, q: real, p: real)
    requires b > 0.0 && p == b * q
    ensures q >= 1.0 ==> p >= b
    ensures q == 0.0 ==> p == 0.0
  {
    if q >= 1.0 {
      AtLeastTimes(q, b);
    }
  }

  lemma Fraction(f: real, b: real)
    requires f < 1.0 && b > 0.0
    ensures f * b < b
    ensures f >= 0.0 ==> 0.0 <= f * b
  {
    NegativeTimes(f - 1.0, b);
    assert (f - 1.0) * b == f * b - b;
  }

  /** How often x can be halved before it drops below 1. */
  ghost function Halvings(x: real): nat
    decreases x.Floor
  {
    if x < 1.0 then 0 else 1 + Halvings(x / 2.0)
  }

  lemma {:induction false} HalvingsMonotone(x: real, y: real)
    requires x <= y
    ensures Halvings(x) <= Halvings(y)
    decreases y.Floor
  {
    if x >= 1.0 {
      HalvingsMonotone(x / 2.0, y / 2.0);
    }
  }

  lemma HalvingsDrop(x: real, y: real)
    requires y >= 1.0 && x <= y / 2.0
    ensures Halvings(x) < Halvings(y)
  {
    HalvingsMonotone(x, y / 2.0);
  }

  /** The scaled product that every second step of the algorithm at least halves. */
  ghost function Size(a: real, b: real): real {
    a * b * 100000000.0
  }

  lemma SizeAtLeastOne(a: real, b: real)
    requires a >= EPSILON && b >= EPSILON
    ensures Size(a, b) >= 1.0
  {
    Monotone(a, EPSILON, b);
    var p := a * b;
    assert p >= a * EPSILON;
  }

  lemma SizeHalves(a: real, b: real, r: real)
    requires b >= 0.0 && 2.0 * r <= a
    ensures Size(b, r) <= Size(a, b) / 2.0
  {
    Monotone(b, 2.0 * r, a);
    var p, q := a * b, b * r;
    assert b * (2.0 * r) == 2.0 * q && b * a == p;
  }

  lemma StepHalves(a: real, b: real)
    requires a >= b >= EPSILON
    ensures Halvings(Size(b, Fmod(a, b))) < Halvings(Size(a, b))
  {
    FmodRange(a, b);
    SizeAtLeastOne(a, b);
    SizeHalves(a, b, Fmod(a, b));
    hide Size, Fmod;
    HalvingsDrop(Size(b, Fmod(a, b)), Size(a, b));
  }

  lemma Monotone(c: real, x: real, y: real)
    requires c >= 0.0 && x <= y
    ensures c * x <= c * y
  {
  }

  /** The recursion of the scheduler: it terminates because the product of its arguments halves. */
  function GcdF64(a: real, b: real): (r: real)
    requires a >= 0.0
    ensures r >= 0.0
    decreases Halvings(Size(a, b)), a < b
  {
    if b < EPSILON then a
    else
      FmodRange(a, b);
      assert a < b ==> Size(b, Fmod(a, b)) == Size(a, b);
      if a >= b then StepHalves(a, b); GcdF64(b, Fmod(a, b)) else GcdF64(b, Fmod(a, b))
  }

  /** The recursion with its cut-off: a second argument below 0.0001 counts as zero. */
  lemma GcdF64Step(a: real, b: real)
    requires a >= 0.0
    ensures b < 0.0001 ==> GcdF64(a, b) == a
    ensures b >= 0.0001 ==> 0.0 <= Fmod(a, b) < b && GcdF64(a, b) == GcdF64(b, Fmod(a, b))
  {
    if b >= EPSILON {
      FmodRange(a, b);
    }
  }

  function Gcd(a: nat, b: nat): nat
    decreases b
  {
    if b == 0 then a else Gcd(b, a % b)
  }

  /** Divisibility with zero allowed as a multiple. */
  ghost predicate Multiple(x: nat, d: nat) {
    exists k: nat :: x == d * k
  }

  lemma MultipleOf(x: nat, d: nat, k: nat)
    requires x == d * k
    ensures Multiple(x, d)
  {
  }

  lemma MultipleSum(b: nat, q: nat, r: nat, d: nat)
    requires Multiple(b, d) && Multiple(r, d)
    ensures Multiple(b * q + r, d)
  {
    var y: nat :| b == d * y;
    var z: nat :| r == d * z;
    assert b * q == d * (y * q);
    assert d * (y * q) + d * z == d * (y * q + z);
    MultipleOf(b * q + r, d, y * q + z);
  }

  lemma Factored(d: nat, x: int, y: int, q: int)
    ensures d * x - d * y * q == d * (x - y * q)
  {
    assert d * y * q == d * (y * q);
  }

  lemma MultipleDifference(b: nat, q: nat, r: nat, d: nat)
    requires Multiple(b, d) && Multiple(b * q + r, d)
    ensures Multiple(r, d)
  {
    var y: nat :| b == d * y;
    var x: nat :| b * q + r == d * x;
    var k := x - y * q;
    Factored(d, x, y, q);
    assert r == d * k;
    if k < 0 {
      MulSign(d, -k);
      assert d * k == -(d * -k);
      MultipleOf(r, d, 0);
    } else {
      MultipleOf(r, d, k);
    }
  }

  lemma MulSign(d: nat, k: nat)
    ensures d * k >= 0
  {
  }

  lemma MultipleRemainder(a: nat, b: nat, d: nat)
    requires b > 0
    ensures Multiple(a, d) && Multiple(b, d) <==> Multiple(b, d) && Multiple(a % b, d)
  {
    var q, r := a / b, a % b;
    assert a == b * q + r;
    hide Multiple;
    if Multiple(b, d) && Multiple(a, d) { MultipleDifference(b, q, r, d); }
    if Multiple(b, d) && Multiple(r, d) { MultipleSum(b, q, r, d); }
  }

  /** The common divisors of a and b are exactly the divisors of their gcd. */
  lemma {:induction false} GcdDivisors(a: nat, b: nat, d: nat)
    ensures Multiple(Gcd(a, b), d) <==> Multiple(a, d) && Multiple(b, d)
    decreases b
  {
    if b == 0 {
      MultipleOf(0, d, 0);
    } else {
      GcdDivisors(b, a % b, d);
      MultipleRemainder(a, b, d);
    }
  }

  lemma Spread(b: real, q: real, r: real, unit: real)
    ensures (b * q + r) * unit == b * unit * q + r * unit
  {
    assert b * q * unit == b * unit * q;
  }

  /** A weight that is n grid units. */
  function Scale(n: nat, unit: real): real {
    n as real * unit
  }

  lemma ScaleBounds(n: nat, unit: real)
    requires unit > 0.0
    ensures Scale(n, unit) >= 0.0
    ensures n == 0 ==> Scale(n, unit) == 0.0
    ensures n > 0 ==> Scale(n, unit) >= unit
  {
    if n > 0 { AtLeastTimes(n as real, unit); }
  }

  lemma ScaleMonotone(n: nat, m: nat, unit: real)
    requires unit > 0.0
    ensures n <= m <==> Scale(n, unit) <= Scale(m, unit)
  {
    assert (n as real - m as real) * unit == n as real * unit - m as real * unit;
    if n < m { NegativeTimes(n as real - m as real, unit); }
    if m < n {
      NegativeTimes(m as real - n as real, unit);
      assert (m as real - n as real) * unit == m as real * unit - n as real * unit;
    }
  }

  lemma ScaleSplit(b: nat, q: nat, r: nat, unit: real)
    requires unit > 0.0
    ensures Scale(b * q + r, unit) == Scale(b, unit) * q as real + Scale(r, unit)
  {
    assert (b * q + r) as real == b as real * q as real + r as real;
    Spread(b as real, q as real, r as real, unit);
  }

  /** One step of the recursion on the grid. */
  lemma FmodOnGrid(a: nat, b: nat, unit: real)
    requires unit > 0.0 && b > 0
    ensures Scale(b, unit) > 0.0
    ensures Fmod(Scale(a, unit), Scale(b, unit)) == Scale(a % b, unit)
  {
    var q, r := a / b, a % b;
    assert a == b * q + r;
    ScaleSplit(b, q, r, unit);
    ScaleBounds(b, unit);
    ScaleBounds(r, unit);
    ScaleMonotone(b, r, unit);
    hide Scale, Fmod;
    FmodUnique(Scale(a, unit), Scale(b, unit), q, Scale(r, unit));
  }

  /** The scheduler's folds over the weights, and their counterparts on whole units. */
  function GcdFold(weights: seq<real>): (g: real)
    ensures g >= 0.0
  {
    if weights == [] then 0.0 else GcdF64(GcdFold(weights[..|weights| - 1]), weights[|weights| - 1])
  }

  function MaxFold(weights: seq<real>): (m: real)
    ensures m >= 0.0
    ensures forall i :: 0 <= i < |weights| ==> weights[i] <= m
    ensures m == 0.0 || m in weights
  {
    if weights == [] then 0.0
    else
      var m := MaxFold(weights[..|weights| - 1]);
      var last := weights[|weights| - 1];
      if m >= last then m else last
  }

  function GcdAll(units: seq<nat>): nat {
    if units == [] then 0 else Gcd(GcdAll(units[..|units| - 1]), units[|units| - 1])
  }

  function MaxAll(units: seq<nat>): (m: nat)
    ensures forall i :: 0 <= i < |units| ==> units[i] <= m
    ensures units != [] ==> m in units
  {
    if units == [] then 0
    else
      var m := MaxAll(units[..|units| - 1]);
      var last := units[|units| - 1];
      if |units| > 1 && m >= last then m else last
  }

  /** The weights are whole multiples, at least one, of a unit that the cut-off does not swallow. */
  ghost predicate OnGrid(weights: seq<real>, units: seq<nat>, unit: real) {
    && unit >= 0.0001 && |weights| == |units|
    && forall i :: 0 <= i < |units| ==> units[i] > 0 && weights[i] == units[i] as real * unit
  }

  /** The fold yields the greatest common divisor of all the weights: its divisors are exactly the common divisors. */
  lemma {:induction false} GcdAllDivisors(units: seq<nat>, d: nat)
    ensures Multiple(GcdAll(units), d) <==> forall i :: 0 <= i < |units| ==> Multiple(units[i], d)
  {
    if units == [] {
      MultipleOf(0, d, 0);
    } else {
      var init := units[..|units| - 1];
      GcdAllDivisors(init, d);
      GcdDivisors(GcdAll(init), units[|units| - 1], d);
      hide Multiple, Gcd;
      assert forall i :: 0 <= i < |init| ==> units[i] == init[i];
    }
  }

  /** Weights below the cut-off have gcd zero, for which the scheduler takes 1. */
  lemma {:induction false} TinyFold(weights: seq<real>)
    requires forall i :: 0 <= i < |weights| ==> weights[i] < 0.0001
    ensures GcdFold(weights) == 0.0
  {
    if weights != [] {
      TinyFold(weights[..|weights| - 1]);
      GcdF64Step(0.0, weights[|weights| - 1]);
    }
  }

  lemma GridLast(weights: seq<real>, units: seq<nat>, unit: real)
    requires OnGrid(weights, units, unit) && units != []
    ensures unit >= 0.0001 && |weights| == |units|
    ensures weights[|units| - 1] == Scale(units[|units| - 1], unit)
    ensures OnGrid(weights[..|units| - 1], units[..|units| - 1], unit)
  {
  }

  lemma {:induction false} FoldsOnGrid(weights: seq<real>, units: seq<nat>, unit: real)
    requires OnGrid(weights, units, unit)
    ensures GcdFold(weights) == Scale(GcdAll(units), unit)
    ensures MaxFold(weights) == Scale(MaxAll(units), unit)
  {
    if units == [] {
      assert weights == [];
      ScaleBounds(0, unit);
    } else {
      hide OnGrid, Scale, GcdF64, Gcd;
      var n := |units| - 1;
      GridLast(weights, units, unit);
      FoldsOnGrid(weights[..n], units[..n], unit);
      GcdOnGrid(GcdAll(units[..n]), units[n], unit);
      ScaleMonotone(units[n], MaxAll(units[..n]), unit);
      ScaleBounds(units[n], unit);
      ScaleBounds(0, unit);
    }
  }

  /** On multiples of a unit that is not below the cut-off, the real recursion is Euclid's algorithm. */
  lemma {:induction false} GcdOnGrid(a: nat, b: nat, unit: real)
    requires unit >= 0.0001
    ensures Scale(a, unit) >= 0.0
    ensures GcdF64(Scale(a, unit), Scale(b, unit)) == Scale(Gcd(a, b), unit)
    decreases b
  {
    ScaleBounds(a, unit);
    ScaleBounds(b, unit);
    GcdF64Step(Scale(a, unit), Scale(b, unit));
    if b > 0 {
      FmodOnGrid(a, b, unit);
      GcdOnGrid(b, a % b, unit);
    }
    hide GcdF64, Fmod, Scale;
  }
}
