/**
 Every second-order low-pass with its poles inside the unit circle keeps bounded inputs bounded.
 The proof follows the energy of the two last outputs, which the free filter never raises.
 */
module Stability {
  import opened Filter

  /** The poles lie inside the unit circle. */
  predicate Stable(a1: real, a2: real) {
    -1.0 < a2 < 1.0 && Abs(a1) < 1.0 + a2
  }

  function Square(x: real): real {
    x * x
  }

  function Times(x: real, y: real): real {
    x * y
  }

  lemma SquareIsNatural(x: real)
    ensures 0.0 <= Square(x)
  {
  }

  /** A quadratic form in the last two outputs, positive for stable p and q. */
  function Energy(p: real, q: real, x: real, z: real): real {
    (1.0 + q) * (Square(x) + Square(z)) + 2.0 * p * (x * z)
  }

  /** The next output without input. */
  function Free(p: real, q: real, x: real, z: real): real {
    -p * x - q * z
  }

  /** Without input the energy falls by a square. */
  lemma EnergyFalls(p: real, q: real, x: real, z: real)
    ensures Energy(p, q, Free(p, q, x, z), x) == Energy(p, q, x, z) - Times(1.0 - q, Square(p * x + (1.0 + q) * z))
  {
    var next, w := Free(p, q, x, z), p * x + (1.0 + q) * z;
    DifferenceOfSquares(next, z);
    assert next - z == -w;
    EnergyDifference(p, q, x, z, next);
    SumInTermsOfW(p, q, x, z);
    assert -w * ((1.0 - q) * w) == -((1.0 - q) * (w * w)) by { Reorder(w, 1.0 - q); }
  }

  lemma Reorder(w: real, k: real)
    ensures -w * (k * w) == -(k * (w * w))
  {
  }

  lemma DifferenceOfSquares(a: real, b: real)
    ensures Square(a) - Square(b) == (a - b) * (a + b)
  {
  }

  lemma EnergyDifference(p: real, q: real, x: real, z: real, next: real)
    ensures Energy(p, q, next, x) - Energy(p, q, x, z) == (next - z) * ((1.0 + q) * (next + z) + 2.0 * (p * x))
  {
    DifferenceOfSquares(next, z);
    var d, s, k := next - z, next + z, 1.0 + q;
    assert k * (Square(next) + Square(x)) - k * (Square(x) + Square(z)) == k * (Square(next) - Square(z));
    assert k * (d * s) == d * (k * s);
    assert 2.0 * p * (next * x) - 2.0 * p * (x * z) == d * (2.0 * (p * x));
    assert d * (k * s + 2.0 * (p * x)) == d * (k * s) + d * (2.0 * (p * x));
  }

  lemma SumInTermsOfW(p: real, q: real, x: real, z: real)
    ensures (1.0 + q) * (-p * x - q * z + z) + 2.0 * (p * x) == (1.0 - q) * (p * x + (1.0 + q) * z)
  {
    var t := p * x;
    assert -p * x == -t;
    assert (1.0 + q) * (-t - q * z + z) == -t - q * t + (1.0 + q) * (z - q * z);
    assert (1.0 + q) * (z - q * z) == (1.0 - q) * ((1.0 + q) * z);
    assert (1.0 - q) * (t + (1.0 + q) * z) == t - q * t + (1.0 - q) * ((1.0 + q) * z);
  }

  lemma EnergySplits(p: real, q: real, x: real, z: real)
    ensures var a, k := Abs(p), 1.0 + q - Abs(p);
      Energy(p, q, x, z) == k * Square(x) + k * Square(z) + a * Square(if p < 0.0 then x - z else x + z)
  {
    var a, k, s, t := Abs(p), 1.0 + q - Abs(p), Square(x) + Square(z), x * z;
    assert (1.0 + q) * s == k * s + a * s;
    assert k * s == k * Square(x) + k * Square(z);
    if p < 0.0 {
      assert Square(x - z) == s - 2.0 * t;
      assert a * (s - 2.0 * t) == a * s + 2.0 * p * t;
    } else {
      assert Square(x + z) == s + 2.0 * t;
      assert a * (s + 2.0 * t) == a * s + 2.0 * p * t;
    }
  }

  /** The least energy an output x comes with. */
  function LeastEnergy(p: real, q: real, x: real): real {
    Times(1.0 + q - Abs(p), Square(x))
  }

  /** The energy bounds the last output. */
  lemma EnergyBounds(p: real, q: real, x: real, z: real)
    requires Stable(p, q)
    ensures 0.0 <= LeastEnergy(p, q, x) <= Energy(p, q, x, z)
  {
    var a, k, w := Abs(p), 1.0 + q - Abs(p), if p < 0.0 then x - z else x + z;
    EnergySplits(p, q, x, z);
    SquareIsNatural(x);
    SquareIsNatural(z);
    SquareIsNatural(w);
    ProductIsNatural(k, Square(x));
    ProductIsNatural(k, Square(z));
    ProductIsNatural(a, Square(w));
  }

  lemma EnergyScales(p: real, q: real, r: real, x: real, z: real)
    ensures Energy(p, q, Times(r, x), Times(r, z)) == Times(Square(r), Energy(p, q, x, z))
  {
    var rr, s, t := Square(r), Square(x) + Square(z), x * z;
    ProductOfSquares(r, x);
    ProductOfSquares(r, z);
    assert (r * x) * (r * z) == rr * t by { Rearrange(r, x, z); }
    assert rr * Square(x) + rr * Square(z) == rr * s;
    assert (1.0 + q) * (rr * s) == rr * ((1.0 + q) * s);
    assert 2.0 * p * (rr * t) == rr * (2.0 * p * t);
    assert rr * ((1.0 + q) * s + 2.0 * p * t) == rr * ((1.0 + q) * s) + rr * (2.0 * p * t);
  }

  lemma ProductOfSquares(r: real, x: real)
    ensures Square(r * x) == Square(r) * Square(x)
  {
    assert (r * x) * (r * x) == r * (x * (r * x));
  }

  lemma Rearrange(r: real, x: real, z: real)
    ensures (r * x) * (r * z) == Square(r) * (x * z)
  {
    assert (r * x) * (r * z) == r * (x * (r * z));
    assert x * (r * z) == r * (x * z);
  }

  /** What an input u alone brings in. */
  function Lift(q: real, u: real): real {
    Times(1.0 + q, Square(u))
  }

  /** Adding u to an output costs energy, shared out between the two by any weights r and s. */
  lemma EnergyIsConvex(p: real, q: real, r: real, s: real, x: real, z: real, u: real)
    requires Stable(p, q) && 0.0 < r && 0.0 < s && r + s == 1.0
    ensures Times(Times(r, s), Energy(p, q, x + u, z)) <= Times(s, Energy(p, q, x, z)) + Times(r, Lift(q, u))
  {
    EnergyBounds(p, q, s * x - r * u, s * z);
    MixedEnergy(p, q, r, s, x, z, u);
  }

  lemma MixedEnergy(p: real, q: real, r: real, s: real, x: real, z: real, u: real)
    requires r + s == 1.0
    ensures s * Energy(p, q, x, z) + r * ((1.0 + q) * Square(u)) - r * s * Energy(p, q, x + u, z)
      == Energy(p, q, s * x - r * u, s * z)
  {
    var k, h := 1.0 + q, 2.0 * p;
    var xx, zz, uu, xu, xz, uz := x * x, z * z, u * u, x * u, x * z, u * z;
    var free, moved, mixed := k * (xx + zz) + h * xz, k * (xx + 2.0 * xu + uu + zz) + h * (xz + uz),
      k * (s * s * xx - 2.0 * (s * r * xu) + r * r * uu + s * s * zz) + h * (s * s * xz - r * s * uz);
    assert Energy(p, q, x, z) == free;
    assert Energy(p, q, x + u, z) == moved;
    assert Energy(p, q, s * x - r * u, s * z) == mixed by {
      SquareOfDifference(s, r, x, u);
      ProductOfSquares(s, z);
      ProductOfDifference(s, r, x, u, z);
    }
    Coefficients(k, h, r, s, xx, zz, uu, xu, xz, uz);
    assert s * free + r * (k * uu) - r * s * moved == mixed;
    assert Square(u) == uu;
  }

  lemma SquareOfDifference(s: real, r: real, x: real, u: real)
    ensures Square(s * x - r * u) == s * s * (x * x) - 2.0 * (s * r * (x * u)) + r * r * (u * u)
  {
    var a, b := s * x, r * u;
    assert (a - b) * (a - b) == a * a - 2.0 * (a * b) + b * b;
    assert a * a == s * s * (x * x) && b * b == r * r * (u * u) by { ProductOfSquares(s, x); ProductOfSquares(r, u); }
    assert a * b == s * r * (x * u) by { FourFactors(s, x, r, u); }
  }

  lemma FourFactors(s: real, x: real, r: real, u: real)
    ensures (s * x) * (r * u) == s * r * (x * u)
  {
    assert (s * x) * (r * u) == s * (x * (r * u));
    assert x * (r * u) == r * (x * u);
  }

  lemma ProductOfDifference(s: real, r: real, x: real, u: real, z: real)
    ensures (s * x - r * u) * (s * z) == s * s * (x * z) - r * s * (u * z)
  {
    FourFactors(s, x, s, z);
    FourFactors(r, u, s, z);
    var a, b, c := s * x, r * u, s * z;
    assert (a - b) * c == a * c - b * c;
  }

  lemma Coefficients(k: real, h: real, r: real, s: real,
                     xx: real, zz: real, uu: real, xu: real, xz: real, uz: real)
    requires r + s == 1.0
    ensures s * (k * (xx + zz) + h * xz) + r * (k * uu) - r * s * (k * (xx + 2.0 * xu + uu + zz) + h * (xz + uz))
      == k * (s * s * xx - 2.0 * (s * r * xu) + r * r * uu + s * s * zz) + h * (s * s * xz - r * s * uz)
  {
    assert s == 1.0 - r;
    assert s - r * s == s * s;
    assert r - r * s == r * r;
  }

  lemma ScaleUp(k: real, x: real, y: real)
    requires 0.0 <= k && x <= y
    ensures Times(k, x) <= Times(k, y)
  {
    ProductIsNatural(k, y - x);
  }

  lemma PositiveProduct(x: real, y: real)
    requires 0.0 < x && 0.0 < y
    ensures 0.0 < Times(x, y)
  {
  }

  lemma CancelFactor(k: real, x: real, y: real)
    requires 0.0 < k
    ensures Times(k, x) <= Times(k, y) <==> x <= y
  {
    if y < x { PositiveProduct(k, x - y); } else { ScaleUp(k, x, y); }
  }

  lemma Weights(r: real, s: real, level: real)
    requires r + s == 1.0
    ensures Times(s, Times(Square(r), level)) + Times(r, Times(Square(s), level)) == Times(Times(r, s), level)
  {
    var k := r * s * level;
    assert s * (r * r * level) == r * k && r * (s * s * level) == s * k;
    assert r * k + s * k == k by { assert (r + s) * k == r * k + s * k; }
  }

  lemma WeightedLevel(r: real, s: real, e: real, v: real, level: real, after: real)
    requires 0.0 < r && 0.0 < s && r + s == 1.0
    requires e <= Times(Square(r), level) && v <= Times(Square(s), level)
    requires Times(Times(r, s), after) <= Times(s, e) + Times(r, v)
    ensures after <= level
  {
    ScaleUp(s, e, Times(Square(r), level));
    ScaleUp(r, v, Times(Square(s), level));
    Weights(r, s, level);
    PositiveProduct(r, s);
    CancelFactor(Times(r, s), after, level);
  }

  /** One free step, with all poles drawn in by r. */
  lemma FreeStep(p: real, q: real, r: real, y: real, z: real, level: real)
    requires Stable(p, q) && Energy(p, q, y, z) <= level
    ensures Energy(p, q, Times(r, Free(p, q, y, z)), Times(r, y)) <= Times(Square(r), level)
  {
    var next, w := Free(p, q, y, z), p * y + (1.0 + q) * z;
    assert Energy(p, q, next, y) <= level by {
      EnergyFalls(p, q, y, z);
      SquareIsNatural(w);
      ProductIsNatural(1.0 - q, Square(w));
      assert 0.0 <= Times(1.0 - q, Square(w));
    }
    EnergyScales(p, q, r, next, y);
    SquareIsNatural(r);
    ScaleUp(Square(r), Energy(p, q, next, y), level);
  }

  /** One call with input u: a level of energy that the input cannot lift is kept. */
  lemma CallKeepsEnergy(p: real, q: real, r: real, s: real, y: real, z: real, u: real, level: real)
    requires Stable(p, q) && 0.0 < r && 0.0 < s && r + s == 1.0
    requires Energy(p, q, y, z) <= level && Lift(q, u) <= Times(Square(s), level)
    ensures Energy(p, q, Times(r, Free(p, q, y, z)) + u, Times(r, y)) <= level
  {
    var x := Times(r, Free(p, q, y, z));
    FreeStep(p, q, r, y, z, level);
    EnergyIsConvex(p, q, r, s, x, Times(r, y), u);
    WeightedLevel(r, s, Energy(p, q, x, Times(r, y)), Lift(q, u), level, Energy(p, q, x + u, Times(r, y)));
  }

  predicate AllAtMost(xs: seq<real>, limit: real) {
    forall x <- xs :: AtMost(x, limit)
  }

  function Sum3(b0: real, x0: real, b1: real, x1: real, b2: real, x2: real): real {
    b0 * x0 + b1 * x1 + b2 * x2
  }

  lemma Sum3IsBounded(b0: real, x0: real, b1: real, x1: real, b2: real, x2: real,
                      k0: real, k1: real, k2: real, limit: real)
    requires AtMost(b0, k0) && AtMost(b1, k1) && AtMost(b2, k2)
    requires AtMost(x0, limit) && AtMost(x1, limit) && AtMost(x2, limit)
    ensures AtMost(Sum3(b0, x0, b1, x1, b2, x2), Sum3(k0, limit, k1, limit, k2, limit))
  {
    ProductBound(b0, x0, k0, limit);
    ProductBound(b1, x1, k1, limit);
    ProductBound(b2, x2, k2, limit);
  }

  /** The part of a call that comes from inputs, and the most it can be. */
  function Drive(c: Coefficients, m: Memory, x: real): real {
    Sum3(c.b0, x, c.b1, m.x1, c.b2, m.x2)
  }

  function MostDrive(c: Coefficients, inputs: real): real {
    Sum3(Abs(c.b0), inputs, Abs(c.b1), inputs, Abs(c.b2), inputs)
  }

  lemma SquareGrows(x: real, y: real)
    requires 0.0 <= x <= y
    ensures Square(x) <= Square(y) && (x < y ==> Square(x) < Square(y))
  {
    DifferenceOfSquares(y, x);
    if x < y { PositiveProduct(y - x, y + x); }
  }

  lemma SquareOfAbs(x: real)
    ensures Square(Abs(x)) == Square(x)
  {
  }

  lemma LiftIsBounded(q: real, u: real, most: real)
    requires -1.0 < q && AtMost(u, most)
    ensures Lift(q, u) <= Lift(q, most)
  {
    SquareOfAbs(u);
    SquareGrows(Abs(u), most);
    ScaleUp(1.0 + q, Square(u), Square(most));
  }

  /** Weights r and s, feedback coefficients drawn in by r, and a level of energy that inputs cannot lift. */
  ghost predicate Kept(c: Coefficients, p: real, q: real, r: real, s: real, inputs: real, level: real) {
    Stable(p, q) && 0.0 < r && 0.0 < s && r + s == 1.0 && c.a1 == Times(r, p) && c.a2 == Times(Square(r), q) &&
    Lift(q, MostDrive(c, inputs)) <= Times(Square(s), level)
  }

  lemma ResponseByParts(c: Coefficients, m: Memory, x: real, p: real, q: real, r: real)
    requires c.a1 == Times(r, p) && c.a2 == Times(Square(r), q)
    ensures Response(c, m, x) == Times(r, Free(p, q, m.y1, Times(r, m.y2))) + Drive(c, m, x)
  {
    FeedbackFactors(p, q, r, m.y1, m.y2);
  }

  lemma FeedbackFactors(p: real, q: real, r: real, y1: real, y2: real)
    ensures Times(r, Free(p, q, y1, Times(r, y2))) == -(Times(r, p) * y1) - Times(Square(r), q) * y2
  {
    assert r * (-p * y1) == -(r * p * y1);
    assert r * (q * (r * y2)) == r * r * q * y2;
  }

  lemma ResponseKeepsEnergy(c: Coefficients, m: Memory, x: real,
                            p: real, q: real, r: real, s: real, inputs: real, level: real)
    requires Kept(c, p, q, r, s, inputs, level)
    requires AtMost(x, inputs) && AtMost(m.x1, inputs) && AtMost(m.x2, inputs)
    requires Energy(p, q, m.y1, Times(r, m.y2)) <= level
    ensures Energy(p, q, Response(c, m, x), Times(r, m.y1)) <= level
  {
    var u := Drive(c, m, x);
    Sum3IsBounded(c.b0, x, c.b1, m.x1, c.b2, m.x2, Abs(c.b0), Abs(c.b1), Abs(c.b2), inputs);
    LiftIsBounded(q, u, MostDrive(c, inputs));
    CallKeepsEnergy(p, q, r, s, m.y1, Times(r, m.y2), u, level);
    ResponseByParts(c, m, x, p, q, r);
  }

  lemma LimitFromLeast(p: real, q: real, y: real, limit: real)
    requires Stable(p, q) && 0.0 <= limit && LeastEnergy(p, q, y) <= LeastEnergy(p, q, limit)
    ensures AtMost(y, limit)
  {
    SquareOfAbs(y);
    CancelFactor(1.0 + q - Abs(p), Square(y), Square(limit));
    if limit < Abs(y) { SquareGrows(limit, Abs(y)); }
  }

  /** The energy level bounds every output, of whatever inputs. */
  lemma {:induction false} OutputsKeepEnergy(c: Coefficients, m: Memory, xs: seq<real>,
                                             p: real, q: real, r: real, s: real, inputs: real, level: real, limit: real)
    requires Kept(c, p, q, r, s, inputs, level) && AllAtMost(xs, inputs)
    requires AtMost(m.x1, inputs) && AtMost(m.x2, inputs) && Energy(p, q, m.y1, Times(r, m.y2)) <= level
    requires 0.0 <= limit && level <= LeastEnergy(p, q, limit)
    ensures AllAtMost(Outputs(c, m, xs), limit)
    decreases xs
  {
    if xs != [] {
      var y := Response(c, m, xs[0]);
      ResponseKeepsEnergy(c, m, xs[0], p, q, r, s, inputs, level);
      EnergyBounds(p, q, y, Times(r, m.y1));
      LimitFromLeast(p, q, y, limit);
      OutputsKeepEnergy(c, Remember(c, m, xs[0]), xs[1..], p, q, r, s, inputs, level, limit);
    }
  }

  /** A little inside the unit circle there is still room for the poles. */
  lemma RadiusInside(a: real, a2: real) returns (r: real)
    requires 0.0 <= a && -1.0 < a2 < 1.0 && a < 1.0 + a2
    ensures 0.0 < r < 1.0 && Abs(a2) < Square(r) && Times(r, a) < Square(r) + a2
  {
    var room := 1.0 + a2 - a;
    var gap := if room < 1.0 - Abs(a2) then room else 1.0 - Abs(a2);
    var g := gap / 4.0;
    r := 1.0 - g;
    SquareOfOneLess(g);
    SquareIsNatural(g);
    ProductIsNatural(g, a);
    assert Times(r, a) == a - g * a;
  }

  lemma SquareOfOneLess(g: real)
    ensures Square(1.0 - g) == 1.0 - 2.0 * g + Square(g)
  {
  }

  lemma Quotient(n: real, d: real)
    requires d != 0.0
    ensures Times(d, n / d) == n
  {
  }

  lemma SizeOfProduct(r: real, p: real)
    requires 0.0 < r
    ensures Abs(Times(r, p)) == Times(r, Abs(p))
  {
    if p < 0.0 { PositiveProduct(r, -p); } else { ProductIsNatural(r, p); }
  }

  lemma ScaledIsStable(a1: real, a2: real, r: real) returns (p: real, q: real)
    requires 0.0 < r && Abs(a2) < Square(r) && Times(r, Abs(a1)) < Square(r) + a2
    ensures a1 == Times(r, p) && a2 == Times(Square(r), q) && Stable(p, q)
  {
    PositiveProduct(r, r);
    p, q := a1 / r, a2 / Square(r);
    Quotient(a2, Square(r));
    Quotient(a1, r);
    SizeOfProduct(r, p);
    SizeOfProduct(Square(r), q);
    TwoFactors(r, Abs(p));
    OneMore(Square(r), q);
    CancelFactor(Square(r), 1.0, Abs(q));
    CancelFactor(Square(r), 1.0 + q, Abs(p));
  }

  lemma TwoFactors(r: real, x: real)
    ensures Times(Square(r), x) == Times(r, Times(r, x))
  {
  }

  lemma OneMore(k: real, x: real)
    ensures Times(k, 1.0 + x) == k + Times(k, x) && Times(k, 1.0) == k
  {
  }

  lemma LevelToLimit(p: real, q: real, level: real) returns (limit: real)
    requires Stable(p, q) && 0.0 <= level
    ensures 0.0 <= limit && level <= LeastEnergy(p, q, limit)
  {
    var k := 1.0 + q - Abs(p);
    var n := level / k;
    Quotient(level, k);
    QuotientIsNatural(level, k);
    limit := 1.0 + n;
    assert Square(limit) == 1.0 + 2.0 * n + Square(n);
    SquareIsNatural(n);
    ScaleUp(k, n, Square(limit));
  }

  lemma LevelExists(s: real, lift: real) returns (level: real)
    requires 0.0 < s && 0.0 <= lift
    ensures 0.0 <= level && lift <= Times(Square(s), level)
  {
    PositiveProduct(s, s);
    level := lift / Square(s);
    Quotient(lift, Square(s));
    QuotientIsNatural(lift, Square(s));
  }

  lemma LiftIsNatural(q: real, u: real)
    requires -1.0 < q
    ensures 0.0 <= Lift(q, u)
  {
    SquareIsNatural(u);
    ProductIsNatural(1.0 + q, Square(u));
  }

  lemma SilenceHasNoEnergy(p: real, q: real, r: real)
    ensures Energy(p, q, 0.0, Times(r, 0.0)) == 0.0
  {
  }

  /** For every stable filter and every size of inputs there is one bound on the outputs of all sequences. */
  lemma StableOutputsAreBounded(c: Coefficients, inputs: real) returns (limit: real)
    requires -1.0 < c.a2 < 1.0 && -1.0 - c.a2 < c.a1 < 1.0 + c.a2 && 0.0 <= inputs
    ensures forall xs | AllAtMost(xs, inputs) :: AllAtMost(Outputs(c, SILENCE, xs), limit)
  {
    var r := RadiusInside(Abs(c.a1), c.a2);
    var p, q := ScaledIsStable(c.a1, c.a2, r);
    LiftIsNatural(q, MostDrive(c, inputs));
    var level := LevelExists(1.0 - r, Lift(q, MostDrive(c, inputs)));
    limit := LevelToLimit(p, q, level);
    SilenceHasNoEnergy(p, q, r);
    forall xs | AllAtMost(xs, inputs) ensures AllAtMost(Outputs(c, SILENCE, xs), limit) {
      OutputsKeepEnergy(c, SILENCE, xs, p, q, r, 1.0 - r, inputs, level, limit);
    }
  }
}
