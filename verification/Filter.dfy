/** The second-order low-pass of the derivative term, and the spike filter in front of it. */
module Filter {

  datatype Coefficients = Coefficients(b0: real, b1: real, b2: real, a1: real, a2: real)

  /** The two previous inputs and outputs, the latest first. */
  datatype Memory = Memory(x1: real, x2: real, y1: real, y2: real)

  const SILENCE := Memory(0.0, 0.0, 0.0, 0.0)

  function Combine(b0: real, x: real, b1: real, x1: real, b2: real, x2: real,
                   a1: real, y1: real, a2: real, y2: real): real {
    b0 * x + b1 * x1 + b2 * x2 - a1 * y1 - a2 * y2
  }

  /** The difference equation. */
  function Response(c: Coefficients, m: Memory, x: real): real {
    Combine(c.b0, x, c.b1, m.x1, c.b2, m.x2, c.a1, m.y1, c.a2, m.y2)
  }

  function Remember(c: Coefficients, m: Memory, x: real): Memory {
    Memory(x, m.x1, Response(c, m, x), m.y1)
  }

  /** The outputs for a whole input sequence. */
  function Outputs(c: Coefficients, m: Memory, xs: seq<real>): (ys: seq<real>)
    ensures |ys| == |xs|
    decreases xs
  {
    if xs == [] then [] else [Response(c, m, xs[0])] + Outputs(c, Remember(c, m, xs[0]), xs[1..])
  }

  function MemoryAfter(c: Coefficients, m: Memory, xs: seq<real>): Memory
    decreases xs
  {
    if xs == [] then m else MemoryAfter(c, Remember(c, m, xs[0]), xs[1..])
  }

  lemma {:induction false} OutputsOfOneMore(c: Coefficients, m: Memory, xs: seq<real>, x: real)
    ensures Outputs(c, m, xs + [x]) == Outputs(c, m, xs) + [Response(c, MemoryAfter(c, m, xs), x)]
    ensures MemoryAfter(c, m, xs + [x]) == Remember(c, MemoryAfter(c, m, xs), x)
    decreases xs
  {
    if xs == [] {
      assert [] + [x] == [x] && [x][1..] == [];
    } else {
      assert (xs + [x])[1..] == xs[1..] + [x];
      OutputsOfOneMore(c, Remember(c, m, xs[0]), xs[1..], x);
    }
  }

  /** Entry k of a sequence and what was remembered before it began. */
  function Entry(s: seq<real>, k: int, before1: real, before2: real): real
    requires -2 <= k < |s|
  {
    if k == -1 then before1 else if k == -2 then before2 else s[k]
  }

  lemma {:induction false} OutputFromMemory(c: Coefficients, m: Memory, xs: seq<real>, n: nat)
    requires n < |xs|
    ensures var ys := Outputs(c, m, xs);
      ys[n] == Combine(c.b0, xs[n], c.b1, Entry(xs, n - 1, m.x1, m.x2), c.b2, Entry(xs, n - 2, m.x1, m.x2),
                       c.a1, Entry(ys, n - 1, m.y1, m.y2), c.a2, Entry(ys, n - 2, m.y1, m.y2))
    decreases n
  {
    if n != 0 {
      OutputFromMemory(c, Remember(c, m, xs[0]), xs[1..], n - 1);
    }
  }

  /** Output n from inputs n, n-1 and n-2 and the two outputs before it. */
  lemma DifferenceEquation(c: Coefficients, m: Memory, xs: seq<real>, n: nat)
    requires 2 <= n < |xs|
    ensures var ys := Outputs(c, m, xs);
      ys[n] == c.b0 * xs[n] + c.b1 * xs[n - 1] + c.b2 * xs[n - 2] - c.a1 * ys[n - 1] - c.a2 * ys[n - 2]
  {
    OutputFromMemory(c, m, xs, n);
  }

  /** `Butter_BufferData`: three inputs and three outputs, the newest last. */
  class Buffer {
    const input: array<real>
    const output: array<real>

    predicate Valid()
      reads this, input, output
    {
      input.Length == 3 && output.Length == 3 && input != output &&
      input[1] == input[2] && output[1] == output[2]
    }

    function Contents(): Memory
      reads this, input, output
      requires Valid()
    {
      Memory(input[1], input[0], output[1], output[0])
    }

    constructor ()
      ensures Valid() && Contents() == SILENCE && fresh(input) && fresh(output)
    {
      input := new real[3](_ => 0.0);
      output := new real[3](_ => 0.0);
    }

    method LowPass(x: real, c: Coefficients) returns (y: real)
      requires Valid()
      modifies input, output
      ensures Valid()
      ensures y == Response(c, old(Contents()), x)
      ensures y ==
        c.b0 * x + c.b1 * old(input[1]) + c.b2 * old(input[0]) - c.a1 * old(output[1]) - c.a2 * old(output[0])
      ensures Contents() == Remember(c, old(Contents()), x)
    {
      input[2] := x;
      output[2] := c.b0 * input[2] + c.b1 * input[1] + c.b2 * input[0] - c.a1 * output[1] - c.a2 * output[0];
      input[0] := input[1];
      input[1] := input[2];
      output[0] := output[1];
      output[1] := output[2];
      y := output[2];
    }
  }

  function Mix(p: real, x: real, q: real, u: real): real {
    p * x + q * u
  }

  function MixMemory(p: real, m: Memory, q: real, n: Memory): Memory {
    Memory(Mix(p, m.x1, q, n.x1), Mix(p, m.x2, q, n.x2), Mix(p, m.y1, q, n.y1), Mix(p, m.y2, q, n.y2))
  }

  function MixAll(p: real, xs: seq<real>, q: real, us: seq<real>): (r: seq<real>)
    requires |xs| == |us|
    ensures |r| == |xs|
  {
    seq(|xs|, i requires 0 <= i < |xs| => Mix(p, xs[i], q, us[i]))
  }

  lemma ScaleMix(k: real, p: real, x: real, q: real, u: real)
    ensures k * Mix(p, x, q, u) == Mix(p, k * x, q, k * u)
  {
    assert k * (p * x) == p * (k * x);
    assert k * (q * u) == q * (k * u);
    assert k * (p * x + q * u) == k * (p * x) + k * (q * u);
  }

  lemma MixOfSum(p: real, q: real, x0: real, x1: real, x2: real, y1: real, y2: real,
                 u0: real, u1: real, u2: real, v1: real, v2: real)
    ensures Mix(p, x0, q, u0) + Mix(p, x1, q, u1) + Mix(p, x2, q, u2) - Mix(p, y1, q, v1) - Mix(p, y2, q, v2)
      == Mix(p, x0 + x1 + x2 - y1 - y2, q, u0 + u1 + u2 - v1 - v2)
  {
    assert p * (x0 + x1 + x2 - y1 - y2) == p * x0 + p * x1 + p * x2 - p * y1 - p * y2;
    assert q * (u0 + u1 + u2 - v1 - v2) == q * u0 + q * u1 + q * u2 - q * v1 - q * v2;
  }

  lemma ResponseIsLinear(c: Coefficients, p: real, m: Memory, x: real, q: real, n: Memory, u: real)
    ensures Response(c, MixMemory(p, m, q, n), Mix(p, x, q, u)) == Mix(p, Response(c, m, x), q, Response(c, n, u))
  {
    ScaleMix(c.b0, p, x, q, u);
    ScaleMix(c.b1, p, m.x1, q, n.x1);
    ScaleMix(c.b2, p, m.x2, q, n.x2);
    ScaleMix(c.a1, p, m.y1, q, n.y1);
    ScaleMix(c.a2, p, m.y2, q, n.y2);
    assert Response(c, MixMemory(p, m, q, n), Mix(p, x, q, u)) ==
      Mix(p, c.b0 * x, q, c.b0 * u) + Mix(p, c.b1 * m.x1, q, c.b1 * n.x1) + Mix(p, c.b2 * m.x2, q, c.b2 * n.x2) -
      Mix(p, c.a1 * m.y1, q, c.a1 * n.y1) - Mix(p, c.a2 * m.y2, q, c.a2 * n.y2);
    MixOfSum(p, q, c.b0 * x, c.b1 * m.x1, c.b2 * m.x2, c.a1 * m.y1, c.a2 * m.y2,
             c.b0 * u, c.b1 * n.x1, c.b2 * n.x2, c.a1 * n.y1, c.a2 * n.y2);
  }

  /** Superposition over whole sequences: mixing inputs mixes outputs. */
  lemma {:induction false} Superposition(c: Coefficients, p: real, m: Memory, xs: seq<real>,
                                         q: real, n: Memory, us: seq<real>)
    requires |xs| == |us|
    ensures Outputs(c, MixMemory(p, m, q, n), MixAll(p, xs, q, us)) ==
      MixAll(p, Outputs(c, m, xs), q, Outputs(c, n, us))
    decreases xs
  {
    if xs == [] {
    } else {
      var mixed := MixAll(p, xs, q, us);
      ResponseIsLinear(c, p, m, xs[0], q, n, us[0]);
      Superposition(c, p, Remember(c, m, xs[0]), xs[1..], q, Remember(c, n, us[0]), us[1..]);
      assert mixed[1..] == MixAll(p, xs[1..], q, us[1..]);
      assert Remember(c, MixMemory(p, m, q, n), mixed[0]) ==
        MixMemory(p, Remember(c, m, xs[0]), q, Remember(c, n, us[0]));
    }
  }

  /** From zeroed buffers, as the controller starts, superposition needs no mixing of memories. */
  lemma SuperpositionFromSilence(c: Coefficients, p: real, xs: seq<real>, q: real, us: seq<real>)
    requires |xs| == |us|
    ensures Outputs(c, SILENCE, MixAll(p, xs, q, us)) == MixAll(p, Outputs(c, SILENCE, xs), q, Outputs(c, SILENCE, us))
  {
    Superposition(c, p, SILENCE, xs, q, SILENCE, us);
  }

  predicate AtMost(r: real, limit: real) {
    -limit <= r <= limit
  }

  lemma ProductIsNatural(x: real, y: real)
    requires 0.0 <= x && 0.0 <= y
    ensures 0.0 <= x * y
  {
  }

  lemma ProductBound(k: real, x: real, bound: real, limit: real)
    requires AtMost(k, bound) && AtMost(x, limit)
    ensures AtMost(k * x, bound * limit)
  {
    ProductIsNatural(bound - k, limit + x);
    ProductIsNatural(bound + k, limit - x);
    ProductIsNatural(bound - k, limit - x);
    ProductIsNatural(bound + k, limit + x);
    assert (bound - k) * (limit + x) == bound * limit + bound * x - k * limit - k * x;
    assert (bound + k) * (limit - x) == bound * limit - bound * x + k * limit - k * x;
    assert (bound - k) * (limit - x) == bound * limit - bound * x - k * limit + k * x;
    assert (bound + k) * (limit + x) == bound * limit + bound * x + k * limit + k * x;
  }

  predicate Within(m: Memory, inputs: real, outputs: real) {
    AtMost(m.x1, inputs) && AtMost(m.x2, inputs) && AtMost(m.y1, outputs) && AtMost(m.y2, outputs)
  }

  /** k bounds the size of every coefficient of c. */
  predicate Covers(k: Coefficients, c: Coefficients) {
    AtMost(c.b0, k.b0) && AtMost(c.b1, k.b1) && AtMost(c.b2, k.b2) && AtMost(c.a1, k.a1) && AtMost(c.a2, k.a2)
  }

  /** A level that inputs up to `inputs` cannot push the output beyond. */
  predicate Contains(k: Coefficients, inputs: real, limit: real) {
    Combine(k.b0, inputs, k.b1, inputs, k.b2, inputs, -k.a1, limit, -k.a2, limit) <= limit
  }

  lemma ResponseIsBounded(c: Coefficients, k: Coefficients, m: Memory, x: real, inputs: real, limit: real)
    requires Covers(k, c) && Contains(k, inputs, limit) && AtMost(x, inputs) && Within(m, inputs, limit)
    ensures AtMost(Response(c, m, x), limit)
  {
    FiveTermsBounded(c.b0, x, c.b1, m.x1, c.b2, m.x2, c.a1, m.y1, c.a2, m.y2,
      k.b0, k.b1, k.b2, k.a1, k.a2, inputs, limit);
  }

  lemma FiveTermsBounded(b0: real, x: real, b1: real, x1: real, b2: real, x2: real,
                         a1: real, y1: real, a2: real, y2: real,
                         k0: real, k1: real, k2: real, k3: real, k4: real, inputs: real, limit: real)
    requires AtMost(b0, k0) && AtMost(b1, k1) && AtMost(b2, k2) && AtMost(a1, k3) && AtMost(a2, k4)
    requires AtMost(x, inputs) && AtMost(x1, inputs) && AtMost(x2, inputs) && AtMost(y1, limit) && AtMost(y2, limit)
    requires Combine(k0, inputs, k1, inputs, k2, inputs, -k3, limit, -k4, limit) <= limit
    ensures AtMost(Combine(b0, x, b1, x1, b2, x2, a1, y1, a2, y2), limit)
  {
    ProductBound(b0, x, k0, inputs);
    ProductBound(b1, x1, k1, inputs);
    ProductBound(b2, x2, k2, inputs);
    ProductBound(a1, y1, k3, limit);
    ProductBound(a2, y2, k4, limit);
  }

  /** Bounded inputs give bounded outputs for ever. */
  lemma {:induction false} OutputsAreBounded(c: Coefficients, k: Coefficients, m: Memory, xs: seq<real>,
                                             inputs: real, limit: real)
    requires Covers(k, c) && Contains(k, inputs, limit) && Within(m, inputs, limit)
    requires forall x <- xs :: AtMost(x, inputs)
    ensures forall y <- Outputs(c, m, xs) :: AtMost(y, limit)
    decreases xs
  {
    if xs != [] {
      ResponseIsBounded(c, k, m, xs[0], inputs, limit);
      OutputsAreBounded(c, k, Remember(c, m, xs[0]), xs[1..], inputs, limit);
    }
  }

  function Abs(r: real): (a: real)
    ensures a >= 0.0 && AtMost(r, a) && (a == r || a == -r)
  {
    if r < 0.0 then -r else r
  }

  function Sizes(c: Coefficients): (k: Coefficients)
    ensures Covers(k, c) && 0.0 <= k.b0 && 0.0 <= k.b1 && 0.0 <= k.b2
  {
    Coefficients(Abs(c.b0), Abs(c.b1), Abs(c.b2), Abs(c.a1), Abs(c.a2))
  }

  lemma FixedPoint(b0: real, b1: real, b2: real, a1: real, a2: real, inputs: real, limit: real)
    requires limit * (1.0 - a1 - a2) == (b0 + b1 + b2) * inputs
    ensures Combine(b0, inputs, b1, inputs, b2, inputs, -a1, limit, -a2, limit) == limit
  {
    assert limit * (1.0 - a1 - a2) == limit - a1 * limit - a2 * limit;
    assert (b0 + b1 + b2) * inputs == b0 * inputs + b1 * inputs + b2 * inputs;
    assert (-a1) * limit == -(a1 * limit) && (-a2) * limit == -(a2 * limit);
  }

  lemma QuotientIsNatural(n: real, d: real)
    requires 0.0 <= n && 0.0 < d
    ensures 0.0 <= n / d && (n / d) * d == n
  {
  }

  lemma FactorIsNatural(q: real, d: real)
    requires 0.0 <= q * d && 0.0 < d
    ensures 0.0 <= q
  {
  }

  /** From zeroed buffers every output stays within the quotient of (|b0|+|b1|+|b2|) * inputs and 1-|a1|-|a2|. */
  lemma OutputsFromSilenceAreBounded(c: Coefficients, xs: seq<real>, inputs: real, limit: real)
    requires Abs(c.a1) + Abs(c.a2) < 1.0 && 0.0 <= inputs
    requires limit * (1.0 - Abs(c.a1) - Abs(c.a2)) == (Abs(c.b0) + Abs(c.b1) + Abs(c.b2)) * inputs
    requires forall x <- xs :: -inputs <= x <= inputs
    ensures forall y <- Outputs(c, SILENCE, xs) :: -limit <= y <= limit
  {
    ProductIsNatural(Abs(c.b0) + Abs(c.b1) + Abs(c.b2), inputs);
    FactorIsNatural(limit, 1.0 - Abs(c.a1) - Abs(c.a2));
    FixedPoint(Abs(c.b0), Abs(c.b1), Abs(c.b2), Abs(c.a1), Abs(c.a2), inputs, limit);
    OutputsAreBounded(c, Sizes(c), SILENCE, xs, inputs, limit);
  }

  function Max3(a: real, b: real, c: real): real {
    var m := if a > b then a else b;
    if m > c then m else c
  }

  function Min3(a: real, b: real, c: real): real {
    var m := if a < b then a else b;
    if m < c then m else c
  }

  /** The spike filter: the strictly middle one of three, and the newest when there is none. */
  function Despike(a: real, b: real, c: real): real {
    var max, min := Max3(a, b, c), Min3(a, b, c);
    var d0 := if a > min && a < max then a else c;
    var d1 := if b > min && b < max then b else d0;
    if c > min && c < max then c else d1
  }

  function Median(a: real, b: real, c: real): real {
    a + b + c - Max3(a, b, c) - Min3(a, b, c)
  }

  /** In whatever order the three come. */
  lemma MedianIsMiddle(low: real, middle: real, high: real)
    requires low <= middle <= high
    ensures Median(low, middle, high) == Median(low, high, middle) == Median(middle, low, high) == middle
    ensures Median(middle, high, low) == Median(high, low, middle) == Median(high, middle, low) == middle
  {
  }

  /**
   The filter is a running median exactly when the two older values differ or the newest
   equals them: behind two equal values any jump passes.
   */
  lemma DespikeIsMedianIff(a: real, b: real, c: real)
    ensures Despike(a, b, c) == Median(a, b, c) <==> a != b || c == a
    ensures a == b ==> Despike(a, b, c) == c
  {
  }
}
