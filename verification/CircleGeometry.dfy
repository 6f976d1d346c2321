/**
 What a circle on the pixel grid is, independently of the midpoint error term:
 in the octant 0 <= a <= b the pixel of column a sits in the row nearest to the
 true circle, and the other seven octants mirror it.
 */
module CircleGeometry {
  import opened Geometry

  /** b is the whole number nearest to the square root of r*r - a*a, inside the octant. */
  ghost predicate OnArc(r: nat, a: int, b: int) {
    0 <= a <= b &&
    ((r == 0 && b == 0) ||
     (2 * b - 1) * (2 * b - 1) < 4 * (r * r - a * a) < (2 * b + 1) * (2 * b + 1))
  }

  /** How far a pixel is outside (positive) or inside (negative) the true circle. */
  function Excess(r: int, a: int, b: int): int {
    a * a + b * b - r * r
  }

  /** The midpoint error term the drawing loop keeps. */
  function Midpoint(r: int, a: int, b: int): int {
    (a + 1) * (a + 1) + b * b - b - r * r
  }

  lemma ArcByExcess(r: nat, a: nat, b: nat)
    requires 0 < r && a <= b
    ensures OnArc(r, a, b) <==> 0 < b && 0 <= Excess(r, a, b) + b < 2 * b
  {
    assert (2 * b - 1) * (2 * b - 1) == 4 * (b * b) - 4 * b + 1;
    assert (2 * b + 1) * (2 * b + 1) == 4 * (b * b) + 4 * b + 1;
    if b == 0 {
      assert a == 0;
      assert 0 < r * r;
    }
  }

  /** Moving outwards from a pixel that is not inside by more than its row. */
  lemma ExcessGrows(r: nat, a: nat, b: nat, c: nat)
    requires b < c
    ensures Excess(r, a, b) + b + c <= Excess(r, a, c)
    ensures Excess(r, a, b) + 2 * c - 1 <= Excess(r, a, c)
  {
    SquareOrder(b, c);
  }

  /** A column of the octant holds one pixel. */
  lemma ArcIsFunction(r: nat, a: nat, b: nat, c: nat)
    requires OnArc(r, a, b) && OnArc(r, a, c)
    ensures b == c
  {
    if r == 0 {
      RadiusZero(a, b);
      RadiusZero(a, c);
    } else {
      ArcByExcess(r, a, b);
      ArcByExcess(r, a, c);
      ExcessTells(r, a, b, c);
    }
  }

  lemma ExcessTells(r: nat, a: nat, b: nat, c: nat)
    requires 0 <= Excess(r, a, b) + b < 2 * b
    requires 0 <= Excess(r, a, c) + c < 2 * c
    ensures b == c
  {
    if b < c {
      ExcessGrows(r, a, b, c);
    } else if c < b {
      ExcessGrows(r, a, c, b);
    }
  }

  lemma RadiusZero(a: nat, b: nat)
    ensures OnArc(0, a, b) <==> a == 0 && b == 0
  {
    assert 0 <= a * a;
    assert 0 <= (2 * b - 1) * (2 * b - 1);
  }

  lemma TopOfArc(r: nat)
    ensures OnArc(r, 0, r)
  {
    if 0 < r { ArcByExcess(r, 0, r); }
  }

  /**
   State of the octant walk at a loop head: the current pair is the pixel of its
   column, or, once the walk has crossed the diagonal, the mirror image of the
   pixel drawn just before.
   */
  ghost predicate Walking(r: nat, a: int, b: int) {
    OnArc(r, a, b) || (a == b + 1 && OnArc(r, b, a) && 0 <= Midpoint(r, b, a))
  }

  /** One turn of the loop: the sign of the midpoint term picks the right row. */
  lemma MidpointStep(r: nat, a: nat, b: nat)
    requires OnArc(r, a, b) && a < b
    ensures Walking(r, a + 1, if Midpoint(r, a, b) >= 0 then b - 1 else b)
  {
    if r == 0 {
      RadiusZero(a, b);
      assert false;
    }
    ArcByExcess(r, a, b);
    var b' := if Midpoint(r, a, b) >= 0 then b - 1 else b;
    assert (a + 1) * (a + 1) == a * a + 2 * a + 1;
    assert (b - 1) * (b - 1) == b * b - 2 * b + 1;
    if a + 1 <= b' {
      ArcByExcess(r, a + 1, b');
    }
  }

  /** The pixel at distances u and v from the centre's column and row is on the outline. */
  ghost predicate OnOutline(r: nat, u: nat, v: nat) {
    OnArc(r, Min(u, v), Max(u, v))
  }

  ghost predicate RowTouched(r: nat, v: nat) {
    exists u: nat :: OnOutline(r, u, v)
  }

  /** Rows from b up to r, and rows up to a, already hold an outline pixel. */
  ghost predicate RowsCovered(r: nat, a: int, b: int) {
    forall v: nat :: (v <= a || b <= v) && v <= r ==> RowTouched(r, v)
  }

  lemma CoverRow(r: nat, a: nat, b: nat, a': nat, b': nat)
    requires RowsCovered(r, a, b) && Walking(r, a', b')
    requires a' == a + 1 && b - 1 <= b' <= b
    ensures RowsCovered(r, a', b')
  {
    forall v: nat | (v <= a' || b' <= v) && v <= r
      ensures RowTouched(r, v)
    {
      if v == a' {
        assert OnOutline(r, b', v);
      } else if v == b' {
        assert OnOutline(r, a', v);
      }
    }
  }

  /**
   What a loop head knows: the pixel pair, the closed forms of the running variables, and
   that no row has been skipped on the way.
   */
  ghost predicate WalkState(r: nat, a: int, b: int, f: int, ddFx: int, ddFy: int) {
    0 <= a && 0 <= b && Walking(r, a, b) && RowsCovered(r, a, b) &&
    f == Midpoint(r, a, b) && ddFx == 2 * a + 1 && ddFy == -2 * b
  }

  lemma WalkStart(r: nat)
    ensures WalkState(r, 0, r, 1 - r, 1, -2 * r)
  {
    TopOfArc(r);
    assert OnOutline(r, r, 0) && OnOutline(r, 0, r);
    assert RowTouched(r, 0) && RowTouched(r, r);
  }

  /** One turn of the loop as the code takes it: additions alone keep the closed forms. */
  lemma WalkTurn(r: nat, a: int, b: int, f: int, ddFx: int, ddFy: int)
    requires WalkState(r, a, b, f, ddFx, ddFy) && a < b
    ensures if f >= 0 then WalkState(r, a + 1, b - 1, f + (ddFy + 2) + (ddFx + 2), ddFx + 2, ddFy + 2)
            else WalkState(r, a + 1, b, f + (ddFx + 2), ddFx + 2, ddFy)
  {
    MidpointStep(r, a, b);
    CoverRow(r, a, b, a + 1, if f >= 0 then b - 1 else b);
    assert (a + 2) * (a + 2) == (a + 1) * (a + 1) + 2 * (a + 1) + 1;
    assert (b - 1) * (b - 1) == b * b - 2 * b + 1;
  }

  /** Past the diagonal there are no octant pixels left. */
  lemma ArcEnds(r: nat, a: nat, b: nat, a': nat, b': nat)
    requires Walking(r, a, b) && b <= a
    requires a < a' || (a == a' && b < a)
    ensures !OnArc(r, a', b')
  {
    if OnArc(r, a', b') {
      if r == 0 {
        RadiusZero(a', b');
        RadiusZero(a, b);
        RadiusZero(b, a);
      } else {
        ArcByExcess(r, a', b');
        if OnArc(r, a, b) {
          ArcByExcess(r, a, b);
          PastDiagonal(r, a, a', b');
        } else {
          PastMirror(r, a, a', b');
        }
      }
    }
  }

  lemma PastDiagonal(r: nat, a: nat, a': nat, b': nat)
    requires 0 <= Excess(r, a, a) + a
    requires a < a' <= b'
    ensures b' <= Excess(r, a', b')
  {
    SquareOrder(a, a');
    SquareOrder(a, b');
  }

  lemma PastMirror(r: nat, a: nat, a': nat, b': nat)
    requires 0 < a <= a' <= b'
    requires 0 <= Midpoint(r, a - 1, a)
    ensures b' <= Excess(r, a', b')
  {
    if a < a' { SquareOrder(a, a'); }
    if a < b' { SquareOrder(a, b'); }
  }

  /** The pixels of a circle, outlined or filled. */
  ghost predicate InCircle(r: int, filled: bool, u: nat, v: nat) {
    if r < 0 then
      (u == 0 && (v == -r || (filled && v <= -r))) || (v == 0 && (u == -r || (filled && u <= -r)))
    else if filled then
      exists a: nat :: u <= a && OnOutline(r, a, v)
    else
      OnOutline(r, u, v)
  }

  /** What one turn of the loop draws for the octant pair (a, b). */
  predicate InEight(filled: bool, a: int, b: int, u: nat, v: nat) {
    if filled then (v == b && u <= a) || (v == a && u <= b)
    else (u == a && v == b) || (u == b && v == a)
  }

  /** What is drawn once all octant columns up to n are done. */
  ghost predicate DrawnUpTo(r: nat, filled: bool, n: int, u: nat, v: nat) {
    (filled && u == 0 && v <= r) ||
    exists a, b :: a <= n && OnArc(r, a, b) && InEight(filled, a, b, u, v)
  }

  /** When the walk is over, exactly the circle has been drawn. */
  lemma WalkDrawsCircle(r: nat, filled: bool, a: nat, b: nat, u: nat, v: nat)
    requires Walking(r, a, b) && RowsCovered(r, a, b) && b <= a
    ensures DrawnUpTo(r, filled, a, u, v) <==> InCircle(r, filled, u, v)
  {
    if DrawnUpTo(r, filled, a, u, v) {
      if filled && u == 0 && v <= r {
        assert RowTouched(r, v);
        var u0: nat :| OnOutline(r, u0, v);
      } else {
        var c, d :| c <= a && OnArc(r, c, d) && InEight(filled, c, d, u, v);
        assert OnOutline(r, c, d) && OnOutline(r, d, c);
      }
    }
    if InCircle(r, filled, u, v) {
      var c: nat :| (if filled then u <= c else c == u) && OnOutline(r, c, v);
      var m, n := Min(c, v), Max(c, v);
      if a < m { ArcEnds(r, a, b, m, n); }
      assert InEight(filled, m, n, u, v);
    }
  }

  /** Before the first turn only the axes are drawn. */
  lemma StartDrawn(r: nat, filled: bool, u: nat, v: nat)
    ensures DrawnUpTo(r, filled, 0, u, v) <==>
      (u == 0 && (v == r || (filled && v <= r))) || (v == 0 && (u == r || (filled && u <= r)))
  {
    TopOfArc(r);
    if DrawnUpTo(r, filled, 0, u, v) && !(filled && u == 0 && v <= r) {
      var a, b :| a <= 0 && OnArc(r, a, b) && InEight(filled, a, b, u, v);
      ArcIsFunction(r, 0, b, r);
    }
    if InEight(filled, 0, r, u, v) {
      assert OnArc(r, 0, r);
    }
  }

  /** One turn of the loop adds column a + 1. */
  lemma DrawnGrows(r: nat, filled: bool, a: nat, b: nat, u: nat, v: nat)
    requires 0 < a && Walking(r, a, b)
    ensures DrawnUpTo(r, filled, a, u, v) <==>
      DrawnUpTo(r, filled, a - 1, u, v) || InEight(filled, a, b, u, v)
  {
    if DrawnUpTo(r, filled, a, u, v) && !DrawnUpTo(r, filled, a - 1, u, v) {
      var c, d :| c <= a && OnArc(r, c, d) && InEight(filled, c, d, u, v);
      assert c == a;
      if OnArc(r, a, b) {
        ArcIsFunction(r, a, b, d);
      } else {
        ArcEnds(r, a, b, a, d);
      }
    }
    if InEight(filled, a, b, u, v) && !OnArc(r, a, b) {
      assert OnArc(r, b, a) && InEight(filled, b, a, u, v);
    }
  }

  /** Every drawn octant pixel is within half a pixel of the circle along its column. */
  lemma ArcIsNearest(r: nat, a: nat, b: nat, c: nat)
    requires OnArc(r, a, b) && 0 < r && c != b
    ensures Abs(Excess(r, a, b)) <= b
    ensures Abs(Excess(r, a, b)) < Abs(Excess(r, a, c))
  {
    ArcByExcess(r, a, b);
    NearestByExcess(r, a, b, c);
  }

  lemma NearestByExcess(r: nat, a: nat, b: nat, c: nat)
    requires 0 <= Excess(r, a, b) + b < 2 * b && c != b
    ensures Abs(Excess(r, a, b)) < Abs(Excess(r, a, c))
  {
    if c < b {
      ExcessGrows(r, a, c, b);
    } else {
      ExcessGrows(r, a, b, c);
    }
  }

  /** The outline in numbers: within the octants, the pixels off the circle by less than their larger distance. */
  lemma OutlineInNumbers(r: nat, u: nat, v: nat)
    requires 0 < r
    ensures InCircle(r, false, u, v) <==>
      var m := if u < v then v else u; 0 < m && -m <= u * u + v * v - r * r < m
  {
    ArcByExcess(r, Min(u, v), Max(u, v));
  }

  /** A filled circle is every row's outline and what lies between. */
  lemma FilledInNumbers(r: nat, u: nat, v: nat)
    ensures InCircle(r, true, u, v) <==> exists w: nat :: u <= w && InCircle(r, false, w, v)
  {
    if InCircle(r, true, u, v) {
      var a: nat :| u <= a && OnOutline(r, a, v);
      assert InCircle(r, false, a, v);
    }
    if exists w: nat :: u <= w && InCircle(r, false, w, v) {
      var w: nat :| u <= w && InCircle(r, false, w, v);
      assert OnOutline(r, w, v);
    }
  }

  /** Radius zero is a point; a negative one gives four points, or a cross when filled. */
  lemma OddRadiiInNumbers(n: nat, filled: bool, u: nat, v: nat)
    ensures InCircle(0, false, u, v) <==> u == 0 && v == 0
    ensures 0 < n ==> (InCircle(0 - n, filled, u, v) <==>
      (u == 0 && (v == n || (filled && v <= n))) || (v == 0 && (u == n || (filled && u <= n))))
  {
    RadiusZero(Min(u, v), Max(u, v));
  }
}
