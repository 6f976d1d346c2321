/**
 Which pixels make up an axis-parallel ellipse, independently of the incremental error
 term: those closest to the curve in their row that are themselves on the steep side of the
 curve, and those closest in their column that are on the flat side. Between the last steep and
 the last flat pixel rows or columns can be left empty; OutlineIsUnbrokenIff says when.
 */
module EllipseGeometry {
  import opened Geometry
  import Circle = CircleGeometry

  /** Zero on the ellipse with squared radii aa and bb, negative inside, positive outside. */
  function Residue(aa: int, bb: int, x: int, y: int): int {
    bb * (x * x) + aa * (y * y) - aa * bb
  }

  /** Twice the residue half-way between columns x - 1 and x, up to a constant. */
  function PairSum(aa: int, bb: int, x: int, y: int): int {
    Residue(aa, bb, x, y) + Residue(aa, bb, x - 1, y)
  }

  /** No column of row y has a smaller residue than x, and none to the right an equal one. */
  ghost predicate ClosestInRow(aa: int, bb: int, x: nat, y: int) {
    forall x': nat | x' != x ::
      Abs(Residue(aa, bb, x, y)) <= Abs(Residue(aa, bb, x', y)) &&
      (x < x' ==> Abs(Residue(aa, bb, x, y)) < Abs(Residue(aa, bb, x', y)))
  }

  /** The outline is at least as steep as the diagonal at (x, y). */
  predicate Steep(aa: int, bb: int, x: int, y: int) {
    aa * y <= bb * x
  }

  /** The same choice, seen from the two neighbouring columns only. */
  predicate RowPick(aa: int, bb: int, x: int, y: int) {
    1 <= x && PairSum(aa, bb, x, y) <= 0 < PairSum(aa, bb, x + 1, y)
  }

  lemma ScaleOrder(d: int, m: int, n: int)
    requires 0 < d && m <= n
    ensures d * m <= d * n
    ensures m < n ==> d * m < d * n
  {
    var k := n - m;
    assert 0 <= d * k && (0 < k ==> 0 < d * k);
    assert d * (m + k) == d * m + d * k;
  }

  lemma ResidueOrder(aa: int, bb: int, m: nat, n: nat, y: int)
    requires 0 < bb && m < n
    ensures Residue(aa, bb, m, y) < Residue(aa, bb, n, y)
  {
    SquareOrder(m, n);
    ScaleOrder(bb, m * m, n * n);
  }

  lemma RowPickIffClosest(aa: int, bb: int, x: nat, y: int)
    requires 0 < bb && 1 <= x
    ensures RowPick(aa, bb, x, y) <==> ClosestInRow(aa, bb, x, y)
  {
    if RowPick(aa, bb, x, y) {
      forall x': nat | x' != x
        ensures Abs(Residue(aa, bb, x, y)) <= Abs(Residue(aa, bb, x', y))
        ensures x < x' ==> Abs(Residue(aa, bb, x, y)) < Abs(Residue(aa, bb, x', y))
      {
        if x < x' {
          ResidueOrder(aa, bb, x, x', y);
          if x + 1 < x' { ResidueOrder(aa, bb, x + 1, x', y); }
        } else {
          ResidueOrder(aa, bb, x', x, y);
          if x' < x - 1 { ResidueOrder(aa, bb, x', x - 1, y); }
        }
      }
    }
    if ClosestInRow(aa, bb, x, y) {
      ResidueOrder(aa, bb, x, x + 1, y);
      ResidueOrder(aa, bb, x - 1, x, y);
      var left, right := x - 1, x + 1;
      assert Abs(Residue(aa, bb, x, y)) <= Abs(Residue(aa, bb, left, y));
      assert Abs(Residue(aa, bb, x, y)) < Abs(Residue(aa, bb, right, y));
    }
  }

  /** Pixels (x, y) of the first quadrant where the outline is steep; radii may be degenerate. */
  ghost predicate SidePixel(a: int, b: int, x: int, y: int) {
    if a == 0 || b == 0 then x == a && y == 0
    else 0 < a && 1 <= x && 0 <= y && Steep(a * a, b * b, x, y) && ClosestInRow(a * a, b * b, x, y)
  }

  /** The same with the axes exchanged: where the outline is flat, column by column. */
  ghost predicate CapPixel(a: int, b: int, x: int, y: int) {
    SidePixel(b, a, y, x)
  }

  /** The pixels drawn for the quadrant pixel (x, y), relative to the centre. */
  predicate InFour(filled: bool, x: int, y: int, u: int, v: int) {
    Abs(v) == Abs(y) && (if filled then Abs(u) <= Abs(x) else Abs(u) == Abs(x))
  }

  /** The pixels of an ellipse relative to its centre. */
  ghost predicate InEllipse(a: int, b: int, filled: bool, u: int, v: int) {
    exists x, y :: (SidePixel(a, b, x, y) || CapPixel(a, b, x, y)) && InFour(filled, x, y, u, v)
  }

  /** Where the walk along the steep part stands at a loop head. */
  ghost predicate SideHead(a: int, b: int, x: int, y: int) {
    var aa, bb := a * a, b * b;
    if a == 0 || b == 0 then
      (x == a && y == 0) || (y == 1 && !Steep(aa, bb, x, y))
    else if a < 0 then
      x == a && y == 0
    else
      0 <= x && 0 <= y && (y == 0 ==> 1 <= x) &&
      0 < PairSum(aa, bb, x + 1, y) &&
      (Steep(aa, bb, x, y) ==> PairSum(aa, bb, x, y) <= 0)
  }

  lemma SquarePositive(n: int)
    requires n != 0
    ensures 0 < n * n
  {
  }

  lemma SideStart(a: int, b: int)
    requires a != 0 || b != 0
    ensures SideHead(a, b, a, 0)
  {
    if 0 < a && b != 0 {
      var aa, bb := a * a, b * b;
      SquarePositive(b);
      PairSumSteps(aa, bb, a, 0);
      assert Residue(aa, bb, a, 0) == 0 by { assert bb * aa == aa * bb; }
      assert PairSum(aa, bb, a, 0) == bb - 2 * (bb * a);
      assert bb <= bb * a;
    }
  }

  lemma ScaledNeighbours(d: int, n: int)
    ensures d * (n + 1) == d * n + d
    ensures d * (n - 1) == d * n - d
    ensures d * (2 * n + 1) == 2 * (d * n) + d
    ensures d * (1 - 2 * n) == d - 2 * (d * n)
    ensures d * ((n + 1) * (n + 1)) == d * (n * n) + 2 * (d * n) + d
    ensures d * ((n - 1) * (n - 1)) == d * (n * n) - 2 * (d * n) + d
  {
    assert (n + 1) * (n + 1) == n * n + 2 * n + 1;
    assert (n - 1) * (n - 1) == n * n - 2 * n + 1;
    assert d * (n * n + 2 * n + 1) == d * (n * n) + d * (2 * n) + d;
    assert d * (n * n - 2 * n + 1) == d * (n * n) - d * (2 * n) + d;
  }

  /** How residue and pair sum change when x or y changes by one. */
  lemma ResidueSteps(aa: int, bb: int, x: int, y: int)
    ensures Residue(aa, bb, x, y + 1) == Residue(aa, bb, x, y) + aa * (2 * y + 1)
    ensures Residue(aa, bb, x - 1, y) == Residue(aa, bb, x, y) + bb * (1 - 2 * x)
  {
    ScaledNeighbours(aa, y);
    ScaledNeighbours(bb, x);
  }

  lemma PairSumSteps(aa: int, bb: int, x: int, y: int)
    ensures PairSum(aa, bb, x, y) == 2 * Residue(aa, bb, x, y) + bb - 2 * (bb * x)
    ensures PairSum(aa, bb, x, y + 1) == PairSum(aa, bb, x, y) + 4 * (aa * y) + 2 * aa
    ensures PairSum(aa, bb, x + 1, y) == PairSum(aa, bb, x, y) + 4 * (bb * x)
    ensures PairSum(aa, bb, x - 1, y) == PairSum(aa, bb, x, y) - 4 * (bb * x) + 4 * bb
  {
    PairSumClosed(aa, bb, x, y);
    PairSumClosed(aa, bb, x, y + 1);
    PairSumClosed(aa, bb, x + 1, y);
    PairSumClosed(aa, bb, x - 1, y);
    ScaledNeighbours(aa, y);
    ScaledNeighbours(bb, x);
  }

  lemma PairSumClosed(aa: int, bb: int, x: int, y: int)
    ensures PairSum(aa, bb, x, y) == 2 * (bb * (x * x)) - 2 * (bb * x) + bb + 2 * (aa * (y * y)) - 2 * (aa * bb)
  {
    ScaledNeighbours(bb, x);
  }

  /** The decision the loop takes after moving to row y + 1. */
  predicate StepsLeft(a: int, b: int, x: int, y: int) {
    0 < 2 * Residue(a * a, b * b, x, y + 1) + b * b * (1 - 2 * x)
  }

  /**
   One turn of the steep loop: the pixel it has just drawn is the right one for its
   row, and the greedy choice between two columns keeps the walk on the ellipse.
   */
  lemma SideStep(a: int, b: int, x: int, y: int)
    requires a != 0 || b != 0
    requires SideHead(a, b, x, y) && Steep(a * a, b * b, x, y)
    ensures SidePixel(a, b, x, y)
    ensures SideHead(a, b, if StepsLeft(a, b, x, y) then x - 1 else x, y + 1)
  {
    if a == 0 || b == 0 {
      DegenerateStep(a, b);
    } else {
      SquarePositive(a);
      SquarePositive(b);
      if a < 0 {
        ScaleOrder(b * b, a, -1);
        assert false;
      }
      RegularStep(a * a, b * b, x, y);
      assert StepsLeft(a, b, x, y) <==> 0 < PairSum(a * a, b * b, x, y + 1) by {
        PairSumSteps(a * a, b * b, x, y + 1);
        ScaledNeighbours(b * b, x);
      }
    }
  }

  lemma RegularStep(aa: int, bb: int, x: int, y: int)
    requires 0 < aa && 0 < bb
    requires 0 <= x && 0 <= y && (y == 0 ==> 1 <= x)
    requires PairSum(aa, bb, x, y) <= 0 < PairSum(aa, bb, x + 1, y)
    requires Steep(aa, bb, x, y)
    ensures 1 <= x && ClosestInRow(aa, bb, x, y)
    ensures var x' := if 0 < PairSum(aa, bb, x, y + 1) then x - 1 else x;
      0 < PairSum(aa, bb, x' + 1, y + 1) &&
      (Steep(aa, bb, x', y + 1) ==> PairSum(aa, bb, x', y + 1) <= 0)
  {
    assert 1 <= x by {
      if 0 < y { ScaleOrder(aa, 1, y); }
    }
    RowPickIffClosest(aa, bb, x, y);
    RegularChoice(aa, bb, x, y);
  }

  lemma RegularChoice(aa: int, bb: int, x: int, y: int)
    requires 0 < aa && 0 < bb && 1 <= x && 0 <= y
    requires PairSum(aa, bb, x, y) <= 0 < PairSum(aa, bb, x + 1, y)
    requires Steep(aa, bb, x, y)
    ensures PairSum(aa, bb, x, y + 1) <= 0 ==> 0 < PairSum(aa, bb, x + 1, y + 1)
    ensures Steep(aa, bb, x - 1, y + 1) ==> PairSum(aa, bb, x - 1, y + 1) <= 0
  {
    PairSumSteps(aa, bb, x, y + 1);
    ScaledNeighbours(aa, y);
    ScaledNeighbours(bb, x);
    PairSumSteps(aa, bb, x, y);
    PairSumSteps(aa, bb, x + 1, y);
    ScaleOrder(bb, 1, x);
    ScaleOrder(aa, 0, y);
  }

  lemma DegenerateStep(a: int, b: int)
    requires a == 0 || b == 0
    requires a != 0 || b != 0
    ensures SideHead(a, b, if StepsLeft(a, b, a, 0) then a - 1 else a, 1)
  {
    if a == 0 {
      SquarePositive(b);
    } else {
      SquarePositive(a);
    }
  }

  /** A row of the steep part holds one pixel. */
  lemma SideIsFunction(a: int, b: int, x: int, x': int, y: int)
    requires SidePixel(a, b, x, y) && SidePixel(a, b, x', y)
    ensures x == x'
  {
    if a != 0 && b != 0 {
      ClosestIsUnique(a * a, b * b, x, x', y);
    }
  }

  lemma ClosestIsUnique(aa: int, bb: int, x: nat, x': nat, y: int)
    ensures ClosestInRow(aa, bb, x, y) && ClosestInRow(aa, bb, x', y) ==> x == x'
  {
    if x < x' && ClosestInRow(aa, bb, x, y) {
      assert Abs(Residue(aa, bb, x, y)) < Abs(Residue(aa, bb, x', y));
    } else if x' < x && ClosestInRow(aa, bb, x', y) {
      assert Abs(Residue(aa, bb, x', y)) < Abs(Residue(aa, bb, x, y));
    }
  }

  /** When the steep loop stops, no row further up has a pixel on the steep part. */
  lemma SideEnds(a: int, b: int, x: int, y: int, x': int, y': int)
    requires SideHead(a, b, x, y) && !Steep(a * a, b * b, x, y)
    requires SidePixel(a, b, x', y')
    ensures y' < y
  {
    var aa, bb := a * a, b * b;
    if a != 0 && b != 0 && y <= y' {
      SquarePositive(a);
      SquarePositive(b);
      RowPickIffClosest(aa, bb, x', y');
      PairSumInRows(aa, bb, x + 1, y, y');
      if x < x' {
        PairSumInColumns(aa, bb, x + 1, x', y');
      }
      ScaleOrder(bb, x', x);
      ScaleOrder(aa, y, y');
    }
  }

  lemma PairSumInRows(aa: int, bb: int, x: int, y: nat, y': nat)
    requires 0 < aa && y <= y'
    ensures PairSum(aa, bb, x, y) <= PairSum(aa, bb, x, y')
  {
    if y < y' {
      SquareOrder(y, y');
      ScaleOrder(aa, y * y, y' * y');
    }
  }

  lemma PairSumInColumns(aa: int, bb: int, x: nat, x': nat, y: int)
    requires 0 < bb && 1 <= x <= x'
    ensures PairSum(aa, bb, x, y) <= PairSum(aa, bb, x', y)
  {
    if x < x' {
      ResidueOrder(aa, bb, x, x', y);
      ResidueOrder(aa, bb, x - 1, x' - 1, y);
    }
  }

  /** The loop's running variables. */
  datatype Walk = Walk(x: int, y: int, xChange: int, yChange: int, error: int, stopX: int, stopY: int)

  function Start(a: int, b: int): Walk {
    Walk(a, 0, b * b * (1 - 2 * a), a * a, 0, 2 * b * b * a, 0)
  }

  /** One turn of the steep loop, by additions only. */
  function Turn(a: int, b: int, w: Walk): Walk {
    var error, yChange := w.error + w.yChange, w.yChange + 2 * a * a;
    if 2 * error + w.xChange > 0 then
      Walk(w.x - 1, w.y + 1, w.xChange + 2 * b * b, yChange, error + w.xChange,
        w.stopX - 2 * b * b, w.stopY + 2 * a * a)
    else
      Walk(w.x, w.y + 1, w.xChange, yChange, error, w.stopX, w.stopY + 2 * a * a)
  }

  function Turns(a: int, b: int, n: nat): Walk {
    if n == 0 then Start(a, b) else Turn(a, b, Turns(a, b, n - 1))
  }

  predicate Guard(w: Walk) {
    w.stopX >= w.stopY
  }

  /** The guard held at the first n heads. */
  predicate Running(a: int, b: int, n: nat) {
    n == 0 || (Running(a, b, n - 1) && Guard(Turns(a, b, n - 1)))
  }

  /** The closed forms of the running variables. */
  ghost predicate Registers(a: int, b: int, w: Walk) {
    w.error == Residue(a * a, b * b, w.x, w.y) &&
    w.xChange == b * b * (1 - 2 * w.x) && w.yChange == a * a * (2 * w.y + 1) &&
    w.stopX == 2 * (b * b * w.x) && w.stopY == 2 * (a * a * w.y)
  }

  lemma RegistersStart(a: int, b: int)
    ensures Registers(a, b, Start(a, b))
  {
    assert (b * b) * (a * a) == (a * a) * (b * b);
    assert 2 * b * b * a == 2 * (b * b * a);
  }

  /** Additions alone keep the closed forms, and the sign tests mean what they should. */
  lemma RegistersTurn(a: int, b: int, w: Walk)
    requires Registers(a, b, w)
    ensures Guard(w) <==> Steep(a * a, b * b, w.x, w.y)
    ensures 2 * (w.error + w.yChange) + w.xChange > 0 <==> StepsLeft(a, b, w.x, w.y)
    ensures Registers(a, b, Turn(a, b, w))
  {
    var aa, bb := a * a, b * b;
    DoubleSquare(a);
    DoubleSquare(b);
    ResidueSteps(aa, bb, w.x, w.y);
    ResidueSteps(aa, bb, w.x, w.y + 1);
    ChangeSteps(aa, w.y);
    ChangeSteps(bb, w.x - 1);
    StopSteps(aa, w.y);
    StopSteps(bb, w.x - 1);
  }

  lemma DoubleSquare(n: int)
    ensures 2 * n * n == 2 * (n * n)
  {
  }

  lemma ChangeSteps(d: int, n: int)
    ensures d * (2 * (n + 1) + 1) == d * (2 * n + 1) + 2 * d
    ensures d * (1 - 2 * n) == d * (1 - 2 * (n + 1)) + 2 * d
  {
  }

  lemma StopSteps(d: int, n: int)
    ensures d * (n + 1) == d * n + d
  {
  }

  /** At every head reached the walk is on the ellipse, in row n, with its closed forms. */
  lemma {:induction false} HeadsAreOnEllipse(a: int, b: int, n: nat)
    requires a != 0 || b != 0
    requires Running(a, b, n)
    ensures var w := Turns(a, b, n);
      w.y == n && SideHead(a, b, w.x, w.y) && Registers(a, b, w) && (Guard(w) <==> Steep(a * a, b * b, w.x, w.y))
  {
    if n == 0 {
      SideStart(a, b);
      RegistersStart(a, b);
    } else {
      var w := Turns(a, b, n - 1);
      HeadsAreOnEllipse(a, b, n - 1);
      RegistersTurn(a, b, w);
      SideStep(a, b, w.x, w.y);
    }
    RegistersTurn(a, b, Turns(a, b, n));
  }

  /** The pixel drawn in turn n is the steep pixel of row n. */
  lemma TurnDrawsSidePixel(a: int, b: int, n: nat)
    requires a != 0 || b != 0
    requires Running(a, b, n) && Guard(Turns(a, b, n))
    ensures var w := Turns(a, b, n); w.y == n && SidePixel(a, b, w.x, n)
  {
    var w := Turns(a, b, n);
    HeadsAreOnEllipse(a, b, n);
    SideStep(a, b, w.x, w.y);
  }

  /** The loop ends: the gap between the two stopping variables shrinks in every turn. */
  lemma GapShrinks(a: int, b: int, n: nat)
    requires a != 0 || b != 0
    requires Running(a, b, n) && Guard(Turns(a, b, n))
    ensures var w, next := Turns(a, b, n), Turns(a, b, n + 1);
      next.stopX - next.stopY < w.stopX - w.stopY
  {
    var w := Turns(a, b, n);
    HeadsAreOnEllipse(a, b, n);
    RegistersTurn(a, b, w);
    DoubleSquare(a);
    DoubleSquare(b);
    if a != 0 { SquarePositive(a); } else { ZeroWidthStepsLeft(b); }
    if b != 0 { SquarePositive(b); }
  }

  lemma ZeroWidthStepsLeft(b: int)
    requires b != 0
    ensures StepsLeft(0, b, 0, 0)
  {
    SquarePositive(b);
  }

  /** When the loop stops after n turns, every steep pixel lies below row n. */
  lemma StopIsComplete(a: int, b: int, n: nat)
    requires a != 0 || b != 0
    requires Running(a, b, n) && !Guard(Turns(a, b, n))
    ensures forall x, y :: SidePixel(a, b, x, y) ==> y < n
  {
    HeadsAreOnEllipse(a, b, n);
    var w := Turns(a, b, n);
    forall x, y | SidePixel(a, b, x, y) ensures y < n {
      SideEnds(a, b, w.x, w.y, x, y);
    }
  }

  /** (x, y) is the steep pixel of the highest row that has one. */
  ghost predicate LastSide(a: int, b: int, x: int, y: int) {
    SidePixel(a, b, x, y) && forall x', y' :: SidePixel(a, b, x', y') ==> y' <= y
  }

  /** (x, y) is the flat pixel of the column furthest out that has one. */
  ghost predicate LastCap(a: int, b: int, x: int, y: int) {
    LastSide(b, a, y, x)
  }

  ghost predicate HasSides(a: int, b: int) {
    exists x, y :: SidePixel(a, b, x, y)
  }

  /** When the loop stops, the pixel of its last turn is the last steep one; without a turn there is none. */
  lemma StopIsLast(a: int, b: int, n: nat)
    requires a != 0 || b != 0
    requires Running(a, b, n) && !Guard(Turns(a, b, n))
    ensures 0 < n ==> LastSide(a, b, Turns(a, b, n - 1).x, n - 1)
    ensures HasSides(a, b) <==> 0 < n
  {
    StopIsComplete(a, b, n);
    if 0 < n { TurnDrawsSidePixel(a, b, n - 1); }
    if HasSides(a, b) {
      var x, y :| SidePixel(a, b, x, y);
    }
  }

  /** The loop, run on from head n, comes to a stop. */
  lemma LoopStops(a: int, b: int, n: nat) returns (stop: nat)
    requires a != 0 || b != 0
    requires Running(a, b, n)
    ensures n <= stop && Running(a, b, stop) && !Guard(Turns(a, b, stop))
    decreases Gap(a, b, n)
  {
    stop := n;
    if Guard(Turns(a, b, n)) {
      GapShrinks(a, b, n);
      stop := LoopStops(a, b, n + 1);
    }
  }

  function Gap(a: int, b: int, n: nat): nat {
    var w := Turns(a, b, n);
    if w.stopY <= w.stopX then w.stopX - w.stopY + 1 else 0
  }

  lemma {:induction false} RunningBefore(a: int, b: int, n: nat, k: nat)
    requires k < n && Running(a, b, n)
    ensures Running(a, b, k) && Guard(Turns(a, b, k))
  {
    if k + 1 < n { RunningBefore(a, b, n - 1, k); }
  }

  /** Some column, or some row, of the steep part. */
  ghost predicate SideInColumn(a: int, b: int, x: int) {
    exists y :: SidePixel(a, b, x, y)
  }

  ghost predicate SideInRow(a: int, b: int, y: int) {
    exists x :: SidePixel(a, b, x, y)
  }

  /** The steep part, up to row n, fills all rows and all columns from its end to the axis, and no other. */
  lemma {:induction false} SidesAreConnected(a: int, b: int, n: nat)
    requires 0 < a && 0 < b
    requires Running(a, b, n) && Guard(Turns(a, b, n))
    ensures Turns(a, b, n).x <= a
    ensures forall x | Turns(a, b, n).x <= x <= a :: SideInColumn(a, b, x)
    ensures forall y | 0 <= y <= n :: SideInRow(a, b, y)
    ensures forall x, y | SidePixel(a, b, x, y) && y <= n :: Turns(a, b, n).x <= x <= a
  {
    var x := Turns(a, b, n).x;
    TurnDrawsSidePixel(a, b, n);
    assert SideInColumn(a, b, x) && SideInRow(a, b, n);
    if 0 < n { SidesAreConnected(a, b, n - 1); }
    forall x', y | SidePixel(a, b, x', y) && y <= n ensures x <= x' <= a {
      if y == n { SideIsFunction(a, b, x, x', n); }
    }
  }

  lemma StartIsGuarded(a: int, b: int)
    requires 0 < a && b != 0
    ensures Guard(Turns(a, b, 0))
  {
    SquarePositive(b);
    ScaleOrder(b * b, 0, a);
    assert 2 * b * b * a == 2 * (b * b * a);
  }

  /** A positive ellipse has a last steep pixel: the one of the loop's last turn. */
  lemma LastSideExists(a: int, b: int) returns (n: nat)
    requires 0 < a && 0 < b
    ensures Running(a, b, n) && Guard(Turns(a, b, n)) && !Guard(Turns(a, b, n + 1))
    ensures LastSide(a, b, Turns(a, b, n).x, n)
  {
    StartIsGuarded(a, b);
    var stop := LoopStops(a, b, 0);
    n := stop - 1;
    StopIsLast(a, b, stop);
    RunningBefore(a, b, stop, n);
  }

  /** Everything the last steep pixel says about the steep part. */
  lemma SidesUpToLast(a: int, b: int, xs: int, ys: int)
    requires 0 < a && 0 < b && LastSide(a, b, xs, ys)
    ensures xs <= a
    ensures forall x :: SideInColumn(a, b, x) <==> xs <= x <= a
    ensures forall y :: SideInRow(a, b, y) <==> 0 <= y <= ys
  {
    var n := LastSideExists(a, b);
    var x0 := Turns(a, b, n).x;
    SideIsFunction(a, b, xs, x0, ys);
    SidesAreConnected(a, b, n);
    RowsAreNatural(a, b);
  }

  /** A steep pixel is the last one exactly when the next row has none. */
  lemma LastSideIsLocal(a: int, b: int, x: int, y: int)
    requires 0 < a && 0 < b && SidePixel(a, b, x, y)
    ensures LastSide(a, b, x, y) <==> !SideInRow(a, b, y + 1)
  {
    var n := LastSideExists(a, b);
    var xs := Turns(a, b, n).x;
    SidesUpToLast(a, b, xs, n);
    assert SideInRow(a, b, y);
    if y == n { SideIsFunction(a, b, x, xs, n); }
  }

  lemma RowsAreNatural(a: int, b: int)
    requires 0 < a && 0 < b
    ensures forall x, y :: SidePixel(a, b, x, y) ==> 0 <= y
  {
  }

  ghost predicate TouchesRow(a: int, b: int, v: int) {
    exists u :: InEllipse(a, b, false, u, v)
  }

  ghost predicate TouchesColumn(a: int, b: int, u: int) {
    exists v :: InEllipse(a, b, false, u, v)
  }

  /** A row of the upper half is touched by the steep part or by the flat part. */
  lemma RowTouchedIff(a: int, b: int, v: int)
    requires 0 < a && 0 < b && 0 <= v
    ensures TouchesRow(a, b, v) <==> SideInRow(a, b, v) || SideInColumn(b, a, v)
  {
    if TouchesRow(a, b, v) {
      var u :| InEllipse(a, b, false, u, v);
      var x, y :| (SidePixel(a, b, x, y) || CapPixel(a, b, x, y)) && InFour(false, x, y, u, v);
      assert y == v;
    }
    if SideInRow(a, b, v) {
      var x :| SidePixel(a, b, x, v);
      assert InFour(false, x, v, x, v);
      assert InEllipse(a, b, false, x, v);
    }
    if SideInColumn(b, a, v) {
      var x :| SidePixel(b, a, v, x);
      assert CapPixel(a, b, x, v) && InFour(false, x, v, x, v);
      assert InEllipse(a, b, false, x, v);
    }
  }

  lemma EllipseIsSymmetric(a: int, b: int, u: int, v: int)
    ensures InEllipse(a, b, false, u, v) <==> InEllipse(b, a, false, v, u)
  {
    if InEllipse(a, b, false, u, v) {
      var x, y :| (SidePixel(a, b, x, y) || CapPixel(a, b, x, y)) && InFour(false, x, y, u, v);
      assert InFour(false, y, x, v, u) && (SidePixel(b, a, y, x) || CapPixel(b, a, y, x));
    }
    if InEllipse(b, a, false, v, u) {
      var y, x :| (SidePixel(b, a, y, x) || CapPixel(b, a, y, x)) && InFour(false, y, x, v, u);
      assert InFour(false, x, y, u, v) && (SidePixel(a, b, x, y) || CapPixel(a, b, x, y));
    }
  }

  lemma ColumnTouchedIff(a: int, b: int, u: int)
    ensures TouchesColumn(a, b, u) <==> TouchesRow(b, a, u)
  {
    if TouchesColumn(a, b, u) {
      var v :| InEllipse(a, b, false, u, v);
      EllipseIsSymmetric(a, b, u, v);
    }
    if TouchesRow(b, a, u) {
      var v :| InEllipse(b, a, false, v, u);
      EllipseIsSymmetric(b, a, v, u);
    }
  }

  /** Every row up to the top is touched exactly when no gap opens between the two last pixels. */
  lemma RowsAreUnbrokenIff(a: int, b: int, xs: int, ys: int, xc: int, yc: int)
    requires 0 < a && 0 < b && LastSide(a, b, xs, ys) && LastCap(a, b, xc, yc)
    ensures (forall v | 0 <= v <= b :: TouchesRow(a, b, v)) <==> yc <= ys + 1
  {
    SidesUpToLast(a, b, xs, ys);
    SidesUpToLast(b, a, yc, xc);
    forall v | 0 <= v ensures TouchesRow(a, b, v) <==> v <= ys || yc <= v <= b {
      RowTouchedIff(a, b, v);
    }
    if ys + 1 < yc {
      assert !TouchesRow(a, b, ys + 1);
    }
  }

  /**
   The outline leaves no row and no column within the radii empty if and only if the last steep
   pixel and the last flat one are at most one row and one column apart.
   */
  lemma OutlineIsUnbrokenIff(a: int, b: int, xs: int, ys: int, xc: int, yc: int)
    requires 0 < a && 0 < b && LastSide(a, b, xs, ys) && LastCap(a, b, xc, yc)
    ensures (forall v | 0 <= v <= b :: TouchesRow(a, b, v)) <==> yc <= ys + 1
    ensures (forall u | 0 <= u <= a :: TouchesColumn(a, b, u)) <==> xs <= xc + 1
  {
    RowsAreUnbrokenIff(a, b, xs, ys, xc, yc);
    RowsAreUnbrokenIff(b, a, yc, xc, ys, xs);
    forall u { ColumnTouchedIff(a, b, u); }
  }

  lemma GuardMeansSteep(a: int, b: int, n: nat)
    requires (a != 0 || b != 0) && Running(a, b, n)
    ensures Guard(Turns(a, b, n)) <==> Steep(a * a, b * b, Turns(a, b, n).x, n)
  {
    HeadsAreOnEllipse(a, b, n);
  }

  lemma RoundSidesMeet(r: nat, n: nat)
    requires 0 < r && Running(r, r, n) && Guard(Turns(r, r, n)) && !Guard(Turns(r, r, n + 1))
    ensures Turns(r, r, n).x <= n + 1
  {
    var next := Turns(r, r, n + 1).x;
    GuardMeansSteep(r, r, n + 1);
    SquarePositive(r);
    if n + 1 <= next { ScaleOrder(r * r, n + 1, next); }
  }

  /** With equal radii no row is left empty, and so no column either. */
  lemma EqualRadiiAreUnbroken(r: nat, v: int)
    requires 0 < r && 0 <= v <= r
    ensures TouchesRow(r, r, v) && TouchesColumn(r, r, v)
  {
    var n := LastSideExists(r, r);
    var xs := Turns(r, r, n).x;
    RoundSidesMeet(r, n);
    OutlineIsUnbrokenIff(r, r, xs, n, n, xs);
  }

  /** With radii 4 and 1 the third column is left empty on either side. */
  lemma FlatEllipseHasGap(u: int, v: int)
    requires Abs(u) == 3
    ensures !InEllipse(4, 1, false, u, v)
  {
    forall y ensures !SidePixel(4, 1, 3, y) {
      var on: nat := 4;
      assert Residue(16, 1, on, 0) == 0 && Residue(16, 1, 3, 0) == -7;
    }
    forall y ensures !CapPixel(4, 1, 3, y) {
      if 1 <= y {
        var inside: nat := 0;
        assert Residue(1, 16, inside, 3) == -7;
        SquareAtLeastOne(y);
        assert Residue(1, 16, y, 3) >= 9;
      }
    }
  }

  lemma SquareAtLeastOne(n: int)
    requires 1 <= n
    ensures 1 <= n * n
  {
  }

  /** With both radii zero the loop never stops: its guard holds at every head. */
  lemma {:induction false} ZeroRadiiLoopForever(n: nat)
    ensures Turns(0, 0, n) == Walk(0, n, 0, 0, 0, 0, 0)
    ensures Guard(Turns(0, 0, n)) && Running(0, 0, n)
  {
    if 0 < n { ZeroRadiiLoopForever(n - 1); }
  }

  /** With equal radii the residue is the circle's excess, scaled. */
  lemma RoundPick(r: nat, x: nat, y: nat)
    requires 0 < r && 1 <= x && y <= x
    ensures RowPick(r * r, r * r, x, y) <==> Circle.OnArc(r, y, x)
  {
    var rr := r * r;
    SquarePositive(r);
    RoundResidue(r, x, y);
    RoundResidue(r, x - 1, y);
    RoundResidue(r, x + 1, y);
    Circle.ArcByExcess(r, y, x);
    var e := Circle.Excess(r, y, x);
    assert Circle.Excess(r, y, x - 1) == e - 2 * x + 1 by { assert (x - 1) * (x - 1) == x * x - 2 * x + 1; }
    assert Circle.Excess(r, y, x + 1) == e + 2 * x + 1 by { assert (x + 1) * (x + 1) == x * x + 2 * x + 1; }
    ScaledSum(rr, e, e - 2 * x + 1);
    ScaledSum(rr, e, e + 2 * x + 1);
  }

  lemma RoundResidue(r: int, x: int, y: int)
    ensures Residue(r * r, r * r, x, y) == (r * r) * Circle.Excess(r, y, x)
  {
    var rr := r * r;
    assert rr * (y * y + x * x - rr) == rr * (x * x) + rr * (y * y) - rr * rr;
  }

  lemma ScaledSum(d: int, m: int, n: int)
    requires 0 < d
    ensures d * m + d * n <= 0 <==> m + n <= 0
    ensures 0 < d * m + d * n <==> 0 < m + n
  {
    assert d * m + d * n == d * (m + n);
    if m + n <= 0 { ScaleOrder(d, m + n, 0); } else { ScaleOrder(d, 0, m + n); }
  }

  lemma RoundSide(r: nat, x: int, y: int)
    requires 0 < r
    ensures SidePixel(r, r, x, y) <==> 0 <= y && Circle.OnArc(r, y, x)
  {
    SquarePositive(r);
    if 1 <= x && 0 <= y {
      assert Steep(r * r, r * r, x, y) <==> y <= x by {
        if y <= x { ScaleOrder(r * r, y, x); } else { ScaleOrder(r * r, x, y); }
      }
      if y <= x {
        RoundPick(r, x, y);
        RowPickIffClosest(r * r, r * r, x, y);
      }
    } else if x == 0 && y == 0 {
      Circle.ArcByExcess(r, 0, 0);
    }
  }

  /** The two curve algorithms agree: an ellipse with equal radii is the circle, pixel for pixel. */
  lemma EqualRadiiDrawTheCircle(r: nat, filled: bool, u: int, v: int)
    requires 0 < r
    ensures InEllipse(r, r, filled, u, v) <==> Circle.InCircle(r, filled, Abs(u), Abs(v))
  {
    if InEllipse(r, r, filled, u, v) {
      var x, y :| (SidePixel(r, r, x, y) || CapPixel(r, r, x, y)) && InFour(filled, x, y, u, v);
      RoundSide(r, x, y);
      RoundSide(r, y, x);
      assert Circle.OnOutline(r, x, y);
    }
    if Circle.InCircle(r, filled, Abs(u), Abs(v)) {
      var x: nat :| (if filled then Abs(u) <= x else x == Abs(u)) && Circle.OnOutline(r, x, Abs(v));
      var y := Abs(v);
      RoundSide(r, x, y);
      RoundSide(r, y, x);
      assert SidePixel(r, r, x, y) || CapPixel(r, r, x, y);
      assert InFour(filled, x, y, u, v);
    }
  }

  /** How far a pixel is off the ellipse with radii a and b, scaled. */
  lemma ResidueInNumbers(a: int, b: int, x: int, y: int)
    ensures Residue(a * a, b * b, x, y) == b * b * (x * x) + a * a * (y * y) - a * a * (b * b)
  {
  }

  /**
   The steep half of an outline in numbers: on the steep side of the curve, the pixels nearer to
   it than the left neighbour and at least as near, in sum, as the right one.
   */
  lemma SideInNumbers(a: int, b: int, x: int, y: int)
    requires a != 0 && b != 0
    ensures SidePixel(a, b, x, y) <==>
      0 < a && 1 <= x && 0 <= y && a * a * y <= b * b * x &&
      b * b * (x * x + (x - 1) * (x - 1)) + 2 * (a * a * (y * y)) <= 2 * (a * a * (b * b)) <
      b * b * (x * x + (x + 1) * (x + 1)) + 2 * (a * a * (y * y))
  {
    SquarePositive(b);
    if 1 <= x { RowPickIffClosest(a * a, b * b, x, y); }
    PairInNumbers(a * a, b * b, x, x - 1, y);
    PairInNumbers(a * a, b * b, x + 1, x, y);
  }

  lemma PairInNumbers(aa: int, bb: int, x: int, w: int, y: int)
    ensures Residue(aa, bb, x, y) + Residue(aa, bb, w, y) == bb * (x * x + w * w) + 2 * (aa * (y * y)) - 2 * (aa * bb)
  {
    assert bb * (x * x + w * w) == bb * (x * x) + bb * (w * w);
  }

  /** An outline is its steep half and that of the exchanged radii, in all four quadrants. */
  lemma OutlineInNumbers(a: int, b: int, u: int, v: int)
    requires a != 0 && b != 0
    ensures InEllipse(a, b, false, u, v) <==> SidePixel(a, b, Abs(u), Abs(v)) || SidePixel(b, a, Abs(v), Abs(u))
  {
    if InEllipse(a, b, false, u, v) {
      var x, y :| (SidePixel(a, b, x, y) || CapPixel(a, b, x, y)) && InFour(false, x, y, u, v);
      assert x == Abs(u) && y == Abs(v);
    }
    assert InFour(false, Abs(u), Abs(v), u, v);
  }

  /** A filled ellipse is every row's outline and what lies between. */
  lemma FilledInNumbers(a: int, b: int, u: int, v: int)
    ensures InEllipse(a, b, true, u, v) <==> exists w :: Abs(u) <= Abs(w) && InEllipse(a, b, false, w, v)
  {
    if InEllipse(a, b, true, u, v) {
      var x, y :| (SidePixel(a, b, x, y) || CapPixel(a, b, x, y)) && InFour(true, x, y, u, v);
      assert InFour(false, x, y, x, v);
      assert InEllipse(a, b, false, x, v);
    }
    if exists w :: Abs(u) <= Abs(w) && InEllipse(a, b, false, w, v) {
      var w :| Abs(u) <= Abs(w) && InEllipse(a, b, false, w, v);
      var x, y :| (SidePixel(a, b, x, y) || CapPixel(a, b, x, y)) && InFour(false, x, y, w, v);
      assert InFour(true, x, y, u, v);
    }
  }

  /** With one radius zero only the centre and the two ends of the other axis are drawn. */
  lemma FlatInNumbers(n: int, u: int, v: int)
    requires n != 0
    ensures InEllipse(n, 0, false, u, v) <==> v == 0 && (u == 0 || Abs(u) == Abs(n))
    ensures InEllipse(0, n, false, u, v) <==> u == 0 && (v == 0 || Abs(v) == Abs(n))
  {
    assert SidePixel(n, 0, n, 0) && CapPixel(n, 0, 0, 0) && SidePixel(0, n, 0, 0) && CapPixel(0, n, 0, n);
    assert InFour(false, n, 0, u, v) <==> v == 0 && Abs(u) == Abs(n);
    assert InFour(false, 0, 0, u, v) <==> v == 0 && u == 0;
    assert InFour(false, 0, n, u, v) <==> u == 0 && Abs(v) == Abs(n);
  }
}
