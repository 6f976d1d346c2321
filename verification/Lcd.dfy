/**
 The 128x64 LCD driver: a byte buffer drawn into through an orientation map, and its
 refresh onto the panel.
 */
module Lcd {
  import opened Geometry
  import opened Framebuffer
  import opened Display
  import Line = LineGeometry
  import Circle = CircleGeometry
  import Ellipse = EllipseGeometry

  ghost function PointsOf(trail: seq<Point>): iset<Point> {
    iset p | p in trail
  }

  /** All pixels whose offset from (x, y) satisfies the predicate. */
  ghost function CircleSet(x: int, y: int, r: int, filled: bool): iset<Point> {
    iset p: Point | Circle.InCircle(r, filled, Abs(p.x - x), Abs(p.y - y))
  }

  ghost function CirclePart(x: int, y: int, r: nat, filled: bool, n: int): iset<Point> {
    iset p: Point | Circle.DrawnUpTo(r, filled, n, Abs(p.x - x), Abs(p.y - y))
  }

  ghost function EightSet(x: int, y: int, a: int, b: int, filled: bool): iset<Point> {
    iset p: Point | Circle.InEight(filled, a, b, Abs(p.x - x), Abs(p.y - y))
  }

  ghost function FourSet(cx: int, cy: int, x: int, y: int, filled: bool): iset<Point> {
    iset p: Point | Ellipse.InFour(filled, x, y, p.x - cx, p.y - cy)
  }

  ghost function EllipseSet(cx: int, cy: int, a: int, b: int, filled: bool): iset<Point> {
    iset p: Point | Ellipse.InEllipse(a, b, filled, p.x - cx, p.y - cy)
  }

  /** The pixels drawn for the steep part below row n. */
  ghost function SidesPart(cx: int, cy: int, a: int, b: int, filled: bool, n: int): iset<Point> {
    iset p: Point |
      exists x, y :: Ellipse.SidePixel(a, b, x, y) && y < n && Ellipse.InFour(filled, x, y, p.x - cx, p.y - cy)
  }

  /** The pixels drawn for the flat part left of column n. */
  ghost function CapsPart(cx: int, cy: int, a: int, b: int, filled: bool, n: int): iset<Point> {
    iset p: Point |
      exists x, y :: Ellipse.CapPixel(a, b, x, y) && x < n && Ellipse.InFour(filled, x, y, p.x - cx, p.y - cy)
  }

  /** Four strokes one after the other are one stroke. */
  lemma FourStrokes(b0: seq<int>, b1: seq<int>, b2: seq<int>, b3: seq<int>, b4: seq<int>, v: View,
                    s1: iset<Point>, s2: iset<Point>, s3: iset<Point>, s4: iset<Point>, all: iset<Point>, colour: int)
    requires |b0| == |b1| == |b2| == |b3| == |b4| == CELLS
    requires b1 == Paint(b0, v, s1, colour) && b2 == Paint(b1, v, s2, colour)
    requires b3 == Paint(b2, v, s3, colour) && b4 == Paint(b3, v, s4, colour)
    requires all == s1 + s2 + s3 + s4
    ensures b4 == Paint(b0, v, all, colour)
  {
    PaintFour(b0, v, s1, s2, s3, s4, colour);
  }

  ghost function LineSet(x0: int, y0: int, x1: int, y1: int): iset<Point> {
    PointsOf(Line.LineTrail(Point(x0, y0), Point(x1, y1)))
  }

  /** The pixels of row y between columns x0 and x1, both included. */
  ghost function Span(x0: int, x1: int, y: int): iset<Point> {
    iset c: Point | c.y == y && Min(x0, x1) <= c.x <= Max(x0, x1)
  }

  ghost function Column(x: int, y0: int, y1: int): iset<Point> {
    iset c: Point | c.x == x && Min(y0, y1) <= c.y <= Max(y0, y1)
  }

  ghost function Pixel(x: int, y: int): iset<Point> {
    iset{Point(x, y)}
  }

  lemma FourAsPoints(cx: int, cy: int, x: int, y: int)
    ensures FourSet(cx, cy, x, y, false) ==
      Pixel(cx + x, cy + y) + Pixel(cx - x, cy + y) + Pixel(cx - x, cy - y) + Pixel(cx + x, cy - y)
  {
  }

  lemma FourAsMirrors(cx: int, cy: int, x: int, y: int)
    ensures FourSet(cx, cy, x, y, false) ==
      Pixel(cx + x, cy + y) + Pixel(cx - x, cy + y) + Pixel(cx + x, cy - y) + Pixel(cx - x, cy - y)
  {
  }

  lemma EightAsFours(x: int, y: int, a: nat, b: nat)
    ensures EightSet(x, y, a, b, false) == FourSet(x, y, a, b, false) + FourSet(x, y, b, a, false)
  {
  }

  lemma AxesAsPoints(x: int, y: int, r: int)
    ensures AxisSet(x, y, r, false) == Pixel(x, y + r) + Pixel(x, y - r) + Pixel(x + r, y) + Pixel(x - r, y)
  {
  }

  ghost function AxisSet(x: int, y: int, r: int, filled: bool): iset<Point> {
    iset p: Point |
      var u, v, n := Abs(p.x - x), Abs(p.y - y), Abs(r);
      (u == 0 && (v == n || (filled && v <= n))) || (v == 0 && (u == n || (filled && u <= n)))
  }

  lemma StartOfCircle(x: int, y: int, r: nat, filled: bool)
    ensures CirclePart(x, y, r, filled, 0) == AxisSet(x, y, r, filled)
  {
    forall p: Point
      ensures p in CirclePart(x, y, r, filled, 0) <==> p in AxisSet(x, y, r, filled)
    {
      Circle.StartDrawn(r, filled, Abs(p.x - x), Abs(p.y - y));
    }
  }

  lemma CircleGrows(before: seq<int>, v: View, x: int, y: int, r: nat, filled: bool, a: nat, b: nat, colour: int)
    requires |before| == CELLS && 0 < a && Circle.Walking(r, a, b)
    ensures Paint(Paint(before, v, CirclePart(x, y, r, filled, a - 1), colour), v, EightSet(x, y, a, b, filled), colour)
      == Paint(before, v, CirclePart(x, y, r, filled, a), colour)
  {
    PaintTwice(before, v, CirclePart(x, y, r, filled, a - 1), EightSet(x, y, a, b, filled), colour);
    forall p: Point { Circle.DrawnGrows(r, filled, a, b, Abs(p.x - x), Abs(p.y - y)); }
    assert CirclePart(x, y, r, filled, a) == CirclePart(x, y, r, filled, a - 1) + EightSet(x, y, a, b, filled);
  }

  lemma CircleIsDone(x: int, y: int, r: nat, filled: bool, a: nat, b: nat)
    requires Circle.Walking(r, a, b) && Circle.RowsCovered(r, a, b) && b <= a
    ensures CirclePart(x, y, r, filled, a) == CircleSet(x, y, r, filled)
  {
    forall p: Point { Circle.WalkDrawsCircle(r, filled, a, b, Abs(p.x - x), Abs(p.y - y)); }
  }

  lemma SpanIsLine(x0: int, x1: int, y: int)
    ensures LineSet(x0, y, x1, y) == Span(x0, x1, y)
  {
    forall c: Point { Line.HorizontalTrail(Point(x0, y), Point(x1, y), c); }
  }

  lemma ColumnIsLine(x: int, y0: int, y1: int)
    ensures LineSet(x, y0, x, y1) == Column(x, y0, y1)
  {
    forall c: Point { Line.VerticalTrail(Point(x, y0), Point(x, y1), c); }
  }

  lemma FourAsSpans(cx: int, cy: int, x: int, y: int)
    ensures FourSet(cx, cy, x, y, true) == Span(cx + x, cx - x, cy + y) + Span(cx - x, cx + x, cy - y)
  {
  }

  lemma EightAsSpans(x: int, y: int, a: nat, b: nat)
    ensures EightSet(x, y, a, b, true) ==
      Span(x + a, x - a, y + b) + Span(x + a, x - a, y - b) + Span(x + b, x - b, y + a) + Span(x + b, x - b, y - a)
  {
  }

  lemma AxesAsLines(x: int, y: int, r: int)
    ensures AxisSet(x, y, r, true) == Column(x, y + r, y - r) + Span(x + r, x - r, y)
  {
  }

  /** The pixels of the first k points of the line. */
  ghost function LinePart(p: Point, q: Point, k: nat): iset<Point>
    requires k <= Line.Steps(p, q) + 1
  {
    PointsOf(Line.LineTrail(p, q)[..k])
  }

  lemma StartOfLine(before: seq<int>, v: View, p: Point, q: Point, colour: int)
    requires |before| == CELLS
    ensures Paint(before, v, LinePart(p, q, 0), colour) == before
  {
    PaintNothing(before, v, colour);
    assert LinePart(p, q, 0) == iset{};
  }

  /** Drawing one more point of the line, and whether it is the last. */
  lemma LineGrows(before: seq<int>, v: View, p: Point, q: Point, k: nat, c: Point, colour: int, now: seq<int>)
    requires |before| == |now| == CELLS && k <= Line.Steps(p, q) && c == Line.Turns(p, q, k).0
    requires now == Paint(before, v, LinePart(p, q, k), colour)
    ensures Paint(now, v, Pixel(c.x, c.y), colour) == Paint(before, v, LinePart(p, q, k + 1), colour)
    ensures Line.LineTrail(p, q)[..k + 1] == Line.LineTrail(p, q)[..k] + [c]
    ensures c == q <==> k == Line.Steps(p, q)
    ensures c == q ==> Line.LineTrail(p, q)[..k + 1] == Line.LineTrail(p, q)
  {
    Line.TurnsFollowLine(p, q, k);
    PaintTwice(before, v, LinePart(p, q, k), Pixel(c.x, c.y), colour);
    assert Line.LineTrail(p, q)[..k + 1] == Line.LineTrail(p, q)[..k] + [c];
    assert LinePart(p, q, k + 1) == LinePart(p, q, k) + Pixel(c.x, c.y);
  }

  lemma ConcatIsAssociative(a: seq<BusOp>, b: seq<BusOp>, c: seq<BusOp>)
    ensures a + b + c == a + (b + c)
  {
  }

  /**
   Buffer, orientation and refresh together: after any drawing calls under one view and a
   refresh, a visible logical pixel is lit on the panel exactly when the colour last given
   to it is not zero as a byte.
   */
  lemma PanelShowsLastColour(half: Controller, buffer: seq<int>, v: View, strokes: seq<Stroke>, p: Point)
    requires half.Valid() && |buffer| == CELLS && OnPanel(v.ToPanel(p))
    ensures var q := v.ToPanel(p);
      Shows(Feed(half, ChipOf(q.x), UpdateOps(PaintAll(buffer, v, strokes))), q.x, q.y)
      <==> LastColour(buffer[CellOf(q)], strokes, p) != 0
  {
    var q := v.ToPanel(p);
    BufferShowsLastColour(buffer, v, strokes, p);
    UpdateShowsBuffer(half, PaintAll(buffer, v, strokes), q.x, q.y);
  }

  lemma StartOfEllipse(before: seq<int>, v: View, cx: int, cy: int, a: int, b: int, filled: bool, colour: int)
    requires |before| == CELLS
    ensures Paint(before, v, SidesPart(cx, cy, a, b, filled, 0), colour) == before
    ensures Paint(before, v, CapsPart(cx, cy, b, a, filled, 0), colour) == before
  {
    PaintNothing(before, v, colour);
    assert SidesPart(cx, cy, a, b, filled, 0) == iset{};
    assert CapsPart(cx, cy, b, a, filled, 0) == iset{};
  }

  /** One turn of the steep loop adds the steep pixel of its row, and the loop comes nearer to its end. */
  lemma SidesGrow(before: seq<int>, v: View, cx: int, cy: int, a: int, b: int, filled: bool,
                  n: nat, colour: int, now: seq<int>)
    requires |before| == |now| == CELLS && (a != 0 || b != 0)
    requires Ellipse.Running(a, b, n) && Ellipse.Guard(Ellipse.Turns(a, b, n))
    requires now == Paint(before, v, SidesPart(cx, cy, a, b, filled, n), colour)
    ensures Paint(now, v, FourSet(cx, cy, Ellipse.Turns(a, b, n).x, n, filled), colour)
      == Paint(before, v, SidesPart(cx, cy, a, b, filled, n + 1), colour)
    ensures LoopGoesOn(a, b, n)
  {
    var x := Ellipse.Turns(a, b, n).x;
    Ellipse.TurnDrawsSidePixel(a, b, n);
    PaintTwice(before, v, SidesPart(cx, cy, a, b, filled, n), FourSet(cx, cy, x, n, filled), colour);
    forall x' | Ellipse.SidePixel(a, b, x', n) ensures x' == x {
      Ellipse.SideIsFunction(a, b, x, x', n);
    }
    assert SidesPart(cx, cy, a, b, filled, n + 1) == SidesPart(cx, cy, a, b, filled, n) + FourSet(cx, cy, x, n, filled);
    Ellipse.GapShrinks(a, b, n);
  }

  predicate LoopGoesOn(a: int, b: int, n: nat) {
    var w, next := Ellipse.Turns(a, b, n), Ellipse.Turns(a, b, n + 1);
    Ellipse.Running(a, b, n + 1) && next == Ellipse.Turn(a, b, w) && next.stopX - next.stopY < w.stopX - w.stopY
  }

  /** The flat loop is the steep one with the axes exchanged. */
  lemma CapsGrow(before: seq<int>, v: View, cx: int, cy: int, a: int, b: int, filled: bool,
                 n: nat, colour: int, now: seq<int>)
    requires |before| == |now| == CELLS && (a != 0 || b != 0)
    requires Ellipse.Running(b, a, n) && Ellipse.Guard(Ellipse.Turns(b, a, n))
    requires now == Paint(before, v, CapsPart(cx, cy, a, b, filled, n), colour)
    ensures Paint(now, v, FourSet(cx, cy, n, Ellipse.Turns(b, a, n).x, filled), colour)
      == Paint(before, v, CapsPart(cx, cy, a, b, filled, n + 1), colour)
    ensures LoopGoesOn(b, a, n)
  {
    var y := Ellipse.Turns(b, a, n).x;
    Ellipse.TurnDrawsSidePixel(b, a, n);
    assert Ellipse.CapPixel(a, b, n, y);
    PaintTwice(before, v, CapsPart(cx, cy, a, b, filled, n), FourSet(cx, cy, n, y, filled), colour);
    forall y' | Ellipse.CapPixel(a, b, n, y') ensures y' == y {
      Ellipse.SideIsFunction(b, a, y, y', n);
    }
    assert CapsPart(cx, cy, a, b, filled, n + 1) == CapsPart(cx, cy, a, b, filled, n) + FourSet(cx, cy, n, y, filled);
    Ellipse.GapShrinks(b, a, n);
  }

  /** What the figures' names stand for: pixels at an offset from a centre, or on a line. */
  lemma FiguresInNumbers(x: int, y: int, a: int, b: int, q: Point, filled: bool, c: Point)
    ensures c in CircleSet(x, y, a, filled) <==> Circle.InCircle(a, filled, Abs(c.x - x), Abs(c.y - y))
    ensures c in EllipseSet(x, y, a, b, filled) <==> Ellipse.InEllipse(a, b, filled, c.x - x, c.y - y)
    ensures c in LineSet(x, y, q.x, q.y) <==> c in Line.LineTrail(Point(x, y), q)
  {
  }

  class Lcd {
    const frameBuffer: array<int>
    var maxX: int
    var maxY: int
    var lastX: int
    var lastY: int
    var xOrigin: int
    var yOrigin: int
    var lcdOrientation: int
    var bus: seq<BusOp>
    /** Every pixel ever handed to Plot, in order. */
    ghost var trail: seq<Point>

    /** The screen size belongs to the view in force. */
    predicate Valid()
      reads this
    {
      frameBuffer.Length == CELLS && CurrentView().Valid() &&
      maxX == CurrentView().MaxX() && maxY == CurrentView().MaxY() && (maxX == 0 ==> lcdOrientation == 0)
    }

    function CurrentView(): View
      reads this
    {
      View(if maxX == 0 then UNSET else lcdOrientation, xOrigin, yOrigin)
    }

    /** The C statics at program start. */
    constructor ()
      ensures Valid() && CurrentView() == View(UNSET, 0, 0)
      ensures frameBuffer[..] == seq(CELLS, _ => 0)
      ensures fresh(frameBuffer) && bus == [] && trail == [] && lastX == lastY == 0
    {
      frameBuffer := new int[CELLS](_ => 0);
      maxX, maxY, lastX, lastY := 0, 0, 0, 0;
      xOrigin, yOrigin, lcdOrientation := 0, 0, 0;
      bus, trail := [], [];
    }

    method SetOrigin(x: int, y: int)
      modifies this`xOrigin, this`yOrigin
      ensures xOrigin == x && yOrigin == y
      ensures CurrentView() == old(CurrentView()).(xOrigin := x, yOrigin := y)
    {
      xOrigin := x;
      yOrigin := y;
    }

    method SetOrientation(orientation: int)
      requires Valid()
      modifies this`xOrigin, this`yOrigin, this`lcdOrientation, this`maxX, this`maxY
      ensures Valid() && CurrentView() == View(orientation % 4, 0, 0)
    {
      lcdOrientation := orientation % 4;
      SetOrigin(0, 0);
      match lcdOrientation {
        case 0 =>
          maxX := WIDTH;
          maxY := HEIGHT;
        case 1 =>
          maxX := HEIGHT;
          maxY := WIDTH;
        case 2 =>
          maxX := WIDTH;
          maxY := HEIGHT;
        case _ =>
          maxX := HEIGHT;
          maxY := WIDTH;
      }
    }

    /** Rewrites logical coordinates in place, step by step, into panel coordinates. */
    method OrientCoordinates(x0: int, y0: int) returns (x: int, y: int)
      requires Valid()
      ensures Point(x, y) == CurrentView().ToPanel(Point(x0, y0))
    {
      x, y := x0 + xOrigin, y0 + yOrigin;
      y := maxY - y - 1;
      match lcdOrientation {
        case 0 =>
        case 1 =>
          var tmp := maxY - y - 1;
          y := x;
          x := tmp;
        case 2 =>
          x := maxX - x - 1;
          y := maxY - y - 1;
        case _ =>
          x := maxX - x - 1;
          var tmp := y;
          y := x;
          x := tmp;
      }
    }

    method Plot(x: int, y: int, colour: int)
      requires Valid()
      modifies this`lastX, this`lastY, this`trail, frameBuffer
      ensures Valid() && lastX == x && lastY == y
      ensures frameBuffer[..] == Paint(old(frameBuffer[..]), CurrentView(), Pixel(x, y), colour)
      ensures trail == old(trail) + [Point(x, y)]
    {
      lastX, lastY := x, y;
      trail := trail + [Point(x, y)];
      PaintOne(frameBuffer[..], CurrentView(), Point(x, y), colour);
      var px, py := OrientCoordinates(x, y);
      if px < 0 || WIDTH <= px || py < 0 || HEIGHT <= py {
        return;
      }
      frameBuffer[px + py * WIDTH] := colour % 256;
    }

    /** Draws the pixels of the reference line, one by one and in order. */
    method DrawLine(x0: int, y0: int, x1: int, y1: int, colour: int)
      requires Valid()
      modifies this`lastX, this`lastY, this`trail, frameBuffer
      ensures Valid() && lastX == x1 && lastY == y1
      ensures trail == old(trail) + Line.LineTrail(Point(x0, y0), Point(x1, y1))
      ensures frameBuffer[..] == Paint(old(frameBuffer[..]), CurrentView(),
                                       LineSet(x0, y0, x1, y1), colour)
    {
      ghost var p, q := Point(x0, y0), Point(x1, y1);
      ghost var v, before := CurrentView(), frameBuffer[..];
      ghost var k := 0;
      lastX, lastY := x1, y1;
      var dx: int, dy: int := Abs(x1 - x0), Abs(y1 - y0);
      var sx := if x0 < x1 then 1 else -1;
      var sy := if y0 < y1 then 1 else -1;
      var err := dx - dy;
      var x, y := x0, y0;
      StartOfLine(before, v, p, q, colour);
      while true
        invariant Valid() && CurrentView() == v
        invariant k <= Line.Steps(p, q) && (Point(x, y), err) == Line.Turns(p, q, k)
        invariant trail == old(trail) + Line.LineTrail(p, q)[..k]
        invariant frameBuffer[..] == Paint(before, v, LinePart(p, q, k), colour)
        decreases Line.Steps(p, q) - k
      {
        LineGrows(before, v, p, q, k, Point(x, y), colour, frameBuffer[..]);
        Plot(x, y, colour);
        if x == x1 && y == y1 {
          break;
        }
        x, y, err := NextPoint(x, y, err, dx, dy, sx, sy, p, q);
        k := k + 1;
      }
    }

    /** The two sign tests on the error term. */
    static method NextPoint(x0: int, y0: int, err0: int, dx: int, dy: int, sx: int, sy: int,
                            ghost p: Point, ghost q: Point)
      returns (x: int, y: int, err: int)
      requires dx == Abs(q.x - p.x) && dy == Abs(q.y - p.y)
      requires sx == Line.Towards(p.x, q.x) && sy == Line.Towards(p.y, q.y)
      ensures (Point(x, y), err) == Line.Turn(p, q, Point(x0, y0), err0)
    {
      x, y, err := x0, y0, err0;
      var e2 := 2 * err;
      if e2 > -dy {
        err := err - dy;
        x := x + sx;
      }
      if e2 < dx {
        err := err + dx;
        y := y + sy;
      }
    }

    /** A horizontal line. */
    method DrawSpan(x0: int, x1: int, y: int, colour: int)
      requires Valid()
      modifies this`lastX, this`lastY, this`trail, frameBuffer
      ensures Valid() && lastX == x1 && lastY == y
      ensures frameBuffer[..] == Paint(old(frameBuffer[..]), CurrentView(), Span(x0, x1, y), colour)
    {
      DrawLine(x0, y, x1, y, colour);
      SpanIsLine(x0, x1, y);
    }

    method LineTo(x: int, y: int, colour: int)
      requires Valid()
      modifies this`lastX, this`lastY, this`trail, frameBuffer
      ensures Valid() && lastX == x && lastY == y
      ensures trail == old(trail) + Line.LineTrail(old(Point(lastX, lastY)), Point(x, y))
      ensures frameBuffer[..] == Paint(old(frameBuffer[..]), CurrentView(),
                                       LineSet(old(lastX), old(lastY), x, y), colour)
    {
      DrawLine(lastX, lastY, x, y, colour);
    }

    /** The four mirror images of a quadrant pixel, or the two spans between them. */
    method PlotFour(cx: int, cy: int, x: int, y: int, colour: int, filled: bool)
      requires Valid()
      modifies this`lastX, this`lastY, this`trail, frameBuffer
      ensures Valid() && lastX == cx + x && lastY == cy - y
      ensures frameBuffer[..] == Paint(old(frameBuffer[..]), CurrentView(), FourSet(cx, cy, x, y, filled), colour)
    {
      ghost var v, before := CurrentView(), frameBuffer[..];
      if filled {
        DrawSpan(cx + x, cx - x, cy + y, colour);
        DrawSpan(cx - x, cx + x, cy - y, colour);
        PaintTwice(before, v, Span(cx + x, cx - x, cy + y), Span(cx - x, cx + x, cy - y), colour);
        FourAsSpans(cx, cy, x, y);
      } else {
        PlotCorners(cx, cy, x, y, colour);
      }
    }

    method PlotCorners(cx: int, cy: int, x: int, y: int, colour: int)
      requires Valid()
      modifies this`lastX, this`lastY, this`trail, frameBuffer
      ensures Valid() && lastX == cx + x && lastY == cy - y
      ensures frameBuffer[..] == Paint(old(frameBuffer[..]), CurrentView(), FourSet(cx, cy, x, y, false), colour)
    {
      ghost var b0 := frameBuffer[..];
      Plot(cx + x, cy + y, colour);
      ghost var b1 := frameBuffer[..];
      Plot(cx - x, cy + y, colour);
      ghost var b2 := frameBuffer[..];
      Plot(cx - x, cy - y, colour);
      ghost var b3 := frameBuffer[..];
      Plot(cx + x, cy - y, colour);
      FourAsPoints(cx, cy, x, y);
      FourStrokes(b0, b1, b2, b3, frameBuffer[..], CurrentView(), Pixel(cx + x, cy + y), Pixel(cx - x, cy + y),
                  Pixel(cx - x, cy - y), Pixel(cx + x, cy - y), FourSet(cx, cy, x, y, false), colour);
    }

    /** The eight mirror images of an octant pixel, or the four spans between them. */
    method PlotEight(x: int, y: int, a: nat, b: nat, colour: int, filled: bool)
      requires Valid()
      modifies this`lastX, this`lastY, this`trail, frameBuffer
      ensures Valid() && lastX == x - b && lastY == y - a
      ensures frameBuffer[..] == Paint(old(frameBuffer[..]), CurrentView(), EightSet(x, y, a, b, filled), colour)
    {
      ghost var v, before := CurrentView(), frameBuffer[..];
      if filled {
        PlotSpans(x, y, a, b, colour);
      } else {
        PlotMirrors(x, y, a, b, colour);
        PlotMirrors(x, y, b, a, colour);
        PaintTwice(before, v, FourSet(x, y, a, b, false), FourSet(x, y, b, a, false), colour);
        EightAsFours(x, y, a, b);
      }
    }

    method PlotSpans(x: int, y: int, a: nat, b: nat, colour: int)
      requires Valid()
      modifies this`lastX, this`lastY, this`trail, frameBuffer
      ensures Valid() && lastX == x - b && lastY == y - a
      ensures frameBuffer[..] == Paint(old(frameBuffer[..]), CurrentView(), EightSet(x, y, a, b, true), colour)
    {
      ghost var b0 := frameBuffer[..];
      DrawSpan(x + a, x - a, y + b, colour);
      ghost var b1 := frameBuffer[..];
      DrawSpan(x + a, x - a, y - b, colour);
      ghost var b2 := frameBuffer[..];
      DrawSpan(x + b, x - b, y + a, colour);
      ghost var b3 := frameBuffer[..];
      DrawSpan(x + b, x - b, y - a, colour);
      EightAsSpans(x, y, a, b);
      FourStrokes(b0, b1, b2, b3, frameBuffer[..], CurrentView(), Span(x + a, x - a, y + b), Span(x + a, x - a, y - b),
                  Span(x + b, x - b, y + a), Span(x + b, x - b, y - a), EightSet(x, y, a, b, true), colour);
    }

    method PlotMirrors(x: int, y: int, a: int, b: int, colour: int)
      requires Valid()
      modifies this`lastX, this`lastY, this`trail, frameBuffer
      ensures Valid() && lastX == x - a && lastY == y - b
      ensures frameBuffer[..] == Paint(old(frameBuffer[..]), CurrentView(), FourSet(x, y, a, b, false), colour)
    {
      ghost var b0 := frameBuffer[..];
      Plot(x + a, y + b, colour);
      ghost var b1 := frameBuffer[..];
      Plot(x - a, y + b, colour);
      ghost var b2 := frameBuffer[..];
      Plot(x + a, y - b, colour);
      ghost var b3 := frameBuffer[..];
      Plot(x - a, y - b, colour);
      FourAsMirrors(x, y, a, b);
      FourStrokes(b0, b1, b2, b3, frameBuffer[..], CurrentView(), Pixel(x + a, y + b), Pixel(x - a, y + b),
                  Pixel(x + a, y - b), Pixel(x - a, y - b), FourSet(x, y, a, b, false), colour);
    }

    /** The midpoint circle algorithm draws exactly the reference circle. */
    method DrawCircle(x: int, y: int, r: int, colour: int, filled: bool)
      requires Valid()
      modifies this`lastX, this`lastY, this`trail, frameBuffer
      ensures Valid()
      ensures frameBuffer[..] == Paint(old(frameBuffer[..]), CurrentView(), CircleSet(x, y, r, filled), colour)
      ensures r < 0 ==> lastX == x - r && lastY == y
      ensures 0 <= r ==> Circle.Walking(r, y - lastY, x - lastX) && x - lastX <= y - lastY
    {
      ghost var v, before := CurrentView(), frameBuffer[..];
      var ddFx, ddFy := 1, -2 * r;
      var f := 1 - r;
      PlotAxes(x, y, r, colour, filled);
      if r < 0 {
        assert CircleSet(x, y, r, filled) == AxisSet(x, y, r, filled);
        return;
      }
      StartOfCircle(x, y, r, filled);
      Circle.WalkStart(r);
      WalkOctants(x, y, r, f, ddFx, ddFy, colour, filled, before);
    }

    /** The loop of the circle algorithm, entered with the axis pixels drawn. */
    method WalkOctants(x: int, y: int, r: nat, f0: int, ddFx0: int, ddFy0: int,
                       colour: int, filled: bool, ghost before: seq<int>)
      requires Valid() && |before| == CELLS
      requires Circle.WalkState(r, 0, r, f0, ddFx0, ddFy0)
      requires frameBuffer[..] == Paint(before, CurrentView(), CirclePart(x, y, r, filled, 0), colour)
      requires lastX == x - r && lastY == y
      modifies this`lastX, this`lastY, this`trail, frameBuffer
      ensures Valid()
      ensures frameBuffer[..] == Paint(before, CurrentView(), CircleSet(x, y, r, filled), colour)
      ensures Circle.Walking(r, y - lastY, x - lastX) && x - lastX <= y - lastY
    {
      ghost var v := CurrentView();
      var f, ddFx, ddFy := f0, ddFx0, ddFy0;
      var x1, y1 := 0, r as int;
      while x1 < y1
        invariant Valid() && CurrentView() == v
        invariant Circle.WalkState(r, x1, y1, f, ddFx, ddFy)
        invariant frameBuffer[..] == Paint(before, v, CirclePart(x, y, r, filled, x1), colour)
        invariant lastX == x - y1 && lastY == y - x1
      {
        Circle.WalkTurn(r, x1, y1, f, ddFx, ddFy);
        if f >= 0 {
          y1 := y1 - 1;
          ddFy := ddFy + 2;
          f := f + ddFy;
        }
        x1 := x1 + 1;
        ddFx := ddFx + 2;
        f := f + ddFx;
        PlotEight(x, y, x1, y1, colour, filled);
        CircleGrows(before, v, x, y, r, filled, x1, y1, colour);
      }
      CircleIsDone(x, y, r, filled, x1, y1);
    }

    method PlotAxes(x: int, y: int, r: int, colour: int, filled: bool)
      requires Valid()
      modifies this`lastX, this`lastY, this`trail, frameBuffer
      ensures Valid() && lastX == x - r && lastY == y
      ensures frameBuffer[..] == Paint(old(frameBuffer[..]), CurrentView(), AxisSet(x, y, r, filled), colour)
    {
      ghost var v, before := CurrentView(), frameBuffer[..];
      if filled {
        DrawLine(x, y + r, x, y - r, colour);
        ColumnIsLine(x, y + r, y - r);
        DrawSpan(x + r, x - r, y, colour);
        PaintTwice(before, v, Column(x, y + r, y - r), Span(x + r, x - r, y), colour);
        AxesAsLines(x, y, r);
      } else {
        PlotAxisPoints(x, y, r, colour);
      }
    }

    method PlotAxisPoints(x: int, y: int, r: int, colour: int)
      requires Valid()
      modifies this`lastX, this`lastY, this`trail, frameBuffer
      ensures Valid() && lastX == x - r && lastY == y
      ensures frameBuffer[..] == Paint(old(frameBuffer[..]), CurrentView(), AxisSet(x, y, r, false), colour)
    {
      ghost var b0 := frameBuffer[..];
      Plot(x, y + r, colour);
      ghost var b1 := frameBuffer[..];
      Plot(x, y - r, colour);
      ghost var b2 := frameBuffer[..];
      Plot(x + r, y, colour);
      ghost var b3 := frameBuffer[..];
      Plot(x - r, y, colour);
      AxesAsPoints(x, y, r);
      FourStrokes(b0, b1, b2, b3, frameBuffer[..], CurrentView(), Pixel(x, y + r), Pixel(x, y - r),
                  Pixel(x + r, y), Pixel(x - r, y), AxisSet(x, y, r, false), colour);
    }

    /**
     The two-phase ellipse algorithm draws exactly the reference ellipse, and stops for
     all radii except both zero.
     */
    method DrawEllipse(cx: int, cy: int, xRadius: int, yRadius: int, colour: int, filled: bool)
      requires Valid()
      requires xRadius != 0 || yRadius != 0
      modifies this`lastX, this`lastY, this`trail, frameBuffer
      ensures Valid()
      ensures frameBuffer[..] ==
        Paint(old(frameBuffer[..]), CurrentView(), EllipseSet(cx, cy, xRadius, yRadius, filled), colour)
      ensures Ellipse.HasSides(yRadius, xRadius) ==> Ellipse.LastCap(xRadius, yRadius, lastX - cx, cy - lastY)
      ensures !Ellipse.HasSides(yRadius, xRadius) && Ellipse.HasSides(xRadius, yRadius) ==>
        Ellipse.LastSide(xRadius, yRadius, lastX - cx, cy - lastY)
      ensures !Ellipse.HasSides(yRadius, xRadius) && !Ellipse.HasSides(xRadius, yRadius) ==>
        lastX == old(lastX) && lastY == old(lastY)
    {
      ghost var v, before := CurrentView(), frameBuffer[..];
      ghost var n := DrawSides(cx, cy, xRadius, yRadius, colour, filled);
      ghost var m := DrawCaps(cx, cy, xRadius, yRadius, colour, filled);
      ghost var sides := SidesPart(cx, cy, xRadius, yRadius, filled, n);
      ghost var caps := CapsPart(cx, cy, xRadius, yRadius, filled, m);
      PaintTwice(before, v, sides, caps, colour);
      assert EllipseSet(cx, cy, xRadius, yRadius, filled) == sides + caps;
    }

    /** First set of points: the steep part, row by row from the x axis. */
    method DrawSides(cx: int, cy: int, xRadius: int, yRadius: int, colour: int, filled: bool) returns (ghost rows: int)
      requires Valid()
      requires xRadius != 0 || yRadius != 0
      modifies this`lastX, this`lastY, this`trail, frameBuffer
      ensures Valid()
      ensures forall x, y :: Ellipse.SidePixel(xRadius, yRadius, x, y) ==> y < rows
      ensures frameBuffer[..] ==
        Paint(old(frameBuffer[..]), CurrentView(), SidesPart(cx, cy, xRadius, yRadius, filled, rows), colour)
      ensures if Ellipse.HasSides(xRadius, yRadius) then Ellipse.LastSide(xRadius, yRadius, lastX - cx, cy - lastY)
        else lastX == old(lastX) && lastY == old(lastY)
    {
      ghost var v, before := CurrentView(), frameBuffer[..];
      var twoAsquare, twoBsquare := 2 * xRadius * xRadius, 2 * yRadius * yRadius;
      var x, y := xRadius, 0;
      var xChange := yRadius * yRadius * (1 - 2 * xRadius);
      var yChange := xRadius * xRadius;
      var ellipseError := 0;
      var stoppingX, stoppingY := twoBsquare * xRadius, 0;
      StartOfEllipse(before, v, cx, cy, xRadius, yRadius, filled, colour);
      while stoppingX >= stoppingY
        invariant Valid() && CurrentView() == v && 0 <= y
        invariant Ellipse.Walk(x, y, xChange, yChange, ellipseError, stoppingX, stoppingY) ==
          Ellipse.Turns(xRadius, yRadius, y)
        invariant Ellipse.Running(xRadius, yRadius, y)
        invariant frameBuffer[..] == Paint(before, v, SidesPart(cx, cy, xRadius, yRadius, filled, y), colour)
        invariant if y == 0 then lastX == old(lastX) && lastY == old(lastY)
          else lastX == cx + Ellipse.Turns(xRadius, yRadius, y - 1).x && lastY == cy - (y - 1)
        decreases stoppingX - stoppingY
      {
        SidesGrow(before, v, cx, cy, xRadius, yRadius, filled, y, colour, frameBuffer[..]);
        PlotFour(cx, cy, x, y, colour, filled);
        x, y, xChange, yChange, ellipseError, stoppingX, stoppingY :=
          NextRow(x, y, xChange, yChange, ellipseError, stoppingX, stoppingY, twoAsquare, twoBsquare, xRadius, yRadius);
      }
      rows := y;
      Ellipse.StopIsComplete(xRadius, yRadius, y);
      Ellipse.StopIsLast(xRadius, yRadius, y);
    }

    /** Up one row, and one column inwards when that is closer; with the axes exchanged in the second loop. */
    static method NextRow(x0: int, y0: int, xChange0: int, yChange0: int, error0: int, stopX0: int, stopY0: int,
                          twoAsquare: int, twoBsquare: int, ghost a: int, ghost b: int)
      returns (x: int, y: int, xChange: int, yChange: int, error: int, stopX: int, stopY: int)
      requires twoAsquare == 2 * a * a && twoBsquare == 2 * b * b
      ensures Ellipse.Walk(x, y, xChange, yChange, error, stopX, stopY)
        == Ellipse.Turn(a, b, Ellipse.Walk(x0, y0, xChange0, yChange0, error0, stopX0, stopY0))
    {
      x, y, xChange, yChange, error, stopX, stopY := x0, y0, xChange0, yChange0, error0, stopX0, stopY0;
      y := y + 1;
      stopY := stopY + twoAsquare;
      error := error + yChange;
      yChange := yChange + twoAsquare;
      if 2 * error + xChange > 0 {
        x := x - 1;
        stopX := stopX - twoBsquare;
        error := error + xChange;
        xChange := xChange + twoBsquare;
      }
    }

    /** Second set of points: the flat part, column by column from the y axis. */
    method DrawCaps(cx: int, cy: int, xRadius: int, yRadius: int, colour: int, filled: bool)
      returns (ghost columns: int)
      requires Valid()
      requires xRadius != 0 || yRadius != 0
      modifies this`lastX, this`lastY, this`trail, frameBuffer
      ensures Valid()
      ensures forall x, y :: Ellipse.CapPixel(xRadius, yRadius, x, y) ==> x < columns
      ensures frameBuffer[..] ==
        Paint(old(frameBuffer[..]), CurrentView(), CapsPart(cx, cy, xRadius, yRadius, filled, columns), colour)
      ensures if Ellipse.HasSides(yRadius, xRadius) then Ellipse.LastCap(xRadius, yRadius, lastX - cx, cy - lastY)
        else lastX == old(lastX) && lastY == old(lastY)
    {
      ghost var v, before := CurrentView(), frameBuffer[..];
      var twoAsquare, twoBsquare := 2 * xRadius * xRadius, 2 * yRadius * yRadius;
      var x, y := 0, yRadius;
      var xChange := yRadius * yRadius;
      var yChange := xRadius * xRadius * (1 - 2 * yRadius);
      var ellipseError := 0;
      var stoppingX, stoppingY := 0, twoAsquare * yRadius;
      StartOfEllipse(before, v, cx, cy, yRadius, xRadius, filled, colour);
      while stoppingX <= stoppingY
        invariant Valid() && CurrentView() == v && 0 <= x
        invariant Ellipse.Walk(y, x, yChange, xChange, ellipseError, stoppingY, stoppingX) ==
          Ellipse.Turns(yRadius, xRadius, x)
        invariant Ellipse.Running(yRadius, xRadius, x)
        invariant frameBuffer[..] == Paint(before, v, CapsPart(cx, cy, xRadius, yRadius, filled, x), colour)
        invariant if x == 0 then lastX == old(lastX) && lastY == old(lastY)
          else lastX == cx + (x - 1) && lastY == cy - Ellipse.Turns(yRadius, xRadius, x - 1).x
        decreases stoppingY - stoppingX
      {
        CapsGrow(before, v, cx, cy, xRadius, yRadius, filled, x, colour, frameBuffer[..]);
        PlotFour(cx, cy, x, y, colour, filled);
        y, x, yChange, xChange, ellipseError, stoppingY, stoppingX :=
          NextRow(y, x, yChange, xChange, ellipseError, stoppingY, stoppingX, twoBsquare, twoAsquare, yRadius, xRadius);
      }
      columns := x;
      Ellipse.StopIsComplete(yRadius, xRadius, x);
      Ellipse.StopIsLast(yRadius, xRadius, x);
    }

    /** Sets the first maxX * maxY cells; before an orientation is chosen that is none. */
    method Clear(colour: int)
      requires Valid()
      modifies frameBuffer
      ensures Valid()
      ensures frameBuffer[..] == if CurrentView().orientation != UNSET then seq(CELLS, _ => colour % 256)
        else old(frameBuffer[..])
    {
      var n := maxX * maxY;
      for i := 0 to n
        invariant 0 <= n <= CELLS
        invariant forall k | 0 <= k < i :: frameBuffer[k] == colour % 256
        invariant forall k | i <= k < CELLS :: frameBuffer[k] == old(frameBuffer[k])
      {
        frameBuffer[i] := colour % 256;
      }
    }

    /** Sends both halves to the panel. */
    method Update()
      requires Valid()
      modifies this`bus
      ensures bus == old(bus) + UpdateOps(frameBuffer[..])
    {
      SendHalf(CS1, 63);
      SendHalf(CS2, 127);
      ConcatIsAssociative(old(bus), HalfOps(frameBuffer[..], CS1, 63, 8), HalfOps(frameBuffer[..], CS2, 127, 8));
    }

    method SendHalf(chip: Chip, right: int)
      requires Valid() && 63 <= right < 128
      modifies this`bus
      ensures bus == old(bus) + HalfOps(frameBuffer[..], chip, right, 8)
    {
      ghost var start, buffer := bus, frameBuffer[..];
      var line := 0;
      while line < 8
        invariant 0 <= line <= 8
        invariant bus == start + HalfOps(buffer, chip, right, line)
      {
        SendPage(chip, right, line);
        ConcatIsAssociative(start, HalfOps(buffer, chip, right, line), PageOps(buffer, chip, right, line));
        line := line + 1;
      }
    }

    method SendPage(chip: Chip, right: int, line: int)
      requires Valid() && 63 <= right < 128 && 0 <= line < 8
      modifies this`bus
      ensures bus == old(bus) + PageOps(frameBuffer[..], chip, right, line)
    {
      bus := bus + [SetCol(chip, 0)];
      bus := bus + [SetLine(chip, line as bv8)];
      ghost var head := bus;
      var x := right;
      while x > right - 64
        invariant right - 64 <= x <= right
        invariant bus == head + PageData(frameBuffer[..], chip, right, line, right - x)
      {
        var byte := PackColumn(x, line);
        bus := bus + [Data(chip, byte)];
        x := x - 1;
      }
    }

    /** Collects the eight cells of one column of a page into a byte. */
    method PackColumn(x: int, line: int) returns (byte: bv8)
      requires Valid() && 0 <= x < WIDTH && 0 <= line < 8
      ensures byte == ColumnByte(frameBuffer[..], x, line, 8)
      ensures forall y: nat | y < 8 :: Bit(byte, y) <==> frameBuffer[x + (63 - line * 8 - y) * 128] != 0
    {
      byte := 0;
      for y := 0 to 8
        invariant byte == ColumnByte(frameBuffer[..], x, line, y)
      {
        var fbLoc := x + (((7 - line) * 8) + (7 - y)) * WIDTH;
        if frameBuffer[fbLoc] != 0 {
          byte := byte | (1 << y);
        }
      }
      forall y: nat | y < 8 ensures Bit(byte, y) <==> frameBuffer[x + (63 - line * 8 - y) * 128] != 0 {
        ColumnBit(frameBuffer[..], x, line, 8, y);
      }
    }

    /** Display on, start line 0, clear, normal orientation, first refresh. */
    method Setup()
      requires Valid()
      modifies this, frameBuffer
      ensures Valid() && CurrentView() == View(0, 0, 0)
      ensures frameBuffer[..] == if old(CurrentView().orientation) != UNSET then seq(CELLS, _ => 0)
        else old(frameBuffer[..])
      ensures bus == old(bus) +
        [Command(CS1, 0x3F), Command(CS1, 0xC0), Command(CS2, 0x3F), Command(CS2, 0xC0)] + UpdateOps(frameBuffer[..])
    {
      bus := bus + [Command(CS1, 0x3F), Command(CS1, 0xC0), Command(CS2, 0x3F), Command(CS2, 0xC0)];
      Clear(0);
      SetOrientation(0);
      Update();
    }
  }
}
