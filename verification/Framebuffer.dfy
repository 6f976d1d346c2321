/**
 The orientation map from logical to panel coordinates and what drawing a set of
 logical pixels does to the byte buffer behind the panel.
 */
module Framebuffer {
  import opened Geometry

  const WIDTH := 128
  const HEIGHT := 64
  const CELLS := 8192

  /** Before an orientation is chosen the screen has no size, and points map as if it had. */
  const UNSET := -1

  /** The mapping in force: a quarter-turn count and an origin. */
  datatype View = View(orientation: int, xOrigin: int, yOrigin: int) {
    predicate Valid() {
      UNSET <= orientation < 4
    }

    /** The logical screen size. */
    function MaxX(): int {
      if orientation == UNSET then 0 else if orientation % 2 == 0 then WIDTH else HEIGHT
    }

    function MaxY(): int {
      if orientation == UNSET then 0 else if orientation % 2 == 0 then HEIGHT else WIDTH
    }

    /** Where a logical point lands on the panel, whose row 0 is the bottom one. */
    function ToPanel(p: Point): Point {
      var x, y := p.x + xOrigin, p.y + yOrigin;
      if orientation == UNSET then Point(x, -1 - y) else
      match orientation
      case 0 => Point(x, HEIGHT - 1 - y)
      case 1 => Point(y, x)
      case 2 => Point(WIDTH - 1 - x, y)
      case _ => Point(WIDTH - 1 - y, HEIGHT - 1 - x)
    }

    function FromPanel(q: Point): Point {
      if orientation == UNSET then Point(q.x - xOrigin, -1 - q.y - yOrigin) else
      match orientation
      case 0 => Point(q.x - xOrigin, HEIGHT - 1 - q.y - yOrigin)
      case 1 => Point(q.y - xOrigin, q.x - yOrigin)
      case 2 => Point(WIDTH - 1 - q.x - xOrigin, q.y - yOrigin)
      case _ => Point(HEIGHT - 1 - q.y - xOrigin, WIDTH - 1 - q.x - yOrigin)
    }
  }

  predicate OnPanel(q: Point) {
    0 <= q.x < WIDTH && 0 <= q.y < HEIGHT
  }

  /** For any origin the map is one-to-one on all points. */
  lemma PanelMapIsBijection(v: View, p: Point)
    ensures v.FromPanel(v.ToPanel(p)) == p
    ensures v.ToPanel(v.FromPanel(p)) == p
  {
  }

  /** With the origin at zero the logical screen covers the panel exactly. */
  lemma ScreenCoversPanel(v: View, p: Point)
    requires 0 <= v.orientation < 4 && v.xOrigin == 0 && v.yOrigin == 0
    ensures 0 <= p.x < v.MaxX() && 0 <= p.y < v.MaxY() <==> OnPanel(v.ToPanel(p))
  {
  }

  /**
   In orientation 0 the picture stands upright: the logical origin is the top left corner, a step
   to the right goes right on the panel, and a step down goes down, where panel rows count upwards.
   */
  lemma OrientationZeroIsUpright(v: View, p: Point)
    requires v.orientation == 0
    ensures v.xOrigin == v.yOrigin == 0 ==> v.ToPanel(Point(0, 0)) == Point(0, 63)
    ensures v.ToPanel(Point(p.x + 1, p.y)) == Point(v.ToPanel(p).x + 1, v.ToPanel(p).y)
    ensures v.ToPanel(Point(p.x, p.y + 1)) == Point(v.ToPanel(p).x, v.ToPanel(p).y - 1)
  {
  }

  /** The logical origin of the other orientations, with the picture turned, is another corner of the panel. */
  lemma OriginsAreCorners(v: View)
    requires 1 <= v.orientation < 4 && v.xOrigin == v.yOrigin == 0
    ensures v.orientation == 1 ==> v.ToPanel(Point(0, 0)) == Point(0, 0)
    ensures v.orientation == 2 ==> v.ToPanel(Point(0, 0)) == Point(127, 0)
    ensures v.orientation == 3 ==> v.ToPanel(Point(0, 0)) == Point(127, 63)
  {
  }

  /** Moving the origin moves the picture: a point lands where the moved point would without an origin. */
  lemma OriginIsAdded(v: View, p: Point)
    ensures v.ToPanel(p) == View(v.orientation, 0, 0).ToPanel(Point(p.x + v.xOrigin, p.y + v.yOrigin))
  {
  }

  /** Before an orientation is chosen the picture is upright too, but its origin lies just below the panel. */
  lemma UnsetIsBelowPanel(v: View, w: View, p: Point)
    requires v.orientation == UNSET && w.orientation == 0 && v.xOrigin == w.xOrigin && v.yOrigin == w.yOrigin
    ensures v.ToPanel(p) == Point(w.ToPanel(p).x, w.ToPanel(p).y - 64)
  {
  }

  /** Going to the next orientation turns the picture by a quarter turn, without mirroring it. */
  lemma NextOrientationIsQuarterTurn(o: int, p: Point, d: Point)
    requires 0 <= o < 4
    ensures var v, w := View(o, 0, 0), View((o + 1) % 4, 0, 0);
      var q := Point(p.x + d.x, p.y + d.y);
      var before := Point(v.ToPanel(q).x - v.ToPanel(p).x, v.ToPanel(q).y - v.ToPanel(p).y);
      var after := Point(w.ToPanel(q).x - w.ToPanel(p).x, w.ToPanel(q).y - w.ToPanel(p).y);
      after == Point(-before.y, before.x)
  {
  }

  /** The logical point shown in buffer cell i. */
  function CellPoint(v: View, i: int): Point {
    v.FromPanel(Point(i % WIDTH, i / WIDTH))
  }

  function CellOf(q: Point): int {
    q.x + q.y * WIDTH
  }

  lemma CellIsPosition(q: Point, i: int)
    requires 0 <= i < CELLS
    ensures q == Point(i % WIDTH, i / WIDTH) <==> OnPanel(q) && CellOf(q) == i
  {
  }

  lemma CellOfPoint(v: View, p: Point, i: int)
    requires 0 <= i < CELLS
    ensures CellPoint(v, i) == p <==> OnPanel(v.ToPanel(p)) && CellOf(v.ToPanel(p)) == i
  {
    var q := Point(i % WIDTH, i / WIDTH);
    CellIsPosition(v.ToPanel(p), i);
    PanelMapIsBijection(v, p);
    PanelMapIsBijection(v, q);
  }

  /** The buffer after all pixels of the set have been given the colour. */
  ghost function Paint(buffer: seq<int>, v: View, pixels: iset<Point>, colour: int): (r: seq<int>)
    requires |buffer| == CELLS
    ensures |r| == CELLS
  {
    seq(CELLS, i requires 0 <= i < CELLS => if CellPoint(v, i) in pixels then colour % 256 else buffer[i])
  }

  /** Painting one pixel writes its cell, or nothing when it falls off the panel. */
  lemma PaintOne(buffer: seq<int>, v: View, p: Point, colour: int)
    requires |buffer| == CELLS
    ensures Paint(buffer, v, iset{p}, colour) ==
      if OnPanel(v.ToPanel(p)) then buffer[CellOf(v.ToPanel(p)) := colour % 256] else buffer
  {
    var after := if OnPanel(v.ToPanel(p)) then buffer[CellOf(v.ToPanel(p)) := colour % 256] else buffer;
    forall i | 0 <= i < CELLS ensures Paint(buffer, v, iset{p}, colour)[i] == after[i] {
      CellOfPoint(v, p, i);
    }
  }

  lemma PaintTwice(buffer: seq<int>, v: View, s: iset<Point>, t: iset<Point>, colour: int)
    requires |buffer| == CELLS
    ensures Paint(Paint(buffer, v, s, colour), v, t, colour) == Paint(buffer, v, s + t, colour)
  {
  }

  lemma PaintFour(buffer: seq<int>, v: View,
                  s1: iset<Point>, s2: iset<Point>, s3: iset<Point>, s4: iset<Point>, colour: int)
    requires |buffer| == CELLS
    ensures Paint(Paint(Paint(Paint(buffer, v, s1, colour), v, s2, colour), v, s3, colour), v, s4, colour)
      == Paint(buffer, v, s1 + s2 + s3 + s4, colour)
  {
    PaintTwice(buffer, v, s1, s2, colour);
    PaintTwice(buffer, v, s1 + s2, s3, colour);
    PaintTwice(buffer, v, s1 + s2 + s3, s4, colour);
  }

  lemma PaintNothing(buffer: seq<int>, v: View, colour: int)
    requires |buffer| == CELLS
    ensures Paint(buffer, v, iset{}, colour) == buffer
  {
  }

  /** One drawing call: a set of pixels and their colour. */
  datatype Stroke = Stroke(pixels: iset<Point>, colour: int)

  ghost function PaintAll(buffer: seq<int>, v: View, strokes: seq<Stroke>): (r: seq<int>)
    requires |buffer| == CELLS
    ensures |r| == CELLS
    decreases |strokes|
  {
    if strokes == [] then buffer
    else
      var n := |strokes| - 1;
      Paint(PaintAll(buffer, v, strokes[..n]), v, strokes[n].pixels, strokes[n].colour)
  }

  /** The colour a logical pixel was last given, or its first one. */
  ghost function LastColour(first: int, strokes: seq<Stroke>, p: Point): int
    decreases |strokes|
  {
    if strokes == [] then first
    else
      var n := |strokes| - 1;
      if p in strokes[n].pixels then strokes[n].colour % 256 else LastColour(first, strokes[..n], p)
  }

  /** After any sequence of strokes a visible logical pixel shows its last colour. */
  lemma {:induction false} BufferShowsLastColour(buffer: seq<int>, v: View, strokes: seq<Stroke>, p: Point)
    requires |buffer| == CELLS && OnPanel(v.ToPanel(p))
    ensures var i := CellOf(v.ToPanel(p));
      0 <= i < CELLS && PaintAll(buffer, v, strokes)[i] == LastColour(buffer[i], strokes, p)
    decreases |strokes|
  {
    CellOfPoint(v, p, CellOf(v.ToPanel(p)));
    if strokes != [] {
      BufferShowsLastColour(buffer, v, strokes[..|strokes| - 1], p);
    }
  }
}
