/**
 What a Bresenham line is, independently of the incremental error term: the k-th
 point moves k pixels along the longer axis and the nearest whole number of
 pixels (halves rounded towards the start) along the shorter one.
 */
module LineGeometry {
  import opened Geometry

  /** The whole number nearest to i * minor / major, a half being rounded down. */
  function Nearest(i: nat, minor: nat, major: nat): (j: int)
    requires 0 < major
  {
    (2 * i * minor + major - 1) / (2 * major)
  }

  /** j lies within half a pixel of i * minor / major, the upper half excluded. */
  ghost predicate InBand(i: int, j: int, minor: int, major: int) {
    -major < 2 * (i * minor) - 2 * (j * major) <= major
  }

  lemma NearestIffInBand(i: nat, j: int, minor: nat, major: nat)
    requires 0 < major
    ensures InBand(i, j, minor, major) <==> j == Nearest(i, minor, major)
  {
    var n := 2 * (i * minor) + major - 1;
    var q := Nearest(i, minor, major);
    assert 2 * i * minor == 2 * (i * minor);
    assert q == n / (2 * major);
    DivisionBounds(n, 2 * major);
    assert InBand(i, q, minor, major);
    if InBand(i, j, minor, major) {
      BandIsNarrow(i, j, q, minor, major);
    }
  }

  lemma DivisionBounds(n: nat, d: nat)
    requires 0 < d
    ensures (n / d) * d <= n < (n / d) * d + d
  {
  }

  /** Multiples of a positive number keep the order, with a gap. */
  lemma MultipleGap(m: int, n: int, d: int)
    requires 0 < d && m < n
    ensures m * d + d <= n * d
  {
    assert (n - m - 1) * d >= 0;
    assert (n - m - 1) * d == n * d - m * d - d;
  }

  /** The band is one pixel wide, so it holds one whole number. */
  lemma BandIsNarrow(i: int, j: int, q: int, minor: int, major: int)
    requires 0 < major
    requires InBand(i, j, minor, major) && InBand(i, q, minor, major)
    ensures j == q
  {
    if j < q {
      MultipleGap(j, q, major);
    } else if q < j {
      MultipleGap(q, j, major);
    }
  }

  function Towards(from: int, to: int): int {
    if from < to then 1 else -1
  }

  function Steps(p: Point, q: Point): nat {
    Max(Abs(q.x - p.x), Abs(q.y - p.y))
  }

  /** The k-th point of the line from p to q. */
  function LinePoint(p: Point, q: Point, k: nat): Point
    requires k <= Steps(p, q)
  {
    var dx, dy := Abs(q.x - p.x), Abs(q.y - p.y);
    if Steps(p, q) == 0 then p
    else if dy <= dx then Offset(p, q, k, Nearest(k, dy, dx))
    else Offset(p, q, Nearest(k, dx, dy), k)
  }

  /** All points of the line from p to q, in drawing order. */
  function LineTrail(p: Point, q: Point): (trail: seq<Point>)
    ensures |trail| == Steps(p, q) + 1
  {
    seq(Steps(p, q) + 1, k requires 0 <= k <= Steps(p, q) => LinePoint(p, q, k))
  }

  /** One turn of the drawing loop on the error term, seen from the longer axis. */
  lemma MajorStep(i: nat, j: nat, minor: nat, major: nat, err: int)
    requires minor <= major && i < major
    requires InBand(i, j, minor, major)
    requires err == (j + 1) * major - (i + 1) * minor
    ensures 0 < 2 * err + minor
    ensures InBand(i + 1, if 2 * err < major then j + 1 else j, minor, major)
  {
    assert (j + 1) * major == j * major + major;
    assert (i + 1) * minor == i * minor + minor;
    if minor == major {
      if 2 * err + minor <= 0 {
        assert i * minor - j * major == (i - j) * major;
        assert 2 * ((i - j) * major) == major;
        HalfIsNoMultiple(i - j, major);
      }
    }
  }

  lemma HalfIsNoMultiple(n: int, d: int)
    requires 0 < d
    ensures 2 * (n * d) != d
  {
    if n <= 0 {
      assert n * d <= 0;
    } else {
      assert n * d >= d;
    }
  }

  /** The point i pixels towards q in x and j pixels in y. */
  function Offset(p: Point, q: Point, i: int, j: int): Point {
    Point(p.x + Towards(p.x, q.x) * i, p.y + Towards(p.y, q.y) * j)
  }

  /** The loop's error term when the point c is about to be drawn. */
  function ErrorAt(p: Point, q: Point, c: Point): int {
    (Abs(c.y - p.y) + 1) * Abs(q.x - p.x) - (Abs(c.x - p.x) + 1) * Abs(q.y - p.y)
  }

  lemma ErrorAtOffset(p: Point, q: Point, i: nat, j: nat)
    ensures ErrorAt(p, q, Offset(p, q, i, j)) == (j + 1) * Abs(q.x - p.x) - (i + 1) * Abs(q.y - p.y)
  {
    assert Abs(Towards(p.x, q.x) * i) == i;
    assert Abs(Towards(p.y, q.y) * j) == j;
  }

  /** What one turn of the loop does to the point and the error term. */
  function Turn(p: Point, q: Point, c: Point, err: int): (Point, int) {
    var dx, dy := Abs(q.x - p.x), Abs(q.y - p.y);
    var right, up := 0 < 2 * err + dy, 2 * err < dx;
    (Point(if right then c.x + Towards(p.x, q.x) else c.x, if up then c.y + Towards(p.y, q.y) else c.y),
     err - (if right then dy else 0) + (if up then dx else 0))
  }

  lemma TurnFromOffset(p: Point, q: Point, i: nat, j: nat, err: int)
    requires err == (j + 1) * Abs(q.x - p.x) - (i + 1) * Abs(q.y - p.y)
    ensures ErrorAt(p, q, Offset(p, q, i, j)) == err
    ensures var i' := if 0 < 2 * err + Abs(q.y - p.y) then i + 1 else i;
      var j' := if 2 * err < Abs(q.x - p.x) then j + 1 else j;
      var next := Offset(p, q, i', j');
      Turn(p, q, Offset(p, q, i, j), err) == (next, ErrorAt(p, q, next))
  {
    var dx, dy := Abs(q.x - p.x), Abs(q.y - p.y);
    var i' := if 0 < 2 * err + dy then i + 1 else i;
    var j' := if 2 * err < dx then j + 1 else j;
    ErrorAtOffset(p, q, i, j);
    ErrorAtOffset(p, q, i', j');
    OneMore(j + 1, dx);
    OneMore(i + 1, dy);
  }

  lemma TurnFromPoint(p: Point, q: Point, k: nat)
    requires k < Steps(p, q)
    ensures var c, next := LinePoint(p, q, k), LinePoint(p, q, k + 1);
      c != q && Turn(p, q, c, ErrorAt(p, q, c)) == (next, ErrorAt(p, q, next))
  {
    var dx: int, dy: int := Abs(q.x - p.x), Abs(q.y - p.y);
    if dy <= dx {
      var j := Nearest(k, dy, dx);
      NearestIsNatural(k, dy, dx);
      XMajorTurn(dx, dy, k, j);
      TurnFromOffset(p, q, k, j, (j + 1) * dx - (k + 1) * dy);
    } else {
      var i := Nearest(k, dx, dy);
      NearestIsNatural(k, dx, dy);
      XMajorTurn(dy, dx, k, i);
      TurnFromOffset(p, q, i, k, (k + 1) * dx - (i + 1) * dy);
    }
  }

  /** What a loop head knows: the next point to draw, and the closed form of the error term. */
  predicate LineState(p: Point, q: Point, k: nat, c: Point, err: int) {
    k <= Steps(p, q) && c == LinePoint(p, q, k) && err == ErrorAt(p, q, c)
  }

  /** The loop stops at the last point only; before it, one turn leads to the next point. */
  lemma LineTurn(p: Point, q: Point, k: nat, c: Point, err: int)
    requires LineState(p, q, k, c, err)
    ensures c == q <==> k == Steps(p, q)
    ensures c != q ==> LineState(p, q, k + 1, Turn(p, q, c, err).0, Turn(p, q, c, err).1)
  {
    if k < Steps(p, q) { TurnFromPoint(p, q, k); } else { TrailEnds(p, q); }
  }

  /** Point and error term at head k of the loop. */
  function Turns(p: Point, q: Point, k: nat): (Point, int) {
    if k == 0 then (p, Abs(q.x - p.x) - Abs(q.y - p.y))
    else Turn(p, q, Turns(p, q, k - 1).0, Turns(p, q, k - 1).1)
  }

  /** At every head up to the last point the loop is on the line, with its error term in closed form. */
  lemma {:induction false} TurnsFollowLine(p: Point, q: Point, k: nat)
    requires k <= Steps(p, q)
    ensures LineState(p, q, k, Turns(p, q, k).0, Turns(p, q, k).1)
    ensures Turns(p, q, k).0 == q <==> k == Steps(p, q)
  {
    if k == 0 {
      TrailEnds(p, q);
    } else {
      TurnsFollowLine(p, q, k - 1);
      LineTurn(p, q, k - 1, Turns(p, q, k - 1).0, Turns(p, q, k - 1).1);
    }
    LineTurn(p, q, k, Turns(p, q, k).0, Turns(p, q, k).1);
  }

  lemma BandBoundsError(i: int, j: int, minor: nat, major: nat)
    requires minor <= major && InBand(i, j, minor, major)
    ensures 0 - major <= 2 * ((j + 1) * major - (i + 1) * minor) <= 3 * major
  {
    OneMore(j, major);
    OneMore(i, minor);
  }

  /** No doubled error term is larger than three times the longer axis, so short lines fit 32 bits. */
  lemma ErrorIsSmall(p: Point, q: Point, k: nat)
    requires k <= Steps(p, q)
    ensures Abs(2 * ErrorAt(p, q, LinePoint(p, q, k))) <= 3 * Steps(p, q)
    ensures Steps(p, q) <= 715827882 ==> Abs(2 * ErrorAt(p, q, LinePoint(p, q, k))) < 0x8000_0000
  {
    var dx: int, dy: int := Abs(q.x - p.x), Abs(q.y - p.y);
    if Steps(p, q) == 0 {
    } else if dy <= dx {
      var j := Nearest(k, dy, dx);
      NearestIsNatural(k, dy, dx);
      NearestIffInBand(k, j, dy, dx);
      ErrorAtOffset(p, q, k, j);
      BandBoundsError(k, j, dy, dx);
    } else {
      var i := Nearest(k, dx, dy);
      NearestIsNatural(k, dx, dy);
      NearestIffInBand(k, i, dx, dy);
      ErrorAtOffset(p, q, i, k);
      BandBoundsError(k, i, dx, dy);
    }
  }

  lemma XMajorTurn(major: nat, minor: nat, k: nat, j: nat)
    requires minor <= major && k < major && j == Nearest(k, minor, major)
    ensures var err := (j + 1) * major - (k + 1) * minor;
      0 < 2 * err + minor &&
      Nearest(k + 1, minor, major) == if 2 * err < major then j + 1 else j
  {
    var err := (j + 1) * major - (k + 1) * minor;
    NearestIffInBand(k, j, minor, major);
    MajorStep(k, j, minor, major, err);
    NearestIffInBand(k + 1, if 2 * err < major then j + 1 else j, minor, major);
  }

  lemma OneMore(n: int, d: int)
    ensures (n + 1) * d == n * d + d
  {
  }

  lemma NearestEnds(minor: nat, major: nat)
    requires 0 < major
    ensures Nearest(0, minor, major) == 0
    ensures Nearest(major, minor, major) == minor
  {
    NearestIffInBand(0, 0, minor, major);
    assert major * minor == minor * major;
    NearestIffInBand(major, minor, minor, major);
  }

  /** The trail starts at the first end point and stops at the second. */
  lemma TrailEnds(p: Point, q: Point)
    ensures LineTrail(p, q)[0] == p
    ensures LineTrail(p, q)[Steps(p, q)] == q
  {
    var dx, dy := Abs(q.x - p.x), Abs(q.y - p.y);
    if Steps(p, q) == 0 {
      assert p == q;
    } else if dy <= dx {
      NearestEnds(dy, dx);
    } else {
      NearestEnds(dx, dy);
    }
  }

  lemma NearestStep(i: nat, minor: nat, major: nat)
    requires minor <= major && 0 < major
    ensures 0 <= Nearest(i + 1, minor, major) - Nearest(i, minor, major) <= 1
  {
    var j := Nearest(i, minor, major);
    var n := Nearest(i + 1, minor, major);
    NearestIffInBand(i, j, minor, major);
    NearestIffInBand(i + 1, n, minor, major);
    assert (i + 1) * minor == i * minor + minor;
    assert (j + 1) * major == j * major + major;
    if n < j {
      MultipleGap(n, j, major);
    } else if j + 1 < n {
      MultipleGap(j + 1, n, major);
    }
  }

  /** Consecutive points differ by at most one in each axis, and by one in the longer one. */
  lemma TrailIsConnected(p: Point, q: Point, k: nat)
    requires k < Steps(p, q)
    ensures var a, b := LineTrail(p, q)[k], LineTrail(p, q)[k + 1];
      Abs(b.x - a.x) <= 1 && Abs(b.y - a.y) <= 1 &&
      (if Abs(q.y - p.y) <= Abs(q.x - p.x)
       then b.x - a.x == Towards(p.x, q.x)
       else b.y - a.y == Towards(p.y, q.y))
  {
    var dx, dy := Abs(q.x - p.x), Abs(q.y - p.y);
    if dy <= dx {
      NearestStep(k, dy, dx);
    } else {
      NearestStep(k, dx, dy);
    }
  }

  /** Twice the area spanned by the line and the point: zero exactly on the ideal line. */
  function Cross(p: Point, q: Point, c: Point): int {
    (c.y - p.y) * (q.x - p.x) - (c.x - p.x) * (q.y - p.y)
  }

  lemma CrossOnXMajor(p: Point, q: Point, k: nat, j: int)
    ensures var dx, dy := Abs(q.x - p.x), Abs(q.y - p.y);
      var c := Point(p.x + Towards(p.x, q.x) * k, p.y + Towards(p.y, q.y) * j);
      Abs(Cross(p, q, c)) == Abs(k * dy - j * dx)
  {
    var sx, sy := Towards(p.x, q.x), Towards(p.y, q.y);
    var dx, dy := Abs(q.x - p.x), Abs(q.y - p.y);
    assert q.x - p.x == sx * dx && q.y - p.y == sy * dy;
    var c := Point(p.x + sx * k, p.y + sy * j);
    assert Cross(p, q, c) == (sy * j) * (sx * dx) - (sx * k) * (sy * dy);
    if sx == sy {
      assert (sy * j) * (sx * dx) == j * dx && (sx * k) * (sy * dy) == k * dy;
    } else {
      assert (sy * j) * (sx * dx) == -(j * dx) && (sx * k) * (sy * dy) == -(k * dy);
    }
  }

  /**
   Half-pixel accuracy: along the shorter axis every drawn point is at most half a
   pixel from the ideal line (the cross product is that distance times the length
   of the longer axis).
   */
  lemma TrailIsAccurate(p: Point, q: Point, k: nat)
    requires k <= Steps(p, q)
    ensures 2 * Abs(Cross(p, q, LineTrail(p, q)[k])) <= Steps(p, q)
  {
    var dx, dy := Abs(q.x - p.x), Abs(q.y - p.y);
    if Steps(p, q) == 0 {
    } else if dy <= dx {
      var j := Nearest(k, dy, dx);
      NearestIffInBand(k, j, dy, dx);
      CrossOnXMajor(p, q, k, j);
    } else {
      var i := Nearest(k, dx, dy);
      NearestIffInBand(k, i, dx, dy);
      NearestIsNatural(k, dx, dy);
      CrossOnXMajor(p, q, i, k);
    }
  }

  lemma NearestIsNatural(i: nat, minor: nat, major: nat)
    requires 0 < major
    ensures 0 <= Nearest(i, minor, major)
  {
    assert 0 <= i * minor;
    assert 2 * i * minor == 2 * (i * minor);
  }

  /**
   Nothing is skipped: a grid point between the ends of the longer axis that is
   strictly closer than half a pixel to the ideal line is drawn.
   */
  lemma CloserThanHalfIsDrawn(p: Point, q: Point, c: Point)
    requires 2 * Abs(Cross(p, q, c)) < Steps(p, q)
    requires if Abs(q.y - p.y) <= Abs(q.x - p.x)
      then Min(p.x, q.x) <= c.x <= Max(p.x, q.x)
      else Min(p.y, q.y) <= c.y <= Max(p.y, q.y)
    ensures c in LineTrail(p, q)
  {
    var dx, dy := Abs(q.x - p.x), Abs(q.y - p.y);
    var sx, sy := Towards(p.x, q.x), Towards(p.y, q.y);
    var i, j := sx * (c.x - p.x), sy * (c.y - p.y);
    assert c == Point(p.x + sx * i, p.y + sy * j);
    if dy <= dx {
      CrossOnXMajor(p, q, i, j);
      NearestIffInBand(i, j, dy, dx);
      assert LineTrail(p, q)[i] == c;
    } else {
      CrossSwap(p, q, i, j);
      NearestIffInBand(j, i, dx, dy);
      assert LineTrail(p, q)[j] == c;
    }
  }

  lemma CrossSwap(p: Point, q: Point, i: int, j: nat)
    ensures var dx, dy := Abs(q.x - p.x), Abs(q.y - p.y);
      var c := Point(p.x + Towards(p.x, q.x) * i, p.y + Towards(p.y, q.y) * j);
      Abs(Cross(p, q, c)) == Abs(j * dx - i * dy)
  {
    CrossOnXMajor(Point(p.y, p.x), Point(q.y, q.x), j, i);
  }

  /** A horizontal line is the whole span between its ends. */
  lemma HorizontalTrail(p: Point, q: Point, c: Point)
    requires p.y == q.y
    ensures c in LineTrail(p, q) <==> c.y == p.y && Min(p.x, q.x) <= c.x <= Max(p.x, q.x)
  {
    var dx := Abs(q.x - p.x);
    forall k: nat | k <= dx ensures LineTrail(p, q)[k] == Point(p.x + Towards(p.x, q.x) * k, p.y) {
      if 0 < dx { NearestIffInBand(k, 0, 0, dx); }
    }
    if c.y == p.y && Min(p.x, q.x) <= c.x <= Max(p.x, q.x) {
      assert LineTrail(p, q)[Abs(c.x - p.x)] == c;
    }
  }

  /** A vertical line is the whole span between its ends. */
  lemma VerticalTrail(p: Point, q: Point, c: Point)
    requires p.x == q.x
    ensures c in LineTrail(p, q) <==> c.x == p.x && Min(p.y, q.y) <= c.y <= Max(p.y, q.y)
  {
    var dy := Abs(q.y - p.y);
    forall k: nat | k <= dy ensures LineTrail(p, q)[k] == Point(p.x, p.y + Towards(p.y, q.y) * k) {
      if 0 < dy { NearestIffInBand(k, 0, 0, dy); }
    }
    if c.x == p.x && Min(p.y, q.y) <= c.y <= Max(p.y, q.y) {
      assert LineTrail(p, q)[Abs(c.y - p.y)] == c;
    }
  }

  /** The row of column i in numbers: the exact quotient rounded, a half going back towards the start. */
  lemma RoundedInNumbers(i: nat, minor: nat, major: nat)
    requires 0 < major
    ensures 2 * (Nearest(i, minor, major) * major) < 2 * (i * minor) + major
    ensures 2 * (i * minor) <= 2 * (Nearest(i, minor, major) * major) + major
  {
    NearestIffInBand(i, Nearest(i, minor, major), minor, major);
  }

  /**
   A line in numbers: its k-th point is k pixels along the longer axis, and off the ideal line by
   at most half a pixel along the other.
   */
  lemma LineInNumbers(p: Point, q: Point, k: nat)
    requires k <= (if Abs(q.x - p.x) < Abs(q.y - p.y) then Abs(q.y - p.y) else Abs(q.x - p.x))
    ensures |LineTrail(p, q)| == (if Abs(q.x - p.x) < Abs(q.y - p.y) then Abs(q.y - p.y) else Abs(q.x - p.x)) + 1
    ensures var c := LineTrail(p, q)[k];
      var off := Abs((c.y - p.y) * (q.x - p.x) - (c.x - p.x) * (q.y - p.y));
      if Abs(q.y - p.y) <= Abs(q.x - p.x)
      then c.x == (if p.x < q.x then p.x + k else p.x - k) && 2 * off <= Abs(q.x - p.x)
      else c.y == (if p.y < q.y then p.y + k else p.y - k) && 2 * off <= Abs(q.y - p.y)
  {
    TrailIsAccurate(p, q, k);
  }
}
