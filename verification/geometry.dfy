/** Geometry of the Spikes game: the triangle a spike derives from its anchor,
    the vertical-overlap test used while laying spikes out, and the
    circle-versus-triangle test used to decide that the ball hit a spike.
    Numbers are mathematical reals; the game relies on no rounding. */
module SpikeGeometry {

  const CanvasWidth: real := 500.0
  const CanvasHeight: real := 500.0
  const SpikeWidth: real := 20.0
  const SpikeHeight: real := 30.0

  datatype Point = Point(x: real, y: real)

  /** A spike: the anchor it was created at and its three vertices, in the
      order the game constructs (and later tests) them. Width and height are
      the constants SpikeWidth and SpikeHeight for every spike. */
  datatype Spike = Spike(x: real, y: real, v1: Point, v2: Point, v3: Point)

  function Abs(r: real): real { if r < 0.0 then -r else r }

  /** The spike constructor: a triangle whose base lies on a vertical line and
      whose apex points towards the middle of the canvas. An anchor left of the
      midline keeps its own x for the base, but the apex is placed at
      x = SpikeWidth (not anchor + SpikeWidth); any other anchor is ignored
      horizontally and the base is the right edge of the canvas. */
  function MakeSpike(x: real, y: real): (s: Spike)
    ensures s.x == x && s.y == y
    ensures s.v1.x == s.v3.x && s.v1.y == y && s.v3.y == y + SpikeHeight
    ensures s.v2.y == (s.v1.y + s.v3.y) / 2.0
    ensures x < CanvasWidth / 2.0 ==> s.v1.x == x && s.v2.x == SpikeWidth
    ensures x >= CanvasWidth / 2.0 ==> s.v1.x == CanvasWidth && s.v1.x - s.v2.x == SpikeWidth
  {
    if x < CanvasWidth / 2.0 then
      Spike(x, y, Point(x, y), Point(SpikeWidth, y + SpikeHeight / 2.0), Point(x, y + SpikeHeight))
    else
      Spike(x, y, Point(CanvasWidth, y), Point(CanvasWidth - SpikeWidth, y + SpikeHeight / 2.0),
            Point(CanvasWidth, y + SpikeHeight))
  }

  // ---------------------------------------------------------------------
  // Overlap of a candidate spike position with the spikes already placed
  // ---------------------------------------------------------------------

  /** The per-spike comparison of the overlap scan: the existing spike's top
      lies strictly inside the candidate, or the candidate's top lies strictly
      inside the existing spike. All comparisons are strict. */
  predicate Clashes(s: Spike, y: real)
  {
    (s.y < y && s.y + SpikeHeight > y) || (s.y < y + SpikeHeight && s.y > y)
  }

  /** The overlap scan over the spikes placed so far. */
  predicate OverlapsAny(spikes: seq<Spike>, y: real)
  {
    exists i :: 0 <= i < |spikes| && Clashes(spikes[i], y)
  }

  /** Since every spike is SpikeHeight tall, a candidate is rejected exactly
      when some placed spike is strictly closer than SpikeHeight but not at the
      very same height; nothing is rejected when no spike is placed. */
  lemma OverlapsIffNear(spikes: seq<Spike>, y: real)
    ensures OverlapsAny(spikes, y) <==>
              exists i :: 0 <= i < |spikes| && 0.0 < Abs(spikes[i].y - y) < SpikeHeight
    ensures spikes == [] ==> !OverlapsAny(spikes, y)
  {
  }

  /** A candidate at exactly the height of a placed spike is not rejected. */
  lemma SameHeightNotRejected(x: real, y: real)
    ensures !OverlapsAny([MakeSpike(x, y)], y)
  {
  }

  // ---------------------------------------------------------------------
  // Circle against triangle
  // ---------------------------------------------------------------------

  /** The squared length of (cx, cy) minus the squared radius. */
  function SquareGap(cx: real, cy: real, r: real): real
  {
    cx * cx + cy * cy - r * r
  }

  /** A vertex lies within the circle of radius r about (px, py), compared on
      squared distances. */
  predicate VertexWithin(v: Point, px: real, py: real, r: real)
  {
    SquareGap(px - v.x, py - v.y, r) <= 0.0
  }

  predicate VertexHit(s: Spike, px: real, py: real, r: real)
  {
    VertexWithin(s.v1, px, py, r) || VertexWithin(s.v2, px, py, r) || VertexWithin(s.v3, px, py, r)
  }

  /** The cross-product term of the sign test for edge (ex, ey) and the
      vector (cx, cy) from the edge's first vertex to the centre. */
  function Cross(ex: real, ey: real, cx: real, cy: real): real
  {
    ey * cx - ex * cy
  }

  /** The three edge cross-products of the "centre inside triangle" test: edge
      k (from vertex k to the next) crossed with the vector from vertex k to
      the centre, in the game's sign convention. */
  function EdgeCrosses(s: Spike, px: real, py: real): (real, real, real)
  {
    var e1x, e1y := s.v2.x - s.v1.x, s.v2.y - s.v1.y;
    var e2x, e2y := s.v3.x - s.v2.x, s.v3.y - s.v2.y;
    var e3x, e3y := s.v1.x - s.v3.x, s.v1.y - s.v3.y;
    (Cross(e1x, e1y, px - s.v1.x, py - s.v1.y),
     Cross(e2x, e2y, px - s.v2.x, py - s.v2.y),
     Cross(e3x, e3y, px - s.v3.x, py - s.v3.y))
  }

  predicate SignTestFires(s: Spike, px: real, py: real)
  {
    var t := EdgeCrosses(s, px, py);
    t.0 >= 0.0 && t.1 >= 0.0 && t.2 >= 0.0
  }

  /** The whole per-spike test: a vertex within the circle, or all three
      cross-products non-negative. */
  predicate HitsSpike(s: Spike, px: real, py: real, r: real)
  {
    VertexHit(s, px, py, r) || SignTestFires(s, px, py)
  }

  /** The collision scan over every spike on screen. */
  predicate CollidesAny(spikes: seq<Spike>, px: real, py: real, r: real)
  {
    exists i :: 0 <= i < |spikes| && HitsSpike(spikes[i], px, py, r)
  }

  /** (px, py) = v1 + b (v2 - v1) + c (v3 - v1) with b, c >= 0 and b + c <= 1:
      the point lies in the closed triangle, whatever its winding. */
  predicate OnTriangle(s: Spike, b: real, c: real, px: real, py: real)
  {
    0.0 <= b && 0.0 <= c && b + c <= 1.0 &&
    px == s.v1.x + b * (s.v2.x - s.v1.x) + c * (s.v3.x - s.v1.x) &&
    py == s.v1.y + b * (s.v2.y - s.v1.y) + c * (s.v3.y - s.v1.y)
  }

  /** Independent definition of "the centre is inside the spike". */
  ghost predicate InTriangle(s: Spike, px: real, py: real)
  {
    exists b, c :: OnTriangle(s, b, c, px, py)
  }

  /** For a left spike the three cross-products always add up to
      30 * (x - SpikeWidth), whatever the centre: -600 for the anchor x = 0. */
  lemma LeftCrossSum(x: real, y: real, px: real, py: real)
    requires x < CanvasWidth / 2.0
    ensures var t := EdgeCrosses(MakeSpike(x, y), px, py);
            t.0 + t.1 + t.2 == SpikeHeight * (x - SpikeWidth)
  {
  }

  /** For a right spike the three cross-products always add up to +600. */
  lemma RightCrossSum(x: real, y: real, px: real, py: real)
    requires x >= CanvasWidth / 2.0
    ensures var t := EdgeCrosses(MakeSpike(x, y), px, py);
            t.0 + t.1 + t.2 == SpikeWidth * SpikeHeight
  {
  }

  /** The sign test can never fire for a spike anchored left of x = SpikeWidth
      (in particular the anchor x = 0 the game uses): the winding of a left
      spike makes the three products sum to a negative constant. */
  lemma LeftSignTestNeverFires(x: real, y: real, px: real, py: real)
    requires x < SpikeWidth
    ensures !SignTestFires(MakeSpike(x, y), px, py)
  {
  }

  /** For a right spike the sign test is exactly "the centre lies in the
      closed triangle". */
  lemma RightSignTestIsInside(x: real, y: real, px: real, py: real)
    requires x >= CanvasWidth / 2.0
    ensures SignTestFires(MakeSpike(x, y), px, py) <==> InTriangle(MakeSpike(x, y), px, py)
  {
    var s := MakeSpike(x, y);
    var t := EdgeCrosses(s, px, py);
    assert t.0 == 15.0 * (px - 500.0) + 20.0 * (py - y);
    assert t.1 == 15.0 * (px - 480.0) - 20.0 * (py - y - 15.0);
    assert t.2 == -30.0 * (px - 500.0);
    if SignTestFires(s, px, py) {
      var b, c := t.2 / 600.0, t.0 / 600.0;
      assert OnTriangle(s, b, c, px, py);
    }
    if InTriangle(s, px, py) {
      var b, c :| OnTriangle(s, b, c, px, py);
      assert px == 500.0 - 20.0 * b;
      assert py - y == 15.0 * b + 30.0 * c;
    }
  }

  lemma SquareAbove(z: real, m: real)
    requires 0.0 < m < Abs(z)
    ensures z * z > m * m
  {
  }

  lemma SquareNonNegative(z: real)
    ensures z * z >= 0.0
  {
  }

  /** A vertex whose offsets from the centre are bounded by mx and my, with
      mx^2 + my^2 <= r^2, lies within the circle. */
  lemma WithinByBounds(v: Point, px: real, py: real, r: real, mx: real, my: real)
    requires 0.0 <= mx && 0.0 <= my && mx * mx + my * my <= r * r
    requires Abs(px - v.x) <= mx && Abs(py - v.y) <= my
    ensures VertexWithin(v, px, py, r)
  {
  }

  /** A vertex more than r away horizontally lies outside the circle. */
  lemma OutsideByWidth(v: Point, px: real, py: real, r: real)
    requires 0.0 < r < Abs(px - v.x)
    ensures !VertexWithin(v, px, py, r)
  {
    var cx, cy := px - v.x, py - v.y;
    SquareAbove(cx, r);
    SquareNonNegative(cy);
    assert SquareGap(cx, cy, r) > 0.0;
  }

  /** For the spikes the game places, a point of the triangle with parameters
      b and c sits 20 b away from the base and 15 b + 30 c below v1. */
  lemma TriangleOffsets(x: real, y: real, b: real, c: real, px: real, py: real)
    requires x == 0.0 || x >= CanvasWidth / 2.0
    requires OnTriangle(MakeSpike(x, y), b, c, px, py)
    ensures Abs(px - MakeSpike(x, y).v1.x) == 20.0 * b
    ensures Abs(px - MakeSpike(x, y).v2.x) == 20.0 * (1.0 - b)
    ensures py - y == 15.0 * b + 30.0 * c
  {
  }

  /** Every point of the triangle of a spike anchored at x = 0 or at the right
      side lies within distance 20 of one of its vertices (the circumradius is
      15.625), so a ball of radius 20 whose centre is inside a spike is caught
      by the vertex test alone, even where the sign test cannot fire. */
  lemma CentreInsideCaught(x: real, y: real, px: real, py: real)
    requires x == 0.0 || x >= CanvasWidth / 2.0
    requires InTriangle(MakeSpike(x, y), px, py)
    ensures VertexHit(MakeSpike(x, y), px, py, 20.0)
  {
    var s := MakeSpike(x, y);
    var b, c :| OnTriangle(s, b, c, px, py);
    TriangleOffsets(x, y, b, c, px, py);
    if b >= 0.5 {
      // the apex: at most 10 across and 7.5 up or down
      WithinByBounds(s.v2, px, py, 20.0, 10.0, 7.5);
    } else if 2.0 * c <= 1.0 - b {
      // the top vertex: at most 10 across and 15 down
      WithinByBounds(s.v1, px, py, 20.0, 10.0, 15.0);
    } else {
      // the bottom vertex: at most 10 across and 15 up
      WithinByBounds(s.v3, px, py, 20.0, 10.0, 15.0);
    }
  }

  /** Lifted to the collision scan: a ball of radius 20 whose centre lies in
      any spike anchored at 0 or on the right is reported as colliding. */
  lemma CollidesWhenCentreInside(spikes: seq<Spike>, i: int, px: real, py: real)
    requires 0 <= i < |spikes|
    requires spikes[i] == MakeSpike(spikes[i].x, spikes[i].y)
    requires spikes[i].x == 0.0 || spikes[i].x >= CanvasWidth / 2.0
    requires InTriangle(spikes[i], px, py)
    ensures CollidesAny(spikes, px, py, 20.0)
  {
    CentreInsideCaught(spikes[i].x, spikes[i].y, px, py);
    assert HitsSpike(spikes[i], px, py, 20.0);
  }

  /** With no spikes on screen nothing collides. */
  lemma NoSpikesNoCollision(px: real, py: real, r: real)
    ensures !CollidesAny([], px, py, r)
  {
  }

  /** A left spike anchored at (0, 100) has vertices (0,100), (20,115),
      (0,130): a ball of radius 20 at (5, 115) hits it, one at (250, 250)
      does not. */
  lemma CollisionExamples()
    ensures CollidesAny([MakeSpike(0.0, 100.0)], 5.0, 115.0, 20.0)
    ensures !CollidesAny([MakeSpike(0.0, 100.0)], 250.0, 250.0, 20.0)
  {
    var s := MakeSpike(0.0, 100.0);
    assert VertexWithin(s.v2, 5.0, 115.0, 20.0);
    assert [s][0] == s && HitsSpike([s][0], 5.0, 115.0, 20.0);
    LeftSignTestNeverFires(0.0, 100.0, 250.0, 250.0);
  }
}
