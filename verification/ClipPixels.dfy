/** Clipping on whole pixels, as the map does it: every intersection is rounded to its pixel. What
    the exact clipper does is then true up to half a pixel for each rounding. */
module ClipPixels {
  import opened Geometry
  import opened ClipSegment
  import opened ClipPolygon
  import opened ClipFill

  // r is the pixel in which p lies.
  predicate IsPixelOf(r: Point, p: Point) {
    && IntegralPoint(r)
    && r.x - 0.5 <= p.x < r.x + 0.5
    && r.y - 0.5 <= p.y < r.y + 0.5
  }

  // Neither coordinate differs by more than d.
  predicate Near(p: Point, q: Point, d: real) { -d <= p.x - q.x <= d && -d <= p.y - q.y <= d }

  lemma RoundIsNearest(v: real)
    ensures Integral(Round(v)) && Round(v) - 0.5 <= v < Round(v) + 0.5
  {
  }

  // A rounded intersection is the pixel of the point where the segment meets the edge's line.
  lemma {:induction false} HitIsPixel(a: Point, b: Point, e: Edge, box: Bounds) returns (u: real)
    requires Crosses(e, a, b, box)
    ensures 0.0 <= u <= 1.0 && Excess(e, Lerp(a, b, u), box) == 0.0
    ensures IsPixelOf(EdgeHit(a, b, e, box, true), Lerp(a, b, u))
  {
    u := CrossParam(e, a, b, box);
    EdgeHitIsLerp(a, b, e, box);
    CrossParamRange(e, a, b, box);
    RoundIsNearest(Lerp(a, b, u).x);
    RoundIsNearest(Lerp(a, b, u).y);
  }

  lemma IsItsPixel(p: Point)
    requires IntegralPoint(p)
    ensures IsPixelOf(p, p)
  {
  }

  // x is y with every vertex moved to its pixel.
  predicate Pixels(x: seq<Vertex>, y: seq<Vertex>) {
    |x| == |y| && forall k :: 0 <= k < |x| ==> IsPixelOf(x[k].p, y[k].p)
  }

  lemma EmitIsPixels(a: Vertex, r: Vertex, e: Edge, box: Bounds)
    requires Coded(a, box) && Coded(r, box) && IntegralPoint(r.p)
    ensures Pixels(Emit(a, r, e, box, true), Emit(a, r, e, box, false))
  {
    HasIsOutside(a, e, box);
    HasIsOutside(r, e, box);
    IsItsPixel(r.p);
    if Crosses(e, a.p, r.p, box) {
      var u := HitIsPixel(a.p, r.p, e, box);
      EdgeHitIsLerp(a.p, r.p, e, box);
      RoundIsNearest(EdgeHit(a.p, r.p, e, box, false).x);
      RoundIsNearest(EdgeHit(a.p, r.p, e, box, false).y);
    }
  }

  lemma PixelsAppend(x: seq<Vertex>, y: seq<Vertex>, v: seq<Vertex>, w: seq<Vertex>)
    requires Pixels(x, y) && Pixels(v, w)
    ensures Pixels(x + v, y + w)
  {
  }

  lemma {:induction false} EmitUpToIsPixels(pts: seq<Vertex>, n: nat, e: Edge, box: Bounds)
    requires n <= |pts| && Clippable(pts, box, true)
    ensures Pixels(EmitUpTo(pts, n, e, box, true), EmitUpTo(pts, n, e, box, false))
  {
    if n == 0 {
    } else {
      var a, r := pts[Before(n - 1, |pts|)], pts[n - 1];
      EmitUpToIsPixels(pts, n - 1, e, box);
      EmitIsPixels(a, r, e, box);
      PixelsAppend(EmitUpTo(pts, n - 1, e, box, true), EmitUpTo(pts, n - 1, e, box, false),
                   Emit(a, r, e, box, true), Emit(a, r, e, box, false));
    }
  }

  // A rounded pass is the exact pass with every vertex moved to its pixel.
  lemma PassIsPixels(pts: seq<Vertex>, e: Edge, box: Bounds)
    requires Clippable(pts, box, true)
    ensures Pixels(Pass(pts, e, box, true), Pass(pts, e, box, false))
  {
    EmitUpToIsPixels(pts, |pts|, e, box);
  }

  // v is the vertex before c kept as it is, or the pixel where the polygon edge before c meets the line of e.
  ghost predicate KeptOrPixel(v: Vertex, pts: seq<Vertex>, c: nat, u: real, e: Edge, box: Bounds)
    requires c < |pts|
  {
    var a, r := pts[Before(c, |pts|)].p, pts[c].p;
    || (v == pts[c] && !Outside(e, r, box))
    || (Crosses(e, a, r, box) && 0.0 <= u <= 1.0 && Excess(e, Lerp(a, r, u), box) == 0.0 && IsPixelOf(v.p, Lerp(a, r, u)))
  }

  lemma VertexOfEmit(pts: seq<Vertex>, c: nat, e: Edge, box: Bounds, k: nat) returns (u: real)
    requires c < |pts| && Clippable(pts, box, true) && k < |Emit(pts[Before(c, |pts|)], pts[c], e, box, true)|
    ensures KeptOrPixel(Emit(pts[Before(c, |pts|)], pts[c], e, box, true)[k], pts, c, u, e, box)
  {
    u := 0.0;
    var a, r := pts[Before(c, |pts|)], pts[c];
    HasIsOutside(a, e, box);
    HasIsOutside(r, e, box);
    if Crosses(e, a.p, r.p, box) { u := HitIsPixel(a.p, r.p, e, box); }
  }

  // Each vertex of a rounded pass was kept, or is the pixel of the cut between two neighbours.
  lemma {:induction false} VertexOfPass(pts: seq<Vertex>, n: nat, e: Edge, box: Bounds, k: nat) returns (c: nat, u: real)
    requires n <= |pts| && Clippable(pts, box, true) && k < |EmitUpTo(pts, n, e, box, true)|
    ensures c < n && KeptOrPixel(EmitUpTo(pts, n, e, box, true)[k], pts, c, u, e, box)
    decreases n
  {
    var m := |EmitUpTo(pts, n - 1, e, box, true)|;
    if k < m {
      c, u := VertexOfPass(pts, n - 1, e, box, k);
    } else {
      c := n - 1;
      u := VertexOfEmit(pts, c, e, box, k - m);
    }
  }

  // ----- nearness -----

  lemma BlendDifference(s: real, t: real, v: real, w: real, u: real)
    ensures Blend(s, t, u) - Blend(v, w, u) == Blend(s - v, t - w, u)
  {
    assert u * ((t - w) - (s - v)) == u * (t - s) - u * (w - v);
  }

  lemma BlendNear(s: real, t: real, v: real, w: real, u: real, d: real)
    requires 0.0 <= u <= 1.0 && -d <= s - v <= d && -d <= t - w <= d
    ensures -d <= Blend(s, t, u) - Blend(v, w, u) <= d
  {
    BlendDifference(s, t, v, w, u);
    BlendRange(s - v, t - w, u);
  }

  // Segments with near ends are near, parameter for parameter.
  lemma LerpNear(a: Point, b: Point, c: Point, e: Point, u: real, d: real)
    requires 0.0 <= u <= 1.0 && Near(a, c, d) && Near(b, e, d)
    ensures Near(Lerp(a, b, u), Lerp(c, e, u), d)
  {
    BlendNear(a.x, b.x, c.x, e.x, u, d);
    BlendNear(a.y, b.y, c.y, e.y, u, d);
  }

  lemma SegmentNear(q: Point, a: Point, b: Point, c: Point, e: Point, d: real) returns (p: Point)
    requires OnSegment(q, a, b) && Near(a, c, d) && Near(b, e, d)
    ensures OnSegment(p, c, e) && Near(q, p, d)
  {
    var u :| 0.0 <= u <= 1.0 && q == Lerp(a, b, u);
    p := Lerp(c, e, u);
    LerpNear(a, b, c, e, u, d);
  }

  predicate AllNear(x: seq<Vertex>, y: seq<Vertex>, d: real) {
    |x| == |y| && forall k :: 0 <= k < |x| ==> Near(x[k].p, y[k].p, d)
  }

  lemma OutlineNear(q: Point, x: seq<Vertex>, y: seq<Vertex>, d: real) returns (p: Point)
    requires AllNear(x, y, d) && OnOutline(q, x)
    ensures OnOutline(p, y) && Near(q, p, d)
  {
    var c :| 0 <= c < |x| && OnSegment(q, x[Before(c, |x|)].p, x[c].p);
    p := SegmentNear(q, x[Before(c, |x|)].p, x[c].p, y[Before(c, |y|)].p, y[c].p, d);
  }

  lemma PassNear(pts: seq<Vertex>, e: Edge, box: Bounds)
    requires Clippable(pts, box, true)
    ensures AllNear(Pass(pts, e, box, true), Pass(pts, e, box, false), 0.5)
    ensures AllNear(Pass(pts, e, box, false), Pass(pts, e, box, true), 0.5)
  {
    PassIsPixels(pts, e, box);
  }

  // ----- the rounded outline -----

  // At least d on the near side of all four lines.
  ghost predicate Deep(q: Point, box: Bounds, d: real) { forall e :: Excess(e, q, box) <= -d }

  ghost predicate OnSomeLine(q: Point, box: Bounds) { exists e :: Excess(e, q, box) == 0.0 }

  function Half(k: nat): real { 0.5 * k as real }

  // Visible outline deeper than the roundings so far can reach is still there, that much displaced.
  lemma {:induction false} PassesKeepNear(pts: seq<Vertex>, k: nat, box: Bounds, q: Point) returns (p: Point)
    requires k <= 4 && Clippable(pts, box, true) && OnOutline(q, pts) && Deep(q, box, Half(k) - 0.5)
    ensures OnOutline(p, Passes(pts, k, box, true)) && Near(q, p, Half(k))
    decreases k
  {
    if k == 0 {
      p := q;
    } else {
      var before, e := Passes(pts, k - 1, box, true), EDGES[k - 1];
      var r := PassesKeepNear(pts, k - 1, box, q);
      assert Excess(e, q, box) <= -Half(k - 1);
      PassKeepsOutline(before, e, box, r);
      PassNear(before, e, box);
      p := OutlineNear(r, Pass(before, e, box, false), Pass(before, e, box, true), 0.5);
    }
  }

  // What is there comes from the outline or from the lines of the border, that much displaced.
  lemma {:induction false} PassesAddNear(pts: seq<Vertex>, k: nat, box: Bounds, q: Point) returns (p: Point)
    requires k <= 4 && Clippable(pts, box, true) && OnOutline(q, Passes(pts, k, box, true))
    ensures Near(q, p, Half(k)) && (OnOutline(p, pts) || OnSomeLine(p, box))
    decreases k
  {
    if k == 0 {
      p := q;
    } else {
      var before, e := Passes(pts, k - 1, box, true), EDGES[k - 1];
      PassNear(before, e, box);
      var r := OutlineNear(q, Pass(before, e, box, true), Pass(before, e, box, false), 0.5);
      PassAddsOnlyLine(before, e, box, r);
      if OnOutline(r, before) {
        p := PassesAddNear(pts, k - 1, box, r);
      } else {
        p := r;
      }
    }
  }

  ghost predicate NearOutline(q: Point, pts: seq<Vertex>, d: real) {
    exists p :: OnOutline(p, pts) && Near(q, p, d)
  }

  // The clipped outline on whole pixels: all of it is in the box; every point of it is within two
  // pixels of the outline or of a border line; and every point of the outline that is at least
  // one and a half pixels inside has a point of the clipped outline within two pixels.
  lemma RoundedOutline(points: seq<Point>, box: Bounds, q: Point)
    requires IntegralBounds(box) && forall p <- points :: IntegralPoint(p)
    ensures var before, after := Vertices(points, box), Clip(points, box, true);
            && (OnOutline(q, after) ==> InBox(q, box))
            && (OnOutline(q, after) ==> NearOutline(q, before, 2.0) || exists p :: OnSomeLine(p, box) && Near(q, p, 2.0))
            && (OnOutline(q, before) && Deep(q, box, 1.5) ==> NearOutline(q, after, 2.0))
  {
    var pts, after := Vertices(points, box), Clip(points, box, true);
    if OnOutline(q, after) {
      OutlineInBox(points, box, q);
      var p := PassesAddNear(pts, 4, box, q);
    }
    if OnOutline(q, pts) && Deep(q, box, 1.5) {
      var p := PassesKeepNear(pts, 4, box, q);
    }
  }

  lemma OutlineInBox(points: seq<Point>, box: Bounds, q: Point)
    requires IntegralBounds(box) && forall p <- points :: IntegralPoint(p)
    requires OnOutline(q, Clip(points, box, true))
    ensures InBox(q, box)
  {
    var after := Clip(points, box, true);
    ClippedIsInside(points, box, true);
    var c :| 0 <= c < |after| && OnSegment(q, after[Before(c, |after|)].p, after[c].p);
    assert after[c] in after && after[Before(c, |after|)] in after;
    BoxConvex(q, after[Before(c, |after|)].p, after[c].p, box);
  }

  // ----- the rounded fill -----

  function HitParam(a: Point, b: Point, y: real): real
    requires a.y != b.y
  {
    (y - a.y) / (b.y - a.y)
  }

  lemma RayPoint(q: Point, a: Point, b: Point)
    requires Above(a, q) != Above(b, q)
    ensures var u := HitParam(a, b, q.y); 0.0 <= u <= 1.0 && Lerp(a, b, u) == Point(CoordAt(a, b, q.y), q.y)
  {
    QuotientRange(q.y - a.y, b.y - a.y);
    HeightAt(a.y, b.y, q.y);
  }

  lemma RayHitsReverse(q: Point, a: Point, b: Point)
    ensures RayHits(q, a, b) == RayHits(q, b, a)
  {
    if Above(a, q) != Above(b, q) {
      RayPoint(q, a, b);
      var u := HitParam(a, b, q.y);
      LerpReverse(a, b, u);
      CoordIs(b, a, q.y, 1.0 - u);
    }
  }

  lemma LevelBetween(q: Point, g: Point, h: Point)
    requires g.y == q.y == h.y && CoordBetween(q.x, g.x, h.x)
    ensures OnSegment(q, g, h)
  {
    if g.x == h.x {
      EndsOnSegment(g, h);
    } else {
      var w := (q.x - g.x) / (h.x - g.x);
      QuotientRange(q.x - g.x, h.x - g.x);
      HeightAt(g.x, h.x, q.x);
      assert Blend(q.y, q.y, w) == q.y;
      assert q == Lerp(g, h, w);
    }
  }

  // A ray that meets only one of two edges from a starts between them, and so it starts near what
  // all three corners are near.
  lemma CornerNear(q: Point, a: Point, b: Point, c: Point, v: Point, w: Point, s: real, t: real, u: real, d: real)
    returns (p: Point)
    requires Above(a, q) != Above(b, q) && Above(a, q) != Above(c, q) && RayHits(q, a, b) != RayHits(q, a, c)
    requires 0.0 <= s <= 1.0 && 0.0 <= t <= 1.0 && 0.0 <= u <= 1.0
    requires Near(a, Lerp(v, w, s), d) && Near(b, Lerp(v, w, t), d) && Near(c, Lerp(v, w, u), d)
    ensures OnSegment(p, v, w) && Near(q, p, d)
  {
    var m, n := HitParam(a, b, q.y), HitParam(a, c, q.y);
    RayPoint(q, a, b);
    RayPoint(q, a, c);
    LerpNear(a, b, Lerp(v, w, s), Lerp(v, w, t), m, d);
    LerpNear(a, c, Lerp(v, w, s), Lerp(v, w, u), n, d);
    LerpLerp(v, w, s, t, m);
    LerpLerp(v, w, s, u, n);
    BlendRange(s, t, m);
    BlendRange(s, u, n);
    var g, h := Lerp(a, b, m), Lerp(a, c, n);
    LevelBetween(q, g, h);
    p := SegmentNear(q, g, h, Lerp(v, w, Blend(s, t, m)), Lerp(v, w, Blend(s, u, n)), d);
    WithinSegment(p, v, w, Blend(s, t, m), Blend(s, u, n));
  }

  lemma WithinSegment(p: Point, v: Point, w: Point, s: real, t: real)
    requires 0.0 <= s <= 1.0 && 0.0 <= t <= 1.0 && OnSegment(p, Lerp(v, w, s), Lerp(v, w, t))
    ensures OnSegment(p, v, w)
  {
    var u :| 0.0 <= u <= 1.0 && p == Lerp(Lerp(v, w, s), Lerp(v, w, t), u);
    LerpLerp(v, w, s, t, u);
    BlendRange(s, t, u);
  }

  ghost predicate NearSegment(q: Point, v: Point, w: Point, d: real) {
    exists p :: OnSegment(p, v, w) && Near(q, p, d)
  }

  // A ray meets the sides of a triangle an even number of times unless it starts in it.
  lemma TriangleEven(q: Point, a: Point, b: Point, c: Point, v: Point, w: Point, s: real, t: real, u: real, d: real)
    requires 0.0 <= s <= 1.0 && 0.0 <= t <= 1.0 && 0.0 <= u <= 1.0
    requires Near(a, Lerp(v, w, s), d) && Near(b, Lerp(v, w, t), d) && Near(c, Lerp(v, w, u), d)
    requires !NearSegment(q, v, w, d)
    ensures (RayHits(q, a, b) != RayHits(q, b, c)) == RayHits(q, c, a)
  {
    RayHitsReverse(q, a, b);
    RayHitsReverse(q, b, c);
    RayHitsReverse(q, c, a);
    if (RayHits(q, a, b) != RayHits(q, b, c)) != RayHits(q, c, a) {
      var p: Point;
      if Above(b, q) == Above(c, q) {
        p := CornerNear(q, a, b, c, v, w, s, t, u, d);
      } else if Above(a, q) == Above(c, q) {
        p := CornerNear(q, b, a, c, v, w, t, s, u, d);
      } else {
        p := CornerNear(q, c, a, b, v, w, u, s, t, d);
      }
    }
  }

  // Moving an edge from vw to xy by at most d changes its hits by those on the ways of its ends.
  lemma MovedEdge(q: Point, v: Point, w: Point, x: Point, y: Point, d: real)
    requires d >= 0.0 && Near(x, v, d) && Near(y, w, d) && !NearSegment(q, v, w, d)
    ensures (RayHits(q, v, w) != RayHits(q, x, y)) == (RayHits(q, v, x) != RayHits(q, w, y))
  {
    assert Lerp(v, w, 0.0) == v && Lerp(v, w, 1.0) == w;
    TriangleEven(q, v, w, y, v, w, 0.0, 1.0, 1.0, d);
    TriangleEven(q, v, y, x, v, w, 0.0, 1.0, 0.0, d);
    RayHitsReverse(q, v, y);
    RayHitsReverse(q, x, y);
    RayHitsReverse(q, v, x);
  }

  lemma {:induction false} MovedEdges(q: Point, x: seq<Vertex>, y: seq<Vertex>, n: nat, d: real)
    requires d >= 0.0 && AllNear(y, x, d) && !NearOutline(q, x, d) && x != [] && n <= |x|
    ensures (EdgesOdd(q, x, n) != EdgesOdd(q, y, n)) ==
            (RayHits(q, x[|x| - 1].p, y[|x| - 1].p) != RayHits(q, Current(x, n).p, Current(y, n).p))
  {
    if n == 0 {
    } else {
      MovedEdges(q, x, y, n - 1, d);
      var c, o := n - 1, Before(n - 1, |x|);
      forall p | OnSegment(p, x[o].p, x[c].p) ensures !Near(q, p, d) { assert OnOutline(p, x); }
      MovedEdge(q, x[o].p, x[c].p, y[o].p, y[c].p, d);
    }
  }

  // Moving every vertex by at most d changes the fill only within d of the outline.
  lemma MovedFill(q: Point, x: seq<Vertex>, y: seq<Vertex>, d: real)
    requires d >= 0.0 && AllNear(y, x, d) && !NearOutline(q, x, d)
    ensures Filled(q, x) == Filled(q, y)
  {
    if x != [] { MovedEdges(q, x, y, |x|, d); }
  }

  // More than d on the near side of all four lines.
  ghost predicate Deeper(q: Point, box: Bounds, d: real) { forall e :: Excess(e, q, box) < -d }

  lemma DeepIsOff(q: Point, p: Point, box: Bounds, d: real)
    requires Deeper(q, box, d) && Near(q, p, d)
    ensures !OnSomeLine(p, box)
  {
    assert Excess(Left, q, box) < -d && Excess(Right, q, box) < -d;
    assert Excess(Bottom, q, box) < -d && Excess(Top, q, box) < -d;
  }

  lemma PassFillNear(pts: seq<Vertex>, k: nat, box: Bounds, q: Point)
    requires 0 < k <= 4 && Clippable(pts, box, true) && Deeper(q, box, Half(k)) && !NearOutline(q, pts, Half(k))
    ensures !NearOutline(q, Pass(Passes(pts, k - 1, box, true), EDGES[k - 1], box, false), 0.5)
  {
    var before, e := Passes(pts, k - 1, box, true), EDGES[k - 1];
    forall r | OnOutline(r, Pass(before, e, box, false)) && Near(q, r, 0.5) ensures false {
      PassAddsOnlyLine(before, e, box, r);
      if OnOutline(r, before) {
        var p := PassesAddNear(pts, k - 1, box, r);
        assert Near(q, p, Half(k));
        DeepIsOff(q, p, box, Half(k));
      } else {
        assert OnSomeLine(r, box) && Near(q, r, Half(k));
        DeepIsOff(q, r, box, Half(k));
      }
    }
  }

  lemma {:induction false} PassesKeepFillNear(pts: seq<Vertex>, k: nat, box: Bounds, q: Point)
    requires k <= 4 && Clippable(pts, box, true) && Deeper(q, box, Half(k)) && !NearOutline(q, pts, Half(k))
    ensures Filled(q, Passes(pts, k, box, true)) == Filled(q, pts)
  {
    if k == 0 {
    } else {
      var before, e := Passes(pts, k - 1, box, true), EDGES[k - 1];
      forall p | OnOutline(p, pts) ensures !Near(q, p, Half(k - 1)) {
        assert !Near(q, p, Half(k));
      }
      PassesKeepFillNear(pts, k - 1, box, q);
      PassKeepsFill(before, e, box, q);
      PassFillNear(pts, k, box, q);
      PassNear(before, e, box);
      MovedFill(q, Pass(before, e, box, false), Pass(before, e, box, true), 0.5);
    }
  }

  // The fill on whole pixels: outside the box nothing is filled, and a point more than two pixels
  // from the border's lines and from the outline is filled if and only if the polygon fills it.
  lemma RoundedFill(points: seq<Point>, box: Bounds, q: Point)
    requires IntegralBounds(box) && forall p <- points :: IntegralPoint(p)
    requires !InBox(q, box) || (Deeper(q, box, 2.0) && !NearOutline(q, Vertices(points, box), 2.0))
    ensures Filled(q, Clip(points, box, true)) <==> InBox(q, box) && Filled(q, Vertices(points, box))
  {
    BitCodeMeaning(q, box);
    if InBox(q, box) {
      PassesKeepFillNear(Vertices(points, box), 4, box, q);
    } else {
      var e :| Outside(e, q, box);
      ClippedIsInside(points, box, true);
      forall v | v in Clip(points, box, true) ensures Excess(e, v.p, box) <= 0.0 { BitCodeMeaning(v.p, box); }
      NoFillBeyond(Clip(points, box, true), e, box, q);
    }
  }

  // ----- segments on whole pixels -----

  lemma HitNear(a: Point, b: Point, e: Edge, box: Bounds)
    requires Crosses(e, a, b, box)
    ensures Near(EdgeHit(a, b, e, box, false), EdgeHit(a, b, e, box, true), 0.5)
    ensures Near(EdgeHit(a, b, e, box, true), EdgeHit(a, b, e, box, false), 0.5)
  {
    RoundIsNearest(EdgeHit(a, b, e, box, false).x);
    RoundIsNearest(EdgeHit(a, b, e, box, false).y);
  }

  // A point of the segment from the rounded hit stems from the part that the exact cut keeps,
  lemma CutFromNear(a: Point, b: Point, e: Edge, box: Bounds, q: Point) returns (p: Point)
    requires Outside(e, a, box) && !Outside(e, b, box) && OnSegment(q, EdgeHit(a, b, e, box, true), b)
    ensures OnSegment(p, a, b) && Near(q, p, 0.5)
  {
    HitNear(a, b, e, box);
    p := SegmentNear(q, EdgeHit(a, b, e, box, true), b, EdgeHit(a, b, e, box, false), b, 0.5);
    CutKeepsInside(a, b, e, box, p);
  }

  // and the other way round.
  lemma CutKeepsNear(a: Point, b: Point, e: Edge, box: Bounds, q: Point) returns (p: Point)
    requires Outside(e, a, box) && !Outside(e, b, box) && OnSegment(q, a, b) && !Outside(e, q, box)
    ensures OnSegment(p, EdgeHit(a, b, e, box, true), b) && Near(q, p, 0.5)
  {
    HitNear(a, b, e, box);
    CutKeepsInside(a, b, e, box, q);
    p := SegmentNear(q, EdgeHit(a, b, e, box, false), b, EdgeHit(a, b, e, box, true), b, 0.5);
  }

  // The same with the outside end in second place.
  lemma HitReverse(a: Point, b: Point, e: Edge, box: Bounds)
    requires Crosses(e, a, b, box)
    ensures EdgeHit(a, b, e, box, false) == EdgeHit(b, a, e, box, false)
    ensures EdgeHit(a, b, e, box, true) == EdgeHit(b, a, e, box, true)
  {
    HitSymmetric(a, b, e, box);
  }

  lemma CutFromNearSecond(a: Point, b: Point, e: Edge, box: Bounds, q: Point) returns (p: Point)
    requires !Outside(e, a, box) && Outside(e, b, box) && OnSegment(q, a, EdgeHit(a, b, e, box, true))
    ensures OnSegment(p, a, b) && Near(q, p, 0.5)
  {
    HitReverse(a, b, e, box);
    OnSegmentReverse(q, a, EdgeHit(a, b, e, box, true));
    p := CutFromNear(b, a, e, box, q);
    OnSegmentReverse(p, a, b);
  }

  lemma CutKeepsNearSecond(a: Point, b: Point, e: Edge, box: Bounds, q: Point) returns (p: Point)
    requires !Outside(e, a, box) && Outside(e, b, box) && OnSegment(q, a, b) && !Outside(e, q, box)
    ensures OnSegment(p, a, EdgeHit(a, b, e, box, true)) && Near(q, p, 0.5)
  {
    HitReverse(a, b, e, box);
    OnSegmentReverse(q, a, b);
    p := CutKeepsNear(b, a, e, box, q);
    OnSegmentReverse(p, a, EdgeHit(a, b, e, box, true));
  }

  // n more turns at most.
  predicate TurnsLeft(t: Point, i: Point, box: Bounds, n: nat) {
    Measure(BitCode(t, box), BitCode(i, box)) <= n + 1
  }

  // Kept points stem from the segment, displaced by half a pixel for each turn.
  lemma {:induction false} KeptFromNear(t: Point, i: Point, box: Bounds, q: Point, n: nat) returns (p: Point)
    requires RoundingFits(true, t, i, box) && TurnsLeft(t, i, box, n)
    requires var c := ClipFresh(t, i, box, true); c.Part? && OnSegment(q, c.first, c.last)
    ensures OnSegment(p, t, i) && Near(q, p, Half(n))
    decreases n
  {
    var h, l := BitCode(t, box), BitCode(i, box);
    if h.IsZero() && l.IsZero() {
      p := q;
    } else if !h.IsZero() {
      CodesCross(t, i, box);
      var r := EdgeIntersection(t, i, h, box, true);
      TurnShrinks(t, i, box, true, r);
      var m := KeptFromNear(r, i, box, q, n - 1);
      p := CutFromNear(t, i, h.First(), box, m);
    } else {
      CodesCross(i, t, box);
      var r := EdgeIntersection(t, i, l, box, true);
      TurnShrinksSecond(t, i, box, true, r);
      var m := KeptFromNear(t, r, box, q, n - 1);
      p := CutFromNearSecond(t, i, l.First(), box, m);
    }
  }

  lemma DeepIsInside(q: Point, box: Bounds, d: real)
    requires d >= 0.0 && Deep(q, box, d)
    ensures InBox(q, box)
  {
    BitCodeMeaning(q, box);
  }

  lemma DeepNear(q: Point, p: Point, box: Bounds, d: real)
    requires Deep(q, box, d) && Near(q, p, 0.5)
    ensures Deep(p, box, d - 0.5)
  {
    assert Excess(Left, q, box) <= -d && Excess(Right, q, box) <= -d;
    assert Excess(Bottom, q, box) <= -d && Excess(Top, q, box) <= -d;
  }

  // Points deeper than the turns can reach are kept, displaced by half a pixel for each turn.
  lemma {:induction false} DeepIsKept(t: Point, i: Point, box: Bounds, q: Point, n: nat) returns (p: Point)
    requires RoundingFits(true, t, i, box) && TurnsLeft(t, i, box, n)
    requires n == 0 ==> InBox(t, box) && InBox(i, box)
    requires OnSegment(q, t, i) && Deep(q, box, Half(n) - 0.5)
    ensures var c := ClipFresh(t, i, box, true); c.Part? && OnSegment(p, c.first, c.last) && Near(q, p, Half(n))
    decreases n
  {
    BitCodeMeaning(t, box);
    BitCodeMeaning(i, box);
    var h, l := BitCode(t, box), BitCode(i, box);
    if h.IsZero() && l.IsZero() {
      p := q;
    } else {
      DeepIsInside(q, box, Half(n) - 0.5);
      BitCodeMeaning(q, box);
      if h.Meets(l) {
        RejectedIsOutside(t, i, box, q);
      } else if !h.IsZero() {
        CodesCross(t, i, box);
        var r := EdgeIntersection(t, i, h, box, true);
        TurnShrinks(t, i, box, true, r);
        var m := CutKeepsNear(t, i, h.First(), box, q);
        DeepNear(q, m, box, Half(n) - 0.5);
        BitCodeMeaning(r, box);
        p := DeepIsKept(r, i, box, m, n - 1);
      } else {
        CodesCross(i, t, box);
        var r := EdgeIntersection(t, i, l, box, true);
        TurnShrinksSecond(t, i, box, true, r);
        var m := CutKeepsNearSecond(t, i, l.First(), box, q);
        DeepNear(q, m, box, Half(n) - 0.5);
        BitCodeMeaning(r, box);
        p := DeepIsKept(t, r, box, m, n - 1);
      }
    }
  }

  // A segment clipped on whole pixels: what is kept is in the box and within two pixels of the
  // segment, and every point of the segment at least one and a half pixels inside has a kept point
  // within two pixels.
  lemma RoundedSegment(t: Point, i: Point, box: Bounds, q: Point)
    requires RoundingFits(true, t, i, box)
    ensures var c := ClipFresh(t, i, box, true);
            && (c.Part? && OnSegment(q, c.first, c.last) ==> InBox(q, box) && NearSegment(q, t, i, 2.0))
            && (OnSegment(q, t, i) && Deep(q, box, 1.5) ==> c.Part? && NearSegment(q, c.first, c.last, 2.0))
  {
    var c := ClipFresh(t, i, box, true);
    if c.Part? && OnSegment(q, c.first, c.last) {
      KeptIsInBox(t, i, box, true);
      BoxConvex(q, c.first, c.last, box);
      var p := KeptFromNear(t, i, box, q, 4);
    }
    if OnSegment(q, t, i) && Deep(q, box, 1.5) {
      var p := DeepIsKept(t, i, box, q, 4);
    }
  }
}
