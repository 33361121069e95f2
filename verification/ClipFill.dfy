/** The region a clipped polygon fills. Inside is decided as the canvas decides it by default, by the
    even-odd rule: a point is filled if a ray from it meets the outline an odd number of times. */
module ClipFill {
  import opened Geometry
  import opened ClipPolygon

  predicate Above(p: Point, q: Point) { p.y > q.y }

  // Where the line from a to b, which is not horizontal, has the height y.
  function CoordAt(a: Point, b: Point, y: real): real
    requires a.y != b.y
  {
    Blend(a.x, b.x, (y - a.y) / (b.y - a.y))
  }

  // The horizontal ray to the right of q meets the edge from a to b. An end at the height of q
  // counts as below it, so that a ray through a vertex meets only one of its two edges or both.
  predicate RayHits(q: Point, a: Point, b: Point) {
    Above(a, q) != Above(b, q) && CoordAt(a, b, q.y) > q.x
  }

  // The parity of the hits on the first n polygon edges, and the even-odd rule.
  predicate EdgesOdd(q: Point, pts: seq<Vertex>, n: nat)
    requires n <= |pts|
  {
    n > 0 && EdgesOdd(q, pts, n - 1) != RayHits(q, pts[Before(n - 1, |pts|)].p, pts[n - 1].p)
  }

  predicate Filled(q: Point, pts: seq<Vertex>) { EdgesOdd(q, pts, |pts|) }

  // ----- cutting an edge in two -----

  lemma HeightAt(s: real, t: real, y: real)
    requires s != t
    ensures Blend(s, t, (y - s) / (t - s)) == y
  {
    LineHit(s, t, y, 0.0, 0.0);
  }

  lemma ParamUnique(s: real, t: real, u: real, v: real)
    requires s != t && Blend(s, t, u) == Blend(s, t, v)
    ensures u == v
  {
    ProductDifference(u, v, t - s);
    if t > s { ProductSign(u - v, t - s); } else { ProductMirror(u - v, s - t, t - s); ProductSign(u - v, s - t); }
  }

  // A point of the line at the height of q is the point the ray's line meets.
  lemma CoordIs(a: Point, b: Point, y: real, u: real)
    requires a.y != b.y && Blend(a.y, b.y, u) == y
    ensures CoordAt(a, b, y) == Blend(a.x, b.x, u)
  {
    HeightAt(a.y, b.y, y);
    ParamUnique(a.y, b.y, u, (y - a.y) / (b.y - a.y));
  }

  // Two points at different heights of one line give the line's own crossing.
  lemma SameLine(a: Point, b: Point, s: real, t: real, y: real)
    requires a.y != b.y && Lerp(a, b, s).y != Lerp(a, b, t).y
    ensures CoordAt(Lerp(a, b, s), Lerp(a, b, t), y) == CoordAt(a, b, y)
  {
    var c, d := Lerp(a, b, s), Lerp(a, b, t);
    var v := (y - c.y) / (d.y - c.y);
    HeightAt(c.y, d.y, y);
    LerpLerp(a, b, s, t, v);
    CoordIs(a, b, y, Blend(s, t, v));
  }

  // Cutting an edge at one of its points keeps the parity.
  lemma RaySplit(q: Point, a: Point, b: Point, s: real)
    requires 0.0 <= s <= 1.0
    ensures RayHits(q, a, b) == (RayHits(q, a, Lerp(a, b, s)) != RayHits(q, Lerp(a, b, s), b))
  {
    var h := Lerp(a, b, s);
    BlendRange(a.y, b.y, s);
    if Above(a, q) != Above(b, q) {
      if Above(h, q) == Above(a, q) {
        SameLine(a, b, s, 1.0, q.y);
      } else {
        SameLine(a, b, 0.0, s, q.y);
      }
    }
  }

  // ----- edges on one side of a box edge -----

  // Beyond a box edge a hit depends on the ends alone: beyond the right edge on their heights, and
  // beyond the others there is none.
  predicate Label(e: Edge, p: Point, q: Point) { e == Right && Above(p, q) }

  lemma CoordRange(a: Point, b: Point, y: real)
    requires a.y != b.y && CoordBetween(y, a.y, b.y)
    ensures CoordBetween(CoordAt(a, b, y), a.x, b.x)
  {
    QuotientRange(y - a.y, b.y - a.y);
    BlendRange(a.x, b.x, (y - a.y) / (b.y - a.y));
  }

  lemma HitsBeyond(e: Edge, q: Point, a: Point, b: Point, box: Bounds)
    requires Excess(e, q, box) < 0.0 && Excess(e, a, box) >= 0.0 && Excess(e, b, box) >= 0.0
    ensures RayHits(q, a, b) == (Label(e, a, q) != Label(e, b, q))
  {
    if Above(a, q) != Above(b, q) { CoordRange(a, b, q.y); }
  }

  // The same seen from beyond the edge: the left edge now plays the right one's part.
  predicate OuterLabel(e: Edge, p: Point, q: Point) { e == Left && Above(p, q) }

  lemma HitsInside(e: Edge, q: Point, a: Point, b: Point, box: Bounds)
    requires Excess(e, q, box) > 0.0 && Excess(e, a, box) <= 0.0 && Excess(e, b, box) <= 0.0
    ensures RayHits(q, a, b) == (OuterLabel(e, a, q) != OuterLabel(e, b, q))
  {
    if Above(a, q) != Above(b, q) { CoordRange(a, b, q.y); }
  }

  // The point where a pass cuts an edge.
  lemma HitSplits(e: Edge, q: Point, a: Point, b: Point, box: Bounds)
    requires Crosses(e, a, b, box)
    ensures var h := EdgeHit(a, b, e, box, false);
            && Excess(e, h, box) == 0.0
            && RayHits(q, a, b) == (RayHits(q, a, h) != RayHits(q, h, b))
  {
    EdgeHitIsLerp(a, b, e, box);
    CrossParamRange(e, a, b, box);
    RaySplit(q, a, b, CrossParam(e, a, b, box));
  }

  // ----- a pass keeps the parity -----

  // The parity of the hits on an open path.
  predicate PathOdd(q: Point, path: seq<Vertex>) {
    |path| >= 2 && PathOdd(q, path[..|path| - 1]) != RayHits(q, path[|path| - 2].p, path[|path| - 1].p)
  }

  lemma PathPush(q: Point, path: seq<Vertex>, v: Vertex)
    requires path != []
    ensures PathOdd(q, path + [v]) == (PathOdd(q, path) != RayHits(q, path[|path| - 1].p, v.p))
  {
    assert (path + [v])[..|path|] == path;
  }

  // The way from the last polygon vertex to the first emitted one, and from the last emitted one to
  // the current polygon vertex, along the outside where there is one.
  predicate StartOdd(e: Edge, q: Point, box: Bounds, start: Vertex, first: Vertex) {
    if Outside(e, start.p, box) then Label(e, start.p, q) != Label(e, first.p, q) else RayHits(q, start.p, first.p)
  }

  predicate EndOdd(e: Edge, q: Point, box: Bounds, last: Vertex, cur: Vertex) {
    Outside(e, cur.p, box) && Label(e, last.p, q) != Label(e, cur.p, q)
  }

  // What a pass has emitted when the polygon was followed from start to cur with parity odd.
  predicate Followed(e: Edge, q: Point, box: Bounds, start: Vertex, cur: Vertex, out: seq<Vertex>, odd: bool) {
    if out == [] then
      (start == cur && !odd) || (Outside(e, start.p, box) && Outside(e, cur.p, box) &&
                                 odd == (Label(e, start.p, q) != Label(e, cur.p, q)))
    else
      var first, last := out[0], out[|out| - 1];
      && odd == ((StartOdd(e, q, box, start, first) != PathOdd(q, out)) != EndOdd(e, q, box, last, cur))
      && (if Outside(e, cur.p, box) then Excess(e, last.p, box) == 0.0 else last == cur)
      && (Outside(e, start.p, box) ==> Excess(e, first.p, box) >= 0.0)
  }

  lemma StayInside(e: Edge, q: Point, box: Bounds, start: Vertex, a: Vertex, r: Vertex, out: seq<Vertex>, odd: bool)
    requires Followed(e, q, box, start, a, out, odd) && !Outside(e, a.p, box) && !Outside(e, r.p, box)
    ensures Followed(e, q, box, start, r, out + [r], odd != RayHits(q, a.p, r.p))
  {
    if out == [] {
      assert [] + [r] == [r];
    } else {
      PathPush(q, out, r);
    }
  }

  // The cut on the way out and on the way in.
  lemma HitLeaves(e: Edge, q: Point, a: Point, r: Point, h: Point, box: Bounds)
    requires Excess(e, q, box) < 0.0 && !Outside(e, a, box) && Outside(e, r, box) && h == EdgeHit(a, r, e, box, false)
    ensures Excess(e, h, box) == 0.0
    ensures RayHits(q, a, r) == (RayHits(q, a, h) != (Label(e, h, q) != Label(e, r, q)))
  {
    HitSplits(e, q, a, r, box);
    HitsBeyond(e, q, h, r, box);
  }

  lemma HitEnters(e: Edge, q: Point, a: Point, r: Point, h: Point, box: Bounds)
    requires Excess(e, q, box) < 0.0 && Outside(e, a, box) && !Outside(e, r, box) && h == EdgeHit(a, r, e, box, false)
    ensures Excess(e, h, box) == 0.0
    ensures RayHits(q, a, r) == ((Label(e, a, q) != Label(e, h, q)) != RayHits(q, h, r))
  {
    HitSplits(e, q, a, r, box);
    HitsBeyond(e, q, a, h, box);
  }

  lemma Leave(e: Edge, q: Point, box: Bounds, start: Vertex, a: Vertex, r: Vertex, h: Vertex, out: seq<Vertex>, odd: bool)
    requires Followed(e, q, box, start, a, out, odd)
    requires !Outside(e, a.p, box) && Outside(e, r.p, box) && Excess(e, h.p, box) == 0.0
    requires RayHits(q, a.p, r.p) == (RayHits(q, a.p, h.p) != (Label(e, h.p, q) != Label(e, r.p, q)))
    ensures Followed(e, q, box, start, r, out + [h], odd != RayHits(q, a.p, r.p))
  {
    if out == [] {
      assert [] + [h] == [h];
    } else {
      PathPush(q, out, h);
    }
  }

  lemma Enter(e: Edge, q: Point, box: Bounds, start: Vertex, a: Vertex, r: Vertex, h: Vertex, out: seq<Vertex>, odd: bool)
    requires Excess(e, q, box) < 0.0 && Followed(e, q, box, start, a, out, odd)
    requires Outside(e, a.p, box) && !Outside(e, r.p, box) && Excess(e, h.p, box) == 0.0
    requires RayHits(q, a.p, r.p) == ((Label(e, a.p, q) != Label(e, h.p, q)) != RayHits(q, h.p, r.p))
    ensures Followed(e, q, box, start, r, (out + [h]) + [r], odd != RayHits(q, a.p, r.p))
  {
    PathPush(q, out + [h], r);
    if out == [] {
      assert [] + [h] == [h];
    } else {
      PathPush(q, out, h);
      HitsBeyond(e, q, out[|out| - 1].p, h.p, box);
    }
  }

  lemma StayOutside(e: Edge, q: Point, box: Bounds, start: Vertex, a: Vertex, r: Vertex, out: seq<Vertex>, odd: bool)
    requires Excess(e, q, box) < 0.0 && Followed(e, q, box, start, a, out, odd)
    requires Outside(e, a.p, box) && Outside(e, r.p, box)
    ensures Followed(e, q, box, start, r, out, odd != RayHits(q, a.p, r.p))
  {
    HitsBeyond(e, q, a.p, r.p, box);
  }

  // The vertex reached after n edges, starting from the last vertex.
  function Current(pts: seq<Vertex>, n: nat): Vertex
    requires pts != [] && n <= |pts|
  {
    if n == 0 then pts[|pts| - 1] else pts[n - 1]
  }

  // One more polygon edge.
  lemma FollowEdge(e: Edge, q: Point, box: Bounds, start: Vertex, a: Vertex, r: Vertex, out: seq<Vertex>, odd: bool)
    requires Excess(e, q, box) < 0.0 && Coded(a, box) && Coded(r, box) && Followed(e, q, box, start, a, out, odd)
    ensures Followed(e, q, box, start, r, out + Emit(a, r, e, box, false), odd != RayHits(q, a.p, r.p))
  {
    HasIsOutside(a, e, box);
    HasIsOutside(r, e, box);
    if Crosses(e, a.p, r.p, box) {
      var h := WithCode(EdgeHit(a.p, r.p, e, box, false), box);
      if Outside(e, r.p, box) {
        HitLeaves(e, q, a.p, r.p, h.p, box);
        Leave(e, q, box, start, a, r, h, out, odd);
      } else {
        HitEnters(e, q, a.p, r.p, h.p, box);
        Enter(e, q, box, start, a, r, h, out, odd);
        assert (out + [h]) + [r] == out + [h, r];
      }
    } else if Outside(e, r.p, box) {
      StayOutside(e, q, box, start, a, r, out, odd);
      assert out + [] == out;
    } else {
      StayInside(e, q, box, start, a, r, out, odd);
    }
  }

  lemma {:induction false} FollowPolygon(pts: seq<Vertex>, n: nat, e: Edge, box: Bounds, q: Point, out: seq<Vertex>, odd: bool)
    requires 0 < |pts| && n <= |pts| && AllCoded(pts, box) && Excess(e, q, box) < 0.0
    requires out == EmitUpTo(pts, n, e, box, false) && odd == EdgesOdd(q, pts, n)
    ensures Followed(e, q, box, pts[|pts| - 1], Current(pts, n), out, odd)
    decreases n
  {
    if n == 0 {
    } else {
      var before, was := EmitUpTo(pts, n - 1, e, box, false), EdgesOdd(q, pts, n - 1);
      FollowPolygon(pts, n - 1, e, box, q, before, was);
      FollowEdge(e, q, box, pts[|pts| - 1], Current(pts, n - 1), pts[n - 1], before, was);
    }
  }

  // Closing an open path.
  lemma {:induction false} EdgesArePath(q: Point, out: seq<Vertex>, n: nat)
    requires 0 < n <= |out|
    ensures EdgesOdd(q, out, n) == (RayHits(q, out[|out| - 1].p, out[0].p) != PathOdd(q, out[..n]))
  {
    if n == 1 {
    } else {
      EdgesArePath(q, out, n - 1);
      PathPush(q, out[..n - 1], out[n - 1]);
      assert out[..n] == out[..n - 1] + [out[n - 1]];
    }
  }

  lemma CloseUp(e: Edge, q: Point, box: Bounds, start: Vertex, out: seq<Vertex>, odd: bool)
    requires Excess(e, q, box) < 0.0 && Followed(e, q, box, start, start, out, odd)
    ensures Filled(q, out) == odd
  {
    if out != [] {
      EdgesArePath(q, out, |out|);
      assert out[..|out|] == out;
      if Outside(e, start.p, box) { HitsBeyond(e, q, out[|out| - 1].p, out[0].p, box); }
    }
  }

  // A pass fills a point strictly on the near side of its edge if and only if it was filled before.
  lemma PassKeepsFill(pts: seq<Vertex>, e: Edge, box: Bounds, q: Point)
    requires AllCoded(pts, box) && Excess(e, q, box) < 0.0
    ensures Filled(q, Pass(pts, e, box, false)) == Filled(q, pts)
  {
    if pts != [] {
      var out, odd := Pass(pts, e, box, false), Filled(q, pts);
      FollowPolygon(pts, |pts|, e, box, q, out, odd);
      CloseUp(e, q, box, pts[|pts| - 1], out, odd);
    }
  }

  predicate StrictlyInside(q: Point, box: Bounds) { forall e :: Excess(e, q, box) < 0.0 }

  lemma {:induction false} PassesKeepFill(pts: seq<Vertex>, k: nat, box: Bounds, q: Point)
    requires k <= 4 && AllCoded(pts, box) && StrictlyInside(q, box)
    ensures Filled(q, Passes(pts, k, box, false)) == Filled(q, pts)
  {
    if k == 0 {
    } else {
      PassesKeepFill(pts, k - 1, box, q);
      PassKeepsFill(Passes(pts, k - 1, box, false), EDGES[k - 1], box, q);
    }
  }

  // ----- nothing is filled outside -----

  lemma {:induction false} InsideOdd(pts: seq<Vertex>, n: nat, e: Edge, box: Bounds, q: Point)
    requires 0 < |pts| && n <= |pts| && Excess(e, q, box) > 0.0 && forall v <- pts :: Excess(e, v.p, box) <= 0.0
    ensures EdgesOdd(q, pts, n) ==
            (OuterLabel(e, pts[|pts| - 1].p, q) != OuterLabel(e, Current(pts, n).p, q))
  {
    if n == 0 {
    } else {
      InsideOdd(pts, n - 1, e, box, q);
      var a, r := Current(pts, n - 1), pts[n - 1];
      assert a in pts && r in pts;
      HitsInside(e, q, a.p, r.p, box);
    }
  }

  lemma NoFillBeyond(pts: seq<Vertex>, e: Edge, box: Bounds, q: Point)
    requires Excess(e, q, box) > 0.0 && forall v <- pts :: Excess(e, v.p, box) <= 0.0
    ensures !Filled(q, pts)
  {
    if pts != [] { InsideOdd(pts, |pts|, e, box, q); }
  }

  // The clipped polygon fills, off the lines of the box's border, exactly the points of the box that
  // the polygon fills. This holds for every polygon, self-intersecting or not.
  lemma ClippedFill(points: seq<Point>, box: Bounds, q: Point)
    requires forall e :: Excess(e, q, box) != 0.0
    ensures Filled(q, Clip(points, box, false)) <==> InBox(q, box) && Filled(q, Vertices(points, box))
  {
    BitCodeMeaning(q, box);
    if StrictlyInside(q, box) {
      PassesKeepFill(Vertices(points, box), 4, box, q);
    } else {
      var e :| Excess(e, q, box) >= 0.0;
      ClippedIsInside(points, box, false);
      forall v | v in Clip(points, box, false) ensures Excess(e, v.p, box) <= 0.0 { BitCodeMeaning(v.p, box); }
      NoFillBeyond(Clip(points, box, false), e, box, q);
    }
  }
}
