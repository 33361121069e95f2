/** Sutherland-Hodgman clipping of a polygon (Leaflet's PolyUtil.clipPolygon). */
module ClipPolygon {
  import opened Geometry

  // A point object with its _code property.
  datatype Vertex = Vertex(p: Point, code: OutCode)

  predicate Coded(v: Vertex, box: Bounds) { v.code == BitCode(v.p, box) }

  predicate AllCoded(pts: seq<Vertex>, box: Bounds) { forall v <- pts :: Coded(v, box) }

  predicate PointsFit(round: bool, pts: seq<Vertex>, box: Bounds) {
    round ==> IntegralBounds(box) && forall v <- pts :: IntegralPoint(v.p)
  }

  predicate Clippable(pts: seq<Vertex>, box: Bounds, round: bool) {
    AllCoded(pts, box) && PointsFit(round, pts, box)
  }

  function WithCode(p: Point, box: Bounds): Vertex { Vertex(p, BitCode(p, box)) }

  // The index before c, going round.
  function Before(c: nat, n: nat): nat
    requires c < n
  {
    if c == 0 then n - 1 else c - 1
  }

  lemma HasIsOutside(v: Vertex, e: Edge, box: Bounds)
    requires Coded(v, box)
    ensures v.code.Has(e) <==> Outside(e, v.p, box)
  {
  }

  // The vertices that one polygon edge, from a to r, contributes when clipping against box edge e.
  function Emit(a: Vertex, r: Vertex, e: Edge, box: Bounds, round: bool): (out: seq<Vertex>)
    requires Coded(a, box) && Coded(r, box)
  {
    HasIsOutside(a, e, box);
    HasIsOutside(r, e, box);
    if r.code.Has(e) then
      if a.code.Has(e) then [] else [WithCode(EdgeHit(a.p, r.p, e, box, round), box)]
    else
      if a.code.Has(e) then [WithCode(EdgeHit(a.p, r.p, e, box, round), box), r] else [r]
  }

  // What the first n polygon edges contribute.
  function EmitUpTo(pts: seq<Vertex>, n: nat, e: Edge, box: Bounds, round: bool): seq<Vertex>
    requires n <= |pts| && AllCoded(pts, box)
  {
    if n == 0 then []
    else EmitUpTo(pts, n - 1, e, box, round) + Emit(pts[Before(n - 1, |pts|)], pts[n - 1], e, box, round)
  }

  function Pass(pts: seq<Vertex>, e: Edge, box: Bounds, round: bool): seq<Vertex>
    requires AllCoded(pts, box)
  {
    EmitUpTo(pts, |pts|, e, box, round)
  }

  // An emitted vertex carries its own outcode, is not beyond e, and is beyond another edge
  // only where an end of the polygon edge already was.
  lemma {:induction false} EmitFacts(a: Vertex, r: Vertex, e: Edge, box: Bounds, round: bool, v: Vertex)
    requires Clippable([a, r], box, round)
    requires Coded(a, box) && Coded(r, box)
    requires v in Emit(a, r, e, box, round)
    ensures Coded(v, box) && !Outside(e, v.p, box)
    ensures round ==> IntegralPoint(v.p)
    ensures forall f :: Outside(f, v.p, box) ==> Outside(f, a.p, box) || Outside(f, r.p, box)
  {
    assert a in [a, r] && r in [a, r];
    HasIsOutside(a, e, box);
    HasIsOutside(r, e, box);
    if Crosses(e, a.p, r.p, box) {
      HitFacts(a.p, r.p, e, box, round, EdgeHit(a.p, r.p, e, box, round));
    }
  }

  predicate NoneOutside(pts: seq<Vertex>, e: Edge, box: Bounds) {
    forall v <- pts :: !Outside(e, v.p, box)
  }

  lemma {:induction false} EmitUpToFacts(pts: seq<Vertex>, n: nat, e: Edge, box: Bounds, round: bool)
    requires n <= |pts| && Clippable(pts, box, round)
    ensures var out := EmitUpTo(pts, n, e, box, round);
            && Clippable(out, box, round)
            && NoneOutside(out, e, box)
            && forall f :: NoneOutside(pts, f, box) ==> NoneOutside(out, f, box)
  {
    if n == 0 {
    } else {
      EmitUpToFacts(pts, n - 1, e, box, round);
      var a, r := pts[Before(n - 1, |pts|)], pts[n - 1];
      forall v | v in Emit(a, r, e, box, round)
        ensures Coded(v, box) && !Outside(e, v.p, box) && (round ==> IntegralPoint(v.p))
        ensures forall f :: NoneOutside(pts, f, box) ==> !Outside(f, v.p, box)
      {
        EmitFacts(a, r, e, box, round, v);
      }
    }
  }

  // One pass: outcodes stay correct, nothing is beyond e afterwards, and no edge that was
  // already respected is violated again.
  lemma PassFacts(pts: seq<Vertex>, e: Edge, box: Bounds, round: bool)
    requires Clippable(pts, box, round)
    ensures var out := Pass(pts, e, box, round);
            && Clippable(out, box, round)
            && NoneOutside(out, e, box)
            && forall f :: NoneOutside(pts, f, box) ==> NoneOutside(out, f, box)
  {
    EmitUpToFacts(pts, |pts|, e, box, round);
  }

  // The passes against the first k edges, in the order 1, 4, 2, 8.
  function Passes(pts: seq<Vertex>, k: nat, box: Bounds, round: bool): seq<Vertex>
    requires k <= 4 && Clippable(pts, box, round)
    ensures Clippable(Passes(pts, k, box, round), box, round)
  {
    if k == 0 then pts
    else
      PassFacts(Passes(pts, k - 1, box, round), EDGES[k - 1], box, round);
      Pass(Passes(pts, k - 1, box, round), EDGES[k - 1], box, round)
  }

  function Vertices(points: seq<Point>, box: Bounds): seq<Vertex> {
    seq(|points|, c requires 0 <= c < |points| => WithCode(points[c], box))
  }

  function Clip(points: seq<Point>, box: Bounds, round: bool): seq<Vertex>
    requires round ==> IntegralBounds(box) && forall p <- points :: IntegralPoint(p)
  {
    Passes(Vertices(points, box), 4, box, round)
  }

  lemma {:induction false} PassesRespectEdges(pts: seq<Vertex>, k: nat, box: Bounds, round: bool)
    requires k <= 4 && Clippable(pts, box, round)
    ensures forall j :: 0 <= j < k ==> NoneOutside(Passes(pts, k, box, round), EDGES[j], box)
  {
    if k == 0 {
    } else {
      PassesRespectEdges(pts, k - 1, box, round);
      PassFacts(Passes(pts, k - 1, box, round), EDGES[k - 1], box, round);
    }
  }

  // After the four passes every vertex is inside the box and its stored outcode is the recomputed one, 0.
  lemma ClippedIsInside(points: seq<Point>, box: Bounds, round: bool)
    requires round ==> IntegralBounds(box) && forall p <- points :: IntegralPoint(p)
    ensures forall v <- Clip(points, box, round) :: InBox(v.p, box) && Coded(v, box) && v.code.IsZero()
  {
    var pts := Vertices(points, box);
    PassesRespectEdges(pts, 4, box, round);
    var out := Passes(pts, 4, box, round);
    assert EDGES[0] == Left && EDGES[1] == Bottom && EDGES[2] == Right && EDGES[3] == Top;
    forall v | v in out ensures InBox(v.p, box) && Coded(v, box) && v.code.IsZero() {
      assert !Outside(Left, v.p, box) && !Outside(Bottom, v.p, box);
      assert !Outside(Right, v.p, box) && !Outside(Top, v.p, box);
      BitCodeMeaning(v.p, box);
    }
  }

  lemma {:induction false} PassKeepsInside(pts: seq<Vertex>, n: nat, e: Edge, box: Bounds, round: bool)
    requires n <= |pts| && Clippable(pts, box, round) && NoneOutside(pts, e, box)
    ensures EmitUpTo(pts, n, e, box, round) == pts[..n]
  {
    if n == 0 {
    } else {
      PassKeepsInside(pts, n - 1, e, box, round);
      HasIsOutside(pts[n - 1], e, box);
      HasIsOutside(pts[Before(n - 1, |pts|)], e, box);
      assert pts[..n] == pts[..n - 1] + [pts[n - 1]];
    }
  }

  // A polygon inside the box comes back unchanged.
  lemma {:induction false} InsideUnchanged(points: seq<Point>, k: nat, box: Bounds, round: bool)
    requires round ==> IntegralBounds(box) && forall p <- points :: IntegralPoint(p)
    requires k <= 4 && forall p <- points :: InBox(p, box)
    ensures Passes(Vertices(points, box), k, box, round) == Vertices(points, box)
  {
    var pts := Vertices(points, box);
    if k == 0 {
    } else {
      InsideUnchanged(points, k - 1, box, round);
      NoneOutsideOfBox(points, EDGES[k - 1], box);
      PassKeepsInside(pts, |pts|, EDGES[k - 1], box, round);
      assert pts[..|pts|] == pts;
    }
  }

  lemma NoneOutsideOfBox(points: seq<Point>, e: Edge, box: Bounds)
    requires forall p <- points :: InBox(p, box)
    ensures NoneOutside(Vertices(points, box), e, box)
  {
    forall v | v in Vertices(points, box) ensures !Outside(e, v.p, box) { BitCodeMeaning(v.p, box); }
  }

  lemma EmitStep(t: seq<Vertex>, c: nat, h: Edge, box: Bounds, round: bool, a: Vertex, r: Vertex)
    requires AllCoded(t, box) && c < |t| && a == t[Before(c, |t|)] && r == t[c]
    ensures Crosses(h, a.p, r.p, box) <==> r.code.Has(h) != a.code.Has(h)
    ensures var before, after := EmitUpTo(t, c, h, box, round), EmitUpTo(t, c + 1, h, box, round);
            && (r.code.Has(h) && a.code.Has(h) ==> after == before)
            && (r.code.Has(h) && !a.code.Has(h) ==>
                  after == before + [WithCode(EdgeHit(a.p, r.p, h, box, round), box)])
            && (!r.code.Has(h) && a.code.Has(h) ==>
                  after == before + [WithCode(EdgeHit(a.p, r.p, h, box, round), box)] + [r])
            && (!r.code.Has(h) && !a.code.Has(h) ==> after == before + [r])
  {
    HasIsOutside(r, h, box);
    HasIsOutside(a, h, box);
  }

  // One turn of the outer loop: the vertex list is rebuilt against one edge.
  method ClipAgainst(t: seq<Vertex>, h: Edge, box: Bounds, round: bool) returns (n: seq<Vertex>)
    requires AllCoded(t, box)
    ensures n == Pass(t, h, box, round)
  {
    n := [];
    var c, o := 0, |t| - 1;
    while c < |t|
      invariant 0 <= c <= |t| && (c < |t| ==> o == Before(c, |t|))
      invariant n == EmitUpTo(t, c, h, box, round)
    {
      var r, a := t[c], t[o];
      EmitStep(t, c, h, box, round, a, r);
      if r.code.Has(h) {
        if !a.code.Has(h) {
          n := n + [WithCode(EdgeHit(a.p, r.p, h, box, round), box)];
        }
      } else {
        if a.code.Has(h) {
          n := n + [WithCode(EdgeHit(a.p, r.p, h, box, round), box)];
        }
        n := n + [r];
      }
      c, o := c + 1, c;
    }
  }

  // The first loop: a copy of the points with their outcodes.
  method Codes(points: seq<Point>, box: Bounds) returns (out: seq<Vertex>)
    ensures out == Vertices(points, box)
  {
    out := [];
    for c := 0 to |points|
      invariant out == Vertices(points, box)[..c]
    {
      out := out + [WithCode(points[c], box)];
    }
  }

  // The second loop: the four passes.
  method ClipVertices(start: seq<Vertex>, box: Bounds, round: bool) returns (out: seq<Vertex>)
    requires Clippable(start, box, round)
    ensures out == Passes(start, 4, box, round)
  {
    out := start;
    for s := 0 to 4
      invariant out == Passes(start, s, box, round)
    {
      out := ClipAgainst(out, EDGES[s], box, round);
    }
  }

  lemma ClipFacts(points: seq<Point>, box: Bounds, round: bool)
    requires round ==> IntegralBounds(box) && forall p <- points :: IntegralPoint(p)
    ensures forall v <- Clip(points, box, round) :: InBox(v.p, box) && Coded(v, box)
    ensures (forall p <- points :: InBox(p, box)) ==> Clip(points, box, round) == Vertices(points, box)
  {
    ClippedIsInside(points, box, round);
    if forall p <- points :: InBox(p, box) { InsideUnchanged(points, 4, box, round); }
  }

  // The clipper itself: the outcodes first, then four passes over the current vertex list.
  method ClipPolygon(points: seq<Point>, box: Bounds, round: bool) returns (out: seq<Vertex>)
    requires round ==> IntegralBounds(box) && forall p <- points :: IntegralPoint(p)
    ensures out == Clip(points, box, round)
    ensures forall v <- out :: InBox(v.p, box) && Coded(v, box)
    ensures (forall p <- points :: InBox(p, box)) ==> out == Vertices(points, box)
  {
    out := Codes(points, box);
    out := ClipVertices(out, box, round);
    ClipFacts(points, box, round);
  }

  // Clipping is one pass against each edge, by the bits 1, 4, 2 and 8.
  lemma {:induction false} ClipIsFourPasses(points: seq<Point>, box: Bounds, round: bool)
    requires round ==> IntegralBounds(box) && forall p <- points :: IntegralPoint(p)
    ensures var pts := Vertices(points, box);
            && Clippable(pts, box, round)
            && var left := Pass(pts, Left, box, round);
            && Clippable(left, box, round)
            && var bottom := Pass(left, Bottom, box, round);
            && Clippable(bottom, box, round)
            && var right := Pass(bottom, Right, box, round);
            && Clippable(right, box, round)
            && Clip(points, box, round) == Pass(right, Top, box, round)
  {
    var pts := Vertices(points, box);
    PassFacts(pts, Left, box, round);
    var left := Pass(pts, Left, box, round);
    PassFacts(left, Bottom, box, round);
    var bottom := Pass(left, Bottom, box, round);
    PassFacts(bottom, Right, box, round);
    assert Passes(pts, 1, box, round) == left;
    assert Passes(pts, 2, box, round) == bottom;
    assert Passes(pts, 3, box, round) == Pass(bottom, Right, box, round);
  }

  // ----- the outline -----

  ghost predicate OnOutline(q: Point, pts: seq<Vertex>) {
    exists c :: 0 <= c < |pts| && OnSegment(q, pts[Before(c, |pts|)].p, pts[c].p)
  }

  lemma {:induction false} EmitUpToPrefix(pts: seq<Vertex>, m: nat, n: nat, e: Edge, box: Bounds)
    requires m <= n <= |pts| && AllCoded(pts, box)
    ensures EmitUpTo(pts, m, e, box, false) <= EmitUpTo(pts, n, e, box, false)
  {
    if m == n {
    } else {
      EmitUpToPrefix(pts, m, n - 1, e, box);
    }
  }

  // A vertex inside closes its own contribution.
  lemma EndsWithInside(pts: seq<Vertex>, n: nat, e: Edge, box: Bounds)
    requires 0 < n <= |pts| && AllCoded(pts, box) && !Outside(e, pts[n - 1].p, box)
    ensures var out := EmitUpTo(pts, n, e, box, false); out != [] && out[|out| - 1] == pts[n - 1]
  {
    HasIsOutside(pts[n - 1], e, box);
  }

  // Contribution c stands right after the contributions before it.
  lemma ContributionAt(pts: seq<Vertex>, c: nat, e: Edge, box: Bounds, p: seq<Vertex>, x: seq<Vertex>, out: seq<Vertex>)
    requires c < |pts| && AllCoded(pts, box)
    requires EmitUpTo(pts, c + 1, e, box, false) == p + x
    requires out == Pass(pts, e, box, false)
    ensures |p| + |x| <= |out|
    ensures forall j :: 0 <= j < |x| ==> out[|p| + j] == x[j]
  {
    EmitUpToPrefix(pts, c + 1, |pts|, e, box);
  }

  // If the vertex before c is inside, it stands right before contribution c in the output, going round.
  lemma {:induction false} PrecededByInside(pts: seq<Vertex>, c: nat, e: Edge, box: Bounds, k: nat, out: seq<Vertex>)
    requires c < |pts| && AllCoded(pts, box)
    requires !Outside(e, pts[Before(c, |pts|)].p, box)
    requires k == |EmitUpTo(pts, c, e, box, false)| && k < |out| && out == Pass(pts, e, box, false)
    ensures out[Before(k, |out|)] == pts[Before(c, |pts|)]
  {
    EndsWithInside(pts, Before(c, |pts|) + 1, e, box);
    if c > 0 { EmitUpToPrefix(pts, c, |pts|, e, box); }
  }

  // The contribution of one polygon edge, by the sides its ends are on.
  lemma EmitCases(a: Vertex, r: Vertex, e: Edge, box: Bounds, x: seq<Vertex>)
    requires Coded(a, box) && Coded(r, box) && x == Emit(a, r, e, box, false)
    ensures Outside(e, a.p, box) && Outside(e, r.p, box) ==> x == []
    ensures !Outside(e, a.p, box) && !Outside(e, r.p, box) ==> x == [r]
    ensures !Outside(e, a.p, box) && Outside(e, r.p, box) ==> |x| == 1 && x[0].p == EdgeHit(a.p, r.p, e, box, false)
    ensures Outside(e, a.p, box) && !Outside(e, r.p, box) ==>
              |x| == 2 && x[0].p == EdgeHit(a.p, r.p, e, box, false) && x[1] == r
  {
  }

  // The points of a polygon edge that are not beyond e, in terms of its contribution.
  lemma EmitCovers(a: Vertex, r: Vertex, e: Edge, box: Bounds, x: seq<Vertex>, q: Point)
    requires Coded(a, box) && Coded(r, box) && x == Emit(a, r, e, box, false)
    requires OnSegment(q, a.p, r.p) && !Outside(e, q, box)
    ensures !Outside(e, a.p, box) ==> |x| >= 1 && OnSegment(q, a.p, x[0].p)
    ensures Outside(e, a.p, box) ==> |x| == 2 && OnSegment(q, x[0].p, x[1].p)
  {
    EmitCases(a, r, e, box, x);
    HalfPlaneConvex(e, q, a.p, r.p, box);
    if !Outside(e, a.p, box) {
      if Outside(e, r.p, box) { CutKeepsInsideSecond(a.p, r.p, e, box, q); }
    } else {
      CutKeepsInside(a.p, r.p, e, box, q);
    }
  }

  // What a pass keeps: every outline point that is not beyond e stays on the outline.
  lemma {:induction false} PassKeepsOutline(pts: seq<Vertex>, e: Edge, box: Bounds, q: Point)
    requires AllCoded(pts, box) && OnOutline(q, pts) && !Outside(e, q, box)
    ensures OnOutline(q, Pass(pts, e, box, false))
  {
    var c :| 0 <= c < |pts| && OnSegment(q, pts[Before(c, |pts|)].p, pts[c].p);
    var a, r := pts[Before(c, |pts|)], pts[c];
    OutlineKeptAt(pts, c, e, box, q, EmitUpTo(pts, c, e, box, false), Emit(a, r, e, box, false), Pass(pts, e, box, false));
  }

  lemma OutlineKeptAt(pts: seq<Vertex>, c: nat, e: Edge, box: Bounds, q: Point,
                      p: seq<Vertex>, x: seq<Vertex>, out: seq<Vertex>)
    requires c < |pts| && AllCoded(pts, box)
    requires OnSegment(q, pts[Before(c, |pts|)].p, pts[c].p) && !Outside(e, q, box)
    requires p == EmitUpTo(pts, c, e, box, false)
    requires x == Emit(pts[Before(c, |pts|)], pts[c], e, box, false)
    requires out == Pass(pts, e, box, false)
    ensures OnOutline(q, out)
  {
    var a := pts[Before(c, |pts|)];
    ContributionAt(pts, c, e, box, p, x, out);
    EmitCovers(a, pts[c], e, box, x, q);
    var k := |p|;
    if !Outside(e, a.p, box) {
      PrecededByInside(pts, c, e, box, k, out);
      assert out[k + 0] == x[0];
      assert OnSegment(q, out[Before(k, |out|)].p, out[k].p);
    } else {
      assert out[k + 0] == x[0] && out[k + 1] == x[1];
      assert OnSegment(q, out[Before(k + 1, |out|)].p, out[k + 1].p);
    }
  }

  // q is on this stretch of the new outline only if it was on the old one or is on the line of e.
  ghost predicate Faithful(q: Point, x: Point, y: Point, pts: seq<Vertex>, e: Edge, box: Bounds) {
    OnSegment(q, x, y) ==> OnOutline(q, pts) || Excess(e, q, box) == 0.0
  }

  lemma LineConvex(q: Point, x: Point, y: Point, e: Edge, box: Bounds)
    requires Excess(e, x, box) == 0.0 && Excess(e, y, box) == 0.0
    ensures OnSegment(q, x, y) ==> Excess(e, q, box) == 0.0
  {
    if OnSegment(q, x, y) {
      var u :| 0.0 <= u <= 1.0 && q == Lerp(x, y, u);
      ExcessLerp(e, x, y, u, box);
      BlendRange(0.0, 0.0, u);
    }
  }

  lemma ContributionFaithful(pts: seq<Vertex>, c: nat, e: Edge, box: Bounds, q: Point, a: Vertex, r: Vertex, x: seq<Vertex>)
    requires c < |pts| && AllCoded(pts, box) && a == pts[Before(c, |pts|)] && r == pts[c]
    requires x == Emit(a, r, e, box, false)
    ensures !Outside(e, a.p, box) ==> x != [] && Faithful(q, a.p, x[0].p, pts, e, box)
    ensures Outside(e, a.p, box) && x != [] ==> Excess(e, x[0].p, box) == 0.0
    ensures !Outside(e, r.p, box) ==> x != [] && x[|x| - 1] == r
    ensures Outside(e, r.p, box) && x != [] ==> Excess(e, x[|x| - 1].p, box) == 0.0
    ensures |x| <= 2
    ensures |x| == 2 ==> Faithful(q, x[0].p, x[1].p, pts, e, box)
  {
    EmitCases(a, r, e, box, x);
    if Outside(e, a.p, box) && !Outside(e, r.p, box) {
      CutKeepsInside(a.p, r.p, e, box, q);
    } else if !Outside(e, a.p, box) && Outside(e, r.p, box) {
      CutKeepsInsideSecond(a.p, r.p, e, box, q);
    }
    if OnSegment(q, a.p, r.p) { assert OnOutline(q, pts); }
  }

  ghost predicate PairsFaithful(q: Point, out: seq<Vertex>, pts: seq<Vertex>, e: Edge, box: Bounds) {
    forall k :: 0 < k < |out| ==> Faithful(q, out[k - 1].p, out[k].p, pts, e, box)
  }

  // The state after n contributions: how the list so far begins and ends.
  ghost predicate PartialOutline(q: Point, out: seq<Vertex>, pts: seq<Vertex>, n: nat, e: Edge, box: Bounds)
    requires 0 < n <= |pts|
  {
    var z := pts[|pts| - 1];
    && PairsFaithful(q, out, pts, e, box)
    && (!Outside(e, pts[n - 1].p, box) ==> out != [] && out[|out| - 1] == pts[n - 1])
    && (Outside(e, pts[n - 1].p, box) && out != [] ==> Excess(e, out[|out| - 1].p, box) == 0.0)
    && (!Outside(e, z.p, box) ==> out != [] && Faithful(q, z.p, out[0].p, pts, e, box))
    && (Outside(e, z.p, box) && out != [] ==> Excess(e, out[0].p, box) == 0.0)
  }

  lemma {:induction false} PartialOutlineHolds(pts: seq<Vertex>, n: nat, e: Edge, box: Bounds, q: Point)
    requires 0 < n <= |pts| && AllCoded(pts, box)
    ensures PartialOutline(q, EmitUpTo(pts, n, e, box, false), pts, n, e, box)
  {
    var a, r := pts[Before(n - 1, |pts|)], pts[n - 1];
    var x := Emit(a, r, e, box, false);
    ContributionFaithful(pts, n - 1, e, box, q, a, r, x);
    if n == 1 {
      assert EmitUpTo(pts, 1, e, box, false) == [] + x == x;
    } else {
      PartialOutlineHolds(pts, n - 1, e, box, q);
      ExtendOutline(q, EmitUpTo(pts, n - 1, e, box, false), x, pts, n, e, box);
    }
  }

  lemma ExtendOutline(q: Point, p: seq<Vertex>, x: seq<Vertex>, pts: seq<Vertex>, n: nat, e: Edge, box: Bounds)
    requires 1 < n <= |pts| && PartialOutline(q, p, pts, n - 1, e, box)
    requires !Outside(e, pts[n - 2].p, box) ==> x != [] && Faithful(q, pts[n - 2].p, x[0].p, pts, e, box)
    requires Outside(e, pts[n - 2].p, box) && x != [] ==> Excess(e, x[0].p, box) == 0.0
    requires !Outside(e, pts[n - 1].p, box) ==> x != [] && x[|x| - 1] == pts[n - 1]
    requires Outside(e, pts[n - 1].p, box) && x != [] ==> Excess(e, x[|x| - 1].p, box) == 0.0
    requires |x| <= 2 && (|x| == 2 ==> Faithful(q, x[0].p, x[1].p, pts, e, box))
    ensures PartialOutline(q, p + x, pts, n, e, box)
  {
    var out := p + x;
    if p != [] && x != [] && Outside(e, pts[n - 2].p, box) {
      LineConvex(q, p[|p| - 1].p, x[0].p, e, box);
    }
    forall k | 0 < k < |out|
      ensures Faithful(q, out[k - 1].p, out[k].p, pts, e, box)
    {
      if k < |p| {
        assert out[k - 1] == p[k - 1] && out[k] == p[k];
      } else if k == |p| {
        assert out[k - 1] == p[|p| - 1] && out[k] == x[0];
      } else {
        assert out[k - 1] == x[0] && out[k] == x[1];
      }
    }
  }

  // What a pass adds: new outline points lie on the line of the clipping edge.
  lemma {:induction false} PassAddsOnlyLine(pts: seq<Vertex>, e: Edge, box: Bounds, q: Point)
    requires AllCoded(pts, box) && OnOutline(q, Pass(pts, e, box, false))
    ensures OnOutline(q, pts) || Excess(e, q, box) == 0.0
  {
    var out := Pass(pts, e, box, false);
    var k :| 0 <= k < |out| && OnSegment(q, out[Before(k, |out|)].p, out[k].p);
    PartialOutlineHolds(pts, |pts|, e, box, q);
    ClosingPair(q, out, pts, e, box, k);
  }

  lemma ClosingPair(q: Point, out: seq<Vertex>, pts: seq<Vertex>, e: Edge, box: Bounds, k: nat)
    requires pts != [] && PartialOutline(q, out, pts, |pts|, e, box)
    requires k < |out| && OnSegment(q, out[Before(k, |out|)].p, out[k].p)
    ensures OnOutline(q, pts) || Excess(e, q, box) == 0.0
  {
  }

  lemma {:induction false} PassesOutline(pts: seq<Vertex>, k: nat, box: Bounds, q: Point)
    requires k <= 4 && AllCoded(pts, box)
    ensures OnOutline(q, pts) && InBox(q, box) ==> OnOutline(q, Passes(pts, k, box, false))
    ensures OnOutline(q, Passes(pts, k, box, false)) ==> OnOutline(q, pts) || exists e :: Excess(e, q, box) == 0.0
  {
    if k == 0 {
    } else {
      PassesOutline(pts, k - 1, box, q);
      var before := Passes(pts, k - 1, box, false);
      BitCodeMeaning(q, box);
      if OnOutline(q, before) && InBox(q, box) { PassKeepsOutline(before, EDGES[k - 1], box, q); }
      if OnOutline(q, Pass(before, EDGES[k - 1], box, false)) { PassAddsOnlyLine(before, EDGES[k - 1], box, q); }
    }
  }

  // The clipped outline shows the whole visible outline, stays in the box, and whatever else it
  // contains runs along the box's own border.
  lemma ClippedOutline(points: seq<Point>, box: Bounds, q: Point)
    ensures var before, after := Vertices(points, box), Clip(points, box, false);
            && (OnOutline(q, before) && InBox(q, box) ==> OnOutline(q, after))
            && (OnOutline(q, after) ==> InBox(q, box))
            && (OnOutline(q, after) ==> OnOutline(q, before) || exists e :: Excess(e, q, box) == 0.0)
  {
    var after := Clip(points, box, false);
    PassesOutline(Vertices(points, box), 4, box, q);
    ClippedIsInside(points, box, false);
    if OnOutline(q, after) {
      var c :| 0 <= c < |after| && OnSegment(q, after[Before(c, |after|)].p, after[c].p);
      assert after[c] in after && after[Before(c, |after|)] in after;
      BoxConvex(q, after[Before(c, |after|)].p, after[c].p, box);
    }
  }
}
