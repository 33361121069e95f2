/** Points, axis-parallel boxes, outcodes and edge intersections (Leaflet's LineUtil).
    Coordinates are exact reals; Math.round is kept as an explicit flag. */
module Geometry {

  datatype Point = Point(x: real, y: real)

  // Leaflet's Bounds are built by extending a box with points, so min never exceeds max.
  datatype RawBounds = RawBounds(min: Point, max: Point)
  type Bounds = b: RawBounds | b.min.x <= b.max.x && b.min.y <= b.max.y
    witness RawBounds(Point(0.0, 0.0), Point(0.0, 0.0))

  // The four bits of an outcode: 1, 2, 4 and 8 in this order.
  datatype Edge = Left | Right | Bottom | Top
  datatype OutCode = OutCode(left: bool, right: bool, bottom: bool, top: bool)
  {
    predicate Has(e: Edge) {
      match e
      case Left => left
      case Right => right
      case Bottom => bottom
      case Top => top
    }
    predicate IsZero() { !left && !right && !bottom && !top }
    predicate Meets(c: OutCode) {
      (left && c.left) || (right && c.right) || (bottom && c.bottom) || (top && c.top)
    }
    function Bits(): nat {
      (if left then 1 else 0) + (if right then 1 else 0) + (if bottom then 1 else 0) + (if top then 1 else 0)
    }
    // The bit that the edge intersection looks at first: 8, 4, 2, then 1.
    function First(): Edge
      requires !IsZero()
    {
      if top then Top else if bottom then Bottom else if right then Right else Left
    }
  }

  function Weight(e: Edge): nat {
    match e
    case Left => 1
    case Right => 2
    case Bottom => 4
    case Top => 8
  }

  // The edge taken first is the highest bit of the code.
  lemma FirstIsHighest(c: OutCode)
    requires !c.IsZero()
    ensures c.Has(c.First()) && forall e :: c.Has(e) ==> Weight(e) <= Weight(c.First())
  {
  }

  const EDGES: seq<Edge> := [Left, Bottom, Right, Top]

  function BitCode(p: Point, b: Bounds): OutCode {
    OutCode(p.x < b.min.x, !(p.x < b.min.x) && p.x > b.max.x, p.y < b.min.y, !(p.y < b.min.y) && p.y > b.max.y)
  }

  // How far p lies beyond the line of an edge; positive exactly when the edge's bit is set.
  function Excess(e: Edge, p: Point, b: Bounds): real {
    match e
    case Left => b.min.x - p.x
    case Right => p.x - b.max.x
    case Bottom => b.min.y - p.y
    case Top => p.y - b.max.y
  }

  predicate Outside(e: Edge, p: Point, b: Bounds) { Excess(e, p, b) > 0.0 }

  predicate InBox(p: Point, b: Bounds) {
    b.min.x <= p.x <= b.max.x && b.min.y <= p.y <= b.max.y
  }

  lemma BitCodeMeaning(p: Point, b: Bounds)
    ensures forall e :: BitCode(p, b).Has(e) <==> Outside(e, p, b)
    ensures BitCode(p, b).IsZero() <==> InBox(p, b)
    ensures InBox(p, b) <==> forall e :: !Outside(e, p, b)
  {
    var c := BitCode(p, b);
    assert c.Has(Left) <==> Outside(Left, p, b);
    assert c.Has(Right) <==> Outside(Right, p, b);
    assert c.Has(Bottom) <==> Outside(Bottom, p, b);
    assert c.Has(Top) <==> Outside(Top, p, b);
  }

  function Round(v: real): real { (v + 0.5).Floor as real }

  predicate Integral(v: real) { v.Floor as real == v }
  predicate IntegralPoint(p: Point) { Integral(p.x) && Integral(p.y) }
  predicate IntegralBounds(b: Bounds) { IntegralPoint(b.min) && IntegralPoint(b.max) }

  // Leaflet's Point constructor with its rounding flag.
  function MakePoint(x: real, y: real, round: bool): Point {
    if round then Point(Round(x), Round(y)) else Point(x, y)
  }

  // One end of a segment is beyond the edge, the other is not.
  predicate Crosses(e: Edge, p: Point, q: Point, b: Bounds) {
    Outside(e, p, b) != Outside(e, q, b)
  }

  // The coordinate reached from c along d after the fraction n / m of the way.
  function Along(c: real, d: real, n: real, m: real): real
    requires m != 0.0
  {
    c + d * n / m
  }

  // Where segment pq meets the line of an edge.
  function EdgeHit(p: Point, q: Point, e: Edge, b: Bounds, round: bool): Point
    requires Crosses(e, p, q, b)
  {
    match e
    case Top => MakePoint(Along(p.x, q.x - p.x, b.max.y - p.y, q.y - p.y), b.max.y, round)
    case Bottom => MakePoint(Along(p.x, q.x - p.x, b.min.y - p.y, q.y - p.y), b.min.y, round)
    case Right => MakePoint(b.max.x, Along(p.y, q.y - p.y, b.max.x - p.x, q.x - p.x), round)
    case Left => MakePoint(b.min.x, Along(p.y, q.y - p.y, b.min.x - p.x, q.x - p.x), round)
  }

  // Where segment pq meets the line of the first bit set in code.
  function EdgeIntersection(p: Point, q: Point, code: OutCode, b: Bounds, round: bool): Point
    requires !code.IsZero() && Crosses(code.First(), p, q, b)
  {
    EdgeHit(p, q, code.First(), b, round)
  }

  // ----- segments -----

  predicate CoordBetween(v: real, s: real, t: real) { s <= v <= t || t <= v <= s }

  function Blend(s: real, t: real, u: real): real { s + u * (t - s) }

  function Lerp(a: Point, b: Point, u: real): Point {
    Point(Blend(a.x, b.x, u), Blend(a.y, b.y, u))
  }

  ghost predicate OnSegment(q: Point, a: Point, b: Point) {
    exists u: real :: 0.0 <= u <= 1.0 && q == Lerp(a, b, u)
  }

  // On a polyline.
  ghost predicate OnPath(q: Point, path: seq<Point>) {
    exists k :: 0 <= k < |path| - 1 && OnSegment(q, path[k], path[k + 1])
  }

  lemma EndsOnSegment(a: Point, b: Point)
    ensures OnSegment(a, a, b) && OnSegment(b, a, b)
  {
    assert a == Lerp(a, b, 0.0);
    assert b == Lerp(a, b, 1.0);
  }

  lemma BlendReverse(s: real, t: real, u: real)
    ensures Blend(s, t, u) == Blend(t, s, 1.0 - u)
  {
    assert (1.0 - u) * (s - t) == (s - t) - u * (s - t);
    assert u * (s - t) == -(u * (t - s));
  }

  lemma LerpReverse(a: Point, b: Point, u: real)
    ensures Lerp(a, b, u) == Lerp(b, a, 1.0 - u)
  {
    BlendReverse(a.x, b.x, u);
    BlendReverse(a.y, b.y, u);
  }

  lemma OnSegmentReverse(q: Point, a: Point, b: Point)
    ensures OnSegment(q, a, b) <==> OnSegment(q, b, a)
  {
    forall u: real | 0.0 <= u <= 1.0
      ensures Lerp(a, b, u) == Lerp(b, a, 1.0 - u) && Lerp(b, a, u) == Lerp(a, b, 1.0 - u)
    {
      LerpReverse(a, b, u);
      LerpReverse(b, a, u);
    }
    if OnSegment(q, a, b) {
      var u :| 0.0 <= u <= 1.0 && q == Lerp(a, b, u);
      assert q == Lerp(b, a, 1.0 - u);
    }
    if OnSegment(q, b, a) {
      var u :| 0.0 <= u <= 1.0 && q == Lerp(b, a, u);
      assert q == Lerp(a, b, 1.0 - u);
    }
  }

  lemma BlendBlend(c: real, d: real, s: real, t: real, u: real)
    ensures Blend(Blend(c, d, s), Blend(c, d, t), u) == Blend(c, d, Blend(s, t, u))
  {
    var w := d - c;
    assert Blend(c, d, t) - Blend(c, d, s) == t * w - s * w == (t - s) * w;
    assert u * ((t - s) * w) == (u * (t - s)) * w;
    assert s * w + (u * (t - s)) * w == (s + u * (t - s)) * w;
  }

  // A point between two points of a segment is again given by a parameter of that segment.
  lemma LerpLerp(a: Point, b: Point, s: real, t: real, u: real)
    ensures Lerp(Lerp(a, b, s), Lerp(a, b, t), u) == Lerp(a, b, Blend(s, t, u))
  {
    BlendBlend(a.x, b.x, s, t, u);
    BlendBlend(a.y, b.y, s, t, u);
  }

  lemma ProductNonNegative(x: real, y: real)
    requires 0.0 <= x && 0.0 <= y
    ensures 0.0 <= x * y
  {
    if x != 0.0 && y != 0.0 {
      ProductPositive(x, y);
    }
  }

  lemma ProductPositive(x: real, y: real)
    requires 0.0 < x && 0.0 < y
    ensures 0.0 < x * y
  {
  }

  lemma BlendRange(s: real, t: real, u: real)
    requires 0.0 <= u <= 1.0
    ensures CoordBetween(Blend(s, t, u), s, t)
  {
    if s <= t {
      BlendRangeUp(s, t, u);
    } else {
      BlendRangeUp(t, s, 1.0 - u);
      BlendReverse(s, t, u);
    }
  }

  lemma BlendRangeUp(s: real, t: real, u: real)
    requires s <= t && 0.0 <= u <= 1.0
    ensures s <= Blend(s, t, u) <= t
  {
    ProductNonNegative(u, t - s);
    ProductNonNegative(1.0 - u, t - s);
    assert (1.0 - u) * (t - s) == (t - s) - u * (t - s);
  }

  lemma ExcessLerp(e: Edge, a: Point, b: Point, u: real, box: Bounds)
    ensures Excess(e, Lerp(a, b, u), box) == Blend(Excess(e, a, box), Excess(e, b, box), u)
  {
    match e
    case Left => BlendMirror(a.x, b.x, box.min.x, u);
    case Right =>
    case Bottom => BlendMirror(a.y, b.y, box.min.y, u);
    case Top =>
  }

  lemma BlendMirror(s: real, t: real, c: real, u: real)
    ensures c - Blend(s, t, u) == Blend(c - s, c - t, u)
  {
    assert u * ((c - t) - (c - s)) == -(u * (t - s));
  }

  // A half-plane is convex: a segment between two points inside it stays inside.
  lemma {:induction false} HalfPlaneConvex(e: Edge, q: Point, a: Point, b: Point, box: Bounds)
    requires OnSegment(q, a, b)
    ensures !Outside(e, a, box) && !Outside(e, b, box) ==> !Outside(e, q, box)
    ensures Outside(e, a, box) && Outside(e, b, box) ==> Outside(e, q, box)
  {
    var u :| 0.0 <= u <= 1.0 && q == Lerp(a, b, u);
    ExcessLerp(e, a, b, u, box);
    BlendRange(Excess(e, a, box), Excess(e, b, box), u);
  }

  // The parameter at which a crossing segment meets the line of edge e.
  function CrossParam(e: Edge, a: Point, b: Point, box: Bounds): real
    requires Crosses(e, a, b, box)
  {
    Excess(e, a, box) / (Excess(e, a, box) - Excess(e, b, box))
  }

  lemma QuotientRange(n: real, d: real)
    requires (0.0 <= n <= d && 0.0 < d) || (d <= n <= 0.0 && d < 0.0)
    ensures 0.0 <= n / d <= 1.0
    ensures n / d * d == n
  {
  }

  lemma CrossParamRange(e: Edge, a: Point, b: Point, box: Bounds)
    requires Crosses(e, a, b, box)
    ensures 0.0 <= CrossParam(e, a, b, box) <= 1.0
    ensures CrossParam(e, a, b, box) * (Excess(e, a, box) - Excess(e, b, box)) == Excess(e, a, box)
  {
    QuotientRange(Excess(e, a, box), Excess(e, a, box) - Excess(e, b, box));
  }

  lemma AlongQuotient(c: real, d: real, n: real, m: real)
    requires m != 0.0
    ensures Along(c, d, n, m) == c + n / m * d
    ensures (-n) / (-m) == n / m && n / m * m == n
  {
    var k := n / m;
    assert k * m == n;
    assert d * n == (k * d) * m;
    assert (-n) == k * (-m);
  }

  lemma CrossParamIs(e: Edge, a: Point, b: Point, box: Bounds, n: real, m: real)
    requires Crosses(e, a, b, box)
    requires m != 0.0
    requires (Excess(e, a, box) == n && Excess(e, a, box) - Excess(e, b, box) == m)
      || (Excess(e, a, box) == -n && Excess(e, a, box) - Excess(e, b, box) == -m)
    ensures CrossParam(e, a, b, box) == n / m
  {
    AlongQuotient(0.0, 0.0, n, m);
  }

  // Where a segment's one coordinate is c, the other lies along it.
  lemma LineHit(s: real, t: real, c: real, y: real, z: real)
    requires s != t
    ensures var u := (c - s) / (t - s);
            Blend(s, t, u) == c && Blend(y, z, u) == Along(y, z - y, c - s, t - s)
  {
    AlongQuotient(y, z - y, c - s, t - s);
  }

  lemma HorizontalHit(e: Edge, a: Point, b: Point, box: Bounds, c: real)
    requires Crosses(e, a, b, box)
    requires (e == Top && c == box.max.y) || (e == Bottom && c == box.min.y)
    ensures Point(Along(a.x, b.x - a.x, c - a.y, b.y - a.y), c) == Lerp(a, b, CrossParam(e, a, b, box))
  {
    CrossParamIs(e, a, b, box, c - a.y, b.y - a.y);
    LineHit(a.y, b.y, c, a.x, b.x);
  }

  lemma VerticalHit(e: Edge, a: Point, b: Point, box: Bounds, c: real)
    requires Crosses(e, a, b, box)
    requires (e == Right && c == box.max.x) || (e == Left && c == box.min.x)
    ensures Point(c, Along(a.y, b.y - a.y, c - a.x, b.x - a.x)) == Lerp(a, b, CrossParam(e, a, b, box))
  {
    CrossParamIs(e, a, b, box, c - a.x, b.x - a.x);
    LineHit(a.x, b.x, c, a.y, b.y);
  }

  // Without rounding, the intersection is the point of the segment at CrossParam, on the edge's line.
  lemma {:induction false} EdgeHitIsLerp(a: Point, b: Point, e: Edge, box: Bounds)
    requires Crosses(e, a, b, box)
    ensures var r := EdgeHit(a, b, e, box, false);
            && r == Lerp(a, b, CrossParam(e, a, b, box))
            && Excess(e, r, box) == 0.0
            && OnSegment(r, a, b)
  {
    CrossParamRange(e, a, b, box);
    match e {
      case Top => HorizontalHit(e, a, b, box, box.max.y);
      case Bottom => HorizontalHit(e, a, b, box, box.min.y);
      case Right => VerticalHit(e, a, b, box, box.max.x);
      case Left => VerticalHit(e, a, b, box, box.min.x);
    }
  }

  // Rounding is harmless on whole-pixel input, which is how the callers use it.
  predicate RoundingFits(round: bool, a: Point, b: Point, box: Bounds) {
    round ==> IntegralPoint(a) && IntegralPoint(b) && IntegralBounds(box)
  }

  lemma FloorKeepsOrder(v: real, w: real)
    requires v <= w
    ensures v.Floor <= w.Floor
  {
  }

  lemma RoundKeepsOrder(v: real, w: real)
    requires v <= w
    ensures Round(v) <= Round(w)
  {
    FloorKeepsOrder(v + 0.5, w + 0.5);
  }

  lemma RoundFixesIntegers(v: real)
    requires Integral(v)
    ensures Round(v) == v
  {
    var n := v.Floor;
    assert (n as real + 0.5).Floor == n;
  }

  lemma RoundBetween(v: real, s: real, t: real)
    requires CoordBetween(v, s, t) && Integral(s) && Integral(t)
    ensures CoordBetween(Round(v), s, t) && Integral(Round(v))
  {
    RoundFixesIntegers(s);
    RoundFixesIntegers(t);
    if s <= v <= t {
      RoundKeepsOrder(s, v);
      RoundKeepsOrder(v, t);
    } else {
      RoundKeepsOrder(t, v);
      RoundKeepsOrder(v, s);
    }
  }

  lemma LerpBetween(a: Point, b: Point, u: real)
    requires 0.0 <= u <= 1.0
    ensures CoordBetween(Lerp(a, b, u).x, a.x, b.x) && CoordBetween(Lerp(a, b, u).y, a.y, b.y)
  {
    BlendRange(a.x, b.x, u);
    BlendRange(a.y, b.y, u);
  }

  lemma HitBetween(a: Point, b: Point, e: Edge, box: Bounds, round: bool, s: Point)
    requires CoordBetween(s.x, a.x, b.x) && CoordBetween(s.y, a.y, b.y) && Excess(e, s, box) == 0.0
    requires RoundingFits(round, a, b, box)
    ensures var r := MakePoint(s.x, s.y, round);
            && CoordBetween(r.x, a.x, b.x) && CoordBetween(r.y, a.y, b.y)
            && Excess(e, r, box) == 0.0
            && (round ==> IntegralPoint(r))
  {
    if round {
      RoundBetween(s.x, a.x, b.x);
      RoundBetween(s.y, a.y, b.y);
      if e == Left || e == Right { RoundFixesIntegers(s.x); } else { RoundFixesIntegers(s.y); }
    }
  }

  // The intersection lies on the line of its edge, and is beyond another edge only if one of the two ends is.
  lemma {:induction false} HitFacts(a: Point, b: Point, e: Edge, box: Bounds, round: bool, r: Point)
    requires Crosses(e, a, b, box) && RoundingFits(round, a, b, box)
    requires r == EdgeHit(a, b, e, box, round)
    ensures Excess(e, r, box) == 0.0
    ensures round ==> IntegralPoint(r)
    ensures forall f :: Outside(f, r, box) ==> Outside(f, a, box) || Outside(f, b, box)
  {
    var s := EdgeHit(a, b, e, box, false);
    EdgeHitIsLerp(a, b, e, box);
    CrossParamRange(e, a, b, box);
    LerpBetween(a, b, CrossParam(e, a, b, box));
    HitBetween(a, b, e, box, round, s);
  }

  // Cutting at edge e keeps precisely the points of the segment that are not beyond e.
  lemma {:induction false} CutKeepsInside(a: Point, b: Point, e: Edge, box: Bounds, q: Point)
    requires Outside(e, a, box) && !Outside(e, b, box)
    ensures OnSegment(q, EdgeHit(a, b, e, box, false), b) <==> OnSegment(q, a, b) && !Outside(e, q, box)
  {
    EdgeHitIsLerp(a, b, e, box);
    CrossParamRange(e, a, b, box);
    CutAtParam(a, b, e, box, CrossParam(e, a, b, box), q);
  }

  lemma {:induction false} CutAtParam(a: Point, b: Point, e: Edge, box: Bounds, s: real, q: Point)
    requires Outside(e, a, box) && !Outside(e, b, box)
    requires 0.0 <= s <= 1.0 && s * (Excess(e, a, box) - Excess(e, b, box)) == Excess(e, a, box)
    requires Excess(e, Lerp(a, b, s), box) == 0.0
    ensures OnSegment(q, Lerp(a, b, s), b) <==> OnSegment(q, a, b) && !Outside(e, q, box)
  {
    if OnSegment(q, Lerp(a, b, s), b) {
      SuffixOfSegment(a, b, s, q);
      HalfPlaneConvex(e, q, Lerp(a, b, s), b, box);
    }
    if OnSegment(q, a, b) && !Outside(e, q, box) {
      InsideIsSuffix(a, b, e, box, s, q);
    }
  }

  lemma InsideIsSuffix(a: Point, b: Point, e: Edge, box: Bounds, s: real, q: Point)
    requires Outside(e, a, box) && !Outside(e, b, box)
    requires 0.0 <= s <= 1.0 && s * (Excess(e, a, box) - Excess(e, b, box)) == Excess(e, a, box)
    requires OnSegment(q, a, b) && !Outside(e, q, box)
    ensures OnSegment(q, Lerp(a, b, s), b)
  {
    var u :| 0.0 <= u <= 1.0 && q == Lerp(a, b, u);
    ExcessLerp(e, a, b, u, box);
    ParamBeyond(Excess(e, a, box), Excess(e, b, box), s, u);
    InSuffix(a, b, s, u);
  }

  lemma SuffixOfSegment(a: Point, b: Point, s: real, q: Point)
    requires 0.0 <= s <= 1.0 && OnSegment(q, Lerp(a, b, s), b)
    ensures OnSegment(q, a, b)
  {
    var v :| 0.0 <= v <= 1.0 && q == Lerp(Lerp(a, b, s), b, v);
    assert b == Lerp(a, b, 1.0);
    LerpLerp(a, b, s, 1.0, v);
    BlendRange(s, 1.0, v);
    var w := Blend(s, 1.0, v);
    assert q == Lerp(a, b, w);
  }

  lemma InSuffix(a: Point, b: Point, s: real, u: real)
    requires 0.0 <= s <= u <= 1.0
    ensures OnSegment(Lerp(a, b, u), Lerp(a, b, s), b)
  {
    assert b == Lerp(a, b, 1.0);
    if s == 1.0 {
      EndsOnSegment(b, b);
    } else {
      var v := (u - s) / (1.0 - s);
      QuotientRange(u - s, 1.0 - s);
      LerpLerp(a, b, s, 1.0, v);
      assert Blend(s, 1.0, v) == u;
      assert Lerp(a, b, u) == Lerp(Lerp(a, b, s), b, v);
    }
  }

  lemma ProductSign(k: real, d: real)
    requires d > 0.0
    ensures k * d <= 0.0 ==> k <= 0.0
    ensures k * d == 0.0 ==> k == 0.0
  {
    if k > 0.0 { ProductPositive(k, d); }
    if k < 0.0 { ProductPositive(-k, d); assert (-k) * d == -(k * d); }
  }

  lemma ProductDifference(s: real, u: real, d: real)
    ensures (s - u) * d == s * d - u * d
  {
  }

  lemma ProductMirror(u: real, x: real, y: real)
    requires x == -y
    ensures u * x == -(u * y)
  {
  }

  lemma ParamOrder(n: real, d: real, s: real, u: real)
    requires d > 0.0 && s * d == n && n <= u * d
    ensures s <= u
  {
    if s > u {
      ProductPositive(s - u, d);
      ProductDifference(s, u, d);
    }
  }

  lemma ParamBeyond(ea: real, eb: real, s: real, u: real)
    requires ea > 0.0 && eb <= 0.0 && s * (ea - eb) == ea && Blend(ea, eb, u) <= 0.0
    ensures s <= u
  {
    ProductMirror(u, eb - ea, ea - eb);
    ParamOrder(ea, ea - eb, s, u);
  }

  // The same with the outside end in second place.
  lemma {:induction false} CutKeepsInsideSecond(a: Point, b: Point, e: Edge, box: Bounds, q: Point)
    requires !Outside(e, a, box) && Outside(e, b, box)
    ensures OnSegment(q, a, EdgeHit(a, b, e, box, false)) <==> OnSegment(q, a, b) && !Outside(e, q, box)
  {
    var r := EdgeHit(a, b, e, box, false);
    HitSymmetric(a, b, e, box);
    CutKeepsInside(b, a, e, box, q);
    OnSegmentReverse(q, a, b);
    OnSegmentReverse(q, a, r);
  }

  lemma HitSymmetric(a: Point, b: Point, e: Edge, box: Bounds)
    requires Crosses(e, a, b, box)
    ensures EdgeHit(a, b, e, box, false) == EdgeHit(b, a, e, box, false)
  {
    EdgeHitIsLerp(a, b, e, box);
    EdgeHitIsLerp(b, a, e, box);
    SameCrossPoint(a, b, e, box);
  }

  lemma SameCrossPoint(a: Point, b: Point, e: Edge, box: Bounds)
    requires Crosses(e, a, b, box)
    ensures Lerp(a, b, CrossParam(e, a, b, box)) == Lerp(b, a, CrossParam(e, b, a, box))
  {
    CrossParamRange(e, a, b, box);
    CrossParamRange(e, b, a, box);
    ParamsAddToOne(Excess(e, a, box), Excess(e, b, box), CrossParam(e, a, b, box), CrossParam(e, b, a, box));
    LerpReverse(a, b, CrossParam(e, a, b, box));
  }

  lemma ParamsAddToOne(ea: real, eb: real, s: real, t: real)
    requires ea != eb && s * (ea - eb) == ea && t * (eb - ea) == eb
    ensures t == 1.0 - s
  {
    assert t * (eb - ea) == -(t * (ea - eb));
    assert (s + t - 1.0) * (ea - eb) == s * (ea - eb) + t * (ea - eb) - (ea - eb);
    assert (s + t - 1.0) * (eb - ea) == -((s + t - 1.0) * (ea - eb));
    if ea > eb { ProductSign(s + t - 1.0, ea - eb); } else { ProductSign(s + t - 1.0, eb - ea); }
  }

  // A box is convex.
  lemma BoxConvex(q: Point, a: Point, b: Point, box: Bounds)
    requires OnSegment(q, a, b) && InBox(a, box) && InBox(b, box)
    ensures InBox(q, box)
  {
    BitCodeMeaning(a, box);
    BitCodeMeaning(b, box);
    BitCodeMeaning(q, box);
    forall e ensures !Outside(e, q, box) { HalfPlaneConvex(e, q, a, b, box); }
  }
}
