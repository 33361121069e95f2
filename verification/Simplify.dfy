/** Line simplification (Leaflet's LineUtil.simplify): a radial pass, then Douglas-Peucker on an
    array of markers. */
module Simplify {
  import opened Geometry

  function Mul(x: real, y: real): real { x * y }

  function Sq(x: real): real { Mul(x, x) }

  function SqDist(p: Point, q: Point): real { Sq(p.x - q.x) + Sq(p.y - q.y) }

  function Dot(p: Point, a: Point, b: Point): real {
    Mul(p.x - a.x, b.x - a.x) + Mul(p.y - a.y, b.y - a.y)
  }

  // The parameter of the closest point, before it is limited to the segment.
  function ClosestParam(p: Point, a: Point, b: Point): real
    requires SqDist(b, a) > 0.0
  {
    Dot(p, a, b) / SqDist(b, a)
  }

  function ClosestPoint(p: Point, a: Point, b: Point): Point {
    if SqDist(b, a) > 0.0 then
      var t := ClosestParam(p, a, b);
      if t > 1.0 then b else if t > 0.0 then Lerp(a, b, t) else a
    else a
  }

  function SqDistToSegment(p: Point, a: Point, b: Point): real {
    SqDist(p, ClosestPoint(p, a, b))
  }

  lemma SqFacts(x: real)
    ensures 0.0 <= Sq(x) && Sq(-x) == Sq(x)
    ensures Sq(x) == 0.0 ==> x == 0.0
  {
    if x > 0.0 { SqPositive(x); }
    if x < 0.0 { SqPositive(-x); SqMirror(x, -x); }
  }

  lemma SqPositive(x: real)
    requires x > 0.0
    ensures Sq(x) > 0.0
  {
    MulPositive(x, x);
  }

  lemma MulPositive(x: real, y: real)
    requires x > 0.0 && y > 0.0
    ensures Mul(x, y) > 0.0
  {
    ProductPositive(x, y);
  }

  lemma SqMirror(x: real, y: real)
    requires y == -x
    ensures Sq(x) == Sq(y)
  {
  }

  lemma SqDistFacts(p: Point, q: Point)
    ensures 0.0 <= SqDist(p, q) && SqDist(p, q) == SqDist(q, p)
    ensures SqDist(p, q) == 0.0 <==> p == q
  {
    SqFacts(p.x - q.x);
    SqFacts(p.y - q.y);
    assert q.x - p.x == -(p.x - q.x) && q.y - p.y == -(p.y - q.y);
  }

  // A polynomial in the parameter u.
  function Parabola(s: real, d: real, a: real, u: real): real { s - 2.0 * Mul(u, d) + Mul(Sq(u), a) }

  lemma ParabolasAdd(s: real, d: real, a: real, t: real, e: real, b: real, u: real)
    ensures Parabola(s, d, a, u) + Parabola(t, e, b, u) == Parabola(s + t, d + e, a + b, u)
  {
    MulAdds(u, d, e);
    MulAdds(Sq(u), a, b);
  }

  lemma MulAdds(x: real, y: real, z: real)
    ensures Mul(x, y + z) == Mul(x, y) + Mul(x, z)
  {
  }

  // The squared distance to the point at parameter u.
  lemma SqDistLerp(p: Point, a: Point, b: Point, u: real)
    ensures SqDist(p, Lerp(a, b, u)) == Parabola(SqDist(p, a), Dot(p, a, b), SqDist(b, a), u)
  {
    SqOfBlend(p.x, a.x, b.x, u);
    SqOfBlend(p.y, a.y, b.y, u);
    ParabolasAdd(Sq(p.x - a.x), Mul(p.x - a.x, b.x - a.x), Sq(b.x - a.x),
                 Sq(p.y - a.y), Mul(p.y - a.y, b.y - a.y), Sq(b.y - a.y), u);
  }

  lemma SqOfBlend(p: real, a: real, b: real, u: real)
    ensures Sq(p - Blend(a, b, u)) == Parabola(Sq(p - a), Mul(p - a, b - a), Sq(b - a), u)
  {
    SqOfDifference(p - a, b - a, u);
    assert p - Blend(a, b, u) == (p - a) - u * (b - a);
  }

  lemma SqOfDifference(c: real, d: real, u: real)
    ensures Sq(c - u * d) == Parabola(Sq(c), Mul(c, d), Sq(d), u)
  {
    var m := u * d;
    assert (c - m) * (c - m) == c * c - 2.0 * (c * m) + m * m;
    assert c * m == u * (c * d);
    assert m * m == (u * u) * (d * d);
  }

  function Limited(t: real): real { if t > 1.0 then 1.0 else if t > 0.0 then t else 0.0 }

  lemma ClosestIsLerp(p: Point, a: Point, b: Point)
    ensures SqDist(b, a) > 0.0 ==> ClosestPoint(p, a, b) == Lerp(a, b, Limited(ClosestParam(p, a, b)))
    ensures OnSegment(ClosestPoint(p, a, b), a, b)
  {
    EndsOnSegment(a, b);
    assert Lerp(a, b, 1.0) == b && Lerp(a, b, 0.0) == a;
    if SqDist(b, a) > 0.0 {
      var c := Limited(ClosestParam(p, a, b));
      assert OnSegment(Lerp(a, b, c), a, b);
    }
  }

  lemma LimitedIsBest(u: real, t: real)
    requires 0.0 <= u <= 1.0
    ensures Mul(u - Limited(t), u + Limited(t) - 2.0 * t) >= 0.0
  {
    var c := Limited(t);
    if t > 1.0 {
      ProductNonNegative(1.0 - u, 2.0 * t - u - 1.0);
      MulOfNegatives(u - 1.0, u + 1.0 - 2.0 * t);
    } else if t > 0.0 {
      SqFacts(u - t);
      assert u + t - 2.0 * t == u - t;
    } else {
      ProductNonNegative(u, u - 2.0 * t);
    }
  }

  lemma MulOfNegatives(x: real, y: real)
    requires x <= 0.0 && y <= 0.0
    ensures Mul(x, y) >= 0.0
  {
    var v, w := -x, -y;
    ProductNonNegative(v, w);
    assert x * y == v * w;
  }

  // The parabola with its vertex at t is least, on the unit interval, at the limited t.
  lemma ParabolaLeast(s: real, d: real, a: real, t: real, u: real)
    requires a > 0.0 && d == t * a && 0.0 <= u <= 1.0
    ensures Parabola(s, d, a, Limited(t)) <= Parabola(s, d, a, u)
  {
    var c := Limited(t);
    DifferenceOfParabolas(s, d, a, u, c, t);
    LimitedIsBest(u, t);
    ProductNonNegative(a, Mul(u - c, u + c - 2.0 * t));
  }

  lemma DifferenceOfParabolas(s: real, d: real, a: real, u: real, c: real, t: real)
    requires d == t * a
    ensures Parabola(s, d, a, u) - Parabola(s, d, a, c) == a * Mul(u - c, u + c - 2.0 * t)
  {
    assert u * d == (u * t) * a && c * d == (c * t) * a;
    assert (u - c) * (u + c - 2.0 * t) == u * u - c * c - 2.0 * (u * t) + 2.0 * (c * t);
    var e, f, g, h := u * u, c * c, u * t, c * t;
    assert a * (e - f - 2.0 * g + 2.0 * h) == a * e - a * f - 2.0 * (a * g) + 2.0 * (a * h);
  }

  // The computed point is the nearest point of the segment.
  lemma {:induction false} ClosestIsNearest(p: Point, a: Point, b: Point, q: Point)
    requires OnSegment(q, a, b)
    ensures SqDistToSegment(p, a, b) <= SqDist(p, q)
    ensures OnSegment(ClosestPoint(p, a, b), a, b) && SqDistToSegment(p, a, b) == SqDist(p, ClosestPoint(p, a, b))
  {
    ClosestIsLerp(p, a, b);
    var u :| 0.0 <= u <= 1.0 && q == Lerp(a, b, u);
    SqDistFacts(b, a);
    if SqDist(b, a) > 0.0 {
      var t := ClosestParam(p, a, b);
      NearestAtParam(p, a, b, t, u);
    } else {
      assert q == a;
    }
  }

  lemma NearestAtParam(p: Point, a: Point, b: Point, t: real, u: real)
    requires SqDist(b, a) > 0.0 && t == ClosestParam(p, a, b) && 0.0 <= u <= 1.0
    ensures SqDist(p, Lerp(a, b, Limited(t))) <= SqDist(p, Lerp(a, b, u))
  {
    SqDistLerp(p, a, b, u);
    SqDistLerp(p, a, b, Limited(t));
    ParabolaLeast(SqDist(p, a), Dot(p, a, b), SqDist(b, a), t, u);
  }

  // ----- the radial pass -----

  // The indices kept after looking at the first n points: a point is kept when it is farther than
  // the tolerance from the last kept one.
  function RadialKept(t: seq<Point>, n: nat, sqTol: real): (kept: seq<nat>)
    requires 1 <= n <= |t|
    ensures kept != [] && kept[0] == 0 && forall j :: 0 <= j < |kept| ==> kept[j] < n
  {
    if n == 1 then [0]
    else
      var kept := RadialKept(t, n - 1, sqTol);
      if SqDist(t[n - 1], t[kept[|kept| - 1]]) > sqTol then kept + [n - 1] else kept
  }

  function RadialIndices(t: seq<Point>, sqTol: real): (idx: seq<nat>)
    requires t != []
    ensures forall j :: 0 <= j < |idx| ==> idx[j] < |t|
  {
    var kept := RadialKept(t, |t|, sqTol);
    if kept[|kept| - 1] < |t| - 1 then kept + [|t| - 1] else kept
  }

  // Strictly increasing indices below n.
  ghost predicate Increasing(idx: seq<nat>, n: nat) {
    && (forall j :: 0 <= j < |idx| ==> idx[j] < n)
    && (forall j :: 0 < j < |idx| ==> idx[j - 1] < idx[j])
  }

  function At<T>(t: seq<T>, idx: seq<nat>): seq<T>
    requires forall j :: 0 <= j < |idx| ==> idx[j] < |t|
  {
    seq(|idx|, j requires 0 <= j < |idx| => t[idx[j]])
  }

  lemma AtAppend<T>(t: seq<T>, idx: seq<nat>, k: nat)
    requires (forall j :: 0 <= j < |idx| ==> idx[j] < |t|) && k < |t|
    ensures At(t, idx + [k]) == At(t, idx) + [t[k]]
  {
  }

  lemma IncreasingAppend(idx: seq<nat>, n: nat, k: nat)
    requires Increasing(idx, n) && (idx != [] ==> idx[|idx| - 1] < k)
    ensures Increasing(idx + [k], if k < n then n else k + 1)
  {
  }

  lemma {:induction false} RadialIncreasing(t: seq<Point>, n: nat, sqTol: real)
    requires 1 <= n <= |t|
    ensures Increasing(RadialKept(t, n, sqTol), n)
  {
    if n == 1 {
    } else {
      RadialIncreasing(t, n - 1, sqTol);
      IncreasingAppend(RadialKept(t, n - 1, sqTol), n - 1, n - 1);
    }
  }

  // Point k is within tolerance of a kept point.
  ghost predicate NearKept(t: seq<Point>, kept: seq<nat>, sqTol: real, k: nat)
    requires k < |t| && forall j :: 0 <= j < |kept| ==> kept[j] < |t|
  {
    exists j :: 0 <= j < |kept| && SqDist(t[k], t[kept[j]]) <= sqTol
  }

  lemma NearExtends(t: seq<Point>, kept: seq<nat>, sqTol: real, k: nat, more: seq<nat>)
    requires k < |t| && forall j :: 0 <= j < |kept + more| ==> (kept + more)[j] < |t|
    requires forall j :: 0 <= j < |kept| ==> kept[j] < |t|
    requires NearKept(t, kept, sqTol, k)
    ensures NearKept(t, kept + more, sqTol, k)
  {
    var j :| 0 <= j < |kept| && SqDist(t[k], t[kept[j]]) <= sqTol;
    assert (kept + more)[j] == kept[j];
  }

  lemma {:induction false} RadialNear(t: seq<Point>, n: nat, sqTol: real, k: nat)
    requires k < n <= |t| && sqTol >= 0.0
    ensures NearKept(t, RadialKept(t, n, sqTol), sqTol, k)
  {
    var kept := RadialKept(t, n, sqTol);
    if k == n - 1 {
      SqDistFacts(t[k], t[k]);
      assert SqDist(t[k], t[kept[|kept| - 1]]) <= sqTol;
    } else {
      RadialNear(t, n - 1, sqTol, k);
      var before := RadialKept(t, n - 1, sqTol);
      assert kept == before + [] || kept == before + [n - 1];
      NearExtends(t, before, sqTol, k, kept[|before|..]);
    }
  }

  // The radial pass keeps both ends, in order, and leaves a survivor within tolerance of every point.
  lemma {:induction false} RadialFacts(t: seq<Point>, sqTol: real, k: nat)
    requires k < |t| && sqTol >= 0.0
    ensures var idx := RadialIndices(t, sqTol);
            && Increasing(idx, |t|)
            && idx != [] && idx[0] == 0 && idx[|idx| - 1] == |t| - 1
            && NearKept(t, idx, sqTol, k)
  {
    var kept, idx := RadialKept(t, |t|, sqTol), RadialIndices(t, sqTol);
    RadialIncreasing(t, |t|, sqTol);
    IncreasingAppend(kept, |t|, |t|);
    RadialNear(t, |t|, sqTol, k);
    assert idx == kept + [] || idx == kept + [|t| - 1];
    NearExtends(t, kept, sqTol, k, idx[|kept|..]);
  }

  // The first n neighbours are farther apart than the tolerance.
  ghost predicate Apart(t: seq<Point>, idx: seq<nat>, n: int, sqTol: real)
    requires forall j :: 0 <= j < |idx| ==> idx[j] < |t|
  {
    forall j :: 0 < j < |idx| && j < n ==> SqDist(t[idx[j]], t[idx[j - 1]]) > sqTol
  }

  lemma ApartAppend(t: seq<Point>, idx: seq<nat>, sqTol: real, k: nat)
    requires (forall j :: 0 <= j < |idx| ==> idx[j] < |t|) && k < |t| && idx != []
    requires Apart(t, idx, |idx|, sqTol)
    ensures Apart(t, idx + [k], |idx|, sqTol)
    ensures SqDist(t[k], t[idx[|idx| - 1]]) > sqTol ==> Apart(t, idx + [k], |idx| + 1, sqTol)
  {
  }

  // Neighbours among the kept points are farther apart than the tolerance,
  lemma {:induction false} RadialApart(t: seq<Point>, n: nat, sqTol: real)
    requires 1 <= n <= |t|
    ensures var kept := RadialKept(t, n, sqTol); Apart(t, kept, |kept|, sqTol)
  {
    if n == 1 {
    } else {
      RadialApart(t, n - 1, sqTol);
      ApartAppend(t, RadialKept(t, n - 1, sqTol), sqTol, n - 1);
    }
  }

  // and a point dropped after kept point j, before the next one, is within tolerance of it.
  lemma {:induction false} RadialDropped(t: seq<Point>, n: nat, sqTol: real, k: nat) returns (j: nat)
    requires k < n <= |t|
    ensures var kept := RadialKept(t, n, sqTol);
            && j < |kept| && kept[j] <= k && (j + 1 < |kept| ==> k < kept[j + 1])
            && (k == kept[j] || SqDist(t[k], t[kept[j]]) <= sqTol)
    decreases n
  {
    var kept := RadialKept(t, n, sqTol);
    if k == n - 1 {
      j := |kept| - 1;
    } else {
      j := RadialDropped(t, n - 1, sqTol, k);
      var before := RadialKept(t, n - 1, sqTol);
      assert kept == before + [] || kept == before + [n - 1];
      assert kept[j] == before[j];
    }
  }

  // The last point is kept whatever its distance; neighbours among the others are far apart,
  lemma RadialThins(t: seq<Point>, sqTol: real)
    requires t != []
    ensures Apart(t, RadialIndices(t, sqTol), |RadialIndices(t, sqTol)| - 1, sqTol)
  {
    var kept := RadialKept(t, |t|, sqTol);
    RadialApart(t, |t|, sqTol);
    ApartAppend(t, kept, sqTol, |t| - 1);
  }

  // Point k is point j of those picked, or comes before the next and is within tolerance of it.
  ghost predicate CoveredBy(t: seq<Point>, idx: seq<nat>, sqTol: real, k: nat, j: nat)
    requires k < |t| && forall i :: 0 <= i < |idx| ==> idx[i] < |t|
  {
    && j < |idx| && idx[j] <= k && (j + 1 < |idx| ==> k < idx[j + 1])
    && (k == idx[j] || SqDist(t[k], t[idx[j]]) <= sqTol)
  }

  // and a skipped point is within tolerance of the index before it.
  lemma RadialSkips(t: seq<Point>, sqTol: real, k: nat) returns (j: nat)
    requires k < |t|
    ensures CoveredBy(t, RadialIndices(t, sqTol), sqTol, k, j)
  {
    var kept, idx := RadialKept(t, |t|, sqTol), RadialIndices(t, sqTol);
    j := RadialDropped(t, |t|, sqTol, k);
    assert idx == kept + [] || idx == kept + [|t| - 1];
    if k == |t| - 1 { j := |idx| - 1; }
  }

  function LastKept(t: seq<Point>, n: nat, sqTol: real): nat
    requires 1 <= n <= |t|
  {
    var kept := RadialKept(t, n, sqTol);
    kept[|kept| - 1]
  }

  function KeptPoints(t: seq<Point>, n: nat, sqTol: real): seq<Point>
    requires 1 <= n <= |t|
  {
    At(t, RadialKept(t, n, sqTol))
  }

  // Point n is kept if it is far from the last kept one.
  lemma RadialStep(t: seq<Point>, n: nat, sqTol: real)
    requires 1 <= n < |t|
    ensures var far := SqDist(t[n], t[LastKept(t, n, sqTol)]) > sqTol;
            && LastKept(t, n + 1, sqTol) == (if far then n else LastKept(t, n, sqTol))
            && KeptPoints(t, n + 1, sqTol) == if far then KeptPoints(t, n, sqTol) + [t[n]] else KeptPoints(t, n, sqTol)
  {
    AtAppend(t, RadialKept(t, n, sqTol), n);
  }

  lemma RadialEnd(t: seq<Point>, sqTol: real)
    requires t != []
    ensures At(t, RadialIndices(t, sqTol)) ==
            KeptPoints(t, |t|, sqTol) + if LastKept(t, |t|, sqTol) < |t| - 1 then [t[|t| - 1]] else []
  {
    AtAppend(t, RadialKept(t, |t|, sqTol), |t| - 1);
  }

  method ReducePoints(t: seq<Point>, sqTol: real) returns (e: seq<Point>)
    requires t != []
    ensures e == At(t, RadialIndices(t, sqTol))
  {
    e := [t[0]];
    var n, o := 1, 0;
    while n < |t|
      invariant 1 <= n <= |t|
      invariant o == LastKept(t, n, sqTol)
      invariant e == KeptPoints(t, n, sqTol)
    {
      RadialStep(t, n, sqTol);
      if SqDist(t[n], t[o]) > sqTol {
        e := e + [t[n]];
        o := n;
      }
      n := n + 1;
    }
    RadialEnd(t, sqTol);
    if o < |t| - 1 {
      e := e + [t[|t| - 1]];
    }
  }

  // ----- Douglas-Peucker -----

  // Index and squared distance of the point farthest from the chord, among those between first and n.
  function Farthest(pts: seq<Point>, first: nat, last: nat, n: nat): (nat, real)
    requires first <= last < |pts| && n <= last
  {
    if n <= first + 1 then (first, 0.0)
    else
      var best := Farthest(pts, first, last, n - 1);
      var d := SqDistToSegment(pts[n - 1], pts[first], pts[last]);
      if best.1 < d then (n - 1, d) else best
  }

  lemma {:induction false} FarthestFacts(pts: seq<Point>, first: nat, last: nat, n: nat)
    requires first <= last < |pts| && n <= last
    ensures var best := Farthest(pts, first, last, n);
            && best.1 >= 0.0
            && (best.1 > 0.0 ==> first < best.0 < n)
            && (forall a :: first < a < n ==> SqDistToSegment(pts[a], pts[first], pts[last]) <= best.1)
  {
    if n <= first + 1 {
    } else {
      FarthestFacts(pts, first, last, n - 1);
    }
  }

  // The markers set strictly between first and last.
  function Marked(pts: seq<Point>, sqTol: real, first: nat, last: nat): set<nat>
    requires first <= last < |pts| && sqTol >= 0.0
    decreases last - first
  {
    var best := Farthest(pts, first, last, last);
    FarthestFacts(pts, first, last, last);
    if sqTol < best.1 then
      {best.0} + Marked(pts, sqTol, first, best.0) + Marked(pts, sqTol, best.0, last)
    else {}
  }

  method SimplifyStep(pts: seq<Point>, markers: array<bool>, sqTol: real, first: nat, last: nat)
    requires markers.Length == |pts| && first <= last < |pts| && sqTol >= 0.0
    modifies markers
    ensures forall k :: 0 <= k < |pts| ==> (markers[k] <==> old(markers[k]) || k in Marked(pts, sqTol, first, last))
    decreases last - first
  {
    var maxSqDist, index := 0.0, first;
    var i := first + 1;
    while i <= last - 1
      invariant first + 1 <= i && (i <= last || i == first + 1)
      invariant (index, maxSqDist) == Farthest(pts, first, last, if i <= last then i else last)
    {
      var sqDist := SqDistToSegment(pts[i], pts[first], pts[last]);
      if maxSqDist < sqDist {
        index, maxSqDist := i, sqDist;
      }
      i := i + 1;
    }
    assert (index, maxSqDist) == Farthest(pts, first, last, last);
    FarthestFacts(pts, first, last, last);
    if sqTol < maxSqDist {
      markers[index] := true;
      SimplifyStep(pts, markers, sqTol, first, index);
      SimplifyStep(pts, markers, sqTol, index, last);
    }
  }

  // Marks o and s enclose k, nothing between them is marked, and point k is within tolerance of
  // the segment joining them.
  ghost predicate Enclosed(pts: seq<Point>, marks: set<nat>, sqTol: real, o: nat, k: nat, s: nat) {
    && o < k < s < |pts| && o in marks && s in marks
    && (forall m :: o < m < s ==> m !in marks)
    && SqDistToSegment(pts[k], pts[o], pts[s]) <= sqTol
  }

  lemma {:induction false} MarkedRange(pts: seq<Point>, sqTol: real, first: nat, last: nat)
    requires first <= last < |pts| && sqTol >= 0.0
    ensures forall m :: m in Marked(pts, sqTol, first, last) ==> first < m < last
    decreases last - first
  {
    FarthestFacts(pts, first, last, last);
    var best := Farthest(pts, first, last, last);
    if best.1 <= sqTol {
    } else {
      MarkedRange(pts, sqTol, first, best.0);
      MarkedRange(pts, sqTol, best.0, last);
    }
  }

  // Point m, between o and s, is farther than the tolerance from the segment joining them, and is
  // the first of the farthest points in between.
  ghost predicate SplitsAt(pts: seq<Point>, sqTol: real, o: nat, m: nat, s: nat) {
    && o < m < s < |pts|
    && SqDistToSegment(pts[m], pts[o], pts[s]) > sqTol
    && (forall k :: o < k < s ==> SqDistToSegment(pts[k], pts[o], pts[s]) <= SqDistToSegment(pts[m], pts[o], pts[s]))
    && (forall k :: o < k < m ==> SqDistToSegment(pts[k], pts[o], pts[s]) < SqDistToSegment(pts[m], pts[o], pts[s]))
  }

  lemma {:induction false} FarthestIsFirst(pts: seq<Point>, first: nat, last: nat, n: nat)
    requires first <= last < |pts| && n <= last && Farthest(pts, first, last, n).1 > 0.0
    ensures var best := Farthest(pts, first, last, n);
            && first < best.0 < n && SqDistToSegment(pts[best.0], pts[first], pts[last]) == best.1
            && forall k :: first < k < best.0 ==> SqDistToSegment(pts[k], pts[first], pts[last]) < best.1
  {
    if n <= first + 1 {
    } else {
      FarthestFacts(pts, first, last, n - 1);
      if Farthest(pts, first, last, n - 1).1 > 0.0 { FarthestIsFirst(pts, first, last, n - 1); }
    }
  }

  // No point is kept without need: each mark was the farthest point, beyond the tolerance, between
  // two other marks.
  lemma {:induction false} MarkedIsFar(pts: seq<Point>, sqTol: real, first: nat, last: nat, m: nat)
    returns (o: nat, s: nat)
    requires first <= last < |pts| && sqTol >= 0.0 && m in Marked(pts, sqTol, first, last)
    ensures first <= o && s <= last && SplitsAt(pts, sqTol, o, m, s)
    ensures {o, s} <= Marked(pts, sqTol, first, last) + {first, last}
    decreases last - first
  {
    FarthestFacts(pts, first, last, last);
    FarthestIsFirst(pts, first, last, last);
    var c := Farthest(pts, first, last, last).0;
    if m == c {
      o, s := first, last;
    } else if m in Marked(pts, sqTol, first, c) {
      o, s := MarkedIsFar(pts, sqTol, first, c, m);
    } else {
      o, s := MarkedIsFar(pts, sqTol, c, last, m);
    }
  }

  lemma EnclosedIn(pts: seq<Point>, sub: set<nat>, marks: set<nat>, sqTol: real, o: nat, k: nat, s: nat)
    requires Enclosed(pts, sub, sqTol, o, k, s) && sub <= marks
    requires forall m :: m in marks && o < m < s ==> m in sub
    ensures Enclosed(pts, marks, sqTol, o, k, s)
  {
  }

  // Every unmarked point between first and last is enclosed by two neighbouring marks.
  lemma {:induction false} MarkedCovers(pts: seq<Point>, sqTol: real, first: nat, last: nat, k: nat)
    returns (o: nat, s: nat)
    requires first < k < last < |pts| && sqTol >= 0.0 && k !in Marked(pts, sqTol, first, last)
    ensures first <= o && s <= last
    ensures Enclosed(pts, Marked(pts, sqTol, first, last) + {first, last}, sqTol, o, k, s)
    decreases last - first
  {
    FarthestFacts(pts, first, last, last);
    MarkedRange(pts, sqTol, first, last);
    var best := Farthest(pts, first, last, last);
    var c := best.0;
    var marks := Marked(pts, sqTol, first, last) + {first, last};
    if sqTol < best.1 {
      MarkedRange(pts, sqTol, first, c);
      MarkedRange(pts, sqTol, c, last);
      if k < c {
        o, s := MarkedCovers(pts, sqTol, first, c, k);
        EnclosedIn(pts, Marked(pts, sqTol, first, c) + {first, c}, marks, sqTol, o, k, s);
      } else {
        o, s := MarkedCovers(pts, sqTol, c, last, k);
        EnclosedIn(pts, Marked(pts, sqTol, c, last) + {c, last}, marks, sqTol, o, k, s);
      }
    } else {
      o, s := first, last;
    }
  }

  // The marked indices below n, in order.
  function Collect(marks: set<nat>, n: nat): (idx: seq<nat>)
    ensures forall j :: 0 <= j < |idx| ==> idx[j] < n && idx[j] in marks
  {
    if n == 0 then []
    else Collect(marks, n - 1) + (if n - 1 in marks then [n - 1] else [])
  }

  lemma {:induction false} CollectIncreasing(marks: set<nat>, n: nat)
    ensures Increasing(Collect(marks, n), n)
  {
    if n == 0 {
    } else {
      CollectIncreasing(marks, n - 1);
      IncreasingAppend(Collect(marks, n - 1), n - 1, n - 1);
    }
  }

  lemma {:induction false} CollectPrefix(marks: set<nat>, m: nat, n: nat)
    requires m <= n
    ensures Collect(marks, m) <= Collect(marks, n)
    ensures (forall k :: m <= k < n ==> k !in marks) ==> Collect(marks, n) == Collect(marks, m)
  {
    if m == n {
    } else {
      CollectPrefix(marks, m, n - 1);
    }
  }

  // A marked index stands right after the marked indices below it.
  lemma {:induction false} CollectPosition(marks: set<nat>, k: nat, n: nat)
    requires k < n && k in marks
    ensures var p := |Collect(marks, k)|; p < |Collect(marks, n)| && Collect(marks, n)[p] == k
  {
    CollectPrefix(marks, k + 1, n);
    assert Collect(marks, k + 1) == Collect(marks, k) + [k];
  }

  lemma {:induction false} CollectAdjacent(marks: set<nat>, o: nat, s: nat, n: nat)
    requires o < s < n && o in marks && s in marks && forall m :: o < m < s ==> m !in marks
    ensures var p := |Collect(marks, o)|;
            p + 1 < |Collect(marks, n)| && Collect(marks, n)[p] == o && Collect(marks, n)[p + 1] == s
  {
    CollectPosition(marks, o, n);
    CollectPosition(marks, s, n);
    CollectPrefix(marks, o + 1, s);
    assert Collect(marks, o + 1) == Collect(marks, o) + [o];
  }

  // All markers of a Douglas-Peucker run.
  function Marks(pts: seq<Point>, sqTol: real): set<nat>
    requires pts != [] && sqTol >= 0.0
  {
    Marked(pts, sqTol, 0, |pts| - 1) + {0, |pts| - 1}
  }

  function Peucker(pts: seq<Point>, sqTol: real): seq<Point>
    requires pts != [] && sqTol >= 0.0
  {
    At(pts, Collect(Marks(pts, sqTol), |pts|))
  }

  method SimplifyDP(pts: seq<Point>, sqTol: real) returns (out: seq<Point>)
    requires pts != [] && sqTol >= 0.0
    ensures out == Peucker(pts, sqTol)
  {
    var markers := new bool[|pts|](_ => false);
    markers[0], markers[|pts| - 1] := true, true;
    SimplifyStep(pts, markers, sqTol, 0, |pts| - 1);
    ghost var marks := Marks(pts, sqTol);
    MarkedRange(pts, sqTol, 0, |pts| - 1);
    out := [];
    for i := 0 to |pts|
      invariant forall k :: 0 <= k < |pts| ==> (markers[k] <==> k in marks)
      invariant out == At(pts, Collect(marks, i))
    {
      if markers[i] {
        AtAppend(pts, Collect(marks, i), i);
        out := out + [pts[i]];
      }
    }
  }

  function Simplified(points: seq<Point>, tolerance: real): seq<Point> {
    if tolerance == 0.0 || points == [] then points
    else
      SqFacts(tolerance);
      Peucker(At(points, RadialIndices(points, Sq(tolerance))), Sq(tolerance))
  }

  method Simplify(points: seq<Point>, tolerance: real) returns (out: seq<Point>)
    ensures out == Simplified(points, tolerance)
  {
    if tolerance == 0.0 || points == [] {
      return points;
    }
    var sqTolerance := Sq(tolerance);
    SqFacts(tolerance);
    var reduced := ReducePoints(points, sqTolerance);
    out := SimplifyDP(reduced, sqTolerance);
  }

  // out picks points of t by increasing indices, among them both ends.
  ghost predicate SubsequenceWithEnds(t: seq<Point>, idx: seq<nat>, out: seq<Point>) {
    && t != [] && Increasing(idx, |t|) && |idx| == |out| && idx != []
    && idx[0] == 0 && idx[|idx| - 1] == |t| - 1
    && forall j :: 0 <= j < |idx| ==> out[j] == t[idx[j]]
  }

  lemma {:induction false} PeuckerKeepsEnds(pts: seq<Point>, sqTol: real)
    requires pts != [] && sqTol >= 0.0
    ensures SubsequenceWithEnds(pts, Collect(Marks(pts, sqTol), |pts|), Peucker(pts, sqTol))
  {
    var marks := Marks(pts, sqTol);
    var idx := Collect(marks, |pts|);
    CollectIncreasing(marks, |pts|);
    CollectPosition(marks, 0, |pts|);
    assert idx == Collect(marks, |pts| - 1) + [|pts| - 1];
  }

  lemma {:induction false} IncreasingMonotone(idx: seq<nat>, n: nat, i: nat, j: nat)
    requires Increasing(idx, n) && i < j < |idx|
    ensures idx[i] < idx[j]
  {
    if i + 1 == j {
    } else {
      IncreasingMonotone(idx, n, i, j - 1);
    }
  }

  lemma ComposeSubsequences(t: seq<Point>, idx: seq<nat>, mid: seq<Point>, jdx: seq<nat>, out: seq<Point>)
    requires SubsequenceWithEnds(t, idx, mid) && SubsequenceWithEnds(mid, jdx, out)
    ensures SubsequenceWithEnds(t, At(idx, jdx), out)
  {
    forall j | 0 < j < |jdx| ensures At(idx, jdx)[j - 1] < At(idx, jdx)[j] {
      IncreasingMonotone(idx, |t|, jdx[j - 1], jdx[j]);
    }
  }

  // The result is a subsequence of the input that keeps both end points.
  lemma {:induction false} SimplifiedIsSubsequence(points: seq<Point>, tolerance: real)
    ensures points == [] ==> Simplified(points, tolerance) == []
    ensures points != [] ==> exists idx :: SubsequenceWithEnds(points, idx, Simplified(points, tolerance))
  {
    if points != [] {
      if tolerance == 0.0 {
        var idx: seq<nat> := seq(|points|, j => j);
        assert SubsequenceWithEnds(points, idx, Simplified(points, tolerance));
      } else {
        SqFacts(tolerance);
        var idx := RadialIndices(points, Sq(tolerance));
        RadialFacts(points, Sq(tolerance), 0);
        var mid := At(points, idx);
        PeuckerKeepsEnds(mid, Sq(tolerance));
        var jdx := Collect(Marks(mid, Sq(tolerance)), |mid|);
        ComposeSubsequences(points, idx, mid, jdx, Simplified(points, tolerance));
      }
    }
  }

  // Every point that Douglas-Peucker drops is within tolerance of the segment between the two kept
  // points around it, and those two are neighbours in the result.
  lemma {:induction false} DroppedIsNearSegment(pts: seq<Point>, sqTol: real, k: nat) returns (o: nat, s: nat, p: nat)
    requires k < |pts| && sqTol >= 0.0 && k !in Marks(pts, sqTol)
    ensures Enclosed(pts, Marks(pts, sqTol), sqTol, o, k, s)
    ensures var out := Peucker(pts, sqTol); p + 1 < |out| && out[p] == pts[o] && out[p + 1] == pts[s]
  {
    o, s := MarkedCovers(pts, sqTol, 0, |pts| - 1, k);
    CollectAdjacent(Marks(pts, sqTol), o, s, |pts|);
    p := |Collect(Marks(pts, sqTol), o)|;
  }

  // A kept point other than the ends was the farthest, beyond the tolerance, between two kept points;
  lemma KeptIsFar(pts: seq<Point>, sqTol: real, m: nat) returns (o: nat, s: nat)
    requires sqTol >= 0.0 && 0 < m < |pts| - 1 && m in Marks(pts, sqTol)
    ensures {o, s} <= Marks(pts, sqTol) && SplitsAt(pts, sqTol, o, m, s)
  {
    o, s := MarkedIsFar(pts, sqTol, 0, |pts| - 1, m);
  }

  // so a line is simplified to its ends if and only if all its points are within tolerance of the
  // segment between them.
  lemma {:induction false} OnlyEndsIff(pts: seq<Point>, sqTol: real)
    requires |pts| >= 2 && sqTol >= 0.0
    ensures Peucker(pts, sqTol) == [pts[0], pts[|pts| - 1]] <==>
            forall k :: 0 < k < |pts| - 1 ==> SqDistToSegment(pts[k], pts[0], pts[|pts| - 1]) <= sqTol
  {
    var n, marks := |pts| - 1, Marks(pts, sqTol);
    FarthestFacts(pts, 0, n, n);
    if sqTol < Farthest(pts, 0, n, n).1 {
      var c := Farthest(pts, 0, n, n).0;
      FarthestIsFirst(pts, 0, n, n);
      CollectThree(marks, c, n);
    } else {
      CollectPrefix(marks, 1, n);
      assert Collect(marks, 1) == Collect(marks, 0) + [0] == [0];
      assert Collect(marks, n + 1) == [0, n];
    }
  }

  lemma CollectThree(marks: set<nat>, c: nat, n: nat)
    requires 0 < c < n && 0 in marks && c in marks && n in marks
    ensures |Collect(marks, n + 1)| >= 3
  {
    CollectPosition(marks, 0, c);
    CollectPosition(marks, c, n);
    assert Collect(marks, n + 1) == Collect(marks, n) + [n];
  }

  // The radial pass: increasing indices from the first point to the last whose neighbours, but for
  // the last two, are farther apart than the tolerance, each skipped point being within tolerance
  // of the index before it.
  ghost predicate Thinned(t: seq<Point>, idx: seq<nat>, sqTol: real)
    requires Increasing(idx, |t|)
  {
    && Apart(t, idx, |idx| - 1, sqTol)
    && (forall k: nat :: k < |t| ==> Covered(t, idx, sqTol, k))
  }

  ghost predicate Covered(t: seq<Point>, idx: seq<nat>, sqTol: real, k: nat)
    requires k < |t| && Increasing(idx, |t|)
  {
    exists j: nat :: CoveredBy(t, idx, sqTol, k, j)
  }

  // The second pass: every kept point but the ends was the farthest, beyond the tolerance, between
  // two kept points, and every dropped point is within tolerance of the segment of its kept neighbours.
  ghost predicate Straightened(mid: seq<Point>, marks: set<nat>, sqTol: real) {
    && (forall m :: m in marks && 0 < m < |mid| - 1 ==> exists o, s :: o in marks && s in marks && SplitsAt(mid, sqTol, o, m, s))
    && (forall k :: 0 <= k < |mid| && k !in marks ==> exists o, s :: Enclosed(mid, marks, sqTol, o, k, s))
  }

  lemma RadialIsThinned(t: seq<Point>, sqTol: real)
    requires t != [] && sqTol >= 0.0
    ensures Increasing(RadialIndices(t, sqTol), |t|) && Thinned(t, RadialIndices(t, sqTol), sqTol)
  {
    RadialFacts(t, sqTol, 0);
    RadialThins(t, sqTol);
    forall k: nat | k < |t| ensures Covered(t, RadialIndices(t, sqTol), sqTol, k) {
      var j := RadialSkips(t, sqTol, k);
    }
  }

  lemma MarksStraighten(mid: seq<Point>, sqTol: real)
    requires mid != [] && sqTol >= 0.0
    ensures Straightened(mid, Marks(mid, sqTol), sqTol)
  {
    var marks := Marks(mid, sqTol);
    forall m | m in marks && 0 < m < |mid| - 1
      ensures exists o, s :: o in marks && s in marks && SplitsAt(mid, sqTol, o, m, s)
    {
      var o, s := KeptIsFar(mid, sqTol, m);
      assert o in {o, s} && s in {o, s};
    }
    forall k | 0 <= k < |mid| && k !in marks ensures exists o, s :: Enclosed(mid, marks, sqTol, o, k, s) {
      var o, s, p := DroppedIsNearSegment(mid, sqTol, k);
    }
  }

  // idx lists the elements of a set in order.
  ghost predicate Lists(idx: seq<nat>, marks: set<nat>, n: nat) {
    Increasing(idx, n) && forall k: nat :: k < n ==> (k in idx <==> k in marks)
  }

  lemma CollectLists(marks: set<nat>, n: nat)
    ensures Lists(Collect(marks, n), marks, n)
  {
    CollectIncreasing(marks, n);
    forall k: nat | k < n && k in marks ensures k in Collect(marks, n) {
      CollectPosition(marks, k, n);
    }
  }

  // Simplification is both passes, one after the other, with the square of the tolerance in each.
  lemma {:induction false} SimplifiedIsBoth(points: seq<Point>, tolerance: real) returns (idx: seq<nat>, marks: set<nat>, jdx: seq<nat>)
    requires tolerance != 0.0 && points != []
    ensures Increasing(idx, |points|) && Thinned(points, idx, tolerance * tolerance)
    ensures idx != [] && idx[0] == 0 && idx[|idx| - 1] == |points| - 1
    ensures {0, |idx| - 1} <= marks && Straightened(At(points, idx), marks, tolerance * tolerance)
    ensures Lists(jdx, marks, |idx|) && Simplified(points, tolerance) == At(At(points, idx), jdx)
  {
    SqFacts(tolerance);
    var sqTol := Sq(tolerance);
    idx := RadialIndices(points, sqTol);
    RadialFacts(points, sqTol, 0);
    RadialIsThinned(points, sqTol);
    var mid := At(points, idx);
    marks := Marks(mid, sqTol);
    MarksStraighten(mid, sqTol);
    jdx := Collect(marks, |mid|);
    CollectLists(marks, |mid|);
  }

  // On the polyline, or its only vertex.
  ghost predicate OnLine(q: Point, line: seq<Point>) { q in line || OnPath(q, line) }

  lemma {:induction false} PeuckerNear(pts: seq<Point>, sqTol: real, k: nat) returns (q: Point)
    requires k < |pts| && sqTol >= 0.0
    ensures OnLine(q, Peucker(pts, sqTol)) && SqDist(pts[k], q) <= sqTol
  {
    var out := Peucker(pts, sqTol);
    if k in Marks(pts, sqTol) {
      CollectPosition(Marks(pts, sqTol), k, |pts|);
      q := pts[k];
      assert out[|Collect(Marks(pts, sqTol), k)|] == q;
      SqDistFacts(q, q);
    } else {
      var o, s, p := DroppedIsNearSegment(pts, sqTol, k);
      q := ClosestPoint(pts[k], pts[o], pts[s]);
      ClosestIsLerp(pts[k], pts[o], pts[s]);
      assert OnSegment(q, out[p], out[p + 1]);
    }
  }

  // Squared distances over two hops.
  lemma TwoHops(a: Point, b: Point, c: Point)
    ensures SqDist(a, c) <= 2.0 * SqDist(a, b) + 2.0 * SqDist(b, c)
  {
    SqOfSum(a.x - b.x, b.x - c.x);
    SqOfSum(a.y - b.y, b.y - c.y);
    assert (a.x - b.x) + (b.x - c.x) == a.x - c.x;
    assert (a.y - b.y) + (b.y - c.y) == a.y - c.y;
  }

  lemma SqOfSum(x: real, y: real)
    ensures Sq(x + y) <= 2.0 * Sq(x) + 2.0 * Sq(y)
  {
    SqFacts(x - y);
    assert (x + y) * (x + y) + (x - y) * (x - y) == 2.0 * (x * x) + 2.0 * (y * y);
  }

  // Every input point is within twice the tolerance of the simplified line.
  lemma {:induction false} SimplifiedStaysClose(points: seq<Point>, tolerance: real, k: nat)
    requires k < |points|
    ensures exists q :: OnLine(q, Simplified(points, tolerance)) && SqDist(points[k], q) <= 4.0 * Sq(tolerance)
  {
    SqFacts(tolerance);
    var sqTol := Sq(tolerance);
    if tolerance == 0.0 {
      SqDistFacts(points[k], points[k]);
      assert OnLine(points[k], points);
    } else {
      var idx := RadialIndices(points, sqTol);
      RadialFacts(points, sqTol, k);
      var j :| 0 <= j < |idx| && SqDist(points[k], points[idx[j]]) <= sqTol;
      var q := PeuckerNear(At(points, idx), sqTol, j);
      TwoHops(points[k], points[idx[j]], q);
    }
  }
}
