/** Cohen-Sutherland clipping of one segment (Leaflet's LineUtil.clipSegment) and of whole
    polylines with the cached end outcode (Polyline._clipPoints). */
module ClipSegment {
  import opened Geometry

  // The value false, or the pair of end points that remain.
  datatype Clipped = Nothing | Part(first: Point, last: Point)

  // Zero once the two codes share a bit, since the next turn of the loop then rejects.
  function Measure(h: OutCode, l: OutCode): nat {
    if h.Meets(l) then 0 else 1 + h.Bits() + l.Bits()
  }

  // An intersection that replaces an outside end either removes a bit or makes the codes meet.
  lemma {:induction false} TurnShrinks(t: Point, i: Point, box: Bounds, round: bool, r: Point)
    requires RoundingFits(round, t, i, box)
    requires !BitCode(t, box).IsZero() && !BitCode(t, box).Meets(BitCode(i, box))
    requires Crosses(BitCode(t, box).First(), t, i, box)
    requires r == EdgeHit(t, i, BitCode(t, box).First(), box, round)
    ensures Measure(BitCode(r, box), BitCode(i, box)) < Measure(BitCode(t, box), BitCode(i, box))
    ensures RoundingFits(round, r, i, box)
  {
    HitFacts(t, i, BitCode(t, box).First(), box, round, r);
    BitsShrink(t, i, BitCode(t, box).First(), box, r);
  }

  lemma {:induction false} TurnShrinksSecond(t: Point, i: Point, box: Bounds, round: bool, r: Point)
    requires RoundingFits(round, t, i, box)
    requires BitCode(t, box).IsZero() && !BitCode(i, box).IsZero()
    requires Crosses(BitCode(i, box).First(), t, i, box)
    requires r == EdgeHit(t, i, BitCode(i, box).First(), box, round)
    ensures Measure(BitCode(t, box), BitCode(r, box)) < Measure(BitCode(t, box), BitCode(i, box))
    ensures RoundingFits(round, t, r, box)
  {
    HitFacts(t, i, BitCode(i, box).First(), box, round, r);
    BitsShrink(i, t, BitCode(i, box).First(), box, r);
  }

  lemma BitsShrink(t: Point, i: Point, e: Edge, box: Bounds, r: Point)
    requires Outside(e, t, box) && !BitCode(t, box).Meets(BitCode(i, box))
    requires Excess(e, r, box) == 0.0
    requires forall f :: Outside(f, r, box) ==> Outside(f, t, box) || Outside(f, i, box)
    ensures Measure(BitCode(r, box), BitCode(i, box)) < Measure(BitCode(t, box), BitCode(i, box))
  {
    assert !Outside(e, r, box);
    var h, l, n := BitCode(t, box), BitCode(i, box), BitCode(r, box);
    assert n.left ==> Outside(Left, r, box);
    assert n.right ==> Outside(Right, r, box);
    assert n.bottom ==> Outside(Bottom, r, box);
    assert n.top ==> Outside(Top, r, box);
    if !n.Meets(l) {
      assert (n.left ==> h.left) && (n.right ==> h.right) && (n.bottom ==> h.bottom) && (n.top ==> h.top);
      assert h.Has(e) && !n.Has(e);
    }
  }

  // The clipping loop, on the two end points and their outcodes.
  function ClipLoop(t: Point, i: Point, h: OutCode, l: OutCode, box: Bounds, round: bool): Clipped
    requires h == BitCode(t, box) && l == BitCode(i, box)
    requires RoundingFits(round, t, i, box)
    decreases Measure(h, l)
  {
    if h.IsZero() && l.IsZero() then Part(t, i)
    else if h.Meets(l) then Nothing
    else if !h.IsZero() then
      CodesCross(t, i, box);
      var r := EdgeIntersection(t, i, h, box, round);
      TurnShrinks(t, i, box, round, r);
      ClipLoop(r, i, BitCode(r, box), l, box, round)
    else
      CodesCross(i, t, box);
      var r := EdgeIntersection(t, i, l, box, round);
      TurnShrinksSecond(t, i, box, round, r);
      ClipLoop(t, r, h, BitCode(r, box), box, round)
  }

  lemma CodesCross(t: Point, i: Point, box: Bounds)
    requires !BitCode(t, box).IsZero() && !BitCode(t, box).Meets(BitCode(i, box))
    ensures var e := BitCode(t, box).First(); Outside(e, t, box) && !Outside(e, i, box)
  {
  }

  function ClipFresh(t: Point, i: Point, box: Bounds, round: bool): Clipped
    requires RoundingFits(round, t, i, box)
  {
    ClipLoop(t, i, BitCode(t, box), BitCode(i, box), box, round)
  }

  // What is kept lies in the box, and an end that was already inside is not moved.
  lemma {:induction false} KeptIsInBox(t: Point, i: Point, box: Bounds, round: bool)
    requires RoundingFits(round, t, i, box)
    ensures var c := ClipFresh(t, i, box, round);
            && (c.Part? ==> InBox(c.first, box) && InBox(c.last, box))
            && (c.Part? && InBox(t, box) ==> c.first == t)
            && (c.Part? ==> (InBox(i, box) <==> c.last == i))
            && (InBox(t, box) || InBox(i, box) ==> c.Part?)
    decreases Measure(BitCode(t, box), BitCode(i, box))
  {
    BitCodeMeaning(t, box);
    BitCodeMeaning(i, box);
    var h, l := BitCode(t, box), BitCode(i, box);
    if (h.IsZero() && l.IsZero()) || h.Meets(l) {
    } else if !h.IsZero() {
      CodesCross(t, i, box);
      var r := EdgeIntersection(t, i, h, box, round);
      TurnShrinks(t, i, box, round, r);
      KeptIsInBox(r, i, box, round);
    } else {
      CodesCross(i, t, box);
      var r := EdgeIntersection(t, i, l, box, round);
      TurnShrinksSecond(t, i, box, round, r);
      KeptIsInBox(t, r, box, round);
    }
  }

  // Exact clipping: what remains is the part of the segment inside the box, point for point,
  // and nothing remains just when no point of the segment is inside.
  lemma {:induction false} ClipExactAt(t: Point, i: Point, box: Bounds, q: Point)
    ensures var c := ClipFresh(t, i, box, false);
            && (c.Nothing? ==> !(OnSegment(q, t, i) && InBox(q, box)))
            && (c.Part? ==> (OnSegment(q, c.first, c.last) <==> OnSegment(q, t, i) && InBox(q, box)))
    decreases Measure(BitCode(t, box), BitCode(i, box))
  {
    BitCodeMeaning(q, box);
    var h, l := BitCode(t, box), BitCode(i, box);
    if h.IsZero() && l.IsZero() {
      InsideStays(t, i, box, q);
    } else if h.Meets(l) {
      RejectedIsOutside(t, i, box, q);
    } else if !h.IsZero() {
      CodesCross(t, i, box);
      var r := EdgeIntersection(t, i, h, box, false);
      TurnShrinks(t, i, box, false, r);
      ClipExactAt(r, i, box, q);
      CutKeepsInside(t, i, h.First(), box, q);
    } else {
      CodesCross(i, t, box);
      var r := EdgeIntersection(t, i, l, box, false);
      TurnShrinksSecond(t, i, box, false, r);
      ClipExactAt(t, r, box, q);
      CutKeepsInsideSecond(t, i, l.First(), box, q);
    }
  }

  lemma InsideStays(t: Point, i: Point, box: Bounds, q: Point)
    requires BitCode(t, box).IsZero() && BitCode(i, box).IsZero()
    ensures OnSegment(q, t, i) ==> InBox(q, box)
  {
    if OnSegment(q, t, i) { BoxConvex(q, t, i, box); }
  }

  lemma RejectedIsOutside(t: Point, i: Point, box: Bounds, q: Point)
    requires BitCode(t, box).Meets(BitCode(i, box))
    ensures OnSegment(q, t, i) ==> !InBox(q, box)
  {
    if OnSegment(q, t, i) {
      var h, l := BitCode(t, box), BitCode(i, box);
      var e := if h.left && l.left then Left else if h.right && l.right then Right
               else if h.bottom && l.bottom then Bottom else Top;
      HalfPlaneConvex(e, q, t, i, box);
    }
  }

  // Two parameters of a segment, in order.
  ghost predicate InOrder(a: Point, b: Point, p: Point, q: Point) {
    exists s: real, t: real :: 0.0 <= s <= t <= 1.0 && p == Lerp(a, b, s) && q == Lerp(a, b, t)
  }

  lemma {:induction false} InOrderWithin(a: Point, b: Point, s: real, t: real, p: Point, q: Point)
    requires 0.0 <= s <= t <= 1.0 && InOrder(Lerp(a, b, s), Lerp(a, b, t), p, q)
    ensures InOrder(a, b, p, q)
  {
    var u: real, v: real :| 0.0 <= u <= v <= 1.0
      && p == Lerp(Lerp(a, b, s), Lerp(a, b, t), u) && q == Lerp(Lerp(a, b, s), Lerp(a, b, t), v);
    LerpLerp(a, b, s, t, u);
    LerpLerp(a, b, s, t, v);
    BlendRange(s, t, u);
    BlendRange(s, t, v);
    ProductNonNegative(v - u, t - s);
    assert (v - u) * (t - s) == v * (t - s) - u * (t - s);
    assert Blend(s, t, u) <= Blend(s, t, v);
    assert p == Lerp(a, b, Blend(s, t, u)) && q == Lerp(a, b, Blend(s, t, v));
  }

  // The kept ends appear along the segment in the order of the original ends.
  lemma {:induction false} ClipKeepsDirection(t: Point, i: Point, box: Bounds)
    ensures var c := ClipFresh(t, i, box, false);
            c.Part? ==> InOrder(t, i, c.first, c.last)
    decreases Measure(BitCode(t, box), BitCode(i, box))
  {
    var h, l := BitCode(t, box), BitCode(i, box);
    assert t == Lerp(t, i, 0.0) && i == Lerp(t, i, 1.0);
    if (h.IsZero() && l.IsZero()) || h.Meets(l) {
    } else if !h.IsZero() {
      CodesCross(t, i, box);
      var r := EdgeIntersection(t, i, h, box, false);
      TurnShrinks(t, i, box, false, r);
      ClipKeepsDirection(r, i, box);
      EdgeHitIsLerp(t, i, h.First(), box);
      CrossParamRange(h.First(), t, i, box);
      var c := ClipFresh(r, i, box, false);
      if c.Part? { InOrderWithin(t, i, CrossParam(h.First(), t, i, box), 1.0, c.first, c.last); }
    } else {
      CodesCross(i, t, box);
      var r := EdgeIntersection(t, i, l, box, false);
      TurnShrinksSecond(t, i, box, false, r);
      ClipKeepsDirection(t, r, box);
      EdgeHitIsLerp(t, i, l.First(), box);
      CrossParamRange(l.First(), t, i, box);
      var c := ClipFresh(t, r, box, false);
      if c.Part? { InOrderWithin(t, i, 0.0, CrossParam(l.First(), t, i, box), c.first, c.last); }
    }
  }

  // ----- polylines -----

  // The parts under construction: part number a is the one that still grows, if it exists.
  datatype RawParts = RawParts(list: seq<seq<Point>>, a: nat)
  type Parts = s: RawParts | s.a <= |s.list| <= s.a + 1 witness RawParts([], 0)

  function Push(s: Parts, p: Point): Parts {
    if s.a == |s.list| then s.(list := s.list + [[p]])
    else s.(list := s.list[s.a := s.list[s.a] + [p]])
  }

  // One clipped segment is appended; the part is closed unless the segment ends, unclipped, at
  // next and another segment follows. (The kept end is the object next exactly when it equals it:
  // KeptIsInBox shows that a clipped end differs from the original.)
  function Append(s: Parts, c: Clipped, next: Point, final: bool): Parts {
    if c.Nothing? then s
    else
      var s := Push(s, c.first);
      if c.last == next && !final then s
      else
        var s := Push(s, c.last);
        s.(a := s.a + 1)
  }

  predicate RingFits(round: bool, ring: seq<Point>, box: Bounds) {
    round ==> IntegralBounds(box) && forall p <- ring :: IntegralPoint(p)
  }

  // The parts after the first n segments of a ring, both outcodes being computed for each segment.
  function PartsUpTo(ring: seq<Point>, n: nat, box: Bounds, round: bool, start: Parts): Parts
    requires (n == 0 || n < |ring|) && RingFits(round, ring, box)
  {
    if n == 0 then start
    else
      Append(PartsUpTo(ring, n - 1, box, round, start),
             ClipFresh(ring[n - 1], ring[n], box, round), ring[n], n == |ring| - 1)
  }

  function RingParts(ring: seq<Point>, box: Bounds, round: bool, start: Parts): Parts
    requires RingFits(round, ring, box)
  {
    PartsUpTo(ring, if ring == [] then 0 else |ring| - 1, box, round, start)
  }

  function AllParts(rings: seq<seq<Point>>, box: Bounds, round: bool): Parts
    requires forall ring <- rings :: RingFits(round, ring, box)
  {
    if rings == [] then RawParts([], 0)
    else RingParts(rings[|rings| - 1], box, round, AllParts(rings[..|rings| - 1], box, round))
  }

  // Leaflet keeps the outcode of the last segment's second end in a variable of the module.
  class Clipper {
    var lastCode: OutCode

    constructor ()
    {
      lastCode := OutCode(false, false, false, false);
    }

    method ClipSegment(t0: Point, i0: Point, box: Bounds, useLast: bool, round: bool) returns (c: Clipped)
      requires RoundingFits(round, t0, i0, box)
      requires useLast ==> lastCode == BitCode(t0, box)
      modifies this
      ensures c == ClipFresh(t0, i0, box, round)
      ensures lastCode == BitCode(i0, box)
    {
      var t, i := t0, i0;
      var h := if useLast then lastCode else BitCode(t, box);
      var l := BitCode(i, box);
      lastCode := l;
      while true
        invariant h == BitCode(t, box) && l == BitCode(i, box)
        invariant RoundingFits(round, t, i, box)
        invariant lastCode == BitCode(i0, box)
        invariant ClipFresh(t0, i0, box, round) == ClipLoop(t, i, h, l, box, round)
        decreases Measure(h, l)
      {
        if h.IsZero() && l.IsZero() {
          return Part(t, i);
        }
        if h.Meets(l) {
          return Nothing;
        }
        var s := if h.IsZero() then l else h;
        if h.IsZero() { CodesCross(i, t, box); } else { CodesCross(t, i, box); }
        var r := EdgeIntersection(t, i, s, box, round);
        if s == h {
          TurnShrinks(t, i, box, round, r);
          t, h := r, BitCode(r, box);
        } else {
          TurnShrinksSecond(t, i, box, round, r);
          i, l := r, BitCode(r, box);
        }
      }
    }

    // Each segment after the first of a ring reuses the outcode left by the one before.
    method ClipPoints(rings: seq<seq<Point>>, box: Bounds, round: bool) returns (parts: seq<seq<Point>>)
      requires forall ring <- rings :: RingFits(round, ring, box)
      modifies this
      ensures parts == AllParts(rings, box, round).list
    {
      var s: Parts := RawParts([], 0);
      for r := 0 to |rings|
        invariant s == AllParts(rings[..r], box, round)
      {
        var ring := rings[r];
        assert rings[..r + 1][..r] == rings[..r];
        ghost var start := s;
        var i := 0;
        while i < |ring| - 1
          invariant 0 <= i && (i == 0 || i < |ring|)
          invariant i > 0 ==> lastCode == BitCode(ring[i], box)
          invariant s == PartsUpTo(ring, i, box, round, start)
        {
          var c := ClipSegment(ring[i], ring[i + 1], box, i > 0, round);
          s := Append(s, c, ring[i + 1], i + 1 == |ring| - 1);
          i := i + 1;
        }
      }
      assert rings[..|rings|] == rings;
      parts := s.list;
    }
  }

  // ----- what the parts of a polyline cover -----

  ghost predicate OnPathUpTo(q: Point, path: seq<Point>, n: int) {
    exists k :: 0 <= k < n && k < |path| - 1 && OnSegment(q, path[k], path[k + 1])
  }

  ghost predicate OnParts(q: Point, list: seq<seq<Point>>) {
    exists part <- list :: OnPath(q, part)
  }

  // The stretch from the last point of the growing part to its next point p.
  ghost predicate OnPending(q: Point, s: Parts, p: Point) {
    |s.list| == s.a + 1 && s.list[s.a] != [] && OnSegment(q, s.list[s.a][|s.list[s.a]| - 1], p)
  }

  lemma {:induction false} PathPush(q: Point, path: seq<Point>, p: Point)
    ensures OnPath(q, path + [p]) <==>
            OnPath(q, path) || (path != [] && OnSegment(q, path[|path| - 1], p))
  {
    var longer := path + [p];
    if OnPath(q, longer) {
      var k :| 0 <= k < |longer| - 1 && OnSegment(q, longer[k], longer[k + 1]);
      if k < |path| - 1 {
        assert longer[k] == path[k] && longer[k + 1] == path[k + 1];
      } else {
        assert longer[k] == path[|path| - 1] && longer[k + 1] == p;
      }
    }
    if OnPath(q, path) || (path != [] && OnSegment(q, path[|path| - 1], p)) { PathPushBack(q, path, p); }
  }

  lemma PathPushBack(q: Point, path: seq<Point>, p: Point)
    requires OnPath(q, path) || (path != [] && OnSegment(q, path[|path| - 1], p))
    ensures OnPath(q, path + [p])
  {
    if OnPath(q, path) {
      var k :| 0 <= k < |path| - 1 && OnSegment(q, path[k], path[k + 1]);
      PathPushAt(q, path, p, k);
    } else {
      PathPushEnd(q, path, p);
    }
  }

  lemma PathPushAt(q: Point, path: seq<Point>, p: Point, k: nat)
    requires k + 1 < |path| && OnSegment(q, path[k], path[k + 1])
    ensures OnPath(q, path + [p])
  {
    OnPathAt(q, path + [p], k, path[k], path[k + 1]);
  }

  lemma PathPushEnd(q: Point, path: seq<Point>, p: Point)
    requires path != [] && OnSegment(q, path[|path| - 1], p)
    ensures OnPath(q, path + [p])
  {
    OnPathAt(q, path + [p], |path| - 1, path[|path| - 1], p);
  }

  lemma OnPathAt(q: Point, path: seq<Point>, k: nat, a: Point, b: Point)
    requires k + 1 < |path| && path[k] == a && path[k + 1] == b && OnSegment(q, a, b)
    ensures OnPath(q, path)
  {
  }

  lemma {:induction false} PushCovers(q: Point, s: Parts, p: Point)
    ensures OnParts(q, Push(s, p).list) <==> OnParts(q, s.list) || OnPending(q, s, p)
  {
    var n := Push(s, p);
    if s.a == |s.list| {
      PathPush(q, [], p);
      assert [] + [p] == [p];
      assert n.list[|s.list|] == [p];
      forall part ensures part in n.list <==> part in s.list || part == [p] {}
    } else {
      PathPush(q, s.list[s.a], p);
      assert n.list[s.a] == s.list[s.a] + [p];
      if OnParts(q, n.list) {
        var j :| 0 <= j < |n.list| && OnPath(q, n.list[j]);
        if j != s.a { assert s.list[j] in s.list; } else { assert s.list[j] in s.list; }
      }
      if OnParts(q, s.list) {
        var j :| 0 <= j < |s.list| && OnPath(q, s.list[j]);
        assert OnPath(q, n.list[j]);
        assert n.list[j] in n.list;
      }
      if OnPending(q, s, p) { assert n.list[s.a] in n.list; }
    }
  }

  // Between segments: the growing part, if any, is waiting at ring[n], which is in the box.
  ghost predicate Waiting(s: Parts, ring: seq<Point>, n: nat, box: Bounds)
    requires ring != [] ==> n < |ring|
  {
    |s.list| == s.a + 1 ==> ring != [] && s.list[s.a] != [] && InBox(ring[n], box) && n < |ring| - 1
  }

  // After n segments the finished stretches and the waiting one cover what is visible of those segments.
  lemma {:induction false} PartsUpToExact(ring: seq<Point>, n: nat, box: Bounds, start: Parts, q: Point)
    requires ring != [] && n < |ring| && start.a == |start.list|
    ensures var s := PartsUpTo(ring, n, box, false, start);
            && Waiting(s, ring, n, box)
            && (OnParts(q, s.list) || OnPending(q, s, ring[n]) <==>
                OnParts(q, start.list) || (InBox(q, box) && OnPathUpTo(q, ring, n)))
  {
    if n == 0 {
    } else {
      PartsUpToExact(ring, n - 1, box, start, q);
      var s := PartsUpTo(ring, n - 1, box, false, start);
      var c := ClipFresh(ring[n - 1], ring[n], box, false);
      KeptIsInBox(ring[n - 1], ring[n], box, false);
      ClipExactAt(ring[n - 1], ring[n], box, q);
      PathUpToStep(q, ring, n);
      AppendCovers(q, s, c, ring[n - 1], ring[n], n == |ring| - 1);
    }
  }

  lemma PathUpToStep(q: Point, ring: seq<Point>, n: nat)
    requires 0 < n < |ring|
    ensures OnPathUpTo(q, ring, n) <==> OnPathUpTo(q, ring, n - 1) || OnSegment(q, ring[n - 1], ring[n])
  {
  }

  lemma {:induction false} AppendCovers(q: Point, s: Parts, c: Clipped, from: Point, next: Point, final: bool)
    requires |s.list| == s.a + 1 ==> s.list[s.a] != [] && c.Part? && c.first == from
    ensures var n := Append(s, c, next, final);
            && (|n.list| == n.a + 1 ==> n.list[n.a] != [] && c.Part? && c.last == next && !final)
            && (OnParts(q, n.list) || OnPending(q, n, next) <==>
                OnParts(q, s.list) || OnPending(q, s, from) || (c.Part? && OnSegment(q, c.first, c.last)))
  {
    if c.Part? {
      PushCovers(q, s, c.first);
      var m := Push(s, c.first);
      assert m.list[m.a] != [] && m.list[m.a][|m.list[m.a]| - 1] == c.first;
      PushCovers(q, m, c.last);
    }
  }

  // The parts of a polyline are exactly what the box shows of it.
  lemma {:induction false} RingPartsExact(ring: seq<Point>, box: Bounds, start: Parts, q: Point)
    requires start.a == |start.list|
    ensures var s := RingParts(ring, box, false, start);
            && s.a == |s.list|
            && (OnParts(q, s.list) <==> OnParts(q, start.list) || (InBox(q, box) && OnPath(q, ring)))
  {
    if ring != [] {
      PartsUpToExact(ring, |ring| - 1, box, start, q);
    }
  }

  lemma {:induction false} PolylineExact(rings: seq<seq<Point>>, box: Bounds, q: Point)
    ensures var s := AllParts(rings, box, false);
            && s.a == |s.list|
            && (OnParts(q, s.list) <==> InBox(q, box) && exists ring <- rings :: OnPath(q, ring))
  {
    if rings == [] {
    } else {
      var n := |rings| - 1;
      PolylineExact(rings[..n], box, q);
      RingPartsExact(rings[n], box, AllParts(rings[..n], box, false), q);
      assert rings == rings[..n] + [rings[n]];
    }
  }

  // Rejection, stated without reference to what is kept.
  lemma NothingLeftIff(t: Point, i: Point, box: Bounds)
    ensures ClipFresh(t, i, box, false).Nothing? <==> forall q :: OnSegment(q, t, i) ==> !InBox(q, box)
  {
    var c := ClipFresh(t, i, box, false);
    if c.Nothing? {
      forall q | OnSegment(q, t, i) ensures !InBox(q, box) { ClipExactAt(t, i, box, q); }
    } else {
      ClipExactAt(t, i, box, c.first);
      EndsOnSegment(c.first, c.last);
    }
  }

  // ----- how a ring is cut into parts -----

  // Segment k of a ring is visible, and starts a part of its own: it is the ring's first, or the
  // point it starts from is not in the box.
  predicate StartsPart(ring: seq<Point>, k: nat, box: Bounds, round: bool)
    requires k + 1 < |ring| && RingFits(round, ring, box)
  {
    ClipFresh(ring[k], ring[k + 1], box, round).Part? && (k == 0 || !InBox(ring[k], box))
  }

  function Starts(ring: seq<Point>, n: nat, box: Bounds, round: bool): nat
    requires (n == 0 || n < |ring|) && RingFits(round, ring, box)
  {
    if n == 0 then 0
    else Starts(ring, n - 1, box, round) + if StartsPart(ring, n - 1, box, round) then 1 else 0
  }

  // After n segments a part is open exactly if the last of them was visible and ended in the box,
  // and one part was begun for each segment that starts one.
  lemma {:induction false} PartsBegun(ring: seq<Point>, n: nat, box: Bounds, round: bool, start: Parts)
    requires (n == 0 || n < |ring|) && RingFits(round, ring, box) && start.a == |start.list|
    ensures var s := PartsUpTo(ring, n, box, round, start);
            && |s.list| == |start.list| + Starts(ring, n, box, round)
            && (|s.list| == s.a + 1 <==> 0 < n < |ring| - 1 && InBox(ring[n], box))
  {
    if n == 0 {
    } else {
      PartsBegun(ring, n - 1, box, round, start);
      KeptIsInBox(ring[n - 1], ring[n], box, round);
    }
  }

  // A ring is cut into as many parts as it has visible segments that start one.
  lemma {:induction false} PartCount(ring: seq<Point>, box: Bounds, round: bool, start: Parts)
    requires ring != [] && RingFits(round, ring, box) && start.a == |start.list|
    ensures var s := RingParts(ring, box, round, start);
            s.a == |s.list| == |start.list| + Starts(ring, |ring| - 1, box, round)
  {
    PartsBegun(ring, |ring| - 1, box, round, start);
  }

  lemma PushLast(s: Parts, list: seq<seq<Point>>, part: seq<Point>, p: Point)
    requires s.a == |list| && s.list == if part == [] then list else list + [part]
    ensures Push(s, p) == RawParts(list + [part + [p]], |list|)
  {
    if part == [] { assert [] + [p] == [p]; } else { assert s.list[s.a := part + [p]] == list + [part + [p]]; }
  }

  // Appending a segment that lies in the box to an open part, or to none.
  lemma AppendInside(s: Parts, list: seq<seq<Point>>, part: seq<Point>, p: Point, next: Point, final: bool)
    requires s.a == |list| && s.list == if part == [] then list else list + [part]
    ensures Append(s, Part(p, next), next, final) ==
            RawParts(list + [part + [p] + if final then [next] else []], |list| + if final then 1 else 0)
  {
    var longer := part + [p];
    PushLast(s, list, part, p);
    if final {
      PushLast(Push(s, p), list, longer, next);
    } else {
      assert longer + [] == longer;
    }
  }

  // The part that grows with the first n segments of a ring in the box.
  function Grown(ring: seq<Point>, n: nat): seq<Point>
    requires n < |ring|
  {
    if n == |ring| - 1 then ring else ring[..n]
  }

  lemma {:induction false} InsideUpTo(ring: seq<Point>, n: nat, box: Bounds, round: bool, start: Parts)
    requires 0 < n < |ring| && RingFits(round, ring, box) && start.a == |start.list|
    requires forall p <- ring :: InBox(p, box)
    ensures PartsUpTo(ring, n, box, round, start) ==
            RawParts(start.list + [Grown(ring, n)], |start.list| + if n == |ring| - 1 then 1 else 0)
  {
    BitCodeMeaning(ring[n - 1], box);
    BitCodeMeaning(ring[n], box);
    assert ClipFresh(ring[n - 1], ring[n], box, round) == Part(ring[n - 1], ring[n]);
    if n > 1 { InsideUpTo(ring, n - 1, box, round, start); }
    AppendInside(PartsUpTo(ring, n - 1, box, round, start), start.list, ring[..n - 1], ring[n - 1], ring[n], n == |ring| - 1);
    assert ring[..n - 1] + [ring[n - 1]] == ring[..n];
    if n == |ring| - 1 { assert ring[..n] + [ring[n]] == ring; } else { assert ring[..n] + [] == ring[..n]; }
  }

  // A ring in the box stays in one piece: it adds exactly one part, the ring itself.
  lemma InsideRing(ring: seq<Point>, box: Bounds, round: bool, start: Parts)
    requires |ring| >= 2 && RingFits(round, ring, box) && start.a == |start.list|
    requires forall p <- ring :: InBox(p, box)
    ensures RingParts(ring, box, round, start).list == start.list + [ring]
  {
    InsideUpTo(ring, |ring| - 1, box, round, start);
  }
}
