/** The draw order of Leaflet's Canvas renderer: a doubly linked list of order entries. */
module DrawOrder {
  import opened Collections

  // ----- the plain sequence that the list stands for -----

  function Without(s: seq<int>, x: int): seq<int> {
    if s == [] then []
    else if s[0] == x then Without(s[1..], x)
    else [s[0]] + Without(s[1..], x)
  }

  function ToEnd(s: seq<int>, x: int): seq<int> { if x in s then Without(s, x) + [x] else s }

  function ToStart(s: seq<int>, x: int): seq<int> { if x in s then [x] + Without(s, x) else s }

  lemma {:induction false} WithoutAbsent(s: seq<int>, x: int)
    requires x !in s
    ensures Without(s, x) == s
  {
    if s == [] {
    } else {
      WithoutAbsent(s[1..], x);
    }
  }

  lemma {:induction false} WithoutAt(s: seq<int>, k: nat)
    requires Distinct(s) && k < |s|
    ensures Without(s, s[k]) == s[..k] + s[k + 1..]
  {
    if k == 0 {
      assert s[0] !in s[1..];
      WithoutAbsent(s[1..], s[0]);
    } else {
      WithoutAt(s[1..], k - 1);
      assert s[1..][..k - 1] + s[1..][k - 1 + 1..] == s[1..k] + s[k + 1..];
      assert [s[0]] + (s[1..k] + s[k + 1..]) == s[..k] + s[k + 1..];
    }
  }

  lemma {:induction false} WithoutFacts(s: seq<int>, x: int)
    ensures forall y :: y in Without(s, x) <==> y in s && y != x
    ensures Distinct(s) ==> Distinct(Without(s, x))
    ensures Without(Without(s, x), x) == Without(s, x)
  {
    if s == [] {
    } else {
      WithoutFacts(s[1..], x);
      assert s == [s[0]] + s[1..];
      if Distinct(s) { assert s[0] !in s[1..]; }
      if s[0] != x { assert Without(s, x)[1..] == Without(s[1..], x); }
    }
  }

  lemma {:induction false} WithoutConcat(s: seq<int>, t: seq<int>, x: int)
    ensures Without(s + t, x) == Without(s, x) + Without(t, x)
  {
    if s == [] {
      assert s + t == t;
    } else {
      WithoutConcat(s[1..], t, x);
      assert (s + t)[1..] == s[1..] + t && (s + t)[0] == s[0];
      assert [s[0]] + (Without(s[1..], x) + Without(t, x)) == ([s[0]] + Without(s[1..], x)) + Without(t, x);
    }
  }

  // Moving a layer changes nobody else's place relative to the others, and moves only that layer.
  lemma MovesOnlyOne(s: seq<int>, x: int)
    requires x in s
    ensures Without(ToEnd(s, x), x) == Without(s, x) == Without(ToStart(s, x), x)
    ensures ToEnd(s, x)[|ToEnd(s, x)| - 1] == x && ToStart(s, x)[0] == x
  {
    WithoutFacts(s, x);
    WithoutConcat(Without(s, x), [x], x);
    WithoutConcat([x], Without(s, x), x);
    assert Without([x], x) == [];
  }

  // ----- operations -----

  datatype Op = Add(layer: int) | Remove(layer: int) | Front(layer: int) | Back(layer: int)

  function Apply(s: seq<int>, op: Op): seq<int> {
    match op
    case Add(x) => s + [x]
    case Remove(x) => Without(s, x)
    case Front(x) => ToEnd(s, x)
    case Back(x) => ToStart(s, x)
  }

  // A layer is added while it is not on the canvas and removed while it is.
  predicate Legal(s: seq<int>, op: Op) {
    match op
    case Add(x) => x !in s
    case Remove(x) => x in s
    case Front(_) => true
    case Back(_) => true
  }

  function ApplyAll(s: seq<int>, ops: seq<Op>): seq<int>
    decreases ops
  {
    if ops == [] then s else ApplyAll(Apply(s, ops[0]), ops[1..])
  }

  predicate LegalAll(s: seq<int>, ops: seq<Op>)
    decreases ops
  {
    ops == [] || (Legal(s, ops[0]) && LegalAll(Apply(s, ops[0]), ops[1..]))
  }

  function Elements(s: seq<int>): set<int> { set x | x in s }

  // After any legal run each layer is drawn once, and the layers drawn are those added and not removed since.
  function Present(on: set<int>, ops: seq<Op>): set<int>
    decreases ops
  {
    if ops == [] then on
    else match ops[0]
      case Add(x) => Present(on + {x}, ops[1..])
      case Remove(x) => Present(on - {x}, ops[1..])
      case Front(_) => Present(on, ops[1..])
      case Back(_) => Present(on, ops[1..])
  }

  lemma {:induction false} RunDrawsEachOnce(s: seq<int>, ops: seq<Op>)
    requires Distinct(s) && LegalAll(s, ops)
    ensures Distinct(ApplyAll(s, ops))
    ensures Elements(ApplyAll(s, ops)) == Present(Elements(s), ops)
    decreases ops
  {
    if ops == [] {
    } else {
      var n := Apply(s, ops[0]);
      WithoutFacts(s, ops[0].layer);
      assert Distinct(n);
      RunDrawsEachOnce(n, ops[1..]);
      var on := Elements(s);
      match ops[0] {
        case Add(x) => assert Elements(n) == on + {x};
        case Remove(x) => assert Elements(n) == on - {x};
        case Front(x) => assert Elements(n) == on;
        case Back(x) => assert Elements(n) == on;
      }
    }
  }

  // ----- the linked list -----

  class Order {
    const layer: int
    var prev: Order?
    var next: Order?

    constructor (layer: int, prev: Order?)
      ensures this.layer == layer && this.prev == prev && this.next == null
    {
      this.layer, this.prev, this.next := layer, prev, null;
    }
  }

  function Layers(nodes: seq<Order>): seq<int> {
    seq(|nodes|, i requires 0 <= i < |nodes| => nodes[i].layer)
  }

  ghost predicate Linked(nodes: seq<Order>, first: Order?, last: Order?)
    reads nodes
  {
    && Distinct(nodes)
    && first == (if nodes == [] then null else nodes[0])
    && last == (if nodes == [] then null else nodes[|nodes| - 1])
    && (forall i {:trigger nodes[i].prev} :: 0 <= i < |nodes| ==> nodes[i].prev == if i == 0 then null else nodes[i - 1])
    && (forall i {:trigger nodes[i].next} :: 0 <= i < |nodes| ==> nodes[i].next == if i == |nodes| - 1 then null else nodes[i + 1])
  }

  // The _order property of every layer on the canvas.
  ghost predicate Indexed(nodes: seq<Order>, order: map<int, Order>)
  {
    && (forall n <- nodes :: n.layer in order && order[n.layer] == n)
    && (forall x <- order :: order[x] in nodes && order[x].layer == x)
  }

  // Taking node k out of the sequence takes its layer out of the layers.
  lemma TakeOut(nodes: seq<Order>, k: nat)
    requires k < |nodes| && Distinct(Layers(nodes))
    ensures Without(Layers(nodes), nodes[k].layer) == Layers(nodes[..k] + nodes[k + 1..])
    ensures nodes[k].layer in Layers(nodes)
  {
    WithoutAt(Layers(nodes), k);
    assert Layers(nodes)[k] == nodes[k].layer;
  }

  lemma OnCanvas(nodes: seq<Order>, order: map<int, Order>, layer: int)
    requires Indexed(nodes, order)
    ensures layer in order <==> layer in Layers(nodes)
  {
    if layer in order {
      var k :| 0 <= k < |nodes| && nodes[k] == order[layer];
      assert Layers(nodes)[k] == layer;
    }
    if layer in Layers(nodes) {
      var k :| 0 <= k < |nodes| && Layers(nodes)[k] == layer;
      assert nodes[k] in nodes;
    }
  }

  lemma EntryAt(nodes: seq<Order>, order: map<int, Order>, layer: int) returns (k: nat)
    requires Indexed(nodes, order) && layer in order
    ensures k < |nodes| && nodes[k] == order[layer] && nodes[k].layer == layer
  {
    k :| 0 <= k < |nodes| && nodes[k] == order[layer];
  }

  lemma Removed(nodes: seq<Order>, order: map<int, Order>, k: nat)
    requires Distinct(nodes) && Indexed(nodes, order) && k < |nodes|
    ensures var m := nodes[..k] + nodes[k + 1..];
            && Layers(m) == Without(Layers(nodes), nodes[k].layer)
            && Indexed(m, order - {nodes[k].layer})
  {
    TakeOut(nodes, k);
    var m := nodes[..k] + nodes[k + 1..];
    forall n | n in m ensures n in nodes && n.layer != nodes[k].layer {
      assert nodes[k] in nodes;
    }
    forall x | x in order && x != nodes[k].layer ensures order[x] in m {
      var j :| 0 <= j < |nodes| && nodes[j] == order[x];
      assert if j < k then m[j] == nodes[j] else m[j - 1] == nodes[j];
    }
  }

  lemma MovedLast(nodes: seq<Order>, order: map<int, Order>, k: nat)
    requires Distinct(nodes) && Indexed(nodes, order) && k < |nodes|
    ensures var m := nodes[..k] + nodes[k + 1..];
            && Layers(m + [nodes[k]]) == ToEnd(Layers(nodes), nodes[k].layer)
            && Indexed(m + [nodes[k]], order) && nodes[k] !in m
            && (k == |nodes| - 1 ==> m + [nodes[k]] == nodes)
  {
    TakeOut(nodes, k);
    var m := nodes[..k] + nodes[k + 1..];
    assert Layers(m + [nodes[k]]) == Layers(m) + [nodes[k].layer];
    SameEntries(nodes, order, k, m + [nodes[k]]);
  }

  lemma MovedFirst(nodes: seq<Order>, order: map<int, Order>, k: nat)
    requires Distinct(nodes) && Indexed(nodes, order) && k < |nodes|
    ensures var m := nodes[..k] + nodes[k + 1..];
            && Layers([nodes[k]] + m) == ToStart(Layers(nodes), nodes[k].layer)
            && Indexed([nodes[k]] + m, order) && nodes[k] !in m
            && (k == 0 ==> [nodes[k]] + m == nodes)
  {
    TakeOut(nodes, k);
    var m := nodes[..k] + nodes[k + 1..];
    assert Layers([nodes[k]] + m) == [nodes[k].layer] + Layers(m);
    SameEntries(nodes, order, k, [nodes[k]] + m);
  }

  lemma SameEntries(nodes: seq<Order>, order: map<int, Order>, k: nat, moved: seq<Order>)
    requires Indexed(nodes, order) && k < |nodes|
    requires multiset(moved) == multiset(nodes[..k]) + multiset(nodes[k + 1..]) + multiset{nodes[k]}
    ensures Indexed(moved, order)
  {
    assert nodes == nodes[..k] + [nodes[k]] + nodes[k + 1..];
    assert multiset(moved) == multiset(nodes);
    forall n ensures n in moved <==> n in nodes {
      assert n in moved <==> n in multiset(moved);
      assert n in nodes <==> n in multiset(nodes);
    }
  }

  // The links around k as Unlink leaves them.
  ghost predicate Bypassed(was: seq<Order>, k: nat)
    requires k < |was|
    reads was
  {
    && (forall m {:trigger was[m].prev} :: 0 <= m < |was| && m != k ==>
          was[m].prev == if m == 0 || (m == 1 && k == 0) then null else if m == k + 1 then was[k - 1] else was[m - 1])
    && (forall m {:trigger was[m].next} :: 0 <= m < |was| && m != k ==>
          was[m].next == if m == |was| - 1 || (m == |was| - 2 && k == |was| - 1) then null
                         else if m + 1 == k then was[k + 1] else was[m + 1])
  }

  // Around a bypassed entry the others are linked.
  lemma Joined(was: seq<Order>, now: seq<Order>, k: nat)
    requires k < |was| && Distinct(was) && now == was[..k] + was[k + 1..] && Bypassed(was, k)
    ensures Linked(now, if now == [] then null else now[0], if now == [] then null else now[|now| - 1])
  {
    forall j {:trigger now[j].prev} | 0 <= j < |now| ensures now[j].prev == if j == 0 then null else now[j - 1] {
      assert now[j] == was[if j < k then j else j + 1];
    }
    forall j {:trigger now[j].next} | 0 <= j < |now|
      ensures now[j].next == if j == |now| - 1 then null else now[j + 1]
    {
      assert now[j] == was[if j < k then j else j + 1];
    }
  }

  class Canvas {
    var drawFirst: Order?
    var drawLast: Order?
    var order: map<int, Order>
    ghost var nodes: seq<Order>

    ghost predicate Valid()
      reads this, nodes
    {
      Linked(nodes, drawFirst, drawLast) && Indexed(nodes, order)
    }

    // The forward walk.
    ghost function Contents(): seq<int>
      reads this
    {
      Layers(nodes)
    }

    constructor ()
      ensures Valid() && Contents() == []
    {
      drawFirst, drawLast, order, nodes := null, null, map[], [];
    }

    method InitPath(layer: int)
      requires Valid() && layer !in order
      modifies this, nodes
      ensures Valid() && Contents() == old(Contents()) + [layer]
      ensures forall i :: 0 <= i < |nodes| ==> nodes[i] in old(nodes) || fresh(nodes[i])
    {
      var t := new Order(layer, drawLast);
      order := order[layer := t];
      Attach(t);
    }

    // A new entry that points back to the last one becomes the last.
    method Attach(t: Order)
      requires Linked(nodes, drawFirst, drawLast) && t !in nodes && t.prev == drawLast && t.next == null
      modifies this, nodes
      ensures order == old(order) && nodes == old(nodes) + [t]
      ensures Linked(nodes, drawFirst, drawLast)
    {
      if drawLast != null {
        drawLast.next := t;
      }
      drawLast := t;
      if drawFirst == null {
        drawFirst := drawLast;
      }
      nodes := nodes + [t];
    }

    // The neighbours of t are joined; t keeps its own links.
    method Unlink(t: Order, ghost k: nat)
      requires Linked(nodes, drawFirst, drawLast) && k < |nodes| && nodes[k] == t
      modifies this, nodes
      ensures order == old(order) && nodes == old(nodes)[..k] + old(nodes)[k + 1..]
      ensures Linked(nodes, drawFirst, drawLast)
    {
      var e, i := t.next, t.prev;
      if e != null {
        e.prev := i;
      } else {
        drawLast := i;
      }
      if i != null {
        i.next := e;
      } else {
        drawFirst := e;
      }
      nodes := nodes[..k] + nodes[k + 1..];
      Joined(old(nodes), nodes, k);
    }

    method LinkLast(n: Order)
      requires Linked(nodes, drawFirst, drawLast) && nodes != [] && n !in nodes
      modifies this, nodes, n
      ensures order == old(order) && nodes == old(nodes) + [n]
      ensures Linked(nodes, drawFirst, drawLast)
    {
      n.prev := drawLast;
      drawLast.next := n;
      n.next := null;
      drawLast := n;
      nodes := nodes + [n];
    }

    method LinkFirst(n: Order)
      requires Linked(nodes, drawFirst, drawLast) && nodes != [] && n !in nodes
      modifies this, nodes, n
      ensures order == old(order) && nodes == [n] + old(nodes)
      ensures Linked(nodes, drawFirst, drawLast)
    {
      n.prev := null;
      n.next := drawFirst;
      drawFirst.prev := n;
      drawFirst := n;
      ghost var was := nodes;
      nodes := [n] + was;
      forall i, j | 0 <= i < j < |nodes| ensures nodes[i] != nodes[j] {
        assert nodes[j] == was[j - 1];
        if i > 0 { assert nodes[i] == was[i - 1]; } else { assert was[j - 1] in was; }
      }
    }

    method RemovePath(layer: int)
      requires Valid() && layer in order
      modifies this, nodes
      ensures Valid() && Contents() == Without(old(Contents()), layer)
      ensures forall i :: 0 <= i < |nodes| ==> nodes[i] in old(nodes)
    {
      var t := order[layer];
      ghost var k := EntryAt(nodes, order, layer);
      ghost var rest := nodes[..k] + nodes[k + 1..];
      Removed(nodes, order, k);
      Unlink(t, k);
      assert nodes == rest;
      order := order - {layer};
    }

    // Unless it is last already, the entry is unlinked and appended.
    method BringToFront(layer: int)
      requires Valid()
      modifies this, nodes
      ensures Valid() && Contents() == ToEnd(old(Contents()), layer)
      ensures forall i :: 0 <= i < |nodes| ==> nodes[i] in old(nodes)
    {
      OnCanvas(nodes, order, layer);
      if layer in order {
        var n := order[layer];
        ghost var k := EntryAt(nodes, order, layer);
        MovedLast(nodes, order, k);
        if n.next != null {
          UnlinkThenLast(n, k);
        }
      }
    }

    method UnlinkThenLast(n: Order, ghost k: nat)
      requires Linked(nodes, drawFirst, drawLast) && k < |nodes| - 1 && nodes[k] == n
      modifies this, nodes
      ensures order == old(order) && nodes == old(nodes)[..k] + old(nodes)[k + 1..] + [n]
      ensures Linked(nodes, drawFirst, drawLast)
    {
      Unlink(n, k);
      LinkLast(n);
    }

    // Unless it is first already, the entry is unlinked and put in front.
    method BringToBack(layer: int)
      requires Valid()
      modifies this, nodes
      ensures Valid() && Contents() == ToStart(old(Contents()), layer)
      ensures forall i :: 0 <= i < |nodes| ==> nodes[i] in old(nodes)
    {
      OnCanvas(nodes, order, layer);
      if layer in order {
        var n := order[layer];
        ghost var k := EntryAt(nodes, order, layer);
        MovedFirst(nodes, order, k);
        if n.prev != null {
          UnlinkThenFirst(n, k);
        }
      }
    }

    method UnlinkThenFirst(n: Order, ghost k: nat)
      requires Linked(nodes, drawFirst, drawLast) && 0 < k < |nodes| && nodes[k] == n
      modifies this, nodes
      ensures order == old(order) && nodes == [n] + (old(nodes)[..k] + old(nodes)[k + 1..])
      ensures Linked(nodes, drawFirst, drawLast)
    {
      Unlink(n, k);
      LinkFirst(n);
    }

    method Perform(op: Op)
      requires Valid() && Legal(Contents(), op)
      modifies this, nodes
      ensures Valid() && Contents() == Apply(old(Contents()), op)
      ensures forall i :: 0 <= i < |nodes| ==> nodes[i] in old(nodes) || fresh(nodes[i])
    {
      OnCanvas(nodes, order, op.layer);
      match op {
        case Add(x) => InitPath(x);
        case Remove(x) => RemovePath(x);
        case Front(x) => BringToFront(x);
        case Back(x) => BringToBack(x);
      }
    }

    // Any legal run of operations acts on the forward walk as on a plain sequence.
    method Run(ops: seq<Op>)
      requires Valid() && LegalAll(Contents(), ops)
      modifies this, nodes
      ensures Valid() && Contents() == ApplyAll(old(Contents()), ops)
      decreases ops
    {
      if ops != [] {
        Perform(ops[0]);
        Run(ops[1..]);
      }
    }
  }
}
