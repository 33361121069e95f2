/** The poller: flattening the tree of configured datapoints, indexing them by node, and publishing
    one value per datapoint after every poll. */
module Poller {
  import opened Collections
  import opened Options

  // A configured datapoint with an opcua section, a folder, or anything else.
  datatype Point = Point(key: string, path: string, index: Option<nat>)
  datatype Item = Data(point: Point) | Folder(values: seq<Item>) | Other

  // A node's value, and what is published.
  datatype Value = Scalar(x: real) | Vector(xs: seq<real>)

  // The datapoints of a tree, in the order of a depth-first walk.
  function Flatten(items: seq<Item>): seq<Point> {
    if items == [] then [] else PointsOf(items[0]) + Flatten(items[1..])
  }

  function PointsOf(item: Item): seq<Point> {
    match item
    case Data(p) => [p]
    case Folder(values) => Flatten(values)
    case Other => []
  }

  // p is a datapoint of the tree, at any depth.
  ghost predicate InTree(items: seq<Item>, p: Point) {
    exists k :: 0 <= k < |items| && InItem(items[k], p)
  }

  ghost predicate InItem(item: Item, p: Point) {
    item == Data(p) || (item.Folder? && InTree(item.values, p))
  }

  // The walk visits every datapoint of the tree and nothing else.
  lemma {:induction false} FlattenVisits(items: seq<Item>, p: Point)
    ensures p in Flatten(items) <==> InTree(items, p)
    decreases items
  {
    if items == [] {
    } else {
      FlattenVisits(items[1..], p);
      PointsVisit(items[0], p);
      forall k | 0 < k < |items| ensures items[k] == items[1..][k - 1] {}
      if InTree(items[1..], p) {
        var k :| 0 <= k < |items[1..]| && InItem(items[1..][k], p);
        assert InItem(items[k + 1], p);
      }
    }
  }

  lemma {:induction false} PointsVisit(item: Item, p: Point)
    ensures p in PointsOf(item) <==> InItem(item, p)
    decreases item
  {
    match item {
      case Data(_) =>
      case Folder(values) => FlattenVisits(values, p);
      case Other =>
    }
  }

  // Paths resolve to node ids; several paths may lead to one node.
  type Ids = map<string, string>

  predicate Resolved(ids: Ids, flat: seq<Point>) { forall p <- flat :: p.path in ids }

  function IdsOf(ids: Ids, flat: seq<Point>): seq<string>
    requires Resolved(ids, flat)
  {
    seq(|flat|, i requires 0 <= i < |flat| => assert flat[i] in flat; ids[flat[i].path])
  }

  type Index = map<string, seq<Point>>

  function AddTo(index: Index, id: string, p: Point): Index {
    index[id := (if id in index then index[id] else []) + [p]]
  }

  function AddAll(index: Index, ids: Ids, flat: seq<Point>): Index
    requires Resolved(ids, flat)
    decreases flat
  {
    if flat == [] then index
    else
      assert flat[0] in flat;
      AddAll(AddTo(index, ids[flat[0].path], flat[0]), ids, flat[1..])
  }

  // The datapoints of one node, in order.
  function OfNode(ids: Ids, flat: seq<Point>, id: string): seq<Point>
    requires Resolved(ids, flat)
  {
    if flat == [] then []
    else
      assert flat[0] in flat;
      (if ids[flat[0].path] == id then [flat[0]] else []) + OfNode(ids, flat[1..], id)
  }

  function At(index: Index, id: string): seq<Point> { if id in index then index[id] else [] }

  // The index holds, under each node, exactly that node's datapoints in order.
  lemma {:induction false} AddAllIsOfNode(index: Index, ids: Ids, flat: seq<Point>, id: string)
    requires Resolved(ids, flat)
    ensures At(AddAll(index, ids, flat), id) == At(index, id) + OfNode(ids, flat, id)
    decreases flat
  {
    if flat == [] {
    } else {
      assert flat[0] in flat;
      var here := ids[flat[0].path];
      var first := if here == id then [flat[0]] else [];
      var rest := OfNode(ids, flat[1..], id);
      AddAllIsOfNode(AddTo(index, here, flat[0]), ids, flat[1..], id);
      Regroup(At(index, id), first, rest);
    }
  }

  lemma {:induction false} AddAllConcat(index: Index, ids: Ids, a: seq<Point>, b: seq<Point>)
    requires Resolved(ids, a) && Resolved(ids, b)
    ensures Resolved(ids, a + b) && AddAll(index, ids, a + b) == AddAll(AddAll(index, ids, a), ids, b)
    decreases a
  {
    if a == [] {
      assert a + b == b;
    } else {
      assert a[0] in a;
      AddAllConcat(AddTo(index, ids[a[0].path], a[0]), ids, a[1..], b);
      assert (a + b)[1..] == a[1..] + b;
    }
  }

  lemma ResolvedParts(ids: Ids, items: seq<Item>)
    requires items != [] && Resolved(ids, Flatten(items))
    ensures Resolved(ids, PointsOf(items[0])) && Resolved(ids, Flatten(items[1..]))
  {
    forall p | p in PointsOf(items[0]) || p in Flatten(items[1..]) ensures p in Flatten(items) {}
  }

  lemma IdsConcat(ids: Ids, a: seq<Point>, b: seq<Point>)
    requires Resolved(ids, a) && Resolved(ids, b) && Resolved(ids, a + b)
    ensures IdsOf(ids, a + b) == IdsOf(ids, a) + IdsOf(ids, b)
  {
  }

  lemma {:induction false} InOfNode(ids: Ids, flat: seq<Point>, id: string, p: Point)
    requires Resolved(ids, flat)
    ensures p in OfNode(ids, flat, id) <==> p in flat && ids[p.path] == id
  {
    if flat == [] {
    } else {
      assert flat[0] in flat;
      InOfNode(ids, flat[1..], id, p);
      assert flat == [flat[0]] + flat[1..];
    }
  }

  // ----- publishing -----

  function Select(p: Point, v: Value): Value {
    if p.index.Some? && v.Vector? && p.index.value < |v.xs| then Scalar(v.xs[p.index.value]) else v
  }

  // p is published with the value v of its node: with a cell of it if p has an index, else as it is.
  predicate Shows(out: map<string, Value>, p: Point, v: Value) {
    && p.key in out
    && match p.index
       case None => out[p.key] == v
       case Some(i) => v.Vector? && i < |v.xs| ==> out[p.key] == Scalar(v.xs[i])
  }

  function PublishNode(out: map<string, Value>, points: seq<Point>, v: Value, n: nat): map<string, Value>
    requires n <= |points|
  {
    if n == 0 then out else PublishNode(out, points, v, n - 1)[points[n - 1].key := Select(points[n - 1], v)]
  }

  // The map after the first n polled nodes.
  function Publish(index: Index, nodes: seq<string>, results: seq<Value>, n: nat): map<string, Value>
    requires n <= |nodes| == |results|
  {
    if n == 0 then map[]
    else
      var points := At(index, nodes[n - 1]);
      PublishNode(Publish(index, nodes, results, n - 1), points, results[n - 1], |points|)
  }

  // Datapoints with an index need an array that is long enough.
  predicate Selectable(points: seq<Point>, v: Value) {
    forall p <- points :: p.index.Some? ==> v.Vector? && p.index.value < |v.xs|
  }

  class Client {
    const ids: Ids
    var nodes: seq<string>
    var index: Index

    constructor (ids: Ids)
      ensures this.ids == ids && nodes == [] && index == map[]
    {
      this.ids, nodes, index := ids, [], map[];
    }

    // get_opcua_nodes_recursive
    method Collect(items: seq<Item>)
      requires Resolved(ids, Flatten(items))
      modifies this
      ensures nodes == old(nodes) + IdsOf(ids, Flatten(items))
      ensures index == AddAll(old(index), ids, Flatten(items))
      decreases items
    {
      if items != [] {
        ResolvedParts(ids, items);
        AddAllConcat(index, ids, PointsOf(items[0]), Flatten(items[1..]));
        IdsConcat(ids, PointsOf(items[0]), Flatten(items[1..]));
        CollectItem(items[0]);
        Collect(items[1..]);
      }
    }

    method CollectItem(item: Item)
      requires Resolved(ids, PointsOf(item))
      modifies this
      ensures nodes == old(nodes) + IdsOf(ids, PointsOf(item))
      ensures index == AddAll(old(index), ids, PointsOf(item))
      decreases item
    {
      match item {
        case Data(p) =>
          assert p in PointsOf(item);
          var id := ids[p.path];
          nodes := nodes + [id];
          index := AddTo(index, id, p);
          assert [p][1..] == [];
        case Folder(values) => Collect(values);
        case Other =>
      }
    }

    // opcua_data_handler: one poll, with one result per polled node.
    method Handle(results: seq<Value>) returns (out: map<string, Value>)
      requires |results| == |nodes|
      requires forall i :: 0 <= i < |nodes| ==> nodes[i] in index && Selectable(index[nodes[i]], results[i])
      ensures out == Publish(index, nodes, results, |nodes|)
    {
      out := map[];
      for i := 0 to |results|
        invariant out == Publish(index, nodes, results, i)
      {
        var points := index[nodes[i]];
        var value := results[i];
        ghost var before := out;
        for n := 0 to |points|
          invariant out == PublishNode(before, points, value, n)
        {
          var p := points[n];
          assert p in points;
          if p.index.Some? {
            out := out[p.key := Scalar(value.xs[p.index.value])];
          } else {
            out := out[p.key := value];
          }
        }
      }
    }
  }

  // ----- agreement -----

  ghost predicate DistinctKeys(flat: seq<Point>) {
    forall p <- flat, q <- flat :: p.key == q.key ==> p == q
  }

  // Publishing a node leaves other keys alone,
  lemma {:induction false} NodeLeaves(out: map<string, Value>, points: seq<Point>, v: Value, n: nat, key: string)
    requires n <= |points| && forall q <- points :: q.key != key
    ensures var now := PublishNode(out, points, v, n);
            (key in now <==> key in out) && (key in now ==> now[key] == out[key])
  {
    if n == 0 {
    } else {
      NodeLeaves(out, points, v, n - 1, key);
      assert points[n - 1] in points;
    }
  }

  // and gives each of its datapoints its value.
  lemma {:induction false} NodePublishes(out: map<string, Value>, points: seq<Point>, v: Value, n: nat, k: nat)
    requires k < n <= |points| && DistinctKeys(points)
    ensures var now := PublishNode(out, points, v, n);
            points[k].key in now && now[points[k].key] == Select(points[k], v)
  {
    if k == n - 1 {
    } else {
      NodePublishes(out, points, v, n - 1, k);
      assert points[n - 1] in points && points[k] in points;
    }
  }

  // The last poll of a node among the first n.
  ghost predicate LastPoll(nodes: seq<string>, n: nat, id: string, i: nat) {
    i < n <= |nodes| && nodes[i] == id && forall j :: i < j < n ==> nodes[j] != id
  }

  // One more poll, of the datapoint's own node or of another.
  lemma PollOnce(ids: Ids, flat: seq<Point>, out: map<string, Value>, id: string, v: Value, p: Point)
    requires Resolved(ids, flat) && DistinctKeys(flat) && p in flat
    ensures var points := At(AddAll(map[], ids, flat), id); var now := PublishNode(out, points, v, |points|);
            if ids[p.path] == id then p.key in now && now[p.key] == Select(p, v)
            else (p.key in now <==> p.key in out) && (p.key in now ==> now[p.key] == out[p.key])
  {
    var points := At(AddAll(map[], ids, flat), id);
    NodePoints(ids, flat, id, points);
    if ids[p.path] == id {
      var k :| 0 <= k < |points| && points[k] == p;
      NodePublishes(out, points, v, |points|, k);
    } else {
      forall q | q in points ensures q.key != p.key {}
      NodeLeaves(out, points, v, |points|, p.key);
    }
  }

  // After n polls a datapoint is published if and only if its node was polled,
  lemma {:induction false} PublishedIff(ids: Ids, flat: seq<Point>, nodes: seq<string>, results: seq<Value>, n: nat, p: Point)
    requires Resolved(ids, flat) && DistinctKeys(flat) && p in flat
    requires n <= |nodes| == |results|
    ensures p.key in Publish(AddAll(map[], ids, flat), nodes, results, n) <==> ids[p.path] in nodes[..n]
  {
    if n == 0 {
    } else {
      PublishedIff(ids, flat, nodes, results, n - 1, p);
      PollOnce(ids, flat, Publish(AddAll(map[], ids, flat), nodes, results, n - 1), nodes[n - 1], results[n - 1], p);
      InPrefix(nodes, n, ids[p.path]);
    }
  }

  lemma InPrefix(nodes: seq<string>, n: nat, id: string)
    requires 0 < n <= |nodes|
    ensures id in nodes[..n] <==> id in nodes[..n - 1] || id == nodes[n - 1]
  {
    assert nodes[..n] == nodes[..n - 1] + [nodes[n - 1]];
  }

  // and shows the result of its node's last poll.
  lemma {:induction false} PublishAt(ids: Ids, flat: seq<Point>, nodes: seq<string>, results: seq<Value>, n: nat, p: Point, i: nat)
    requires Resolved(ids, flat) && DistinctKeys(flat) && p in flat
    requires n <= |nodes| == |results| && LastPoll(nodes, n, ids[p.path], i)
    ensures var out := Publish(AddAll(map[], ids, flat), nodes, results, n);
            Shows(out, p, results[i]) && out[p.key] == Select(p, results[i])
  {
    PollOnce(ids, flat, Publish(AddAll(map[], ids, flat), nodes, results, n - 1), nodes[n - 1], results[n - 1], p);
    if i == n - 1 {
    } else {
      PublishAt(ids, flat, nodes, results, n - 1, p, i);
    }
  }

  lemma NodePoints(ids: Ids, flat: seq<Point>, id: string, points: seq<Point>)
    requires Resolved(ids, flat) && points == At(AddAll(map[], ids, flat), id)
    ensures forall q :: q in points <==> q in flat && ids[q.path] == id
    ensures DistinctKeys(flat) ==> DistinctKeys(points)
  {
    AddAllIsOfNode(map[], ids, flat, id);
    forall q ensures q in points <==> q in flat && ids[q.path] == id { InOfNode(ids, flat, id, q); }
  }

  // Nothing else is published.
  lemma {:induction false} PublishOnly(ids: Ids, flat: seq<Point>, nodes: seq<string>, results: seq<Value>, n: nat, key: string)
    requires Resolved(ids, flat) && DistinctKeys(flat) && n <= |nodes| == |results|
    ensures key in Publish(AddAll(map[], ids, flat), nodes, results, n) ==> exists p <- flat :: p.key == key
  {
    if n == 0 {
    } else {
      PublishOnly(ids, flat, nodes, results, n - 1, key);
      var index := AddAll(map[], ids, flat);
      var points := At(index, nodes[n - 1]);
      NodePoints(ids, flat, nodes[n - 1], points);
      if forall q <- points :: q.key != key {
        NodeLeaves(Publish(index, nodes, results, n - 1), points, results[n - 1], |points|, key);
      }
    }
  }

  lemma {:induction false} LastPollExists(nodes: seq<string>, n: nat, id: string) returns (i: nat)
    requires n <= |nodes| && id in nodes[..n]
    ensures LastPoll(nodes, n, id, i)
  {
    if nodes[n - 1] == id {
      i := n - 1;
    } else {
      assert nodes[..n] == nodes[..n - 1] + [nodes[n - 1]];
      i := LastPollExists(nodes, n - 1, id);
    }
  }

  // Agreement with the configuration tree. The polled nodes and the index are those collected from
  // the tree. If a node answers all its polls of a round alike, the published map has the tree's
  // keys, each with its own datapoint read directly from its node.
  lemma {:induction false} PublishedIsDirect(ids: Ids, items: seq<Item>, results: seq<Value>, direct: map<string, Value>, p: Point)
    requires Resolved(ids, Flatten(items)) && DistinctKeys(Flatten(items))
    requires |results| == |Flatten(items)|
    requires forall i :: 0 <= i < |results| ==>
               var id := IdsOf(ids, Flatten(items))[i]; id in direct && results[i] == direct[id]
    ensures var flat := Flatten(items);
            var out := Publish(AddAll(map[], ids, flat), IdsOf(ids, flat), results, |results|);
            && (forall key <- out :: exists q :: InTree(items, q) && q.key == key)
            && (InTree(items, p) ==> p.path in ids && ids[p.path] in direct && Shows(out, p, direct[ids[p.path]]))
  {
    var flat := Flatten(items);
    var nodes := IdsOf(ids, flat);
    FlattenVisits(items, p);
    forall key | key in Publish(AddAll(map[], ids, flat), nodes, results, |results|)
      ensures exists q :: InTree(items, q) && q.key == key
    {
      PublishOnly(ids, flat, nodes, results, |results|, key);
      var q :| q in flat && q.key == key;
      FlattenVisits(items, q);
    }
    if p in flat {
      var k :| 0 <= k < |flat| && flat[k] == p;
      assert nodes[k] == ids[p.path] && nodes[..|results|] == nodes;
      var i := LastPollExists(nodes, |results|, ids[p.path]);
      PublishAt(ids, flat, nodes, results, |results|, p, i);
    }
  }
}
