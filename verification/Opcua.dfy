/** What the OPC UA commands share: the controller's nodes and the configured datapoints. */
module Opcua {
  import opened Options

  // Array nodes by path, as the controller stores them.
  type Nodes = map<string, seq<real>>

  datatype RedlinePaths = RedlinePaths(lower: string, upper: string, timeout: string, index: nat)

  // The opcua section of a configured datapoint.
  datatype Datapoint = Datapoint(path: string, index: Option<nat>, redlines: Option<RedlinePaths>)

  // Reading and writing of nodes and cells. The commands only use them on existing nodes and cells.
  function Read(nodes: Nodes, path: string): seq<real> {
    if path in nodes then nodes[path] else []
  }

  function Put(arr: seq<real>, i: nat, v: real): (r: seq<real>)
    ensures |r| == |arr|
    ensures forall j :: 0 <= j < |arr| ==> r[j] == if j == i then v else arr[j]
  {
    if i < |arr| then arr[i := v] else arr
  }

  // Same paths, and under each path an array of the same length.
  ghost predicate SameShape(m: Nodes, n: Nodes) {
    m.Keys == n.Keys && forall p <- m :: |m[p]| == |n[p]|
  }
}
