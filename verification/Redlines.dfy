/** Loading redline limits into the controller and reading them back. */
module Redlines {
  import opened Options
  import opened Opcua

  const BIG_NUMBER: real := 1000000.0

  // A limit as sent: a number, or something that does not convert to one.
  datatype Limit = Number(value: real) | NotANumber

  // A sent redline, complete with its three limits.
  datatype Sent = Sent(key: string, lower: Limit, upper: Limit, timeout: Limit)

  // A redline of the data source, and of a download.
  datatype Redline = Redline(key: string, lower: real, upper: real, timeout: real)

  datatype Outcome = Loaded | NoRedlines | InvalidValue

  function Default(key: string): Redline { Redline(key, -BIG_NUMBER, BIG_NUMBER, 0.0) }

  // The dictionary of sent redlines: the last one with a key wins.
  function Dictionary(cmd: seq<Sent>, n: nat): map<string, Sent>
    requires n <= |cmd|
  {
    if n == 0 then map[] else Dictionary(cmd, n - 1)[cmd[n - 1].key := cmd[n - 1]]
  }

  predicate Converts(s: Sent) { s.lower.Number? && s.upper.Number? && s.timeout.Number? }

  // A redline that is not sent, or sent with three numbers.
  predicate Valid(sent: map<string, Sent>, key: string) { key in sent ==> Converts(sent[key]) }

  // A redline sent with something that is no number.
  predicate Unusable(sent: map<string, Sent>, key: string) {
    key in sent && (sent[key].lower.NotANumber? || sent[key].upper.NotANumber? || sent[key].timeout.NotANumber?)
  }

  // The limits sent under a key, or those of a redline that was not sent.
  predicate LimitsAre(sent: map<string, Sent>, key: string, lower: real, upper: real, timeout: real) {
    if key in sent then sent[key].lower == Number(lower) && sent[key].upper == Number(upper) && sent[key].timeout == Number(timeout)
    else lower == -1000000.0 && upper == 1000000.0 && timeout == 0.0
  }

  // The limits written for a configured redline: those sent, or the defaults.
  function Effective(sent: map<string, Sent>, key: string): Redline
    requires Valid(sent, key)
  {
    if key in sent then Redline(key, sent[key].lower.value, sent[key].upper.value, sent[key].timeout.value)
    else Default(key)
  }

  // j is the last of the first n sent redlines with this key.
  ghost predicate LastSent(cmd: seq<Sent>, n: nat, key: string, j: nat) {
    j < n <= |cmd| && cmd[j].key == key && forall k :: j < k < n ==> cmd[k].key != key
  }

  // A sent redline counts with its last occurrence in the command,
  lemma {:induction false} LastSentCounts(cmd: seq<Sent>, n: nat, key: string, j: nat)
    requires LastSent(cmd, n, key, j)
    ensures key in Dictionary(cmd, n) && Dictionary(cmd, n)[key] == cmd[j]
    decreases n
  {
    if j == n - 1 {
    } else {
      LastSentCounts(cmd, n - 1, key, j);
    }
  }

  // and no other redline counts as sent.
  lemma {:induction false} OnlySentCount(cmd: seq<Sent>, n: nat, key: string)
    requires n <= |cmd| && key in Dictionary(cmd, n)
    ensures exists j :: 0 <= j < n && cmd[j].key == key
  {
    if cmd[n - 1].key != key { OnlySentCount(cmd, n - 1, key); }
  }

  // All three arrays are read before the first is written.
  function WriteRedline(nodes: Nodes, p: RedlinePaths, r: Redline): Nodes {
    nodes[p.lower := Put(Read(nodes, p.lower), p.index, r.lower)]
         [p.upper := Put(Read(nodes, p.upper), p.index, r.upper)]
         [p.timeout := Put(Read(nodes, p.timeout), p.index, r.timeout)]
  }

  function Store(nodes: Nodes, dps: map<string, Datapoint>, r: Redline): Nodes {
    if r.key in dps && dps[r.key].redlines.Some? then WriteRedline(nodes, dps[r.key].redlines.value, r) else nodes
  }

  // The nodes after the first n configured redlines.
  function StoreAll(nodes: Nodes, dps: map<string, Datapoint>, sent: map<string, Sent>, confs: seq<Redline>, n: nat): Nodes
    requires n <= |confs| && forall j :: 0 <= j < n ==> Valid(sent, confs[j].key)
  {
    if n == 0 then nodes
    else Store(StoreAll(nodes, dps, sent, confs, n - 1), dps, Effective(sent, confs[n - 1].key))
  }

  // The data source after the first n configured redlines.
  function Updated(sent: map<string, Sent>, confs: seq<Redline>, n: nat): (r: seq<Redline>)
    requires n <= |confs| && forall j :: 0 <= j < n ==> Valid(sent, confs[j].key)
    ensures |r| == |confs|
    ensures forall j :: 0 <= j < |confs| ==> r[j] == if j < n then Effective(sent, confs[j].key) else confs[j]
  {
    if n == 0 then confs else Updated(sent, confs, n - 1)[n - 1 := Effective(sent, confs[n - 1].key)]
  }

  lemma LoadStep(nodes: Nodes, dps: map<string, Datapoint>, sent: map<string, Sent>, confs: seq<Redline>, i: nat)
    requires i < |confs| && forall j :: 0 <= j <= i ==> Valid(sent, confs[j].key)
    ensures StoreAll(nodes, dps, sent, confs, i + 1) ==
            Store(StoreAll(nodes, dps, sent, confs, i), dps, Effective(sent, confs[i].key))
    ensures Updated(sent, confs, i + 1) == Updated(sent, confs, i)[i := Effective(sent, confs[i].key)]
  {
  }

  // Every configured redline whose datapoint is known has its three nodes, with its cell in each.
  predicate Ready(nodes: Nodes, dps: map<string, Datapoint>, confs: seq<Redline>) {
    forall r <- confs :: r.key in dps ==>
      && dps[r.key].redlines.Some?
      && CellsExist(nodes, dps[r.key].redlines.value)
  }

  predicate CellsExist(nodes: Nodes, p: RedlinePaths) {
    && p.lower in nodes && p.upper in nodes && p.timeout in nodes
    && p.index < |nodes[p.lower]| && p.index < |nodes[p.upper]| && p.index < |nodes[p.timeout]|
  }

  // What a download reports of the first n configured redlines: those known and not at the default.
  function Reported(nodes: Nodes, dps: map<string, Datapoint>, confs: seq<Redline>, n: nat): seq<Redline>
    requires n <= |confs|
  {
    if n == 0 then []
    else
      var before := Reported(nodes, dps, confs, n - 1);
      var key := confs[n - 1].key;
      if key !in dps || dps[key].redlines.None? then before
      else
        var r := ReadRedline(nodes, key, dps[key].redlines.value);
        if r == Default(key) then before else before + [r]
  }

  function Cell(nodes: Nodes, path: string, i: nat): real {
    if i < |Read(nodes, path)| then Read(nodes, path)[i] else 0.0
  }

  function ReadRedline(nodes: Nodes, key: string, p: RedlinePaths): Redline {
    Redline(key, Cell(nodes, p.lower, p.index), Cell(nodes, p.upper, p.index), Cell(nodes, p.timeout, p.index))
  }

  // The first loop of a load.
  method Collect(cmd: seq<Sent>) returns (sent: map<string, Sent>)
    ensures sent == Dictionary(cmd, |cmd|)
  {
    sent := map[];
    for n := 0 to |cmd|
      invariant sent == Dictionary(cmd, n)
    {
      sent := sent[cmd[n].key := cmd[n]];
    }
  }

  class Client {
    var nodes: Nodes
    var redlines: seq<Redline>
    const dps: map<string, Datapoint>

    constructor (nodes: Nodes, redlines: seq<Redline>, dps: map<string, Datapoint>)
      ensures this.nodes == nodes && this.redlines == redlines && this.dps == dps
    {
      this.nodes, this.redlines, this.dps := nodes, redlines, dps;
    }

    // Writes one configured redline to the data source and, if its datapoint is known, to its cells.
    method StoreOne(i: nat, r: Redline)
      requires i < |redlines| && redlines[i].key == r.key && Ready(nodes, dps, redlines)
      modifies this
      ensures redlines == old(redlines)[i := r] && nodes == Store(old(nodes), dps, r)
      ensures SameShape(old(nodes), nodes)
    {
      assert redlines[i] in redlines;
      redlines := redlines[i := r];
      if r.key in dps {
        var p := dps[r.key].redlines.value;
        var lowerArr := nodes[p.lower];
        lowerArr := lowerArr[p.index := r.lower];
        var upperArr := nodes[p.upper];
        upperArr := upperArr[p.index := r.upper];
        var timeoutArr := nodes[p.timeout];
        timeoutArr := timeoutArr[p.index := r.timeout];
        nodes := nodes[p.lower := lowerArr];
        nodes := nodes[p.upper := upperArr];
        nodes := nodes[p.timeout := timeoutArr];
      }
    }

    // The body of the loop over the configured redlines.
    method LoadOne(i: nat, sent: map<string, Sent>) returns (ok: bool)
      requires i < |redlines| && Ready(nodes, dps, redlines)
      modifies this
      ensures ok <==> Valid(sent, old(redlines)[i].key)
      ensures Ready(nodes, dps, redlines)
      ensures ok ==> var e := Effective(sent, old(redlines)[i].key);
                     nodes == Store(old(nodes), dps, e) && redlines == old(redlines)[i := e]
      ensures !ok ==> nodes == old(nodes) && redlines == old(redlines)
    {
      var key := redlines[i].key;
      var limits := Default(key);
      if key in sent {
        if !Converts(sent[key]) {
          return false;
        }
        limits := Redline(key, sent[key].lower.value, sent[key].upper.value, sent[key].timeout.value);
      }
      ghost var was, before := nodes, redlines;
      StoreOne(i, limits);
      ok := true;
    }

    // handle_cmd_load_redlines. A value that is not a number stops the command where it stands: the
    // redlines configured before it are written, the others keep their old limits.
    method LoadRedlines(cmd: Option<seq<Sent>>) returns (r: Outcome, ghost stopped: nat)
      requires Ready(nodes, dps, redlines)
      modifies this
      ensures cmd.None? ==> r == NoRedlines && nodes == old(nodes) && redlines == old(redlines)
      ensures cmd.Some? ==>
                var sent := Dictionary(cmd.value, |cmd.value|);
                && stopped <= |old(redlines)|
                && (forall j :: 0 <= j < stopped ==> Valid(sent, old(redlines)[j].key))
                && (r == Loaded <==> stopped == |old(redlines)|)
                && (r == InvalidValue <==> stopped < |old(redlines)|)
                && (stopped < |old(redlines)| ==> Unusable(sent, old(redlines)[stopped].key))
                && nodes == StoreAll(old(nodes), dps, sent, old(redlines), stopped)
                && redlines == Updated(sent, old(redlines), stopped)
    {
      if cmd.None? {
        return NoRedlines, 0;
      }
      var sent := Collect(cmd.value);
      r, stopped := LoadAll(sent);
    }

    // The loop over the configured redlines.
    method LoadAll(sent: map<string, Sent>) returns (r: Outcome, ghost stopped: nat)
      requires Ready(nodes, dps, redlines)
      modifies this
      ensures stopped <= |old(redlines)|
      ensures forall j :: 0 <= j < stopped ==> Valid(sent, old(redlines)[j].key)
      ensures r == if stopped == |old(redlines)| then Loaded else InvalidValue
      ensures stopped < |old(redlines)| ==> Unusable(sent, old(redlines)[stopped].key)
      ensures nodes == StoreAll(old(nodes), dps, sent, old(redlines), stopped)
      ensures redlines == Updated(sent, old(redlines), stopped)
    {
      ghost var confs, start := redlines, nodes;
      var i := 0;
      stopped := 0;
      while i < |redlines|
        invariant 0 <= i <= |confs| == |redlines| && stopped == i
        invariant forall j :: 0 <= j < i ==> Valid(sent, confs[j].key)
        invariant nodes == StoreAll(start, dps, sent, confs, i) && redlines == Updated(sent, confs, i)
        invariant Ready(nodes, dps, redlines)
      {
        var ok := LoadOne(i, sent);
        if !ok {
          return InvalidValue, i;
        }
        LoadStep(start, dps, sent, confs, i);
        i := i + 1;
        stopped := i;
      }
      r := Loaded;
    }

    // handle_cmd_download_redlines.
    method DownloadRedlines() returns (out: seq<Redline>)
      requires Ready(nodes, dps, redlines)
      ensures out == Reported(nodes, dps, redlines, |redlines|)
    {
      out := [];
      for n := 0 to |redlines|
        invariant out == Reported(nodes, dps, redlines, n)
      {
        var key := redlines[n].key;
        assert redlines[n] in redlines;
        if key in dps {
          var p := dps[key].redlines.value;
          var lower, upper, timeout := nodes[p.lower][p.index], nodes[p.upper][p.index], nodes[p.timeout][p.index];
          if !(lower == -BIG_NUMBER && upper == BIG_NUMBER && timeout == 0.0) {
            out := out + [Redline(key, lower, upper, timeout)];
          }
        }
      }
    }
  }

  // ----- round trip -----

  // Different redlines have different cells, and the three arrays of one redline are different nodes.
  ghost predicate CellsApart(dps: map<string, Datapoint>, confs: seq<Redline>) {
    forall r <- confs, s <- confs :: r.key in dps && s.key in dps && dps[r.key].redlines.Some? && dps[s.key].redlines.Some? ==>
      var p, q := dps[r.key].redlines.value, dps[s.key].redlines.value;
      && p.lower != p.upper && p.lower != p.timeout && p.upper != p.timeout
      && (r.key != s.key && p.index == q.index ==> {p.lower, p.upper, p.timeout} !! {q.lower, q.upper, q.timeout})
  }

  lemma WriteRedlineCell(nodes: Nodes, p: RedlinePaths, r: Redline, path: string, i: nat)
    requires CellsExist(nodes, p) && p.lower != p.upper && p.lower != p.timeout && p.upper != p.timeout
    ensures Cell(WriteRedline(nodes, p, r), path, i) ==
            if i != p.index then Cell(nodes, path, i)
            else if path == p.lower then r.lower
            else if path == p.upper then r.upper
            else if path == p.timeout then r.timeout
            else Cell(nodes, path, i)
  {
  }

  lemma {:induction false} StoreAllReady(nodes: Nodes, dps: map<string, Datapoint>, sent: map<string, Sent>, confs: seq<Redline>, n: nat)
    requires n <= |confs| && Ready(nodes, dps, confs) && forall j :: 0 <= j < |confs| ==> Valid(sent, confs[j].key)
    ensures Ready(StoreAll(nodes, dps, sent, confs, n), dps, confs)
  {
    if n == 0 {
    } else {
      StoreAllReady(nodes, dps, sent, confs, n - 1);
      var before := StoreAll(nodes, dps, sent, confs, n - 1);
      assert confs[n - 1] in confs;
    }
  }

  lemma StoredElsewhere(nodes: Nodes, q: RedlinePaths, e: Redline, key: string, p: RedlinePaths)
    requires CellsExist(nodes, q) && q.lower != q.upper && q.lower != q.timeout && q.upper != q.timeout
    requires p.index == q.index ==> {p.lower, p.upper, p.timeout} !! {q.lower, q.upper, q.timeout}
    ensures ReadRedline(WriteRedline(nodes, q, e), key, p) == ReadRedline(nodes, key, p)
  {
    assert p.lower in {p.lower, p.upper, p.timeout} && p.upper in {p.lower, p.upper, p.timeout};
    WriteRedlineCell(nodes, q, e, p.lower, p.index);
    WriteRedlineCell(nodes, q, e, p.upper, p.index);
    WriteRedlineCell(nodes, q, e, p.timeout, p.index);
  }

  // One more store keeps the limits of redline j, or sets them if the two have the same key.
  lemma StoreKeeps(before: Nodes, dps: map<string, Datapoint>, sent: map<string, Sent>, confs: seq<Redline>, j: nat, k: nat)
    requires j < |confs| && k < |confs| && Ready(before, dps, confs) && CellsApart(dps, confs)
    requires Valid(sent, confs[j].key) && Valid(sent, confs[k].key)
    requires confs[j].key in dps && dps[confs[j].key].redlines.Some?
    ensures var p := dps[confs[j].key].redlines.value;
            ReadRedline(Store(before, dps, Effective(sent, confs[k].key)), confs[j].key, p) ==
            if confs[j].key == confs[k].key then Effective(sent, confs[j].key) else ReadRedline(before, confs[j].key, p)
  {
    if confs[k].key in dps {
      var p, q := dps[confs[j].key].redlines.value, dps[confs[k].key].redlines.value;
      if confs[j].key == confs[k].key {
      } else {
        StoredElsewhere(before, q, Effective(sent, confs[k].key), confs[j].key, p);
      }
    }
  }

  function ReadOf(now: Nodes, dps: map<string, Datapoint>, key: string): Redline
    requires key in dps && dps[key].redlines.Some?
  {
    ReadRedline(now, key, dps[key].redlines.value)
  }

  // What the store of redline k does to redline j.
  ghost predicate Keeps(nodes: Nodes, dps: map<string, Datapoint>, sent: map<string, Sent>, confs: seq<Redline>, j: nat, k: nat)
    requires j < |confs| && k < |confs| && forall l :: 0 <= l < |confs| ==> Valid(sent, confs[l].key)
    requires confs[j].key in dps && dps[confs[j].key].redlines.Some?
  {
    ReadOf(StoreAll(nodes, dps, sent, confs, k + 1), dps, confs[j].key) ==
    if confs[j].key == confs[k].key then Effective(sent, confs[j].key)
    else ReadOf(StoreAll(nodes, dps, sent, confs, k), dps, confs[j].key)
  }

  lemma {:induction false} KeptThrough(nodes: Nodes, dps: map<string, Datapoint>, sent: map<string, Sent>,
                                       confs: seq<Redline>, n: nat, j: nat)
    requires j < n <= |confs| && forall l :: 0 <= l < |confs| ==> Valid(sent, confs[l].key)
    requires confs[j].key in dps && dps[confs[j].key].redlines.Some?
    requires forall k: nat :: k < |confs| ==> Keeps(nodes, dps, sent, confs, j, k)
    ensures ReadOf(StoreAll(nodes, dps, sent, confs, n), dps, confs[j].key) == Effective(sent, confs[j].key)
    decreases n
  {
    assert Keeps(nodes, dps, sent, confs, j, n - 1);
    if j == n - 1 {
    } else {
      KeptThrough(nodes, dps, sent, confs, n - 1, j);
    }
  }

  // Once stored, a redline keeps its limits whatever is stored after it.
  lemma {:induction false} StoredStays(nodes: Nodes, dps: map<string, Datapoint>, sent: map<string, Sent>,
                                       confs: seq<Redline>, n: nat, j: nat)
    requires j < n <= |confs| && Ready(nodes, dps, confs) && CellsApart(dps, confs)
    requires forall k :: 0 <= k < |confs| ==> Valid(sent, confs[k].key)
    requires confs[j].key in dps
    ensures dps[confs[j].key].redlines.Some?
    ensures ReadOf(StoreAll(nodes, dps, sent, confs, n), dps, confs[j].key) == Effective(sent, confs[j].key)
    ensures var now, p := StoreAll(nodes, dps, sent, confs, n), dps[confs[j].key].redlines.value;
            LimitsAre(sent, confs[j].key, Cell(now, p.lower, p.index), Cell(now, p.upper, p.index), Cell(now, p.timeout, p.index))
  {
    forall k: nat | k < |confs| ensures Keeps(nodes, dps, sent, confs, j, k) {
      StoreAllReady(nodes, dps, sent, confs, k);
      StoreKeeps(StoreAll(nodes, dps, sent, confs, k), dps, sent, confs, j, k);
    }
    KeptThrough(nodes, dps, sent, confs, n, j);
  }

  // The redlines a complete load is about to report: configured, known, and not at the default.
  function Expected(dps: map<string, Datapoint>, sent: map<string, Sent>, confs: seq<Redline>, n: nat): seq<Redline>
    requires n <= |confs| && forall k :: 0 <= k < |confs| ==> Valid(sent, confs[k].key)
  {
    if n == 0 then []
    else
      Expected(dps, sent, confs, n - 1) +
      if confs[n - 1].key in dps && Effective(sent, confs[n - 1].key) != Default(confs[n - 1].key)
      then [Effective(sent, confs[n - 1].key)] else []
  }

  // The nodes hold the effective limits of the redline at k.
  ghost predicate Holds(now: Nodes, dps: map<string, Datapoint>, sent: map<string, Sent>, key: string)
    requires Valid(sent, key)
  {
    key in dps ==> dps[key].redlines.Some? && ReadRedline(now, key, dps[key].redlines.value) == Effective(sent, key)
  }

  lemma {:induction false} HeldIsReported(now: Nodes, dps: map<string, Datapoint>, sent: map<string, Sent>,
                                          confs: seq<Redline>, updated: seq<Redline>, n: nat)
    requires n <= |confs| == |updated|
    requires forall k :: 0 <= k < |confs| ==> updated[k].key == confs[k].key && Valid(sent, confs[k].key)
    requires forall k :: 0 <= k < |confs| ==> Holds(now, dps, sent, confs[k].key)
    ensures Reported(now, dps, updated, n) == Expected(dps, sent, confs, n)
    decreases n
  {
    if n == 0 {
    } else {
      HeldIsReported(now, dps, sent, confs, updated, n - 1);
      assert Holds(now, dps, sent, confs[n - 1].key);
    }
  }

  // Round trip: whatever was stored before, a download after a complete load reports exactly the
  // sent redlines that are configured, known and differ from the default, in configured order.
  lemma {:induction false} RedlineRoundTrip(nodes: Nodes, dps: map<string, Datapoint>, sent: map<string, Sent>, confs: seq<Redline>)
    requires Ready(nodes, dps, confs) && CellsApart(dps, confs)
    requires forall k :: 0 <= k < |confs| ==> Valid(sent, confs[k].key)
    ensures Reported(StoreAll(nodes, dps, sent, confs, |confs|), dps, Updated(sent, confs, |confs|), |confs|)
         == Expected(dps, sent, confs, |confs|)
  {
    var now := StoreAll(nodes, dps, sent, confs, |confs|);
    forall k | 0 <= k < |confs| ensures Holds(now, dps, sent, confs[k].key) {
      if confs[k].key in dps { StoredStays(nodes, dps, sent, confs, |confs|, k); }
    }
    HeldIsReported(now, dps, sent, confs, Updated(sent, confs, |confs|), |confs|);
  }

  // The limits of a redline that is not to be reported.
  predicate AtDefault(lower: real, upper: real, timeout: real) {
    lower == -1000000.0 && upper == 1000000.0 && timeout == 0.0
  }

  // What is reported was sent: a redline that was not sent, or sent with the default limits, is not
  // reported, and a reported one carries the limits sent under its key.
  lemma {:induction false} ExpectedWasSent(dps: map<string, Datapoint>, sent: map<string, Sent>, confs: seq<Redline>, n: nat)
    requires n <= |confs| && forall k :: 0 <= k < |confs| ==> Valid(sent, confs[k].key)
    ensures forall r :: r in Expected(dps, sent, confs, n) <==>
              exists j :: 0 <= j < n && r.key == confs[j].key && r.key in sent && r.key in dps
                          && LimitsAre(sent, r.key, r.lower, r.upper, r.timeout) && !AtDefault(r.lower, r.upper, r.timeout)
  {
    if n == 0 {
    } else {
      ExpectedWasSent(dps, sent, confs, n - 1);
    }
  }

  // Redline k is known, and its cells are not at the default.
  predicate Deviates(nodes: Nodes, dps: map<string, Datapoint>, key: string) {
    && key in dps && dps[key].redlines.Some?
    && var p := dps[key].redlines.value;
       !AtDefault(Cell(nodes, p.lower, p.index), Cell(nodes, p.upper, p.index), Cell(nodes, p.timeout, p.index))
  }

  // r is what the cells of its redline hold.
  predicate ReadsAs(nodes: Nodes, dps: map<string, Datapoint>, r: Redline) {
    && r.key in dps && dps[r.key].redlines.Some?
    && var p := dps[r.key].redlines.value;
       r.lower == Cell(nodes, p.lower, p.index) && r.upper == Cell(nodes, p.upper, p.index) && r.timeout == Cell(nodes, p.timeout, p.index)
  }

  // out shows the redlines at idx, which are those of the first n that deviate.
  ghost predicate Listed(nodes: Nodes, dps: map<string, Datapoint>, confs: seq<Redline>, n: nat, idx: seq<nat>, out: seq<Redline>)
    requires n <= |confs|
  {
    && |idx| == |out|
    && (forall a, b :: 0 <= a < b < |idx| ==> idx[a] < idx[b])
    && (forall k: nat :: k in idx <==> k < n && Deviates(nodes, dps, confs[k].key))
    && (forall a :: 0 <= a < |idx| ==> idx[a] < n && out[a].key == confs[idx[a]].key && ReadsAs(nodes, dps, out[a]))
  }

  lemma ListOne(nodes: Nodes, dps: map<string, Datapoint>, confs: seq<Redline>, n: nat, idx: seq<nat>, out: seq<Redline>, r: Redline)
    requires n < |confs| && Listed(nodes, dps, confs, n, idx, out)
    requires Deviates(nodes, dps, confs[n].key) && r.key == confs[n].key && ReadsAs(nodes, dps, r)
    ensures Listed(nodes, dps, confs, n + 1, idx + [n], out + [r])
  {
    forall a | 0 <= a < |idx| ensures idx[a] < n { assert idx[a] in idx; }
  }

  lemma ListNone(nodes: Nodes, dps: map<string, Datapoint>, confs: seq<Redline>, n: nat, idx: seq<nat>, out: seq<Redline>)
    requires n < |confs| && Listed(nodes, dps, confs, n, idx, out) && !Deviates(nodes, dps, confs[n].key)
    ensures Listed(nodes, dps, confs, n + 1, idx, out)
  {
  }

  // Whatever the nodes hold, a download reports the configured redlines that deviate, each once, in
  // configured order, with the contents of its three cells.
  lemma {:induction false} ReportedInOrder(nodes: Nodes, dps: map<string, Datapoint>, confs: seq<Redline>, n: nat) returns (idx: seq<nat>)
    requires n <= |confs|
    ensures Listed(nodes, dps, confs, n, idx, Reported(nodes, dps, confs, n))
  {
    if n == 0 {
      idx := [];
    } else {
      idx := ReportedInOrder(nodes, dps, confs, n - 1);
      var key, before := confs[n - 1].key, Reported(nodes, dps, confs, n - 1);
      if Deviates(nodes, dps, key) {
        ListOne(nodes, dps, confs, n - 1, idx, before, ReadRedline(nodes, key, dps[key].redlines.value));
        idx := idx + [n - 1];
      } else {
        ListNone(nodes, dps, confs, n - 1, idx, before);
      }
    }
  }
}
