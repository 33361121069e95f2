/** Numbering of the datapoints that get an adapter of their own: start.py hands out task numbers and
    ports, the locat2d adapter finds its source from the task number, and its frontend finds the
    datapoint from the rank within that source. */
module Slots {
  import opened Options
  import opened TextSearch

  datatype Datapoint = Datapoint(adapter: Option<string>, name: Option<string>)
  datatype Source = Source(kind: string, name: string, key: Option<string>, openport: nat, datapoints: seq<Datapoint>)
  type Config = seq<Source>

  // made is the datapoint a service was created for, as source and datapoint index.
  datatype Service = Service(context: string, port: nat, taskId: nat, made: Option<(nat, nat)>)

  const ADAPTERS: set<string> := {
    "tcp", "opcua", "serial", "video", "benchmark", "locat2d", "locat3d", "orien3d", "aprs", "netdata"
  }

  // The values of SPECIALDATADICT in order.
  const SPECIAL: seq<string> := ["locat2d", "locat3d", "orient3d", "locat1d"]
  const FIRST_PORT: nat := 9001

  // ----- ranks -----

  function CountIn(points: seq<Datapoint>, adapter: string): nat {
    if points == [] then 0
    else CountIn(points[..|points| - 1], adapter) + if points[|points| - 1].adapter == Some(adapter) then 1 else 0
  }

  function CountBefore(cfg: Config, adapter: string, i: nat): nat
    requires i <= |cfg|
  {
    if i == 0 then 0 else CountBefore(cfg, adapter, i - 1) + CountIn(cfg[i - 1].datapoints, adapter)
  }

  predicate IsPoint(cfg: Config, i: nat, j: nat) { i < |cfg| && j < |cfg[i].datapoints| }

  predicate Uses(cfg: Config, adapter: string, i: nat, j: nat) {
    IsPoint(cfg, i, j) && cfg[i].datapoints[j].adapter == Some(adapter)
  }

  // The rank of a datapoint among those of its source, and among all, that use the adapter.
  function LocalRank(points: seq<Datapoint>, adapter: string, j: nat): nat
    requires j < |points|
  {
    CountIn(points[..j + 1], adapter)
  }

  function Rank(cfg: Config, adapter: string, i: nat, j: nat): nat
    requires IsPoint(cfg, i, j)
  {
    CountBefore(cfg, adapter, i) + LocalRank(cfg[i].datapoints, adapter, j)
  }

  // The number of data sources of a type.
  function Typed(cfg: Config, kind: string): nat {
    if cfg == [] then 0
    else Typed(cfg[..|cfg| - 1], kind) + if ToLower(cfg[|cfg| - 1].kind) == kind then 1 else 0
  }

  lemma {:induction false} CountGrows(points: seq<Datapoint>, adapter: string, m: nat, n: nat)
    requires m <= n <= |points|
    ensures CountIn(points[..m], adapter) <= CountIn(points[..n], adapter)
    decreases n
  {
    if m == n {
    } else {
      CountGrows(points, adapter, m, n - 1);
      assert points[..n][..n - 1] == points[..n - 1];
    }
  }

  lemma {:induction false} LocalRankStep(points: seq<Datapoint>, adapter: string, j: nat)
    requires j < |points|
    ensures LocalRank(points, adapter, j) == CountIn(points[..j], adapter) + if points[j].adapter == Some(adapter) then 1 else 0
  {
    assert points[..j + 1][..j] == points[..j];
  }

  lemma {:induction false} BeforeGrows(cfg: Config, adapter: string, m: nat, n: nat)
    requires m <= n <= |cfg|
    ensures CountBefore(cfg, adapter, m) <= CountBefore(cfg, adapter, n)
    decreases n
  {
    if m == n {
    } else {
      BeforeGrows(cfg, adapter, m, n - 1);
    }
  }

  lemma LocalRanksDiffer(points: seq<Datapoint>, adapter: string, j: nat, k: nat)
    requires j < k < |points| && points[k].adapter == Some(adapter)
    ensures LocalRank(points, adapter, j) < LocalRank(points, adapter, k)
  {
    LocalRankStep(points, adapter, k);
    CountGrows(points, adapter, j + 1, k);
  }

  // Datapoints further on that use the adapter have greater ranks.
  lemma RanksDiffer(cfg: Config, adapter: string, i: nat, j: nat, x: nat, y: nat)
    requires IsPoint(cfg, i, j) && Uses(cfg, adapter, x, y)
    requires i < x || (i == x && j < y)
    ensures Rank(cfg, adapter, i, j) < Rank(cfg, adapter, x, y)
  {
    if i == x {
      LocalRanksDiffer(cfg[i].datapoints, adapter, j, y);
    } else {
      var points := cfg[i].datapoints;
      CountGrows(points, adapter, j + 1, |points|);
      assert points[..|points|] == points;
      BeforeGrows(cfg, adapter, i + 1, x);
      LocalRankStep(cfg[x].datapoints, adapter, y);
    }
  }

  // ----- start.py -----

  // The loops' variables: usedAdaptersamount, neededAdapters, the destport entries written into the
  // configuration, and curfreeport.
  datatype Progress = Progress(
    counts: map<string, nat>, services: map<string, Service>, destports: map<(nat, nat), nat>, free: nat)

  function Count(counts: map<string, nat>, kind: string): nat { if kind in counts then counts[kind] else 0 }

  function Bump(counts: map<string, nat>, kind: string): map<string, nat> { counts[kind := Count(counts, kind) + 1] }

  function NumberSource(p: Progress, source: Source): Progress {
    var kind := ToLower(source.kind);
    if kind !in ADAPTERS then p
    else
      var counts := Bump(p.counts, kind);
      p.(counts := counts,
         services := p.services[ToLower(source.name) := Service(kind, source.openport, counts[kind], None)])
  }

  function NumberSources(cfg: Config): Progress {
    if cfg == [] then Progress(map[], map[], map[], FIRST_PORT)
    else NumberSource(NumberSources(cfg[..|cfg| - 1]), cfg[|cfg| - 1])
  }

  // A datapoint without a name, or in a source without a key, raises after it has been counted.
  predicate Complete(cfg: Config, i: nat, j: nat) {
    IsPoint(cfg, i, j) && cfg[i].datapoints[j].name.Some? && cfg[i].key.Some?
  }

  function ServiceKey(cfg: Config, i: nat, j: nat): string
    requires Complete(cfg, i, j)
  {
    cfg[i].key.value + "_" + ToLower(cfg[i].datapoints[j].name.value)
  }

  function Visit(p: Progress, cfg: Config, adapter: string, i: nat, j: nat): Progress
    requires IsPoint(cfg, i, j)
  {
    if cfg[i].datapoints[j].adapter != Some(adapter) then p
    else
      var counts := Bump(p.counts, ToLower(adapter));
      if !Complete(cfg, i, j) then p.(counts := counts)
      else
        var service := Service(ToLower(adapter), p.free, counts[ToLower(adapter)], Some((i, j)));
        Progress(counts, p.services[ServiceKey(cfg, i, j) := service], p.destports[(i, j) := p.free], p.free + 1)
  }

  function VisitPoints(p: Progress, cfg: Config, adapter: string, i: nat, n: nat): Progress
    requires i < |cfg| && n <= |cfg[i].datapoints|
  {
    if n == 0 then p else Visit(VisitPoints(p, cfg, adapter, i, n - 1), cfg, adapter, i, n - 1)
  }

  function VisitSources(p: Progress, cfg: Config, adapter: string, n: nat): Progress
    requires n <= |cfg|
  {
    if n == 0 then p
    else VisitPoints(VisitSources(p, cfg, adapter, n - 1), cfg, adapter, n - 1, |cfg[n - 1].datapoints|)
  }

  function VisitAdapters(cfg: Config, n: nat): Progress
    requires n <= |SPECIAL|
  {
    if n == 0 then NumberSources(cfg) else VisitSources(VisitAdapters(cfg, n - 1), cfg, SPECIAL[n - 1], |cfg|)
  }

  // What the two loops leave behind.
  function Numbered(cfg: Config): Progress { VisitAdapters(cfg, |SPECIAL|) }

  // The two numbering loops of createDockerCompose.
  method NumberAdapters(cfg: Config) returns (services: map<string, Service>, destports: map<(nat, nat), nat>)
    ensures services == Numbered(cfg).services && destports == Numbered(cfg).destports
  {
    var counts: map<string, nat> := map[];
    services := map[];
    destports := map[];
    var free := FIRST_PORT;
    for i := 0 to |cfg|
      invariant Progress(counts, services, destports, free) == NumberSources(cfg[..i])
    {
      assert cfg[..i + 1][..i] == cfg[..i];
      var kind := ToLower(cfg[i].kind);
      if kind in ADAPTERS {
        if kind in counts {
          counts := counts[kind := counts[kind] + 1];
        } else {
          counts := counts[kind := 1];
        }
        services := services[ToLower(cfg[i].name) := Service(kind, cfg[i].openport, counts[kind], None)];
      }
    }
    assert cfg[..|cfg|] == cfg;
    for k := 0 to |SPECIAL|
      invariant Progress(counts, services, destports, free) == VisitAdapters(cfg, k)
    {
      for i := 0 to |cfg|
        invariant Progress(counts, services, destports, free) == VisitSources(VisitAdapters(cfg, k), cfg, SPECIAL[k], i)
      {
        counts, services, destports, free := VisitSource(counts, services, destports, free, cfg, SPECIAL[k], i);
      }
    }
  }

  // The innermost loop: the datapoints of one source for one adapter.
  method VisitSource(counts0: map<string, nat>, services0: map<string, Service>, destports0: map<(nat, nat), nat>, free0: nat,
                     cfg: Config, adapter: string, i: nat)
    returns (counts: map<string, nat>, services: map<string, Service>, destports: map<(nat, nat), nat>, free: nat)
    requires i < |cfg|
    ensures Progress(counts, services, destports, free) ==
            VisitPoints(Progress(counts0, services0, destports0, free0), cfg, adapter, i, |cfg[i].datapoints|)
  {
    counts, services, destports, free := counts0, services0, destports0, free0;
    ghost var p := Progress(counts, services, destports, free);
    for j := 0 to |cfg[i].datapoints|
      invariant Progress(counts, services, destports, free) == VisitPoints(p, cfg, adapter, i, j)
    {
      var point := cfg[i].datapoints[j];
      if point.adapter == Some(adapter) {
        if ToLower(adapter) in counts {
          counts := counts[ToLower(adapter) := counts[ToLower(adapter)] + 1];
        } else {
          counts := counts[ToLower(adapter) := 1];
        }
        if point.name.Some? && cfg[i].key.Some? {
          var service := Service(ToLower(adapter), free, counts[ToLower(adapter)], Some((i, j)));
          services := services[cfg[i].key.value + "_" + ToLower(point.name.value) := service];
          destports := destports[(i, j) := free];
          free := free + 1;
        }
      }
    }
  }

  // ----- what the numbers mean -----

  // The task numbers used up by data sources when the datapoints of an adapter are numbered.
  function Offset(cfg: Config, adapter: string): nat { if adapter in ADAPTERS then Typed(cfg, adapter) else 0 }

  // Every service made for a datapoint carries its adapter's offset plus the datapoint's rank, and
  // the port written into the datapoint's configuration.
  ghost predicate RightService(cfg: Config, p: Progress, s: Service) {
    s.made.Some? ==>
      var (i, j) := s.made.value;
      && Uses(cfg, s.context, i, j)
      && s.taskId == Offset(cfg, s.context) + Rank(cfg, s.context, i, j)
      && (i, j) in p.destports && s.port == p.destports[(i, j)]
  }

  // Ports are handed out once.
  ghost predicate PortsApart(p: Progress) {
    && (forall x <- p.destports :: FIRST_PORT <= p.destports[x] < p.free)
    && forall x, y :: x in p.destports && y in p.destports && x != y ==> p.destports[x] != p.destports[y]
  }

  ghost predicate Right(cfg: Config, p: Progress) {
    && PortsApart(p) && FIRST_PORT <= p.free
    && forall k <- p.services :: RightService(cfg, p, p.services[k])
  }

  // The adapter has been counted for the datapoints before (i, j), and no datapoint from there on
  // that uses it has a port.
  ghost predicate CountedTo(cfg: Config, p: Progress, adapter: string, i: nat, j: nat) {
    && i <= |cfg| && j <= (if i < |cfg| then |cfg[i].datapoints| else 0)
    && Count(p.counts, adapter) ==
       Offset(cfg, adapter) + CountBefore(cfg, adapter, i) + (if i < |cfg| then CountIn(cfg[i].datapoints[..j], adapter) else 0)
    && forall x, y :: (x, y) in p.destports && Uses(cfg, adapter, x, y) ==> x < i || (x == i && y < j)
  }

  lemma VisitRight(p: Progress, cfg: Config, adapter: string, i: nat, j: nat)
    requires Right(cfg, p) && IsPoint(cfg, i, j) && CountedTo(cfg, p, adapter, i, j) && ToLower(adapter) == adapter
    ensures Right(cfg, Visit(p, cfg, adapter, i, j))
  {
    var q := Visit(p, cfg, adapter, i, j);
    if Wanted(cfg, adapter, i, j) {
      LocalRankStep(cfg[i].datapoints, adapter, j);
      assert (i, j) !in p.destports;
      forall k | k in q.services ensures RightService(cfg, q, q.services[k]) {
        if k != ServiceKey(cfg, i, j) { assert RightService(cfg, p, p.services[k]); }
      }
    }
  }

  lemma VisitCounted(p: Progress, cfg: Config, adapter: string, i: nat, j: nat)
    requires IsPoint(cfg, i, j) && CountedTo(cfg, p, adapter, i, j) && ToLower(adapter) == adapter
    ensures CountedTo(cfg, Visit(p, cfg, adapter, i, j), adapter, i, j + 1)
  {
    LocalRankStep(cfg[i].datapoints, adapter, j);
  }

  lemma {:induction false} PointsRight(p: Progress, cfg: Config, adapter: string, i: nat, n: nat)
    requires i < |cfg| && n <= |cfg[i].datapoints|
    requires Right(cfg, p) && CountedTo(cfg, p, adapter, i, 0) && ToLower(adapter) == adapter
    ensures var q := VisitPoints(p, cfg, adapter, i, n); Right(cfg, q) && CountedTo(cfg, q, adapter, i, n)
    decreases n
  {
    if n == 0 {
    } else {
      PointsRight(p, cfg, adapter, i, n - 1);
      VisitRight(VisitPoints(p, cfg, adapter, i, n - 1), cfg, adapter, i, n - 1);
      VisitCounted(VisitPoints(p, cfg, adapter, i, n - 1), cfg, adapter, i, n - 1);
    }
  }

  lemma {:induction false} PointsOther(p: Progress, cfg: Config, adapter: string, i: nat, n: nat, other: string)
    requires i < |cfg| && n <= |cfg[i].datapoints|
    requires CountedTo(cfg, p, other, 0, 0) && ToLower(adapter) == adapter != other
    ensures CountedTo(cfg, VisitPoints(p, cfg, adapter, i, n), other, 0, 0)
    decreases n
  {
    if n == 0 {
    } else {
      PointsOther(p, cfg, adapter, i, n - 1, other);
    }
  }

  lemma NextSource(cfg: Config, p: Progress, adapter: string, i: nat)
    requires i < |cfg| && CountedTo(cfg, p, adapter, i, |cfg[i].datapoints|)
    ensures CountedTo(cfg, p, adapter, i + 1, 0)
  {
    assert cfg[i].datapoints[..|cfg[i].datapoints|] == cfg[i].datapoints;
    if i + 1 < |cfg| { assert cfg[i + 1].datapoints[..0] == []; }
    forall x, y | (x, y) in p.destports && Uses(cfg, adapter, x, y) ensures x < i + 1 {
    }
  }

  lemma {:induction false} SourcesRight(p: Progress, cfg: Config, adapter: string, n: nat)
    requires n <= |cfg| && Right(cfg, p) && CountedTo(cfg, p, adapter, 0, 0) && ToLower(adapter) == adapter
    ensures var q := VisitSources(p, cfg, adapter, n); Right(cfg, q) && CountedTo(cfg, q, adapter, n, 0)
    decreases n
  {
    if n == 0 {
    } else {
      SourcesRight(p, cfg, adapter, n - 1);
      PointsRight(VisitSources(p, cfg, adapter, n - 1), cfg, adapter, n - 1, |cfg[n - 1].datapoints|);
      NextSource(cfg, VisitSources(p, cfg, adapter, n), adapter, n - 1);
    }
  }

  lemma {:induction false} SourcesOther(p: Progress, cfg: Config, adapter: string, n: nat, other: string)
    requires n <= |cfg| && CountedTo(cfg, p, other, 0, 0) && ToLower(adapter) == adapter != other
    ensures CountedTo(cfg, VisitSources(p, cfg, adapter, n), other, 0, 0)
    decreases n
  {
    if n == 0 {
    } else {
      SourcesOther(p, cfg, adapter, n - 1, other);
      PointsOther(VisitSources(p, cfg, adapter, n - 1), cfg, adapter, n - 1, |cfg[n - 1].datapoints|, other);
    }
  }

  lemma {:induction false} SourcesNumbered(cfg: Config, kind: string)
    ensures var p := NumberSources(cfg);
            && p.destports == map[] && p.free == FIRST_PORT
            && (forall k <- p.services :: p.services[k].made == None)
            && Count(p.counts, kind) == Offset(cfg, kind)
  {
    if cfg == [] {
    } else {
      SourcesNumbered(cfg[..|cfg| - 1], kind);
    }
  }

  lemma {:induction false} AdaptersRight(cfg: Config, n: nat)
    requires n <= |SPECIAL|
    ensures Right(cfg, VisitAdapters(cfg, n))
    ensures forall m: nat :: n <= m < |SPECIAL| ==> CountedTo(cfg, VisitAdapters(cfg, n), SPECIAL[m], 0, 0)
  {
    if n == 0 {
      SourcesNumbered(cfg, "");
      forall m: nat | m < |SPECIAL| ensures CountedTo(cfg, NumberSources(cfg), SPECIAL[m], 0, 0) {
        SourcesNumbered(cfg, SPECIAL[m]);
      }
    } else {
      AdaptersRight(cfg, n - 1);
      var p := VisitAdapters(cfg, n - 1);
      SourcesRight(p, cfg, SPECIAL[n - 1], |cfg|);
      forall m: nat | n <= m < |SPECIAL| ensures CountedTo(cfg, VisitAdapters(cfg, n), SPECIAL[m], 0, 0) {
        SourcesOther(p, cfg, SPECIAL[n - 1], |cfg|, SPECIAL[m]);
      }
    }
  }

  // ----- no datapoint is forgotten -----

  // A datapoint start.py makes a service for, because of a given adapter or of any.
  predicate Wanted(cfg: Config, adapter: string, i: nat, j: nat) { Uses(cfg, adapter, i, j) && Complete(cfg, i, j) }

  predicate IsServed(cfg: Config, i: nat, j: nat) {
    Complete(cfg, i, j) && cfg[i].datapoints[j].adapter.Some? && cfg[i].datapoints[j].adapter.value in SPECIAL
  }

  ghost predicate KeyIsOwn(cfg: Config, x: nat, y: nat)
    requires Complete(cfg, x, y)
  {
    forall i: nat, j: nat :: IsServed(cfg, i, j) && (i, j) != (x, y) ==> ServiceKey(cfg, i, j) != ServiceKey(cfg, x, y)
  }

  // (x, y) has its port, and its service too unless another datapoint shares the service key.
  ghost predicate Served(cfg: Config, p: Progress, x: nat, y: nat)
    requires Complete(cfg, x, y)
  {
    && (x, y) in p.destports
    && (KeyIsOwn(cfg, x, y) ==>
          ServiceKey(cfg, x, y) in p.services && p.services[ServiceKey(cfg, x, y)].made == Some((x, y)))
  }

  lemma {:induction false} PointsServe(p: Progress, cfg: Config, adapter: string, i: nat, n: nat, x: nat, y: nat)
    requires adapter in SPECIAL
    requires i < |cfg| && n <= |cfg[i].datapoints| && Complete(cfg, x, y)
    requires Served(cfg, p, x, y) || (i == x && y < n && Wanted(cfg, adapter, x, y))
    ensures Served(cfg, VisitPoints(p, cfg, adapter, i, n), x, y)
    decreases n
  {
    if n == 0 {
    } else {
      if Served(cfg, p, x, y) || y < n - 1 { PointsServe(p, cfg, adapter, i, n - 1, x, y); }
    }
  }

  lemma {:induction false} SourcesServe(p: Progress, cfg: Config, adapter: string, n: nat, x: nat, y: nat)
    requires adapter in SPECIAL
    requires n <= |cfg| && Complete(cfg, x, y)
    requires Served(cfg, p, x, y) || (x < n && Wanted(cfg, adapter, x, y))
    ensures Served(cfg, VisitSources(p, cfg, adapter, n), x, y)
    decreases n
  {
    if n == 0 {
    } else {
      if Served(cfg, p, x, y) || x < n - 1 { SourcesServe(p, cfg, adapter, n - 1, x, y); }
      PointsServe(VisitSources(p, cfg, adapter, n - 1), cfg, adapter, n - 1, |cfg[n - 1].datapoints|, x, y);
    }
  }

  lemma {:induction false} AdaptersServe(cfg: Config, n: nat, m: nat, x: nat, y: nat)
    requires m < n <= |SPECIAL| && Wanted(cfg, SPECIAL[m], x, y)
    ensures Served(cfg, VisitAdapters(cfg, n), x, y)
    decreases n
  {
    if m == n - 1 {
    } else {
      AdaptersServe(cfg, n - 1, m, x, y);
    }
    SourcesServe(VisitAdapters(cfg, n - 1), cfg, SPECIAL[n - 1], |cfg|, x, y);
  }

  // Every datapoint with a special adapter, a name and a key gets a port of its own from 9001 on.
  lemma PortsAreDistinct(cfg: Config, m: nat, i: nat, j: nat, n: nat, x: nat, y: nat)
    requires m < |SPECIAL| && Wanted(cfg, SPECIAL[m], i, j) && n < |SPECIAL| && Wanted(cfg, SPECIAL[n], x, y)
    ensures var ports := Numbered(cfg).destports;
            && (i, j) in ports && (x, y) in ports && ports[(i, j)] >= FIRST_PORT
            && (ports[(i, j)] == ports[(x, y)] <==> (i, j) == (x, y))
  {
    AdaptersRight(cfg, |SPECIAL|);
    AdaptersServe(cfg, |SPECIAL|, m, i, j);
    AdaptersServe(cfg, |SPECIAL|, n, x, y);
  }

  // Its service is deployed unless another datapoint shares the service key, on that port and with
  // the task number that counts the data sources typed like the adapter and its rank.
  lemma ServiceOfDatapoint(cfg: Config, m: nat, i: nat, j: nat)
    requires m < |SPECIAL| && Wanted(cfg, SPECIAL[m], i, j) && KeyIsOwn(cfg, i, j)
    ensures var p := Numbered(cfg); var key := cfg[i].key.value + "_" + ToLower(cfg[i].datapoints[j].name.value);
            && key == ServiceKey(cfg, i, j) && key in p.services && (i, j) in p.destports
            && p.services[key] ==
               Service(SPECIAL[m], p.destports[(i, j)], Offset(cfg, SPECIAL[m]) + Rank(cfg, SPECIAL[m], i, j), Some((i, j)))
  {
    AdaptersRight(cfg, |SPECIAL|);
    AdaptersServe(cfg, |SPECIAL|, m, i, j);
    var p := Numbered(cfg);
    assert RightService(cfg, p, p.services[ServiceKey(cfg, i, j)]);
  }

  // All these services are deployed if and only if no two of them share a key.
  lemma AllDeployedIff(cfg: Config)
    ensures (forall i: nat, j: nat :: IsServed(cfg, i, j) ==>
               ServiceKey(cfg, i, j) in Numbered(cfg).services &&
               Numbered(cfg).services[ServiceKey(cfg, i, j)].made == Some((i, j)))
            <==> forall i: nat, j: nat :: IsServed(cfg, i, j) ==> KeyIsOwn(cfg, i, j)
  {
    forall i: nat, j: nat | IsServed(cfg, i, j) && KeyIsOwn(cfg, i, j)
      ensures ServiceKey(cfg, i, j) in Numbered(cfg).services &&
              Numbered(cfg).services[ServiceKey(cfg, i, j)].made == Some((i, j))
    {
      var m :| 0 <= m < |SPECIAL| && SPECIAL[m] == cfg[i].datapoints[j].adapter.value;
      ServiceOfDatapoint(cfg, m, i, j);
    }
  }

  // ----- adapters/locat2d/adapter.js and its frontend -----

  const LOCAT2D := SPECIAL[0]

  // The source parseEqConfig has settled on for a task number, with GPStoServe, once it has seen the
  // datapoints before (m, n).
  ghost predicate PicksTo(cfg: Config, slot: nat, picked: Option<(nat, nat)>, m: nat, n: nat) {
    match picked
    case Some((i, gps)) =>
      exists j: nat :: Uses(cfg, LOCAT2D, i, j) && Rank(cfg, LOCAT2D, i, j) == slot && gps == LocalRank(cfg[i].datapoints, LOCAT2D, j)
    case None =>
      forall i: nat, j: nat :: Uses(cfg, LOCAT2D, i, j) && (i < m || (i == m && j < n)) ==> Rank(cfg, LOCAT2D, i, j) != slot
  }

  ghost predicate Picks(cfg: Config, slot: nat, picked: Option<(nat, nat)>) { PicksTo(cfg, slot, picked, |cfg|, 0) }

  // The datapoint setParameters settles on for GPStoServe.
  ghost predicate Shows(points: seq<Datapoint>, gps: nat, shown: Option<nat>) {
    match shown
    case Some(j) => j < |points| && points[j].adapter == Some(LOCAT2D) && LocalRank(points, LOCAT2D, j) == gps
    case None => forall j: nat :: j < |points| && points[j].adapter == Some(LOCAT2D) ==> LocalRank(points, LOCAT2D, j) != gps
  }

  lemma TaskOfService(cfg: Config, key: string, i: nat, j: nat)
    requires key in Numbered(cfg).services && Numbered(cfg).services[key].made == Some((i, j))
    requires Numbered(cfg).services[key].context == LOCAT2D
    ensures Uses(cfg, LOCAT2D, i, j)
    ensures Numbered(cfg).services[key].taskId == Typed(cfg, LOCAT2D) + Rank(cfg, LOCAT2D, i, j)
  {
    AdaptersRight(cfg, |SPECIAL|);
    assert RightService(cfg, Numbered(cfg), Numbered(cfg).services[key]);
  }

  // The adapter started with the task number of any deployed locat2d service settles on the source of
  // the datapoint the service was made for, with a rank from which the frontend settles on that
  // datapoint, if and only if no data source is typed locat2d.
  lemma SlotAgreement(cfg: Config, key: string, s: Service, i: nat, j: nat, picked: Option<(nat, nat)>, shown: Option<nat>)
    requires key in Numbered(cfg).services && Numbered(cfg).services[key] == s
    requires s.made == Some((i, j)) && s.context == LOCAT2D && Picks(cfg, s.taskId, picked)
    requires picked.Some? ==> picked.value.0 < |cfg| && Shows(cfg[picked.value.0].datapoints, picked.value.1, shown)
    ensures picked.Some? && picked.value.0 == i && shown == Some(j) <==> Typed(cfg, LOCAT2D) == 0
  {
    TaskOfService(cfg, key, i, j);
    SelectOfRank(cfg, i, j, Typed(cfg, LOCAT2D), picked, shown);
  }

  // Selecting by a rank shifted by d finds the datapoint with the rank if and only if d is 0.
  lemma SelectOfRank(cfg: Config, i: nat, j: nat, d: nat, picked: Option<(nat, nat)>, shown: Option<nat>)
    requires Uses(cfg, LOCAT2D, i, j) && Picks(cfg, d + Rank(cfg, LOCAT2D, i, j), picked)
    requires picked.Some? ==> picked.value.0 < |cfg| && Shows(cfg[picked.value.0].datapoints, picked.value.1, shown)
    ensures picked.Some? && picked.value.0 == i && shown == Some(j) <==> d == 0
  {
    if picked.Some? {
      var (x, gps) := picked.value;
      var y: nat :| Uses(cfg, LOCAT2D, x, y) && Rank(cfg, LOCAT2D, x, y) == d + Rank(cfg, LOCAT2D, i, j)
        && gps == LocalRank(cfg[x].datapoints, LOCAT2D, y);
      ShownIsPicked(cfg[x].datapoints, gps, shown, y);
      SameRank(cfg, i, j, x, y);
    }
  }

  lemma ShownIsPicked(points: seq<Datapoint>, gps: nat, shown: Option<nat>, y: nat)
    requires Shows(points, gps, shown) && y < |points| && points[y].adapter == Some(LOCAT2D)
    requires gps == LocalRank(points, LOCAT2D, y)
    ensures shown == Some(y)
  {
    if shown.Some? && shown.value < y {
      LocalRanksDiffer(points, LOCAT2D, shown.value, y);
    } else if shown.Some? && y < shown.value {
      LocalRanksDiffer(points, LOCAT2D, y, shown.value);
    }
  }

  lemma SameRank(cfg: Config, i: nat, j: nat, x: nat, y: nat)
    requires Uses(cfg, LOCAT2D, i, j) && Uses(cfg, LOCAT2D, x, y)
    ensures Rank(cfg, LOCAT2D, i, j) == Rank(cfg, LOCAT2D, x, y) <==> i == x && j == y
  {
    if i < x || (i == x && j < y) {
      RanksDiffer(cfg, LOCAT2D, i, j, x, y);
    } else if x < i || (i == x && y < j) {
      RanksDiffer(cfg, LOCAT2D, x, y, i, j);
    }
  }

  // A configuration with one data source that is itself typed locat2d.
  const SHIFTED: Config := [Source(LOCAT2D, "s", Some("k"), 0, [Datapoint(Some(LOCAT2D), Some("p"))])]

  lemma ShiftedFacts()
    ensures Typed(SHIFTED, LOCAT2D) == 1 && Wanted(SHIFTED, LOCAT2D, 0, 0) && KeyIsOwn(SHIFTED, 0, 0)
    ensures Rank(SHIFTED, LOCAT2D, 0, 0) == 1
  {
    assert SHIFTED[..0] == [];
    assert Typed(SHIFTED, LOCAT2D) == Typed(SHIFTED[..0], LOCAT2D) + 1;
    LocalRankStep(SHIFTED[0].datapoints, LOCAT2D, 0);
    assert SHIFTED[0].datapoints[..0] == [];
  }

  // There the datapoint's service gets task number 2, and the adapter started with it settles on no
  // source at all.
  lemma ShiftedSlot()
    ensures var key := ServiceKey(SHIFTED, 0, 0);
            && key in Numbered(SHIFTED).services
            && Numbered(SHIFTED).services[key].made == Some((0, 0)) && Numbered(SHIFTED).services[key].taskId == 2
    ensures Picks(SHIFTED, 2, None)
  {
    ShiftedFacts();
    ServiceOfDatapoint(SHIFTED, 0, 0, 0);
    forall i: nat, j: nat | Uses(SHIFTED, LOCAT2D, i, j) ensures Rank(SHIFTED, LOCAT2D, i, j) != 2 {
      assert i == 0 && j == 0;
    }
  }

  // parseEqConfig of the adapter.
  method ParseEqConfig(cfg: Config, slot: nat) returns (picked: Option<(nat, nat)>)
    ensures Picks(cfg, slot, picked)
  {
    picked := None;
    var gpsCount := 0;
    for i := 0 to |cfg|
      invariant gpsCount == CountBefore(cfg, LOCAT2D, i)
      invariant PicksTo(cfg, slot, picked, i, 0)
    {
      var points := cfg[i].datapoints;
      var sourceGps := 0;
      for j := 0 to |points|
        invariant sourceGps == CountIn(points[..j], LOCAT2D)
        invariant gpsCount == CountBefore(cfg, LOCAT2D, i) + sourceGps
        invariant PicksTo(cfg, slot, picked, i, j)
      {
        LocalRankStep(points, LOCAT2D, j);
        ghost var before := picked;
        if points[j].adapter == Some(LOCAT2D) {
          sourceGps := sourceGps + 1;
          gpsCount := gpsCount + 1;
          if gpsCount == slot {
            picked := Some((i, sourceGps));
          }
        }
        PicksStep(cfg, slot, before, picked, i, j);
      }
      assert points[..|points|] == points;
    }
  }

  lemma PicksStep(cfg: Config, slot: nat, before: Option<(nat, nat)>, picked: Option<(nat, nat)>, i: nat, j: nat)
    requires IsPoint(cfg, i, j) && PicksTo(cfg, slot, before, i, j)
    requires picked == if Uses(cfg, LOCAT2D, i, j) && Rank(cfg, LOCAT2D, i, j) == slot
                       then Some((i, LocalRank(cfg[i].datapoints, LOCAT2D, j))) else before
    ensures PicksTo(cfg, slot, picked, i, j + 1)
  {
  }

  // setParameters of the frontend.
  method SetParameters(points: seq<Datapoint>, gps: nat) returns (shown: Option<nat>)
    ensures Shows(points, gps, shown)
  {
    shown := None;
    var gpsCount := 0;
    for j := 0 to |points|
      invariant gpsCount == CountIn(points[..j], LOCAT2D)
      invariant shown.Some? ==> Shows(points, gps, shown)
      invariant shown.None? ==>
                  forall k: nat :: k < j && points[k].adapter == Some(LOCAT2D) ==> LocalRank(points, LOCAT2D, k) != gps
    {
      LocalRankStep(points, LOCAT2D, j);
      if points[j].adapter == Some(LOCAT2D) {
        gpsCount := gpsCount + 1;
        if gpsCount == gps {
          shown := Some(j);
        }
      }
    }
  }
}
