/** Which ports and task numbers start.py hands out, in full: the ports run from 9001 on without a gap
    in the order of adapters, sources and datapoints, and every data source has its own service. */
module SlotLayout {
  import opened Options
  import opened TextSearch
  import opened Slots

  // ----- counting -----

  // The first n datapoints that use the adapter, and the first n data sources of a type.
  function Users(points: seq<Datapoint>, adapter: string, n: nat): set<nat>
    requires n <= |points|
  {
    set k: nat | k < n && points[k].adapter == Some(adapter)
  }

  function OfType(cfg: Config, kind: string, n: nat): set<nat>
    requires n <= |cfg|
  {
    set k: nat | k < n && ToLower(cfg[k].kind) == kind
  }

  // Counting in a loop gives the number of datapoints that use the adapter,
  lemma {:induction false} CountInIs(points: seq<Datapoint>, adapter: string, n: nat)
    requires n <= |points|
    ensures CountIn(points[..n], adapter) == |Users(points, adapter, n)|
  {
    if n == 0 {
    } else {
      CountInIs(points, adapter, n - 1);
      assert points[..n][..n - 1] == points[..n - 1];
      var here := if points[n - 1].adapter == Some(adapter) then {n - 1} else {};
      assert Users(points, adapter, n) == Users(points, adapter, n - 1) + here;
    }
  }

  // and the number of data sources of a type.
  lemma {:induction false} TypedIs(cfg: Config, kind: string, n: nat)
    requires n <= |cfg|
    ensures Typed(cfg[..n], kind) == |OfType(cfg, kind, n)|
  {
    if n == 0 {
    } else {
      TypedIs(cfg, kind, n - 1);
      assert cfg[..n][..n - 1] == cfg[..n - 1];
      var here := if ToLower(cfg[n - 1].kind) == kind then {n - 1} else {};
      assert OfType(cfg, kind, n) == OfType(cfg, kind, n - 1) + here;
    }
  }

  // Of the four adapters of datapoints two are also supported as types of data sources, and only
  // their task numbers are shifted.
  lemma Offsets(cfg: Config)
    ensures Offset(cfg, "locat2d") == Typed(cfg, "locat2d") && Offset(cfg, "locat3d") == Typed(cfg, "locat3d")
    ensures Offset(cfg, "orient3d") == 0 && Offset(cfg, "locat1d") == 0
  {
    assert "locat2d" in ADAPTERS && "locat3d" in ADAPTERS;
    assert |"orient3d"| == 8 && "orient3d"[4] == 'n' && "orient3d"[5] == 't';
    assert forall a <- ADAPTERS :: a != "orient3d" && a != "locat1d";
  }

  // ----- ports -----

  // The adapter's place in SPECIALDATADICT.
  function AdapterNo(adapter: string): nat {
    if adapter == "locat2d" then 0 else if adapter == "locat3d" then 1 else if adapter == "orient3d" then 2 else 3
  }

  lemma AdapterNoIs(m: nat)
    requires m < |SPECIAL|
    ensures AdapterNo(SPECIAL[m]) == m && ToLower(SPECIAL[m]) == SPECIAL[m]
  {
    assert SPECIAL == ["locat2d", "locat3d", "orient3d", "locat1d"];
  }

  // Datapoint (i, j) comes before (x, y) of adapter number n.
  predicate Precedes(cfg: Config, i: nat, j: nat, n: nat, x: nat, y: nat)
    requires IsServed(cfg, i, j)
  {
    var m := AdapterNo(cfg[i].datapoints[j].adapter.value);
    m < n || (m == n && (i < x || (i == x && j < y)))
  }

  // The same for two datapoints.
  predicate Sooner(cfg: Config, k: (nat, nat), l: (nat, nat))
    requires IsServed(cfg, k.0, k.1) && IsServed(cfg, l.0, l.1)
  {
    Precedes(cfg, k.0, k.1, AdapterNo(cfg[l.0].datapoints[l.1].adapter.value), l.0, l.1)
  }

  ghost predicate AllServed(cfg: Config, ports: map<(nat, nat), nat>) {
    forall k <- ports :: IsServed(cfg, k.0, k.1)
  }

  // Later datapoints have greater ports.
  ghost predicate InOrder(cfg: Config, ports: map<(nat, nat), nat>)
    requires AllServed(cfg, ports)
  {
    forall k, l :: k in ports && l in ports && Sooner(cfg, k, l) ==> ports[k] < ports[l]
  }

  // Ports have been handed out to datapoints before (n, x, y) only.
  ghost predicate Reached(cfg: Config, ports: map<(nat, nat), nat>, n: nat, x: nat, y: nat)
    requires AllServed(cfg, ports)
  {
    forall k <- ports :: Precedes(cfg, k.0, k.1, n, x, y)
  }

  // The ports in use are those from 9001 to free - 1.
  ghost predicate Gapless(ports: map<(nat, nat), nat>, free: nat) {
    && free == 9001 + |ports|
    && (forall k <- ports :: 9001 <= ports[k] < free)
    && forall v: nat :: 9001 <= v < free ==> v in ports.Values
  }

  ghost predicate Laid(cfg: Config, p: Progress, n: nat, x: nat, y: nat) {
    && AllServed(cfg, p.destports) && Reached(cfg, p.destports, n, x, y)
    && InOrder(cfg, p.destports) && Gapless(p.destports, p.free)
  }

  lemma VisitLays(p: Progress, q: Progress, cfg: Config, adapter: string, n: nat, x: nat, y: nat)
    requires n < |SPECIAL| && adapter == SPECIAL[n] && IsPoint(cfg, x, y) && Laid(cfg, p, n, x, y)
    requires q == Visit(p, cfg, adapter, x, y)
    ensures Laid(cfg, q, n, x, y + 1)
  {
    AdapterNoIs(n);
    if Wanted(cfg, adapter, x, y) {
      LayOne(p, q, cfg, n, x, y);
    } else {
      NextPoint(p, q, cfg, n, x, y);
    }
  }

  lemma NextPoint(p: Progress, q: Progress, cfg: Config, n: nat, x: nat, y: nat)
    requires Laid(cfg, p, n, x, y) && q.destports == p.destports && q.free == p.free
    ensures Laid(cfg, q, n, x, y + 1)
  {
  }

  lemma LayOne(p: Progress, q: Progress, cfg: Config, n: nat, x: nat, y: nat)
    requires Laid(cfg, p, n, x, y) && IsServed(cfg, x, y) && AdapterNo(cfg[x].datapoints[y].adapter.value) == n
    requires q.destports == p.destports[(x, y) := p.free] && q.free == p.free + 1
    ensures Laid(cfg, q, n, x, y + 1)
  {
    assert (x, y) !in p.destports;
    OneMorePort(p.destports, p.free, (x, y));
    OneMoreInOrder(cfg, p.destports, p.free, (x, y));
  }

  lemma OneMorePort(ports: map<(nat, nat), nat>, free: nat, k: (nat, nat))
    requires Gapless(ports, free) && k !in ports
    ensures Gapless(ports[k := free], free + 1)
  {
    var now := ports[k := free];
    assert now[k] == free;
    forall v: nat | 9001 <= v < free ensures v in now.Values {
      assert v in ports.Values;
      var l :| l in ports && ports[l] == v;
      assert now[l] == v;
    }
  }

  lemma OneMoreInOrder(cfg: Config, ports: map<(nat, nat), nat>, free: nat, k: (nat, nat))
    requires AllServed(cfg, ports) && InOrder(cfg, ports) && IsServed(cfg, k.0, k.1)
    requires forall l <- ports :: Sooner(cfg, l, k) && ports[l] < free
    ensures AllServed(cfg, ports[k := free]) && InOrder(cfg, ports[k := free])
  {
  }

  lemma {:induction false} PointsLay(p: Progress, q: Progress, cfg: Config, adapter: string, n: nat, x: nat, y: nat)
    requires n < |SPECIAL| && adapter == SPECIAL[n] && x < |cfg| && y <= |cfg[x].datapoints| && Laid(cfg, p, n, x, 0)
    requires q == VisitPoints(p, cfg, adapter, x, y)
    ensures Laid(cfg, q, n, x, y)
    decreases y
  {
    if y == 0 {
    } else {
      var before := VisitPoints(p, cfg, adapter, x, y - 1);
      PointsLay(p, before, cfg, adapter, n, x, y - 1);
      VisitLays(before, q, cfg, adapter, n, x, y - 1);
    }
  }

  lemma {:induction false} SourcesLay(p: Progress, q: Progress, cfg: Config, adapter: string, n: nat, x: nat)
    requires n < |SPECIAL| && adapter == SPECIAL[n] && x <= |cfg| && Laid(cfg, p, n, 0, 0)
    requires q == VisitSources(p, cfg, adapter, x)
    ensures Laid(cfg, q, n, x, 0)
    decreases x
  {
    if x == 0 {
    } else {
      var before := VisitSources(p, cfg, adapter, x - 1);
      SourcesLay(p, before, cfg, adapter, n, x - 1);
      PointsLay(before, q, cfg, adapter, n, x - 1, |cfg[x - 1].datapoints|);
      NextLays(q, cfg, n, x - 1, |cfg[x - 1].datapoints|);
    }
  }

  lemma NextLays(p: Progress, cfg: Config, n: nat, x: nat, y: nat)
    requires Laid(cfg, p, n, x, y)
    ensures Laid(cfg, p, n, x + 1, 0) && Laid(cfg, p, n + 1, 0, 0)
  {
  }

  lemma {:induction false} AdaptersLay(cfg: Config, q: Progress, n: nat)
    requires n <= |SPECIAL| && q == VisitAdapters(cfg, n)
    ensures Laid(cfg, q, n, 0, 0)
    decreases n
  {
    if n == 0 {
      SourcesNumbered(cfg, "");
    } else {
      AdaptersLay(cfg, VisitAdapters(cfg, n - 1), n - 1);
      SourcesLay(VisitAdapters(cfg, n - 1), q, cfg, SPECIAL[n - 1], n - 1, |cfg|);
      NextLays(q, cfg, n - 1, |cfg|, 0);
    }
  }

  // The ports: exactly the datapoints with a special adapter, a name and a key have one; the ports
  // are those from 9001 on, as many as needed; and they rise with the adapter's place, the source
  // and the datapoint.
  lemma PortLayout(cfg: Config)
    ensures var ports := Numbered(cfg).destports;
            && (forall i: nat, j: nat :: (i, j) in ports <==> IsServed(cfg, i, j))
            && (forall v: nat :: v in ports.Values <==> 9001 <= v < 9001 + |ports|)
            && InOrder(cfg, ports)
  {
    AdaptersLay(cfg, Numbered(cfg), |SPECIAL|);
    var ports := Numbered(cfg).destports;
    forall i: nat, j: nat | IsServed(cfg, i, j) ensures (i, j) in ports {
      var m :| 0 <= m < |SPECIAL| && SPECIAL[m] == cfg[i].datapoints[j].adapter.value;
      AdaptersServe(cfg, |SPECIAL|, m, i, j);
    }
  }

  // ----- services of data sources -----

  predicate Supported(source: Source) { ToLower(source.kind) in ADAPTERS }

  // The service that source i gets: its own type and port, and its number among the sources of the type.
  function OwnService(cfg: Config, i: nat): Service
    requires i < |cfg|
  {
    Service(ToLower(cfg[i].kind), cfg[i].openport, Typed(cfg[..i + 1], ToLower(cfg[i].kind)), None)
  }

  lemma {:induction false} SourceNumbered(cfg: Config, i: nat)
    requires i < |cfg| && Supported(cfg[i])
    requires forall k :: i < k < |cfg| && Supported(cfg[k]) ==> ToLower(cfg[k].name) != ToLower(cfg[i].name)
    ensures var p := NumberSources(cfg); ToLower(cfg[i].name) in p.services && p.services[ToLower(cfg[i].name)] == OwnService(cfg, i)
    decreases |cfg|
  {
    var n := |cfg| - 1;
    if i == n {
      SourcesNumbered(cfg, ToLower(cfg[i].kind));
      assert cfg[..i + 1] == cfg;
    } else {
      var init := cfg[..n];
      assert forall k :: 0 <= k < n ==> init[k] == cfg[k];
      SourceNumbered(init, i);
      assert init[..i + 1] == cfg[..i + 1];
    }
  }

  // No datapoint's service has this key.
  ghost predicate Unclaimed(cfg: Config, key: string) {
    forall x: nat, y: nat :: IsServed(cfg, x, y) ==> ServiceKey(cfg, x, y) != key
  }

  // p and q agree on the service of a key.
  predicate SameService(p: Progress, q: Progress, key: string) {
    (key in p.services <==> key in q.services) && (key in p.services ==> p.services[key] == q.services[key])
  }

  lemma {:induction false} PointsSpare(p: Progress, cfg: Config, adapter: string, i: nat, n: nat, key: string)
    requires adapter in SPECIAL && i < |cfg| && n <= |cfg[i].datapoints| && Unclaimed(cfg, key)
    ensures SameService(p, VisitPoints(p, cfg, adapter, i, n), key)
    decreases n
  {
    if n == 0 {
    } else {
      PointsSpare(p, cfg, adapter, i, n - 1, key);
      if Wanted(cfg, adapter, i, n - 1) { assert IsServed(cfg, i, n - 1); }
    }
  }

  lemma {:induction false} SourcesSpare(p: Progress, cfg: Config, adapter: string, n: nat, key: string)
    requires adapter in SPECIAL && n <= |cfg| && Unclaimed(cfg, key)
    ensures SameService(p, VisitSources(p, cfg, adapter, n), key)
    decreases n
  {
    if n == 0 {
    } else {
      SourcesSpare(p, cfg, adapter, n - 1, key);
      PointsSpare(VisitSources(p, cfg, adapter, n - 1), cfg, adapter, n - 1, |cfg[n - 1].datapoints|, key);
    }
  }

  lemma {:induction false} AdaptersSpare(cfg: Config, n: nat, key: string)
    requires n <= |SPECIAL| && Unclaimed(cfg, key)
    ensures SameService(NumberSources(cfg), VisitAdapters(cfg, n), key)
  {
    if n == 0 {
    } else {
      AdaptersSpare(cfg, n - 1, key);
      SourcesSpare(VisitAdapters(cfg, n - 1), cfg, SPECIAL[n - 1], |cfg|, key);
    }
  }

  // A supported data source has its service under its name in small letters, with its own port and
  // its number among the sources of its type, unless a later source or a datapoint takes the key.
  lemma SourceService(cfg: Config, i: nat)
    requires i < |cfg| && Supported(cfg[i]) && Unclaimed(cfg, ToLower(cfg[i].name))
    requires forall k :: i < k < |cfg| && Supported(cfg[k]) ==> ToLower(cfg[k].name) != ToLower(cfg[i].name)
    ensures var services := Numbered(cfg).services;
            ToLower(cfg[i].name) in services && services[ToLower(cfg[i].name)] == OwnService(cfg, i)
  {
    SourceNumbered(cfg, i);
    AdaptersSpare(cfg, |SPECIAL|, ToLower(cfg[i].name));
  }
}
