/** Delivery of packets to the viewers of one stream: a bounded queue per viewer, a cast that never
    waits, and the viewer goroutine that feeds its muxer from the first keyframe on. */
module VideoViewers {
  import opened Collections

  datatype Packet = Packet(id: int, isKeyFrame: bool)

  const CAPACITY: nat := 100

  // A viewer of the Cl map with its goroutine. cast, full and taken record its past: every packet
  // cast since it joined, whether the queue was full then, and the packets it received.
  datatype Viewer = Viewer(
    queue: seq<Packet>, audioOnly: bool, videoStart: bool, stopped: bool,
    written: seq<Packet>,
    cast: seq<Packet>, full: seq<bool>, taken: seq<Packet>)

  type Viewers = map<string, Viewer>

  datatype Event =
    | Join(id: string, audioOnly: bool)
    | Leave(id: string)
    | Cast(p: Packet)
    | Receive(id: string, writeOk: bool)
    | NoVideo(id: string)

  // Viewer ids are drawn at random and taken to be new; a goroutine only receives and times out
  // until it has returned, and deletes itself after that.
  predicate Enabled(cl: Viewers, e: Event) {
    match e
    case Join(id, _) => id !in cl
    case Leave(id) => id in cl && cl[id].stopped
    case Cast(_) => true
    case Receive(id, _) => id in cl && !cl[id].stopped && cl[id].queue != []
    case NoVideo(id) => id in cl && !cl[id].stopped
  }

  function NewViewer(audioOnly: bool): Viewer { Viewer([], audioOnly, false, false, [], [], [], []) }

  function Offer(v: Viewer, p: Packet): Viewer {
    var free := |v.queue| < CAPACITY;
    v.(queue := if free then v.queue + [p] else v.queue, cast := v.cast + [p], full := v.full + [!free])
  }

  // One packet through the goroutine's loop body.
  function Process(v: Viewer, writeOk: bool): Viewer
    requires v.queue != []
  {
    var p := v.queue[0];
    var v := v.(queue := v.queue[1..], taken := v.taken + [p], videoStart := v.videoStart || p.isKeyFrame || v.audioOnly);
    if !v.videoStart && !v.audioOnly then v
    else if writeOk then v.(written := v.written + [p])
    else v.(stopped := true)
  }

  function Step(cl: Viewers, e: Event): Viewers
    requires Enabled(cl, e)
  {
    match e
    case Join(id, audioOnly) => cl[id := NewViewer(audioOnly)]
    case Leave(id) => cl - {id}
    case Cast(p) => map id | id in cl :: Offer(cl[id], p)
    case Receive(id, writeOk) => cl[id := Process(cl[id], writeOk)]
    case NoVideo(id) => cl[id := cl[id].(stopped := true)]
  }

  predicate Legal(cl: Viewers, run: seq<Event>)
    decreases run
  {
    run == [] || (Enabled(cl, run[0]) && Legal(Step(cl, run[0]), run[1..]))
  }

  function After(cl: Viewers, run: seq<Event>): Viewers
    requires Legal(cl, run)
    decreases run
  {
    if run == [] then cl else After(Step(cl, run[0]), run[1..])
  }

  // ----- what a viewer gets -----

  // The packets cast while the queue was not full.
  function Accepted(cast: seq<Packet>, full: seq<bool>): seq<Packet>
    requires |cast| == |full|
  {
    if cast == [] then []
    else
      var n := |cast| - 1;
      Accepted(cast[..n], full[..n]) + if full[n] then [] else [cast[n]]
  }

  // From the first keyframe on, or everything when there is only audio.
  function FromStart(taken: seq<Packet>, audioOnly: bool): seq<Packet> {
    if audioOnly || taken == [] || taken[0].isKeyFrame then taken else FromStart(taken[1..], audioOnly)
  }

  // sub arises from s by leaving out elements.
  ghost predicate Subsequence(sub: seq<Packet>, s: seq<Packet>) {
    if sub == [] then true
    else if s == [] then false
    else if sub[|sub| - 1] == s[|s| - 1] && Subsequence(sub[..|sub| - 1], s[..|s| - 1]) then true
    else Subsequence(sub, s[..|s| - 1])
  }

  lemma {:induction false} AcceptedIsSubsequence(cast: seq<Packet>, full: seq<bool>)
    requires |cast| == |full|
    ensures Subsequence(Accepted(cast, full), cast)
  {
    if cast == [] {
    } else {
      var n := |cast| - 1;
      AcceptedIsSubsequence(cast[..n], full[..n]);
      var before := Accepted(cast[..n], full[..n]);
      if full[n] {
        assert before + [] == before;
      } else {
        assert (before + [cast[n]])[..|before|] == before;
      }
    }
  }

  lemma {:induction false} FromStartAppend(taken: seq<Packet>, audioOnly: bool, p: Packet)
    ensures FromStart(taken + [p], audioOnly) ==
            if audioOnly || p.isKeyFrame || FromStart(taken, audioOnly) != [] then FromStart(taken, audioOnly) + [p] else []
  {
    if taken == [] {
      assert [] + [p] == [p] && [p][1..] == [];
    } else {
      assert (taken + [p])[1..] == taken[1..] + [p];
      if !audioOnly && !taken[0].isKeyFrame { FromStartAppend(taken[1..], audioOnly, p); }
    }
  }

  // What holds of every viewer at all times.
  ghost predicate Sound(v: Viewer) {
    && |v.queue| <= CAPACITY
    && |v.cast| == |v.full|
    && v.taken + v.queue == Accepted(v.cast, v.full)
    && (v.videoStart <==> FromStart(v.taken, v.audioOnly) != [])
    && v.written <= FromStart(v.taken, v.audioOnly)
    && (!v.stopped ==> v.written == FromStart(v.taken, v.audioOnly))
    && |FromStart(v.taken, v.audioOnly)| <= |v.written| + 1
  }

  lemma OfferKeepsSound(v: Viewer, p: Packet)
    requires Sound(v)
    ensures Sound(Offer(v, p))
  {
  }

  lemma ProcessKeepsSound(v: Viewer, writeOk: bool)
    requires Sound(v) && v.queue != [] && !v.stopped
    ensures Sound(Process(v, writeOk))
  {
    var p := v.queue[0];
    FromStartAppend(v.taken, v.audioOnly, p);
    assert v.taken + [p] + v.queue[1..] == v.taken + v.queue;
  }

  lemma {:induction false} StepKeepsSound(cl: Viewers, e: Event)
    requires Enabled(cl, e) && forall id <- cl :: Sound(cl[id])
    ensures forall id <- Step(cl, e) :: Sound(Step(cl, e)[id])
  {
    match e {
      case Join(_, _) =>
      case Leave(_) =>
      case Cast(p) =>
        forall id | id in cl ensures Sound(Offer(cl[id], p)) { OfferKeepsSound(cl[id], p); }
      case Receive(id, writeOk) => ProcessKeepsSound(cl[id], writeOk);
      case NoVideo(_) =>
    }
  }

  lemma {:induction false} RunKeepsSound(cl: Viewers, run: seq<Event>)
    requires Legal(cl, run) && forall id <- cl :: Sound(cl[id])
    ensures forall id <- After(cl, run) :: Sound(After(cl, run)[id])
    decreases run
  {
    if run == [] {
    } else {
      StepKeepsSound(cl, run[0]);
      RunKeepsSound(Step(cl, run[0]), run[1..]);
    }
  }

  // ----- the record of a viewer's past -----

  predicate Joins(e: Event, id: string) { e.Join? && e.id == id }

  predicate NoJoin(run: seq<Event>, id: string) { forall e <- run :: !Joins(e, id) }

  // The viewer's last Join in the run.
  predicate LastJoin(run: seq<Event>, k: nat, id: string) {
    k < |run| && Joins(run[k], id) && NoJoin(run[k + 1..], id)
  }

  // The packets cast in a run, and how many a viewer receives.
  function Casts(run: seq<Event>): seq<Packet> {
    if run == [] then [] else CastBy(run[0]) + Casts(run[1..])
  }

  function Receives(run: seq<Event>, id: string): nat {
    if run == [] then 0 else (if run[0].Receive? && run[0].id == id then 1 else 0) + Receives(run[1..], id)
  }

  lemma {:induction false} StaysAway(cl: Viewers, run: seq<Event>, id: string)
    requires Legal(cl, run) && id !in cl && NoJoin(run, id)
    ensures id !in After(cl, run)
    decreases run
  {
    if run == [] {
    } else {
      assert !Joins(run[0], id);
      StaysAway(Step(cl, run[0]), run[1..], id);
    }
  }

  function CastBy(e: Event): seq<Packet> { if e.Cast? then [e.p] else [] }

  lemma RecordedStep(cl: Viewers, e: Event, id: string)
    requires Enabled(cl, e) && id in cl && id in Step(cl, e) && !Joins(e, id)
    ensures var v, w := cl[id], Step(cl, e)[id];
            && w.cast == v.cast + CastBy(e) && w.audioOnly == v.audioOnly
            && |w.taken| == |v.taken| + if e.Receive? && e.id == id then 1 else 0
  {
  }

  lemma {:induction false} RecordedFrom(cl: Viewers, run: seq<Event>, id: string)
    requires Legal(cl, run) && id in cl && id in After(cl, run) && NoJoin(run, id)
    ensures var v, w := cl[id], After(cl, run)[id];
            && w.cast == v.cast + Casts(run) && |w.taken| == |v.taken| + Receives(run, id)
            && w.audioOnly == v.audioOnly
    decreases run
  {
    if run == [] {
    } else {
      var next := Step(cl, run[0]);
      assert !Joins(run[0], id) && NoJoin(run[1..], id);
      if id !in next { StaysAway(next, run[1..], id); }
      RecordedFrom(next, run[1..], id);
      RecordedStep(cl, run[0], id);
      Regroup(cl[id].cast, CastBy(run[0]), Casts(run[1..]));
    }
  }

  lemma {:induction false} SplitRun(cl: Viewers, run: seq<Event>, k: nat)
    requires Legal(cl, run) && k <= |run|
    ensures Legal(cl, run[..k]) && Legal(After(cl, run[..k]), run[k..])
    ensures After(cl, run) == After(After(cl, run[..k]), run[k..])
    decreases run
  {
    if k == 0 {
      assert run[..0] == [] && run[0..] == run;
    } else {
      SplitRun(Step(cl, run[0]), run[1..], k - 1);
      assert run[..k][0] == run[0] && run[..k][1..] == run[1..][..k - 1] && run[k..] == run[1..][k - 1..];
    }
  }

  lemma {:induction false} LastJoinExists(run: seq<Event>, id: string) returns (k: nat)
    requires !NoJoin(run, id)
    ensures LastJoin(run, k, id)
  {
    if NoJoin(run[1..], id) {
      k := 0;
      assert run == [run[0]] + run[1..];
    } else {
      k := LastJoinExists(run[1..], id);
      k := k + 1;
      assert run[1..][k..] == run[k + 1..];
    }
  }

  // The recorded casts of a viewer are the packets cast in the run since it last joined, it has taken
  // as many as the run has receptions of its own since then, and it has the audio flag it joined with.
  lemma {:induction false} RecordedSinceJoin(run: seq<Event>, id: string) returns (k: nat)
    requires Legal(map[], run) && id in After(map[], run)
    ensures LastJoin(run, k, id)
    ensures var v := After(map[], run)[id];
            && v.cast == Casts(run[k + 1..]) && |v.taken| == Receives(run[k + 1..], id)
            && v.audioOnly == run[k].audioOnly
  {
    if NoJoin(run, id) { StaysAway(map[], run, id); }
    k := LastJoinExists(run, id);
    SplitRun(map[], run, k);
    var before := After(map[], run[..k]);
    var since := run[k + 1..];
    assert run[k..][0] == run[k] && run[k..][1..] == since;
    RecordedFrom(Step(before, run[k]), since, id);
  }

  // Delivery. In every run from a stream without viewers: what a viewer received, followed by what
  // is queued for it, is an in-order selection of the packets cast since it joined, namely of those
  // that found its queue not full; at most 100 are queued; and its muxer has got a prefix of the
  // received packets from the first keyframe on, all of it while the viewer runs and all but at most
  // the packet whose write failed once it has stopped.
  lemma {:induction false} Delivery(run: seq<Event>, id: string) returns (k: nat)
    requires Legal(map[], run) && id in After(map[], run)
    ensures LastJoin(run, k, id)
    ensures var v, start := After(map[], run)[id], FromStart(After(map[], run)[id].taken, run[k].audioOnly);
            && |v.cast| == |v.full| && v.taken + v.queue == Accepted(v.cast, v.full)
            && v.cast == Casts(run[k + 1..])
            && Subsequence(v.taken + v.queue, Casts(run[k + 1..]))
            && |v.queue| <= 100
            && v.written <= start
            && (!v.stopped ==> v.written == start)
            && |start| <= |v.written| + 1
  {
    RunKeepsSound(map[], run);
    k := RecordedSinceJoin(run, id);
    var v := After(map[], run)[id];
    AcceptedIsSubsequence(v.cast, v.full);
  }

  // What ends a viewer that joined with this audio flag: the timeout, or a write that fails once
  // there is something to write.
  predicate Stops(cl: Viewers, e: Event, id: string, audioOnly: bool) {
    || e == NoVideo(id)
    || (e == Receive(id, false) && id in cl && cl[id].queue != [] && FromStart(cl[id].taken + [cl[id].queue[0]], audioOnly) != [])
  }

  lemma StoppedStep(cl: Viewers, e: Event, id: string)
    requires Enabled(cl, e) && id in cl && Sound(cl[id]) && id in Step(cl, e) && !Joins(e, id)
    ensures Step(cl, e)[id].stopped <==> cl[id].stopped || Stops(cl, e, id, cl[id].audioOnly)
  {
    if e.Receive? && e.id == id { FromStartAppend(cl[id].taken, cl[id].audioOnly, cl[id].queue[0]); }
  }

  // Some event of the run ends the viewer.
  predicate StopsIn(cl: Viewers, run: seq<Event>, id: string, audioOnly: bool)
    requires Legal(cl, run)
    decreases run
  {
    run != [] && (Stops(cl, run[0], id, audioOnly) || StopsIn(Step(cl, run[0]), run[1..], id, audioOnly))
  }

  lemma {:induction false} StoppedFrom(cl: Viewers, run: seq<Event>, id: string)
    requires Legal(cl, run) && id in cl && id in After(cl, run) && NoJoin(run, id)
    requires forall other <- cl :: Sound(cl[other])
    ensures After(cl, run)[id].stopped <==> cl[id].stopped || StopsIn(cl, run, id, cl[id].audioOnly)
    decreases run
  {
    if run == [] {
    } else {
      var next := Step(cl, run[0]);
      assert !Joins(run[0], id) && NoJoin(run[1..], id);
      if id !in next { StaysAway(next, run[1..], id); }
      StepKeepsSound(cl, run[0]);
      StoppedStep(cl, run[0], id);
      RecordedStep(cl, run[0], id);
      StoppedFrom(next, run[1..], id);
    }
  }

  // A viewer runs until the timeout or a failed write since it joined, and no other event ends it.
  lemma {:induction false} StoppedIff(run: seq<Event>, id: string) returns (k: nat)
    requires Legal(map[], run) && id in After(map[], run)
    ensures LastJoin(run, k, id) && Legal(map[], run[..k + 1]) && Legal(After(map[], run[..k + 1]), run[k + 1..])
    ensures After(map[], run)[id].stopped <==> StopsIn(After(map[], run[..k + 1]), run[k + 1..], id, run[k].audioOnly)
  {
    k := RecordedSinceJoin(run, id);
    SplitRun(map[], run, k);
    SplitRun(map[], run, k + 1);
    var before, joined := After(map[], run[..k]), After(map[], run[..k + 1]);
    SplitRun(map[], run[..k + 1], k);
    assert run[..k + 1][..k] == run[..k] && run[..k + 1][k..] == [run[k]];
    assert After(before, [run[k]]) == Step(before, run[k]) by { assert [run[k]][1..] == []; }
    RunKeepsSound(map[], run[..k + 1]);
    StoppedFrom(joined, run[k + 1..], id);
  }

  // A viewer that leaves is gone, and only its own events and casts change a viewer.
  lemma OthersStay(cl: Viewers, e: Event, id: string)
    requires Enabled(cl, e)
    ensures e == Leave(id) ==> id !in Step(cl, e)
    ensures Joins(e, id) ==> id in Step(cl, e)
    ensures !e.Cast? && e.id != id ==>
              (id in Step(cl, e) <==> id in cl) && (id in cl ==> Step(cl, e)[id] == cl[id])
  {
  }

  // The record of fullness is true: a packet is skipped for a viewer exactly when its 100 places
  // are taken, and no viewer's cast depends on another's queue.
  lemma CastStep(cl: Viewers, p: Packet, id: string)
    requires id in cl && Sound(cl[id])
    ensures var v, w := cl[id], Step(cl, Cast(p))[id];
            && w.cast == v.cast + [p]
            && (|v.queue| == 100 ==> w.queue == v.queue && w.full == v.full + [true])
            && (|v.queue| < 100 ==> w.queue == v.queue + [p] && w.full == v.full + [false])
            && w.taken == v.taken && w.written == v.written
  {
  }

  // ----- the Cl map and the goroutines' steps on it -----

  // The body of cast's loop: the packet is sent only if the channel has room.
  method OfferTo(v: Viewer, p: Packet) returns (w: Viewer)
    ensures w == Offer(v, p)
  {
    w := v;
    var free := |v.queue| < CAPACITY;
    if free {
      w := w.(queue := w.queue + [p]);
    }
    w := w.(cast := w.cast + [p], full := w.full + [!free]);
  }

  class Hub {
    var cl: Viewers

    constructor ()
      ensures cl == map[]
    {
      cl := map[];
    }

    // cast: every viewer of the map once, in the map's arbitrary order, never waiting for any.
    method CastPacket(p: Packet)
      modifies this
      ensures cl == Step(old(cl), Cast(p))
    {
      var todo := cl.Keys;
      while todo != {}
        invariant todo <= old(cl).Keys && cl.Keys == old(cl).Keys
        invariant forall id <- cl :: cl[id] == if id in todo then old(cl)[id] else Offer(old(cl)[id], p)
        decreases todo
      {
        var id :| id in todo;
        var v := OfferTo(cl[id], p);
        cl := cl[id := v];
        todo := todo - {id};
      }
    }

    method ClAd(id: string, audioOnly: bool)
      requires id !in cl
      modifies this
      ensures cl == Step(old(cl), Join(id, audioOnly))
    {
      cl := cl[id := NewViewer(audioOnly)];
    }

    method ClDe(id: string)
      requires id in cl && cl[id].stopped
      modifies this
      ensures cl == Step(old(cl), Leave(id))
    {
      cl := map k | k in cl && k != id :: cl[k];
    }

    // The second case of the viewer goroutine's select. writeOk is the muxer's answer.
    method ReceivePacket(id: string, writeOk: bool)
      requires id in cl && !cl[id].stopped && cl[id].queue != []
      modifies this
      ensures cl == Step(old(cl), Receive(id, writeOk))
    {
      var v := cl[id];
      var pck := v.queue[0];
      v := v.(queue := v.queue[1..], taken := v.taken + [pck]);
      if pck.isKeyFrame || v.audioOnly {
        v := v.(videoStart := true);
      }
      if !v.videoStart && !v.audioOnly {
        cl := cl[id := v];
        return;
      }
      if writeOk {
        v := v.(written := v.written + [pck]);
      } else {
        v := v.(stopped := true);
      }
      cl := cl[id := v];
    }

    // The first case of the select: ten seconds went by without a keyframe.
    method NoVideoTimeout(id: string)
      requires id in cl && !cl[id].stopped
      modifies this
      ensures cl == Step(old(cl), NoVideo(id))
    {
      cl := cl[id := cl[id].(stopped := true)];
    }
  }
}
