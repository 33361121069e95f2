/** On-demand video workers: which goroutines run for which stream, and the lock that keeps them
    single. Every method that holds the mutex is one step; the unsynchronised registration of a new
    stream is two. */
module VideoWorkers {

  datatype Stream = Stream(onDemand: bool, runLock: bool, codecs: int, viewers: set<string>)

  // A worker goroutine with the arguments it was started with.
  datatype Worker = Worker(name: string, onDemand: bool)

  datatype State = State(
    streams: map<string, Stream>,
    running: multiset<Worker>,    // in RTSPWorkerLoop
    leaving: multiset<Worker>,    // returned from the loop, RunUnlock still to come
    pending: multiset<string>,    // found missing by a request that is about to register them
    served: set<string>)          // already visited by serveStreams

  datatype Event =
    | RunIfNotRun(name: string)
    | AddCodecs(name: string, codecs: int)
    | GiveUp(worker: Worker)
    | RunUnlock(worker: Worker)
    | Serve(name: string)
    | CheckMissing(name: string)
    | Register(name: string)
    | AddViewer(name: string, id: string)
    | RemoveViewer(name: string, id: string)

  // When a step can be taken.
  predicate Enabled(s: State, e: Event) {
    match e
    case RunIfNotRun(_) => true
    case AddCodecs(name, _) => Worker(name, true) in s.running || Worker(name, false) in s.running
    case GiveUp(w) => w in s.running && w.onDemand && !HasViewer(s, w.name)
    case RunUnlock(w) => w in s.leaving
    case Serve(name) => name in s.streams && !s.streams[name].onDemand && name !in s.served
    case CheckMissing(_) => true
    case Register(name) => name in s.pending
    case AddViewer(name, _) => name in s.streams
    case RemoveViewer(_, _) => true
  }

  predicate HasViewer(s: State, name: string) { name in s.streams && s.streams[name].viewers != {} }

  function Fresh(): Stream { Stream(true, false, 0, {}) }

  // coAd writes back a stream even if there was none; the zero value is not on demand.
  function StreamOrZero(s: State, name: string): Stream {
    if name in s.streams then s.streams[name] else Stream(false, false, 0, {})
  }

  function Step(s: State, e: Event): State {
    match e
    case RunIfNotRun(name) =>
      if name in s.streams && s.streams[name].onDemand && !s.streams[name].runLock then
        s.(streams := s.streams[name := s.streams[name].(runLock := true)],
           running := s.running + multiset{Worker(name, true)})
      else s
    case AddCodecs(name, codecs) =>
      s.(streams := s.streams[name := StreamOrZero(s, name).(codecs := codecs)])
    case GiveUp(w) =>
      s.(running := s.running - multiset{w}, leaving := s.leaving + multiset{w})
    case RunUnlock(w) =>
      var s := s.(leaving := s.leaving - multiset{w});
      if w.name in s.streams && s.streams[w.name].onDemand && s.streams[w.name].runLock then
        s.(streams := s.streams[w.name := s.streams[w.name].(runLock := false)])
      else s
    case Serve(name) =>
      s.(running := s.running + multiset{Worker(name, false)}, served := s.served + {name})
    case CheckMissing(name) =>
      if name in s.streams then s else s.(pending := s.pending + multiset{name})
    case Register(name) =>
      s.(streams := s.streams[name := Fresh()], pending := s.pending - multiset{name})
    case AddViewer(name, id) =>
      if name in s.streams then
        s.(streams := s.streams[name := s.streams[name].(viewers := s.streams[name].viewers + {id})])
      else s
    case RemoveViewer(name, id) =>
      if name in s.streams then
        s.(streams := s.streams[name := s.streams[name].(viewers := s.streams[name].viewers - {id})])
      else s
  }

  // A configuration file sets onDemand per stream and leaves every lock open.
  predicate Initial(s: State) {
    && (forall name <- s.streams :: !s.streams[name].runLock && s.streams[name].viewers == {})
    && s.running == multiset{} && s.leaving == multiset{} && s.pending == multiset{} && s.served == {}
  }

  // ----- runs -----

  predicate Legal(s: State, run: seq<Event>)
    decreases run
  {
    run == [] || (Enabled(s, run[0]) && Legal(Step(s, run[0]), run[1..]))
  }

  function After(s: State, run: seq<Event>): State
    decreases run
  {
    if run == [] then s else After(Step(s, run[0]), run[1..])
  }

  // How often a stream is registered in a run.
  function Registrations(run: seq<Event>, name: string): nat {
    if run == [] then 0
    else (if run[0] == Register(name) then 1 else 0) + Registrations(run[1..], name)
  }

  // The goroutines of a stream that have started and not yet unlocked it.
  function Workers(s: State, name: string): nat {
    s.running[Worker(name, true)] + s.running[Worker(name, false)]
      + s.leaving[Worker(name, true)] + s.leaving[Worker(name, false)]
  }

  // What holds of a stream that was configured as given by onDemand.
  predicate Sound(s: State, name: string, onDemand: bool) {
    && name in s.streams && s.streams[name].onDemand == onDemand
    && (onDemand ==>
          && Workers(s, name) == (if s.streams[name].runLock then 1 else 0)
          && s.running[Worker(name, false)] == 0 && s.leaving[Worker(name, false)] == 0)
    && (!onDemand ==>
          && !s.streams[name].runLock
          && Workers(s, name) == s.running[Worker(name, false)] == (if name in s.served then 1 else 0))
  }

  // A stream nobody has registered yet has no worker.
  predicate Unknown(s: State, name: string) {
    name !in s.streams && Workers(s, name) == 0
  }

  lemma {:induction false} StartKeepsSound(s: State, e: Event, name: string, onDemand: bool)
    requires Sound(s, name, onDemand) && Enabled(s, e) && (e.RunIfNotRun? || e.Serve?)
    ensures Sound(Step(s, e), name, onDemand)
  {
  }

  lemma {:induction false} GiveUpKeepsSound(s: State, e: Event, name: string, onDemand: bool)
    requires Sound(s, name, onDemand) && Enabled(s, e) && e.GiveUp?
    ensures Sound(Step(s, e), name, onDemand)
  {
    var t, w := Step(s, e), e.worker;
    forall v ensures t.running[v] + t.leaving[v] == s.running[v] + s.leaving[v] {
      if v == w { assert s.running[w] > 0; }
    }
  }

  lemma {:induction false} UnlockKeepsSound(s: State, e: Event, name: string, onDemand: bool)
    requires Sound(s, name, onDemand) && Enabled(s, e) && e.RunUnlock?
    ensures Sound(Step(s, e), name, onDemand)
  {
    var t, w := Step(s, e), e.worker;
    assert s.leaving[w] > 0;
    assert t.leaving == s.leaving - multiset{w} && t.running == s.running;
    if w.name == name { assert onDemand && w == Worker(name, true); }
  }

  lemma {:induction false} StepKeepsSound(s: State, e: Event, name: string, onDemand: bool)
    requires Sound(s, name, onDemand) && Enabled(s, e) && e != Register(name)
    ensures Sound(Step(s, e), name, onDemand)
    ensures s.pending[name] == 0 ==> Step(s, e).pending[name] == 0
  {
    match e {
      case RunIfNotRun(_) => StartKeepsSound(s, e, name, onDemand);
      case Serve(_) => StartKeepsSound(s, e, name, onDemand);
      case GiveUp(_) => GiveUpKeepsSound(s, e, name, onDemand);
      case RunUnlock(_) => UnlockKeepsSound(s, e, name, onDemand);
      case AddCodecs(_, _) =>
      case CheckMissing(_) =>
      case Register(_) =>
      case AddViewer(_, _) =>
      case RemoveViewer(_, _) =>
    }
  }

  lemma StartKeepsUnknown(s: State, e: Event, name: string)
    requires Unknown(s, name) && Enabled(s, e) && (e.RunIfNotRun? || e.Serve?)
    ensures Unknown(Step(s, e), name)
  {
  }

  lemma LeaveKeepsUnknown(s: State, e: Event, name: string)
    requires Unknown(s, name) && Enabled(s, e) && (e.GiveUp? || e.RunUnlock?)
    ensures Unknown(Step(s, e), name)
  {
  }

  lemma RegisterMakesSound(s: State, name: string)
    requires Unknown(s, name) && Enabled(s, Register(name))
    ensures Sound(Step(s, Register(name)), name, true)
  {
  }

  lemma {:induction false} StepKeepsUnknown(s: State, e: Event, name: string)
    requires Unknown(s, name) && Enabled(s, e)
    ensures e != Register(name) ==> Unknown(Step(s, e), name)
    ensures e == Register(name) ==> Sound(Step(s, e), name, true)
  {
    match e {
      case RunIfNotRun(_) => StartKeepsUnknown(s, e, name);
      case Serve(_) => StartKeepsUnknown(s, e, name);
      case GiveUp(_) => LeaveKeepsUnknown(s, e, name);
      case RunUnlock(_) => LeaveKeepsUnknown(s, e, name);
      case AddCodecs(_, _) =>
      case CheckMissing(_) =>
      case Register(n) => if n == name { RegisterMakesSound(s, name); }
      case AddViewer(_, _) =>
      case RemoveViewer(_, _) =>
    }
  }

  // A configured stream keeps its single worker in every interleaving, and is never registered again.
  lemma {:induction false} ConfiguredFrom(s: State, run: seq<Event>, name: string, onDemand: bool)
    requires Legal(s, run) && Sound(s, name, onDemand) && s.pending[name] == 0
    ensures Sound(After(s, run), name, onDemand) && Registrations(run, name) == 0
    ensures name in After(s, run).served <==> name in s.served || Serve(name) in run
    decreases run
  {
    if run == [] {
    } else {
      StepKeepsSound(s, run[0], name, onDemand);
      ConfiguredFrom(Step(s, run[0]), run[1..], name, onDemand);
    }
  }

  // One worker per stream: in every run, a configured on-demand stream is locked exactly while one
  // worker has started and not yet unlocked it, a stream that is not on demand has its one worker
  // from the moment serveStreams comes to it, and no configured stream ever has two workers.
  lemma {:induction false} OneWorkerPerConfiguredStream(s: State, run: seq<Event>, name: string)
    requires Initial(s) && name in s.streams && Legal(s, run)
    ensures var t := After(s, run);
            && name in t.streams && Workers(t, name) <= 1
            && (s.streams[name].onDemand ==> (t.streams[name].runLock <==> Workers(t, name) == 1))
            && (!s.streams[name].onDemand ==> (Serve(name) in run <==> Workers(t, name) == 1) && !t.streams[name].runLock)
  {
    ConfiguredFrom(s, run, name, s.streams[name].onDemand);
  }

  lemma {:induction false} RegisteredOnceFrom(s: State, run: seq<Event>, name: string)
    requires Legal(s, run)
    requires Unknown(s, name) || Sound(s, name, true)
    requires Registrations(run, name) <= if Unknown(s, name) then 1 else 0
    ensures Workers(After(s, run), name) <= 1
    ensures Unknown(After(s, run), name) || Sound(After(s, run), name, true)
    decreases run
  {
    if run == [] {
    } else {
      if Unknown(s, name) {
        StepKeepsUnknown(s, run[0], name);
      } else {
        StepKeepsSound(s, run[0], name, true);
      }
      RegisteredOnceFrom(Step(s, run[0]), run[1..], name);
    }
  }

  // A stream that is not configured keeps a single worker as long as it is registered at most once,
  // as it would be if looking and registering were one step.
  lemma OneWorkerIfRegisteredOnce(s: State, run: seq<Event>, name: string)
    requires Initial(s) && name !in s.streams && Legal(s, run) && Registrations(run, name) <= 1
    ensures Workers(After(s, run), name) <= 1
  {
    RegisteredOnceFrom(s, run, name);
  }

  lemma {:induction false} Prepend(s: State, e: Event, run: seq<Event>)
    requires Enabled(s, e) && Legal(Step(s, e), run)
    ensures Legal(s, [e] + run) && After(s, [e] + run) == After(Step(s, e), run)
  {
  }

  // Two requests that both look before either registers: the second registration opens the lock
  // again, and a second worker starts.
  lemma {:induction false} RaceStartsTwo(s: State, name: string) returns (run: seq<Event>)
    requires Initial(s) && name !in s.streams
    ensures Legal(s, run) && Workers(After(s, run), name) == 2
  {
    var w := Worker(name, true);
    var s1 := s.(pending := multiset{name});
    var s2 := s.(pending := multiset{name, name});
    var s3 := s.(streams := s.streams[name := Fresh()], pending := multiset{name});
    var s4 := s3.(streams := s.streams[name := Fresh().(runLock := true)], running := multiset{w});
    var s5 := s.(streams := s.streams[name := Fresh()], running := multiset{w});
    RaceBegins(s, name, s1, s2, s3);
    RaceEnds(s, name, s3, s4, s5);
    Prepend(s5, RunIfNotRun(name), []);
    run := [RunIfNotRun(name)] + [];
    Prepend(s4, Register(name), run);
    run := [Register(name)] + run;
    Prepend(s3, RunIfNotRun(name), run);
    run := [RunIfNotRun(name)] + run;
    Prepend(s2, Register(name), run);
    run := [Register(name)] + run;
    Prepend(s1, CheckMissing(name), run);
    run := [CheckMissing(name)] + run;
    Prepend(s, CheckMissing(name), run);
    run := [CheckMissing(name)] + run;
  }

  lemma RaceBegins(s: State, name: string, s1: State, s2: State, s3: State)
    requires Initial(s) && name !in s.streams
    requires s1 == s.(pending := multiset{name}) && s2 == s.(pending := multiset{name, name})
    requires s3 == s.(streams := s.streams[name := Fresh()], pending := multiset{name})
    ensures Step(s, CheckMissing(name)) == s1 && Step(s1, CheckMissing(name)) == s2 && Step(s2, Register(name)) == s3
  {
    assert multiset{} + multiset{name} == multiset{name};
    assert multiset{name} + multiset{name} == multiset{name, name};
    assert multiset{name, name} - multiset{name} == multiset{name};
  }

  lemma Rewritten(streams: map<string, Stream>, name: string, x: Stream, y: Stream)
    ensures streams[name := x][name := y] == streams[name := y]
  {
  }

  lemma RaceEnds(s: State, name: string, s3: State, s4: State, s5: State)
    requires Initial(s) && name !in s.streams
    requires s3 == s.(streams := s.streams[name := Fresh()], pending := multiset{name})
    requires s4 == s3.(streams := s.streams[name := Fresh().(runLock := true)], running := multiset{Worker(name, true)})
    requires s5 == s.(streams := s.streams[name := Fresh()], running := multiset{Worker(name, true)})
    ensures Step(s3, RunIfNotRun(name)) == s4 && Step(s4, Register(name)) == s5
    ensures Workers(Step(s5, RunIfNotRun(name)), name) == 2
  {
    Rewritten(s.streams, name, Fresh(), Fresh().(runLock := true));
    Rewritten(s.streams, name, Fresh().(runLock := true), Fresh());
    assert multiset{name} - multiset{name} == multiset{};
    assert multiset{} + multiset{Worker(name, true)} == multiset{Worker(name, true)};
  }

  // Exactly which streams are safe: some run gives a stream two workers if and only if it is not
  // in the configuration.
  lemma {:induction false} TwoWorkersIffNotConfigured(s: State, name: string)
    requires Initial(s)
    ensures (exists run :: Legal(s, run) && Workers(After(s, run), name) >= 2) <==> name !in s.streams
  {
    if name !in s.streams {
      var run := RaceStartsTwo(s, name);
    } else {
      forall run | Legal(s, run) ensures Workers(After(s, run), name) < 2 {
        OneWorkerPerConfiguredStream(s, run, name);
      }
    }
  }

  // ----- what a step does to a stream -----

  // Adding and removing a viewer changes this viewer and nothing else of the stream, new codecs
  // nothing but the codecs,
  lemma StreamAfter(s: State, e: Event, name: string, id: string)
    requires name in s.streams && Enabled(s, e)
    ensures name in Step(s, e).streams
    ensures var x, y := s.streams[name], Step(s, e).streams[name];
            && (e == AddViewer(name, id) ==> y.viewers == x.viewers + {id} && y.(viewers := x.viewers) == x)
            && (e == RemoveViewer(name, id) ==> y.viewers == x.viewers - {id} && y.(viewers := x.viewers) == x)
            && (e.AddCodecs? && e.name == name ==> y.codecs == e.codecs && y.(codecs := x.codecs) == x)
  {
  }

  // The stream a step is about, if it is about one.
  function Subject(e: Event): seq<string> {
    match e
    case RunIfNotRun(name) => [name]
    case AddCodecs(name, _) => [name]
    case RunUnlock(w) => [w.name]
    case Register(name) => [name]
    case AddViewer(name, _) => [name]
    case RemoveViewer(name, _) => [name]
    case GiveUp(_) => []
    case Serve(_) => []
    case CheckMissing(_) => []
  }

  // and a step for another stream, or for none, nothing at all.
  lemma OthersStay(s: State, e: Event, name: string)
    requires Enabled(s, e) && name !in Subject(e)
    ensures name in Step(s, e).streams <==> name in s.streams
    ensures name in s.streams ==> Step(s, e).streams[name] == s.streams[name]
  {
    if Subject(e) != [] { assert name != Subject(e)[0]; }
  }

  // Once the last viewer has left, the worker may leave its loop, and not before.
  lemma LastViewerLeaves(s: State, name: string, id: string)
    requires name in s.streams && Worker(name, true) in s.running
    ensures Enabled(Step(s, RemoveViewer(name, id)), GiveUp(Worker(name, true))) <==> s.streams[name].viewers <= {id}
  {
    assert s.streams[name].viewers - {id} == {} <==> s.streams[name].viewers <= {id};
  }

  // ----- viewers without a worker -----

  // A worker of the stream is in its loop and casts packets.
  predicate Served(s: State, name: string) { Worker(name, true) in s.running }

  lemma StepKeepsViewer(s: State, e: Event, name: string, id: string)
    requires name in s.streams && s.pending[name] == 0 && Enabled(s, e) && e != RemoveViewer(name, id)
    requires id in s.streams[name].viewers
    ensures name in Step(s, e).streams && id in Step(s, e).streams[name].viewers
  {
    match e {
      case RunIfNotRun(_) =>
      case AddCodecs(_, _) =>
      case GiveUp(_) =>
      case RunUnlock(w) => UnlockKeepsViewer(s, w, name, id);
      case Serve(_) =>
      case CheckMissing(_) =>
      case Register(_) =>
      case AddViewer(_, _) =>
      case RemoveViewer(_, _) =>
    }
  }

  lemma UnlockKeepsViewer(s: State, w: Worker, name: string, id: string)
    requires name in s.streams && id in s.streams[name].viewers && Enabled(s, RunUnlock(w))
    ensures var t := Step(s, RunUnlock(w)); name in t.streams && id in t.streams[name].viewers
  {
  }

  // A worker in its loop stays there as long as a viewer does.
  lemma {:induction false} ViewerKeepsWorker(s: State, run: seq<Event>, name: string, id: string)
    requires Legal(s, run) && Sound(s, name, true) && s.pending[name] == 0
    requires id in s.streams[name].viewers && Served(s, name) && RemoveViewer(name, id) !in run
    ensures Served(After(s, run), name)
    decreases run
  {
    if run == [] {
    } else {
      StepKeepsViewer(s, run[0], name, id);
      StepKeepsSound(s, run[0], name, true);
      ViewerKeepsWorker(Step(s, run[0]), run[1..], name, id);
    }
  }

  // Exactly when a joining viewer is sure of a worker for as long as it stays: when one is in its
  // loop, and not on its way out, as the viewer is added.
  lemma SureOfWorkerIff(s: State, name: string, id: string)
    requires Sound(s, name, true) && s.pending[name] == 0
    ensures (forall run :: Legal(Step(s, AddViewer(name, id)), run) && RemoveViewer(name, id) !in run ==>
               Served(After(Step(s, AddViewer(name, id)), run), name))
            <==> Served(s, name)
  {
    var t := Step(s, AddViewer(name, id));
    StepKeepsSound(s, AddViewer(name, id), name, true);
    if Served(s, name) {
      forall run | Legal(t, run) && RemoveViewer(name, id) !in run ensures Served(After(t, run), name) {
        ViewerKeepsWorker(t, run, name, id);
      }
    } else {
      assert Legal(t, []) && After(t, []) == t;
    }
  }

  // An unlocked stream has no worker until the next request for it.
  lemma {:induction false} StarvedUntilRequest(s: State, run: seq<Event>, name: string)
    requires Legal(s, run) && Sound(s, name, true) && s.pending[name] == 0
    requires !s.streams[name].runLock && RunIfNotRun(name) !in run
    ensures Workers(After(s, run), name) == 0
    decreases run
  {
    if run == [] {
    } else {
      StepKeepsSound(s, run[0], name, true);
      StarvedUntilRequest(Step(s, run[0]), run[1..], name);
    }
  }

  // A request that finds the lock set while the worker is between its last look for viewers and its
  // unlock starts nothing; the unlock then leaves its viewer without a worker.
  lemma {:induction false} StarvedViewer(s: State, name: string, id: string) returns (run: seq<Event>)
    requires Initial(s) && name in s.streams && s.streams[name].onDemand
    ensures Legal(s, run)
    ensures var t := After(s, run);
            name in t.streams && id in t.streams[name].viewers && !t.streams[name].runLock && Workers(t, name) == 0
  {
    var w, x := Worker(name, true), s.streams[name];
    var s1 := s.(streams := s.streams[name := x.(runLock := true)], running := multiset{w});
    var s2 := s.(streams := s.streams[name := x.(runLock := true)], leaving := multiset{w});
    var s4 := s.(streams := s.streams[name := x.(runLock := true, viewers := {id})], leaving := multiset{w});
    var s5 := s.(streams := s.streams[name := x.(viewers := {id})]);
    StarveBegins(s, name, s1, s2);
    StarveEnds(s, name, id, s2, s4, s5);
    Prepend(s4, RunUnlock(w), []);
    run := [RunUnlock(w)] + [];
    Prepend(s2, AddViewer(name, id), run);
    run := [AddViewer(name, id)] + run;
    Prepend(s2, RunIfNotRun(name), run);
    run := [RunIfNotRun(name)] + run;
    Prepend(s1, GiveUp(w), run);
    run := [GiveUp(w)] + run;
    Prepend(s, RunIfNotRun(name), run);
    run := [RunIfNotRun(name)] + run;
  }

  lemma StarveBegins(s: State, name: string, s1: State, s2: State)
    requires Initial(s) && name in s.streams && s.streams[name].onDemand
    requires s1 == s.(streams := s.streams[name := s.streams[name].(runLock := true)], running := multiset{Worker(name, true)})
    requires s2 == s.(streams := s.streams[name := s.streams[name].(runLock := true)], leaving := multiset{Worker(name, true)})
    ensures Step(s, RunIfNotRun(name)) == s1
    ensures Enabled(s1, GiveUp(Worker(name, true))) && Step(s1, GiveUp(Worker(name, true))) == s2
    ensures Step(s2, RunIfNotRun(name)) == s2
  {
    var w := Worker(name, true);
    assert multiset{} + multiset{w} == multiset{w};
    assert multiset{w} - multiset{w} == multiset{};
  }

  lemma StarveEnds(s: State, name: string, id: string, s2: State, s4: State, s5: State)
    requires Initial(s) && name in s.streams && s.streams[name].onDemand
    requires s2 == s.(streams := s.streams[name := s.streams[name].(runLock := true)], leaving := multiset{Worker(name, true)})
    requires s4 == s.(streams := s.streams[name := s.streams[name].(runLock := true, viewers := {id})],
                      leaving := multiset{Worker(name, true)})
    requires s5 == s.(streams := s.streams[name := s.streams[name].(viewers := {id})])
    ensures Step(s2, AddViewer(name, id)) == s4 && Step(s4, RunUnlock(Worker(name, true))) == s5
    ensures Workers(s5, name) == 0
  {
    var w, x := Worker(name, true), s.streams[name];
    assert {} + {id} == {id};
    Rewritten(s.streams, name, x.(runLock := true), x.(runLock := true, viewers := {id}));
    Rewritten(s.streams, name, x.(runLock := true, viewers := {id}), x.(viewers := {id}));
    assert multiset{w} - multiset{w} == multiset{};
  }

  // ----- the shared configuration object -----

  // ConfigST with its mutex: each method is one step. Started and ended goroutines are recorded.
  class Config {
    var streams: map<string, Stream>
    ghost var running: multiset<Worker>
    ghost var leaving: multiset<Worker>
    ghost var pending: multiset<string>
    ghost var served: set<string>

    ghost function View(): State
      reads this
    {
      State(streams, running, leaving, pending, served)
    }

    constructor (streams: map<string, Stream>)
      requires forall name <- streams :: !streams[name].runLock && streams[name].viewers == {}
      ensures View().streams == streams && Initial(View())
    {
      this.streams := streams;
      running, leaving, pending, served := multiset{}, multiset{}, multiset{}, {};
    }

    method RunIFNotRun(uuid: string) returns (started: bool)
      modifies this
      ensures Enabled(old(View()), RunIfNotRun(uuid)) && View() == Step(old(View()), RunIfNotRun(uuid))
      ensures started == (running != old(running))
    {
      started := false;
      if uuid in streams {
        var tmp := streams[uuid];
        if tmp.onDemand && !tmp.runLock {
          tmp := tmp.(runLock := true);
          streams := streams[uuid := tmp];
          running := running + multiset{Worker(uuid, true)};
          started := true;
          assert running[Worker(uuid, true)] == old(running)[Worker(uuid, true)] + 1;
        }
      }
    }

    // The deferred call with which a worker ends.
    method Unlock(uuid: string, ghost onDemand: bool)
      requires Worker(uuid, onDemand) in leaving
      modifies this
      ensures Enabled(old(View()), RunUnlock(Worker(uuid, onDemand))) && View() == Step(old(View()), RunUnlock(Worker(uuid, onDemand)))
    {
      leaving := leaving - multiset{Worker(uuid, onDemand)};
      if uuid in streams {
        var tmp := streams[uuid];
        if tmp.onDemand && tmp.runLock {
          tmp := tmp.(runLock := false);
          streams := streams[uuid := tmp];
        }
      }
    }

    method HasViewers(uuid: string) returns (b: bool)
      ensures b == HasViewer(View(), uuid)
    {
      b := uuid in streams && |streams[uuid].viewers| > 0;
    }

    // The end of one turn of RTSPWorkerLoop: an on-demand worker without viewers leaves.
    method WorkerTurn(uuid: string, onDemand: bool) returns (leaves: bool)
      requires Worker(uuid, onDemand) in running
      modifies this
      ensures leaves <==> onDemand && !HasViewer(old(View()), uuid)
      ensures leaves ==> Enabled(old(View()), GiveUp(Worker(uuid, onDemand)))
      ensures leaves ==> View() == Step(old(View()), GiveUp(Worker(uuid, onDemand)))
      ensures !leaves ==> View() == old(View())
    {
      var has := HasViewers(uuid);
      leaves := onDemand && !has;
      if leaves {
        running := running - multiset{Worker(uuid, onDemand)};
        leaving := leaving + multiset{Worker(uuid, onDemand)};
      }
    }

    // Called by a running worker; a stream that is missing is written all the same.
    method CoAd(suuid: string, codecs: int)
      requires Worker(suuid, true) in running || Worker(suuid, false) in running
      modifies this
      ensures suuid !in old(streams) ==> streams == old(streams)[suuid := Stream(false, false, codecs, {})]
      ensures Enabled(old(View()), AddCodecs(suuid, codecs)) && View() == Step(old(View()), AddCodecs(suuid, codecs))
    {
      var t := if suuid in streams then streams[suuid] else Stream(false, false, 0, {});
      t := t.(codecs := codecs);
      streams := streams[suuid := t];
    }

    // One turn of the loop in serveStreams.
    method ServeOne(name: string) returns (started: bool)
      requires name in streams && name !in served
      modifies this
      ensures started <==> !old(streams)[name].onDemand
      ensures started ==> Enabled(old(View()), Serve(name))
      ensures View() == if started then Step(old(View()), Serve(name)) else old(View())
    {
      started := !streams[name].onDemand;
      if started {
        running := running + multiset{Worker(name, false)};
        served := served + {name};
      }
    }

    // HTTPAPIServerStreamWebRTC2 looks for the stream and, without holding the mutex, registers it.
    method LookUp(url: string) returns (missing: bool)
      modifies this
      ensures missing <==> url !in streams
      ensures Enabled(old(View()), CheckMissing(url)) && View() == Step(old(View()), CheckMissing(url))
    {
      missing := url !in streams;
      if missing {
        pending := pending + multiset{url};
      }
    }

    method RegisterStream(url: string)
      requires url in pending
      modifies this
      ensures streams == old(streams)[url := Stream(true, false, 0, {})]
      ensures Enabled(old(View()), Register(url)) && View() == Step(old(View()), Register(url))
    {
      streams := streams[url := Fresh()];
      pending := pending - multiset{url};
    }

    method ClAd(suuid: string, cuuid: string)
      requires suuid in streams
      modifies this
      ensures Enabled(old(View()), AddViewer(suuid, cuuid)) && View() == Step(old(View()), AddViewer(suuid, cuuid))
    {
      streams := streams[suuid := streams[suuid].(viewers := streams[suuid].viewers + {cuuid})];
    }

    method ClDe(suuid: string, cuuid: string)
      modifies this
      ensures Enabled(old(View()), RemoveViewer(suuid, cuuid)) && View() == Step(old(View()), RemoveViewer(suuid, cuuid))
    {
      if suuid in streams {
        streams := streams[suuid := streams[suuid].(viewers := streams[suuid].viewers - {cuuid})];
      }
    }
  }
}
