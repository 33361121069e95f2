/** The query queue between the cloud connection (producer) and the query threads (consumers): a
    singly linked list with a block flag, as a transition system over its mutex-protected steps and
    as the linked list that implements those steps. */
module QueryQueue {
  import opened Collections

  // ----- the steps, on values -----

  // linked is the list from head to tail. accepted, refused and popped record the past: the queries
  // let in, those turned away, and those handed out, each with the consumer that got it.
  datatype State<Q> = State(linked: seq<Q>, blocked: bool, accepted: seq<Q>, refused: seq<Q>, popped: seq<(Q, nat)>)

  datatype Event<Q> = Enqueue(q: Q) | Pop(consumer: nat) | Lock | Unlock

  function Start<Q>(): State<Q> { State([], false, [], [], []) }

  // A query is created for one call of aclk_queue_query, which takes it over.
  ghost predicate Enabled<Q>(s: State<Q>, e: Event<Q>) {
    e.Enqueue? ==> e.q !in s.accepted && e.q !in s.refused
  }

  ghost function Step<Q>(s: State<Q>, e: Event<Q>): State<Q> {
    match e
    case Enqueue(q) =>
      if s.blocked then s.(refused := s.refused + [q])
      else s.(linked := s.linked + [q], accepted := s.accepted + [q])
    case Pop(consumer) =>
      if s.blocked || s.linked == [] then s
      else s.(linked := s.linked[1..], popped := s.popped + [(s.linked[0], consumer)])
    case Lock => s.(blocked := true)
    case Unlock => s.(blocked := false)
  }

  ghost predicate Legal<Q>(s: State<Q>, run: seq<Event<Q>>)
    decreases run
  {
    run == [] || (Enabled(s, run[0]) && Legal(Step(s, run[0]), run[1..]))
  }

  ghost function After<Q>(s: State<Q>, run: seq<Event<Q>>): State<Q>
    decreases run
  {
    if run == [] then s else After(Step(s, run[0]), run[1..])
  }

  // ----- conservation -----

  ghost function Handed<Q>(popped: seq<(Q, nat)>): seq<Q> {
    seq(|popped|, i requires 0 <= i < |popped| => popped[i].0)
  }

  ghost predicate Sound<Q>(s: State<Q>) {
    && s.accepted == Handed(s.popped) + s.linked
    && Distinct(s.accepted)
    && forall q <- s.refused :: q !in s.accepted
  }

  lemma {:induction false} StepKeepsSound<Q>(s: State<Q>, e: Event<Q>)
    requires Sound(s) && Enabled(s, e)
    ensures Sound(Step(s, e))
  {
  }

  lemma {:induction false} RunKeepsSound<Q>(s: State<Q>, run: seq<Event<Q>>)
    requires Sound(s) && Legal(s, run)
    ensures Sound(After(s, run))
    decreases run
  {
    if run == [] {
    } else {
      StepKeepsSound(s, run[0]);
      RunKeepsSound(Step(s, run[0]), run[1..]);
    }
  }

  // In every interleaving of producers, consumers, lock and unlock: the accepted queries, in order,
  // are the popped ones followed by the linked ones; no query was handed out twice or is still
  // linked after it was handed out; and a refused query was neither handed out nor linked.
  lemma {:induction false} Conservation<Q>(run: seq<Event<Q>>)
    requires Legal(Start(), run)
    ensures var s := After(Start(), run);
            && s.accepted == Handed(s.popped) + s.linked
            && (forall i, j :: 0 <= i < j < |s.popped| ==> s.popped[i].0 != s.popped[j].0)
            && Distinct(s.linked)
            && (forall i, j :: 0 <= i < |s.popped| && 0 <= j < |s.linked| ==> s.popped[i].0 != s.linked[j])
            && (forall q <- s.refused :: q !in s.linked && q !in Handed(s.popped))
  {
    RunKeepsSound(Start(), run);
    var s := After(Start(), run);
    var n := |s.popped|;
    forall i, j | 0 <= i < j < n ensures s.popped[i].0 != s.popped[j].0 {
      assert s.accepted[i] == s.popped[i].0 && s.accepted[j] == s.popped[j].0;
    }
    forall i, j | 0 <= i < j < |s.linked| ensures s.linked[i] != s.linked[j] {
      assert s.accepted[n + i] == s.linked[i] && s.accepted[n + j] == s.linked[j];
    }
    forall i, j | 0 <= i < n && 0 <= j < |s.linked| ensures s.popped[i].0 != s.linked[j] {
      assert s.accepted[i] == s.popped[i].0 && s.accepted[n + j] == s.linked[j];
    }
  }

  // ----- what blocking does -----

  // While the queue is blocked nothing enters or leaves it, whatever the other threads do.
  lemma {:induction false} BlockedFreezes<Q>(s: State<Q>, run: seq<Event<Q>>)
    requires s.blocked && Unlock !in run
    ensures var t := After(s, run);
            && t.blocked && t.linked == s.linked && t.accepted == s.accepted && t.popped == s.popped
    decreases run
  {
    if run == [] {
    } else {
      BlockedFreezes(Step(s, run[0]), run[1..]);
    }
  }

  lemma {:induction false} AfterAppend<Q>(s: State<Q>, first: seq<Event<Q>>, second: seq<Event<Q>>)
    ensures After(s, first + second) == After(After(s, first), second)
    decreases first
  {
    if first == [] {
      assert [] + second == second;
    } else {
      assert (first + second)[1..] == first[1..] + second;
      AfterAppend(Step(s, first[0]), first[1..], second);
    }
  }

  // The restart branch locks, flushes, closes the link and unlocks. Whatever the other threads and
  // the flush itself do in between, every query queued before is still queued after it.
  lemma {:induction false} RestartKeepsTheQueue<Q>(s: State<Q>, between: seq<Event<Q>>)
    requires Unlock !in between
    ensures var t := After(s, [Lock] + between + [Unlock]);
            && t.linked == s.linked && t.popped == s.popped && !t.blocked
  {
    var locked := Step(s, Lock);
    BlockedFreezes(locked, between);
    AfterAppend(s, [Lock] + between, [Unlock]);
    assert ([Lock] + between)[1..] == between;
    var u := After(locked, between);
    assert After(u, [Unlock]) == Step(u, Unlock) by { var tail: seq<Event<Q>> := [Unlock]; assert tail[1..] == []; }
  }

  // n pops by one consumer with no other thread in between.
  ghost function Pops<Q>(n: nat, consumer: nat): seq<Event<Q>> {
    seq(n, _ => Pop(consumer))
  }

  // A flush that no other thread disturbs empties the queue if and only if the queue is not blocked
  // (or had nothing to remove).
  lemma {:induction false} FlushEmptiesIffOpen<Q>(s: State<Q>, n: nat, consumer: nat)
    requires |s.linked| <= n
    ensures After(s, Pops(n, consumer)).linked == [] <==> !s.blocked || s.linked == []
    decreases n
  {
    var run: seq<Event<Q>> := Pops(n, consumer);
    if s.blocked {
      BlockedFreezes(s, run);
    } else if n > 0 {
      assert run[0] == Pop(consumer) && run[1..] == Pops(n - 1, consumer);
      FlushEmptiesIffOpen(Step(s, Pop(consumer)), n - 1, consumer);
    }
  }

  // ----- the linked list -----

  const UNKNOWN: nat := 0
  const HTTP_API_V2: nat := 1
  const ACLK_QUERY_TYPE_COUNT: nat := 14

  datatype Outcome = Dropped | Http | Binary

  // aclk_query_process_msg: which of the two handlers gets a query, if any does.
  function OutcomeOf(kind: nat): Outcome {
    if kind == UNKNOWN || kind >= ACLK_QUERY_TYPE_COUNT then Dropped
    else if kind == HTTP_API_V2 then Http else Binary
  }

  class Query {
    const kind: nat
    var next: Query?

    constructor (kind: nat)
      ensures this.kind == kind && next == null
    {
      this.kind := kind;
      next := null;
    }
  }

  // What becomes of the first n queries.
  ghost function Outcomes(queries: seq<Query>, n: nat): seq<Outcome>
    requires n <= |queries|
  {
    if n == 0 then [] else Outcomes(queries, n - 1) + [OutcomeOf(queries[n - 1].kind)]
  }

  // Each of the first n queries has its outcome: types 0 and from 14 on are dropped, type 1 goes to
  // the HTTP handler, the others to the binary one.
  ghost predicate ByKind(queries: seq<Query>, outcomes: seq<Outcome>, n: nat)
    requires n <= |queries|
  {
    && |outcomes| == n
    && forall i :: 0 <= i < n ==>
         && (outcomes[i] == Dropped <==> queries[i].kind == 0 || queries[i].kind >= 14)
         && (outcomes[i] == Http <==> queries[i].kind == 1)
         && (outcomes[i] == Binary <==> 2 <= queries[i].kind <= 13)
  }

  lemma {:induction false} OutcomesAt(queries: seq<Query>, n: nat)
    requires n <= |queries|
    ensures ByKind(queries, Outcomes(queries, n), n)
  {
    if n == 0 {
    } else {
      OutcomesAt(queries, n - 1);
    }
  }

  // A loop of pops without interference: k queries of was are done with and query is the last popped.
  ghost predicate Draining(was: seq<Query>, k: nat, query: Query?, s: State<Query>) {
    if query != null then !s.blocked && k < |was| && query == was[k] && s.linked == was[k + 1..]
    else if s.blocked then k == 0 && s.linked == was
    else k == |was| && s.linked == []
  }

  lemma DrainNext(was: seq<Query>, k: nat, query: Query, s: State<Query>, consumer: nat)
    requires Draining(was, k, query, s)
    ensures Draining(was, k + 1, if s.linked == [] then null else s.linked[0], Step(s, Pop(consumer)))
  {
  }

  class Queue {
    var head: Query?
    var tail: Query?
    var blockPush: bool
    ghost var past: State<Query>

    // past.linked is the walk from head along next: it ends at tail and has no cycle.
    ghost predicate Valid()
      reads this, past.linked
    {
      var nodes := past.linked;
      && Sound(past)
      && past.blocked == blockPush
      && (if nodes == [] then head == null && tail == null
          else head == nodes[0] && tail == nodes[|nodes| - 1] && nodes[|nodes| - 1].next == null)
      && Distinct(nodes)
      && forall i :: 0 <= i < |nodes| - 1 ==> nodes[i].next == nodes[i + 1]
    }

    constructor ()
      ensures Valid() && past == Start()
    {
      head, tail, blockPush := null, null, false;
      past := Start();
    }

    // _aclk_queue_query; the result is its return code.
    method Push(query: Query) returns (code: int)
      requires Valid() && Enabled(past, Enqueue(query)) && query.next == null
      modifies this, tail
      ensures Valid() && past == Step(old(past), Enqueue(query))
      ensures code == if old(blockPush) then 1 else 0
      ensures blockPush == old(blockPush) && past.popped == old(past).popped
      ensures code == 1 ==> past.linked == old(past).linked && past.refused == old(past).refused + [query]
      ensures code == 0 ==> past.linked == old(past).linked + [query] && past.refused == old(past).refused
    {
      ghost var was := past;
      StepKeepsSound(was, Enqueue(query));
      assert query !in was.linked;
      if blockPush {
        past := Step(was, Enqueue(query));
        return 1;
      }
      past := Step(was, Enqueue(query));
      if head == null {
        head := query;
        tail := query;
        return 0;
      }
      tail.next := query;
      tail := query;
      return 0;
    }

    // The part of aclk_queue_pop under the mutex.
    method Take(consumer: nat) returns (query: Query?)
      requires Valid()
      modifies this
      ensures Valid() && past == Step(old(past), Pop(consumer))
      ensures query == if old(past).blocked || old(past).linked == [] then null else old(past).linked[0]
      ensures query == null ==> past == old(past)
      ensures query != null ==> past.linked == old(past).linked[1..] && past.popped == old(past).popped + [(query, consumer)]
    {
      ghost var was := past;
      StepKeepsSound(was, Pop(consumer));
      if blockPush {
        return null;
      }
      query := head;
      if query == null {
        return;
      }
      head := query.next;
      if head == null {
        tail := head;
      }
      past := Step(was, Pop(consumer));
    }

    // The store after the mutex is released. Any steps of other threads may lie between Take and
    // this one; since the query has been handed out, the list does not change.
    method Detach(query: Query)
      requires Valid() && query in Handed(past.popped)
      modifies query
      ensures Valid() && query.next == null
    {
      HandedIsNotLinked(past, query);
      query.next := null;
    }

    method PopQuery(consumer: nat) returns (query: Query?)
      requires Valid()
      modifies this, past.linked
      ensures Valid() && past == Step(old(past), Pop(consumer))
      ensures query == if old(past).blocked || old(past).linked == [] then null else old(past).linked[0]
      ensures query != null ==> query.next == null
      ensures query == null ==> past == old(past)
      ensures query != null ==> past.linked == old(past).linked[1..] && past.popped == old(past).popped + [(query, consumer)]
    {
      query := Take(consumer);
      if query != null {
        assert past.popped[|past.popped| - 1].0 == query;
        assert Handed(past.popped)[|past.popped| - 1] == query;
        Detach(query);
      }
    }

    method LockQueue()
      requires Valid()
      modifies this
      ensures Valid() && past == Step(old(past), Lock) && blockPush
    {
      blockPush := true;
      past := Step(past, Lock);
    }

    method UnlockQueue()
      requires Valid()
      modifies this
      ensures Valid() && past == Step(old(past), Unlock) && !blockPush
    {
      blockPush := false;
      past := Step(past, Unlock);
    }

    // aclk_query_process_msgs: what becomes of the queries one thread gets until pop returns NULL.
    method ProcessMsgs(consumer: nat) returns (outcomes: seq<Outcome>)
      requires Valid()
      modifies this, past.linked
      ensures Valid() && blockPush == old(blockPush) && past.accepted == old(past).accepted
      ensures past.linked == if old(blockPush) then old(past).linked else []
      ensures outcomes == Outcomes(old(past).linked, if old(blockPush) then 0 else |old(past).linked|)
    {
      ghost var was, k := past.linked, 0;
      outcomes := [];
      var query := PopQuery(consumer);
      while query != null
        invariant Valid() && blockPush == old(blockPush) && past.accepted == old(past).accepted
        invariant Draining(was, k, query, past) && k <= |was| && outcomes == Outcomes(was, k)
        decreases |past.linked|, query != null
      {
        DrainNext(was, k, query, past, consumer);
        outcomes := outcomes + [OutcomeOf(query.kind)];
        k := k + 1;
        query := PopQuery(consumer);
      }
    }

    // aclk_queue_flush.
    method Flush(consumer: nat)
      requires Valid()
      modifies this, past.linked
      ensures Valid() && blockPush == old(blockPush) && past.accepted == old(past).accepted
      ensures past.linked == if old(blockPush) then old(past).linked else []
    {
      ghost var was, k := past.linked, 0;
      var query := PopQuery(consumer);
      while query != null
        invariant Valid() && blockPush == old(blockPush) && past.accepted == old(past).accepted
        invariant Draining(was, k, query, past)
        decreases |past.linked|, query != null
      {
        DrainNext(was, k, query, past, consumer);
        k := k + 1;
        query := PopQuery(consumer);
      }
    }

    // The queue's part of aclk_graceful_disconnect and of aclk_query_threads_cleanup: the queue ends
    // up blocked, with every queued query still in it.
    method LockAndFlush(consumer: nat)
      requires Valid()
      modifies this, past.linked
      ensures Valid() && blockPush && past.linked == old(past).linked && past.accepted == old(past).accepted
    {
      LockQueue();
      Flush(consumer);
    }

    // The restart branch of handle_connection.
    method Restart(consumer: nat)
      requires Valid()
      modifies this, past.linked
      ensures Valid() && !blockPush && past.linked == old(past).linked && past.accepted == old(past).accepted
    {
      LockAndFlush(consumer);
      UnlockQueue();
    }
  }

  lemma HandedIsNotLinked<Q>(s: State<Q>, q: Q)
    requires Sound(s) && q in Handed(s.popped)
    ensures q !in s.linked
  {
    var i :| 0 <= i < |s.popped| && Handed(s.popped)[i] == q;
    forall j | 0 <= j < |s.linked| ensures s.linked[j] != q {
      assert s.accepted[i] == q && s.accepted[|s.popped| + j] == s.linked[j];
    }
  }
}
