/** The sequence commands together: load then download, isolation of sequences, and what a load
    leaves of the past. */
module SequenceTheorems {
  import opened Options
  import opened Opcua
  import opened Decimal
  import opened Sequences
  import opened SequenceRoundTrip

  // Neither string is a prefix of the other, so nothing appended makes them meet.
  predicate Apart(a: string, b: string) { !(a <= b) && !(b <= a) }

  // What a configuration has to observe: the three base paths are apart.
  predicate PathsApart(p: SeqPaths) {
    && Apart(p.delayVector, p.step)
    && (p.holdStep.Some? ==> Apart(p.delayVector, p.holdStep.value) && Apart(p.step, p.holdStep.value))
  }

  lemma ApartExtends(a: string, x: string, b: string, y: string)
    requires Apart(a, b)
    ensures a + x != b + y
  {
    if a + x == b + y { PrefixesNest(a + x, a, b); }
  }

  lemma PrefixesNest(p: string, a: string, b: string)
    requires a <= p && b <= p
    ensures a <= b || b <= a
  {
  }

  // What is appended to the base paths.
  lemma PathShapes(c: SeqConfig, i: nat) returns (x: string, y: string, z: string)
    ensures DelayPath(c) == c.paths.delayVector + x
    ensures StepPath(c, i) == c.paths.step + y
    ensures HasHold(c) ==> HoldPath(c, i) == c.paths.holdStep.value + z
  {
    if c.amount > 1 {
      x := Str(c.index + 1);
      y := Str(c.index + 1) + c.paths.stepState + Str(c.index + 1) + "_" + Str(i + 1);
      z := if HasHold(c) then Str(c.index + 1) + c.paths.holdState.value + Str(c.index + 1) + "_" + Str(i + 1) else "";
      SlotShape(c, c.paths.step, c.paths.stepState, i);
      if HasHold(c) { SlotShape(c, c.paths.holdStep.value, c.paths.holdState.value, i); }
    } else {
      x, y := "", c.paths.stepState + Str(i + 1);
      z := if HasHold(c) then c.paths.holdState.value + Str(i + 1) else "";
      assert DelayPath(c) == c.paths.delayVector + x;
      SlotShape(c, c.paths.step, c.paths.stepState, i);
      if HasHold(c) { SlotShape(c, c.paths.holdStep.value, c.paths.holdState.value, i); }
    }
  }

  lemma SlotShape(c: SeqConfig, base: string, state: string, i: nat)
    ensures SlotPath(c, base, state, i) ==
            base + if c.amount > 1 then Str(c.index + 1) + state + Str(c.index + 1) + "_" + Str(i + 1) else state + Str(i + 1)
  {
  }

  // Nodes of two sequences with the same base paths meet only within one family.
  lemma {:induction false} FamiliesApart(c: SeqConfig, d: SeqConfig, i: nat, j: nat)
    requires c.paths == d.paths && PathsApart(c.paths)
    ensures DelayPath(c) != StepPath(d, j)
    ensures HasHold(c) ==> DelayPath(c) != HoldPath(d, j) && StepPath(c, i) != HoldPath(d, j)
  {
    var x, y, z := PathShapes(c, i);
    var u, v, w := PathShapes(d, j);
    ApartExtends(c.paths.delayVector, x, c.paths.step, v);
    if HasHold(c) {
      ApartExtends(c.paths.delayVector, x, c.paths.holdStep.value, w);
      ApartExtends(c.paths.step, y, c.paths.holdStep.value, w);
    }
  }

  lemma ApartIsSeparate(c: SeqConfig)
    requires PathsApart(c.paths)
    ensures Separate(c)
  {
    forall i: nat
      ensures DelayPath(c) != StepPath(c, i) && (HasHold(c) ==> DelayPath(c) != HoldPath(c, i))
    {
      FamiliesApart(c, c, i, i);
    }
    forall i: nat, j: nat | HasHold(c)
      ensures StepPath(c, i) != HoldPath(c, j)
    {
      FamiliesApart(c, c, i, j);
    }
  }

  // ----- isolation -----

  // Two sequences of one type.
  ghost predicate SameType(c: SeqConfig, d: SeqConfig) {
    && c.kind == d.kind && c.paths == d.paths && c.amount == d.amount
    && c.index < c.amount && d.index < d.amount
  }

  ghost predicate NodeOf(c: SeqConfig, p: string) {
    p == DelayPath(c) || SlotNode(c, 0, c.paths.amount, p)
  }

  // Loading one sequence touches no node of another sequence of its type.
  lemma {:induction false} LoadIsolated(nodes: Nodes, c: SeqConfig, dps: map<string, Datapoint>, steps: seq<Step>, d: SeqConfig, p: string)
    requires 0 < |steps| <= c.paths.amount && PathsApart(c.paths)
    requires SameType(c, d) && c.index != d.index && NodeOf(d, p)
    ensures Read(Load(nodes, c, dps, steps), p) == Read(nodes, p)
  {
    NodesDisjoint(c, d, p);
    LoadElsewhere(nodes, c, dps, steps, p);
  }

  lemma {:induction false} NodesDisjoint(c: SeqConfig, d: SeqConfig, p: string)
    requires PathsApart(c.paths) && SameType(c, d) && c.index != d.index && NodeOf(d, p)
    ensures !NodeOf(c, p)
  {
    if p == DelayPath(d) {
      if p == DelayPath(c) { NumberedInjective(c.paths.delayVector, c.index + 1, d.index + 1); }
      forall i: nat ensures p != StepPath(c, i) && (HasHold(c) ==> p != HoldPath(c, i)) { FamiliesApart(d, c, i, i); }
    } else {
      var j: nat :| 0 <= j < d.paths.amount && (p == StepPath(d, j) || (HasHold(d) && p == HoldPath(d, j)));
      SlotDisjoint(c, d, j);
      forall i: nat ensures p != StepPath(c, i) && (HasHold(c) ==> p != HoldPath(c, i)) { SlotsDisjoint(c, d, i, j); }
    }
  }

  lemma SlotDisjoint(c: SeqConfig, d: SeqConfig, j: nat)
    requires PathsApart(c.paths) && SameType(c, d)
    ensures DelayPath(c) != StepPath(d, j)
    ensures HasHold(d) ==> DelayPath(c) != HoldPath(d, j)
  {
    FamiliesApart(c, d, 0, j);
  }

  lemma {:induction false} SlotsDisjoint(c: SeqConfig, d: SeqConfig, i: nat, j: nat)
    requires PathsApart(c.paths) && SameType(c, d) && c.index != d.index
    ensures StepPath(c, i) != StepPath(d, j)
    ensures HasHold(c) ==> HoldPath(c, i) != HoldPath(d, j) && StepPath(c, i) != HoldPath(d, j) && HoldPath(c, i) != StepPath(d, j)
  {
    FamiliesApart(c, d, i, j);
    FamiliesApart(d, c, j, i);
    NumbersDiffer(c, d, c.paths.step, c.paths.stepState, i, j);
    if HasHold(c) { NumbersDiffer(c, d, c.paths.holdStep.value, c.paths.holdState.value, i, j); }
  }

  lemma NumbersDiffer(c: SeqConfig, d: SeqConfig, base: string, state: string, i: nat, j: nat)
    requires SameType(c, d) && c.index != d.index
    ensures SlotPath(c, base, state, i) != SlotPath(d, base, state, j)
  {
    if SlotPath(c, base, state, i) == SlotPath(d, base, state, j) {
      StepPathInjective(base, state, c.index + 1, i + 1, d.index + 1, j + 1);
    }
  }

  // ----- round trip -----

  lemma {:induction false} ValidateAll(outputs: seq<string>, steps: seq<Step>, n: nat, i: nat)
    requires i < n <= |steps| && Validate(outputs, steps, n) == Loaded
    ensures Verdict(outputs, steps[i]) == Loaded
  {
    if i == n - 1 {
    } else {
      ValidateAll(outputs, steps, n - 1, i);
    }
  }

  // The outputs dictionary has each key once; 2 is a value only where hold arrays are configured.
  ghost predicate ValidOutputs(c: SeqConfig, outs: seq<Assignment>) {
    && (forall a, b :: 0 <= a < b < |outs| ==> outs[a].key != outs[b].key)
    && (forall o <- outs :: o.value == 0 || o.value == 1 || (o.value == 2 && HasHold(c)))
  }

  ghost predicate OutputsApart(c: SeqConfig, dps: map<string, Datapoint>) {
    forall k <- c.outputs, l <- c.outputs :: k != l ==> OutIndex(c, dps, k) != OutIndex(c, dps, l)
  }

  // The downloaded step shows the loaded one: same duration, same keys, same values.
  ghost predicate Shows(d: DownStep, step: Step) {
    && d.time == step.time
    && (forall k :: k in d.outputs <==> k in Keys(step))
    && (forall o <- step.outputs :: o.key in d.outputs && d.outputs[o.key] == o.value as real)
  }

  lemma {:induction false} DownOutputsAt(c: SeqConfig, dps: map<string, Datapoint>, s: seq<real>, h: seq<real>, n: nat)
    requires n <= |c.outputs|
    ensures forall k :: k in DownOutputs(c, dps, s, h, n) <==> k in c.outputs[..n]
    ensures forall k <- DownOutputs(c, dps, s, h, n) ::
              DownOutputs(c, dps, s, h, n)[k] == DownValue(c, s, h, OutIndex(c, dps, k))
  {
    if n == 0 {
    } else {
      DownOutputsAt(c, dps, s, h, n - 1);
      assert c.outputs[..n] == c.outputs[..n - 1] + [c.outputs[n - 1]];
    }
  }

  lemma SameKeys(c: SeqConfig, step: Step)
    requires multiset(Keys(step)) == multiset(c.outputs)
    ensures forall k :: k in Keys(step) <==> k in c.outputs
    ensures forall o <- step.outputs :: o.key in c.outputs
  {
    forall k ensures k in Keys(step) <==> k in c.outputs {
      assert k in Keys(step) <==> k in multiset(Keys(step));
      assert k in c.outputs <==> k in multiset(c.outputs);
    }
    forall o | o in step.outputs ensures o.key in c.outputs {
      var a :| 0 <= a < |step.outputs| && step.outputs[a] == o;
      assert Keys(step)[a] == o.key;
    }
  }

  lemma CellsApart(c: SeqConfig, dps: map<string, Datapoint>, step: Step)
    requires multiset(Keys(step)) == multiset(c.outputs) && OutputsApart(c, dps) && ValidOutputs(c, step.outputs)
    ensures DistinctCells(c, dps, step.outputs)
  {
    SameKeys(c, step);
    forall a, b | 0 <= a < b < |step.outputs|
      ensures OutIndex(c, dps, step.outputs[a].key) != OutIndex(c, dps, step.outputs[b].key)
    {
      assert step.outputs[a] in step.outputs && step.outputs[b] in step.outputs;
    }
  }

  lemma {:induction false} StoredShows(nodes: Nodes, c: SeqConfig, dps: map<string, Datapoint>, step: Step, i: nat, a: nat)
    requires multiset(Keys(step)) == multiset(c.outputs) && OutputsApart(c, dps) && ValidOutputs(c, step.outputs)
    requires CellsExist(nodes, c, dps, step, i) && a < |step.outputs|
    ensures var h := if HasHold(c) then StoredHold(nodes, c, dps, step, i) else [];
            DownValue(c, StoredStep(nodes, c, dps, step, i), h, OutIndex(c, dps, step.outputs[a].key)) == step.outputs[a].value as real
  {
    CellsApart(c, dps, step);
    var o := step.outputs[a];
    assert o in step.outputs;
    StepCell(Read(nodes, StepPath(c, i)), c, dps, step.outputs, |step.outputs|, a);
    if HasHold(c) { HoldCell(Read(nodes, HoldPath(c, i)), c, dps, step.outputs, |step.outputs|, a); }
  }

  // Outputs that each decode to their commanded value show the step.
  lemma OutputsShow(c: SeqConfig, dps: map<string, Datapoint>, s: seq<real>, h: seq<real>, step: Step)
    requires multiset(Keys(step)) == multiset(c.outputs)
    requires forall a :: 0 <= a < |step.outputs| ==>
               DownValue(c, s, h, OutIndex(c, dps, step.outputs[a].key)) == step.outputs[a].value as real
    ensures Shows(DownStep(step.time, DownOutputs(c, dps, s, h, |c.outputs|)), step)
  {
    DownOutputsAt(c, dps, s, h, |c.outputs|);
    assert c.outputs[..|c.outputs|] == c.outputs;
    SameKeys(c, step);
  }

  lemma LoadedSlot(nodes: Nodes, c: SeqConfig, dps: map<string, Datapoint>, steps: seq<Step>, i: nat)
    requires PathsApart(c.paths) && 0 < |steps| <= c.paths.amount && i < |steps|
    ensures DownSlot(Load(nodes, c, dps, steps), c, dps, i) ==
            DownOutputs(c, dps, StoredStep(nodes, c, dps, steps[i], i),
                        if HasHold(c) then StoredHold(nodes, c, dps, steps[i], i) else [], |c.outputs|)
  {
    ApartIsSeparate(c);
    LoadAt(nodes, c, dps, steps, i);
  }

  lemma {:induction false} SlotShows(nodes: Nodes, c: SeqConfig, dps: map<string, Datapoint>, steps: seq<Step>, i: nat)
    requires PathsApart(c.paths) && Ready(nodes, c, dps, steps) && i < |steps|
    requires Verdict(c.outputs, steps[i]) == Loaded && OutputsApart(c, dps) && ValidOutputs(c, steps[i].outputs)
    ensures Shows(DownStep(steps[i].time, DownSlot(Load(nodes, c, dps, steps), c, dps, i)), steps[i])
  {
    var step := steps[i];
    LoadedSlot(nodes, c, dps, steps, i);
    assert CellsExist(nodes, c, dps, step, i);
    SlotShowsStep(nodes, c, dps, step, i);
  }

  lemma SlotShowsStep(nodes: Nodes, c: SeqConfig, dps: map<string, Datapoint>, step: Step, i: nat)
    requires Verdict(c.outputs, step) == Loaded && OutputsApart(c, dps) && ValidOutputs(c, step.outputs)
    requires CellsExist(nodes, c, dps, step, i)
    ensures var h := if HasHold(c) then StoredHold(nodes, c, dps, step, i) else [];
            Shows(DownStep(step.time, DownOutputs(c, dps, StoredStep(nodes, c, dps, step, i), h, |c.outputs|)), step)
  {
    var s := StoredStep(nodes, c, dps, step, i);
    var h := if HasHold(c) then StoredHold(nodes, c, dps, step, i) else [];
    forall a | 0 <= a < |step.outputs|
      ensures DownValue(c, s, h, OutIndex(c, dps, step.outputs[a].key)) == step.outputs[a].value as real
    {
      StoredShows(nodes, c, dps, step, i, a);
    }
    OutputsShow(c, dps, s, h, step);
  }

  lemma DownloadHead(nodes: Nodes, c: SeqConfig, dps: map<string, Datapoint>, delays: seq<real>, i: nat) returns (first: DownStep)
    requires Download(nodes, c, dps, delays, i) != []
    ensures i < |delays| && first == DownStep(delays[i], DownSlot(nodes, c, dps, i))
    ensures Download(nodes, c, dps, delays, i) == [first] + Download(nodes, c, dps, delays, i + 1)
  {
    first := DownStep(delays[i], DownSlot(nodes, c, dps, i));
  }

  lemma TailIndex(first: DownStep, rest: seq<DownStep>, k: nat)
    requires 0 < k < |[first] + rest|
    ensures k - 1 < |rest| && ([first] + rest)[k] == rest[k - 1]
  {
  }

  // From slot i on, a delay vector whose first zero after slot 0 is at m, or with just m entries,
  // gives slots i..m-1; slot 0 is reported even with a zero delay.
  lemma {:induction false} DownloadStops(nodes: Nodes, c: SeqConfig, dps: map<string, Datapoint>, delays: seq<real>, m: nat, i: nat)
    requires i <= m <= |delays| && (m < |delays| ==> m > 0 && delays[m] == 0.0)
    requires forall k :: 0 < k < m ==> delays[k] != 0.0
    ensures var down := Download(nodes, c, dps, delays, i);
            |down| == m - i && forall k :: 0 <= k < m - i ==> down[k] == DownStep(delays[i + k], DownSlot(nodes, c, dps, i + k))
    decreases m - i
  {
    if i == m {
    } else {
      DownloadStops(nodes, c, dps, delays, m, i + 1);
      var first := DownloadHead(nodes, c, dps, delays, i);
      var rest := Download(nodes, c, dps, delays, i + 1);
      forall k | 0 < k < m - i
        ensures ([first] + rest)[k] == DownStep(delays[i + k], DownSlot(nodes, c, dps, i + k))
      {
        TailIndex(first, rest, k);
        assert rest[k - 1] == DownStep(delays[i + 1 + (k - 1)], DownSlot(nodes, c, dps, i + 1 + (k - 1)));
      }
    }
  }

  // Download returns exactly the first min(n, L) of n steps, L being the length of the delay vector.
  ghost predicate Returned(down: seq<DownStep>, steps: seq<Step>, l: nat) {
    && |down| == (if |steps| <= l then |steps| else l)
    && forall k :: 0 <= k < |down| ==> Shows(down[k], steps[k])
  }

  // A load never writes the delay of a commanded last slot. It fits if the vector has no entry for
  // the last of the N slots, or that slot is not commanded, or its old entry happens to be the
  // duration and a zero or nothing follows.
  predicate LastDelayFits(before: seq<real>, slots: nat, steps: seq<Step>)
    requires 0 < |steps| <= slots
  {
    || |before| < slots || |steps| < slots
    || (before[slots - 1] == steps[slots - 1].time && (|before| == slots || before[slots] == 0.0))
  }

  // Round trip: download after load returns the loaded steps, with their durations and values, if
  // and only if the old delay of the last slot fits, whatever else was stored before.
  lemma {:induction false} RoundTrip(nodes: Nodes, c: SeqConfig, dps: map<string, Datapoint>, steps: seq<Step>)
    requires PathsApart(c.paths) && OutputsApart(c, dps) && Ready(nodes, c, dps, steps)
    requires Validate(c.outputs, steps, |steps|) == Loaded
    requires forall s <- steps :: ValidOutputs(c, s.outputs)
    ensures var before := Read(nodes, DelayPath(c));
            var now := Load(nodes, c, dps, steps);
            Returned(Download(now, c, dps, Read(now, DelayPath(c)), 0), steps, |before|) <==>
            LastDelayFits(before, c.paths.amount, steps)
  {
    ApartIsSeparate(c);
    LoadAt(nodes, c, dps, steps, 0);
    var before := Read(nodes, DelayPath(c));
    var now := Load(nodes, c, dps, steps);
    if LastDelayFits(before, c.paths.amount, steps) {
      LoadedDelays(before, c, steps);
      AllSlotsShow(nodes, c, dps, steps);
      Assemble(now, c, dps, FinalDelays(before, steps, c.paths.amount), steps, Least(|steps|, |before|));
    } else {
      NotReturned(before, now, c, dps, steps);
    }
  }

  function Least(a: nat, b: nat): nat { if a <= b then a else b }

  // A reported step carries the delay of its slot,
  lemma {:induction false} DownloadTimes(nodes: Nodes, c: SeqConfig, dps: map<string, Datapoint>, delays: seq<real>, i: nat, k: nat)
    requires k < |Download(nodes, c, dps, delays, i)|
    ensures i + k < |delays| && Download(nodes, c, dps, delays, i)[k].time == delays[i + k]
    decreases k
  {
    var first := DownloadHead(nodes, c, dps, delays, i);
    if k == 0 {
    } else {
      DownloadTimes(nodes, c, dps, delays, i + 1, k - 1);
      TailIndex(first, Download(nodes, c, dps, delays, i + 1), k);
    }
  }

  // and slots are reported at least until a zero.
  lemma {:induction false} DownloadAtLeast(nodes: Nodes, c: SeqConfig, dps: map<string, Datapoint>, delays: seq<real>, i: nat, m: nat)
    requires i <= m <= |delays| && forall k :: i <= k < m ==> delays[k] != 0.0
    ensures |Download(nodes, c, dps, delays, i)| >= m - i
    decreases m - i
  {
    if i == m {
    } else {
      DownloadAtLeast(nodes, c, dps, delays, i + 1, m);
    }
  }

  lemma WrongLastDelay(now: Nodes, c: SeqConfig, dps: map<string, Datapoint>, delays: seq<real>, steps: seq<Step>)
    requires 0 < |steps| <= |delays| && delays[|steps| - 1] != steps[|steps| - 1].time
    ensures !Returned(Download(now, c, dps, delays, 0), steps, |delays|)
  {
    if |Download(now, c, dps, delays, 0)| == |steps| { DownloadTimes(now, c, dps, delays, 0, |steps| - 1); }
  }

  lemma TooManySlots(now: Nodes, c: SeqConfig, dps: map<string, Datapoint>, delays: seq<real>, steps: seq<Step>)
    requires |steps| < |delays| && forall k :: 0 <= k <= |steps| ==> delays[k] != 0.0
    ensures !Returned(Download(now, c, dps, delays, 0), steps, |delays|)
  {
    DownloadAtLeast(now, c, dps, delays, 0, |steps| + 1);
  }

  lemma NotReturned(before: seq<real>, now: Nodes, c: SeqConfig, dps: map<string, Datapoint>, steps: seq<Step>)
    requires 0 < |steps| <= c.paths.amount && Validate(c.outputs, steps, |steps|) == Loaded
    requires !LastDelayFits(before, c.paths.amount, steps)
    ensures !Returned(Download(now, c, dps, FinalDelays(before, steps, c.paths.amount), 0), steps, |before|)
  {
    var n := c.paths.amount;
    var delays := FinalDelays(before, steps, n);
    FinalDelayCells(before, steps, n);
    if before[n - 1] == steps[n - 1].time {
      forall k | 0 <= k < n ensures steps[k].time > 0.0 { ValidateAll(c.outputs, steps, n, k); }
      TooManySlots(now, c, dps, delays, steps);
    } else {
      WrongLastDelay(now, c, dps, delays, steps);
    }
  }

  lemma AllSlotsShow(nodes: Nodes, c: SeqConfig, dps: map<string, Datapoint>, steps: seq<Step>)
    requires PathsApart(c.paths) && OutputsApart(c, dps) && Ready(nodes, c, dps, steps)
    requires Validate(c.outputs, steps, |steps|) == Loaded
    requires forall s <- steps :: ValidOutputs(c, s.outputs)
    ensures forall k :: 0 <= k < |steps| ==>
              Shows(DownStep(steps[k].time, DownSlot(Load(nodes, c, dps, steps), c, dps, k)), steps[k])
  {
    forall k | 0 <= k < |steps|
      ensures Shows(DownStep(steps[k].time, DownSlot(Load(nodes, c, dps, steps), c, dps, k)), steps[k])
    {
      ValidateAll(c.outputs, steps, |steps|, k);
      SlotShows(nodes, c, dps, steps, k);
    }
  }

  lemma Assemble(now: Nodes, c: SeqConfig, dps: map<string, Datapoint>, delays: seq<real>, steps: seq<Step>, m: nat)
    requires m <= |delays| && m <= |steps| && (m < |delays| ==> m > 0 && delays[m] == 0.0)
    requires forall k :: 0 <= k < m ==> delays[k] == steps[k].time > 0.0
    requires forall k :: 0 <= k < |steps| ==> Shows(DownStep(steps[k].time, DownSlot(now, c, dps, k)), steps[k])
    ensures var down := Download(now, c, dps, delays, 0);
            |down| == m && forall k :: 0 <= k < m ==> Shows(down[k], steps[k])
  {
    DownloadStops(now, c, dps, delays, m, 0);
  }

  // The first min(n, L) delays are the durations, all positive; a zero follows if there is room.
  lemma LoadedDelays(before: seq<real>, c: SeqConfig, steps: seq<Step>)
    requires 0 < |steps| <= c.paths.amount && Validate(c.outputs, steps, |steps|) == Loaded
    requires LastDelayFits(before, c.paths.amount, steps) && |steps| - 1 <= |before|
    ensures var m, delays := Least(|steps|, |before|), FinalDelays(before, steps, c.paths.amount);
            && |delays| == |before|
            && (m < |delays| ==> m > 0 && delays[m] == 0.0)
            && forall k :: 0 <= k < m ==> delays[k] == steps[k].time > 0.0
  {
    FinalDelayCells(before, steps, c.paths.amount);
    forall k | 0 <= k < |steps| ensures steps[k].time > 0.0 {
      ValidateAll(c.outputs, steps, |steps|, k);
    }
  }

  // ----- a download can follow -----

  lemma LoadKeeps(nodes: Nodes, c: SeqConfig, dps: map<string, Datapoint>, steps: seq<Step>)
    requires Ready(nodes, c, dps, steps)
    ensures nodes.Keys <= Load(nodes, c, dps, steps).Keys
  {
    var n := |steps|;
    StoreStepsShape(nodes, c, dps, steps, n);
    ReadyToFill(nodes, c, dps, steps);
    FillSlotsShape(StoreSteps(nodes, c, dps, steps, n), c, n, c.paths.amount,
                   StepOf(nodes, c, dps, steps, n - 1), HoldOf(nodes, c, dps, steps, n - 1));
  }

  lemma CellsReadable(nodes: Nodes, now: Nodes, c: SeqConfig, dps: map<string, Datapoint>, step: Step, i: nat)
    requires CellsExist(nodes, c, dps, step, i) && multiset(Keys(step)) == multiset(c.outputs)
    requires StepPath(c, i) in now && |Read(now, StepPath(c, i))| == |Read(nodes, StepPath(c, i))|
    requires HasHold(c) ==> HoldPath(c, i) in now && |Read(now, HoldPath(c, i))| == |Read(nodes, HoldPath(c, i))|
    ensures Readable(now, c, dps, i)
  {
    SameKeys(c, step);
    forall key | key in c.outputs ensures exists o <- step.outputs :: o.key == key {
      var a :| 0 <= a < |Keys(step)| && Keys(step)[a] == key;
      assert step.outputs[a] in step.outputs;
    }
  }

  // The slot of a commanded step can be read back.
  lemma SlotReadable(nodes: Nodes, c: SeqConfig, dps: map<string, Datapoint>, steps: seq<Step>, i: nat)
    requires PathsApart(c.paths) && Ready(nodes, c, dps, steps) && i < |steps|
    requires Verdict(c.outputs, steps[i]) == Loaded
    ensures Readable(Load(nodes, c, dps, steps), c, dps, i)
  {
    ApartIsSeparate(c);
    LoadAt(nodes, c, dps, steps, i);
    LoadKeeps(nodes, c, dps, steps);
    assert CellsExist(nodes, c, dps, steps[i], i);
    CellsReadable(nodes, Load(nodes, c, dps, steps), c, dps, steps[i], i);
  }

  // After a load that can be read back, every slot the download visits has its nodes and cells: what
  // DownloadSequence requires holds after LoadSequence.
  lemma LoadedIsReadable(nodes: Nodes, c: SeqConfig, dps: map<string, Datapoint>, steps: seq<Step>, i: nat)
    requires PathsApart(c.paths) && Ready(nodes, c, dps, steps)
    requires Validate(c.outputs, steps, |steps|) == Loaded
    requires LastDelayFits(Read(nodes, DelayPath(c)), c.paths.amount, steps)
    requires Visited(Read(Load(nodes, c, dps, steps), DelayPath(c)), i)
    ensures DelayPath(c) in Load(nodes, c, dps, steps) && Readable(Load(nodes, c, dps, steps), c, dps, i)
  {
    ApartIsSeparate(c);
    LoadAt(nodes, c, dps, steps, 0);
    LoadKeeps(nodes, c, dps, steps);
    LoadedDelays(Read(nodes, DelayPath(c)), c, steps);
    assert i < |steps|;
    ValidateAll(c.outputs, steps, |steps|, i);
    SlotReadable(nodes, c, dps, steps, i);
  }

  // The plant as configured: a delay vector of N - 1 entries.
  lemma RoundTripOfPlant(nodes: Nodes, c: SeqConfig, dps: map<string, Datapoint>, steps: seq<Step>)
    requires PathsApart(c.paths) && OutputsApart(c, dps) && Ready(nodes, c, dps, steps)
    requires Validate(c.outputs, steps, |steps|) == Loaded
    requires forall s <- steps :: ValidOutputs(c, s.outputs)
    requires |Read(nodes, DelayPath(c))| == c.paths.amount - 1
    ensures var now := Load(nodes, c, dps, steps);
            var down := Download(now, c, dps, Read(now, DelayPath(c)), 0);
            (|down| == |steps| <==> |steps| < c.paths.amount) &&
            |down| == if |steps| < c.paths.amount then |steps| else |steps| - 1
  {
    RoundTrip(nodes, c, dps, steps);
  }

  // ----- history independence -----

  // Some valid output among the first n writes cell j.
  ghost predicate WritesStep(c: SeqConfig, dps: map<string, Datapoint>, outs: seq<Assignment>, n: nat, j: nat)
    requires n <= |outs|
  {
    exists a :: 0 <= a < n && OutIndex(c, dps, outs[a].key) == Some(j) && StepValue(outs[a].value, HasHold(c)).Some?
  }

  ghost predicate WritesHold(c: SeqConfig, dps: map<string, Datapoint>, outs: seq<Assignment>, n: nat, j: nat)
    requires n <= |outs|
  {
    exists a :: 0 <= a < n && OutIndex(c, dps, outs[a].key) == Some(j) && HoldValue(outs[a].value).Some?
  }

  lemma {:induction false} StepArrayForgets(x: seq<real>, y: seq<real>, c: SeqConfig, dps: map<string, Datapoint>,
                                            outs: seq<Assignment>, n: nat, j: nat)
    requires |x| == |y| && j < |x| && n <= |outs|
    requires x[j] == y[j] || WritesStep(c, dps, outs, n, j)
    ensures StepArray(x, c, dps, outs, n)[j] == StepArray(y, c, dps, outs, n)[j]
  {
    if n == 0 {
    } else {
      if OutIndex(c, dps, outs[n - 1].key) != Some(j) || StepValue(outs[n - 1].value, HasHold(c)).None? {
        assert WritesStep(c, dps, outs, n, j) ==> WritesStep(c, dps, outs, n - 1, j);
        StepArrayForgets(x, y, c, dps, outs, n - 1, j);
      }
    }
  }

  lemma {:induction false} HoldArrayForgets(x: seq<real>, y: seq<real>, c: SeqConfig, dps: map<string, Datapoint>,
                                            outs: seq<Assignment>, n: nat, j: nat)
    requires |x| == |y| && j < |x| && n <= |outs|
    requires x[j] == y[j] || WritesHold(c, dps, outs, n, j)
    ensures HoldArray(x, c, dps, outs, n)[j] == HoldArray(y, c, dps, outs, n)[j]
  {
    if n == 0 {
    } else {
      if OutIndex(c, dps, outs[n - 1].key) != Some(j) || HoldValue(outs[n - 1].value).None? {
        assert WritesHold(c, dps, outs, n, j) ==> WritesHold(c, dps, outs, n - 1, j);
        HoldArrayForgets(x, y, c, dps, outs, n - 1, j);
      }
    }
  }

  // Two histories of the plant that differ only in cells the command overwrites: written output
  // cells of the commanded slots, everything in later slots, and the delays of all slots but a
  // commanded last one.
  ghost predicate SameUnaddressed(m: Nodes, n: Nodes, c: SeqConfig, dps: map<string, Datapoint>, steps: seq<Step>)
    requires |steps| <= c.paths.amount
  {
    && (forall p :: |Read(m, p)| == |Read(n, p)|)
    && (forall i, j :: 0 <= i < |steps| && 0 <= j < |Read(m, StepPath(c, i))| ==>
          Read(m, StepPath(c, i))[j] == Read(n, StepPath(c, i))[j]
          || WritesStep(c, dps, steps[i].outputs, |steps[i].outputs|, j))
    && (HasHold(c) ==> forall i, j :: 0 <= i < |steps| && 0 <= j < |Read(m, HoldPath(c, i))| ==>
          Read(m, HoldPath(c, i))[j] == Read(n, HoldPath(c, i))[j]
          || WritesHold(c, dps, steps[i].outputs, |steps[i].outputs|, j))
    && (forall j :: 0 <= j < |Read(m, DelayPath(c))| ==>
          Read(m, DelayPath(c))[j] == Read(n, DelayPath(c))[j]
          || j < c.paths.amount - 1 || |steps| <= j < c.paths.amount)
  }

  lemma StoredForgets(m: Nodes, n: Nodes, c: SeqConfig, dps: map<string, Datapoint>, steps: seq<Step>, i: nat)
    requires i < |steps| <= c.paths.amount && SameUnaddressed(m, n, c, dps, steps)
    ensures StoredStep(m, c, dps, steps[i], i) == StoredStep(n, c, dps, steps[i], i)
    ensures HasHold(c) ==> StoredHold(m, c, dps, steps[i], i) == StoredHold(n, c, dps, steps[i], i)
  {
    var outs := steps[i].outputs;
    var x, y := Read(m, StepPath(c, i)), Read(n, StepPath(c, i));
    forall j | 0 <= j < |x|
      ensures StepArray(x, c, dps, outs, |outs|)[j] == StepArray(y, c, dps, outs, |outs|)[j]
    {
      StepArrayForgets(x, y, c, dps, outs, |outs|, j);
    }
    if HasHold(c) {
      var v, w := Read(m, HoldPath(c, i)), Read(n, HoldPath(c, i));
      forall j | 0 <= j < |v|
        ensures HoldArray(v, c, dps, outs, |outs|)[j] == HoldArray(w, c, dps, outs, |outs|)[j]
      {
        HoldArrayForgets(v, w, c, dps, outs, |outs|, j);
      }
    }
  }

  // After a load nothing remains of the difference: all arrays of the sequence are equal.
  lemma {:induction false} LoadForgets(m: Nodes, n: Nodes, c: SeqConfig, dps: map<string, Datapoint>, steps: seq<Step>, i: nat)
    requires PathsApart(c.paths) && 0 < |steps| <= c.paths.amount && i < c.paths.amount
    requires SameUnaddressed(m, n, c, dps, steps)
    ensures var x, y := Load(m, c, dps, steps), Load(n, c, dps, steps);
            && Read(x, StepPath(c, i)) == Read(y, StepPath(c, i))
            && (HasHold(c) ==> Read(x, HoldPath(c, i)) == Read(y, HoldPath(c, i)))
            && Read(x, DelayPath(c)) == Read(y, DelayPath(c))
  {
    ApartIsSeparate(c);
    LoadAt(m, c, dps, steps, i);
    LoadAt(n, c, dps, steps, i);
    StoredForgets(m, n, c, dps, steps, if i < |steps| then i else |steps| - 1);
    FinalDelayCells(Read(m, DelayPath(c)), steps, c.paths.amount);
    FinalDelayCells(Read(n, DelayPath(c)), steps, c.paths.amount);
  }
}
