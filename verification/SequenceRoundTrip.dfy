/** What a load leaves in the controller, and what a download then reads. */
module SequenceRoundTrip {
  import opened Options
  import opened Opcua
  import opened Decimal
  import opened Sequences

  // ----- which nodes belong to a sequence -----

  lemma SlotPathInjective(c: SeqConfig, base: string, state: string, i: nat, j: nat)
    requires SlotPath(c, base, state, i) == SlotPath(c, base, state, j)
    ensures i == j
  {
    if c.amount > 1 {
      var numbered := DoublyNumbered(base, c.index + 1, state);
      LastUnderscore(numbered, i + 1, numbered, j + 1);
    } else {
      NumberedInjective(base + state, i + 1, j + 1);
    }
  }

  // The configuration keeps the delay vector, the state arrays and the hold arrays apart.
  ghost predicate Separate(c: SeqConfig) {
    && (forall i: nat :: DelayPath(c) != StepPath(c, i))
    && (HasHold(c) ==> forall i: nat :: DelayPath(c) != HoldPath(c, i))
    && (HasHold(c) ==> forall i: nat, j: nat :: StepPath(c, i) != HoldPath(c, j))
  }

  // p is one of the state or hold arrays from..n-1.
  ghost predicate SlotNode(c: SeqConfig, from: nat, n: nat, p: string) {
    exists i: nat :: from <= i < n && (p == StepPath(c, i) || (HasHold(c) && p == HoldPath(c, i)))
  }

  lemma {:induction false} StoreStepsElsewhere(nodes: Nodes, c: SeqConfig, dps: map<string, Datapoint>, steps: seq<Step>, n: nat, p: string)
    requires n <= |steps| && !SlotNode(c, 0, n, p)
    ensures Read(StoreSteps(nodes, c, dps, steps, n), p) == Read(nodes, p)
  {
    if n == 0 {
    } else {
      assert p != StepPath(c, n - 1) && (HasHold(c) ==> p != HoldPath(c, n - 1));
      assert !SlotNode(c, 0, n - 1, p);
      StoreStepsElsewhere(nodes, c, dps, steps, n - 1, p);
    }
  }

  lemma {:induction false} FillSlotsElsewhere(nodes: Nodes, c: SeqConfig, from: nat, n: nat, s: seq<real>, h: seq<real>, p: string)
    requires from <= n && !SlotNode(c, from, n, p)
    ensures Read(FillSlots(nodes, c, from, n, s, h), p) == Read(nodes, p)
    decreases n
  {
    if n == from {
    } else {
      assert p != StepPath(c, n - 1) && (HasHold(c) ==> p != HoldPath(c, n - 1));
      assert !SlotNode(c, from, n - 1, p);
      FillSlotsElsewhere(nodes, c, from, n - 1, s, h, p);
    }
  }

  lemma SlotsDiffer(c: SeqConfig, i: nat, k: nat)
    requires i != k
    ensures StepPath(c, i) != StepPath(c, k)
    ensures HasHold(c) ==> HoldPath(c, i) != HoldPath(c, k)
  {
    if StepPath(c, i) == StepPath(c, k) {
      SlotPathInjective(c, c.paths.step, c.paths.stepState, i, k);
    }
    if HasHold(c) && HoldPath(c, i) == HoldPath(c, k) {
      SlotPathInjective(c, c.paths.holdStep.value, c.paths.holdState.value, i, k);
    }
  }

  // ----- the closed form of a load -----

  // Slot i's state and hold array once step i is stored in it.
  function StoredStep(nodes: Nodes, c: SeqConfig, dps: map<string, Datapoint>, step: Step, i: nat): seq<real> {
    StepArray(Read(nodes, StepPath(c, i)), c, dps, step.outputs, |step.outputs|)
  }

  function StoredHold(nodes: Nodes, c: SeqConfig, dps: map<string, Datapoint>, step: Step, i: nat): seq<real>
    requires HasHold(c)
  {
    HoldArray(Read(nodes, HoldPath(c, i)), c, dps, step.outputs, |step.outputs|)
  }

  function FinalStep(nodes: Nodes, c: SeqConfig, dps: map<string, Datapoint>, steps: seq<Step>, i: nat): seq<real>
    requires steps != []
  {
    var n := |steps|;
    if i < n then StoredStep(nodes, c, dps, steps[i], i)
    else TailArray(|Read(nodes, StepPath(c, i))|, StoredStep(nodes, c, dps, steps[n - 1], n - 1), i == n)
  }

  function FinalHold(nodes: Nodes, c: SeqConfig, dps: map<string, Datapoint>, steps: seq<Step>, i: nat): seq<real>
    requires steps != [] && HasHold(c)
  {
    var n := |steps|;
    if i < n then StoredHold(nodes, c, dps, steps[i], i)
    else TailArray(|Read(nodes, HoldPath(c, i))|, StoredHold(nodes, c, dps, steps[n - 1], n - 1), i == n)
  }

  // A step touches the two arrays of its own slot only.
  lemma StoreStepAt(nodes: Nodes, c: SeqConfig, dps: map<string, Datapoint>, step: Step, k: nat, i: nat)
    requires Separate(c)
    ensures Read(StoreStep(nodes, c, dps, step, k), StepPath(c, i))
         == (if i == k then StoredStep(nodes, c, dps, step, i) else Read(nodes, StepPath(c, i)))
    ensures HasHold(c) ==>
              Read(StoreStep(nodes, c, dps, step, k), HoldPath(c, i))
              == (if i == k then StoredHold(nodes, c, dps, step, i) else Read(nodes, HoldPath(c, i)))
  {
    if i != k { SlotsDiffer(c, i, k); }
  }

  lemma FillSlotAt(nodes: Nodes, c: SeqConfig, k: nat, copy: bool, s: seq<real>, h: seq<real>, i: nat)
    requires Separate(c)
    ensures Read(FillSlot(nodes, c, k, copy, s, h), StepPath(c, i))
         == (if i == k then TailArray(|Read(nodes, StepPath(c, i))|, s, copy) else Read(nodes, StepPath(c, i)))
    ensures HasHold(c) ==>
              Read(FillSlot(nodes, c, k, copy, s, h), HoldPath(c, i))
              == (if i == k then TailArray(|Read(nodes, HoldPath(c, i))|, h, copy) else Read(nodes, HoldPath(c, i)))
  {
    if i != k { SlotsDiffer(c, i, k); }
  }

  lemma {:induction false} StoreStepsAt(nodes: Nodes, c: SeqConfig, dps: map<string, Datapoint>, steps: seq<Step>, n: nat, i: nat)
    requires Separate(c) && n <= |steps|
    ensures Read(StoreSteps(nodes, c, dps, steps, n), StepPath(c, i))
         == (if i < n then StoredStep(nodes, c, dps, steps[i], i) else Read(nodes, StepPath(c, i)))
    ensures HasHold(c) ==>
              Read(StoreSteps(nodes, c, dps, steps, n), HoldPath(c, i))
              == (if i < n then StoredHold(nodes, c, dps, steps[i], i) else Read(nodes, HoldPath(c, i)))
  {
    if n == 0 {
    } else {
      StoreStepsAt(nodes, c, dps, steps, n - 1, i);
      StoreStepAt(StoreSteps(nodes, c, dps, steps, n - 1), c, dps, steps[n - 1], n - 1, i);
    }
  }

  lemma {:induction false} FillSlotsAt(nodes: Nodes, c: SeqConfig, from: nat, n: nat, s: seq<real>, h: seq<real>, i: nat)
    requires Separate(c) && from <= n
    ensures Read(FillSlots(nodes, c, from, n, s, h), StepPath(c, i))
         == (if from <= i < n then TailArray(|Read(nodes, StepPath(c, i))|, s, i == from) else Read(nodes, StepPath(c, i)))
    ensures HasHold(c) ==>
              Read(FillSlots(nodes, c, from, n, s, h), HoldPath(c, i))
              == (if from <= i < n then TailArray(|Read(nodes, HoldPath(c, i))|, h, i == from) else Read(nodes, HoldPath(c, i)))
    decreases n
  {
    if n == from {
    } else {
      FillSlotsAt(nodes, c, from, n - 1, s, h, i);
      FillSlotAt(FillSlots(nodes, c, from, n - 1, s, h), c, n - 1, n - 1 == from, s, h, i);
    }
  }

  lemma LastStored(nodes: Nodes, c: SeqConfig, dps: map<string, Datapoint>, steps: seq<Step>)
    requires Separate(c) && steps != []
    ensures StepOf(nodes, c, dps, steps, |steps| - 1) == StoredStep(nodes, c, dps, steps[|steps| - 1], |steps| - 1)
    ensures HasHold(c) ==> HoldOf(nodes, c, dps, steps, |steps| - 1) == StoredHold(nodes, c, dps, steps[|steps| - 1], |steps| - 1)
  {
    StoreStepsAt(nodes, c, dps, steps, |steps| - 1, |steps| - 1);
  }

  // The nodes before the delay vector is written back.
  function Filled(nodes: Nodes, c: SeqConfig, dps: map<string, Datapoint>, steps: seq<Step>): Nodes
    requires 0 < |steps| <= c.paths.amount
  {
    FillSlots(StoreSteps(nodes, c, dps, steps, |steps|), c, |steps|, c.paths.amount,
              StepOf(nodes, c, dps, steps, |steps| - 1), HoldOf(nodes, c, dps, steps, |steps| - 1))
  }

  lemma FilledAt(nodes: Nodes, c: SeqConfig, dps: map<string, Datapoint>, steps: seq<Step>, i: nat)
    requires Separate(c) && 0 < |steps| <= c.paths.amount && i < c.paths.amount
    ensures Read(Filled(nodes, c, dps, steps), StepPath(c, i)) == FinalStep(nodes, c, dps, steps, i)
    ensures HasHold(c) ==> Read(Filled(nodes, c, dps, steps), HoldPath(c, i)) == FinalHold(nodes, c, dps, steps, i)
  {
    var n := |steps|;
    StoreStepsAt(nodes, c, dps, steps, n, i);
    LastStored(nodes, c, dps, steps);
    FillSlotsAt(StoreSteps(nodes, c, dps, steps, n), c, n, c.paths.amount,
                StepOf(nodes, c, dps, steps, |steps| - 1), HoldOf(nodes, c, dps, steps, |steps| - 1), i);
  }

  // The nodes after a load, slot by slot: slot i holds a commanded step, the copy of the last
  // step, or zeros, and the delays are those of FinalDelays.
  lemma {:induction false} LoadAt(nodes: Nodes, c: SeqConfig, dps: map<string, Datapoint>, steps: seq<Step>, i: nat)
    requires Separate(c) && 0 < |steps| <= c.paths.amount && i < c.paths.amount
    ensures Read(Load(nodes, c, dps, steps), StepPath(c, i)) == FinalStep(nodes, c, dps, steps, i)
    ensures HasHold(c) ==> Read(Load(nodes, c, dps, steps), HoldPath(c, i)) == FinalHold(nodes, c, dps, steps, i)
    ensures Read(Load(nodes, c, dps, steps), DelayPath(c))
         == FinalDelays(Read(nodes, DelayPath(c)), steps, c.paths.amount)
  {
    FilledAt(nodes, c, dps, steps, i);
    var delays := FinalDelays(Read(nodes, DelayPath(c)), steps, c.paths.amount);
    assert Load(nodes, c, dps, steps) == Filled(nodes, c, dps, steps)[DelayPath(c) := delays];
    ReadAfterWrite(Filled(nodes, c, dps, steps), DelayPath(c), delays, StepPath(c, i));
    if HasHold(c) { ReadAfterWrite(Filled(nodes, c, dps, steps), DelayPath(c), delays, HoldPath(c, i)); }
  }

  lemma ReadAfterWrite(nodes: Nodes, p: string, arr: seq<real>, q: string)
    ensures Read(nodes[p := arr], q) == if p == q then arr else Read(nodes, q)
  {
  }

  lemma {:induction false} LoadElsewhere(nodes: Nodes, c: SeqConfig, dps: map<string, Datapoint>, steps: seq<Step>, p: string)
    requires 0 < |steps| <= c.paths.amount
    requires p != DelayPath(c) && !SlotNode(c, 0, c.paths.amount, p)
    ensures Read(Load(nodes, c, dps, steps), p) == Read(nodes, p)
  {
    var n := |steps|;
    var stored := StoreSteps(nodes, c, dps, steps, n);
    assert !SlotNode(c, 0, n, p) && !SlotNode(c, n, c.paths.amount, p);
    StoreStepsElsewhere(nodes, c, dps, steps, n, p);
    FillSlotsElsewhere(stored, c, n, c.paths.amount, StepOf(nodes, c, dps, steps, |steps| - 1),
                       HoldOf(nodes, c, dps, steps, |steps| - 1), p);
  }

  // ----- single cells -----

  function Cell(arr: seq<real>, i: Option<nat>): real {
    if i.Some? && i.value < |arr| then arr[i.value] else 0.0
  }

  // Keys that differ address different cells.
  ghost predicate DistinctCells(c: SeqConfig, dps: map<string, Datapoint>, outs: seq<Assignment>) {
    forall a, b :: 0 <= a < b < |outs| ==> OutIndex(c, dps, outs[a].key) != OutIndex(c, dps, outs[b].key)
  }

  // A valid output writes its value into its cell, and later outputs leave that cell alone.
  lemma {:induction false} StepCell(arr: seq<real>, c: SeqConfig, dps: map<string, Datapoint>, outs: seq<Assignment>, n: nat, a: nat)
    requires a < n <= |outs| && DistinctCells(c, dps, outs)
    requires OutIndex(c, dps, outs[a].key).Some? && OutIndex(c, dps, outs[a].key).value < |arr|
    requires StepValue(outs[a].value, HasHold(c)).Some?
    ensures Cell(StepArray(arr, c, dps, outs, n), OutIndex(c, dps, outs[a].key)) == StepValue(outs[a].value, HasHold(c)).value
  {
    if a == n - 1 {
    } else {
      StepCell(arr, c, dps, outs, n - 1, a);
      assert OutIndex(c, dps, outs[a].key) != OutIndex(c, dps, outs[n - 1].key);
    }
  }

  lemma {:induction false} HoldCell(arr: seq<real>, c: SeqConfig, dps: map<string, Datapoint>, outs: seq<Assignment>, n: nat, a: nat)
    requires a < n <= |outs| && DistinctCells(c, dps, outs)
    requires OutIndex(c, dps, outs[a].key).Some? && OutIndex(c, dps, outs[a].key).value < |arr|
    requires HoldValue(outs[a].value).Some?
    ensures Cell(HoldArray(arr, c, dps, outs, n), OutIndex(c, dps, outs[a].key)) == HoldValue(outs[a].value).value
  {
    if a == n - 1 {
    } else {
      HoldCell(arr, c, dps, outs, n - 1, a);
      assert OutIndex(c, dps, outs[a].key) != OutIndex(c, dps, outs[n - 1].key);
    }
  }

  lemma {:induction false} DelayCells(arr: seq<real>, steps: seq<Step>, slots: nat, n: nat)
    requires n <= |steps|
    ensures forall i :: 0 <= i < |arr| ==>
              Delays(arr, steps, slots, n)[i] == if i < n && i != slots - 1 then steps[i].time else arr[i]
  {
    if n == 0 {
    } else {
      DelayCells(arr, steps, slots, n - 1);
    }
  }

  lemma {:induction false} ZeroCells(arr: seq<real>, from: nat, n: nat)
    requires from <= n
    ensures forall i :: 0 <= i < |arr| ==> ZeroDelays(arr, from, n)[i] == if from <= i < n then 0.0 else arr[i]
    decreases n
  {
    if n == from {
    } else {
      ZeroCells(arr, from, n - 1);
    }
  }

  // The delay vector after a load: the durations, then zeros up to the number of slots. The last
  // slot's entry, if the vector has one, is only ever cleared.
  lemma FinalDelayCells(arr: seq<real>, steps: seq<Step>, slots: nat)
    requires |steps| <= slots
    ensures forall i :: 0 <= i < |arr| ==>
              FinalDelays(arr, steps, slots)[i] ==
              if i < |steps| && i != slots - 1 then steps[i].time
              else if |steps| <= i < slots then 0.0
              else arr[i]
  {
    DelayCells(arr, steps, slots, |steps|);
    ZeroCells(Delays(arr, steps, slots, |steps|), |steps|, slots);
  }

  // ----- download -----

  datatype DownStep = DownStep(time: real, outputs: map<string, real>)
  datatype Response = Response(kind: string, sequence: seq<DownStep>)

  // The value reported for one output: 2 where the hold array says so and the state array is 0.
  function DownValue(c: SeqConfig, stepArr: seq<real>, holdArr: seq<real>, i: Option<nat>): real {
    if HasHold(c) && Cell(holdArr, i) == 1.0 && Cell(stepArr, i) == 0.0 then 2.0 else Cell(stepArr, i)
  }

  function DownOutputs(c: SeqConfig, dps: map<string, Datapoint>, stepArr: seq<real>, holdArr: seq<real>, n: nat): map<string, real>
    requires n <= |c.outputs|
  {
    if n == 0 then map[]
    else
      DownOutputs(c, dps, stepArr, holdArr, n - 1)
        [c.outputs[n - 1] := DownValue(c, stepArr, holdArr, OutIndex(c, dps, c.outputs[n - 1]))]
  }

  function DownSlot(nodes: Nodes, c: SeqConfig, dps: map<string, Datapoint>, i: nat): map<string, real> {
    DownOutputs(c, dps, Read(nodes, StepPath(c, i)), if HasHold(c) then Read(nodes, HoldPath(c, i)) else [], |c.outputs|)
  }

  // Slots are read until a zero delay after the first.
  function Download(nodes: Nodes, c: SeqConfig, dps: map<string, Datapoint>, delays: seq<real>, i: nat): seq<DownStep>
    decreases |delays| - i
  {
    if i >= |delays| || (delays[i] == 0.0 && i > 0) then []
    else [DownStep(delays[i], DownSlot(nodes, c, dps, i))] + Download(nodes, c, dps, delays, i + 1)
  }

  // What download needs: the visited slots' nodes and the cells of the configured outputs.
  predicate Readable(nodes: Nodes, c: SeqConfig, dps: map<string, Datapoint>, i: nat) {
    && StepPath(c, i) in nodes && (HasHold(c) ==> HoldPath(c, i) in nodes)
    && forall key <- c.outputs ::
         && OutIndex(c, dps, key).Some?
         && OutIndex(c, dps, key).value < |Read(nodes, StepPath(c, i))|
         && (HasHold(c) ==> OutIndex(c, dps, key).value < |Read(nodes, HoldPath(c, i))|)
  }

  // i is reached by the download loop.
  predicate Visited(delays: seq<real>, i: nat) {
    i < |delays| && forall j :: 0 < j <= i ==> delays[j] != 0.0
  }

  method DownloadSlot(nodes: Nodes, c: SeqConfig, dps: map<string, Datapoint>, i: nat) returns (outputs: map<string, real>)
    requires Readable(nodes, c, dps, i)
    ensures outputs == DownSlot(nodes, c, dps, i)
  {
    var stepArr := nodes[StepPath(c, i)];
    var holdArr := if HasHold(c) then nodes[HoldPath(c, i)] else [];
    outputs := map[];
    for n := 0 to |c.outputs|
      invariant outputs == DownOutputs(c, dps, stepArr, holdArr, n)
    {
      var outKey := c.outputs[n];
      assert outKey in c.outputs;
      var outIdx := OutIndex(c, dps, outKey).value;
      var keyVal := stepArr[outIdx];
      outputs := outputs[outKey := keyVal];
      if HasHold(c) {
        if holdArr[outIdx] == 1.0 && keyVal == 0.0 {
          outputs := outputs[outKey := 2.0];
        }
      }
    }
  }

  lemma DownloadStep(nodes: Nodes, c: SeqConfig, dps: map<string, Datapoint>, delays: seq<real>, out: seq<DownStep>, i: nat)
    requires i < |delays|
    ensures out + Download(nodes, c, dps, delays, i) ==
            if delays[i] == 0.0 && i > 0 then out
            else (out + [DownStep(delays[i], DownSlot(nodes, c, dps, i))]) + Download(nodes, c, dps, delays, i + 1)
  {
  }

  lemma VisitedIs(delays: seq<real>, i: nat)
    requires i < |delays| && (forall j :: 0 < j < i ==> delays[j] != 0.0) && (i == 0 || delays[i] != 0.0)
    ensures Visited(delays, i)
  {
  }

  // The loop over the delays.
  method DownloadSlots(nodes: Nodes, c: SeqConfig, dps: map<string, Datapoint>, delays: seq<real>) returns (out: seq<DownStep>)
    requires forall i: nat :: Visited(delays, i) ==> Readable(nodes, c, dps, i)
    ensures out == Download(nodes, c, dps, delays, 0)
  {
    out := [];
    ghost var all := Download(nodes, c, dps, delays, 0);
    var i := 0;
    while i < |delays|
      invariant 0 <= i <= |delays| && forall j :: 0 < j < i ==> delays[j] != 0.0
      invariant all == out + Download(nodes, c, dps, delays, i)
    {
      DownloadStep(nodes, c, dps, delays, out, i);
      if delays[i] == 0.0 && i > 0 {
        return;
      }
      VisitedIs(delays, i);
      var outputs := DownloadSlot(nodes, c, dps, i);
      out := out + [DownStep(delays[i], outputs)];
      i := i + 1;
    }
  }

  // handle_cmd_download_sequence: no answer for an unknown key.
  method DownloadSequence(client: Client, key: string) returns (r: Option<Response>)
    requires key in client.configs ==>
               var c := client.configs[key];
               && DelayPath(c) in client.nodes
               && forall i: nat :: Visited(client.nodes[DelayPath(c)], i) ==> Readable(client.nodes, c, client.dps, i)
    ensures r.Some? <==> key in client.configs
    ensures r.Some? ==>
              var c := client.configs[key];
              r.value == Response(c.kind, Download(client.nodes, c, client.dps, client.nodes[DelayPath(c)], 0))
  {
    if key !in client.configs {
      return None;
    }
    var c := client.configs[key];
    var delays := client.nodes[DelayPath(c)];
    var out := DownloadSlots(client.nodes, c, client.dps, delays);
    r := Some(Response(c.kind, out));
  }
}
