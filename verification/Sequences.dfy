/** Loading a valve sequence into the controller's arrays, and reading it back. */
module Sequences {
  import opened Options
  import opened Opcua
  import opened Decimal
  import opened KeyOrder

  // The opcua section of a configured sequence; amount is its number of step slots.
  datatype SeqPaths = SeqPaths(delayVector: string, step: string, stepState: string,
                               holdStep: Option<string>, holdState: Option<string>, amount: nat)

  // A configured sequence; amount is the number of sequences of its type, index its own number.
  datatype SeqConfig = SeqConfig(key: string, kind: string, index: nat, amount: nat,
                                 outputs: seq<string>, paths: SeqPaths)

  // The outputs dictionary of a step, in insertion order.
  datatype Assignment = Assignment(key: string, value: int)
  datatype Step = Step(time: real, outputs: seq<Assignment>)
  datatype SeqCommand = SeqCommand(key: string, sequence: seq<Step>)

  datatype Outcome = Loaded | UnknownKey | OutputMismatch | BadDuration

  // ----- node paths -----

  function DelayPath(c: SeqConfig): string {
    if c.amount > 1 then c.paths.delayVector + Str(c.index + 1) else c.paths.delayVector
  }

  function SlotPath(c: SeqConfig, base: string, state: string, i: nat): string {
    if c.amount > 1 then Underscored(DoublyNumbered(base, c.index + 1, state), i + 1)
    else base + state + Str(i + 1)
  }

  function StepPath(c: SeqConfig, i: nat): string {
    SlotPath(c, c.paths.step, c.paths.stepState, i)
  }

  predicate HasHold(c: SeqConfig) { c.paths.holdStep.Some? && c.paths.holdState.Some? }

  function HoldPath(c: SeqConfig, i: nat): string
    requires HasHold(c)
  {
    SlotPath(c, c.paths.holdStep.value, c.paths.holdState.value, i)
  }

  // ----- the effect of one command, as functions on the nodes -----

  // The cell an output addresses.
  function OutIndex(c: SeqConfig, dps: map<string, Datapoint>, key: string): Option<nat> {
    if key !in dps then None
    else if c.key == "redline_trigger_sequence" then
      if dps[key].redlines.Some? then Some(dps[key].redlines.value.index) else None
    else dps[key].index
  }

  // What a commanded value writes into the state array and into the hold array.
  function StepValue(v: int, hold: bool): Option<real> {
    if v == 1 then Some(1.0) else if v == 0 || (v == 2 && hold) then Some(0.0) else None
  }

  function HoldValue(v: int): Option<real> {
    if v == 2 then Some(1.0) else if v == 1 || v == 0 then Some(0.0) else None
  }

  function PutIf(arr: seq<real>, i: Option<nat>, v: Option<real>): (r: seq<real>)
    ensures |r| == |arr|
  {
    if i.Some? && v.Some? then Put(arr, i.value, v.value) else arr
  }

  function StepArray(arr: seq<real>, c: SeqConfig, dps: map<string, Datapoint>, outs: seq<Assignment>, n: nat): (r: seq<real>)
    requires n <= |outs|
    ensures |r| == |arr|
  {
    if n == 0 then arr
    else PutIf(StepArray(arr, c, dps, outs, n - 1), OutIndex(c, dps, outs[n - 1].key), StepValue(outs[n - 1].value, HasHold(c)))
  }

  function HoldArray(arr: seq<real>, c: SeqConfig, dps: map<string, Datapoint>, outs: seq<Assignment>, n: nat): (r: seq<real>)
    requires n <= |outs|
    ensures |r| == |arr|
  {
    if n == 0 then arr
    else PutIf(HoldArray(arr, c, dps, outs, n - 1), OutIndex(c, dps, outs[n - 1].key), HoldValue(outs[n - 1].value))
  }

  // Both arrays of a step are read before either is written.
  function StoreStep(nodes: Nodes, c: SeqConfig, dps: map<string, Datapoint>, step: Step, i: nat): Nodes {
    var s := StepArray(Read(nodes, StepPath(c, i)), c, dps, step.outputs, |step.outputs|);
    var written := nodes[StepPath(c, i) := s];
    if HasHold(c) then
      written[HoldPath(c, i) := HoldArray(Read(nodes, HoldPath(c, i)), c, dps, step.outputs, |step.outputs|)]
    else written
  }

  function StoreSteps(nodes: Nodes, c: SeqConfig, dps: map<string, Datapoint>, steps: seq<Step>, n: nat): Nodes
    requires n <= |steps|
  {
    if n == 0 then nodes
    else StoreStep(StoreSteps(nodes, c, dps, steps, n - 1), c, dps, steps[n - 1], n - 1)
  }

  // A tail array: a copy of source, or zeros.
  function TailArray(n: nat, source: seq<real>, copy: bool): (r: seq<real>)
    ensures |r| == n
  {
    seq(n, j requires 0 <= j < n => if copy && j < |source| then source[j] else 0.0)
  }

  function FillSlot(nodes: Nodes, c: SeqConfig, i: nat, copy: bool, lastStep: seq<real>, lastHold: seq<real>): Nodes {
    var written := nodes[StepPath(c, i) := TailArray(|Read(nodes, StepPath(c, i))|, lastStep, copy)];
    if HasHold(c) then
      written[HoldPath(c, i) := TailArray(|Read(written, HoldPath(c, i))|, lastHold, copy)]
    else written
  }

  // Slots from..n-1 filled; the slot right after the last step copies it.
  function FillSlots(nodes: Nodes, c: SeqConfig, from: nat, n: nat, lastStep: seq<real>, lastHold: seq<real>): Nodes
    requires from <= n
    decreases n - from
  {
    if n == from then nodes
    else FillSlot(FillSlots(nodes, c, from, n - 1, lastStep, lastHold), c, n - 1, n - 1 == from, lastStep, lastHold)
  }

  // The delay vector after the first n steps; the last slot has no delay of its own.
  function Delays(arr: seq<real>, steps: seq<Step>, slots: nat, n: nat): (r: seq<real>)
    requires n <= |steps|
    ensures |r| == |arr|
  {
    if n == 0 then arr
    else
      var before := Delays(arr, steps, slots, n - 1);
      if n - 1 != slots - 1 then Put(before, n - 1, steps[n - 1].time) else before
  }

  function ZeroDelays(arr: seq<real>, from: nat, n: nat): (r: seq<real>)
    requires from <= n
    ensures |r| == |arr|
    decreases n - from
  {
    if n == from then arr else Put(ZeroDelays(arr, from, n - 1), n - 1, 0.0)
  }

  function FinalDelays(arr: seq<real>, steps: seq<Step>, slots: nat): (r: seq<real>)
    requires |steps| <= slots
    ensures |r| == |arr|
  {
    ZeroDelays(Delays(arr, steps, slots, |steps|), |steps|, slots)
  }

  // The arrays of step k, as written.
  function StepOf(nodes: Nodes, c: SeqConfig, dps: map<string, Datapoint>, steps: seq<Step>, k: nat): seq<real>
    requires k < |steps|
  {
    StepArray(Read(StoreSteps(nodes, c, dps, steps, k), StepPath(c, k)), c, dps, steps[k].outputs, |steps[k].outputs|)
  }

  function HoldOf(nodes: Nodes, c: SeqConfig, dps: map<string, Datapoint>, steps: seq<Step>, k: nat): seq<real>
    requires k < |steps|
  {
    if HasHold(c) then
      HoldArray(Read(StoreSteps(nodes, c, dps, steps, k), HoldPath(c, k)), c, dps, steps[k].outputs, |steps[k].outputs|)
    else []
  }

  // The arrays read and written for the n-th step.
  ghost predicate LastArrays(nodes: Nodes, c: SeqConfig, dps: map<string, Datapoint>, steps: seq<Step>, n: nat,
                             stepArr: seq<real>, holdArr: seq<real>)
    requires 0 < n <= |steps|
  {
    stepArr == StepOf(nodes, c, dps, steps, n - 1) && holdArr == HoldOf(nodes, c, dps, steps, n - 1)
  }

  function Load(nodes: Nodes, c: SeqConfig, dps: map<string, Datapoint>, steps: seq<Step>): Nodes
    requires 0 < |steps| <= c.paths.amount
  {
    var stored := StoreSteps(nodes, c, dps, steps, |steps|);
    var filled := FillSlots(stored, c, |steps|, c.paths.amount,
                            StepOf(nodes, c, dps, steps, |steps| - 1), HoldOf(nodes, c, dps, steps, |steps| - 1));
    filled[DelayPath(c) := FinalDelays(Read(nodes, DelayPath(c)), steps, c.paths.amount)]
  }

  // ----- validation -----

  function Keys(step: Step): seq<string> {
    seq(|step.outputs|, i requires 0 <= i < |step.outputs| => step.outputs[i].key)
  }

  function Verdict(outputs: seq<string>, step: Step): Outcome {
    if multiset(Keys(step)) != multiset(outputs) then OutputMismatch
    else if step.time <= 0.0 then BadDuration
    else Loaded
  }

  function Validate(outputs: seq<string>, steps: seq<Step>, n: nat): Outcome
    requires n <= |steps|
  {
    if n == 0 then Loaded
    else
      var before := Validate(outputs, steps, n - 1);
      if before != Loaded then before
      else Verdict(outputs, steps[n - 1])
  }

  // ----- what an accepted command needs of the plant -----

  predicate CellsExist(nodes: Nodes, c: SeqConfig, dps: map<string, Datapoint>, step: Step, i: nat) {
    forall o <- step.outputs ::
      && OutIndex(c, dps, o.key).Some?
      && OutIndex(c, dps, o.key).value < |Read(nodes, StepPath(c, i))|
      && (HasHold(c) ==> OutIndex(c, dps, o.key).value < |Read(nodes, HoldPath(c, i))|)
  }

  // Nodes exist, addressed cells exist, the sequence is non-empty and fits the slots, and the
  // slot after the last step is no wider than the last step's.
  predicate Ready(nodes: Nodes, c: SeqConfig, dps: map<string, Datapoint>, steps: seq<Step>) {
    var n := |steps|;
    && 0 < n <= c.paths.amount
    && DelayPath(c) in nodes
    && (if n == c.paths.amount then n - 1 else n) <= |Read(nodes, DelayPath(c))|
    && (forall i :: 0 <= i < c.paths.amount ==> StepPath(c, i) in nodes && (HasHold(c) ==> HoldPath(c, i) in nodes))
    && (forall i :: 0 <= i < n ==> CellsExist(nodes, c, dps, steps[i], i))
    && (n < c.paths.amount ==>
          && |Read(nodes, StepPath(c, n))| <= |Read(nodes, StepPath(c, n - 1))|
          && (HasHold(c) ==> |Read(nodes, HoldPath(c, n))| <= |Read(nodes, HoldPath(c, n - 1))|))
  }

  lemma ReadyBySize(m: Nodes, n: Nodes, c: SeqConfig, dps: map<string, Datapoint>, steps: seq<Step>)
    requires Ready(m, c, dps, steps) && SameShape(m, n)
    ensures Ready(n, c, dps, steps)
  {
  }

  lemma {:induction false} StoreStepsShape(nodes: Nodes, c: SeqConfig, dps: map<string, Datapoint>, steps: seq<Step>, n: nat)
    requires Ready(nodes, c, dps, steps) && n <= |steps|
    ensures SameShape(nodes, StoreSteps(nodes, c, dps, steps, n))
  {
    if n == 0 {
    } else {
      StoreStepsShape(nodes, c, dps, steps, n - 1);
      StoreStepShape(StoreSteps(nodes, c, dps, steps, n - 1), c, dps, steps[n - 1], n - 1);
    }
  }

  // When step i is stored, its nodes and cells are still there.
  predicate StepReady(nodes: Nodes, c: SeqConfig, dps: map<string, Datapoint>, steps: seq<Step>, i: nat)
    requires i < |steps|
  {
    var now := StoreSteps(nodes, c, dps, steps, i);
    && StepPath(c, i) in now && (HasHold(c) ==> HoldPath(c, i) in now)
    && CellsExist(now, c, dps, steps[i], i)
  }

  lemma ReadyForStep(nodes: Nodes, c: SeqConfig, dps: map<string, Datapoint>, steps: seq<Step>, i: nat)
    requires Ready(nodes, c, dps, steps) && i < |steps|
    ensures StepReady(nodes, c, dps, steps, i)
  {
    var now := StoreSteps(nodes, c, dps, steps, i);
    StoreStepsShape(nodes, c, dps, steps, i);
    ReadyBySize(nodes, now, c, dps, steps);
  }

  lemma ReadyForSteps(nodes: Nodes, c: SeqConfig, dps: map<string, Datapoint>, steps: seq<Step>)
    requires Ready(nodes, c, dps, steps)
    ensures steps != [] && DelayPath(c) in nodes && Delayable(nodes[DelayPath(c)], c, |steps|)
    ensures forall i: nat :: i < |steps| ==> StepReady(nodes, c, dps, steps, i)
  {
    forall i: nat | i < |steps| ensures StepReady(nodes, c, dps, steps, i) {
      ReadyForStep(nodes, c, dps, steps, i);
    }
  }

  lemma {:induction false} FillSlotsShape(nodes: Nodes, c: SeqConfig, from: nat, n: nat, lastStep: seq<real>, lastHold: seq<real>)
    requires Fillable(nodes, c, from, lastStep, lastHold) && from <= n <= c.paths.amount
    ensures SameShape(nodes, FillSlots(nodes, c, from, n, lastStep, lastHold))
    decreases n
  {
    if n == from {
    } else {
      FillSlotsShape(nodes, c, from, n - 1, lastStep, lastHold);
      FillSlotShape(FillSlots(nodes, c, from, n - 1, lastStep, lastHold), c, n - 1, n - 1 == from, lastStep, lastHold);
    }
  }

  // The delay vector has an entry for each of n steps, the one in the last slot aside.
  predicate Delayable(delays: seq<real>, c: SeqConfig, n: nat) {
    (if n == c.paths.amount then n - 1 else n) <= |delays| && n <= c.paths.amount
  }

  lemma ReadyAnyOutputs(nodes: Nodes, c: SeqConfig, dps: map<string, Datapoint>, steps: seq<Step>, outputs: seq<string>)
    requires Ready(nodes, c, dps, steps)
    ensures Ready(nodes, c.(outputs := outputs), dps, steps)
  {
    var d := c.(outputs := outputs);
    forall i: nat ensures StepPath(d, i) == StepPath(c, i) && (HasHold(c) ==> HoldPath(d, i) == HoldPath(c, i)) {}
    forall key ensures OutIndex(d, dps, key) == OutIndex(c, dps, key) {}
    forall i | 0 <= i < |steps| ensures CellsExist(nodes, d, dps, steps[i], i) {
      assert CellsExist(nodes, c, dps, steps[i], i);
    }
  }

  lemma StoreStepShape(nodes: Nodes, c: SeqConfig, dps: map<string, Datapoint>, step: Step, i: nat)
    requires StepPath(c, i) in nodes && (HasHold(c) ==> HoldPath(c, i) in nodes)
    ensures SameShape(nodes, StoreStep(nodes, c, dps, step, i))
  {
  }

  lemma FillSlotShape(nodes: Nodes, c: SeqConfig, i: nat, copy: bool, lastStep: seq<real>, lastHold: seq<real>)
    requires StepPath(c, i) in nodes && (HasHold(c) ==> HoldPath(c, i) in nodes)
    ensures SameShape(nodes, FillSlot(nodes, c, i, copy, lastStep, lastHold))
  {
  }

  lemma ResortAgain(configs: map<string, SeqConfig>, key: string)
    requires key in configs
    ensures Resorted(Resorted(configs, key, true), key, true) == Resorted(configs, key, true)
  {
    SortAgain(configs[key].outputs);
  }

  // All slots exist, and slot from is no wider than the arrays to be copied into it.
  predicate Fillable(nodes: Nodes, c: SeqConfig, from: nat, stepArr: seq<real>, holdArr: seq<real>) {
    && from <= c.paths.amount
    && (forall i :: 0 <= i < c.paths.amount ==> StepPath(c, i) in nodes && (HasHold(c) ==> HoldPath(c, i) in nodes))
    && (from < c.paths.amount ==>
          && |Read(nodes, StepPath(c, from))| <= |stepArr|
          && (HasHold(c) ==> |Read(nodes, HoldPath(c, from))| <= |holdArr|))
  }

  lemma ReadyToFill(start: Nodes, c: SeqConfig, dps: map<string, Datapoint>, steps: seq<Step>)
    requires Ready(start, c, dps, steps)
    ensures Fillable(StoreSteps(start, c, dps, steps, |steps|), c, |steps|,
                     StepOf(start, c, dps, steps, |steps| - 1), HoldOf(start, c, dps, steps, |steps| - 1))
  {
    var stored := StoreSteps(start, c, dps, steps, |steps|);
    StoreStepsShape(start, c, dps, steps, |steps|);
    StoreStepsShape(start, c, dps, steps, |steps| - 1);
    ReadyBySize(start, stored, c, dps, steps);
  }

  // The configurations after the keys of one of them were compared.
  function Resorted(configs: map<string, SeqConfig>, key: string, compared: bool): map<string, SeqConfig> {
    if key in configs && compared then configs[key := configs[key].(outputs := Sort(configs[key].outputs))]
    else configs
  }

  lemma {:induction false} PrefixDecides(outputs: seq<string>, steps: seq<Step>, n: nat)
    requires n <= |steps|
    ensures Validate(outputs, steps, n) != Loaded ==> Validate(outputs, steps, |steps|) == Validate(outputs, steps, n)
    decreases |steps| - n
  {
    if n == |steps| {
    } else {
      PrefixDecides(outputs, steps, n + 1);
    }
  }

  // ----- the command handler -----

  class Client {
    var nodes: Nodes
    var configs: map<string, SeqConfig>
    const dps: map<string, Datapoint>

    constructor (nodes: Nodes, configs: map<string, SeqConfig>, dps: map<string, Datapoint>)
      ensures this.nodes == nodes && this.configs == configs && this.dps == dps
    {
      this.nodes, this.configs, this.dps := nodes, configs, dps;
    }

    // A step must name exactly the configured outputs and last longer than 0. Comparing sorts the
    // configured list in place.
    method CheckStep(key: string, step: Step) returns (r: Outcome)
      requires key in configs
      modifies this`configs
      ensures r == Verdict(old(configs[key].outputs), step)
      ensures configs == Resorted(old(configs), key, true)
    {
      var stepKeys := Sort(Keys(step));
      var configKeys := Sort(configs[key].outputs);
      SortedEqualIff(Keys(step), configs[key].outputs);
      configs := configs[key := configs[key].(outputs := configKeys)];
      if stepKeys != configKeys {
        return OutputMismatch;
      }
      if step.time <= 0.0 {
        return BadDuration;
      }
      r := Loaded;
    }

    method Check(key: string, steps: seq<Step>) returns (r: Outcome)
      requires key in configs
      modifies this`configs
      ensures r == Validate(old(configs[key].outputs), steps, |steps|)
      ensures configs == Resorted(old(configs), key, steps != [])
    {
      ghost var was := configs[key].outputs;
      for n := 0 to |steps|
        invariant configs == Resorted(old(configs), key, n > 0)
        invariant Validate(was, steps, n) == Loaded
      {
        ResortAgain(old(configs), key);
        SortFacts(was);
        r := CheckStep(key, steps[n]);
        PrefixDecides(was, steps, n + 1);
        if r != Loaded {
          return;
        }
      }
      r := Loaded;
    }

    method StoreOne(c: SeqConfig, step: Step, i: nat) returns (stepArr: seq<real>, holdArr: seq<real>)
      requires StepPath(c, i) in nodes && (HasHold(c) ==> HoldPath(c, i) in nodes)
      requires CellsExist(nodes, c, dps, step, i)
      modifies this`nodes
      ensures nodes == StoreStep(old(nodes), c, dps, step, i)
      ensures stepArr == StepArray(old(Read(nodes, StepPath(c, i))), c, dps, step.outputs, |step.outputs|)
      ensures holdArr == if HasHold(c) then HoldArray(old(Read(nodes, HoldPath(c, i))), c, dps, step.outputs, |step.outputs|) else []
    {
      stepArr := nodes[StepPath(c, i)];
      holdArr := [];
      if HasHold(c) {
        holdArr := nodes[HoldPath(c, i)];
      }
      for k := 0 to |step.outputs|
        invariant stepArr == StepArray(Read(nodes, StepPath(c, i)), c, dps, step.outputs, k)
        invariant holdArr == if HasHold(c) then HoldArray(Read(nodes, HoldPath(c, i)), c, dps, step.outputs, k) else []
      {
        var o := step.outputs[k];
        assert o in step.outputs;
        var outIdx := OutIndex(c, dps, o.key).value;
        if HasHold(c) {
          if o.value == 2 {
            stepArr, holdArr := stepArr[outIdx := 0.0], holdArr[outIdx := 1.0];
          } else if o.value == 1 {
            stepArr, holdArr := stepArr[outIdx := 1.0], holdArr[outIdx := 0.0];
          } else if o.value == 0 {
            stepArr, holdArr := stepArr[outIdx := 0.0], holdArr[outIdx := 0.0];
          }
        } else {
          if o.value == 1 {
            stepArr := stepArr[outIdx := 1.0];
          } else if o.value == 0 {
            stepArr := stepArr[outIdx := 0.0];
          }
        }
      }
      nodes := nodes[StepPath(c, i) := stepArr];
      if HasHold(c) {
        nodes := nodes[HoldPath(c, i) := holdArr];
      }
    }

    method StoreNth(ghost start: Nodes, c: SeqConfig, steps: seq<Step>, i: nat) returns (stepArr: seq<real>, holdArr: seq<real>)
      requires i < |steps| && StepReady(start, c, dps, steps, i) && nodes == StoreSteps(start, c, dps, steps, i)
      modifies this`nodes
      ensures nodes == StoreSteps(start, c, dps, steps, i + 1)
      ensures LastArrays(start, c, dps, steps, i + 1, stepArr, holdArr)
    {
      stepArr, holdArr := StoreOne(c, steps[i], i);
    }

    method CopyOrClear(target: seq<real>, source: seq<real>, copy: bool) returns (r: seq<real>)
      requires copy ==> |target| <= |source|
      ensures r == TailArray(|target|, source, copy)
      ensures |r| == |target| && forall j :: 0 <= j < |r| ==> r[j] == if copy then source[j] else 0.0
    {
      r := target;
      for j := 0 to |target|
        invariant |r| == |target|
        invariant forall m :: 0 <= m < j ==> r[m] == if copy then source[m] else 0.0
      {
        r := r[j := if copy then source[j] else 0.0];
      }
    }

    method FillOne(c: SeqConfig, i: nat, copy: bool, stepArr: seq<real>, holdArr: seq<real>)
      requires StepPath(c, i) in nodes && (HasHold(c) ==> HoldPath(c, i) in nodes)
      requires copy ==> |nodes[StepPath(c, i)]| <= |stepArr|
      requires copy && HasHold(c) ==> |nodes[HoldPath(c, i)]| <= |holdArr|
      modifies this`nodes
      ensures nodes == FillSlot(old(nodes), c, i, copy, stepArr, holdArr)
    {
      var newStepArr := CopyOrClear(nodes[StepPath(c, i)], stepArr, copy);
      nodes := nodes[StepPath(c, i) := newStepArr];
      if HasHold(c) {
        var newHoldArr := CopyOrClear(nodes[HoldPath(c, i)], holdArr, copy);
        nodes := nodes[HoldPath(c, i) := newHoldArr];
      }
    }

    method StoreAll(c: SeqConfig, steps: seq<Step>) returns (delays: seq<real>, stepArr: seq<real>, holdArr: seq<real>)
      requires steps != [] && DelayPath(c) in nodes && Delayable(nodes[DelayPath(c)], c, |steps|)
      requires forall i: nat :: i < |steps| ==> StepReady(nodes, c, dps, steps, i)
      modifies this`nodes
      ensures nodes == StoreSteps(old(nodes), c, dps, steps, |steps|)
      ensures delays == Delays(old(nodes)[DelayPath(c)], steps, c.paths.amount, |steps|)
      ensures LastArrays(old(nodes), c, dps, steps, |steps|, stepArr, holdArr)
    {
      ghost var start := nodes;
      delays, stepArr, holdArr := nodes[DelayPath(c)], [], [];
      var i := 0;
      while i < |steps|
        invariant 0 <= i <= |steps|
        invariant nodes == StoreSteps(start, c, dps, steps, i)
        invariant delays == Delays(start[DelayPath(c)], steps, c.paths.amount, i)
        invariant i > 0 ==> LastArrays(start, c, dps, steps, i, stepArr, holdArr)
      {
        if i != c.paths.amount - 1 {
          delays := delays[i := steps[i].time];
        }
        stepArr, holdArr := StoreNth(start, c, steps, i);
        i := i + 1;
      }
    }

    method FillNth(ghost stored: Nodes, c: SeqConfig, from: nat, i: nat, stepArr: seq<real>, holdArr: seq<real>)
      requires Fillable(stored, c, from, stepArr, holdArr) && from <= i < c.paths.amount
      requires nodes == FillSlots(stored, c, from, i, stepArr, holdArr)
      modifies this`nodes
      ensures nodes == FillSlots(stored, c, from, i + 1, stepArr, holdArr)
    {
      FillSlotsShape(stored, c, from, i, stepArr, holdArr);
      FillOne(c, i, i == from, stepArr, holdArr);
    }

    method FillAll(c: SeqConfig, from: nat, delays0: seq<real>, stepArr: seq<real>, holdArr: seq<real>) returns (delays: seq<real>)
      requires Fillable(nodes, c, from, stepArr, holdArr)
      modifies this`nodes
      ensures nodes == FillSlots(old(nodes), c, from, c.paths.amount, stepArr, holdArr)
      ensures delays == ZeroDelays(delays0, from, c.paths.amount)
    {
      ghost var stored := nodes;
      delays := delays0;
      for i := from to c.paths.amount
        invariant nodes == FillSlots(stored, c, from, i, stepArr, holdArr)
        invariant delays == ZeroDelays(delays0, from, i)
      {
        if i < |delays| {
          delays := delays[i := 0.0];
        }
        FillNth(stored, c, from, i, stepArr, holdArr);
      }
    }

    // All steps, then the remaining slots, then the delay vector, which was read first.
    method Store(c: SeqConfig, steps: seq<Step>)
      requires Ready(nodes, c, dps, steps)
      modifies this`nodes
      ensures nodes == Load(old(nodes), c, dps, steps)
    {
      ReadyForSteps(nodes, c, dps, steps);
      ReadyToFill(nodes, c, dps, steps);
      var delays, stepArr, holdArr := StoreAll(c, steps);
      delays := FillAll(c, |steps|, delays, stepArr, holdArr);
      nodes := nodes[DelayPath(c) := delays];
    }

    // handle_cmd_load_sequence. A rejected command changes no node.
    method LoadSequence(cmd: SeqCommand) returns (r: Outcome)
      requires cmd.key in configs && Validate(configs[cmd.key].outputs, cmd.sequence, |cmd.sequence|) == Loaded ==>
                 Ready(nodes, configs[cmd.key], dps, cmd.sequence)
      modifies this
      ensures r == if cmd.key !in old(configs) then UnknownKey
                   else Validate(old(configs[cmd.key].outputs), cmd.sequence, |cmd.sequence|)
      ensures configs == Resorted(old(configs), cmd.key, cmd.sequence != [])
      ensures r == Loaded ==> nodes == Load(old(nodes), configs[cmd.key], dps, cmd.sequence)
      ensures r != Loaded ==> nodes == old(nodes)
    {
      if cmd.key !in configs {
        return UnknownKey;
      }
      ghost var c0 := configs[cmd.key];
      r := Check(cmd.key, cmd.sequence);
      if r != Loaded {
        return;
      }
      ReadyAnyOutputs(nodes, c0, dps, cmd.sequence, configs[cmd.key].outputs);
      Store(configs[cmd.key], cmd.sequence);
    }
  }
}
