/** A load and a download cell by cell, in terms of the configuration's own fields: which node and
    cell belong to a slot and an output, and what is in it afterwards. */
module SequenceCells {
  import opened Options
  import opened Opcua
  import opened Decimal
  import opened Sequences
  import opened SequenceRoundTrip
  import opened SequenceTheorems

  // The node of slot i: numbers are printed from 1 on, the sequence's own only if there are several.
  function SlotText(c: SeqConfig, base: string, state: string, i: nat): string {
    base + (if c.amount > 1 then Str(c.index + 1) else "") + state
         + (if c.amount > 1 then Str(c.index + 1) + "_" else "") + Str(i + 1)
  }

  function DelayText(c: SeqConfig): string { c.paths.delayVector + if c.amount > 1 then Str(c.index + 1) else "" }

  // The nodes of a slot are those of the printed paths.
  lemma PathTexts(c: SeqConfig, i: nat)
    ensures DelayPath(c) == DelayText(c)
    ensures StepPath(c, i) == SlotText(c, c.paths.step, c.paths.stepState, i)
    ensures HasHold(c) ==> HoldPath(c, i) == SlotText(c, c.paths.holdStep.value, c.paths.holdState.value, i)
  {
    Printed(c, c.paths.step, c.paths.stepState, i);
    if HasHold(c) { Printed(c, c.paths.holdStep.value, c.paths.holdState.value, i); }
    assert c.paths.delayVector + "" == c.paths.delayVector;
  }

  lemma Printed(c: SeqConfig, base: string, state: string, i: nat)
    ensures SlotPath(c, base, state, i) == SlotText(c, base, state, i)
  {
    if c.amount > 1 {
      var k := Str(c.index + 1);
      assert base + k + state + k + "_" + Str(i + 1) == base + k + state + (k + "_") + Str(i + 1);
    } else {
      assert base + "" + state + "" + Str(i + 1) == base + state + Str(i + 1);
    }
  }

  // Output key addresses cell j; the redline trigger sequence uses the redlines' index.
  predicate Addresses(c: SeqConfig, dps: map<string, Datapoint>, key: string, j: nat) {
    key in dps &&
    if c.key == "redline_trigger_sequence" then dps[key].redlines.Some? && dps[key].redlines.value.index == j
    else dps[key].index == Some(j)
  }

  // A value that is stored: 0 and 1, and 2 for a valve to be held.
  predicate Storable(c: SeqConfig, v: int) {
    v == 0 || v == 1 || (v == 2 && c.paths.holdStep.Some? && c.paths.holdState.Some?)
  }

  // Output a is the last of the first n to store a value in cell j.
  ghost predicate Decides(c: SeqConfig, dps: map<string, Datapoint>, outs: seq<Assignment>, n: nat, a: nat, j: nat) {
    && a < n <= |outs|
    && Addresses(c, dps, outs[a].key, j) && Storable(c, outs[a].value)
    && forall b :: a < b < n ==> !(Addresses(c, dps, outs[b].key, j) && Storable(c, outs[b].value))
  }

  ghost predicate Untouched(c: SeqConfig, dps: map<string, Datapoint>, outs: seq<Assignment>, n: nat, j: nat)
    requires n <= |outs|
  {
    forall b :: 0 <= b < n ==> !(Addresses(c, dps, outs[b].key, j) && Storable(c, outs[b].value))
  }

  lemma AddressIs(c: SeqConfig, dps: map<string, Datapoint>, key: string, j: nat)
    ensures Addresses(c, dps, key, j) <==> OutIndex(c, dps, key) == Some(j)
  {
  }

  lemma {:induction false} DecidedCell(s: seq<real>, h: seq<real>, c: SeqConfig, dps: map<string, Datapoint>,
                                       outs: seq<Assignment>, n: nat, a: nat, j: nat)
    requires Decides(c, dps, outs, n, a, j) && j < |s|
    ensures StepArray(s, c, dps, outs, n)[j] == if outs[a].value == 1 then 1.0 else 0.0
    ensures HasHold(c) && j < |h| ==> HoldArray(h, c, dps, outs, n)[j] == if outs[a].value == 2 then 1.0 else 0.0
  {
    AddressIs(c, dps, outs[n - 1].key, j);
    if a == n - 1 {
    } else {
      DecidedCell(s, h, c, dps, outs, n - 1, a, j);
    }
  }

  lemma {:induction false} UntouchedCell(s: seq<real>, h: seq<real>, c: SeqConfig, dps: map<string, Datapoint>,
                                         outs: seq<Assignment>, n: nat, j: nat)
    requires n <= |outs| && Untouched(c, dps, outs, n, j) && j < |s|
    ensures StepArray(s, c, dps, outs, n)[j] == s[j]
    ensures HasHold(c) && j < |h| ==> HoldArray(h, c, dps, outs, n)[j] == h[j]
  {
    if n == 0 {
    } else {
      AddressIs(c, dps, outs[n - 1].key, j);
      UntouchedCell(s, h, c, dps, outs, n - 1, j);
    }
  }

  // ----- after a load -----

  // A commanded slot: the last output that stores a value in cell j decides the cell, and the hold
  // array's cell with it; a cell in which none does stays as it was.
  lemma {:induction false} CommandedCell(nodes: Nodes, c: SeqConfig, dps: map<string, Datapoint>, steps: seq<Step>, i: nat, a: nat, j: nat)
    requires PathsApart(c.paths) && i < |steps| <= c.paths.amount
    requires Decides(c, dps, steps[i].outputs, |steps[i].outputs|, a, j)
    ensures var now, v := Load(nodes, c, dps, steps), steps[i].outputs[a].value;
            && (j < |Read(nodes, StepPath(c, i))| ==>
                  && j < |Read(now, StepPath(c, i))|
                  && Read(now, StepPath(c, i))[j] == if v == 1 then 1.0 else 0.0)
            && (HasHold(c) && j < |Read(nodes, HoldPath(c, i))| && j < |Read(nodes, StepPath(c, i))| ==>
                  && j < |Read(now, HoldPath(c, i))|
                  && Read(now, HoldPath(c, i))[j] == if v == 2 then 1.0 else 0.0)
  {
    ApartIsSeparate(c);
    LoadAt(nodes, c, dps, steps, i);
    var s, h := Read(nodes, StepPath(c, i)), if HasHold(c) then Read(nodes, HoldPath(c, i)) else [];
    if j < |s| { DecidedCell(s, h, c, dps, steps[i].outputs, |steps[i].outputs|, a, j); }
  }

  lemma {:induction false} OtherCell(nodes: Nodes, c: SeqConfig, dps: map<string, Datapoint>, steps: seq<Step>, i: nat, j: nat)
    requires PathsApart(c.paths) && i < |steps| <= c.paths.amount
    requires Untouched(c, dps, steps[i].outputs, |steps[i].outputs|, j) && j < |Read(nodes, StepPath(c, i))|
    ensures var now := Load(nodes, c, dps, steps);
            && j < |Read(now, StepPath(c, i))| && Read(now, StepPath(c, i))[j] == Read(nodes, StepPath(c, i))[j]
            && (HasHold(c) && j < |Read(nodes, HoldPath(c, i))| ==>
                  && j < |Read(now, HoldPath(c, i))|
                  && Read(now, HoldPath(c, i))[j] == Read(nodes, HoldPath(c, i))[j])
  {
    ApartIsSeparate(c);
    LoadAt(nodes, c, dps, steps, i);
    var s, h := Read(nodes, StepPath(c, i)), if HasHold(c) then Read(nodes, HoldPath(c, i)) else [];
    UntouchedCell(s, h, c, dps, steps[i].outputs, |steps[i].outputs|, j);
  }

  // A tail array repeats its source, or is all zeros.
  lemma TailCell(n: nat, source: seq<real>, copy: bool, j: nat)
    requires j < n && (copy ==> n <= |source|)
    ensures TailArray(n, source, copy)[j] == if copy then source[j] else 0.0
  {
  }

  // The slots after the commanded ones: the first repeats the last commanded slot, all valves are
  // closed and none is held in the others, and the arrays keep their sizes.
  lemma {:induction false} RemainingSlots(nodes: Nodes, c: SeqConfig, dps: map<string, Datapoint>, steps: seq<Step>, i: nat, j: nat)
    requires PathsApart(c.paths) && Ready(nodes, c, dps, steps) && |steps| <= i < c.paths.amount
    requires j < |Read(nodes, StepPath(c, i))|
    ensures var now, n := Load(nodes, c, dps, steps), |steps|;
            && j < |Read(now, StepPath(c, i))|
            && (i == n ==> j < |Read(now, StepPath(c, n - 1))| && Read(now, StepPath(c, i))[j] == Read(now, StepPath(c, n - 1))[j])
            && (i > n ==> Read(now, StepPath(c, i))[j] == 0.0)
  {
    ApartIsSeparate(c);
    LoadAt(nodes, c, dps, steps, i);
    LoadAt(nodes, c, dps, steps, |steps| - 1);
    TailCell(|Read(nodes, StepPath(c, i))|, StoredStep(nodes, c, dps, steps[|steps| - 1], |steps| - 1), i == |steps|, j);
  }

  // The same for the hold arrays.
  lemma {:induction false} RemainingHolds(nodes: Nodes, c: SeqConfig, dps: map<string, Datapoint>, steps: seq<Step>, i: nat, j: nat)
    requires PathsApart(c.paths) && Ready(nodes, c, dps, steps) && |steps| <= i < c.paths.amount
    requires HasHold(c) && j < |Read(nodes, HoldPath(c, i))|
    ensures var now, n := Load(nodes, c, dps, steps), |steps|;
            && j < |Read(now, HoldPath(c, i))|
            && (i == n ==> j < |Read(now, HoldPath(c, n - 1))| && Read(now, HoldPath(c, i))[j] == Read(now, HoldPath(c, n - 1))[j])
            && (i > n ==> Read(now, HoldPath(c, i))[j] == 0.0)
  {
    ApartIsSeparate(c);
    LoadAt(nodes, c, dps, steps, i);
    LoadAt(nodes, c, dps, steps, |steps| - 1);
    TailCell(|Read(nodes, HoldPath(c, i))|, StoredHold(nodes, c, dps, steps[|steps| - 1], |steps| - 1), i == |steps|, j);
  }

  // The delay vector: the durations of the commanded slots but the very last one, zeros for the
  // remaining slots, and its old content elsewhere.
  lemma {:induction false} DelayCell(nodes: Nodes, c: SeqConfig, dps: map<string, Datapoint>, steps: seq<Step>, j: nat)
    requires PathsApart(c.paths) && 0 < |steps| <= c.paths.amount && j < |Read(nodes, DelayPath(c))|
    ensures var now, before := Read(Load(nodes, c, dps, steps), DelayPath(c)), Read(nodes, DelayPath(c));
            && |now| == |before|
            && now[j] == if j < |steps| && j != c.paths.amount - 1 then steps[j].time
                         else if |steps| <= j < c.paths.amount then 0.0
                         else before[j]
  {
    ApartIsSeparate(c);
    LoadAt(nodes, c, dps, steps, 0);
    FinalDelayCells(Read(nodes, DelayPath(c)), steps, c.paths.amount);
  }

  // ----- what a download reports -----

  // Whatever the arrays hold: a held valve is reported as 2 if its state is 0, any other output as
  // its state, and no other key is reported.
  lemma {:induction false} ReportedOutput(nodes: Nodes, c: SeqConfig, dps: map<string, Datapoint>, i: nat, key: string, j: nat)
    requires Readable(nodes, c, dps, i)
    ensures key in DownSlot(nodes, c, dps, i) <==> key in c.outputs
    ensures key in c.outputs && Addresses(c, dps, key, j) ==>
              var s := Read(nodes, StepPath(c, i));
              && j < |s|
              && (HasHold(c) ==> j < |Read(nodes, HoldPath(c, i))|)
              && DownSlot(nodes, c, dps, i)[key] == if HasHold(c) && Read(nodes, HoldPath(c, i))[j] == 1.0 && s[j] == 0.0 then 2.0 else s[j]
  {
    var s, h := Read(nodes, StepPath(c, i)), if HasHold(c) then Read(nodes, HoldPath(c, i)) else [];
    DownOutputsAt(c, dps, s, h, |c.outputs|);
    assert c.outputs[..|c.outputs|] == c.outputs;
    AddressIs(c, dps, key, j);
  }

  // ----- validation -----

  // A command is accepted if and only if every step names exactly the configured outputs and lasts
  // longer than 0;
  lemma {:induction false} AcceptedIff(outputs: seq<string>, steps: seq<Step>, n: nat)
    requires n <= |steps|
    ensures Validate(outputs, steps, n) == Loaded <==>
            forall i :: 0 <= i < n ==> multiset(Keys(steps[i])) == multiset(outputs) && steps[i].time > 0.0
  {
    if n == 0 {
    } else {
      AcceptedIff(outputs, steps, n - 1);
    }
  }

  // otherwise the first step that does not decides, its outputs before its duration.
  lemma {:induction false} FirstOffender(outputs: seq<string>, steps: seq<Step>, n: nat) returns (i: nat)
    requires n <= |steps| && Validate(outputs, steps, n) != Loaded
    ensures i < n && Validate(outputs, steps, i) == Loaded
    ensures Validate(outputs, steps, n) ==
            if multiset(Keys(steps[i])) != multiset(outputs) then OutputMismatch else BadDuration
    ensures multiset(Keys(steps[i])) == multiset(outputs) ==> steps[i].time <= 0.0
  {
    if Validate(outputs, steps, n - 1) == Loaded {
      i := n - 1;
    } else {
      i := FirstOffender(outputs, steps, n - 1);
    }
  }
}
