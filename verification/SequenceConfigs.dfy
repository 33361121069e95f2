/** Expanding the configured sequence types into one configuration per numbered sequence. */
module SequenceConfigs {
  import opened Decimal
  import opened Sequences

  datatype SequenceType = SequenceType(kind: string, amount: nat, outputs: seq<string>, paths: SeqPaths)

  function KeyOf(t: SequenceType, i: nat): string {
    if t.amount == 1 then t.kind else t.kind + Str(i)
  }

  // The copy made for sequence i of a type; the redline trigger sequence switches the redlines.
  function Expand(t: SequenceType, i: nat, redlines: seq<string>): SeqConfig {
    SeqConfig(KeyOf(t, i), t.kind, i, t.amount,
              if KeyOf(t, i) == "redline_trigger_sequence" then redlines else t.outputs, t.paths)
  }

  // Two numbered sequences of a configuration.
  ghost predicate Numbered(types: seq<SequenceType>, a: nat, i: nat) {
    a < |types| && i < types[a].amount
  }

  // No key is used twice. Within one type this holds anyway (KeysOfOneType).
  ghost predicate NoClash(types: seq<SequenceType>) {
    forall a: nat, i: nat, b: nat, j: nat ::
      Numbered(types, a, i) && Numbered(types, b, j) && KeyOf(types[a], i) == KeyOf(types[b], j) ==> a == b && i == j
  }

  lemma KeysOfOneType(t: SequenceType, i: nat, j: nat)
    requires i < t.amount && j < t.amount && KeyOf(t, i) == KeyOf(t, j)
    ensures i == j
  {
    if t.amount != 1 { NumberedInjective(t.kind, i, j); }
  }

  // Sequence (a, i) comes before position (b, n) of the two nested loops.
  predicate Earlier(a: nat, i: nat, b: nat, n: nat) { a < b || (a == b && i < n) }

  // copy is made for sequence i of type t: its fields in full.
  predicate CopyOf(copy: SeqConfig, t: SequenceType, i: nat, redlines: seq<string>) {
    && copy.key == (if t.amount == 1 then t.kind else t.kind + Str(i))
    && copy.kind == t.kind && copy.index == i && copy.amount == t.amount && copy.paths == t.paths
    && copy.outputs == if copy.key == "redline_trigger_sequence" then redlines else t.outputs
  }

  // Among the sequences before position (b, n), (a, i) is the last with this key.
  ghost predicate LastWith(types: seq<SequenceType>, key: string, a: nat, i: nat, b: nat, n: nat) {
    && Numbered(types, a, i) && Earlier(a, i, b, n) && KeyOf(types[a], i) == key
    && forall a2: nat, i2: nat :: Numbered(types, a2, i2) && Earlier(a2, i2, b, n) && Earlier(a, i, a2, i2) ==> KeyOf(types[a2], i2) != key
  }

  // What the configurations hold under a key.
  ghost predicate ConfigFor(configs: map<string, SeqConfig>, types: seq<SequenceType>, redlines: seq<string>, b: nat, n: nat, key: string)
    requires key in configs
  {
    exists a: nat, i: nat ::
      LastWith(types, key, a, i, b, n) && configs[key].key == key && CopyOf(configs[key], types[a], i, redlines)
  }

  // Every key seen so far has a configuration, made for the last sequence with that key.
  ghost predicate Expanded(configs: map<string, SeqConfig>, types: seq<SequenceType>, redlines: seq<string>, b: nat, n: nat) {
    && (forall a: nat, i: nat :: Numbered(types, a, i) && Earlier(a, i, b, n) ==> KeyOf(types[a], i) in configs)
    && (forall key <- configs :: ConfigFor(configs, types, redlines, b, n, key))
  }

  lemma LastStays(types: seq<SequenceType>, key: string, a: nat, i: nat, b: nat, n: nat)
    requires Numbered(types, b, n) && LastWith(types, key, a, i, b, n) && KeyOf(types[b], n) != key
    ensures LastWith(types, key, a, i, b, n + 1)
  {
  }

  lemma LastIsNew(types: seq<SequenceType>, b: nat, n: nat)
    requires Numbered(types, b, n)
    ensures LastWith(types, KeyOf(types[b], n), b, n, b, n + 1)
  {
  }

  lemma ExpandCopies(t: SequenceType, i: nat, redlines: seq<string>)
    ensures CopyOf(Expand(t, i, redlines), t, i, redlines) && Expand(t, i, redlines).key == KeyOf(t, i)
  {
  }

  lemma AddOne(configs: map<string, SeqConfig>, types: seq<SequenceType>, redlines: seq<string>, b: nat, n: nat)
    requires Numbered(types, b, n) && Expanded(configs, types, redlines, b, n)
    ensures var c := Expand(types[b], n, redlines); Expanded(configs[c.key := c], types, redlines, b, n + 1)
  {
    var c := Expand(types[b], n, redlines);
    var now := configs[c.key := c];
    ExpandCopies(types[b], n, redlines);
    forall key | key in now ensures ConfigFor(now, types, redlines, b, n + 1, key) {
      if key == c.key {
        LastIsNew(types, b, n);
      } else {
        assert ConfigFor(configs, types, redlines, b, n, key);
        var a: nat, i: nat :| LastWith(types, key, a, i, b, n) && configs[key].key == key && CopyOf(configs[key], types[a], i, redlines);
        LastStays(types, key, a, i, b, n);
      }
    }
  }

  lemma SamePosition(types: seq<SequenceType>, key: string, a: nat, i: nat, b: nat)
    requires b < |types| && LastWith(types, key, a, i, b, types[b].amount)
    ensures LastWith(types, key, a, i, b + 1, 0)
  {
  }

  lemma NextType(configs: map<string, SeqConfig>, types: seq<SequenceType>, redlines: seq<string>, b: nat)
    requires b < |types| && Expanded(configs, types, redlines, b, types[b].amount)
    ensures Expanded(configs, types, redlines, b + 1, 0)
  {
    forall key | key in configs ensures ConfigFor(configs, types, redlines, b + 1, 0, key) {
      assert ConfigFor(configs, types, redlines, b, types[b].amount, key);
      var a: nat, i: nat :| LastWith(types, key, a, i, b, types[b].amount) && configs[key].key == key && CopyOf(configs[key], types[a], i, redlines);
      SamePosition(types, key, a, i, b);
    }
  }

  // Without clashes the last sequence with a key is the only one.
  lemma OnlyOne(configs: map<string, SeqConfig>, types: seq<SequenceType>, redlines: seq<string>, a: nat, i: nat)
    requires NoClash(types) && Expanded(configs, types, redlines, |types|, 0) && Numbered(types, a, i)
    ensures KeyOf(types[a], i) in configs && CopyOf(configs[KeyOf(types[a], i)], types[a], i, redlines)
  {
    assert Earlier(a, i, |types|, 0);
    var key := KeyOf(types[a], i);
    assert ConfigFor(configs, types, redlines, |types|, 0, key);
    var b: nat, j: nat :| LastWith(types, key, b, j, |types|, 0) && configs[key].key == key && CopyOf(configs[key], types[b], j, redlines);
    assert a == b && i == j;
  }

  // Every key has the configuration of the last sequence with that key; without clashes every
  // numbered sequence has its own.
  method GetSequenceConfigs(types: seq<SequenceType>, redlines: seq<string>) returns (configs: map<string, SeqConfig>)
    ensures Expanded(configs, types, redlines, |types|, 0)
    ensures NoClash(types) ==> forall a: nat, i: nat :: Numbered(types, a, i) ==>
              KeyOf(types[a], i) in configs && CopyOf(configs[KeyOf(types[a], i)], types[a], i, redlines)
  {
    configs := map[];
    for b := 0 to |types|
      invariant Expanded(configs, types, redlines, b, 0)
    {
      for n := 0 to types[b].amount
        invariant Expanded(configs, types, redlines, b, n)
      {
        AddOne(configs, types, redlines, b, n);
        var copy := Expand(types[b], n, redlines);
        configs := configs[copy.key := copy];
      }
      NextType(configs, types, redlines, b);
    }
    if NoClash(types) {
      forall a: nat, i: nat | Numbered(types, a, i)
        ensures KeyOf(types[a], i) in configs && CopyOf(configs[KeyOf(types[a], i)], types[a], i, redlines)
      {
        OnlyOne(configs, types, redlines, a, i);
      }
    }
  }
}
