/** The gossip table: one value for each label, and of two values the newer one wins. */
module Crds {
  import opened Common

  /** `kind` and `owner` make up the label of a value; `payload` is the rest of it. */
  datatype Label = Label(kind: nat, owner: Pubkey)
  datatype CrdsValue = CrdsValue(key: Label, wallclock: nat, payload: nat)

  datatype VersionedCrdsValue = VersionedCrdsValue(
    value: CrdsValue, insertTimestamp: nat, localTimestamp: nat, valueHash: nat)

  type Table = map<Label, VersionedCrdsValue>

  datatype InsertResult = Inserted(previous: Option<VersionedCrdsValue>) | InsertFailed

  /** Versions compare by wallclock and then by hash, and only under one label. */
  predicate Newer(a: VersionedCrdsValue, b: VersionedCrdsValue) {
    && a.value.key == b.value.key
    && (a.value.wallclock > b.value.wallclock || (a.value.wallclock == b.value.wallclock && a.valueHash > b.valueHash))
  }

  datatype Operation =
    | Put(v: VersionedCrdsValue)
    | Touch(key: Label, now: nat)

  /** What an operation does to the table. */
  function Apply(t: Table, op: Operation): Table {
    match op
    case Put(v) => if v.value.key !in t || Newer(v, t[v.value.key]) then t[v.value.key := v] else t
    case Touch(key, now) =>
      if key in t then t[key := t[key].(localTimestamp := Max(t[key].localTimestamp, now))] else t
  }

  function ApplyAll(ops: seq<Operation>): Table {
    if ops == [] then map[] else Apply(ApplyAll(ops[..|ops| - 1]), ops[|ops| - 1])
  }

  class Crds {
    var table: Table
    const hashOf: CrdsValue -> nat

    constructor (hashOf: CrdsValue -> nat)
      ensures this.hashOf == hashOf && table == map[]
    {
      this.hashOf := hashOf;
      table := map[];
    }

    /** Stores the value unless the one that is there is as new. */
    method InsertVersioned(v: VersionedCrdsValue) returns (r: InsertResult)
      modifies this
      ensures table == Apply(old(table), Put(v))
      ensures var key := v.value.key;
              var previous := if key in old(table) then Some(old(table)[key]) else None;
              var wins := previous.None? ||
                          (previous.value.value.key == key &&
                           (v.value.wallclock > previous.value.value.wallclock ||
                            (v.value.wallclock == previous.value.value.wallclock &&
                             v.valueHash > previous.value.valueHash)));
              && table == (if wins then old(table)[key := v] else old(table))
              && r == if wins then Inserted(previous) else InsertFailed
    {
      var key := v.value.key;
      var previous := if key in table then Some(table[key]) else None;
      var doInsert := previous.None? || Newer(v, previous.value);
      if doInsert {
        table := table[key := v];
        r := Inserted(previous);
      } else {
        r := InsertFailed;
      }
    }

    method Insert(value: CrdsValue, now: nat) returns (r: InsertResult)
      modifies this
      ensures table == Apply(old(table), Put(VersionedCrdsValue(value, now, now, hashOf(value))))
      ensures var previous := if value.key in old(table) then Some(old(table)[value.key]) else None;
              var wins := previous.None? ||
                          (previous.value.value.key == value.key &&
                           (value.wallclock > previous.value.value.wallclock ||
                            (value.wallclock == previous.value.value.wallclock &&
                             hashOf(value) > previous.value.valueHash)));
              && table == (if wins then old(table)[value.key := VersionedCrdsValue(value, now, now, hashOf(value))]
                           else old(table))
              && r == if wins then Inserted(previous) else InsertFailed
    {
      r := InsertVersioned(VersionedCrdsValue(value, now, now, hashOf(value)));
    }

    method UpdateLabelTimestamp(key: Label, now: nat)
      modifies this
      ensures table == Apply(old(table), Touch(key, now))
      ensures table.Keys == old(table).Keys
      ensures forall k :: k in table ==>
                && table[k].value == old(table)[k].value && table[k].valueHash == old(table)[k].valueHash
                && table[k].insertTimestamp == old(table)[k].insertTimestamp
                && table[k].localTimestamp == if k == key && old(table)[k].localTimestamp < now then now
                                              else old(table)[k].localTimestamp
    {
      if key in table {
        table := table[key := table[key].(localTimestamp := Max(table[key].localTimestamp, now))];
      }
    }
  }

  // ---- Whole runs ----

  ghost predicate Received(ops: seq<Operation>, key: Label, v: VersionedCrdsValue) {
    exists i :: 0 <= i < |ops| && ops[i] == Put(v) && v.value.key == key
  }

  ghost predicate SameVersion(a: VersionedCrdsValue, b: VersionedCrdsValue) {
    a.value == b.value && a.valueHash == b.valueHash
  }

  /** The entry of `key` is a received value, and no received value is newer. */
  ghost predicate HoldsNewest(ops: seq<Operation>, t: Table, key: Label) {
    && (key in t ==> exists v :: Received(ops, key, v) && SameVersion(v, t[key]))
    && (forall v :: Received(ops, key, v) ==> key in t && !Newer(v, t[key]))
  }

  lemma ReceivedSnoc(ops: seq<Operation>, key: Label, v: VersionedCrdsValue)
    requires ops != []
    ensures Received(ops, key, v) <==>
              Received(ops[..|ops| - 1], key, v) || (ops[|ops| - 1] == Put(v) && v.value.key == key)
  {
    if Received(ops[..|ops| - 1], key, v) {
      var i :| 0 <= i < |ops| - 1 && ops[..|ops| - 1][i] == Put(v);
      assert ops[i] == Put(v);
    }
    if Received(ops, key, v) {
      var i :| 0 <= i < |ops| && ops[i] == Put(v);
      assert i < |ops| - 1 ==> ops[..|ops| - 1][i] == Put(v);
    }
  }

  /** After any operations without removals, the table holds the newest value received under each label. */
  lemma {:induction false} TableHoldsNewest(ops: seq<Operation>, key: Label)
    ensures HoldsNewest(ops, ApplyAll(ops), key)
    ensures key in ApplyAll(ops) ==> ApplyAll(ops)[key].value.key == key
    ensures forall v :: Received(ops, key, v) ==>
              && key in ApplyAll(ops)
              && v.value.wallclock <= ApplyAll(ops)[key].value.wallclock
              && (v.value.wallclock == ApplyAll(ops)[key].value.wallclock ==>
                    v.valueHash <= ApplyAll(ops)[key].valueHash)
  {
    if ops != [] {
      var front, op := ops[..|ops| - 1], ops[|ops| - 1];
      var before, after := ApplyAll(front), ApplyAll(ops);
      TableHoldsNewest(front, key);
      forall v ensures Received(ops, key, v) <==> Received(front, key, v) || (op == Put(v) && v.value.key == key) {
        ReceivedSnoc(ops, key, v);
      }
      if key in before {
        var v :| Received(front, key, v) && SameVersion(v, before[key]);
        assert key in after;
        if after[key].value == before[key].value && after[key].valueHash == before[key].valueHash {
          assert Received(ops, key, v) && SameVersion(v, after[key]);
        } else {
          assert Received(ops, key, op.v) && SameVersion(op.v, after[key]);
        }
      } else if key in after {
        assert Received(ops, key, op.v) && SameVersion(op.v, after[key]);
      }
    }
  }

  /** A stored version never goes down and never goes away. */
  lemma VersionsNeverGoDown(t: Table, op: Operation, key: Label)
    requires key in t && t[key].value.key == key
    ensures key in Apply(t, op)
    ensures SameVersion(Apply(t, op)[key], t[key]) || Newer(Apply(t, op)[key], t[key])
    ensures t[key].value.wallclock <= Apply(t, op)[key].value.wallclock
    ensures t[key].value.wallclock == Apply(t, op)[key].value.wallclock ==>
              t[key].valueHash <= Apply(t, op)[key].valueHash
  {
  }

  ghost predicate SameRank(a: VersionedCrdsValue, b: VersionedCrdsValue) {
    a.value.wallclock == b.value.wallclock && a.valueHash == b.valueHash
  }

  /** Different values under one label and wallclock have different hashes. */
  ghost predicate HashSeparates(ops: seq<Operation>) {
    forall key, a, b ::
      (Received(ops, key, a) && Received(ops, key, b) && SameRank(a, b)) ==> a.value == b.value
  }

  /** Whatever was received in one run was received in the other, at whatever local time. */
  ghost predicate Subsumes(a: seq<Operation>, b: seq<Operation>) {
    forall key, v :: SubsumesAt(a, b, key, v)
  }

  ghost predicate SubsumesAt(a: seq<Operation>, b: seq<Operation>, key: Label, v: VersionedCrdsValue) {
    Received(a, key, v) ==> exists w :: Received(b, key, w) && SameVersion(v, w)
  }

  lemma StoredIsNotNewer(a: seq<Operation>, b: seq<Operation>, key: Label)
    returns (v: VersionedCrdsValue, w: VersionedCrdsValue)
    requires Subsumes(a, b) && key in ApplyAll(a)
    ensures key in ApplyAll(b) && !Newer(w, ApplyAll(b)[key])
    ensures Received(a, key, v) && Received(b, key, w) && SameVersion(v, w) && SameVersion(v, ApplyAll(a)[key])
  {
    TableHoldsNewest(a, key);
    TableHoldsNewest(b, key);
    v :| Received(a, key, v) && SameVersion(v, ApplyAll(a)[key]);
    assert SubsumesAt(a, b, key, v);
    w :| Received(b, key, w) && SameVersion(v, w);
  }

  /** Nodes that received the same values, in any order and with repetitions, store the same ones. */
  lemma TablesAgree(a: seq<Operation>, b: seq<Operation>, key: Label)
    requires Subsumes(a, b) && Subsumes(b, a) && HashSeparates(a)
    ensures key in ApplyAll(a) <==> key in ApplyAll(b)
    ensures key in ApplyAll(a) ==> SameVersion(ApplyAll(a)[key], ApplyAll(b)[key])
  {
    if key in ApplyAll(a) {
      var v, _ := StoredIsNotNewer(a, b, key);
    }
    if key in ApplyAll(b) {
      var _, w := StoredIsNotNewer(b, a, key);
    }
  }

  // ---- Tables that are fed by gossip ----

  datatype Message = Value(value: CrdsValue, now: nat) | Heard(key: Label, now: nat)

  ghost function OperationsOf(hashOf: CrdsValue -> nat, messages: seq<Message>): seq<Operation> {
    seq(|messages|, i requires 0 <= i < |messages| => OperationOf(hashOf, messages[i]))
  }

  ghost function OperationOf(hashOf: CrdsValue -> nat, m: Message): Operation {
    match m
    case Value(value, now) => Put(VersionedCrdsValue(value, now, now, hashOf(value)))
    case Heard(key, now) => Touch(key, now)
  }

  /** A new table that everything heard is put into, in its order. */
  method Feed(hashOf: CrdsValue -> nat, messages: seq<Message>) returns (crds: Crds)
    ensures fresh(crds) && crds.hashOf == hashOf && crds.table == ApplyAll(OperationsOf(hashOf, messages))
  {
    crds := new Crds(hashOf);
    ghost var ops := OperationsOf(hashOf, messages);
    for i := 0 to |messages|
      invariant fresh(crds) && crds.hashOf == hashOf && crds.table == ApplyAll(ops[..i])
    {
      assert ops[..i + 1][..i] == ops[..i];
      match messages[i]
      case Value(value, now) =>
        var _ := crds.Insert(value, now);
      case Heard(key, now) =>
        crds.UpdateLabelTimestamp(key, now);
    }
    assert ops[..|messages|] == ops;
  }

  ghost predicate Injective(hashOf: CrdsValue -> nat) {
    forall a, b :: hashOf(a) == hashOf(b) ==> a == b
  }

  ghost predicate Known(messages: seq<Message>, value: CrdsValue) {
    exists i :: 0 <= i < |messages| && messages[i].Value? && messages[i].value == value
  }

  ghost predicate SameValues(a: seq<Message>, b: seq<Message>) {
    forall value :: Known(a, value) <==> Known(b, value)
  }

  lemma ReceivedIsHeard(hashOf: CrdsValue -> nat, messages: seq<Message>, key: Label, v: VersionedCrdsValue)
    requires Received(OperationsOf(hashOf, messages), key, v)
    ensures Known(messages, v.value) && v.value.key == key && v.valueHash == hashOf(v.value)
  {
    var ops := OperationsOf(hashOf, messages);
    var i :| 0 <= i < |ops| && ops[i] == Put(v) && v.value.key == key;
    assert messages[i].Value? && messages[i].value == v.value;
  }

  lemma HeardIsReceived(hashOf: CrdsValue -> nat, messages: seq<Message>, value: CrdsValue)
    returns (v: VersionedCrdsValue)
    requires Known(messages, value)
    ensures Received(OperationsOf(hashOf, messages), value.key, v) && v.value == value && v.valueHash == hashOf(value)
  {
    var i :| 0 <= i < |messages| && messages[i].Value? && messages[i].value == value;
    v := VersionedCrdsValue(value, messages[i].now, messages[i].now, hashOf(value));
    assert OperationsOf(hashOf, messages)[i] == Put(v);
  }

  lemma InjectiveSeparates(hashOf: CrdsValue -> nat, messages: seq<Message>)
    requires Injective(hashOf)
    ensures HashSeparates(OperationsOf(hashOf, messages))
  {
    var ops := OperationsOf(hashOf, messages);
    forall key, a, b | Received(ops, key, a) && Received(ops, key, b) && SameRank(a, b) ensures a.value == b.value {
      ReceivedIsHeard(hashOf, messages, key, a);
      ReceivedIsHeard(hashOf, messages, key, b);
    }
  }

  lemma SameValuesSubsume(hashOf: CrdsValue -> nat, a: seq<Message>, b: seq<Message>)
    requires SameValues(a, b)
    ensures Subsumes(OperationsOf(hashOf, a), OperationsOf(hashOf, b))
  {
    var x, y := OperationsOf(hashOf, a), OperationsOf(hashOf, b);
    forall key, v ensures SubsumesAt(x, y, key, v) {
      if Received(x, key, v) {
        ReceivedIsHeard(hashOf, a, key, v);
        var w := HeardIsReceived(hashOf, b, v.value);
      }
    }
  }

  /** Two nodes that heard the same values, each in its own order and at its own times, end with the same table. */
  method Converge(hashOf: CrdsValue -> nat, a: seq<Message>, b: seq<Message>) returns (one: Crds, other: Crds)
    requires Injective(hashOf) && SameValues(a, b)
    ensures one.table.Keys == other.table.Keys
    ensures forall key :: key in one.table ==> SameVersion(one.table[key], other.table[key])
  {
    one := Feed(hashOf, a);
    other := Feed(hashOf, b);
    InjectiveSeparates(hashOf, a);
    SameValuesSubsume(hashOf, a, b);
    SameValuesSubsume(hashOf, b, a);
    forall key
      ensures key in one.table <==> key in other.table
      ensures key in one.table ==> SameVersion(one.table[key], other.table[key])
    {
      TablesAgree(OperationsOf(hashOf, a), OperationsOf(hashOf, b), key);
    }
  }
}
