/** The sequence of server records that the configuration file holds, and what the store does to it. */
module ConfigRecords {
  import opened Wrappers
  import opened JsonValues

  datatype Rec = Rec(id: string, fields: Args)

  type Recs = seq<Rec>

  predicate DistinctIds(recs: Recs) {
    forall i, j :: 0 <= i < j < |recs| ==> recs[i].id != recs[j].id
  }

  /** The index of the first record with an id, or the length. */
  function IndexOf(recs: Recs, id: string): (i: nat)
    ensures i <= |recs|
    ensures i < |recs| ==> recs[i].id == id
    ensures forall k :: 0 <= k < i ==> recs[k].id != id
  {
    if recs == [] || recs[0].id == id then 0 else 1 + IndexOf(recs[1..], id)
  }

  predicate HasId(recs: Recs, id: string) {
    IndexOf(recs, id) < |recs|
  }

  function Find(recs: Recs, id: string): Option<Rec> {
    if HasId(recs, id) then Some(recs[IndexOf(recs, id)]) else None
  }

  function Without(recs: Recs, id: string): Recs {
    if recs == [] then []
    else if recs[0].id != id then [recs[0]] + Without(recs[1..], id)
    else Without(recs[1..], id)
  }

  datatype Op =
    | Add(rec: Rec)
    | Remove(id: string)
    | Update(id: string, rec: Rec)
    | UpdateFields(id: string, changes: Args)

  /** A single-record change: the fields it names, and no others. */
  function Changed(r: Rec, changes: Args): Rec {
    r.(fields := r.fields + changes)
  }

  /** The file after an operation; one that raises leaves it alone. */
  function Step(recs: Recs, op: Op): Recs {
    match op
    case Add(r) => if HasId(recs, r.id) then recs else recs + [r]
    case Remove(id) => Without(recs, id)
    case Update(id, r) => if r.id == id && HasId(recs, id) then recs[IndexOf(recs, id) := r] else recs
    case UpdateFields(id, changes) =>
      if HasId(recs, id) then recs[IndexOf(recs, id) := Changed(recs[IndexOf(recs, id)], changes)] else recs
  }

  function After(recs: Recs, ops: seq<Op>): Recs {
    if ops == [] then recs else Step(After(recs, ops[..|ops| - 1]), ops[|ops| - 1])
  }

  lemma {:induction false} WithoutKeeps(recs: Recs, id: string)
    requires DistinctIds(recs)
    ensures DistinctIds(Without(recs, id))
    ensures forall r :: r in Without(recs, id) <==> r in recs && r.id != id
  {
    if recs != [] {
      WithoutKeeps(recs[1..], id);
      assert recs == [recs[0]] + recs[1..];
      forall r | r in recs[1..] ensures r.id != recs[0].id {
      }
    }
  }

  lemma {:induction false} WithoutSnoc(recs: Recs, r: Rec, id: string)
    ensures Without(recs + [r], id) == if r.id != id then Without(recs, id) + [r] else Without(recs, id)
  {
    if recs == [] {
      assert [] + [r] == [r] && [r][1..] == [];
    } else {
      WithoutSnoc(recs[1..], r, id);
      assert (recs + [r])[1..] == recs[1..] + [r];
    }
  }

  /** Removing leaves the length alone exactly when there was nothing to remove. */
  lemma {:induction false} WithoutLength(recs: Recs, id: string)
    ensures |Without(recs, id)| <= |recs|
    ensures |Without(recs, id)| == |recs| <==> !HasId(recs, id)
    ensures !HasId(recs, id) ==> Without(recs, id) == recs
  {
    if recs != [] {
      WithoutLength(recs[1..], id);
    }
  }

  lemma {:induction false} FindWithout(recs: Recs, id: string, other: string)
    ensures Find(Without(recs, id), other) == if other == id then None else Find(recs, other)
  {
    if recs != [] {
      FindWithout(recs[1..], id, other);
      FindCons(recs[0], recs[1..], other);
      FindCons(recs[0], Without(recs[1..], id), other);
      assert recs == [recs[0]] + recs[1..];
    }
  }

  lemma FindCons(r: Rec, recs: Recs, id: string)
    ensures Find([r] + recs, id) == if r.id == id then Some(r) else Find(recs, id)
  {
    assert ([r] + recs)[1..] == recs;
  }

  /** In every run, ids stay distinct. */
  lemma {:induction false} RunKeepsDistinct(recs: Recs, ops: seq<Op>)
    requires DistinctIds(recs)
    ensures DistinctIds(After(recs, ops))
  {
    if ops != [] {
      RunKeepsDistinct(recs, ops[..|ops| - 1]);
      if ops[|ops| - 1].Remove? {
        WithoutKeeps(After(recs, ops[..|ops| - 1]), ops[|ops| - 1].id);
      }
    }
  }

  lemma IndexAt(recs: Recs, id: string, i: nat)
    requires i < |recs| && recs[i].id == id && forall k :: 0 <= k < i ==> recs[k].id != id
    ensures IndexOf(recs, id) == i
  {
  }

  lemma FindReplaced(recs: Recs, r: Rec, id: string)
    requires HasId(recs, r.id)
    ensures Find(recs[IndexOf(recs, r.id) := r], id) == if id == r.id then Some(r) else Find(recs, id)
  {
    var i := IndexOf(recs, r.id);
    var recs' := recs[i := r];
    if id == r.id {
      IndexAt(recs', id, i);
    } else if HasId(recs, id) {
      IndexAt(recs', id, IndexOf(recs, id));
    } else {
      assert forall k :: 0 <= k < |recs'| ==> recs'[k].id != id;
    }
  }

  lemma FindAppended(recs: Recs, r: Rec, id: string)
    requires !HasId(recs, r.id)
    ensures Find(recs + [r], id) == if id == r.id then Some(r) else Find(recs, id)
  {
    if id == r.id {
      IndexAt(recs + [r], id, |recs|);
    } else if HasId(recs, id) {
      IndexAt(recs + [r], id, IndexOf(recs, id));
    }
  }

  function FieldOf(recs: Recs, id: string, field: string): Option<Json> {
    var r :- Find(recs, id);
    if field in r.fields then Some(r.fields[field]) else None
  }

  /** The operation sets or clears this field of this record, if it does anything at all. */
  predicate Touches(op: Op, id: string, field: string) {
    match op
    case Add(r) => r.id == id
    case Remove(i) => i == id
    case Update(i, _) => i == id
    case UpdateFields(i, changes) => i == id && field in changes
  }

  lemma StepKeepsField(recs: Recs, op: Op, id: string, field: string)
    requires !Touches(op, id, field)
    ensures FieldOf(Step(recs, op), id, field) == FieldOf(recs, id, field)
  {
    hide Find, HasId, IndexOf;
    match op {
      case Add(r) => if !HasId(recs, r.id) { FindAppended(recs, r, id); }
      case Remove(i) => FindWithout(recs, i, id);
      case Update(i, r) => if HasId(recs, i) && r.id == i { FindReplaced(recs, r, id); }
      case UpdateFields(i, changes) =>
        if HasId(recs, i) { ChangeFound(recs, i, changes, id); }
    }
  }

  lemma ChangeFound(recs: Recs, i: string, changes: Args, id: string)
    requires HasId(recs, i)
    ensures Find(recs, i).Some?
    ensures Find(Step(recs, UpdateFields(i, changes)), id) ==
      if id == i then Some(Changed(Find(recs, i).value, changes)) else Find(recs, id)
  {
    FindReplaced(recs, Changed(recs[IndexOf(recs, i)], changes), id);
  }

  /**
    * No lost updates: what update_fields writes to a field stays there through every later
    * operation that does not write that same field or replace the whole record.
    */
  lemma {:induction false} NoLostUpdate(
    recs: Recs, ops: seq<Op>, id: string, changes: Args, later: seq<Op>, field: string)
    requires HasId(After(recs, ops), id) && field in changes
    requires forall i :: 0 <= i < |later| ==> !Touches(later[i], id, field)
    ensures FieldOf(After(recs, ops + [UpdateFields(id, changes)] + later), id, field) == Some(changes[field])
  {
    hide Find, HasId, IndexOf, Step;
    var write := UpdateFields(id, changes);
    var all := ops + [write] + later;
    if later == [] {
      assert all[..|all| - 1] == ops;
      ChangeFound(After(recs, ops), id, changes, id);
    } else {
      var front, op := later[..|later| - 1], later[|later| - 1];
      NoLostUpdate(recs, ops, id, changes, front, field);
      assert all[..|all| - 1] == ops + [write] + front;
      StepKeepsField(After(recs, ops + [write] + front), op, id, field);
    }
  }

  /** Reading a record and writing it back whole does lose what was written in between. */
  lemma GetThenUpdateLosesUpdates()
    ensures var recs := [Rec("a", map["enabled" := Bool(true), "command" := Str("old")])];
            var read := recs[0];
            var ops := [
              UpdateFields("a", map["command" := Str("new")]),
              Update("a", Changed(read, map["enabled" := Bool(false)]))];
            FieldOf(After(recs, ops), "a", "command") == Some(Str("old"))
  {
    var recs := [Rec("a", map["enabled" := Bool(true), "command" := Str("old")])];
    var first := UpdateFields("a", map["command" := Str("new")]);
    var second := Update("a", Changed(recs[0], map["enabled" := Bool(false)]));
    AfterOne(recs, [], first);
    AfterOne(recs, [first], second);
    assert [] + [first] == [first] && [first] + [second] == [first, second];
    var mid := After(recs, [first]);
    assert mid == [Changed(recs[0], map["command" := Str("new")])];
    assert Step(mid, second) == [second.rec];
  }

  /** What every operation does to the record of every id. */
  lemma FindAfterStep(recs: Recs, op: Op, id: string)
    ensures Find(Step(recs, op), id) == match op
      case Add(r) => if r.id == id && Find(recs, id).None? then Some(r) else Find(recs, id)
      case Remove(i) => if i == id then None else Find(recs, id)
      case Update(i, r) => if i == id == r.id && Find(recs, id).Some? then Some(r) else Find(recs, id)
      case UpdateFields(i, changes) =>
        if i == id && Find(recs, id).Some? then Some(Rec(id, Find(recs, id).value.fields + changes))
        else Find(recs, id)
  {
    FoundHasId(recs, id);
    hide Find, HasId, IndexOf;
    match op {
      case Add(r) => if !HasId(recs, r.id) { FindAppended(recs, r, id); }
      case Remove(i) => FindWithout(recs, i, id);
      case Update(i, r) => if HasId(recs, i) && r.id == i { FindReplaced(recs, r, id); }
      case UpdateFields(i, changes) => if HasId(recs, i) { ChangeFound(recs, i, changes, id); }
    }
  }

  lemma FoundHasId(recs: Recs, id: string)
    ensures Find(recs, id).Some? <==> HasId(recs, id)
    ensures HasId(recs, id) <==> exists r :: r in recs && r.id == id
    ensures Find(recs, id).Some? ==> Find(recs, id).value in recs && Find(recs, id).value.id == id
  {
  }

  /** The ids of a file, in order. */
  function Ids(recs: Recs): seq<string> {
    seq(|recs|, i requires 0 <= i < |recs| => recs[i].id)
  }

  /** The ids other than this one. */
  function OtherIds(ids: seq<string>, id: string): seq<string> {
    if ids == [] then []
    else if ids[0] == id then OtherIds(ids[1..], id)
    else [ids[0]] + OtherIds(ids[1..], id)
  }

  lemma IdsCons(r: Rec, rest: Recs)
    ensures Ids([r] + rest) == [r.id] + Ids(rest)
    ensures OtherIds(Ids([r] + rest), r.id) == OtherIds(Ids(rest), r.id)
    ensures forall id :: id != r.id ==> OtherIds(Ids([r] + rest), id) == [r.id] + OtherIds(Ids(rest), id)
  {
    assert Ids([r] + rest) == [r.id] + Ids(rest);
    assert ([r.id] + Ids(rest))[1..] == Ids(rest);
  }

  lemma {:induction false} WithoutIds(recs: Recs, id: string)
    ensures Ids(Without(recs, id)) == OtherIds(Ids(recs), id)
  {
    hide Ids, OtherIds;
    if recs == [] {
      NoIds(id);
    } else {
      WithoutIds(recs[1..], id);
      assert recs == [recs[0]] + recs[1..];
      IdsCons(recs[0], recs[1..]);
      IdsCons(recs[0], Without(recs[1..], id));
    }
  }

  lemma NoIds(id: string)
    ensures Ids([]) == [] && OtherIds([], id) == []
  {
  }

  /** Records keep their places: a new one comes last, and only a removal takes one away. */
  lemma IdsAfterStep(recs: Recs, op: Op)
    ensures Ids(Step(recs, op)) == match op
      case Add(r) => if r.id in Ids(recs) then Ids(recs) else Ids(recs) + [r.id]
      case Remove(i) => OtherIds(Ids(recs), i)
      case Update(_, _) => Ids(recs)
      case UpdateFields(_, _) => Ids(recs)
  {
    match op {
      case Add(r) =>
        if HasId(recs, r.id) {
          assert Ids(recs)[IndexOf(recs, r.id)] == r.id;
        }
      case Remove(i) => WithoutIds(recs, i);
      case Update(_, _) =>
      case UpdateFields(_, _) =>
    }
  }

  /** The operation is about this record, whether or not it does anything. */
  predicate IsAbout(op: Op, id: string) {
    id == match op
      case Add(r) => r.id
      case Remove(i) => i
      case Update(i, _) => i
      case UpdateFields(i, _) => i
  }

  /** In every run, what the operations on one record make of it is computed from those operations alone. */
  function Fate(first: Option<Rec>, ops: seq<Op>, id: string): Option<Rec> {
    if ops == [] then first
    else
      var r, op := Fate(first, ops[..|ops| - 1], id), ops[|ops| - 1];
      if !IsAbout(op, id) then r
      else match op
        case Add(given) => Some(r.GetOr(given))
        case Remove(_) => None
        case Update(_, given) => if r.Some? && given.id == id then Some(given) else r
        case UpdateFields(_, changes) => if r.Some? then Some(Rec(id, r.value.fields + changes)) else None
  }

  lemma {:induction false} FoundIsFate(recs: Recs, ops: seq<Op>, id: string)
    ensures Find(After(recs, ops), id) == Fate(Find(recs, id), ops, id)
  {
    hide Find, Step;
    if ops != [] {
      FoundIsFate(recs, ops[..|ops| - 1], id);
      FindAfterStep(After(recs, ops[..|ops| - 1]), ops[|ops| - 1], id);
    }
  }

  /** The operation can put a record under this id where there was none. */
  predicate Brings(op: Op, id: string) {
    op.Add? && op.rec.id == id
  }

  /** A removed record is gone until it is added again. */
  lemma {:induction false} RemovedStaysAway(recs: Recs, ops: seq<Op>, id: string, later: seq<Op>)
    requires forall i :: 0 <= i < |later| ==> !Brings(later[i], id)
    ensures Find(After(recs, ops + [Remove(id)] + later), id) == None
  {
    hide Find, Step;
    var all := ops + [Remove(id)] + later;
    if later == [] {
      assert all[..|all| - 1] == ops;
      FindAfterStep(After(recs, ops), Remove(id), id);
    } else {
      RemovedStaysAway(recs, ops, id, later[..|later| - 1]);
      assert all[..|all| - 1] == ops + [Remove(id)] + later[..|later| - 1];
      FindAfterStep(After(recs, all[..|all| - 1]), later[|later| - 1], id);
    }
  }

  /** The operation writes this whole record, given what the file holds. */
  predicate Accepted(recs: Recs, op: Op, r: Rec) {
    || (op == Add(r) && Find(recs, r.id).None?)
    || (op == Update(r.id, r) && Find(recs, r.id).Some?)
  }

  /** A record that was added or updated is there, exactly as given, until an operation on it other than adding. */
  lemma {:induction false} WrittenStays(recs: Recs, ops: seq<Op>, op: Op, r: Rec, later: seq<Op>)
    requires Accepted(After(recs, ops), op, r)
    requires forall i :: 0 <= i < |later| ==> !IsAbout(later[i], r.id) || later[i].Add?
    ensures Find(After(recs, ops + [op] + later), r.id) == Some(r)
  {
    hide Find, Step;
    var all := ops + [op] + later;
    if later == [] {
      assert all[..|all| - 1] == ops;
      FindAfterStep(After(recs, ops), op, r.id);
    } else {
      WrittenStays(recs, ops, op, r, later[..|later| - 1]);
      assert all[..|all| - 1] == ops + [op] + later[..|later| - 1];
      FindAfterStep(After(recs, all[..|all| - 1]), later[|later| - 1], r.id);
    }
  }

  lemma AfterOne(recs: Recs, ops: seq<Op>, op: Op)
    ensures After(recs, []) == recs
    ensures After(recs, ops + [op]) == Step(After(recs, ops), op)
  {
    assert (ops + [op])[..|ops|] == ops;
  }
}
