/** Whole runs of the response cache: what a hit can be, and when an entry is sure to be there. */
module CacheRuns {
  import opened Wrappers
  import opened ResponseCache

  datatype Op =
    | Put(id: string, entry: Entry, now: real)
    | Get(id: string, owner: Option<string>, now: real)

  function Step(cfg: Config, rows: seq<Row>, op: Op): seq<Row> {
    match op
    case Put(id, e, now) => PutStep(cfg, rows, id, e, now)
    case Get(id, owner, now) => GetStep(cfg, rows, id, owner, now)
  }

  function After(cfg: Config, ops: seq<Op>): seq<Row> {
    if ops == [] then [] else Step(cfg, After(cfg, ops[..|ops| - 1]), ops[|ops| - 1])
  }

  /** The clock never runs backwards, and stays within range of what is put. */
  predicate Timed(ops: seq<Op>) {
    forall i, j :: 0 <= i < j < |ops| ==> ops[i].now <= ops[j].now
  }

  predicate StartsBy(ops: seq<Op>, now: real) {
    forall i :: 0 <= i < |ops| ==> ops[i].now <= now
  }

  /** What was last put under an id: a fact about the run alone. */
  function LastPut(ops: seq<Op>, id: string): Option<Entry> {
    if ops == [] then None
    else
      var op := ops[|ops| - 1];
      if op.Put? && op.id == id then Some(op.entry) else LastPut(ops[..|ops| - 1], id)
  }

  ghost predicate CacheInv(cfg: Config, rows: seq<Row>, ops: seq<Op>) {
    && Distinct(rows) && |rows| <= cfg.maxEntries
    && forall r :: r in rows ==> LastPut(ops, r.id) == Some(r.entry)
  }

  lemma TrimmedFacts(cfg: Config, rows: seq<Row>)
    requires Distinct(rows)
    ensures Distinct(Trimmed(cfg, rows)) && |Trimmed(cfg, rows)| <= cfg.maxEntries
    ensures forall r :: r in Trimmed(cfg, rows) ==> r in rows
  {
  }

  lemma StepKeepsInv(cfg: Config, rows: seq<Row>, ops: seq<Op>, op: Op)
    requires CacheInv(cfg, rows, ops)
    ensures CacheInv(cfg, Step(cfg, rows, op), ops + [op])
  {
    hide Purged, Without, Lookup, Trimmed;
    assert (ops + [op])[..|ops|] == ops;
    var live := Purged(cfg, rows, op.now);
    PurgedFacts(cfg, rows, op.now);
    WithoutFacts(live, op.id);
    LookupFacts(live, op.id);
    if op.Put? {
      TrimmedFacts(cfg, Without(live, op.id) + [Row(op.id, op.entry)]);
    }
  }

  lemma {:induction false} RunKeepsInv(cfg: Config, ops: seq<Op>)
    ensures CacheInv(cfg, After(cfg, ops), ops)
  {
    if ops != [] {
      hide CacheInv, Step;
      var front, op := ops[..|ops| - 1], ops[|ops| - 1];
      RunKeepsInv(cfg, front);
      StepKeepsInv(cfg, After(cfg, front), front, op);
      assert front + [op] == ops;
    } else {
      assert CacheInv(cfg, [], []);
    }
  }

  /**
    * In every run, a hit gives exactly what was last put under the id, to its owner, no older than
    * the time to live; and the cache never holds more than maxEntries.
    */
  lemma HitIsGenuine(cfg: Config, ops: seq<Op>, id: string, owner: Option<string>, now: real)
    ensures |After(cfg, ops)| <= cfg.maxEntries
    ensures var answer := GetAnswer(cfg, After(cfg, ops), id, owner, now);
            answer.Some? ==>
              && LastPut(ops, id) == answer
              && answer.value.owner == owner
              && now - answer.value.createdAt <= cfg.ttl
  {
    hide Purged, Lookup, After, LastPut;
    var rows := After(cfg, ops);
    RunKeepsInv(cfg, ops);
    PurgedFacts(cfg, rows, now);
    LookupFacts(Purged(cfg, rows, now), id);
  }

  lemma {:induction false} PurgedLater(cfg: Config, rows: seq<Row>, now: real, later: real)
    requires now <= later
    ensures Purged(cfg, Purged(cfg, rows, now), later) == Purged(cfg, rows, later)
  {
    if rows != [] {
      PurgedLater(cfg, rows[1..], now, later);
    }
  }

  /** Every operation starts by purging, so rows that purge alike lead to the same rows. */
  lemma PurgedAlike(cfg: Config, a: seq<Row>, b: seq<Row>, op: Op)
    requires Purged(cfg, a, op.now) == Purged(cfg, b, op.now)
    ensures Step(cfg, a, op) == Step(cfg, b, op)
    ensures op.Get? ==> GetAnswer(cfg, a, op.id, op.owner, op.now) == GetAnswer(cfg, b, op.id, op.owner, op.now)
  {
    hide Purged, Without, Lookup;
  }

  lemma AfterOne(cfg: Config, ops: seq<Op>, op: Op)
    ensures After(cfg, ops + [op]) == Step(cfg, After(cfg, ops), op)
  {
    assert (ops + [op])[..|ops|] == ops;
  }

  lemma {:induction false} MissLeavesRows(
    cfg: Config, ops: seq<Op>, id: string, owner: Option<string>, now: real, more: seq<Op>, later: real)
    requires GetAnswer(cfg, After(cfg, ops), id, owner, now).None? && now <= later
    requires Timed(more) && StartsBy(more, later) && forall i :: 0 <= i < |more| ==> now <= more[i].now
    ensures Purged(cfg, After(cfg, ops + [Get(id, owner, now)] + more), later)
         == Purged(cfg, After(cfg, ops + more), later)
    decreases |more|
  {
    hide Purged, Step, After, GetAnswer;
    var get := ops + [Get(id, owner, now)];
    if more == [] {
      assert get + more == get && ops + more == ops;
      AfterOne(cfg, ops, Get(id, owner, now));
      MissOnlyPurges(cfg, After(cfg, ops), id, owner, now);
      PurgedLater(cfg, After(cfg, ops), now, later);
    } else {
      var front, op := more[..|more| - 1], more[|more| - 1];
      MissLeavesRows(cfg, ops, id, owner, now, front, op.now);
      AfterOne(cfg, get + front, op);
      AfterOne(cfg, ops + front, op);
      assert get + more == get + front + [op] && ops + more == ops + front + [op];
      PurgedAlike(cfg, After(cfg, get + front), After(cfg, ops + front), op);
    }
  }

  lemma MissOnlyPurges(cfg: Config, rows: seq<Row>, id: string, owner: Option<string>, now: real)
    requires GetAnswer(cfg, rows, id, owner, now).None?
    ensures Step(cfg, rows, Get(id, owner, now)) == Purged(cfg, rows, now)
  {
  }

  /**
    * A get that misses, by a wrong owner or of an id that is not there, changes nothing: in the rest of every run
    * each later get is answered as if it had not been made.
    */
  lemma MissesCostNothing(
    cfg: Config, ops: seq<Op>, id: string, owner: Option<string>, now: real, more: seq<Op>,
    other: string, asker: Option<string>, later: real)
    requires GetAnswer(cfg, After(cfg, ops), id, owner, now).None?
    requires Timed(ops + [Get(id, owner, now)] + more) && StartsBy(ops + [Get(id, owner, now)] + more, later)
    ensures GetAnswer(cfg, After(cfg, ops + [Get(id, owner, now)] + more), other, asker, later)
         == GetAnswer(cfg, After(cfg, ops + more), other, asker, later)
  {
    hide Purged, After, GetAnswer, Step;
    var get := ops + [Get(id, owner, now)];
    var all := get + more;
    assert all[|ops|] == Get(id, owner, now);
    forall i | 0 <= i < |more| ensures now <= more[i].now <= later {
      assert all[|get| + i] == more[i];
    }
    forall i, j | 0 <= i < j < |more| ensures more[i].now <= more[j].now {
      assert all[|get| + i] == more[i] && all[|get| + j] == more[j];
    }
    MissLeavesRows(cfg, ops, id, owner, now, more, later);
    PurgedAlike(cfg, After(cfg, get + more), After(cfg, ops + more), Get(other, asker, later));
  }

  /** The ids put or served since an id itself was last put or served. */
  function TouchedSince(cfg: Config, ops: seq<Op>, id: string): set<string> {
    if ops == [] then {}
    else
      var front, op := ops[..|ops| - 1], ops[|ops| - 1];
      var touches := op.Put? || GetAnswer(cfg, After(cfg, front), op.id, op.owner, op.now).Some?;
      if !touches then TouchedSince(cfg, front, id)
      else if op.id == id then {}
      else TouchedSince(cfg, front, id) + {op.id}
  }

  /** A row that is there, with only these ids behind it. */
  ghost predicate Held(rows: seq<Row>, id: string, e: Entry, behind: set<string>) {
    exists a, b :: HeldAt(rows, a, Row(id, e), b, behind)
  }

  ghost predicate HeldAt(rows: seq<Row>, a: seq<Row>, r: Row, b: seq<Row>, behind: set<string>) {
    rows == a + [r] + b && forall x :: x in b ==> x.id in behind
  }

  lemma {:induction false} PurgedConcat(cfg: Config, a: seq<Row>, b: seq<Row>, now: real)
    ensures Purged(cfg, a + b, now) == Purged(cfg, a, now) + Purged(cfg, b, now)
  {
    if a == [] {
      assert a + b == b;
    } else {
      PurgedConcat(cfg, a[1..], b, now);
      assert (a + b)[1..] == a[1..] + b;
    }
  }

  lemma {:induction false} WithoutConcat(a: seq<Row>, b: seq<Row>, id: string)
    ensures Without(a + b, id) == Without(a, id) + Without(b, id)
  {
    hide Without;
    WithoutUnfold(a, id);
    if a == [] {
      assert a + b == b;
    } else {
      WithoutConcat(a[1..], b, id);
      WithoutUnfold(a + b, id);
      assert (a + b)[0] == a[0] && (a + b)[1..] == a[1..] + b;
      assert [a[0]] + (Without(a[1..], id) + Without(b, id)) == [a[0]] + Without(a[1..], id) + Without(b, id);
    }
  }

  lemma WithoutUnfold(rows: seq<Row>, id: string)
    ensures rows == [] ==> Without(rows, id) == []
    ensures rows != [] ==>
      Without(rows, id) == (if rows[0].id != id then [rows[0]] else []) + Without(rows[1..], id)
  {
  }

  lemma {:induction false} PurgedSubset(cfg: Config, rows: seq<Row>, now: real)
    ensures forall r :: r in Purged(cfg, rows, now) ==> r in rows
  {
    if rows != [] {
      PurgedSubset(cfg, rows[1..], now);
    }
  }

  lemma {:induction false} WithoutSubset(rows: seq<Row>, id: string)
    ensures forall r :: r in Without(rows, id) ==> r in rows
  {
    if rows != [] {
      WithoutSubset(rows[1..], id);
    }
  }

  lemma HeldAfterPurge(cfg: Config, rows: seq<Row>, id: string, e: Entry, behind: set<string>, now: real)
    requires Held(rows, id, e, behind) && now - e.createdAt <= cfg.ttl
    ensures Held(Purged(cfg, rows, now), id, e, behind)
  {
    var r := Row(id, e);
    var a, b :| HeldAt(rows, a, r, b, behind);
    PurgedConcat(cfg, a + [r], b, now);
    PurgedConcat(cfg, a, [r], now);
    PurgedSubset(cfg, b, now);
    assert [r][1..] == [];
    assert HeldAt(Purged(cfg, rows, now), Purged(cfg, a, now), r, Purged(cfg, b, now), behind);
  }

  lemma HeldAfterMove(rows: seq<Row>, id: string, e: Entry, behind: set<string>, other: Row)
    requires Held(rows, id, e, behind) && other.id != id
    ensures Held(Without(rows, other.id) + [other], id, e, behind + {other.id})
  {
    hide Without;
    var r := Row(id, e);
    var a, b :| HeldAt(rows, a, r, b, behind);
    WithoutUnfold([r], other.id);
    WithoutUnfold([], other.id);
    WithoutConcat(a + [r], b, other.id);
    WithoutConcat(a, [r], other.id);
    WithoutSubset(b, other.id);
    assert [r][1..] == [];
    var a', b' := Without(a, other.id), Without(b, other.id) + [other];
    assert Without(rows, other.id) + [other] == a' + [r] + b';
    assert HeldAt(Without(rows, other.id) + [other], a', r, b', behind + {other.id});
  }

  lemma {:induction false} DistinctFewer(rows: seq<Row>, ids: set<string>)
    requires Distinct(rows) && forall r :: r in rows ==> r.id in ids
    ensures |rows| <= |ids|
  {
    if rows != [] {
      var last := |rows| - 1;
      var front := rows[..last];
      forall r | r in front ensures r.id in ids - {rows[last].id} {
      }
      DistinctFewer(front, ids - {rows[last].id});
      assert rows[last] in rows;
    }
  }

  lemma TailIsDistinct(rows: seq<Row>, a: seq<Row>, b: seq<Row>)
    requires Distinct(rows) && rows == a + b
    ensures Distinct(b)
  {
    assert forall i :: 0 <= i < |b| ==> b[i] == rows[|a| + i];
  }

  lemma DropFront(a: seq<Row>, b: seq<Row>, k: nat)
    requires k <= |a|
    ensures (a + b)[k..] == a[k..] + b
  {
  }

  lemma HeldAfterTrim(cfg: Config, rows: seq<Row>, id: string, e: Entry, behind: set<string>)
    requires Held(rows, id, e, behind) && Distinct(rows) && |behind| < cfg.maxEntries
    ensures Held(Trimmed(cfg, rows), id, e, behind)
  {
    var r := Row(id, e);
    var a, b :| HeldAt(rows, a, r, b, behind);
    TailIsDistinct(rows, a + [r], b);
    DistinctFewer(b, behind);
    if |rows| > cfg.maxEntries {
      var k := |rows| - cfg.maxEntries;
      DropFront(a, [r] + b, k);
      assert a + ([r] + b) == rows && a[k..] + ([r] + b) == a[k..] + [r] + b;
      assert HeldAt(rows[k..], a[k..], r, b, behind);
    }
  }

  lemma HeldFresh(rows: seq<Row>, r: Row)
    ensures Held(rows + [r], r.id, r.entry, {})
  {
    assert HeldAt(rows + [r], rows, r, [], {});
  }

  lemma HeldIsFound(rows: seq<Row>, id: string, e: Entry, behind: set<string>)
    requires Held(rows, id, e, behind) && Distinct(rows)
    ensures Lookup(rows, id) == Some(e)
  {
    hide Lookup;
    var a, b :| HeldAt(rows, a, Row(id, e), b, behind);
    assert Row(id, e) in rows;
    LookupFacts(rows, id);
  }

  lemma PutHolds(cfg: Config, rows: seq<Row>, ops: seq<Op>, op: Op, id: string, e: Entry, behind: set<string>)
    requires op.Put? && op.id != id && CacheInv(cfg, rows, ops)
    requires Held(rows, id, e, behind) && op.now - e.createdAt <= cfg.ttl && |behind + {op.id}| < cfg.maxEntries
    ensures Held(PutStep(cfg, rows, op.id, op.entry, op.now), id, e, behind + {op.id})
  {
    hide Held, Purged, Without, Trimmed;
    var live, row := Purged(cfg, rows, op.now), Row(op.id, op.entry);
    HeldAfterPurge(cfg, rows, id, e, behind, op.now);
    HeldAfterMove(live, id, e, behind, row);
    PurgedFacts(cfg, rows, op.now);
    WithoutFacts(live, op.id);
    HeldAfterTrim(cfg, Without(live, op.id) + [row], id, e, behind + {op.id});
  }

  lemma GetHolds(cfg: Config, rows: seq<Row>, op: Op, id: string, e: Entry, behind: set<string>)
    requires op.Get? && op.id != id
    requires Held(rows, id, e, behind) && op.now - e.createdAt <= cfg.ttl
    ensures Held(GetStep(cfg, rows, op.id, op.owner, op.now), id, e,
                 if GetAnswer(cfg, rows, op.id, op.owner, op.now).Some? then behind + {op.id} else behind)
  {
    hide Held, Purged, Without, GetAnswer;
    var live, answer := Purged(cfg, rows, op.now), GetAnswer(cfg, rows, op.id, op.owner, op.now);
    HeldAfterPurge(cfg, rows, id, e, behind, op.now);
    if answer.Some? {
      HeldAfterMove(live, id, e, behind, Row(op.id, answer.value));
    }
  }

  lemma OwnPutHolds(cfg: Config, rows: seq<Row>, ops: seq<Op>, op: Op)
    requires op.Put? && CacheInv(cfg, rows, ops)
    ensures Held(PutStep(cfg, rows, op.id, op.entry, op.now), op.id, op.entry, {})
  {
    hide Held, Purged, Without, Trimmed;
    var live, row := Purged(cfg, rows, op.now), Row(op.id, op.entry);
    PurgedFacts(cfg, rows, op.now);
    WithoutFacts(live, op.id);
    HeldFresh(Without(live, op.id), row);
    HeldAfterTrim(cfg, Without(live, op.id) + [row], op.id, op.entry, {});
  }

  lemma OwnGetHolds(cfg: Config, rows: seq<Row>, op: Op, e: Entry, behind: set<string>)
    requires op.Get? && GetAnswer(cfg, rows, op.id, op.owner, op.now).Some? ==>
      GetAnswer(cfg, rows, op.id, op.owner, op.now) == Some(e)
    requires op.Get? && GetAnswer(cfg, rows, op.id, op.owner, op.now).None? ==>
      Held(rows, op.id, e, behind) && op.now - e.createdAt <= cfg.ttl
    ensures op.Get? ==> Held(GetStep(cfg, rows, op.id, op.owner, op.now), op.id, e,
              if GetAnswer(cfg, rows, op.id, op.owner, op.now).Some? then {} else behind)
  {
    hide Held, Purged, Without, GetAnswer;
    if op.Get? {
      if GetAnswer(cfg, rows, op.id, op.owner, op.now).Some? {
        HeldFresh(Without(Purged(cfg, rows, op.now), op.id), Row(op.id, e));
      } else {
        HeldAfterPurge(cfg, rows, op.id, e, behind, op.now);
      }
    }
  }

  lemma SubsetSize(a: set<string>, b: set<string>)
    requires a <= b
    ensures |a| <= |b|
  {
    assert b == a + (b - a);
  }

  lemma {:induction false} RunHolds(cfg: Config, ops: seq<Op>, id: string, e: Entry, now: real)
    requires Timed(ops) && StartsBy(ops, now)
    requires LastPut(ops, id) == Some(e) && now - e.createdAt <= cfg.ttl
    requires |TouchedSince(cfg, ops, id)| < cfg.maxEntries
    ensures Held(After(cfg, ops), id, e, TouchedSince(cfg, ops, id))
  {
    hide CacheInv, Held, PutStep, GetStep, GetAnswer;
    var front, op := ops[..|ops| - 1], ops[|ops| - 1];
    var rows := After(cfg, front);
    RunKeepsInv(cfg, front);
    if op.Put? && op.id == id {
      OwnPutHolds(cfg, rows, front, op);
    } else if op.Get? && op.id == id && GetAnswer(cfg, rows, id, op.owner, op.now).Some? {
      HitIsGenuine(cfg, front, id, op.owner, op.now);
      OwnGetHolds(cfg, rows, op, e, {});
    } else {
      SubsetSize(TouchedSince(cfg, front, id), TouchedSince(cfg, ops, id));
      RunHolds(cfg, front, id, e, op.now);
      var behind := TouchedSince(cfg, front, id);
      if op.Put? {
        PutHolds(cfg, rows, front, op, id, e, behind);
      } else if op.id == id {
        OwnGetHolds(cfg, rows, op, e, behind);
      } else {
        GetHolds(cfg, rows, op, id, e, behind);
      }
    }
  }

  /**
    * Least recently used: in every run, an entry young enough is still served to its owner as long
    * as fewer than maxEntries other ids have been put or served since it was last put or served.
    */
  lemma StillServed(cfg: Config, ops: seq<Op>, id: string, e: Entry, now: real)
    requires Timed(ops) && StartsBy(ops, now)
    requires LastPut(ops, id) == Some(e) && now - e.createdAt <= cfg.ttl
    requires |TouchedSince(cfg, ops, id)| < cfg.maxEntries
    ensures GetAnswer(cfg, After(cfg, ops), id, e.owner, now) == Some(e)
  {
    hide Held, Purged, Lookup, After, TouchedSince, LastPut;
    var rows := After(cfg, ops);
    RunHolds(cfg, ops, id, e, now);
    RunKeepsInv(cfg, ops);
    PurgedFacts(cfg, rows, now);
    HeldAfterPurge(cfg, rows, id, e, TouchedSince(cfg, ops, id), now);
    HeldIsFound(Purged(cfg, rows, now), id, e, TouchedSince(cfg, ops, id));
  }

  /** Puts of pairwise different ids, none of which has expired by now. */
  predicate FreshPuts(cfg: Config, puts: seq<Op>, now: real) {
    && (forall i :: 0 <= i < |puts| ==> puts[i].Put? && puts[i].now <= now && now - puts[i].entry.createdAt <= cfg.ttl)
    && (forall i, j :: 0 <= i < j < |puts| ==> puts[i].id != puts[j].id)
  }

  function RowsOf(puts: seq<Op>): seq<Row>
    requires forall i :: 0 <= i < |puts| ==> puts[i].Put?
  {
    seq(|puts|, i requires 0 <= i < |puts| => Row(puts[i].id, puts[i].entry))
  }

  lemma {:induction false} AllKept(cfg: Config, rows: seq<Row>, now: real, id: string)
    requires forall r :: r in rows ==> Live(cfg, r, now) && r.id != id
    ensures Purged(cfg, rows, now) == rows && Without(rows, id) == rows
  {
    if rows != [] {
      AllKept(cfg, rows[1..], now, id);
    }
  }

  lemma PutBehind(cfg: Config, a: seq<Row>, b: seq<Row>, id: string, e: Entry, now: real) returns (a': seq<Row>)
    requires |b| < cfg.maxEntries && forall r :: r in b ==> Live(cfg, r, now) && r.id != id
    ensures PutStep(cfg, a + b, id, e, now) == a' + b + [Row(id, e)]
    ensures |PutStep(cfg, a + b, id, e, now)| <= cfg.maxEntries
  {
    hide Purged, Without;
    PurgedConcat(cfg, a, b, now);
    AllKept(cfg, b, now, id);
    a' := Without(Purged(cfg, a, now), id);
    WithoutConcat(Purged(cfg, a, now), b, id);
    var all := a' + b + [Row(id, e)];
    if |all| > cfg.maxEntries {
      var k := |all| - cfg.maxEntries;
      assert all[k..] == a'[k..] + b + [Row(id, e)];
      a' := a'[k..];
    }
  }

  /** After fresh puts, their rows are the last ones, in order. */
  lemma {:induction false} PutsAreLast(cfg: Config, ops: seq<Op>, puts: seq<Op>, now: real) returns (a: seq<Row>)
    requires FreshPuts(cfg, puts, now) && |puts| <= cfg.maxEntries
    ensures After(cfg, ops + puts) == a + RowsOf(puts)
  {
    if puts == [] {
      assert ops + puts == ops;
      a := After(cfg, ops);
      assert a + [] == a;
    } else {
      var front, op := puts[..|puts| - 1], puts[|puts| - 1];
      var a0 := PutsAreLast(cfg, ops, front, now);
      assert (ops + puts)[..|ops + puts| - 1] == ops + front;
      a := PutBehind(cfg, a0, RowsOf(front), op.id, op.entry, op.now);
      assert RowsOf(puts) == RowsOf(front) + [Row(op.id, op.entry)];
      assert a + RowsOf(front) + [Row(op.id, op.entry)] == a + (RowsOf(front) + [Row(op.id, op.entry)]);
    }
  }

  /** The bound is the right one: after maxEntries puts of other ids an entry is gone. */
  lemma EvictedByFreshPuts(cfg: Config, ops: seq<Op>, puts: seq<Op>, id: string, owner: Option<string>, now: real)
    requires FreshPuts(cfg, puts, now) && |puts| == cfg.maxEntries
    requires forall i :: 0 <= i < |puts| ==> puts[i].id != id
    ensures GetAnswer(cfg, After(cfg, ops + puts), id, owner, now) == None
  {
    hide Purged, Lookup, After, CacheInv;
    var rows := After(cfg, ops + puts);
    var a := PutsAreLast(cfg, ops, puts, now);
    HitIsGenuine(cfg, ops + puts, id, owner, now);
    assert a == [] && rows == RowsOf(puts);
    RowsAreDistinct(cfg, ops + puts);
    PurgedFacts(cfg, rows, now);
    LookupFacts(Purged(cfg, rows, now), id);
  }

  lemma RowsAreDistinct(cfg: Config, ops: seq<Op>)
    ensures Distinct(After(cfg, ops))
  {
    RunKeepsInv(cfg, ops);
  }
}
