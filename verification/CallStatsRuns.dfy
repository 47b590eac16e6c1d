/** Whole runs of the call counts: what a restart loses, who is admitted at the limit, and what is counted. */
module CallStatsRuns {
  import opened Wrappers
  import opened Text
  import opened CallStats
  import ToolNames

  datatype Op =
    | Record(name: string)
    | Remove(name: string)
    | Flush(ok: bool)
    | Timer(ok: bool)
    | Ranked
    | Restart

  function Step(s: Stats, max: nat, op: Op): Stats {
    match op
    case Record(name) => Recorded(s, max, name)
    case Remove(name) => Removed(s, name)
    case Flush(ok) => Flushed(s, ok)
    case Timer(ok) => TimerFired(s, ok)
    case Ranked => Read(s)
    case Restart => Started(s.saved, max)
  }

  function After(s: Stats, max: nat, ops: seq<Op>): Stats {
    if ops == [] then s else Step(After(s, max, ops[..|ops| - 1]), max, ops[|ops| - 1])
  }

  lemma StepKeepsCoherent(s: Stats, max: nat, op: Op)
    requires Coherent(s, max)
    ensures Coherent(Step(s, max, op), max)
  {
    hide Coherent, Recorded, Removed, Flushed, TimerFired, Started;
    match op
    case Record(name) => RecordKeepsCoherent(s, max, name);
    case Remove(name) => RemoveKeepsCoherent(s, max, name);
    case Flush(ok) => FlushKeepsCoherent(s, max, ok);
    case Timer(ok) => FlushKeepsCoherent(s, max, ok);
    case Ranked => FlushKeepsCoherent(s, max, true);
    case Restart => StartIsCoherent(s.saved, max);
  }

  /**
    * In every run: when nothing is unwritten, reading the file back gives the counts in memory; and what is
    * unwritten has a timer to write it, unless the last attempt to write failed.
    */
  lemma {:induction false} RunIsCoherent(saved: Saved, max: nat, ops: seq<Op>)
    ensures Coherent(After(Started(saved, max), max, ops), max)
  {
    hide Coherent, Step, Started;
    if ops == [] {
      StartIsCoherent(saved, max);
    } else {
      RunIsCoherent(saved, max, ops[..|ops| - 1]);
      StepKeepsCoherent(After(Started(saved, max), max, ops[..|ops| - 1]), max, ops[|ops| - 1]);
    }
  }

  /** The counts alone, as if they were never written nor read. */
  function CountsAfter(counts: Counts, max: nat, ops: seq<Op>): Counts {
    if ops == [] then counts
    else
      var before := CountsAfter(counts, max, ops[..|ops| - 1]);
      var unsaved := Stats(before, false, false, Unreadable, false);
      match ops[|ops| - 1]
      case Record(name) => Recorded(unsaved, max, name).counts
      case Remove(name) => Removed(unsaved, name).counts
      case _ => before
  }

  /** No restart finds anything unwritten. */
  ghost predicate CleanRestarts(s: Stats, max: nat, ops: seq<Op>) {
    forall i {:trigger ops[i]} :: 0 <= i < |ops| && ops[i].Restart? ==> !After(s, max, ops[..i]).dirty
  }

  lemma CleanRestartsFront(s: Stats, max: nat, ops: seq<Op>)
    requires CleanRestarts(s, max, ops) && ops != []
    ensures CleanRestarts(s, max, ops[..|ops| - 1])
    ensures ops[|ops| - 1].Restart? ==> !After(s, max, ops[..|ops| - 1]).dirty
  {
    hide After;
    var front := ops[..|ops| - 1];
    forall i | 0 <= i < |front| && front[i].Restart? ensures !After(s, max, front[..i]).dirty {
      assert front[i] == ops[i] && front[..i] == ops[..i];
    }
  }

  /** Writing behind and restarting are then invisible in the counts. */
  lemma {:induction false} RestartsAreInvisible(saved: Saved, max: nat, ops: seq<Op>)
    requires CleanRestarts(Started(saved, max), max, ops)
    ensures After(Started(saved, max), max, ops).counts == CountsAfter(Started(saved, max).counts, max, ops)
  {
    hide CleanRestarts, Started, Capped, IsComposite, Strip, Loaded, Written, Bounded;
    if ops != [] {
      var start, front := Started(saved, max), ops[..|ops| - 1];
      CleanRestartsFront(start, max, ops);
      RestartsAreInvisible(saved, max, front);
      RunIsCoherent(saved, max, front);
      StartedCounts(After(start, max, front).saved, max);
    }
  }

  lemma StartedCounts(saved: Saved, max: nat)
    ensures Started(saved, max).counts == Loaded(saved, max)
  {
  }

  /** How many operations had been done when nothing was last left unwritten. */
  function LastClean(start: Stats, max: nat, ops: seq<Op>): (n: nat)
    ensures n <= |ops|
  {
    if ops == [] || !After(start, max, ops).dirty then |ops| else LastClean(start, max, ops[..|ops| - 1])
  }

  /** Since then nothing was written, so the file still has the counts of that moment. */
  lemma {:induction false} FileSinceClean(saved: Saved, max: nat, ops: seq<Op>)
    ensures var start, n := Started(saved, max), LastClean(Started(saved, max), max, ops);
            && Loaded(After(start, max, ops).saved, max) == After(start, max, ops[..n]).counts
            && After(start, max, ops).counts == CountsAfter(After(start, max, ops[..n]).counts, max, ops[n..])
    decreases |ops|
  {
    hide Loaded, Written, Started, Bounded, Capped, IsComposite, Strip;
    var start, n := Started(saved, max), LastClean(Started(saved, max), max, ops);
    RunIsCoherent(saved, max, ops);
    if ops == [] || !After(start, max, ops).dirty {
      assert ops[..n] == ops && ops[n..] == [];
      StartIsClean(saved, max);
    } else {
      var front, op := ops[..|ops| - 1], ops[|ops| - 1];
      FileSinceClean(saved, max, front);
      assert front[..n] == ops[..n] && ops[n..] == front[n..] + [op];
      StepStaysDirty(After(start, max, front), max, After(start, max, ops[..n]).counts, front[n..], op);
    }
  }

  lemma StartIsClean(saved: Saved, max: nat)
    ensures !Started(saved, max).dirty
  {
  }

  /** An operation after which something is unwritten has left the file alone, and done to the counts what it does. */
  lemma StepStaysDirty(s: Stats, max: nat, counts: Counts, before: seq<Op>, op: Op)
    requires Step(s, max, op).dirty && CountsAfter(counts, max, before) == s.counts
    ensures Step(s, max, op).saved == s.saved
    ensures CountsAfter(counts, max, before + [op]) == Step(s, max, op).counts
  {
    hide Capped, IsComposite, Strip, Loaded, Written;
    assert (before + [op])[..|before|] == before;
  }

  /**
    * A restart goes back to the counts of the moment when nothing was last unwritten. So it loses nothing exactly
    * when what was called and removed since then adds up to the same counts.
    */
  lemma RestartLosesExactly(saved: Saved, max: nat, ops: seq<Op>)
    ensures var start, n := Started(saved, max), LastClean(Started(saved, max), max, ops);
            var s, written := After(start, max, ops), After(start, max, ops[..n]).counts;
            && Step(s, max, Restart).counts == written
            && (Step(s, max, Restart).counts == s.counts <==> CountsAfter(written, max, ops[n..]) == written)
  {
    hide After, Loaded, CountsAfter, LastClean;
    FileSinceClean(saved, max, ops);
    StartedCounts(After(Started(saved, max), max, ops).saved, max);
  }

  /** After a flush that succeeds, nothing at all is lost. */
  lemma FlushedRestartLosesNothing(saved: Saved, max: nat, ops: seq<Op>)
    ensures var s := After(Started(saved, max), max, ops); Step(Flushed(s, true), max, Restart).counts == s.counts
  {
    hide After, Loaded, Written, Bounded;
    RunIsCoherent(saved, max, ops);
    var s := After(Started(saved, max), max, ops);
    FlushKeepsCoherent(s, max, true);
    StartedCounts(Flushed(s, true).saved, max);
  }

  predicate IsCall(op: Op, key: string) {
    op.Record? && Strip(op.name) == key && IsComposite(key)
  }

  predicate IsRemoval(op: Op, key: string) {
    op.Remove? && Strip(op.name) == key && key != ""
  }

  /** How many of these operations are calls of one tool. */
  function Calls(ops: seq<Op>, key: string): nat {
    if ops == [] then 0 else Calls(ops[..|ops| - 1], key) + if IsCall(ops[|ops| - 1], key) then 1 else 0
  }

  function CountOf(counts: Counts, key: string): int {
    if key in counts then counts[key] else 0
  }

  /** From an operation on, the cap never drops this key: it is there after every call that finds or enters it. */
  ghost predicate NeverDropped(s: Stats, max: nat, ops: seq<Op>, from: nat, key: string) {
    forall i {:trigger ops[i]} :: from <= i < |ops| && ops[i].Record? ==>
      Survives(After(s, max, ops[..i]), max, ops[i], key)
  }

  predicate Survives(s: Stats, max: nat, op: Op, key: string)
    requires op.Record?
  {
    key in s.counts || IsCall(op, key) ==> key in Recorded(s, max, op.name).counts
  }

  /** Without the limit in the way, nothing is dropped. */
  lemma RoomDropsNothing(s: Stats, max: nat, op: Op, key: string)
    requires op.Record? && Coherent(s, max) && (Strip(op.name) in s.counts || |s.counts| < max)
    ensures Survives(s, max, op, key)
  {
    hide Strip, IsComposite, Capped, Loaded;
    var name := Strip(op.name);
    AllKept(s.counts[name := (if name in s.counts then s.counts[name] else 0) + 1], max);
  }

  lemma StepCounts(s: Stats, max: nat, op: Op, key: string)
    requires Coherent(s, max) && (op.Restart? ==> !s.dirty) && (op.Record? ==> Survives(s, max, op, key))
    ensures CountOf(Step(s, max, op).counts, key)
         == if IsRemoval(op, key) then 0 else CountOf(s.counts, key) + if IsCall(op, key) then 1 else 0
  {
    hide Strip, IsComposite, Loaded, Lower;
  }

  lemma NeverDroppedFront(s: Stats, max: nat, ops: seq<Op>, from: nat, key: string)
    requires NeverDropped(s, max, ops, from, key) && |ops| > from
    ensures NeverDropped(s, max, ops[..|ops| - 1], from, key)
    ensures ops[|ops| - 1].Record? ==> Survives(After(s, max, ops[..|ops| - 1]), max, ops[|ops| - 1], key)
  {
    hide After, Survives;
    var front := ops[..|ops| - 1];
    forall i | from <= i < |front| && front[i].Record? ensures Survives(After(s, max, front[..i]), max, front[i], key) {
      assert front[i] == ops[i] && front[..i] == ops[..i];
    }
  }

  /**
    * Calls are counted: when no restart finds anything unwritten and the cap never drops the key, its count is what it
    * was at the start, or nothing after the last removal, and one for every call since then.
    */
  lemma {:induction false} CallsAreCounted(saved: Saved, max: nat, before: seq<Op>, since: seq<Op>, key: string)
    requires CleanRestarts(Started(saved, max), max, before + since)
    requires before == [] || IsRemoval(before[|before| - 1], key)
    requires forall i :: 0 <= i < |since| ==> !IsRemoval(since[i], key)
    requires NeverDropped(Started(saved, max), max, before + since, |before|, key)
    ensures CountOf(After(Started(saved, max), max, before + since).counts, key)
         == (if before == [] then CountOf(Loaded(saved, max), key) else 0) + Calls(since, key)
    decreases |since|
  {
    hide CleanRestarts, NeverDropped, Started, Survives, Coherent, IsCall, IsRemoval, Step, Loaded, CountOf;
    var start, all := Started(saved, max), before + since;
    if since == [] {
      assert all == before;
      StartedCounts(saved, max);
      if before != [] {
        var front, op := before[..|before| - 1], before[|before| - 1];
        RunIsCoherent(saved, max, front);
        RemovalIsNoCall(op, key);
        StepCounts(After(start, max, front), max, op, key);
      }
    } else {
      var front, op := before + since[..|since| - 1], since[|since| - 1];
      assert all[..|all| - 1] == front && all[|all| - 1] == op;
      CleanRestartsFront(start, max, all);
      NeverDroppedFront(start, max, all, |before|, key);
      CallsAreCounted(saved, max, before, since[..|since| - 1], key);
      RunIsCoherent(saved, max, front);
      StepCounts(After(start, max, front), max, op, key);
    }
  }

  lemma RemovalIsNoCall(op: Op, key: string)
    requires IsRemoval(op, key)
    ensures !op.Record? && !op.Restart?
  {
  }

  /** While no write fails, whatever is unwritten has a timer to write it. */
  lemma {:induction false} UnwrittenIsTimed(saved: Saved, max: nat, ops: seq<Op>)
    requires forall i :: 0 <= i < |ops| ==> ops[i] != Flush(false) && ops[i] != Timer(false)
    ensures var s := After(Started(saved, max), max, ops); !s.failed && (s.dirty ==> s.timer)
  {
    hide Capped, IsComposite, Strip, Loaded, Written;
    if ops != [] {
      UnwrittenIsTimed(saved, max, ops[..|ops| - 1]);
    }
  }

  /** At the limit, a new tool is counted exactly when some key has one call and a name that sorts before it. */
  lemma NewKeyIsAdmittedExactly(counts: Counts, max: nat, key: string)
    requires Bounded(counts, max) && |counts| == max >= 1 && key !in counts
    ensures key in Capped(counts[key := 1], max) <==> exists k :: k in counts && counts[k] == 1 && Less(k, key)
    ensures key !in Capped(counts[key := 1], max) ==> Capped(counts[key := 1], max) == counts
  {
    hide Less;
    var more := counts[key := 1];
    SomeLowest(more);
    var least :| Lowest(more, least);
    LowestGoes(more, max, least);
    AllKept(more - {least}, max);
    assert more - {key} == counts;
    if key == least {
      forall k | k in counts && counts[k] == 1 ensures !Less(k, key) {
        assert Lower(more, key, k);
        LessIsTotal(key, k);
      }
    } else {
      assert Lower(more, least, key);
      assert least in counts && counts[least] == 1 && Less(least, key);
    }
  }

  /** So a new tool never gets in, however often it is called, while every key kept has two calls or more. */
  lemma {:induction false} NewcomersStarve(s: Stats, max: nat, name: string, calls: nat)
    requires Coherent(s, max) && |s.counts| == max >= 1 && Strip(name) !in s.counts
    requires forall k :: k in s.counts ==> s.counts[k] >= 2
    ensures After(s, max, seq(calls, i => Record(name))).counts == s.counts
  {
    hide Capped, Coherent, IsComposite, Strip, Less;
    var ops := seq(calls, i => Record(name));
    if calls > 0 {
      assert ops[..calls - 1] == seq(calls - 1, i => Record(name));
      NewcomersStarve(s, max, name, calls - 1);
      assert Bounded(s.counts, max) by { CoherentIsBounded(s, max); }
      NewKeyIsAdmittedExactly(s.counts, max, Strip(name));
    }
  }

  lemma CoherentIsBounded(s: Stats, max: nat)
    requires Coherent(s, max)
    ensures Bounded(s.counts, max)
  {
  }

  /**
    * The cap and the ranking break ties in opposite ways: of two keys with as many calls the first by name is ranked
    * ahead, and is never the one that is kept when the other is dropped.
    */
  lemma TiesAreBrokenBothWays(counts: Counts, max: nat, a: string, b: string)
    requires a in counts && b in counts && counts[a] == counts[b] && Less(a, b)
    ensures Ahead(counts, a, b)
    ensures a in Capped(counts, max) ==> b in Capped(counts, max)
  {
    hide Less, Capped;
    CappedIsCap(counts, max);
    LessIsTotal(a, b);
  }

  /** Every name that decodes to a tool is counted. */
  lemma DecodableIsCounted(name: string)
    requires ToolNames.Decode(name).Some?
    ensures IsComposite(Strip(name))
  {
    hide Strip, Find;
    var c := Strip(name);
    if Find(c, "/", 0).None? {
      var split := ToolNames.FirstHexSplit(c, 0);
      if split.Some? {
        assert OccursAt(c, "__p__", split.value);
      }
    } else {
      SlashIsNotEmpty(c);
    }
  }

  lemma SlashIsNotEmpty(c: string)
    ensures Find(c, "/", 0).Some? ==> c != ""
  {
  }
}
