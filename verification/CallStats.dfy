/** Persistent tool-call counts, capped, and written behind (src/mcp_proxy/tool_call_stats.py). */
module CallStats {
  import opened Wrappers
  import opened Text

  type Counts = map<string, int>

  /** What the file offers: nothing to read, or a table in which None is a value that is no number. */
  datatype Saved = Unreadable | Table(counts: map<string, Option<int>>)

  /** The order in which the cap drops keys: fewest calls first, ties by name. */
  predicate Lower(counts: Counts, a: string, b: string)
    requires a in counts && b in counts
  {
    counts[a] < counts[b] || (counts[a] == counts[b] && Less(a, b))
  }

  /** The order of `ranked_keys`: most calls first, ties by name. */
  predicate Ahead(counts: Counts, a: string, b: string)
    requires a in counts && b in counts
  {
    counts[a] > counts[b] || (counts[a] == counts[b] && Less(a, b))
  }

  lemma LowerIsTotal(counts: Counts, a: string, b: string)
    requires a in counts && b in counts
    ensures Lower(counts, a, b) || Lower(counts, b, a) || a == b
    ensures !(Lower(counts, a, b) && Lower(counts, b, a)) && (a == b ==> !Lower(counts, a, b))
    ensures Ahead(counts, a, b) || Ahead(counts, b, a) || a == b
    ensures !(Ahead(counts, a, b) && Ahead(counts, b, a)) && (a == b ==> !Ahead(counts, a, b))
  {
    LessIsTotal(a, b);
  }

  lemma AheadMeans(counts: Counts, a: string, b: string)
    requires a in counts && b in counts && Ahead(counts, a, b)
    ensures counts[a] >= counts[b] && (counts[a] == counts[b] ==> Less(a, b))
  {
    hide Less;
  }

  lemma LowerIsTransitive(counts: Counts, a: string, b: string, c: string)
    requires a in counts && b in counts && c in counts
    ensures Lower(counts, a, b) && Lower(counts, b, c) ==> Lower(counts, a, c)
    ensures Ahead(counts, a, b) && Ahead(counts, b, c) ==> Ahead(counts, a, c)
  {
    if Less(a, b) && Less(b, c) {
      LessIsTransitive(a, b, c);
    }
  }

  /** The keys that outrank one. */
  function Above(counts: Counts, key: string): set<string>
    requires key in counts
  {
    set k | k in counts && Lower(counts, key, k)
  }

  /** `_cap_unlocked`: the keys that fewer than max others outrank. */
  function Capped(counts: Counts, max: nat): Counts {
    map k | k in counts && |Above(counts, k)| < max :: counts[k]
  }

  ghost predicate Lowest(counts: Counts, key: string) {
    key in counts && forall k :: k in counts && k != key ==> Lower(counts, key, k)
  }

  lemma {:induction false} SomeLowest(counts: Counts)
    requires counts != map[]
    ensures exists key :: Lowest(counts, key)
    decreases |counts|
  {
    hide Less;
    var first :| first in counts;
    var rest := counts - {first};
    if rest == map[] {
      assert forall k :: k in counts && k != first ==> k in rest;
      assert Lowest(counts, first);
    } else {
      SomeLowest(rest);
      var least :| Lowest(rest, least);
      forall k | k in counts && k != first && k != least ensures Lower(counts, least, k) && k in rest {
        assert Lower(rest, least, k);
      }
      LowerIsTotal(counts, first, least);
      if Lower(counts, first, least) {
        forall k | k in counts && k != first ensures Lower(counts, first, k) {
          if k != least {
            LowerIsTransitive(counts, first, least, k);
          }
        }
        assert Lowest(counts, first);
      } else {
        assert Lowest(counts, least);
      }
    }
  }

  /** Nothing is dropped within the limit. */
  lemma AllKept(counts: Counts, max: nat)
    requires |counts| <= max
    ensures Capped(counts, max) == counts
  {
    hide Less;
    forall k | k in counts ensures |Above(counts, k)| < max {
      LowerIsTotal(counts, k, k);
      assert Above(counts, k) < counts.Keys;
      ProperSubset(Above(counts, k), counts.Keys);
    }
  }

  lemma ProperSubset(a: set<string>, b: set<string>)
    requires a < b
    ensures |a| < |b|
  {
    var x :| x in b && x !in a;
    Subset(a, b - {x});
  }

  lemma {:induction false} Subset(a: set<string>, b: set<string>)
    requires a <= b
    ensures |a| <= |b|
    decreases |a|
  {
    if x :| x in a {
      Subset(a - {x}, b - {x});
    }
  }

  /** Beyond it, the lowest key goes, and the rest is capped as before. */
  lemma LowestGoes(counts: Counts, max: nat, key: string)
    requires |counts| > max && Lowest(counts, key)
    ensures Capped(counts, max) == Capped(counts - {key}, max)
  {
    hide Less;
    var rest := counts - {key};
    LowerIsTotal(counts, key, key);
    assert Above(counts, key) == rest.Keys;
    forall k | k in rest ensures Above(counts, k) == Above(rest, k) {
      LowerIsTotal(counts, k, key);
      forall j | j in counts ensures j in Above(counts, k) <==> j in Above(rest, k) {
        assert j in rest ==> (Lower(counts, k, j) <==> Lower(rest, k, j));
      }
    }
  }

  /** What a cap should be: no more than max keys, none dropped without need, the most called kept. */
  ghost predicate IsCap(counts: Counts, max: nat, kept: Counts) {
    && (forall k :: k in kept ==> k in counts && kept[k] == counts[k])
    && |kept| == (if |counts| <= max then |counts| else max)
    && (forall k, d :: k in kept && d in counts && d !in kept ==> Lower(counts, d, k))
  }

  lemma {:induction false} CappedIsCap(counts: Counts, max: nat)
    ensures IsCap(counts, max, Capped(counts, max))
    decreases |counts|
  {
    hide Lower, Capped, IsCap;
    if |counts| <= max {
      AllKept(counts, max);
      AllIsCap(counts, max);
    } else {
      SomeLowest(counts);
      var key :| Lowest(counts, key);
      LowestGoes(counts, max, key);
      OneFewer(counts, key);
      CappedIsCap(counts - {key}, max);
      CapWithoutLowest(counts, max, key, Capped(counts, max));
    }
  }

  lemma OneFewer(counts: Counts, key: string)
    requires key in counts
    ensures |counts - {key}| == |counts| - 1
  {
    assert (counts - {key}).Keys == counts.Keys - {key};
  }

  lemma AllIsCap(counts: Counts, max: nat)
    requires |counts| <= max
    ensures IsCap(counts, max, counts)
  {
    hide Lower;
  }

  /** A cap of what the lowest key leaves is a cap. */
  lemma CapWithoutLowest(counts: Counts, max: nat, key: string, kept: Counts)
    requires |counts| > max && Lowest(counts, key) && IsCap(counts - {key}, max, kept)
    ensures IsCap(counts, max, kept)
  {
    hide Less;
    var rest := counts - {key};
    OneFewer(counts, key);
    forall k, d | k in kept && d in counts && d !in kept ensures Lower(counts, d, k) {
      if d != key {
        assert Lower(rest, d, k);
      }
    }
  }

  /** What is dropped was called less often than all that is kept, or as often and its name sorts first. */
  lemma KeptOutranks(counts: Counts, max: nat, kept: string, dropped: string)
    requires kept in Capped(counts, max) && dropped in counts && dropped !in Capped(counts, max)
    ensures counts[dropped] <= counts[kept] && (counts[dropped] == counts[kept] ==> Less(dropped, kept))
  {
    hide Less, Capped;
    CappedIsCap(counts, max);
  }

  /** Only one table is that. */
  lemma CapIsUnique(counts: Counts, max: nat, a: Counts, b: Counts)
    requires IsCap(counts, max, a) && IsCap(counts, max, b)
    ensures a == b
  {
    hide Less;
    forall k | k in a ensures k in b {
      NotOutnumbered(counts, max, a, b, k);
    }
    forall k | k in b ensures k in a {
      NotOutnumbered(counts, max, b, a, k);
    }
  }

  lemma NotOutnumbered(counts: Counts, max: nat, a: Counts, b: Counts, k: string)
    requires IsCap(counts, max, a) && IsCap(counts, max, b) && k in a
    ensures k in b
  {
    hide Less;
    if k !in b {
      forall j | j in b ensures j in a && j != k {
        LowerIsTotal(counts, j, k);
      }
      ProperSubset(b.Keys, a.Keys);
      assert false;
    }
  }

  /** The filter of `record_success`: does a stripped key look like a composite tool name? */
  predicate IsComposite(key: string) {
    if key == "" then false
    else if Contains(key, "/") || Contains(key, "__p__") then true
    else
      var sep := Find(key, "__", 0);
      sep.Some? && key[..sep.value] != "" && key[sep.value + 2..] != ""
  }

  /** Spelled out: a slash, a hexadecimal marker, or a first double underscore with something on both sides. */
  lemma CompositeExactly(key: string)
    ensures IsComposite(key) <==>
      || '/' in key
      || (exists k: nat :: OccursAt(key, "__p__", k))
      || (exists k: nat ::
            && 0 < k < |key| - 2 && OccursAt(key, "__", k)
            && forall j: nat :: j < k ==> !OccursAt(key, "__", j))
  {
    hide Find;
    FindChar(key, '/');
    var sep := Find(key, "__", 0);
    if sep.Some? {
      assert forall j: nat :: j < sep.value ==> !OccursAt(key, "__", j);
    }
  }

  function Positive(table: map<string, Option<int>>): Counts {
    map k | k in table && table[k].Some? && table[k].value > 0 :: table[k].value
  }

  /** What `_load` reads. */
  function Loaded(saved: Saved, max: nat): Counts {
    if saved.Unreadable? then map[] else Capped(Positive(saved.counts), max)
  }

  /** What loading takes from a table: its positive numbers, all of them if the limit allows. */
  lemma LoadedExactly(saved: Saved, max: nat)
    ensures saved.Unreadable? ==> Loaded(saved, max) == map[]
    ensures forall k :: k in Loaded(saved, max) ==>
      saved.Table? && k in saved.counts && saved.counts[k] == Some(Loaded(saved, max)[k]) && Loaded(saved, max)[k] > 0
    ensures saved.Table? ==>
      var positive := set k | k in saved.counts && saved.counts[k].Some? && saved.counts[k].value > 0;
      |Loaded(saved, max)| == (if |positive| <= max then |positive| else max)
  {
    hide Capped;
    if saved.Table? {
      var positive := set k | k in saved.counts && saved.counts[k].Some? && saved.counts[k].value > 0;
      assert positive == Positive(saved.counts).Keys;
      CappedIsCap(Positive(saved.counts), max);
    }
  }

  /** What `_persist_unlocked` writes. */
  function Written(counts: Counts): Saved {
    Table(map k | k in counts :: Some(counts[k]))
  }

  /** The store and its file; failed says whether the last attempt to write did. */
  datatype Stats = Stats(counts: Counts, dirty: bool, timer: bool, saved: Saved, failed: bool)

  function Recorded(s: Stats, max: nat, name: string): Stats {
    var key := Strip(name);
    if !IsComposite(key) then s
    else
      var n := if key in s.counts then s.counts[key] else 0;
      s.(counts := Capped(s.counts[key := n + 1], max), dirty := true, timer := true)
  }

  function Removed(s: Stats, name: string): Stats {
    var key := Strip(name);
    if key == "" || key !in s.counts then s
    else s.(counts := s.counts - {key}, dirty := true, timer := true)
  }

  /** `_flush_dirty_unlocked`, where the file system decides whether the write succeeds. */
  function Flushed(s: Stats, ok: bool): Stats {
    if !s.dirty then s
    else if ok then s.(saved := Written(s.counts), dirty := false, failed := false)
    else s.(failed := true)
  }

  function TimerFired(s: Stats, ok: bool): Stats {
    if s.timer then Flushed(s.(timer := false), ok) else s
  }

  /** A read, which makes sure that what is unwritten will be written. */
  function Read(s: Stats): Stats {
    s.(timer := s.timer || s.dirty)
  }

  function Started(saved: Saved, max: nat): Stats {
    Stats(Loaded(saved, max), false, false, saved, false)
  }

  ghost predicate Sorted(keys: seq<string>, before: (string, string) -> bool) {
    forall i, j :: 0 <= i < j < |keys| ==> before(keys[i], keys[j])
  }

  /** A strict total order on some keys. */
  ghost predicate Orders(keys: set<string>, before: (string, string) -> bool) {
    && (forall a, b :: a in keys && b in keys ==> before(a, b) || before(b, a) || a == b)
    && (forall a, b, c :: a in keys && b in keys && c in keys && before(a, b) && before(b, c) ==> before(a, c))
  }

  function Put(key: string, sorted: seq<string>, before: (string, string) -> bool): seq<string> {
    if sorted == [] || before(key, sorted[0]) then [key] + sorted else [sorted[0]] + Put(key, sorted[1..], before)
  }

  lemma {:induction false} PutSorts(
    key: string, sorted: seq<string>, keys: set<string>, before: (string, string) -> bool)
    requires Sorted(sorted, before) && Orders(keys, before) && key in keys && key !in sorted
    requires forall k :: k in sorted ==> k in keys
    ensures Sorted(Put(key, sorted, before), before)
    ensures forall k :: k in Put(key, sorted, before) <==> k == key || k in sorted
    ensures |Put(key, sorted, before)| == |sorted| + 1
  {
    if sorted != [] {
      var first, rest := sorted[0], sorted[1..];
      assert sorted == [first] + rest && first in sorted;
      if before(key, first) {
        forall j | 0 <= j < |sorted| ensures before(key, sorted[j]) {
          assert sorted[j] in sorted;
        }
      } else {
        PutSorts(key, rest, keys, before);
        forall k | k in Put(key, rest, before) ensures before(first, k) {
          if k != key {
            var j :| 0 <= j < |rest| && rest[j] == k;
            assert sorted[j + 1] == k;
          }
        }
      }
    }
  }

  /** `sorted(keys, key=...)` */
  method SortKeys(keys: set<string>, before: (string, string) -> bool) returns (sorted: seq<string>)
    requires Orders(keys, before)
    ensures Sorted(sorted, before) && |sorted| == |keys|
    ensures forall k :: k in sorted <==> k in keys
  {
    var rest := keys;
    sorted := [];
    while rest != {}
      invariant rest <= keys && |sorted| == |keys| - |rest|
      invariant Sorted(sorted, before) && forall k :: k in sorted <==> k in keys && k !in rest
    {
      var key :| key in rest;
      PutSorts(key, sorted, keys, before);
      sorted := Put(key, sorted, before);
      rest := rest - {key};
    }
  }

  lemma LowerOrders(counts: Counts)
    ensures Orders(counts.Keys, (a, b) => a in counts && b in counts && Lower(counts, a, b))
    ensures Orders(counts.Keys, (a, b) => a in counts && b in counts && Ahead(counts, a, b))
  {
    hide Lower, Ahead;
    forall a, b | a in counts && b in counts ensures Lower(counts, a, b) || Lower(counts, b, a) || a == b {
      LowerIsTotal(counts, a, b);
    }
    forall a, b | a in counts && b in counts ensures Ahead(counts, a, b) || Ahead(counts, b, a) || a == b {
      LowerIsTotal(counts, a, b);
    }
    forall a, b, c | a in counts && b in counts && c in counts
      ensures Lower(counts, a, b) && Lower(counts, b, c) ==> Lower(counts, a, c)
      ensures Ahead(counts, a, b) && Ahead(counts, b, c) ==> Ahead(counts, a, c)
    {
      LowerIsTransitive(counts, a, b, c);
    }
  }

  ghost predicate Bounded(counts: Counts, max: nat) {
    |counts| <= max && forall k :: k in counts ==> counts[k] > 0
  }

  /** What was written reads back, and what is unwritten is due to be written unless writing failed. */
  ghost predicate Coherent(s: Stats, max: nat) {
    && Bounded(s.counts, max)
    && (!s.dirty ==> Loaded(s.saved, max) == s.counts)
    && (s.dirty && !s.timer ==> s.failed)
  }

  lemma PositiveWritten(counts: Counts)
    requires forall k :: k in counts ==> counts[k] > 0
    ensures Positive(Written(counts).counts) == counts
  {
  }

  lemma WrittenLoads(counts: Counts, max: nat)
    requires Bounded(counts, max)
    ensures Loaded(Written(counts), max) == counts
  {
    hide Capped;
    PositiveWritten(counts);
    AllKept(counts, max);
  }

  lemma CappedIsBounded(counts: Counts, max: nat)
    requires forall k :: k in counts ==> counts[k] > 0
    ensures Bounded(Capped(counts, max), max)
  {
    hide Capped;
    CappedIsCap(counts, max);
  }

  lemma StartIsCoherent(saved: Saved, max: nat)
    ensures Coherent(Started(saved, max), max)
  {
    hide Capped;
    if saved.Table? {
      CappedIsBounded(Positive(saved.counts), max);
    }
  }

  lemma RecordKeepsCoherent(s: Stats, max: nat, name: string)
    requires Coherent(s, max)
    ensures Coherent(Recorded(s, max, name), max)
  {
    hide Capped, IsComposite, Strip;
    var key := Strip(name);
    CappedIsBounded(s.counts[key := (if key in s.counts then s.counts[key] else 0) + 1], max);
  }

  lemma RemoveKeepsCoherent(s: Stats, max: nat, name: string)
    requires Coherent(s, max)
    ensures Coherent(Removed(s, name), max)
  {
    hide Capped, Strip;
    Subset((s.counts - {Strip(name)}).Keys, s.counts.Keys);
  }

  lemma FlushKeepsCoherent(s: Stats, max: nat, ok: bool)
    requires Coherent(s, max)
    ensures Coherent(Flushed(s, ok), max) && Coherent(TimerFired(s, ok), max) && Coherent(Read(s), max)
  {
    hide Capped, Written, Loaded;
    WrittenLoads(s.counts, max);
  }

  class ToolCallStatsStore {
    const maxKeys: nat
    var counts: Counts
    var dirty: bool
    var timer: bool
    var saved: Saved
    ghost var failed: bool

    ghost function State(): Stats
      reads this
    {
      Stats(counts, dirty, timer, saved, failed)
    }

    ghost predicate Valid()
      reads this
    {
      maxKeys >= 1 && Coherent(State(), maxKeys)
    }

    constructor (saved: Saved, maxKeys: int)
      ensures Valid() && this.maxKeys == (if maxKeys < 1 then 1 else maxKeys)
      ensures State() == Started(saved, this.maxKeys) && !dirty && !timer && this.saved == saved
    {
      this.maxKeys := if maxKeys < 1 then 1 else maxKeys;
      counts, dirty, timer, this.saved, failed := map[], false, false, saved, false;
      new;
      if saved.Table? {
        counts := Positive(saved.counts);
        CapUnlocked();
      }
      StartIsCoherent(saved, this.maxKeys);
    }

    method CapUnlocked()
      modifies this`counts
      ensures counts == Capped(old(counts), maxKeys)
    {
      hide Capped, Lower, Above, Ascending;
      var overflow := |counts| - maxKeys;
      if overflow > 0 {
        var all := counts;
        LowerOrders(all);
        var sorted := SortKeys(all.Keys, (a, b) => a in all && b in all && Lower(all, a, b));
        SortedIsInOrder(all, sorted);
        InOrderIsAscending(all, all, sorted);
        assert sorted[0..] == sorted;
        for i := 0 to overflow
          invariant i <= |sorted| && |counts| == |all| - i && Ascending(counts, sorted[i..])
          invariant Capped(counts, maxKeys) == Capped(all, maxKeys)
        {
          CapStep(counts, sorted[i..], maxKeys);
          assert sorted[i..][0] == sorted[i] && sorted[i..][1..] == sorted[i + 1..];
          counts := counts - {sorted[i]};
        }
      }
      AllKept(counts, maxKeys);
    }

    method RecordSuccess(name: string)
      requires Valid()
      modifies this
      ensures Valid() && State() == Recorded(old(State()), maxKeys, name)
    {
      hide Capped, Strip, Find, Coherent;
      RecordKeepsCoherent(State(), maxKeys, name);
      var key := Strip(name);
      if key == "" {
        return;
      }
      if !Contains(key, "/") && !Contains(key, "__p__") {
        var sep := Find(key, "__", 0);
        if sep.None? {
          return;
        }
        var left, right := key[..sep.value], key[sep.value + 2..];
        if left == "" || right == "" {
          return;
        }
      }
      counts := counts[key := (if key in counts then counts[key] else 0) + 1];
      CapUnlocked();
      dirty := true;
      ScheduleFlushUnlocked();
    }

    method ScheduleFlushUnlocked()
      modifies this`timer
      ensures timer
    {
      if !timer {
        timer := true;
      }
    }

    method Remove(name: string) returns (removed: bool)
      requires Valid()
      modifies this
      ensures Valid() && State() == Removed(old(State()), name)
      ensures removed <==> Strip(name) != "" && Strip(name) in old(counts)
    {
      hide Strip, Coherent;
      RemoveKeepsCoherent(State(), maxKeys, name);
      var key := Strip(name);
      if key == "" || key !in counts {
        return false;
      }
      counts := counts - {key};
      dirty := true;
      ScheduleFlushUnlocked();
      return true;
    }

    /** The parameter says whether writing the file succeeds. */
    method FlushDirtyUnlocked(ok: bool)
      modifies this`saved, this`dirty, this`failed
      ensures State() == Flushed(old(State()), ok)
    {
      if !dirty {
        return;
      }
      if !ok {
        failed := true;
        return;
      }
      saved := Written(counts);
      dirty, failed := false, false;
    }

    method Flush(ok: bool)
      requires Valid()
      modifies this
      ensures Valid() && State() == Flushed(old(State()), ok) && (ok ==> !dirty) && timer == old(timer)
    {
      hide Coherent;
      FlushKeepsCoherent(State(), maxKeys, ok);
      FlushDirtyUnlocked(ok);
    }

    method TimerFlush(ok: bool)
      requires Valid() && timer
      modifies this
      ensures Valid() && State() == TimerFired(old(State()), ok) && !timer && (ok ==> !dirty)
    {
      hide Coherent;
      FlushKeepsCoherent(State(), maxKeys, ok);
      timer := false;
      FlushDirtyUnlocked(ok);
    }

    /** `ranked_keys` */
    method RankedKeys() returns (keys: seq<string>)
      requires Valid()
      modifies this`timer
      ensures Valid() && State() == Read(old(State()))
      ensures |keys| == |counts| && forall k :: k in keys <==> k in counts
      ensures dirty ==> timer
      ensures forall i, j :: 0 <= i < j < |keys| ==>
        && keys[i] in counts && keys[j] in counts
        && counts[keys[i]] >= counts[keys[j]] && (counts[keys[i]] == counts[keys[j]] ==> Less(keys[i], keys[j]))
    {
      hide Coherent, Lower, Ahead, Less;
      FlushKeepsCoherent(State(), maxKeys, true);
      if dirty {
        ScheduleFlushUnlocked();
      }
      var all := counts;
      LowerOrders(all);
      var ahead := (a: string, b: string) => a in all && b in all && Ahead(all, a, b);
      keys := SortKeys(all.Keys, ahead);
      forall i, j | 0 <= i < j < |keys|
        ensures keys[i] in counts && keys[j] in counts && counts[keys[i]] >= counts[keys[j]]
        ensures counts[keys[i]] == counts[keys[j]] ==> Less(keys[i], keys[j])
      {
        assert ahead(keys[i], keys[j]);
        AheadMeans(counts, keys[i], keys[j]);
      }
    }

    /** `top_keys` */
    method TopKeys(n: int) returns (keys: seq<string>)
      requires Valid()
      modifies this`timer
      ensures Valid() && State() == Read(old(State()))
      ensures |keys| == (if n <= 0 then 0 else if n < |counts| then n else |counts|)
      ensures forall k :: k in keys ==> k in counts
      ensures dirty ==> timer
      ensures forall k, other :: k in keys && other in counts && other !in keys ==>
        counts[k] >= counts[other] && (counts[k] == counts[other] ==> Less(k, other))
      ensures forall i, j :: 0 <= i < j < |keys| ==>
        && keys[i] in counts && keys[j] in counts
        && counts[keys[i]] >= counts[keys[j]] && (counts[keys[i]] == counts[keys[j]] ==> Less(keys[i], keys[j]))
    {
      hide Coherent, Less;
      var ranked := RankedKeys();
      var m := if n <= 0 then 0 else if n < |ranked| then n else |ranked|;
      keys := ranked[..m];
      FirstAreAhead(counts, ranked, m);
    }
  }

  /** Whatever is left out of the first keys of a ranking is ranked after them. */
  lemma FirstAreAhead(counts: Counts, ranked: seq<string>, m: nat)
    requires m <= |ranked| && forall k :: k in ranked <==> k in counts
    requires forall i, j :: 0 <= i < j < |ranked| ==>
      counts[ranked[i]] >= counts[ranked[j]] && (counts[ranked[i]] == counts[ranked[j]] ==> Less(ranked[i], ranked[j]))
    ensures forall i :: 0 <= i < m ==> ranked[..m][i] == ranked[i] && ranked[i] in counts
    ensures forall k, other :: k in ranked[..m] && other in counts && other !in ranked[..m] ==>
      counts[k] >= counts[other] && (counts[k] == counts[other] ==> Less(k, other))
  {
    hide Less;
    forall k, other | k in ranked[..m] && other in counts && other !in ranked[..m]
      ensures counts[k] >= counts[other] && (counts[k] == counts[other] ==> Less(k, other))
    {
      var i :| 0 <= i < m && ranked[i] == k;
      var j :| 0 <= j < |ranked| && ranked[j] == other;
      assert other in ranked[..m] || m <= j;
    }
  }

  /** All the keys, lowest first. */
  ghost predicate Ascending(counts: Counts, keys: seq<string>)
    decreases |keys|
  {
    if keys == [] then counts == map[]
    else Lowest(counts, keys[0]) && Ascending(counts - {keys[0]}, keys[1..])
  }

  ghost predicate InOrder(all: Counts, keys: seq<string>) {
    forall i, j {:trigger keys[i], keys[j]} ::
      0 <= i < j < |keys| ==> keys[i] in all && keys[j] in all && Lower(all, keys[i], keys[j])
  }

  lemma SortedIsInOrder(all: Counts, keys: seq<string>)
    requires Sorted(keys, (a, b) => a in all && b in all && Lower(all, a, b))
    requires forall k :: k in keys <==> k in all
    ensures InOrder(all, keys)
  {
    hide Lower;
    var order := (a: string, b: string) => a in all && b in all && Lower(all, a, b);
    forall i, j | 0 <= i < j < |keys| ensures keys[i] in all && keys[j] in all && Lower(all, keys[i], keys[j]) {
      assert order(keys[i], keys[j]);
    }
  }

  lemma InOrderTail(all: Counts, keys: seq<string>)
    requires InOrder(all, keys) && keys != []
    ensures InOrder(all, keys[1..])
    ensures forall k :: k in keys[1..] ==> keys[0] in all && k in all && k != keys[0] && Lower(all, keys[0], k)
  {
    hide Less;
    forall k | k in keys[1..] ensures keys[0] in all && k in all && k != keys[0] && Lower(all, keys[0], k) {
      var j :| 0 <= j < |keys[1..]| && keys[1..][j] == k;
      assert keys[j + 1] == k && keys[0] in all;
      LowerIsTotal(all, keys[0], k);
    }
  }

  lemma {:induction false} InOrderIsAscending(all: Counts, counts: Counts, keys: seq<string>)
    requires InOrder(all, keys) && (forall k :: k in counts ==> k in all && counts[k] == all[k])
    requires forall k :: k in keys <==> k in counts
    ensures Ascending(counts, keys)
    decreases |keys|
  {
    hide InOrder, Less;
    if keys == [] {
      assert counts == map[];
    } else {
      var key, tail, rest := keys[0], keys[1..], counts - {keys[0]};
      assert keys == [key] + tail;
      InOrderTail(all, keys);
      assert Lowest(counts, key);
      InOrderIsAscending(all, rest, tail);
    }
  }

  /** Deleting the first key leaves a table whose cap is the same. */
  lemma CapStep(counts: Counts, keys: seq<string>, max: nat)
    requires Ascending(counts, keys) && |counts| > max
    ensures keys != [] && |counts - {keys[0]}| == |counts| - 1 && Lowest(counts, keys[0])
    ensures Ascending(counts - {keys[0]}, keys[1..]) && Capped(counts - {keys[0]}, max) == Capped(counts, max)
  {
    hide Lower, Capped;
    LowestGoes(counts, max, keys[0]);
  }
}
