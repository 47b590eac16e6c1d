/**
  * The parse cache of the config stores (src/mcp_proxy/json_file_cache.py). A read takes the file's
  * signature and, on a miss, parses the file: two steps between which the file may be replaced.
  */
module JsonFileCache {
  import opened Wrappers

  /** `_signature`: the missing file has one signature, `()`, however often it goes missing. */
  datatype Sig = MissingFile | Stat(mtimeNs: int, size: int, inode: int)

  /** The file at one instant: its signature, and what parsing it gives; None where that raises. */
  datatype FileState<T> = FileState(sig: Sig, doc: Option<T>)

  datatype Cache<T> = Cache(sig: Option<Sig>, value: Option<T>)

  datatype Answer<T> = Answer(value: Option<T>, parsed: bool)

  /** `get` with its stat at instant i and its parse, if it comes to that, at instant k. */
  function GetStep<T>(c: Cache<T>, h: seq<FileState<T>>, i: nat, k: nat): (Cache<T>, Answer<T>)
    requires i <= k < |h|
  {
    if c.value.Some? && c.sig == Some(h[i].sig) then (c, Answer(c.value, false))
    else if h[k].doc.None? then (c, Answer(None, true))
    else (Cache(Some(h[i].sig), h[k].doc), Answer(h[k].doc, true))
  }

  class MtimeJsonCache<T> {
    var sig: Option<Sig>
    var value: Option<T>

    function State(): Cache<T>
      reads this
    {
      Cache(sig, value)
    }

    constructor ()
      ensures State() == Cache(None, None)
    {
      sig, value := None, None;
    }

    /** h is the history of the file; i and k are the instants of stat and parse. */
    method Get(h: seq<FileState<T>>, i: nat, k: nat) returns (a: Answer<T>)
      requires i <= k < |h|
      modifies this
      ensures (State(), a) == GetStep(old(State()), h, i, k)
    {
      var seen := h[i].sig;
      if value.Some? && sig == Some(seen) { return Answer(value, false); }
      var doc := h[k].doc;
      if doc.None? { return Answer(None, true); }
      sig, value := Some(seen), doc;
      return Answer(value, true);
    }

    method Invalidate()
      modifies this
      ensures State() == Cache(None, None)
    {
      sig, value := None, None;
    }
  }

  // ---- runs ----

  datatype Action = Get(statAt: nat, readAt: nat) | Invalidate(at: nat)

  function Starts(a: Action): nat { if a.Get? then a.statAt else a.at }

  function Ends(a: Action): nat { if a.Get? then a.readAt else a.at }

  /** Reads are serialised by the store's lock; the file changes whenever it likes. */
  predicate Schedule<T>(h: seq<FileState<T>>, acts: seq<Action>) {
    && (forall n :: 0 <= n < |acts| ==> Starts(acts[n]) <= Ends(acts[n]) < |h|)
    && (forall m, n :: 0 <= m < n < |acts| ==> Ends(acts[m]) <= Starts(acts[n]))
  }

  function After<T>(h: seq<FileState<T>>, acts: seq<Action>): Cache<T>
    requires Schedule(h, acts)
  {
    if acts == [] then Cache(None, None)
    else
      var c, a := After(h, acts[..|acts| - 1]), acts[|acts| - 1];
      if a.Get? then GetStep(c, h, a.statAt, a.readAt).0 else Cache(None, None)
  }

  /** The answer of the last read of a schedule. */
  function LastAnswer<T>(h: seq<FileState<T>>, acts: seq<Action>): Answer<T>
    requires Schedule(h, acts) && acts != [] && acts[|acts| - 1].Get?
  {
    var a := acts[|acts| - 1];
    GetStep(After(h, acts[..|acts| - 1]), h, a.statAt, a.readAt).1
  }

  predicate EndsWithGet(acts: seq<Action>) {
    acts != [] && acts[|acts| - 1].Get?
  }

  /** The answer is what parsing gives at some instant of the read itself, or raises for it. */
  ghost predicate Linearizes<T>(h: seq<FileState<T>>, acts: seq<Action>)
    requires Schedule(h, acts) && EndsWithGet(acts)
  {
    var a := acts[|acts| - 1];
    exists j :: a.statAt <= j <= a.readAt && h[j].doc == LastAnswer(h, acts).value
  }

  ghost predicate AlwaysLinearizes<T(!new)>(h: seq<FileState<T>>) {
    forall acts :: Schedule(h, acts) && EndsWithGet(acts) ==> Linearizes(h, acts)
  }

  /**
    * Whenever a signature comes back, everything that parsed in between gives the same document as
    * the file then has.
    */
  ghost predicate Coherent<T>(h: seq<FileState<T>>) {
    forall i, k, j :: 0 <= i <= k <= j < |h| && h[i].sig == h[j].sig && h[k].doc.Some? ==> h[k].doc == h[j].doc
  }

  /** The cached pair: a signature seen at one instant and a document parsed at a later one. */
  ghost predicate CacheInv<T>(c: Cache<T>, h: seq<FileState<T>>, now: nat) {
    c.value.Some? ==> exists i, k :: 0 <= i <= k <= now && k < |h| && c.sig == Some(h[i].sig) && c.value == h[k].doc
  }

  lemma {:induction false} RunKeepsInv<T>(h: seq<FileState<T>>, acts: seq<Action>)
    requires Schedule(h, acts)
    ensures CacheInv(After(h, acts), h, if acts == [] then 0 else Ends(acts[|acts| - 1]))
  {
    if acts != [] {
      var front, a := acts[..|acts| - 1], acts[|acts| - 1];
      RunKeepsInv(h, front);
      var c := After(h, front);
      if a.Get? && c.value.Some? {
        var now := if front == [] then 0 else Ends(front[|front| - 1]);
        var i, k :| 0 <= i <= k <= now && k < |h| && c.sig == Some(h[i].sig) && c.value == h[k].doc;
        assert k <= Ends(a);
      }
    }
  }

  /**
    * Exactly when the cache cannot be told from re-reading the file: for every schedule of reads
    * over a history of the file to linearize, the history must be coherent, and that is enough.
    */
  lemma LinearizesExactly<T(!new)>(h: seq<FileState<T>>)
    ensures AlwaysLinearizes(h) <==> Coherent(h)
  {
    if Coherent(h) {
      forall acts | Schedule(h, acts) && EndsWithGet(acts) ensures Linearizes(h, acts) {
        CoherentLinearizes(h, acts);
      }
    }
    if AlwaysLinearizes(h) {
      forall i, k, j | 0 <= i <= k <= j < |h| && h[i].sig == h[j].sig && h[k].doc.Some?
        ensures h[k].doc == h[j].doc
      {
        StaleRead(h, i, k, j);
      }
    }
  }

  lemma CoherentLinearizes<T>(h: seq<FileState<T>>, acts: seq<Action>)
    requires Coherent(h) && Schedule(h, acts) && EndsWithGet(acts)
    ensures Linearizes(h, acts)
  {
    hide Coherent, CacheInv, After;
    var front, a := acts[..|acts| - 1], acts[|acts| - 1];
    RunKeepsInv(h, front);
    var c, answer := After(h, front), LastAnswer(h, acts);
    if answer.parsed {
      assert h[a.readAt].doc == answer.value;
    } else {
      HitIsCurrent(c, h, if front == [] then 0 else Ends(front[|front| - 1]), a.statAt);
      assert h[a.statAt].doc == answer.value;
    }
  }

  lemma HitIsCurrent<T>(c: Cache<T>, h: seq<FileState<T>>, now: nat, at: nat)
    requires Coherent(h) && CacheInv(c, h, now) && now <= at < |h|
    requires c.value.Some? && c.sig == Some(h[at].sig)
    ensures h[at].doc == c.value
  {
    var i, k :| 0 <= i <= k <= now && k < |h| && c.sig == Some(h[i].sig) && c.value == h[k].doc;
  }

  /** A read that straddles a replacement, and one that finds the first signature again. */
  lemma StaleRead<T>(h: seq<FileState<T>>, i: nat, k: nat, j: nat)
    requires i <= k <= j < |h| && h[i].sig == h[j].sig && h[k].doc.Some?
    requires Linearizes(h, [Get(i, k), Get(j, j)])
    ensures h[k].doc == h[j].doc
  {
    var acts := [Get(i, k), Get(j, j)];
    assert acts[..1] == [Get(i, k)] && [Get(i, k)][..0] == [];
    assert After(h, [Get(i, k)]) == Cache(Some(h[i].sig), h[k].doc);
  }

  /** Every replacement brings a signature that has not been seen before. */
  ghost predicate FreshSignatures<T>(h: seq<FileState<T>>) {
    forall i, k, j :: 0 <= i <= k <= j < |h| && h[i].sig == h[j].sig ==> h[k] == h[j]
  }

  /** Then the cache cannot be told from re-reading the file, in any schedule. */
  lemma FreshLinearizes<T(!new)>(h: seq<FileState<T>>)
    requires FreshSignatures(h)
    ensures AlwaysLinearizes(h)
  {
    hide AlwaysLinearizes;
    assert Coherent(h);
    LinearizesExactly(h);
  }

  /** While the file is corrupt every read raises; no older document is ever served instead. */
  lemma CorruptKeepsRaising<T>(h: seq<FileState<T>>, acts: seq<Action>)
    requires Coherent(h) && Schedule(h, acts) && EndsWithGet(acts)
    requires var a := acts[|acts| - 1]; forall j :: a.statAt <= j <= a.readAt ==> h[j].doc.None?
    ensures LastAnswer(h, acts).value.None?
  {
    CoherentLinearizes(h, acts);
  }

  /** These are reads that all find one signature. */
  predicate AllFind<T>(h: seq<FileState<T>>, acts: seq<Action>, sig: Sig) {
    forall n :: 0 <= n < |acts| ==> acts[n].Get? && acts[n].statAt < |h| && h[acts[n].statAt].sig == sig
  }

  /**
    * An unchanged file is parsed once: after a read that succeeded, however many reads find the same signature, none
    * parses and all give the same document.
    */
  lemma {:induction false} UnchangedFileIsParsedOnce<T>(h: seq<FileState<T>>, acts: seq<Action>, more: seq<Action>)
    requires Schedule(h, acts) && EndsWithGet(acts) && Schedule(h, acts + more)
    requires LastAnswer(h, acts).value.Some? && AllFind(h, more, h[acts[|acts| - 1].statAt].sig)
    ensures After(h, acts + more) == After(h, acts)
    ensures more != [] ==> LastAnswer(h, acts + more) == Answer(LastAnswer(h, acts).value, false)
    decreases |more|
  {
    hide After, Schedule, GetStep, LastAnswer;
    SuccessIsCached(h, acts);
    if more == [] {
      assert acts + more == acts;
    } else {
      var all, front, a := acts + more, more[..|more| - 1], more[|more| - 1];
      assert all[..|all| - 1] == acts + front && all[|all| - 1] == a;
      FrontIsSchedule(h, all);
      UnchangedFileIsParsedOnce(h, acts, front);
      HitsWhatIsCached(h, all);
    }
  }

  /** A read that succeeds leaves its signature and its document in the cache. */
  lemma SuccessIsCached<T>(h: seq<FileState<T>>, acts: seq<Action>)
    requires Schedule(h, acts) && EndsWithGet(acts) && LastAnswer(h, acts).value.Some?
    ensures acts[|acts| - 1].statAt < |h|
    ensures After(h, acts) == Cache(Some(h[acts[|acts| - 1].statAt].sig), LastAnswer(h, acts).value)
  {
    FrontIsSchedule(h, acts);
  }

  lemma HitsWhatIsCached<T>(h: seq<FileState<T>>, acts: seq<Action>)
    requires Schedule(h, acts) && EndsWithGet(acts) && Schedule(h, acts[..|acts| - 1])
    requires var c := After(h, acts[..|acts| - 1]);
             acts[|acts| - 1].statAt < |h| && c.value.Some? && c.sig == Some(h[acts[|acts| - 1].statAt].sig)
    ensures After(h, acts) == After(h, acts[..|acts| - 1])
    ensures LastAnswer(h, acts) == Answer(After(h, acts).value, false)
  {
  }

  lemma FrontIsSchedule<T>(h: seq<FileState<T>>, acts: seq<Action>)
    requires Schedule(h, acts) && acts != []
    ensures Schedule(h, acts[..|acts| - 1])
  {
  }

  /** The missing signature does repeat: created while being read and deleted again, a file haunts the cache. */
  lemma DeletedFileIsStillServed()
    ensures var gone := FileState(MissingFile, Some(0));
            var h := [gone, FileState(Stat(1, 1, 1), Some(1)), gone];
            var acts := [Get(0, 1), Get(2, 2)];
            Schedule(h, acts) && LastAnswer(h, acts).value == Some(1) && !Linearizes(h, acts)
  {
    var h := [FileState(MissingFile, Some(0)), FileState(Stat(1, 1, 1), Some(1)), FileState(MissingFile, Some(0))];
    var acts := [Get(0, 1), Get(2, 2)];
    assert acts[..1] == [Get(0, 1)] && [Get(0, 1)][..0] == [];
    assert After(h, [Get(0, 1)]) == Cache(Some(MissingFile), Some(1));
  }
}
