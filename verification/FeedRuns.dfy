/** What the feed list keeps over whole runs of loads, additions, removals and edits of the file. */
module FeedRuns {
  import opened Wrappers
  import opened Text
  import opened FeedMigrations
  import opened MigrationLaws
  import opened FeedStores

  datatype Op =
    | Load
    | Add(url: string, caption: string)
    | Remove(url: string)
    | Edit(feeds: seq<FeedEntry>)

  ghost function Step(t: Tables, canon: Canon, file: File, op: Op): File {
    match op
    case Load => LoadStep(t, file).0
    case Add(url, caption) => AddStep(t, canon, file, url, caption).0
    case Remove(url) => RemoveStep(t, canon, file, url).0
    case Edit(feeds) => file.(feeds := feeds)
  }

  ghost function After(t: Tables, canon: Canon, file: File, ops: seq<Op>): File {
    if ops == [] then file else Step(t, canon, After(t, canon, file, ops[..|ops| - 1]), ops[|ops| - 1])
  }

  /** Recorded ids are never forgotten nor recorded twice. */
  lemma {:induction false} AppliedGrows(t: Tables, canon: Canon, file: File, ops: seq<Op>)
    requires Distinct(file.applied)
    ensures var after := After(t, canon, file, ops); file.applied <= after.applied && Distinct(after.applied)
  {
    hide LoadStep, Distinct;
    if ops != [] {
      var before := After(t, canon, file, ops[..|ops| - 1]);
      AppliedGrows(t, canon, file, ops[..|ops| - 1]);
      LoadAppends(t, before);
    }
  }

  lemma LoadAppends(t: Tables, file: File)
    requires Distinct(file.applied)
    ensures var after := LoadStep(t, file).0; file.applied <= after.applied && Distinct(after.applied)
    ensures Ids(LoadStep(t, file).0.applied) == Migrated(t, Cleaned(file.feeds), Ids(file.applied)).handled
  {
    hide Migrated, Cleaned;
    var r := Migrated(t, Cleaned(file.feeds), Ids(file.applied));
    MigratedKeeps(t, Cleaned(file.feeds), Ids(file.applied));
    forall i, j | 0 <= i < j < |file.applied + r.recorded|
      ensures (file.applied + r.recorded)[i] != (file.applied + r.recorded)[j]
    {
      if i < |file.applied| <= j {
        assert file.applied[i] in file.applied && r.recorded[j - |file.applied|] in r.recorded;
      }
    }
    assert Ids(file.applied + r.recorded) == Ids(file.applied) + Ids(r.recorded);
  }

  /** The entry listed under a url. */
  function First(feeds: seq<FeedEntry>, url: string): Option<FeedEntry> {
    if feeds == [] then None else if feeds[0].url == url then Some(feeds[0]) else First(feeds[1..], url)
  }

  /** The first entry that a load would list under a url. */
  function Winner(t: Tables, handled: set<string>, feeds: seq<FeedEntry>, url: string): Option<FeedEntry> {
    if feeds == [] then None
    else if Landing(t, handled, Strip(feeds[0].url)) == url then Some(feeds[0])
    else Winner(t, handled, feeds[1..], url)
  }

  lemma {:induction false} FirstOfSum(a: seq<FeedEntry>, b: seq<FeedEntry>, url: string)
    ensures First(a + b, url) == if First(a, url).Some? then First(a, url) else First(b, url)
  {
    if a == [] {
      assert a + b == b;
    } else {
      assert (a + b)[1..] == a[1..] + b;
      FirstOfSum(a[1..], b, url);
    }
  }

  lemma {:induction false} WinnerOfSum(
    t: Tables, handled: set<string>, a: seq<FeedEntry>, b: seq<FeedEntry>, url: string)
    ensures Winner(t, handled, a + b, url)
         == if Winner(t, handled, a, url).Some? then Winner(t, handled, a, url) else Winner(t, handled, b, url)
  {
    hide Landing, Strip;
    if a == [] {
      assert a + b == b;
    } else {
      assert (a + b)[1..] == a[1..] + b;
      WinnerOfSum(t, handled, a[1..], b, url);
    }
  }

  /** Passing an entry that lands elsewhere does not change who lands here. */
  lemma {:induction false} WinnerLater(t: Tables, r: Run, f: FeedEntry, feeds: seq<FeedEntry>, url: string)
    requires !Moves(t, r.handled, url) && Landing(t, r.handled, Strip(f.url)) != url
    ensures Winner(t, FeedStep(t, r, f).handled, feeds, url) == Winner(t, r.handled, feeds, url)
  {
    hide Strip, FeedStep;
    if feeds != [] {
      WinnerLater(t, r, f, feeds[1..], url);
      LandingLater(t, r, f, Strip(feeds[0].url), url);
    }
  }

  lemma LandingLater(t: Tables, r: Run, f: FeedEntry, from: string, url: string)
    requires !Moves(t, r.handled, url) && Landing(t, r.handled, Strip(f.url)) != url
    ensures Landing(t, FeedStep(t, r, f).handled, from) == url <==> Landing(t, r.handled, from) == url
    ensures !Moves(t, FeedStep(t, r, f).handled, url)
    ensures TurnsOff(t, FeedStep(t, r, f).handled, url) <==> TurnsOff(t, r.handled, url)
  {
    hide Strip, ReplacementId, DisableId, SupplementalId;
    IdsDiffer(from, Strip(f.url));
    IdsDiffer(from, Landing(t, r.handled, Strip(f.url)));
    IdsDiffer(url, Landing(t, r.handled, Strip(f.url)));
    IdsDiffer(Strip(f.url), url);
  }

  ghost predicate SeenIsListed(r: Run) {
    forall u :: u in r.seen <==> First(r.out, u).Some?
  }

  lemma ListStepFirst(r: Run, f: FeedEntry, url: string)
    requires SeenIsListed(r)
    ensures SeenIsListed(ListStep(r, f))
    ensures First(ListStep(r, f).out, url)
         == if First(r.out, url).Some? then First(r.out, url) else if f.url == url then Some(f) else None
  {
    forall u ensures u in ListStep(r, f).seen <==> First(ListStep(r, f).out, u).Some? {
      FirstOfSum(r.out, [f], u);
    }
    FirstOfSum(r.out, [f], url);
  }

  lemma FeedStepFirst(t: Tables, r: Run, f: FeedEntry, url: string)
    requires SeenIsListed(r) && !Moves(t, r.handled, url)
    ensures var next := FeedStep(t, r, f);
            && SeenIsListed(next) && !Moves(t, next.handled, url)
            && First(next.out, url)
            == if First(r.out, url).Some? then First(r.out, url)
               else if Landing(t, r.handled, Strip(f.url)) != url then None
               else Some(FeedEntry(url, f.caption, f.enabled && !TurnsOff(t, r.handled, url)))
  {
    hide Strip, First, ReplacementId, DisableId, SeenIsListed;
    var from := Strip(f.url);
    var land, moved := Landing(t, r.handled, from), MoveStep(t, r, from);
    IdsDiffer(from, land);
    var before := DisableStep(t, moved, land, f.enabled);
    SeenIsListedOf(r, before);
    ListStepFirst(before, FeedEntry(land, f.caption, f.enabled && !TurnsOff(t, moved.handled, land)), url);
  }

  lemma SeenIsListedOf(r: Run, other: Run)
    requires SeenIsListed(r) && other.seen == r.seen && other.out == r.out
    ensures SeenIsListed(other)
  {
  }

  /** Under each url, the migrations list the first entry that lands there, disabled if the tables say so. */
  lemma {:induction false} FeedsFirst(t: Tables, r: Run, feeds: seq<FeedEntry>, url: string)
    requires SeenIsListed(r) && !Moves(t, r.handled, url)
    ensures var done, winner := Feeds(t, r, feeds), Winner(t, r.handled, feeds, url);
            && SeenIsListed(done)
            && First(done.out, url)
            == if First(r.out, url).Some? then First(r.out, url)
               else if winner.None? then None
               else Some(FeedEntry(url, winner.value.caption, winner.value.enabled && !TurnsOff(t, r.handled, url)))
    decreases |feeds|
  {
    hide First, FeedStep, SeenIsListed, Strip, Moves, Landing, TurnsOff;
    if feeds != [] {
      var next := FeedStep(t, r, feeds[0]);
      FeedStepFirst(t, r, feeds[0], url);
      FeedsFirst(t, next, feeds[1..], url);
      if Landing(t, r.handled, Strip(feeds[0].url)) != url {
        WinnerLater(t, r, feeds[0], feeds[1..], url);
        LandingLater(t, r, feeds[0], url, url);
      }
    }
  }

  lemma {:induction false} ExtrasFirst(r: Run, extras: seq<FeedEntry>, url: string)
    requires SeenIsListed(r)
    ensures First(r.out, url).Some? ==> First(Extras(r, extras).out, url) == First(r.out, url)
    ensures (forall e :: e in extras && e.url == url ==> SupplementalId(url) in r.handled) ==>
              First(r.out, url).None? ==> First(Extras(r, extras).out, url).None?
    decreases |extras|
  {
    hide First, SupplementalId, SeenIsListed;
    if extras != [] {
      var e := extras[0];
      if SupplementalId(e.url) !in r.handled {
        var recorded := Record(r, SupplementalId(e.url));
        SeenIsListedOf(r, recorded);
        ListStepFirst(recorded, e, url);
        SeenIsListedOf(ListStep(recorded, e), ListStep(recorded, e).(changed := true));
      }
      ExtrasFirst(ExtraStep(r, e), extras[1..], url);
    }
  }

  /** Tables whose results a load would read back as they are. */
  ghost predicate Tidy(t: Tables) {
    && WellFormed(t)
    && (forall url :: url in t.replacements && Stripped(url) ==> t.replacements[url] != "")
    && (forall e :: e in t.supplemental ==> e.url != "" && Stripped(e.caption))
  }

  ghost predicate Neat(feeds: seq<FeedEntry>) {
    forall f :: f in feeds ==> NeatEntry(f)
  }

  lemma {:induction false} CleanedIsNeat(rows: seq<FeedEntry>)
    ensures Neat(Cleaned(rows))
  {
    hide Strip, Stripped;
    if rows != [] {
      CleanedIsNeat(rows[1..]);
      StripIsStripped(rows[0].url);
      StripIsStripped(rows[0].caption);
    }
  }

  lemma {:induction false} NeatIsClean(feeds: seq<FeedEntry>)
    requires Neat(feeds)
    ensures Cleaned(feeds) == feeds
  {
    hide Strip, Stripped;
    if feeds != [] {
      assert feeds[0] in feeds;
      StripFixesStripped(feeds[0].url);
      StripFixesStripped(feeds[0].caption);
      NeatIsClean(feeds[1..]);
    }
  }

  predicate NeatEntry(f: FeedEntry) {
    f.url != "" && Stripped(f.url) && Stripped(f.caption)
  }

  lemma NeatSnoc(feeds: seq<FeedEntry>, f: FeedEntry)
    requires Neat(feeds) && NeatEntry(f)
    ensures Neat(feeds + [f])
  {
    hide NeatEntry;
  }

  lemma LandingIsNeat(t: Tables, handled: set<string>, url: string)
    requires Tidy(t) && url != "" && Stripped(url)
    ensures Landing(t, handled, url) != "" && Stripped(Landing(t, handled, url))
  {
    hide Stripped, ReplacementId;
  }

  lemma FeedStepLists(t: Tables, r: Run, f: FeedEntry) returns (g: FeedEntry)
    ensures g.url == Landing(t, r.handled, Strip(f.url)) && g.caption == f.caption
    ensures FeedStep(t, r, f).out == r.out || FeedStep(t, r, f).out == r.out + [g]
  {
    hide Strip, ReplacementId, DisableId;
    var url := Landing(t, r.handled, Strip(f.url));
    g := FeedEntry(url, f.caption, f.enabled && !TurnsOff(t, MoveStep(t, r, Strip(f.url)).handled, url));
  }

  lemma FeedStepNeat(t: Tables, r: Run, f: FeedEntry)
    requires Tidy(t) && Neat(r.out) && NeatEntry(f)
    ensures Neat(FeedStep(t, r, f).out)
  {
    hide Strip, Stripped, Tidy, Neat, Landing, FeedStep;
    StripFixesStripped(f.url);
    LandingIsNeat(t, r.handled, f.url);
    var g := FeedStepLists(t, r, f);
    NeatSnoc(r.out, g);
  }

  lemma {:induction false} FeedsNeat(t: Tables, r: Run, feeds: seq<FeedEntry>)
    requires Tidy(t) && Neat(r.out) && Neat(feeds)
    ensures Neat(Feeds(t, r, feeds).out)
    decreases |feeds|
  {
    hide FeedStep, Stripped, Tidy;
    if feeds != [] {
      assert feeds[0] in feeds;
      FeedStepNeat(t, r, feeds[0]);
      FeedsNeat(t, FeedStep(t, r, feeds[0]), feeds[1..]);
    }
  }

  lemma {:induction false} ExtrasNeat(r: Run, extras: seq<FeedEntry>)
    requires Neat(r.out) && Neat(extras)
    ensures Neat(Extras(r, extras).out)
    decreases |extras|
  {
    hide Stripped, SupplementalId;
    if extras != [] {
      assert extras[0] in extras;
      ExtrasNeat(ExtraStep(r, extras[0]), extras[1..]);
    }
  }

  /** A loaded list is neat and settled. */
  lemma LoadedIsNeat(t: Tables, file: File)
    requires Tidy(t)
    ensures var (after, feeds) := LoadStep(t, file);
            Neat(feeds) && (forall f :: f in feeds ==> Quiet(t, Ids(after.applied), f))
    ensures LoadStep(t, file).0 == file || LoadStep(t, file).0.feeds == LoadStep(t, file).1
    ensures var r := Migrated(t, Cleaned(file.feeds), Ids(file.applied)); Ids(LoadStep(t, file).0.applied) == r.handled
  {
    hide Feeds, Extras, Cleaned, Quiet, Neat;
    var rows := Cleaned(file.feeds);
    var r := Migrated(t, rows, Ids(file.applied));
    CleanedIsNeat(file.feeds);
    NoneIsNeat();
    FeedsNeat(t, Start(Ids(file.applied)), rows);
    assert Neat(t.supplemental) by { ExtrasAreNeat(t); }
    ExtrasNeat(Feeds(t, Start(Ids(file.applied)), rows), t.supplemental);
    MigratedKeeps(t, rows, Ids(file.applied));
    assert Ids(file.applied + r.recorded) == Ids(file.applied) + Ids(r.recorded);
    assert r.recorded == [] ==> Ids(file.applied) == r.handled;
  }

  lemma NoneIsNeat()
    ensures Neat([])
  {
  }

  lemma ExtrasAreNeat(t: Tables)
    requires Tidy(t)
    ensures Neat(t.supplemental)
  {
  }

  /** Loading again gives the same list, and leaves the file alone. */
  lemma LoadIsStable(t: Tables, file: File)
    requires Tidy(t)
    ensures LoadStep(t, LoadStep(t, file).0) == LoadStep(t, file)
  {
    hide Migrated, Cleaned, Quiet;
    var (after, feeds) := LoadStep(t, file);
    LoadedIsNeat(t, file);
    if after != file {
      NeatIsClean(feeds);
      var rows, applied := Cleaned(file.feeds), Ids(file.applied);
      var r := Migrated(t, rows, applied);
      MigratedKeeps(t, rows, applied);
      SettledIsOneShot(t, rows, applied);
      assert applied + Ids(r.recorded) == r.handled;
    }
  }

  lemma {:induction false} QuietWinner(t: Tables, handled: set<string>, feeds: seq<FeedEntry>, url: string)
    requires forall f :: f in feeds ==> Quiet(t, handled, f)
    ensures Winner(t, handled, feeds, url) == First(feeds, url)
  {
    hide Strip, Stripped, TurnsOff;
    if feeds != [] {
      assert feeds[0] in feeds;
      StripFixesStripped(feeds[0].url);
      QuietWinner(t, handled, feeds[1..], url);
    }
  }

  /** Which entry of the file a load would list under a url. */
  function Standing(t: Tables, file: File, url: string): Option<FeedEntry> {
    Winner(t, Ids(file.applied), Cleaned(file.feeds), url)
  }

  /** What a load lists under a url that it does not move: the first that lands there, disabled once. */
  lemma LoadFirst(t: Tables, file: File, url: string)
    requires !Moves(t, Ids(file.applied), url)
    ensures var feeds, w := LoadStep(t, file).1, Standing(t, file, url);
            && (w.Some? ==>
                  First(feeds, url)
                  == Some(FeedEntry(url, w.value.caption, w.value.enabled && !TurnsOff(t, Ids(file.applied), url))))
            && (w.None? && (forall e :: e in t.supplemental && e.url == url ==> SupplementalId(url) in file.applied) ==>
                  First(feeds, url).None?)
  {
    hide Feeds, Extras, Winner, Cleaned, Moves, TurnsOff, First, SupplementalId;
    var rows, start := Cleaned(file.feeds), Start(Ids(file.applied));
    assert SeenIsListed(start) by { StartIsListed(Ids(file.applied)); }
    assert First(start.out, url).None? by { FirstOfNone(url); }
    FeedsFirst(t, start, rows, url);
    FeedsKeep(t, Ids(file.applied), start, rows);
    ExtrasFirst(Feeds(t, start, rows), t.supplemental, url);
  }

  lemma StartIsListed(applied: set<string>)
    ensures SeenIsListed(Start(applied))
  {
  }

  lemma FirstOfNone(url: string)
    ensures First([], url).None?
  {
  }

  /** A feed on the list of dead ones is disabled by the load that first sees it, and never again. */
  lemma DeadFeedIsDisabledOnce(t: Tables, file: File, url: string)
    requires Tidy(t) && url in t.disable && !Moves(t, Ids(file.applied), url) && Standing(t, file, url).Some?
    ensures var (after, feeds) := LoadStep(t, file);
            && First(feeds, url).Some?
            && (DisableId(url) !in file.applied ==> !First(feeds, url).value.enabled)
            && (DisableId(url) in file.applied ==>
                  First(feeds, url).value.enabled == Standing(t, file, url).value.enabled)
            && DisableId(url) in after.applied
  {
    hide LoadStep, Standing, First, DisableId;
    LoadFirst(t, file, url);
    LoadedIsNeat(t, file);
    var feeds := LoadStep(t, file).1;
    FirstIsListed(feeds, url);
  }

  lemma {:induction false} FirstIsListed(feeds: seq<FeedEntry>, url: string)
    ensures First(feeds, url).Some? ==> First(feeds, url).value in feeds && First(feeds, url).value.url == url
    ensures First(feeds, url).None? ==> forall f :: f in feeds ==> f.url != url
  {
    if feeds != [] {
      FirstIsListed(feeds[1..], url);
      assert forall f :: f in feeds <==> f == feeds[0] || f in feeds[1..];
    }
  }

  /** What a load would list under a url. */
  function Served(t: Tables, file: File, url: string): Option<FeedEntry> {
    First(LoadStep(t, file).1, url)
  }

  /** After a load, the entries listed stay listed as they are, and nothing pending appears. */
  lemma ServedAfterLoad(t: Tables, file: File, feeds: seq<FeedEntry>, url: string)
    requires Tidy(t)
    requires var (after, loaded) := LoadStep(t, file); forall f :: f in feeds ==> f in loaded
    requires url !in t.replacements || First(feeds, url).Some?
    ensures Served(t, File(feeds, LoadStep(t, file).0.applied), url) == First(feeds, url)
  {
    hide LoadStep, Cleaned, Winner, First, Quiet, Neat;
    var (after, loaded) := LoadStep(t, file);
    LoadedIsNeat(t, file);
    var next := File(feeds, after.applied);
    assert Neat(feeds) by { SubsetIsNeat(feeds, loaded); }
    NeatIsClean(feeds);
    QuietWinner(t, Ids(after.applied), feeds, url);
    FirstIsListed(feeds, url);
    assert First(feeds, url).Some? ==> Quiet(t, Ids(after.applied), First(feeds, url).value);
    QuietMeans(t, Ids(after.applied), feeds, url);
    MigratedKeeps(t, Cleaned(file.feeds), Ids(file.applied));
    LoadFirst(t, next, url);
  }

  lemma SubsetIsNeat(feeds: seq<FeedEntry>, loaded: seq<FeedEntry>)
    requires Neat(loaded) && forall f :: f in feeds ==> f in loaded
    ensures Neat(feeds)
  {
    hide NeatEntry;
  }

  lemma QuietMeans(t: Tables, handled: set<string>, feeds: seq<FeedEntry>, url: string)
    requires First(feeds, url).Some? ==> Quiet(t, handled, First(feeds, url).value)
    ensures First(feeds, url).Some? ==> !Moves(t, handled, url) && !TurnsOff(t, handled, url)
  {
    hide Moves, TurnsOff, Stripped;
    FirstIsListed(feeds, url);
  }

  lemma {:induction false} CleanedOfSum(a: seq<FeedEntry>, b: seq<FeedEntry>)
    ensures Cleaned(a + b) == Cleaned(a) + Cleaned(b)
  {
    hide Strip;
    if a == [] {
      assert a + b == b;
    } else {
      assert (a + b)[1..] == a[1..] + b;
      CleanedOfSum(a[1..], b);
    }
  }

  /** Could a load list an entry with this url under the other one? */
  predicate Brings(t: Tables, from: string, url: string) {
    Strip(from) == url || (Strip(from) in t.replacements && t.replacements[Strip(from)] == url)
  }

  lemma {:induction false} NothingLands(t: Tables, handled: set<string>, rows: seq<FeedEntry>, url: string)
    requires forall f :: f in rows ==> !Brings(t, f.url, url)
    ensures Winner(t, handled, Cleaned(rows), url).None?
  {
    hide Strip, ReplacementId;
    if rows != [] {
      assert rows[0] in rows;
      StripIdempotent(rows[0].url);
      NothingLands(t, handled, rows[1..], url);
    }
  }

  /** The same when an addition comes last. */
  lemma ServedAfterAdd(t: Tables, file: File, f: FeedEntry, url: string)
    requires Tidy(t)
    requires First(LoadStep(t, file).1, url).Some? || (url !in t.replacements && !Brings(t, f.url, url))
    ensures var (after, feeds) := LoadStep(t, file);
            Served(t, File(feeds + [f], after.applied), url) == First(feeds, url)
  {
    hide LoadStep, Cleaned, Winner, First, Quiet, Neat, Brings;
    var (after, feeds) := LoadStep(t, file);
    LoadedIsNeat(t, file);
    NeatIsClean(feeds);
    CleanedOfSum(feeds, [f]);
    WinnerOfSum(t, Ids(after.applied), feeds, Cleaned([f]), url);
    QuietWinner(t, Ids(after.applied), feeds, url);
    FirstIsListed(feeds, url);
    QuietMeans(t, Ids(after.applied), feeds, url);
    if !Brings(t, f.url, url) {
      NothingLands(t, Ids(after.applied), [f], url);
    }
    MigratedKeeps(t, Cleaned(file.feeds), Ids(file.applied));
    LoadFirst(t, File(feeds + [f], after.applied), url);
  }

  lemma {:induction false} WithoutKeeps(canon: Canon, gone: string, feeds: seq<FeedEntry>, url: string)
    ensures forall f :: f in Without(canon, gone, feeds) <==> f in feeds && !Means(canon, gone, f.url)
    ensures !Means(canon, gone, url) ==> First(Without(canon, gone, feeds), url) == First(feeds, url)
    ensures Means(canon, gone, url) ==> First(Without(canon, gone, feeds), url).None?
  {
    hide Means;
    if feeds != [] {
      WithoutKeeps(canon, gone, feeds[1..], url);
      assert forall f :: f in feeds <==> f == feeds[0] || f in feeds[1..];
    }
  }

  /** Operations that cannot bring a url back. */
  ghost predicate Spares(t: Tables, op: Op, url: string) {
    match op
    case Load => true
    case Add(added, _) => !Brings(t, added, url)
    case Remove(_) => true
    case Edit(feeds) => forall f :: f in feeds ==> !Brings(t, f.url, url)
  }

  /** A feed that the tables will not add again, and that no load lists. */
  ghost predicate Gone(t: Tables, file: File, url: string) {
    && Served(t, file, url).None?
    && forall e :: e in t.supplemental && e.url == url ==> SupplementalId(url) in file.applied
  }

  lemma GoneStays(t: Tables, canon: Canon, file: File, op: Op, url: string)
    requires Tidy(t) && url !in t.replacements && Gone(t, file, url) && Spares(t, op, url)
    ensures Gone(t, Step(t, canon, file, op), url)
  {
    hide LoadStep, First, Means, Brings, Strip, SupplementalId;
    var (after, feeds) := LoadStep(t, file);
    AppliedStays(t, file);
    match op
    case Load =>
      LoadIsStable(t, file);
    case Add(added, caption) =>
      LoadIsStable(t, file);
      var f := FeedEntry(Strip(added), Strip(caption), true);
      assert !Brings(t, f.url, url) by { BringsStripped(t, added, url); }
      ServedAfterAdd(t, file, f, url);
    case Remove(gone) =>
      WithoutKeeps(canon, gone, feeds, url);
      ServedAfterLoad(t, file, Without(canon, gone, feeds), url);
    case Edit(edited) =>
      NothingLands(t, Ids(file.applied), edited, url);
      LoadFirst(t, File(edited, file.applied), url);
  }

  lemma BringsStripped(t: Tables, from: string, url: string)
    ensures Brings(t, Strip(from), url) <==> Brings(t, from, url)
  {
    hide Strip;
    StripIdempotent(from);
  }

  lemma AppliedStays(t: Tables, file: File)
    ensures file.applied <= LoadStep(t, file).0.applied
    ensures forall id :: id in file.applied ==> id in LoadStep(t, file).0.applied
  {
    hide Migrated;
  }

  lemma {:induction false} GoneForGood(t: Tables, canon: Canon, file: File, ops: seq<Op>, url: string)
    requires Tidy(t) && url !in t.replacements && Gone(t, file, url)
    requires forall op :: op in ops ==> Spares(t, op, url)
    ensures Gone(t, After(t, canon, file, ops), url)
  {
    hide Gone, Step, Spares;
    if ops != [] {
      var front, last := ops[..|ops| - 1], ops[|ops| - 1];
      assert last in ops && forall op :: op in front ==> op in ops;
      GoneForGood(t, canon, file, front, url);
      GoneStays(t, canon, After(t, canon, file, front), last, url);
    }
  }

  /** A supplemental feed that was removed does not come back, in any run that does not add it. */
  lemma RemovedStaysRemoved(t: Tables, canon: Canon, file: File, extra: FeedEntry, ops: seq<Op>)
    requires Tidy(t) && extra in t.supplemental
    requires forall op :: op in ops ==> Spares(t, op, extra.url)
    ensures Served(t, After(t, canon, RemoveStep(t, canon, file, extra.url).0, ops), extra.url).None?
  {
    hide LoadStep, First, Means, Spares, SupplementalId, Served;
    var url := extra.url;
    var (after, feeds) := LoadStep(t, file);
    var kept := Without(canon, url, feeds);
    assert Means(canon, url, url) by { MeansItself(canon, url); }
    WithoutKeeps(canon, url, feeds, url);
    ServedAfterLoad(t, file, kept, url);
    ExtrasAreRecorded(t, file);
    GoneForGood(t, canon, File(kept, after.applied), ops, url);
  }

  lemma MeansItself(canon: Canon, url: string)
    ensures Means(canon, url, url)
  {
  }

  lemma ExtrasAreRecorded(t: Tables, file: File)
    ensures forall e :: e in t.supplemental ==> SupplementalId(e.url) in LoadStep(t, file).0.applied
  {
    hide Migrated, Cleaned, SupplementalId;
    MigratedKeeps(t, Cleaned(file.feeds), Ids(file.applied));
  }

  /** Operations that leave a listed feed alone. */
  predicate LeavesAlone(canon: Canon, op: Op, url: string) {
    match op
    case Load => true
    case Add(_, _) => true
    case Remove(gone) => !Means(canon, gone, url)
    case Edit(_) => false
  }

  lemma ServedStays(t: Tables, canon: Canon, file: File, op: Op, url: string)
    requires Tidy(t) && Served(t, file, url).Some? && LeavesAlone(canon, op, url)
    ensures Served(t, Step(t, canon, file, op), url) == Served(t, file, url)
  {
    hide LoadStep, First, Means, Strip;
    var (after, feeds) := LoadStep(t, file);
    match op
    case Load =>
      LoadIsStable(t, file);
    case Add(added, caption) =>
      LoadIsStable(t, file);
      ServedAfterAdd(t, file, FeedEntry(Strip(added), Strip(caption), true), url);
    case Remove(gone) =>
      WithoutKeeps(canon, gone, feeds, url);
      ServedAfterLoad(t, file, Without(canon, gone, feeds), url);
  }

  /** A listed feed keeps its state in every run that does not remove it or edit the file. */
  lemma {:induction false} ServedForGood(t: Tables, canon: Canon, file: File, ops: seq<Op>, url: string)
    requires Tidy(t) && Served(t, file, url).Some?
    requires forall op :: op in ops ==> LeavesAlone(canon, op, url)
    ensures Served(t, After(t, canon, file, ops), url) == Served(t, file, url)
  {
    hide Served, Step, LeavesAlone;
    if ops != [] {
      var front, last := ops[..|ops| - 1], ops[|ops| - 1];
      assert last in ops && forall op :: op in front ==> op in ops;
      ServedForGood(t, canon, file, front, url);
      ServedStays(t, canon, After(t, canon, file, front), last, url);
    }
  }

  /** A dead feed that its user enables in the file, after it was disabled, stays enabled. */
  lemma ReenabledStaysEnabled(t: Tables, canon: Canon, file: File, edited: seq<FeedEntry>, ops: seq<Op>, url: string)
    requires Tidy(t) && url in t.disable && DisableId(url) in file.applied && !Moves(t, Ids(file.applied), url)
    requires var f := Standing(t, File(edited, file.applied), url); f.Some? && f.value.enabled
    requires forall op :: op in ops ==> LeavesAlone(canon, op, url)
    ensures var f := Served(t, After(t, canon, Step(t, canon, file, Edit(edited)), ops), url);
            f.Some? && f.value.enabled
  {
    hide LoadStep, Standing, First, LeavesAlone, Moves, DisableId;
    var after := File(edited, file.applied);
    LoadFirst(t, after, url);
    ServedForGood(t, canon, after, ops, url);
  }

  lemma ReleaseIsTidy()
    ensures Tidy(RELEASE)
  {
    ReleaseIsWellFormed();
    forall url | url in RELEASE.replacements ensures RELEASE.replacements[url] != "" {
      assert url == SF_OLD || url == KQED_OLD || url == DW_OLD;
    }
    forall e | e in RELEASE.supplemental ensures e.url != "" && Stripped(e.caption) {
      assert e == RELEASE.supplemental[0] || e == RELEASE.supplemental[1] || e == RELEASE.supplemental[2];
    }
  }
}
