/** What one load, addition or removal does to the feed list, said of the rows of the file. */
module FeedLaws {
  import opened Wrappers
  import opened Text
  import opened FeedMigrations
  import opened MigrationLaws
  import opened FeedStores
  import opened FeedRuns

  function StrippedRow(row: FeedEntry): FeedEntry {
    FeedEntry(Strip(row.url), Strip(row.caption), row.enabled)
  }

  /** Reading keeps the rows that have a url, in their order, and strips them. */
  lemma {:induction false} CleanedExactly(rows: seq<FeedEntry>, last: FeedEntry)
    ensures Cleaned([]) == []
    ensures Cleaned(rows + [last])
         == if Strip(last.url) == "" then Cleaned(rows) else Cleaned(rows) + [StrippedRow(last)]
    ensures forall f :: f in Cleaned(rows) <==> exists r :: r in rows && Strip(r.url) != "" && f == StrippedRow(r)
  {
    hide Strip;
    if rows != [] {
      CleanedExactly(rows[1..], last);
      assert (rows + [last])[1..] == rows[1..] + [last];
      assert forall r :: r in rows <==> r == rows[0] || r in rows[1..];
    } else {
      assert ([] + [last])[1..] == [];
    }
  }

  /** The url means this feed: the same canonical url, or the same spelling. */
  predicate SameFeed(canon: Canon, url: string, feed: string) {
    || Strip(feed) == Strip(url)
    || (canon(url) != "" && canon(feed) == canon(url))
    || (canon(url) == "" && canon(feed) == Strip(url))
  }

  lemma MeansExactly(canon: Canon, url: string, feed: string)
    ensures Means(canon, url, feed) <==> SameFeed(canon, url, feed)
  {
    hide Strip;
  }

  /** Adding appends an enabled feed of that url to the loaded list, unless one is there already, and saves the list. */
  lemma AddExactly(t: Tables, canon: Canon, file: File, url: string, caption: string)
    ensures var (after, feeds) := AddStep(t, canon, file, url, caption);
            var (loadedFile, loaded) := LoadStep(t, file);
            var known := exists f :: f in loaded && SameFeed(canon, url, f.url);
            && (known ==> feeds == loaded && after == loadedFile)
            && (!known ==>
                  && feeds == loaded + [FeedEntry(Strip(url), Strip(caption), true)]
                  && after == File(feeds, loadedFile.applied))
  {
    hide Strip, LoadStep, SameFeed, Means;
    var loaded := LoadStep(t, file).1;
    forall i | 0 <= i < |loaded| ensures Means(canon, url, loaded[i].url) <==> SameFeed(canon, url, loaded[i].url) {
      MeansExactly(canon, url, loaded[i].url);
    }
    assert forall i :: 0 <= i < |loaded| ==> loaded[i] in loaded;
  }

  /** Removing takes away exactly the feeds that the url means; the others keep their order, and the file has them. */
  lemma RemoveExactly(t: Tables, canon: Canon, file: File, url: string)
    ensures var (after, kept) := RemoveStep(t, canon, file, url);
            && after == File(kept, LoadStep(t, file).0.applied)
            && (forall f :: f in kept <==> f in LoadStep(t, file).1 && !SameFeed(canon, url, f.url))
  {
    hide LoadStep;
    WithoutMembers(canon, url, LoadStep(t, file).1);
  }

  lemma {:induction false} WithoutMembers(canon: Canon, url: string, feeds: seq<FeedEntry>)
    ensures forall f :: f in Without(canon, url, feeds) <==> f in feeds && !SameFeed(canon, url, f.url)
  {
    hide Means, SameFeed;
    if feeds != [] {
      WithoutMembers(canon, url, feeds[1..]);
      MeansExactly(canon, url, feeds[0].url);
      assert forall f :: f in feeds <==> f == feeds[0] || f in feeds[1..];
    }
  }

  lemma {:induction false} WithoutKeepsOrder(canon: Canon, url: string, feeds: seq<FeedEntry>, last: FeedEntry)
    ensures Without(canon, url, feeds + [last])
         == Without(canon, url, feeds) + if SameFeed(canon, url, last.url) then [] else [last]
  {
    hide Means, SameFeed;
    MeansExactly(canon, url, last.url);
    if feeds != [] {
      WithoutKeepsOrder(canon, url, feeds[1..], last);
      assert (feeds + [last])[1..] == feeds[1..] + [last];
    } else {
      assert ([] + [last])[1..] == [];
    }
  }

  /** Every row that would be listed under a url, now or when it is replaced, is this one. */
  ghost predicate OnlyRow(t: Tables, rows: seq<FeedEntry>, f: FeedEntry, url: string) {
    forall g :: g in rows && Brings(t, g.url, url) ==> g == f
  }

  /** A feed whose url a release replaces moves to the new url, with its caption and its state, and only once. */
  lemma ReplacedFeedMoves(t: Tables, file: File, f: FeedEntry, target: string)
    requires f in file.feeds && Strip(f.url) != "" && Strip(f.url) in t.replacements
    requires t.replacements[Strip(f.url)] == target && target !in t.replacements
    requires ReplacementId(Strip(f.url)) !in file.applied && OnlyRow(t, file.feeds, f, target)
    ensures First(LoadStep(t, file).1, target)
         == Some(FeedEntry(target, Strip(f.caption),
                           f.enabled && !(target in t.disable && DisableId(target) !in file.applied)))
  {
    hide LoadStep, Strip, ReplacementId, DisableId, First, Cleaned, Winner;
    LoadFirst(t, file, target);
    WinnerIs(t, Ids(file.applied), file.feeds, f, target);
  }

  lemma {:induction false} WinnerIs(
    t: Tables, handled: set<string>, rows: seq<FeedEntry>, f: FeedEntry, url: string)
    requires f in rows && Strip(f.url) != "" && Landing(t, handled, Strip(f.url)) == url && OnlyRow(t, rows, f, url)
    ensures Winner(t, handled, Cleaned(rows), url) == Some(StrippedRow(f))
  {
    hide Strip, ReplacementId;
    var first, rest := rows[0], rows[1..];
    assert rows == [first] + rest;
    StripIdempotent(first.url);
    assert forall g :: g in rest ==> g in rows;
    if Strip(first.url) != "" && Landing(t, handled, Strip(first.url)) == url {
      assert Brings(t, first.url, url);
      assert Cleaned(rows)[0] == StrippedRow(first);
    } else {
      WinnerIs(t, handled, rest, f, url);
      if Strip(first.url) != "" {
        assert Cleaned(rows) == [StrippedRow(first)] + Cleaned(rest);
        assert Cleaned(rows)[1..] == Cleaned(rest);
      }
    }
  }

  /** A feed that a release adds is listed as it is by the first load, unless its url is listed already. */
  lemma ExtraIsListed(t: Tables, file: File, e: FeedEntry)
    requires e in t.supplemental && SupplementalId(e.url) !in file.applied
    requires forall g :: g in t.supplemental && g.url == e.url ==> g == e
    requires !Moves(t, Ids(file.applied), e.url)
    ensures First(LoadStep(t, file).1, e.url)
         == if Standing(t, file, e.url).Some?
            then Some(FeedEntry(e.url, Standing(t, file, e.url).value.caption,
                                Standing(t, file, e.url).value.enabled
                                && !(e.url in t.disable && DisableId(e.url) !in file.applied)))
            else Some(e)
  {
    hide Feeds, Extras, Winner, Cleaned, Moves, First, SupplementalId, DisableId, SeenIsListed;
    LoadFirst(t, file, e.url);
    var rows, start := Cleaned(file.feeds), Start(Ids(file.applied));
    StartIsListed(Ids(file.applied));
    FirstOfNone(e.url);
    FeedsFirst(t, start, rows, e.url);
    OnlyTheirs(t, start, rows, SupplementalId(e.url), e.url);
    PendingIsListed(Feeds(t, start, rows), t.supplemental, e);
  }

  /** Passing the rows records no supplemental id. */
  lemma {:induction false} OnlyTheirs(t: Tables, r: Run, feeds: seq<FeedEntry>, id: string, url: string)
    requires id == SupplementalId(url) && id !in r.handled
    ensures id !in Feeds(t, r, feeds).handled
    decreases |feeds|
  {
    hide Strip, ReplacementId, DisableId, SupplementalId;
    if feeds != [] {
      var from := Strip(feeds[0].url);
      IdsDiffer(from, url);
      IdsDiffer(Landing(t, r.handled, from), url);
      OnlyTheirs(t, FeedStep(t, r, feeds[0]), feeds[1..], id, url);
    }
  }

  lemma {:induction false} PendingIsListed(r: Run, extras: seq<FeedEntry>, e: FeedEntry)
    requires SeenIsListed(r) && e in extras && SupplementalId(e.url) !in r.handled
    requires forall g :: g in extras && g.url == e.url ==> g == e
    ensures First(Extras(r, extras).out, e.url)
         == if First(r.out, e.url).Some? then First(r.out, e.url) else Some(e)
    decreases |extras|
  {
    hide First, SupplementalId, SeenIsListed;
    var x, rest := extras[0], extras[1..];
    IdsDiffer(x.url, e.url);
    assert extras == [x] + rest;
    var recorded := Record(r, SupplementalId(x.url));
    if SupplementalId(x.url) !in r.handled {
      SeenIsListedOf(r, recorded);
      ListStepFirst(recorded, x, e.url);
      SeenIsListedOf(ListStep(recorded, x), ListStep(recorded, x).(changed := true));
    }
    var next := ExtraStep(r, x);
    assert SeenIsListed(next);
    assert First(next.out, e.url) == if First(r.out, e.url).Some? then First(r.out, e.url)
                                     else if x == e then Some(e) else None;
    if x == e {
      ExtrasFirst(next, rest, e.url);
    } else {
      PendingIsListed(next, rest, e);
    }
  }

  /** The entry is one of the rows, with its url stripped. */
  ghost predicate AsListed(rows: seq<FeedEntry>, g: FeedEntry) {
    exists f :: f in rows && g == FeedEntry(Strip(f.url), f.caption, f.enabled)
  }

  /** What `changed` tells: if false, every entry listed is as it was; if true, something is recorded. */
  lemma ChangedMeans(t: Tables, feeds: seq<FeedEntry>, applied: set<string>)
    ensures var r := Migrated(t, feeds, applied);
            && (!r.changed ==> forall g :: g in r.out ==> AsListed(feeds, g))
            && (r.changed ==> r.recorded != [])
  {
    FeedsChanged(t, Start(applied), feeds, feeds);
    ExtrasChanged(Feeds(t, Start(applied), feeds), t.supplemental);
  }

  lemma {:induction false} FeedsChanged(t: Tables, r: Run, feeds: seq<FeedEntry>, all: seq<FeedEntry>)
    requires forall f :: f in feeds ==> f in all
    requires (r.changed ==> r.recorded != []) && (!r.changed ==> forall g :: g in r.out ==> AsListed(all, g))
    ensures var done := Feeds(t, r, feeds);
            && (done.changed ==> done.recorded != [])
            && (!done.changed ==> forall g :: g in done.out ==> AsListed(all, g))
    decreases |feeds|
  {
    hide Strip, ReplacementId, DisableId;
    if feeds != [] {
      FeedStepChanged(t, r, feeds[0], all);
      FeedsChanged(t, FeedStep(t, r, feeds[0]), feeds[1..], all);
    }
  }

  lemma FeedStepChanged(t: Tables, r: Run, f: FeedEntry, all: seq<FeedEntry>)
    requires f in all
    requires (r.changed ==> r.recorded != []) && (!r.changed ==> forall g :: g in r.out ==> AsListed(all, g))
    ensures var next := FeedStep(t, r, f);
            && (next.changed ==> next.recorded != [])
            && (!next.changed ==> forall g :: g in next.out ==> AsListed(all, g))
  {
    hide Strip, ReplacementId, DisableId, AsListed;
    AsListedOf(all, f);
  }

  lemma AsListedOf(all: seq<FeedEntry>, f: FeedEntry)
    requires f in all
    ensures AsListed(all, FeedEntry(Strip(f.url), f.caption, f.enabled))
  {
    hide Strip;
  }

  lemma {:induction false} ExtrasChanged(r: Run, extras: seq<FeedEntry>)
    requires r.changed ==> r.recorded != []
    ensures var done := Extras(r, extras);
            && (done.changed ==> done.recorded != [])
            && (!done.changed ==> !r.changed && done.out == r.out)
    decreases |extras|
  {
    hide SupplementalId;
    if extras != [] {
      ExtrasChanged(ExtraStep(r, extras[0]), extras[1..]);
    }
  }

  /** Disabling what is disabled already is no change. */
  lemma {:induction false} DisabledStaysUnchanged(t: Tables, feeds: seq<FeedEntry>, applied: set<string>)
    requires forall f :: f in feeds ==> !f.enabled && Strip(f.url) !in t.replacements
    requires forall e :: e in t.supplemental ==> SupplementalId(e.url) in applied
    ensures !Migrated(t, feeds, applied).changed
  {
    hide Strip, SupplementalId;
    DisabledPass(t, Start(applied), feeds);
    HandledExtrasPass(Feeds(t, Start(applied), feeds), t.supplemental);
  }

  lemma {:induction false} DisabledPass(t: Tables, r: Run, feeds: seq<FeedEntry>)
    requires forall f :: f in feeds ==> !f.enabled && Strip(f.url) !in t.replacements
    requires !r.changed
    ensures !Feeds(t, r, feeds).changed && r.handled <= Feeds(t, r, feeds).handled
    decreases |feeds|
  {
    hide Strip, DisableId, ReplacementId;
    if feeds != [] {
      DisabledPass(t, FeedStep(t, r, feeds[0]), feeds[1..]);
    }
  }
}
