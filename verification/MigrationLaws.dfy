/** Running the feed migrations again changes nothing, exactly for tables that do not feed themselves. */
module MigrationLaws {
  import opened Text
  import opened FeedMigrations

  /** Running on the output, with what was recorded, changes and records nothing. */
  ghost predicate OneShot(t: Tables, feeds: seq<FeedEntry>, applied: set<string>) {
    var r := Migrated(t, feeds, applied);
    var again := Migrated(t, r.out, applied + (set x | x in r.recorded));
    again.out == r.out && again.recorded == [] && !again.changed
  }

  /** A replacement's target is stripped, and not itself replaced by another url. */
  predicate GoodReplacement(t: Tables, url: string)
    requires url in t.replacements
  {
    var target := t.replacements[url];
    Stripped(target) && (target in t.replacements ==> target == url)
  }

  /** A supplemental feed's url is stripped and in neither of the other tables. */
  predicate GoodExtra(t: Tables, extra: FeedEntry) {
    Stripped(extra.url) && extra.url !in t.replacements && extra.url !in t.disable
  }

  ghost predicate WellFormed(t: Tables) {
    && (forall url :: url in t.replacements && Stripped(url) ==> GoodReplacement(t, url))
    && (forall extra :: extra in t.supplemental ==> GoodExtra(t, extra))
  }

  /** The migrations leave an entry as it is. */
  predicate Quiet(t: Tables, handled: set<string>, f: FeedEntry) {
    Stripped(f.url) && !Moves(t, handled, f.url) && !TurnsOff(t, handled, f.url)
  }

  ghost predicate DistinctUrls(feeds: seq<FeedEntry>) {
    forall i, j :: 0 <= i < j < |feeds| ==> feeds[i].url != feeds[j].url
  }

  lemma DistinctSnoc(ids: seq<string>, id: string)
    requires Distinct(ids) && id !in ids
    ensures Distinct(ids + [id])
  {
    forall i, j | 0 <= i < j < |ids + [id]| ensures (ids + [id])[i] != (ids + [id])[j] {
      assert ids[i] in ids;
    }
  }

  lemma DistinctUrlsSnoc(feeds: seq<FeedEntry>, f: FeedEntry)
    requires DistinctUrls(feeds) && forall g :: g in feeds ==> g.url != f.url
    ensures DistinctUrls(feeds + [f])
  {
    forall i, j | 0 <= i < j < |feeds + [f]| ensures (feeds + [f])[i].url != (feeds + [f])[j].url {
      assert feeds[i] in feeds;
    }
  }

  /** What holds of the variables throughout. */
  ghost predicate Consistent(t: Tables, applied: set<string>, r: Run) {
    && r.handled == applied + (set x | x in r.recorded)
    && Distinct(r.recorded)
    && (forall x :: x in r.recorded ==> x !in applied)
    && (forall f :: f in r.out ==> f.url in r.seen)
    && DistinctUrls(r.out)
  }

  ghost predicate Settled(t: Tables, r: Run) {
    forall f :: f in r.out ==> Quiet(t, r.handled, f)
  }

  lemma RecordKeeps(t: Tables, applied: set<string>, r: Run, id: string)
    requires Consistent(t, applied, r) && id !in r.handled
    ensures Consistent(t, applied, Record(r, id))
    ensures Settled(t, r) ==> Settled(t, Record(r, id))
  {
    hide Stripped, ReplacementId, DisableId, Distinct, DistinctUrls;
    DistinctSnoc(r.recorded, id);
    assert forall x :: x in r.recorded + [id] <==> x in r.recorded || x == id;
    assert r.handled + {id} == applied + (set x | x in r.recorded + [id]);
  }

  lemma MoveKeeps(t: Tables, applied: set<string>, r: Run, from: string)
    requires Consistent(t, applied, r) && Stripped(from)
    ensures var moved, url := MoveStep(t, r, from), Landing(t, r.handled, from);
            && Consistent(t, applied, moved) && moved.handled >= r.handled
            && (WellFormed(t) && Settled(t, r) ==> Settled(t, moved) && Stripped(url) && !Moves(t, moved.handled, url))
  {
    hide Stripped, ReplacementId, DisableId, Settled;
    if Moves(t, r.handled, from) {
      RecordKeeps(t, applied, r, ReplacementId(from));
      SettledIgnoresChanged(t, Record(r, ReplacementId(from)), true);
    }
  }

  lemma SettledIgnoresChanged(t: Tables, r: Run, changed: bool)
    ensures Settled(t, r) <==> Settled(t, r.(changed := changed))
  {
    hide Quiet;
  }

  lemma DisableKeeps(t: Tables, applied: set<string>, r: Run, url: string, enabled: bool)
    requires Consistent(t, applied, r)
    ensures var off := DisableStep(t, r, url, enabled);
            && Consistent(t, applied, off) && off.handled >= r.handled && !TurnsOff(t, off.handled, url)
            && (Settled(t, r) ==> Settled(t, off))
  {
    hide Stripped, ReplacementId, DisableId, Settled;
    if TurnsOff(t, r.handled, url) {
      RecordKeeps(t, applied, r, DisableId(url));
      SettledIgnoresChanged(t, Record(r, DisableId(url)), r.changed || enabled);
    }
  }

  lemma ListKeeps(t: Tables, applied: set<string>, r: Run, f: FeedEntry)
    requires Consistent(t, applied, r)
    ensures Consistent(t, applied, ListStep(r, f)) && ListStep(r, f).handled == r.handled
    ensures Settled(t, r) && Quiet(t, r.handled, f) ==> Settled(t, ListStep(r, f))
  {
    hide Quiet, Distinct, DistinctUrls;
    if f.url !in r.seen {
      DistinctUrlsSnoc(r.out, f);
    }
  }

  lemma FeedStepKeeps(t: Tables, applied: set<string>, r: Run, f: FeedEntry)
    requires Consistent(t, applied, r)
    ensures Consistent(t, applied, FeedStep(t, r, f)) && FeedStep(t, r, f).handled >= r.handled
    ensures WellFormed(t) && Settled(t, r) ==> Settled(t, FeedStep(t, r, f))
  {
    StripIsStripped(f.url);
    hide Stripped, Strip, ReplacementId, DisableId, Consistent, Settled, WellFormed;
    hide Landing, MoveStep, DisableStep, ListStep;
    var from := Strip(f.url);
    var url, moved := Landing(t, r.handled, from), MoveStep(t, r, from);
    MoveKeeps(t, applied, r, from);
    DisableKeeps(t, applied, moved, url, f.enabled);
    ListKeeps(t, applied, DisableStep(t, moved, url, f.enabled),
      FeedEntry(url, f.caption, f.enabled && !TurnsOff(t, moved.handled, url)));
  }

  lemma {:induction false} FeedsKeep(t: Tables, applied: set<string>, r: Run, feeds: seq<FeedEntry>)
    requires Consistent(t, applied, r)
    ensures Consistent(t, applied, Feeds(t, r, feeds)) && Feeds(t, r, feeds).handled >= r.handled
    ensures WellFormed(t) && Settled(t, r) ==> Settled(t, Feeds(t, r, feeds))
    decreases |feeds|
  {
    hide FeedStep, Consistent, Settled, WellFormed;
    if feeds != [] {
      FeedStepKeeps(t, applied, r, feeds[0]);
      FeedsKeep(t, applied, FeedStep(t, r, feeds[0]), feeds[1..]);
    }
  }

  lemma ExtraStepKeeps(t: Tables, applied: set<string>, r: Run, extra: FeedEntry)
    requires Consistent(t, applied, r)
    ensures var done := ExtraStep(r, extra);
            && Consistent(t, applied, done) && done.handled == r.handled + {SupplementalId(extra.url)}
            && (GoodExtra(t, extra) && Settled(t, r) ==> Settled(t, done))
  {
    hide Stripped, SupplementalId, Consistent, Settled, ListStep;
    var id := SupplementalId(extra.url);
    if id !in r.handled {
      RecordKeeps(t, applied, r, id);
      ListKeeps(t, applied, Record(r, id), extra);
      var listed := ListStep(Record(r, id), extra);
      SettledIgnoresChanged(t, listed, true);
      assert Consistent(t, applied, listed.(changed := true)) by { ConsistentIgnoresChanged(t, applied, listed, true); }
    }
  }

  lemma ConsistentIgnoresChanged(t: Tables, applied: set<string>, r: Run, changed: bool)
    ensures Consistent(t, applied, r) <==> Consistent(t, applied, r.(changed := changed))
  {
  }

  lemma {:induction false} ExtrasKeep(t: Tables, applied: set<string>, r: Run, extras: seq<FeedEntry>)
    requires Consistent(t, applied, r)
    ensures var done := Extras(r, extras);
            && Consistent(t, applied, done) && done.handled >= r.handled
            && (forall e :: e in extras ==> SupplementalId(e.url) in done.handled)
            && ((forall e :: e in extras ==> GoodExtra(t, e)) && Settled(t, r) ==> Settled(t, done))
    decreases |extras|
  {
    hide ExtraStep, Consistent, Settled, SupplementalId, GoodExtra;
    if extras != [] {
      ExtraStepKeeps(t, applied, r, extras[0]);
      ExtrasKeep(t, applied, ExtraStep(r, extras[0]), extras[1..]);
      assert forall e :: e in extras <==> e == extras[0] || e in extras[1..];
    }
  }

  /** What a migration records is new, and what it lists is listed once. */
  lemma MigratedKeeps(t: Tables, feeds: seq<FeedEntry>, applied: set<string>)
    ensures var r := Migrated(t, feeds, applied);
            && Consistent(t, applied, r)
            && (forall e :: e in t.supplemental ==> SupplementalId(e.url) in r.handled)
            && (WellFormed(t) ==> Settled(t, r))
  {
    hide Feeds, Extras;
    FeedsKeep(t, applied, Start(applied), feeds);
    ExtrasKeep(t, applied, Feeds(t, Start(applied), feeds), t.supplemental);
  }

  lemma {:induction false} QuietFeedsPass(t: Tables, r: Run, feeds: seq<FeedEntry>)
    requires forall f :: f in feeds ==> Quiet(t, r.handled, f) && f.url !in r.seen
    requires DistinctUrls(feeds)
    ensures Feeds(t, r, feeds) == r.(out := r.out + feeds, seen := r.seen + set f | f in feeds :: f.url)
    decreases |feeds|
  {
    hide Quiet, FeedStep;
    if feeds == [] {
      assert r.out + feeds == r.out;
      assert r.seen + (set f | f in feeds :: f.url) == r.seen;
    } else {
      var f, next := feeds[0], FeedStep(t, r, feeds[0]);
      QuietFeedPasses(t, r, f);
      assert forall g :: g in feeds <==> g == f || g in feeds[1..];
      QuietFeedsPass(t, next, feeds[1..]);
      assert r.out + [f] + feeds[1..] == r.out + feeds;
      assert {f.url} + (set g | g in feeds[1..] :: g.url) == (set g | g in feeds :: g.url);
    }
  }

  lemma QuietFeedPasses(t: Tables, r: Run, f: FeedEntry)
    requires Quiet(t, r.handled, f) && f.url !in r.seen
    ensures FeedStep(t, r, f) == r.(out := r.out + [f], seen := r.seen + {f.url})
  {
    StripFixesStripped(f.url);
    hide Strip, Stripped, ReplacementId, DisableId;
  }

  lemma {:induction false} HandledExtrasPass(r: Run, extras: seq<FeedEntry>)
    requires forall e :: e in extras ==> SupplementalId(e.url) in r.handled
    ensures Extras(r, extras) == r
    decreases |extras|
  {
    hide SupplementalId;
    if extras != [] {
      HandledExtrasPass(r, extras[1..]);
    }
  }

  lemma SettledIsOneShot(t: Tables, feeds: seq<FeedEntry>, applied: set<string>)
    requires Settled(t, Migrated(t, feeds, applied))
    ensures OneShot(t, feeds, applied)
  {
    hide Feeds, Extras, Quiet, SupplementalId, Distinct, DistinctUrls;
    MigratedKeeps(t, feeds, applied);
    var r := Migrated(t, feeds, applied);
    QuietFeedsPass(t, Start(r.handled), r.out);
    var passed := Feeds(t, Start(r.handled), r.out);
    assert [] + r.out == r.out;
    HandledExtrasPass(passed, t.supplemental);
  }

  /** Records are only ever appended. */
  lemma StepAppends(t: Tables, r: Run, f: FeedEntry)
    ensures r.recorded <= FeedStep(t, r, f).recorded
    ensures |FeedStep(t, r, f).recorded| == |r.recorded| ==>
              && !Moves(t, r.handled, Strip(f.url)) && !TurnsOff(t, r.handled, Strip(f.url))
              && FeedStep(t, r, f) == ListStep(r, FeedEntry(Strip(f.url), f.caption, f.enabled))
  {
    hide Strip, ReplacementId, DisableId;
  }

  /** A pass that records nothing found every entry quiet, and lists stripped urls only. */
  lemma {:induction false} SilentPass(t: Tables, r: Run, feeds: seq<FeedEntry>)
    ensures |Feeds(t, r, feeds).recorded| >= |r.recorded|
    ensures |Feeds(t, r, feeds).recorded| == |r.recorded| ==>
              && (forall f :: f in feeds ==>
                    !Moves(t, r.handled, Strip(f.url)) && !TurnsOff(t, r.handled, Strip(f.url)))
              && (forall g :: g in Feeds(t, r, feeds).out ==> g in r.out || Stripped(g.url))
    decreases |feeds|
  {
    hide Strip, Stripped, FeedStep, Moves, TurnsOff;
    if feeds != [] {
      var next := FeedStep(t, r, feeds[0]);
      StepAppends(t, r, feeds[0]);
      StripIsStripped(feeds[0].url);
      SilentPass(t, next, feeds[1..]);
      assert forall f :: f in feeds <==> f == feeds[0] || f in feeds[1..];
    }
  }

  lemma {:induction false} ExtrasAppend(r: Run, extras: seq<FeedEntry>)
    ensures |Extras(r, extras).recorded| >= |r.recorded|
    ensures |Extras(r, extras).recorded| == |r.recorded| ==> Extras(r, extras) == r
    decreases |extras|
  {
    hide SupplementalId;
    if extras != [] {
      ExtrasAppend(ExtraStep(r, extras[0]), extras[1..]);
    }
  }

  /** One migration is one-shot exactly when it leaves every entry settled. */
  lemma OneShotIsSettled(t: Tables, feeds: seq<FeedEntry>, applied: set<string>)
    ensures OneShot(t, feeds, applied) <==> Settled(t, Migrated(t, feeds, applied))
  {
    hide Feeds, Extras, Strip, Stripped, Moves, TurnsOff;
    var r := Migrated(t, feeds, applied);
    if Settled(t, r) {
      SettledIsOneShot(t, feeds, applied);
    }
    if OneShot(t, feeds, applied) {
      MigratedKeeps(t, feeds, applied);
      var passed := Feeds(t, Start(r.handled), r.out);
      SilentPass(t, Start(r.handled), r.out);
      ExtrasAppend(passed, t.supplemental);
      forall f | f in r.out ensures Quiet(t, r.handled, f) {
        StripFixesStripped(f.url);
      }
    }
  }

  lemma {:induction false} ExtrasRecordTheirs(r: Run, extras: seq<FeedEntry>)
    ensures forall x :: x in Extras(r, extras).handled ==>
      x in r.handled || exists e :: e in extras && x == SupplementalId(e.url)
    ensures r.out <= Extras(r, extras).out
    decreases |extras|
  {
    hide SupplementalId;
    if extras != [] {
      var e := extras[0];
      ExtrasRecordTheirs(ExtraStep(r, e), extras[1..]);
      assert forall g :: g in extras <==> g == e || g in extras[1..];
    }
  }

  lemma OnlyFeedLands(t: Tables, f: FeedEntry)
    requires f.url in t.replacements && Stripped(f.url)
    ensures var r := Feeds(t, Start({}), [f]);
            && |r.out| == 1 && r.out[0].url == t.replacements[f.url]
            && r.handled <= {ReplacementId(f.url), DisableId(t.replacements[f.url])}
  {
    StripFixesStripped(f.url);
    hide Strip, Stripped, ReplacementId, DisableId;
    var r := FeedStep(t, Start({}), f);
    assert [f][1..] == [] && Feeds(t, r, []) == r;
  }

  /** A replacement that is not good shows when its url is the only feed. */
  lemma BadReplacementRepeats(t: Tables, url: string)
    requires url in t.replacements && Stripped(url) && OneShot(t, [FeedEntry(url, "", true)], {})
    ensures GoodReplacement(t, url)
  {
    hide Stripped, Feeds, Extras, OneShot, ReplacementId, DisableId, SupplementalId;
    var f, target := FeedEntry(url, "", true), t.replacements[url];
    var r, listed := Migrated(t, [f], {}), Feeds(t, Start({}), [f]);
    OnlyFeedLands(t, f);
    OneShotIsSettled(t, [f], {});
    ExtrasRecordTheirs(listed, t.supplemental);
    assert r.out[0] == listed.out[0];
    assert Quiet(t, r.handled, r.out[0]);
    IdsDiffer(target, url);
    IdsDiffer(target, target);
    forall e | e in t.supplemental ensures ReplacementId(target) != SupplementalId(e.url) {
      IdsDiffer(target, e.url);
    }
  }

  ghost predicate Lists(feeds: seq<FeedEntry>, url: string) {
    exists f :: f in feeds && f.url == url
  }

  lemma {:induction false} ExtrasAreListed(r: Run, extras: seq<FeedEntry>, e: FeedEntry)
    requires e in extras && SupplementalId(e.url) !in r.handled
    requires forall u :: u in r.seen ==> Lists(r.out, u)
    ensures Lists(Extras(r, extras).out, e.url)
    decreases |extras|
  {
    hide SupplementalId;
    var next := ExtraStep(r, extras[0]);
    IdsDiffer(extras[0].url, e.url);
    forall u | u in next.seen ensures Lists(next.out, u) {
      if u in r.seen {
        var f :| f in r.out && f.url == u;
        assert f in next.out;
      } else {
        assert extras[0] in next.out;
      }
    }
    if extras[0].url == e.url {
      ExtrasRecordTheirs(next, extras[1..]);
      assert Lists(next.out, e.url);
      var f :| f in next.out && f.url == e.url;
      assert f in Extras(next, extras[1..]).out;
    } else {
      ExtrasAreListed(next, extras[1..], e);
    }
  }

  lemma NewInstallation(t: Tables)
    ensures Migrated(t, [], {}) == Extras(Start({}), t.supplemental)
  {
    NoneLeft(t, Start({}));
  }

  /** A supplemental feed that is not good shows in a new installation. */
  lemma BadExtraRepeats(t: Tables, e: FeedEntry)
    requires e in t.supplemental && OneShot(t, [], {})
    ensures GoodExtra(t, e)
  {
    hide Stripped, Migrated, Extras, OneShot, ReplacementId, DisableId, SupplementalId;
    var r := Migrated(t, [], {});
    NewInstallation(t);
    OneShotIsSettled(t, [], {});
    ExtrasRecordTheirs(Start({}), t.supplemental);
    ExtrasAreListed(Start({}), t.supplemental, e);
    var f :| f in r.out && f.url == e.url;
    assert Quiet(t, r.handled, f);
    forall g | g in t.supplemental
      ensures ReplacementId(e.url) != SupplementalId(g.url) && DisableId(e.url) != SupplementalId(g.url)
    {
      IdsDiffer(e.url, g.url);
    }
  }

  /** The migrations are one-shot on every list and history exactly when the tables do not feed themselves. */
  lemma OneShotExactly(t: Tables)
    ensures WellFormed(t) <==> forall feeds, applied :: OneShot(t, feeds, applied)
  {
    hide OneShot, Settled, Stripped, GoodReplacement, GoodExtra;
    if WellFormed(t) {
      forall feeds, applied ensures OneShot(t, feeds, applied) {
        MigratedKeeps(t, feeds, applied);
        SettledIsOneShot(t, feeds, applied);
      }
    }
    if forall feeds, applied :: OneShot(t, feeds, applied) {
      forall url | url in t.replacements && Stripped(url) ensures GoodReplacement(t, url) {
        BadReplacementRepeats(t, url);
      }
      forall e | e in t.supplemental ensures GoodExtra(t, e) {
        BadExtraRepeats(t, e);
      }
    }
  }

  const SF_OLD := "https://www.sfchronicle.com/bay-area/feed/"
  const SF_NEW := "https://www.sfchronicle.com/rss/feed/" + "Bay-Area-News-448.php"
  const KQED_OLD := "https://www.kqed.org/news/feed/rss"
  const KQED_NEW := "https://ww2.kqed.org/news/feed/"
  const DW_OLD := "https://rss.dw.com/rdf/rss-en-germany"
  const DW_NEW := "https://rss.dw.com/rdf/rss-en-ger"

  /** The tables of this release. */
  const RELEASE := Tables(
    map[SF_OLD := SF_NEW, KQED_OLD := KQED_NEW, DW_OLD := DW_NEW],
    {"https://www.mercurynews.com/feed/", "https://www.eastbaytimes.com/feed/", SF_NEW},
    [FeedEntry("https://www.nbcbayarea.com/?rss=y", "[Bay Area] NBC Bay Area", true),
     FeedEntry("https://abc7news.com/feed/", "[Bay Area] ABC7 Bay Area", true),
     FeedEntry("https://www.ktvu.com/rss.xml", "[Bay Area] KTVU Fox 2", true)])

  lemma ReleaseReplacementsAreGood(url: string)
    requires url in RELEASE.replacements
    ensures GoodReplacement(RELEASE, url)
  {
    var target := RELEASE.replacements[url];
    assert url == SF_OLD || url == KQED_OLD || url == DW_OLD;
    assert target == SF_NEW || target == KQED_NEW || target == DW_NEW;
    assert SF_NEW[|SF_NEW| - 1] == "Bay-Area-News-448.php"[20];
    assert Stripped(SF_NEW) && Stripped(KQED_NEW) && Stripped(DW_NEW);
    assert |target| != |SF_OLD| && |target| != |KQED_OLD| && |target| != |DW_OLD|;
  }

  lemma ReleaseIsWellFormed()
    ensures WellFormed(RELEASE)
  {
    forall url | url in RELEASE.replacements && Stripped(url) ensures GoodReplacement(RELEASE, url) {
      ReleaseReplacementsAreGood(url);
    }
    forall e | e in RELEASE.supplemental ensures GoodExtra(RELEASE, e) {
      assert e == RELEASE.supplemental[0] || e == RELEASE.supplemental[1] || e == RELEASE.supplemental[2];
    }
  }
}
