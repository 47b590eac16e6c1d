/**
  * One-time migrations of the feed list
  * (servers/mcp-news-server/src/mcp_news_server/feed_migrations.py).
  */
module FeedMigrations {
  import opened Text

  datatype FeedEntry = FeedEntry(url: string, caption: string, enabled: bool)

  /** What a release wants migrated. */
  datatype Tables = Tables(replacements: map<string, string>, disable: set<string>, supplemental: seq<FeedEntry>)

  function ReplacementId(url: string): string { "url-replacement:" + url }
  function DisableId(url: string): string { "disable-dead-feed:" + url }
  function SupplementalId(url: string): string { "supplemental-feed:" + url }

  lemma IdsDiffer(a: string, b: string)
    ensures ReplacementId(a) == ReplacementId(b) <==> a == b
    ensures DisableId(a) == DisableId(b) <==> a == b
    ensures SupplementalId(a) == SupplementalId(b) <==> a == b
    ensures ReplacementId(a) != DisableId(b) && ReplacementId(a) != SupplementalId(b)
    ensures DisableId(a) != SupplementalId(b)
  {
    assert ReplacementId(a)[16..] == a && ReplacementId(b)[16..] == b;
    assert DisableId(a)[18..] == a && DisableId(b)[18..] == b;
    assert SupplementalId(a)[18..] == a && SupplementalId(b)[18..] == b;
    assert ReplacementId(a)[0] == 'u' && DisableId(b)[0] == DisableId(a)[0] == 'd' && SupplementalId(b)[0] == 's';
  }

  /** The variables of `migrate_feeds`. */
  datatype Run = Run(handled: set<string>, recorded: seq<string>, out: seq<FeedEntry>, seen: set<string>, changed: bool)

  /** `once(id)`, when it answers True */
  function Record(r: Run, id: string): Run {
    r.(handled := r.handled + {id}, recorded := r.recorded + [id])
  }

  /** Does this entry get the replacement of its url? */
  predicate Moves(t: Tables, handled: set<string>, url: string) {
    url in t.replacements && ReplacementId(url) !in handled
  }

  /** The url an entry is listed under from now on. */
  function Landing(t: Tables, handled: set<string>, url: string): string {
    if Moves(t, handled, url) then t.replacements[url] else url
  }

  predicate TurnsOff(t: Tables, handled: set<string>, url: string) {
    url in t.disable && DisableId(url) !in handled
  }

  function MoveStep(t: Tables, r: Run, url: string): Run {
    if Moves(t, r.handled, url) then Record(r, ReplacementId(url)).(changed := true) else r
  }

  function DisableStep(t: Tables, r: Run, url: string, enabled: bool): Run {
    if TurnsOff(t, r.handled, url) then Record(r, DisableId(url)).(changed := r.changed || enabled) else r
  }

  function ListStep(r: Run, f: FeedEntry): Run {
    if f.url in r.seen then r else r.(out := r.out + [f], seen := r.seen + {f.url})
  }

  function FeedStep(t: Tables, r: Run, f: FeedEntry): Run {
    var url := Landing(t, r.handled, Strip(f.url));
    var moved := MoveStep(t, r, Strip(f.url));
    var enabled := f.enabled && !TurnsOff(t, moved.handled, url);
    ListStep(DisableStep(t, moved, url, f.enabled), FeedEntry(url, f.caption, enabled))
  }

  function ExtraStep(r: Run, extra: FeedEntry): Run {
    var id := SupplementalId(extra.url);
    if id in r.handled then r
    else if extra.url in r.seen then Record(r, id)
    else ListStep(Record(r, id), extra).(changed := true)
  }

  function Feeds(t: Tables, r: Run, feeds: seq<FeedEntry>): Run
    decreases |feeds|
  {
    if feeds == [] then r else Feeds(t, FeedStep(t, r, feeds[0]), feeds[1..])
  }

  function Extras(r: Run, extras: seq<FeedEntry>): Run
    decreases |extras|
  {
    if extras == [] then r else Extras(ExtraStep(r, extras[0]), extras[1..])
  }

  function Start(applied: set<string>): Run {
    Run(applied, [], [], {}, false)
  }

  function Migrated(t: Tables, feeds: seq<FeedEntry>, applied: set<string>): Run {
    Extras(Feeds(t, Start(applied), feeds), t.supplemental)
  }

  lemma FeedsUnfold(t: Tables, r: Run, feeds: seq<FeedEntry>, k: nat)
    requires k < |feeds|
    ensures Feeds(t, r, feeds[k..]) == Feeds(t, FeedStep(t, r, feeds[k]), feeds[k + 1..])
  {
    hide FeedStep;
    assert feeds[k..][1..] == feeds[k + 1..];
  }

  lemma ExtrasUnfold(r: Run, extras: seq<FeedEntry>, k: nat)
    requires k < |extras|
    ensures Extras(r, extras[k..]) == Extras(ExtraStep(r, extras[k]), extras[k + 1..])
  {
    hide ExtraStep;
    assert extras[k..][1..] == extras[k + 1..];
  }

  lemma NoneLeft(t: Tables, r: Run)
    ensures Feeds(t, r, []) == r && Extras(r, []) == r
  {
  }

  /** `migrate_feeds` */
  method MigrateFeeds(t: Tables, feeds: seq<FeedEntry>, applied: seq<string>)
    returns (out: seq<FeedEntry>, recorded: seq<string>, changed: bool)
    ensures var r := Migrated(t, feeds, set x | x in applied);
            out == r.out && recorded == r.recorded && changed == r.changed
  {
    hide Feeds, Extras, Strip, ReplacementId, DisableId, SupplementalId;
    var handled := set x | x in applied;
    ghost var start := Start(handled);
    recorded, changed, out := [], false, [];
    var seen := {};
    var k := 0;
    assert feeds[0..] == feeds && t.supplemental[0..] == t.supplemental;
    while k < |feeds|
      invariant 0 <= k <= |feeds|
      invariant Feeds(t, start, feeds) == Feeds(t, Run(handled, recorded, out, seen, changed), feeds[k..])
    {
      ghost var before := Run(handled, recorded, out, seen, changed);
      var f := feeds[k];
      var url := Strip(f.url);
      var id := ReplacementId(url);
      if url in t.replacements && id !in handled {
        handled, recorded := handled + {id}, recorded + [id];
        url := t.replacements[url];
        changed := true;
      }
      id := DisableId(url);
      if url in t.disable && id !in handled {
        handled, recorded := handled + {id}, recorded + [id];
        if f.enabled {
          f := FeedEntry(url, f.caption, false);
          changed := true;
        }
      }
      if url !in seen {
        seen := seen + {url};
        if f.url != url {
          f := FeedEntry(url, f.caption, f.enabled);
        }
        out := out + [f];
      }
      assert Run(handled, recorded, out, seen, changed) == FeedStep(t, before, feeds[k]);
      FeedsUnfold(t, before, feeds, k);
      k := k + 1;
    }
    NoneLeft(t, Run(handled, recorded, out, seen, changed));
    assert feeds[k..] == [];
    k := 0;
    while k < |t.supplemental|
      invariant 0 <= k <= |t.supplemental|
      invariant Migrated(t, feeds, start.handled)
             == Extras(Run(handled, recorded, out, seen, changed), t.supplemental[k..])
    {
      ghost var before := Run(handled, recorded, out, seen, changed);
      var extra := t.supplemental[k];
      var id := SupplementalId(extra.url);
      if id !in handled {
        handled, recorded := handled + {id}, recorded + [id];
        if extra.url !in seen {
          out := out + [extra];
          seen := seen + {extra.url};
          changed := true;
        }
      }
      assert Run(handled, recorded, out, seen, changed) == ExtraStep(before, t.supplemental[k]);
      ExtrasUnfold(before, t.supplemental, k);
      k := k + 1;
    }
    NoneLeft(t, Run(handled, recorded, out, seen, changed));
    assert t.supplemental[k..] == [];
  }
}
