/** The feed list on disk (servers/mcp-news-server/src/mcp_news_server/store.py). */
module FeedStores {
  import opened Wrappers
  import opened Text
  import opened FeedMigrations
  import opened MigrationLaws

  /** What `feeds.yaml` holds. */
  datatype File = File(feeds: seq<FeedEntry>, applied: seq<string>)

  /** `canonical_url` */
  type Canon = string -> string

  function Ids(applied: seq<string>): set<string> {
    set x | x in applied
  }

  /** The rows with a url, stripped. */
  function Cleaned(rows: seq<FeedEntry>): seq<FeedEntry> {
    if rows == [] then []
    else if Strip(rows[0].url) == "" then Cleaned(rows[1..])
    else [FeedEntry(Strip(rows[0].url), Strip(rows[0].caption), rows[0].enabled)] + Cleaned(rows[1..])
  }

  /** The ids that are not on disk, in order. */
  function Unapplied(recorded: seq<string>, applied: seq<string>): seq<string> {
    if recorded == [] then []
    else (if recorded[0] in applied then [] else [recorded[0]]) + Unapplied(recorded[1..], applied)
  }

  lemma UnappliedUnfold(recorded: seq<string>, applied: seq<string>, k: nat)
    requires k < |recorded|
    ensures Unapplied(recorded[k..], applied)
         == (if recorded[k] in applied then [] else [recorded[k]]) + Unapplied(recorded[k + 1..], applied)
  {
    assert recorded[k..][1..] == recorded[k + 1..];
  }

  lemma UnappliedOfNone(recorded: seq<string>, applied: seq<string>)
    requires recorded == []
    ensures Unapplied(recorded, applied) == []
  {
  }

  /** What a migration records is all of that kind. */
  lemma {:induction false} NewIsUnapplied(recorded: seq<string>, applied: seq<string>)
    ensures (forall x :: x in recorded ==> x !in applied) <==> Unapplied(recorded, applied) == recorded
    ensures |Unapplied(recorded, applied)| <= |recorded|
  {
    if recorded != [] {
      NewIsUnapplied(recorded[1..], applied);
    }
  }

  /** The file and the list after `load`. */
  function LoadStep(t: Tables, file: File): (File, seq<FeedEntry>) {
    var r := Migrated(t, Cleaned(file.feeds), Ids(file.applied));
    (if r.changed || r.recorded != [] then File(r.out, file.applied + r.recorded) else file, r.out)
  }

  /** `canonical_url(url) or url.strip()` */
  function Target(canon: Canon, url: string): string {
    if canon(url) != "" then canon(url) else Strip(url)
  }

  /** Does a url that was asked for mean this feed? */
  predicate Means(canon: Canon, url: string, feed: string) {
    canon(feed) == Target(canon, url) || Strip(feed) == Strip(url)
  }

  ghost predicate Known(canon: Canon, url: string, feeds: seq<FeedEntry>) {
    exists i :: 0 <= i < |feeds| && Means(canon, url, feeds[i].url)
  }

  function Without(canon: Canon, url: string, feeds: seq<FeedEntry>): seq<FeedEntry> {
    if feeds == [] then []
    else if Means(canon, url, feeds[0].url) then Without(canon, url, feeds[1..])
    else [feeds[0]] + Without(canon, url, feeds[1..])
  }

  ghost function AddStep(t: Tables, canon: Canon, file: File, url: string, caption: string): (File, seq<FeedEntry>) {
    var (loaded, feeds) := LoadStep(t, file);
    if Known(canon, url, feeds) then (loaded, feeds)
    else
      var longer := feeds + [FeedEntry(Strip(url), Strip(caption), true)];
      (File(longer, loaded.applied), longer)
  }

  function RemoveStep(t: Tables, canon: Canon, file: File, url: string): (File, seq<FeedEntry>) {
    var (loaded, feeds) := LoadStep(t, file);
    var kept := Without(canon, url, feeds);
    (File(kept, loaded.applied), kept)
  }

  class FeedFile {
    var content: Option<File>

    constructor ()
      ensures content == None
    {
      content := None;
    }

    /** The file, which is created when missing. */
    function Now(): File
      reads this
    {
      content.GetOr(File([], []))
    }
  }

  class FeedStore {
    const tables: Tables
    const canon: Canon
    const file: FeedFile
    var applied: seq<string>

    constructor (tables: Tables, canon: Canon, file: FeedFile)
      ensures this.tables == tables && this.canon == canon && this.file == file && applied == []
    {
      this.tables, this.canon, this.file, applied := tables, canon, file, [];
    }

    method Ensure()
      modifies file
      ensures file.content == Some(old(file.Now()))
    {
      if file.content.None? {
        file.content := Some(File([], []));
      }
    }

    method ReadRows(rows: seq<FeedEntry>) returns (out: seq<FeedEntry>)
      ensures out == Cleaned(rows)
    {
      hide Cleaned, Strip;
      out := [];
      assert rows[0..] == rows;
      for k := 0 to |rows|
        invariant Cleaned(rows) == out + Cleaned(rows[k..])
      {
        CleanedUnfold(rows, k);
        var url := Strip(rows[k].url);
        if url != "" {
          out := out + [FeedEntry(url, Strip(rows[k].caption), rows[k].enabled)];
        }
      }
      CleanedOfNone(rows[|rows|..]);
    }

    /** The recorded ids that are not on disk yet. */
    method NotYet(recorded: seq<string>, applied: seq<string>) returns (added: seq<string>)
      ensures added == Unapplied(recorded, applied)
    {
      hide Unapplied;
      added := [];
      assert recorded[0..] == recorded;
      for k := 0 to |recorded|
        invariant Unapplied(recorded, applied) == added + Unapplied(recorded[k..], applied)
      {
        UnappliedUnfold(recorded, applied, k);
        if recorded[k] !in applied {
          added := added + [recorded[k]];
        }
      }
      UnappliedOfNone(recorded[|recorded|..], applied);
    }

    method Load() returns (feeds: seq<FeedEntry>)
      modifies this`applied, file
      ensures var step := LoadStep(tables, old(file.Now())); file.Now() == step.0 && feeds == step.1
      ensures file.content.Some? && applied == file.Now().applied
    {
      hide Migrated, Cleaned;
      Ensure();
      var raw := file.Now();
      var out := ReadRows(raw.feeds);
      var migrated, recorded, changed := MigrateFeeds(tables, out, raw.applied);
      RecordedIsNew(tables, out, raw.applied);
      NewIsUnapplied(recorded, raw.applied);
      var added := NotYet(recorded, raw.applied);
      applied := raw.applied + added;
      if changed || recorded != [] {
        Save(migrated);
      }
      feeds := migrated;
    }

    method Save(feeds: seq<FeedEntry>)
      modifies file
      ensures file.content == Some(File(feeds, applied))
    {
      file.content := Some(File(feeds, applied));
    }

    method Add(url: string, caption: string) returns (feeds: seq<FeedEntry>)
      modifies this`applied, file
      ensures var step := AddStep(tables, canon, old(file.Now()), url, caption);
              file.Now() == step.0 && feeds == step.1
      ensures applied == file.Now().applied
    {
      hide LoadStep, Means, Without, Strip;
      feeds := Load();
      for k := 0 to |feeds|
        invariant forall i :: 0 <= i < k ==> !Means(canon, url, feeds[i].url)
      {
        if Means(canon, url, feeds[k].url) {
          return;
        }
      }
      feeds := feeds + [FeedEntry(Strip(url), Strip(caption), true)];
      Save(feeds);
    }

    method Remove(url: string) returns (kept: seq<FeedEntry>)
      modifies this`applied, file
      ensures var step := RemoveStep(tables, canon, old(file.Now()), url); file.Now() == step.0 && kept == step.1
      ensures applied == file.Now().applied
    {
      hide LoadStep, Means, Without, Strip;
      var feeds := Load();
      ghost var loaded := LoadStep(tables, old(file.Now())).0;
      kept := [];
      assert feeds[0..] == feeds;
      for k := 0 to |feeds|
        invariant Without(canon, url, feeds) == kept + Without(canon, url, feeds[k..])
        invariant applied == loaded.applied
      {
        WithoutUnfold(canon, url, feeds, k);
        if !Means(canon, url, feeds[k].url) {
          kept := kept + [feeds[k]];
        }
      }
      WithoutNone(canon, url, feeds[|feeds|..]);
      assert kept == Without(canon, url, feeds);
      Save(kept);
    }
  }

  lemma CleanedUnfold(rows: seq<FeedEntry>, k: nat)
    requires k < |rows|
    ensures Cleaned(rows[k..]) == (if Strip(rows[k].url) == "" then []
                                   else [FeedEntry(Strip(rows[k].url), Strip(rows[k].caption), rows[k].enabled)])
                                  + Cleaned(rows[k + 1..])
  {
    hide Strip;
    assert rows[k..][1..] == rows[k + 1..];
  }

  lemma CleanedOfNone(rows: seq<FeedEntry>)
    requires rows == []
    ensures Cleaned(rows) == []
  {
  }

  lemma WithoutUnfold(canon: Canon, url: string, feeds: seq<FeedEntry>, k: nat)
    requires k < |feeds|
    ensures Without(canon, url, feeds[k..])
         == (if Means(canon, url, feeds[k].url) then [] else [feeds[k]]) + Without(canon, url, feeds[k + 1..])
  {
    hide Means;
    assert feeds[k..][1..] == feeds[k + 1..];
  }

  lemma WithoutNone(canon: Canon, url: string, feeds: seq<FeedEntry>)
    requires feeds == []
    ensures Without(canon, url, feeds) == []
  {
  }

  lemma RecordedIsNew(t: Tables, feeds: seq<FeedEntry>, applied: seq<string>)
    ensures forall x :: x in Migrated(t, feeds, Ids(applied)).recorded ==> x !in applied
  {
    hide Migrated;
    MigratedKeeps(t, feeds, Ids(applied));
  }
}
