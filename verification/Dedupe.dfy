/** Removing duplicate news items (servers/mcp-news-server/src/mcp_news_server/dedupe.py). */
module Dedupe {
  import opened Text

  /** "" where the item has no summary or no date. */
  datatype NewsItem = NewsItem(title: string, url: string, summary: string, published: string, source: string)

  /** `canonical_url` and `title_fingerprint` */
  type Canon = string -> string
  type Fingerprint = string -> string

  datatype SortKey = SortKey(dated: int, published: string)

  function Published(it: NewsItem): string { Strip(it.published) }

  /** `_published_sort_key` */
  function SortKeyOf(it: NewsItem): SortKey {
    if Published(it) != "" then SortKey(1, Published(it)) else SortKey(0, "")
  }

  /** `<` on those tuples */
  predicate Before(a: SortKey, b: SortKey) {
    a.dated < b.dated || (a.dated == b.dated && Less(a.published, b.published))
  }

  /** `_prefer_item` */
  predicate Prefer(a: NewsItem, b: NewsItem) {
    var pa, pb := Published(a), Published(b);
    if pa != "" && pb != "" && pa != pb then Less(pb, pa)
    else if pa != "" && pb == "" then true
    else if pa == "" && pb != "" then false
    else |a.summary| > |b.summary|
  }

  function UrlKey(canon: Canon, it: NewsItem): string {
    if canon(it.url) != "" then canon(it.url) else Strip(it.url)
  }

  predicate HasUrl(it: NewsItem) {
    Strip(it.url) != ""
  }

  function WithUrl(items: seq<NewsItem>): seq<NewsItem> {
    if items == [] then [] else (if HasUrl(items[0]) then [items[0]] else []) + WithUrl(items[1..])
  }

  function UrlKeys(canon: Canon, items: seq<NewsItem>): seq<string> {
    seq(|items|, i requires 0 <= i < |items| => UrlKey(canon, items[i]))
  }

  /** The index of the first occurrence, or the length. */
  function Position(keys: seq<string>, key: string): (i: nat)
    ensures i <= |keys| && (i < |keys| ==> keys[i] == key)
    ensures i == |keys| <==> key !in keys
    ensures key !in keys[..i]
  {
    if keys == [] || keys[0] == key then 0
    else
      var i := 1 + Position(keys[1..], key);
      assert keys[..i] == [keys[0]] + keys[1..][..i - 1];
      i
  }

  /** `by_url`, as its values in insertion order, after one more item. */
  function Keep(canon: Canon, best: seq<NewsItem>, it: NewsItem): seq<NewsItem> {
    var i := Position(UrlKeys(canon, best), UrlKey(canon, it));
    if i == |best| then best + [it]
    else if Prefer(it, best[i]) then best[i := it]
    else best
  }

  function BestOf(canon: Canon, items: seq<NewsItem>): seq<NewsItem> {
    if items == [] then [] else Keep(canon, BestOf(canon, items[..|items| - 1]), items[|items| - 1])
  }

  /** Puts an item in front of those that do not come strictly later in time. */
  function Insert(it: NewsItem, sorted: seq<NewsItem>): seq<NewsItem> {
    if sorted == [] || !Before(SortKeyOf(it), SortKeyOf(sorted[0])) then [it] + sorted
    else [sorted[0]] + Insert(it, sorted[1..])
  }

  /** `sort(key=_published_sort_key, reverse=True)`, which is stable. */
  function NewestFirst(items: seq<NewsItem>): seq<NewsItem> {
    if items == [] then [] else Insert(items[0], NewestFirst(items[1..]))
  }

  datatype Options = Options(urls: bool, titles: bool, minLength: int)

  /** A fingerprint long enough to tell a story by. */
  predicate Long(fingerprint: Fingerprint, o: Options, it: NewsItem) {
    |fingerprint(it.title)| >= o.minLength
  }

  function TitlePass(fingerprint: Fingerprint, o: Options, items: seq<NewsItem>, seen: set<string>): seq<NewsItem> {
    if items == [] then []
    else
      var it := items[0];
      var fp := fingerprint(it.title);
      if Long(fingerprint, o, it) && fp in seen then TitlePass(fingerprint, o, items[1..], seen)
      else [it] + TitlePass(fingerprint, o, items[1..], if Long(fingerprint, o, it) then seen + {fp} else seen)
  }

  /** The items left to sort. */
  function Working(canon: Canon, o: Options, items: seq<NewsItem>): seq<NewsItem> {
    if o.urls then BestOf(canon, WithUrl(items)) else WithUrl(items)
  }

  function Deduped(canon: Canon, fingerprint: Fingerprint, o: Options, items: seq<NewsItem>): seq<NewsItem> {
    var sorted := NewestFirst(Working(canon, o, items));
    if o.titles then TitlePass(fingerprint, o, sorted, {}) else sorted
  }

  /** An insertion-ordered dictionary from url keys to items, as its keys and its mapping. */
  ghost predicate Holds(canon: Canon, keys: seq<string>, byUrl: map<string, NewsItem>, best: seq<NewsItem>) {
    && keys == UrlKeys(canon, best) && Distinct(keys)
    && (forall key :: key in byUrl <==> key in keys)
    && (forall i :: 0 <= i < |keys| ==> keys[i] in byUrl && byUrl[keys[i]] == best[i])
  }

  lemma HoldsAppended(canon: Canon, keys: seq<string>, byUrl: map<string, NewsItem>, best: seq<NewsItem>, it: NewsItem)
    requires Holds(canon, keys, byUrl, best) && UrlKey(canon, it) !in keys
    ensures Holds(canon, keys + [UrlKey(canon, it)], byUrl[UrlKey(canon, it) := it], best + [it])
  {
    hide UrlKey;
    var key := UrlKey(canon, it);
    forall i | 0 <= i < |keys| ensures keys[i] != key {
      assert keys[i] in keys;
    }
    assert UrlKeys(canon, best + [it]) == UrlKeys(canon, best) + [key];
  }

  lemma HoldsReplaced(
      canon: Canon, keys: seq<string>, byUrl: map<string, NewsItem>, best: seq<NewsItem>, i: nat, it: NewsItem)
    requires Holds(canon, keys, byUrl, best) && i < |keys| && keys[i] == UrlKey(canon, it)
    ensures Holds(canon, keys, byUrl[keys[i] := it], best[i := it])
  {
    hide UrlKey;
    assert UrlKeys(canon, best[i := it]) == UrlKeys(canon, best);
  }

  method BestByUrl(canon: Canon, items: seq<NewsItem>) returns (working: seq<NewsItem>)
    ensures working == BestOf(canon, items)
  {
    hide UrlKey, BestOf, Prefer, Position, Holds;
    var keys: seq<string>, byUrl: map<string, NewsItem> := [], map[];
    BestOfNone(canon, items[..0]);
    for k := 0 to |items|
      invariant Holds(canon, keys, byUrl, BestOf(canon, items[..k]))
    {
      var it := items[k];
      var key := UrlKey(canon, it);
      ghost var best := BestOf(canon, items[..k]);
      BestOfSnoc(canon, items, k);
      HoldsMeans(canon, keys, byUrl, best);
      if key !in byUrl {
        HoldsAppended(canon, keys, byUrl, best, it);
        keys := keys + [key];
        byUrl := byUrl[key := it];
      } else if Prefer(it, byUrl[key]) {
        HoldsReplaced(canon, keys, byUrl, best, Position(keys, key), it);
        byUrl := byUrl[key := it];
      }
    }
    assert items[..|items|] == items;
    HoldsMeans(canon, keys, byUrl, BestOf(canon, items));
    working := seq(|keys|, i requires 0 <= i < |keys| && keys[i] in byUrl => byUrl[keys[i]]);
  }

  lemma HoldsMeans(canon: Canon, keys: seq<string>, byUrl: map<string, NewsItem>, best: seq<NewsItem>)
    requires Holds(canon, keys, byUrl, best)
    ensures keys == UrlKeys(canon, best) && (forall key :: key in byUrl <==> key in keys)
    ensures forall i :: 0 <= i < |keys| ==> keys[i] in byUrl && byUrl[keys[i]] == best[i]
  {
  }

  lemma BestOfNone(canon: Canon, items: seq<NewsItem>)
    requires items == []
    ensures BestOf(canon, items) == [] && Holds(canon, [], map[], [])
  {
  }

  lemma BestOfSnoc(canon: Canon, items: seq<NewsItem>, k: nat)
    requires k < |items|
    ensures BestOf(canon, items[..k + 1]) == Keep(canon, BestOf(canon, items[..k]), items[k])
  {
    hide Keep;
    assert items[..k + 1][..k] == items[..k];
  }

  lemma WithUrlUnfold(items: seq<NewsItem>, k: nat)
    requires k < |items|
    ensures WithUrl(items[k..]) == (if HasUrl(items[k]) then [items[k]] else []) + WithUrl(items[k + 1..])
  {
    hide HasUrl;
    assert items[k..][1..] == items[k + 1..];
  }

  lemma TitlePassUnfold(fingerprint: Fingerprint, o: Options, items: seq<NewsItem>, k: nat, seen: set<string>)
    requires k < |items|
    ensures var it, fp := items[k], fingerprint(items[k].title);
            TitlePass(fingerprint, o, items[k..], seen)
            == if Long(fingerprint, o, it) && fp in seen then TitlePass(fingerprint, o, items[k + 1..], seen)
               else [it]
                    + TitlePass(fingerprint, o, items[k + 1..], if Long(fingerprint, o, it) then seen + {fp} else seen)
  {
    hide Long;
    assert items[k..][1..] == items[k + 1..];
  }

  /** `dedupe_news_items` */
  method DedupeNewsItems(canon: Canon, fingerprint: Fingerprint, o: Options, items: seq<NewsItem>)
    returns (out: seq<NewsItem>)
    ensures out == Deduped(canon, fingerprint, o, items)
  {
    hide WithUrl, HasUrl, BestOf, NewestFirst, TitlePass;
    var working := [];
    assert items[0..] == items;
    for k := 0 to |items|
      invariant WithUrl(items) == working + WithUrl(items[k..])
    {
      WithUrlUnfold(items, k);
      if HasUrl(items[k]) {
        working := working + [items[k]];
      }
    }
    NothingLeft(fingerprint, o, items[|items|..], {});
    assert working == WithUrl(items);
    if o.urls {
      working := BestByUrl(canon, working);
    }
    working := NewestFirst(working);
    if !o.titles {
      return working;
    }
    var seen := {};
    out := [];
    assert working[0..] == working;
    for k := 0 to |working|
      invariant TitlePass(fingerprint, o, working, {}) == out + TitlePass(fingerprint, o, working[k..], seen)
    {
      TitlePassUnfold(fingerprint, o, working, k, seen);
      var it := working[k];
      var fp := fingerprint(it.title);
      if |fp| >= o.minLength && fp in seen {
        continue;
      }
      if |fp| >= o.minLength {
        seen := seen + {fp};
      }
      out := out + [it];
    }
    NothingLeft(fingerprint, o, working[|working|..], seen);
  }

  lemma NothingLeft(fingerprint: Fingerprint, o: Options, items: seq<NewsItem>, seen: set<string>)
    requires items == []
    ensures WithUrl(items) == [] && TitlePass(fingerprint, o, items, seen) == []
  {
  }
}
