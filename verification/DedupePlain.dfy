/** The promises of deduplication in the terms of the items themselves: urls, titles and dates. */
module DedupePlain {
  import opened Text
  import opened Dedupe
  import opened DedupeLaws
  import opened DedupeCoverage
  import opened DedupeExactness

  /** The same canonical url; where an item's url has none, its own spelling stands in. */
  predicate OneUrl(canon: Canon, a: NewsItem, b: NewsItem) {
    var ca, cb := canon(a.url), canon(b.url);
    if ca != "" && cb != "" then ca == cb
    else if ca != "" then ca == Strip(b.url)
    else if cb != "" then Strip(a.url) == cb
    else Strip(a.url) == Strip(b.url)
  }

  lemma OneUrlIsOneKey(canon: Canon, a: NewsItem, b: NewsItem)
    ensures OneUrl(canon, a, b) <==> UrlKey(canon, a) == UrlKey(canon, b)
  {
    hide Strip;
  }

  /** No two outputs have one url. */
  lemma UrlsDiffer(canon: Canon, fingerprint: Fingerprint, o: Options, items: seq<NewsItem>, i: nat, j: nat)
    requires o.urls && i < j < |Deduped(canon, fingerprint, o, items)|
    ensures var out := Deduped(canon, fingerprint, o, items); !OneUrl(canon, out[i], out[j])
  {
    hide UrlKey, OneUrl, Deduped, Strip, HasUrl;
    var out := Deduped(canon, fingerprint, o, items);
    ResultIsClean(canon, fingerprint, o, items);
    OneUrlIsOneKey(canon, out[i], out[j]);
    assert UrlKeys(canon, out)[i] != UrlKeys(canon, out)[j];
  }

  /** Is y at least as good as x: dated if x is, then no earlier, then no shorter? */
  predicate AsGood(y: NewsItem, x: NewsItem) {
    var dy, dx := Strip(y.published), Strip(x.published);
    || (dy != "" && dx == "")
    || (dy != "" && dx != "" && Less(dx, dy))
    || (dy == dx && |y.summary| >= |x.summary|)
  }

  lemma AsGoodExactly(y: NewsItem, x: NewsItem)
    ensures AsGood(y, x) <==> !Outranks(x, y)
  {
    hide Strip, Less;
    LessIsTotal(Strip(x.published), Strip(y.published));
    LessIsTotal("", "");
  }

  /** Compared by url alone, every item with a url has an output of its url that is at least as good as itself. */
  lemma UrlIsKept(canon: Canon, fingerprint: Fingerprint, o: Options, items: seq<NewsItem>, x: NewsItem)
    requires o.urls && !o.titles && x in items && Strip(x.url) != ""
    ensures exists y :: y in Deduped(canon, fingerprint, o, items) && OneUrl(canon, y, x) && AsGood(y, x)
  {
    hide UrlKey, OneUrl, Strip, AsGood, Outranks, BestOf, NewestFirst, Rep;
    var known := WithUrl(items);
    assert HasUrl(x);
    WithUrlMembers(items);
    BestIsMaximal(canon, known, UrlKey(canon, x));
    var rep := Rep(canon, BestOf(canon, known), UrlKey(canon, x));
    var y := rep[0];
    RepIsMember(canon, BestOf(canon, known), UrlKey(canon, x));
    SortKeys(canon, BestOf(canon, known));
    OneUrlIsOneKey(canon, y, x);
    AsGoodExactly(y, x);
  }

  /** Later tellings of a story are dropped only if its fingerprint is long enough. */
  lemma StoriesDiffer(canon: Canon, fingerprint: Fingerprint, o: Options, items: seq<NewsItem>, i: nat, j: nat)
    requires o.titles && i < j < |Deduped(canon, fingerprint, o, items)|
    ensures var out := Deduped(canon, fingerprint, o, items);
            fingerprint(out[i].title) == fingerprint(out[j].title) ==> |fingerprint(out[i].title)| < o.minLength
  {
    hide Deduped, HasUrl;
    var out := Deduped(canon, fingerprint, o, items);
    ResultIsClean(canon, fingerprint, o, items);
    assert !Shadowed(fingerprint, o, out, j);
  }

  /** Without the url comparison, an item with a short fingerprint is never dropped. */
  lemma ShortTitlesStay(canon: Canon, fingerprint: Fingerprint, o: Options, items: seq<NewsItem>, x: NewsItem)
    requires !o.urls && x in items && Strip(x.url) != "" && |fingerprint(x.title)| < o.minLength
    ensures x in Deduped(canon, fingerprint, o, items)
  {
    hide Strip, NewestFirst, TitlePass;
    assert HasUrl(x);
    WithUrlMembers(items);
    SortKeys(canon, WithUrl(items));
    ShortIsKept(fingerprint, o, NewestFirst(WithUrl(items)), {}, x);
  }

  lemma {:induction false} ShortIsKept(
      fingerprint: Fingerprint, o: Options, items: seq<NewsItem>, seen: set<string>, x: NewsItem)
    requires x in items && |fingerprint(x.title)| < o.minLength
    ensures x in TitlePass(fingerprint, o, items, seen)
  {
    hide TitlePass;
    TitleStep(fingerprint, o, items, seen);
    if x != items[0] {
      assert x in items[1..];
      ShortIsKept(fingerprint, o, items[1..], seen, x);
      ShortIsKept(fingerprint, o, items[1..], SeenAfter(fingerprint, o, items[0], seen), x);
    }
  }

  /** With both comparisons off the result is a rearrangement of the items with a url. */
  lemma NothingElseIsDropped(canon: Canon, fingerprint: Fingerprint, o: Options, items: seq<NewsItem>, x: NewsItem)
    requires !o.urls && !o.titles
    ensures multiset(Deduped(canon, fingerprint, o, items))[x] == if Strip(x.url) != "" then multiset(items)[x] else 0
  {
    hide NewestFirst;
    NewestFirstSorts(WithUrl(items));
    WithUrlCounts(items, x);
  }

  lemma {:induction false} WithUrlCounts(items: seq<NewsItem>, x: NewsItem)
    ensures multiset(WithUrl(items))[x] == if Strip(x.url) != "" then multiset(items)[x] else 0
  {
    hide Strip;
    if items != [] {
      WithUrlCounts(items[1..], x);
      assert items == [items[0]] + items[1..];
    }
  }

  /** Newest first, said of the dates: no output is followed by one with a later date, nor an undated by a dated one. */
  lemma DatesFall(canon: Canon, fingerprint: Fingerprint, o: Options, items: seq<NewsItem>, i: nat, j: nat)
    requires i < j < |Deduped(canon, fingerprint, o, items)|
    ensures var out := Deduped(canon, fingerprint, o, items);
            var first, second := Strip(out[i].published), Strip(out[j].published);
            second != "" ==> first != "" && !Less(first, second)
  {
    hide Deduped, HasUrl, Strip, Less;
    var out := Deduped(canon, fingerprint, o, items);
    ResultIsClean(canon, fingerprint, o, items);
    assert Newer(out[i], out[j]);
    NewerMeans(out[i], out[j]);
  }
}
