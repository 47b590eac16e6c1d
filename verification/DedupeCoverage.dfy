/** Deduplication is idempotent, and leaves every item with a url represented. */
module DedupeCoverage {
  import opened Text
  import opened Dedupe
  import opened DedupeLaws

  /** Do two items tell the same story? */
  predicate SameStory(fingerprint: Fingerprint, o: Options, a: NewsItem, b: NewsItem) {
    Long(fingerprint, o, a) && fingerprint(a.title) == fingerprint(b.title)
  }

  /** Is the story of the i-th item told by one before it? */
  ghost predicate Shadowed(fingerprint: Fingerprint, o: Options, items: seq<NewsItem>, i: nat)
    requires i < |items|
  {
    exists j :: 0 <= j < i && SameStory(fingerprint, o, items[i], items[j])
  }

  ghost predicate Repeats(fingerprint: Fingerprint, o: Options, it: NewsItem, seen: set<string>) {
    Long(fingerprint, o, it) && fingerprint(it.title) in seen
  }

  function SeenAfter(fingerprint: Fingerprint, o: Options, it: NewsItem, seen: set<string>): set<string> {
    if Long(fingerprint, o, it) then seen + {fingerprint(it.title)} else seen
  }

  lemma TitleStep(fingerprint: Fingerprint, o: Options, items: seq<NewsItem>, seen: set<string>)
    requires items != []
    ensures TitlePass(fingerprint, o, items, seen)
         == if Repeats(fingerprint, o, items[0], seen) then TitlePass(fingerprint, o, items[1..], seen)
            else [items[0]] + TitlePass(fingerprint, o, items[1..], SeenAfter(fingerprint, o, items[0], seen))
  {
    hide Long;
  }

  lemma {:induction false} TitlePassSubset(
      fingerprint: Fingerprint, o: Options, items: seq<NewsItem>, seen: set<string>)
    ensures forall y :: y in TitlePass(fingerprint, o, items, seen) ==> y in items && !Repeats(fingerprint, o, y, seen)
  {
    hide Long, TitlePass;
    if items == [] {
      TitleNone(fingerprint, o, seen);
    } else {
      TitleStep(fingerprint, o, items, seen);
      TitlePassSubset(fingerprint, o, items[1..], seen);
      TitlePassSubset(fingerprint, o, items[1..], SeenAfter(fingerprint, o, items[0], seen));
      assert forall y :: y in items <==> y == items[0] || y in items[1..];
    }
  }

  lemma TitleNone(fingerprint: Fingerprint, o: Options, seen: set<string>)
    ensures TitlePass(fingerprint, o, [], seen) == []
  {
  }

  /** Is an item, or a newer telling of its story, among those kept? */
  ghost predicate Told(fingerprint: Fingerprint, o: Options, out: seq<NewsItem>, x: NewsItem) {
    exists y :: y in out && Newer(y, x) && (y == x || SameStory(fingerprint, o, x, y))
  }

  lemma ToldBy(fingerprint: Fingerprint, o: Options, it: NewsItem, rest: seq<NewsItem>, x: NewsItem)
    ensures Newer(it, x) && (it == x || SameStory(fingerprint, o, x, it)) ==> Told(fingerprint, o, [it] + rest, x)
    ensures Told(fingerprint, o, rest, x) ==> Told(fingerprint, o, [it] + rest, x)
  {
    hide Newer, SameStory;
    assert it in [it] + rest && forall y :: y in rest ==> y in [it] + rest;
  }

  lemma SortedRest(items: seq<NewsItem>)
    requires Sorted(items) && items != []
    ensures Sorted(items[1..])
  {
    hide Newer;
  }

  lemma RepeatsAfter(fingerprint: Fingerprint, o: Options, it: NewsItem, seen: set<string>, x: NewsItem)
    ensures Repeats(fingerprint, o, x, SeenAfter(fingerprint, o, it, seen))
       <==> Repeats(fingerprint, o, x, seen) || SameStory(fingerprint, o, x, it)
  {
  }

  /** Every item is kept, or its story is told by one kept that is at least as new. */
  lemma {:induction false} TitlePassCovers(
      fingerprint: Fingerprint, o: Options, items: seq<NewsItem>, seen: set<string>, x: NewsItem)
    requires Sorted(items) && x in items
    ensures Repeats(fingerprint, o, x, seen) || Told(fingerprint, o, TitlePass(fingerprint, o, items, seen), x)
  {
    hide TitlePass, Sorted, Newer, Told, Repeats, SeenAfter, SameStory;
    TitleStep(fingerprint, o, items, seen);
    var it, rest := items[0], items[1..];
    SortedRest(items);
    RepeatsAfter(fingerprint, o, it, seen, x);
    HeadIsNewest(items, x);
    NewerMeans(it, x);
    assert x == it || x in rest;
    if !Repeats(fingerprint, o, it, seen) {
      var after := SeenAfter(fingerprint, o, it, seen);
      ToldBy(fingerprint, o, it, TitlePass(fingerprint, o, rest, after), x);
      if x != it && !SameStory(fingerprint, o, x, it) {
        TitlePassCovers(fingerprint, o, rest, after, x);
      }
    } else if x != it {
      TitlePassCovers(fingerprint, o, rest, seen, x);
    }
  }

  lemma NewerMeans(a: NewsItem, b: NewsItem)
    ensures Newer(a, b) <==> !Before(SortKeyOf(a), SortKeyOf(b))
  {
  }

  /** The kept items keep the order. */
  lemma {:induction false} TitlePassSorted(
      fingerprint: Fingerprint, o: Options, items: seq<NewsItem>, seen: set<string>)
    requires Sorted(items)
    ensures Sorted(TitlePass(fingerprint, o, items, seen))
  {
    hide Long, TitlePass, Newer;
    if items == [] {
      TitleNone(fingerprint, o, seen);
    } else {
      TitleStep(fingerprint, o, items, seen);
      var after := SeenAfter(fingerprint, o, items[0], seen);
      var rest := TitlePass(fingerprint, o, items[1..], after);
      TitlePassSorted(fingerprint, o, items[1..], seen);
      TitlePassSorted(fingerprint, o, items[1..], after);
      TitlePassSubset(fingerprint, o, items[1..], after);
      SortedTail(items[0], rest);
    }
  }

  /** No two kept items tell the same story. */
  ghost predicate Stories(fingerprint: Fingerprint, o: Options, items: seq<NewsItem>) {
    forall i :: 0 <= i < |items| ==> !Shadowed(fingerprint, o, items, i)
  }

  lemma {:induction false} TitlePassStories(
      fingerprint: Fingerprint, o: Options, items: seq<NewsItem>, seen: set<string>)
    ensures Stories(fingerprint, o, TitlePass(fingerprint, o, items, seen))
  {
    hide Long, TitlePass;
    if items == [] {
      TitleNone(fingerprint, o, seen);
    } else {
      TitleStep(fingerprint, o, items, seen);
      var it, after := items[0], SeenAfter(fingerprint, o, items[0], seen);
      var rest := TitlePass(fingerprint, o, items[1..], after);
      TitlePassStories(fingerprint, o, items[1..], seen);
      TitlePassStories(fingerprint, o, items[1..], after);
      TitlePassSubset(fingerprint, o, items[1..], after);
      LongIsShared(fingerprint, o);
      StoriesCons(fingerprint, o, it, rest);
    }
  }

  lemma LongIsShared(fingerprint: Fingerprint, o: Options)
    ensures forall a, b :: SameStory(fingerprint, o, a, b) ==> SameStory(fingerprint, o, b, a)
  {
  }

  lemma StoriesCons(fingerprint: Fingerprint, o: Options, it: NewsItem, rest: seq<NewsItem>)
    ensures (Stories(fingerprint, o, rest) && forall y :: y in rest ==> !SameStory(fingerprint, o, y, it))
         <==> Stories(fingerprint, o, [it] + rest)
  {
    hide SameStory;
    var all := [it] + rest;
    if Stories(fingerprint, o, rest) && forall y :: y in rest ==> !SameStory(fingerprint, o, y, it) {
      forall i | 0 <= i < |all| ensures !Shadowed(fingerprint, o, all, i) {
        forall j | 0 <= j < i ensures !SameStory(fingerprint, o, all[i], all[j]) {
          assert !Shadowed(fingerprint, o, rest, i - 1);
          assert j > 0 ==> rest[j - 1] == all[j];
        }
      }
    }
    if Stories(fingerprint, o, all) {
      forall i | 0 <= i < |rest| ensures !Shadowed(fingerprint, o, rest, i) && !SameStory(fingerprint, o, rest[i], it) {
        assert !Shadowed(fingerprint, o, all, i + 1);
        forall j | 0 <= j < i ensures !SameStory(fingerprint, o, rest[i], rest[j]) {
          assert rest[j] == all[j + 1];
        }
        assert all[0] == it;
      }
    }
  }

  /** A list in which no story repeats passes unchanged. */
  lemma {:induction false} StoriesPass(fingerprint: Fingerprint, o: Options, items: seq<NewsItem>, seen: set<string>)
    requires Stories(fingerprint, o, items) && forall y :: y in items ==> !Repeats(fingerprint, o, y, seen)
    ensures TitlePass(fingerprint, o, items, seen) == items
  {
    hide TitlePass, Stories, Repeats, SameStory, SeenAfter;
    if items == [] {
      TitleNone(fingerprint, o, seen);
    } else {
      TitleStep(fingerprint, o, items, seen);
      var it, rest := items[0], items[1..];
      assert items == [it] + rest;
      StoriesCons(fingerprint, o, it, rest);
      var after := SeenAfter(fingerprint, o, it, seen);
      forall y | y in rest ensures !Repeats(fingerprint, o, y, after) {
        RepeatsAfter(fingerprint, o, it, seen, y);
      }
      StoriesPass(fingerprint, o, rest, after);
    }
  }

  lemma {:induction false} WithUrlMembers(items: seq<NewsItem>)
    ensures forall x :: x in WithUrl(items) <==> x in items && HasUrl(x)
    ensures (forall x :: x in items ==> HasUrl(x)) ==> WithUrl(items) == items
  {
    hide HasUrl;
    if items != [] {
      WithUrlMembers(items[1..]);
      assert items == [items[0]] + items[1..];
    }
  }

  lemma {:induction false} SortedIsFixed(items: seq<NewsItem>)
    requires Sorted(items)
    ensures NewestFirst(items) == items
  {
    hide SortKeyOf, Before;
    if items != [] {
      SortedRest(items);
      SortedIsFixed(items[1..]);
      if |items| > 1 {
        NewerMeans(items[0], items[1]);
      }
    }
  }

  lemma {:induction false} DistinctKeysAreKept(canon: Canon, items: seq<NewsItem>)
    requires Distinct(UrlKeys(canon, items))
    ensures BestOf(canon, items) == items
    decreases |items|
  {
    hide UrlKey, Prefer;
    if items != [] {
      var front, it := items[..|items| - 1], items[|items| - 1];
      assert UrlKeys(canon, front) == UrlKeys(canon, items)[..|items| - 1];
      DistinctKeysAreKept(canon, front);
      assert forall k :: 0 <= k < |front| ==> UrlKeys(canon, front)[k] == UrlKeys(canon, items)[k];
      assert UrlKeys(canon, items)[|front|] == UrlKey(canon, it);
      assert UrlKey(canon, it) !in UrlKeys(canon, front);
    }
  }

  /** Distinct keys, said of members: enough when no item occurs twice. */
  lemma KeysCons(canon: Canon, it: NewsItem, rest: seq<NewsItem>)
    ensures Distinct(UrlKeys(canon, [it] + rest))
       <==> Distinct(UrlKeys(canon, rest)) && forall x :: x in rest ==> UrlKey(canon, x) != UrlKey(canon, it)
  {
    hide UrlKey;
    var keys, all := UrlKeys(canon, rest), UrlKeys(canon, [it] + rest);
    assert all == [UrlKey(canon, it)] + keys;
    if Distinct(all) {
      forall x | x in rest ensures UrlKey(canon, x) != UrlKey(canon, it) {
        var i :| 0 <= i < |rest| && rest[i] == x;
        assert all[i + 1] == UrlKey(canon, x) && all[0] != all[i + 1];
      }
      forall i, j | 0 <= i < j < |keys| ensures keys[i] != keys[j] {
        assert all[i + 1] != all[j + 1];
      }
    }
    if Distinct(keys) && forall x :: x in rest ==> UrlKey(canon, x) != UrlKey(canon, it) {
      forall i, j | 0 <= i < j < |all| ensures all[i] != all[j] {
        assert rest[j - 1] in rest && all[j] == keys[j - 1];
      }
    }
  }

  lemma {:induction false} InsertKeys(canon: Canon, it: NewsItem, items: seq<NewsItem>)
    ensures Distinct(UrlKeys(canon, Insert(it, items))) <==> Distinct(UrlKeys(canon, [it] + items))
    ensures forall x :: x in Insert(it, items) <==> x == it || x in items
  {
    hide UrlKey, UrlKeys, Distinct, SortKeyOf, Before;
    if items != [] && Before(SortKeyOf(it), SortKeyOf(items[0])) {
      var first, rest := items[0], items[1..];
      assert items == [first] + rest;
      InsertKeys(canon, it, rest);
      KeysCons(canon, it, items);
      KeysCons(canon, it, rest);
      KeysCons(canon, first, rest);
      KeysCons(canon, first, Insert(it, rest));
    }
  }

  lemma {:induction false} SortKeys(canon: Canon, items: seq<NewsItem>)
    ensures Distinct(UrlKeys(canon, NewestFirst(items))) <==> Distinct(UrlKeys(canon, items))
    ensures forall x :: x in NewestFirst(items) <==> x in items
  {
    hide UrlKey, UrlKeys, Distinct, Insert;
    if items != [] {
      var it, rest := items[0], NewestFirst(items[1..]);
      assert items == [it] + items[1..];
      SortKeys(canon, items[1..]);
      InsertKeys(canon, it, rest);
      KeysCons(canon, it, rest);
      KeysCons(canon, it, items[1..]);
    }
  }

  lemma {:induction false} TitlePassKeys(
      canon: Canon, fingerprint: Fingerprint, o: Options, items: seq<NewsItem>, seen: set<string>)
    requires Distinct(UrlKeys(canon, items))
    ensures Distinct(UrlKeys(canon, TitlePass(fingerprint, o, items, seen)))
  {
    hide UrlKey, UrlKeys, Distinct, TitlePass, Repeats, SeenAfter;
    if items == [] {
      TitleNone(fingerprint, o, seen);
    } else {
      var it, rest, after := items[0], items[1..], SeenAfter(fingerprint, o, items[0], seen);
      assert items == [it] + rest;
      KeysCons(canon, it, rest);
      TitleStep(fingerprint, o, items, seen);
      TitlePassKeys(canon, fingerprint, o, rest, seen);
      TitlePassKeys(canon, fingerprint, o, rest, after);
      TitlePassSubset(fingerprint, o, rest, after);
      KeysCons(canon, it, TitlePass(fingerprint, o, rest, after));
    }
  }

  /** The result is sorted, has nothing without a url, and repeats neither urls nor stories when told not to. */
  lemma ResultIsClean(canon: Canon, fingerprint: Fingerprint, o: Options, items: seq<NewsItem>)
    ensures var out := Deduped(canon, fingerprint, o, items);
            && Sorted(out) && (forall x :: x in out ==> x in items && HasUrl(x))
            && (o.urls ==> Distinct(UrlKeys(canon, out)))
            && (o.titles ==> Stories(fingerprint, o, out))
  {
    hide HasUrl, UrlKeys, BestOf, NewestFirst, TitlePass, Sorted, Stories, Distinct, Repeats;
    var working := Working(canon, o, items);
    var sorted := NewestFirst(working);
    WithUrlMembers(items);
    BestIsSubset(canon, WithUrl(items));
    NewestFirstSorts(working);
    SortKeys(canon, working);
    if o.titles {
      TitlePassSorted(fingerprint, o, sorted, {});
      TitlePassSubset(fingerprint, o, sorted, {});
      TitlePassStories(fingerprint, o, sorted, {});
      if o.urls {
        TitlePassKeys(canon, fingerprint, o, sorted, {});
      }
    }
  }

  lemma BestIsSubset(canon: Canon, items: seq<NewsItem>)
    ensures Distinct(UrlKeys(canon, BestOf(canon, items)))
    ensures forall x :: x in BestOf(canon, items) ==> x in items
  {
    hide BestOf, UrlKey, Position, Outranks;
    BestIsMaximal(canon, items, "");
    var best := BestOf(canon, items);
    forall x | x in best ensures x in items {
      var i :| 0 <= i < |best| && best[i] == x;
      BestIsMaximal(canon, items, UrlKey(canon, x));
      PositionIs(UrlKeys(canon, best), UrlKey(canon, x), i);
    }
  }

  /** Deduplicating a second time changes nothing. */
  lemma DedupedIsIdempotent(canon: Canon, fingerprint: Fingerprint, o: Options, items: seq<NewsItem>)
    ensures var out := Deduped(canon, fingerprint, o, items); Deduped(canon, fingerprint, o, out) == out
  {
    hide HasUrl, UrlKeys, BestOf, NewestFirst, TitlePass, Sorted, Stories, Distinct, Deduped;
    var out := Deduped(canon, fingerprint, o, items);
    ResultIsClean(canon, fingerprint, o, items);
    CleanIsFixed(canon, fingerprint, o, out);
  }

  lemma CleanIsFixed(canon: Canon, fingerprint: Fingerprint, o: Options, items: seq<NewsItem>)
    requires Sorted(items) && forall x :: x in items ==> HasUrl(x)
    requires o.urls ==> Distinct(UrlKeys(canon, items))
    requires o.titles ==> Stories(fingerprint, o, items)
    ensures Deduped(canon, fingerprint, o, items) == items
  {
    hide HasUrl, UrlKeys, BestOf, NewestFirst, TitlePass, Sorted, Stories, Distinct;
    WithUrlMembers(items);
    if o.urls {
      DistinctKeysAreKept(canon, items);
    }
    SortedIsFixed(items);
    if o.titles {
      StoriesPass(fingerprint, o, items, {});
    }
  }

  /** A list is left as it is exactly when it is in order, has urls throughout, and repeats nothing. */
  lemma FixedExactly(canon: Canon, fingerprint: Fingerprint, o: Options, items: seq<NewsItem>)
    ensures Deduped(canon, fingerprint, o, items) == items
       <==> && Sorted(items) && (forall x :: x in items ==> HasUrl(x))
            && (o.urls ==> Distinct(UrlKeys(canon, items))) && (o.titles ==> Stories(fingerprint, o, items))
  {
    hide HasUrl, UrlKeys, Sorted, Stories, Distinct, Deduped;
    ResultIsClean(canon, fingerprint, o, items);
    if Sorted(items) && (forall x :: x in items ==> HasUrl(x)) && (o.urls ==> Distinct(UrlKeys(canon, items)))
       && (o.titles ==> Stories(fingerprint, o, items)) {
      CleanIsFixed(canon, fingerprint, o, items);
    }
  }

  /** The item that stands for x before stories are compared: the best of its url. */
  ghost predicate StandsFor(canon: Canon, o: Options, items: seq<NewsItem>, rep: NewsItem, x: NewsItem) {
    && rep in Working(canon, o, items) && UrlKey(canon, rep) == UrlKey(canon, x) && !Outranks(x, rep)
    && (o.urls || rep == x)
  }

  lemma SomeStandsFor(canon: Canon, o: Options, items: seq<NewsItem>, x: NewsItem)
    requires x in items && HasUrl(x)
    ensures exists rep :: StandsFor(canon, o, items, rep, x)
  {
    hide HasUrl, UrlKey, BestOf, Outranks, Rep;
    WithUrlMembers(items);
    var key := UrlKey(canon, x);
    OutranksIsAsymmetric(x, x);
    if o.urls {
      BestIsMaximal(canon, WithUrl(items), key);
      RepIsMember(canon, BestOf(canon, WithUrl(items)), key);
      assert StandsFor(canon, o, items, Rep(canon, BestOf(canon, WithUrl(items)), key)[0], x);
    } else {
      assert StandsFor(canon, o, items, x, x);
    }
  }

  lemma RepIsMember(canon: Canon, best: seq<NewsItem>, key: string)
    ensures Rep(canon, best, key) != [] ==> Rep(canon, best, key)[0] in best
  {
  }

  lemma NewerThanOutranked(rep: NewsItem, x: NewsItem, y: NewsItem)
    requires !Outranks(x, rep) && Newer(y, rep)
    ensures Newer(y, x)
  {
    hide SortKeyOf, Before;
    BeforeIsTotal(SortKeyOf(x), SortKeyOf(rep));
    BeforeIsTotal(SortKeyOf(rep), SortKeyOf(y));
    BeforeIsTransitive(SortKeyOf(y), SortKeyOf(rep), SortKeyOf(x));
  }

  /** Is y an output as new as x, that is the item standing for x or tells the same story as that item? */
  ghost predicate Represents(
      canon: Canon, fingerprint: Fingerprint, o: Options, items: seq<NewsItem>, y: NewsItem, rep: NewsItem, x: NewsItem)
  {
    && StandsFor(canon, o, items, rep, x)
    && y in Deduped(canon, fingerprint, o, items) && Newer(y, x)
    && (y == rep || (o.titles && SameStory(fingerprint, o, rep, y)))
  }

  /** Every item with a url is represented. */
  lemma EveryItemIsRepresented(canon: Canon, fingerprint: Fingerprint, o: Options, items: seq<NewsItem>, x: NewsItem)
    requires x in items && HasUrl(x)
    ensures exists y, rep :: Represents(canon, fingerprint, o, items, y, rep, x)
  {
    hide HasUrl, Working, NewestFirst, TitlePass, Sorted, Newer, SameStory, Outranks, UrlKey;
    SomeStandsFor(canon, o, items, x);
    var rep :| StandsFor(canon, o, items, rep, x);
    var sorted := NewestFirst(Working(canon, o, items));
    NewestFirstSorts(Working(canon, o, items));
    InMultiset(sorted, Working(canon, o, items));
    NewerMeans(rep, rep);
    BeforeIsTotal(SortKeyOf(rep), SortKeyOf(rep));
    if o.titles {
      TitlePassCovers(fingerprint, o, sorted, {}, rep);
      NothingRepeatsNone(fingerprint, o, rep);
      var y :|
        y in TitlePass(fingerprint, o, sorted, {}) && Newer(y, rep) && (y == rep || SameStory(fingerprint, o, rep, y));
      NewerThanOutranked(rep, x, y);
      assert Represents(canon, fingerprint, o, items, y, rep, x);
    } else {
      NewerThanOutranked(rep, x, rep);
      assert Represents(canon, fingerprint, o, items, rep, rep, x);
    }
  }

  lemma NothingRepeatsNone(fingerprint: Fingerprint, o: Options, x: NewsItem)
    ensures !Repeats(fingerprint, o, x, {})
  {
  }
}
