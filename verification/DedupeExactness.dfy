/** Exactly which items deduplication drops, and exactly which lose both their url and their story. */
module DedupeExactness {
  import opened Text
  import opened Dedupe
  import opened DedupeLaws
  import opened DedupeCoverage

  lemma ShadowedCons(fingerprint: Fingerprint, o: Options, it: NewsItem, rest: seq<NewsItem>, i: nat)
    requires i < |rest|
    ensures Shadowed(fingerprint, o, [it] + rest, i + 1)
       <==> SameStory(fingerprint, o, rest[i], it) || Shadowed(fingerprint, o, rest, i)
  {
    hide SameStory;
    var all := [it] + rest;
    assert all[i + 1] == rest[i] && all[0] == it;
    forall j | 0 <= j < i ensures all[j + 1] == rest[j] {
    }
    if Shadowed(fingerprint, o, rest, i) {
      var j :| 0 <= j < i && SameStory(fingerprint, o, rest[i], rest[j]);
      assert SameStory(fingerprint, o, all[i + 1], all[j + 1]);
    }
    if SameStory(fingerprint, o, rest[i], it) {
      assert SameStory(fingerprint, o, all[i + 1], all[0]);
    }
  }

  /** The items whose story none before them tells, in order. */
  ghost function Unshadowed(fingerprint: Fingerprint, o: Options, items: seq<NewsItem>, n: nat): seq<NewsItem>
    requires n <= |items|
  {
    if n == 0 then []
    else Unshadowed(fingerprint, o, items, n - 1)
           + if Shadowed(fingerprint, o, items, n - 1) then [] else [items[n - 1]]
  }

  lemma {:induction false} TitlePassSnoc(
      fingerprint: Fingerprint, o: Options, items: seq<NewsItem>, x: NewsItem, seen: set<string>)
    ensures TitlePass(fingerprint, o, items + [x], seen)
         == TitlePass(fingerprint, o, items, seen)
              + if Repeats(fingerprint, o, x, seen) || exists y :: y in items && SameStory(fingerprint, o, x, y)
                then [] else [x]
  {
    hide TitlePass, Repeats, SeenAfter, SameStory;
    TitleStep(fingerprint, o, items + [x], seen);
    if items == [] {
      TitleNone(fingerprint, o, seen);
      TitleNone(fingerprint, o, SeenAfter(fingerprint, o, x, seen));
      assert (items + [x])[1..] == [];
    } else {
      var it, rest, after := items[0], items[1..], SeenAfter(fingerprint, o, items[0], seen);
      assert (items + [x])[1..] == rest + [x];
      TitleStep(fingerprint, o, items, seen);
      RepeatsAfter(fingerprint, o, it, seen, x);
      RepeatsShared(fingerprint, o, it, seen, x);
      TitlePassSnoc(fingerprint, o, rest, x, seen);
      TitlePassSnoc(fingerprint, o, rest, x, after);
      assert forall y :: y in items <==> y == it || y in rest;
    }
  }

  lemma {:induction false} PrefixKept(fingerprint: Fingerprint, o: Options, items: seq<NewsItem>, n: nat)
    requires n <= |items|
    ensures TitlePass(fingerprint, o, items[..n], {}) == Unshadowed(fingerprint, o, items, n)
  {
    hide TitlePass, SameStory, Repeats;
    if n == 0 {
      TitleNone(fingerprint, o, {});
    } else {
      PrefixKept(fingerprint, o, items, n - 1);
      assert items[..n] == items[..n - 1] + [items[n - 1]];
      TitlePassSnoc(fingerprint, o, items[..n - 1], items[n - 1], {});
      NothingRepeatsNone(fingerprint, o, items[n - 1]);
      if Shadowed(fingerprint, o, items, n - 1) {
        var j :| 0 <= j < n - 1 && SameStory(fingerprint, o, items[n - 1], items[j]);
        assert items[..n - 1][j] == items[j];
      }
    }
  }

  /** The title pass drops exactly the items whose story an earlier one tells, and keeps the others in order. */
  lemma KeptExactly(fingerprint: Fingerprint, o: Options, items: seq<NewsItem>)
    ensures TitlePass(fingerprint, o, items, {}) == Unshadowed(fingerprint, o, items, |items|)
  {
    hide TitlePass;
    PrefixKept(fingerprint, o, items, |items|);
    assert items[..|items|] == items;
  }

  /** The same of one item, where no url occurs twice. */
  lemma {:induction false} KeptWhereDistinct(
      canon: Canon, fingerprint: Fingerprint, o: Options, items: seq<NewsItem>, seen: set<string>, i: nat)
    requires Distinct(UrlKeys(canon, items)) && i < |items|
    ensures items[i] in TitlePass(fingerprint, o, items, seen)
       <==> !Repeats(fingerprint, o, items[i], seen) && !Shadowed(fingerprint, o, items, i)
  {
    hide UrlKeys, UrlKey, Distinct, TitlePass, Repeats, SeenAfter, SameStory, Shadowed;
    var it, rest, x := items[0], items[1..], items[i];
    var after := SeenAfter(fingerprint, o, it, seen);
    assert items == [it] + rest;
    KeysCons(canon, it, rest);
    TitleStep(fingerprint, o, items, seen);
    if i == 0 {
      TitlePassSubset(fingerprint, o, rest, seen);
      NoneBefore(fingerprint, o, items);
    } else {
      assert x == rest[i - 1] && x in rest;
      ShadowedCons(fingerprint, o, it, rest, i - 1);
      RepeatsAfter(fingerprint, o, it, seen, x);
      RepeatsShared(fingerprint, o, it, seen, x);
      KeptWhereDistinct(canon, fingerprint, o, rest, seen, i - 1);
      KeptWhereDistinct(canon, fingerprint, o, rest, after, i - 1);
    }
  }

  lemma NoneBefore(fingerprint: Fingerprint, o: Options, items: seq<NewsItem>)
    requires items != []
    ensures !Shadowed(fingerprint, o, items, 0)
  {
  }

  lemma RepeatsShared(fingerprint: Fingerprint, o: Options, it: NewsItem, seen: set<string>, x: NewsItem)
    ensures SameStory(fingerprint, o, x, it) && Repeats(fingerprint, o, it, seen) ==> Repeats(fingerprint, o, x, seen)
  {
  }

  /** Is there an output as new as x that has x's own url or tells x's own story? */
  ghost predicate RepresentedDirectly(
      canon: Canon, fingerprint: Fingerprint, o: Options, items: seq<NewsItem>, x: NewsItem)
  {
    exists y :: && y in Deduped(canon, fingerprint, o, items) && Newer(y, x)
                && (UrlKey(canon, y) == UrlKey(canon, x) || (o.titles && SameStory(fingerprint, o, x, y)))
  }

  /** With one of the two comparisons off, every item is. */
  lemma OneComparisonRepresentsDirectly(
      canon: Canon, fingerprint: Fingerprint, o: Options, items: seq<NewsItem>, x: NewsItem)
    requires x in items && HasUrl(x) && !(o.urls && o.titles)
    ensures RepresentedDirectly(canon, fingerprint, o, items, x)
  {
    hide HasUrl, Deduped, Working, Newer, SameStory, Outranks, UrlKey;
    EveryItemIsRepresented(canon, fingerprint, o, items, x);
  }

  // ---- the best item of each url, said of the input ----

  /** The i-th item is the best of its url: none outranks it, and it outranks those of that url before it. */
  ghost predicate Best(canon: Canon, items: seq<NewsItem>, i: nat) {
    && i < |items|
    && forall j :: 0 <= j < |items| && UrlKey(canon, items[j]) == UrlKey(canon, items[i]) ==>
         !Outranks(items[j], items[i]) && (j < i ==> Outranks(items[i], items[j]))
  }

  ghost predicate IsBest(canon: Canon, items: seq<NewsItem>, w: NewsItem) {
    exists i: nat :: i < |items| && Best(canon, items, i) && items[i] == w
  }

  lemma BestInFront(canon: Canon, items: seq<NewsItem>, i: nat)
    requires i + 1 < |items| && Best(canon, items[..|items| - 1], i)
    requires UrlKey(canon, items[|items| - 1]) == UrlKey(canon, items[i]) ==> !Outranks(items[|items| - 1], items[i])
    ensures Best(canon, items, i)
  {
    hide UrlKey, Outranks;
    var front := items[..|items| - 1];
    forall j | 0 <= j < |items| && UrlKey(canon, items[j]) == UrlKey(canon, items[i])
      ensures !Outranks(items[j], items[i]) && (j < i ==> Outranks(items[i], items[j]))
    {
      assert j < |front| ==> front[j] == items[j];
      assert front[i] == items[i];
    }
  }

  lemma LastIsBest(canon: Canon, items: seq<NewsItem>)
    requires items != []
    requires forall x :: x in items[..|items| - 1] && UrlKey(canon, x) == UrlKey(canon, items[|items| - 1]) ==>
      Outranks(items[|items| - 1], x)
    ensures Best(canon, items, |items| - 1)
  {
    hide UrlKey, Outranks;
    var last := |items| - 1;
    forall j | 0 <= j < |items| && UrlKey(canon, items[j]) == UrlKey(canon, items[last])
      ensures !Outranks(items[j], items[last]) && (j < last ==> Outranks(items[last], items[j]))
    {
      if j < last {
        assert items[..last][j] == items[j];
      }
      OutranksIsAsymmetric(items[last], items[j]);
    }
  }

  /** What is kept for a url is its best item. */
  lemma {:induction false} RepIsBest(canon: Canon, items: seq<NewsItem>, key: string)
    ensures var rep := Rep(canon, BestOf(canon, items), key);
            rep != [] ==> IsBest(canon, items, rep[0])
    decreases |items|
  {
    hide UrlKey, Prefer, Outranks, Position, Keep, Rep, Best, BestOf;
    if items == [] {
      RepOfNone(canon, key);
    } else {
      var front, it := items[..|items| - 1], items[|items| - 1];
      RepIsBest(canon, front, key);
      BestIsMaximal(canon, front, key);
      BestOfSnoc(canon, items, |items| - 1);
      assert items[..|items| - 1 + 1] == items;
      KeepRep(canon, BestOf(canon, front), it, key);
      var rep := Rep(canon, BestOf(canon, front), key);
      var now := Rep(canon, BestOf(canon, items), key);
      if rep != [] {
        PreferIsOutranks(it, rep[0]);
        forall x | x in front && UrlKey(canon, x) == key && Outranks(it, rep[0]) ensures Outranks(it, x) {
          OutranksThrough(it, x, rep[0]);
        }
      }
      if now == [it] {
        if UrlKey(canon, it) == key && (rep == [] || Prefer(it, rep[0])) {
          LastIsBest(canon, items);
          assert IsBest(canon, items, it);
        }
      }
      if now == rep && rep != [] && !(UrlKey(canon, it) == key && Prefer(it, rep[0])) {
        var i: nat :| i < |front| && Best(canon, front, i) && front[i] == rep[0];
        BestInFront(canon, items, i);
        assert items[i] == rep[0] && IsBest(canon, items, rep[0]);
      }
    }
  }

  lemma OutranksThrough(a: NewsItem, b: NewsItem, c: NewsItem)
    requires !Outranks(b, c)
    ensures Outranks(a, c) ==> Outranks(a, b)
  {
    hide Outranks;
    if !Outranks(a, b) {
      OutranksIsTransitive(a, b, c);
    }
  }

  /** There is only one best item of a url, and it is what is kept for it. */
  lemma BestIsKept(canon: Canon, items: seq<NewsItem>, i: nat)
    requires Best(canon, items, i)
    ensures items[i] in BestOf(canon, items) && Rep(canon, BestOf(canon, items), UrlKey(canon, items[i])) == [items[i]]
  {
    hide UrlKey, Outranks, Rep, BestOf;
    var key := UrlKey(canon, items[i]);
    BestIsMaximal(canon, items, key);
    RepIsBest(canon, items, key);
    var rep := Rep(canon, BestOf(canon, items), key);
    RepIsMember(canon, BestOf(canon, items), key);
    RepIsOne(canon, BestOf(canon, items), key);
    var k: nat :| k < |items| && Best(canon, items, k) && items[k] == rep[0];
    OneBest(canon, items, i, k);
  }

  lemma RepIsOne(canon: Canon, best: seq<NewsItem>, key: string)
    ensures |Rep(canon, best, key)| <= 1
  {
  }

  lemma OneBest(canon: Canon, items: seq<NewsItem>, i: nat, k: nat)
    requires Best(canon, items, i) && Best(canon, items, k) && UrlKey(canon, items[i]) == UrlKey(canon, items[k])
    ensures i == k
  {
    hide UrlKey, Outranks;
  }

  // ---- the order in which the title pass meets them ----

  /** w comes before r: it is newer, or as new and its url is named first. */
  ghost predicate ComesFirst(canon: Canon, items: seq<NewsItem>, w: NewsItem, r: NewsItem) {
    || Before(SortKeyOf(r), SortKeyOf(w))
    || (SortKeyOf(r) == SortKeyOf(w)
        && Position(UrlKeys(canon, items), UrlKey(canon, w)) < Position(UrlKeys(canon, items), UrlKey(canon, r)))
  }

  lemma ComesFirstIsStrict(canon: Canon, items: seq<NewsItem>, w: NewsItem, r: NewsItem)
    ensures !(ComesFirst(canon, items, w, r) && ComesFirst(canon, items, r, w))
  {
    hide SortKeyOf, Before, UrlKey, Position;
    BeforeIsTotal(SortKeyOf(w), SortKeyOf(r));
    BeforeIsTotal(SortKeyOf(w), SortKeyOf(w));
  }

  ghost predicate InOrder(canon: Canon, items: seq<NewsItem>, sorted: seq<NewsItem>) {
    forall p, q :: 0 <= p < q < |sorted| ==> ComesFirst(canon, items, sorted[p], sorted[q])
  }

  lemma IndexInOrder(canon: Canon, items: seq<NewsItem>, sorted: seq<NewsItem>, p: nat, q: nat)
    requires InOrder(canon, items, sorted) && p < |sorted| && q < |sorted|
    ensures ComesFirst(canon, items, sorted[p], sorted[q]) <==> p < q
  {
    hide ComesFirst;
    ComesFirstIsStrict(canon, items, sorted[p], sorted[q]);
  }

  lemma InOrderCons(canon: Canon, items: seq<NewsItem>, it: NewsItem, rest: seq<NewsItem>)
    ensures InOrder(canon, items, [it] + rest)
       <==> InOrder(canon, items, rest) && forall x :: x in rest ==> ComesFirst(canon, items, it, x)
  {
    hide ComesFirst;
    var all := [it] + rest;
    if InOrder(canon, items, all) {
      forall x | x in rest ensures ComesFirst(canon, items, it, x) {
        var j :| 0 <= j < |rest| && rest[j] == x;
        assert ComesFirst(canon, items, all[0], all[j + 1]);
      }
      forall p, q | 0 <= p < q < |rest| ensures ComesFirst(canon, items, rest[p], rest[q]) {
        assert ComesFirst(canon, items, all[p + 1], all[q + 1]);
      }
    }
    if InOrder(canon, items, rest) && forall x :: x in rest ==> ComesFirst(canon, items, it, x) {
      forall p, q | 0 <= p < q < |all| ensures ComesFirst(canon, items, all[p], all[q]) {
        assert all[q] == rest[q - 1] && rest[q - 1] in rest;
        assert p > 0 ==> all[p] == rest[p - 1];
      }
    }
  }

  lemma {:induction false} InsertInOrder(canon: Canon, items: seq<NewsItem>, it: NewsItem, sorted: seq<NewsItem>)
    requires InOrder(canon, items, sorted) && Sorted(sorted)
    requires forall x :: x in sorted ==>
      Position(UrlKeys(canon, items), UrlKey(canon, it)) < Position(UrlKeys(canon, items), UrlKey(canon, x))
    ensures InOrder(canon, items, Insert(it, sorted))
    ensures forall x :: x in Insert(it, sorted) <==> x == it || x in sorted
  {
    hide SortKeyOf, Before, UrlKey, UrlKeys, Position, InOrder, Sorted;
    if sorted == [] || !Before(SortKeyOf(it), SortKeyOf(sorted[0])) {
      forall x | x in sorted ensures ComesFirst(canon, items, it, x) {
        HeadIsNewest(sorted, x);
        BeforeIsTransitive(SortKeyOf(it), SortKeyOf(sorted[0]), SortKeyOf(x));
        BeforeIsTotal(SortKeyOf(it), SortKeyOf(x));
      }
      InOrderCons(canon, items, it, sorted);
    } else {
      var first, rest := sorted[0], sorted[1..];
      assert sorted == [first] + rest;
      SortedRest(sorted);
      InOrderCons(canon, items, first, rest);
      InsertInOrder(canon, items, it, rest);
      InOrderCons(canon, items, first, Insert(it, rest));
    }
  }

  lemma {:induction false} FirstSeenInOrder(keys: seq<string>)
    ensures var seen := FirstSeen(keys);
            && (forall i :: 0 <= i < |seen| ==> Position(keys, seen[i]) < |keys|)
            && (forall key :: key in seen <==> key in keys)
            && (forall i, j :: 0 <= i < j < |seen| ==> Position(keys, seen[i]) < Position(keys, seen[j]))
  {
    hide Position;
    if keys != [] {
      var front, key := keys[..|keys| - 1], keys[|keys| - 1];
      FirstSeenInOrder(front);
      assert keys == front + [key];
      assert forall k :: k in keys <==> k in front || k == key;
      var seen := FirstSeen(front);
      forall i | 0 <= i < |seen| ensures Position(keys, seen[i]) == Position(front, seen[i]) {
        PositionOfSum(front, key, seen[i]);
      }
      PositionOfSum(front, key, key);
    }
  }

  lemma {:induction false} PositionOfSum(front: seq<string>, last: string, key: string)
    ensures Position(front + [last], key) == if key in front || key != last then
              (if key in front then Position(front, key) else |front| + 1) else |front|
  {
    if front == [] {
      assert front + [last] == [last];
    } else {
      assert (front + [last])[1..] == front[1..] + [last];
      PositionOfSum(front[1..], last, key);
    }
  }

  lemma {:induction false} SortInOrder(canon: Canon, items: seq<NewsItem>, best: seq<NewsItem>, k: nat)
    requires UrlKeys(canon, best) == FirstSeen(UrlKeys(canon, items)) && k <= |best|
    ensures InOrder(canon, items, NewestFirst(best[k..]))
    decreases |best| - k
  {
    hide SortKeyOf, Before, UrlKey, Position, Insert, ComesFirst, Sorted;
    if k < |best| {
      var it, rest := best[k], best[k + 1..];
      assert best[k..][1..] == rest;
      SortInOrder(canon, items, best, k + 1);
      NewestFirstSorts(rest);
      SortKeys(canon, rest);
      FirstSeenInOrder(UrlKeys(canon, items));
      forall x | x in NewestFirst(rest)
        ensures Position(UrlKeys(canon, items), UrlKey(canon, it)) < Position(UrlKeys(canon, items), UrlKey(canon, x))
      {
        var j :| 0 <= j < |rest| && rest[j] == x;
        assert best[k + 1 + j] == x;
        assert UrlKeys(canon, best)[k] == UrlKey(canon, it) && UrlKeys(canon, best)[k + 1 + j] == UrlKey(canon, x);
      }
      InsertInOrder(canon, items, it, NewestFirst(rest));
    }
  }

  /** Some url's best item tells the same story as this one and comes before it. */
  ghost predicate ToldBefore(canon: Canon, fingerprint: Fingerprint, o: Options, items: seq<NewsItem>, r: NewsItem) {
    exists w :: IsBest(canon, items, w) && SameStory(fingerprint, o, r, w) && ComesFirst(canon, items, w, r)
  }

  lemma BestMembers(canon: Canon, items: seq<NewsItem>, w: NewsItem)
    ensures w in BestOf(canon, items) <==> IsBest(canon, items, w)
  {
    hide UrlKey, Outranks, Rep, BestOf, Best, UrlKeys;
    var best := BestOf(canon, items);
    if w in best {
      BestIsSubset(canon, items);
      RepOfMember(canon, best, w);
      RepIsBest(canon, items, UrlKey(canon, w));
    }
    if IsBest(canon, items, w) {
      var i: nat :| i < |items| && Best(canon, items, i) && items[i] == w;
      BestIsKept(canon, items, i);
    }
  }

  lemma RepOfMember(canon: Canon, best: seq<NewsItem>, w: NewsItem)
    requires Distinct(UrlKeys(canon, best)) && w in best
    ensures Rep(canon, best, UrlKey(canon, w)) == [w]
  {
    hide UrlKey, Position;
    var i :| 0 <= i < |best| && best[i] == w;
    PositionIs(UrlKeys(canon, best), UrlKey(canon, w), i);
  }

  /** The best item of a url is dropped exactly when its story was told before. */
  lemma ShadowedExactly(canon: Canon, fingerprint: Fingerprint, o: Options, items: seq<NewsItem>, i: nat)
    requires var sorted := NewestFirst(BestOf(canon, items)); i < |sorted|
    ensures var sorted := NewestFirst(BestOf(canon, items));
            Shadowed(fingerprint, o, sorted, i) <==> ToldBefore(canon, fingerprint, o, items, sorted[i])
  {
    hide NewestFirst, BestOf, SameStory, ComesFirst, IsBest;
    var best := BestOf(canon, items);
    var sorted := NewestFirst(best);
    BestIsInOrder(canon, items);
    SortInOrder(canon, items, best, 0);
    assert best[0..] == best;
    SortKeys(canon, best);
    if Shadowed(fingerprint, o, sorted, i) {
      var j :| 0 <= j < i && SameStory(fingerprint, o, sorted[i], sorted[j]);
      BestMembers(canon, items, sorted[j]);
      assert ComesFirst(canon, items, sorted[j], sorted[i]);
    }
    var r := sorted[i];
    forall w | IsBest(canon, items, w) && SameStory(fingerprint, o, r, w) && ComesFirst(canon, items, w, r)
      ensures Shadowed(fingerprint, o, sorted, i)
    {
      BestMembers(canon, items, w);
      var j :| 0 <= j < |sorted| && sorted[j] == w;
      IndexInOrder(canon, items, sorted, j, i);
    }
  }

  /**
    * With both comparisons on, an item is represented directly exactly when its url's best item tells no story told
    * before it, or some url's best item tells x's own story at least as late.
    */
  lemma DirectlyExactly(canon: Canon, fingerprint: Fingerprint, o: Options, items: seq<NewsItem>, x: NewsItem)
    requires x in items && HasUrl(x) && o.urls && o.titles
    ensures var known := WithUrl(items);
            (RepresentedDirectly(canon, fingerprint, o, items, x)
             <==> || (exists r :: && IsBest(canon, known, r) && UrlKey(canon, r) == UrlKey(canon, x)
                                  && !ToldBefore(canon, fingerprint, o, known, r))
                  || (exists z :: IsBest(canon, known, z) && SameStory(fingerprint, o, x, z) && Newer(z, x)))
  {
    hide HasUrl, WithUrl, BestOf, NewestFirst, TitlePass, Newer, SameStory, Outranks, UrlKey, Shadowed, IsBest;
    hide ToldBefore, Distinct, Repeats;
    var known := WithUrl(items);
    var best := BestOf(canon, known);
    var sorted := NewestFirst(best);
    var out := TitlePass(fingerprint, o, sorted, {});
    BestIsSubset(canon, known);
    SortKeys(canon, best);
    NewestFirstSorts(best);
    TitlePassSubset(fingerprint, o, sorted, {});
    forall r ensures IsBest(canon, known, r) <==> r in sorted {
      BestMembers(canon, known, r);
    }
    forall r | r in sorted ensures r in out <==> !ToldBefore(canon, fingerprint, o, known, r) {
      var i :| 0 <= i < |sorted| && sorted[i] == r;
      KeptWhereDistinct(canon, fingerprint, o, sorted, {}, i);
      NothingRepeatsNone(fingerprint, o, r);
      ShadowedExactly(canon, fingerprint, o, known, i);
    }
    if RepresentedDirectly(canon, fingerprint, o, items, x) {
      var y :| y in out && Newer(y, x) && (UrlKey(canon, y) == UrlKey(canon, x) || SameStory(fingerprint, o, x, y));
      assert IsBest(canon, known, y);
    }
    forall r | r in sorted && UrlKey(canon, r) == UrlKey(canon, x) && r in out
      ensures RepresentedDirectly(canon, fingerprint, o, items, x)
    {
      BestIsNewer(canon, items, r, x);
    }
    forall z | z in sorted && SameStory(fingerprint, o, x, z) && Newer(z, x)
      ensures RepresentedDirectly(canon, fingerprint, o, items, x)
    {
      StoryIsTold(fingerprint, o, sorted, x, z);
    }
  }

  lemma BestIsNewer(canon: Canon, items: seq<NewsItem>, r: NewsItem, x: NewsItem)
    requires r in BestOf(canon, WithUrl(items)) && UrlKey(canon, r) == UrlKey(canon, x) && x in items && HasUrl(x)
    ensures Newer(r, x)
  {
    hide HasUrl, WithUrl, BestOf, UrlKey, Rep, Outranks;
    var known := WithUrl(items);
    WithUrlMembers(items);
    BestIsSubset(canon, known);
    RepOfMember(canon, BestOf(canon, known), r);
    BestIsMaximal(canon, known, UrlKey(canon, x));
    RepIsNewer(r, x);
  }

  lemma RepIsNewer(rep: NewsItem, x: NewsItem)
    requires !Outranks(x, rep)
    ensures Newer(rep, x)
  {
  }

  lemma StoryIsTold(fingerprint: Fingerprint, o: Options, sorted: seq<NewsItem>, x: NewsItem, z: NewsItem)
    requires Sorted(sorted) && z in sorted && SameStory(fingerprint, o, x, z) && Newer(z, x)
    ensures exists y :: y in TitlePass(fingerprint, o, sorted, {}) && Newer(y, x) && SameStory(fingerprint, o, x, y)
  {
    hide TitlePass, Sorted, Repeats, Newer, Before, SortKeyOf;
    TitlePassCovers(fingerprint, o, sorted, {}, z);
    NothingRepeatsNone(fingerprint, o, z);
    var y :| y in TitlePass(fingerprint, o, sorted, {}) && Newer(y, z) && (y == z || SameStory(fingerprint, o, z, y));
    NewerMeans(y, z);
    NewerMeans(z, x);
    NewerMeans(y, x);
    BeforeIsTransitive(SortKeyOf(y), SortKeyOf(z), SortKeyOf(x));
  }

  lemma BestOfTwoUrls(canon: Canon, first: NewsItem, update: NewsItem, copy: NewsItem)
    requires UrlKey(canon, first) == UrlKey(canon, update) != UrlKey(canon, copy) && Prefer(update, first)
    ensures BestOf(canon, [first, update, copy]) == [update, copy]
  {
    hide UrlKey, Prefer, BestOf;
    var items := [first, update, copy];
    BestOfNone(canon, items[..0]);
    BestOfSnoc(canon, items, 0);
    BestOfSnoc(canon, items, 1);
    BestOfSnoc(canon, items, 2);
    assert UrlKeys(canon, [first]) == [UrlKey(canon, first)] && UrlKeys(canon, [update]) == [UrlKey(canon, update)];
    assert UrlKeys(canon, []) == [];
    assert items[..3] == items;
  }

  lemma SortOfTwo(a: NewsItem, b: NewsItem)
    requires Before(SortKeyOf(a), SortKeyOf(b))
    ensures NewestFirst([a, b]) == [b, a]
  {
    hide SortKeyOf, Before;
    assert [a, b][1..] == [b] && [b][1..] == [];
    assert NewestFirst([b]) == [b];
    assert Insert(a, [b]) == [b] + Insert(a, []);
  }

  lemma TitlesOfTwo(fingerprint: Fingerprint, o: Options, a: NewsItem, b: NewsItem)
    requires SameStory(fingerprint, o, b, a)
    ensures TitlePass(fingerprint, o, [a, b], {}) == [a]
  {
    hide TitlePass;
    assert [a, b][1..] == [b] && [b][1..] == [];
    TitleStep(fingerprint, o, [a, b], {});
    TitleStep(fingerprint, o, [b], SeenAfter(fingerprint, o, a, {}));
    TitleNone(fingerprint, o, SeenAfter(fingerprint, o, a, {}));
  }

  lemma SyndicatedOver(
      canon: Canon, fingerprint: Fingerprint, o: Options, first: NewsItem, update: NewsItem, copy: NewsItem)
    requires o.urls && o.titles && HasUrl(first) && HasUrl(update) && HasUrl(copy)
    requires UrlKey(canon, first) == UrlKey(canon, update) != UrlKey(canon, copy)
    requires Prefer(update, first) && Before(SortKeyOf(update), SortKeyOf(copy))
    requires SameStory(fingerprint, o, update, copy)
    ensures Deduped(canon, fingerprint, o, [first, update, copy]) == [copy]
  {
    hide UrlKey, Prefer, SortKeyOf, Before, HasUrl, SameStory, BestOf, NewestFirst, TitlePass, WithUrl;
    WithUrlMembers([first, update, copy]);
    BestOfTwoUrls(canon, first, update, copy);
    SortOfTwo(update, copy);
    TitlesOfTwo(fingerprint, o, copy, update);
  }

  function Sample(title: string, url: string, published: string): NewsItem {
    NewsItem(title, url, "", published, "")
  }

  lemma SampleMeans(canon: Canon, title: string, url: string, published: string)
    requires url != "" && published != "" && Stripped(url) && Stripped(published) && canon(url) == url
    ensures var it := Sample(title, url, published);
            && HasUrl(it) && UrlKey(canon, it) == url
            && Published(it) == published && SortKeyOf(it) == SortKey(1, published)
  {
    StripFixesStripped(url);
    StripFixesStripped(published);
  }

  /** An item whose url was updated under another title can lose both: here nothing left shows either. */
  lemma DirectRepresentationCanFail()
    ensures var items := [Sample("a", "u", "1"), Sample("b", "u", "2"), Sample("b", "v", "3")];
            !RepresentedDirectly(s => s, s => s, Options(true, true, 1), items, items[0])
  {
    hide Strip, HasUrl, UrlKey, SortKeyOf, Published, Deduped, Newer;
    var same: Canon := s => s;
    SampleMeans(same, "a", "u", "1");
    SampleMeans(same, "b", "u", "2");
    SampleMeans(same, "b", "v", "3");
    SyndicatedOver(
      same, same, Options(true, true, 1), Sample("a", "u", "1"), Sample("b", "u", "2"), Sample("b", "v", "3"));
  }
}
