/** What deduplication keeps: the best item of each url, the newest of each story, and everything covered. */
module DedupeLaws {
  import opened Text
  import opened Dedupe

  /** The lexicographic preference: dated, then later, then longer. */
  ghost predicate Outranks(a: NewsItem, b: NewsItem) {
    || Before(SortKeyOf(b), SortKeyOf(a))
    || (SortKeyOf(a) == SortKeyOf(b) && |a.summary| > |b.summary|)
  }

  /** The code's comparison is that preference. */
  lemma PreferIsOutranks(a: NewsItem, b: NewsItem)
    ensures Prefer(a, b) <==> Outranks(a, b)
  {
    hide Strip;
    LessIsTotal(Published(a), Published(b));
    LessIsTotal("", "");
  }

  lemma BeforeIsTotal(a: SortKey, b: SortKey)
    ensures Before(a, b) || Before(b, a) || a == b
    ensures !(Before(a, b) && Before(b, a))
    ensures a == b ==> !Before(a, b)
  {
    LessIsTotal(a.published, b.published);
    LessIsTotal(b.published, a.published);
  }

  lemma BeforeIsTransitive(a: SortKey, b: SortKey, c: SortKey)
    ensures Before(a, b) && !Before(c, b) ==> Before(a, c)
    ensures !Before(a, b) && !Before(b, c) ==> !Before(a, c)
  {
    BeforeIsTotal(a, b);
    BeforeIsTotal(b, c);
    BeforeIsTotal(a, c);
    if Before(a, b) && Before(b, c) {
      BeforeChains(a, b, c);
    }
    if Before(b, a) && Before(c, b) {
      BeforeChains(c, b, a);
    }
    if Before(a, c) && Before(c, b) {
      BeforeChains(a, c, b);
    }
  }

  lemma BeforeChains(a: SortKey, b: SortKey, c: SortKey)
    requires Before(a, b) && Before(b, c)
    ensures Before(a, c)
  {
    if a.dated == b.dated == c.dated {
      LessIsTransitive(a.published, b.published, c.published);
    }
  }

  /** Two items that do not outrank a third cannot be told apart from it in the other direction. */
  lemma OutranksIsTransitive(a: NewsItem, b: NewsItem, c: NewsItem)
    requires !Outranks(a, b) && !Outranks(b, c)
    ensures !Outranks(a, c)
  {
    hide SortKeyOf, Before;
    BeforeIsTotal(SortKeyOf(a), SortKeyOf(b));
    BeforeIsTotal(SortKeyOf(b), SortKeyOf(c));
    BeforeIsTotal(SortKeyOf(a), SortKeyOf(c));
    BeforeIsTransitive(SortKeyOf(a), SortKeyOf(b), SortKeyOf(c));
    BeforeIsTransitive(SortKeyOf(c), SortKeyOf(b), SortKeyOf(a));
  }

  /** The item kept for a url key. */
  function Rep(canon: Canon, best: seq<NewsItem>, key: string): seq<NewsItem> {
    var i := Position(UrlKeys(canon, best), key);
    if i < |best| then [best[i]] else []
  }

  lemma PositionIs(keys: seq<string>, key: string, i: nat)
    requires i < |keys| && keys[i] == key && Distinct(keys)
    ensures Position(keys, key) == i
  {
    hide Position;
  }

  lemma KeepKeys(canon: Canon, best: seq<NewsItem>, it: NewsItem)
    ensures UrlKeys(canon, Keep(canon, best, it))
         == UrlKeys(canon, best) + (if UrlKey(canon, it) in UrlKeys(canon, best) then [] else [UrlKey(canon, it)])
  {
    hide UrlKey, Prefer, Position;
  }

  /** Keeping an item changes what is kept for its own url key only. */
  lemma KeepRep(canon: Canon, best: seq<NewsItem>, it: NewsItem, key: string)
    requires Distinct(UrlKeys(canon, best))
    ensures Distinct(UrlKeys(canon, Keep(canon, best, it)))
    ensures Rep(canon, Keep(canon, best, it), key)
         == if UrlKey(canon, it) == key && (Rep(canon, best, key) == [] || Prefer(it, Rep(canon, best, key)[0]))
            then [it] else Rep(canon, best, key)
  {
    hide UrlKey, Prefer, Position;
    var keys, after := UrlKeys(canon, best), Keep(canon, best, it);
    KeepKeys(canon, best, it);
    forall i | 0 <= i < |keys| ensures keys[i] in keys {
    }
    var i := Position(keys, key);
    if i < |keys| {
      PositionIs(UrlKeys(canon, after), key, i);
    } else if UrlKey(canon, it) == key {
      PositionIs(UrlKeys(canon, after), key, |keys|);
    }
  }

  /** Each url key is kept once, by an item of the input that no other item of that key outranks. */
  lemma {:induction false} BestIsMaximal(canon: Canon, items: seq<NewsItem>, key: string)
    ensures var best := BestOf(canon, items); Distinct(UrlKeys(canon, best))
    ensures var rep := Rep(canon, BestOf(canon, items), key);
            && (rep == [] <==> forall x :: x in items ==> UrlKey(canon, x) != key)
            && (rep != [] ==> rep[0] in items && UrlKey(canon, rep[0]) == key)
            && (rep != [] ==> forall x :: x in items && UrlKey(canon, x) == key ==> !Outranks(x, rep[0]))
    decreases |items|
  {
    hide UrlKey, Prefer, Outranks, Position, Keep, Rep;
    if items == [] {
      RepOfNone(canon, key);
    } else {
      var front, it := items[..|items| - 1], items[|items| - 1];
      BestIsMaximal(canon, front, key);
      KeepRep(canon, BestOf(canon, front), it, key);
      assert forall x :: x in items <==> x in front || x == it;
      var rep := Rep(canon, BestOf(canon, front), key);
      if rep != [] {
        PreferIsOutranks(it, rep[0]);
        forall x | x in front && UrlKey(canon, x) == key && Prefer(it, rep[0]) ensures !Outranks(x, it) {
          OutranksIsAsymmetric(it, rep[0]);
          OutranksIsTransitive(x, rep[0], it);
        }
      }
      OutranksIsAsymmetric(it, it);
    }
  }

  lemma RepOfNone(canon: Canon, key: string)
    ensures Rep(canon, BestOf(canon, []), key) == [] && Distinct(UrlKeys(canon, BestOf(canon, [])))
  {
  }

  lemma OutranksIsAsymmetric(a: NewsItem, b: NewsItem)
    ensures Outranks(a, b) ==> !Outranks(b, a)
  {
    hide SortKeyOf, Before;
    BeforeIsTotal(SortKeyOf(a), SortKeyOf(b));
  }

  /** The kept keys stand in the order in which the input first names them. */
  function FirstSeen(keys: seq<string>): seq<string> {
    if keys == [] then []
    else
      var front, key := FirstSeen(keys[..|keys| - 1]), keys[|keys| - 1];
      if key in front then front else front + [key]
  }

  lemma {:induction false} BestIsInOrder(canon: Canon, items: seq<NewsItem>)
    ensures UrlKeys(canon, BestOf(canon, items)) == FirstSeen(UrlKeys(canon, items))
    decreases |items|
  {
    hide UrlKey, Keep;
    if items != [] {
      var front, it := items[..|items| - 1], items[|items| - 1];
      BestIsInOrder(canon, front);
      KeepKeys(canon, BestOf(canon, front), it);
      assert UrlKeys(canon, items) == UrlKeys(canon, front) + [UrlKey(canon, it)];
      assert UrlKeys(canon, items)[..|items| - 1] == UrlKeys(canon, front);
    }
  }

  ghost predicate Newer(a: NewsItem, b: NewsItem) {
    !Before(SortKeyOf(a), SortKeyOf(b))
  }

  ghost predicate Sorted(items: seq<NewsItem>) {
    forall i, j :: 0 <= i < j < |items| ==> Newer(items[i], items[j])
  }

  /** The items with one sort key, in order. */
  ghost function OfKey(items: seq<NewsItem>, key: SortKey): seq<NewsItem> {
    if items == [] then [] else (if SortKeyOf(items[0]) == key then [items[0]] else []) + OfKey(items[1..], key)
  }

  lemma SortedTail(it: NewsItem, rest: seq<NewsItem>)
    requires Sorted(rest) && forall x :: x in rest ==> Newer(it, x)
    ensures Sorted([it] + rest)
  {
    hide Newer;
  }

  lemma {:induction false} InsertKeeps(it: NewsItem, sorted: seq<NewsItem>)
    requires Sorted(sorted)
    ensures Sorted(Insert(it, sorted))
    ensures multiset(Insert(it, sorted)) == multiset([it] + sorted)
  {
    hide SortKeyOf, Before;
    if sorted != [] {
      var first, rest := sorted[0], sorted[1..];
      assert sorted == [first] + rest;
      BeforeIsTotal(SortKeyOf(it), SortKeyOf(first));
      assert forall x :: x in rest ==> Newer(first, x);
      if Before(SortKeyOf(it), SortKeyOf(first)) {
        InsertKeeps(it, rest);
        InMultiset(Insert(it, rest), [it] + rest);
        SortedTail(first, Insert(it, rest));
      } else {
        forall x | x in sorted ensures Newer(it, x) {
          BeforeIsTransitive(SortKeyOf(it), SortKeyOf(first), SortKeyOf(x));
        }
        SortedTail(it, sorted);
      }
    } else {
      SortedTail(it, []);
    }
  }

  lemma InMultiset(a: seq<NewsItem>, b: seq<NewsItem>)
    requires multiset(a) == multiset(b)
    ensures forall x :: x in a <==> x in b
  {
    forall x ensures x in a <==> x in b {
      assert x in a <==> x in multiset(a);
      assert x in b <==> x in multiset(b);
    }
  }

  lemma {:induction false} InsertIsStable(it: NewsItem, sorted: seq<NewsItem>, key: SortKey)
    ensures OfKey(Insert(it, sorted), key) == OfKey([it] + sorted, key)
  {
    hide SortKeyOf, Before;
    assert ([it] + sorted)[1..] == sorted;
    if sorted != [] && Before(SortKeyOf(it), SortKeyOf(sorted[0])) {
      var first, rest := sorted[0], sorted[1..];
      InsertIsStable(it, rest, key);
      assert ([it] + rest)[1..] == rest;
      assert ([first] + Insert(it, rest))[1..] == Insert(it, rest);
      BeforeIsTotal(SortKeyOf(it), SortKeyOf(first));
    }
  }

  /** The sort is a rearrangement, newest first, that keeps the order of items of the same date... */
  lemma {:induction false} NewestFirstSorts(items: seq<NewsItem>)
    ensures Sorted(NewestFirst(items)) && multiset(NewestFirst(items)) == multiset(items)
    ensures forall key :: OfKey(NewestFirst(items), key) == OfKey(items, key)
  {
    hide SortKeyOf, Insert, Newer;
    if items != [] {
      var rest := NewestFirst(items[1..]);
      NewestFirstSorts(items[1..]);
      InsertKeeps(items[0], rest);
      assert items == [items[0]] + items[1..];
      assert multiset([items[0]] + rest) == multiset{items[0]} + multiset(rest);
      forall key ensures OfKey(NewestFirst(items), key) == OfKey(items, key) {
        InsertIsStable(items[0], rest, key);
        assert ([items[0]] + rest)[1..] == rest;
      }
    }
  }

  lemma {:induction false} OfKeyMember(items: seq<NewsItem>, x: NewsItem)
    ensures x in items <==> x in OfKey(items, SortKeyOf(x))
  {
    hide SortKeyOf;
    if items != [] {
      OfKeyMember(items[1..], x);
    }
  }

  /** ...and the only such one. */
  lemma {:induction false} StableSortIsUnique(a: seq<NewsItem>, b: seq<NewsItem>)
    requires Sorted(a) && Sorted(b) && forall key :: OfKey(a, key) == OfKey(b, key)
    ensures a == b
  {
    hide SortKeyOf, Before;
    NoneOfKey(a);
    NoneOfKey(b);
    if a != [] {
      OfKeyMember(a, b[0]);
      OfKeyMember(b, b[0]);
      OfKeyMember(a, a[0]);
      OfKeyMember(b, a[0]);
      HeadIsNewest(a, b[0]);
      HeadIsNewest(b, a[0]);
      BeforeIsTotal(SortKeyOf(a[0]), SortKeyOf(b[0]));
      var key := SortKeyOf(a[0]);
      assert OfKey(a, key)[0] == a[0] && OfKey(b, key)[0] == b[0];
      forall k ensures OfKey(a[1..], k) == OfKey(b[1..], k) {
        OfKeyTail(a, k);
        OfKeyTail(b, k);
      }
      StableSortIsUnique(a[1..], b[1..]);
    }
  }

  lemma HeadIsNewest(items: seq<NewsItem>, x: NewsItem)
    requires Sorted(items) && x in items
    ensures !Before(SortKeyOf(items[0]), SortKeyOf(x))
  {
    hide SortKeyOf, Before;
    BeforeIsTotal(SortKeyOf(items[0]), SortKeyOf(items[0]));
    var i :| 0 <= i < |items| && items[i] == x;
    assert i > 0 ==> Newer(items[0], items[i]);
  }

  lemma HeadHasKey(items: seq<NewsItem>)
    ensures items != [] ==> OfKey(items, SortKeyOf(items[0])) != []
  {
    hide SortKeyOf;
  }

  lemma NoneOfKey(items: seq<NewsItem>)
    ensures items == [] <==> forall key :: OfKey(items, key) == []
  {
    HeadHasKey(items);
  }

  lemma OfKeyTail(items: seq<NewsItem>, key: SortKey)
    requires items != []
    ensures OfKey(items[1..], key)
         == if SortKeyOf(items[0]) == key then OfKey(items, key)[1..] else OfKey(items, key)
  {
    hide SortKeyOf;
  }
}
