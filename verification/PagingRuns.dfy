/** Following pages to the end while other clients use the same cache. */
module PagingRuns {
  import opened Wrappers
  import opened ResponseCache
  import opened CacheRuns
  import opened Paging
  import opened PagingLaws

  /** One follow-up request: what others did to the cache before it, its limit, and its time. */
  datatype Visit = Visit(others: seq<Op>, limit: Option<nat>, now: real)

  datatype Outcome =
    | Done(pieces: seq<string>)
    | Lost(pieces: seq<string>)
    | Pending(pieces: seq<string>, nextOffset: nat)
    | Failed(error: PageError)

  datatype Client = Client(id: string, owner: Option<string>, tool: string, settings: Settings)

  /** A client that asks for offset + returnedChars until hasMore is false. */
  function Follow(cfg: Config, c: Client, ops: seq<Op>, offset: nat, visits: seq<Visit>, pieces: seq<string>): Outcome
    decreases |visits|
  {
    if visits == [] then Pending(pieces, offset)
    else
      var v := visits[0];
      var before := ops + v.others;
      var e := GetAnswer(cfg, After(cfg, before), c.id, c.owner, v.now);
      if e.None? then Lost(pieces)
      else
        var r := PaginateFromCache(e.value, c.settings, c.id, offset, v.limit, c.tool);
        if r.Err? then Failed(r.error)
        else if r.value.Blocks? then Done(pieces)
        else
          var page := r.value.page;
          var got := pieces + [page.text];
          if !page.hasMore then Done(got)
          else
            Follow(cfg, c, before + [Get(c.id, c.owner, v.now)], page.offset + page.returnedChars, visits[1..], got)
  }

  function Concat(pieces: seq<string>): string {
    if pieces == [] then "" else Concat(pieces[..|pieces| - 1]) + pieces[|pieces| - 1]
  }

  /** Nobody else puts a response under this id: ids are drawn afresh for every response. */
  predicate LeavesId(others: seq<Op>, id: string) {
    forall i :: 0 <= i < |others| && others[i].Put? ==> others[i].id != id
  }

  lemma {:induction false} OthersKeepLastPut(ops: seq<Op>, others: seq<Op>, id: string)
    requires LeavesId(others, id)
    ensures LastPut(ops + others, id) == LastPut(ops, id)
  {
    if others == [] {
      assert ops + others == ops;
    } else {
      OthersKeepLastPut(ops, others[..|others| - 1], id);
      assert (ops + others)[..|ops + others| - 1] == ops + others[..|others| - 1];
    }
  }

  lemma PageSlices(text: string, offset: nat, limit: nat, id: string, tool: string)
    requires offset < |text| && limit >= 1
    ensures var p := PageAt(text, offset, limit, id, tool);
            && p.text == text[offset..offset + p.returnedChars] && 1 <= p.returnedChars <= limit
            && offset + p.returnedChars <= |text|
            && p.offset == offset && (p.hasMore <==> offset + p.returnedChars < |text|)
            && text[..offset + p.returnedChars] == text[..offset] + p.text
  {
  }

  /** A request inside the text gets the page at its offset. */
  lemma CacheGivesPage(e: Entry, settings: Settings, id: string, offset: nat, limit: Option<nat>, tool: string)
    requires PageSize(settings) > 0 && offset < |e.text| && SameToolName(tool, e.tool)
    ensures var n := EffectiveLimit(limit, PageSize(settings));
            && n >= 1
            && PaginateFromCache(e, settings, id, offset, limit, tool)
               == Ok(OnePage(PageAt(e.text, offset, n, id, e.tool)))
  {
    hide SameToolName, PageAt;
  }

  /**
    * Reassembly: whatever limits the client sends and whatever others do in between, following the
    * pages never runs past the end and never meets another text; it gives back exactly the cached
    * text in at most totalChars pages, or reports that the entry is gone.
    */
  lemma {:induction false} FollowReassembles(
    cfg: Config, c: Client, ops: seq<Op>, e: Entry, offset: nat, visits: seq<Visit>, pieces: seq<string>)
    requires PageSize(c.settings) > 0 && offset < |e.text| && SameToolName(c.tool, e.tool)
    requires LastPut(ops, c.id) == Some(e) && e.owner == c.owner
    requires forall i :: 0 <= i < |visits| ==> LeavesId(visits[i].others, c.id)
    requires Concat(pieces) == e.text[..offset] && |pieces| <= offset
    ensures match Follow(cfg, c, ops, offset, visits, pieces)
            case Done(got) => Concat(got) == e.text && |got| <= |e.text|
            case Lost(got) => Concat(got) <= e.text
            case Pending(got, next) => next < |e.text| && Concat(got) == e.text[..next] && next >= offset + |visits|
            case Failed(_) => false
    decreases |visits|
  {
    hide GetAnswer, After, SameToolName, LastPut, PageAt, PaginateFromCache, EffectiveLimit;
    if visits != [] {
      var v := visits[0];
      var before := ops + v.others;
      OthersKeepLastPut(ops, v.others, c.id);
      HitIsGenuine(cfg, before, c.id, c.owner, v.now);
      if GetAnswer(cfg, After(cfg, before), c.id, c.owner, v.now).Some? {
        var limit := EffectiveLimit(v.limit, PageSize(c.settings));
        CacheGivesPage(e, c.settings, c.id, offset, v.limit, c.tool);
        PageSlices(e.text, offset, limit, c.id, e.tool);
        var p := PageAt(e.text, offset, limit, c.id, e.tool);
        var got := pieces + [p.text];
        assert got[..|got| - 1] == pieces;
        if p.hasMore {
          GetKeepsLastPut(before, c.id, c.owner, v.now);
          FollowReassembles(
            cfg, c, before + [Get(c.id, c.owner, v.now)], e, offset + p.returnedChars, visits[1..], got);
        } else {
          assert e.text[..|e.text|] == e.text;
        }
      }
    }
  }

  lemma GetKeepsLastPut(ops: seq<Op>, id: string, owner: Option<string>, now: real)
    ensures LastPut(ops + [Get(id, owner, now)], id) == LastPut(ops, id)
  {
    assert (ops + [Get(id, owner, now)])[..|ops|] == ops;
  }

  /** The whole exchange: a fresh response is cached and its first page returned, then followed. */
  function Exchange(
    cfg: Config, c: Client, ops: seq<Op>, blocks: seq<Block>, firstLimit: Option<nat>, putAt: real, visits: seq<Visit>)
    : Outcome
  {
    var (reply, text) := FreshReply(blocks, c.settings, c.tool, firstLimit, c.id);
    if text.None? then Done([])
    else
      var put := Put(c.id, Entry(c.tool, text.value, putAt, c.owner), putAt);
      var page := reply.page;
      if !page.hasMore then Done([page.text])
      else Follow(cfg, c, ops + [put], page.returnedChars, visits, [page.text])
  }

  /**
    * For any joined text longer than a page, any limits of at least one and any interleaving with others
    * that do not reuse its id, the exchange gives back the joined text exactly, in at most
    * totalChars pages, or reports the loss of the entry; and enough visits always bring it to an end.
    */
  lemma ExchangeReassembles(
    cfg: Config, c: Client, ops: seq<Op>, blocks: seq<Block>, text: string, firstLimit: Option<nat>, putAt: real,
    visits: seq<Visit>)
    requires PageSize(c.settings) > 0
    requires IsJoined(text, blocks) && |text| > PageSize(c.settings)
    requires forall i :: 0 <= i < |visits| ==> LeavesId(visits[i].others, c.id)
    ensures var o := Exchange(cfg, c, ops, blocks, firstLimit, putAt, visits);
            && (o.Done? ==> Concat(o.pieces) == text && |o.pieces| <= |text|)
            && (o.Lost? ==> Concat(o.pieces) <= text)
            && (o.Pending? ==> Concat(o.pieces) <= text && |visits| < |text|)
            && !o.Failed?
  {
    hide JoinTextBlocks, IsJoined, SameToolName, PageAt, LastPut, Follow, EffectiveLimit;
    JoinIs(text, blocks);
    var n := EffectiveLimit(firstLimit, PageSize(c.settings));
    LimitAtLeastOne(firstLimit, PageSize(c.settings));
    PageSlices(text, 0, n, c.id, c.tool);
    var p := PageAt(text, 0, n, c.id, c.tool);
    var e := Entry(c.tool, text, putAt, c.owner);
    var put := Put(c.id, e, putAt);
    assert text[..0] + p.text == p.text;
    assert LastPut(ops + [put], c.id) == Some(e) by { PutIsLast(ops, put); }
    assert Concat([p.text]) == p.text by { ConcatOne(p.text); }
    assert SameToolName(c.tool, c.tool) by { SameToolNameIsKeyEquality(c.tool, c.tool); }
    if p.hasMore {
      FollowReassembles(cfg, c, ops + [put], e, p.returnedChars, visits, [p.text]);
    } else {
      assert text[..|text|] == text;
    }
  }

  lemma LimitAtLeastOne(limit: Option<nat>, page: nat)
    requires page > 0
    ensures EffectiveLimit(limit, page) >= 1
  {
  }

  lemma ConcatOne(piece: string)
    ensures Concat([piece]) == piece
  {
    assert [piece][..0] == [] && "" + piece == piece;
  }

  lemma PutIsLast(ops: seq<Op>, put: Op)
    requires put.Put?
    ensures LastPut(ops + [put], put.id) == Some(put.entry)
  {
  }

  /** The run that a follower's visits add up to. */
  function VisitOps(c: Client, visits: seq<Visit>): seq<Op> {
    if visits == [] then []
    else visits[0].others + [Get(c.id, c.owner, visits[0].now)] + VisitOps(c, visits[1..])
  }

  function OtherIds(others: seq<Op>): set<string> {
    set i | 0 <= i < |others| :: others[i].id
  }

  /** Before every visit others use fewer than maxEntries ids, and no visit comes too late. */
  predicate Unhurried(cfg: Config, visits: seq<Visit>, createdAt: real) {
    forall i :: 0 <= i < |visits| ==>
      && |OtherIds(visits[i].others)| < cfg.maxEntries
      && visits[i].now - createdAt <= cfg.ttl
  }

  lemma {:induction false} OthersTouch(cfg: Config, ops: seq<Op>, others: seq<Op>, id: string)
    ensures TouchedSince(cfg, ops + others, id) <= TouchedSince(cfg, ops, id) + OtherIds(others)
  {
    hide GetAnswer, After;
    if others == [] {
      assert ops + others == ops;
    } else {
      var front, op := others[..|others| - 1], others[|others| - 1];
      OthersTouch(cfg, ops, front, id);
      assert (ops + others)[..|ops + others| - 1] == ops + front;
      assert forall i :: 0 <= i < |front| ==> front[i] == others[i];
      assert op.id in OtherIds(others);
    }
  }

  lemma HitTouches(cfg: Config, ops: seq<Op>, id: string, owner: Option<string>, now: real)
    requires GetAnswer(cfg, After(cfg, ops), id, owner, now).Some?
    ensures TouchedSince(cfg, ops + [Get(id, owner, now)], id) == {}
  {
    hide GetAnswer, After;
    assert (ops + [Get(id, owner, now)])[..|ops|] == ops;
  }

  lemma TimedSplit(ops: seq<Op>, v: Visit, get: Op, rest: seq<Op>)
    requires get.now == v.now && Timed(ops + (v.others + [get] + rest))
    ensures Timed(ops + v.others) && StartsBy(ops + v.others, v.now)
    ensures Timed((ops + v.others + [get]) + rest)
  {
    var all := ops + (v.others + [get] + rest);
    var before := ops + v.others;
    assert all == (before + [get]) + rest;
    assert all[|before|] == get && forall i :: 0 <= i < |before| ==> all[i] == before[i];
  }

  /**
    * A follower that is not too slow, in a cache that is not too busy, never loses its entry: each
    * of its own visits makes the entry the most recent again.
    */
  lemma {:induction false} FollowNeverLost(
    cfg: Config, c: Client, ops: seq<Op>, e: Entry, offset: nat, visits: seq<Visit>, pieces: seq<string>)
    requires LastPut(ops, c.id) == Some(e) && e.owner == c.owner && TouchedSince(cfg, ops, c.id) == {}
    requires forall i :: 0 <= i < |visits| ==> LeavesId(visits[i].others, c.id)
    requires Unhurried(cfg, visits, e.createdAt) && Timed(ops + VisitOps(c, visits))
    ensures !Follow(cfg, c, ops, offset, visits, pieces).Lost?
    decreases |visits|
  {
    hide GetAnswer, After, PaginateFromCache, LastPut, TouchedSince, Timed;
    if visits != [] {
      var v := visits[0];
      var before, get := ops + v.others, Get(c.id, c.owner, v.now);
      TimedSplit(ops, v, get, VisitOps(c, visits[1..]));
      OthersKeepLastPut(ops, v.others, c.id);
      OthersTouch(cfg, ops, v.others, c.id);
      SubsetSize(TouchedSince(cfg, before, c.id), OtherIds(v.others));
      StillServed(cfg, before, c.id, e, v.now);
      var r := PaginateFromCache(e, c.settings, c.id, offset, v.limit, c.tool);
      if r.Ok? && r.value.OnePage? && r.value.page.hasMore {
        GetKeepsLastPut(before, c.id, c.owner, v.now);
        HitTouches(cfg, before, c.id, c.owner, v.now);
        var page := r.value.page;
        FollowNeverLost(cfg, c, before + [get], e, page.offset + page.returnedChars, visits[1..], pieces + [page.text]);
      }
    }
  }

  /** So with a visit for every character the exchange is sure to end with the whole text. */
  lemma {:induction false} ExchangeCompletes(
    cfg: Config, c: Client, ops: seq<Op>, blocks: seq<Block>, text: string, firstLimit: Option<nat>, putAt: real,
    visits: seq<Visit>)
    requires PageSize(c.settings) > 0
    requires IsJoined(text, blocks) && |text| > PageSize(c.settings)
    requires forall i :: 0 <= i < |visits| ==> LeavesId(visits[i].others, c.id)
    requires Unhurried(cfg, visits, putAt) && |visits| >= |text|
    requires var put := Put(c.id, Entry(c.tool, text, putAt, c.owner), putAt);
             Timed(ops + [put] + VisitOps(c, visits))
    ensures var o := Exchange(cfg, c, ops, blocks, firstLimit, putAt, visits);
            o.Done? && Concat(o.pieces) == text
  {
    hide JoinTextBlocks, IsJoined, SameToolName, PageAt, LastPut, Follow, EffectiveLimit, TouchedSince, Timed, Concat;
    ExchangeReassembles(cfg, c, ops, blocks, text, firstLimit, putAt, visits);
    JoinIs(text, blocks);
    var p := PageAt(text, 0, EffectiveLimit(firstLimit, PageSize(c.settings)), c.id, c.tool);
    var e := Entry(c.tool, text, putAt, c.owner);
    var put := Put(c.id, e, putAt);
    PutIsLast(ops, put);
    PutTouches(cfg, ops, put);
    FollowNeverLost(cfg, c, ops + [put], e, p.returnedChars, visits, [p.text]);
  }

  lemma PutTouches(cfg: Config, ops: seq<Op>, put: Op)
    requires put.Put?
    ensures TouchedSince(cfg, ops + [put], put.id) == {}
  {
    hide After;
  }
}
