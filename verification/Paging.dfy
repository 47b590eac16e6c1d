/**
  * Paging large tool responses (src/mcp_proxy/tool_response_pagination.py): a page is a slice of
  * the text, and a client that follows offset + returnedChars gets the whole text back.
  */
module Paging {
  import opened Wrappers
  import opened ResponseCache
  import opened ToolNames
  import opened ToolNameLaws
  import PaginationArgs

  datatype Block = Text(text: string) | NonText(payload: string)

  datatype Settings = Settings(pageChars: int, textMaxChars: int)

  function PageSize(settings: Settings): int {
    if settings.pageChars > 0 then settings.pageChars else settings.textMaxChars
  }

  const TRUNC_SUFFIX := " …[truncated]"

  function TruncateText(text: string, maxChars: int): string {
    if maxChars <= 0 || |text| <= maxChars then text
    else text[..if maxChars > |TRUNC_SUFFIX| then maxChars - |TRUNC_SUFFIX| else 0] + TRUNC_SUFFIX
  }

  function TruncateBlock(b: Block, maxChars: int): Block {
    if b.Text? then Text(TruncateText(b.text, maxChars)) else b
  }

  /** `_truncate_blocks` */
  method TruncateBlocks(blocks: seq<Block>, maxChars: int) returns (out: seq<Block>)
    ensures |out| == |blocks|
    ensures forall i :: 0 <= i < |blocks| ==> out[i] == TruncateBlock(blocks[i], maxChars)
  {
    if maxChars <= 0 { return blocks; }
    out := [];
    for i := 0 to |blocks|
      invariant |out| == i
      invariant forall k :: 0 <= k < i ==> out[k] == TruncateBlock(blocks[k], maxChars)
    {
      var b := blocks[i];
      if b.Text? && |b.text| > maxChars {
        out := out + [Text(TruncateText(b.text, maxChars))];
      } else {
        out := out + [b];
      }
    }
  }

  function TruncatedBlocks(blocks: seq<Block>, maxChars: int): seq<Block> {
    seq(|blocks|, i requires 0 <= i < |blocks| => TruncateBlock(blocks[i], maxChars))
  }

  /** The blocks joined by newlines, unless one of them is not text. */
  function JoinTextBlocks(blocks: seq<Block>): Option<string> {
    if blocks == [] then Some("")
    else if !blocks[0].Text? then None
    else if |blocks| == 1 then Some(blocks[0].text)
    else
      var rest :- JoinTextBlocks(blocks[1..]);
      Some(blocks[0].text + "\n" + rest)
  }

  datatype Page = Page(
    text: string, offset: nat, limit: nat, returnedChars: nat, totalChars: nat, hasMore: bool,
    responseCacheId: string, toolName: string)

  datatype Reply = Blocks(blocks: seq<Block>) | OnePage(page: Page)

  datatype PageError = MissingOrExpired | OtherTool | PastEnd

  /** `_build_page_payload` for the slice of a text at an offset */
  function PageAt(text: string, offset: nat, limit: nat, cacheId: string, tool: string): Page
    requires offset <= |text|
  {
    var end := if offset + limit <= |text| then offset + limit else |text|;
    var slice := text[offset..end];
    Page(slice, offset, limit, |slice|, |text|, offset + |slice| < |text|, cacheId, tool)
  }

  /** `min(limit or page, page)` */
  function EffectiveLimit(limit: Option<nat>, page: nat): nat {
    var wanted := if limit.None? || limit.value == 0 then page else limit.value;
    if wanted <= page then wanted else page
  }

  /** `_same_tool_name` */
  predicate SameToolName(a: string, b: string) {
    a == b || (Decode(a).Some? && Decode(b).Some? && Decode(a) == Decode(b))
  }

  /** On all pairs this is equality of canonical keys. */
  lemma SameToolNameIsKeyEquality(a: string, b: string)
    ensures SameToolName(a, b) <==> Key(a) == Key(b)
  {
    hide Decode, Key;
    KeyKernel(a, b);
  }

  /** `paginate_from_cache` */
  function PaginateFromCache(
    e: Entry, settings: Settings, cacheId: string, offset: nat, limit: Option<nat>, tool: string)
    : Result<Reply, PageError>
  {
    var page := PageSize(settings);
    if page <= 0 then Ok(Blocks([Text(e.text)]))
    else if tool != "" && e.tool != "" && !SameToolName(tool, e.tool) then Err(OtherTool)
    else if offset >= |e.text| then Err(PastEnd)
    else Ok(OnePage(PageAt(e.text, offset, EffectiveLimit(limit, page), cacheId, e.tool)))
  }

  /** What a fresh response is paged into, and the text that has to be cached for it, if any. */
  function FreshReply(blocks: seq<Block>, settings: Settings, tool: string, limit: Option<nat>, newId: string)
    : (Reply, Option<string>)
  {
    var page, hard := PageSize(settings), settings.textMaxChars;
    var text := JoinTextBlocks(blocks);
    if page <= 0 then (Blocks(TruncatedBlocks(blocks, hard)), None)
    else if text.None? then (Blocks(TruncatedBlocks(blocks, if hard > 0 then hard else page)), None)
    else if |text.value| <= page then
      (Blocks(if hard > 0 && |text.value| > hard then TruncatedBlocks(blocks, hard) else blocks), None)
    else (OnePage(PageAt(text.value, 0, EffectiveLimit(limit, page), newId, tool)), text)
  }

  /** `paginate_call_tool_response`; newId is the token the cache draws if it needs one. */
  method PaginateCallToolResponse(
    blocks: seq<Block>, settings: Settings, cache: ToolResponseCache, tool: string,
    pagination: PaginationArgs.Request, owner: Option<string>, newId: string, createdAt: real, now: real)
    returns (r: Result<Reply, PageError>)
    requires cache.Valid()
    requires pagination.cacheId.Some? ==> pagination.cacheId.value != ""
    modifies cache
    ensures cache.Valid()
    ensures var rows := old(cache.entries);
            if PageSize(settings) <= 0 || pagination.cacheId.None? then
              var (reply, text) := FreshReply(blocks, settings, tool, pagination.limit, newId);
              && r == Ok(reply)
              && cache.entries == if text.None? then rows
                  else PutStep(cache.cfg, rows, newId, Entry(tool, text.value, createdAt, owner), now)
            else
              var id := pagination.cacheId.value;
              var e := GetAnswer(cache.cfg, rows, id, owner, now);
              && cache.entries == GetStep(cache.cfg, rows, id, owner, now)
              && r == if e.None? then Err(MissingOrExpired)
                  else PaginateFromCache(e.value, settings, id, pagination.offset, pagination.limit, tool)
  {
    hide GetAnswer, GetStep, PutStep;
    var page, hard := PageSize(settings), settings.textMaxChars;
    if page <= 0 {
      var out := TruncateBlocks(blocks, hard);
      assert out == TruncatedBlocks(blocks, hard);
      return Ok(Blocks(out));
    }
    if pagination.cacheId.Some? {
      var e := cache.Get(pagination.cacheId.value, owner, now);
      if e.None? { return Err(MissingOrExpired); }
      return PaginateFromCache(
        e.value, settings, pagination.cacheId.value, pagination.offset, pagination.limit, tool);
    }
    var text := JoinTextBlocks(blocks);
    if text.None? {
      var cap := if hard > 0 then hard else page;
      var out := TruncateBlocks(blocks, cap);
      assert out == TruncatedBlocks(blocks, cap);
      return Ok(Blocks(out));
    }
    if |text.value| <= page {
      if hard > 0 && |text.value| > hard {
        var out := TruncateBlocks(blocks, hard);
        assert out == TruncatedBlocks(blocks, hard);
        return Ok(Blocks(out));
      }
      return Ok(Blocks(blocks));
    }
    cache.Put(newId, tool, text.value, owner, createdAt, now);
    return Ok(OnePage(PageAt(text.value, 0, EffectiveLimit(pagination.limit, page), newId, tool)));
  }
}
