/** What the functions of paging compute, said without them: the joined text, the pages, the cuts. */
module PagingLaws {
  import opened Wrappers
  import opened ResponseCache
  import opened ToolNames
  import opened ToolNameLaws
  import opened Paging

  function TextLength(b: Block): nat {
    if b.Text? then |b.text| else 0
  }

  /** Where a block starts: after the blocks before it, each with its separator. */
  function StartOf(blocks: seq<Block>, k: nat): nat
    requires k <= |blocks|
  {
    if k == 0 then 0 else StartOf(blocks, k - 1) + TextLength(blocks[k - 1]) + 1
  }

  /** The block stands in the text at its start, and a newline before it unless it is the first. */
  predicate StandsAt(text: string, blocks: seq<Block>, k: nat)
    requires k < |blocks|
  {
    var start := StartOf(blocks, k);
    && blocks[k].Text?
    && start + |blocks[k].text| <= |text|
    && text[start..start + |blocks[k].text|] == blocks[k].text
    && (k > 0 ==> text[start - 1] == '\n')
  }

  /** The text is the blocks, all of them text, with one newline between neighbours, and nothing else. */
  ghost predicate IsJoined(text: string, blocks: seq<Block>) {
    && (forall k :: 0 <= k < |blocks| ==> StandsAt(text, blocks, k))
    && |text| == if blocks == [] then 0 else StartOf(blocks, |blocks|) - 1
  }

  lemma {:induction false} StartOfRest(blocks: seq<Block>, k: nat)
    requires 1 <= k <= |blocks|
    ensures StartOf(blocks, k) == TextLength(blocks[0]) + 1 + StartOf(blocks[1..], k - 1)
  {
    if k > 1 {
      StartOfRest(blocks, k - 1);
      assert blocks[k - 1] == blocks[1..][k - 2];
    }
  }

  lemma StandsInFront(blocks: seq<Block>, rest: string, k: nat)
    requires 1 <= k < |blocks| && blocks[0].Text? && StandsAt(rest, blocks[1..], k - 1)
    ensures StandsAt(blocks[0].text + "\n" + rest, blocks, k)
  {
    hide StartOf;
    StartOfRest(blocks, k);
    StartOfFirst(blocks[1..]);
    var text, shift, start := blocks[0].text + "\n" + rest, |blocks[0].text| + 1, StartOf(blocks[1..], k - 1);
    assert text[shift + start..shift + start + |blocks[k].text|] == rest[start..start + |blocks[k].text|];
  }

  lemma StartOfFirst(blocks: seq<Block>)
    ensures StartOf(blocks, 0) == 0
  {
  }

  /** Joining fails exactly when some block is not text, and otherwise gives the joined text. */
  lemma {:induction false} JoinExactly(blocks: seq<Block>)
    ensures JoinTextBlocks(blocks).None? <==> exists k :: 0 <= k < |blocks| && blocks[k].NonText?
    ensures JoinTextBlocks(blocks).Some? ==> IsJoined(JoinTextBlocks(blocks).value, blocks)
  {
    hide StartOf, StandsAt;
    if |blocks| > 1 {
      JoinExactly(blocks[1..]);
      assert forall k :: 1 <= k < |blocks| ==> blocks[k] == blocks[1..][k - 1];
      if blocks[0].Text? && JoinTextBlocks(blocks[1..]).Some? {
        var rest := JoinTextBlocks(blocks[1..]).value;
        assert blocks[0].text + "\n" + rest == blocks[0].text + ("\n" + rest);
        forall k | 0 <= k < |blocks| ensures StandsAt(blocks[0].text + "\n" + rest, blocks, k) {
          if k == 0 { FirstStands(blocks, "\n" + rest); } else { StandsInFront(blocks, rest, k); }
        }
        StartOfRest(blocks, |blocks|);
      }
    } else if blocks != [] && blocks[0].Text? {
      OneIsJoined(blocks);
    }
  }

  lemma FirstStands(blocks: seq<Block>, rest: string)
    requires blocks != [] && blocks[0].Text?
    ensures StandsAt(blocks[0].text + rest, blocks, 0)
  {
  }

  lemma OneIsJoined(blocks: seq<Block>)
    requires |blocks| == 1 && blocks[0].Text?
    ensures IsJoined(blocks[0].text, blocks)
  {
    assert StartOf(blocks, 1) == StartOf(blocks, 0) + |blocks[0].text| + 1;
  }

  /** Every position of a joined text lies in a block or on the newline after one. */
  lemma {:induction false} BlockAt(blocks: seq<Block>, n: nat, i: nat) returns (k: nat)
    requires n <= |blocks| && i < StartOf(blocks, n)
    ensures k < n && StartOf(blocks, k) <= i <= StartOf(blocks, k) + TextLength(blocks[k])
  {
    if i >= StartOf(blocks, n - 1) {
      k := n - 1;
    } else {
      k := BlockAt(blocks, n - 1, i);
    }
  }

  lemma StandsMeans(text: string, blocks: seq<Block>, k: nat)
    requires k < |blocks| && StandsAt(text, blocks, k)
    ensures blocks[k].Text? && StartOf(blocks, k) + |blocks[k].text| <= |text|
    ensures forall j :: 0 <= j < |blocks[k].text| ==> text[StartOf(blocks, k) + j] == blocks[k].text[j]
    ensures k > 0 ==> StartOf(blocks, k) > 0 && text[StartOf(blocks, k) - 1] == '\n'
  {
    var start := StartOf(blocks, k);
    forall j | 0 <= j < |blocks[k].text| ensures text[start + j] == blocks[k].text[j] {
      assert text[start..start + |blocks[k].text|][j] == text[start + j];
    }
  }

  /** What stands at a position: a character of the block there, or the newline after it. */
  lemma CharacterAt(text: string, blocks: seq<Block>, k: nat, j: nat)
    requires IsJoined(text, blocks) && k < |blocks| && j <= TextLength(blocks[k]) && StartOf(blocks, k) + j < |text|
    ensures blocks[k].Text?
    ensures text[StartOf(blocks, k) + j] == if j < |blocks[k].text| then blocks[k].text[j] else '\n'
  {
    hide StandsAt;
    JoinedLength(text, blocks);
    StandsMeans(text, blocks, k);
    if j == |blocks[k].text| && k + 1 < |blocks| {
      StandsMeans(text, blocks, k + 1);
    }
  }

  /** There is only one such text. */
  lemma JoinedIsUnique(a: string, b: string, blocks: seq<Block>)
    requires IsJoined(a, blocks) && IsJoined(b, blocks)
    ensures a == b
  {
    hide StartOf, IsJoined;
    JoinedLength(a, blocks);
    JoinedLength(b, blocks);
    forall i | 0 <= i < |a| ensures a[i] == b[i] {
      var k := BlockAt(blocks, |blocks|, i);
      CharacterAt(a, blocks, k, i - StartOf(blocks, k));
      CharacterAt(b, blocks, k, i - StartOf(blocks, k));
    }
  }

  lemma JoinedLength(text: string, blocks: seq<Block>)
    requires IsJoined(text, blocks)
    ensures |text| == if blocks == [] then 0 else StartOf(blocks, |blocks|) - 1
  {
  }

  lemma JoinIs(text: string, blocks: seq<Block>)
    requires IsJoined(text, blocks)
    ensures JoinTextBlocks(blocks) == Some(text)
  {
    hide StartOf, JoinTextBlocks, IsJoined;
    AllAreText(text, blocks);
    JoinExactly(blocks);
    JoinedIsUnique(text, JoinTextBlocks(blocks).value, blocks);
  }

  /** Cutting leaves short texts alone, and of others as much as fits before the mark. */
  lemma TruncationExactly(text: string, max: int)
    ensures var cut, mark := TruncateText(text, max), " …[truncated]";
            && (max <= 0 || |text| <= max ==> cut == text)
            && (0 < max < |text| ==>
                  && |cut| == (if max < 13 then 13 else max)
                  && cut[|cut| - 13..] == mark && cut[..|cut| - 13] == text[..|cut| - 13])
  {
  }

  /** The size of a page: its own setting, or else the limit on texts. */
  lemma PageSizeExactly(settings: Settings)
    ensures settings.pageChars > 0 ==> PageSize(settings) == settings.pageChars
    ensures settings.pageChars <= 0 ==> PageSize(settings) == settings.textMaxChars
  {
  }

  /** The page holds as much of the text from its offset as the client asked for, the page size allows and is there. */
  ghost predicate IsPageOf(
    p: Page, text: string, offset: nat, wanted: Option<nat>, size: int, id: string, tool: string)
  {
    && p.offset == offset && p.totalChars == |text| && p.responseCacheId == id && p.toolName == tool
    && p.returnedChars == |p.text| && offset + |p.text| <= |text|
    && p.text == text[offset..offset + |p.text|]
    && (p.hasMore <==> offset + |p.text| < |text|)
    && (p.hasMore ==> |p.text| == p.limit)
    && |p.text| <= p.limit <= size
    && (if wanted.Some? && 0 < wanted.value <= size then p.limit == wanted.value else p.limit == size)
  }

  lemma PageExactly(text: string, offset: nat, limit: Option<nat>, size: nat, id: string, tool: string)
    requires offset <= |text|
    ensures IsPageOf(PageAt(text, offset, EffectiveLimit(limit, size), id, tool), text, offset, limit, size, id, tool)
  {
  }

  /** A fresh response, spelled out. */
  lemma FreshExactly(
    blocks: seq<Block>, settings: Settings, tool: string, limit: Option<nat>, id: string, text: string)
    requires IsJoined(text, blocks)
    ensures forall k :: 0 <= k < |blocks| ==> blocks[k].Text?
    ensures var (reply, cached) := FreshReply(blocks, settings, tool, limit, id);
            var size, hard := PageSize(settings), settings.textMaxChars;
            if 0 < size < |text| then
              cached == Some(text) && reply.OnePage? && IsPageOf(reply.page, text, 0, limit, size, id, tool)
            else
              && cached == None && reply.Blocks? && |reply.blocks| == |blocks|
              && forall k :: 0 <= k < |blocks| ==>
                (reply.blocks[k]
                 == if hard > 0 && |text| > hard then Text(TruncateText(blocks[k].text, hard)) else blocks[k])
  {
    hide StartOf, IsJoined, JoinTextBlocks, TruncateText, IsPageOf, PageAt, EffectiveLimit;
    AllAreText(text, blocks);
    if PageSize(settings) > 0 {
      PageExactly(text, 0, limit, PageSize(settings), id, tool);
    }
    JoinIs(text, blocks);
    forall k | 0 <= k < |blocks| ensures |blocks[k].text| <= |text| {
      BlockFits(text, blocks, k);
    }
    forall k | 0 <= k < |blocks| && (settings.textMaxChars <= 0 || |text| <= settings.textMaxChars)
      ensures TruncateText(blocks[k].text, settings.textMaxChars) == blocks[k].text
    {
      TruncationExactly(blocks[k].text, settings.textMaxChars);
    }
  }

  lemma AllAreText(text: string, blocks: seq<Block>)
    requires IsJoined(text, blocks)
    ensures forall k :: 0 <= k < |blocks| ==> blocks[k].Text?
  {
    forall k | 0 <= k < |blocks| ensures blocks[k].Text? {
      assert StandsAt(text, blocks, k);
    }
  }

  lemma BlockFits(text: string, blocks: seq<Block>, k: nat)
    requires IsJoined(text, blocks) && k < |blocks|
    ensures blocks[k].Text? && |blocks[k].text| <= |text|
  {
    assert StandsAt(text, blocks, k);
  }

  /** A response with a block that is no text is never paged: its texts are cut one by one. */
  lemma MixedExactly(blocks: seq<Block>, settings: Settings, tool: string, limit: Option<nat>, id: string, odd: nat)
    requires odd < |blocks| && blocks[odd].NonText?
    ensures var (reply, cached) := FreshReply(blocks, settings, tool, limit, id);
            var max := if settings.textMaxChars > 0 then settings.textMaxChars else settings.pageChars;
            && cached == None && reply.Blocks? && |reply.blocks| == |blocks|
            && forall k :: 0 <= k < |blocks| ==>
              (reply.blocks[k] == if blocks[k].Text? then Text(TruncateText(blocks[k].text, max)) else blocks[k])
  {
    hide JoinTextBlocks;
    JoinExactly(blocks);
  }

  /** A request for a stored response, spelled out: both refusals, and the page. */
  lemma StoredExactly(e: Entry, settings: Settings, id: string, offset: nat, limit: Option<nat>, tool: string)
    ensures var r, size := PaginateFromCache(e, settings, id, offset, limit, tool), PageSize(settings);
            if size <= 0 then r == Ok(Blocks([Text(e.text)]))
            else if tool != "" && e.tool != "" && Key(tool) != Key(e.tool) then r == Err(OtherTool)
            else if offset >= |e.text| then r == Err(PastEnd)
            else r.Ok? && r.value.OnePage? && IsPageOf(r.value.page, e.text, offset, limit, size, id, e.tool)
  {
    hide SameToolName, Key, CanonicalToolKey, IsPageOf, PageAt, EffectiveLimit;
    SameToolNameIsKeyEquality(tool, e.tool);
    if PageSize(settings) > 0 && offset < |e.text| {
      PageExactly(e.text, offset, limit, PageSize(settings), id, e.tool);
    }
  }
}
