/**
  * The numbered, fenced headlines of the curator's prompt
  * (servers/mcp-news-server/src/mcp_news_server/llm_curator.py), and a parser that gets them back.
  */
module FencedPrompt {
  import opened Wrappers
  import opened Text
  import opened Fencing

  /** A feed item's fields as text; "" where the item has none. */
  datatype Item = Item(title: string, sourceName: string, sourceType: string, summary: string)

  /** `_plain_summary` with its length limit. */
  type Plain = string -> string

  predicate IsNumber(s: string) {
    s != "" && forall i :: 0 <= i < |s| ==> '0' <= s[i] <= '9'
  }

  /** A natural number in decimal. */
  function Decimal(n: nat): (s: string)
    ensures IsNumber(s)
  {
    (if n < 10 then "" else Decimal(n / 10)) + ['0' + (n % 10) as char]
  }

  /** So the number on a fence tells which item it is. */
  lemma {:induction false} DecimalIsInjective(m: nat, n: nat)
    requires Decimal(m) == Decimal(n)
    ensures m == n
  {
    var s, t := Decimal(m), Decimal(n);
    assert s[|s| - 1] == t[|t| - 1] && s[..|s| - 1] == t[..|t| - 1];
    if m >= 10 && n >= 10 {
      assert s[..|s| - 1] == Decimal(m / 10) && t[..|t| - 1] == Decimal(n / 10);
      DecimalIsInjective(m / 10, n / 10);
    }
  }

  /** The number that digits spell. */
  function ValueOf(s: string): int {
    if s == "" then 0 else 10 * ValueOf(s[..|s| - 1]) + (s[|s| - 1] as int - '0' as int)
  }

  /** The number on a fence is the number of the item, without leading zeros. */
  lemma {:induction false} DecimalSpells(n: nat)
    ensures ValueOf(Decimal(n)) == n
    ensures |Decimal(n)| > 1 ==> Decimal(n)[0] != '0'
  {
    var s := Decimal(n);
    assert s[..|s| - 1] == if n < 10 then "" else Decimal(n / 10);
    if n >= 10 {
      DecimalSpells(n / 10);
      assert |Decimal(n / 10)| == 1 ==> ValueOf(Decimal(n / 10)[..0]) == 0;
    }
  }

  function Or(a: string, b: string): string {
    if a == "" then b else a
  }

  function Title(digit: Digits, item: Item): string {
    Or(Strip(Sanitize(digit, item.title)), "(no title)")
  }

  function Source(digit: Digits, item: Item): string {
    Strip(Sanitize(digit, Or(item.sourceName, item.sourceType)))
  }

  /** What is written between the fences of the i-th item. */
  function Bit(digit: Digits, plain: Plain, item: Item, i: nat): string {
    var source := Source(digit, item);
    var summary := Sanitize(digit, plain(item.summary));
    var head := if source == "" then Decimal(i) + ". " + Title(digit, item)
                else Decimal(i) + ". [" + source + "] " + Title(digit, item);
    if summary == "" then head else head + "\n   " + summary
  }

  /** The body of an item, spelled out: its number, its source if it has one, its title or a stand-in, its summary. */
  lemma BitExactly(digit: Digits, plain: Plain, item: Item, i: nat)
    ensures var title, summary := Strip(Sanitize(digit, item.title)), Sanitize(digit, plain(item.summary));
            var source := Strip(Sanitize(digit, if item.sourceName != "" then item.sourceName else item.sourceType));
            Bit(digit, plain, item, i)
            == Decimal(i) + ". " + (if source != "" then "[" + source + "] " else "")
                 + (if title != "" then title else "(no title)")
                 + (if summary != "" then "\n   " + summary else "")
  {
    hide Strip, Sanitize, Decimal;
    var source := Source(digit, item);
    assert Decimal(i) + ". [" + source + "] " == Decimal(i) + ". " + ("[" + source + "] ");
    assert Decimal(i) + ". " + "" == Decimal(i) + ". ";
  }

  function Closing(i: nat): string {
    "ITEM-" + Decimal(i) + ">>>"
  }

  function Block(i: nat, bit: string): string {
    "<<<ITEM-" + Decimal(i) + "\n" + bit + "\nITEM-" + Decimal(i) + ">>>"
  }

  lemma BlockParts(i: nat, bit: string)
    ensures Block(i, bit) == "<<<ITEM-" + Decimal(i) + "\n" + bit + "\n" + Closing(i)
  {
    hide Decimal;
    assert "\nITEM-" == "\n" + "ITEM-";
  }

  /** The bodies of the items' blocks, numbered from 1. */
  function Bits(digit: Digits, plain: Plain, items: seq<Item>): seq<string> {
    seq(|items|, k requires 0 <= k < |items| => Bit(digit, plain, items[k], k + 1))
  }

  /** The blocks around given bodies, numbered from i. */
  function Numbered(bits: seq<string>, i: nat): (r: seq<string>)
    ensures |r| == |bits| && forall k :: 0 <= k < |bits| ==> r[k] == Block(i + k, bits[k])
  {
    if bits == [] then [] else [Block(i, bits[0])] + Numbered(bits[1..], i + 1)
  }

  /** `items[:limit]` */
  function Upto<T>(items: seq<T>, limit: int): seq<T> {
    var n := if limit < 0 then |items| + limit else limit;
    items[..if n < 0 then 0 else if n > |items| then |items| else n]
  }

  /** A limit that is not negative is how many items are shown at most; a negative one counts from the end. */
  lemma UptoExactly<T>(items: seq<T>, limit: int)
    ensures Upto(items, limit) <= items
    ensures 0 <= limit ==> |Upto(items, limit)| == if limit <= |items| then limit else |items|
    ensures limit < 0 ==> |Upto(items, limit)| == if -limit <= |items| then |items| + limit else 0
  {
  }

  /** The number in a body is the number on its fences. */
  lemma BodiesAreNumbered(digit: Digits, plain: Plain, items: seq<Item>, k: nat)
    requires k < |items|
    ensures var bits := Bits(digit, plain, items);
            && |bits| == |Fences(bits, 1)| == |items| && Fences(bits, 1)[k] == Fenced(Decimal(k + 1), bits[k])
            && Decimal(k + 1) + ". " <= bits[k]
  {
    hide Strip, Sanitize, Decimal;
    var bits := Bits(digit, plain, items);
    FencesAt(bits, 1, k);
  }

  lemma {:induction false} FencesAt(bits: seq<string>, i: nat, k: nat)
    requires k < |bits|
    ensures |Fences(bits, i)| == |bits| && Fences(bits, i)[k] == Fenced(Decimal(i + k), bits[k])
  {
    hide Decimal;
    if |bits| > 1 {
      FencesAt(bits[1..], i + 1, if k > 0 then k - 1 else 0);
    }
  }

  method HeadlineLine(digit: Digits, plain: Plain, item: Item, i: nat) returns (line: string)
    ensures line == Block(i, Bit(digit, plain, item, i))
  {
    hide Strip, Sanitize, Decimal, Block;
    var title := Or(Strip(Sanitize(digit, item.title)), "(no title)");
    var source := Strip(Sanitize(digit, Or(item.sourceName, item.sourceType)));
    var summary := Sanitize(digit, plain(item.summary));
    var bit := if source != "" then Decimal(i) + ". [" + source + "] " + title else Decimal(i) + ". " + title;
    if summary != "" {
      bit := bit + "\n   " + summary;
    }
    line := Block(i, bit);
  }

  /** `_headline_lines` */
  method HeadlineLines(digit: Digits, plain: Plain, items: seq<Item>, limit: int) returns (lines: seq<string>)
    ensures lines == Numbered(Bits(digit, plain, Upto(items, limit)), 1)
  {
    hide Bit, Block;
    lines := [];
    var shown := Upto(items, limit);
    for k := 0 to |shown|
      invariant |lines| == k
      invariant forall j :: 0 <= j < k ==> lines[j] == Block(j + 1, Bit(digit, plain, shown[j], j + 1))
    {
      var line := HeadlineLine(digit, plain, shown[k], k + 1);
      lines := lines + [line];
    }
  }

  /** The bodies are free of tokens, whatever the feed says. */
  lemma StripKeepsClean(digit: Digits, s: string)
    requires Sane(digit) && NoToken(digit, s)
    ensures NoToken(digit, Strip(s))
  {
    hide NoToken, LStrip, RStrip;
    var l := LStrip(s);
    NoTokenSlice(digit, s, |s| - |l|, |s|);
    assert s[|s| - |l|..|s|] == l;
    var r := RStrip(l);
    NoTokenSlice(digit, l, 0, |r|);
    assert l[0..|r|] == r;
  }

  lemma {:induction false} JoinedClean(digit: Digits, a: string, sep: string, b: string)
    requires Sane(digit) && NoToken(digit, a) && NoToken(digit, b)
    requires sep != "" && forall c :: c in sep ==> !IsTokenChar(digit, c)
    ensures NoToken(digit, a + sep + b)
    decreases |sep|
  {
    hide NoToken;
    if |sep| == 1 {
      JoinClean(digit, a, sep[0], b);
      assert sep == [sep[0]];
    } else {
      TokensHaveDashes(digit, "");
      JoinedClean(digit, "", sep[1..], b);
      assert "" + sep[1..] + b == sep[1..] + b;
      JoinClean(digit, a, sep[0], sep[1..] + b);
      assert a + sep + b == a + [sep[0]] + (sep[1..] + b);
    }
  }

  lemma BitIsClean(digit: Digits, plain: Plain, item: Item, i: nat)
    requires Sane(digit)
    ensures NoToken(digit, Bit(digit, plain, item, i))
  {
    hide NoToken, Sanitize, Strip, Decimal;
    var number, source, title, summary :=
      Decimal(i), Source(digit, item), Title(digit, item), Sanitize(digit, plain(item.summary));
    TokensHaveDashes(digit, number);
    SanitizeCleans(digit, item.title);
    StripKeepsClean(digit, Sanitize(digit, item.title));
    TokensHaveDashes(digit, "(no title)");
    SanitizeCleans(digit, Or(item.sourceName, item.sourceType));
    StripKeepsClean(digit, Sanitize(digit, Or(item.sourceName, item.sourceType)));
    SanitizeCleans(digit, plain(item.summary));
    JoinedClean(digit, number, ". ", title);
    JoinedClean(digit, number, ". [", source);
    JoinedClean(digit, number + ". [" + source, "] ", title);
    var head := if source == "" then number + ". " + title else number + ". [" + source + "] " + title;
    JoinedClean(digit, head, "\n   ", summary);
  }

  /** A block has one opening token, at its start, and one closing token, at its end. */
  lemma OneFenceEach(digit: Digits, i: nat, bit: string)
    requires Sane(digit) && NoToken(digit, bit)
    ensures var b, end := Block(i, bit), |Block(i, bit)| - |Closing(i)|;
            && OpenLen(digit, b) > 0 && CloseLen(digit, b[end..]) == |b| - end
            && forall p :: 0 <= p <= |b| ==> (TokenLen(digit, b[p..]) > 0 <==> p == 0 || p == end)
  {
    hide NoToken, TokenLen, OpenLen, CloseLen, Decimal;
    var open, close := "<<<ITEM-" + Decimal(i), Closing(i);
    BlockParts(i, bit);
    hide Block;
    var b := Block(i, bit);
    var rest := bit + ['\n'] + close;
    assert b == open + ['\n'] + rest;
    OpeningTokens(digit, Decimal(i), "\n" + rest);
    assert b == open + ("\n" + rest);
    ClosingTokens(digit, Decimal(i), "");
    assert close + "" == close == b[|b| - |close|..];
    forall p | 0 <= p <= |b| ensures TokenLen(digit, b[p..]) > 0 <==> p == 0 || p == |b| - |close| {
      TokenAcross(digit, open, '\n', rest, p);
      if p <= |open| {
        TokensInOpening(digit, Decimal(i), p);
      }
      if p > |open| {
        TokenAcross(digit, bit, '\n', close, p - |open| - 1);
        if p <= |open| + 1 + |bit| {
          CleanAt(digit, bit, p - |open| - 1);
        } else {
          TokensInClosing(digit, Decimal(i), p - |open| - 1 - |bit| - 1);
        }
      }
    }
  }

  lemma CleanAt(digit: Digits, s: string, p: nat)
    requires NoToken(digit, s) && p <= |s|
    ensures TokenLen(digit, s[p..]) == 0
  {
  }

  /** The tokens at the opening fence. */
  lemma OpeningTokens(digit: Digits, number: string, rest: string)
    requires Sane(digit) && IsNumber(number)
    requires rest != "" && !digit(rest[0])
    ensures OpenLen(digit, "<<<ITEM-" + number + rest) == 8 + |number|
  {
    hide DigitRun;
    var t := "<<<ITEM-" + number + rest;
    assert t[8..] == number + rest;
    DigitRunIs(digit, number + rest, |number|);
    assert StartsItem(t[3..]) && t[0] == '<' && t[1] == '<' && t[2] == '<';
  }

  lemma TokensInOpening(digit: Digits, number: string, p: nat)
    requires Sane(digit) && IsNumber(number) && p <= 8 + |number|
    ensures TokenLen(digit, ("<<<ITEM-" + number)[p..]) > 0 <==> p == 0
  {
    hide DigitRun;
    var open := "<<<ITEM-" + number;
    var s := open[p..];
    DigitRunIs(digit, number, |number|);
    if p == 0 {
      assert s[8..] == number && StartsItem(s[3..]);
    } else if p == 3 {
      assert s[0] == 'I' && s[5..] == number;
    } else if p < 8 {
      assert s[0] == open[p] && (p <= 2 ==> s[2] == open[p + 2]);
    } else if p < |open| {
      assert s[0] == number[p - 8];
    }
  }

  /** The tokens at the closing fence. */
  lemma ClosingTokens(digit: Digits, number: string, rest: string)
    requires Sane(digit) && IsNumber(number)
    ensures CloseLen(digit, "ITEM-" + number + ">>>" + rest) == 8 + |number|
  {
    hide DigitRun;
    var t := "ITEM-" + number + ">>>" + rest;
    assert t[5..] == number + (">>>" + rest);
    DigitRunIs(digit, t[5..], |number|);
    assert StartsItem(t);
  }

  lemma TokensInClosing(digit: Digits, number: string, p: nat)
    requires Sane(digit) && IsNumber(number) && p <= 8 + |number|
    ensures TokenLen(digit, ("ITEM-" + number + ">>>")[p..]) > 0 <==> p == 0
  {
    hide DigitRun;
    var close := "ITEM-" + number + ">>>";
    var s := close[p..];
    if p == 0 {
      ClosingTokens(digit, number, "");
      assert s == "ITEM-" + number + ">>>" + "";
    } else if p < |close| {
      assert s[0] == close[p] && (5 <= p < 5 + |number| ==> s[0] == number[p - 5]);
    }
  }

  /** `"\n".join(lines)` */
  function JoinLines(lines: seq<string>): string {
    if lines == [] then ""
    else if |lines| == 1 then lines[0]
    else lines[0] + "\n" + JoinLines(lines[1..])
  }

  /** What a fence tells: the number on its opening token, and the text up to its closing one. */
  datatype Fenced = Fenced(number: string, body: string)

  function Fences(bits: seq<string>, i: nat): seq<Fenced> {
    if bits == [] then [] else [Fenced(Decimal(i), bits[0])] + Fences(bits[1..], i + 1)
  }

  /** The first closing token at or after a position. */
  function FirstClose(digit: Digits, s: string, from: nat): (r: Option<nat>)
    requires from <= |s|
    ensures r.Some? ==> from <= r.value <= |s| && CloseLen(digit, s[r.value..]) > 0
    ensures forall p :: from <= p <= (if r.Some? then r.value - 1 else |s|) ==> CloseLen(digit, s[p..]) == 0
    decreases |s| - from
  {
    if CloseLen(digit, s[from..]) > 0 then Some(from)
    else if from == |s| then None
    else FirstClose(digit, s, from + 1)
  }

  /** Reads one block from the front and returns what follows it. */
  function ParseBlock(digit: Digits, t: string): Option<(Fenced, string)> {
    var n := OpenLen(digit, t);
    if n == 0 || |t| <= n || t[n] != '\n' then None
    else
      var rest := t[n + 1..];
      var p :- FirstClose(digit, rest, 0);
      if p == 0 || rest[p - 1] != '\n' then None
      else Some((Fenced(t[8..n], rest[..p - 1]), rest[p..][CloseLen(digit, rest[p..])..]))
  }

  function Parse(digit: Digits, t: string): Option<seq<Fenced>>
    decreases |t|
  {
    if t == "" then Some([])
    else
      var (first, after) :- ParseBlock(digit, t);
      if after == "" then Some([first])
      else if after[0] != '\n' then None
      else
        var others :- Parse(digit, after[1..]);
        Some([first] + others)
  }

  lemma AnyCloseIsToken(digit: Digits, s: string)
    ensures CloseLen(digit, s) > 0 ==> TokenLen(digit, s) > 0
  {
  }

  lemma {:induction false} FirstCloseIs(digit: Digits, s: string, from: nat, end: nat)
    requires from <= end <= |s| && CloseLen(digit, s[end..]) > 0
    requires forall p :: from <= p < end ==> CloseLen(digit, s[p..]) == 0
    ensures FirstClose(digit, s, from) == Some(end)
    decreases end - from
  {
    hide CloseLen;
    if from < end {
      FirstCloseIs(digit, s, from + 1, end);
    }
  }

  /** A clean body ends at the closing token written after it. */
  lemma BodyEnds(digit: Digits, bit: string, close: string)
    requires Sane(digit) && NoToken(digit, bit) && CloseLen(digit, close) > 0
    ensures FirstClose(digit, bit + ['\n'] + close, 0) == Some(|bit| + 1)
  {
    hide NoToken, CloseLen, TokenLen, FirstClose;
    var rest, end := bit + ['\n'] + close, |bit| + 1;
    assert rest[end..] == close;
    forall p | 0 <= p < end ensures CloseLen(digit, rest[p..]) == 0 {
      TokenAcross(digit, bit, '\n', close, p);
      CleanAt(digit, bit, p);
      AnyCloseIsToken(digit, rest[p..]);
    }
    FirstCloseIs(digit, rest, 0, end);
  }

  lemma ClosingLen(digit: Digits, i: nat, after: string)
    requires Sane(digit)
    ensures CloseLen(digit, Closing(i) + after) == |Closing(i)| > 0
  {
    hide CloseLen, Decimal;
    ClosingTokens(digit, Decimal(i), after);
  }

  lemma ParseBlockIs(digit: Digits, open: string, bit: string, close: string)
    requires |open| >= 8 && CloseLen(digit, close) > 0
    requires OpenLen(digit, open + (['\n'] + (bit + ['\n'] + close))) == |open|
    requires FirstClose(digit, bit + ['\n'] + close, 0) == Some(|bit| + 1)
    ensures ParseBlock(digit, open + (['\n'] + (bit + ['\n'] + close)))
         == Some((Fenced(open[8..], bit), close[CloseLen(digit, close)..]))
  {
    hide OpenLen, CloseLen, FirstClose;
    var rest := bit + ['\n'] + close;
    var t := open + (['\n'] + rest);
    assert t[|open|] == '\n' && t[|open| + 1..] == rest && t[8..|open|] == open[8..];
    assert rest[|bit| + 1..] == close && rest[..|bit|] == bit;
  }

  /** Reading a block back gives what was written, whatever comes after it. */
  lemma BlockParses(digit: Digits, i: nat, bit: string, after: string)
    requires Sane(digit) && NoToken(digit, bit)
    ensures ParseBlock(digit, Block(i, bit) + after) == Some((Fenced(Decimal(i), bit), after))
  {
    BlockParts(i, bit);
    hide NoToken, OpenLen, CloseLen, FirstClose, ParseBlock, Decimal, Block, Closing;
    var open, close := "<<<ITEM-" + Decimal(i), Closing(i) + after;
    var rest := ['\n'] + (bit + ['\n'] + close);
    assert Block(i, bit) + after == open + rest;
    OpeningTokens(digit, Decimal(i), rest);
    ClosingLen(digit, i, after);
    BodyEnds(digit, bit, close);
    ParseBlockIs(digit, open, bit, close);
    assert open[8..] == Decimal(i);
    assert close[|Closing(i)|..] == after;
  }

  ghost predicate AllClean(digit: Digits, bits: seq<string>) {
    forall k :: 0 <= k < |bits| ==> NoToken(digit, bits[k])
  }

  /** Clean bodies between numbered fences, one block a line apart, parse back to those bodies. */
  lemma {:induction false} BlocksParse(digit: Digits, bits: seq<string>, i: nat)
    requires Sane(digit) && AllClean(digit, bits)
    ensures Parse(digit, JoinLines(Numbered(bits, i))) == Some(Fences(bits, i))
  {
    hide NoToken, ParseBlock, Block, Decimal;
    if bits != [] {
      var others := JoinLines(Numbered(bits[1..], i + 1));
      BlocksParse(digit, bits[1..], i + 1);
      var block := Block(i, bits[0]);
      assert block != "" by { BlockParts(i, bits[0]); }
      if |bits| == 1 {
        BlockParses(digit, i, bits[0], "");
        assert block + "" == block;
        assert Numbered(bits, i) == [block] && Fences(bits, i) == [Fenced(Decimal(i), bits[0])];
      } else {
        BlockParses(digit, i, bits[0], "\n" + others);
        assert ("\n" + others)[1..] == others;
        assert JoinLines(Numbered(bits, i)) == block + ("\n" + others);
      }
    }
  }

  /** The printed headlines parse back to the numbers and bodies printed, for any items. */
  lemma PromptParses(digit: Digits, plain: Plain, items: seq<Item>, limit: int)
    requires Sane(digit)
    ensures var bits := Bits(digit, plain, Upto(items, limit));
            Parse(digit, JoinLines(Numbered(bits, 1))) == Some(Fences(bits, 1))
  {
    hide NoToken, Bit;
    var shown := Upto(items, limit);
    forall k | 0 <= k < |shown| ensures NoToken(digit, Bit(digit, plain, shown[k], k + 1)) {
      BitIsClean(digit, plain, shown[k], k + 1);
    }
    BlocksParse(digit, Bits(digit, plain, shown), 1);
  }
}
