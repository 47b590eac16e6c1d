/**
  * Composite MCP tool names (src/mcp_proxy/tool_names.py): one string that names a tool on an
  * upstream server, in three spellings. ValueError is modelled by None.
  */
module ToolNames {
  import opened Wrappers
  import opened Text
  import Utf8

  const PROXY_TOOL_SEP := "__p__"

  datatype Tool = Tool(server: string, name: string)

  /** `SAFE_TOOL_TAIL`'s character class */
  predicate IsSafeChar(c: char) {
    'A' <= c <= 'Z' || 'a' <= c <= 'z' || '0' <= c <= '9' || c == '_'
  }

  predicate IsSafeTail(s: string) {
    s != "" && forall c :: c in s ==> IsSafeChar(c)
  }

  predicate AllHex(s: string) {
    forall c :: c in s ==> Utf8.IsHexDigit(c)
  }

  /** `_hex_utf8_suffix_ok`: the empty suffix is fine, any other must be hexadecimal UTF-8. */
  predicate HexUtf8SuffixOk(s: string) {
    |s| % 2 == 0 && AllHex(s) && Utf8.Decode(Utf8.FromHex(s)).Some?
  }

  /** What the suffix of a hexadecimal spelling spells. */
  function HexPayload(s: string): string
    requires HexUtf8SuffixOk(s)
  {
    Utf8.Decode(Utf8.FromHex(s)).value
  }

  /** A marker at j with something before it and a valid hexadecimal suffix after it. */
  predicate IsHexSplit(c: string, j: nat) {
    j > 0 && OccursAt(c, PROXY_TOOL_SEP, j) && HexUtf8SuffixOk(c[j + |PROXY_TOOL_SEP|..])
  }

  /** The least hexadecimal split at or after j. */
  function FirstHexSplit(c: string, j: nat): (r: Option<nat>)
    ensures r.Some? ==> j <= r.value && IsHexSplit(c, r.value)
    ensures r.Some? ==> forall k: nat :: j <= k < r.value ==> !IsHexSplit(c, k)
    ensures r.None? ==> forall k: nat :: j <= k ==> !IsHexSplit(c, k)
    decreases |c| + 1 - j
  {
    if j > |c| then None
    else if IsHexSplit(c, j) then Some(j)
    else FirstHexSplit(c, j + 1)
  }

  /** The legacy spelling `server/tool`, split at the first slash. */
  function DecodeSlash(c: string): Option<Tool>
    requires Find(c, "/", 0).Some?
  {
    var k := Find(c, "/", 0).value;
    var sid, tool := Strip(c[..k]), Strip(c[k + 1..]);
    if sid == "" || tool == "" then None else Some(Tool(sid, tool))
  }

  /** The descriptive spelling `server__tool`, split at the first double underscore. */
  function DecodeDescriptive(c: string): Option<Tool> {
    var k :- Find(c, "__", 0);
    var left, right := c[..k], c[k + 2..];
    if left == "" || right == "" then None else Some(Tool(Replace(left, '_', '-'), right))
  }

  /** `decode_proxy_tool_name` as a function: a slash wins, then the first hexadecimal split. */
  function Decode(composite: string): Option<Tool> {
    var c := Strip(composite);
    if Find(c, "/", 0).Some? then DecodeSlash(c)
    else
      var split := FirstHexSplit(c, 0);
      if split.Some? then
        var j := split.value;
        Some(Tool(Replace(c[..j], '_', '-'), HexPayload(c[j + |PROXY_TOOL_SEP|..])))
      else DecodeDescriptive(c)
  }

  lemma FirstHexSplitUnique(c: string, j: nat)
    requires IsHexSplit(c, j) && forall k: nat :: k < j ==> !IsHexSplit(c, k)
    ensures FirstHexSplit(c, 0) == Some(j)
  {
  }

  /** `decode_proxy_tool_name`, with its marker scan as the cursor loop that it is. */
  method DecodeProxyToolName(composite: string) returns (r: Option<Tool>)
    ensures r == Decode(composite)
  {
    hide FirstHexSplit, HexUtf8SuffixOk, HexPayload, Strip, Find, Replace;
    var c := Strip(composite);
    var slash := Find(c, "/", 0);
    if slash.Some? {
      var sid, tool := Strip(c[..slash.value]), Strip(c[slash.value + 1..]);
      if sid == "" || tool == "" { return None; }
      return Some(Tool(sid, tool));
    }
    var i := 0;
    while true
      invariant i <= |c|
      invariant forall k: nat :: k < i ==> !IsHexSplit(c, k)
      decreases |c| - i
    {
      var j := Find(c, PROXY_TOOL_SEP, i);
      if j.None? { break; }
      var left, right := c[..j.value], c[j.value + |PROXY_TOOL_SEP|..];
      if left != "" && HexUtf8SuffixOk(right) {
        FirstHexSplitUnique(c, j.value);
        return Some(Tool(Replace(left, '_', '-'), HexPayload(right)));
      }
      i := j.value + 1;
    }
    var k := Find(c, "__", 0);
    if k.Some? {
      var left, right := c[..k.value], c[k.value + 2..];
      if left != "" && right != "" { return Some(Tool(Replace(left, '_', '-'), right)); }
    }
    return None;
  }

  function DescriptiveForm(t: Tool): string {
    Replace(t.server, '-', '_') + "__" + t.name
  }

  function HexForm(t: Tool): string {
    Replace(t.server, '-', '_') + PROXY_TOOL_SEP + Utf8.ToHex(Utf8.Encode(t.name))
  }

  function SlashForm(t: Tool): string {
    t.server + "/" + t.name
  }

  /** `encode_proxy_tool_name`: the first spelling that `_decodes_exactly` to the pair. */
  function Encode(t: Tool): Option<string> {
    if IsSafeTail(t.name) && !Contains(t.name, PROXY_TOOL_SEP) && Decode(DescriptiveForm(t)) == Some(t) then
      Some(DescriptiveForm(t))
    else if Decode(HexForm(t)) == Some(t) then Some(HexForm(t))
    else if Decode(SlashForm(t)) == Some(t) then Some(SlashForm(t))
    else None
  }

  /** `canonical_tool_key`: one string for every spelling of a tool; None where encoding would raise. */
  function CanonicalToolKey(wire: string): Option<string> {
    var t := Decode(wire);
    if t.None? then Some(wire) else Encode(t.value)
  }
}
