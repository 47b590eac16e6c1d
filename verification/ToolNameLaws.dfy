/** The laws of the composite tool-name codec. */
module ToolNameLaws {
  import opened Wrappers
  import opened Text
  import opened ToolNames
  import Utf8

  /** src/mcp_proxy/models.py: the ids a server can be registered under. */
  predicate IsSlug(s: string) {
    && 1 <= |s| <= 63
    && s[0] != '-'
    && forall c :: c in s ==> 'a' <= c <= 'z' || '0' <= c <= '9' || c == '-'
  }

  /** Every server name the decoder can produce from a spelling without a slash. */
  predicate IsWireServer(s: string) {
    s != "" && !IsSpace(s[0]) && '/' !in s && '_' !in s
  }

  lemma FirstSlash(left: string, right: string)
    requires '/' !in left
    ensures Find(left + "/" + right, "/", 0) == Some(|left|)
  {
    var c := left + "/" + right;
    FindChar(c, '/');
    assert c[|left|] == '/' && c[..|left|] == left;
  }

  lemma ReplaceBack(s: string)
    requires '_' !in s
    ensures Replace(Replace(s, '-', '_'), '_', '-') == s
  {
    forall i | 0 <= i < |s|
      ensures Replace(Replace(s, '-', '_'), '_', '-')[i] == s[i]
    {
      assert s[i] in s;
    }
  }

  /** Encoding text and writing it in hexadecimal gives a valid suffix that reads back as the text. */
  lemma HexRoundTrip(text: string)
    ensures HexUtf8SuffixOk(Utf8.ToHex(Utf8.Encode(text)))
    ensures HexPayload(Utf8.ToHex(Utf8.Encode(text))) == text
  {
    hide Utf8.Encode, Utf8.Decode, Utf8.ToHex, Utf8.FromHex, Utf8.IsHexDigit;
    Utf8.FromHexToHex(Utf8.Encode(text));
    Utf8.DecodeEncode(text);
  }

  /**
    * The heart of the codec: a marker that starts before the real one leaves the real one's last
    * underscore in its right part, so that part is not hexadecimal.
    */
  lemma EarlierMarkersAreNotHex(left: string, hex: string, k: nat)
    requires k < |left|
    ensures !IsHexSplit(left + PROXY_TOOL_SEP + hex, k)
  {
    var c := left + PROXY_TOOL_SEP + hex;
    if k + |PROXY_TOOL_SEP| <= |c| {
      var right := c[k + |PROXY_TOOL_SEP|..];
      assert right[|left| - 1 - k] == c[|left| + 4] == '_';
      assert right[|left| - 1 - k] in right;
    }
  }

  lemma FirstHexSplitIs(left: string, hex: string)
    requires left != "" && HexUtf8SuffixOk(hex)
    ensures FirstHexSplit(left + PROXY_TOOL_SEP + hex, 0) == Some(|left|)
  {
    var c := left + PROXY_TOOL_SEP + hex;
    assert c[|left| + |PROXY_TOOL_SEP|..] == hex;
    assert IsHexSplit(c, |left|);
    forall k: nat | k < |left| ensures !IsHexSplit(c, k) {
      EarlierMarkersAreNotHex(left, hex, k);
    }
  }

  lemma HexFormShape(t: Tool)
    requires IsWireServer(t.server)
    ensures Stripped(HexForm(t)) && '/' !in HexForm(t)
  {
    var hex := Utf8.ToHex(Utf8.Encode(t.name));
    var w := HexForm(t);
    assert w[0] == Replace(t.server, '-', '_')[0];
    if hex == "" {
      assert w[|w| - 1] == '_';
    } else {
      assert w[|w| - 1] == hex[|hex| - 1] && hex[|hex| - 1] in hex;
    }
    assert forall c :: c in hex ==> Utf8.IsHexDigit(c);
  }

  /** The hexadecimal spelling decodes exactly for every tool name, the empty one included. */
  lemma HexFormDecodes(t: Tool)
    requires IsWireServer(t.server)
    ensures Decode(HexForm(t)) == Some(t)
  {
    hide FirstHexSplit, HexUtf8SuffixOk, HexPayload, DecodeSlash, DecodeDescriptive, Utf8.ToHex, Utf8.Encode;
    hide Strip, Find, IsSpace, Stripped, Replace;
    var w := HexForm(t);
    var left := Replace(t.server, '-', '_');
    var hex := Utf8.ToHex(Utf8.Encode(t.name));
    HexFormShape(t);
    StripFixesStripped(w);
    FindChar(w, '/');
    HexRoundTrip(t.name);
    FirstHexSplitIs(left, hex);
    assert w[..|left|] == left && w[|left| + |PROXY_TOOL_SEP|..] == hex;
    ReplaceBack(t.server);
  }

  lemma SlashFormDecodes(t: Tool)
    requires t.server != "" && t.name != "" && Stripped(t.server) && Stripped(t.name) && '/' !in t.server
    ensures Decode(SlashForm(t)) == Some(t)
  {
    hide Find, Strip, IsSpace, FirstHexSplit, DecodeDescriptive;
    var w := SlashForm(t);
    assert w[0] == t.server[0] && w[|w| - 1] == t.name[|t.name| - 1];
    StripFixesStripped(w);
    FirstSlash(t.server, t.name);
    assert w[..|t.server|] == t.server && w[|t.server| + 1..] == t.name;
    StripFixesStripped(t.server);
    StripFixesStripped(t.name);
  }

  /** The pairs that have a spelling, said without the decoder. */
  predicate Encodable(t: Tool) {
    && t.server != "" && !IsSpace(t.server[0]) && '/' !in t.server
    && ('_' in t.server ==> Stripped(t.server) && t.name != "" && Stripped(t.name))
  }

  lemma ReplaceLosesUnderscore(s: string)
    ensures '_' !in Replace(s, '_', '-')
  {
  }

  lemma SlashFreeWireServer(c: string, left: string)
    requires Stripped(c) && Find(c, "/", 0).None? && left <= c && left != ""
    ensures IsWireServer(Replace(left, '_', '-'))
  {
    var s := Replace(left, '_', '-');
    assert left[0] == c[0];
    FindChar(c, '/');
    ReplaceLosesUnderscore(left);
  }

  lemma DecodeSlashIsEncodable(c: string)
    requires Find(c, "/", 0).Some? && DecodeSlash(c).Some?
    ensures Encodable(DecodeSlash(c).value)
  {
    var k := Find(c, "/", 0).value;
    FindChar(c, '/');
    StripIsStripped(c[..k]);
    StripIsStripped(c[k + 1..]);
    StripSubset(c[..k]);
  }

  /** Whatever decodes, decodes to an encodable pair. */
  lemma DecodedIsEncodable(w: string)
    requires Decode(w).Some?
    ensures Encodable(Decode(w).value)
  {
    hide FirstHexSplit, HexUtf8SuffixOk, HexPayload, DecodeSlash, Strip, IsSpace, Find;
    var c := Strip(w);
    StripIsStripped(w);
    if Find(c, "/", 0).Some? {
      DecodeSlashIsEncodable(c);
    } else {
      var split := FirstHexSplit(c, 0);
      var k := if split.Some? then split.value else Find(c, "__", 0).value;
      SlashFreeWireServer(c, c[..k]);
    }
  }

  /** An encodable pair has an encoding, and the encoding decodes to the pair. */
  lemma EncodeDecodes(t: Tool)
    requires Encodable(t)
    ensures Encode(t).Some? && Decode(Encode(t).value) == Some(t)
  {
    hide Decode, IsSpace, Replace, DescriptiveForm, HexForm, SlashForm, Find;
    if '_' in t.server {
      SlashFormDecodes(t);
    } else {
      HexFormDecodes(t);
    }
  }

  /**
    * Exactly when encoding raises: never on a pair that is Encodable, always on any other; and the
    * pairs it accepts are exactly those some wire name decodes to.
    */
  lemma EncodeRaisesExactly(t: Tool)
    ensures Encode(t).Some? <==> Encodable(t)
    ensures Encode(t).Some? <==> exists w :: Decode(w) == Some(t)
  {
    if Encodable(t) {
      EncodeDecodes(t);
    }
    if w :| Decode(w) == Some(t) {
      DecodedIsEncodable(w);
    }
    if Encode(t).Some? {
      assert Decode(Encode(t).value) == Some(t);
    }
  }

  lemma SlugIsWireServer(s: string)
    requires IsSlug(s)
    ensures IsWireServer(s)
  {
    assert s[0] in s;
  }

  /**
    * The round trip the codec is for: on every registrable server and every tool name whatsoever,
    * encoding succeeds, uses only letters, digits and underscores (so neither the slash spelling
    * nor the raise is reached), and decodes to the same pair.
    */
  lemma RoundTrip(t: Tool)
    requires IsSlug(t.server)
    ensures Encode(t).Some? && Decode(Encode(t).value) == Some(t)
    ensures Encode(t).value in {DescriptiveForm(t), HexForm(t)}
    ensures IsSafeTail(Encode(t).value)
  {
    hide Decode, IsSpace, Replace, DescriptiveForm, HexForm, SlashForm, Find, IsSlug;
    SlugIsWireServer(t.server);
    HexFormDecodes(t);
    SlugFormsAreSafe(t);
  }

  lemma SlugFormsAreSafe(t: Tool)
    requires IsSlug(t.server)
    ensures IsSafeTail(HexForm(t))
    ensures IsSafeTail(t.name) ==> IsSafeTail(DescriptiveForm(t))
  {
    hide Utf8.ToHex, Utf8.Encode;
    var left := Replace(t.server, '-', '_');
    var hex := Utf8.ToHex(Utf8.Encode(t.name));
    forall i | 0 <= i < |left| ensures IsSafeChar(left[i]) {
      assert t.server[i] in t.server;
    }
    assert forall c :: c in hex ==> Utf8.IsHexDigit(c);
  }

  /** Distinct pairs never share a wire name. */
  lemma EncodeInjective(a: Tool, b: Tool)
    requires Encode(a).Some? && Encode(a) == Encode(b)
    ensures a == b
  {
    hide Decode;
    assert Decode(Encode(a).value) == Some(a);
    assert Decode(Encode(b).value) == Some(b);
  }

  /** The canonical key never raises; where the name is composite the key is another spelling of it. */
  lemma CanonicalKeyIsTotal(wire: string)
    ensures CanonicalToolKey(wire).Some?
    ensures Decode(CanonicalToolKey(wire).value) == Decode(wire)
  {
    hide Decode, Encode, Encodable;
    if Decode(wire).Some? {
      DecodedIsEncodable(wire);
      EncodeDecodes(Decode(wire).value);
    }
  }

  /** The canonical key of a name, now that it is known to exist. */
  function Key(wire: string): (k: string)
    ensures CanonicalToolKey(wire) == Some(k)
  {
    CanonicalKeyIsTotal(wire);
    CanonicalToolKey(wire).value
  }

  lemma KeyIdempotent(wire: string)
    ensures Key(Key(wire)) == Key(wire)
  {
    hide Decode, Encode;
    CanonicalKeyIsTotal(wire);
  }

  /** Two names denote the same tool: they decode alike, or neither decodes and they are equal. */
  predicate SameTool(a: string, b: string) {
    Decode(a) == Decode(b) && (Decode(a).None? ==> a == b)
  }

  /** The kernel of the canonical key is exactly the relation of naming the same tool. */
  lemma KeyKernel(a: string, b: string)
    ensures Key(a) == Key(b) <==> SameTool(a, b)
  {
    hide Decode, Encode;
    CanonicalKeyIsTotal(a);
    CanonicalKeyIsTotal(b);
  }

  /** Without a slash in it, a name decodes to a server without underscores. */
  lemma UnderscoreNeedsSlash(w: string)
    requires Decode(w).Some? && '_' in Decode(w).value.server
    ensures '/' in w
  {
    hide FirstHexSplit, HexUtf8SuffixOk, HexPayload, DecodeSlash, Strip, IsSpace, Find;
    var c := Strip(w);
    FindChar(c, '/');
    StripSubset(w);
    if '/' !in c {
      var split := FirstHexSplit(c, 0);
      var k := if split.Some? then split.value else Find(c, "__", 0).value;
      ReplaceLosesUnderscore(c[..k]);
    }
  }

  /** Which spelling the encoder picks: a slash exactly for servers whose name has an underscore. */
  lemma EncodeForms(t: Tool)
    requires Encode(t).Some?
    ensures '_' in t.server ==> Encode(t).value == SlashForm(t)
    ensures '_' !in t.server ==>
      Encode(t).value == HexForm(t) || (IsSafeTail(t.name) && Encode(t).value == DescriptiveForm(t))
  {
    hide Decode;
    EncodeRaisesExactly(t);
    var w := Encode(t).value;
    if '_' in t.server {
      UnderscoreNeedsSlash(w);
      var hex := Utf8.ToHex(Utf8.Encode(t.name));
      assert forall c :: c in hex ==> Utf8.IsHexDigit(c);
      assert '/' !in Replace(t.server, '-', '_');
    } else {
      HexFormDecodes(t);
    }
  }

  lemma EncodingIsStripped(t: Tool)
    requires Encode(t).Some?
    ensures Encode(t).value != "" && Stripped(Encode(t).value)
  {
    hide Decode, Encode;
    EncodeRaisesExactly(t);
    EncodeForms(t);
    var w := Encode(t).value;
    if '_' in t.server {
      assert w[0] == t.server[0] && w[|w| - 1] == t.name[|t.name| - 1];
    } else if w == HexForm(t) {
      HexFormShape(t);
    } else {
      assert w[0] == Replace(t.server, '-', '_')[0];
      assert w[|w| - 1] == t.name[|t.name| - 1] && t.name[|t.name| - 1] in t.name;
    }
  }

  /** Server ids and tool names with nothing in them that could be taken for the marker. */
  predicate IsPlain(t: Tool) {
    && IsSlug(t.server) && !Contains(t.server, "--") && t.server[|t.server| - 1] != '-'
    && IsSafeTail(t.name) && !Contains(t.name, PROXY_TOOL_SEP)
    && !OccursAt(t.name, "p__", 0) && !OccursAt(t.name, "_p__", 0)
  }

  lemma PairAt(s: string, a: char, b: char, k: nat)
    ensures OccursAt(s, [a, b], k) <==> k + 2 <= |s| && s[k] == a && s[k + 1] == b
  {
    if k + 2 <= |s| {
      assert s[k..k + 2] == [s[k], s[k + 1]];
    }
  }

  lemma MarkerAt(s: string, k: nat)
    ensures OccursAt(s, PROXY_TOOL_SEP, k) <==>
      && k + 5 <= |s|
      && s[k] == '_' && s[k + 1] == '_' && s[k + 2] == 'p' && s[k + 3] == '_' && s[k + 4] == '_'
  {
    if k + 5 <= |s| {
      assert s[k..k + 5] == [s[k], s[k + 1], s[k + 2], s[k + 3], s[k + 4]];
    }
  }

  lemma PlainHasNoMarker(t: Tool, k: nat)
    requires IsPlain(t)
    ensures !OccursAt(DescriptiveForm(t), PROXY_TOOL_SEP, k)
    ensures k < |t.server| ==> !OccursAt(DescriptiveForm(t), "__", k)
  {
    hide Find, IsSlug, IsSafeTail;
    var w, n := DescriptiveForm(t), |t.server|;
    SlugIsWireServer(t.server);
    assert forall i :: 0 <= i < n ==> (w[i] == '_' <==> t.server[i] == '-');
    PairAt(w, '_', '_', k);
    PairAt(t.server, '-', '-', k);
    MarkerAt(w, k);
    if |t.name| >= 4 {
      assert t.name[..4] == [t.name[0], t.name[1], t.name[2], t.name[3]];
    }
    if |t.name| >= 3 {
      assert t.name[..3] == [t.name[0], t.name[1], t.name[2]];
    }
    if k >= n + 2 {
      MarkerAt(t.name, k - n - 2);
    }
  }

  lemma PlainShape(t: Tool)
    requires IsPlain(t)
    ensures Stripped(DescriptiveForm(t)) && '/' !in DescriptiveForm(t)
  {
    hide Find;
    var w := DescriptiveForm(t);
    SlugIsWireServer(t.server);
    assert w[0] == Replace(t.server, '-', '_')[0] && w[|w| - 1] == t.name[|t.name| - 1];
    assert t.name[|t.name| - 1] in t.name;
  }

  lemma PlainDecodes(t: Tool)
    requires IsPlain(t)
    ensures Decode(DescriptiveForm(t)) == Some(t)
  {
    hide Find, Strip, FirstHexSplit, HexUtf8SuffixOk, HexPayload, IsPlain, Stripped, DecodeSlash, Replace, IsSpace;
    var w, n := DescriptiveForm(t), |t.server|;
    PlainShape(t);
    StripFixesStripped(w);
    FindChar(w, '/');
    forall k: nat ensures !OccursAt(w, PROXY_TOOL_SEP, k) && (k < n ==> !OccursAt(w, "__", k)) {
      PlainHasNoMarker(t, k);
    }
    assert OccursAt(w, "__", n);
    assert Find(w, "__", 0) == Some(n);
    assert w[..n] == Replace(t.server, '-', '_') && w[n + 2..] == t.name;
    assert n > 0 && t.name != "" && '_' !in t.server by { PlainParts(t); }
    ReplaceBack(t.server);
  }

  lemma PlainParts(t: Tool)
    requires IsPlain(t)
    ensures t.server != "" && t.name != "" && '_' !in t.server
  {
    SlugIsWireServer(t.server);
  }

  /** Ordinary names keep the readable spelling, so wire names already in use do not change. */
  lemma PlainNamesStayReadable(t: Tool)
    requires IsPlain(t)
    ensures Encode(t) == Some(DescriptiveForm(t))
  {
    hide Decode;
    PlainDecodes(t);
  }
}
