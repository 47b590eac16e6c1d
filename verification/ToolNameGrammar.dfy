/** Which wire names name which tools, said without the decoder: three spellings, in order of precedence. */
module ToolNameGrammar {
  import opened Wrappers
  import opened Text
  import opened ToolNames
  import Utf8

  /** The legacy spelling: both sides of the first slash, stripped, and neither blank. */
  predicate BySlash(c: string, k: nat, t: Tool) {
    && k < |c| && c[k] == '/' && '/' !in c[..k]
    && t.server == Strip(c[..k]) != "" && t.name == Strip(c[k + 1..]) != ""
  }

  /** The hexadecimal spelling: after a marker that is not at the front, the UTF-8 bytes of the text, in either case. */
  predicate HexAt(c: string, k: nat, text: string) {
    && 0 < k && OccursAt(c, "__p__", k) && (forall ch :: ch in c[k + 5..] ==> Utf8.IsHexDigit(ch))
    && Utf8.Lower(c[k + 5..]) == Utf8.ToHex(Utf8.Encode(text))
  }

  ghost predicate IsHexAt(c: string, k: nat) {
    exists text :: HexAt(c, k, text)
  }

  ghost predicate ByHex(c: string, k: nat, t: Tool) {
    HexAt(c, k, t.name) && t.server == Replace(c[..k], '_', '-') && forall j: nat :: j < k ==> !IsHexAt(c, j)
  }

  /** The descriptive spelling: both sides of the first double underscore, whatever characters the right one has. */
  ghost predicate ByUnderscores(c: string, k: nat, t: Tool) {
    && 0 < k && OccursAt(c, "__", k) && (forall j: nat :: j < k ==> !OccursAt(c, "__", j))
    && t.server == Replace(c[..k], '_', '-') && t.name == c[k + 2..] != ""
  }

  /** A slash decides for the first spelling, a valid hexadecimal part for the second. */
  ghost predicate Spells(c: string, t: Tool) {
    if '/' in c then exists k: nat :: BySlash(c, k, t)
    else if exists k: nat :: IsHexAt(c, k) then exists k: nat :: ByHex(c, k, t)
    else exists k: nat :: ByUnderscores(c, k, t)
  }

  lemma HexSuffix(s: string, text: string)
    ensures HexUtf8SuffixOk(s) && HexPayload(s) == text <==>
      (forall ch :: ch in s ==> Utf8.IsHexDigit(ch)) && Utf8.Lower(s) == Utf8.ToHex(Utf8.Encode(text))
  {
    hide Utf8.Encode, Utf8.Decode, Utf8.ToHex, Utf8.FromHex, Utf8.Lower;
    Utf8.DecodeEncode(text);
    Utf8.FromHexToHex(Utf8.Encode(text));
    if forall ch :: ch in s ==> Utf8.IsHexDigit(ch) {
      if |s| % 2 == 0 {
        Utf8.ToHexFromHex(s);
        Utf8.FromHexToHex(Utf8.FromHex(s));
        if Utf8.Decode(Utf8.FromHex(s)).Some? {
          Utf8.EncodeDecode(Utf8.FromHex(s));
        }
      }
    }
  }

  lemma HexSplitExactly(c: string, k: nat)
    ensures IsHexSplit(c, k) <==> IsHexAt(c, k)
    ensures IsHexSplit(c, k) ==> k + |PROXY_TOOL_SEP| <= |c| && HexUtf8SuffixOk(c[k + |PROXY_TOOL_SEP|..])
    ensures forall text :: HexAt(c, k, text) <==> IsHexSplit(c, k) && HexPayload(c[k + |PROXY_TOOL_SEP|..]) == text
  {
    hide HexUtf8SuffixOk, HexPayload, Utf8.Encode, Utf8.ToHex, Utf8.Lower;
    if OccursAt(c, PROXY_TOOL_SEP, k) {
      forall text {
        HexSuffix(c[k + 5..], text);
      }
      if IsHexSplit(c, k) {
        HexSuffix(c[k + 5..], HexPayload(c[k + 5..]));
        assert HexAt(c, k, HexPayload(c[k + 5..]));
      }
    }
  }

  /** A wire name decodes to a tool exactly when it spells that tool. */
  lemma DecodeExactly(wire: string, t: Tool)
    ensures Decode(wire) == Some(t) <==> Spells(Strip(wire), t)
  {
    hide Strip, Find, FirstHexSplit, IsHexSplit, HexAt, HexPayload, Replace;
    var c := Strip(wire);
    FindChar(c, '/');
    forall k: nat {
      HexSplitExactly(c, k);
    }
    if '/' in c {
      SlashExactly(c, t);
    } else if FirstHexSplit(c, 0).Some? {
      HexExactly(c, t);
    } else {
      DescriptiveExactly(c, t);
    }
  }

  lemma HexExactly(c: string, t: Tool)
    requires FirstHexSplit(c, 0).Some?
    ensures var j := FirstHexSplit(c, 0).value;
            && IsHexAt(c, j)
            && (t == Tool(Replace(c[..j], '_', '-'), HexPayload(c[j + |PROXY_TOOL_SEP|..]))
                <==> exists k: nat :: ByHex(c, k, t))
  {
    hide Find, FirstHexSplit, IsHexSplit, HexAt, HexPayload, Replace, IsHexAt;
    forall k: nat {
      HexSplitExactly(c, k);
    }
    var j := FirstHexSplit(c, 0).value;
    assert ByHex(c, j, t) <==> t == Tool(Replace(c[..j], '_', '-'), HexPayload(c[j + |PROXY_TOOL_SEP|..]));
    forall k: nat ensures ByHex(c, k, t) ==> k == j {
      assert ByHex(c, k, t) ==> IsHexAt(c, k) by { HexAtMeans(c, k, t.name); }
    }
  }

  lemma HexAtMeans(c: string, k: nat, text: string)
    ensures HexAt(c, k, text) ==> IsHexAt(c, k)
  {
    hide HexAt;
  }

  lemma SlashExactly(c: string, t: Tool)
    requires Find(c, "/", 0).Some?
    ensures DecodeSlash(c) == Some(t) <==> exists k: nat :: BySlash(c, k, t)
  {
    hide Strip, Find;
    FindChar(c, '/');
    var f := Find(c, "/", 0).value;
    forall k: nat ensures BySlash(c, k, t) ==> k == f {
      InFront(c, k, f);
      InFront(c, f, k);
    }
    assert DecodeSlash(c) == Some(t) <==> BySlash(c, f, t);
  }

  lemma InFront(c: string, k: nat, f: nat)
    ensures k < f <= |c| && c[k] == '/' ==> '/' in c[..f]
  {
    if k < f <= |c| {
      assert c[..f][k] == c[k];
    }
  }

  lemma DescriptiveExactly(c: string, t: Tool)
    ensures DecodeDescriptive(c) == Some(t) <==> exists k: nat :: ByUnderscores(c, k, t)
  {
    hide Find, Replace;
    var f := Find(c, "__", 0);
    if f.Some? {
      assert DecodeDescriptive(c) == Some(t) <==> ByUnderscores(c, f.value, t);
    }
  }

  /** Only ASCII letters, digits and underscores, at least one of them, and no marker. */
  ghost predicate IsPlain(name: string) {
    && name != ""
    && (forall i :: 0 <= i < |name| ==>
          || 'A' <= name[i] <= 'Z' || 'a' <= name[i] <= 'z' || '0' <= name[i] <= '9' || name[i] == '_')
    && forall k: nat :: !OccursAt(name, "__p__", k)
  }

  lemma PlainExactly(name: string)
    ensures IsSafeTail(name) && !Contains(name, PROXY_TOOL_SEP) <==> IsPlain(name)
  {
    hide Find;
    assert forall i :: 0 <= i < |name| ==> name[i] in name;
    assert Contains(name, PROXY_TOOL_SEP) <==> exists k: nat :: OccursAt(name, "__p__", k);
  }

  /** Encoding takes the first of the three spellings that is open to the name and spells this very tool. */
  lemma EncodeExactly(t: Tool)
    ensures var server := Replace(t.server, '-', '_');
            var descriptive, hex, slash :=
              server + "__" + t.name, server + "__p__" + Utf8.ToHex(Utf8.Encode(t.name)), t.server + "/" + t.name;
            Encode(t) ==
              if IsPlain(t.name) && Spells(Strip(descriptive), t) then Some(descriptive)
              else if Spells(Strip(hex), t) then Some(hex)
              else if Spells(Strip(slash), t) then Some(slash)
              else None
  {
    hide Strip, Decode, Spells, IsPlain, IsSafeTail, Contains, Replace;
    PlainExactly(t.name);
    DecodeExactly(DescriptiveForm(t), t);
    DecodeExactly(HexForm(t), t);
    DecodeExactly(SlashForm(t), t);
  }
}
