/**
  * Fencing untrusted headlines in the curator's prompt
  * (servers/mcp-news-server/src/mcp_news_server/llm_curator.py): fence tokens are removed from feed
  * text, so that the fences the printer adds are the only ones and the prompt parses back.
  */
module Fencing {
  /** The characters `\d` matches: decimal digits of any script, which depends on the Unicode version. */
  type Digits = char -> bool

  /** What is true of them in every version: of the ASCII characters, exactly the ten digits. */
  ghost predicate Sane(digit: Digits) {
    forall c: char :: c as int < 128 ==> (digit(c) <==> '0' <= c <= '9')
  }

  /** `_CONTROL_RE` */
  predicate IsControl(c: char) {
    var n := c as int;
    || n <= 0x08 || n == 0x0B || n == 0x0C || 0x0E <= n <= 0x1F || n == 0x7F
    || 0x200B <= n <= 0x200F || 0x202A <= n <= 0x202E || 0x2066 <= n <= 0x2069
    || n == 0xFEFF || 0xE0000 <= n <= 0xE007F
  }

  /** The letters of `item` as the case-insensitive pattern takes them; i has two more in Unicode. */
  predicate IsI(c: char) { c == 'i' || c == 'I' || c as int == 0x130 || c as int == 0x131 }

  predicate StartsItem(s: string) {
    && |s| >= 5 && IsI(s[0]) && (s[1] == 't' || s[1] == 'T') && (s[2] == 'e' || s[2] == 'E')
    && (s[3] == 'm' || s[3] == 'M') && s[4] == '-'
  }

  /** How many digits a string starts with. */
  function DigitRun(digit: Digits, s: string): (n: nat)
    ensures n <= |s| && (n < |s| ==> !digit(s[n]))
    ensures forall i :: 0 <= i < n ==> digit(s[i])
  {
    if s == "" || !digit(s[0]) then 0 else 1 + DigitRun(digit, s[1..])
  }

  /** The length of an opening token `<<<item-\d+` at the front, or 0. */
  function OpenLen(digit: Digits, s: string): nat {
    if |s| >= 8 && s[0] == '<' && s[1] == '<' && s[2] == '<' && StartsItem(s[3..]) then
      var n := DigitRun(digit, s[8..]);
      if n == 0 then 0 else 8 + n
    else 0
  }

  /** The length of a closing token `item-\d+>>>` at the front, or 0. */
  function CloseLen(digit: Digits, s: string): nat {
    if StartsItem(s) then
      var n := DigitRun(digit, s[5..]);
      if n > 0 && |s| >= n + 8 && s[n + 5] == '>' && s[n + 6] == '>' && s[n + 7] == '>' then n + 8 else 0
    else 0
  }

  /** What `_FENCE_TOKEN_RE` matches at the front. */
  function TokenLen(digit: Digits, s: string): (n: nat)
    ensures n <= |s|
  {
    if OpenLen(digit, s) > 0 then OpenLen(digit, s) else CloseLen(digit, s)
  }

  function RemoveControls(s: string): (r: string)
    ensures forall c :: c in r ==> !IsControl(c)
  {
    if s == "" then ""
    else if IsControl(s[0]) then RemoveControls(s[1..])
    else [s[0]] + RemoveControls(s[1..])
  }

  const REMOVED := "[removed]"

  /** `_FENCE_TOKEN_RE.sub("[removed]", s)`: leftmost matches, none overlapping. */
  function RemoveTokens(digit: Digits, s: string): string {
    if s == "" then ""
    else
      var n := TokenLen(digit, s);
      if n > 0 then REMOVED + RemoveTokens(digit, s[n..])
      else [s[0]] + RemoveTokens(digit, s[1..])
  }

  /** `_sanitize` */
  function Sanitize(digit: Digits, s: string): string {
    RemoveTokens(digit, RemoveControls(s))
  }

  ghost predicate NoToken(digit: Digits, s: string) {
    forall p :: 0 <= p <= |s| ==> TokenLen(digit, s[p..]) == 0
  }

  /** The characters a token is made of. */
  predicate IsTokenChar(digit: Digits, c: char) {
    || c == '<' || c == '>' || c == '-' || IsI(c) || c == 't' || c == 'T'
    || c == 'e' || c == 'E' || c == 'm' || c == 'M' || digit(c)
  }

  lemma TokenChars(digit: Digits, s: string)
    ensures forall i :: 0 <= i < TokenLen(digit, s) ==> IsTokenChar(digit, s[i])
  {
    if OpenLen(digit, s) > 0 {
      forall i | 8 <= i < OpenLen(digit, s) ensures digit(s[i]) {
        assert s[i] == s[8..][i - 8];
      }
    } else if CloseLen(digit, s) > 0 {
      forall i | 5 <= i < CloseLen(digit, s) - 3 ensures digit(s[i]) {
        assert s[i] == s[5..][i - 5];
      }
    }
  }

  lemma {:induction false} DigitRunIs(digit: Digits, s: string, n: nat)
    requires n <= |s| && (forall i :: 0 <= i < n ==> digit(s[i])) && (n < |s| ==> !digit(s[n]))
    ensures DigitRun(digit, s) == n
  {
    if n > 0 {
      DigitRunIs(digit, s[1..], n - 1);
    }
  }

  lemma {:induction false} DigitRunAtLeast(digit: Digits, s: string, n: nat)
    requires n <= |s| && forall i :: 0 <= i < n ==> digit(s[i])
    ensures DigitRun(digit, s) >= n
  {
    if n > 0 {
      DigitRunAtLeast(digit, s[1..], n - 1);
    }
  }

  /** A token at the front stays one whatever follows it. */
  lemma TokenIsLocal(digit: Digits, s: string, t: string)
    requires Sane(digit)
    requires TokenLen(digit, s) > 0 && |t| >= TokenLen(digit, s) && t[..TokenLen(digit, s)] == s[..TokenLen(digit, s)]
    ensures TokenLen(digit, t) > 0
  {
    hide DigitRun;
    var len := TokenLen(digit, s);
    assert forall i :: 0 <= i < len ==> t[i] == s[..len][i] == s[i];
    if OpenLen(digit, s) > 0 {
      var n := DigitRun(digit, s[8..]);
      assert forall i :: 0 <= i < n ==> t[8..][i] == s[8..][i];
      DigitRunAtLeast(digit, t[8..], n);
    } else {
      var n := DigitRun(digit, s[5..]);
      assert forall i :: 0 <= i < n ==> t[5..][i] == s[5..][i];
      assert t[5..][n] == '>';
      DigitRunIs(digit, t[5..], n);
    }
  }

  lemma TokensHaveDashes(digit: Digits, s: string)
    ensures '-' !in s ==> NoToken(digit, s)
  {
    hide DigitRun;
    forall p | 0 <= p <= |s| ensures '-' !in s ==> TokenLen(digit, s[p..]) == 0 {
      assert |s[p..]| >= 5 ==> s[p..][4] == s[p + 4];
      assert |s[p..]| >= 8 ==> s[p..][3..][4] == s[p + 7];
    }
  }

  /** No token spans a character that tokens do not contain. */
  lemma TokenAcross(digit: Digits, a: string, c: char, b: string, p: nat)
    requires Sane(digit) && !IsTokenChar(digit, c) && p <= |a| + 1 + |b|
    ensures TokenLen(digit, (a + [c] + b)[p..]) > 0 <==>
            (if p <= |a| then TokenLen(digit, a[p..]) > 0 else TokenLen(digit, b[p - |a| - 1..]) > 0)
  {
    hide DigitRun, OpenLen, CloseLen, TokenLen;
    var t := a + [c] + b;
    if p <= |a| {
      TokenChars(digit, t[p..]);
      var n := TokenLen(digit, t[p..]);
      assert t[p..][|a| - p] == c;
      assert n <= |a| - p;
      assert t[p..][..n] == a[p..][..n];
      if n > 0 {
        TokenIsLocal(digit, t[p..], a[p..]);
      }
      var m := TokenLen(digit, a[p..]);
      assert t[p..][..m] == a[p..][..m];
      if m > 0 {
        TokenIsLocal(digit, a[p..], t[p..]);
      }
    } else {
      assert t[p..] == b[p - |a| - 1..];
    }
  }

  lemma JoinClean(digit: Digits, a: string, c: char, b: string)
    requires Sane(digit) && !IsTokenChar(digit, c)
    ensures NoToken(digit, a + [c] + b) <==> NoToken(digit, a) && NoToken(digit, b)
  {
    hide TokenLen, OpenLen, CloseLen;
    var t := a + [c] + b;
    forall p | 0 <= p <= |a| + 1 + |b|
      ensures TokenLen(digit, t[p..]) > 0 <==>
              (if p <= |a| then TokenLen(digit, a[p..]) > 0 else TokenLen(digit, b[p - |a| - 1..]) > 0)
    {
      TokenAcross(digit, a, c, b, p);
    }
    if NoToken(digit, t) {
      forall p | 0 <= p <= |b| ensures TokenLen(digit, b[p..]) == 0 {
        var q := p + |a| + 1;
        assert TokenLen(digit, t[q..]) == 0;
      }
    }
  }

  lemma NoTokenSlice(digit: Digits, s: string, from: nat, to: nat)
    requires Sane(digit) && from <= to <= |s| && NoToken(digit, s)
    ensures NoToken(digit, s[from..to])
  {
    hide TokenLen, OpenLen, CloseLen;
    var t := s[from..to];
    forall p | 0 <= p <= |t| ensures TokenLen(digit, t[p..]) == 0 {
      var n := TokenLen(digit, t[p..]);
      assert t[p..][..n] == s[from + p..][..n];
      if n > 0 {
        TokenIsLocal(digit, t[p..], s[from + p..]);
      }
    }
  }

  /** Up to its first `[`, what the removal returns is what it was given. */
  lemma {:induction false} LiteralPrefix(digit: Digits, s: string, k: nat)
    requires k <= |RemoveTokens(digit, s)|
    ensures '[' in RemoveTokens(digit, s)[..k] || (k <= |s| && s[..k] == RemoveTokens(digit, s)[..k])
  {
    hide TokenLen, OpenLen, CloseLen;
    var r := RemoveTokens(digit, s);
    if k > 0 {
      assert r[..k][0] == r[0];
      if TokenLen(digit, s) == 0 {
        var rest := RemoveTokens(digit, s[1..]);
        LiteralPrefix(digit, s[1..], k - 1);
        assert r[..k] == [s[0]] + rest[..k - 1];
        assert k <= |s| ==> s[..k] == [s[0]] + s[1..][..k - 1];
      }
    }
  }

  lemma NoTokenFormed(digit: Digits, s: string)
    requires Sane(digit)
    ensures TokenLen(digit, RemoveTokens(digit, s)) > 0 ==> TokenLen(digit, s) > 0
  {
    hide DigitRun, OpenLen, CloseLen, TokenLen, RemoveTokens;
    var r := RemoveTokens(digit, s);
    var n := TokenLen(digit, r);
    LiteralPrefix(digit, s, n);
    TokenChars(digit, r);
    assert '[' !in r[..n];
    if n > 0 {
      TokenIsLocal(digit, r, s);
    }
  }

  lemma {:induction false} RemovalIsClean(digit: Digits, s: string)
    requires Sane(digit)
    ensures NoToken(digit, RemoveTokens(digit, s))
  {
    hide DigitRun, OpenLen, CloseLen, TokenLen;
    var r := RemoveTokens(digit, s);
    if s == "" {
      TokensHaveDashes(digit, r);
    } else if TokenLen(digit, s) > 0 {
      var rest := RemoveTokens(digit, s[TokenLen(digit, s)..]);
      RemovalIsClean(digit, s[TokenLen(digit, s)..]);
      TokensHaveDashes(digit, "[removed");
      JoinClean(digit, "[removed", ']', rest);
      assert r == "[removed" + [']'] + rest;
    } else {
      var rest := RemoveTokens(digit, s[1..]);
      RemovalIsClean(digit, s[1..]);
      NoTokenFormed(digit, s);
      forall p | 0 <= p <= |r| ensures TokenLen(digit, r[p..]) == 0 {
        if p > 0 {
          assert r[p..] == rest[p - 1..];
        } else {
          assert r[p..] == r;
        }
      }
    }
  }

  lemma {:induction false} RemovalFixesClean(digit: Digits, s: string)
    requires NoToken(digit, s)
    ensures RemoveTokens(digit, s) == s
  {
    hide DigitRun, OpenLen, CloseLen, TokenLen;
    if s != "" {
      assert s[0..] == s;
      forall p | 0 <= p <= |s[1..]| ensures TokenLen(digit, s[1..][p..]) == 0 {
        assert s[1..][p..] == s[p + 1..];
      }
      RemovalFixesClean(digit, s[1..]);
    }
  }

  lemma {:induction false} RemovalAddsNoControls(digit: Digits, s: string)
    ensures forall c :: c in RemoveTokens(digit, s) ==> c in s || c in REMOVED
  {
    hide DigitRun, OpenLen, CloseLen, TokenLen;
    if s != "" {
      var n := TokenLen(digit, s);
      RemovalAddsNoControls(digit, s[if n > 0 then n else 1..]);
    }
  }

  lemma {:induction false} NoControlsToRemove(s: string)
    requires forall c :: c in s ==> !IsControl(c)
    ensures RemoveControls(s) == s
  {
    if s != "" {
      NoControlsToRemove(s[1..]);
    }
  }

  ghost predicate Clean(digit: Digits, s: string) {
    NoToken(digit, s) && forall c :: c in s ==> !IsControl(c)
  }

  /** What `_sanitize` returns has no control character and no fence token, and clean text is kept. */
  lemma SanitizeCleans(digit: Digits, s: string)
    requires Sane(digit)
    ensures Clean(digit, Sanitize(digit, s))
    ensures Clean(digit, s) <==> Sanitize(digit, s) == s
  {
    hide DigitRun, OpenLen, CloseLen, TokenLen;
    RemovalIsClean(digit, RemoveControls(s));
    RemovalAddsNoControls(digit, RemoveControls(s));
    if Clean(digit, s) {
      NoControlsToRemove(s);
      RemovalFixesClean(digit, s);
    }
  }

  lemma SanitizeIdempotent(digit: Digits, s: string)
    requires Sane(digit)
    ensures Sanitize(digit, Sanitize(digit, s)) == Sanitize(digit, s)
  {
    SanitizeCleans(digit, s);
    SanitizeCleans(digit, Sanitize(digit, s));
  }

  lemma TokensStartWithLessOrI(digit: Digits, s: string)
    requires forall c :: c in s ==> c != '<' && !IsI(c)
    ensures NoToken(digit, s)
  {
    hide DigitRun;
    forall p | 0 <= p <= |s| ensures TokenLen(digit, s[p..]) == 0 {
      assert p < |s| ==> s[p..][0] == s[p] && s[p] in s;
    }
  }

  lemma {:induction false} ControlsOfSum(a: string, b: string)
    ensures RemoveControls(a + b) == RemoveControls(a) + RemoveControls(b)
  {
    hide IsControl;
    if a == "" {
      assert a + b == b;
    } else {
      var t := a + b;
      assert t[0] == a[0] && t[1..] == a[1..] + b;
      ControlsOfSum(a[1..], b);
    }
  }

  /** Done in the other order, the two removals would join clean pieces that a control keeps apart... */
  lemma OtherOrderJoins(digit: Digits, a: string, c: char, b: string)
    requires Sane(digit) && IsControl(c) && !IsTokenChar(digit, c) && Clean(digit, a) && Clean(digit, b)
    ensures RemoveControls(RemoveTokens(digit, a + [c] + b)) == a + b
  {
    hide RemoveTokens, DigitRun, OpenLen, CloseLen, TokenLen;
    JoinClean(digit, a, c, b);
    RemovalFixesClean(digit, a + [c] + b);
    NoControlsToRemove(a);
    NoControlsToRemove(b);
    ControlsOfSum(a + [c], b);
    ControlsOfSum(a, [c]);
  }

  /** ...and so could leave a token behind. */
  lemma OtherOrderFormsTokens(digit: Digits)
    requires Sane(digit)
    ensures Clean(digit, "ite") && Clean(digit, "m-1>>>")
    ensures !NoToken(digit, "ite" + "m-1>>>")
  {
    hide DigitRun;
    TokensHaveDashes(digit, "ite");
    TokensStartWithLessOrI(digit, "m-1>>>");
    var t := "ite" + "m-1>>>";
    DigitRunIs(digit, t[5..], 1);
    assert t[0..] == t;
    assert TokenLen(digit, t[0..]) > 0;
  }

  /** The C1 control characters are not among those removed, whatever comment stands beside the pattern. */
  lemma C1ControlsSurvive(digit: Digits, c: char)
    requires 0x80 <= c as int <= 0x9F
    ensures Sanitize(digit, [c]) == [c]
  {
    NoControlsToRemove([c]);
    TokensHaveDashes(digit, [c]);
    RemovalFixesClean(digit, [c]);
  }
}
