/** The Python string operations the proxy relies on, over sequences of Unicode scalar values. */
module Text {
  import opened Wrappers

  /** The characters for which Python's `str.isspace` holds. */
  predicate IsSpace(c: char) {
    var n := c as int;
    || 0x09 <= n <= 0x0D || 0x1C <= n <= 0x20 || n == 0x85 || n == 0xA0 || n == 0x1680
    || 0x2000 <= n <= 0x200A || n == 0x2028 || n == 0x2029 || n == 0x202F || n == 0x205F || n == 0x3000
  }

  /** One by one. */
  lemma SpacesExactly(c: char)
    ensures IsSpace(c) <==> c as int in {
      0x09, 0x0A, 0x0B, 0x0C, 0x0D, 0x1C, 0x1D, 0x1E, 0x1F, 0x20, 0x85, 0xA0, 0x1680,
      0x2000, 0x2001, 0x2002, 0x2003, 0x2004, 0x2005, 0x2006, 0x2007, 0x2008, 0x2009, 0x200A,
      0x2028, 0x2029, 0x202F, 0x205F, 0x3000}
  {
  }

  function LStrip(s: string): (r: string)
    ensures r == "" || !IsSpace(r[0])
    ensures |r| <= |s| && r == s[|s| - |r|..]
    ensures forall c :: c in s[..|s| - |r|] ==> IsSpace(c)
  {
    if s == "" || !IsSpace(s[0]) then s
    else
      var r := LStrip(s[1..]);
      assert s[..|s| - |r|] == [s[0]] + s[1..][..|s| - 1 - |r|];
      r
  }

  function RStrip(s: string): (r: string)
    ensures r == "" || !IsSpace(r[|r| - 1])
    ensures r <= s
    ensures forall c :: c in s[|r|..] ==> IsSpace(c)
  {
    if s == "" || !IsSpace(s[|s| - 1]) then s
    else
      var r := RStrip(s[..|s| - 1]);
      assert s[|r|..] == s[..|s| - 1][|r|..] + [s[|s| - 1]];
      r
  }

  /** `str.strip()` */
  function Strip(s: string): string {
    RStrip(LStrip(s))
  }

  predicate Stripped(s: string) {
    s == "" || (!IsSpace(s[0]) && !IsSpace(s[|s| - 1]))
  }

  lemma StripIsStripped(s: string)
    ensures Stripped(Strip(s))
  {
  }

  /** All that stands before i or from j on is space. */
  predicate OnlySpacesAround(s: string, i: nat, j: nat) {
    && i <= j <= |s|
    && (forall k :: 0 <= k < i ==> IsSpace(s[k]))
    && (forall k :: j <= k < |s| ==> IsSpace(s[k]))
  }

  /** Stripping takes spaces off both ends, all of them, and nothing else. */
  lemma StripExactly(s: string)
    ensures exists i: nat, j: nat :: OnlySpacesAround(s, i, j) && Strip(s) == s[i..j]
    ensures Stripped(Strip(s))
  {
    hide IsSpace, LStrip, RStrip;
    var l := LStrip(s);
    var i := |s| - |l|;
    var j := i + |Strip(s)|;
    LStripDrops(s);
    RStripDrops(l);
    forall k | j <= k < |s| ensures IsSpace(s[k]) {
      assert s[k] == l[k - i];
    }
    assert OnlySpacesAround(s, i, j) && Strip(s) == s[i..j];
  }

  lemma LStripDrops(s: string)
    ensures forall k :: 0 <= k < |s| - |LStrip(s)| ==> IsSpace(s[k])
  {
    hide IsSpace, LStrip;
    forall k | 0 <= k < |s| - |LStrip(s)| ensures IsSpace(s[k]) {
      assert s[k] in s[..|s| - |LStrip(s)|];
    }
  }

  lemma RStripDrops(s: string)
    ensures forall k :: |RStrip(s)| <= k < |s| ==> IsSpace(s[k])
  {
    hide IsSpace, RStrip;
    forall k | |RStrip(s)| <= k < |s| ensures IsSpace(s[k]) {
      assert s[k] in s[|RStrip(s)|..];
    }
  }

  lemma StripFixesStripped(s: string)
    requires Stripped(s)
    ensures Strip(s) == s
  {
  }

  lemma StripIdempotent(s: string)
    ensures Strip(Strip(s)) == Strip(s)
  {
    StripIsStripped(s);
    StripFixesStripped(Strip(s));
  }

  /** Every character of a stripped string comes from the original. */
  lemma StripSubset(s: string)
    ensures forall c :: c in Strip(s) ==> c in s
  {
  }

  /** `str.replace` of one character by another. */
  function Replace(s: string, from: char, to: char): (r: string)
    ensures |r| == |s|
    ensures forall i :: 0 <= i < |s| ==> r[i] == if s[i] == from then to else s[i]
  {
    seq(|s|, i requires 0 <= i < |s| => if s[i] == from then to else s[i])
  }

  predicate OccursAt(s: string, pat: string, i: nat) {
    i + |pat| <= |s| && s[i..i + |pat|] == pat
  }

  /** `str.find(pat, i)`, with None for -1: the first occurrence at or after i. */
  function Find(s: string, pat: string, i: nat): (r: Option<nat>)
    ensures r.Some? ==> i <= r.value && OccursAt(s, pat, r.value)
    ensures r.Some? ==> forall k: nat :: i <= k < r.value ==> !OccursAt(s, pat, k)
    ensures r.None? ==> forall k: nat :: i <= k ==> !OccursAt(s, pat, k)
    decreases |s| + 1 - i
  {
    if i + |pat| > |s| then None
    else if OccursAt(s, pat, i) then Some(i)
    else Find(s, pat, i + 1)
  }

  predicate Contains(s: string, pat: string) {
    Find(s, pat, 0).Some?
  }

  /** Looking for a single character finds its first occurrence. */
  lemma FindChar(s: string, ch: char)
    ensures Find(s, [ch], 0).None? <==> ch !in s
    ensures var r := Find(s, [ch], 0); r.Some? ==> r.value < |s| && s[r.value] == ch && ch !in s[..r.value]
  {
    forall k: nat | k < |s| ensures OccursAt(s, [ch], k) <==> s[k] == ch {
      assert s[k..k + 1] == [s[k]];
    }
  }

  /** Python's `a < b` on strings: lexicographic by code point. */
  predicate Less(a: string, b: string) {
    if b == "" then false
    else if a == "" then true
    else if a[0] != b[0] then a[0] < b[0]
    else Less(a[1..], b[1..])
  }

  lemma {:induction false} LessIsTotal(a: string, b: string)
    ensures Less(a, b) || Less(b, a) || a == b
    ensures !(Less(a, b) && Less(b, a))
    ensures a == b ==> !Less(a, b)
    decreases |a|
  {
    if a != "" && b != "" && a[0] == b[0] {
      LessIsTotal(a[1..], b[1..]);
      assert a == [a[0]] + a[1..] && b == [b[0]] + b[1..];
    }
  }

  lemma {:induction false} LessIsTransitive(a: string, b: string, c: string)
    requires Less(a, b) && Less(b, c)
    ensures Less(a, c)
    decreases |a|
  {
    if a != "" && a[0] == b[0] == c[0] {
      LessIsTransitive(a[1..], b[1..], c[1..]);
    }
  }

  /** The strings first differ at k. */
  predicate DifferFirstAt(a: string, b: string, k: nat) {
    k < |a| && k < |b| && a[..k] == b[..k] && a[k] != b[k]
  }

  lemma StartsAlike(a: string, b: string, k: nat)
    requires DifferFirstAt(a, b, k)
    ensures k > 0 ==> a[0] == b[0]
  {
    if k > 0 {
      assert a[..k][0] == a[0] && b[..k][0] == b[0];
    }
  }

  /** Where two strings first differ, their characters decide; a proper prefix comes first. */
  lemma {:induction false} LessIsLexicographic(a: string, b: string)
    ensures a <= b ==> (Less(a, b) <==> a != b)
    ensures b <= a ==> !Less(a, b)
    ensures forall k: nat :: DifferFirstAt(a, b, k) ==> (Less(a, b) <==> a[k] < b[k])
    decreases |a|
  {
    if a != "" && b != "" && a[0] == b[0] {
      var a', b' := a[1..], b[1..];
      LessIsLexicographic(a', b');
      assert a == [a[0]] + a' && b == [b[0]] + b';
      forall k: nat | DifferFirstAt(a, b, k) ensures Less(a, b) <==> a[k] < b[k] {
        assert k > 0 ==> a'[..k - 1] == a[..k][1..] && b'[..k - 1] == b[..k][1..];
        assert k > 0 ==> DifferFirstAt(a', b', k - 1);
      }
    } else {
      forall k: nat | DifferFirstAt(a, b, k) ensures k == 0 {
        StartsAlike(a, b, k);
      }
    }
  }

  /** No string occurs twice. */
  predicate Distinct(names: seq<string>) {
    forall i, j :: 0 <= i < j < |names| ==> names[i] != names[j]
  }
}
