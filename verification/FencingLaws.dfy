/** What is removed from feed text, said without the removal: the tokens of the pattern and the control characters. */
module FencingLaws {
  import opened Fencing

  /** A letter in either case. */
  predicate IsLetter(c: char, lower: char)
    requires 'a' <= lower <= 'z'
  {
    c == lower || c as int == lower as int - 32
  }

  /** The five characters `item-`, in any case; dotted and dotless i count as i. */
  predicate SpellsItem(w: string) {
    && |w| == 5 && (IsLetter(w[0], 'i') || w[0] as int == 0x130 || w[0] as int == 0x131)
    && IsLetter(w[1], 't') && IsLetter(w[2], 'e') && IsLetter(w[3], 'm') && w[4] == '-'
  }

  predicate AllDigits(digit: Digits, w: string) {
    forall i :: 0 <= i < |w| ==> digit(w[i])
  }

  /** Three angle brackets, the word, and at least one digit. */
  predicate IsOpen(digit: Digits, w: string) {
    |w| >= 9 && w[0] == w[1] == w[2] == '<' && SpellsItem(w[3..8]) && AllDigits(digit, w[8..])
  }

  /** The word, at least one digit, and three angle brackets. */
  predicate IsClose(digit: Digits, w: string) {
    var n := |w|;
    n >= 9 && SpellsItem(w[..5]) && AllDigits(digit, w[5..n - 3]) && w[n - 3] == w[n - 2] == w[n - 1] == '>'
  }

  predicate IsToken(digit: Digits, w: string) {
    IsOpen(digit, w) || IsClose(digit, w)
  }

  lemma StartsItemExactly(s: string)
    ensures StartsItem(s) <==> |s| >= 5 && SpellsItem(s[..5])
  {
  }

  lemma OpenExactly(digit: Digits, s: string, n: nat)
    requires n <= |s|
    ensures OpenLen(digit, s) <= |s|
    ensures IsOpen(digit, s[..n]) ==> n <= OpenLen(digit, s)
    ensures OpenLen(digit, s) > 0 ==> IsOpen(digit, s[..OpenLen(digit, s)])
  {
    hide DigitRun, StartsItem, SpellsItem;
    if |s| >= 8 {
      StartsItemExactly(s[3..]);
      assert s[3..][..5] == s[3..8];
    }
    if IsOpen(digit, s[..n]) {
      assert s[..n][3..8] == s[3..8];
      forall i | 0 <= i < n - 8 ensures digit(s[8..][i]) {
        assert s[8..][i] == s[..n][8..][i];
      }
      DigitRunAtLeast(digit, s[8..], n - 8);
    }
    var m := OpenLen(digit, s);
    if m > 0 {
      assert s[..m][3..8] == s[3..8];
      assert forall i :: 0 <= i < m - 8 ==> s[..m][8..][i] == s[8..][i];
    }
  }

  lemma CloseExactly(digit: Digits, s: string, n: nat)
    requires Sane(digit) && n <= |s|
    ensures CloseLen(digit, s) <= |s|
    ensures IsClose(digit, s[..n]) ==> n == CloseLen(digit, s)
    ensures CloseLen(digit, s) > 0 ==> IsClose(digit, s[..CloseLen(digit, s)])
  {
    hide DigitRun, StartsItem, SpellsItem;
    StartsItemExactly(s);
    if IsClose(digit, s[..n]) {
      assert s[..n][..5] == s[..5];
      forall i | 0 <= i < n - 8 ensures digit(s[5..][i]) {
        assert s[5..][i] == s[..n][5..n - 3][i];
      }
      assert s[5..][n - 8] == s[..n][n - 3] == '>';
      DigitRunIs(digit, s[5..], n - 8);
    }
    var m := CloseLen(digit, s);
    if m > 0 {
      assert s[..m][..5] == s[..5];
      assert s[..m][m - 3] == s[m - 3] && s[..m][m - 2] == s[m - 2] && s[..m][m - 1] == s[m - 1];
      assert m - 8 == DigitRun(digit, s[5..]) && s[m - 3] == s[m - 2] == s[m - 1] == '>';
      var digits := s[..m][5..m - 3];
      forall i | 0 <= i < |digits| ensures digit(digits[i]) {
        assert digit(s[5..][i]);
      }
    }
  }

  /** There is a token at the front exactly when some front part is one, and the longest that is gets matched. */
  lemma TokenExactly(digit: Digits, s: string)
    requires Sane(digit)
    ensures TokenLen(digit, s) > 0 ==> IsToken(digit, s[..TokenLen(digit, s)])
    ensures forall n :: 0 <= n <= |s| && IsToken(digit, s[..n]) ==> 0 < n <= TokenLen(digit, s)
  {
    hide OpenLen, CloseLen, SpellsItem;
    OpenExactly(digit, s, 0);
    CloseExactly(digit, s, 0);
    forall n | 0 <= n <= |s| && IsToken(digit, s[..n]) ensures 0 < n <= TokenLen(digit, s) {
      OpenExactly(digit, s, n);
      CloseExactly(digit, s, n);
      NotBoth(digit, s, OpenLen(digit, s), n);
    }
  }

  /** An opening token does not start like a closing one. */
  lemma NotBoth(digit: Digits, s: string, m: nat, n: nat)
    requires m <= |s| && n <= |s|
    ensures !(IsOpen(digit, s[..m]) && IsClose(digit, s[..n]))
  {
    hide AllDigits;
  }

  lemma CharacterStays(digit: Digits, s: string)
    ensures s != "" && TokenLen(digit, s) == 0 ==> RemoveTokens(digit, s) == [s[0]] + RemoveTokens(digit, s[1..])
  {
    hide TokenLen;
  }

  lemma {:induction false} UpToToken(digit: Digits, s: string, p: nat)
    requires p <= |s| && forall i :: 0 <= i < p ==> TokenLen(digit, s[i..]) == 0
    ensures RemoveTokens(digit, s) == s[..p] + RemoveTokens(digit, s[p..])
  {
    hide TokenLen, RemoveTokens;
    if p == 0 {
      assert s[0..] == s && s[..0] == "";
    } else {
      UpToToken(digit, s, p - 1);
      CharacterStays(digit, s[p - 1..]);
      Tail(s, p - 1, 1);
      Associates(s[..p - 1], [s[p - 1]], RemoveTokens(digit, s[p..]));
      assert s[..p - 1] + [s[p - 1]] == s[..p];
    }
  }

  lemma TokenGoes(digit: Digits, s: string)
    requires TokenLen(digit, s) > 0
    ensures RemoveTokens(digit, s) == "[removed]" + RemoveTokens(digit, s[TokenLen(digit, s)..])
  {
    hide TokenLen;
  }

  /** The leftmost token is replaced, and what follows it is treated the same way. */
  lemma LeftmostGoes(digit: Digits, s: string, p: nat, n: nat)
    requires p <= |s| && forall i :: 0 <= i < p ==> TokenLen(digit, s[i..]) == 0
    requires n == TokenLen(digit, s[p..]) > 0
    ensures RemoveTokens(digit, s) == s[..p] + "[removed]" + RemoveTokens(digit, s[p + n..])
  {
    hide TokenLen, RemoveTokens;
    UpToToken(digit, s, p);
    TokenGoes(digit, s[p..]);
    Tail(s, p, n);
    Associates(s[..p], "[removed]", RemoveTokens(digit, s[p + n..]));
  }

  lemma Tail(s: string, p: nat, n: nat)
    requires p + n <= |s|
    ensures s[p..][n..] == s[p + n..]
  {
  }

  lemma Associates(a: string, b: string, c: string)
    ensures a + (b + c) == a + b + c
  {
  }

  /** The characters that go, and no others: controls but tab and line ends, and invisible or direction marks. */
  lemma ControlsExactly(a: string, c: char, b: string)
    ensures var n := c as int;
            var gone :=
              || (n < 0x20 && n != 0x09 && n != 0x0A && n != 0x0D)
              || n == 0x7F || 0x200B <= n <= 0x200F || 0x202A <= n <= 0x202E || 0x2066 <= n <= 0x2069
              || n == 0xFEFF || 0xE0000 <= n <= 0xE007F;
            RemoveControls(a + [c] + b) == RemoveControls(a) + (if gone then "" else [c]) + RemoveControls(b)
  {
    ControlsOfSum(a + [c], b);
    ControlsOfSum(a, [c]);
  }
}
