/** UTF-8 as specified by section 3 of RFC 3629, and the hexadecimal spelling of byte strings. */
module Utf8 {
  import opened Wrappers

  type Byte = b: int | 0 <= b < 256

  /** The one byte sequence RFC 3629 assigns to a scalar value. */
  function EncodeChar(c: char): seq<Byte> {
    var n := c as int;
    if n < 0x80 then [n]
    else if n < 0x800 then [0xC0 + n / 64, 0x80 + n % 64]
    else if n < 0x10000 then [0xE0 + n / 4096, 0x80 + n / 64 % 64, 0x80 + n % 64]
    else [0xF0 + n / 262144, 0x80 + n / 4096 % 64, 0x80 + n / 64 % 64, 0x80 + n % 64]
  }

  function Encode(s: string): seq<Byte> {
    if s == "" then [] else EncodeChar(s[0]) + Encode(s[1..])
  }

  predicate Tail(b: int) { 0x80 <= b <= 0xBF }

  // The well-formed byte sequences of each length, and the number each one spells.
  predicate Two(a: int, b: int) { 0xC2 <= a <= 0xDF && Tail(b) }

  predicate Three(a: int, b: int, c: int) {
    0xE0 <= a <= 0xEF && Tail(b) && Tail(c) && (a == 0xE0 ==> b >= 0xA0) && (a == 0xED ==> b <= 0x9F)
  }

  predicate Four(a: int, b: int, c: int, d: int) {
    && 0xF0 <= a <= 0xF4 && Tail(b) && Tail(c) && Tail(d)
    && (a == 0xF0 ==> b >= 0x90) && (a == 0xF4 ==> b <= 0x8F)
  }

  function Number2(a: int, b: int): int { (a - 0xC0) * 64 + (b - 0x80) }

  function Number3(a: int, b: int, c: int): int { (a - 0xE0) * 4096 + (b - 0x80) * 64 + (c - 0x80) }

  function Number4(a: int, b: int, c: int, d: int): int {
    (a - 0xF0) * 262144 + (b - 0x80) * 4096 + (c - 0x80) * 64 + (d - 0x80)
  }

  /**
    * The strict decoder's first step: the scalar value at the front and the number of bytes it
    * takes, or None where the bytes are overlong, a surrogate, too large or truncated.
    */
  function DecodeFirst(s: seq<Byte>): (r: Option<(char, nat)>)
    requires s != []
    ensures r.Some? ==> 1 <= r.value.1 <= |s|
  {
    if s[0] < 0x80 then Some((s[0] as char, 1))
    else if |s| >= 2 && Two(s[0], s[1]) then Some((Number2(s[0], s[1]) as char, 2))
    else if |s| >= 3 && Three(s[0], s[1], s[2]) then Some((Number3(s[0], s[1], s[2]) as char, 3))
    else if |s| >= 4 && Four(s[0], s[1], s[2], s[3]) then
      Some((Number4(s[0], s[1], s[2], s[3]) as char, 4))
    else None
  }

  /** `bytes.decode("utf-8")`, with None for UnicodeDecodeError. */
  function Decode(b: seq<Byte>): Option<string> {
    if b == [] then Some("")
    else
      var (c, n) :- DecodeFirst(b);
      var rest :- Decode(b[n..]);
      Some([c] + rest)
  }

  lemma Digits3(n: int)
    ensures n == n / 4096 * 4096 + n / 64 % 64 * 64 + n % 64
  {
    assert n / 4096 == n / 64 / 64;
  }

  lemma Digits4(n: int)
    ensures n == n / 262144 * 262144 + n / 4096 % 64 * 4096 + n / 64 % 64 * 64 + n % 64
  {
    Digits3(n);
    assert n / 262144 == n / 4096 / 64;
  }

  lemma DecodeFirstInverts(c: char, rest: seq<Byte>)
    ensures DecodeFirst(EncodeChar(c) + rest) == Some((c, |EncodeChar(c)|))
  {
    var n := c as int;
    var s := EncodeChar(c) + rest;
    if 0x80 <= n < 0x800 {
      assert Number2(s[0], s[1]) == n;
    } else if 0x800 <= n < 0x10000 {
      Digits3(n);
      assert Number3(s[0], s[1], s[2]) == n;
    } else if 0x10000 <= n {
      Digits4(n);
      assert Number4(s[0], s[1], s[2], s[3]) == n;
    }
  }

  lemma Digits2Of(a: int, b: int)
    requires Two(a, b)
    ensures var n := Number2(a, b); 0x80 <= n < 0x800 && n / 64 == a - 0xC0 && n % 64 == b - 0x80
  {
  }

  lemma Digits3Of(a: int, b: int, c: int)
    requires Three(a, b, c)
    ensures var n := Number3(a, b, c);
            && 0x800 <= n < 0x10000
            && n / 4096 == a - 0xE0 && n / 64 % 64 == b - 0x80 && n % 64 == c - 0x80
  {
    var n := Number3(a, b, c);
    assert n / 64 == (a - 0xE0) * 64 + (b - 0x80);
  }

  lemma Digits4Of(a: int, b: int, c: int, d: int)
    requires Four(a, b, c, d)
    ensures var n := Number4(a, b, c, d);
            && 0x10000 <= n < 0x110000 && n / 262144 == a - 0xF0
            && n / 4096 % 64 == b - 0x80 && n / 64 % 64 == c - 0x80 && n % 64 == d - 0x80
  {
    var n := Number4(a, b, c, d);
    assert n / 64 == (a - 0xF0) * 4096 + (b - 0x80) * 64 + (c - 0x80);
    assert n / 4096 == (a - 0xF0) * 64 + (b - 0x80);
  }

  lemma DecodeFirstSound(s: seq<Byte>)
    requires s != [] && DecodeFirst(s).Some?
    ensures EncodeChar(DecodeFirst(s).value.0) == s[..DecodeFirst(s).value.1]
  {
    hide Number2, Number3, Number4;
    var k := DecodeFirst(s).value.1;
    if k == 2 {
      Digits2Of(s[0], s[1]);
    } else if k == 3 {
      Digits3Of(s[0], s[1], s[2]);
    } else if k == 4 {
      Digits4Of(s[0], s[1], s[2], s[3]);
    }
  }

  lemma EncodeCons(c: char, t: string)
    ensures Encode([c] + t) == EncodeChar(c) + Encode(t)
  {
    assert ([c] + t)[1..] == t;
  }

  /** A strict decoder undoes the encoder on every string. */
  lemma {:induction false} DecodeEncode(s: string)
    ensures Decode(Encode(s)) == Some(s)
  {
    if s != "" {
      var rest := Encode(s[1..]);
      DecodeFirstInverts(s[0], rest);
      assert Encode(s)[|EncodeChar(s[0])|..] == rest;
      DecodeEncode(s[1..]);
      assert s == [s[0]] + s[1..];
    }
  }

  /** A byte sequence that decodes is the encoding of what it decodes to, so no two decode alike. */
  lemma {:induction false} EncodeDecode(b: seq<Byte>)
    requires Decode(b).Some?
    ensures Encode(Decode(b).value) == b
  {
    hide DecodeFirst, EncodeChar;
    if b != [] {
      var first := DecodeFirst(b);
      var c, n := first.value.0, first.value.1;
      var rest := Decode(b[n..]).value;
      DecodeFirstSound(b);
      EncodeDecode(b[n..]);
      EncodeCons(c, rest);
      assert b == b[..n] + b[n..];
    }
  }

  predicate IsHexDigit(c: char) {
    '0' <= c <= '9' || 'a' <= c <= 'f' || 'A' <= c <= 'F'
  }

  lemma HexDigitsExactly(c: char)
    ensures IsHexDigit(c) <==> c in "0123456789" + "abcdef" + "ABCDEF"
  {
    TenDigits(c);
    SixLetters(c);
  }

  lemma TenDigits(c: char)
    ensures c in "0123456789" <==> '0' <= c <= '9'
  {
  }

  lemma SixLetters(c: char)
    ensures c in "abcdef" <==> 'a' <= c <= 'f'
    ensures c in "ABCDEF" <==> 'A' <= c <= 'F'
  {
  }

  function HexDigit(n: int): char
    requires 0 <= n < 16
  {
    if n < 10 then ('0' as int + n) as char else ('a' as int + n - 10) as char
  }

  function HexValue(c: char): (n: int)
    requires IsHexDigit(c)
    ensures 0 <= n < 16
  {
    if c <= '9' then c as int - '0' as int
    else if c <= 'F' then c as int - 'A' as int + 10
    else c as int - 'a' as int + 10
  }

  /** `bytes.hex()` */
  function ToHex(b: seq<Byte>): (s: string)
    ensures forall c :: c in s ==> IsHexDigit(c) && !('A' <= c <= 'F')
    ensures |s| == 2 * |b|
  {
    if b == [] then "" else [HexDigit(b[0] / 16), HexDigit(b[0] % 16)] + ToHex(b[1..])
  }

  /** `bytes.fromhex(s)` on an even number of hexadecimal digits */
  function FromHex(s: string): seq<Byte>
    requires |s| % 2 == 0 && forall c :: c in s ==> IsHexDigit(c)
  {
    if s == "" then [] else [16 * HexValue(s[0]) + HexValue(s[1])] + FromHex(s[2..])
  }

  lemma {:induction false} FromHexToHex(b: seq<Byte>)
    ensures FromHex(ToHex(b)) == b
  {
    if b != [] {
      FromHexToHex(b[1..]);
      assert ToHex(b)[2..] == ToHex(b[1..]);
    }
  }

  function LowerDigit(c: char): char {
    if 'A' <= c <= 'F' then (c as int + 32) as char else c
  }

  /** Hexadecimal digits in lower case. */
  function Lower(s: string): (r: string)
    ensures |r| == |s| && forall i :: 0 <= i < |s| ==> r[i] == LowerDigit(s[i])
  {
    if s == "" then "" else [LowerDigit(s[0])] + Lower(s[1..])
  }

  lemma DigitOfValue(c: char)
    requires IsHexDigit(c)
    ensures HexDigit(HexValue(c)) == LowerDigit(c)
  {
  }

  /** One byte read and spelled again. */
  lemma OneByteAgain(a: char, b: char)
    requires IsHexDigit(a) && IsHexDigit(b)
    ensures var byte := 16 * HexValue(a) + HexValue(b);
            byte < 256 && HexDigit(byte / 16) == LowerDigit(a) && HexDigit(byte % 16) == LowerDigit(b)
  {
    DigitOfValue(a);
    DigitOfValue(b);
  }

  lemma ToHexCons(byte: Byte, rest: seq<Byte>)
    ensures ToHex([byte] + rest) == [HexDigit(byte / 16), HexDigit(byte % 16)] + ToHex(rest)
  {
    hide HexDigit;
    assert ([byte] + rest)[1..] == rest;
  }

  lemma LowerCons(s: string)
    requires |s| >= 2
    ensures Lower(s) == [LowerDigit(s[0]), LowerDigit(s[1])] + Lower(s[2..])
  {
    hide LowerDigit;
    assert s[1..][1..] == s[2..];
  }

  lemma FromHexCons(s: string)
    requires |s| >= 2 && |s| % 2 == 0 && forall c :: c in s ==> IsHexDigit(c)
    ensures FromHex(s) == [16 * HexValue(s[0]) + HexValue(s[1])] + FromHex(s[2..])
  {
    hide HexValue, IsHexDigit;
  }

  /** Spelling the bytes again gives the same digits in lower case. */
  lemma {:induction false} ToHexFromHex(s: string)
    requires |s| % 2 == 0 && forall c :: c in s ==> IsHexDigit(c)
    ensures ToHex(FromHex(s)) == Lower(s)
  {
    hide HexDigit, HexValue, LowerDigit, IsHexDigit, ToHex, FromHex, Lower;
    if s == "" {
      NothingAgain();
    } else {
      ToHexFromHex(s[2..]);
      OneByteAgain(s[0], s[1]);
      LowerCons(s);
      FromHexCons(s);
      ToHexCons(16 * HexValue(s[0]) + HexValue(s[1]), FromHex(s[2..]));
    }
  }

  lemma NothingAgain()
    ensures ToHex(FromHex("")) == Lower("") == ""
  {
  }

  /** The ranges and bit patterns of section 3 of RFC 3629, most significant bits first. */
  lemma EncodeCharExactly(c: char)
    ensures var n: int, b: seq<int> := c as int, EncodeChar(c);
            && |b| == (if n <= 0x7F then 1 else if n <= 0x7FF then 2 else if n <= 0xFFFF then 3 else 4)
            && (|b| == 1 ==> b[0] == n)
            && (|b| > 1 ==> forall i :: 1 <= i < |b| ==> 0x80 <= b[i] <= 0xBF)
            && (|b| == 2 ==> 0xC2 <= b[0] <= 0xDF && n == (b[0] - 0xC0) * 64 + (b[1] - 0x80))
            && (|b| == 3 ==>
                  0xE0 <= b[0] <= 0xEF && n == (b[0] - 0xE0) * 4096 + (b[1] - 0x80) * 64 + (b[2] - 0x80))
            && (|b| == 4 ==>
                  && 0xF0 <= b[0] <= 0xF4
                  && n == (b[0] - 0xF0) * 262144 + (b[1] - 0x80) * 4096 + (b[2] - 0x80) * 64 + (b[3] - 0x80))
  {
    Digits3(c as int);
    Digits4(c as int);
  }
}
