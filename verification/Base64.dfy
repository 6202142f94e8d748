/** Base 64 as section 4 of RFC 4648 defines it, decoded strictly but without a look at the unused bits. */
module Base64 {
  import opened Common
  import opened Utf8

  function Symbol(v: nat): (c: char)
    requires v < 64
    ensures IsSymbol(c) && Value(c) == v
  {
    if v < 26 then 'A' + v as char
    else if v < 52 then 'a' + (v - 26) as char
    else if v < 62 then '0' + (v - 52) as char
    else if v == 62 then '+' else '/'
  }

  predicate IsSymbol(c: char) {
    'A' <= c <= 'Z' || 'a' <= c <= 'z' || '0' <= c <= '9' || c == '+' || c == '/'
  }

  function Value(c: char): (v: nat)
    requires IsSymbol(c)
    ensures v < 64
  {
    if 'A' <= c <= 'Z' then c as int - 'A' as int
    else if 'a' <= c <= 'z' then c as int - 'a' as int + 26
    else if '0' <= c <= '9' then c as int - '0' as int + 52
    else if c == '+' then 62 else 63
  }

  function Quad3(a: Byte, b: Byte, c: Byte): string {
    [Symbol(a / 4), Symbol(a % 4 * 16 + b / 16), Symbol(b % 16 * 4 + c / 64), Symbol(c % 64)]
  }

  function Quad2(a: Byte, b: Byte): string {
    [Symbol(a / 4), Symbol(a % 4 * 16 + b / 16), Symbol(b % 16 * 4), '=']
  }

  function Quad1(a: Byte): string {
    [Symbol(a / 4), Symbol(a % 4 * 16), '=', '=']
  }

  function EncodeBase64(b: seq<Byte>): string {
    if b == [] then ""
    else if |b| == 1 then Quad1(b[0])
    else if |b| == 2 then Quad2(b[0], b[1])
    else Quad3(b[0], b[1], b[2]) + EncodeBase64(b[3..])
  }

  function FirstByte(p: char, q: char): Byte
    requires IsSymbol(p) && IsSymbol(q)
  {
    Value(p) * 4 + Value(q) / 16
  }

  function SecondByte(q: char, r: char): Byte
    requires IsSymbol(q) && IsSymbol(r)
  {
    Value(q) % 16 * 16 + Value(r) / 4
  }

  function ThirdByte(r: char, s: char): Byte
    requires IsSymbol(r) && IsSymbol(s)
  {
    Value(r) % 4 * 64 + Value(s)
  }

  predicate Symbols(s: string, lo: nat, hi: nat) {
    hi <= |s| && forall k :: lo <= k < hi ==> IsSymbol(s[k])
  }

  /**
   * Full quads, then at most one padded quad. The library may let excess padding behind full quads
   * pass; the bytes are then a multiple of three, so this makes no difference to a 32-byte key.
   */
  function DecodeBase64(s: string): Option<seq<Byte>> {
    if s == "" then Some([])
    else if |s| < 4 || !Symbols(s, 0, 2) then None
    else if |s| == 4 && s[2] == '=' && s[3] == '=' then Some([FirstByte(s[0], s[1])])
    else if !IsSymbol(s[2]) then None
    else if |s| == 4 && s[3] == '=' then Some([FirstByte(s[0], s[1]), SecondByte(s[1], s[2])])
    else if !IsSymbol(s[3]) then None
    else
      var rest := DecodeBase64(s[4..]);
      if rest.None? then None
      else Some([FirstByte(s[0], s[1]), SecondByte(s[1], s[2]), ThirdByte(s[2], s[3])] + rest.value)
  }

  // ----- round trips -----

  lemma FirstOf(a: Byte, low: nat)
    requires low < 16
    ensures FirstByte(Symbol(a / 4), Symbol(a % 4 * 16 + low)) == a
  {
    assert (a % 4 * 16 + low) / 16 == a % 4;
  }

  lemma SecondOf(high: nat, b: Byte, low: nat)
    requires high < 4 && low < 4
    ensures SecondByte(Symbol(high * 16 + b / 16), Symbol(b % 16 * 4 + low)) == b
  {
    var top, rest := b / 16, b % 16;
    assert b == top * 16 + rest && top < 16;
    assert (high * 16 + top) % 16 == top;
    assert (rest * 4 + low) / 4 == rest;
  }

  lemma ThirdOf(high: nat, c: Byte)
    requires high < 16
    ensures ThirdByte(Symbol(high * 4 + c / 64), Symbol(c % 64)) == c
  {
    var top, rest := c / 64, c % 64;
    assert c == top * 64 + rest && top < 4;
    assert (high * 4 + top) % 4 == top;
  }

  lemma FullQuadDecodes(p: char, q: char, r: char, s: char, rest: string)
    requires IsSymbol(p) && IsSymbol(q) && IsSymbol(r) && IsSymbol(s) && DecodeBase64(rest).Some?
    ensures DecodeBase64([p, q, r, s] + rest) ==
      Some([FirstByte(p, q), SecondByte(q, r), ThirdByte(r, s)] + DecodeBase64(rest).value)
  {
    assert ([p, q, r, s] + rest)[4..] == rest;
  }

  lemma Quad3Decodes(a: Byte, b: Byte, c: Byte, rest: string)
    requires DecodeBase64(rest).Some?
    ensures DecodeBase64(Quad3(a, b, c) + rest) == Some([a, b, c] + DecodeBase64(rest).value)
  {
    FirstOf(a, b / 16);
    SecondOf(a % 4, b, c / 64);
    ThirdOf(b % 16, c);
    var q := Quad3(a, b, c);
    FullQuadDecodes(q[0], q[1], q[2], q[3], rest);
  }

  lemma Quad2Decodes(a: Byte, b: Byte)
    ensures DecodeBase64(Quad2(a, b)) == Some([a, b])
  {
    FirstOf(a, b / 16);
    SecondOf(a % 4, b, 0);
  }

  lemma Quad1Decodes(a: Byte)
    ensures DecodeBase64(Quad1(a)) == Some([a])
  {
    FirstOf(a, 0);
    assert Symbols(Quad1(a), 0, 2);
  }

  /** Decoding gives back every byte string that was encoded. */
  lemma {:induction false} DecodeEncodeBase64(b: seq<Byte>)
    ensures DecodeBase64(EncodeBase64(b)) == Some(b)
  {
    if |b| == 1 {
      assert b == [b[0]];
      Quad1Decodes(b[0]);
    } else if |b| == 2 {
      assert b == [b[0], b[1]];
      Quad2Decodes(b[0], b[1]);
    } else if 3 <= |b| {
      var rest := b[3..];
      assert b == [b[0], b[1], b[2]] + rest;
      DecodeEncodeBase64(rest);
      Quad3Decodes(b[0], b[1], b[2], EncodeBase64(rest));
    }
  }

  ghost predicate DecodesTo(s: string, length: nat) {
    DecodeBase64(s).Some? && |DecodeBase64(s).value| == length
  }

  predicate PaddedOnce(s: string, quads: nat) {
    |s| == 4 * quads + 4 && s[4 * quads + 3] == '=' && Symbols(s, 0, 4 * quads + 3)
  }

  lemma PaddedOnceStep(s: string, n: nat)
    requires 4 <= |s| && 1 <= n
    ensures PaddedOnce(s, n) <==> Symbols(s, 0, 4) && PaddedOnce(s[4..], n - 1)
  {
    var tail := s[4..];
    if Symbols(s, 0, 4) && PaddedOnce(tail, n - 1) {
      forall k | 4 <= k < 4 * n + 3 ensures IsSymbol(s[k]) {
        assert IsSymbol(tail[k - 4]);
      }
    }
  }

  lemma DecodesStep(s: string, length: nat)
    requires 4 <= |s| && 3 <= length
    ensures DecodesTo(s, length) <==> Symbols(s, 0, 4) && DecodesTo(s[4..], length - 3)
  {
  }

  /** The texts of 3n + 2 bytes: 4n + 3 symbols and one padding character. */
  lemma {:induction false} OnePadIff(s: string, n: nat)
    ensures DecodesTo(s, 3 * n + 2) <==> PaddedOnce(s, n)
  {
    if 4 <= |s| && 1 <= n {
      OnePadIff(s[4..], n - 1);
      PaddedOnceStep(s, n);
      DecodesStep(s, 3 * n + 2);
    }
  }

  // ----- texts that decode alike -----

  lemma ValueTellsSymbols(c: char, d: char)
    requires IsSymbol(c) && IsSymbol(d)
    ensures Value(c) == Value(d) <==> c == d
  {
    var n := Value(c);
  }

  lemma UniqueParts(high: int, low: int, high': int, low': int, size: int)
    requires 0 <= low < size && 0 <= low' < size
    ensures high * size + low == high' * size + low' <==> high == high' && low == low'
  {
    if high < high' {
      assert (high + 1) * size <= high' * size;
    } else if high' < high {
      assert (high' + 1) * size <= high * size;
    }
  }

  lemma HighPart(a: nat, b: nat, x: nat, y: nat)
    requires b < 64 && y < 64
    ensures a * 4 + b / 16 == x * 4 + y / 16 <==> a == x && b / 16 == y / 16
  {
    UniqueParts(a, b / 16, x, y / 16, 4);
  }

  lemma LowPart(a: nat, b: nat, x: nat, y: nat)
    requires b < 64 && y < 64
    ensures a % 16 * 16 + b / 4 == x % 16 * 16 + y / 4 <==> a % 16 == x % 16 && b / 4 == y / 4
  {
    UniqueParts(a % 16, b / 4, x % 16, y / 4, 16);
  }

  lemma FirstByteParts(p: char, q: char, x: char, y: char)
    requires IsSymbol(p) && IsSymbol(q) && IsSymbol(x) && IsSymbol(y)
    ensures FirstByte(p, q) == FirstByte(x, y) <==> Value(p) == Value(x) && Value(q) / 16 == Value(y) / 16
  {
    HighPart(Value(p), Value(q), Value(x), Value(y));
  }

  lemma SecondByteParts(q: char, r: char, y: char, z: char)
    requires IsSymbol(q) && IsSymbol(r) && IsSymbol(y) && IsSymbol(z)
    ensures SecondByte(q, r) == SecondByte(y, z) <==>
      Value(q) % 16 == Value(y) % 16 && Value(r) / 4 == Value(z) / 4
  {
    LowPart(Value(q), Value(r), Value(y), Value(z));
  }

  lemma SameQuotient(b: nat, c: nat)
    ensures b / 16 == c / 16 && b % 16 == c % 16 <==> b == c
  {
    assert b == b / 16 * 16 + b % 16 && c == c / 16 * 16 + c % 16;
  }

  lemma FirstTwoBytes(p: char, q: char, r: char, x: char, y: char, z: char)
    requires IsSymbol(p) && IsSymbol(q) && IsSymbol(r) && IsSymbol(x) && IsSymbol(y) && IsSymbol(z)
    ensures FirstByte(p, q) == FirstByte(x, y) && SecondByte(q, r) == SecondByte(y, z) <==>
      p == x && q == y && Value(r) / 4 == Value(z) / 4
  {
    FirstByteParts(p, q, x, y);
    SecondByteParts(q, r, y, z);
    SameQuotient(Value(q), Value(y));
    ValueTellsSymbols(p, x);
    ValueTellsSymbols(q, y);
  }

  lemma LastTwoSymbols(r: char, s: char, z: char, t: char)
    requires IsSymbol(r) && IsSymbol(s) && IsSymbol(z) && IsSymbol(t) && Value(r) / 4 == Value(z) / 4
    ensures ThirdByte(r, s) == ThirdByte(z, t) <==> r == z && s == t
  {
    UniqueParts(Value(r) % 4, Value(s), Value(z) % 4, Value(t), 64);
    ValueTellsSymbols(r, z);
    ValueTellsSymbols(s, t);
  }

  lemma ThreeBytes(p: char, q: char, r: char, s: char, x: char, y: char, z: char, t: char)
    requires IsSymbol(p) && IsSymbol(q) && IsSymbol(r) && IsSymbol(s)
    requires IsSymbol(x) && IsSymbol(y) && IsSymbol(z) && IsSymbol(t)
    ensures
      (&& FirstByte(p, q) == FirstByte(x, y)
       && SecondByte(q, r) == SecondByte(y, z)
       && ThirdByte(r, s) == ThirdByte(z, t))
      <==> [p, q, r, s] == [x, y, z, t]
  {
    FirstTwoBytes(p, q, r, x, y, z);
    if Value(r) / 4 == Value(z) / 4 { LastTwoSymbols(r, s, z, t); }
  }

  /** The texts agree but for the two unused bits of the last symbol. */
  predicate AgreeInUse(s: string, t: string, n: nat)
    requires PaddedOnce(s, n) && PaddedOnce(t, n)
  {
    s[..4 * n + 2] == t[..4 * n + 2] && Value(s[4 * n + 2]) / 4 == Value(t[4 * n + 2]) / 4
  }

  lemma AgreeStep(s: string, t: string, n: nat)
    requires 1 <= n && PaddedOnce(s, n) && PaddedOnce(t, n) && PaddedOnce(s[4..], n - 1) && PaddedOnce(t[4..], n - 1)
    ensures AgreeInUse(s, t, n) <==> s[..4] == t[..4] && AgreeInUse(s[4..], t[4..], n - 1)
  {
    var m := 4 * n + 2;
    assert s[..m] == s[..4] + s[4..][..m - 4] && t[..m] == t[..4] + t[4..][..m - 4];
  }

  lemma AgreeAtOnce(s: string, t: string)
    requires PaddedOnce(s, 0) && PaddedOnce(t, 0)
    ensures DecodeBase64(s) == DecodeBase64(t) <==> AgreeInUse(s, t, 0)
  {
    FirstTwoBytes(s[0], s[1], s[2], t[0], t[1], t[2]);
    assert s[..2] == [s[0], s[1]] && t[..2] == [t[0], t[1]];
  }

  /** The bytes of a full quad. */
  function Triple(s: string): seq<Byte>
    requires Symbols(s, 0, 4)
  {
    [FirstByte(s[0], s[1]), SecondByte(s[1], s[2]), ThirdByte(s[2], s[3])]
  }

  lemma QuadSplits(s: string)
    requires 4 < |s| && Symbols(s, 0, 4) && DecodeBase64(s[4..]).Some?
    ensures DecodeBase64(s) == Some(Triple(s) + DecodeBase64(s[4..]).value)
  {
  }

  lemma SameTriple(s: string, t: string)
    requires Symbols(s, 0, 4) && Symbols(t, 0, 4)
    ensures Triple(s) == Triple(t) <==> s[..4] == t[..4]
  {
    ThreeBytes(s[0], s[1], s[2], s[3], t[0], t[1], t[2], t[3]);
    assert s[..4] == [s[0], s[1], s[2], s[3]] && t[..4] == [t[0], t[1], t[2], t[3]];
  }

  lemma SameBytesStep(s: string, t: string)
    requires 4 < |s| && 4 < |t| && Symbols(s, 0, 4) && Symbols(t, 0, 4)
    requires DecodeBase64(s[4..]).Some? && DecodeBase64(t[4..]).Some?
    ensures DecodeBase64(s) == DecodeBase64(t) <==>
      s[..4] == t[..4] && DecodeBase64(s[4..]) == DecodeBase64(t[4..])
  {
    QuadSplits(s);
    QuadSplits(t);
    SameTriple(s, t);
    SameParts(Triple(s), Triple(t), DecodeBase64(s[4..]).value, DecodeBase64(t[4..]).value);
  }

  lemma SameParts(a: seq<Byte>, b: seq<Byte>, c: seq<Byte>, d: seq<Byte>)
    requires |a| == |b|
    ensures a + c == b + d <==> a == b && c == d
  {
    if a + c == b + d {
      assert a == (a + c)[..|a|] == (b + d)[..|a|] == b;
      assert c == (a + c)[|a|..] == (b + d)[|a|..] == d;
    }
  }

  /** Two texts of 3n + 2 bytes stand for the same bytes exactly when they agree but for the unused bits. */
  lemma {:induction false} SameBytesIff(s: string, t: string, n: nat)
    requires PaddedOnce(s, n) && PaddedOnce(t, n)
    ensures DecodeBase64(s) == DecodeBase64(t) <==> AgreeInUse(s, t, n)
  {
    if n == 0 {
      AgreeAtOnce(s, t);
    } else {
      PaddedOnceStep(s, n);
      PaddedOnceStep(t, n);
      OnePadIff(s[4..], n - 1);
      OnePadIff(t[4..], n - 1);
      SameBytesStep(s, t);
      AgreeStep(s, t, n);
      SameBytesIff(s[4..], t[4..], n - 1);
    }
  }

  lemma AfterQuad(quad: string, rest: string, k: nat)
    requires |quad| == 4 <= k < 4 + |rest|
    ensures (quad + rest)[k] == rest[k - 4]
  {
  }

  lemma LastPairClearsUnused(a: Byte, b: Byte)
    ensures PaddedOnce(Quad2(a, b), 0) && Value(Quad2(a, b)[2]) % 4 == 0
  {
    assert (b % 16 * 4) % 4 == 0;
  }

  /** The encoder leaves the unused bits at zero. */
  lemma {:induction false} EncoderClearsUnused(b: seq<Byte>, n: nat)
    requires |b| == 3 * n + 2
    ensures PaddedOnce(EncodeBase64(b), n) && Value(EncodeBase64(b)[4 * n + 2]) % 4 == 0
  {
    DecodeEncodeBase64(b);
    OnePadIff(EncodeBase64(b), n);
    if n == 0 {
      LastPairClearsUnused(b[0], b[1]);
    } else {
      EncoderClearsUnused(b[3..], n - 1);
      AfterQuad(Quad3(b[0], b[1], b[2]), EncodeBase64(b[3..]), 4 * n + 2);
    }
  }

  /** The encoding with the unused bits set to j. */
  function TextWith(b: seq<Byte>, n: nat, j: nat): string
    requires |b| == 3 * n + 2 && j < 4
  {
    EncoderClearsUnused(b, n);
    var text := EncodeBase64(b);
    text[4 * n + 2 := Symbol(Value(text[4 * n + 2]) / 4 * 4 + j)]
  }

  lemma TextWithAgrees(b: seq<Byte>, n: nat, j: nat)
    requires |b| == 3 * n + 2 && j < 4
    ensures PaddedOnce(EncodeBase64(b), n) && PaddedOnce(TextWith(b, n, j), n)
    ensures AgreeInUse(TextWith(b, n, j), EncodeBase64(b), n) && Value(TextWith(b, n, j)[4 * n + 2]) % 4 == j
  {
    EncoderClearsUnused(b, n);
    var high := Value(EncodeBase64(b)[4 * n + 2]) / 4;
    assert (high * 4 + j) / 4 == high && (high * 4 + j) % 4 == j;
  }

  lemma AgreeingTextIs(b: seq<Byte>, n: nat, text: string) returns (j: nat)
    requires |b| == 3 * n + 2 && PaddedOnce(text, n) && PaddedOnce(EncodeBase64(b), n)
    requires AgreeInUse(text, EncodeBase64(b), n)
    ensures j < 4 && text == TextWith(b, n, j)
  {
    var last := text[4 * n + 2];
    j := Value(last) % 4;
    TextWithAgrees(b, n, j);
    var other := TextWith(b, n, j);
    ValueTellsSymbols(last, other[4 * n + 2]);
    assert Value(last) == Value(last) / 4 * 4 + j;
    assert text == text[..4 * n + 2] + [last, '='];
    assert other == other[..4 * n + 2] + [other[4 * n + 2], '='];
  }

  /** A byte string of 3n + 2 bytes has exactly four texts, one for each value of the unused bits. */
  lemma FourTexts(b: seq<Byte>, n: nat, text: string)
    requires |b| == 3 * n + 2
    ensures DecodeBase64(text) == Some(b) <==> exists j: nat :: j < 4 && text == TextWith(b, n, j)
    ensures forall i: nat, j: nat :: i < j < 4 ==> TextWith(b, n, i) != TextWith(b, n, j)
  {
    EncoderClearsUnused(b, n);
    DecodeEncodeBase64(b);
    OnePadIff(text, n);
    if DecodeBase64(text) == Some(b) {
      SameBytesIff(text, EncodeBase64(b), n);
      var j := AgreeingTextIs(b, n, text);
    }
    if j: nat :| j < 4 && text == TextWith(b, n, j) {
      TextWithAgrees(b, n, j);
      SameBytesIff(text, EncodeBase64(b), n);
    }
    forall i: nat, j: nat | i < j < 4 ensures TextWith(b, n, i) != TextWith(b, n, j) {
      TextWithAgrees(b, n, i);
      TextWithAgrees(b, n, j);
    }
  }

  // ----- the alphabet -----

  /** The alphabet of table 1 in section 4 of RFC 4648: the letters, the digits, and two more characters. */
  lemma Alphabet(v: nat)
    requires v < 64
    ensures v < 26 ==> Symbol(v) as int == 'A' as int + v
    ensures 26 <= v < 52 ==> Symbol(v) as int == 'a' as int + (v - 26)
    ensures 52 <= v < 62 ==> Symbol(v) as int == '0' as int + (v - 52)
    ensures Symbol(62) == '+' && Symbol(63) == '/'
  {
  }
}
