/** UTF-8 as section 3 of RFC 3629 defines it, over strings of code points that may hold surrogates. */
module Utf8 {
  import opened Common

  type Byte = b: int | 0 <= b < 256

  /** One element of a Python string. */
  type CodePoint = c: int | 0 <= c < 0x11_0000

  predicate IsSurrogate(c: CodePoint) {
    0xD800 <= c < 0xE000
  }

  predicate Encodable(s: seq<CodePoint>) {
    forall k :: 0 <= k < |s| ==> !IsSurrogate(s[k])
  }

  function EncodeOne(c: CodePoint): (bytes: seq<Byte>)
    ensures 1 <= |bytes| <= 4
  {
    if c < 0x80 then [c]
    else if c < 0x800 then [0xC0 + c / 0x40, 0x80 + c % 0x40]
    else if c < 0x1_0000 then [0xE0 + c / 0x1000, 0x80 + c / 0x40 % 0x40, 0x80 + c % 0x40]
    else [0xF0 + c / 0x4_0000, 0x80 + c / 0x1000 % 0x40, 0x80 + c / 0x40 % 0x40, 0x80 + c % 0x40]
  }

  function Encode(s: seq<CodePoint>): seq<Byte>
    requires Encodable(s)
  {
    if s == [] then [] else EncodeOne(s[0]) + Encode(s[1..])
  }

  predicate Tail(b: Byte) {
    0x80 <= b < 0xC0
  }

  function Join2(a: int, b: int): int {
    (a - 0xC0) * 0x40 + (b - 0x80)
  }

  function Join3(a: int, b: int, c: int): int {
    (a - 0xE0) * 0x1000 + (b - 0x80) * 0x40 + (c - 0x80)
  }

  function Join4(a: int, b: int, c: int, d: int): int {
    (a - 0xF0) * 0x4_0000 + (b - 0x80) * 0x1000 + (c - 0x80) * 0x40 + (d - 0x80)
  }

  /** The well-formed sequence at the front of b, if any: its code point and its length. */
  function DecodeOne(b: seq<Byte>): (r: Option<(CodePoint, nat)>)
    ensures r.Some? ==> 1 <= r.value.1 <= |b|
  {
    if |b| >= 1 && b[0] < 0x80 then Some((b[0], 1))
    else if |b| >= 2 && 0xC2 <= b[0] < 0xE0 && Tail(b[1]) then
      Some((Join2(b[0], b[1]), 2))
    else if
      && |b| >= 3 && 0xE0 <= b[0] < 0xF0 && Tail(b[1]) && Tail(b[2])
      && (b[0] == 0xE0 ==> 0xA0 <= b[1]) && (b[0] == 0xED ==> b[1] < 0xA0)
    then
      Some((Join3(b[0], b[1], b[2]), 3))
    else if
      && |b| >= 4 && 0xF0 <= b[0] < 0xF5 && Tail(b[1]) && Tail(b[2]) && Tail(b[3])
      && (b[0] == 0xF0 ==> 0x90 <= b[1]) && (b[0] == 0xF4 ==> b[1] < 0x90)
    then
      Some((Join4(b[0], b[1], b[2], b[3]), 4))
    else None
  }

  function Decode(b: seq<Byte>): Option<seq<CodePoint>>
  {
    if b == [] then Some([])
    else
      var first := DecodeOne(b);
      if first.None? then None
      else
        var rest := Decode(b[first.value.1..]);
        if rest.None? then None else Some([first.value.0] + rest.value)
  }

  /** Base-64 digits of n, most significant first. */
  lemma Digits(n: int, a: int, b: int, c: int, d: int)
    requires 0 <= b < 0x40 && 0 <= c < 0x40 && 0 <= d < 0x40
    requires n == a * 0x4_0000 + b * 0x1000 + c * 0x40 + d
    ensures n % 0x40 == d && n / 0x40 == a * 0x1000 + b * 0x40 + c
    ensures n / 0x40 % 0x40 == c && n / 0x1000 == a * 0x40 + b
    ensures n / 0x1000 % 0x40 == b && n / 0x4_0000 == a
  {
    assert n / 0x40 == a * 0x1000 + b * 0x40 + c;
    assert n / 0x1000 == a * 0x40 + b;
  }

  lemma DigitsOf(n: int)
    requires 0 <= n
    ensures n == n / 0x4_0000 * 0x4_0000 + n / 0x1000 % 0x40 * 0x1000 + n / 0x40 % 0x40 * 0x40 + n % 0x40
    ensures n / 0x1000 == n / 0x4_0000 * 0x40 + n / 0x1000 % 0x40
    ensures n / 0x40 == n / 0x1000 * 0x40 + n / 0x40 % 0x40
  {
    assert n / 0x1000 == n / 0x40 / 0x40;
    assert n / 0x4_0000 == n / 0x1000 / 0x40;
  }

  lemma DecodeEncodeOne(c: CodePoint, rest: seq<Byte>)
    requires !IsSurrogate(c)
    ensures DecodeOne(EncodeOne(c) + rest) == Some((c, |EncodeOne(c)|))
  {
    DigitsOf(c);
    var e := EncodeOne(c);
    var b := e + rest;
    assert forall k :: 0 <= k < |e| ==> b[k] == e[k];
  }

  lemma EncodeJoin2(a: Byte, b: Byte)
    requires 0xC2 <= a < 0xE0 && Tail(b)
    ensures 0x80 <= Join2(a, b) < 0x800 && EncodeOne(Join2(a, b)) == [a, b]
  {
    Digits(Join2(a, b), 0, 0, a - 0xC0, b - 0x80);
  }

  lemma EncodeJoin3(a: Byte, b: Byte, c: Byte)
    requires 0xE0 <= a < 0xF0 && Tail(b) && Tail(c) && (a == 0xE0 ==> 0xA0 <= b) && (a == 0xED ==> b < 0xA0)
    ensures 0x800 <= Join3(a, b, c) < 0x1_0000 && !IsSurrogate(Join3(a, b, c))
    ensures EncodeOne(Join3(a, b, c)) == [a, b, c]
  {
    Digits(Join3(a, b, c), 0, a - 0xE0, b - 0x80, c - 0x80);
  }

  lemma EncodeJoin4(a: Byte, b: Byte, c: Byte, d: Byte)
    requires 0xF0 <= a < 0xF5 && Tail(b) && Tail(c) && Tail(d)
    requires (a == 0xF0 ==> 0x90 <= b) && (a == 0xF4 ==> b < 0x90)
    ensures 0x1_0000 <= Join4(a, b, c, d) < 0x11_0000 && EncodeOne(Join4(a, b, c, d)) == [a, b, c, d]
  {
    Digits(Join4(a, b, c, d), a - 0xF0, b - 0x80, c - 0x80, d - 0x80);
  }

  lemma EncodeDecodeOne(b: seq<Byte>)
    requires DecodeOne(b).Some?
    ensures !IsSurrogate(DecodeOne(b).value.0)
    ensures EncodeOne(DecodeOne(b).value.0) == b[..DecodeOne(b).value.1]
  {
    if b[0] < 0x80 {
      assert DecodeOne(b) == Some((b[0], 1));
    } else if b[0] < 0xE0 {
      EncodeJoin2(b[0], b[1]);
    } else if b[0] < 0xF0 {
      EncodeJoin3(b[0], b[1], b[2]);
    } else {
      EncodeJoin4(b[0], b[1], b[2], b[3]);
    }
  }

  /** Decoding gives back every string that can be encoded. */
  lemma {:induction false} DecodeEncode(s: seq<CodePoint>)
    requires Encodable(s)
    ensures Decode(Encode(s)) == Some(s)
  {
    if s != [] {
      DecodeEncodeOne(s[0], Encode(s[1..]));
      DecodeEncode(s[1..]);
      assert Encode(s)[|EncodeOne(s[0])|..] == Encode(s[1..]);
      assert [s[0]] + s[1..] == s;
    }
  }

  lemma EncodeCons(b: seq<Byte>, n: nat, c: CodePoint, rest: seq<CodePoint>)
    requires n <= |b| && !IsSurrogate(c) && EncodeOne(c) == b[..n]
    requires Encodable(rest) && Encode(rest) == b[n..]
    ensures Encodable([c] + rest) && Encode([c] + rest) == b
  {
    assert ([c] + rest)[1..] == rest;
    assert b == b[..n] + b[n..];
  }

  lemma DecodeFirst(b: seq<Byte>) returns (c: CodePoint, n: nat, rest: seq<CodePoint>)
    requires b != [] && Decode(b).Some?
    ensures 1 <= n <= |b| && !IsSurrogate(c) && EncodeOne(c) == b[..n]
    ensures Decode(b) == Some([c] + rest) && Decode(b[n..]) == Some(rest)
  {
    EncodeDecodeOne(b);
    c, n := DecodeOne(b).value.0, DecodeOne(b).value.1;
    rest := Decode(b[n..]).value;
  }

  /** Every accepted byte string is the one encoding of what it decodes to. */
  lemma {:induction false} EncodeDecode(b: seq<Byte>)
    requires Decode(b).Some?
    ensures Encodable(Decode(b).value) && Encode(Decode(b).value) == b
    ensures Decode(b).value == [] <==> b == []
  {
    if b != [] {
      var c, n, rest := DecodeFirst(b);
      EncodeDecode(b[n..]);
      EncodeCons(b, n, c, rest);
    }
  }

  // ----- the table -----

  /** The lead byte tells the length, and lead and tail bytes hold the bits of the code point in order. */
  lemma BytesOfCodePoint(c: CodePoint)
    ensures
      var e := EncodeOne(c);
      && |e| == (if c < 0x80 then 1 else if c < 0x800 then 2 else if c < 0x1_0000 then 3 else 4)
      && (forall k :: 1 <= k < |e| ==> 0x80 <= e[k] <= 0xBF)
      && (|e| == 1 ==> e[0] == c)
      && (|e| == 2 ==> 0xC2 <= e[0] <= 0xDF && c == BitsOf(e, 0xC0))
      && (|e| == 3 ==> 0xE0 <= e[0] <= 0xEF && c == BitsOf(e, 0xE0))
      && (|e| == 4 ==> 0xF0 <= e[0] <= 0xF4 && c == BitsOf(e, 0xF0))
  {
    DigitsOf(c);
    var e := EncodeOne(c);
    if |e| == 2 { BitsOfTwo(e, 0xC0); }
    if |e| == 3 { BitsOfThree(e, 0xE0); }
    if |e| == 4 { BitsOfFour(e, 0xF0); }
  }

  /** The bits behind the marks: those of the lead byte, then six of each tail byte. */
  function BitsOf(e: seq<Byte>, lead: int): int
    requires e != []
  {
    var n := |e| - 1;
    if n == 0 then e[0] as int - lead else BitsOf(e[..n], lead) * 64 + (e[n] as int - 128)
  }

  lemma BitsOfTwo(e: seq<Byte>, lead: int)
    requires |e| == 2
    ensures BitsOf(e, lead) == (e[0] as int - lead) * 64 + (e[1] as int - 128)
  {
    assert BitsOf(e[..1], lead) == e[0] as int - lead;
  }

  lemma BitsOfThree(e: seq<Byte>, lead: int)
    requires |e| == 3
    ensures BitsOf(e, lead) == ((e[0] as int - lead) * 64 + (e[1] as int - 128)) * 64 + (e[2] as int - 128)
  {
    BitsOfTwo(e[..2], lead);
  }

  lemma BitsOfFour(e: seq<Byte>, lead: int)
    requires |e| == 4
    ensures BitsOf(e, lead) ==
      (((e[0] as int - lead) * 64 + (e[1] as int - 128)) * 64 + (e[2] as int - 128)) * 64 + (e[3] as int - 128)
  {
    BitsOfThree(e[..3], lead);
  }
}
