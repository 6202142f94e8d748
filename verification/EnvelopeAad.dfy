/** The canonical byte format that binds a sealed secret to its owner, and its parser. */
module EnvelopeAad {
  import opened Common
  import opened Utf8

  type Uuid = u: seq<Byte> | |u| == 16 witness seq(16, i => 0)

  datatype Aad = Aad(tenant: Uuid, connection: Uuid, version: int, purpose: seq<CodePoint>, schema: int)

  datatype AadError =
    | InvalidVersion | InvalidSchemaVersion | InvalidPurpose | UnencodablePurpose | PurposeTooLong
    | OutOfPackRange | InvalidAad

  const MAGIC: seq<Byte> := [0x66, 0x78, 0x73, 0x65, 0x31]
  const HEADER_FIXED: nat := 43
  const TRAILER: nat := 4
  const U32_LIMIT: int := 0x1_0000_0000

  function PackU16(n: int): seq<Byte>
    requires 0 <= n < 0x1_0000
  {
    [n / 0x100, n % 0x100]
  }

  function UnpackU16(b: seq<Byte>): (n: int)
    requires |b| == 2
    ensures 0 <= n < 0x1_0000
  {
    b[0] as int * 0x100 + b[1] as int
  }

  function PackU32(n: int): seq<Byte>
    requires 0 <= n < U32_LIMIT
  {
    [n / 0x100_0000, n / 0x1_0000 % 0x100, n / 0x100 % 0x100, n % 0x100]
  }

  function UnpackU32(b: seq<Byte>): (n: int)
    requires |b| == 4
    ensures 0 <= n < U32_LIMIT
  {
    b[0] as int * 0x100_0000 + b[1] as int * 0x1_0000 + b[2] as int * 0x100 + b[3] as int
  }

  function EncodeAad(x: Aad): Result<seq<Byte>, AadError> {
    if x.version < 1 then Err(InvalidVersion)
    else if x.schema < 1 then Err(InvalidSchemaVersion)
    else if x.purpose == [] then Err(InvalidPurpose)
    else if !Encodable(x.purpose) then Err(UnencodablePurpose)
    else if |Encode(x.purpose)| > 0xFFFF then Err(PurposeTooLong)
    else if x.version >= U32_LIMIT || x.schema >= U32_LIMIT then Err(OutOfPackRange)
    else
      var purpose := Encode(x.purpose);
      Ok(MAGIC + x.tenant + x.connection + PackU32(x.version) + PackU16(|purpose|) + purpose + PackU32(x.schema))
  }

  function DecodeAad(b: seq<Byte>): Result<Aad, AadError> {
    if |b| < HEADER_FIXED + TRAILER then Err(InvalidAad)
    else if b[0..5] != MAGIC then Err(InvalidAad)
    else
      var version := UnpackU32(b[37..41]);
      var end := 43 + UnpackU16(b[41..43]);
      if |b| != end + TRAILER then Err(InvalidAad)
      else
        var purpose := Decode(b[43..end]);
        if purpose.None? then Err(InvalidAad)
        else Ok(Aad(b[5..21], b[21..37], version, purpose.value, UnpackU32(b[end..end + 4])))
  }

  /** Base-256 digits, most significant first. */
  lemma Base256(n: int, a: int, b: int, c: int, d: int)
    requires 0 <= b < 0x100 && 0 <= c < 0x100 && 0 <= d < 0x100
    requires n == a * 0x100_0000 + b * 0x1_0000 + c * 0x100 + d
    ensures n % 0x100 == d && n / 0x100 % 0x100 == c && n / 0x1_0000 % 0x100 == b && n / 0x100_0000 == a
  {
    assert n / 0x100 == a * 0x1_0000 + b * 0x100 + c;
    assert n / 0x1_0000 == a * 0x100 + b;
  }

  lemma Base256Of(n: int)
    requires 0 <= n
    ensures n == n / 0x100_0000 * 0x100_0000 + n / 0x1_0000 % 0x100 * 0x1_0000 + n / 0x100 % 0x100 * 0x100 + n % 0x100
  {
    assert n / 0x1_0000 == n / 0x100 / 0x100;
    assert n / 0x100_0000 == n / 0x1_0000 / 0x100;
  }

  lemma PackUnpackU32(n: int)
    requires 0 <= n < U32_LIMIT
    ensures UnpackU32(PackU32(n)) == n
  {
    Base256Of(n);
  }

  lemma UnpackPackU32(b: seq<Byte>)
    requires |b| == 4
    ensures PackU32(UnpackU32(b)) == b
  {
    Base256(UnpackU32(b), b[0], b[1], b[2], b[3]);
  }

  lemma UnpackPackU16(b: seq<Byte>)
    requires |b| == 2
    ensures PackU16(UnpackU16(b)) == b
  {
  }

  /** The documented layout: every field at its offset, 47 bytes around the purpose. */
  lemma Layout(x: Aad)
    requires EncodeAad(x).Ok?
    ensures
      var b, n := EncodeAad(x).value, |Encode(x.purpose)|;
      && |b| == 47 + n
      && b[0..5] == MAGIC && b[5..21] == x.tenant && b[21..37] == x.connection
      && b[37..41] == PackU32(x.version) && b[41..43] == PackU16(n)
      && b[43..43 + n] == Encode(x.purpose) && b[43 + n..47 + n] == PackU32(x.schema)
  {
  }

  /** Decoding gives back everything that was encoded. */
  lemma DecodeEncodeAad(x: Aad)
    requires EncodeAad(x).Ok?
    ensures DecodeAad(EncodeAad(x).value) == Ok(x)
  {
    Layout(x);
    DecodeEncode(x.purpose);
    PackUnpackU32(x.version);
    PackUnpackU32(x.schema);
  }

  /** Different values have different encodings. */
  lemma EncodingIsInjective(x: Aad, y: Aad)
    requires EncodeAad(x).Ok? && EncodeAad(x) == EncodeAad(y)
    ensures x == y
  {
    DecodeEncodeAad(x);
    DecodeEncodeAad(y);
  }

  /**
   * The parser also accepts zero versions and an empty purpose, which the encoder refuses; on
   * everything else the bytes are the one encoding of the parsed value.
   */
  lemma EncodeDecodeAadIff(b: seq<Byte>)
    requires DecodeAad(b).Ok?
    ensures
      var x := DecodeAad(b).value;
      EncodeAad(x) == Ok(b) <==> 1 <= x.version && 1 <= x.schema && x.purpose != []
  {
    var x := DecodeAad(b).value;
    if 1 <= x.version && 1 <= x.schema && x.purpose != [] {
      var end := DecodedFields(b);
      Reassemble(b, end);
    }
  }

  /** The fields of an accepted byte string encode to its parts. */
  lemma DecodedFields(b: seq<Byte>) returns (end: nat)
    requires DecodeAad(b).Ok?
    ensures 43 <= end <= 43 + 0xFFFF && |b| == end + 4 && b[0..5] == MAGIC
    ensures
      var x := DecodeAad(b).value;
      && x.tenant == b[5..21] && x.connection == b[21..37]
      && 0 <= x.version < U32_LIMIT && PackU32(x.version) == b[37..41]
      && Encodable(x.purpose) && Encode(x.purpose) == b[43..end]
      && PackU16(end - 43) == b[41..43]
      && 0 <= x.schema < U32_LIMIT && PackU32(x.schema) == b[end..end + 4]
  {
    end := 43 + UnpackU16(b[41..43]);
    EncodeDecode(b[43..end]);
    UnpackPackU32(b[37..41]);
    UnpackPackU16(b[41..43]);
    UnpackPackU32(b[end..end + 4]);
  }

  lemma Reassemble(b: seq<Byte>, end: nat)
    requires 43 <= end && |b| == end + 4
    ensures b == b[0..5] + b[5..21] + b[21..37] + b[37..41] + b[41..43] + b[43..end] + b[end..end + 4]
  {
  }

  // ----- the bytes -----

  /** The number that bytes stand for, most significant byte first. */
  function BigEndian(b: seq<Byte>): int {
    if b == [] then 0 else BigEndian(b[..|b| - 1]) * 256 + b[|b| - 1] as int
  }

  lemma BigEndianSnoc(b: seq<Byte>, last: Byte)
    ensures BigEndian(b + [last]) == BigEndian(b) * 256 + last as int
  {
    assert (b + [last])[..|b|] == b;
  }

  lemma BigEndianOfFour(a: Byte, b: Byte, c: Byte, d: Byte)
    ensures BigEndian([a, b, c, d]) == ((a as int * 256 + b as int) * 256 + c as int) * 256 + d as int
    ensures BigEndian([a, b]) == a as int * 256 + b as int
  {
    BigEndianSnoc([], a);
    BigEndianSnoc([a], b);
    BigEndianSnoc([a, b], c);
    BigEndianSnoc([a, b, c], d);
    assert [] + [a] == [a] && [a] + [b] == [a, b] && [a, b] + [c] == [a, b, c] && [a, b, c] + [d] == [a, b, c, d];
  }

  lemma PackIsBigEndian(n: int)
    requires 0 <= n < U32_LIMIT
    ensures BigEndian(PackU32(n)) == n
    ensures n < 0x1_0000 ==> BigEndian(PackU16(n)) == n
  {
    var p := PackU32(n);
    Base256Of(n);
    BigEndianOfFour(p[0], p[1], p[2], p[3]);
    if n < 0x1_0000 { BigEndianOfFour(PackU16(n)[0], PackU16(n)[1], 0, 0); }
  }

  /** The bytes themselves: the magic text, and each number with its most significant byte first. */
  lemma BytesOf(x: Aad)
    requires EncodeAad(x).Ok?
    ensures
      var b, n := EncodeAad(x).value, |Encode(x.purpose)|;
      && |b| == 47 + n && b[0..5] == [0x66, 0x78, 0x73, 0x65, 0x31]
      && BigEndian(b[37..41]) == x.version && BigEndian(b[41..43]) == n && BigEndian(b[43 + n..47 + n]) == x.schema
  {
    Layout(x);
    PackIsBigEndian(x.version);
    PackIsBigEndian(x.schema);
    PackIsBigEndian(|Encode(x.purpose)|);
  }

  /** Which error an owner that cannot be encoded gets: the first of the checks that it fails, in this order. */
  lemma EncodeErrorsAre(x: Aad)
    ensures EncodeAad(x) == Err(InvalidVersion) <==> x.version < 1
    ensures EncodeAad(x) == Err(InvalidSchemaVersion) <==> 1 <= x.version && x.schema < 1
    ensures 1 <= x.version && 1 <= x.schema ==>
      && (EncodeAad(x) == Err(InvalidPurpose) <==> x.purpose == [])
      && (EncodeAad(x) == Err(UnencodablePurpose) <==> !Encodable(x.purpose))
      && (EncodeAad(x) == Err(PurposeTooLong) <==> Encodable(x.purpose) && 65535 < |Encode(x.purpose)|)
      && (EncodeAad(x) == Err(OutOfPackRange) <==>
            && x.purpose != [] && Encodable(x.purpose) && |Encode(x.purpose)| <= 65535
            && (0x1_0000_0000 <= x.version || 0x1_0000_0000 <= x.schema))
    ensures EncodeAad(x) != Err(InvalidAad)
  {
  }
}
