/** References to vault secrets: the canonical text form and its parser. */
module SecretRefs {
  import opened Common
  import opened Decimals
  import opened EnvelopeAad
  import opened Text
  import opened Urls
  import opened UuidText

  datatype SecretRef = SecretRef(tenant: Uuid, connection: Uuid, version: int)

  datatype RefError =
    | VersionMustBePositive | TooLong | Empty | LooksLikeToken | InvalidScheme | InvalidAuthority
    | ForbiddenComponents | InvalidPath

  const MAX_LEN: nat := 255
  const SCHEME: string := "secret"
  const AUTHORITY: string := "marketing"
  const TENANTS: string := "/tenants/"
  const CONNECTIONS: string := "/publishing-connections/"
  const VERSIONS: string := "/versions/"

  function RenderPath(tenant: Uuid, connection: Uuid, version: nat): string {
    TENANTS + TextOf(tenant) + CONNECTIONS + TextOf(connection) + VERSIONS + Decimal(version)
  }

  function Render(r: SecretRef): string
    requires 0 <= r.version
  {
    SCHEME + ":" + ("//" + AUTHORITY + RenderPath(r.tenant, r.connection, r.version))
  }

  /** Building a reference checks the version and the length of the text form. */
  function Construct(tenant: Uuid, connection: Uuid, version: int): Result<SecretRef, RefError> {
    var r := SecretRef(tenant, connection, version);
    if version < 1 then Err(VersionMustBePositive)
    else if MAX_LEN < |Render(r)| then Err(TooLong)
    else Ok(r)
  }

  predicate Constructible(r: SecretRef) {
    Construct(r.tenant, r.connection, r.version) == Ok(r)
  }

  // ----- the token check -----

  /** Characters as a case-insensitive pattern compares them with lower-case ASCII. */
  function Fold(c: char): char {
    if c as int == 0x17F then 's' else if c as int == 0x212A then 'k' else LowerChar(c)
  }

  predicate FoldedAt(s: string, i: nat, word: string) {
    i + |word| <= |s| && forall k :: 0 <= k < |word| ==> Fold(s[i + k]) == word[k]
  }

  /** [A-Za-z0-9] without regard to case, which takes in two letters i from outside ASCII. */
  predicate IsKeyChar(c: char) {
    'a' <= Fold(c) <= 'z' || '0' <= c <= '9' || c as int == 0x130 || c as int == 0x131
  }

  predicate IsJwtChar(c: char) {
    IsKeyChar(c) || c == '_' || c == '-'
  }

  function SkipJwt(s: string, i: nat): (j: nat)
    requires i <= |s|
    ensures i <= j <= |s|
    decreases |s| - i
  {
    if i < |s| && IsJwtChar(s[i]) then SkipJwt(s, i + 1) else i
  }

  predicate BearerAt(s: string, i: nat) {
    FoldedAt(s, i, "bearer") && i + 6 < |s| && IsSpace(s[i + 6]) && SkipSpace(s, i + 6) < |s|
  }

  predicate JwtAt(s: string, i: nat) {
    && FoldedAt(s, i, "eyj")
    && var a := SkipJwt(s, i + 3);
      && i + 13 <= a < |s| && s[a] == '.'
      && var b := SkipJwt(s, a + 1);
        a + 1 < b < |s| && s[b] == '.'
  }

  predicate KeyAt(s: string, i: nat) {
    FoldedAt(s, i, "sk-") && i + 19 <= |s| && forall k :: i + 3 <= k < i + 19 ==> IsKeyChar(s[k])
  }

  /** isWord tells the word characters, which decide where a word starts. */
  predicate TokenLike(s: string, isWord: char -> bool) {
    || (exists i :: 0 <= i < |s| && (i == 0 || !isWord(s[i - 1])) && (BearerAt(s, i) || JwtAt(s, i) || KeyAt(s, i)))
    || FoldedAt(s, 0, "bearer ")
  }

  // ----- parsing -----

  predicate IsVersion(s: string) {
    s != "" && s[0] != '0' && AllDigits(s)
  }

  predicate IsRefPath(p: string) {
    && 116 <= |p|
    && p[..9] == TENANTS && IsUuidText(p[9..45])
    && p[45..69] == CONNECTIONS && IsUuidText(p[69..105])
    && p[105..115] == VERSIONS && IsVersion(p[115..])
  }

  function Parse(value: string, isWord: char -> bool): Result<SecretRef, RefError> {
    var raw := Strip(value);
    if raw == "" then Err(Empty)
    else if MAX_LEN < |raw| then Err(TooLong)
    else if TokenLike(raw, isWord) then Err(LooksLikeToken)
    else
      var parts := UrlSplit(raw);
      if parts.scheme != SCHEME then Err(InvalidScheme)
      else if parts.netloc != AUTHORITY then Err(InvalidAuthority)
      else if parts.query != "" || parts.fragment != "" then Err(ForbiddenComponents)
      else if !IsRefPath(parts.path) then Err(InvalidPath)
      else Construct(UuidOf(parts.path[9..45]), UuidOf(parts.path[69..105]), Number(parts.path[115..]))
  }

  // ----- length -----

  lemma RenderLength(r: SecretRef)
    requires 0 <= r.version
    ensures |Render(r)| == 133 + |Decimal(r.version)|
  {
  }

  /** A reference can be built exactly for positive versions of at most 122 digits. */
  lemma ConstructibleIff(tenant: Uuid, connection: Uuid, version: int)
    ensures Construct(tenant, connection, version).Ok? <==> 1 <= version < Pow10(122)
  {
    if 1 <= version {
      RenderLength(SecretRef(tenant, connection, version));
      DigitCount(version, 122);
    }
  }

  // ----- a rendered reference passes every check -----

  lemma PathPieces(tenant: Uuid, connection: Uuid, version: nat)
    ensures
      var p := RenderPath(tenant, connection, version);
      && 116 <= |p|
      && p[..9] == TENANTS && p[9..45] == TextOf(tenant) && p[45..69] == CONNECTIONS
      && p[69..105] == TextOf(connection) && p[105..115] == VERSIONS && p[115..] == Decimal(version)
  {
  }

  const HEAD: string := "secret://marketing/tenants/"

  lemma RenderPieces(r: SecretRef)
    requires 0 <= r.version
    ensures
      var s := Render(r);
      && 133 <= |s|
      && s[..27] == HEAD && s[27..63] == TextOf(r.tenant) && s[63..87] == CONNECTIONS
      && s[87..123] == TextOf(r.connection) && s[123..133] == VERSIONS && s[133..] == Decimal(r.version)
  {
    var s := Render(r);
    var front := SCHEME + ":" + ("//" + AUTHORITY);
    var path := RenderPath(r.tenant, r.connection, r.version);
    assert s == front + path;
    assert |front| == 18 && front + TENANTS == HEAD;
    PathPieces(r.tenant, r.connection, r.version);
    assert forall k :: 0 <= k < |path| ==> s[18 + k] == path[k];
    assert s[..27] == front + path[..9];
    assert s[27..63] == path[9..45];
    assert s[63..87] == path[45..69];
    assert s[87..123] == path[69..105];
    assert s[123..133] == path[105..115];
    assert s[133..] == path[115..];
  }

  /** Neither white space nor a mark of a query, and none of the letters all token patterns need. */
  predicate Harmless(c: char) {
    ' ' < c && !IsSpace(c) && c != '?' && c != '#' && Fold(c) !in "yrk"
  }

  lemma UuidIsHarmless(u: Uuid)
    ensures forall p :: 0 <= p < 36 ==> Harmless(TextOf(u)[p])
  {
    forall p | 0 <= p < 36 ensures Harmless(TextOf(u)[p]) {
      if !IsDash(p) { HexIsHarmless(HexDigit(Nibble(u, DigitAt(p)))); }
    }
  }

  lemma HexIsHarmless(c: char)
    requires IsHex(c)
    ensures Harmless(c)
  {
  }

  /** The fixed pieces: where the telling letters stand in them. */
  lemma FixedPieces()
    ensures forall k :: 0 <= k < 27 ==> Harmless(HEAD[k]) || k == 3 || k == 11 || k == 12
    ensures forall k :: 0 <= k < 24 ==> Harmless(CONNECTIONS[k])
    ensures forall k :: 0 <= k < 10 ==> Harmless(VERSIONS[k]) || k == 3
  {
  }

  /** The only telling letters are the r of secret, the r and k of marketing, and the r of versions. */
  ghost predicate Quiet(s: string) {
    && 133 <= |s|
    && (forall i :: 0 <= i < |s| ==> Harmless(s[i]) || i == 3 || i == 11 || i == 12 || i == 126)
    && s[2] == 'c' && s[3] == 'r' && s[9] == 'm' && s[10] == 'a' && s[11] == 'r' && s[12] == 'k'
    && s[125] == 'e' && s[126] == 'r'
  }

  lemma RenderedIsQuiet(r: SecretRef)
    requires 0 <= r.version
    ensures Quiet(Render(r))
  {
    var s := Render(r);
    RenderPieces(r);
    FixedPieces();
    UuidIsHarmless(r.tenant);
    UuidIsHarmless(r.connection);
    assert forall i :: 0 <= i < 27 ==> s[i] == s[..27][i];
    assert forall i :: 123 <= i < 133 ==> s[i] == s[123..133][i - 123];
    forall i | 0 <= i < |s| ensures Harmless(s[i]) || i == 3 || i == 11 || i == 12 || i == 126 {
      if 27 <= i < 63 { assert s[i] == s[27..63][i - 27]; }
      else if 63 <= i < 87 { assert s[i] == s[63..87][i - 63]; }
      else if 87 <= i < 123 { assert s[i] == s[87..123][i - 87]; }
      else if 133 <= i { assert s[i] == s[133..][i - 133]; HexIsHarmless(s[i]); }
    }
  }

  lemma FoldedChar(s: string, i: nat, word: string, k: nat)
    requires FoldedAt(s, i, word) && k < |word|
    ensures i + k < |s| && Fold(s[i + k]) == word[k]
  {
  }

  /** Neither e-a-r nor y nor s-k occurs, in any case. */
  lemma QuietHasNoPart(s: string, i: nat)
    requires Quiet(s) && i < |s|
    ensures i + 2 < |s| ==> !(Fold(s[i]) == 'e' && Fold(s[i + 1]) == 'a' && Fold(s[i + 2]) == 'r')
    ensures i + 1 < |s| ==> !(Fold(s[i]) == 's' && Fold(s[i + 1]) == 'k')
    ensures Fold(s[i]) != 'y'
  {
  }

  lemma QuietHasNoBearer(s: string, i: nat, word: string)
    requires Quiet(s) && 4 <= |word| && word[..4] == "bear"
    ensures !FoldedAt(s, i, word)
  {
    if FoldedAt(s, i, word) {
      FoldedChar(s, i, word, 1);
      FoldedChar(s, i, word, 2);
      FoldedChar(s, i, word, 3);
      QuietHasNoPart(s, i + 1);
    }
  }

  lemma QuietHasNoJwt(s: string, i: nat)
    requires Quiet(s)
    ensures !FoldedAt(s, i, "eyj")
  {
    if FoldedAt(s, i, "eyj") {
      FoldedChar(s, i, "eyj", 1);
      QuietHasNoPart(s, i + 1);
    }
  }

  lemma QuietHasNoKey(s: string, i: nat)
    requires Quiet(s)
    ensures !FoldedAt(s, i, "sk-")
  {
    if FoldedAt(s, i, "sk-") {
      FoldedChar(s, i, "sk-", 0);
      FoldedChar(s, i, "sk-", 1);
      QuietHasNoPart(s, i);
    }
  }

  /** A rendered reference is clean of white space and query marks, and never looks like a token. */
  lemma RenderedIsPlain(r: SecretRef, isWord: char -> bool)
    requires 0 <= r.version
    ensures Trimmed(Render(r)) && Plain(Render(r)) && !TokenLike(Render(r), isWord)
  {
    var s := Render(r);
    RenderedIsQuiet(r);
    assert Harmless(s[0]) && Harmless(s[|s| - 1]);
    forall i | 0 <= i < |s| ensures !BearerAt(s, i) && !JwtAt(s, i) && !KeyAt(s, i) {
      QuietHasNoBearer(s, i, "bearer");
      QuietHasNoJwt(s, i);
      QuietHasNoKey(s, i);
    }
    QuietHasNoBearer(s, 0, "bearer ");
  }

  // ----- the round trips -----

  lemma RenderPathIsRefPath(tenant: Uuid, connection: Uuid, version: nat)
    requires 1 <= version
    ensures IsRefPath(RenderPath(tenant, connection, version))
    ensures
      var p := RenderPath(tenant, connection, version);
      UuidOf(p[9..45]) == tenant && UuidOf(p[69..105]) == connection && Number(p[115..]) == version
  {
    PathPieces(tenant, connection, version);
    UuidOfText(tenant);
    UuidOfText(connection);
    NumberOfDecimal(version);
  }

  lemma RenderSplits(r: SecretRef)
    requires 0 <= r.version
    ensures UrlSplit(Render(r)) == UrlParts(SCHEME, AUTHORITY, RenderPath(r.tenant, r.connection, r.version), "", "")
  {
    var path := RenderPath(r.tenant, r.connection, r.version);
    RenderedIsPlain(r, c => false);
    assert path[0] == TENANTS[0];
    assert Plain(path) by {
      var s := Render(r);
      assert forall k :: 0 <= k < |path| ==> path[k] == s[18 + k];
    }
    SplitOfParts(SCHEME, AUTHORITY, path);
  }

  /** Parsing the text form of a reference gives back the reference. */
  lemma ParseRender(r: SecretRef, isWord: char -> bool)
    requires Constructible(r)
    ensures Parse(Render(r), isWord) == Ok(r)
  {
    RenderedIsPlain(r, isWord);
    StripTrimmed(Render(r));
    RenderSplits(r);
    RenderPathIsRefPath(r.tenant, r.connection, r.version);
  }

  lemma LowerConcat(a: string, b: string)
    ensures Lower(a + b) == Lower(a) + Lower(b)
  {
  }

  lemma LowerDigits(s: string)
    requires AllDigits(s)
    ensures Lower(s) == s
  {
  }

  lemma FixedPiecesAreLower()
    ensures Lower(TENANTS) == TENANTS && Lower(CONNECTIONS) == CONNECTIONS && Lower(VERSIONS) == VERSIONS
  {
  }

  lemma SixPieces(p: string)
    requires 115 <= |p|
    ensures p == p[..9] + p[9..45] + p[45..69] + p[69..105] + p[105..115] + p[115..]
  {
  }

  /** The path of a reference reads back as itself, in lower case. */
  lemma RefPathRenders(p: string)
    requires IsRefPath(p)
    ensures 1 <= Number(p[115..])
    ensures RenderPath(UuidOf(p[9..45]), UuidOf(p[69..105]), Number(p[115..])) == Lower(p)
  {
    TextOfUuid(p[9..45]);
    TextOfUuid(p[69..105]);
    DecimalOfNumber(p[115..]);
    LowerDigits(p[115..]);
    FixedPiecesAreLower();
    SixPieces(p);
    LowerConcat(p[..9] + p[9..45] + p[45..69] + p[69..105] + p[105..115], p[115..]);
    LowerConcat(p[..9] + p[9..45] + p[45..69] + p[69..105], p[105..115]);
    LowerConcat(p[..9] + p[9..45] + p[45..69], p[69..105]);
    LowerConcat(p[..9] + p[9..45], p[45..69]);
    LowerConcat(p[..9], p[9..45]);
  }

  /** The text passes every check of the parser that comes before the reference is built. */
  predicate WellFormedUrl(raw: string) {
    var parts := UrlSplit(raw);
    parts.scheme == SCHEME && parts.netloc == AUTHORITY && parts.query == "" && parts.fragment == ""
    && IsRefPath(parts.path)
  }

  function RefOf(raw: string): SecretRef
    requires WellFormedUrl(raw)
  {
    var p := UrlSplit(raw).path;
    SecretRef(UuidOf(p[9..45]), UuidOf(p[69..105]), Number(p[115..]))
  }

  lemma LowerJoined(head: string, path: string, tail: string)
    requires Lower(head) == SCHEME && EmptyTail(tail)
    ensures Lower(head + ":" + ("//" + AUTHORITY + (path + tail)))
      == SCHEME + ":" + ("//" + AUTHORITY + Lower(path)) + tail
  {
    var front := "//" + AUTHORITY;
    LowerConcat(head + ":", front + (path + tail));
    LowerConcat(head, ":");
    LowerConcat(front, path + tail);
    LowerConcat(path, tail);
    assert Lower(front) == front;
    assert Lower(tail) == tail && Lower(":") == ":";
  }

  lemma CleanedRenders(raw: string) returns (tail: string)
    requires WellFormedUrl(raw)
    ensures EmptyTail(tail) && 1 <= RefOf(raw).version
    ensures Lower(Cleaned(raw)) == Render(RefOf(raw)) + tail
  {
    var parts := UrlSplit(raw);
    var head;
    head, tail := PartsJoin(raw);
    LowerJoined(head, parts.path, tail);
    RefPathRenders(parts.path);
  }

  lemma WellFormedConstructs(raw: string)
    requires WellFormedUrl(raw) && |Cleaned(raw)| <= MAX_LEN
    ensures Constructible(RefOf(raw))
  {
    var tail := CleanedRenders(raw);
    assert |Lower(Cleaned(raw))| == |Cleaned(raw)|;
  }

  /**
   * The accepted strings: short enough, not like a token, and of the URL shape. Building the
   * reference never fails on them.
   */
  lemma AcceptedIff(value: string, isWord: char -> bool)
    ensures Parse(value, isWord).Ok? <==>
      |Strip(value)| <= 255 && !TokenLike(Strip(value), isWord) && WellFormedUrl(Strip(value))
    ensures Parse(value, isWord).Ok? ==>
      Constructible(Parse(value, isWord).value) && Parse(value, isWord).value == RefOf(Strip(value))
  {
    var raw := Strip(value);
    if |raw| <= 255 && WellFormedUrl(raw) { WellFormedConstructs(raw); }
  }

  /**
   * An accepted string is the text form of its reference, but for white space around and line
   * breaks inside, the case of letters, and an empty query or fragment at the end.
   */
  lemma AcceptedIsCanonical(value: string, isWord: char -> bool) returns (tail: string)
    ensures
      var r := Parse(value, isWord);
      r.Ok? ==>
        && EmptyTail(tail) && 1 <= r.value.version
        && Lower(Cleaned(Strip(value))) == Render(r.value) + tail
  {
    AcceptedIff(value, isWord);
    tail := "";
    if Parse(value, isWord).Ok? { tail := CleanedRenders(Strip(value)); }
  }

  /** Writing an accepted reference in its text form and parsing that changes nothing. */
  lemma ParseRenderParse(value: string, isWord: char -> bool)
    ensures
      var r := Parse(value, isWord);
      r.Ok? ==> 1 <= r.value.version && Parse(Render(r.value), isWord) == r
  {
    AcceptedIff(value, isWord);
    if Parse(value, isWord).Ok? { ParseRender(Parse(value, isWord).value, isWord); }
  }

  /** The text form tells references apart. */
  lemma RenderIsInjective(a: SecretRef, b: SecretRef)
    requires 1 <= a.version && 1 <= b.version && Render(a) == Render(b)
    ensures a == b
  {
    RenderPieces(a);
    RenderPieces(b);
    UuidOfText(a.tenant);
    UuidOfText(b.tenant);
    UuidOfText(a.connection);
    UuidOfText(b.connection);
    NumberOfDecimal(a.version);
    NumberOfDecimal(b.version);
  }

  // ----- tokens are refused -----

  /** A place where the pattern may start. */
  predicate WordStart(before: string, isWord: char -> bool) {
    before == "" || !isWord(before[|before| - 1])
  }

  /** A word of a token pattern, in any of the spellings the pattern takes. */
  predicate Spells(word: string, pattern: string) {
    |word| == |pattern| && FoldedAt(word, 0, pattern)
  }

  lemma TokenWithin(before: string, s: string, isWord: char -> bool)
    requires before <= s && |before| < |s| <= MAX_LEN && Trimmed(s) && WordStart(before, isWord)
    requires BearerAt(s, |before|) || JwtAt(s, |before|) || KeyAt(s, |before|)
    ensures Parse(s, isWord) == Err(LooksLikeToken)
  {
    StripTrimmed(s);
  }

  lemma SpelledWithin(before: string, word: string, after: string, pattern: string)
    requires Spells(word, pattern)
    ensures FoldedAt(before + word + after, |before|, pattern)
  {
    var s := before + word + after;
    assert forall k :: 0 <= k < |word| ==> s[|before| + k] == word[k];
  }

  /** A text with an authorization header's value in it is refused. */
  lemma BearerIsRefused(before: string, word: string, gap: string, token: string, isWord: char -> bool)
    requires WordStart(before, isWord) && Spells(word, "bearer")
    requires gap != "" && forall k :: 0 <= k < |gap| ==> IsSpace(gap[k])
    requires token != "" && !IsSpace(token[0])
    requires |before + word + gap + token| <= MAX_LEN && Trimmed(before + word + gap + token)
    ensures Parse(before + word + gap + token, isWord) == Err(LooksLikeToken)
  {
    var s := before + word + gap + token;
    assert s == before + word + (gap + token);
    SpelledWithin(before, word, gap + token, "bearer");
    var start := |before| + 6;
    assert forall k :: start <= k < start + |gap| ==> s[k] == gap[k - start];
    assert s[start + |gap|] == token[0];
    assert SkipSpace(s, start) == start + |gap|;
    TokenWithin(before, s, isWord);
  }

  lemma {:induction false} SkipJwtStops(s: string, i: nat, j: nat)
    requires i <= j < |s| && (forall k :: i <= k < j ==> IsJwtChar(s[k])) && !IsJwtChar(s[j])
    ensures SkipJwt(s, i) == j
    decreases j - i
  {
    if i < j { SkipJwtStops(s, i + 1, j); }
  }

  lemma JwtAtDots(s: string, i: nat, a: nat, b: nat)
    requires FoldedAt(s, i, "eyj") && i + 13 <= a && a + 1 < b < |s| && s[a] == '.' && s[b] == '.'
    requires forall k :: i + 3 <= k < b && k != a ==> IsJwtChar(s[k])
    ensures JwtAt(s, i)
  {
    SkipJwtStops(s, i + 3, a);
    SkipJwtStops(s, a + 1, b);
  }

  /** A text with a signed token in it, or with its first two dotted parts, is refused. */
  lemma JwtIsRefused(
    before: string, word: string, header: string, body: string, after: string, isWord: char -> bool)
    requires WordStart(before, isWord) && Spells(word, "eyj")
    requires 10 <= |header| && (forall k :: 0 <= k < |header| ==> IsJwtChar(header[k]))
    requires 1 <= |body| && (forall k :: 0 <= k < |body| ==> IsJwtChar(body[k]))
    requires |before + word + header + "." + body + "." + after| <= MAX_LEN
    requires Trimmed(before + word + header + "." + body + "." + after)
    ensures Parse(before + word + header + "." + body + "." + after, isWord) == Err(LooksLikeToken)
  {
    var s := before + word + header + "." + body + "." + after;
    assert s == before + word + (header + "." + body + "." + after);
    SpelledWithin(before, word, header + "." + body + "." + after, "eyj");
    var start := |before| + 3;
    var a := start + |header|;
    var b := a + 1 + |body|;
    assert forall k :: start <= k < a ==> s[k] == header[k - start];
    assert forall k :: a + 1 <= k < b ==> s[k] == body[k - a - 1];
    assert s[a] == '.' && s[b] == '.';
    JwtAtDots(s, |before|, a, b);
    TokenWithin(before, s, isWord);
  }

  /** A text with the first sixteen characters of a service key in it is refused. */
  lemma KeyIsRefused(before: string, word: string, key: string, after: string, isWord: char -> bool)
    requires WordStart(before, isWord) && Spells(word, "sk-")
    requires |key| == 16 && forall k :: 0 <= k < 16 ==> IsKeyChar(key[k])
    requires |before + word + key + after| <= MAX_LEN && Trimmed(before + word + key + after)
    ensures Parse(before + word + key + after, isWord) == Err(LooksLikeToken)
  {
    var s := before + word + key + after;
    assert s == before + word + (key + after);
    SpelledWithin(before, word, key + after, "sk-");
    var start := |before| + 3;
    assert forall k :: start <= k < start + 16 ==> s[k] == key[k - start];
    TokenWithin(before, s, isWord);
  }

  // ----- the token patterns -----

  /** On plain ASCII the patterns see what one expects: letters in either case, digits, and two more signs. */
  lemma PatternCharacters(c: char)
    requires (c as int) < 128
    ensures Fold(c) == LowerChar(c)
    ensures IsKeyChar(c) <==> 'a' <= c <= 'z' || 'A' <= c <= 'Z' || '0' <= c <= '9'
    ensures IsJwtChar(c) <==> 'a' <= c <= 'z' || 'A' <= c <= 'Z' || '0' <= c <= '9' || c == '_' || c == '-'
  {
  }

  /** The word, white space up to e, and something else there. */
  ghost predicate BearerUpTo(s: string, i: nat, e: nat) {
    FoldedAt(s, i, "bearer") && i + 6 < e < |s| && AllSpace(s[i + 6..e]) && !IsSpace(s[e])
  }

  lemma BearerIff(s: string, i: nat)
    ensures BearerAt(s, i) <==> exists e: nat :: BearerUpTo(s, i, e)
  {
    if BearerAt(s, i) {
      var e := SkipSpace(s, i + 6);
      assert BearerUpTo(s, i, e);
    }
    if e: nat :| BearerUpTo(s, i, e) {
      assert forall k :: i + 6 <= k < e ==> s[k] == s[i + 6..e][k - i - 6];
      assert SkipSpace(s, i + 6) == e;
    }
  }

  /** Three letters, ten or more characters up to a full stop at a, and one or more up to another at b. */
  ghost predicate JwtUpTo(s: string, i: nat, a: nat, b: nat) {
    && FoldedAt(s, i, "eyj") && i + 13 <= a && a + 1 < b < |s| && s[a] == '.' && s[b] == '.'
    && forall k :: i + 3 <= k < b && k != a ==> IsJwtChar(s[k])
  }

  lemma {:induction false} SkipJwtSkips(s: string, i: nat)
    requires i <= |s|
    ensures forall k :: i <= k < SkipJwt(s, i) ==> IsJwtChar(s[k])
    decreases |s| - i
  {
    if i < |s| && IsJwtChar(s[i]) { SkipJwtSkips(s, i + 1); }
  }

  lemma JwtIff(s: string, i: nat)
    ensures JwtAt(s, i) <==> exists a: nat, b: nat :: JwtUpTo(s, i, a, b)
  {
    if JwtAt(s, i) {
      var a := SkipJwt(s, i + 3);
      var b := SkipJwt(s, a + 1);
      SkipJwtSkips(s, i + 3);
      SkipJwtSkips(s, a + 1);
      assert JwtUpTo(s, i, a, b);
    }
    if a: nat, b: nat :| JwtUpTo(s, i, a, b) { JwtAtDots(s, i, a, b); }
  }

  ghost predicate AllKeyChars(s: string) {
    forall k :: 0 <= k < |s| ==> IsKeyChar(s[k])
  }

  /** The word, and sixteen letters or digits. */
  ghost predicate KeyFrom(s: string, i: nat) {
    FoldedAt(s, i, "sk-") && i + 19 <= |s| && AllKeyChars(s[i + 3..i + 19])
  }

  lemma KeyIff(s: string, i: nat)
    ensures KeyAt(s, i) <==> KeyFrom(s, i)
  {
    if i + 19 <= |s| {
      var key := s[i + 3..i + 19];
      assert forall k :: i + 3 <= k < i + 19 ==> s[k] == key[k - i - 3];
    }
  }

  ghost predicate TokenFrom(s: string, i: nat) {
    (exists e: nat :: BearerUpTo(s, i, e)) || (exists a: nat, b: nat :: JwtUpTo(s, i, a, b)) || KeyFrom(s, i)
  }

  /**
   * A text is refused as a token exactly when one of the three patterns starts at a word start, or it
   * starts with the word and a blank.
   */
  lemma TokenLikeIff(s: string, isWord: char -> bool)
    ensures TokenLike(s, isWord) <==>
      || (exists i: nat :: i < |s| && (i == 0 || !isWord(s[i - 1])) && TokenFrom(s, i))
      || FoldedAt(s, 0, "bearer ")
  {
    forall i: nat ensures TokenFrom(s, i) <==> BearerAt(s, i) || JwtAt(s, i) || KeyAt(s, i) {
      BearerIff(s, i);
      JwtIff(s, i);
      KeyIff(s, i);
    }
  }

  // ----- the errors -----

  /** Which error a reference gets: the first check that it fails, in this order. */
  lemma ParseErrorsAre(value: string, isWord: char -> bool)
    ensures
      var raw, r := Strip(value), Parse(value, isWord);
      var checked := raw != "" && |raw| <= 255 && !TokenLike(raw, isWord);
      && (r == Err(Empty) <==> raw == "")
      && (r == Err(TooLong) <==> 255 < |raw|)
      && (r == Err(LooksLikeToken) <==> raw != "" && |raw| <= 255 && TokenLike(raw, isWord))
      && (r == Err(InvalidScheme) <==> checked && UrlSplit(raw).scheme != "secret")
      && (r == Err(InvalidAuthority) <==>
            checked && UrlSplit(raw).scheme == "secret" && UrlSplit(raw).netloc != "marketing")
      && (r == Err(ForbiddenComponents) <==>
            && checked && UrlSplit(raw).scheme == "secret" && UrlSplit(raw).netloc == "marketing"
            && (UrlSplit(raw).query != "" || UrlSplit(raw).fragment != ""))
      && (r == Err(InvalidPath) <==>
            && checked && UrlSplit(raw).scheme == "secret" && UrlSplit(raw).netloc == "marketing"
            && UrlSplit(raw).query == "" && UrlSplit(raw).fragment == "" && !IsRefPath(UrlSplit(raw).path))
      && r != Err(VersionMustBePositive)
  {
    AcceptedIff(value, isWord);
    var raw := Strip(value);
    if raw != "" && |raw| <= 255 && WellFormedUrl(raw) { WellFormedConstructs(raw); }
  }
}
