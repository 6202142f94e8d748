/** The text form of a UUID: 32 hexadecimal digits in groups of 8, 4, 4, 4 and 12. */
module UuidText {
  import opened EnvelopeAad
  import opened Urls
  import opened Utf8

  predicate IsHex(c: char) {
    '0' <= c <= '9' || 'a' <= c <= 'f' || 'A' <= c <= 'F'
  }

  function HexValue(c: char): (v: nat)
    requires IsHex(c)
    ensures v < 16
  {
    if c <= '9' then c as int - '0' as int
    else if c <= 'F' then c as int - 'A' as int + 10
    else c as int - 'a' as int + 10
  }

  function HexDigit(v: nat): (c: char)
    requires v < 16
    ensures IsHex(c) && HexValue(c) == v && LowerChar(c) == c
  {
    if v < 10 then '0' + v as char else 'a' + (v - 10) as char
  }

  lemma HexDigitOfValue(c: char)
    requires IsHex(c)
    ensures HexDigit(HexValue(c)) == LowerChar(c)
  {
  }

  predicate IsDash(p: nat) {
    p == 8 || p == 13 || p == 18 || p == 23
  }

  /** Which digit stands at position p of the text. */
  function DigitAt(p: nat): (k: nat)
    requires p < 36 && !IsDash(p)
    ensures k < 32
  {
    if p < 8 then p else if p < 13 then p - 1 else if p < 18 then p - 2 else if p < 23 then p - 3 else p - 4
  }

  /** The position of digit k in the text. */
  function TextIndex(k: nat): (p: nat)
    requires k < 32
    ensures p < 36 && !IsDash(p) && DigitAt(p) == k
  {
    if k < 8 then k else if k < 12 then k + 1 else if k < 16 then k + 2 else if k < 20 then k + 3 else k + 4
  }

  function Nibble(u: Uuid, k: nat): (v: nat)
    requires k < 32
    ensures v < 16
  {
    if k % 2 == 0 then u[k / 2] / 16 else u[k / 2] % 16
  }

  function UuidChar(u: Uuid, p: nat): char
    requires p < 36
  {
    if IsDash(p) then '-' else HexDigit(Nibble(u, DigitAt(p)))
  }

  /** str(uuid): lower-case digits. */
  function TextOf(u: Uuid): (s: string)
    ensures |s| == 36 && forall p :: 0 <= p < 36 ==> s[p] == UuidChar(u, p)
  {
    seq(36, p requires 0 <= p < 36 => UuidChar(u, p))
  }

  /** The accepted spellings: digits of either case around the four dashes. */
  predicate IsUuidText(s: string) {
    |s| == 36 && forall p :: 0 <= p < 36 ==> if IsDash(p) then s[p] == '-' else IsHex(s[p])
  }

  function ByteOf(s: string, j: nat): Byte
    requires IsUuidText(s) && j < 16
  {
    HexValue(s[TextIndex(2 * j)]) * 16 + HexValue(s[TextIndex(2 * j + 1)])
  }

  function UuidOf(s: string): Uuid
    requires IsUuidText(s)
  {
    seq(16, j requires 0 <= j < 16 => ByteOf(s, j))
  }

  lemma UuidOfText(u: Uuid)
    ensures IsUuidText(TextOf(u)) && UuidOf(TextOf(u)) == u
  {
    var s := TextOf(u);
    forall j | 0 <= j < 16 ensures ByteOf(s, j) == u[j] {
      assert s[TextIndex(2 * j)] == HexDigit(Nibble(u, 2 * j));
      assert s[TextIndex(2 * j + 1)] == HexDigit(Nibble(u, 2 * j + 1));
    }
  }

  lemma NibbleOfText(s: string, k: nat)
    requires IsUuidText(s) && k < 32
    ensures Nibble(UuidOf(s), k) == HexValue(s[TextIndex(k)])
  {
    assert UuidOf(s)[k / 2] == ByteOf(s, k / 2);
    assert k == if k % 2 == 0 then 2 * (k / 2) else 2 * (k / 2) + 1;
  }

  /** Reading and writing a UUID only lowers the case of its digits. */
  lemma TextOfUuid(s: string)
    requires IsUuidText(s)
    ensures TextOf(UuidOf(s)) == Lower(s)
  {
    forall p | 0 <= p < 36 ensures TextOf(UuidOf(s))[p] == Lower(s)[p] {
      if !IsDash(p) {
        NibbleOfText(s, DigitAt(p));
        assert TextIndex(DigitAt(p)) == p;
        HexDigitOfValue(s[p]);
      }
    }
  }

  // ----- the text itself -----

  lemma HexDigits(v: nat)
    requires v < 16
    ensures HexDigit(v) == "0123456789abcdef"[v]
  {
  }

  /** Byte j of the UUID stands in the text as two hexadecimal digits, the bytes in order and four dashes between. */
  lemma TextShowsBytes(u: Uuid, j: nat)
    requires j < 16
    ensures
      var s := TextOf(u);
      var p := 2 * j + (if j < 4 then 0 else if j < 6 then 1 else if j < 8 then 2 else if j < 10 then 3 else 4);
      && s[8] == s[13] == s[18] == s[23] == '-'
      && p + 1 < 36
      && s[p] == "0123456789abcdef"[u[j] / 16] && s[p + 1] == "0123456789abcdef"[u[j] % 16]
  {
    HexDigits(u[j] / 16);
    HexDigits(u[j] % 16);
    assert TextOf(u)[TextIndex(2 * j)] == UuidChar(u, TextIndex(2 * j));
    assert TextOf(u)[TextIndex(2 * j + 1)] == UuidChar(u, TextIndex(2 * j + 1));
  }
}
