/** Reading an integer the way int() reads a string. */
module Integers {
  import opened Common
  import opened Decimals
  import opened Text

  const MAX_DIGITS: nat := 4300

  /** int() strips only the plain ASCII blanks, and any white space from outside ASCII. */
  predicate IsBlank(c: char) {
    9 <= c as int <= 13 || c == ' ' || (127 <= c as int && IsSpace(c))
  }

  function SkipBlanks(s: string, i: nat): (j: nat)
    requires i <= |s|
    ensures i <= j <= |s|
    ensures j < |s| ==> !IsBlank(s[j])
    decreases |s| - i
  {
    if i < |s| && IsBlank(s[i]) then SkipBlanks(s, i + 1) else i
  }

  function DropBlanks(s: string, lo: nat, hi: nat): (j: nat)
    requires lo <= hi <= |s|
    ensures lo <= j <= hi
  {
    if lo < hi && IsBlank(s[hi - 1]) then DropBlanks(s, lo, hi - 1) else hi
  }

  /** The decimal digits of all scripts; other gives the values of those outside ASCII. */
  function DigitIn(c: char, other: char -> Option<nat>): (d: Option<nat>)
    ensures d.Some? ==> d.value < 10
  {
    if IsDigit(c) then Some(DigitValue(c))
    else if 127 <= c as int && other(c).Some? && other(c).value < 10 then other(c)
    else None
  }

  /** Digits, with single underscores allowed between them. */
  predicate IsNumeral(s: string, other: char -> Option<nat>) {
    && s != "" && s[0] != '_' && s[|s| - 1] != '_'
    && (forall k :: 0 <= k < |s| ==> s[k] == '_' || DigitIn(s[k], other).Some?)
    && (forall k :: 0 < k < |s| ==> !(s[k - 1] == '_' && s[k] == '_'))
  }

  function DigitsIn(s: string): nat {
    if s == "" then 0 else DigitsIn(s[..|s| - 1]) + if s[|s| - 1] == '_' then 0 else 1
  }

  function NumeralValue(s: string, other: char -> Option<nat>): nat {
    if s == "" then 0
    else
      var head := NumeralValue(s[..|s| - 1], other);
      var d := DigitIn(s[|s| - 1], other);
      if d.Some? then head * 10 + d.value else head
  }

  function TrimBlanks(text: string): string {
    var lo := SkipBlanks(text, 0);
    text[lo..DropBlanks(text, lo, |text|)]
  }

  predicate IsSigned(s: string) {
    s != "" && (s[0] == '+' || s[0] == '-')
  }

  function Negate(n: int): int {
    -n
  }

  function ParseTrimmed(s: string, other: char -> Option<nat>): Option<int> {
    var body := if IsSigned(s) then s[1..] else s;
    if !IsNumeral(body, other) || MAX_DIGITS < DigitsIn(body) then None
    else if IsSigned(s) && s[0] == '-' then Some(Negate(NumeralValue(body, other)))
    else Some(NumeralValue(body, other))
  }

  function ParseInt(text: string, other: char -> Option<nat>): Option<int> {
    ParseTrimmed(TrimBlanks(text), other)
  }

  /** str() of an integer; None where the number is too long to be written out. */
  function FormatInt(n: int): Option<string> {
    var digits := Decimal(if n < 0 then -n else n);
    if MAX_DIGITS < |digits| then None
    else Some(if n < 0 then "-" + digits else digits)
  }

  lemma {:induction false} PlainDigits(s: string, other: char -> Option<nat>)
    requires AllDigits(s)
    ensures DigitsIn(s) == |s| && NumeralValue(s, other) == Number(s)
  {
    if s != "" { PlainDigits(s[..|s| - 1], other); }
  }

  lemma NoBlanks(s: string)
    requires s != "" && !IsBlank(s[0]) && !IsBlank(s[|s| - 1])
    ensures TrimBlanks(s) == s
  {
    assert SkipBlanks(s, 0) == 0 && DropBlanks(s, 0, |s|) == |s|;
  }

  lemma DigitsAreNumeral(s: string, other: char -> Option<nat>)
    requires s != "" && AllDigits(s)
    ensures IsNumeral(s, other) && DigitsIn(s) == |s| && NumeralValue(s, other) == Number(s)
  {
    PlainDigits(s, other);
  }

  lemma UnsignedDigits(s: string, other: char -> Option<nat>)
    requires s != "" && AllDigits(s) && |s| <= MAX_DIGITS
    ensures ParseInt(s, other) == Some(Number(s))
  {
    NoBlanks(s);
    DigitsAreNumeral(s, other);
  }

  lemma SignedDigits(sign: char, digits: string, other: char -> Option<nat>)
    requires sign == '+' || sign == '-'
    requires digits != "" && AllDigits(digits) && |digits| <= MAX_DIGITS
    ensures ParseInt([sign] + digits, other) == Some(if sign == '-' then Negate(Number(digits)) else Number(digits))
  {
    var s := [sign] + digits;
    assert s[|s| - 1] == digits[|digits| - 1];
    NoBlanks(s);
    DigitsAreNumeral(digits, other);
    assert s[1..] == digits;
  }

  /** int() reads back what str() wrote. */
  lemma ParseFormatted(n: int, other: char -> Option<nat>)
    requires FormatInt(n).Some?
    ensures ParseInt(FormatInt(n).value, other) == Some(n)
  {
    var magnitude := if n < 0 then -n else n;
    NumberOfDecimal(magnitude);
    if n < 0 {
      SignedDigits('-', Decimal(magnitude), other);
    } else {
      UnsignedDigits(Decimal(magnitude), other);
    }
  }

  lemma {:induction false} LeadingZero(s: string)
    requires AllDigits(s)
    ensures AllDigits("0" + s) && Number("0" + s) == Number(s)
  {
    if s == "" {
      assert "0" + s == "" + "0";
      NumberSnoc("", '0');
    } else {
      var head, last := s[..|s| - 1], s[|s| - 1];
      LeadingZero(head);
      assert "0" + s == ("0" + head) + [last];
      NumberSnoc("0" + head, last);
    }
  }

  /** Every number has other spellings than its own. */
  lemma OtherSpellings(n: nat, other: char -> Option<nat>)
    requires |Decimal(n)| < MAX_DIGITS
    ensures ParseInt("+" + Decimal(n), other) == ParseInt("0" + Decimal(n), other) == Some(n)
  {
    NumberOfDecimal(n);
    SignedDigits('+', Decimal(n), other);
    LeadingZero(Decimal(n));
    UnsignedDigits("0" + Decimal(n), other);
  }

  // ----- which texts are read -----

  /** How many decimal digits the text starts with. */
  function DigitRun(s: string, other: char -> Option<nat>): (n: nat)
    ensures n <= |s| && (forall k :: 0 <= k < n ==> DigitIn(s[k], other).Some?)
    ensures n < |s| ==> DigitIn(s[n], other).None?
  {
    if s != "" && DigitIn(s[0], other).Some? then 1 + DigitRun(s[1..], other) else 0
  }

  /** Groups of one or more digits with one underscore between them. */
  predicate IsGroups(s: string, other: char -> Option<nat>)
    decreases |s|
  {
    var n := DigitRun(s, other);
    1 <= n && (n == |s| || (s[n] == '_' && IsGroups(s[n + 1..], other)))
  }

  lemma UnderscoreIsNoDigit(other: char -> Option<nat>)
    ensures DigitIn('_', other).None?
  {
  }

  lemma {:induction false} GroupsIff(s: string, other: char -> Option<nat>)
    ensures IsNumeral(s, other) <==> IsGroups(s, other)
    decreases |s|
  {
    UnderscoreIsNoDigit(other);
    var n := DigitRun(s, other);
    if 1 <= n < |s| && s[n] == '_' {
      var rest := s[n + 1..];
      GroupsIff(rest, other);
      GroupBehind(s, n, other);
    }
  }

  lemma GroupBehind(s: string, n: nat, other: char -> Option<nat>)
    requires n == DigitRun(s, other) && 1 <= n < |s| && s[n] == '_'
    ensures IsNumeral(s, other) <==> IsNumeral(s[n + 1..], other)
  {
    if IsNumeral(s, other) { LaterGroups(s, n, other); }
    if IsNumeral(s[n + 1..], other) { GroupBefore(s, n, other); }
  }

  lemma LaterGroups(s: string, n: nat, other: char -> Option<nat>)
    requires IsNumeral(s, other) && n < |s| && s[n] == '_'
    ensures IsNumeral(s[n + 1..], other)
  {
    var rest := s[n + 1..];
    assert s[n + 1] != '_';
    assert rest[0] == s[n + 1] && rest[|rest| - 1] == s[|s| - 1];
    forall k | 0 <= k < |rest| ensures rest[k] == '_' || DigitIn(rest[k], other).Some? {
      assert rest[k] == s[n + 1 + k];
    }
    forall k | 0 < k < |rest| ensures !(rest[k - 1] == '_' && rest[k] == '_') {
      assert rest[k] == s[n + 1 + k] && rest[k - 1] == s[n + k];
    }
  }

  lemma GroupBefore(s: string, n: nat, other: char -> Option<nat>)
    requires 1 <= n < |s| && s[n] == '_' && (forall k :: 0 <= k < n ==> DigitIn(s[k], other).Some?)
    requires IsNumeral(s[n + 1..], other)
    ensures IsNumeral(s, other)
  {
    var rest := s[n + 1..];
    UnderscoreIsNoDigit(other);
    assert rest[|rest| - 1] == s[|s| - 1] && rest[0] == s[n + 1];
    forall k | 0 <= k < |s| ensures s[k] == '_' || DigitIn(s[k], other).Some? {
      if n < k { assert s[k] == rest[k - n - 1]; }
    }
    forall k | 0 < k < |s| ensures !(s[k - 1] == '_' && s[k] == '_') {
      if n + 1 < k { assert s[k] == rest[k - n - 1] && s[k - 1] == rest[k - n - 2]; }
    }
  }

  function WithoutUnderscores(s: string): string {
    if s == "" then ""
    else WithoutUnderscores(s[..|s| - 1]) + if s[|s| - 1] == '_' then "" else [s[|s| - 1]]
  }

  lemma ValueSnoc(s: string, c: char, other: char -> Option<nat>)
    ensures NumeralValue(s + [c], other) ==
      if DigitIn(c, other).Some? then NumeralValue(s, other) * 10 + DigitIn(c, other).value else NumeralValue(s, other)
  {
    assert (s + [c])[..|s|] == s;
  }

  /** Underscores do not count, neither for the value nor for the number of digits. */
  lemma {:induction false} UnderscoresDoNotCount(s: string, other: char -> Option<nat>)
    ensures DigitsIn(s) == |WithoutUnderscores(s)|
    ensures NumeralValue(s, other) == NumeralValue(WithoutUnderscores(s), other)
  {
    UnderscoreIsNoDigit(other);
    if s != "" {
      var n := |s| - 1;
      UnderscoresDoNotCount(s[..n], other);
      var head := WithoutUnderscores(s[..n]);
      if s[n] == '_' {
        assert WithoutUnderscores(s) == head;
      } else {
        ValueSnoc(head, s[n], other);
      }
    }
  }

  /** The blanks around are dropped: text[lo..hi] is what is between them. */
  ghost predicate Between(text: string, lo: nat, hi: nat) {
    && lo <= hi <= |text|
    && (forall k :: 0 <= k < lo || hi <= k < |text| ==> IsBlank(text[k]))
    && (lo < hi ==> !IsBlank(text[lo]) && !IsBlank(text[hi - 1]))
  }

  lemma {:induction false} SkipsBlanksOnly(s: string, i: nat)
    requires i <= |s|
    ensures forall k :: i <= k < SkipBlanks(s, i) ==> IsBlank(s[k])
    decreases |s| - i
  {
    if i < |s| && IsBlank(s[i]) { SkipsBlanksOnly(s, i + 1); }
  }

  lemma {:induction false} DropsBlanksOnly(s: string, lo: nat, hi: nat)
    requires lo <= hi <= |s|
    ensures forall k :: DropBlanks(s, lo, hi) <= k < hi ==> IsBlank(s[k])
    ensures lo < DropBlanks(s, lo, hi) ==> !IsBlank(s[DropBlanks(s, lo, hi) - 1])
  {
    if lo < hi && IsBlank(s[hi - 1]) { DropsBlanksOnly(s, lo, hi - 1); }
  }

  /** What is read between the blanks: what follows the sign, if there is one. */
  function Body(s: string): string {
    if s != "" && s[0] in {'+', '-'} then s[1..] else s
  }

  lemma SignedBody(s: string)
    ensures Body(s) == if IsSigned(s) then s[1..] else s
  {
  }

  lemma ReadTrimmedIff(s: string, other: char -> Option<nat>)
    ensures ParseTrimmed(s, other).Some? <==>
      IsGroups(Body(s), other) && |WithoutUnderscores(Body(s))| <= 4300
    ensures ParseTrimmed(s, other).Some? ==>
      var value := NumeralValue(WithoutUnderscores(Body(s)), other);
      s != "" && ParseTrimmed(s, other).value == if s[0] == '-' then Negate(value) else value
  {
    SignedBody(s);
    GroupsIff(Body(s), other);
    UnderscoresDoNotCount(Body(s), other);
  }

  /**
   * A text is read as a number exactly when between the blanks around it there is a sign or none, and
   * then digit groups of at most 4300 digits; the value is that of its digits, negated behind a minus.
   */
  lemma ReadIff(text: string, other: char -> Option<nat>) returns (s: string)
    ensures exists lo: nat, hi: nat :: Between(text, lo, hi) && s == text[lo..hi]
    ensures ParseInt(text, other).Some? <==> IsGroups(Body(s), other) && |WithoutUnderscores(Body(s))| <= 4300
    ensures ParseInt(text, other).Some? ==>
      var value := NumeralValue(WithoutUnderscores(Body(s)), other);
      s != "" && ParseInt(text, other).value == if s[0] == '-' then Negate(value) else value
  {
    s := TrimBlanks(text);
    TrimmedBetween(text);
    ReadTrimmedIff(s, other);
  }

  lemma TrimmedBetween(text: string)
    ensures exists lo: nat, hi: nat :: Between(text, lo, hi) && TrimBlanks(text) == text[lo..hi]
  {
    var lo := SkipBlanks(text, 0);
    var hi := DropBlanks(text, lo, |text|);
    SkipsBlanksOnly(text, 0);
    DropsBlanksOnly(text, lo, |text|);
    assert Between(text, lo, hi);
  }

  /** Of the plain ASCII characters, the blanks are the space and the five from tab to carriage return. */
  lemma AsciiBlanks(c: char)
    requires (c as int) < 127
    ensures IsBlank(c) <==> c == ' ' || c == '\t' || c == '\n' || c as int == 11 || c as int == 12 || c == '\r'
  {
  }
}
