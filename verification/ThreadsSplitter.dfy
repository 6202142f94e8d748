/** Splitting a long text into posts of bounded length, preferring paragraph, sentence and word ends. */
module ThreadsSplitter {
  import opened Common
  import opened Text

  datatype SplitError = EmptyText

  /** A separator and how many of its characters stay behind the cut. */
  datatype Separator = Separator(text: string, keep: nat)

  const SEPARATORS: seq<Separator> := [Separator("\n\n", 0), Separator(". ", 1), Separator(" ", 0)]

  /** The cut behind the last occurrence of the first separator that occurs late enough, or -1. */
  function PreferredCut(s: string, seps: seq<Separator>, maxLen: nat): int {
    if seps == [] then -1
    else
      var pos := RFind(s, seps[0].text, maxLen + 1);
      if maxLen / 3 <= pos then pos + |seps[0].text| - seps[0].keep
      else PreferredCut(s, seps[1..], maxLen)
  }

  function CutPoint(s: string, maxLen: nat): int {
    var cut := PreferredCut(s, SEPARATORS, maxLen);
    if cut < 1 then maxLen else cut
  }

  lemma PreferredCutStep(s: string, sep: Separator, rest: seq<Separator>, maxLen: nat)
    ensures
      var pos := RFind(s, sep.text, maxLen + 1);
      PreferredCut(s, [sep] + rest, maxLen) ==
        if maxLen / 3 <= pos then pos + |sep.text| - sep.keep else PreferredCut(s, rest, maxLen)
  {
    assert ([sep] + rest)[1..] == rest;
  }

  lemma PreferredCutUnrolled(s: string, maxLen: nat)
    ensures
      var p1, p2, p3 := RFind(s, "\n\n", maxLen + 1), RFind(s, ". ", maxLen + 1), RFind(s, " ", maxLen + 1);
      PreferredCut(s, SEPARATORS, maxLen) ==
        if maxLen / 3 <= p1 then p1 + 2
        else if maxLen / 3 <= p2 then p2 + 1
        else if maxLen / 3 <= p3 then p3 + 1 else -1
  {
    var last := [Separator(" ", 0)];
    var two := [Separator(". ", 1)] + last;
    assert SEPARATORS == [Separator("\n\n", 0)] + two;
    assert last == [Separator(" ", 0)] + [];
    PreferredCutStep(s, Separator("\n\n", 0), two, maxLen);
    PreferredCutStep(s, Separator(". ", 1), last, maxLen);
    PreferredCutStep(s, Separator(" ", 0), [], maxLen);
  }

  lemma NoSpaceFrom(s: string, from: nat, maxLen: nat)
    requires maxLen < |s| && RFind(s, " ", maxLen + 1) < from
    ensures forall p :: from <= p <= maxLen ==> s[p] != ' '
  {
    RFindIsLast(s, " ", maxLen + 1);
    forall p | from <= p <= maxLen ensures s[p] != ' ' {
      assert s[p..p + 1] == [s[p]];
      assert !OccursAt(s, " ", p);
    }
  }

  lemma FoundEnd(s: string, sep: string, end: nat)
    requires 0 <= RFind(s, sep, end) && sep != ""
    ensures s[RFind(s, sep, end) + |sep| - 1] == sep[|sep| - 1]
  {
    var p := RFind(s, sep, end);
    RFindIsLast(s, sep, end);
    assert s[p..p + |sep|][|sep| - 1] == s[p + |sep| - 1];
  }

  ghost predicate GoodCut(s: string, cut: int, maxLen: nat) {
    && maxLen / 3 < cut <= maxLen + 1 && cut < |s|
    && (cut == maxLen + 1 ==> IsSpace(s[cut - 1]))
    && (IsSpace(s[cut - 1]) || IsSpace(s[cut]) ||
        (cut == maxLen && forall p :: maxLen / 3 <= p <= maxLen ==> s[p] != ' '))
  }

  /** A cut at a separator that was found late enough; a kept character is the separator's last one. */
  lemma SeparatorCut(s: string, sep: string, keep: nat, maxLen: nat)
    requires Trimmed(s) && s != "" && maxLen / 3 <= RFind(s, sep, maxLen + 1)
    requires keep <= 1 && keep < |sep| && IsSpace(sep[|sep| - 1])
    ensures GoodCut(s, RFind(s, sep, maxLen + 1) + |sep| - keep, maxLen)
  {
    var last := RFind(s, sep, maxLen + 1) + |sep| - 1;
    FoundEnd(s, sep, maxLen + 1);
    assert IsSpace(s[last]) && last < |s| - 1;
  }

  /** The possible cuts, spelled out: a paragraph end, a sentence end, a word end, or the hard limit. */
  lemma CutCases(s: string, maxLen: nat) returns (cut: nat)
    requires 1 <= maxLen < |s| && Trimmed(s)
    ensures cut == CutPoint(s, maxLen) && GoodCut(s, cut, maxLen)
  {
    cut := CutPoint(s, maxLen);
    PreferredCutUnrolled(s, maxLen);
    if maxLen / 3 <= RFind(s, "\n\n", maxLen + 1) {
      SeparatorCut(s, "\n\n", 0, maxLen);
    } else if maxLen / 3 <= RFind(s, ". ", maxLen + 1) {
      SeparatorCut(s, ". ", 1, maxLen);
    } else if maxLen / 3 <= RFind(s, " ", maxLen + 1) {
      SeparatorCut(s, " ", 0, maxLen);
    } else {
      NoSpaceFrom(s, maxLen / 3, maxLen);
    }
  }

  lemma NoSpaceFirst(s: string)
    requires Trimmed(s) && s != ""
    ensures RFind(s, " ", 1) < 0
  {
    RFindIsLast(s, " ", 1);
    assert s[0..1] == [s[0]] && s[0] != ' ';
  }

  /**
   * A round of the loop leaves less text to split exactly for a limit of at least 1. With a limit of 0
   * it leaves the text as it was, and the loop never ends.
   */
  lemma RoundProgressesIff(s: string, maxLen: nat)
    requires maxLen < |s| && Trimmed(s)
    ensures
      var cut := CutPoint(s, maxLen);
      0 <= cut < |s| && (|Strip(s[cut..])| < |s| <==> 1 <= maxLen) && (maxLen == 0 ==> Strip(s[cut..]) == s)
  {
    if 1 <= maxLen {
      var cut := CutCases(s, maxLen);
      var lo, hi := StripBounds(s[cut..]);
    } else {
      PreferredCutUnrolled(s, 0);
      NoSpaceFirst(s);
      assert s[0..] == s;
      StripTrimmed(s);
    }
  }

  /** The chunks of a trimmed text. */
  function Chunks(s: string, maxLen: nat): seq<string>
    requires 1 <= maxLen && Trimmed(s)
    decreases |s|
  {
    if s == "" then []
    else if |s| <= maxLen then [s]
    else
      assert 1 <= CutPoint(s, maxLen) < |s| by { var cut := CutCases(s, maxLen); }
      var cut := CutPoint(s, maxLen);
      [Strip(s[..cut])] + Chunks(Strip(s[cut..]), maxLen)
  }

  lemma FirstPieceIsNotBlank(s: string, cut: nat)
    requires Trimmed(s) && 1 <= cut < |s|
    ensures Strip(s[..cut]) != "" && Strip(s[cut..]) != ""
  {
    var head, tail := s[..cut], s[cut..];
    var a, b := StripBounds(head);
    var c, d := StripBounds(tail);
    assert head[0] == s[0] && tail[|tail| - 1] == s[|s| - 1];
  }

  /** The chunks so far and those of the rest are the chunks of the whole text. */
  ghost predicate Splitting(text: string, chunks: seq<string>, rest: string, maxLen: nat)
    requires 1 <= maxLen
  {
    Trimmed(text) && Trimmed(rest) && chunks + Chunks(rest, maxLen) == Chunks(text, maxLen)
  }

  lemma SplitOn(text: string, chunks: seq<string>, rest: string, maxLen: nat)
    requires 1 <= maxLen < |rest| && Splitting(text, chunks, rest, maxLen)
    ensures
      var cut := CutPoint(rest, maxLen);
      && 1 <= cut < |rest| && Strip(rest[..cut]) != ""
      && Splitting(text, chunks + [Strip(rest[..cut])], Strip(rest[cut..]), maxLen)
  {
    var cut := CutCases(rest, maxLen);
    FirstPieceIsNotBlank(rest, cut);
    var piece, tail := Strip(rest[..cut]), Strip(rest[cut..]);
    assert Chunks(rest, maxLen) == [piece] + Chunks(tail, maxLen);
    assert chunks + ([piece] + Chunks(tail, maxLen)) == chunks + [piece] + Chunks(tail, maxLen);
  }

  lemma LastChunk(text: string, chunks: seq<string>, rest: string, maxLen: nat)
    requires 1 <= maxLen && |rest| <= maxLen && Splitting(text, chunks, rest, maxLen)
    ensures Chunks(text, maxLen) == if rest == "" then chunks else chunks + [rest]
  {
  }

  method SplitTextChunks(text: string, maxLen: nat) returns (r: Result<seq<string>, SplitError>)
    requires 1 <= maxLen
    ensures r == if Strip(text) == "" then Err(EmptyText) else Ok(Chunks(Strip(text), maxLen))
  {
    var normalized := Strip(text);
    if normalized == "" { return Err(EmptyText); }
    var chunks: seq<string> := [];
    var remaining := normalized;
    while remaining != ""
      invariant Splitting(normalized, chunks, remaining, maxLen)
      decreases |remaining|
    {
      if |remaining| <= maxLen {
        LastChunk(normalized, chunks, remaining, maxLen);
        chunks := chunks + [remaining];
        return Ok(chunks);
      }
      SplitOn(normalized, chunks, remaining, maxLen);
      var cut := FindCut(remaining, maxLen);
      var piece := Strip(remaining[..cut]);
      if piece == "" { assert false; }
      chunks := chunks + [piece];
      remaining := Strip(remaining[cut..]);
    }
    LastChunk(normalized, chunks, "", maxLen);
    r := Ok(chunks);
  }

  /** The separator loop. */
  method FindCut(remaining: string, maxLen: nat) returns (cut: int)
    ensures cut == CutPoint(remaining, maxLen)
  {
    cut := -1;
    for k := 0 to |SEPARATORS|
      invariant cut == -1
      invariant PreferredCut(remaining, SEPARATORS, maxLen) == PreferredCut(remaining, SEPARATORS[k..], maxLen)
    {
      assert SEPARATORS[k..][0] == SEPARATORS[k] && SEPARATORS[k..][1..] == SEPARATORS[k + 1..];
      var pos := RFind(remaining, SEPARATORS[k].text, maxLen + 1);
      if maxLen / 3 <= pos {
        cut := pos + |SEPARATORS[k].text| - SEPARATORS[k].keep;
        break;
      }
    }
    if cut < 1 { cut := maxLen; }
  }

  // ----- what the split guarantees -----

  /** The piece is at the front of s, and only white space lies between it and start. */
  predicate Leads(s: string, piece: string, start: int) {
    && |piece| <= start <= |s| && s[..|piece|] == piece
    && forall k :: |piece| <= k < start ==> IsSpace(s[k])
  }

  /** The text is the chunks in order with nothing but white space between them. */
  ghost predicate JoinedByWhiteSpace(s: string, chunks: seq<string>)
    decreases |chunks|
  {
    if |chunks| <= 1 then chunks == if s == "" then [] else [s]
    else exists start: int :: Leads(s, chunks[0], start) && JoinedByWhiteSpace(s[start..], chunks[1..])
  }

  /** One cut takes a piece and the white space behind it off the front. */
  lemma CutSplits(s: string, cut: nat) returns (end: nat, start: nat)
    requires Trimmed(s) && 1 <= cut < |s|
    ensures 1 <= end <= cut <= start < |s|
    ensures Strip(s[..cut]) == s[..end] && Strip(s[cut..]) == s[start..] && AllSpace(s[end..start])
    ensures IsSpace(s[cut - 1]) ==> end < cut
  {
    var head, tail := s[..cut], s[cut..];
    var a, b := StripBounds(head);
    var c, d := StripBounds(tail);
    assert head[0] == s[0] && tail[|tail| - 1] == s[|s| - 1];
    end, start := b, cut + c;
    assert forall k :: end <= k < cut ==> s[k] == head[k];
    assert forall k :: cut <= k < start ==> s[k] == tail[k - cut];
    assert tail[c..] == s[start..];
  }

  lemma PieceFits(s: string, maxLen: nat)
    requires 1 <= maxLen < |s| && Trimmed(s)
    ensures 1 <= CutPoint(s, maxLen) < |s| && 1 <= |Strip(s[..CutPoint(s, maxLen)])| <= maxLen
  {
    var cut := CutCases(s, maxLen);
    var end, start := CutSplits(s, cut);
  }

  ghost predicate GoodChunks(chunks: seq<string>, maxLen: nat) {
    forall k :: 0 <= k < |chunks| ==> 1 <= |chunks[k]| <= maxLen && Trimmed(chunks[k])
  }

  /** The chunks of a long text: one piece, white space, and the chunks of the rest. */
  lemma ChunksOnce(s: string, maxLen: nat) returns (end: nat, start: nat)
    requires 1 <= maxLen < |s| && Trimmed(s)
    ensures 1 <= end <= maxLen && end <= start < |s| && maxLen / 3 < start
    ensures AllSpace(s[end..start]) && Trimmed(s[..end]) && Trimmed(s[start..])
    ensures Chunks(s, maxLen) == [s[..end]] + Chunks(s[start..], maxLen)
  {
    var cut := CutCases(s, maxLen);
    PieceFits(s, maxLen);
    end, start := CutSplits(s, cut);
  }

  /** Every chunk is non-empty, trimmed and within the limit, and nothing but white space is dropped. */
  lemma {:induction false} ChunksAreFaithful(s: string, maxLen: nat)
    requires 1 <= maxLen && Trimmed(s)
    ensures GoodChunks(Chunks(s, maxLen), maxLen)
    ensures JoinedByWhiteSpace(s, Chunks(s, maxLen))
    decreases |s|
  {
    if maxLen < |s| {
      var end, start := ChunksOnce(s, maxLen);
      ChunksAreFaithful(s[start..], maxLen);
      JoinOneMore(s, end, start, Chunks(s[start..], maxLen));
    }
  }

  lemma JoinOneMore(s: string, end: nat, start: nat, rest: seq<string>)
    requires end <= start < |s| && AllSpace(s[end..start]) && JoinedByWhiteSpace(s[start..], rest)
    ensures JoinedByWhiteSpace(s, [s[..end]] + rest)
  {
    var all := [s[..end]] + rest;
    assert rest != [];
    assert all[1..] == rest;
    forall k | end <= k < start ensures IsSpace(s[k]) {
      assert s[end..start][k - end] == s[k];
    }
    assert Leads(s, all[0], start);
  }

  /** n * m by repeated addition. */
  function Times(n: nat, m: nat): nat {
    if n == 0 then 0 else Times(n - 1, m) + m
  }

  lemma {:induction false} TimesIsProduct(n: nat, m: nat)
    ensures Times(n, m) == n * m
  {
    if n > 0 { TimesIsProduct(n - 1, m); }
  }

  /** A text of this length has room for n cuts of m characters and one more. */
  predicate HasRoom(n: nat, m: nat, length: nat) {
    Times(n, m) < length
  }

  lemma OneMoreRound(n: nat, m: nat, taken: nat, left: nat)
    requires m <= taken && HasRoom(n, m, left)
    ensures HasRoom(n + 1, m, taken + left)
  {
  }

  /** The text is cut into more than k chunks. */
  predicate MoreThan(s: string, maxLen: nat, k: nat) {
    1 <= maxLen && Trimmed(s) && k < |Chunks(s, maxLen)|
  }

  lemma SomeChunk(s: string, maxLen: nat)
    requires 1 <= maxLen && Trimmed(s)
    ensures Chunks(s, maxLen) != [] <==> s != ""
  {
  }

  lemma RoomForNone(s: string, maxLen: nat, m: nat)
    requires MoreThan(s, maxLen, 0)
    ensures HasRoom(0, m, |s|)
  {
    SomeChunk(s, maxLen);
  }

  lemma NextStart(s: string, maxLen: nat, m: nat, k: nat) returns (start: nat)
    requires MoreThan(s, maxLen, k + 1) && m <= maxLen / 3 + 1
    ensures m <= start < |s| && |s[start..]| == |s| - start && MoreThan(s[start..], maxLen, k)
  {
    assert maxLen < |s|;
    var end;
    end, start := ChunksOnce(s, maxLen);
  }

  /** More than k chunks need a text longer than k cuts. */
  lemma {:induction false} ChunksNeedText(s: string, maxLen: nat, m: nat, k: nat)
    requires MoreThan(s, maxLen, k) && m <= maxLen / 3 + 1
    ensures HasRoom(k, m, |s|)
    decreases k
  {
    if k == 0 {
      RoomForNone(s, maxLen, m);
    } else {
      var start := NextStart(s, maxLen, m, k - 1);
      ChunksNeedText(s[start..], maxLen, m, k - 1);
      OneMoreRound(k - 1, m, start, |s[start..]|);
    }
  }

  /** Each cut but the last takes more than a third of the limit, so the number of chunks is bounded. */
  lemma ChunkCountBound(s: string, maxLen: nat)
    requires 1 <= maxLen && Trimmed(s) && s != ""
    ensures Chunks(s, maxLen) != [] && (|Chunks(s, maxLen)| - 1) * (maxLen / 3 + 1) < |s|
  {
    SomeChunk(s, maxLen);
    var rounds, m := |Chunks(s, maxLen)| - 1, maxLen / 3 + 1;
    ChunksNeedText(s, maxLen, m, rounds);
    TimesIsProduct(rounds, m);
    assert rounds * m < |s|;
  }

  /** A word is cut in two only when the window has no space from a third of the limit on. */
  lemma WordCutOnlyWithoutSpace(s: string, maxLen: nat)
    requires 1 <= maxLen < |s| && Trimmed(s)
    ensures
      var cut := CutPoint(s, maxLen);
      && maxLen / 3 < cut < |s|
      && (!IsSpace(s[cut - 1]) && !IsSpace(s[cut]) ==>
            cut == maxLen && forall p :: maxLen / 3 <= p <= maxLen ==> s[p] != ' ')
  {
    var cut := CutCases(s, maxLen);
  }

  // ----- where the cut falls -----

  /** The separator ends by the limit plus one, starts no earlier than a third of it, and occurs no later. */
  ghost predicate LastLate(s: string, sep: string, maxLen: nat, p: nat) {
    && maxLen / 3 <= p && p + |sep| <= maxLen + 1 && OccursAt(s, sep, p)
    && forall q :: p < q && q + |sep| <= maxLen + 1 ==> !OccursAt(s, sep, q)
  }

  ghost predicate NoneLate(s: string, sep: string, maxLen: nat) {
    forall q :: maxLen / 3 <= q && q + |sep| <= maxLen + 1 ==> !OccursAt(s, sep, q)
  }

  lemma LateSeparator(s: string, sep: string, maxLen: nat)
    requires sep != ""
    ensures
      var p := RFind(s, sep, maxLen + 1);
      if maxLen / 3 <= p then LastLate(s, sep, maxLen, p) else NoneLate(s, sep, maxLen)
  {
    RFindIsLast(s, sep, maxLen + 1);
  }

  /**
   * The cut is behind the last late paragraph break; where there is none, behind the full stop of the
   * last late sentence end; where there is none, behind the last late blank; and else at the limit.
   */
  lemma CutPrefers(s: string, maxLen: nat)
    requires 1 <= maxLen
    ensures
      || (exists p: nat :: LastLate(s, "\n\n", maxLen, p) && CutPoint(s, maxLen) == p + 2)
      || (&& NoneLate(s, "\n\n", maxLen)
          && exists p: nat :: LastLate(s, ". ", maxLen, p) && CutPoint(s, maxLen) == p + 1)
      || (&& NoneLate(s, "\n\n", maxLen) && NoneLate(s, ". ", maxLen)
          && exists p: nat :: LastLate(s, " ", maxLen, p) && CutPoint(s, maxLen) == p + 1)
      || (&& NoneLate(s, "\n\n", maxLen) && NoneLate(s, ". ", maxLen) && NoneLate(s, " ", maxLen)
          && CutPoint(s, maxLen) == maxLen)
  {
    PreferredCutUnrolled(s, maxLen);
    LateSeparator(s, "\n\n", maxLen);
    LateSeparator(s, ". ", maxLen);
    LateSeparator(s, " ", maxLen);
  }

  /** The first chunk of a long text stands before the cut, the others are the chunks of what is behind it. */
  lemma ChunksAtCut(s: string, maxLen: nat) returns (end: nat, start: nat)
    requires 1 <= maxLen < |s| && Trimmed(s)
    ensures end <= CutPoint(s, maxLen) <= start < |s| && AllSpace(s[end..start])
    ensures Trimmed(s[..end]) && Trimmed(s[start..])
    ensures Chunks(s, maxLen) == [s[..end]] + Chunks(s[start..], maxLen)
  {
    var cut := CutCases(s, maxLen);
    PieceFits(s, maxLen);
    end, start := CutSplits(s, cut);
  }
}
