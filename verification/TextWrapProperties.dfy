/** What wrapping guarantees: lines that fit, nothing lost, greedy lines, and as few of them as possible. */
module TextWrapProperties {
  import opened Text
  import opened TextWrap

  // ----- every line fits -----

  /** Narrow enough, or a single character, or nothing. */
  ghost predicate AsNarrowAsCan(pieces: seq<string>, fit: Fit) {
    forall k :: 0 <= k < |pieces| ==> fit(pieces[k]) || |pieces[k]| <= 1
  }

  lemma {:induction false} PartsAreNarrow(word: string, i: nat, j: nat, fit: Fit)
    requires i < j <= |word| && (fit(word[i..j]) || j == i + 1)
    ensures AsNarrowAsCan(PartsFrom(word, i, j, fit), fit)
    decreases |word| - j
  {
    if j < |word| {
      PartsAreNarrow(word, if fit(word[i..j + 1]) then i else j, j + 1, fit);
    }
  }

  lemma {:induction false} PiecesAreNarrow(words: seq<string>, fit: Fit)
    ensures AsNarrowAsCan(Pieces(words, fit), fit)
  {
    if words != [] {
      var n := |words| - 1;
      PiecesAreNarrow(words[..n], fit);
      if words[n] != "" { PartsAreNarrow(words[n], 0, 1, fit); }
    }
  }

  lemma {:induction false} LinesAreNarrow(words: seq<string>, i: nat, j: nat, fit: Fit)
    requires i < j <= |words| && AsNarrowAsCan(words, fit) && (fit(JoinWords(words[i..j])) || j == i + 1)
    ensures AsNarrowAsCan(LinesFrom(words, i, j, fit), fit)
    decreases |words| - j
  {
    assert j == i + 1 ==> words[i..j] == [words[i]];
    if j < |words| {
      LinesAreNarrow(words, if fit(JoinWords(words[i..j + 1])) then i else j, j + 1, fit);
    }
  }

  lemma ParagraphIsNarrow(paragraph: string, fit: Fit)
    ensures AsNarrowAsCan(ParagraphLines(paragraph, fit), fit)
  {
    var words := Pieces(SplitWords(paragraph), fit);
    PiecesAreNarrow(SplitWords(paragraph), fit);
    if words != [] { LinesAreNarrow(words, 0, 1, fit); }
  }

  lemma NarrowTogether(before: seq<string>, lines: seq<string>, gap: seq<string>, fit: Fit)
    requires AsNarrowAsCan(before, fit) && AsNarrowAsCan(lines, fit) && (gap == [] || gap == [""])
    ensures AsNarrowAsCan(before + lines + gap, fit)
  {
  }

  lemma {:induction false} StackedIsNarrow(paragraphs: seq<string>, n: nat, count: int, fit: Fit)
    requires n <= |paragraphs|
    ensures AsNarrowAsCan(Stacked(paragraphs, n, count, fit), fit)
  {
    if n > 0 {
      StackedIsNarrow(paragraphs, n - 1, count, fit);
      ParagraphIsNarrow(paragraphs[n - 1], fit);
      NarrowTogether(Stacked(paragraphs, n - 1, count, fit), ParagraphLines(paragraphs[n - 1], fit),
        if n - 1 < count - 1 then [""] else [], fit);
    }
  }

  /** Only an empty line or a single character can be too wide. */
  lemma EveryLineFits(text: string, fit: Fit)
    ensures AsNarrowAsCan(Wrapped(text, fit), fit)
    ensures fit("") && (forall c :: fit([c])) ==>
      forall k :: 0 <= k < |Wrapped(text, fit)| ==> fit(Wrapped(text, fit)[k])
  {
    StackedIsNarrow(Paragraphs(text), |Paragraphs(text)|, |SplitLines(text)|, fit);
    forall k | 0 <= k < |Wrapped(text, fit)| && fit("") && (forall c :: fit([c]))
      ensures fit(Wrapped(text, fit)[k])
    {
      var line := Wrapped(text, fit)[k];
      if |line| == 1 { assert line == [line[0]]; }
    }
  }

  // ----- greedy lines -----

  function FirstWord(line: string): string {
    line[..WordEnd(line, 0)]
  }

  lemma {:induction false} WordEndsAtBlank(s: string, i: nat, j: nat)
    requires i <= j <= |s| && (forall k :: i <= k < j ==> !IsSpace(s[k])) && (j < |s| ==> IsSpace(s[j]))
    ensures WordEnd(s, i) == j
    decreases j - i
  {
    if i < j { WordEndsAtBlank(s, i + 1, j); }
  }

  lemma {:induction false} JoinStartsWith(words: seq<string>)
    requires words != []
    ensures
      var line, n := JoinWords(words), |words[0]|;
      n <= |line| && line[..n] == words[0] && (n < |line| ==> line[n] == ' ')
  {
    if |words| > 1 { JoinStartsWith(words[..|words| - 1]); }
  }

  lemma FirstWordOfJoin(words: seq<string>)
    requires words != [] && AllWords(words)
    ensures FirstWord(JoinWords(words)) == words[0]
  {
    var line, n := JoinWords(words), |words[0]|;
    JoinStartsWith(words);
    assert forall k :: 0 <= k < n ==> line[k] == line[..n][k];
    WordEndsAtBlank(line, 0, n);
  }

  /** No line could have taken the first word of the next one. */
  ghost predicate Greedy(lines: seq<string>, fit: Fit) {
    forall k :: 0 < k < |lines| ==> !fit(lines[k - 1] + " " + FirstWord(lines[k]))
  }

  lemma {:induction false} FirstLine(words: seq<string>, i: nat, j: nat, fit: Fit)
    requires i < j <= |words| && AllWords(words)
    ensures LinesFrom(words, i, j, fit) != [] && FirstWord(LinesFrom(words, i, j, fit)[0]) == words[i]
    decreases |words| - j
  {
    FirstWordOfJoin(words[i..j]);
    if j < |words| { FirstLine(words, if fit(JoinWords(words[i..j + 1])) then i else j, j + 1, fit); }
  }

  lemma GreedyCons(first: string, rest: seq<string>, fit: Fit)
    requires rest != [] && Greedy(rest, fit) && !fit(first + " " + FirstWord(rest[0]))
    ensures Greedy([first] + rest, fit)
  {
    var all := [first] + rest;
    forall k | 0 < k < |all| ensures !fit(all[k - 1] + " " + FirstWord(all[k])) {
      assert all[k] == rest[k - 1];
      if k > 1 { assert all[k - 1] == rest[k - 2]; }
    }
  }

  lemma {:induction false} LinesAreGreedy(words: seq<string>, i: nat, j: nat, fit: Fit)
    requires i < j <= |words| && AllWords(words)
    ensures Greedy(LinesFrom(words, i, j, fit), fit)
    decreases |words| - j
  {
    if j < |words| {
      if fit(JoinWords(words[i..j + 1])) {
        LinesAreGreedy(words, i, j + 1, fit);
      } else {
        LinesAreGreedy(words, j, j + 1, fit);
        FirstLine(words, j, j + 1, fit);
        JoinSnoc(words, i, j);
        GreedyCons(JoinWords(words[i..j]), LinesFrom(words, j, j + 1, fit), fit);
      }
    }
  }

  /** Within a paragraph no line could have taken the next line's first word. */
  lemma ParagraphIsGreedy(paragraph: string, fit: Fit)
    ensures Greedy(ParagraphLines(paragraph, fit), fit)
  {
    var words := Pieces(SplitWords(paragraph), fit);
    SplitGivesWords(paragraph);
    PiecesAreWords(SplitWords(paragraph), fit);
    if words != [] { LinesAreGreedy(words, 0, 1, fit); }
  }

  /** No part could have taken the first character of the next one. */
  ghost predicate GreedyParts(parts: seq<string>, fit: Fit) {
    forall k :: 0 < k < |parts| ==> parts[k] != "" && !fit(parts[k - 1] + [parts[k][0]])
  }

  lemma {:induction false} FirstPart(word: string, i: nat, j: nat, fit: Fit)
    requires i < j <= |word|
    ensures
      var parts := PartsFrom(word, i, j, fit);
      parts != [] && parts[0] != "" && parts[0][0] == word[i]
    decreases |word| - j
  {
    if j < |word| && fit(word[i..j + 1]) { FirstPart(word, i, j + 1, fit); }
  }

  lemma {:induction false} PartsAreGreedy(word: string, i: nat, j: nat, fit: Fit)
    requires i < j <= |word|
    ensures GreedyParts(PartsFrom(word, i, j, fit), fit)
    decreases |word| - j
  {
    if j < |word| {
      if fit(word[i..j + 1]) {
        PartsAreGreedy(word, i, j + 1, fit);
      } else {
        var rest := PartsFrom(word, j, j + 1, fit);
        PartsAreGreedy(word, j, j + 1, fit);
        FirstPart(word, j, j + 1, fit);
        assert word[i..j] + [word[j]] == word[i..j + 1];
        forall k | 0 < k < |rest| + 1
          ensures ([word[i..j]] + rest)[k] != ""
          ensures !fit(([word[i..j]] + rest)[k - 1] + [([word[i..j]] + rest)[k][0]])
        {
          assert ([word[i..j]] + rest)[k] == rest[k - 1];
        }
      }
    }
  }

  /** An over-long word is cut only where its next character would not fit. */
  lemma WordPartsAreGreedy(word: string, fit: Fit)
    ensures GreedyParts(Parts(word, fit), fit)
  {
    if word != "" { PartsAreGreedy(word, 0, 1, fit); }
  }

  // ----- fewest lines -----

  /** A part of a line that fits fits as well. */
  ghost predicate PartsFitToo(words: seq<string>, fit: Fit) {
    forall a, b, c, d :: 0 <= a <= c < d <= b <= |words| && fit(JoinWords(words[a..b])) ==> fit(JoinWords(words[c..d]))
  }

  /**
   * Another way to break the words: line k holds the words from cuts[k] to cuts[k + 1], and fits
   * unless it is one word.
   */
  ghost predicate Breaks(words: seq<string>, cuts: seq<int>, fit: Fit) {
    && cuts != [] && cuts[0] == 0 && cuts[|cuts| - 1] == |words|
    && (forall k :: 0 <= k < |cuts| ==> 0 <= cuts[k] <= |words|)
    && (forall k :: 0 <= k < |cuts| - 1 ==> LineFits(words, cuts[k], cuts[k + 1], fit))
  }

  ghost predicate LineFits(words: seq<string>, a: int, b: int, fit: Fit) {
    0 <= a < b <= |words| && (b == a + 1 || fit(JoinWords(words[a..b])))
  }

  lemma {:induction false} GreedyStaysAhead(words: seq<string>, i: nat, j: nat, fit: Fit, cuts: seq<int>, k: nat)
    requires PartsFitToo(words, fit) && Breaks(words, cuts, fit)
    requires i < j <= |words| && k < |cuts| && cuts[k] <= i
    ensures |LinesFrom(words, i, j, fit)| <= |cuts| - 1 - k
    decreases |words| - j
  {
    assert LineFits(words, cuts[k], cuts[k + 1], fit);
    if j < |words| {
      if fit(JoinWords(words[i..j + 1])) {
        GreedyStaysAhead(words, i, j + 1, fit, cuts, k);
      } else {
        GreedyStaysAhead(words, j, j + 1, fit, cuts, k + 1);
      }
    }
  }

  /** When parts of a fitting line fit, no way to break the words into fitting lines takes fewer lines. */
  lemma FewestLines(words: seq<string>, fit: Fit, cuts: seq<int>)
    requires PartsFitToo(words, fit) && Breaks(words, cuts, fit)
    ensures |Lines(words, fit)| <= |cuts| - 1
  {
    if words != [] { GreedyStaysAhead(words, 0, 1, fit, cuts, 0); }
  }

  // ----- nothing is lost -----

  /** The characters that are not white space, in order. */
  function Solid(s: string): string {
    if s == "" then ""
    else
      var n := |s| - 1;
      Solid(s[..n]) + if IsSpace(s[n]) then "" else [s[n]]
  }

  function Concat(pieces: seq<string>): string {
    if pieces == [] then "" else Concat(pieces[..|pieces| - 1]) + pieces[|pieces| - 1]
  }

  lemma {:induction false} SolidConcat(a: string, b: string)
    ensures Solid(a + b) == Solid(a) + Solid(b)
  {
    if b == "" {
      assert a + b == a;
    } else {
      var n := |b| - 1;
      assert (a + b)[..|a| + n] == a + b[..n];
      SolidConcat(a, b[..n]);
    }
  }

  lemma {:induction false} SolidSpace(s: string)
    requires AllSpace(s)
    ensures Solid(s) == ""
  {
    if s != "" { SolidSpace(s[..|s| - 1]); }
  }

  lemma {:induction false} SolidWord(s: string)
    requires forall k :: 0 <= k < |s| ==> !IsSpace(s[k])
    ensures Solid(s) == s
  {
    if s != "" {
      SolidWord(s[..|s| - 1]);
      assert s == s[..|s| - 1] + [s[|s| - 1]];
    }
  }

  lemma {:induction false} ConcatConcat(a: seq<string>, b: seq<string>)
    ensures Concat(a + b) == Concat(a) + Concat(b)
  {
    if b == [] {
      assert a + b == a;
    } else {
      var n := |b| - 1;
      assert (a + b)[..|a| + n] == a + b[..n];
      ConcatConcat(a, b[..n]);
    }
  }

  lemma ConcatCons(first: string, rest: seq<string>)
    ensures Concat([first] + rest) == first + Concat(rest)
  {
    ConcatConcat([first], rest);
    ConcatOne(first);
  }

  lemma OnePartMore(word: string, i: nat, j: nat, rest: seq<string>)
    requires i < j <= |word| && Concat(rest) == word[j..]
    ensures Concat([word[i..j]] + rest) == word[i..]
  {
    ConcatCons(word[i..j], rest);
    assert word[i..j] + word[j..] == word[i..];
  }

  lemma {:induction false} PartsKeepWord(word: string, i: nat, j: nat, fit: Fit)
    requires i < j <= |word|
    ensures Concat(PartsFrom(word, i, j, fit)) == word[i..]
    decreases |word| - j
  {
    if j == |word| {
      ConcatOne(word[i..j]);
    } else if fit(word[i..j + 1]) {
      PartsKeepWord(word, i, j + 1, fit);
    } else {
      PartsKeepWord(word, j, j + 1, fit);
      OnePartMore(word, i, j, PartsFrom(word, j, j + 1, fit));
    }
  }

  lemma {:induction false} PiecesKeepWords(words: seq<string>, fit: Fit)
    ensures Concat(Pieces(words, fit)) == Concat(words)
  {
    if words != [] {
      var n := |words| - 1;
      var last := if fit(words[n]) then [words[n]] else Parts(words[n], fit);
      PiecesKeepWords(words[..n], fit);
      ConcatConcat(Pieces(words[..n], fit), last);
      if fit(words[n]) {
        assert [words[n]][..0] == [];
      } else if words[n] != "" {
        PartsKeepWord(words[n], 0, 1, fit);
      }
    }
  }

  lemma SolidAroundBlank(a: string, b: string)
    ensures Solid(a + " " + b) == Solid(a) + Solid(b)
  {
    SolidConcat(a + " ", b);
    SolidConcat(a, " ");
    SolidSpace(" ");
  }

  lemma {:induction false} JoinKeepsWords(words: seq<string>)
    requires words != [] && AllWords(words)
    ensures Solid(JoinWords(words)) == Concat(words)
  {
    var n := |words| - 1;
    SolidWord(words[n]);
    if n == 0 {
      ConcatOne(words[0]);
      assert words == [words[0]];
    } else {
      JoinKeepsWords(words[..n]);
      SolidAroundBlank(JoinWords(words[..n]), words[n]);
    }
  }

  lemma ConcatOne(piece: string)
    ensures Concat([piece]) == piece
  {
    assert [piece][..0] == [];
  }

  lemma OneLineMore(words: seq<string>, i: nat, j: nat, rest: seq<string>)
    requires i < j <= |words| && AllWords(words) && Solid(Concat(rest)) == Concat(words[j..])
    ensures Solid(Concat([JoinWords(words[i..j])] + rest)) == Concat(words[i..])
  {
    var line := JoinWords(words[i..j]);
    JoinKeepsWords(words[i..j]);
    ConcatCons(line, rest);
    SolidConcat(line, Concat(rest));
    assert words[i..] == words[i..j] + words[j..];
    ConcatConcat(words[i..j], words[j..]);
  }

  lemma {:induction false} LinesKeepWords(words: seq<string>, i: nat, j: nat, fit: Fit)
    requires i < j <= |words| && AllWords(words)
    ensures Solid(Concat(LinesFrom(words, i, j, fit))) == Concat(words[i..])
    decreases |words| - j
  {
    if j == |words| {
      OneLineMore(words, i, j, []);
      assert [JoinWords(words[i..j])] + [] == [JoinWords(words[i..j])];
    } else if fit(JoinWords(words[i..j + 1])) {
      LinesKeepWords(words, i, j + 1, fit);
    } else {
      LinesKeepWords(words, j, j + 1, fit);
      OneLineMore(words, i, j, LinesFrom(words, j, j + 1, fit));
    }
  }

  lemma SolidOfThree(a: string, b: string, c: string)
    ensures Solid(a + b + c) == Solid(a) + Solid(b) + Solid(c)
  {
    SolidConcat(a + b, c);
    SolidConcat(a, b);
  }

  lemma InThree(s: string, lo: nat, hi: nat)
    requires lo <= hi <= |s|
    ensures s == s[..lo] + s[lo..hi] + s[hi..]
  {
  }

  lemma SolidInThree(s: string, lo: nat, hi: nat)
    requires lo <= hi <= |s|
    ensures Solid(s) == Solid(s[..lo]) + Solid(s[lo..hi]) + Solid(s[hi..])
  {
    InThree(s, lo, hi);
    SolidOfThree(s[..lo], s[lo..hi], s[hi..]);
  }

  ghost predicate Leaves(s: string, solid: string) {
    Solid(s) == solid
  }

  /** White space and a word at the front leave the word and what the rest leaves. */
  lemma FrontLeaves(space: string, word: string, rest: string, solid: string)
    requires AllSpace(space) && (forall k :: 0 <= k < |word| ==> !IsSpace(word[k])) && Leaves(rest, solid)
    ensures Leaves(space + word + rest, word + solid)
  {
    SolidOfThree(space, word, rest);
    SolidSpace(space);
    SolidWord(word);
    assert "" + word == word;
  }

  /** The words, run together, are the text without its white space. */
  ghost predicate Spells(words: seq<string>, s: string) {
    Leaves(s, Concat(words))
  }

  lemma OneWordMore(s: string, lo: nat, hi: nat, rest: seq<string>)
    requires lo <= hi <= |s| && AllSpace(s[..lo])
    requires (forall k :: 0 <= k < hi - lo ==> !IsSpace(s[lo..hi][k])) && Spells(rest, s[hi..])
    ensures Spells([s[lo..hi]] + rest, s)
  {
    InThree(s, lo, hi);
    FrontLeaves(s[..lo], s[lo..hi], s[hi..], Concat(rest));
    ConcatCons(s[lo..hi], rest);
  }

  lemma {:induction false} SplitKeepsWords(s: string)
    ensures Spells(SplitWords(s), s)
    decreases |s|
  {
    var lo := SkipSpace(s, 0);
    if lo == |s| {
      SolidSpace(s);
    } else {
      var hi := WordEnd(s, lo);
      SplitKeepsWords(s[hi..]);
      OneWordMore(s, lo, hi, SplitWords(s[hi..]));
    }
  }

  /** The two lists of lines have the same characters but for white space. */
  ghost predicate SameSolid(lines: seq<string>, source: seq<string>) {
    Solid(Concat(lines)) == Solid(Concat(source))
  }

  lemma ParagraphKeepsWords(paragraph: string, fit: Fit)
    ensures Solid(Concat(ParagraphLines(paragraph, fit))) == Solid(paragraph)
  {
    var source := SplitWords(paragraph);
    var words := Pieces(source, fit);
    SplitGivesWords(paragraph);
    PiecesAreWords(source, fit);
    SplitKeepsWords(paragraph);
    PiecesKeepWords(source, fit);
    if words != [] {
      LinesKeepWords(words, 0, 1, fit);
      assert words[0..] == words;
    }
  }

  /** The lines have the characters of the text but for white space. */
  ghost predicate SameText(lines: seq<string>, s: string) {
    Solid(Concat(lines)) == Solid(s)
  }

  lemma OneParagraphMore(s: string, end: nat, next: nat, rest: seq<string>)
    requires end <= next <= |s| && AllSpace(s[end..next]) && SameText(rest, s[next..])
    ensures SameText([s[..end]] + rest, s)
  {
    SolidInThree(s, end, next);
    SolidSpace(s[end..next]);
    ConcatCons(s[..end], rest);
    SolidConcat(s[..end], Concat(rest));
  }

  lemma LastParagraph(s: string, end: nat)
    requires end <= |s| && AllSpace(s[end..])
    ensures SameText([s[..end]], s)
  {
    SolidInTwo(s, end);
    SolidSpace(s[end..]);
    ConcatOne(s[..end]);
  }

  lemma SolidInTwo(s: string, k: nat)
    requires k <= |s|
    ensures Solid(s) == Solid(s[..k]) + Solid(s[k..])
  {
    assert s == s[..k] + s[k..];
    SolidConcat(s[..k], s[k..]);
  }

  lemma {:induction false} SplitLinesKeep(s: string)
    ensures SameText(SplitLines(s), s)
    decreases |s|
  {
    if s != "" {
      var end := LineEnd(s, 0);
      var next := if end + 1 < |s| && s[end..end + 2] == "\r\n" then end + 2 else end + 1;
      if next < |s| {
        SplitLinesKeep(s[next..]);
        BreakIsSpace(s, end, next);
        OneParagraphMore(s, end, next, SplitLines(s[next..]));
      } else {
        BreakIsSpace(s, end, |s|);
        assert s[end..|s|] == s[end..];
        LastParagraph(s, end);
      }
    }
  }

  lemma BreakIsSpace(s: string, end: nat, next: nat)
    requires end <= next <= |s| && next <= end + 2
    requires end < next ==> IsLineBreak(s[end])
    requires end + 1 < next ==> s[end..end + 2] == "\r\n"
    ensures AllSpace(s[end..next])
  {
    if end + 1 < next {
      assert s[end + 1] == s[end..end + 2][1];
    }
  }

  lemma GapAddsNothing(before: seq<string>, lines: seq<string>, gap: seq<string>)
    requires gap == [] || gap == [""]
    ensures Solid(Concat(before + lines + gap)) == Solid(Concat(before)) + Solid(Concat(lines))
  {
    ConcatConcat(before + lines, gap);
    ConcatConcat(before, lines);
    ConcatOne("");
    assert Concat(gap) == "";
    assert Concat(before) + Concat(lines) + "" == Concat(before) + Concat(lines);
    SolidConcat(Concat(before), Concat(lines));
  }

  lemma ParagraphSameSolid(paragraph: string, fit: Fit)
    ensures SameSolid(ParagraphLines(paragraph, fit), [paragraph])
  {
    ParagraphKeepsWords(paragraph, fit);
    ConcatOne(paragraph);
  }

  lemma OneMoreStacked(
    before: seq<string>, lines: seq<string>, gap: seq<string>, source: seq<string>, paragraph: string)
    requires SameSolid(before, source) && SameSolid(lines, [paragraph]) && (gap == [] || gap == [""])
    ensures SameSolid(before + lines + gap, source + [paragraph])
  {
    GapAddsNothing(before, lines, gap);
    ConcatConcat(source, [paragraph]);
    SolidConcat(Concat(source), Concat([paragraph]));
  }

  lemma {:induction false} StackedKeeps(paragraphs: seq<string>, n: nat, count: int, fit: Fit)
    requires n <= |paragraphs|
    ensures SameSolid(Stacked(paragraphs, n, count, fit), paragraphs[..n])
  {
    if n > 0 {
      var last := paragraphs[n - 1];
      StackedKeeps(paragraphs, n - 1, count, fit);
      ParagraphSameSolid(last, fit);
      OneMoreStacked(Stacked(paragraphs, n - 1, count, fit), ParagraphLines(last, fit),
        if n - 1 < count - 1 then [""] else [], paragraphs[..n - 1], last);
      assert paragraphs[..n] == paragraphs[..n - 1] + [last];
    }
  }

  /** All characters of the text but white space are in the lines, in the same order. */
  lemma WrappingKeepsCharacters(text: string, fit: Fit)
    ensures Solid(Concat(Wrapped(text, fit))) == Solid(text)
  {
    var paragraphs := Paragraphs(text);
    StackedKeeps(paragraphs, |paragraphs|, |SplitLines(text)|, fit);
    assert paragraphs[..|paragraphs|] == paragraphs;
    if SplitLines(text) == [] {
      ConcatOne(text);
    } else {
      SplitLinesKeep(text);
    }
    ConcatOne("");
  }

  // ----- words, lines and heights, stated directly -----

  /** The word stands in s from position p on, with white space or an end of s on both sides. */
  ghost predicate StandsAt(s: string, p: nat, word: string) {
    && IsWord(word) && p + |word| <= |s| && s[p..p + |word|] == word
    && (p == 0 || IsSpace(s[p - 1])) && (p + |word| == |s| || IsSpace(s[p + |word|]))
  }

  /** Each word stands at its place, the places ascend, and what is in no word is white space. */
  ghost predicate WordsAt(s: string, words: seq<string>, places: seq<nat>) {
    && |places| == |words|
    && (forall k :: 0 <= k < |words| ==> StandsAt(s, places[k], words[k]))
    && (forall j, k :: 0 <= j < k < |words| ==> places[j] + |words[j]| < places[k])
    && (forall p :: 0 <= p < |s| && !IsSpace(s[p]) ==> InSomeWord(words, places, p))
  }

  ghost predicate InSomeWord(words: seq<string>, places: seq<nat>, p: int)
    requires |places| == |words|
  {
    exists k :: 0 <= k < |words| && places[k] <= p < places[k] + |words[k]|
  }

  lemma StandsOnSolid(s: string, p: nat, word: string)
    requires StandsAt(s, p, word)
    ensures p < |s| && !IsSpace(s[p])
  {
    assert s[p..p + |word|][0] == s[p];
  }

  lemma ShiftedStand(s: string, hi: nat, p: nat, word: string)
    requires hi <= |s| && StandsAt(s[hi..], p, word) && (hi < |s| ==> IsSpace(s[hi]))
    ensures 0 < p && StandsAt(s, p + hi, word)
  {
    var tail := s[hi..];
    StandsOnSolid(tail, p, word);
    assert tail[p] == s[p + hi];
    assert s[p + hi..p + hi + |word|] == tail[p..p + |word|];
    assert tail[p - 1] == s[p + hi - 1];
    if p + |word| < |tail| { assert tail[p + |word|] == s[p + hi + |word|]; }
  }

  /** The places of the words behind hi, with one at lo before them. */
  function Shifted(lo: nat, hi: nat, rest: seq<nat>): (places: seq<nat>)
    ensures |places| == |rest| + 1 && places[0] == lo
    ensures forall k :: 0 < k < |places| ==> places[k] == rest[k - 1] + hi
  {
    [lo] + seq(|rest|, k requires 0 <= k < |rest| => rest[k] + hi)
  }

  ghost predicate WordBetween(s: string, lo: nat, hi: nat) {
    && lo < hi <= |s| && (forall k :: 0 <= k < lo ==> IsSpace(s[k])) && IsWord(s[lo..hi])
    && (hi < |s| ==> IsSpace(s[hi]))
  }

  lemma HeadStands(s: string, lo: nat, hi: nat)
    requires WordBetween(s, lo, hi)
    ensures StandsAt(s, lo, s[lo..hi])
  {
  }

  lemma ShiftedStands(s: string, lo: nat, hi: nat, words: seq<string>, rest: seq<nat>, k: nat)
    requires WordBetween(s, lo, hi) && WordsAt(s[hi..], words, rest) && k < |words| + 1
    ensures
      var all, places := [s[lo..hi]] + words, Shifted(lo, hi, rest);
      StandsAt(s, places[k], all[k]) && (0 < k ==> hi < places[k])
  {
    if k == 0 {
      HeadStands(s, lo, hi);
    } else {
      ShiftedStand(s, hi, rest[k - 1], words[k - 1]);
    }
  }

  lemma ShiftedCovers(s: string, lo: nat, hi: nat, words: seq<string>, rest: seq<nat>, p: nat)
    requires WordBetween(s, lo, hi) && WordsAt(s[hi..], words, rest) && p < |s| && !IsSpace(s[p])
    ensures InSomeWord([s[lo..hi]] + words, Shifted(lo, hi, rest), p)
  {
    var all, places := [s[lo..hi]] + words, Shifted(lo, hi, rest);
    if p < hi {
      assert places[0] <= p < places[0] + |all[0]|;
    } else {
      assert s[hi..][p - hi] == s[p];
      assert InSomeWord(words, rest, p - hi);
      var k :| 0 <= k < |words| && rest[k] <= p - hi < rest[k] + |words[k]|;
      assert places[k + 1] <= p < places[k + 1] + |all[k + 1]|;
    }
  }

  lemma WordsAfterFirst(s: string, lo: nat, hi: nat, words: seq<string>, rest: seq<nat>)
    requires WordBetween(s, lo, hi) && WordsAt(s[hi..], words, rest)
    ensures WordsAt(s, [s[lo..hi]] + words, Shifted(lo, hi, rest))
  {
    var all, places := [s[lo..hi]] + words, Shifted(lo, hi, rest);
    forall k | 0 <= k < |all| ensures StandsAt(s, places[k], all[k]) && (0 < k ==> hi < places[k]) {
      ShiftedStands(s, lo, hi, words, rest, k);
    }
    forall j, k | 0 <= j < k < |all| ensures places[j] + |all[j]| < places[k] {
      if 0 < j { assert rest[j - 1] + |words[j - 1]| < rest[k - 1]; }
    }
    forall p | 0 <= p < |s| && !IsSpace(s[p]) ensures InSomeWord(all, places, p) {
      ShiftedCovers(s, lo, hi, words, rest, p);
    }
  }

  /** Splitting at white space gives the words in the order and at the places where they stand. */
  lemma {:induction false} WordsStand(s: string) returns (places: seq<nat>)
    ensures WordsAt(s, SplitWords(s), places)
    decreases |s|
  {
    var lo := SkipSpace(s, 0);
    if lo == |s| {
      places := [];
    } else {
      var hi := WordEnd(s, lo);
      WordEndsAtSpace(s, lo);
      var rest := WordsStand(s[hi..]);
      WordsAfterFirst(s, lo, hi, SplitWords(s[hi..]), rest);
      places := Shifted(lo, hi, rest);
    }
  }

  lemma {:induction false} WordEndsAtSpace(s: string, i: nat)
    requires i <= |s|
    ensures WordEnd(s, i) < |s| ==> IsSpace(s[WordEnd(s, i)])
    decreases |s| - i
  {
    if i < |s| && !IsSpace(s[i]) { WordEndsAtSpace(s, i + 1); }
  }

  /** Words that fit are never cut. */
  lemma {:induction false} FittingWordsStay(words: seq<string>, fit: Fit)
    requires forall k :: 0 <= k < |words| ==> fit(words[k])
    ensures Pieces(words, fit) == words
  {
    if words != [] {
      var n := |words| - 1;
      FittingWordsStay(words[..n], fit);
      assert words == words[..n] + [words[n]];
    }
  }

  function Letters(words: seq<string>): nat {
    if words == [] then 0 else Letters(words[..|words| - 1]) + |words[|words| - 1]|
  }

  /** Where word k starts on the line. */
  function StartOn(words: seq<string>, k: nat): nat
    requires k <= |words|
  {
    Letters(words[..k]) + k
  }

  /** The word is on the line from start on, behind a blank unless it is the first one. */
  ghost predicate WordOn(line: string, start: nat, word: string, first: bool) {
    && start + |word| <= |line| && line[start..start + |word|] == word
    && (first || (0 < start && line[start - 1] == ' '))
  }

  ghost predicate OnLine(line: string, words: seq<string>, k: nat)
    requires k < |words|
  {
    WordOn(line, StartOn(words, k), words[k], k == 0)
  }

  lemma OnLonger(line: string, head: seq<string>, last: string, k: nat)
    requires k < |head| && OnLine(line, head, k)
    ensures OnLine(line + " " + last, head + [last], k)
  {
    var words := head + [last];
    assert words[k] == head[k] && words[..k] == head[..k];
    WordStays(line, " " + last, StartOn(head, k), head[k], k == 0);
    assert line + " " + last == line + (" " + last);
  }

  lemma WordStays(line: string, more: string, start: nat, word: string, first: bool)
    requires WordOn(line, start, word, first)
    ensures WordOn(line + more, start, word, first)
  {
    assert (line + more)[start..start + |word|] == line[start..start + |word|];
  }

  lemma EndOfLine(line: string, last: string)
    ensures WordOn(line + " " + last, |line| + 1, last, false)
  {
  }

  lemma LastOnLine(line: string, head: seq<string>, last: string)
    requires head != [] && |line| == Letters(head) + |head| - 1
    ensures OnLine(line + " " + last, head + [last], |head|)
  {
    var words := head + [last];
    assert words[..|head|] == head && words[|head|] == last;
    EndOfLine(line, last);
  }

  lemma LettersSnoc(head: seq<string>, last: string)
    ensures Letters(head + [last]) == Letters(head) + |last|
  {
    assert (head + [last])[..|head|] == head;
  }

  /** A line holds its words in order, with one blank between two of them and nothing else. */
  lemma {:induction false} LineIs(words: seq<string>)
    requires words != []
    ensures |JoinWords(words)| == Letters(words) + |words| - 1
    ensures forall k :: 0 <= k < |words| ==> OnLine(JoinWords(words), words, k)
  {
    var n := |words| - 1;
    var head, last := words[..n], words[n];
    assert words == head + [last];
    LettersSnoc(head, last);
    if n == 0 {
      assert head == [];
    } else {
      LineIs(head);
      LastOnLine(JoinWords(head), head, last);
      forall k | 0 <= k < n ensures OnLine(JoinWords(words), words, k) {
        OnLonger(JoinWords(head), head, last, k);
      }
    }
  }

  function Between(parts: seq<seq<string>>): seq<string> {
    if parts == [] then []
    else if |parts| == 1 then parts[0]
    else parts[0] + [""] + Between(parts[1..])
  }

  lemma {:induction false} BetweenSnoc(parts: seq<seq<string>>, last: seq<string>)
    requires parts != []
    ensures Between(parts + [last]) == Between(parts) + [""] + last
  {
    var all := parts + [last];
    assert all[1..] == parts[1..] + [last];
    if |parts| == 1 {
      assert parts[1..] == [] && [] + [last] == [last];
    } else {
      BetweenSnoc(parts[1..], last);
      MoreBetween(parts[0], Between(parts[1..]), last);
    }
  }

  lemma MoreBetween(a: seq<string>, b: seq<string>, c: seq<string>)
    ensures a + [""] + (b + [""] + c) == a + [""] + b + [""] + c
  {
  }

  function AllLines(paragraphs: seq<string>, fit: Fit): (parts: seq<seq<string>>)
    ensures |parts| == |paragraphs|
  {
    seq(|paragraphs|, k requires 0 <= k < |paragraphs| => ParagraphLines(paragraphs[k], fit))
  }

  lemma AllLinesSnoc(paragraphs: seq<string>, n: nat, fit: Fit)
    requires n < |paragraphs|
    ensures AllLines(paragraphs[..n + 1], fit) == AllLines(paragraphs[..n], fit) + [ParagraphLines(paragraphs[n], fit)]
  {
    assert forall k :: 0 <= k < n ==> paragraphs[..n + 1][k] == paragraphs[..n][k];
  }

  lemma StackedFirst(paragraphs: seq<string>, fit: Fit)
    requires paragraphs != []
    ensures Stacked(paragraphs, 1, |paragraphs|, fit)
         == ParagraphLines(paragraphs[0], fit) + if 1 < |paragraphs| then [""] else []
  {
    var tail := if 1 < |paragraphs| then [""] else [];
    assert Stacked(paragraphs, 0, |paragraphs|, fit) == [];
    NothingBefore(ParagraphLines(paragraphs[0], fit), tail);
  }

  lemma NothingBefore(a: seq<string>, b: seq<string>)
    ensures [] + a + b == a + b
  {
  }

  lemma BetweenOne(part: seq<string>)
    ensures Between([part]) == part
  {
  }

  lemma {:induction false} StackedIsBetween(paragraphs: seq<string>, n: nat, fit: Fit)
    requires 1 <= n <= |paragraphs|
    ensures Stacked(paragraphs, n, |paragraphs|, fit)
         == Between(AllLines(paragraphs[..n], fit)) + if n < |paragraphs| then [""] else []
  {
    var last := ParagraphLines(paragraphs[n - 1], fit);
    AllLinesSnoc(paragraphs, n - 1, fit);
    if n == 1 {
      StackedFirst(paragraphs, fit);
      BetweenOne(last);
      assert AllLines(paragraphs[..1], fit) == [last];
    } else {
      StackedIsBetween(paragraphs, n - 1, fit);
      BetweenSnoc(AllLines(paragraphs[..n - 1], fit), last);
    }
  }

  /** The lines of a text are those of its paragraphs, with one empty line between two of them. */
  lemma WrappedIs(text: string, fit: Fit)
    ensures
      var paragraphs := SplitLines(text);
      var lines := if paragraphs == [] then ParagraphLines(text, fit) else Between(AllLines(paragraphs, fit));
      Wrapped(text, fit) == if lines == [] then [""] else lines
  {
    var paragraphs := SplitLines(text);
    if paragraphs == [] {
      assert Stacked([text], 0, 0, fit) == [];
      assert Stacked([text], 1, 0, fit) == ParagraphLines(text, fit);
    } else {
      StackedIsBetween(paragraphs, |paragraphs|, fit);
      assert paragraphs[..|paragraphs|] == paragraphs;
    }
  }

  /** n lines of one height, one under the other with a gap between two of them. */
  function StackHeight(n: nat, height: int, gap: int): int {
    if n == 0 then 0 else if n == 1 then height else StackHeight(n - 1, height, gap) + gap + height
  }

  lemma {:induction false} StepsAdd(n: nat, height: int, gap: int)
    requires 1 <= n
    ensures StackHeight(n, height, gap) == height + (height + gap) * (n - 1)
  {
    if n > 1 {
      StepsAdd(n - 1, height, gap);
      OneStepMore(height + gap, n - 1);
    }
  }

  lemma OneStepMore(step: int, n: int)
    ensures step * n == step * (n - 1) + step
  {
  }

  /** The gap is a fifth of the size, rounded down, and at least 8; the height is that of the lines and the gaps. */
  lemma HeightIs(text: string, size: int, fitAt: int -> Fit, lineHeight: int -> int)
    ensures
      var r := LayoutAt(text, size, fitAt, lineHeight);
      && r.size == size && r.lines == Wrapped(text, fitAt(size)) && 1 <= |r.lines|
      && 8 <= r.spacing && (r.spacing == 8 || 5 * r.spacing <= size) && size < 5 * (r.spacing + 1)
      && r.height == StackHeight(|r.lines|, lineHeight(size), r.spacing)
  {
    StepsAdd(|Wrapped(text, fitAt(size))|, lineHeight(size), Spacing(size));
  }

  /** The sizes tried are the largest one and those 4, 8, 12 and so on below it, down to the smallest allowed. */
  lemma SizesTried(size: int, maxSize: int, minSize: int)
    ensures Tried(size, maxSize, minSize) <==> minSize <= size && exists k: nat :: size == maxSize - 4 * k
  {
    if Tried(size, maxSize, minSize) {
      var k := (maxSize - size) / 4;
      assert size == maxSize - 4 * k;
    }
  }
}
