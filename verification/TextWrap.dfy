/** Fitting a text into a box: splitting over-long words, greedy lines, and the choice of a font size. */
module TextWrap {
  import opened Common
  import opened Text

  /** Whether a piece of text is narrow enough; the drawing library measures it. */
  type Fit = string -> bool

  // ----- long words -----

  /** The parts of word[i..], of which the open one has reached j. */
  function PartsFrom(word: string, i: nat, j: nat, fit: Fit): seq<string>
    requires i < j <= |word|
    decreases |word| - j
  {
    if j == |word| then [word[i..j]]
    else if fit(word[i..j + 1]) then PartsFrom(word, i, j + 1, fit)
    else [word[i..j]] + PartsFrom(word, j, j + 1, fit)
  }

  function Parts(word: string, fit: Fit): seq<string> {
    if word == "" then [] else PartsFrom(word, 0, 1, fit)
  }

  lemma MoveOver<T>(done: seq<T>, x: T, rest: seq<T>)
    ensures done + ([x] + rest) == (done + [x]) + rest
  {
  }

  /** Having read the first j characters: the parts so far, and the open one, which starts at i. */
  ghost predicate Splitting(word: string, i: nat, j: nat, parts: seq<string>, current: string, fit: Fit) {
    if j == 0 then i == 0 && parts == [] && current == ""
    else i < j <= |word| && current == word[i..j] && parts + PartsFrom(word, i, j, fit) == Parts(word, fit)
  }

  lemma SplittingOn(word: string, i: nat, j: nat, parts: seq<string>, current: string, fit: Fit)
    requires Splitting(word, i, j, parts, current, fit) && j < |word|
    ensures
      if current != "" && !fit(current + [word[j]])
      then Splitting(word, j, j + 1, parts + [current], [word[j]], fit)
      else Splitting(word, i, j + 1, parts, current + [word[j]], fit)
  {
    assert word[i..j] + [word[j]] == word[i..j + 1];
    assert word[j..j + 1] == [word[j]];
    if current != "" && !fit(current + [word[j]]) {
      MoveOver(parts, current, PartsFrom(word, j, j + 1, fit));
    }
  }

  method SplitLongWord(word: string, fit: Fit) returns (parts: seq<string>)
    ensures parts == Parts(word, fit)
  {
    parts := [];
    var current := "";
    ghost var i := 0;
    for j := 0 to |word|
      invariant Splitting(word, i, j, parts, current, fit)
    {
      SplittingOn(word, i, j, parts, current, fit);
      var candidate := current + [word[j]];
      if current != "" && !fit(candidate) {
        parts := parts + [current];
        current := [word[j]];
        i := j;
      } else {
        current := candidate;
      }
    }
    if current != "" {
      parts := parts + [current];
    }
  }

  // ----- words and lines -----

  /** The position of the first white space from i on, or the end. */
  function WordEnd(s: string, i: nat): (j: nat)
    requires i <= |s|
    ensures i <= j <= |s|
    ensures forall k :: i <= k < j ==> !IsSpace(s[k])
    ensures i < |s| && !IsSpace(s[i]) ==> i < j
    decreases |s| - i
  {
    if i < |s| && !IsSpace(s[i]) then WordEnd(s, i + 1) else i
  }

  /** str.split(). */
  function SplitWords(s: string): seq<string>
    decreases |s|
  {
    var lo := SkipSpace(s, 0);
    if lo == |s| then []
    else
      var hi := WordEnd(s, lo);
      [s[lo..hi]] + SplitWords(s[hi..])
  }

  /** The words of a paragraph, the over-long ones in parts. */
  function Pieces(words: seq<string>, fit: Fit): seq<string> {
    if words == [] then []
    else
      var n := |words| - 1;
      Pieces(words[..n], fit) + if fit(words[n]) then [words[n]] else Parts(words[n], fit)
  }

  /** Words with single blanks between them. */
  function JoinWords(words: seq<string>): string
    requires words != []
  {
    var n := |words| - 1;
    if n == 0 then words[0] else JoinWords(words[..n]) + " " + words[n]
  }

  /** The lines of words[i..], of which the open one has taken the words up to j. */
  function LinesFrom(words: seq<string>, i: nat, j: nat, fit: Fit): seq<string>
    requires i < j <= |words|
    decreases |words| - j
  {
    if j == |words| then [JoinWords(words[i..j])]
    else if fit(JoinWords(words[i..j + 1])) then LinesFrom(words, i, j + 1, fit)
    else [JoinWords(words[i..j])] + LinesFrom(words, j, j + 1, fit)
  }

  function Lines(words: seq<string>, fit: Fit): seq<string> {
    if words == [] then [] else LinesFrom(words, 0, 1, fit)
  }

  function Paragraphs(text: string): seq<string> {
    if SplitLines(text) == [] then [text] else SplitLines(text)
  }

  function ParagraphLines(paragraph: string, fit: Fit): seq<string> {
    Lines(Pieces(SplitWords(paragraph), fit), fit)
  }

  /** The lines of the first n of count paragraphs, an empty line behind each but the last. */
  function Stacked(paragraphs: seq<string>, n: nat, count: int, fit: Fit): seq<string>
    requires n <= |paragraphs|
  {
    if n == 0 then []
    else
      Stacked(paragraphs, n - 1, count, fit) + ParagraphLines(paragraphs[n - 1], fit)
        + if n - 1 < count - 1 then [""] else []
  }

  function Wrapped(text: string, fit: Fit): seq<string> {
    var all := Stacked(Paragraphs(text), |Paragraphs(text)|, |SplitLines(text)|, fit);
    if all == [] then [""] else all
  }

  predicate IsWord(w: string) {
    w != "" && forall k :: 0 <= k < |w| ==> !IsSpace(w[k])
  }

  ghost predicate AllWords(words: seq<string>) {
    forall k :: 0 <= k < |words| ==> IsWord(words[k])
  }

  lemma {:induction false} SplitGivesWords(s: string)
    ensures AllWords(SplitWords(s))
    decreases |s|
  {
    var lo := SkipSpace(s, 0);
    if lo < |s| {
      var hi := WordEnd(s, lo);
      SplitGivesWords(s[hi..]);
      assert IsWord(s[lo..hi]);
    }
  }

  lemma {:induction false} PartsAreWords(word: string, i: nat, j: nat, fit: Fit)
    requires IsWord(word) && i < j <= |word|
    ensures AllWords(PartsFrom(word, i, j, fit))
    decreases |word| - j
  {
    if j < |word| {
      PartsAreWords(word, if fit(word[i..j + 1]) then i else j, j + 1, fit);
    }
  }

  lemma {:induction false} PiecesAreWords(words: seq<string>, fit: Fit)
    requires AllWords(words)
    ensures AllWords(Pieces(words, fit))
  {
    if words != [] {
      var n := |words| - 1;
      PiecesAreWords(words[..n], fit);
      PartsAreWords(words[n], 0, 1, fit);
    }
  }

  lemma JoinSnoc(words: seq<string>, i: nat, j: nat)
    requires i < j < |words|
    ensures JoinWords(words[i..j + 1]) == JoinWords(words[i..j]) + " " + words[j]
  {
    assert words[i..j + 1][..j - i] == words[i..j];
  }

  method WrapText(text: string, fit: Fit) returns (lines: seq<string>)
    ensures lines == Wrapped(text, fit)
  {
    lines := [];
    var paragraphs := if SplitLines(text) == [] then [text] else SplitLines(text);
    for n := 0 to |paragraphs|
      invariant lines == Stacked(paragraphs, n, |SplitLines(text)|, fit)
    {
      var words := SplitIntoPieces(paragraphs[n], fit);
      lines := AppendLines(words, lines, fit);
      if n < |SplitLines(text)| - 1 {
        lines := lines + [""];
      }
    }
    if lines == [] { lines := [""]; }
  }

  /** The first inner loop: the words of a paragraph, the over-long ones in parts. */
  method SplitIntoPieces(paragraph: string, fit: Fit) returns (words: seq<string>)
    ensures words == Pieces(SplitWords(paragraph), fit) && AllWords(words)
  {
    words := [];
    var source := SplitWords(paragraph);
    for k := 0 to |source|
      invariant words == Pieces(source[..k], fit)
    {
      assert source[..k + 1][..k] == source[..k];
      if !fit(source[k]) {
        var parts := SplitLongWord(source[k], fit);
        words := words + parts;
      } else {
        words := words + [source[k]];
      }
    }
    assert source[..|source|] == source;
    SplitGivesWords(paragraph);
    PiecesAreWords(source, fit);
  }

  /** The second inner loop: greedy lines. */
  method AppendLines(words: seq<string>, lines: seq<string>, fit: Fit) returns (all: seq<string>)
    requires AllWords(words)
    ensures all == lines + Lines(words, fit)
  {
    all := lines;
    var current := "";
    ghost var i := 0;
    for j := 0 to |words|
      invariant i <= j && (i == j <==> j == 0)
      invariant if j == 0 then current == "" && all == lines else current != "" && current == JoinWords(words[i..j])
      invariant 0 < j ==> all + LinesFrom(words, i, j, fit) == lines + Lines(words, fit)
    {
      if 0 < j { JoinSnoc(words, i, j); }
      var candidate := if current == "" then words[j] else current + " " + words[j];
      assert j == 0 ==> words[0..1] == [words[0]];
      if current != "" && !fit(candidate) {
        MoveOver(all, current, LinesFrom(words, j, j + 1, fit));
        all := all + [current];
        current := words[j];
        assert words[j..j + 1] == [words[j]];
        i := j;
      } else {
        current := candidate;
      }
    }
    if current != "" {
      all := all + [current];
    }
  }

  // ----- choosing the size -----

  datatype Layout = Layout(size: int, lines: seq<string>, spacing: int, height: int)

  datatype FitError = TextTooLong

  function Spacing(size: int): int {
    if 8 < size / 5 then size / 5 else 8
  }

  /** The layout at one size: the width test and the line height depend on it. */
  function LayoutAt(text: string, size: int, fitAt: int -> Fit, lineHeight: int -> int): Layout {
    var lines := Wrapped(text, fitAt(size));
    var step := lineHeight(size) + Spacing(size);
    Layout(size, lines, Spacing(size), lineHeight(size) + step * (|lines| - 1))
  }

  /** The sizes tried: from the largest down in steps of four. */
  predicate Tried(size: int, maxSize: int, minSize: int) {
    minSize <= size <= maxSize && (maxSize - size) % 4 == 0
  }

  /** Which sizes give a layout that is too high. */
  function TooTall(text: string, fitAt: int -> Fit, lineHeight: int -> int, maxHeight: int): int -> bool {
    size => maxHeight < LayoutAt(text, size, fitAt, lineHeight).height
  }

  /** All sizes tried above this one are too tall. */
  ghost predicate NoneAbove(size: int, tall: int -> bool, maxSize: int, minSize: int) {
    forall s :: Tried(s, maxSize, minSize) && size < s ==> tall(s)
  }

  lemma NextSize(size: int, tall: int -> bool, maxSize: int, minSize: int)
    requires size <= maxSize && (maxSize - size) % 4 == 0 && NoneAbove(size, tall, maxSize, minSize) && tall(size)
    ensures NoneAbove(size - 4, tall, maxSize, minSize)
  {
    forall s | Tried(s, maxSize, minSize) && size - 4 < s ensures tall(s) {
      assert s == size || size < s;
    }
  }

  method LayOut(text: string, size: int, fitAt: int -> Fit, lineHeight: int -> int) returns (r: Layout)
    ensures r == LayoutAt(text, size, fitAt, lineHeight)
  {
    var lines := WrapText(text, fitAt(size));
    var spacing := Spacing(size);
    var step := lineHeight(size) + spacing;
    r := Layout(size, lines, spacing, lineHeight(size) + step * (|lines| - 1));
  }

  method FitText(text: string, fitAt: int -> Fit, lineHeight: int -> int, maxHeight: int, maxSize: int, minSize: int)
    returns (r: Result<Layout, FitError>)
    ensures r.Ok? ==>
      && Tried(r.value.size, maxSize, minSize)
      && r.value == LayoutAt(text, r.value.size, fitAt, lineHeight)
      && r.value.height <= maxHeight
      && NoneAbove(r.value.size, TooTall(text, fitAt, lineHeight, maxHeight), maxSize, minSize)
    ensures r.Err? ==>
      forall s :: Tried(s, maxSize, minSize) ==> TooTall(text, fitAt, lineHeight, maxHeight)(s)
  {
    ghost var tall := TooTall(text, fitAt, lineHeight, maxHeight);
    var size := maxSize;
    while minSize <= size
      invariant size <= maxSize && (maxSize - size) % 4 == 0 && NoneAbove(size, tall, maxSize, minSize)
    {
      var layout := LayOut(text, size, fitAt, lineHeight);
      if layout.height <= maxHeight { return Ok(layout); }
      NextSize(size, tall, maxSize, minSize);
      size := size - 4;
    }
    r := Err(TextTooLong);
  }
}
