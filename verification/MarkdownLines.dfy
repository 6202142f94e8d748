/** What kind of line each line of the source is, by its pattern, and how each kind is written. */
module MarkdownLines {
  import opened Text
  import opened Markdown

  /** The line is the marker, white space, and a text without white space at its ends. */
  ghost predicate Marked(line: string, marker: string, text: string) {
    && text != "" && Trimmed(text)
    && |marker| + |text| < |line| && marker <= line && line[|line| - |text|..] == text
    && AllSpace(line[|marker|..|line| - |text|])
  }

  /** The line is n decimals, a full stop, white space and the text. */
  ghost predicate NumberedAt(line: string, isDecimal: char -> bool, text: string, n: nat) {
    && 1 <= n < |line| && (forall k :: 0 <= k < n ==> isDecimal(line[k]))
    && line[n] == '.' && Marked(line, line[..n + 1], text)
  }

  ghost predicate Numbered(line: string, isDecimal: char -> bool, text: string) {
    exists n: nat :: NumberedAt(line, isDecimal, text, n)
  }

  /** A decimal is no white space and no full stop. */
  ghost predicate TellsDecimals(isDecimal: char -> bool) {
    forall c :: isDecimal(c) ==> !IsSpace(c) && c != '.'
  }

  // ----- markers -----

  lemma BehindIsText(line: string, n: nat)
    requires Trimmed(line) && MarkerEnds(line, n)
    ensures Behind(line, n) != "" && Trimmed(Behind(line, n))
    ensures n + |Behind(line, n)| < |line| && line[|line| - |Behind(line, n)|..] == Behind(line, n)
    ensures AllSpace(line[n..|line| - |Behind(line, n)|])
  {
    var start := SkipSpace(line, n);
    var text := line[start..];
    assert text[|text| - 1] == line[|line| - 1];
  }

  /** The text behind a marker is the only one that the pattern leaves. */
  lemma MarkedIff(line: string, marker: string, text: string)
    requires Trimmed(line) && line != ""
    ensures Marked(line, marker, text) <==>
      marker <= line && MarkerEnds(line, |marker|) && text == Behind(line, |marker|)
  {
    if marker <= line && MarkerEnds(line, |marker|) { BehindIsText(line, |marker|); }
    if Marked(line, marker, text) {
      var start := |line| - |text|;
      assert line[|marker|..start][0] == line[|marker|];
      assert line[start] == text[0];
      assert forall k :: |marker| <= k < start ==> line[|marker|..start][k - |marker|] == line[k];
      assert SkipSpace(line, |marker|) == start;
    }
  }

  lemma {:induction false} CountDecimals(line: string, isDecimal: char -> bool)
    ensures
      var n := CountWhile(line, isDecimal);
      && (forall k :: 0 <= k < n ==> isDecimal(line[k])) && (n < |line| ==> !isDecimal(line[n]))
  {
    if line != "" && isDecimal(line[0]) {
      CountDecimals(line[1..], isDecimal);
      var n := CountWhile(line[1..], isDecimal);
      assert forall k :: 1 <= k < n + 1 ==> line[k] == line[1..][k - 1];
    }
  }

  lemma NumberedIff(line: string, isDecimal: char -> bool, text: string)
    requires Trimmed(line) && line != "" && TellsDecimals(isDecimal)
    ensures
      var n := CountWhile(line, isDecimal);
      Numbered(line, isDecimal, text) <==>
        1 <= n < |line| && line[n] == '.' && MarkerEnds(line, n + 1) && text == Behind(line, n + 1)
  {
    var n := CountWhile(line, isDecimal);
    CountDecimals(line, isDecimal);
    if n < |line| { MarkedIff(line, line[..n + 1], text); }
    if m: nat :| NumberedAt(line, isDecimal, text, m) {
      assert m == n;
    }
    if 1 <= n < |line| && line[n] == '.' && Marked(line, line[..n + 1], text) {
      assert NumberedAt(line, isDecimal, text, n);
    }
  }

  // ----- the kinds of lines -----

  ghost predicate IsHeading(line: string, level: nat, text: string) {
    (level == 2 && Marked(line, "##", text)) || (level == 3 && Marked(line, "###", text))
  }

  ghost predicate Bulleted(line: string, text: string) {
    Marked(line, "-", text) || Marked(line, "*", text)
  }

  lemma StrippedLine(raw: string)
    ensures Trimmed(Strip(raw)) && (Strip(raw) == "" <==> AllSpace(raw))
  {
    var lo, hi := StripBounds(raw);
    if lo < hi { assert Strip(raw)[0] == raw[lo]; }
  }

  lemma Hashes(line: string)
    requires Trimmed(line) && line != ""
    ensures "##" <= line && MarkerEnds(line, 2) ==> !("###" <= line)
    ensures "##" <= line <==> 2 <= |line| && line[0] == '#' && line[1] == '#'
    ensures "###" <= line <==> 3 <= |line| && line[0] == '#' && line[1] == '#' && line[2] == '#'
    ensures "-" <= line <==> line[0] == '-'
    ensures "*" <= line <==> line[0] == '*'
  {
  }

  lemma KindsExclude(line: string, isDecimal: char -> bool)
    requires Trimmed(line) && line != "" && TellsDecimals(isDecimal)
    ensures
      var n := CountWhile(line, isDecimal);
      1 <= n < |line| && line[n] == '.' ==>
        && !("##" <= line && MarkerEnds(line, 2)) && !("###" <= line && MarkerEnds(line, 3))
        && !(line[0] in {'-', '*'} && MarkerEnds(line, 1))
  {
    Hashes(line);
    CountDecimals(line, isDecimal);
    var n := CountWhile(line, isDecimal);
    if 1 <= n < |line| && line[n] == '.' {
      forall m: nat | m in {1, 2, 3} && MarkerEnds(line, m) ensures n < m {
        assert !isDecimal(line[m]);
      }
    }
  }

  /** A heading is two or three hash signs, white space and a text; the number of signs is its level. */
  lemma HeadingIff(raw: string, isDecimal: char -> bool, level: nat, text: string)
    ensures Classify(raw, isDecimal) == Heading(level, text) <==> IsHeading(Strip(raw), level, text)
  {
    var line := Strip(raw);
    StrippedLine(raw);
    if line != "" {
      Hashes(line);
      MarkedIff(line, "##", text);
      MarkedIff(line, "###", text);
    }
  }

  /** A numbered item is one or more decimals, a full stop, white space and a text. */
  lemma OrderedIff(raw: string, isDecimal: char -> bool, text: string)
    requires TellsDecimals(isDecimal)
    ensures Classify(raw, isDecimal) == Ordered(text) <==> Numbered(Strip(raw), isDecimal, text)
  {
    var line := Strip(raw);
    StrippedLine(raw);
    if line != "" {
      NumberedIff(line, isDecimal, text);
      KindsExclude(line, isDecimal);
    }
  }

  /** A bulleted item is a hyphen or an asterisk, white space and a text. */
  lemma UnorderedIff(raw: string, isDecimal: char -> bool, text: string)
    requires TellsDecimals(isDecimal)
    ensures Classify(raw, isDecimal) == Unordered(text) <==> Bulleted(Strip(raw), text)
  {
    var line := Strip(raw);
    StrippedLine(raw);
    if line != "" {
      Hashes(line);
      MarkedIff(line, "-", text);
      MarkedIff(line, "*", text);
      KindsExclude(line, isDecimal);
    }
  }

  lemma BlankIff(raw: string, isDecimal: char -> bool)
    ensures Classify(raw, isDecimal) == Blank <==> AllSpace(raw)
  {
    StrippedLine(raw);
  }

  ghost predicate NoMarker(line: string, isDecimal: char -> bool) {
    && (forall level, text :: !IsHeading(line, level, text))
    && (forall text :: !Numbered(line, isDecimal, text))
    && (forall text :: !Bulleted(line, text))
  }

  /** Every other line is plain, with all of its text but the white space at its ends. */
  lemma PlainIff(raw: string, isDecimal: char -> bool, text: string)
    requires TellsDecimals(isDecimal)
    ensures Classify(raw, isDecimal) == Plain(text) <==>
      !AllSpace(raw) && text == Strip(raw) && NoMarker(Strip(raw), isDecimal)
  {
    var line, kind := Strip(raw), Classify(raw, isDecimal);
    BlankIff(raw, isDecimal);
    if kind.Heading? { HeadingIff(raw, isDecimal, kind.level, kind.text); }
    if kind.Ordered? { OrderedIff(raw, isDecimal, kind.text); }
    if kind.Unordered? { UnorderedIff(raw, isDecimal, kind.text); }
    if kind.Plain? {
      forall level, t ensures !IsHeading(line, level, t) { HeadingIff(raw, isDecimal, level, t); }
      forall t ensures !Numbered(line, isDecimal, t) { OrderedIff(raw, isDecimal, t); }
      forall t ensures !Bulleted(line, t) { UnorderedIff(raw, isDecimal, t); }
    }
  }

  // ----- how blocks are written -----

  lemma Regroup(tag: string, text: string)
    ensures INDENT + "<" + tag + ">" + text + "</" + tag + ">"
         == (INDENT + "<" + tag + ">") + text + ("</" + tag + ">")
  {
  }

  lemma HeadingWritten(level: nat, text: string, inline: string -> string)
    requires level in {2, 3}
    ensures WrittenAll(Emit(HeadingBlock(level, text), inline)) ==
      [if level == 2 then "                    <h2>" + inline(text) + "</h2>"
       else "                    <h3>" + inline(text) + "</h3>"]
  {
    var html := Emit(HeadingBlock(level, text), inline);
    Regroup(if level == 2 then "h2" else "h3", inline(text));
    assert INDENT + "<" + "h2" + ">" == "                    <h2>" && "</" + "h2" + ">" == "</h2>";
    assert INDENT + "<" + "h3" + ">" == "                    <h3>" && "</" + "h3" + ">" == "</h3>";
    assert WrittenAll(html)[0] == Written(html[0]);
  }

  lemma ParagraphWritten(lines: seq<string>, inline: string -> string)
    ensures WrittenAll(Emit(Paragraph(lines), inline)) ==
      ["                    <p>" + inline(Join(lines, " ")) + "</p>"]
  {
    var html := Emit(Paragraph(lines), inline);
    assert INDENT + "<p>" == "                    <p>";
    assert WrittenAll(html)[0] == Written(html[0]);
  }

  /** An item of a list stands in its own line, indented further. */
  function ItemWritten(item: string, inline: string -> string): string {
    "                        <li>" + inline(item) + "</li>"
  }

  lemma ListWritten(items: seq<string>, ordered: bool, inline: string -> string)
    ensures
      var block := if ordered then OrderedList(items) else UnorderedList(items);
      var written := WrittenAll(Emit(block, inline));
      && |written| == |items| + 2
      && written[0] == (if ordered then "                    <ol>" else "                    <ul>")
      && written[|items| + 1] == (if ordered then "                    </ol>" else "                    </ul>")
      && forall k :: 0 <= k < |items| ==> written[k + 1] == ItemWritten(items[k], inline)
  {
    var block := if ordered then OrderedList(items) else UnorderedList(items);
    var html := Emit(block, inline);
    forall k | 0 <= k < |items| ensures Written(html[k + 1]) == ItemWritten(items[k], inline) {
      assert html[k + 1] == Items(items, inline)[k];
      ItemIndent(inline(items[k]));
    }
  }

  lemma ItemIndent(text: string)
    ensures INDENT + "    <li>" + text + "</li>" == "                        <li>" + text + "</li>"
  {
    assert INDENT + "    <li>" == "                        <li>";
  }

  /** Joining puts the separator before each part but the first. */
  lemma {:induction false} JoinOneMore(parts: seq<string>, last: string, separator: string)
    ensures Join(parts + [last], separator) == if parts == [] then last else Join(parts, separator) + separator + last
  {
    if |parts| > 0 {
      var all := parts + [last];
      assert all[1..] == parts[1..] + [last];
      JoinOneMore(parts[1..], last, separator);
      if |parts| == 1 { assert parts[1..] == []; }
    }
  }

  /** The page is what its blocks are written as, one after the other. */
  lemma PageOneMore(blocks: seq<Block>, block: Block, inline: string -> string)
    ensures WrittenAll(EmitAll(blocks + [block], inline))
         == WrittenAll(EmitAll(blocks, inline)) + WrittenAll(Emit(block, inline))
  {
    EmitOneMore(blocks, block, inline);
  }
}
