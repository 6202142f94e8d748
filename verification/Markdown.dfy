/** The markdown block converter: three buffers filled line by line, against runs of like lines. */
module Markdown {
  import opened Text

  /** What a line is; the text is what remains of it behind its marker. */
  datatype Line =
    | Blank
    | Heading(level: nat, text: string)
    | Ordered(text: string)
    | Unordered(text: string)
    | Plain(text: string)

  datatype Block =
    | HeadingBlock(level: nat, text: string)
    | Paragraph(lines: seq<string>)
    | OrderedList(items: seq<string>)
    | UnorderedList(items: seq<string>)

  /** One line of output; text has been through the inline converter. */
  datatype Html = H(level: nat, text: string) | P(text: string) | Li(text: string) | OpenOl | CloseOl | OpenUl | CloseUl

  // ----- classification -----

  function CountWhile(s: string, isDecimal: char -> bool): (n: nat)
    ensures n <= |s|
  {
    if s != "" && isDecimal(s[0]) then 1 + CountWhile(s[1..], isDecimal) else 0
  }

  /** The marker of length n is followed by white space. */
  predicate MarkerEnds(line: string, n: nat) {
    n < |line| && IsSpace(line[n])
  }

  function Behind(line: string, n: nat): string
    requires n <= |line|
  {
    line[SkipSpace(line, n)..]
  }

  function Classify(raw: string, isDecimal: char -> bool): Line {
    var line := Strip(raw);
    var digits := CountWhile(line, isDecimal);
    if line == "" then Blank
    else if "###" <= line && MarkerEnds(line, 3) then Heading(3, Behind(line, 3))
    else if "##" <= line && MarkerEnds(line, 2) then Heading(2, Behind(line, 2))
    else if 1 <= digits < |line| && line[digits] == '.' && MarkerEnds(line, digits + 1) then
      Ordered(Behind(line, digits + 1))
    else if line[0] in {'-', '*'} && MarkerEnds(line, 1) then Unordered(Behind(line, 1))
    else Plain(line)
  }

  function ClassifyAll(raws: seq<string>, isDecimal: char -> bool): (lines: seq<Line>)
    ensures |lines| == |raws|
  {
    seq(|raws|, k requires 0 <= k < |raws| => Classify(raws[k], isDecimal))
  }

  // ----- grouping into runs -----

  predicate Groups(line: Line) {
    line.Ordered? || line.Unordered? || line.Plain?
  }

  predicate SameKind(a: Line, b: Line) {
    (a.Ordered? && b.Ordered?) || (a.Unordered? && b.Unordered?) || (a.Plain? && b.Plain?)
  }

  function RunLength(lines: seq<Line>): (n: nat)
    requires lines != [] && Groups(lines[0])
    ensures 1 <= n <= |lines|
    ensures forall k :: 0 <= k < n ==> SameKind(lines[0], lines[k])
    ensures n < |lines| ==> !SameKind(lines[0], lines[n])
  {
    if |lines| > 1 && SameKind(lines[0], lines[1]) then 1 + RunLength(lines[1..]) else 1
  }

  predicate IsRun(lines: seq<Line>) {
    lines != [] && Groups(lines[0]) && forall k :: 0 <= k < |lines| ==> SameKind(lines[0], lines[k])
  }

  function Texts(lines: seq<Line>): (texts: seq<string>)
    requires forall k :: 0 <= k < |lines| ==> !lines[k].Blank?
    ensures |texts| == |lines|
  {
    seq(|lines|, k requires 0 <= k < |lines| => lines[k].text)
  }

  function BlockOf(run: seq<Line>): Block
    requires IsRun(run)
  {
    if run[0].Ordered? then OrderedList(Texts(run))
    else if run[0].Unordered? then UnorderedList(Texts(run))
    else Paragraph(Texts(run))
  }

  /** Headings stand alone, blanks vanish, and every other line joins its whole run. */
  function Group(lines: seq<Line>): seq<Block>
    decreases |lines|
  {
    if lines == [] then []
    else
      match lines[0]
      case Blank => Group(lines[1..])
      case Heading(level, text) => [HeadingBlock(level, text)] + Group(lines[1..])
      case _ => [BlockOf(lines[..RunLength(lines)])] + Group(lines[RunLength(lines)..])
  }

  // ----- output -----

  function Join(parts: seq<string>, separator: string): string {
    if parts == [] then ""
    else if |parts| == 1 then parts[0]
    else parts[0] + separator + Join(parts[1..], separator)
  }

  function Items(items: seq<string>, inline: string -> string): (html: seq<Html>)
    ensures |html| == |items|
  {
    seq(|items|, k requires 0 <= k < |items| => Li(inline(items[k])))
  }

  function Emit(block: Block, inline: string -> string): seq<Html> {
    match block
    case HeadingBlock(level, text) => [H(level, inline(text))]
    case Paragraph(lines) => [P(inline(Join(lines, " ")))]
    case OrderedList(items) => [OpenOl] + Items(items, inline) + [CloseOl]
    case UnorderedList(items) => [OpenUl] + Items(items, inline) + [CloseUl]
  }

  function EmitAll(blocks: seq<Block>, inline: string -> string): seq<Html> {
    if blocks == [] then []
    else EmitAll(blocks[..|blocks| - 1], inline) + Emit(blocks[|blocks| - 1], inline)
  }

  lemma EmitOneMore(blocks: seq<Block>, block: Block, inline: string -> string)
    ensures EmitAll(blocks + [block], inline) == EmitAll(blocks, inline) + Emit(block, inline)
  {
    assert (blocks + [block])[..|blocks|] == blocks;
  }

  const INDENT := "                    "

  function Written(h: Html): string {
    match h
    case H(level, text) =>
      var tag := if level == 2 then "h2" else "h3";
      INDENT + "<" + tag + ">" + text + "</" + tag + ">"
    case P(text) => INDENT + "<p>" + text + "</p>"
    case Li(text) => INDENT + "    <li>" + text + "</li>"
    case OpenOl => INDENT + "<ol>"
    case CloseOl => INDENT + "</ol>"
    case OpenUl => INDENT + "<ul>"
    case CloseUl => INDENT + "</ul>"
  }

  function WrittenAll(html: seq<Html>): seq<string> {
    seq(|html|, k requires 0 <= k < |html| => Written(html[k]))
  }

  // ----- the buffers -----

  datatype Buffers = Buffers(paragraph: seq<string>, ordered: seq<string>, unordered: seq<string>)

  const NO_LINES: Buffers := Buffers([], [], [])

  /** At any time at most one of the three buffers holds anything. */
  predicate AtMostOne(b: Buffers) {
    || (b.paragraph == [] && b.ordered == [])
    || (b.paragraph == [] && b.unordered == [])
    || (b.ordered == [] && b.unordered == [])
  }

  /** What flushing all three buffers puts out. */
  function Flushed(b: Buffers): seq<Block>
    requires AtMostOne(b)
  {
    if b.paragraph != [] then [Paragraph(b.paragraph)]
    else if b.ordered != [] then [OrderedList(b.ordered)]
    else if b.unordered != [] then [UnorderedList(b.unordered)]
    else []
  }

  /** The buffers that a line of this kind closes. */
  function Closes(b: Buffers, line: Line): Buffers {
    match line
    case Ordered(_) => b.(ordered := [])
    case Unordered(_) => b.(unordered := [])
    case Plain(_) => b.(paragraph := [])
    case _ => b
  }

  function Opens(line: Line): seq<Block> {
    if line.Heading? then [HeadingBlock(line.level, line.text)] else []
  }

  /** What waits after a line has been taken in. */
  function Kept(b: Buffers, line: Line): Buffers {
    match line
    case Ordered(text) => Buffers([], b.ordered + [text], [])
    case Unordered(text) => Buffers([], [], b.unordered + [text])
    case Plain(text) => Buffers(b.paragraph + [text], [], [])
    case _ => NO_LINES
  }

  /** The waiting lines, as lines. */
  ghost function Pending(b: Buffers): (lines: seq<Line>)
    requires AtMostOne(b)
    ensures lines == [] || IsRun(lines)
    ensures |lines| == |b.paragraph| + |b.ordered| + |b.unordered|
  {
    if b.paragraph != [] then seq(|b.paragraph|, k requires 0 <= k < |b.paragraph| => Plain(b.paragraph[k]))
    else if b.ordered != [] then seq(|b.ordered|, k requires 0 <= k < |b.ordered| => Ordered(b.ordered[k]))
    else seq(|b.unordered|, k requires 0 <= k < |b.unordered| => Unordered(b.unordered[k]))
  }

  lemma PendingIsOneBlock(b: Buffers)
    requires AtMostOne(b)
    ensures Flushed(b) == if Pending(b) == [] then [] else [BlockOf(Pending(b))]
  {
    if b.paragraph != [] {
      assert Texts(Pending(b)) == b.paragraph;
    } else if b.ordered != [] {
      assert Texts(Pending(b)) == b.ordered;
    } else if b.unordered != [] {
      assert Texts(Pending(b)) == b.unordered;
    }
  }

  lemma RunEndsAt(lines: seq<Line>, n: nat)
    requires 1 <= n <= |lines| && IsRun(lines[..n])
    requires n < |lines| ==> !SameKind(lines[0], lines[n])
    ensures Groups(lines[0]) && RunLength(lines) == n
  {
    assert forall k :: 0 <= k < n ==> lines[..n][k] == lines[k];
  }

  /** A run followed by something that does not continue it is one block. */
  lemma RunIsOneBlock(run: seq<Line>, rest: seq<Line>)
    requires IsRun(run) && (rest == [] || !SameKind(run[0], rest[0]))
    ensures Group(run + rest) == [BlockOf(run)] + Group(rest)
  {
    var all := run + rest;
    assert all[..|run|] == run && all[|run|..] == rest;
    RunEndsAt(all, |run|);
  }

  /** Flushing everything puts out the waiting run as one block. */
  lemma FlushingEndsTheRun(b: Buffers, rest: seq<Line>)
    requires AtMostOne(b)
    requires rest == [] || Pending(b) == [] || !SameKind(Pending(b)[0], rest[0])
    ensures Group(Pending(b) + rest) == Flushed(b) + Group(rest)
  {
    PendingIsOneBlock(b);
    if Pending(b) == [] {
      assert Pending(b) + rest == rest;
    } else {
      RunIsOneBlock(Pending(b), rest);
    }
  }

  /** A line of the waiting kind just joins the waiting run. */
  lemma JoiningKeepsTheRun(b: Buffers, line: Line)
    requires AtMostOne(b) && Groups(line) && Pending(b) != [] && SameKind(Pending(b)[0], line)
    ensures Closes(b, line) == NO_LINES
    ensures AtMostOne(Kept(b, line)) && Pending(Kept(b, line)) == Pending(b) + [line]
  {
  }

  /** A line of another kind closes all that waits, and waits alone. */
  lemma OtherKindsClose(b: Buffers, line: Line)
    requires AtMostOne(b) && (Pending(b) == [] || !SameKind(Pending(b)[0], line))
    ensures Closes(b, line) == b
    ensures AtMostOne(Kept(b, line)) && Pending(Kept(b, line)) == if Groups(line) then [line] else []
  {
  }

  lemma HeadAlone(line: Line, rest: seq<Line>)
    requires !Groups(line)
    ensures Group([line] + rest) == Opens(line) + Group(rest)
  {
    assert ([line] + rest)[1..] == rest;
  }

  lemma FeedingTheRun(b: Buffers, line: Line, rest: seq<Line>)
    requires AtMostOne(b) && Groups(line) && Pending(b) != [] && SameKind(Pending(b)[0], line)
    ensures AtMostOne(Kept(b, line))
    ensures Closes(b, line) == NO_LINES && Opens(line) == []
    ensures Group(Pending(b) + ([line] + rest)) == Group(Pending(Kept(b, line)) + rest)
  {
    JoiningKeepsTheRun(b, line);
    assert Pending(b) + ([line] + rest) == Pending(Kept(b, line)) + rest;
  }

  lemma FeedingAnother(b: Buffers, line: Line, rest: seq<Line>)
    requires AtMostOne(b) && (Pending(b) == [] || !SameKind(Pending(b)[0], line))
    ensures AtMostOne(Kept(b, line)) && Closes(b, line) == b
    ensures Group([line] + rest) == Opens(line) + Group(Pending(Kept(b, line)) + rest)
  {
    OtherKindsClose(b, line);
    if Groups(line) {
      assert Opens(line) == [];
    } else {
      HeadAlone(line, rest);
      assert Pending(Kept(b, line)) + rest == rest;
    }
  }

  /** One line handled by the loop body leaves the final blocks as they were going to be. */
  lemma FeedingIsFaithful(b: Buffers, line: Line, rest: seq<Line>)
    requires AtMostOne(b)
    ensures AtMostOne(Closes(b, line)) && AtMostOne(Kept(b, line))
    ensures Group(Pending(b) + ([line] + rest))
         == Flushed(Closes(b, line)) + (Opens(line) + Group(Pending(Kept(b, line)) + rest))
  {
    if Groups(line) && Pending(b) != [] && SameKind(Pending(b)[0], line) {
      FeedingTheRun(b, line, rest);
    } else {
      FeedingAnother(b, line, rest);
      FlushingEndsTheRun(b, [line] + rest);
    }
  }

  /** The blocks put out, the waiting lines and the lines to come still make up the document. */
  ghost predicate OnTrack(lines: seq<Line>, n: nat, waiting: Buffers, blocks: seq<Block>) {
    n <= |lines| && AtMostOne(waiting) && blocks + Group(Pending(waiting) + lines[n..]) == Group(lines)
  }

  lemma StartsOnTrack(lines: seq<Line>)
    ensures OnTrack(lines, 0, NO_LINES, [])
  {
    assert Pending(NO_LINES) + lines[0..] == lines;
  }

  lemma StaysOnTrack(lines: seq<Line>, n: nat, b: Buffers, blocks: seq<Block>)
    requires OnTrack(lines, n, b, blocks) && n < |lines|
    ensures AtMostOne(Closes(b, lines[n]))
    ensures OnTrack(lines, n + 1, Kept(b, lines[n]), blocks + Flushed(Closes(b, lines[n])) + Opens(lines[n]))
  {
    var rest := lines[n + 1..];
    assert lines[n..] == [lines[n]] + rest;
    FeedingIsFaithful(b, lines[n], rest);
    Reassociate(blocks, Flushed(Closes(b, lines[n])), Opens(lines[n]), Group(Pending(Kept(b, lines[n])) + rest));
  }

  lemma EndsOnTrack(lines: seq<Line>, b: Buffers, blocks: seq<Block>)
    requires OnTrack(lines, |lines|, b, blocks)
    ensures blocks + Flushed(b) == Group(lines)
  {
    FlushingEndsTheRun(b, lines[|lines|..]);
  }

  lemma Reassociate<T>(a: seq<T>, b: seq<T>, c: seq<T>, d: seq<T>)
    ensures a + (b + (c + d)) == a + b + c + d
  {
  }

  // ----- the converter -----

  function PutParagraph(output: seq<Html>, parts: seq<string>, inline: string -> string): seq<Html> {
    if parts == [] then output else output + Emit(Paragraph(parts), inline)
  }

  function PutOrdered(output: seq<Html>, items: seq<string>, inline: string -> string): seq<Html> {
    if items == [] then output else output + Emit(OrderedList(items), inline)
  }

  function PutUnordered(output: seq<Html>, items: seq<string>, inline: string -> string): seq<Html> {
    if items == [] then output else output + Emit(UnorderedList(items), inline)
  }

  function PutAll(output: seq<Html>, b: Buffers, inline: string -> string): seq<Html> {
    PutUnordered(PutOrdered(PutParagraph(output, b.paragraph, inline), b.ordered, inline), b.unordered, inline)
  }

  function PutHeading(output: seq<Html>, line: Line, inline: string -> string): seq<Html> {
    if line.Heading? then output + [H(line.level, inline(line.text))] else output
  }

  /** Flushing puts out the blocks it should, and a heading line its own block. */
  lemma PutMatchesBlocks(blocks: seq<Block>, b: Buffers, line: Line, inline: string -> string)
    requires AtMostOne(b)
    ensures PutAll(EmitAll(blocks, inline), b, inline) == EmitAll(blocks + Flushed(b), inline)
    ensures PutHeading(EmitAll(blocks, inline), line, inline) == EmitAll(blocks + Opens(line), inline)
  {
    assert blocks + [] == blocks;
    if Flushed(b) != [] { EmitOneMore(blocks, Flushed(b)[0], inline); }
    if line.Heading? { EmitOneMore(blocks, HeadingBlock(line.level, line.text), inline); }
  }

  /** What one round of the line loop does to the blocks decided so far. */
  lemma OneLineOnTrack(lines: seq<Line>, n: nat, b: Buffers, blocks: seq<Block>, inline: string -> string)
    returns (next: seq<Block>)
    requires OnTrack(lines, n, b, blocks) && n < |lines|
    ensures AtMostOne(Closes(b, lines[n])) && OnTrack(lines, n + 1, Kept(b, lines[n]), next)
    ensures PutHeading(PutAll(EmitAll(blocks, inline), Closes(b, lines[n]), inline), lines[n], inline)
      == EmitAll(next, inline)
  {
    var closed := Closes(b, lines[n]);
    StaysOnTrack(lines, n, b, blocks);
    PutMatchesBlocks(blocks, closed, lines[n], inline);
    PutMatchesBlocks(blocks + Flushed(closed), NO_LINES, lines[n], inline);
    next := blocks + Flushed(closed) + Opens(lines[n]);
  }

  lemma LastBuffersOut(lines: seq<Line>, b: Buffers, blocks: seq<Block>, inline: string -> string)
    requires OnTrack(lines, |lines|, b, blocks)
    ensures PutAll(EmitAll(blocks, inline), b, inline) == EmitAll(Group(lines), inline)
  {
    EndsOnTrack(lines, b, blocks);
    PutMatchesBlocks(blocks, b, Blank, inline);
  }

  method FlushParagraph(parts: seq<string>, output: seq<Html>, inline: string -> string)
    returns (left: seq<string>, out: seq<Html>)
    ensures left == [] && out == PutParagraph(output, parts, inline)
  {
    left, out := parts, output;
    if left != [] {
      out := out + [P(inline(Join(left, " ")))];
      left := [];
    }
  }

  method AppendItems(items: seq<string>, output: seq<Html>, inline: string -> string) returns (out: seq<Html>)
    ensures out == output + Items(items, inline)
  {
    out := output;
    for k := 0 to |items|
      invariant out == output + Items(items, inline)[..k]
    {
      out := out + [Li(inline(items[k]))];
    }
    assert Items(items, inline)[..|items|] == Items(items, inline);
  }

  lemma Enclosed(output: seq<Html>, start: Html, items: seq<Html>, end: Html)
    ensures output + [start] + items + [end] == output + ([start] + items + [end])
  {
  }

  method FlushOrdered(items: seq<string>, output: seq<Html>, inline: string -> string)
    returns (left: seq<string>, out: seq<Html>)
    ensures left == [] && out == PutOrdered(output, items, inline)
  {
    left, out := items, output;
    if left != [] {
      out := out + [OpenOl];
      out := AppendItems(left, out, inline);
      out := out + [CloseOl];
      Enclosed(output, OpenOl, Items(left, inline), CloseOl);
      left := [];
    }
  }

  method FlushUnordered(items: seq<string>, output: seq<Html>, inline: string -> string)
    returns (left: seq<string>, out: seq<Html>)
    ensures left == [] && out == PutUnordered(output, items, inline)
  {
    left, out := items, output;
    if left != [] {
      out := out + [OpenUl];
      out := AppendItems(left, out, inline);
      out := out + [CloseUl];
      Enclosed(output, OpenUl, Items(left, inline), CloseUl);
      left := [];
    }
  }

  /** The body of the line loop. */
  method Feed(line: Line, b: Buffers, output: seq<Html>, inline: string -> string)
    returns (next: Buffers, out: seq<Html>)
    requires AtMostOne(b) && AtMostOne(Closes(b, line))
    ensures next == Kept(b, line) && out == PutHeading(PutAll(output, Closes(b, line), inline), line, inline)
  {
    var paragraph, ordered, unordered := b.paragraph, b.ordered, b.unordered;
    out := output;
    match line {
      case Blank =>
        paragraph, out := FlushParagraph(paragraph, out, inline);
        ordered, out := FlushOrdered(ordered, out, inline);
        unordered, out := FlushUnordered(unordered, out, inline);
      case Heading(level, text) =>
        paragraph, out := FlushParagraph(paragraph, out, inline);
        ordered, out := FlushOrdered(ordered, out, inline);
        unordered, out := FlushUnordered(unordered, out, inline);
        out := out + [H(level, inline(text))];
      case Ordered(text) =>
        paragraph, out := FlushParagraph(paragraph, out, inline);
        unordered, out := FlushUnordered(unordered, out, inline);
        ordered := ordered + [text];
      case Unordered(text) =>
        paragraph, out := FlushParagraph(paragraph, out, inline);
        ordered, out := FlushOrdered(ordered, out, inline);
        unordered := unordered + [text];
      case Plain(text) =>
        ordered, out := FlushOrdered(ordered, out, inline);
        unordered, out := FlushUnordered(unordered, out, inline);
        paragraph := paragraph + [text];
    }
    next := Buffers(paragraph, ordered, unordered);
  }

  /** The line loop and the closing flushes. */
  method ConvertLines(raws: seq<string>, inline: string -> string, isDecimal: char -> bool) returns (output: seq<Html>)
    ensures output == EmitAll(Group(ClassifyAll(raws, isDecimal)), inline)
  {
    ghost var lines := ClassifyAll(raws, isDecimal);
    ghost var blocks: seq<Block> := [];
    var waiting := NO_LINES;
    output := [];
    StartsOnTrack(lines);
    for n := 0 to |raws|
      invariant OnTrack(lines, n, waiting, blocks) && output == EmitAll(blocks, inline)
    {
      blocks := OneLineOnTrack(lines, n, waiting, blocks, inline);
      waiting, output := Feed(Classify(raws[n], isDecimal), waiting, output, inline);
    }
    LastBuffersOut(lines, waiting, blocks, inline);
    var paragraph, ordered, unordered;
    paragraph, output := FlushParagraph(waiting.paragraph, output, inline);
    ordered, output := FlushOrdered(waiting.ordered, output, inline);
    unordered, output := FlushUnordered(waiting.unordered, output, inline);
  }

  method MarkdownToHtml(markdown: string, inline: string -> string, isDecimal: char -> bool) returns (html: string)
    ensures html == Join(WrittenAll(EmitAll(Group(ClassifyAll(SplitLines(markdown), isDecimal)), inline)), "\n")
  {
    var output := ConvertLines(SplitLines(markdown), inline, isDecimal);
    html := Join(WrittenAll(output), "\n");
  }
}
