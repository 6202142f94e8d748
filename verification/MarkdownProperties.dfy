/** What the grouping of lines into blocks means, independently of how it is computed. */
module MarkdownProperties {
  import opened Markdown

  // ----- nothing lost, nothing moved -----

  function Lines(texts: seq<string>, kind: string -> Line): (lines: seq<Line>)
    ensures |lines| == |texts|
  {
    seq(|texts|, k requires 0 <= k < |texts| => kind(texts[k]))
  }

  /** The lines a block was made from. */
  function LinesOf(block: Block): seq<Line> {
    match block
    case HeadingBlock(level, text) => [Heading(level, text)]
    case Paragraph(lines) => Lines(lines, s => Plain(s))
    case OrderedList(items) => Lines(items, s => Ordered(s))
    case UnorderedList(items) => Lines(items, s => Unordered(s))
  }

  function AllLinesOf(blocks: seq<Block>): seq<Line> {
    if blocks == [] then [] else LinesOf(blocks[0]) + AllLinesOf(blocks[1..])
  }

  function WithoutBlanks(lines: seq<Line>): seq<Line> {
    if lines == [] then []
    else if lines[0].Blank? then WithoutBlanks(lines[1..])
    else [lines[0]] + WithoutBlanks(lines[1..])
  }

  lemma BlockKeepsRun(run: seq<Line>)
    requires IsRun(run)
    ensures LinesOf(BlockOf(run)) == run
  {
  }

  lemma {:induction false} NoBlanksInPrefix(lines: seq<Line>, n: nat)
    requires n <= |lines| && forall k :: 0 <= k < n ==> !lines[k].Blank?
    ensures WithoutBlanks(lines) == lines[..n] + WithoutBlanks(lines[n..])
    decreases n
  {
    if n > 0 {
      NoBlanksInPrefix(lines[1..], n - 1);
      assert lines[..n] == [lines[0]] + lines[1..][..n - 1];
      assert lines[1..][n - 1..] == lines[n..];
    }
  }

  /** Every line that is not blank is in exactly one block, and the order is kept. */
  lemma {:induction false} EveryLineOnceInOrder(lines: seq<Line>)
    ensures AllLinesOf(Group(lines)) == WithoutBlanks(lines)
    decreases |lines|
  {
    if lines != [] {
      if Groups(lines[0]) {
        var n := RunLength(lines);
        var run := lines[..n];
        BlockKeepsRun(run);
        EveryLineOnceInOrder(lines[n..]);
        NoBlanksInPrefix(lines, n);
        assert Group(lines)[1..] == Group(lines[n..]);
      } else {
        EveryLineOnceInOrder(lines[1..]);
        if lines[0].Heading? { assert Group(lines)[1..] == Group(lines[1..]); }
      }
    }
  }

  // ----- blocks are as large as they can be -----

  /** Line k opens a block: a heading, or a line whose kind differs from the line before it. */
  predicate OpensBlock(lines: seq<Line>, k: nat)
    requires k < |lines|
  {
    lines[k].Heading? || (Groups(lines[k]) && (k == 0 || !SameKind(lines[k - 1], lines[k])))
  }

  function BlockStarts(lines: seq<Line>, from: nat): nat
    requires from <= |lines|
    decreases |lines| - from
  {
    if from == |lines| then 0
    else (if OpensBlock(lines, from) then 1 else 0) + BlockStarts(lines, from + 1)
  }

  lemma {:induction false} StartsInSuffix(lines: seq<Line>, n: nat, from: nat)
    requires 0 < n <= from <= |lines|
    requires n < |lines| ==> !Groups(lines[n]) || !SameKind(lines[n - 1], lines[n])
    ensures BlockStarts(lines, from) == BlockStarts(lines[n..], from - n)
    decreases |lines| - from
  {
    if from < |lines| {
      StartsInSuffix(lines, n, from + 1);
      assert OpensBlock(lines, from) == OpensBlock(lines[n..], from - n);
    }
  }

  lemma {:induction false} NoStartsInsideRun(lines: seq<Line>, k: nat, n: nat)
    requires 0 < k <= n <= |lines| && IsRun(lines[..n])
    ensures BlockStarts(lines, k) == BlockStarts(lines, n)
    decreases n - k
  {
    if k < n {
      assert lines[..n][k] == lines[k] && lines[..n][k - 1] == lines[k - 1] && lines[..n][0] == lines[0];
      NoStartsInsideRun(lines, k + 1, n);
    }
  }

  /** There are exactly as many blocks as headings and maximal runs: no run is ever broken up. */
  lemma {:induction false} RunsAreMaximal(lines: seq<Line>)
    ensures |Group(lines)| == BlockStarts(lines, 0)
    decreases |lines|
  {
    if lines != [] {
      if Groups(lines[0]) {
        var n := RunLength(lines);
        NoStartsInsideRun(lines, 1, n);
        assert SameKind(lines[0], lines[n - 1]);
        StartsInSuffix(lines, n, n);
        RunsAreMaximal(lines[n..]);
      } else {
        RunsAreMaximal(lines[1..]);
        StartsInSuffix(lines, 1, 1);
      }
    }
  }

  // ----- list tags -----

  datatype Tag = Outside | InOrdered | InUnordered | Broken

  /** Where the output stands after one more line: lists must not nest, and items live only in lists. */
  function Track(at: Tag, h: Html): Tag {
    match h
    case H(_, _) => if at == Outside then Outside else Broken
    case P(_) => if at == Outside then Outside else Broken
    case Li(_) => if at == Outside then Broken else at
    case OpenOl => if at == Outside then InOrdered else Broken
    case CloseOl => if at == InOrdered then Outside else Broken
    case OpenUl => if at == Outside then InUnordered else Broken
    case CloseUl => if at == InUnordered then Outside else Broken
  }

  function TrackAll(at: Tag, html: seq<Html>): Tag {
    if html == [] then at else Track(TrackAll(at, html[..|html| - 1]), html[|html| - 1])
  }

  lemma {:induction false} TrackConcat(at: Tag, a: seq<Html>, b: seq<Html>)
    ensures TrackAll(at, a + b) == TrackAll(TrackAll(at, a), b)
    decreases |b|
  {
    if b == [] {
      assert a + b == a;
    } else {
      TrackConcat(at, a, b[..|b| - 1]);
      assert (a + b)[..|a + b| - 1] == a + b[..|b| - 1];
    }
  }

  lemma {:induction false} TrackItems(at: Tag, items: seq<string>, inline: string -> string)
    requires at in {InOrdered, InUnordered}
    ensures TrackAll(at, Items(items, inline)) == at
    decreases |items|
  {
    if items != [] {
      var n := |items| - 1;
      TrackItems(at, items[..n], inline);
      assert Items(items, inline)[..n] == Items(items[..n], inline);
    }
  }

  lemma TrackList(items: seq<string>, ordered: bool, inline: string -> string)
    ensures
      var open, close := if ordered then OpenOl else OpenUl, if ordered then CloseOl else CloseUl;
      TrackAll(Outside, [open] + Items(items, inline) + [close]) == Outside
  {
    var open, close := if ordered then OpenOl else OpenUl, if ordered then CloseOl else CloseUl;
    var inside := if ordered then InOrdered else InUnordered;
    assert TrackAll(Outside, [open]) == inside by { assert [open][..0] == []; }
    TrackItems(inside, items, inline);
    TrackConcat(Outside, [open], Items(items, inline));
    TrackConcat(Outside, [open] + Items(items, inline), [close]);
    assert TrackAll(inside, [close]) == Outside by { assert [close][..0] == []; }
  }

  lemma TrackBlock(block: Block, inline: string -> string)
    ensures TrackAll(Outside, Emit(block, inline)) == Outside
  {
    match block
    case OrderedList(items) => TrackList(items, true, inline);
    case UnorderedList(items) => TrackList(items, false, inline);
    case _ => assert Emit(block, inline)[..0] == [];
  }

  /** In every output the list tags are balanced and never nested, and no item stands outside a list. */
  lemma {:induction false} ListTagsBalance(blocks: seq<Block>, inline: string -> string)
    ensures TrackAll(Outside, EmitAll(blocks, inline)) == Outside
    decreases |blocks|
  {
    if blocks != [] {
      var n := |blocks| - 1;
      ListTagsBalance(blocks[..n], inline);
      TrackConcat(Outside, EmitAll(blocks[..n], inline), Emit(blocks[n], inline));
      TrackBlock(blocks[n], inline);
    }
  }
}
