/** White space and stripping, as Python's str does it. */
module Text {

  predicate IsSpace(c: char) {
    var n := c as int;
    || 9 <= n <= 13 || 28 <= n <= 32 || n == 0x85 || n == 0xA0 || n == 0x1680
    || 0x2000 <= n <= 0x200A || n == 0x2028 || n == 0x2029 || n == 0x202F || n == 0x205F || n == 0x3000
  }

  predicate AllSpace(s: string) {
    forall k :: 0 <= k < |s| ==> IsSpace(s[k])
  }

  /** Empty, or starting and ending with something other than white space. */
  predicate Trimmed(s: string) {
    s == "" || (!IsSpace(s[0]) && !IsSpace(s[|s| - 1]))
  }

  /** The first position from i on that is not white space, or the end. */
  function SkipSpace(s: string, i: nat): (j: nat)
    requires i <= |s|
    ensures i <= j <= |s|
    ensures forall k :: i <= k < j ==> IsSpace(s[k])
    ensures j < |s| ==> !IsSpace(s[j])
    decreases |s| - i
  {
    if i < |s| && IsSpace(s[i]) then SkipSpace(s, i + 1) else i
  }

  /** The position behind the last character of s[lo..hi] that is not white space, or lo. */
  function DropSpace(s: string, lo: nat, hi: nat): (j: nat)
    requires lo <= hi <= |s|
    ensures lo <= j <= hi
    ensures forall k :: j <= k < hi ==> IsSpace(s[k])
    ensures lo < j ==> !IsSpace(s[j - 1])
  {
    if lo < hi && IsSpace(s[hi - 1]) then DropSpace(s, lo, hi - 1) else hi
  }

  function Strip(s: string): (r: string)
    ensures Trimmed(r) && |r| <= |s|
  {
    var lo := SkipSpace(s, 0);
    var hi := DropSpace(s, lo, |s|);
    assert lo < hi ==> s[lo..hi][0] == s[lo] && s[lo..hi][hi - lo - 1] == s[hi - 1];
    s[lo..hi]
  }

  /** Stripping takes white space off both ends and nothing else. */
  lemma StripBounds(s: string) returns (lo: nat, hi: nat)
    ensures lo <= hi <= |s| && Strip(s) == s[lo..hi]
    ensures forall k :: 0 <= k < lo || hi <= k < |s| ==> IsSpace(s[k])
    ensures lo < hi ==> !IsSpace(s[lo]) && !IsSpace(s[hi - 1])
    ensures Strip(s) == "" <==> AllSpace(s)
  {
    lo := SkipSpace(s, 0);
    hi := DropSpace(s, lo, |s|);
  }

  lemma StripTrimmed(s: string)
    requires Trimmed(s)
    ensures Strip(s) == s
  {
    var lo, hi := StripBounds(s);
  }

  predicate IsLineBreak(c: char) {
    var n := c as int;
    10 <= n <= 13 || 28 <= n <= 30 || n == 0x85 || n == 0x2028 || n == 0x2029
  }

  /** The position of the first line break from i on, or the end. */
  function LineEnd(s: string, i: nat): (j: nat)
    requires i <= |s|
    ensures i <= j <= |s|
    ensures forall k :: i <= k < j ==> !IsLineBreak(s[k])
    ensures j < |s| ==> IsLineBreak(s[j])
    decreases |s| - i
  {
    if i < |s| && !IsLineBreak(s[i]) then LineEnd(s, i + 1) else i
  }

  /** str.splitlines(): line contents without their breaks; "\r\n" is one break. */
  function SplitLines(s: string): (lines: seq<string>)
    ensures forall k :: 0 <= k < |lines| ==> forall j :: 0 <= j < |lines[k]| ==> !IsLineBreak(lines[k][j])
    decreases |s|
  {
    if s == "" then []
    else
      var end := LineEnd(s, 0);
      var next := if end + 1 < |s| && s[end..end + 2] == "\r\n" then end + 2 else end + 1;
      [s[..end]] + if next < |s| then SplitLines(s[next..]) else []
  }

  predicate OccursAt(s: string, sep: string, p: int) {
    0 <= p && p + |sep| <= |s| && s[p..p + |sep|] == sep
  }

  /** The highest position up to high at which sep occurs in s, or -1. */
  function RFindFrom(s: string, sep: string, high: int): (pos: int)
    requires high + |sep| <= |s|
    ensures -1 <= pos && (0 <= pos ==> pos <= high)
    decreases high
  {
    if high < 0 then -1
    else if s[high..high + |sep|] == sep then high
    else RFindFrom(s, sep, high - 1)
  }

  /** str.rfind(sep, 0, end): the last occurrence that ends by end, or -1. */
  function RFind(s: string, sep: string, end: nat): (pos: int)
    ensures -1 <= pos && (0 <= pos ==> pos + |sep| <= end && pos + |sep| <= |s|)
  {
    var stop := if end < |s| then end else |s|;
    RFindFrom(s, sep, stop - |sep|)
  }

  lemma {:induction false} RFindFromIsLast(s: string, sep: string, high: int)
    requires high + |sep| <= |s|
    ensures 0 <= RFindFrom(s, sep, high) ==> OccursAt(s, sep, RFindFrom(s, sep, high))
    ensures forall p :: RFindFrom(s, sep, high) < p <= high ==> !OccursAt(s, sep, p)
    decreases high
  {
    if 0 <= high && s[high..high + |sep|] != sep { RFindFromIsLast(s, sep, high - 1); }
  }

  /** What was found is an occurrence, and there is no later one that ends by end. */
  lemma RFindIsLast(s: string, sep: string, end: nat)
    ensures
      var pos := RFind(s, sep, end);
      && (0 <= pos ==> OccursAt(s, sep, pos))
      && forall p :: pos < p && p + |sep| <= end ==> !OccursAt(s, sep, p)
  {
    RFindFromIsLast(s, sep, (if end < |s| then end else |s|) - |sep|);
  }

  /** In ASCII, white space is what a blank is, and the four separators from 28 to 31. */
  lemma AsciiSpaces(c: char)
    requires (c as int) < 128
    ensures IsSpace(c) <==>
      || c == ' ' || c == '\t' || c == '\n' || c as int == 11 || c as int == 12 || c == '\r'
      || c as int == 28 || c as int == 29 || c as int == 30 || c as int == 31
  {
  }

  // ----- lines and their breaks -----

  predicate IsBreak(b: string) {
    b == "\r\n" || (|b| == 1 && IsLineBreak(b[0]))
  }

  function Glue(lines: seq<string>, breaks: seq<string>): string
    requires |lines| == |breaks|
  {
    if lines == [] then "" else lines[0] + breaks[0] + Glue(lines[1..], breaks[1..])
  }

  /**
   * Behind each line stands one break, and behind the last one a break or nothing; a carriage return
   * and a line feed behind it are one break.
   */
  ghost predicate Broken(lines: seq<string>, breaks: seq<string>) {
    && |lines| == |breaks|
    && (forall k :: 0 <= k < |breaks| ==>
          IsBreak(breaks[k]) || (breaks[k] == "" && k == |breaks| - 1 && lines[k] != ""))
    && (forall k :: 0 <= k < |breaks| - 1 && breaks[k] == "\r" ==> lines[k + 1] != "" || breaks[k + 1][0] != '\n')
  }

  lemma GlueStarts(lines: seq<string>, breaks: seq<string>)
    requires Broken(lines, breaks) && lines != []
    ensures |Glue(lines, breaks)| > 0
    ensures lines[0] == "" ==> breaks[0] != "" && Glue(lines, breaks)[0] == breaks[0][0]
  {
  }

  lemma BrokenCons(line: string, b: string, lines: seq<string>, breaks: seq<string>)
    requires Broken(lines, breaks)
    requires IsBreak(b) || (b == "" && lines == [] && line != "")
    requires b == "\r" && lines != [] ==> Glue(lines, breaks) == "" || Glue(lines, breaks)[0] != '\n'
    ensures Broken([line] + lines, [b] + breaks)
    ensures Glue([line] + lines, [b] + breaks) == line + b + Glue(lines, breaks)
  {
    var ls, bs := [line] + lines, [b] + breaks;
    assert ls[1..] == lines && bs[1..] == breaks;
    if lines != [] { GlueStarts(lines, breaks); }
    forall k | 0 <= k < |bs| - 1 && bs[k] == "\r" ensures ls[k + 1] != "" || bs[k + 1][0] != '\n' {
      if 0 < k { assert breaks[k - 1] == "\r" && ls[k + 1] == lines[k] && bs[k + 1] == breaks[k]; }
    }
    forall k | 0 <= k < |bs| ensures IsBreak(bs[k]) || (bs[k] == "" && k == |bs| - 1 && ls[k] != "") {
      if 0 < k { assert bs[k] == breaks[k - 1] && ls[k] == lines[k - 1]; }
    }
  }

  function NextLine(s: string): (next: nat)
    requires s != ""
    ensures LineEnd(s, 0) < next
  {
    var end := LineEnd(s, 0);
    if end + 1 < |s| && s[end..end + 2] == "\r\n" then end + 2 else end + 1
  }

  lemma FirstLine(s: string)
    requires s != ""
    ensures SplitLines(s) == [s[..LineEnd(s, 0)]] + if NextLine(s) < |s| then SplitLines(s[NextLine(s)..]) else []
  {
  }

  lemma LineBefore(s: string, lines: seq<string>, breaks: seq<string>)
    requires s != "" && NextLine(s) < |s|
    requires Broken(lines, breaks) && Glue(lines, breaks) == s[NextLine(s)..]
    ensures
      var end, next := LineEnd(s, 0), NextLine(s);
      && Broken([s[..end]] + lines, [s[end..next]] + breaks)
      && Glue([s[..end]] + lines, [s[end..next]] + breaks) == s
  {
    var end, next := LineEnd(s, 0), NextLine(s);
    BreakAt(s, end, next);
    BrokenCons(s[..end], s[end..next], lines, breaks);
    assert s == s[..end] + s[end..next] + s[next..];
  }

  lemma BrokenOne(line: string, b: string)
    requires IsBreak(b) || (b == "" && line != "")
    ensures Broken([line], [b]) && Glue([line], [b]) == line + b
  {
    assert [line][1..] == [] && [b][1..] == [];
    assert Glue([], []) == "";
  }

  lemma OneLine(s: string, end: nat)
    requires end <= |s| && (IsBreak(s[end..]) || (s[end..] == "" && s[..end] != ""))
    ensures Broken([s[..end]], [s[end..]]) && Glue([s[..end]], [s[end..]]) == s
  {
    BrokenOne(s[..end], s[end..]);
    assert s == s[..end] + s[end..];
  }

  /** A text is its lines with one break behind each, the last one perhaps without; no line is lost or made up. */
  lemma {:induction false} LinesAndBreaks(s: string) returns (breaks: seq<string>)
    ensures Broken(SplitLines(s), breaks) && Glue(SplitLines(s), breaks) == s
    decreases |s|
  {
    if s == "" {
      breaks := [];
    } else {
      FirstLine(s);
      if NextLine(s) < |s| {
        var rest := LinesAndBreaks(s[NextLine(s)..]);
        LineBefore(s, SplitLines(s[NextLine(s)..]), rest);
        breaks := [s[LineEnd(s, 0)..NextLine(s)]] + rest;
      } else {
        LastBreak(s, LineEnd(s, 0), NextLine(s));
        OneLine(s, LineEnd(s, 0));
        breaks := [s[LineEnd(s, 0)..]];
      }
    }
  }

  lemma BreakAt(s: string, end: nat, next: nat)
    requires end < |s| && IsLineBreak(s[end]) && next < |s|
    requires next == if end + 1 < |s| && s[end..end + 2] == "\r\n" then end + 2 else end + 1
    ensures IsBreak(s[end..next]) && (s[end..next] == "\r" ==> s[next..][0] != '\n')
  {
    if next == end + 1 {
      assert s[end..next] == [s[end]];
      assert s[end..end + 2] == [s[end], s[end + 1]];
    }
  }

  lemma LastBreak(s: string, end: nat, next: nat)
    requires end <= |s| <= next && s != "" && (end < |s| ==> IsLineBreak(s[end]))
    requires next == if end + 1 < |s| && s[end..end + 2] == "\r\n" then end + 2 else end + 1
    ensures IsBreak(s[end..]) || (s[end..] == "" && s[..end] != "")
  {
    if end + 1 == |s| { assert s[end..] == [s[end]]; }
    if end + 2 == |s| { assert s[end..] == s[end..end + 2]; }
  }

  /** In ASCII, the characters that break a line are those from line feed to carriage return, and from 28 to 30. */
  lemma AsciiBreaks(c: char)
    requires (c as int) < 128
    ensures IsLineBreak(c) <==> 10 <= c as int <= 13 || 28 <= c as int <= 30
  {
  }
}
