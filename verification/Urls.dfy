/** Splitting a URL into its five parts, as the URL library's urlsplit does it. */
module Urls {

  datatype UrlParts = UrlParts(scheme: string, netloc: string, path: string, query: string, fragment: string)

  predicate IsBreak(c: char) {
    c == '\t' || c == '\r' || c == '\n'
  }

  predicate IsAsciiLetter(c: char) {
    'a' <= c <= 'z' || 'A' <= c <= 'Z'
  }

  predicate IsSchemeChar(c: char) {
    IsAsciiLetter(c) || '0' <= c <= '9' || c == '+' || c == '-' || c == '.'
  }

  function LowerChar(c: char): char {
    if 'A' <= c <= 'Z' then 'a' + (c - 'A') else c
  }

  /** ASCII lower case. */
  function Lower(s: string): (r: string)
    ensures |r| == |s| && forall k :: 0 <= k < |s| ==> r[k] == LowerChar(s[k])
  {
    seq(|s|, k requires 0 <= k < |s| => LowerChar(s[k]))
  }

  /** The position behind the leading control characters and spaces. */
  function SkipControls(s: string, i: nat): (j: nat)
    requires i <= |s|
    ensures i <= j <= |s|
    decreases |s| - i
  {
    if i < |s| && s[i] <= ' ' then SkipControls(s, i + 1) else i
  }

  /** The text without its tabs and line breaks. */
  function WithoutBreaks(s: string): (r: string)
    ensures |r| <= |s|
    ensures forall k :: 0 <= k < |r| ==> !IsBreak(r[k])
  {
    if s == "" then ""
    else
      var n := |s| - 1;
      WithoutBreaks(s[..n]) + if IsBreak(s[n]) then "" else [s[n]]
  }

  /** What is left of a URL before it is taken apart. */
  function Cleaned(url: string): (r: string)
    ensures |r| <= |url|
  {
    WithoutBreaks(url[SkipControls(url, 0)..])
  }

  /** The first position from i on that holds one of the characters, or the end. */
  function Find(s: string, marks: string, i: nat): (j: nat)
    requires i <= |s|
    ensures i <= j <= |s|
    ensures forall k :: i <= k < j ==> s[k] !in marks
    ensures j < |s| ==> s[j] in marks
    decreases |s| - i
  {
    if i < |s| && s[i] !in marks then Find(s, marks, i + 1) else i
  }

  /** The length of the scheme in front of the first colon, or 0 when there is none. */
  function SchemeLength(s: string): (n: nat)
    ensures 0 < n ==> n < |s| && s[n] == ':'
  {
    var i := Find(s, ":", 0);
    if 0 < i < |s| && IsAsciiLetter(s[0]) && forall k :: 0 <= k < i ==> IsSchemeChar(s[k]) then i else 0
  }

  /** Cuts the text at the first mark, which goes to neither side. */
  function CutAt(s: string, mark: char): (r: (string, string)) {
    var i := Find(s, [mark], 0);
    if i < |s| then (s[..i], s[i + 1..]) else (s, "")
  }

  /** The scheme as written, or nothing, and what follows its colon. */
  function CutScheme(s: string): (r: (string, string)) {
    var n := SchemeLength(s);
    if 0 < n then (s[..n], s[n + 1..]) else ("", s)
  }

  /** The authority between a leading double slash and the next mark, or nothing, and what follows. */
  function CutAuthority(s: string): (r: (string, string)) {
    if "//" <= s then
      var d := Find(s, "/?#", 2);
      (s[2..d], s[d..])
    else ("", s)
  }

  function UrlSplit(url: string): UrlParts {
    var (scheme, rest) := CutScheme(Cleaned(url));
    var (netloc, tail) := CutAuthority(rest);
    var (front, fragment) := CutAt(tail, '#');
    var (path, query) := CutAt(front, '?');
    UrlParts(Lower(scheme), netloc, path, query, fragment)
  }

  // ----- taking apart and putting together -----

  lemma FindStops(s: string, marks: string, i: nat, j: nat)
    requires i <= j <= |s| && (forall k :: i <= k < j ==> s[k] !in marks) && (j < |s| ==> s[j] in marks)
    ensures Find(s, marks, i) == j
  {
  }

  lemma {:induction false} NothingToClean(s: string)
    requires forall k :: 0 <= k < |s| ==> !IsBreak(s[k])
    ensures WithoutBreaks(s) == s
  {
    if s != "" {
      var n := |s| - 1;
      NothingToClean(s[..n]);
      assert s == s[..n] + [s[n]];
    }
  }

  ghost predicate Plain(s: string) {
    forall k :: 0 <= k < |s| ==> ' ' < s[k] && s[k] != '?' && s[k] != '#'
  }

  lemma PlainIsClean(s: string)
    requires Plain(s)
    ensures Cleaned(s) == s
  {
    NothingToClean(s);
    assert SkipControls(s, 0) == 0;
    assert s[0..] == s;
  }

  lemma CutNothing(s: string, mark: char)
    requires forall k :: 0 <= k < |s| ==> s[k] != mark
    ensures CutAt(s, mark) == (s, "")
  {
  }

  lemma CutSchemeOf(scheme: string, rest: string)
    requires scheme != "" && (forall k :: 0 <= k < |scheme| ==> 'a' <= scheme[k] <= 'z')
    ensures CutScheme(scheme + ":" + rest) == (scheme, rest)
  {
    var url := scheme + ":" + rest;
    var n := |scheme|;
    assert forall k :: 0 <= k < n ==> url[k] == scheme[k];
    FindStops(url, ":", 0, n);
    assert url[..n] == scheme && url[n + 1..] == rest;
  }

  lemma CutAuthorityOf(netloc: string, path: string)
    requires forall k :: 0 <= k < |netloc| ==> netloc[k] !in "/?#"
    requires path != "" && path[0] == '/'
    ensures CutAuthority("//" + netloc + path) == (netloc, path)
  {
    var rest := "//" + netloc + path;
    var d := 2 + |netloc|;
    assert forall k :: 2 <= k < d ==> rest[k] == netloc[k - 2];
    assert rest[d] == '/';
    FindStops(rest, "/?#", 2, d);
    assert rest[2..d] == netloc && rest[d..] == path;
  }

  /** A scheme, an authority and a path without query or fragment come back as they are. */
  lemma SplitOfParts(scheme: string, netloc: string, path: string)
    requires scheme != "" && (forall k :: 0 <= k < |scheme| ==> 'a' <= scheme[k] <= 'z')
    requires forall k :: 0 <= k < |netloc| ==> netloc[k] !in "/?#"
    requires path != "" && path[0] == '/' && Plain(path)
    requires Plain(scheme + ":" + ("//" + netloc + path))
    ensures UrlSplit(scheme + ":" + ("//" + netloc + path)) == UrlParts(scheme, netloc, path, "", "")
  {
    var rest := "//" + netloc + path;
    PlainIsClean(scheme + ":" + rest);
    CutSchemeOf(scheme, rest);
    CutAuthorityOf(netloc, path);
    CutNothing(path, '#');
    CutNothing(path, '?');
    assert Lower(scheme) == scheme;
  }

  /** What an empty query and fragment may have looked like. */
  predicate EmptyTail(tail: string) {
    tail == "" || tail == "?" || tail == "#" || tail == "?#"
  }

  lemma CutJoins(s: string, mark: char) returns (tail: string)
    requires CutAt(s, mark).1 == ""
    ensures (tail == "" || tail == [mark]) && s == CutAt(s, mark).0 + tail
  {
    var i := Find(s, [mark], 0);
    tail := s[i..];
    if i < |s| { assert tail == [s[i]] + s[i + 1..]; }
    assert s == s[..i] + tail;
  }

  lemma TwoTails(question: string, hash: string)
    requires (question == "" || question == "?") && (hash == "" || hash == "#")
    ensures EmptyTail(question + hash)
  {
  }

  lemma JoinAgain(s: string, front: string, path: string, question: string, hash: string)
    requires s == front + hash && front == path + question
    ensures s == path + (question + hash)
  {
  }

  lemma CutsJoin(s: string) returns (tail: string)
    requires CutAt(s, '#').1 == "" && CutAt(CutAt(s, '#').0, '?').1 == ""
    ensures EmptyTail(tail) && s == CutAt(CutAt(s, '#').0, '?').0 + tail
  {
    var hash := CutJoins(s, '#');
    var front := CutAt(s, '#').0;
    var question := CutJoins(front, '?');
    TwoTails(question, hash);
    JoinAgain(s, front, CutAt(front, '?').0, question, hash);
    tail := question + hash;
  }

  lemma SchemeJoins(s: string)
    requires CutScheme(s).0 != ""
    ensures s == CutScheme(s).0 + ":" + CutScheme(s).1
  {
    var n := SchemeLength(s);
    assert s == s[..n] + [s[n]] + s[n + 1..];
  }

  lemma AuthorityJoins(s: string)
    requires CutAuthority(s).0 != ""
    ensures s == "//" + CutAuthority(s).0 + CutAuthority(s).1
  {
    var d := Find(s, "/?#", 2);
    assert s == s[..2] + s[2..d] + s[d..];
  }

  /** The cleaned URL is its parts put together, up to the case of the scheme and an empty tail. */
  lemma PartsJoin(url: string) returns (head: string, tail: string)
    requires UrlSplit(url).scheme != "" && UrlSplit(url).netloc != ""
    requires UrlSplit(url).query == "" && UrlSplit(url).fragment == ""
    ensures Lower(head) == UrlSplit(url).scheme && EmptyTail(tail)
    ensures Cleaned(url) == head + ":" + ("//" + UrlSplit(url).netloc + (UrlSplit(url).path + tail))
  {
    SchemeJoins(Cleaned(url));
    head := CutScheme(Cleaned(url)).0;
    var rest := CutScheme(Cleaned(url)).1;
    AuthorityJoins(rest);
    tail := CutsJoin(CutAuthority(rest).1);
  }
}
