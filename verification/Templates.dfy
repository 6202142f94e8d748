/** Document templates: finding placeholders, filling them, and completing the context. */
module Templates {
  import opened Common
  import opened Text

  // ----- the placeholder pattern -----

  predicate IsWord(c: char) {
    'a' <= c <= 'z' || 'A' <= c <= 'Z' || '0' <= c <= '9' || c == '_'
  }

  function SkipWord(s: string, i: nat): (j: nat)
    requires i <= |s|
    ensures i <= j <= |s|
    ensures forall k :: i <= k < j ==> IsWord(s[k])
    ensures j < |s| ==> !IsWord(s[j])
    decreases |s| - i
  {
    if i < |s| && IsWord(s[i]) then SkipWord(s, i + 1) else i
  }

  /** A placeholder from start up to end with the given key. */
  datatype Span = Span(start: nat, end: nat, key: string)

  /** The match of the pattern that starts at i, if there is one. */
  function MatchAt(s: string, i: nat): (m: Option<Span>)
    requires i <= |s|
    ensures m.Some? ==> m.value.start == i && i < m.value.end <= |s|
  {
    if i + 2 <= |s| && s[i] == '{' && s[i + 1] == '{' then
      var keyStart := SkipSpace(s, i + 2);
      var keyEnd := SkipWord(s, keyStart);
      var close := SkipSpace(s, keyEnd);
      if keyStart < keyEnd && close + 2 <= |s| && s[close] == '}' && s[close + 1] == '}'
      then Some(Span(i, close + 2, s[keyStart..keyEnd]))
      else None
    else None
  }

  /** What the pattern says: two braces, white space up to a, a word up to b, white space up to c, two braces. */
  ghost predicate PatternHolds(s: string, m: Span, a: nat, b: nat, c: nat) {
    && m.start + 2 <= a < b <= c && m.end == c + 2 <= |s|
    && s[m.start] == '{' && s[m.start + 1] == '{' && s[c] == '}' && s[c + 1] == '}'
    && (forall k :: m.start + 2 <= k < a || b <= k < c ==> IsSpace(s[k]))
    && (forall k :: a <= k < b ==>
          'a' <= s[k] <= 'z' || 'A' <= s[k] <= 'Z' || '0' <= s[k] <= '9' || s[k] == '_')
    && m.key == s[a..b]
  }

  ghost predicate IsPlaceholder(s: string, m: Span) {
    exists a, b, c :: PatternHolds(s, m, a, b, c)
  }

  /** The left-to-right, non-overlapping matches from position i on. */
  function Spans(s: string, i: nat): (spans: seq<Span>)
    requires i <= |s|
    decreases |s| - i
  {
    if i == |s| then []
    else
      var m := MatchAt(s, i);
      if m.None? then Spans(s, i + 1) else [m.value] + Spans(s, m.value.end)
  }

  function KeysOf(spans: seq<Span>): set<string> {
    set k | 0 <= k < |spans| :: spans[k].key
  }

  function ExtractPlaceholders(body: string): set<string> {
    KeysOf(Spans(body, 0))
  }

  // ----- rendering -----

  /** Substitution from position i: literal text up to the next match, its value, and so on. */
  function Fill(s: string, i: nat, spans: seq<Span>, context: map<string, string>): Result<string, string>
    requires i <= |s| && InOrder(s, i, spans)
    decreases |spans|
  {
    if spans == [] then Ok(s[i..])
    else if spans[0].key !in context then Err(spans[0].key)
    else
      var rest := Fill(s, spans[0].end, spans[1..], context);
      if rest.Err? then rest else Ok(s[i..spans[0].start] + context[spans[0].key] + rest.value)
  }

  /** Spans lie one behind the other from i on. */
  predicate InOrder(s: string, i: nat, spans: seq<Span>)
    decreases |spans|
  {
    i <= |s| && (spans != [] ==> i <= spans[0].start < spans[0].end <= |s| && InOrder(s, spans[0].end, spans[1..]))
  }

  lemma {:induction false} SpansInOrder(s: string, i: nat, j: nat)
    requires i <= j <= |s|
    ensures InOrder(s, i, Spans(s, j))
    decreases |s| - j
  {
    if j < |s| {
      var m := MatchAt(s, j);
      if m.None? {
        SpansInOrder(s, i, j + 1);
      } else {
        SpansInOrder(s, m.value.end, m.value.end);
        assert Spans(s, j)[1..] == Spans(s, m.value.end);
      }
    }
  }

  /** Err carries the key of the first placeholder without a value. */
  function RenderTemplate(body: string, context: map<string, string>): Result<string, string> {
    SpansInOrder(body, 0, 0);
    Fill(body, 0, Spans(body, 0), context)
  }

  // ----- the context -----

  datatype Field = Field(key: string, default: Option<string>, isRequired: bool)

  datatype ContextError = RequiredFieldMissing(key: string) | ValuesMissing(keys: set<string>)

  /** The default of a field goes in only where nothing is there yet. */
  function WithDefaults(context: map<string, string>, fields: seq<Field>, placeholders: set<string>)
    : Result<map<string, string>, ContextError>
    decreases |fields|
  {
    if fields == [] then Ok(context)
    else
      var f := fields[0];
      if f.key in context then WithDefaults(context, fields[1..], placeholders)
      else if f.default.Some? then WithDefaults(context[f.key := f.default.value], fields[1..], placeholders)
      else if f.isRequired && f.key in placeholders then Err(RequiredFieldMissing(f.key))
      else WithDefaults(context, fields[1..], placeholders)
  }

  method BuildContext(body: string, fields: seq<Field>, provided: map<string, string>)
    returns (r: Result<map<string, string>, ContextError>)
    ensures r == ContextFor(body, fields, provided)
  {
    var context := provided;
    var placeholders := ExtractPlaceholders(body);
    for n := 0 to |fields|
      invariant WithDefaults(provided, fields, placeholders) == WithDefaults(context, fields[n..], placeholders)
    {
      assert fields[n..][0] == fields[n] && fields[n..][1..] == fields[n + 1..];
      var field := fields[n];
      if field.key in context { continue; }
      if field.default.Some? {
        context := context[field.key := field.default.value];
      } else if field.isRequired && field.key in placeholders {
        return Err(RequiredFieldMissing(field.key));
      }
    }
    var missing := placeholders - context.Keys;
    if missing != {} { return Err(ValuesMissing(missing)); }
    r := Ok(context);
  }

  function ContextFor(body: string, fields: seq<Field>, provided: map<string, string>)
    : Result<map<string, string>, ContextError>
  {
    var placeholders := ExtractPlaceholders(body);
    var filled := WithDefaults(provided, fields, placeholders);
    if filled.Err? then filled
    else if placeholders - filled.value.Keys != {} then Err(ValuesMissing(placeholders - filled.value.Keys))
    else filled
  }

  datatype GenerateError = BadContext(cause: ContextError) | MissingPlaceholder(key: string)

  /** Builds the context and renders with it. */
  function GenerateDocument(body: string, fields: seq<Field>, provided: map<string, string>)
    : Result<string, GenerateError>
  {
    var context := ContextFor(body, fields, provided);
    if context.Err? then Err(BadContext(context.error))
    else
      var rendered := RenderTemplate(body, context.value);
      if rendered.Err? then Err(MissingPlaceholder(rendered.error)) else Ok(rendered.value)
  }
}
