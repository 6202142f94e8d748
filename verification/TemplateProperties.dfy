/** What rendering a template guarantees. */
module TemplateProperties {
  import opened Common
  import opened Text
  import opened Templates

  // ----- the matcher is the pattern -----

  lemma SkipSpaceStops(s: string, i: nat, j: nat)
    requires i <= j < |s| && (forall k :: i <= k < j ==> IsSpace(s[k])) && !IsSpace(s[j])
    ensures SkipSpace(s, i) == j
  {
  }

  lemma SkipWordStops(s: string, i: nat, j: nat)
    requires i <= j < |s| && (forall k :: i <= k < j ==> IsWord(s[k])) && !IsWord(s[j])
    ensures SkipWord(s, i) == j
  {
  }

  lemma PatternIsFound(s: string, m: Span, a: nat, b: nat, c: nat)
    requires PatternHolds(s, m, a, b, c)
    ensures MatchAt(s, m.start) == Some(m)
  {
    SkipSpaceStops(s, m.start + 2, a);
    SkipWordStops(s, a, b);
    SkipSpaceStops(s, b, c);
  }

  /** The deterministic scan finds a match at i exactly when the pattern has one there, and it has at most one. */
  lemma MatchAtIff(s: string, m: Span)
    requires m.start <= |s|
    ensures MatchAt(s, m.start) == Some(m) <==> IsPlaceholder(s, m)
  {
    if MatchAt(s, m.start) == Some(m) {
      var a := SkipSpace(s, m.start + 2);
      var b := SkipWord(s, a);
      var c := SkipSpace(s, b);
      assert PatternHolds(s, m, a, b, c);
    }
    if a, b, c :| PatternHolds(s, m, a, b, c) {
      PatternIsFound(s, m, a, b, c);
    }
  }

  ghost predicate Outside(spans: seq<Span>, p: nat) {
    forall k :: 0 <= k < |spans| ==> !(spans[k].start <= p < spans[k].end)
  }

  lemma OutsideTail(first: Span, rest: seq<Span>, p: nat)
    requires Outside([first] + rest, p)
    ensures Outside(rest, p) && !(first.start <= p < first.end)
  {
    var spans := [first] + rest;
    assert spans[0] == first;
    assert forall k :: 0 <= k < |rest| ==> rest[k] == spans[k + 1];
  }

  /** No placeholder starts between the matches: the scan takes the leftmost one every time. */
  lemma {:induction false} GapsHoldNoPlaceholder(s: string, i: nat, p: nat)
    requires i <= p < |s| && Outside(Spans(s, i), p)
    ensures MatchAt(s, p).None?
    decreases |s| - i
  {
    var m := MatchAt(s, i);
    if m.None? {
      if i < p { GapsHoldNoPlaceholder(s, i + 1, p); }
    } else {
      OutsideTail(m.value, Spans(s, m.value.end), p);
      GapsHoldNoPlaceholder(s, m.value.end, p);
    }
  }

  ghost predicate IsMatch(s: string, m: Span) {
    m.start <= |s| && MatchAt(s, m.start) == Some(m)
  }

  lemma {:induction false} SpansAreMatches(s: string, i: nat)
    requires i <= |s|
    ensures forall k :: 0 <= k < |Spans(s, i)| ==> IsMatch(s, Spans(s, i)[k])
    decreases |s| - i
  {
    if i < |s| {
      var m := MatchAt(s, i);
      if m.None? {
        SpansAreMatches(s, i + 1);
      } else {
        SpansAreMatches(s, m.value.end);
        assert Spans(s, i) == [m.value] + Spans(s, m.value.end);
      }
    }
  }

  /** Each reported span is a placeholder of the pattern. */
  lemma SpansArePlaceholders(s: string, k: nat)
    requires k < |Spans(s, 0)|
    ensures IsPlaceholder(s, Spans(s, 0)[k])
  {
    SpansAreMatches(s, 0);
    assert IsMatch(s, Spans(s, 0)[k]);
    MatchAtIff(s, Spans(s, 0)[k]);
  }

  // ----- rendering -----

  /** The literal pieces around the spans, one more than there are spans. */
  function Gaps(s: string, i: nat, spans: seq<Span>): (gaps: seq<string>)
    requires InOrder(s, i, spans)
    ensures |gaps| == |spans| + 1
    decreases |spans|
  {
    if spans == [] then [s[i..]] else [s[i..spans[0].start]] + Gaps(s, spans[0].end, spans[1..])
  }

  function Interleave(gaps: seq<string>, values: seq<string>): string
    requires |gaps| == |values| + 1
    decreases |values|
  {
    if values == [] then gaps[0] else gaps[0] + values[0] + Interleave(gaps[1..], values[1..])
  }

  function ValuesFor(spans: seq<Span>, context: map<string, string>): (values: seq<string>)
    requires KeysOf(spans) <= context.Keys
    ensures |values| == |spans|
  {
    seq(|spans|, k requires 0 <= k < |spans| =>
      assert spans[k].key in KeysOf(spans); context[spans[k].key])
  }

  function SourcesOf(s: string, spans: seq<Span>): (sources: seq<string>)
    requires forall k :: 0 <= k < |spans| ==> spans[k].start <= spans[k].end <= |s|
    ensures |sources| == |spans|
  {
    seq(|spans|, k requires 0 <= k < |spans| => s[spans[k].start..spans[k].end])
  }

  lemma KeysOfSplit(spans: seq<Span>)
    requires spans != []
    ensures KeysOf(spans) == {spans[0].key} + KeysOf(spans[1..])
  {
    assert forall k :: 1 <= k < |spans| ==> spans[k].key == spans[1..][k - 1].key;
    assert forall k :: 0 <= k < |spans| - 1 ==> spans[1..][k].key == spans[k + 1].key;
  }

  lemma {:induction false} FillIsInterleaving(s: string, i: nat, spans: seq<Span>, context: map<string, string>)
    requires i <= |s| && InOrder(s, i, spans)
    ensures Fill(s, i, spans, context).Ok? <==> KeysOf(spans) <= context.Keys
    ensures Fill(s, i, spans, context).Ok? ==>
      Fill(s, i, spans, context).value == Interleave(Gaps(s, i, spans), ValuesFor(spans, context))
    ensures Fill(s, i, spans, context).Err? ==> exists k ::
      && 0 <= k < |spans| && Fill(s, i, spans, context).error == spans[k].key && spans[k].key !in context
      && forall j :: 0 <= j < k ==> spans[j].key in context
    decreases |spans|
  {
    if spans != [] {
      KeysOfSplit(spans);
      FillIsInterleaving(s, spans[0].end, spans[1..], context);
      if spans[0].key in context {
        var rest := Fill(s, spans[0].end, spans[1..], context);
        if rest.Ok? {
          assert ValuesFor(spans, context)[1..] == ValuesFor(spans[1..], context);
        } else {
          var k :| 0 <= k < |spans| - 1 && rest.error == spans[1..][k].key && spans[1..][k].key !in context
            && forall j :: 0 <= j < k ==> spans[1..][j].key in context;
          forall j | 0 <= j < k + 1 ensures spans[j].key in context {
            if j > 0 { assert spans[1..][j - 1] == spans[j]; }
          }
          assert spans[k + 1].key == rest.error;
        }
      }
    }
  }

  /** Rendering fails exactly when some placeholder has no value. */
  lemma RenderFailsIff(body: string, context: map<string, string>)
    ensures RenderTemplate(body, context).Err? <==> exists key :: key in ExtractPlaceholders(body) && key !in context
  {
    SpansInOrder(body, 0, 0);
    FillIsInterleaving(body, 0, Spans(body, 0), context);
  }

  lemma {:induction false} SpansWithinText(s: string, i: nat, spans: seq<Span>)
    requires InOrder(s, i, spans)
    ensures forall k :: 0 <= k < |spans| ==> spans[k].start <= spans[k].end <= |s|
    ensures Interleave(Gaps(s, i, spans), SourcesOf(s, spans)) == s[i..]
    decreases |spans|
  {
    if spans != [] {
      SpansWithinText(s, spans[0].end, spans[1..]);
      assert forall k :: 1 <= k < |spans| ==> spans[k] == spans[1..][k - 1];
      assert SourcesOf(s, spans)[1..] == SourcesOf(s, spans[1..]);
    }
  }

  /**
   * Template and output consist of the same literal pieces; where the template has its placeholders
   * the output has their values, whatever those contain.
   */
  lemma RenderReplacesPlaceholders(body: string, context: map<string, string>)
    requires RenderTemplate(body, context).Ok?
    ensures InOrder(body, 0, Spans(body, 0)) && KeysOf(Spans(body, 0)) <= context.Keys
    ensures forall k :: 0 <= k < |Spans(body, 0)| ==> Spans(body, 0)[k].start <= Spans(body, 0)[k].end <= |body|
    ensures
      var spans := Spans(body, 0);
      var gaps := Gaps(body, 0, spans);
      && body == Interleave(gaps, SourcesOf(body, spans))
      && RenderTemplate(body, context).value == Interleave(gaps, ValuesFor(spans, context))
  {
    SpansInOrder(body, 0, 0);
    FillIsInterleaving(body, 0, Spans(body, 0), context);
    SpansWithinText(body, 0, Spans(body, 0));
  }

  // ----- the context -----

  /** The first value the request or the defaults give to a key before a required field without one stops it. */
  ghost predicate Supplied(key: string, fields: seq<Field>, provided: map<string, string>) {
    || key in provided
    || exists k ::
         && 0 <= k < |fields| && fields[k].key == key && fields[k].default.Some?
         && forall j :: 0 <= j < k && fields[j].key == key ==> fields[j].default.Some? || !fields[j].isRequired
  }

  lemma SuppliedTail(key: string, fields: seq<Field>, context: map<string, string>)
    requires fields != []
    ensures
      var f := fields[0];
      Supplied(key, fields, context) <==>
        if key in context then true
        else if f.key != key then Supplied(key, fields[1..], context)
        else f.default.Some? || (!f.isRequired && Supplied(key, fields[1..], context))
  {
    var tail := fields[1..];
    if Supplied(key, fields, context) && key !in context {
      var k :| 0 <= k < |fields| && fields[k].key == key && fields[k].default.Some?
        && forall j :: 0 <= j < k && fields[j].key == key ==> fields[j].default.Some? || !fields[j].isRequired;
      if 0 < k {
        assert tail[k - 1] == fields[k];
        assert forall j :: 0 <= j < k - 1 ==> tail[j] == fields[j + 1];
      }
    }
    if Supplied(key, tail, context) && key !in context {
      var k :| 0 <= k < |tail| && tail[k].key == key && tail[k].default.Some?
        && forall j :: 0 <= j < k && tail[j].key == key ==> tail[j].default.Some? || !tail[j].isRequired;
      assert fields[k + 1] == tail[k];
      assert forall j :: 1 <= j < k + 1 ==> fields[j] == tail[j - 1];
    }
    if key !in context && fields[0].key == key && fields[0].default.Some? {
      assert fields[0].key == key;
    }
  }

  lemma {:induction false} DefaultsSupply(context: map<string, string>, fields: seq<Field>, placeholders: set<string>)
    ensures
      var r := WithDefaults(context, fields, placeholders);
      (r.Ok? && placeholders <= r.value.Keys) <==> forall p :: p in placeholders ==> Supplied(p, fields, context)
    decreases |fields|
  {
    if fields != [] {
      var f := fields[0];
      var next := if f.key !in context && f.default.Some? then context[f.key := f.default.value] else context;
      DefaultsSupply(next, fields[1..], placeholders);
      forall p | p in placeholders ensures Supplied(p, fields, context) <==>
        (Supplied(p, fields[1..], next) && (p == f.key && p !in next ==> !f.isRequired))
      {
        SuppliedTail(p, fields, context);
      }
    }
  }

  /** A context can be built exactly when every placeholder is provided or gets a default in time. */
  lemma ContextBuiltIff(body: string, fields: seq<Field>, provided: map<string, string>)
    ensures ContextFor(body, fields, provided).Ok? <==>
      forall p :: p in ExtractPlaceholders(body) ==> Supplied(p, fields, provided)
  {
    var placeholders := ExtractPlaceholders(body);
    DefaultsSupply(provided, fields, placeholders);
    var filled := WithDefaults(provided, fields, placeholders);
    if filled.Ok? {
      var missing := placeholders - filled.value.Keys;
      if placeholders <= filled.value.Keys {
        assert missing == {};
      } else {
        var p :| p in placeholders && p !in filled.value.Keys;
        assert p in missing;
      }
    }
  }

  /** What the request provides is never overridden. */
  lemma {:induction false} ProvidedWins(
    context: map<string, string>, fields: seq<Field>, placeholders: set<string>, key: string)
    requires key in context && WithDefaults(context, fields, placeholders).Ok?
    ensures
      var r := WithDefaults(context, fields, placeholders).value;
      key in r && r[key] == context[key]
    decreases |fields|
  {
    if fields != [] {
      var f := fields[0];
      var next := if f.key !in context && f.default.Some? then context[f.key := f.default.value] else context;
      ProvidedWins(next, fields[1..], placeholders, key);
    }
  }

  /** Once the context is built, rendering cannot fail: the handler for a missing key is never reached. */
  lemma GenerationFailsOnlyOnContext(body: string, fields: seq<Field>, provided: map<string, string>)
    ensures
      var r := GenerateDocument(body, fields, provided);
      && !(r.Err? && r.error.MissingPlaceholder?)
      && (r.Ok? <==> forall p :: p in ExtractPlaceholders(body) ==> Supplied(p, fields, provided))
  {
    var context := ContextFor(body, fields, provided);
    ContextBuiltIff(body, fields, provided);
    if context.Ok? {
      assert forall p :: p in ExtractPlaceholders(body) ==> p in context.value by {
        assert ExtractPlaceholders(body) - context.value.Keys == {};
        assert forall p :: p in ExtractPlaceholders(body) ==> p !in ExtractPlaceholders(body) - context.value.Keys;
      }
      RenderFailsIff(body, context.value);
    }
  }

  // ----- the values -----

  /** Field k is the first one to give the key a default. */
  ghost predicate FirstDefault(fields: seq<Field>, key: string, k: nat) {
    && k < |fields| && fields[k].key == key && fields[k].default.Some?
    && forall j :: 0 <= j < k && fields[j].key == key ==> fields[j].default.None?
  }

  /** The value is what the request provides, or else the first default that a field gives. */
  ghost predicate GivenValue(fields: seq<Field>, provided: map<string, string>, key: string, value: string) {
    if key in provided then provided[key] == value
    else exists k: nat :: FirstDefault(fields, key, k) && fields[k].default == Some(value)
  }

  ghost predicate HasDefault(fields: seq<Field>, key: string) {
    exists k: nat :: FirstDefault(fields, key, k)
  }

  lemma FirstDefaultTail(fields: seq<Field>, key: string, k: nat)
    requires fields != []
    ensures FirstDefault(fields, key, k + 1) <==>
      FirstDefault(fields[1..], key, k) && (fields[0].key == key ==> fields[0].default.None?)
  {
    var tail := fields[1..];
    assert forall j :: 0 <= j < |tail| ==> tail[j] == fields[j + 1];
    if FirstDefault(fields, key, k + 1) {
      forall j | 0 <= j < k && tail[j].key == key ensures tail[j].default.None? {
        assert fields[j + 1].key == key;
      }
    }
    if FirstDefault(tail, key, k) && (fields[0].key == key ==> fields[0].default.None?) {
      forall j | 0 <= j < k + 1 && fields[j].key == key ensures fields[j].default.None? {
        if 0 < j { assert tail[j - 1] == fields[j]; }
      }
    }
  }

  lemma OnlyHead(fields: seq<Field>, key: string)
    requires FirstDefault(fields, key, 0)
    ensures forall k: nat :: FirstDefault(fields, key, k) ==> k == 0
  {
  }

  lemma HeadDefault(fields: seq<Field>, key: string)
    requires fields != []
    ensures FirstDefault(fields, key, 0) <==> fields[0].key == key && fields[0].default.Some?
  {
  }

  /** What the first field leaves to the others. */
  lemma GivenValueTail(fields: seq<Field>, context: map<string, string>, key: string, value: string)
    requires fields != []
    ensures
      var f := fields[0];
      GivenValue(fields, context, key, value) <==>
        if key in context then context[key] == value
        else if f.key == key && f.default.Some? then f.default == Some(value)
        else GivenValue(fields[1..], context, key, value)
  {
    var f := fields[0];
    HeadDefault(fields, key);
    if key !in context {
      if f.key == key && f.default.Some? {
        OnlyHead(fields, key);
      } else {
        forall k: nat ensures FirstDefault(fields, key, k + 1) <==> FirstDefault(fields[1..], key, k) {
          FirstDefaultTail(fields, key, k);
        }
        ShiftedDefault(fields, key, value);
      }
    }
  }

  lemma ShiftedDefault(fields: seq<Field>, key: string, value: string)
    requires fields != [] && !FirstDefault(fields, key, 0)
    requires forall k: nat :: FirstDefault(fields, key, k + 1) <==> FirstDefault(fields[1..], key, k)
    ensures (exists k: nat :: FirstDefault(fields, key, k) && fields[k].default == Some(value)) <==>
      exists k: nat :: FirstDefault(fields[1..], key, k) && fields[1..][k].default == Some(value)
  {
    if k: nat :| FirstDefault(fields, key, k) && fields[k].default == Some(value) {
      assert k != 0;
      assert FirstDefault(fields, key, (k - 1) + 1);
      assert fields[1..][k - 1] == fields[k];
    }
    if k: nat :| FirstDefault(fields[1..], key, k) && fields[1..][k].default == Some(value) {
      assert fields[k + 1] == fields[1..][k];
    }
  }

  lemma {:induction false} DefaultsGive(
    context: map<string, string>, fields: seq<Field>, placeholders: set<string>, key: string, value: string)
    requires WithDefaults(context, fields, placeholders).Ok?
    ensures
      var r := WithDefaults(context, fields, placeholders).value;
      (key in r && r[key] == value) <==> GivenValue(fields, context, key, value)
    decreases |fields|
  {
    if fields != [] {
      var f := fields[0];
      GivenValueTail(fields, context, key, value);
      if f.key !in context && f.default.Some? {
        var next := context[f.key := f.default.value];
        DefaultsGive(next, fields[1..], placeholders, key, value);
        if key != f.key { SameElsewhere(fields[1..], context, next, f.key, key, value); }
      } else {
        DefaultsGive(context, fields[1..], placeholders, key, value);
      }
    }
  }

  lemma SameElsewhere(
    fields: seq<Field>, context: map<string, string>, next: map<string, string>, new_: string, key: string,
    value: string)
    requires new_ !in context && new_ in next && next == context[new_ := next[new_]] && key != new_
    ensures GivenValue(fields, next, key, value) <==> GivenValue(fields, context, key, value)
  {
  }

  /** A built context holds exactly the provided values, and for other keys the first default that a field gives. */
  lemma ContextHolds(body: string, fields: seq<Field>, provided: map<string, string>, key: string, value: string)
    requires ContextFor(body, fields, provided).Ok?
    ensures
      var context := ContextFor(body, fields, provided).value;
      (key in context && context[key] == value) <==> GivenValue(fields, provided, key, value)
  {
    DefaultsGive(provided, fields, ExtractPlaceholders(body), key, value);
  }

  /** A generated document is the template's literal text with the given values where its placeholders were. */
  lemma DocumentHoldsGivenValues(body: string, fields: seq<Field>, provided: map<string, string>)
    returns (values: seq<string>)
    requires GenerateDocument(body, fields, provided).Ok?
    ensures InOrder(body, 0, Spans(body, 0)) && |values| == |Spans(body, 0)|
    ensures GenerateDocument(body, fields, provided).value == Interleave(Gaps(body, 0, Spans(body, 0)), values)
    ensures forall k :: 0 <= k < |values| ==> GivenValue(fields, provided, Spans(body, 0)[k].key, values[k])
  {
    var context := ContextFor(body, fields, provided).value;
    RenderReplacesPlaceholders(body, context);
    var spans := Spans(body, 0);
    values := ValuesFor(spans, context);
    forall k | 0 <= k < |values| ensures GivenValue(fields, provided, spans[k].key, values[k]) {
      assert spans[k].key in KeysOf(spans);
      ContextHolds(body, fields, provided, spans[k].key, values[k]);
    }
  }

  // ----- the two failures -----

  /** Field k is required by the text and has no value when its turn comes. */
  ghost predicate Stops(fields: seq<Field>, provided: map<string, string>, placeholders: set<string>, k: nat) {
    && k < |fields| && fields[k].isRequired && fields[k].default.None?
    && fields[k].key in placeholders && fields[k].key !in provided
    && forall j :: 0 <= j < k && fields[j].key == fields[k].key ==> fields[j].default.None?
  }

  ghost predicate FirstStop(fields: seq<Field>, provided: map<string, string>, placeholders: set<string>, k: nat) {
    Stops(fields, provided, placeholders, k) && forall j: nat :: j < k ==> !Stops(fields, provided, placeholders, j)
  }

  lemma {:induction false} StopsIff(context: map<string, string>, fields: seq<Field>, placeholders: set<string>)
    returns (k: nat)
    ensures WithDefaults(context, fields, placeholders).Err? <==> k < |fields|
    ensures k < |fields| ==>
      && FirstStop(fields, context, placeholders, k)
      && WithDefaults(context, fields, placeholders) == Err(RequiredFieldMissing(fields[k].key))
    ensures k >= |fields| ==> forall j: nat :: !Stops(fields, context, placeholders, j)
    decreases |fields|
  {
    if fields == [] {
      k := 0;
    } else {
      var f := fields[0];
      if f.key !in context && f.default.None? && f.isRequired && f.key in placeholders {
        k := 0;
      } else {
        var next := if f.key !in context && f.default.Some? then context[f.key := f.default.value] else context;
        var rest := StopsIff(next, fields[1..], placeholders);
        k := rest + 1;
        forall j: nat
          ensures Stops(fields, context, placeholders, j + 1) <==> Stops(fields[1..], next, placeholders, j)
        {
          StopsTail(context, next, fields, placeholders, j);
        }
        NoEarlierStop(context, next, fields, placeholders);
        if rest < |fields| - 1 {
          assert Stops(fields, context, placeholders, rest + 1);
        }
      }
    }
  }

  lemma NoEarlierStop(
    context: map<string, string>, next: map<string, string>, fields: seq<Field>, placeholders: set<string>)
    requires fields != [] && !Stops(fields, context, placeholders, 0)
    requires forall j: nat ::
      Stops(fields, context, placeholders, j + 1) <==> Stops(fields[1..], next, placeholders, j)
    ensures forall j: nat :: Stops(fields, context, placeholders, j) ==>
      0 < j && Stops(fields[1..], next, placeholders, j - 1)
  {
    forall j: nat | Stops(fields, context, placeholders, j)
      ensures 0 < j && Stops(fields[1..], next, placeholders, j - 1)
    {
      if 0 < j { assert Stops(fields, context, placeholders, (j - 1) + 1); }
    }
  }

  lemma StopsTail(
    context: map<string, string>, next: map<string, string>, fields: seq<Field>, placeholders: set<string>, j: nat)
    requires fields != []
    requires
      var f := fields[0];
      next == if f.key !in context && f.default.Some? then context[f.key := f.default.value] else context
    ensures Stops(fields, context, placeholders, j + 1) <==> Stops(fields[1..], next, placeholders, j)
  {
    var tail := fields[1..];
    assert forall i :: 0 <= i < |tail| ==> tail[i] == fields[i + 1];
    if Stops(tail, next, placeholders, j) {
      forall i | 0 <= i < j + 1 && fields[i].key == fields[j + 1].key ensures fields[i].default.None? {
        if 0 < i { assert tail[i - 1] == fields[i]; }
      }
    }
  }

  /**
   * The first required field that the text asks for and that has no value by then stops the context.
   * If there is none, the context fails with exactly the placeholders that nothing gives a value to.
   */
  lemma ContextFailsWith(body: string, fields: seq<Field>, provided: map<string, string>)
    requires ContextFor(body, fields, provided).Err?
    ensures
      var placeholders := ExtractPlaceholders(body);
      match ContextFor(body, fields, provided).error
      case RequiredFieldMissing(key) =>
        exists k: nat :: FirstStop(fields, provided, placeholders, k) && fields[k].key == key
      case ValuesMissing(keys) =>
        && (forall k: nat :: !Stops(fields, provided, placeholders, k))
        && keys == set p | p in placeholders && p !in provided && !HasDefault(fields, p)
  {
    var placeholders := ExtractPlaceholders(body);
    var k := StopsIff(provided, fields, placeholders);
    if k >= |fields| {
      var filled := WithDefaults(provided, fields, placeholders).value;
      forall p ensures p in filled <==> p in provided || HasDefault(fields, p) {
        if p in filled { DefaultsGive(provided, fields, placeholders, p, filled[p]); }
        if p in provided { DefaultsGive(provided, fields, placeholders, p, provided[p]); }
        if p !in provided && HasDefault(fields, p) {
          var j: nat :| FirstDefault(fields, p, j);
          DefaultsGive(provided, fields, placeholders, p, fields[j].default.value);
        }
      }
    }
  }
}
