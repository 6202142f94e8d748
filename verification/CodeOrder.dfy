/** Sorting strings by their characters, as the language's sort does. */
module CodeOrder {

  predicate AtMost(a: string, b: string) {
    a == "" || (b != "" && (a[0] < b[0] || (a[0] == b[0] && AtMost(a[1..], b[1..]))))
  }

  lemma {:induction false} AtMostEitherWay(a: string, b: string)
    ensures AtMost(a, b) || AtMost(b, a)
    ensures AtMost(a, b) && AtMost(b, a) ==> a == b
  {
    if a != "" && b != "" && a[0] == b[0] {
      AtMostEitherWay(a[1..], b[1..]);
      assert a == [a[0]] + a[1..] && b == [b[0]] + b[1..];
    }
  }

  lemma {:induction false} AtMostThrough(a: string, b: string, c: string)
    requires AtMost(a, b) && AtMost(b, c)
    ensures AtMost(a, c)
  {
    if a != "" && a[0] == b[0] == c[0] { AtMostThrough(a[1..], b[1..], c[1..]); }
  }

  predicate Sorted(xs: seq<string>) {
    forall i, j :: 0 <= i < j < |xs| ==> AtMost(xs[i], xs[j])
  }

  function Inserted(x: string, xs: seq<string>): seq<string> {
    if xs == [] || AtMost(x, xs[0]) then [x] + xs else [xs[0]] + Inserted(x, xs[1..])
  }

  function SortStrings(xs: seq<string>): seq<string> {
    if xs == [] then [] else Inserted(xs[0], SortStrings(xs[1..]))
  }

  lemma SortedCons(x: string, xs: seq<string>)
    requires Sorted(xs) && forall k :: 0 <= k < |xs| ==> AtMost(x, xs[k])
    ensures Sorted([x] + xs)
  {
  }

  lemma BelowAll(x: string, xs: seq<string>)
    requires Sorted(xs) && xs != [] && AtMost(x, xs[0])
    ensures forall k :: 0 <= k < |xs| ==> AtMost(x, xs[k])
  {
    forall k | 0 <= k < |xs| ensures AtMost(x, xs[k]) {
      if k > 0 { AtMostThrough(x, xs[0], xs[k]); }
    }
  }

  lemma {:induction false} InsertedMembers(x: string, xs: seq<string>)
    ensures forall y :: y in Inserted(x, xs) <==> y == x || y in xs
  {
    if xs != [] { InsertedMembers(x, xs[1..]); }
  }

  lemma {:induction false} InsertedKeeps(x: string, xs: seq<string>)
    ensures multiset(Inserted(x, xs)) == multiset(xs) + multiset{x}
  {
    if xs != [] && !AtMost(x, xs[0]) {
      InsertedKeeps(x, xs[1..]);
      assert xs == [xs[0]] + xs[1..];
    }
  }

  lemma AboveInserted(low: string, x: string, xs: seq<string>)
    requires AtMost(low, x) && forall k :: 0 <= k < |xs| ==> AtMost(low, xs[k])
    ensures forall k :: 0 <= k < |Inserted(x, xs)| ==> AtMost(low, Inserted(x, xs)[k])
  {
    InsertedMembers(x, xs);
    var all := Inserted(x, xs);
    assert forall k :: 0 <= k < |all| ==> all[k] in all;
  }

  lemma {:induction false} InsertedIsSorted(x: string, xs: seq<string>)
    requires Sorted(xs)
    ensures Sorted(Inserted(x, xs))
  {
    if xs != [] && AtMost(x, xs[0]) {
      BelowAll(x, xs);
      SortedCons(x, xs);
    } else if xs != [] {
      InsertedIsSorted(x, xs[1..]);
      AtMostEitherWay(x, xs[0]);
      AboveInserted(xs[0], x, xs[1..]);
      SortedCons(xs[0], Inserted(x, xs[1..]));
    }
  }

  /** Sorting gives the same strings, in order. */
  lemma {:induction false} SortSorts(xs: seq<string>)
    ensures Sorted(SortStrings(xs)) && multiset(SortStrings(xs)) == multiset(xs)
    ensures forall y :: y in SortStrings(xs) <==> y in xs
  {
    if xs != [] {
      SortSorts(xs[1..]);
      InsertedIsSorted(xs[0], SortStrings(xs[1..]));
      InsertedKeeps(xs[0], SortStrings(xs[1..]));
      InsertedMembers(xs[0], SortStrings(xs[1..]));
      assert xs == [xs[0]] + xs[1..];
    }
  }
}
