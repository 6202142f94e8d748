/** Which plans of modules go through, and for which registries their fixed order is a dependency order. */
module ModulePlans {
  import opened ModuleModel
  import opened ModuleProperties

  // ----- the order of a plan -----

  /** The first position of the code, or the length. */
  function IndexIn(xs: seq<Code>, c: Code): (i: nat)
    ensures i <= |xs| && (i < |xs| <==> c in xs) && (i < |xs| ==> xs[i] == c)
    ensures forall k :: 0 <= k < i ==> xs[k] != c
  {
    if xs == [] || xs[0] == c then 0 else 1 + IndexIn(xs[1..], c)
  }

  /** Codes of the first list in its order, then the others where the second one names them first. */
  function RankIn(first: seq<Code>, codes: seq<Code>, c: Code): nat {
    if c in first then IndexIn(first, c) else |first| + IndexIn(codes, c)
  }

  ghost predicate Ranked(first: seq<Code>, codes: seq<Code>, list: seq<Code>) {
    forall i, j :: 0 <= i < j < |list| ==> RankIn(first, codes, list[i]) < RankIn(first, codes, list[j])
  }

  predicate DistinctCodes(xs: seq<Code>) {
    forall i, j :: 0 <= i < j < |xs| ==> xs[i] != xs[j]
  }

  lemma IndexOfElement(xs: seq<Code>, k: nat)
    requires DistinctCodes(xs) && k < |xs|
    ensures IndexIn(xs, xs[k]) == k
  {
    var i := IndexIn(xs, xs[k]);
  }

  lemma RankedCons(first: seq<Code>, codes: seq<Code>, c: Code, list: seq<Code>)
    requires Ranked(first, codes, list)
    requires forall k :: 0 <= k < |list| ==> RankIn(first, codes, c) < RankIn(first, codes, list[k])
    ensures Ranked(first, codes, [c] + list)
  {
  }

  lemma RankedSnoc(first: seq<Code>, codes: seq<Code>, list: seq<Code>, c: Code)
    requires Ranked(first, codes, list)
    requires forall k :: 0 <= k < |list| ==> RankIn(first, codes, list[k]) < RankIn(first, codes, c)
    ensures Ranked(first, codes, list + [c])
  {
  }

  lemma {:induction false} KnownFirstIsRanked(first: seq<Code>, codes: seq<Code>, n: nat)
    requires DistinctCodes(first) && n <= |first|
    ensures Ranked(first, codes, KnownFirst(codes, first[n..]))
    ensures forall c :: c in KnownFirst(codes, first[n..]) <==> c in codes && c in first && n <= IndexIn(first, c)
    decreases |first| - n
  {
    if n < |first| {
      assert first[n..][0] == first[n] && first[n..][1..] == first[n + 1..];
      KnownFirstIsRanked(first, codes, n + 1);
      IndexOfElement(first, n);
      var rest := KnownFirst(codes, first[n + 1..]);
      assert forall k :: 0 <= k < |rest| ==> rest[k] in rest;
      RankedCons(first, codes, first[n], rest);
    }
  }

  lemma {:induction false} AppendMissingIsRanked(first: seq<Code>, codes: seq<Code>, ordered: seq<Code>, n: nat)
    requires n <= |codes| && Ranked(first, codes, ordered)
    requires forall c :: c in ordered <==> c in codes && (c in first || IndexIn(codes, c) < n)
    ensures Ranked(first, codes, AppendMissing(ordered, codes[n..]))
    ensures forall c :: c in AppendMissing(ordered, codes[n..]) <==> c in codes
    decreases |codes| - n
  {
    if n < |codes| {
      assert codes[n..][0] == codes[n] && codes[n..][1..] == codes[n + 1..];
      var c := codes[n];
      assert IndexIn(codes, c) <= n;
      if c in ordered {
        NothingBetween(codes, n);
        AppendMissingIsRanked(first, codes, ordered, n + 1);
      } else {
        NothingBetween(codes, n);
        assert forall k :: 0 <= k < |ordered| ==> ordered[k] in ordered;
        RankedSnoc(first, codes, ordered, c);
        AppendMissingIsRanked(first, codes, ordered + [c], n + 1);
      }
    }
  }

  lemma NothingBetween(codes: seq<Code>, n: nat)
    requires n < |codes|
    ensures forall c :: c in codes && IndexIn(codes, c) == n ==> c == codes[n]
    ensures IndexIn(codes, codes[n]) <= n
  {
  }

  function Rank(codes: seq<Code>, c: Code): nat {
    RankIn(PRIORITY, codes, c)
  }

  lemma PriorityIsDistinct()
    ensures DistinctCodes(PRIORITY)
  {
    assert PRIORITY[0][0] == 'p' && PRIORITY[1][..2] == "ca" && PRIORITY[2][..2] == "cr" && PRIORITY[3][0] == 'd';
    assert PRIORITY[4][0] == 'f' && PRIORITY[5][..2] == "ac" && PRIORITY[6][0] == 'i' && PRIORITY[7][..2] == "ai";
  }

  /** Sorting keeps the codes of the plan and puts them in the order of their ranks. */
  lemma SortIsByRank(codes: seq<Code>)
    ensures forall c :: c in SortModuleCodes(codes) <==> c in codes
    ensures forall i, j :: 0 <= i < j < |SortModuleCodes(codes)| ==>
      Rank(codes, SortModuleCodes(codes)[i]) < Rank(codes, SortModuleCodes(codes)[j])
  {
    PriorityIsDistinct();
    assert PRIORITY[0..] == PRIORITY && codes[0..] == codes;
    KnownFirstIsRanked(PRIORITY, codes, 0);
    AppendMissingIsRanked(PRIORITY, codes, KnownFirst(codes, PRIORITY), 0);
    assert Ranked(PRIORITY, codes, SortModuleCodes(codes));
  }

  // ----- which plans go through -----

  /** The k-th code is known, and what it requires is active before or stands earlier in the list. */
  ghost predicate MetBy(reg: Registry, st: Statuses, list: seq<Code>, k: nat)
    requires k < |list|
  {
    list[k] in reg && forall d :: d in reg[list[k]].required ==> IsActive(st, d) || d in list[..k]
  }

  lemma MetByTail(reg: Registry, st: Statuses, list: seq<Code>, status: Status, k: nat)
    requires status in {Enabled, Trial} && k + 1 < |list|
    ensures MetBy(reg, st, list, k + 1) <==> MetBy(reg, st[list[0] := status], list[1..], k)
  {
    assert list[..k + 1] == [list[0]] + list[1..][..k];
    var next := st[list[0] := status];
    assert IsActive(next, list[0]);
    assert forall d :: d != list[0] ==> (IsActive(next, d) <==> IsActive(st, d));
  }

  lemma {:induction false} EnableEachIff(reg: Registry, st: Statuses, list: seq<Code>, status: Status)
    requires status in {Enabled, Trial}
    ensures EnableEach(reg, st, list, status).Ok? <==> forall k :: 0 <= k < |list| ==> MetBy(reg, st, list, k)
    decreases |list|
  {
    if list != [] {
      var next, rest := st[list[0] := status], list[1..];
      EnableEachIff(reg, next, rest, status);
      forall k | 0 <= k < |rest| ensures MetBy(reg, next, rest, k) <==> MetBy(reg, st, list, k + 1) {
        MetByTail(reg, st, list, status, k);
      }
      FirstMet(reg, st, list);
      AllButFirst(reg, st, next, list);
    }
  }

  lemma FirstMet(reg: Registry, st: Statuses, list: seq<Code>)
    requires list != []
    ensures MetBy(reg, st, list, 0) <==> DependenciesMet(reg, st, list[0])
  {
    if list[0] in reg {
      var required := reg[list[0]].required;
      assert forall k :: 0 <= k < |required| ==> required[k] in required;
    }
  }

  lemma AllButFirst(reg: Registry, st: Statuses, next: Statuses, list: seq<Code>)
    requires list != []
    requires forall k :: 0 <= k < |list| - 1 ==> (MetBy(reg, next, list[1..], k) <==> MetBy(reg, st, list, k + 1))
    ensures (forall k :: 0 <= k < |list| ==> MetBy(reg, st, list, k)) <==>
      MetBy(reg, st, list, 0) && forall k :: 0 <= k < |list| - 1 ==> MetBy(reg, next, list[1..], k)
  {
    if MetBy(reg, st, list, 0) && forall k :: 0 <= k < |list| - 1 ==> MetBy(reg, next, list[1..], k) {
      forall k | 0 <= k < |list| ensures MetBy(reg, st, list, k) {
        if k > 0 { assert MetBy(reg, next, list[1..], k - 1); }
      }
    }
    if forall k :: 0 <= k < |list| ==> MetBy(reg, st, list, k) {
      forall k | 0 <= k < |list| - 1 ensures MetBy(reg, next, list[1..], k) {
        assert MetBy(reg, st, list, k + 1);
      }
    }
  }

  /** The code is known, and what it requires is active before or in the plan at a lower rank. */
  ghost predicate Supplied(reg: Registry, st: Statuses, codes: seq<Code>, c: Code) {
    c in reg && forall d :: d in reg[c].required ==>
      IsActive(st, d) || (d in codes && Rank(codes, d) < Rank(codes, c))
  }

  lemma EarlierIsLower(codes: seq<Code>, k: nat, d: Code)
    requires k < |SortModuleCodes(codes)|
    ensures d in SortModuleCodes(codes)[..k] <==> d in codes && Rank(codes, d) < Rank(codes, SortModuleCodes(codes)[k])
  {
    SortIsByRank(codes);
    EarlierInRanked(codes, SortModuleCodes(codes), k, d);
  }

  ghost predicate ByRank(codes: seq<Code>, sorted: seq<Code>) {
    forall i, j :: 0 <= i < j < |sorted| ==> Rank(codes, sorted[i]) < Rank(codes, sorted[j])
  }

  lemma PlaceIsRank(codes: seq<Code>, sorted: seq<Code>, i: nat, k: nat)
    requires ByRank(codes, sorted) && i < |sorted| && k < |sorted|
    ensures i < k <==> Rank(codes, sorted[i]) < Rank(codes, sorted[k])
  {
  }

  lemma EarlierInRanked(codes: seq<Code>, sorted: seq<Code>, k: nat, d: Code)
    requires k < |sorted| && ByRank(codes, sorted) && (d in sorted <==> d in codes)
    ensures d in sorted[..k] <==> d in codes && Rank(codes, d) < Rank(codes, sorted[k])
  {
    if d in sorted {
      var i :| 0 <= i < |sorted| && sorted[i] == d;
      PlaceIsRank(codes, sorted, i, k);
      OnlyPlace(codes, sorted, i, k);
    }
  }

  lemma OnlyPlace(codes: seq<Code>, sorted: seq<Code>, i: nat, k: nat)
    requires ByRank(codes, sorted) && i < |sorted| && k < |sorted|
    ensures sorted[i] in sorted[..k] <==> i < k
  {
    if i < k { assert sorted[..k][i] == sorted[i]; }
    if sorted[i] in sorted[..k] {
      var j :| 0 <= j < k && sorted[..k][j] == sorted[i];
      PlaceIsRank(codes, sorted, j, i);
      PlaceIsRank(codes, sorted, i, j);
    }
  }

  /** A plan goes through exactly when each of its codes is known and supplied by what comes before it. */
  lemma PlanSucceedsIff(reg: Registry, st: Statuses, codes: seq<Code>, asTrial: bool)
    ensures PlanStep(reg, st, codes, asTrial).Ok? <==> forall c :: c in codes ==> Supplied(reg, st, codes, c)
  {
    var provisioned, sorted := Provision(reg, st), SortModuleCodes(codes);
    EnableEachIff(reg, provisioned, sorted, if asTrial then Trial else Enabled);
    SortIsByRank(codes);
    forall k | 0 <= k < |sorted|
      ensures sorted[k] in codes && (MetBy(reg, provisioned, sorted, k) <==> Supplied(reg, st, codes, sorted[k]))
    {
      assert sorted[k] in sorted;
      MetIsSupplied(reg, st, codes, k);
    }
    forall c | c in codes ensures exists k :: 0 <= k < |sorted| && sorted[k] == c {
      assert c in sorted;
    }
  }

  lemma MetIsSupplied(reg: Registry, st: Statuses, codes: seq<Code>, k: nat)
    requires k < |SortModuleCodes(codes)|
    ensures MetBy(reg, Provision(reg, st), SortModuleCodes(codes), k) <==>
      Supplied(reg, st, codes, SortModuleCodes(codes)[k])
  {
    assert forall d :: IsActive(Provision(reg, st), d) <==> IsActive(st, d);
    forall d ensures d in SortModuleCodes(codes)[..k] <==>
      d in codes && Rank(codes, d) < Rank(codes, SortModuleCodes(codes)[k])
    {
      EarlierIsLower(codes, k, d);
    }
  }

  // ----- for which registries the order is a dependency order -----

  /** The plan brings all that its modules require. */
  ghost predicate Complete(reg: Registry, codes: seq<Code>) {
    forall c :: c in codes ==> c in reg && forall d :: d in reg[c].required ==> d in codes
  }

  ghost predicate KnownClosure(reg: Registry, m: Code) {
    m in reg && forall x :: Reaches(reg, m, x) ==> x in reg
  }

  /** The fixed order puts d before m in every plan. */
  predicate Precedes(d: Code, m: Code) {
    d in PRIORITY && (m in PRIORITY ==> IndexIn(PRIORITY, d) < IndexIn(PRIORITY, m))
  }

  lemma {:induction false} PathStaysInPlan(reg: Registry, codes: seq<Code>, p: seq<Code>, n: nat)
    requires Complete(reg, codes) && Path(reg, p) && n < |p| && p[0] in codes
    ensures p[n] in codes
  {
    if n > 0 { PathStaysInPlan(reg, codes, p, n - 1); }
  }

  lemma PlanHasKnownClosures(reg: Registry, codes: seq<Code>, c: Code)
    requires Complete(reg, codes) && c in codes
    ensures KnownClosure(reg, c)
  {
    forall x | Reaches(reg, c, x) ensures x in reg {
      var p :| Path(reg, p) && 2 <= |p| && p[0] == c && p[|p| - 1] == x;
      PathStaysInPlan(reg, codes, p, |p| - 1);
    }
  }

  lemma {:induction false} ListOf(s: set<Code>) returns (list: seq<Code>)
    ensures forall x :: x in list <==> x in s
    decreases |s|
  {
    if s == {} {
      list := [];
    } else {
      var x :| x in s;
      var rest := ListOf(s - {x});
      list := [x] + rest;
    }
  }

  /** The module, and then all that it depends on. */
  lemma ClosurePlan(reg: Registry, m: Code) returns (codes: seq<Code>)
    requires KnownClosure(reg, m)
    ensures codes != [] && codes[0] == m && Complete(reg, codes)
  {
    var rest := ListOf(Reachable(reg, m));
    codes := [m] + rest;
    forall c | c in codes ensures c in reg && forall d :: d in reg[c].required ==> d in codes {
      forall d | d in reg[c].required ensures d in codes {
        DependencyIsReached(reg, c, d);
        if c != m { ReachesTransitively(reg, m, c, d); }
        assert d in Reachable(reg, m);
      }
    }
  }

  lemma LowerThanFirst(codes: seq<Code>, d: Code)
    requires codes != [] && Rank(codes, d) < Rank(codes, codes[0])
    ensures Precedes(d, codes[0])
  {
    assert IndexIn(codes, codes[0]) == 0;
  }

  lemma PrecedingIsLower(codes: seq<Code>, d: Code, c: Code)
    requires Precedes(d, c)
    ensures Rank(codes, d) < Rank(codes, c)
  {
  }

  ghost predicate CompletePlansSucceed(reg: Registry) {
    forall codes, asTrial :: Complete(reg, codes) ==> PlanStep(reg, map[], codes, asTrial).Ok?
  }

  /**
   * Every plan that brings all it requires goes through, in whatever order it is given, if and only if
   * the fixed order puts each required module before the ones that require it: it must be one of the
   * eight codes listed, and earlier than the other if that is one too.
   */
  lemma OrderIsDependencyOrderIff(reg: Registry)
    ensures CompletePlansSucceed(reg) <==>
      forall m, d :: KnownClosure(reg, m) && d in reg[m].required ==> Precedes(d, m)
  {
    if CompletePlansSucceed(reg) {
      forall m, d | KnownClosure(reg, m) && d in reg[m].required ensures Precedes(d, m) {
        var codes := ClosurePlan(reg, m);
        assert PlanStep(reg, map[], codes, false).Ok?;
        PlanSucceedsIff(reg, map[], codes, false);
        assert Supplied(reg, map[], codes, m);
        LowerThanFirst(codes, d);
      }
    }
    if forall m, d :: KnownClosure(reg, m) && d in reg[m].required ==> Precedes(d, m) {
      forall codes, asTrial | Complete(reg, codes) ensures PlanStep(reg, map[], codes, asTrial).Ok? {
        forall c | c in codes ensures Supplied(reg, map[], codes, c) {
          PlanHasKnownClosures(reg, codes, c);
          forall d | d in reg[c].required ensures d in codes && Rank(codes, d) < Rank(codes, c) {
            PrecedingIsLower(codes, d, c);
          }
        }
        PlanSucceedsIff(reg, map[], codes, asTrial);
      }
    }
  }

  /** Two modules outside the fixed order, one requiring the other: the plan goes through in one order only. */
  lemma PlanOrderMatters(x: Code, y: Code, asTrial: bool)
    requires x != y && x !in PRIORITY && y !in PRIORITY
    ensures
      var reg: Registry := map[x := Definition([], true), y := Definition([x], true)];
      && PlanStep(reg, map[], [x, y], asTrial).Ok?
      && PlanStep(reg, map[], [y, x], asTrial).Err?
  {
    var reg: Registry := map[x := Definition([], true), y := Definition([x], true)];
    var good, bad := [x, y], [y, x];
    assert IndexIn(good, x) == 0 && IndexIn(bad, y) == 0;
    assert IndexIn(good, y) == 1 && IndexIn(bad, x) == 1;
    PlanSucceedsIff(reg, map[], good, asTrial);
    PlanSucceedsIff(reg, map[], bad, asTrial);
    assert Supplied(reg, map[], good, x) && Supplied(reg, map[], good, y);
    assert x in reg[y].required && !Supplied(reg, map[], bad, y);
  }

  /** Where all that is required is the first module of the fixed order, as in the shipped registry, it is one. */
  lemma ShippedPlansSucceed(reg: Registry)
    requires forall m, d :: m in reg && d in reg[m].required ==> d == "parties" && m != "parties"
    ensures CompletePlansSucceed(reg)
  {
    assert PRIORITY[0] == "parties";
    forall m, d | KnownClosure(reg, m) && d in reg[m].required ensures Precedes(d, m) {
      assert IndexIn(PRIORITY, d) == 0;
      if m in PRIORITY { assert PRIORITY[IndexIn(PRIORITY, m)] == m; }
    }
    OrderIsDependencyOrderIff(reg);
  }

  // ----- what a plan leaves behind -----

  lemma {:induction false} EnableEachLeaves(reg: Registry, st: Statuses, list: seq<Code>, status: Status, m: Code)
    requires EnableEach(reg, st, list, status).Ok?
    ensures
      var end := EnableEach(reg, st, list, status).value;
      if m in list then m in end && end[m] == status
      else (m in end <==> m in st) && (m in st ==> end[m] == st[m])
    decreases |list|
  {
    if list != [] {
      EnableEachLeaves(reg, st[list[0] := status], list[1..], status, m);
      assert list == [list[0]] + list[1..];
    }
  }

  /**
   * After a plan that goes through, its codes are on trial or enabled, as asked; the tenant's other
   * modules are as they were, and the active definitions it had no row for are disabled.
   */
  lemma PlanLeaves(reg: Registry, st: Statuses, codes: seq<Code>, asTrial: bool, m: Code)
    requires PlanStep(reg, st, codes, asTrial).Ok?
    ensures
      var end := PlanStep(reg, st, codes, asTrial).value;
      if m in codes then m in end && end[m] == (if asTrial then Trial else Enabled)
      else if m in st then m in end && end[m] == st[m]
      else if m in reg && reg[m].isActive then m in end && end[m] == Disabled
      else m !in end
  {
    SortIsByRank(codes);
    EnableEachLeaves(reg, Provision(reg, st), SortModuleCodes(codes), if asTrial then Trial else Enabled, m);
  }
}
