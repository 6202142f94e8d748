/** Object rows locked in ascending order and order rows locked by sweeps in any order: deadlock and progress. */
module BookingLocks {
  import opened Sums
  import opened BookingModel
  import opened BookingProperties

  /**
   * The lock query returns the named rows that exist, once each and in ascending order; the request
   * goes on if and only if it named distinct existing rows.
   */
  lemma {:induction false} LocksAllRowsIff(table: set<ObjectId>, named: seq<ObjectId>, rows: seq<ObjectId>)
    requires Ascending(rows)
    requires forall r :: r in rows <==> r in named && r in table
    ensures |rows| <= |named|
    ensures |rows| == |named| <==>
      (forall r :: r in named ==> r in table) && (forall r :: multiset(named)[r] <= 1)
    decreases |named|
  {
    if rows == [] {
      if named != [] {
        var r := named[0];
        assert r in named && r !in rows;
        assert r !in table;
      }
    } else {
      var n := |rows| - 1;
      var last := rows[n];
      assert last in rows && rows == rows[..n] + [last];
      var others := WithoutOne(named, last);
      if last in others {
        LocksAllRowsIff(table, others, rows);
        assert multiset(named)[last] > 1;
      } else {
        forall r ensures r in rows[..n] <==> r in others && r in table {
          assert r in rows <==> r == last || r in rows[..n];
        }
        LocksAllRowsIff(table, others, rows[..n]);
        assert forall r :: multiset(named)[r] == multiset(others)[r] + if r == last then 1 else 0;
      }
    }
  }

  lemma WithoutOne(named: seq<ObjectId>, x: ObjectId) returns (others: seq<ObjectId>)
    requires x in named
    ensures |others| == |named| - 1
    ensures multiset(named) == multiset(others) + multiset{x}
    ensures forall r :: r in named <==> r == x || r in others
    ensures x in others ==> multiset(others)[x] >= 1
  {
    var i :| 0 <= i < |named| && named[i] == x;
    others := named[..i] + named[i + 1..];
    assert named == named[..i] + [x] + named[i + 1..];
    assert forall r :: r in named <==> r in multiset(named);
    assert forall r :: r in others <==> r in multiset(others);
  }

  // ----- waiting -----

  predicate WantsOrder(h: Hold) {
    h.phase.Sweeping? && h.phase.n < |h.phase.listing|
  }

  predicate WantsObject(h: Hold) {
    h.phase.Locking? && h.phase.n < |h.rows|
  }

  /** The next row of its kind is locked by another request. */
  predicate Waits(w: World, tx: TxId) {
    && tx in w.holds
    && (|| (WantsOrder(w.holds[tx]) && !Enabled(w, SweepLock(tx)))
        || (WantsObject(w.holds[tx]) && !Enabled(w, LockRow(tx))))
  }

  /** A ranking of the orders, different for different orders. */
  ghost predicate IsRanking(rank: OrderId -> int) {
    forall a, b :: rank(a) == rank(b) ==> a == b
  }

  ghost predicate AscendingBy(listing: seq<OrderId>, rank: OrderId -> int) {
    forall i, j :: 0 <= i < j < |listing| ==> rank(listing[i]) < rank(listing[j])
  }

  /** All sweeps in progress go through their orders in the sense of one ranking. */
  ghost predicate SweepsRanked(w: World, rank: OrderId -> int) {
    forall t :: t in w.holds && w.holds[t].phase.Sweeping? ==> AscendingBy(w.holds[t].phase.listing, rank)
  }

  /** How far up its ladder the wanted row is. */
  function Height(h: Hold, rank: OrderId -> int): int
    requires WantsOrder(h) || WantsObject(h)
  {
    if WantsOrder(h) then rank(h.phase.listing[h.phase.n]) else h.rows[h.phase.n]
  }

  ghost predicate WaitsAbove(w: World, t: TxId, tx: TxId, rank: OrderId -> int)
    requires Waits(w, tx)
  {
    && Waits(w, t) && (WantsOrder(w.holds[t]) <==> WantsOrder(w.holds[tx]))
    && Height(w.holds[tx], rank) < Height(w.holds[t], rank)
  }

  ghost function WaitingAbove(w: World, tx: TxId, rank: OrderId -> int): set<TxId>
    requires Waits(w, tx)
  {
    set t | t in w.holds && WaitsAbove(w, t, tx, rank)
  }

  /** Whoever holds the wanted row waits, if at all, for a row of the same kind further up. */
  lemma OwnerOf(w: World, tx: TxId, rank: OrderId -> int) returns (owner: TxId)
    requires WellFormed(w) && SweepsRanked(w, rank) && Waits(w, tx)
    ensures owner in w.holds && owner != tx
    ensures Waits(w, owner) ==> WaitsAbove(w, owner, tx, rank)
  {
    var h := w.holds[tx];
    if WantsOrder(h) {
      owner :| owner in w.holds && owner != tx && h.phase.listing[h.phase.n] in LockedOrders(w.holds[owner]);
    } else {
      owner :| owner in w.holds && owner != tx && h.rows[h.phase.n] in LockedRows(w.holds[owner]);
    }
    assert HoldShaped(w, w.holds[owner]);
  }

  /**
   * While the sweeps in progress follow one ranking there is no deadlock: some request need not wait.
   * The object rows need no such condition, since every request locks them in the order of their ids.
   */
  lemma {:induction false} SomeHoldCanStep(w: World, tx: TxId, rank: OrderId -> int) returns (runner: TxId)
    requires WellFormed(w) && SweepsRanked(w, rank) && tx in w.holds
    ensures runner in w.holds && !Waits(w, runner)
    decreases if Waits(w, tx) then |WaitingAbove(w, tx, rank)| + 1 else 0
  {
    if !Waits(w, tx) { return tx; }
    var owner := OwnerOf(w, tx, rank);
    if !Waits(w, owner) { return owner; }
    assert owner in WaitingAbove(w, tx, rank) && owner !in WaitingAbove(w, owner, rank);
    assert WaitingAbove(w, owner, rank) <= WaitingAbove(w, tx, rank) - {owner};
    SmallerSet(WaitingAbove(w, owner, rank), WaitingAbove(w, tx, rank), owner);
    runner := SomeHoldCanStep(w, owner, rank);
  }

  lemma SmallerSet(a: set<TxId>, b: set<TxId>, x: TxId)
    requires a <= b - {x} && x in b
    ensures |a| < |b|
  {
    SubsetSize(a, b - {x});
  }

  lemma SomeMember<T>(s: set<T>) returns (x: T)
    requires s != {}
    ensures x in s
  {
    x :| x in s;
  }

  lemma SomeKey<K, V>(m: map<K, V>) returns (k: K)
    requires m != map[]
    ensures k in m
  {
    assert m.Keys != {};
    k :| k in m.Keys;
  }

  // ----- finishing -----

  function StepsLeft(h: Hold): int {
    match h.phase
    case Started => 1
    case Sweeping(listing, n) => (if n <= |listing| then |listing| - n else 0) + |h.rows| + |h.cart| + 4
    case Locking(n) => (if n <= |h.rows| then |h.rows| - n else 0) + |h.cart| + 3
    case Checking(n, _) => (if n <= |h.cart| then |h.cart| - n else 0) + 1
  }

  function StepsLeftOf(holds: map<TxId, Hold>): TxId -> int {
    (t: TxId) => if t in holds then StepsLeft(holds[t]) else 0
  }

  ghost function AllStepsLeft(holds: map<TxId, Hold>): int {
    SumOver(holds.Keys, StepsLeftOf(holds))
  }

  lemma StepsLeftPositive(holds: map<TxId, Hold>)
    ensures 0 <= AllStepsLeft(holds)
    ensures AllStepsLeft(holds) == 0 <==> holds == map[]
  {
    assert forall t :: t in holds ==> 0 < StepsLeft(holds[t]);
    assert forall t :: t in holds.Keys ==> 0 < StepsLeftOf(holds)(t);
    SumOverZeroIff(holds.Keys, StepsLeftOf(holds));
    if holds != map[] {
      var t := SomeKey(holds);
      assert t in holds.Keys;
    }
  }

  lemma OneRequestAdvanced(holds: map<TxId, Hold>, next: map<TxId, Hold>, tx: TxId)
    requires tx in holds
    requires forall t :: t in holds && t != tx ==> t in next && next[t] == holds[t]
    requires forall t :: t in next ==> t in holds
    requires tx in next ==> StepsLeft(next[tx]) < StepsLeft(holds[tx])
    ensures AllStepsLeft(next) < AllStepsLeft(holds)
  {
    var rest := holds.Keys - {tx};
    SumOverRemove(holds.Keys, StepsLeftOf(holds), tx);
    forall t | t in rest ensures StepsLeftOf(holds)(t) == StepsLeftOf(next)(t) {
      assert t in holds && t != tx;
    }
    SumOverAgree(rest, StepsLeftOf(holds), StepsLeftOf(next));
    assert next.Keys - {tx} == rest by {
      forall t ensures t in next.Keys - {tx} <==> t in rest {
        if t in rest { assert t in holds && t != tx; }
        if t in next.Keys { assert t in next; }
      }
    }
    if tx in next {
      SumOverRemove(next.Keys, StepsLeftOf(next), tx);
    } else {
      assert next.Keys == next.Keys - {tx};
    }
  }

  function NotSwept(w: World): set<TxId> {
    set t | t in w.holds && w.holds[t].phase == Started
  }

  /** A step of one request on its own way; it aborts only when a stay was found taken. */
  predicate OwnStep(w: World, a: Action) {
    || a.SweepRead? || a.SweepLock? || a.SweepCommit? || a.LockRow? || a.CheckStay? || a.CommitHold?
    || (a.AbortHold? && a.tx in w.holds && w.holds[a.tx].phase == Checking(|w.holds[a.tx].cart|, false))
  }

  lemma AscendingSnoc(listing: seq<OrderId>, last: OrderId, rank: OrderId -> int)
    requires AscendingBy(listing, rank) && forall o :: o in listing ==> rank(o) < rank(last)
    ensures AscendingBy(listing + [last], rank)
  {
    var all := listing + [last];
    forall i, j | 0 <= i < j < |all| ensures rank(all[i]) < rank(all[j]) {
      assert all[i] == listing[i] && listing[i] in listing;
    }
  }

  /** Any set of orders can be listed in the sense of a ranking. */
  lemma {:induction false} ListRanked(found: set<OrderId>, rank: OrderId -> int) returns (listing: seq<OrderId>)
    requires IsRanking(rank)
    ensures Lists(listing, found) && AscendingBy(listing, rank)
    decreases |found|
  {
    if found == {} {
      listing := [];
    } else {
      var last := HighestRanked(found, rank);
      var rest := ListRanked(found - {last}, rank);
      ListedAreFound(rest, found - {last});
      AscendingSnoc(rest, last, rank);
      listing := rest + [last];
      assert forall o :: o in listing <==> o in rest || o == last;
    }
  }

  lemma {:induction false} HighestRanked(found: set<OrderId>, rank: OrderId -> int) returns (top: OrderId)
    requires found != {} && IsRanking(rank)
    ensures top in found && forall o :: o in found && o != top ==> rank(o) < rank(top)
    decreases |found|
  {
    top := SomeMember(found);
    if found != {top} {
      var other := HighestRanked(found - {top}, rank);
      assert rank(other) != rank(top);
      if rank(top) < rank(other) { top := other; }
    }
  }

  /** A request that does not wait can take a step of its own. */
  lemma NextStepOf(w: World, tx: TxId, rank: OrderId -> int) returns (a: Action)
    requires WellFormed(w) && SweepsRanked(w, rank) && IsRanking(rank) && tx in w.holds && !Waits(w, tx)
    ensures OwnStep(w, a) && Enabled(w, a) && a.tx == tx
    ensures a.SweepRead? ==> w.holds[tx].phase == Started && AscendingBy(a.listing, rank)
  {
    var h := w.holds[tx];
    assert HoldShaped(w, h);
    match h.phase {
      case Started =>
        var listing := ListRanked(FindStaleHeldOrders(w.orders, h.now), rank);
        a := SweepRead(tx, listing);
      case Sweeping(listing, n) => a := if n < |listing| then SweepLock(tx) else SweepCommit(tx);
      case Locking(n) => a := if n < |h.rows| then LockRow(tx) else CheckStay(tx, {});
      case Checking(n, free) =>
        a := if n < |h.cart| then CheckStay(tx, {}) else if free then CommitHold(tx) else AbortHold(tx);
    }
  }

  lemma OwnStepChanges(w: World, a: Action)
    requires WellFormed(w) && OwnStep(w, a) && Enabled(w, a)
    ensures
      var holds, next := w.holds, Next(w, a).holds;
      && (forall t :: t in holds && t != a.tx ==> t in next && next[t] == holds[t])
      && (forall t :: t in next ==> t in holds)
      && (a.tx in next && !a.SweepRead? ==>
           && next[a.tx].phase != Started && holds[a.tx].phase != Started
           && StepsLeft(next[a.tx]) < StepsLeft(holds[a.tx]))
      && (a.SweepRead? ==> a.tx in next && next[a.tx].phase == Sweeping(a.listing, 0))
      && (!a.SweepRead? ==> holds[a.tx].phase != Started)
      && (a.tx in next && next[a.tx].phase.Sweeping? && !a.SweepRead? ==>
           holds[a.tx].phase.Sweeping? && next[a.tx].phase.listing == holds[a.tx].phase.listing)
  {
    assert HoldShaped(w, w.holds[a.tx]);
  }

  lemma OwnStepProgress(w: World, a: Action, rank: OrderId -> int)
    requires WellFormed(w) && SweepsRanked(w, rank) && OwnStep(w, a) && Enabled(w, a)
    requires a.SweepRead? ==> AscendingBy(a.listing, rank)
    ensures
      var next := Next(w, a);
      && SweepsRanked(next, rank) && next.holds.Keys <= w.holds.Keys
      && (if a.SweepRead? then |NotSwept(next)| < |NotSwept(w)|
          else NotSwept(next) == NotSwept(w) && AllStepsLeft(next.holds) < AllStepsLeft(w.holds))
  {
    var next := Next(w, a);
    OwnStepChanges(w, a);
    if a.SweepRead? {
      assert a.tx in NotSwept(w) && a.tx !in NotSwept(next);
      assert NotSwept(next) <= NotSwept(w) - {a.tx};
      SmallerSet(NotSwept(next), NotSwept(w), a.tx);
    } else {
      assert NotSwept(next) == NotSwept(w);
      OneRequestAdvanced(w.holds, next.holds, a.tx);
    }
  }

  /** A run of such steps only. */
  ghost predicate OwnRun(w: World, actions: seq<Action>)
    requires Runs(w, actions)
    decreases |actions|
  {
    actions != [] ==> OwnStep(w, actions[0]) && OwnRun(Next(w, actions[0]), actions[1..])
  }

  /**
   * From every well-formed world whose sweeps follow one ranking the requests in flight can all be
   * brought to an end by their own steps.
   */
  lemma {:induction false} EveryHoldCanFinish(w: World, rank: OrderId -> int) returns (actions: seq<Action>)
    requires WellFormed(w) && SweepsRanked(w, rank) && IsRanking(rank)
    ensures Runs(w, actions) && OwnRun(w, actions) && After(w, actions).holds == map[]
    decreases |NotSwept(w)|, AllStepsLeft(w.holds)
  {
    StepsLeftPositive(w.holds);
    if w.holds == map[] { return []; }
    var any := SomeKey(w.holds);
    var tx := SomeHoldCanStep(w, any, rank);
    var step := NextStepOf(w, tx, rank);
    OwnStepProgress(w, step, rank);
    NextIsWellFormed(w, step);
    StepsLeftPositive(Next(w, step).holds);
    var rest := EveryHoldCanFinish(Next(w, step), rank);
    actions := [step] + rest;
    assert actions[1..] == rest;
  }
}
