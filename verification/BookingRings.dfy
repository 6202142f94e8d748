/** Deadlocks among any number of requests: what they look like, that they last, and when they can arise. */
module BookingRings {
  import opened Common
  import opened Sums
  import opened BookingModel
  import opened BookingProperties
  import opened BookingLocks
  import opened BookingDeadlock

  /** The row that s wants next, of an order or of an object, is locked by t. */
  predicate Blocks(w: World, t: TxId, s: TxId) {
    && s in w.holds && t in w.holds && s != t
    && var h := w.holds[s];
       || (WantsOrder(h) && h.phase.listing[h.phase.n] in LockedOrders(w.holds[t]))
       || (WantsObject(h) && h.rows[h.phase.n] in LockedRows(w.holds[t]))
  }

  lemma WaitsIffBlocked(w: World, s: TxId)
    ensures Waits(w, s) <==> exists t :: Blocks(w, t, s)
  {
    if Waits(w, s) {
      var h := w.holds[s];
      if WantsOrder(h) {
        var t :| t in w.holds && t != s && h.phase.listing[h.phase.n] in LockedOrders(w.holds[t]);
        assert Blocks(w, t, s);
      } else {
        var t :| t in w.holds && t != s && h.rows[h.phase.n] in LockedRows(w.holds[t]);
        assert Blocks(w, t, s);
      }
    }
  }

  lemma LockedOnce(holds: map<TxId, Hold>, t: TxId, u: TxId, o: OrderId)
    requires LocksExclusive(holds) && t in holds && u in holds
    requires o in LockedOrders(holds[t]) && o in LockedOrders(holds[u])
    ensures t == u
  {
  }

  lemma ObjectLockedOnce(holds: map<TxId, Hold>, t: TxId, u: TxId, r: ObjectId)
    requires LocksExclusive(holds) && t in holds && u in holds
    requires r in LockedRows(holds[t]) && r in LockedRows(holds[u])
    ensures t == u
  {
  }

  lemma OneBlocker(w: World, t: TxId, u: TxId, s: TxId)
    requires LocksExclusive(w.holds) && Blocks(w, t, s) && Blocks(w, u, s)
    ensures t == u
  {
    var h := w.holds[s];
    if WantsOrder(h) {
      LockedOnce(w.holds, t, u, h.phase.listing[h.phase.n]);
    } else {
      ObjectLockedOnce(w.holds, t, u, h.rows[h.phase.n]);
    }
  }

  /** Requests that all wait, and for no one but each other. */
  ghost predicate Deadlocked(w: World, stuck: set<TxId>) {
    && stuck != {}
    && (forall s :: s in stuck ==> Waits(w, s))
    && (forall t, s :: s in stuck && Blocks(w, t, s) ==> t in stuck)
  }

  // ----- deadlocks last -----

  lemma WaitingStands(w: World, s: TxId, a: Action)
    requires Waits(w, s) && Enabled(w, a) && a != AbortHold(s)
    ensures s in Next(w, a).holds && Next(w, a).holds[s] == w.holds[s]
  {
  }

  lemma StillBlocked(w: World, next: World, t: TxId, s: TxId)
    requires Blocks(w, t, s) && s in next.holds && t in next.holds
    requires next.holds[s] == w.holds[s] && next.holds[t] == w.holds[t]
    ensures Blocks(next, t, s)
  {
  }

  /** Only giving up one of the requests ends a deadlock. */
  lemma DeadlockStays(w: World, stuck: set<TxId>, a: Action)
    requires WellFormed(w) && Deadlocked(w, stuck) && Enabled(w, a)
    requires forall s :: s in stuck ==> a != AbortHold(s)
    ensures Deadlocked(Next(w, a), stuck)
  {
    var next := Next(w, a);
    NextIsWellFormed(w, a);
    forall s | s in stuck ensures Waits(next, s) && forall u :: Blocks(next, u, s) ==> u in stuck {
      WaitsIffBlocked(w, s);
      var t :| Blocks(w, t, s);
      assert t in stuck;
      WaitingStands(w, s, a);
      WaitingStands(w, t, a);
      StillBlocked(w, next, t, s);
      WaitsIffBlocked(next, s);
      forall u | Blocks(next, u, s) ensures u in stuck { OneBlocker(next, t, u, s); }
    }
  }

  lemma {:induction false} DeadlockLasts(w: World, stuck: set<TxId>, actions: seq<Action>)
    requires WellFormed(w) && Deadlocked(w, stuck) && Runs(w, actions)
    requires forall k, s :: 0 <= k < |actions| && s in stuck ==> actions[k] != AbortHold(s)
    ensures Deadlocked(After(w, actions), stuck)
    decreases |actions|
  {
    if actions != [] {
      DeadlockStays(w, stuck, actions[0]);
      NextIsWellFormed(w, actions[0]);
      DeadlockLasts(Next(w, actions[0]), stuck, actions[1..]);
    }
  }

  // ----- a deadlock is a ring of sweeps -----

  function Before(i: nat, size: nat): nat
    requires i < size
  {
    if i == 0 then size - 1 else i - 1
  }

  /** The i-th sweep wants an order row that the one before it has locked. */
  ghost predicate RingEdge(w: World, ts: seq<TxId>, i: nat)
    requires i < |ts|
  {
    ts[i] in w.holds && WantsOrder(w.holds[ts[i]]) && Blocks(w, ts[Before(i, |ts|)], ts[i])
  }

  ghost predicate WaitRing(w: World, ts: seq<TxId>) {
    2 <= |ts| && Distinct(ts) && forall i :: 0 <= i < |ts| ==> RingEdge(w, ts, i)
  }

  function ObjectsAbove(w: World, s: TxId): set<TxId>
    requires s in w.holds && WantsObject(w.holds[s])
  {
    set t | t in w.holds && WantsObject(w.holds[t])
      && w.holds[s].rows[w.holds[s].phase.n] < w.holds[t].rows[w.holds[t].phase.n]
  }

  /** Object rows are locked in the order of their ids, so no request that wants one is in a deadlock. */
  lemma {:induction false} StuckIsSweep(w: World, stuck: set<TxId>, s: TxId)
    requires WellFormed(w) && Deadlocked(w, stuck) && s in stuck && s in w.holds
    ensures WantsOrder(w.holds[s])
    decreases if WantsObject(w.holds[s]) then |ObjectsAbove(w, s)| + 1 else 0
  {
    assert Waits(w, s);
    if WantsObject(w.holds[s]) {
      WaitsIffBlocked(w, s);
      var t :| Blocks(w, t, s);
      assert Waits(w, t) && HoldShaped(w, w.holds[t]);
      assert t in ObjectsAbove(w, s) && t !in ObjectsAbove(w, t);
      SmallerSet(ObjectsAbove(w, t), ObjectsAbove(w, s), t);
      StuckIsSweep(w, stuck, t);
    }
  }

  function Members(ts: seq<TxId>): set<TxId> {
    set t | t in ts
  }

  ghost predicate Chain(w: World, ts: seq<TxId>) {
    && ts != [] && Distinct(ts)
    && (forall i :: 0 <= i < |ts| ==> ts[i] in w.holds)
    && (forall i :: 0 < i < |ts| ==> RingEdge(w, ts, i))
  }

  lemma ChainLength(w: World, ts: seq<TxId>)
    requires Chain(w, ts)
    ensures |ts| <= |w.holds|
  {
    DistinctSize(ts);
    assert Members(ts) <= w.holds.Keys;
    SubsetSize(Members(ts), w.holds.Keys);
    assert |w.holds.Keys| == |w.holds|;
  }

  lemma {:induction false} DistinctSize(ts: seq<TxId>)
    requires Distinct(ts)
    ensures |Members(ts)| == |ts|
  {
    if ts != [] {
      DistinctSize(ts[1..]);
      assert Members(ts) == Members(ts[1..]) + {ts[0]};
      assert ts[0] !in ts[1..];
    }
  }

  lemma LongerChain(w: World, ts: seq<TxId>, t: TxId)
    requires Chain(w, ts) && t !in ts && Blocks(w, t, ts[0]) && WantsOrder(w.holds[ts[0]])
    ensures Chain(w, [t] + ts)
  {
    var all := [t] + ts;
    forall i | 0 < i < |all| ensures RingEdge(w, all, i) {
      if i > 1 { assert RingEdge(w, ts, i - 1); }
    }
  }

  lemma ClosedChain(w: World, ts: seq<TxId>, j: nat)
    requires Chain(w, ts) && 0 < j < |ts| && Blocks(w, ts[j], ts[0]) && WantsOrder(w.holds[ts[0]])
    ensures WaitRing(w, ts[..j + 1])
  {
    var ring := ts[..j + 1];
    forall i | 0 <= i < |ring| ensures RingEdge(w, ring, i) {
      if i > 0 { assert RingEdge(w, ts, i); }
    }
  }

  /** Going from each request to the one it waits for must come back to where it has been. */
  lemma {:induction false} FindRing(w: World, stuck: set<TxId>, chain: seq<TxId>) returns (ring: seq<TxId>)
    requires WellFormed(w) && Deadlocked(w, stuck) && Chain(w, chain) && chain[0] in stuck
    ensures WaitRing(w, ring)
    decreases |w.holds| - |chain|
  {
    var s := chain[0];
    StuckIsSweep(w, stuck, s);
    WaitsIffBlocked(w, s);
    var t :| Blocks(w, t, s);
    if t in chain {
      var j :| 0 <= j < |chain| && chain[j] == t;
      ClosedChain(w, chain, j);
      ring := chain[..j + 1];
    } else {
      LongerChain(w, chain, t);
      ChainLength(w, [t] + chain);
      ring := FindRing(w, stuck, [t] + chain);
    }
  }

  lemma RingIsDeadlocked(w: World, ts: seq<TxId>)
    requires WellFormed(w) && WaitRing(w, ts)
    ensures Deadlocked(w, Members(ts))
  {
    var stuck := Members(ts);
    assert ts[0] in stuck;
    forall s | s in stuck ensures Waits(w, s) && forall t :: Blocks(w, t, s) ==> t in stuck {
      var i :| 0 <= i < |ts| && ts[i] == s;
      assert RingEdge(w, ts, i);
      var before := ts[Before(i, |ts|)];
      assert before in ts;
      WaitsIffBlocked(w, s);
      forall t | Blocks(w, t, s) ensures t in stuck { OneBlocker(w, before, t, s); }
    }
  }

  ghost predicate InDeadlock(w: World) {
    exists stuck :: Deadlocked(w, stuck)
  }

  ghost predicate HasRing(w: World) {
    exists ts :: WaitRing(w, ts)
  }

  /** There is a deadlock exactly when sweeps wait in a ring, each for an order the one before it has locked. */
  lemma DeadlockIsRing(w: World)
    requires WellFormed(w)
    ensures InDeadlock(w) <==> HasRing(w)
  {
    if InDeadlock(w) {
      var stuck :| Deadlocked(w, stuck);
      var s := SomeMember(stuck);
      assert Waits(w, s);
      var ring := FindRing(w, stuck, [s]);
    }
    if HasRing(w) {
      var ts :| WaitRing(w, ts);
      RingIsDeadlocked(w, ts);
    }
  }

  // ----- when a deadlock can arise -----

  /** The request is about to sweep and will list this order. */
  predicate WillList(w: World, t: TxId, o: OrderId) {
    t in w.holds && w.holds[t].phase == Started && o in FindStaleHeldOrders(w.orders, w.holds[t].now)
  }

  ghost predicate SharedEdge(w: World, ts: seq<TxId>, os: seq<OrderId>, i: nat)
    requires i < |ts| == |os|
  {
    WillList(w, ts[i], os[i]) && WillList(w, ts[i], os[Before(i, |ts|)])
  }

  /** Requests about to sweep in a ring, with different orders, each stale for the request and for the next one. */
  ghost predicate StaleRing(w: World, ts: seq<TxId>, os: seq<OrderId>) {
    && 2 <= |ts| == |os| && Distinct(ts) && Distinct(os)
    && forall i :: 0 <= i < |ts| ==> SharedEdge(w, ts, os, i)
  }

  ghost predicate NoSweeps(w: World) {
    forall t :: t in w.holds ==> !w.holds[t].phase.Sweeping?
  }

  /** No request comes in, and none commits a hold. */
  ghost predicate NothingNew(actions: seq<Action>) {
    forall k :: 0 <= k < |actions| ==> !actions[k].StartHold? && !actions[k].CommitHold?
  }

  /** What a request sweeps or may still list in the later world it would have listed in the earlier one. */
  ghost predicate ListsNoMore(w: World, v: World) {
    && (forall t, o :: WillList(v, t, o) ==> WillList(w, t, o))
    && (forall t :: t in v.holds && v.holds[t].phase.Sweeping? ==> ListedFrom(w, v, t))
  }

  ghost predicate ListedFrom(w: World, v: World, t: TxId)
    requires t in v.holds && v.holds[t].phase.Sweeping?
  {
    forall k :: 0 <= k < |v.holds[t].phase.listing| ==> WillList(w, t, v.holds[t].phase.listing[k])
  }

  lemma StaleShrinks(w: World, a: Action, now: Instant)
    requires WellFormed(w) && Enabled(w, a) && !a.CommitHold?
    ensures FindStaleHeldOrders(Next(w, a).orders, now) <= FindStaleHeldOrders(w.orders, now)
  {
    forall o | o in FindStaleHeldOrders(Next(w, a).orders, now) ensures o in FindStaleHeldOrders(w.orders, now) {
      if a.SweepCommit? { SweptRow(w.orders, w.holds[a.tx].phase.listing, o); }
    }
  }

  lemma StepListsNoMore(w: World, v: World, a: Action)
    requires WellFormed(v) && ListsNoMore(w, v) && Enabled(v, a) && !a.StartHold? && !a.CommitHold?
    ensures ListsNoMore(w, Next(v, a))
  {
    var next := Next(v, a);
    forall t, o | WillList(next, t, o) ensures WillList(w, t, o) {
      StaleShrinks(v, a, next.holds[t].now);
      assert WillList(v, t, o);
    }
    forall t | t in next.holds && next.holds[t].phase.Sweeping? ensures ListedFrom(w, next, t) {
      if a.SweepRead? && a.tx == t {
        ListedAreFound(a.listing, FindStaleHeldOrders(v.orders, v.holds[t].now));
        forall k | 0 <= k < |a.listing| ensures WillList(w, t, a.listing[k]) {
          assert WillList(v, t, a.listing[k]);
        }
      } else {
        assert t in v.holds && v.holds[t].phase.Sweeping?;
        assert next.holds[t].phase.listing == v.holds[t].phase.listing;
        assert ListedFrom(w, v, t);
      }
    }
  }

  lemma {:induction false} RunListsNoMore(w: World, v: World, actions: seq<Action>)
    requires WellFormed(v) && ListsNoMore(w, v) && Runs(v, actions) && NothingNew(actions)
    ensures WellFormed(After(v, actions)) && ListsNoMore(w, After(v, actions))
    decreases |actions|
  {
    if actions != [] {
      StepListsNoMore(w, v, actions[0]);
      NextIsWellFormed(v, actions[0]);
      RunListsNoMore(w, Next(v, actions[0]), actions[1..]);
    }
  }

  /** The order that the i-th request of a ring waits for. */
  function WantedAt(w: World, ts: seq<TxId>, i: nat): OrderId
    requires i < |ts| && ts[i] in w.holds && WantsOrder(w.holds[ts[i]])
  {
    w.holds[ts[i]].phase.listing[w.holds[ts[i]].phase.n]
  }

  function Later(i: nat, size: nat): (j: nat)
    requires i < size
    ensures j < size && Before(j, size) == i
  {
    if i + 1 == size then 0 else i + 1
  }

  lemma BeforeThenLater(i: nat, size: nat)
    requires i < size
    ensures Before(i, size) < size && Later(Before(i, size), size) == i
  {
  }

  lemma RingRow(w: World, ts: seq<TxId>, i: nat)
    requires WaitRing(w, ts) && i < |ts|
    ensures ts[i] in w.holds && WantsOrder(w.holds[ts[i]]) && ts[Before(i, |ts|)] in w.holds
    ensures WantedAt(w, ts, i) in LockedOrders(w.holds[ts[Before(i, |ts|)]])
    ensures WantedAt(w, ts, i) in w.holds[ts[i]].phase.listing
  {
    assert RingEdge(w, ts, i);
  }

  lemma SweptIsListed(w: World, v: World, t: TxId, o: OrderId)
    requires ListsNoMore(w, v) && t in v.holds && (o in LockedOrders(v.holds[t]) ||
      (v.holds[t].phase.Sweeping? && o in v.holds[t].phase.listing))
    ensures WillList(w, t, o)
  {
    assert ListedFrom(w, v, t);
  }

  /** The orders that a ring is about: the i-th is locked by the i-th request and wanted by the next one. */
  ghost function RingOrders(w: World, ts: seq<TxId>): (os: seq<OrderId>)
    requires WaitRing(w, ts)
    ensures |os| == |ts|
  {
    seq(|ts|, i requires 0 <= i < |ts| =>
      RingRow(w, ts, Later(i, |ts|)); WantedAt(w, ts, Later(i, |ts|)))
  }

  lemma RingOrderAt(w: World, ts: seq<TxId>, i: nat)
    requires WaitRing(w, ts) && i < |ts|
    ensures ts[i] in w.holds && w.holds[ts[i]].phase.Sweeping?
    ensures RingOrders(w, ts)[i] in LockedOrders(w.holds[ts[i]])
    ensures RingOrders(w, ts)[Before(i, |ts|)] in w.holds[ts[i]].phase.listing
  {
    RingRow(w, ts, Later(i, |ts|));
    RingRow(w, ts, i);
    BeforeThenLater(i, |ts|);
  }

  lemma RingIsStale(w: World, v: World, ts: seq<TxId>)
    requires WellFormed(v) && ListsNoMore(w, v) && WaitRing(v, ts)
    ensures StaleRing(w, ts, RingOrders(v, ts))
  {
    var os := RingOrders(v, ts);
    forall i | 0 <= i < |ts| ensures SharedEdge(w, ts, os, i) {
      RingOrderAt(v, ts, i);
      SweptIsListed(w, v, ts[i], os[i]);
      SweptIsListed(w, v, ts[i], os[Before(i, |ts|)]);
    }
    forall i, j | 0 <= i < j < |os| ensures os[i] != os[j] {
      RingOrderAt(v, ts, i);
      RingOrderAt(v, ts, j);
      if os[i] == os[j] { LockedOnce(v.holds, ts[i], ts[j], os[i]); }
    }
  }

  // ----- building the ring -----

  /** The request has locked the order it listed first and goes on with the one of the request before it. */
  ghost predicate HoldsFirst(v: World, ts: seq<TxId>, os: seq<OrderId>, i: nat)
    requires i < |ts| == |os|
  {
    && ts[i] in v.holds && v.holds[ts[i]].phase.Sweeping?
    && var p := v.holds[ts[i]].phase;
       p.n == 1 && 2 <= |p.listing| && p.listing[0] == os[i] && p.listing[1] == os[Before(i, |ts|)]
  }

  /** The first n requests of the ring have come that far, and nothing else has changed. */
  ghost predicate RingUpTo(w: World, v: World, ts: seq<TxId>, os: seq<OrderId>, n: nat)
    requires n <= |ts| == |os|
  {
    && v.orders == w.orders && WellFormed(v)
    && (forall i :: 0 <= i < n ==> HoldsFirst(v, ts, os, i))
    && (forall t :: t in w.holds && t !in ts[..n] ==> t in v.holds && v.holds[t] == w.holds[t])
    && (forall t :: t in v.holds ==> t in w.holds)
  }

  lemma ListTwo(found: set<OrderId>, a: OrderId, b: OrderId) returns (listing: seq<OrderId>)
    requires a in found && b in found && a != b
    ensures Lists(listing, found) && 2 <= |listing| && listing[0] == a && listing[1] == b
  {
    var rest := ListFrom(found - {a}, b);
    ListedAreFound(rest, found - {a});
    listing := [a] + rest;
    assert forall o :: o in listing <==> o == a || o in rest;
  }

  /** The next request of the ring reads the stale orders and locks the first one. */
  lemma NextOfRing(w: World, v: World, ts: seq<TxId>, os: seq<OrderId>, n: nat) returns (actions: seq<Action>)
    requires NoSweeps(w) && StaleRing(w, ts, os) && n < |ts| && RingUpTo(w, v, ts, os, n)
    ensures Runs(v, actions) && NothingNew(actions) && RingUpTo(w, After(v, actions), ts, os, n + 1)
  {
    var tx, before := ts[n], os[Before(n, |ts|)];
    assert SharedEdge(w, ts, os, n);
    assert tx !in ts[..n];
    assert os[n] != before;
    var listing := ListTwo(FindStaleHeldOrders(v.orders, v.holds[tx].now), os[n], before);
    forall t | t in v.holds ensures os[n] !in LockedOrders(v.holds[t]) {
      FirstIsFree(w, v, ts, os, n, t);
    }
    LockHead(v, tx, listing);
    actions := [SweepRead(tx, listing), SweepLock(tx)];
    RingGrows(w, v, tx, listing, ts, os, n);
  }

  lemma LockHead(v: World, tx: TxId, listing: seq<OrderId>)
    requires WellFormed(v) && Enabled(v, SweepRead(tx, listing)) && listing != []
    requires forall t :: t in v.holds ==> listing[0] !in LockedOrders(v.holds[t])
    ensures Runs(v, [SweepRead(tx, listing), SweepLock(tx)])
    ensures After(v, [SweepRead(tx, listing), SweepLock(tx)]) == SetPhase(v, tx, Sweeping(listing, 1))
    ensures WellFormed(SetPhase(v, tx, Sweeping(listing, 1)))
  {
    var one, two := SetPhase(v, tx, Sweeping(listing, 0)), SetPhase(v, tx, Sweeping(listing, 1));
    FirstLock(v, tx, listing);
    NextIsWellFormed(v, SweepRead(tx, listing));
    NextIsWellFormed(one, SweepLock(tx));
    TwoRuns(v, SweepRead(tx, listing), one, SweepLock(tx), two);
  }

  lemma FirstLock(v: World, tx: TxId, listing: seq<OrderId>)
    requires tx in v.holds && listing != []
    requires forall t :: t in v.holds ==> listing[0] !in LockedOrders(v.holds[t])
    ensures Enabled(SetPhase(v, tx, Sweeping(listing, 0)), SweepLock(tx))
    ensures Next(SetPhase(v, tx, Sweeping(listing, 0)), SweepLock(tx)) == SetPhase(v, tx, Sweeping(listing, 1))
  {
    var one := SetPhase(v, tx, Sweeping(listing, 0));
    var h := v.holds[tx];
    assert v.holds[tx := h.(phase := Sweeping(listing, 0))][tx := h.(phase := Sweeping(listing, 1))]
        == v.holds[tx := h.(phase := Sweeping(listing, 1))];
  }

  lemma FirstIsFree(w: World, v: World, ts: seq<TxId>, os: seq<OrderId>, n: nat, t: TxId)
    requires NoSweeps(w) && StaleRing(w, ts, os) && n < |ts| && RingUpTo(w, v, ts, os, n) && t in v.holds
    ensures os[n] !in LockedOrders(v.holds[t])
  {
    if t in ts[..n] {
      var i :| 0 <= i < n && ts[i] == t;
      assert HoldsFirst(v, ts, os, i);
      assert LockedOrders(v.holds[t]) == [os[i]];
    }
  }

  lemma TwoRuns(w: World, a: Action, mid: World, b: Action, end: World)
    requires Enabled(w, a) && Next(w, a) == mid && Enabled(mid, b) && Next(mid, b) == end
    ensures Runs(w, [a, b]) && After(w, [a, b]) == end
  {
    assert [a, b][1..] == [b] && [b][1..] == [];
    assert Runs(end, []) && After(end, []) == end;
    assert Runs(mid, [b]) && After(mid, [b]) == end;
  }

  lemma RingGrows(
    w: World, v: World, tx: TxId, listing: seq<OrderId>, ts: seq<TxId>, os: seq<OrderId>, n: nat)
    requires StaleRing(w, ts, os) && n < |ts| && RingUpTo(w, v, ts, os, n)
    requires tx == ts[n] && tx in v.holds && WellFormed(SetPhase(v, tx, Sweeping(listing, 1)))
    requires 2 <= |listing| && listing[0] == os[n] && listing[1] == os[Before(n, |ts|)]
    ensures RingUpTo(w, SetPhase(v, tx, Sweeping(listing, 1)), ts, os, n + 1)
  {
    var next := SetPhase(v, tx, Sweeping(listing, 1));
    forall i | 0 <= i < n + 1 ensures HoldsFirst(next, ts, os, i) {
      if i < n { assert HoldsFirst(v, ts, os, i); }
    }
    assert ts[..n + 1] == ts[..n] + [ts[n]];
  }

  lemma {:induction false} BuildRing(w: World, ts: seq<TxId>, os: seq<OrderId>, n: nat) returns (actions: seq<Action>)
    requires WellFormed(w) && NoSweeps(w) && StaleRing(w, ts, os) && n <= |ts|
    ensures Runs(w, actions) && NothingNew(actions) && RingUpTo(w, After(w, actions), ts, os, n)
  {
    if n == 0 {
      actions := [];
    } else {
      var first := BuildRing(w, ts, os, n - 1);
      var second := NextOfRing(w, After(w, first), ts, os, n - 1);
      RunsJoin(w, first, second);
      actions := first + second;
    }
  }

  lemma BuiltRing(w: World, v: World, ts: seq<TxId>, os: seq<OrderId>)
    requires StaleRing(w, ts, os) && RingUpTo(w, v, ts, os, |ts|)
    ensures WaitRing(v, ts)
  {
    forall i | 0 <= i < |ts| ensures RingEdge(v, ts, i) {
      assert HoldsFirst(v, ts, os, i) && HoldsFirst(v, ts, os, Before(i, |ts|));
      assert LockedOrders(v.holds[ts[Before(i, |ts|)]]) == [os[Before(i, |ts|)]];
    }
  }

  /** The requests now in flight can come to a deadlock. */
  ghost predicate CanDeadlock(w: World) {
    exists actions :: Runs(w, actions) && NothingNew(actions) && InDeadlock(After(w, actions))
  }

  ghost predicate HasStaleRing(w: World) {
    exists ts, os :: StaleRing(w, ts, os)
  }

  /**
   * Requests of which none has begun its sweep can come to a deadlock among themselves, before another
   * comes in or one commits, if and only if some of those about to sweep form a ring, with as many
   * different orders, each of them stale for one request and for the next.
   */
  lemma CanDeadlockIff(w: World)
    requires WellFormed(w) && NoSweeps(w)
    ensures CanDeadlock(w) <==> HasStaleRing(w)
  {
    if CanDeadlock(w) {
      var actions :| Runs(w, actions) && NothingNew(actions) && InDeadlock(After(w, actions));
      RunListsNoMore(w, w, actions);
      DeadlockIsRing(After(w, actions));
      var ring :| WaitRing(After(w, actions), ring);
      RingIsStale(w, After(w, actions), ring);
    }
    if HasStaleRing(w) {
      var ts, os :| StaleRing(w, ts, os);
      var actions := BuildRing(w, ts, os, |ts|);
      BuiltRing(w, After(w, actions), ts, os);
      DeadlockIsRing(After(w, actions));
    }
  }

  // ----- more than two -----

  /** A request that has locked the first of the two orders it listed. */
  function HalfSwept(order: OrderId, a: OrderId, b: OrderId): Hold {
    Hold(order, [Stay(7, 100, 200)], [7], 0, 10, Sweeping([a, b], 1), map[])
  }

  function ThreeSweeps(orders: map<OrderId, Order>): World {
    World(0, orders, map[], map[1 := HalfSwept(11, 1, 2), 2 := HalfSwept(12, 2, 3), 3 := HalfSwept(13, 3, 1)], map[])
  }

  /** Each two of these sweeps agree on the first order they share, and still all three wait. */
  lemma ThreeWaitThoughPairsAgree(orders: map<OrderId, Order>)
    ensures WaitRing(ThreeSweeps(orders), [1, 3, 2])
    ensures FirstShared([1, 2], [2, 3]) == FirstShared([2, 3], [1, 2]) == Some(2)
    ensures FirstShared([2, 3], [3, 1]) == FirstShared([3, 1], [2, 3]) == Some(3)
    ensures FirstShared([3, 1], [1, 2]) == FirstShared([1, 2], [3, 1]) == Some(1)
  {
    var w, ts := ThreeSweeps(orders), [1, 3, 2];
    assert LockedOrders(w.holds[1]) == [1] && LockedOrders(w.holds[2]) == [2] && LockedOrders(w.holds[3]) == [3];
    assert RingEdge(w, ts, 0) && RingEdge(w, ts, 1) && RingEdge(w, ts, 2);
    assert [1, 2][1..] == [2] && [2, 3][1..] == [3] && [3, 1][1..] == [1];
  }
}
