/** When two sweeps can wait for each other for ever. */
module BookingDeadlock {
  import opened Common
  import opened BookingModel
  import opened BookingProperties
  import opened BookingLocks

  /** The first element of p that is also in q. */
  function FirstShared(p: seq<OrderId>, q: seq<OrderId>): Option<OrderId> {
    if p == [] then None
    else if p[0] in q then Some(p[0])
    else FirstShared(p[1..], q)
  }

  lemma {:induction false} FirstSharedAt(p: seq<OrderId>, q: seq<OrderId>) returns (i: nat)
    ensures i <= |p| && (forall j :: 0 <= j < i ==> p[j] !in q)
    ensures FirstShared(p, q) == if i < |p| then Some(p[i]) else None
    ensures i < |p| ==> p[i] in q
  {
    if p == [] || p[0] in q {
      i := 0;
    } else {
      var j := FirstSharedAt(p[1..], q);
      i := j + 1;
      assert forall k :: 0 < k < |p| ==> p[k] == p[1..][k - 1];
    }
  }

  function Listing(w: World, tx: TxId): seq<OrderId>
    requires tx in w.holds && w.holds[tx].phase.Sweeping?
  {
    w.holds[tx].phase.listing
  }

  /** Both sweep, and each wants an order row that the other has locked. */
  ghost predicate MutualWait(w: World, s: TxId, t: TxId) {
    && s in w.holds && t in w.holds && WantsOrder(w.holds[s]) && WantsOrder(w.holds[t])
    && Listing(w, s)[w.holds[s].phase.n] in LockedOrders(w.holds[t])
    && Listing(w, t)[w.holds[t].phase.n] in LockedOrders(w.holds[s])
  }

  lemma MutualWaitersWait(w: World, s: TxId, t: TxId)
    requires s != t && MutualWait(w, s, t)
    ensures Waits(w, s) && Waits(w, t)
  {
  }

  lemma FirstSharedIsLocked(w: World, s: TxId, p: seq<OrderId>, q: seq<OrderId>, n: nat, wanted: OrderId)
    requires s in w.holds && w.holds[s].phase == Sweeping(p, n) && n <= |p|
    requires wanted in p[..n] && wanted in q
    ensures FirstShared(p, q).Some? && FirstShared(p, q).value in LockedOrders(w.holds[s])
  {
    var i := FirstSharedAt(p, q);
    var k :| 0 <= k < n && p[k] == wanted;
    assert i <= k && p[i] == p[..n][i];
  }

  /** Two sweeps can only wait for each other when the first order they share is not the same for both. */
  lemma MutualWaitMeansDifferentFirst(w: World, s: TxId, t: TxId)
    requires HoldsWellFormed(w) && s != t && MutualWait(w, s, t)
    ensures FirstShared(Listing(w, s), Listing(w, t)) != FirstShared(Listing(w, t), Listing(w, s))
  {
    var p, q := Listing(w, s), Listing(w, t);
    var n, m := w.holds[s].phase.n, w.holds[t].phase.n;
    FirstSharedIsLocked(w, s, p, q, n, q[m]);
    FirstSharedIsLocked(w, t, q, p, m, p[n]);
    var x := FirstShared(p, q).value;
    assert !(x in LockedOrders(w.holds[s]) && x in LockedOrders(w.holds[t]));
  }

  // ----- reaching the deadlock -----

  ghost predicate OnlySweepLocks(actions: seq<Action>, s: TxId, t: TxId) {
    forall k :: 0 <= k < |actions| ==> actions[k] == SweepLock(s) || actions[k] == SweepLock(t)
  }

  /** No request other than these two has locked any of the rows. */
  ghost predicate FreeOfOthers(w: World, rows: seq<OrderId>, s: TxId, t: TxId) {
    forall u, k :: u in w.holds && u != s && u != t && 0 <= k < |rows| ==> rows[k] !in LockedOrders(w.holds[u])
  }

  /** One sweep locks its rows from n up to m, none of which anyone else has locked. */
  lemma {:induction false} LockUpTo(w: World, tx: TxId, other: TxId, n: nat, m: nat) returns (actions: seq<Action>)
    requires tx in w.holds && w.holds[tx].phase.Sweeping? && w.holds[tx].phase.n == n <= m <= |Listing(w, tx)|
    requires forall u, k :: u in w.holds && u != tx && n <= k < m ==> Listing(w, tx)[k] !in LockedOrders(w.holds[u])
    ensures Runs(w, actions) && OnlySweepLocks(actions, tx, other)
    ensures After(w, actions) == SetPhase(w, tx, Sweeping(Listing(w, tx), m))
    decreases m - n
  {
    if n == m {
      actions := [];
      assert w.holds[tx := w.holds[tx]] == w.holds;
      assert w.holds[tx].(phase := Sweeping(Listing(w, tx), m)) == w.holds[tx];
    } else {
      var next := Next(w, SweepLock(tx));
      var rest := LockUpTo(next, tx, other, n + 1, m);
      actions := [SweepLock(tx)] + rest;
      assert actions[1..] == rest;
      assert SetPhase(next, tx, Sweeping(Listing(w, tx), m)) == SetPhase(w, tx, Sweeping(Listing(w, tx), m));
    }
  }

  lemma {:induction false} RunsJoin(w: World, first: seq<Action>, second: seq<Action>)
    requires Runs(w, first) && Runs(After(w, first), second)
    ensures Runs(w, first + second) && After(w, first + second) == After(After(w, first), second)
    decreases |first|
  {
    if first == [] {
      assert first + second == second;
    } else {
      assert (first + second)[0] == first[0] && (first + second)[1..] == first[1..] + second;
      RunsJoin(Next(w, first[0]), first[1..], second);
    }
  }

  /** The first element of q that is among the first i of p. */
  lemma {:induction false} FirstAmong(q: seq<OrderId>, taken: seq<OrderId>) returns (j: nat)
    requires exists k :: 0 <= k < |q| && q[k] in taken
    ensures j < |q| && q[j] in taken && forall k :: 0 <= k < j ==> q[k] !in taken
  {
    j := FirstSharedAt(q, taken);
  }

  lemma SharedBothWays(p: seq<OrderId>, q: seq<OrderId>)
    ensures FirstShared(p, q).None? <==> FirstShared(q, p).None?
  {
    var a := FirstSharedAt(p, q);
    var b := FirstSharedAt(q, p);
    if a < |p| {
      var k :| 0 <= k < |q| && q[k] == p[a];
      assert q[k] in p;
    }
    if b < |q| {
      var k :| 0 <= k < |p| && p[k] == q[b];
      assert p[k] in q;
    }
  }

  /** Where to stop the two sweeps: each then wants a row the other has locked. */
  lemma StopAt(p: seq<OrderId>, q: seq<OrderId>) returns (i: nat, j: nat)
    requires Distinct(p) && Distinct(q) && FirstShared(p, q) != FirstShared(q, p)
    ensures i < |p| && j < |q| && p[i] in q[..j] && q[j] in p[..i]
    ensures forall k :: 0 <= k < j ==> q[k] !in p[..i]
  {
    SharedBothWays(p, q);
    var a := FirstSharedAt(p, q);
    var b := FirstSharedAt(q, p);
    i :| 0 <= i < |p| && p[i] == q[b];
    assert a < i;
    var k :| 0 <= k < |q| && q[k] == p[a];
    assert p[a] in p[..i] by { assert p[..i][a] == p[a]; }
    j := FirstAmong(q, p[..i]);
    NotAmongEarlier(p, i);
    forall c | 0 <= c <= b ensures q[c] !in p[..i] {
      if c < b { assert q[c] !in p; }
    }
    assert b < j;
    assert q[..j][b] == p[i];
  }

  lemma NotAmongEarlier(p: seq<OrderId>, i: nat)
    requires Distinct(p) && i < |p|
    ensures p[i] !in p[..i]
  {
  }

  /** Two sweeps at the start of listings whose first shared orders differ can come to wait for each other. */
  lemma DifferentFirstDeadlocks(w: World, s: TxId, t: TxId) returns (actions: seq<Action>)
    requires WellFormed(w) && s != t && s in w.holds && t in w.holds
    requires w.holds[s].phase.Sweeping? && w.holds[s].phase.n == 0
    requires w.holds[t].phase.Sweeping? && w.holds[t].phase.n == 0
    requires FreeOfOthers(w, Listing(w, s), s, t) && FreeOfOthers(w, Listing(w, t), s, t)
    requires FirstShared(Listing(w, s), Listing(w, t)) != FirstShared(Listing(w, t), Listing(w, s))
    ensures Runs(w, actions) && OnlySweepLocks(actions, s, t) && MutualWait(After(w, actions), s, t)
  {
    var p, q := Listing(w, s), Listing(w, t);
    assert HoldShaped(w, w.holds[s]) && HoldShaped(w, w.holds[t]);
    var i, j := StopAt(p, q);
    var first := LockUpTo(w, s, t, 0, i);
    var mid := After(w, first);
    forall u, k | u in mid.holds && u != t && 0 <= k < j ensures q[k] !in LockedOrders(mid.holds[u]) {
      if u != s { assert mid.holds[u] == w.holds[u]; }
    }
    var second := LockUpTo(mid, t, s, 0, j);
    RunsJoin(w, first, second);
    actions := first + second;
  }

  lemma {:induction false} LocksKeepListings(w: World, actions: seq<Action>, s: TxId, t: TxId)
    requires WellFormed(w) && Runs(w, actions) && OnlySweepLocks(actions, s, t)
    ensures WellFormed(After(w, actions))
    ensures forall u :: u in w.holds && w.holds[u].phase.Sweeping? ==>
      u in After(w, actions).holds && After(w, actions).holds[u].phase.Sweeping?
      && Listing(After(w, actions), u) == Listing(w, u)
    ensures forall u :: u in After(w, actions).holds ==> u in w.holds
    ensures forall u :: u in w.holds && u != s && u != t ==>
      u in After(w, actions).holds && After(w, actions).holds[u] == w.holds[u]
    decreases |actions|
  {
    if actions != [] {
      NextIsWellFormed(w, actions[0]);
      LocksKeepListings(Next(w, actions[0]), actions[1..], s, t);
    }
  }

  /** Where no one else has locked their rows, two sweeps that both wait do so for each other. */
  lemma BothWaitersAreMutual(w: World, s: TxId, t: TxId)
    requires s != t && s in w.holds && t in w.holds && w.holds[s].phase.Sweeping? && w.holds[t].phase.Sweeping?
    requires FreeOfOthers(w, Listing(w, s), s, t) && FreeOfOthers(w, Listing(w, t), s, t)
    requires Waits(w, s) && Waits(w, t)
    ensures MutualWait(w, s, t)
  {
  }

  /**
   * Two sweeps that have read their listings can both come to wait, by locking rows alone,
   * if and only if the first order of the one listing that the other shares is not the first order of
   * the other that the one shares. With a fixed sort order of the query it always is. With more than
   * two sweeps, each pair may pass this and the three still wait in a ring.
   */
  lemma TwoSweepsCanDeadlockIff(w: World, s: TxId, t: TxId)
    requires WellFormed(w) && s != t && s in w.holds && t in w.holds
    requires w.holds[s].phase.Sweeping? && w.holds[s].phase.n == 0
    requires w.holds[t].phase.Sweeping? && w.holds[t].phase.n == 0
    requires FreeOfOthers(w, Listing(w, s), s, t) && FreeOfOthers(w, Listing(w, t), s, t)
    ensures (exists actions ::
        && Runs(w, actions) && OnlySweepLocks(actions, s, t)
        && Waits(After(w, actions), s) && Waits(After(w, actions), t))
      <==> FirstShared(Listing(w, s), Listing(w, t)) != FirstShared(Listing(w, t), Listing(w, s))
  {
    if actions :| && Runs(w, actions) && OnlySweepLocks(actions, s, t)
                  && Waits(After(w, actions), s) && Waits(After(w, actions), t) {
      LocksKeepListings(w, actions, s, t);
      BothWaitersAreMutual(After(w, actions), s, t);
      MutualWaitMeansDifferentFirst(After(w, actions), s, t);
    }
    if FirstShared(Listing(w, s), Listing(w, t)) != FirstShared(Listing(w, t), Listing(w, s)) {
      var actions := DifferentFirstDeadlocks(w, s, t);
      MutualWaitersWait(After(w, actions), s, t);
    }
  }

  // ----- from two requests that have not swept yet -----

  lemma {:induction false} ListFrom(found: set<OrderId>, first: OrderId) returns (listing: seq<OrderId>)
    requires first in found
    ensures Lists(listing, found) && listing != [] && listing[0] == first
  {
    var rest := ListRanked(found - {first}, o => o);
    ListedAreFound(rest, found - {first});
    listing := [first] + rest;
    assert forall o :: o in listing <==> o == first || o in rest;
  }

  /** Whenever two requests about to sweep both see the same two stale orders, they can run into a deadlock. */
  lemma TwoStaleOrdersCanDeadlock(w: World, s: TxId, t: TxId, a: OrderId, b: OrderId) returns (actions: seq<Action>)
    requires WellFormed(w) && s != t && s in w.holds && t in w.holds && a != b
    requires w.holds[s].phase == Started && w.holds[t].phase == Started
    requires {a, b} <= FindStaleHeldOrders(w.orders, w.holds[s].now) * FindStaleHeldOrders(w.orders, w.holds[t].now)
    requires forall u :: u in w.holds ==> LockedOrders(w.holds[u]) == []
    ensures Runs(w, actions) && MutualWait(After(w, actions), s, t)
    ensures Waits(After(w, actions), s) && Waits(After(w, actions), t)
  {
    var p := ListFrom(FindStaleHeldOrders(w.orders, w.holds[s].now), a);
    var q := ListFrom(FindStaleHeldOrders(w.orders, w.holds[t].now), b);
    ListedAreFound(p, FindStaleHeldOrders(w.orders, w.holds[s].now));
    ListedAreFound(q, FindStaleHeldOrders(w.orders, w.holds[t].now));
    var one := Next(w, SweepRead(s, p));
    var two := Next(one, SweepRead(t, q));
    NextIsWellFormed(w, SweepRead(s, p));
    NextIsWellFormed(one, SweepRead(t, q));
    assert FirstShared(p, q) == Some(a) && FirstShared(q, p) == Some(b);
    var rest := DifferentFirstDeadlocks(two, s, t);
    var readBoth := [SweepRead(s, p), SweepRead(t, q)];
    assert readBoth[1..] == [SweepRead(t, q)] && readBoth[1..][1..] == [];
    assert Runs(two, readBoth[1..][1..]) && Runs(one, readBoth[1..]) && After(one, readBoth[1..]) == two;
    RunsJoin(w, readBoth, rest);
    actions := readBoth + rest;
    MutualWaitersWait(After(w, actions), s, t);
  }
}
