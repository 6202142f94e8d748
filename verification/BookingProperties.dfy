/** What the booking protocol guarantees on every run, and exactly where the guarantee stops. */
module BookingProperties {
  import opened Common
  import opened BookingModel

  // ----- queries -----

  /** Two stays overlap exactly when both occupy one object at some common instant. */
  lemma OverlapMeansSharedInstant(a: Stay, b: Stay)
    requires a.checkIn < a.checkOut && b.checkIn < b.checkOut
    ensures Overlaps(a, b) <==> exists o, t :: Occupies(a, o, t) && Occupies(b, o, t)
  {
    if Overlaps(a, b) {
      var t := if a.checkIn < b.checkIn then b.checkIn else a.checkIn;
      assert Occupies(a, a.object_, t) && Occupies(b, a.object_, t);
    }
  }

  /** Filtering on the stored status first loses nothing: the result is exactly the blocking overlaps. */
  lemma OverlapSearchIsExact(orders: map<OrderId, Order>, items: map<ItemKey, Item>, wanted: Stay, now: Instant,
    exclude: Option<OrderId>, k: ItemKey)
    ensures k in FindOverlappingItems(orders, items, wanted, now, exclude) <==>
      && k in items && items[k].active && Overlaps(items[k].stay, wanted)
      && k.order in orders && IsOrderBlocking(orders[k.order], now)
      && exclude != Some(k.order)
  {
  }

  /** The stale holds are exactly the held orders with a deadline that no longer block. */
  lemma StaleHoldsDoNotBlock(orders: map<OrderId, Order>, now: Instant)
    ensures forall o :: o in FindStaleHeldOrders(orders, now) <==>
      o in orders && orders[o].status == Held && orders[o].holdExpiresAt.Some? && !IsOrderBlocking(orders[o], now)
  {
  }

  lemma SweptRow(orders: map<OrderId, Order>, listing: seq<OrderId>, o: OrderId)
    requires o in orders
    ensures o in Swept(orders, listing)
    ensures Swept(orders, listing)[o] == if o in listing then Order(Expired, None) else orders[o]
  {
  }

  // ----- carts -----

  lemma {:induction false} IntervalForIsRequested(cart: seq<Stay>, object_: ObjectId)
    requires exists k :: 0 <= k < |cart| && cart[k].object_ == object_
    ensures IntervalFor(cart, object_) in cart && IntervalFor(cart, object_).object_ == object_
  {
    var n := |cart| - 1;
    if cart[n].object_ != object_ {
      var k :| 0 <= k < |cart| && cart[k].object_ == object_;
      assert cart[..n][k].object_ == object_;
      IntervalForIsRequested(cart[..n], object_);
    }
  }

  /** The order's items are the requested stays if and only if no object is asked for with two intervals. */
  lemma PersistedAsRequestedIff(cart: seq<Stay>)
    ensures PersistedStays(cart) == cart <==>
      forall i, j :: 0 <= i < j < |cart| && cart[i].object_ == cart[j].object_ ==> cart[i] == cart[j]
  {
    if PersistedStays(cart) == cart {
      forall i, j | 0 <= i < j < |cart| && cart[i].object_ == cart[j].object_ ensures cart[i] == cart[j] {
        assert PersistedStays(cart)[i] == cart[i] && PersistedStays(cart)[j] == cart[j];
      }
    } else {
      var k :| 0 <= k < |cart| && PersistedStays(cart)[k] != cart[k];
      IntervalForIsRequested(cart, cart[k].object_);
      var j :| 0 <= j < |cart| && cart[j] == IntervalFor(cart, cart[k].object_);
      assert k != j;
    }
  }

  // ----- row locks -----

  ghost predicate PhaseShaped(w: World, h: Hold) {
    match h.phase
    case Started => true
    case Sweeping(listing, n) =>
      n <= |listing| && Distinct(listing) && forall k :: 0 <= k < |listing| ==> listing[k] in w.orders
    case Locking(n) => n <= |h.rows|
    case Checking(n, _) => n <= |h.cart|
  }

  ghost predicate HoldShaped(w: World, h: Hold) {
    && h.cart != [] && Ascending(h.rows) && CoversCart(h.rows, h.cart) && ProperStays(h.cart)
    && PhaseShaped(w, h)
    && h.now <= w.clock
    && h.order !in w.orders
    && forall o :: o in h.loaded ==> o in w.orders
  }

  ghost predicate LocksExclusive(holds: map<TxId, Hold>) {
    && (forall s, t, r :: s in holds && t in holds && s != t ==>
          !(r in LockedRows(holds[s]) && r in LockedRows(holds[t])))
    && (forall s, t, o :: s in holds && t in holds && s != t ==>
          !(o in LockedOrders(holds[s]) && o in LockedOrders(holds[t])))
  }

  ghost predicate OrdersDistinct(holds: map<TxId, Hold>) {
    forall s, t :: s in holds && t in holds && s != t ==> holds[s].order != holds[t].order
  }

  ghost predicate HoldsWellFormed(w: World) {
    && (forall t :: t in w.holds ==> HoldShaped(w, w.holds[t]))
    && OrdersDistinct(w.holds)
    && LocksExclusive(w.holds)
  }

  ghost predicate TablesWellFormed(w: World) {
    && (forall k :: k in w.items ==> k.order in w.orders && w.items[k].stay.checkIn < w.items[k].stay.checkOut)
    && (forall o :: o in w.orders && w.orders[o].status == Held ==> w.orders[o].holdExpiresAt.Some?)
    && (forall o :: o in w.orders ==> w.orders[o].status != Draft)
    && (forall t :: t in w.changes ==> w.changes[t].order in w.orders && w.changes[t].target !in {Draft, Held})
  }

  ghost predicate WellFormed(w: World) {
    HoldsWellFormed(w) && TablesWellFormed(w)
  }

  lemma ListedAreFound(listing: seq<OrderId>, found: set<OrderId>)
    requires Lists(listing, found)
    ensures forall k :: 0 <= k < |listing| ==> listing[k] in found
    ensures forall o :: o in found ==> o in listing
  {
    assert forall k :: 0 <= k < |listing| ==> listing[k] in (set o | o in listing);
  }

  lemma LockKeepsExclusive(w: World, tx: TxId)
    requires HoldsWellFormed(w) && Enabled(w, LockRow(tx))
    ensures LocksExclusive(Next(w, LockRow(tx)).holds)
  {
    var h := w.holds[tx];
    var next := Next(w, LockRow(tx)).holds;
    assert h.rows[..h.phase.n + 1] == h.rows[..h.phase.n] + [h.rows[h.phase.n]];
    assert forall r :: r in LockedRows(next[tx]) ==> r in LockedRows(h) || r == h.rows[h.phase.n];
  }

  lemma SweepLockKeepsExclusive(w: World, tx: TxId)
    requires HoldsWellFormed(w) && Enabled(w, SweepLock(tx))
    ensures LocksExclusive(Next(w, SweepLock(tx)).holds)
  {
    var p := w.holds[tx].phase;
    var next := Next(w, SweepLock(tx)).holds;
    assert p.listing[..p.n + 1] == p.listing[..p.n] + [p.listing[p.n]];
    assert forall o :: o in LockedOrders(next[tx]) ==> o in LockedOrders(w.holds[tx]) || o == p.listing[p.n];
  }

  /** No transaction of next is new, and each holds at most the locks it held, for the same order. */
  ghost predicate NoMoreLocks(holds: map<TxId, Hold>, next: map<TxId, Hold>) {
    && (forall t :: t in next ==> t in holds && next[t].order == holds[t].order)
    && (forall t, r :: t in next && r in LockedRows(next[t]) ==> r in LockedRows(holds[t]))
    && (forall t, o :: t in next && o in LockedOrders(next[t]) ==> o in LockedOrders(holds[t]))
  }

  lemma NoMoreLocksKeepsExclusive(holds: map<TxId, Hold>, next: map<TxId, Hold>)
    requires LocksExclusive(holds) && OrdersDistinct(holds) && NoMoreLocks(holds, next)
    ensures LocksExclusive(next) && OrdersDistinct(next)
  {
  }

  /** A fresh transaction holds no lock and has an order of its own. */
  lemma NewHoldKeepsExclusive(holds: map<TxId, Hold>, tx: TxId, h: Hold)
    requires LocksExclusive(holds) && OrdersDistinct(holds)
    requires tx !in holds && h.phase == Started && forall t :: t in holds ==> holds[t].order != h.order
    ensures LocksExclusive(holds[tx := h]) && OrdersDistinct(holds[tx := h])
  {
  }

  /** The step leaves the other requests alone and gives this one no new lock. */
  lemma OneTakesNoLocks(holds: map<TxId, Hold>, next: map<TxId, Hold>, tx: TxId)
    requires tx in holds && (next == holds - {tx} || (tx in next && next == holds[tx := next[tx]]))
    requires tx in next ==> next[tx].order == holds[tx].order
    requires tx in next && next[tx].phase.Checking? ==> LockedRows(next[tx]) == LockedRows(holds[tx])
    requires tx in next ==> next[tx].phase.Checking? || (LockedRows(next[tx]) == [] && LockedOrders(next[tx]) == [])
    ensures NoMoreLocks(holds, next)
  {
  }

  /** The steps that neither start a request nor take a lock. */
  lemma OthersTakeNoLocks(w: World, a: Action)
    requires WellFormed(w) && Enabled(w, a) && !a.LockRow? && !a.SweepLock? && !a.StartHold?
    ensures NoMoreLocks(w.holds, Next(w, a).holds)
  {
    var next := Next(w, a).holds;
    match a {
      case CheckStay(tx, _) =>
        assert w.holds[tx].rows[..|w.holds[tx].rows|] == w.holds[tx].rows;
        OneTakesNoLocks(w.holds, next, tx);
      case SweepRead(tx, _) => OneTakesNoLocks(w.holds, next, tx);
      case SweepCommit(tx) => OneTakesNoLocks(w.holds, next, tx);
      case CommitHold(tx) => OneTakesNoLocks(w.holds, next, tx);
      case AbortHold(tx) => OneTakesNoLocks(w.holds, next, tx);
      case _ => assert next == w.holds;
    }
  }

  lemma NextKeepsLocks(w: World, a: Action)
    requires WellFormed(w) && Enabled(w, a)
    ensures LocksExclusive(Next(w, a).holds) && OrdersDistinct(Next(w, a).holds)
  {
    var next := Next(w, a).holds;
    match a {
      case LockRow(tx) => LockKeepsExclusive(w, tx);
      case SweepLock(tx) => SweepLockKeepsExclusive(w, tx);
      case StartHold(tx, _, _, _, _) => NewHoldKeepsExclusive(w.holds, tx, next[tx]);
      case _ =>
        OthersTakeNoLocks(w, a);
        NoMoreLocksKeepsExclusive(w.holds, next);
    }
  }

  lemma ShapeStays(w: World, next: World, h: Hold)
    requires HoldShaped(w, h) && w.orders.Keys <= next.orders.Keys && w.clock <= next.clock && h.order !in next.orders
    ensures HoldShaped(next, h)
  {
  }

  /** The request that makes the step. */
  lemma OwnShape(w: World, a: Action, tx: TxId)
    requires WellFormed(w) && Enabled(w, a) && tx in w.holds && tx in Next(w, a).holds
    requires Next(w, a).holds[tx] != w.holds[tx]
    ensures HoldShaped(Next(w, a), Next(w, a).holds[tx])
  {
    assert HoldShaped(w, w.holds[tx]);
    if a.SweepRead? { ListedAreFound(a.listing, FindStaleHeldOrders(w.orders, w.holds[a.tx].now)); }
  }

  lemma NextKeepsShapes(w: World, a: Action)
    requires WellFormed(w) && Enabled(w, a)
    ensures forall t :: t in Next(w, a).holds ==> HoldShaped(Next(w, a), Next(w, a).holds[t])
  {
    var next := Next(w, a);
    forall t | t in next.holds ensures HoldShaped(next, next.holds[t]) {
      if t in w.holds {
        if next.holds[t] == w.holds[t] { ShapeStays(w, next, w.holds[t]); } else { OwnShape(w, a, t); }
      }
    }
  }

  lemma NextKeepsHolds(w: World, a: Action)
    requires WellFormed(w) && Enabled(w, a)
    ensures HoldsWellFormed(Next(w, a))
  {
    NextKeepsLocks(w, a);
    NextKeepsShapes(w, a);
  }

  lemma NextKeepsTables(w: World, a: Action)
    requires WellFormed(w) && Enabled(w, a)
    ensures TablesWellFormed(Next(w, a))
  {
    if a.CommitHold? {
      var h := w.holds[a.tx];
      forall k | k in NewItems(h) ensures NewItems(h)[k].stay.checkIn < NewItems(h)[k].stay.checkOut {
        IntervalForIsRequested(h.cart, h.cart[k.line].object_);
      }
    }
  }

  lemma NextIsWellFormed(w: World, a: Action)
    requires WellFormed(w) && Enabled(w, a)
    ensures WellFormed(Next(w, a))
  {
    NextKeepsHolds(w, a);
    NextKeepsTables(w, a);
  }

  lemma {:induction false} RunKeepsWellFormed(w: World, actions: seq<Action>)
    requires WellFormed(w) && Runs(w, actions)
    ensures WellFormed(After(w, actions))
    decreases |actions|
  {
    if actions != [] {
      NextIsWellFormed(w, actions[0]);
      RunKeepsWellFormed(Next(w, actions[0]), actions[1..]);
    }
  }

  /** Every reachable world is well formed. */
  lemma ReachableIsWellFormed(actions: seq<Action>)
    requires Runs(EMPTY_WORLD, actions)
    ensures WellFormed(After(EMPTY_WORLD, actions))
  {
    RunKeepsWellFormed(EMPTY_WORLD, actions);
  }
}
