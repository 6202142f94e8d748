/** What the booking steps read and write, stated on the rows, and how an order's status moves. */
module BookingRules {
  import opened Common
  import opened BookingModel
  import opened BookingProperties

  // ----- blocking and the lookups -----

  /** An order blocks while it is to be paid, paid or confirmed, and as a hold until its deadline. */
  lemma BlocksIff(order: Order, now: Instant)
    ensures IsOrderBlocking(order, now) <==>
      || order.status == PendingPayment || order.status == Paid || order.status == Confirmed
      || (order.status == Held && order.holdExpiresAt.Some? && now < order.holdExpiresAt.value)
  {
    var s := order.status;
    assert s.Draft? || s.Held? || s.PendingPayment? || s.Paid? || s.Confirmed? || s.Cancelled? || s.Expired?;
  }

  /** The overlap search finds exactly the active items on the object, at a common instant, of orders that block. */
  lemma SearchFinds(orders: map<OrderId, Order>, items: map<ItemKey, Item>, wanted: Stay, now: Instant,
    exclude: Option<OrderId>, k: ItemKey)
    ensures k in FindOverlappingItems(orders, items, wanted, now, exclude) <==>
      && k in items && items[k].active && exclude != Some(k.order) && k.order in orders
      && items[k].stay.object_ == wanted.object_
      && items[k].stay.checkIn < wanted.checkOut && wanted.checkIn < items[k].stay.checkOut
      && var order := orders[k.order];
         (|| order.status in {PendingPayment, Paid, Confirmed}
          || (order.status == Held && order.holdExpiresAt.Some? && now < order.holdExpiresAt.value))
  {
    OverlapSearchIsExact(orders, items, wanted, now, exclude, k);
    if k in items && k.order in orders { BlocksIff(orders[k.order], now); }
  }

  /** A lookup that keeps no earlier rows goes on as free exactly when it was and the overlap search is empty. */
  lemma LookupIsSearch(w: World, tx: TxId)
    requires WellFormed(w) && Enabled(w, CheckStay(tx, {}))
    ensures
      var h := w.holds[tx];
      var n, free := if h.phase.Checking? then h.phase.n else 0, h.phase.Checking? ==> h.phase.free;
      && tx in Next(w, CheckStay(tx, {})).holds
      && n < |h.cart|
      && Next(w, CheckStay(tx, {})).holds[tx].phase ==
           Checking(n + 1, free && FindOverlappingItems(w.orders, w.items, h.cart[n], h.now, None) == {})
  {
    var h := w.holds[tx];
    assert HoldShaped(w, h);
    var n := if h.phase.Checking? then h.phase.n else 0;
    FreeIffNothingFound(w, h, h.cart[n]);
  }

  /** The row of an order that a lookup goes by: the one its session kept, if it did, or else the stored one. */
  function RowKept(w: World, h: Hold, order: OrderId, kept: set<OrderId>): Order
    requires order in w.orders
  {
    if order in kept && order in h.loaded then h.loaded[order] else w.orders[order]
  }

  /** In general it looks at the stored statuses, and asks whether the rows it goes by block. */
  lemma LookupGoesByKeptRows(w: World, h: Hold, wanted: Stay, kept: set<OrderId>)
    ensures StayFree(w, h, wanted, kept) <==> forall k ::
      && k in w.items && w.items[k].active && k.order in w.orders
      && w.items[k].stay.object_ == wanted.object_
      && w.items[k].stay.checkIn < wanted.checkOut && wanted.checkIn < w.items[k].stay.checkOut
      && w.orders[k.order].status in {Held, PendingPayment, Paid, Confirmed}
      ==> !IsOrderBlocking(RowKept(w, h, k.order, kept), h.now)
  {
    assert forall o :: o in w.orders ==> RowKept(w, h, o, kept) == SeenRow(w, h, o, kept);
    StatusesThatBlock();
  }

  lemma StatusesThatBlock()
    ensures BLOCKING_STATUSES == {Held, PendingPayment, Paid, Confirmed}
  {
  }

  lemma FreeIffNothingFound(w: World, h: Hold, wanted: Stay)
    ensures StayFree(w, h, wanted, {}) <==> FindOverlappingItems(w.orders, w.items, wanted, h.now, None) == {}
  {
    var found := FindOverlappingItems(w.orders, w.items, wanted, h.now, None);
    var candidates := OverlapCandidates(w.orders, w.items, wanted, None);
    if StayFree(w, h, wanted, {}) {
      forall k ensures k !in found {
        if k in candidates { assert !IsOrderBlocking(SeenRow(w, h, k.order, {}), h.now); }
      }
    } else {
      var k :| k in candidates && IsOrderBlocking(SeenRow(w, h, k.order, {}), h.now);
      assert k in found;
    }
  }

  // ----- what the writing steps write -----

  /** A status change writes its target; expiring and submitting clear the deadline, cancelling frees the items. */
  lemma WriteOrderWrites(w: World, tx: TxId)
    requires Enabled(w, WriteOrder(tx))
    ensures
      var c, next := w.changes[tx], Next(w, WriteOrder(tx));
      && next.orders == w.orders[c.order := Order(c.target,
           if c.target == PendingPayment || c.target == Expired then None else w.orders[c.order].holdExpiresAt)]
      && next.items.Keys == w.items.Keys
      && (forall k :: k in w.items ==>
            && next.items[k].stay == w.items[k].stay
            && (next.items[k].active <==> w.items[k].active && !(c.target == Cancelled && k.order == c.order)))
      && next.clock == w.clock && next.holds == w.holds && next.changes == w.changes - {tx}
  {
  }

  lemma {:induction false} IntervalIsLast(cart: seq<Stay>, object_: ObjectId) returns (j: nat)
    requires exists k :: 0 <= k < |cart| && cart[k].object_ == object_
    ensures j < |cart| && cart[j].object_ == object_ && IntervalFor(cart, object_) == cart[j]
    ensures forall k :: j < k < |cart| ==> cart[k].object_ != object_
  {
    j := |cart| - 1;
    if cart[j].object_ != object_ {
      var k :| 0 <= k < |cart| && cart[k].object_ == object_;
      assert cart[..j][k] == cart[k];
      var last := j;
      j := IntervalIsLast(cart[..last], object_);
      forall k | j < k < |cart| ensures cart[k].object_ != object_ {
        if k < last { assert cart[..last][k] == cart[k]; }
      }
    }
  }

  /** The stay j is the last one of the cart on its object. */
  ghost predicate LastOnObject(cart: seq<Stay>, j: nat) {
    j < |cart| && forall k :: j < k < |cart| ==> cart[k].object_ != cart[j].object_
  }

  /** Line n holds the last stay that the cart asks for on its object. */
  ghost predicate LineHolds(items: map<ItemKey, Item>, order: OrderId, cart: seq<Stay>, n: nat)
    requires n < |cart|
  {
    && ItemKey(order, n) in items && items[ItemKey(order, n)].active
    && exists j: nat ::
         LastOnObject(cart, j) && cart[j].object_ == cart[n].object_ && items[ItemKey(order, n)].stay == cart[j]
  }

  /** A hold is written with its deadline, and an active item for each line of its cart; all else stays. */
  lemma CommitHoldWrites(w: World, tx: TxId)
    requires WellFormed(w) && Enabled(w, CommitHold(tx))
    ensures
      var h, next := w.holds[tx], Next(w, CommitHold(tx));
      && h.order !in w.orders
      && next.orders == w.orders[h.order := Order(Held, Some(h.now + h.ttl))]
      && (forall k :: k in w.items ==> k in next.items && next.items[k] == w.items[k])
      && (forall k :: k in next.items && k !in w.items ==> k.order == h.order && k.line < |h.cart|)
      && (forall n :: 0 <= n < |h.cart| ==> LineHolds(next.items, h.order, h.cart, n))
  {
    var h, next := w.holds[tx], Next(w, CommitHold(tx));
    assert HoldShaped(w, h);
    forall n | 0 <= n < |h.cart| ensures LineHolds(next.items, h.order, h.cart, n) {
      var j := IntervalIsLast(h.cart, h.cart[n].object_);
      assert LastOnObject(h.cart, j);
      assert next.items[ItemKey(h.order, n)] == NewItems(h)[ItemKey(h.order, n)];
    }
  }

  // ----- the moments of a run -----

  lemma {:induction false} PrefixRuns(w: World, actions: seq<Action>, k: nat)
    requires Runs(w, actions) && k <= |actions|
    ensures Runs(w, actions[..k])
    ensures k < |actions| ==>
      && Enabled(After(w, actions[..k]), actions[k]) && Runs(w, actions[..k + 1])
      && After(w, actions[..k + 1]) == Next(After(w, actions[..k]), actions[k])
    decreases |actions|
  {
    if k == 0 {
      assert actions[..0] == [];
      if actions != [] {
        assert actions[..1] == [actions[0]] && [actions[0]][1..] == [];
        assert Runs(Next(w, actions[0]), []);
      }
    } else {
      assert actions[..k][0] == actions[0] && actions[..k][1..] == actions[1..][..k - 1];
      PrefixRuns(Next(w, actions[0]), actions[1..], k - 1);
      if k < |actions| { assert actions[..k + 1][0] == actions[0] && actions[..k + 1][1..] == actions[1..][..k]; }
    }
  }

  /** The world after the first k steps of a run from nothing. */
  ghost function At(actions: seq<Action>, k: nat): World
    requires Runs(EMPTY_WORLD, actions) && k <= |actions|
  {
    PrefixRuns(EMPTY_WORLD, actions, k);
    After(EMPTY_WORLD, actions[..k])
  }

  lemma AtStep(actions: seq<Action>, k: nat)
    requires Runs(EMPTY_WORLD, actions) && k < |actions|
    ensures Enabled(At(actions, k), actions[k]) && At(actions, k + 1) == Next(At(actions, k), actions[k])
    ensures WellFormed(At(actions, k))
  {
    PrefixRuns(EMPTY_WORLD, actions, k);
    ReachableIsWellFormed(actions[..k]);
  }

  lemma OrdersStay(w: World, a: Action, o: OrderId)
    requires Enabled(w, a) && o in w.orders
    ensures o in Next(w, a).orders
  {
    if a.SweepCommit? { SweptRow(w.orders, w.holds[a.tx].phase.listing, o); }
  }

  // ----- a torn write has a change behind it -----

  /** Exactly the moves of the status table pass the check that a status change begins with. */
  lemma ReadAllowedIff(w: World, tx: TxId, order: OrderId, target: OrderStatus)
    ensures Enabled(w, ReadOrder(tx, order, target)) <==>
      && tx !in w.changes && order in w.orders
      && (w.orders[order].status, target) in
           {(Draft, Held), (Held, PendingPayment), (Held, Cancelled), (Held, Expired), (PendingPayment, Paid),
            (PendingPayment, Cancelled), (Paid, Confirmed)}
  {
    if order in w.orders {
      var s := w.orders[order].status;
      assert s.Draft? || s.Held? || s.PendingPayment? || s.Paid? || s.Confirmed? || s.Cancelled? || s.Expired?;
    }
  }

  lemma {:induction false} ChangeWasRead(actions: seq<Action>, k: nat, tx: TxId) returns (i: nat)
    requires Runs(EMPTY_WORLD, actions) && k <= |actions| && tx in At(actions, k).changes
    ensures i < k
    ensures actions[i] == ReadOrder(tx, At(actions, k).changes[tx].order, At(actions, k).changes[tx].target)
  {
    AtStep(actions, k - 1);
    if actions[k - 1].ReadOrder? && actions[k - 1].tx == tx {
      i := k - 1;
    } else {
      i := ChangeWasRead(actions, k - 1, tx);
    }
  }

  lemma {:induction false} RowChangedBetween(actions: seq<Action>, i: nat, k: nat, o: OrderId) returns (j: nat)
    requires Runs(EMPTY_WORLD, actions) && i <= k <= |actions| && o in At(actions, i).orders
    requires o !in At(actions, k).orders || At(actions, k).orders[o] != At(actions, i).orders[o]
    ensures i <= j < k && o in At(actions, j).orders && o in At(actions, j + 1).orders
    ensures At(actions, j + 1).orders[o] != At(actions, j).orders[o]
    decreases k - i
  {
    AtStep(actions, i);
    OrdersStay(At(actions, i), actions[i], o);
    if At(actions, i + 1).orders[o] != At(actions, i).orders[o] {
      j := i;
    } else {
      j := RowChangedBetween(actions, i + 1, k, o);
    }
  }

  /**
   * On every run, each torn write was preceded by the same request's read of that order, which found it
   * held, to be paid or paid, and some step between the two changed the row.
   */
  lemma TornWriteFollowsChange(actions: seq<Action>, k: nat) returns (i: nat, j: nat)
    requires Runs(EMPTY_WORLD, actions) && k < |actions| && TornWrite(At(actions, k), actions[k])
    ensures i < j < k
    ensures
      var c := At(actions, k).changes[actions[k].tx];
      && actions[i] == ReadOrder(actions[k].tx, c.order, c.target)
      && c.order in At(actions, i).orders && At(actions, i).orders[c.order].status in {Held, PendingPayment, Paid}
      && c.order in At(actions, k).orders && At(actions, k).orders[c.order].status in {Draft, Cancelled, Expired}
      && c.order in At(actions, j).orders && c.order in At(actions, j + 1).orders
      && At(actions, j + 1).orders[c.order] != At(actions, j).orders[c.order]
  {
    var tx := actions[k].tx;
    var c := At(actions, k).changes[tx];
    i := ChangeWasRead(actions, k, tx);
    AtStep(actions, i);
    ReadAllowedIff(At(actions, i), tx, c.order, c.target);
    NotBlockingStatus(At(actions, k).orders[c.order].status);
    j := RowChangedBetween(actions, i, k, c.order);
    assert At(actions, i + 1).orders == At(actions, i).orders;
  }

  lemma NotBlockingStatus(s: OrderStatus)
    ensures s !in BLOCKING_STATUSES <==> s in {Draft, Cancelled, Expired}
  {
    assert s.Draft? || s.Held? || s.PendingPayment? || s.Paid? || s.Confirmed? || s.Cancelled? || s.Expired?;
  }

  // ----- undivided changes -----

  /** Every status change is written right after its read, and every sweep goes from its read to its commit at once. */
  ghost predicate Undivided(actions: seq<Action>) {
    && (forall k :: 0 <= k < |actions| && actions[k].WriteOrder? ==>
          0 < k && actions[k - 1].ReadOrder? && actions[k - 1].tx == actions[k].tx)
    && (forall k :: 0 <= k < |actions| && (actions[k].SweepLock? || actions[k].SweepCommit?) ==>
          0 < k && InSweep(actions[k - 1], actions[k].tx))
  }

  predicate InSweep(a: Action, tx: TxId) {
    (a.SweepRead? && a.tx == tx) || (a.SweepLock? && a.tx == tx)
  }

  ghost predicate AllHeld(w: World, listing: seq<OrderId>) {
    forall o :: o in listing ==> o in w.orders && w.orders[o].status == Held
  }

  lemma {:induction false} ListedStillHeld(actions: seq<Action>, k: nat, tx: TxId)
    requires Runs(EMPTY_WORLD, actions) && Undivided(actions) && 0 < k <= |actions| && InSweep(actions[k - 1], tx)
    ensures tx in At(actions, k).holds && At(actions, k).holds[tx].phase.Sweeping?
    ensures AllHeld(At(actions, k), At(actions, k).holds[tx].phase.listing)
  {
    AtStep(actions, k - 1);
    var before := At(actions, k - 1);
    if actions[k - 1].SweepRead? {
      var listing := actions[k - 1].listing;
      ListedAreFound(listing, FindStaleHeldOrders(before.orders, before.holds[tx].now));
      assert forall o :: o in listing ==> o in (set x | x in listing);
    } else {
      ListedStillHeld(actions, k - 1, tx);
    }
  }

  lemma WrittenByRead(actions: seq<Action>, k: nat)
    requires Runs(EMPTY_WORLD, actions) && Undivided(actions) && k < |actions| && actions[k].WriteOrder?
    ensures 0 < k
    ensures
      var w, tx := At(actions, k), actions[k].tx;
      && tx in w.changes && w.changes[tx].order in w.orders
      && TransitionAllowed(w.orders[w.changes[tx].order].status, w.changes[tx].target)
  {
    AtStep(actions, k);
    AtStep(actions, k - 1);
    var tx := actions[k].tx;
    ReadThenHolds(At(actions, k - 1), tx, actions[k - 1].order, actions[k - 1].target);
  }

  lemma ReadThenHolds(w: World, tx: TxId, order: OrderId, target: OrderStatus)
    requires Enabled(w, ReadOrder(tx, order, target))
    ensures
      var next := Next(w, ReadOrder(tx, order, target));
      && tx in next.changes && next.changes[tx] == Change(order, target) && order in next.orders
      && TransitionAllowed(next.orders[order].status, target)
  {
  }

  /** Where changes and sweeps are undivided, an order's status stays or makes one move of the table. */
  lemma UndividedMoves(actions: seq<Action>, k: nat, o: OrderId)
    requires Runs(EMPTY_WORLD, actions) && Undivided(actions) && k < |actions| && o in At(actions, k).orders
    ensures o in At(actions, k + 1).orders
    ensures
      var s, t := At(actions, k).orders[o].status, At(actions, k + 1).orders[o].status;
      s == t || (s, t) in
        {(Held, PendingPayment), (Held, Cancelled), (Held, Expired), (PendingPayment, Paid),
         (PendingPayment, Cancelled), (Paid, Confirmed)}
  {
    AtStep(actions, k);
    var w, a := At(actions, k), actions[k];
    OrdersStay(w, a, o);
    match a {
      case WriteOrder(tx) =>
        WrittenByRead(actions, k);
        assert w.orders[o].status != Draft;
        WriteOrderMoves(w, tx, o);
      case SweepCommit(tx) =>
        ListedStillHeld(actions, k, tx);
        SweptRow(w.orders, w.holds[tx].phase.listing, o);
      case CommitHold(tx) => assert HoldShaped(w, w.holds[tx]);
      case _ =>
    }
  }

  lemma WriteOrderMoves(w: World, tx: TxId, o: OrderId)
    requires Enabled(w, WriteOrder(tx)) && o in w.orders && w.orders[o].status != Draft
    requires TransitionAllowed(w.orders[w.changes[tx].order].status, w.changes[tx].target)
    ensures o in Next(w, WriteOrder(tx)).orders
    ensures
      var s, t := w.orders[o].status, Next(w, WriteOrder(tx)).orders[o].status;
      s == t || (s, t) in
        {(Held, PendingPayment), (Held, Cancelled), (Held, Expired), (PendingPayment, Paid),
         (PendingPayment, Cancelled), (Paid, Confirmed)}
  {
    var s := w.orders[o].status;
    assert s.Held? || s.PendingPayment? || s.Paid? || s.Confirmed? || s.Cancelled? || s.Expired?;
  }

  /** So expired, cancelled and confirmed orders stay what they are. */
  lemma {:induction false} FinalStatusesStay(actions: seq<Action>, i: nat, k: nat, o: OrderId)
    requires Runs(EMPTY_WORLD, actions) && Undivided(actions) && i <= k <= |actions|
    requires o in At(actions, i).orders && At(actions, i).orders[o].status in {Expired, Cancelled, Confirmed}
    ensures o in At(actions, k).orders && At(actions, k).orders[o].status == At(actions, i).orders[o].status
    decreases k - i
  {
    if i < k {
      UndividedMoves(actions, i, o);
      FinalStatusesStay(actions, i + 1, k, o);
    }
  }
}
