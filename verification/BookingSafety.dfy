/** No double booking on any run, unless it writes a status over a row that changed since it was read. */
module BookingSafety {
  import opened Common
  import opened BookingModel
  import opened BookingProperties

  /** Which orders count as claiming their items: those blocking now, or all in a blocking status. */
  datatype Reading = Live | Stored

  predicate Claims(reading: Reading, order: Order, now: Instant) {
    match reading
    case Live => IsOrderBlocking(order, now)
    case Stored => order.status in BLOCKING_STATUSES
  }

  ghost predicate NoDoubleClaim(reading: Reading, w: World) {
    forall a, b :: a in w.items && b in w.items && Clash(w.items, a, b)
                   && a.order in w.orders && b.order in w.orders ==>
      !Claims(reading, w.orders[a.order], w.clock) || !Claims(reading, w.orders[b.order], w.clock)
  }

  /** No active item claims any of the first n stays of the cart. */
  ghost predicate ClearUpTo(reading: Reading, w: World, h: Hold, n: nat) {
    forall k, j ::
      (&& k in w.items && 0 <= j < n && j < |h.cart| && k.order in w.orders
       && w.items[k].active && Overlaps(w.items[k].stay, h.cart[j])) ==>
        !Claims(reading, w.orders[k.order], h.now)
  }

  /** What a request has found free is free of claims. */
  ghost predicate LookupsHold(reading: Reading, w: World, h: Hold) {
    h.phase.Checking? && h.phase.free ==> ClearUpTo(reading, w, h, h.phase.n)
  }

  /** A row that a session kept claims all that the stored row claims. */
  ghost predicate LoadedClaims(reading: Reading, w: World, h: Hold) {
    forall o :: o in h.loaded && o in w.orders && Claims(reading, w.orders[o], h.now) ==>
      Claims(reading, h.loaded[o], h.now)
  }

  predicate Fresh(order: Order, now: Instant) {
    order.status == Held ==> order.holdExpiresAt.Some? && now < order.holdExpiresAt.value
  }

  /**
   * While it sweeps, a request has listed every held order whose deadline lies behind its clock
   * reading; after its sweep there is none, among the stored rows or those it has loaded.
   */
  ghost predicate SweptSeesFresh(w: World, h: Hold) {
    match h.phase
    case Started => h.loaded == map[]
    case Sweeping(listing, _) =>
      h.loaded == map[] && forall o :: o in w.orders && !Fresh(w.orders[o], h.now) ==> o in listing
    case _ =>
      && (forall o :: o in w.orders ==> Fresh(w.orders[o], h.now))
      && (forall o :: o in h.loaded ==> Fresh(h.loaded[o], h.now))
  }

  ghost predicate RequestSafe(reading: Reading, w: World, h: Hold) {
    LookupsHold(reading, w, h) && LoadedClaims(reading, w, h) && (reading == Stored ==> SweptSeesFresh(w, h))
  }

  ghost predicate Safe(reading: Reading, w: World) {
    && WellFormed(w)
    && NoDoubleClaim(reading, w)
    && forall t :: t in w.holds ==> RequestSafe(reading, w, w.holds[t])
  }

  /** The kinds of step each reading cannot tolerate. */
  predicate Hazard(reading: Reading, w: World, a: Action) {
    match reading
    case Live => Revives(w, a)
    case Stored => StaleCommit(w, a) || TornWrite(w, a)
  }

  // ----- steps that bring no claim -----

  /** No item appears, and no order claims more up to now than it did. */
  ghost predicate Quiet(reading: Reading, w: World, next: World) {
    && w.clock <= next.clock
    && next.orders.Keys == w.orders.Keys
    && (forall k :: k in next.items ==>
          k in w.items && next.items[k].stay == w.items[k].stay && (next.items[k].active ==> w.items[k].active))
    && (forall o, t :: o in w.orders && t <= w.clock && Claims(reading, next.orders[o], t) ==>
          Claims(reading, w.orders[o], t))
  }

  lemma QuietKeepsClaims(reading: Reading, w: World, next: World)
    requires NoDoubleClaim(reading, w) && Quiet(reading, w, next)
    ensures NoDoubleClaim(reading, next)
  {
    forall a, b | a in next.items && b in next.items && Clash(next.items, a, b)
      && a.order in next.orders && b.order in next.orders
      ensures !Claims(reading, next.orders[a.order], next.clock) || !Claims(reading, next.orders[b.order], next.clock)
    {
      assert Clash(w.items, a, b);
      assert Claims(reading, next.orders[a.order], next.clock) ==> Claims(reading, next.orders[a.order], w.clock);
      assert Claims(reading, next.orders[b.order], next.clock) ==> Claims(reading, next.orders[b.order], w.clock);
    }
  }

  lemma QuietKeepsClear(reading: Reading, w: World, next: World, h: Hold, n: nat)
    requires ClearUpTo(reading, w, h, n) && Quiet(reading, w, next) && h.now <= w.clock
    ensures ClearUpTo(reading, next, h, n)
  {
  }

  lemma QuietKeepsLoaded(reading: Reading, w: World, next: World, h: Hold)
    requires LoadedClaims(reading, w, h) && Quiet(reading, w, next) && h.now <= w.clock
    ensures LoadedClaims(reading, next, h)
  {
  }

  /** An order after the step is as fresh as it was. */
  ghost predicate NoStaler(w: World, next: World) {
    forall o, t :: o in w.orders && o in next.orders && Fresh(w.orders[o], t) ==> Fresh(next.orders[o], t)
  }

  lemma QuietKeepsRequest(reading: Reading, w: World, next: World, h: Hold)
    requires RequestSafe(reading, w, h) && Quiet(reading, w, next) && NoStaler(w, next) && h.now <= w.clock
    ensures RequestSafe(reading, next, h)
  {
    if h.phase.Checking? && h.phase.free { QuietKeepsClear(reading, w, next, h, h.phase.n); }
    QuietKeepsLoaded(reading, w, next, h);
  }

  lemma WriteIsQuiet(reading: Reading, w: World, tx: TxId)
    requires WellFormed(w) && Enabled(w, WriteOrder(tx)) && !Hazard(reading, w, WriteOrder(tx))
    ensures Quiet(reading, w, Next(w, WriteOrder(tx))) && NoStaler(w, Next(w, WriteOrder(tx)))
  {
  }

  lemma SweepIsQuiet(reading: Reading, w: World, tx: TxId)
    requires WellFormed(w) && Enabled(w, SweepCommit(tx))
    ensures Quiet(reading, w, Next(w, SweepCommit(tx))) && NoStaler(w, Next(w, SweepCommit(tx)))
  {
    var next := Next(w, SweepCommit(tx));
    var listing := w.holds[tx].phase.listing;
    assert next.orders == Swept(w.orders, listing);
    forall o | o in w.orders
      ensures o in next.orders && (next.orders[o] == w.orders[o] || next.orders[o] == Order(Expired, None))
    {
      SweptRow(w.orders, listing, o);
    }
  }

  lemma OtherStepsAreQuiet(reading: Reading, w: World, a: Action)
    requires WellFormed(w) && Enabled(w, a) && !a.CommitHold? && !Hazard(reading, w, a)
    ensures Quiet(reading, w, Next(w, a)) && NoStaler(w, Next(w, a))
  {
    match a {
      case WriteOrder(tx) => WriteIsQuiet(reading, w, tx);
      case SweepCommit(tx) => SweepIsQuiet(reading, w, tx);
      case _ =>
    }
  }

  // ----- one request's own steps -----

  lemma CandidateDoesNotClaim(reading: Reading, w: World, h: Hold, wanted: Stay, kept: set<OrderId>, k: ItemKey)
    requires StayFree(w, h, wanted, kept) && LoadedClaims(reading, w, h)
    requires reading == Stored ==>
      && (forall o :: o in w.orders ==> Fresh(w.orders[o], h.now))
      && (forall o :: o in h.loaded ==> Fresh(h.loaded[o], h.now))
    requires k in OverlapCandidates(w.orders, w.items, wanted, None)
    ensures !Claims(reading, w.orders[k.order], h.now)
  {
    assert !IsOrderBlocking(SeenRow(w, h, k.order, kept), h.now);
  }

  /** A stay found free, on rows that claim no less than the stored ones, is free of claims. */
  lemma FreeStayIsClear(reading: Reading, w: World, h: Hold, n: nat, kept: set<OrderId>)
    requires n < |h.cart| && StayFree(w, h, h.cart[n], kept) && LoadedClaims(reading, w, h)
    requires reading == Stored ==>
      && (forall o :: o in w.orders ==> Fresh(w.orders[o], h.now))
      && (forall o :: o in h.loaded ==> Fresh(h.loaded[o], h.now))
    requires ClearUpTo(reading, w, h, n)
    ensures ClearUpTo(reading, w, h, n + 1)
  {
    forall k, j | k in w.items && 0 <= j < n + 1 && j < |h.cart| && k.order in w.orders
      && w.items[k].active && Overlaps(w.items[k].stay, h.cart[j])
      ensures !Claims(reading, w.orders[k.order], h.now)
    {
      if j == n && w.orders[k.order].status in BLOCKING_STATUSES {
        assert k in OverlapCandidates(w.orders, w.items, h.cart[n], None);
        CandidateDoesNotClaim(reading, w, h, h.cart[n], kept, k);
      }
    }
  }

  lemma LookupKeepsLoaded(reading: Reading, w: World, h: Hold, wanted: Stay, kept: set<OrderId>)
    requires LoadedClaims(reading, w, h)
    ensures LoadedClaims(reading, w, h.(loaded := Loaded(w, h, wanted, kept)))
  {
  }

  lemma LookupKeepsFresh(w: World, h: Hold, wanted: Stay, kept: set<OrderId>)
    requires forall o :: o in w.orders ==> Fresh(w.orders[o], h.now)
    requires forall o :: o in h.loaded ==> Fresh(h.loaded[o], h.now)
    ensures forall o :: o in Loaded(w, h, wanted, kept) ==> Fresh(Loaded(w, h, wanted, kept)[o], h.now)
  {
  }

  lemma LookupIsSafe(reading: Reading, w: World, tx: TxId, kept: set<OrderId>)
    requires Safe(reading, w) && Enabled(w, CheckStay(tx, kept))
    ensures RequestSafe(reading, Next(w, CheckStay(tx, kept)), Looked(w, w.holds[tx], kept))
  {
    var h := w.holds[tx];
    var n := if h.phase.Checking? then h.phase.n else 0;
    assert HoldShaped(w, h) && RequestSafe(reading, w, h) && n < |h.cart|;
    var next := Looked(w, h, kept);
    LookupKeepsLoaded(reading, w, h, h.cart[n], kept);
    if reading == Stored { LookupKeepsFresh(w, h, h.cart[n], kept); }
    if next.phase.free { FreeStayIsClear(reading, w, h, n, kept); }
  }

  lemma SweepReadIsSafe(reading: Reading, w: World, tx: TxId, listing: seq<OrderId>)
    requires Safe(reading, w) && Enabled(w, SweepRead(tx, listing))
    ensures RequestSafe(reading, w, w.holds[tx].(phase := Sweeping(listing, 0)))
  {
    var h := w.holds[tx];
    assert RequestSafe(reading, w, h);
    ListedAreFound(listing, FindStaleHeldOrders(w.orders, h.now));
  }

  lemma SweepCommitIsSafe(reading: Reading, w: World, tx: TxId)
    requires Safe(reading, w) && Enabled(w, SweepCommit(tx))
    ensures RequestSafe(reading, Next(w, SweepCommit(tx)), w.holds[tx].(phase := Locking(0)))
  {
    var h := w.holds[tx];
    var next := Next(w, SweepCommit(tx));
    assert HoldShaped(w, h) && RequestSafe(reading, w, h);
    SweepIsQuiet(reading, w, tx);
    QuietKeepsLoaded(reading, w, next, h);
    assert next.orders == Swept(w.orders, h.phase.listing);
    forall o | o in next.orders && reading == Stored ensures Fresh(next.orders[o], h.now) {
      SweptRow(w.orders, h.phase.listing, o);
    }
  }

  /** Whatever one request does on its own, it stays safe. */
  lemma OwnStepIsSafe(reading: Reading, w: World, a: Action, t: TxId)
    requires Safe(reading, w) && Enabled(w, a) && !a.CommitHold?
    requires t in Next(w, a).holds && (t in w.holds ==> Next(w, a).holds[t] != w.holds[t])
    ensures RequestSafe(reading, Next(w, a), Next(w, a).holds[t])
  {
    match a {
      case SweepRead(tx, listing) => SweepReadIsSafe(reading, w, tx, listing);
      case SweepCommit(tx) => SweepCommitIsSafe(reading, w, tx);
      case CheckStay(tx, kept) => LookupIsSafe(reading, w, tx, kept);
      case SweepLock(tx) => assert RequestSafe(reading, w, w.holds[t]);
      case LockRow(tx) => assert RequestSafe(reading, w, w.holds[t]);
      case _ =>
    }
  }

  // ----- commits -----

  lemma CheckedCartIsClear(reading: Reading, w: World, tx: TxId, k: ItemKey, n: nat)
    requires Safe(reading, w) && Enabled(w, CommitHold(tx)) && n < |w.holds[tx].cart|
    requires k in w.items && k.order in w.orders && w.items[k].active
    requires Overlaps(w.items[k].stay, PersistedStays(w.holds[tx].cart)[n])
    ensures !Claims(reading, w.orders[k.order], w.holds[tx].now)
  {
    var h := w.holds[tx];
    assert RequestSafe(reading, w, h);
    IntervalForIsRequested(h.cart, h.cart[n].object_);
    var j :| 0 <= j < |h.cart| && h.cart[j] == PersistedStays(h.cart)[n];
  }

  lemma CommitKeepsClaims(reading: Reading, w: World, tx: TxId)
    requires Safe(reading, w) && Enabled(w, CommitHold(tx))
    ensures NoDoubleClaim(reading, Next(w, CommitHold(tx)))
  {
    var h := w.holds[tx];
    var next := Next(w, CommitHold(tx));
    assert HoldShaped(w, h);
    forall a, b | a in next.items && b in next.items && Clash(next.items, a, b)
      && a.order in next.orders && b.order in next.orders
      ensures !Claims(reading, next.orders[a.order], next.clock) || !Claims(reading, next.orders[b.order], next.clock)
    {
      var old', new' := if a.order == h.order then b else a, if a.order == h.order then a else b;
      if new'.order == h.order {
        assert old' in w.items && new' in NewItems(h);
        CheckedCartIsClear(reading, w, tx, old', new'.line);
      } else {
        assert Clash(w.items, a, b);
      }
    }
  }

  /** A request that looks up stays holds all its rows, so another one commits to other objects. */
  lemma NewItemsMissOtherCarts(w: World, s: TxId, t: TxId, m: nat, n: nat)
    requires WellFormed(w) && s in w.holds && t in w.holds && s != t
    requires w.holds[s].phase.Checking? && w.holds[t].phase.Checking?
    requires m < |w.holds[s].cart| && n < |w.holds[t].cart|
    ensures !Overlaps(PersistedStays(w.holds[s].cart)[m], w.holds[t].cart[n])
  {
    assert HoldShaped(w, w.holds[s]) && HoldShaped(w, w.holds[t]);
    IntervalForIsRequested(w.holds[s].cart, w.holds[s].cart[m].object_);
    assert PersistedStays(w.holds[s].cart)[m].object_ in LockedRows(w.holds[s]);
    assert w.holds[t].cart[n].object_ in LockedRows(w.holds[t]);
  }

  lemma CommitKeepsOthersClear(reading: Reading, w: World, tx: TxId, t: TxId)
    requires Safe(reading, w) && Enabled(w, CommitHold(tx)) && t in w.holds && t != tx
    ensures LookupsHold(reading, Next(w, CommitHold(tx)), w.holds[t])
  {
    var h := w.holds[t];
    var next := Next(w, CommitHold(tx));
    assert RequestSafe(reading, w, h);
    if h.phase.Checking? && h.phase.free {
      forall k, j | k in next.items && 0 <= j < h.phase.n && j < |h.cart| && k.order in next.orders
        && next.items[k].active && Overlaps(next.items[k].stay, h.cart[j])
        ensures !Claims(reading, next.orders[k.order], h.now)
      {
        if k in NewItems(w.holds[tx]) {
          NewItemsMissOtherCarts(w, tx, t, k.line, j);
        } else {
          assert HoldShaped(w, w.holds[tx]);
        }
      }
    }
  }

  lemma CommitKeepsOthersSafe(reading: Reading, w: World, tx: TxId, t: TxId)
    requires Safe(reading, w) && Enabled(w, CommitHold(tx)) && !Hazard(reading, w, CommitHold(tx))
    requires t in w.holds && t != tx
    ensures RequestSafe(reading, Next(w, CommitHold(tx)), w.holds[t])
  {
    CommitKeepsOthersClear(reading, w, tx, t);
    assert RequestSafe(reading, w, w.holds[t]) && HoldShaped(w, w.holds[t]) && HoldShaped(w, w.holds[tx]);
  }

  // ----- runs -----

  lemma StepIsSafe(reading: Reading, w: World, a: Action)
    requires Safe(reading, w) && Enabled(w, a) && !Hazard(reading, w, a)
    ensures Safe(reading, Next(w, a))
  {
    var next := Next(w, a);
    NextIsWellFormed(w, a);
    if a.CommitHold? {
      CommitKeepsClaims(reading, w, a.tx);
      forall t | t in next.holds ensures RequestSafe(reading, next, next.holds[t]) {
        CommitKeepsOthersSafe(reading, w, a.tx, t);
      }
    } else {
      OtherStepsAreQuiet(reading, w, a);
      QuietKeepsClaims(reading, w, next);
      forall t | t in next.holds ensures RequestSafe(reading, next, next.holds[t]) {
        if t in w.holds && next.holds[t] == w.holds[t] {
          assert HoldShaped(w, w.holds[t]);
          QuietKeepsRequest(reading, w, next, w.holds[t]);
        } else {
          OwnStepIsSafe(reading, w, a, t);
        }
      }
    }
  }

  function HazardOf(reading: Reading): (World, Action) -> bool {
    (w, a) => Hazard(reading, w, a)
  }

  lemma {:induction false} RunIsSafe(reading: Reading, w: World, actions: seq<Action>)
    requires Safe(reading, w) && Runs(w, actions) && !SomeStep(w, actions, HazardOf(reading))
    ensures Safe(reading, After(w, actions))
    decreases |actions|
  {
    if actions != [] {
      StepIsSafe(reading, w, actions[0]);
      RunIsSafe(reading, Next(w, actions[0]), actions[1..]);
    }
  }

  lemma {:induction false} HazardsOfRun(w: World, actions: seq<Action>)
    requires Runs(w, actions)
    ensures SomeStep(w, actions, HazardOf(Live)) <==> SomeStep(w, actions, Revives)
    ensures SomeStep(w, actions, HazardOf(Stored)) <==>
      SomeStep(w, actions, StaleCommit) || SomeStep(w, actions, TornWrite)
    ensures SomeStep(w, actions, TornWrite) ==> SomeStep(w, actions, Revives)
    decreases |actions|
  {
    if actions != [] { HazardsOfRun(Next(w, actions[0]), actions[1..]); }
  }

  lemma LiveReadingIsEnough(w: World, reading: Reading)
    requires NoDoubleClaim(reading, w)
    ensures NoDoubleBooking(w)
  {
    assert forall o :: o in w.orders && IsOrderBlocking(w.orders[o], w.clock) ==>
      Claims(reading, w.orders[o], w.clock);
  }

  /**
   * However hold requests, sweeps, status changes and the clock interleave, two different orders never
   * both block one object at one instant, unless the run writes a blocking status over a row that was
   * expired or cancelled since it was read, or both commits a hold past its own deadline and writes a
   * blocking status to an order that does not block at that instant.
   */
  lemma DoubleBookingNeedsTornOrLateSteps(actions: seq<Action>)
    requires Runs(EMPTY_WORLD, actions)
    ensures
      || NoDoubleBooking(After(EMPTY_WORLD, actions))
      || SomeStep(EMPTY_WORLD, actions, TornWrite)
      || (SomeStep(EMPTY_WORLD, actions, StaleCommit) && SomeStep(EMPTY_WORLD, actions, Revives))
  {
    HazardsOfRun(EMPTY_WORLD, actions);
    if !SomeStep(EMPTY_WORLD, actions, Revives) {
      RunIsSafe(Live, EMPTY_WORLD, actions);
      LiveReadingIsEnough(After(EMPTY_WORLD, actions), Live);
    } else if !SomeStep(EMPTY_WORLD, actions, HazardOf(Stored)) {
      RunIsSafe(Stored, EMPTY_WORLD, actions);
      LiveReadingIsEnough(After(EMPTY_WORLD, actions), Stored);
    }
  }

  // ----- runs without payment -----

  predicate Unpaid(status: OrderStatus) {
    status in {Held, Cancelled, Expired}
  }

  ghost predicate NothingPaid(w: World) {
    && (forall o :: o in w.orders ==> Unpaid(w.orders[o].status))
    && (forall t :: t in w.changes ==> Unpaid(w.changes[t].target) && w.changes[t].target != Held)
  }

  lemma UnpaidStep(w: World, a: Action)
    requires NothingPaid(w) && Enabled(w, a) && (a.ReadOrder? ==> a.target != PendingPayment)
    ensures NothingPaid(Next(w, a)) && !Revives(w, a)
  {
    if a.SweepCommit? { SweepIsUnpaid(w, a.tx); }
  }

  lemma SweepIsUnpaid(w: World, tx: TxId)
    requires NothingPaid(w) && Enabled(w, SweepCommit(tx))
    ensures NothingPaid(Next(w, SweepCommit(tx)))
  {
    var listing := w.holds[tx].phase.listing;
    var next := Next(w, SweepCommit(tx));
    assert next.orders == Swept(w.orders, listing) && next.changes == w.changes;
    forall o | o in next.orders ensures Unpaid(next.orders[o].status) {
      SweptRow(w.orders, listing, o);
    }
  }

  lemma {:induction false} UnpaidRun(w: World, actions: seq<Action>)
    requires NothingPaid(w) && Runs(w, actions)
    requires forall k :: 0 <= k < |actions| && actions[k].ReadOrder? ==> actions[k].target != PendingPayment
    ensures !SomeStep(w, actions, Revives)
    decreases |actions|
  {
    if actions != [] {
      UnpaidStep(w, actions[0]);
      UnpaidRun(Next(w, actions[0]), actions[1..]);
    }
  }

  /** Holds, sweeps, cancellations, expiry and time alone never lead to a double booking. */
  lemma HoldsAloneNeverDoubleBook(actions: seq<Action>)
    requires Runs(EMPTY_WORLD, actions)
    requires forall k :: 0 <= k < |actions| && actions[k].ReadOrder? ==> actions[k].target != PendingPayment
    ensures NoDoubleBooking(After(EMPTY_WORLD, actions))
  {
    UnpaidRun(EMPTY_WORLD, actions);
    HazardsOfRun(EMPTY_WORLD, actions);
    DoubleBookingNeedsTornOrLateSteps(actions);
  }

  // ----- writing one status -----

  /** What the overlap search would say of the order's active items at this instant. */
  predicate ClearToWrite(w: World, order: OrderId) {
    forall k :: k in w.items && k.order == order && w.items[k].active ==>
      FindOverlappingItems(w.orders, w.items, w.items[k].stay, w.clock, Some(order)) == {}
  }

  /**
   * Writing a blocking status is safe if and only if the overlap search, run at the instant of the
   * write, finds nothing. Running it before the read is not enough.
   */
  lemma WriteIsSafeIff(w: World, tx: TxId)
    requires WellFormed(w) && NoDoubleBooking(w) && Enabled(w, WriteOrder(tx)) && WritesClaim(w, WriteOrder(tx))
    ensures NoDoubleBooking(Next(w, WriteOrder(tx))) <==> ClearToWrite(w, w.changes[tx].order)
  {
    var order := w.changes[tx].order;
    var next := Next(w, WriteOrder(tx));
    assert next.items == w.items;
    if ClearToWrite(w, order) {
      forall a, b | a in w.items && b in w.items && Clash(w.items, a, b) && a.order in w.orders && b.order in w.orders
        ensures !IsOrderBlocking(next.orders[a.order], w.clock) || !IsOrderBlocking(next.orders[b.order], w.clock)
      {
        var mine, other := if a.order == order then a else b, if a.order == order then b else a;
        if mine.order == order {
          assert other !in FindOverlappingItems(w.orders, w.items, w.items[mine].stay, w.clock, Some(order));
        }
      }
    } else {
      var k :| k in w.items && k.order == order && w.items[k].active
        && FindOverlappingItems(w.orders, w.items, w.items[k].stay, w.clock, Some(order)) != {};
      var other :| other in FindOverlappingItems(w.orders, w.items, w.items[k].stay, w.clock, Some(order));
      assert Clash(w.items, k, other) && IsOrderBlocking(next.orders[other.order], w.clock);
    }
  }

  /** While the order blocks the search is known to be empty, so writing then is always safe. */
  lemma BlockingOrderIsClear(w: World, order: OrderId)
    requires WellFormed(w) && NoDoubleBooking(w)
    requires order in w.orders && IsOrderBlocking(w.orders[order], w.clock)
    ensures ClearToWrite(w, order)
  {
    forall k, other | k in w.items && k.order == order && w.items[k].active
      && other in FindOverlappingItems(w.orders, w.items, w.items[k].stay, w.clock, Some(order))
      ensures false
    {
      assert Clash(w.items, k, other);
    }
  }
}
