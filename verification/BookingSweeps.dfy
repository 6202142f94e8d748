/** What happens to the orders a sweep has listed before it writes to them. */
module BookingSweeps {
  import opened Common
  import opened BookingModel
  import opened BookingProperties

  // ----- the last write to an order -----

  /** The status that a step writes to the order's row. */
  function WriteTo(w: World, a: Action, o: OrderId): Option<OrderStatus>
    requires Enabled(w, a)
  {
    match a
    case WriteOrder(tx) => if w.changes[tx].order == o then Some(w.changes[tx].target) else None
    case SweepCommit(tx) => if o in w.holds[tx].phase.listing then Some(Expired) else None
    case _ => None
  }

  ghost function LastWrite(w: World, actions: seq<Action>, o: OrderId): Option<OrderStatus>
    requires Runs(w, actions)
    decreases |actions|
  {
    if actions == [] then None
    else
      var later := LastWrite(Next(w, actions[0]), actions[1..], o);
      if later.Some? then later else WriteTo(w, actions[0], o)
  }

  /** The row is as it was, or has the status last written to it, which is not that of a hold. */
  ghost predicate HasWritten(before: Order, row: Order, write: Option<OrderStatus>) {
    match write
    case None => row == before
    case Some(status) => row.status == status && status !in {Draft, Held}
  }

  lemma StepWrites(w: World, a: Action, o: OrderId)
    requires WellFormed(w) && Enabled(w, a) && o in w.orders
    ensures o in Next(w, a).orders && HasWritten(w.orders[o], Next(w, a).orders[o], WriteTo(w, a, o))
    ensures w.clock <= Next(w, a).clock
  {
    if a.SweepCommit? { SweptRow(w.orders, w.holds[a.tx].phase.listing, o); }
  }

  lemma {:induction false} RunWrites(w: World, actions: seq<Action>, o: OrderId)
    requires WellFormed(w) && Runs(w, actions) && o in w.orders
    ensures o in After(w, actions).orders
    ensures HasWritten(w.orders[o], After(w, actions).orders[o], LastWrite(w, actions, o))
    ensures w.clock <= After(w, actions).clock
    decreases |actions|
  {
    if actions != [] {
      StepWrites(w, actions[0], o);
      NextIsWellFormed(w, actions[0]);
      RunWrites(Next(w, actions[0]), actions[1..], o);
    }
  }

  // ----- between a sweep's read and its commit -----

  /** The steps of a run in which the request neither commits its sweep nor gives up. */
  ghost predicate StillSweeps(actions: seq<Action>, tx: TxId) {
    forall k :: 0 <= k < |actions| ==> actions[k] != SweepCommit(tx) && actions[k] != AbortHold(tx)
  }

  ghost predicate Sweeps(w: World, tx: TxId, listing: seq<OrderId>) {
    tx in w.holds && w.holds[tx].phase.Sweeping? && w.holds[tx].phase.listing == listing
  }

  lemma {:induction false} SweepGoesOn(w: World, actions: seq<Action>, tx: TxId, listing: seq<OrderId>)
    requires Sweeps(w, tx, listing) && Runs(w, actions) && StillSweeps(actions, tx)
    ensures Sweeps(After(w, actions), tx, listing)
    decreases |actions|
  {
    if actions != [] {
      assert Sweeps(Next(w, actions[0]), tx, listing);
      SweepGoesOn(Next(w, actions[0]), actions[1..], tx, listing);
    }
  }

  /** The order was last given a blocking status. */
  ghost predicate Claimed(w: World, actions: seq<Action>, o: OrderId)
    requires Runs(w, actions)
  {
    LastWrite(w, actions, o).Some? && LastWrite(w, actions, o).value in BLOCKING_STATUSES
  }

  /** A listed order blocks when the sweep commits exactly when it was last given a blocking status since the read. */
  lemma ListedBlocksIff(w: World, tx: TxId, listing: seq<OrderId>, actions: seq<Action>, o: OrderId)
    requires WellFormed(w) && Enabled(w, SweepRead(tx, listing)) && o in listing
    requires Runs(Next(w, SweepRead(tx, listing)), actions)
    ensures
      var end := After(Next(w, SweepRead(tx, listing)), actions);
      && o in end.orders
      && (IsOrderBlocking(end.orders[o], end.clock) <==> Claimed(Next(w, SweepRead(tx, listing)), actions, o))
  {
    var read := Next(w, SweepRead(tx, listing));
    NextIsWellFormed(w, SweepRead(tx, listing));
    ListedAreFound(listing, FindStaleHeldOrders(w.orders, w.holds[tx].now));
    var k :| 0 <= k < |listing| && listing[k] == o;
    assert HoldShaped(w, w.holds[tx]);
    RunWrites(read, actions, o);
  }

  lemma CommitFreesListed(w: World, tx: TxId, listing: seq<OrderId>)
    requires Sweeps(w, tx, listing) && Enabled(w, SweepCommit(tx))
    ensures forall o :: o in w.orders ==>
      && o in Next(w, SweepCommit(tx)).orders
      && Next(w, SweepCommit(tx)).orders[o] == if o in listing then Order(Expired, None) else w.orders[o]
    ensures Next(w, SweepCommit(tx)).clock == w.clock
  {
    forall o | o in w.orders
      ensures o in Next(w, SweepCommit(tx)).orders
      ensures Next(w, SweepCommit(tx)).orders[o] == if o in listing then Order(Expired, None) else w.orders[o]
    {
      SweptRow(w.orders, listing, o);
    }
  }

  ghost predicate FreesNothing(w: World, next: World) {
    forall o :: o in w.orders && IsOrderBlocking(w.orders[o], w.clock) ==>
      o in next.orders && IsOrderBlocking(next.orders[o], next.clock)
  }

  /**
   * A sweep's commit frees nothing that blocks if and only if no order it listed was last given a
   * blocking status, by whichever request, between the sweep's read and its commit.
   */
  lemma SweepFreesNothingIff(w: World, tx: TxId, listing: seq<OrderId>, actions: seq<Action>)
    requires WellFormed(w) && Enabled(w, SweepRead(tx, listing))
    requires Runs(Next(w, SweepRead(tx, listing)), actions) && StillSweeps(actions, tx)
    requires Enabled(After(Next(w, SweepRead(tx, listing)), actions), SweepCommit(tx))
    ensures
      var read := Next(w, SweepRead(tx, listing));
      FreesNothing(After(read, actions), Next(After(read, actions), SweepCommit(tx))) <==>
        forall o :: o in listing ==> !Claimed(read, actions, o)
  {
    var read := Next(w, SweepRead(tx, listing));
    var end := After(read, actions);
    SweepGoesOn(read, actions, tx, listing);
    CommitFreesListed(end, tx, listing);
    forall o | o in listing
      ensures o in end.orders && (IsOrderBlocking(end.orders[o], end.clock) <==> Claimed(read, actions, o))
    {
      ListedBlocksIff(w, tx, listing, actions, o);
    }
  }
}
