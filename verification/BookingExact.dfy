/** Exactly which runs stay free of double bookings, in terms of searches made at the writing steps. */
module BookingExact {
  import opened Common
  import opened BookingModel
  import opened BookingProperties
  import opened BookingSafety

  /** Searched again at the moment of the commit, are the stays about to be written free? */
  predicate ClearToCommit(w: World, tx: TxId)
    requires tx in w.holds
  {
    var stays := PersistedStays(w.holds[tx].cart);
    forall n :: 0 <= n < |stays| ==> FindOverlappingItems(w.orders, w.items, stays[n], w.clock, None) == {}
  }

  lemma OldClashesStay(w: World, tx: TxId, a: ItemKey, b: ItemKey)
    requires WellFormed(w) && NoDoubleBooking(w) && Enabled(w, CommitHold(tx))
    requires
      var next := Next(w, CommitHold(tx));
      a in next.items && b in next.items && a.order in next.orders && b.order in next.orders && Clash(next.items, a, b)
    requires a.order != w.holds[tx].order && b.order != w.holds[tx].order
    ensures
      var next := Next(w, CommitHold(tx));
      !IsOrderBlocking(next.orders[a.order], next.clock) || !IsOrderBlocking(next.orders[b.order], next.clock)
  {
    assert a in w.items && b in w.items && Clash(w.items, a, b);
  }

  lemma NewItemIsFree(w: World, tx: TxId, mine: ItemKey, other: ItemKey)
    requires WellFormed(w) && Enabled(w, CommitHold(tx)) && ClearToCommit(w, tx)
    requires
      var next := Next(w, CommitHold(tx));
      mine in next.items && other in next.items && Clash(next.items, mine, other) && other.order in next.orders
    requires mine.order == w.holds[tx].order
    ensures !IsOrderBlocking(Next(w, CommitHold(tx)).orders[other.order], w.clock)
  {
    var h := w.holds[tx];
    assert HoldShaped(w, h);
    assert mine in NewItems(h);
    var stay := PersistedStays(h.cart)[mine.line];
    assert other in w.items && Overlaps(w.items[other].stay, stay);
    assert other !in FindOverlappingItems(w.orders, w.items, stay, w.clock, None);
  }

  lemma TakenStayClashes(w: World, tx: TxId) returns (mine: ItemKey, other: ItemKey)
    requires WellFormed(w) && Enabled(w, CommitHold(tx)) && !ClearToCommit(w, tx)
    ensures
      var next := Next(w, CommitHold(tx));
      && mine in next.items && other in next.items && Clash(next.items, mine, other)
      && mine.order == w.holds[tx].order && other.order in next.orders
      && IsOrderBlocking(next.orders[other.order], w.clock)
  {
    var h := w.holds[tx];
    assert HoldShaped(w, h);
    var stays := PersistedStays(h.cart);
    var n :| 0 <= n < |stays| && FindOverlappingItems(w.orders, w.items, stays[n], w.clock, None) != {};
    other :| other in FindOverlappingItems(w.orders, w.items, stays[n], w.clock, None);
    mine := ItemKey(h.order, n);
    assert mine in NewItems(h);
  }

  /** A commit is safe if and only if its hold is born past its deadline or its stays are still free. */
  lemma CommitIsSafeIff(w: World, tx: TxId)
    requires WellFormed(w) && NoDoubleBooking(w) && Enabled(w, CommitHold(tx))
    ensures NoDoubleBooking(Next(w, CommitHold(tx))) <==> StaleCommit(w, CommitHold(tx)) || ClearToCommit(w, tx)
  {
    var next := Next(w, CommitHold(tx));
    var h := w.holds[tx];
    if StaleCommit(w, CommitHold(tx)) || ClearToCommit(w, tx) {
      forall a, b | a in next.items && b in next.items && Clash(next.items, a, b)
        && a.order in next.orders && b.order in next.orders
        ensures !IsOrderBlocking(next.orders[a.order], next.clock) || !IsOrderBlocking(next.orders[b.order], next.clock)
      {
        if a.order != h.order && b.order != h.order {
          OldClashesStay(w, tx, a, b);
        } else if !StaleCommit(w, CommitHold(tx)) {
          if a.order == h.order { NewItemIsFree(w, tx, a, b); } else { NewItemIsFree(w, tx, b, a); }
        }
      }
    } else {
      var mine, other := TakenStayClashes(w, tx);
    }
  }

  lemma OtherStepsAreSafe(w: World, a: Action)
    requires WellFormed(w) && NoDoubleBooking(w) && Enabled(w, a) && !a.CommitHold? && !WritesClaim(w, a)
    ensures NoDoubleBooking(Next(w, a))
  {
    OtherStepsAreQuiet(Live, w, a);
    assert NoDoubleClaim(Live, w);
    QuietKeepsClaims(Live, w, Next(w, a));
    LiveReadingIsEnough(Next(w, a), Live);
  }

  /** The two kinds of step that need a look, and what they must find. */
  predicate StepIsClear(w: World, a: Action)
    requires Enabled(w, a)
  {
    if a.CommitHold? then StaleCommit(w, a) || ClearToCommit(w, a.tx)
    else if WritesClaim(w, a) then ClearToWrite(w, w.changes[a.tx].order)
    else true
  }

  ghost predicate EveryStepIsClear(w: World, actions: seq<Action>)
    requires Runs(w, actions)
    decreases |actions|
  {
    actions != [] ==> StepIsClear(w, actions[0]) && EveryStepIsClear(Next(w, actions[0]), actions[1..])
  }

  ghost predicate NeverDoubleBooked(w: World, actions: seq<Action>)
    requires Runs(w, actions)
    decreases |actions|
  {
    NoDoubleBooking(w) && (actions != [] ==> NeverDoubleBooked(Next(w, actions[0]), actions[1..]))
  }

  /**
   * A run is free of double bookings throughout if and only if each write of a blocking status finds
   * its order's stays free at that instant, and each hold finds its stays free when it is committed or
   * is past its deadline by then.
   */
  lemma {:induction false} NeverDoubleBookedIff(w: World, actions: seq<Action>)
    requires WellFormed(w) && NoDoubleBooking(w) && Runs(w, actions)
    ensures NeverDoubleBooked(w, actions) <==> EveryStepIsClear(w, actions)
    decreases |actions|
  {
    if actions != [] {
      var a := actions[0];
      if a.CommitHold? {
        CommitIsSafeIff(w, a.tx);
      } else if WritesClaim(w, a) {
        WriteIsSafeIff(w, a.tx);
      } else {
        OtherStepsAreSafe(w, a);
      }
      NextIsWellFormed(w, a);
      if NoDoubleBooking(Next(w, a)) { NeverDoubleBookedIff(Next(w, a), actions[1..]); }
    }
  }
}
