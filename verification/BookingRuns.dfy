/** Concrete runs of the booking protocol: what goes wrong, step by step. */
module BookingRuns {
  import opened Common
  import opened BookingModel
  import opened BookingSafety

  // ----- following a run -----

  ghost predicate Leads(now: World, a: Action, next: World) {
    Enabled(now, a) && Next(now, a) == next
  }

  /** The run leads from start to end without a step of the avoided kind. */
  ghost predicate Way(start: World, actions: seq<Action>, end: World, avoided: (World, Action) -> bool) {
    Runs(start, actions) && After(start, actions) == end && !SomeStep(start, actions, avoided)
  }

  ghost predicate Step(now: World, a: Action, next: World, avoided: (World, Action) -> bool) {
    Leads(now, a, next) && !avoided(now, a)
  }

  lemma {:induction false} WayAndStep(start: World, actions: seq<Action>, now: World, a: Action, next: World,
    avoided: (World, Action) -> bool)
    requires Way(start, actions, now, avoided) && Leads(now, a, next) && !avoided(now, a)
    ensures Way(start, actions + [a], next, avoided)
    decreases |actions|
  {
    var all := actions + [a];
    if actions == [] {
      assert all[0] == a && all[1..] == [];
      assert Runs(next, all[1..]) && After(next, all[1..]) == next;
    } else {
      assert all[0] == actions[0] && all[1..] == actions[1..] + [a];
      WayAndStep(Next(start, actions[0]), actions[1..], now, a, next, avoided);
    }
  }

  lemma Steps3(w0: World, a: Action, w1: World, b: Action, w2: World, c: Action, w3: World,
    avoided: (World, Action) -> bool)
    requires Step(w0, a, w1, avoided) && Step(w1, b, w2, avoided) && Step(w2, c, w3, avoided)
    ensures Way(w0, [a, b, c], w3, avoided)
  {
    assert Way(w0, [], w0, avoided);
    WayAndStep(w0, [], w0, a, w1, avoided);
    WayAndStep(w0, [] + [a], w1, b, w2, avoided);
    WayAndStep(w0, [] + [a] + [b], w2, c, w3, avoided);
    assert [] + [a] + [b] + [c] == [a, b, c];
  }

  lemma Steps4(w0: World, a: Action, w1: World, b: Action, w2: World, c: Action, w3: World, d: Action, w4: World,
    avoided: (World, Action) -> bool)
    requires Step(w0, a, w1, avoided) && Step(w1, b, w2, avoided)
    requires Step(w2, c, w3, avoided) && Step(w3, d, w4, avoided)
    ensures Way(w0, [a, b, c, d], w4, avoided)
  {
    Steps3(w0, a, w1, b, w2, c, w3, avoided);
    WayAndStep(w0, [a, b, c], w3, d, w4, avoided);
    assert [a, b, c] + [d] == [a, b, c, d];
  }

  lemma Steps5(w0: World, a: Action, w1: World, b: Action, w2: World, c: Action, w3: World, d: Action, w4: World,
    e: Action, w5: World, avoided: (World, Action) -> bool)
    requires Step(w0, a, w1, avoided) && Step(w1, b, w2, avoided) && Step(w2, c, w3, avoided)
    requires Step(w3, d, w4, avoided) && Step(w4, e, w5, avoided)
    ensures Way(w0, [a, b, c, d, e], w5, avoided)
  {
    Steps4(w0, a, w1, b, w2, c, w3, d, w4, avoided);
    WayAndStep(w0, [a, b, c, d], w4, e, w5, avoided);
    assert [a, b, c, d] + [e] == [a, b, c, d, e];
  }

  lemma {:induction false} JoinWays(start: World, p: seq<Action>, mid: World, q: seq<Action>, end: World,
    avoided: (World, Action) -> bool)
    requires Way(start, p, mid, avoided) && Way(mid, q, end, avoided)
    ensures Way(start, p + q, end, avoided)
    decreases |p|
  {
    if p == [] {
      assert p + q == q;
    } else {
      assert (p + q)[0] == p[0] && (p + q)[1..] == p[1..] + q;
      JoinWays(Next(start, p[0]), p[1..], mid, q, end, avoided);
    }
  }

  // ----- the parts the runs are made of -----

  const NIGHT: Stay := Stay(7, 100, 200)

  /** A request for that night on object 7, with ten units of time to pay. */
  function Request(order: OrderId, now: Instant, phase: Phase, loaded: map<OrderId, Order>): Hold {
    Hold(order, [NIGHT], [7], now, 10, phase, loaded)
  }

  function NightOf(order: OrderId): map<ItemKey, Item> {
    map[ItemKey(order, 0) := Item(NIGHT, true)]
  }

  lemma NightIsOneItem(h: Hold)
    requires h.cart == [NIGHT]
    ensures NewItems(h) == NightOf(h.order)
  {
    assert PersistedStays(h.cart) == [NIGHT];
  }

  /** The first request alone at time 0. */
  function FirstRunning(phase: Phase): World {
    World(0, map[], map[], map[1 := Request(1, 0, phase, map[])], map[])
  }

  const FIRST_HELD: Order := Order(Held, Some(10))

  const SUBMIT_FIRST: map<TxId, Change> := map[5 := Change(1, PendingPayment)]

  /** The first order is in, as given, and the second request runs. */
  function SecondRunning(clock: Instant, first: Order, phase: Phase, loaded: map<OrderId, Order>,
    changes: map<TxId, Change>): World
  {
    World(clock, map[1 := first], NightOf(1), map[2 := Request(2, clock, phase, loaded)], changes)
  }

  /** Both orders are in, on the same night. */
  function BothIn(clock: Instant, first: Order, changes: map<TxId, Change>): World {
    World(clock, map[1 := first, 2 := Order(Held, Some(clock + 10))], NightOf(1) + NightOf(2), map[], changes)
  }

  lemma BothBlock(clock: Instant)
    ensures !NoDoubleBooking(BothIn(clock, Order(PendingPayment, None), map[]))
  {
    var w := BothIn(clock, Order(PendingPayment, None), map[]);
    assert Clash(w.items, ItemKey(1, 0), ItemKey(2, 0));
  }

  // ----- steps the runs share -----

  /** A lookup that keeps no earlier rows and finds no candidate. */
  lemma NothingFound(w: World, h: Hold, wanted: Stay)
    requires OverlapCandidates(w.orders, w.items, wanted, None) == {}
    ensures Loaded(w, h, wanted, {}) == map[] && StayFree(w, h, wanted, {})
  {
  }

  lemma NoCandidates(orders: map<OrderId, Order>, items: map<ItemKey, Item>, wanted: Stay)
    requires forall k :: k in items && k.order in orders ==> orders[k.order].status !in BLOCKING_STATUSES
    ensures OverlapCandidates(orders, items, wanted, None) == {}
  {
  }

  /** A lookup that keeps no earlier rows, works on the given ones and finds the stay free. */
  lemma LookupLeads(w: World, tx: TxId, n: nat, rows: map<OrderId, Order>)
    requires tx in w.holds && n < |w.holds[tx].cart|
    requires w.holds[tx].phase == Checking(n, true) || (n == 0 && w.holds[tx].phase == Locking(|w.holds[tx].rows|))
    requires Loaded(w, w.holds[tx], w.holds[tx].cart[n], {}) == rows
    requires StayFree(w, w.holds[tx], w.holds[tx].cart[n], {})
    ensures Leads(w, CheckStay(tx, {}),
      w.(holds := w.holds[tx := w.holds[tx].(phase := Checking(n + 1, true), loaded := rows)]))
  {
  }

  /** The same where no order blocks by its status. */
  lemma FreeLookup(w: World, tx: TxId, n: nat)
    requires tx in w.holds && n < |w.holds[tx].cart|
    requires w.holds[tx].phase == Checking(n, true) || (n == 0 && w.holds[tx].phase == Locking(|w.holds[tx].rows|))
    requires forall k :: k in w.items && k.order in w.orders ==> w.orders[k.order].status !in BLOCKING_STATUSES
    ensures Leads(w, CheckStay(tx, {}),
      w.(holds := w.holds[tx := w.holds[tx].(phase := Checking(n + 1, true), loaded := map[])]))
  {
    NoCandidates(w.orders, w.items, w.holds[tx].cart[n]);
    NothingFound(w, w.holds[tx], w.holds[tx].cart[n]);
    LookupLeads(w, tx, n, map[]);
  }

  // ----- the first request looks up its night -----

  const SEARCH: seq<Action> :=
    [StartHold(1, 1, [NIGHT], [7], 10), SweepRead(1, []), SweepCommit(1), LockRow(1), CheckStay(1, {})]

  lemma FirstStarts()
    ensures Leads(EMPTY_WORLD, StartHold(1, 1, [NIGHT], [7], 10), FirstRunning(Started))
    ensures Leads(FirstRunning(Started), SweepRead(1, []), FirstRunning(Sweeping([], 0)))
  {
  }

  lemma FirstSweeps()
    ensures Leads(FirstRunning(Sweeping([], 0)), SweepCommit(1), FirstRunning(Locking(0)))
    ensures Leads(FirstRunning(Locking(0)), LockRow(1), FirstRunning(Locking(1)))
  {
  }

  lemma FirstChecks()
    ensures Leads(FirstRunning(Locking(1)), CheckStay(1, {}), FirstRunning(Checking(1, true)))
  {
    FreeLookup(FirstRunning(Locking(1)), 1, 0);
  }

  ghost predicate OnlyCommitsAndWrites(avoided: (World, Action) -> bool) {
    forall w, a :: avoided(w, a) ==> a.CommitHold? || a.WriteOrder?
  }

  lemma FirstSearches(avoided: (World, Action) -> bool)
    requires OnlyCommitsAndWrites(avoided)
    ensures Way(EMPTY_WORLD, SEARCH, FirstRunning(Checking(1, true)), avoided)
  {
    FirstStarts();
    FirstSweeps();
    FirstChecks();
    Steps5(EMPTY_WORLD, StartHold(1, 1, [NIGHT], [7], 10), FirstRunning(Started),
      SweepRead(1, []), FirstRunning(Sweeping([], 0)),
      SweepCommit(1), FirstRunning(Locking(0)),
      LockRow(1), FirstRunning(Locking(1)),
      CheckStay(1, {}), FirstRunning(Checking(1, true)), avoided);
  }

  // ----- a status change torn by a sweep -----

  /** The first hold is in; a submit reads it in time; the clock passes the deadline. */
  const SUBMIT_READS: seq<Action> := [CommitHold(1), Tick(9), ReadOrder(5, 1, PendingPayment), Tick(11)]

  const EXPIRE_FIRST: seq<Action> :=
    [StartHold(2, 2, [NIGHT], [7], 10), SweepRead(2, [1]), SweepLock(2), SweepCommit(2)]

  const TAKE_NIGHT: seq<Action> := [LockRow(2), CheckStay(2, {}), CommitHold(2), WriteOrder(5)]

  const TORN_RUN: seq<Action> := SEARCH + SUBMIT_READS + EXPIRE_FIRST + TAKE_NIGHT

  function OneHeld(clock: Instant, changes: map<TxId, Change>): World {
    World(clock, map[1 := FIRST_HELD], NightOf(1), map[], changes)
  }

  lemma FirstCommitsInTime()
    ensures Step(FirstRunning(Checking(1, true)), CommitHold(1), OneHeld(0, map[]), StaleCommit)
  {
    NightIsOneItem(Request(1, 0, Checking(1, true), map[]));
  }

  lemma SubmitReads()
    ensures Leads(OneHeld(0, map[]), Tick(9), OneHeld(9, map[]))
    ensures Leads(OneHeld(9, map[]), ReadOrder(5, 1, PendingPayment), OneHeld(9, SUBMIT_FIRST))
    ensures Leads(OneHeld(9, SUBMIT_FIRST), Tick(11), OneHeld(11, SUBMIT_FIRST))
  {
  }

  lemma TornStart()
    ensures Way(EMPTY_WORLD, SEARCH + SUBMIT_READS, OneHeld(11, SUBMIT_FIRST), StaleCommit)
  {
    FirstSearches(StaleCommit);
    FirstCommitsInTime();
    SubmitReads();
    Steps4(FirstRunning(Checking(1, true)), CommitHold(1), OneHeld(0, map[]), Tick(9), OneHeld(9, map[]),
      ReadOrder(5, 1, PendingPayment), OneHeld(9, SUBMIT_FIRST), Tick(11), OneHeld(11, SUBMIT_FIRST), StaleCommit);
    var found := FirstRunning(Checking(1, true));
    JoinWays(EMPTY_WORLD, SEARCH, found, SUBMIT_READS, OneHeld(11, SUBMIT_FIRST), StaleCommit);
  }

  const EXPIRED: Order := Order(OrderStatus.Expired, None)

  const PAYING: Order := Order(PendingPayment, None)

  function Torn(first: Order, phase: Phase): World {
    SecondRunning(11, first, phase, map[], SUBMIT_FIRST)
  }

  lemma SecondReads()
    ensures Leads(OneHeld(11, SUBMIT_FIRST), StartHold(2, 2, [NIGHT], [7], 10), Torn(FIRST_HELD, Started))
    ensures Leads(Torn(FIRST_HELD, Started), SweepRead(2, [1]), Torn(FIRST_HELD, Sweeping([1], 0)))
  {
    assert FindStaleHeldOrders(map[1 := FIRST_HELD], 11) == {1};
    assert (set o | o in [1]) == {1};
  }

  lemma SecondSweeps()
    ensures Leads(Torn(FIRST_HELD, Sweeping([1], 0)), SweepLock(2), Torn(FIRST_HELD, Sweeping([1], 1)))
  {
  }

  lemma SecondExpires()
    ensures Leads(Torn(FIRST_HELD, Sweeping([1], 1)), SweepCommit(2), Torn(EXPIRED, Locking(0)))
  {
    assert Swept(map[1 := FIRST_HELD], [1]) == map[1 := EXPIRED];
  }

  lemma SecondLocks()
    ensures Leads(Torn(EXPIRED, Locking(0)), LockRow(2), Torn(EXPIRED, Locking(1)))
  {
  }

  lemma SecondChecks()
    ensures Leads(Torn(EXPIRED, Locking(1)), CheckStay(2, {}), Torn(EXPIRED, Checking(1, true)))
  {
    FreeLookup(Torn(EXPIRED, Locking(1)), 2, 0);
  }

  lemma SecondCommits()
    ensures Step(Torn(EXPIRED, Checking(1, true)), CommitHold(2), BothIn(11, EXPIRED, SUBMIT_FIRST), StaleCommit)
  {
    NightIsOneItem(Request(2, 11, Checking(1, true), map[]));
  }

  lemma SubmitWrites()
    ensures Leads(BothIn(11, EXPIRED, SUBMIT_FIRST), WriteOrder(5), BothIn(11, PAYING, map[]))
  {
  }

  lemma SecondExpiresFirst()
    ensures Way(OneHeld(11, SUBMIT_FIRST), EXPIRE_FIRST, Torn(EXPIRED, Locking(0)), StaleCommit)
  {
    SecondReads();
    SecondSweeps();
    SecondExpires();
    Steps4(OneHeld(11, SUBMIT_FIRST), StartHold(2, 2, [NIGHT], [7], 10), Torn(FIRST_HELD, Started),
      SweepRead(2, [1]), Torn(FIRST_HELD, Sweeping([1], 0)), SweepLock(2), Torn(FIRST_HELD, Sweeping([1], 1)),
      SweepCommit(2), Torn(EXPIRED, Locking(0)), StaleCommit);
  }

  lemma SecondTakesNight()
    ensures Way(Torn(EXPIRED, Locking(0)), TAKE_NIGHT, BothIn(11, PAYING, map[]), StaleCommit)
  {
    SecondLocks();
    SecondChecks();
    SecondCommits();
    SubmitWrites();
    Steps4(Torn(EXPIRED, Locking(0)), LockRow(2), Torn(EXPIRED, Locking(1)),
      CheckStay(2, {}), Torn(EXPIRED, Checking(1, true)), CommitHold(2), BothIn(11, EXPIRED, SUBMIT_FIRST),
      WriteOrder(5), BothIn(11, PAYING, map[]), StaleCommit);
  }

  /**
   * A submit that read the hold in time and writes after a sweep has expired it: both orders block
   * object 7 at the end, no hold was committed late, and when the submit read, the search was empty.
   */
  lemma TornRunDoubleBooks()
    ensures Runs(EMPTY_WORLD, TORN_RUN) && !SomeStep(EMPTY_WORLD, TORN_RUN, StaleCommit)
    ensures !NoDoubleBooking(After(EMPTY_WORLD, TORN_RUN))
    ensures ClearToWrite(OneHeld(9, map[]), 1)
  {
    TornStart();
    SecondExpiresFirst();
    SecondTakesNight();
    var start := SEARCH + SUBMIT_READS;
    JoinWays(EMPTY_WORLD, start, OneHeld(11, SUBMIT_FIRST), EXPIRE_FIRST, Torn(EXPIRED, Locking(0)), StaleCommit);
    JoinWays(EMPTY_WORLD, start + EXPIRE_FIRST, Torn(EXPIRED, Locking(0)), TAKE_NIGHT, BothIn(11, PAYING, map[]),
      StaleCommit);
    BothBlock(11);
  }

  // ----- a late commit and a late submit -----

  /** The first request has searched, and waits past its own deadline before it commits. */
  const SECOND_SWEEPS_NOTHING: seq<Action> :=
    [Tick(20), StartHold(2, 2, [NIGHT], [7], 10), SweepRead(2, []), SweepCommit(2), CommitHold(1)]

  const LATE_END: seq<Action> :=
    [LockRow(2), CheckStay(2, {}), CommitHold(2), ReadOrder(5, 1, PendingPayment), WriteOrder(5)]

  const LATE_RUN: seq<Action> := SEARCH + SECOND_SWEEPS_NOTHING + LATE_END

  const FIRST_WAITING: World := FirstRunning(Checking(1, true)).(clock := 20)

  function BothRunning(phase: Phase): World {
    FIRST_WAITING.(holds := FIRST_WAITING.holds[2 := Request(2, 20, phase, map[])])
  }

  function Late(phase: Phase, loaded: map<OrderId, Order>): World {
    SecondRunning(20, FIRST_HELD, phase, loaded, map[])
  }

  lemma SecondStartsLate()
    ensures Leads(FirstRunning(Checking(1, true)), Tick(20), FIRST_WAITING)
    ensures Leads(FIRST_WAITING, StartHold(2, 2, [NIGHT], [7], 10), BothRunning(Started))
  {
  }

  lemma SecondSweepsNothing()
    ensures Leads(BothRunning(Started), SweepRead(2, []), BothRunning(Sweeping([], 0)))
    ensures Leads(BothRunning(Sweeping([], 0)), SweepCommit(2), BothRunning(Locking(0)))
  {
  }

  lemma FirstCommitsLate()
    ensures Leads(BothRunning(Locking(0)), CommitHold(1), Late(Locking(0), map[]))
  {
    NightIsOneItem(Request(1, 0, Checking(1, true), map[]));
  }

  lemma LateStart()
    ensures Way(FirstRunning(Checking(1, true)), SECOND_SWEEPS_NOTHING, Late(Locking(0), map[]), TornWrite)
  {
    SecondStartsLate();
    SecondSweepsNothing();
    FirstCommitsLate();
    Steps5(FirstRunning(Checking(1, true)), Tick(20), FIRST_WAITING,
      StartHold(2, 2, [NIGHT], [7], 10), BothRunning(Started), SweepRead(2, []), BothRunning(Sweeping([], 0)),
      SweepCommit(2), BothRunning(Locking(0)), CommitHold(1), Late(Locking(0), map[]), TornWrite);
  }

  lemma LateLock()
    ensures Leads(Late(Locking(0), map[]), LockRow(2), Late(Locking(1), map[]))
  {
  }

  lemma FirstIsCandidate(w: World, h: Hold)
    requires w.orders == map[1 := FIRST_HELD] && w.items == NightOf(1) && h.now == 20
    ensures Loaded(w, h, NIGHT, {}) == map[1 := FIRST_HELD] && StayFree(w, h, NIGHT, {})
  {
    assert OverlapCandidates(w.orders, w.items, NIGHT, None) == {ItemKey(1, 0)};
    assert ItemKey(1, 0).order in CandidateOrders(w, NIGHT);
  }

  lemma LateWorld()
    ensures
      var w := Late(Locking(1), map[]);
      w.(holds := w.holds[2 := w.holds[2].(phase := Checking(1, true), loaded := map[1 := FIRST_HELD])])
        == Late(Checking(1, true), map[1 := FIRST_HELD])
  {
  }

  /** The second lookup meets the first hold, which does not block any more. */
  lemma LateHoldIsPassed()
    ensures Leads(Late(Locking(1), map[]), CheckStay(2, {}), Late(Checking(1, true), map[1 := FIRST_HELD]))
  {
    var w := Late(Locking(1), map[]);
    FirstIsCandidate(w, w.holds[2]);
    LookupLeads(w, 2, 0, map[1 := FIRST_HELD]);
    LateWorld();
  }

  lemma SecondCommitsLast()
    ensures Leads(Late(Checking(1, true), map[1 := FIRST_HELD]), CommitHold(2), BothIn(20, FIRST_HELD, map[]))
  {
    NightIsOneItem(Request(2, 20, Checking(1, true), map[1 := FIRST_HELD]));
  }

  lemma LateSubmit()
    ensures Leads(BothIn(20, FIRST_HELD, map[]), ReadOrder(5, 1, PendingPayment), BothIn(20, FIRST_HELD, SUBMIT_FIRST))
    ensures Step(BothIn(20, FIRST_HELD, SUBMIT_FIRST), WriteOrder(5), BothIn(20, PAYING, map[]), TornWrite)
  {
  }

  lemma LateEnd()
    ensures Way(Late(Locking(0), map[]), LATE_END, BothIn(20, PAYING, map[]), TornWrite)
  {
    LateLock();
    LateHoldIsPassed();
    SecondCommitsLast();
    LateSubmit();
    Steps5(Late(Locking(0), map[]), LockRow(2), Late(Locking(1), map[]),
      CheckStay(2, {}), Late(Checking(1, true), map[1 := FIRST_HELD]), CommitHold(2), BothIn(20, FIRST_HELD, map[]),
      ReadOrder(5, 1, PendingPayment), BothIn(20, FIRST_HELD, SUBMIT_FIRST),
      WriteOrder(5), BothIn(20, PAYING, map[]), TornWrite);
  }

  /** Without any torn write: orders 1 and 2 both block object 7 at the end. */
  lemma LateRunDoubleBooks()
    ensures Runs(EMPTY_WORLD, LATE_RUN) && !SomeStep(EMPTY_WORLD, LATE_RUN, TornWrite)
    ensures !NoDoubleBooking(After(EMPTY_WORLD, LATE_RUN))
  {
    FirstSearches(TornWrite);
    LateStart();
    LateEnd();
    var found := FirstRunning(Checking(1, true));
    JoinWays(EMPTY_WORLD, SEARCH, found, SECOND_SWEEPS_NOTHING, Late(Locking(0), map[]), TornWrite);
    JoinWays(EMPTY_WORLD, SEARCH + SECOND_SWEEPS_NOTHING, Late(Locking(0), map[]), LATE_END, BothIn(20, PAYING, map[]),
      TornWrite);
    BothBlock(20);
  }

  // ----- a sweep over a submitted order -----

  const SUBMIT_DURING_SWEEP: seq<Action> :=
    [StartHold(2, 2, [NIGHT], [7], 10), SweepRead(2, [1]), WriteOrder(5), SweepLock(2)]

  const BEFORE_SWEEP_COMMITS: seq<Action> := SEARCH + SUBMIT_READS + SUBMIT_DURING_SWEEP

  function Paying(first: Order, phase: Phase): World {
    SecondRunning(11, first, phase, map[], map[])
  }

  lemma SubmitLandsInSweep()
    ensures Leads(Torn(FIRST_HELD, Sweeping([1], 0)), WriteOrder(5), Paying(PAYING, Sweeping([1], 0)))
    ensures Leads(Paying(PAYING, Sweeping([1], 0)), SweepLock(2), Paying(PAYING, Sweeping([1], 1)))
  {
  }

  lemma SweepExpiresPaying()
    ensures Leads(Paying(PAYING, Sweeping([1], 1)), SweepCommit(2), Paying(EXPIRED, Locking(0)))
  {
    assert Swept(map[1 := PAYING], [1]) == map[1 := EXPIRED];
  }

  /** An order submitted between a sweep's read and its commit blocks before that commit and is expired by it. */
  lemma SweepLosesSubmittedOrder()
    ensures Way(EMPTY_WORLD, BEFORE_SWEEP_COMMITS, Paying(PAYING, Sweeping([1], 1)), StaleCommit)
    ensures Leads(Paying(PAYING, Sweeping([1], 1)), SweepCommit(2), Paying(EXPIRED, Locking(0)))
    ensures IsOrderBlocking(PAYING, 11) && !IsOrderBlocking(EXPIRED, 11)
  {
    TornStart();
    SecondReads();
    SubmitLandsInSweep();
    Steps4(OneHeld(11, SUBMIT_FIRST), StartHold(2, 2, [NIGHT], [7], 10), Torn(FIRST_HELD, Started),
      SweepRead(2, [1]), Torn(FIRST_HELD, Sweeping([1], 0)), WriteOrder(5), Paying(PAYING, Sweeping([1], 0)),
      SweepLock(2), Paying(PAYING, Sweeping([1], 1)), StaleCommit);
    JoinWays(EMPTY_WORLD, SEARCH + SUBMIT_READS, OneHeld(11, SUBMIT_FIRST), SUBMIT_DURING_SWEEP,
      Paying(PAYING, Sweeping([1], 1)), StaleCommit);
    SweepExpiresPaying();
  }

  // ----- one object twice in a cart -----

  const TWO_NIGHTS: seq<Stay> := [Stay(7, 100, 200), Stay(7, 300, 400)]

  const LOCK_TWO: seq<Action> := [StartHold(1, 1, TWO_NIGHTS, [7], 10), SweepRead(1, []), SweepCommit(1), LockRow(1)]

  const BOOK_TWO: seq<Action> := [CheckStay(1, {}), CheckStay(1, {}), CommitHold(1)]

  function Cart(phase: Phase): World {
    World(0, map[], map[], map[1 := Hold(1, TWO_NIGHTS, [7], 0, 10, phase, map[])], map[])
  }

  function TwiceTheLast(): World {
    World(0, map[1 := FIRST_HELD],
      map[ItemKey(1, 0) := Item(TWO_NIGHTS[1], true), ItemKey(1, 1) := Item(TWO_NIGHTS[1], true)], map[], map[])
  }

  lemma CartStarts()
    ensures Leads(EMPTY_WORLD, StartHold(1, 1, TWO_NIGHTS, [7], 10), Cart(Started))
    ensures Leads(Cart(Started), SweepRead(1, []), Cart(Sweeping([], 0)))
    ensures Leads(Cart(Sweeping([], 0)), SweepCommit(1), Cart(Locking(0)))
    ensures Leads(Cart(Locking(0)), LockRow(1), Cart(Locking(1)))
  {
  }

  lemma CartChecksFirst()
    ensures Leads(Cart(Locking(1)), CheckStay(1, {}), Cart(Checking(1, true)))
  {
    FreeLookup(Cart(Locking(1)), 1, 0);
  }

  lemma CartChecksSecond()
    ensures Leads(Cart(Checking(1, true)), CheckStay(1, {}), Cart(Checking(2, true)))
  {
    FreeLookup(Cart(Checking(1, true)), 1, 1);
  }

  lemma LastNightWins()
    ensures PersistedStays(TWO_NIGHTS) == [TWO_NIGHTS[1], TWO_NIGHTS[1]]
  {
    assert IntervalFor(TWO_NIGHTS, 7) == TWO_NIGHTS[1];
  }

  lemma CartCommits()
    ensures Leads(Cart(Checking(2, true)), CommitHold(1), TwiceTheLast())
  {
    LastNightWins();
    assert NewItems(Cart(Checking(2, true)).holds[1]) == TwiceTheLast().items;
  }

  /** Both lines of the committed order hold the second stay; the first one is not booked at all. */
  lemma SameObjectTwiceKeepsLastStay()
    ensures Way(EMPTY_WORLD, LOCK_TWO + BOOK_TWO, TwiceTheLast(), StaleCommit)
    ensures PersistedStays(TWO_NIGHTS) != TWO_NIGHTS
  {
    CartStarts();
    Steps4(EMPTY_WORLD, StartHold(1, 1, TWO_NIGHTS, [7], 10), Cart(Started), SweepRead(1, []), Cart(Sweeping([], 0)),
      SweepCommit(1), Cart(Locking(0)), LockRow(1), Cart(Locking(1)), StaleCommit);
    CartChecksFirst();
    CartChecksSecond();
    CartCommits();
    Steps3(Cart(Locking(1)), CheckStay(1, {}), Cart(Checking(1, true)), CheckStay(1, {}), Cart(Checking(2, true)),
      CommitHold(1), TwiceTheLast(), StaleCommit);
    JoinWays(EMPTY_WORLD, LOCK_TWO, Cart(Locking(1)), BOOK_TWO, TwiceTheLast(), StaleCommit);
    LastNightWins();
  }
}
