/** Booking rows, the overlap search, order transitions and concurrent hold requests. */
module BookingModel {
  import opened Common

  type Instant = int
  type OrderId = int
  type ObjectId = int
  type TxId = int

  datatype OrderStatus = Draft | Held | PendingPayment | Paid | Confirmed | Cancelled | Expired

  datatype Order = Order(status: OrderStatus, holdExpiresAt: Option<Instant>)

  /** A half-open stay [checkIn, checkOut) on one object. */
  datatype Stay = Stay(object_: ObjectId, checkIn: Instant, checkOut: Instant)

  datatype ItemKey = ItemKey(order: OrderId, line: nat)

  datatype Item = Item(stay: Stay, active: bool)

  const BLOCKING_STATUSES: set<OrderStatus> := {Held, PendingPayment, Paid, Confirmed}

  // ----- queries -----

  predicate IsOrderBlocking(order: Order, now: Instant) {
    if order.status in {Cancelled, Expired, Draft} then false
    else if order.status == Held then order.holdExpiresAt.Some? && now < order.holdExpiresAt.value
    else order.status in BLOCKING_STATUSES
  }

  predicate Occupies(s: Stay, object_: ObjectId, t: Instant) {
    s.object_ == object_ && s.checkIn <= t < s.checkOut
  }

  predicate Overlaps(a: Stay, b: Stay) {
    a.object_ == b.object_ && a.checkIn < b.checkOut && b.checkIn < a.checkOut
  }

  /** The SQL part of the overlap search: joins the order and filters on its stored status. */
  function OverlapCandidates(
    orders: map<OrderId, Order>, items: map<ItemKey, Item>, wanted: Stay, exclude: Option<OrderId>)
    : (keys: set<ItemKey>)
    ensures forall k :: k in keys ==> k.order in orders
  {
    set k | k in items
      && items[k].active && Overlaps(items[k].stay, wanted)
      && k.order in orders && orders[k.order].status in BLOCKING_STATUSES
      && exclude != Some(k.order)
  }

  function FindOverlappingItems(
    orders: map<OrderId, Order>, items: map<ItemKey, Item>, wanted: Stay, now: Instant, exclude: Option<OrderId>)
    : set<ItemKey>
  {
    set k | k in OverlapCandidates(orders, items, wanted, exclude) && IsOrderBlocking(orders[k.order], now)
  }

  function FindStaleHeldOrders(orders: map<OrderId, Order>, now: Instant): set<OrderId> {
    set o | o in orders
      && orders[o].status == Held && orders[o].holdExpiresAt.Some? && orders[o].holdExpiresAt.value <= now
  }

  // ----- order transitions -----

  predicate TransitionAllowed(current: OrderStatus, target: OrderStatus) {
    match current
    case Draft => target == Held
    case Held => target in {PendingPayment, Cancelled, Expired}
    case PendingPayment => target in {Paid, Cancelled}
    case Paid => target == Confirmed
    case _ => false
  }

  function CancelItems(items: map<ItemKey, Item>, order: OrderId): map<ItemKey, Item> {
    map k | k in items :: if k.order == order then items[k].(active := false) else items[k]
  }

  /** Expiring or submitting an order also clears its deadline. */
  function Moved(order: Order, target: OrderStatus): Order {
    Order(target, if target in {PendingPayment, Expired} then None else order.holdExpiresAt)
  }

  /** The rows after a sweep has expired the orders it listed, whatever they have become meanwhile. */
  function Swept(orders: map<OrderId, Order>, listing: seq<OrderId>): map<OrderId, Order> {
    map o | o in orders :: if o in listing then Moved(orders[o], Expired) else orders[o]
  }

  // ----- requests in flight -----

  /**
   * Where a hold request stands: before its sweep; with the first n listed orders updated and locked;
   * with its first n object rows locked; with its first n stays looked up, free telling the result.
   */
  datatype Phase =
    | Started
    | Sweeping(listing: seq<OrderId>, n: nat)
    | Locking(n: nat)
    | Checking(n: nat, free: bool)

  /**
   * A hold request: its clock reading, its cart, the object rows it locks in id order, and the order
   * rows its session has loaded and may use again.
   */
  datatype Hold = Hold(
    order: OrderId, cart: seq<Stay>, rows: seq<ObjectId>, now: Instant, ttl: int, phase: Phase,
    loaded: map<OrderId, Order>)

  /** A status change between its unlocked, checked read and its unconditional write. */
  datatype Change = Change(order: OrderId, target: OrderStatus)

  datatype World = World(
    clock: Instant, orders: map<OrderId, Order>, items: map<ItemKey, Item>, holds: map<TxId, Hold>,
    changes: map<TxId, Change>)

  /** Sweeping alone, without a hold after it, is a request that is aborted after its sweep. */
  datatype Action =
    | Tick(until: Instant)
    | StartHold(tx: TxId, order: OrderId, cart: seq<Stay>, rows: seq<ObjectId>, ttl: int)
    | SweepRead(tx: TxId, listing: seq<OrderId>)
    | SweepLock(tx: TxId)
    | SweepCommit(tx: TxId)
    | LockRow(tx: TxId)
    | CheckStay(tx: TxId, kept: set<OrderId>)
    | CommitHold(tx: TxId)
    | AbortHold(tx: TxId)
    | ReadOrder(tx: TxId, order: OrderId, target: OrderStatus)
    | WriteOrder(tx: TxId)
    | DropChange(tx: TxId)

  predicate Ascending(rows: seq<ObjectId>) {
    forall i, j :: 0 <= i < j < |rows| ==> rows[i] < rows[j]
  }

  predicate CoversCart(rows: seq<ObjectId>, cart: seq<Stay>) {
    forall k :: 0 <= k < |cart| ==> cart[k].object_ in rows
  }

  predicate ProperStays(cart: seq<Stay>) {
    forall k :: 0 <= k < |cart| ==> cart[k].checkIn < cart[k].checkOut
  }

  /** The object rows a request has locked. */
  function LockedRows(h: Hold): seq<ObjectId> {
    match h.phase
    case Locking(n) => if n <= |h.rows| then h.rows[..n] else []
    case Checking(_, _) => h.rows
    case _ => []
  }

  /** The order rows a request's sweep has updated, and so locked until it commits. */
  function LockedOrders(h: Hold): seq<OrderId> {
    match h.phase
    case Sweeping(listing, n) => if n <= |listing| then listing[..n] else []
    case _ => []
  }

  predicate OrderFree(holds: map<TxId, Hold>, order: OrderId) {
    forall t :: t in holds ==> order !in LockedOrders(holds[t])
  }

  predicate Distinct<T(==)>(xs: seq<T>) {
    forall i, j :: 0 <= i < j < |xs| ==> xs[i] != xs[j]
  }

  /** The stale orders in the order in which the query happens to return them. */
  predicate Lists(listing: seq<OrderId>, found: set<OrderId>) {
    Distinct(listing) && (set o | o in listing) == found
  }

  /** Intervals are kept in a dictionary by object, so the last stay on an object wins. */
  function IntervalFor(cart: seq<Stay>, object_: ObjectId): (s: Stay)
    requires exists k :: 0 <= k < |cart| && cart[k].object_ == object_
  {
    var n := |cart| - 1;
    if cart[n].object_ == object_ then cart[n]
    else
      assert exists k :: 0 <= k < n && cart[..n][k].object_ == object_ by {
        var k :| 0 <= k < |cart| && cart[k].object_ == object_;
        assert cart[..n][k] == cart[k];
      }
      IntervalFor(cart[..n], object_)
  }

  /** The stays written to the new order's items, one per cart line. */
  function PersistedStays(cart: seq<Stay>): (stays: seq<Stay>)
    ensures |stays| == |cart|
  {
    seq(|cart|, k requires 0 <= k < |cart| => IntervalFor(cart, cart[k].object_))
  }

  /** The row of an order that a lookup works on: one the session still keeps, or else the stored one. */
  function SeenRow(w: World, h: Hold, order: OrderId, kept: set<OrderId>): Order
    requires order in w.orders
  {
    if order in h.loaded && order in kept then h.loaded[order] else w.orders[order]
  }

  function CandidateOrders(w: World, wanted: Stay): set<OrderId> {
    set k | k in OverlapCandidates(w.orders, w.items, wanted, None) :: k.order
  }

  /** The rows in the session after the lookup. */
  function Loaded(w: World, h: Hold, wanted: Stay, kept: set<OrderId>): map<OrderId, Order> {
    map o | o in w.orders && (o in CandidateOrders(w, wanted) || (o in h.loaded && o in kept)) :: SeenRow(w, h, o, kept)
  }

  /** The status filter works on the stored rows, the blocking check on those seen. */
  predicate StayFree(w: World, h: Hold, wanted: Stay, kept: set<OrderId>) {
    forall k :: k in OverlapCandidates(w.orders, w.items, wanted, None) ==>
      !IsOrderBlocking(SeenRow(w, h, k.order, kept), h.now)
  }

  predicate Enabled(w: World, a: Action) {
    match a
    case Tick(until) => w.clock <= until
    case StartHold(tx, order, cart, rows, ttl) =>
      && tx !in w.holds && cart != [] && ProperStays(cart)
      && Ascending(rows) && CoversCart(rows, cart)
      && order !in w.orders
      && (forall t :: t in w.holds ==> w.holds[t].order != order)
    case SweepRead(tx, listing) =>
      tx in w.holds && w.holds[tx].phase == Started && Lists(listing, FindStaleHeldOrders(w.orders, w.holds[tx].now))
    case SweepLock(tx) =>
      && tx in w.holds && w.holds[tx].phase.Sweeping? && w.holds[tx].phase.n < |w.holds[tx].phase.listing|
      && (forall t :: t in w.holds && t != tx ==>
           w.holds[tx].phase.listing[w.holds[tx].phase.n] !in LockedOrders(w.holds[t]))
    case SweepCommit(tx) =>
      tx in w.holds && w.holds[tx].phase.Sweeping? && w.holds[tx].phase.n == |w.holds[tx].phase.listing|
    case LockRow(tx) =>
      && tx in w.holds && w.holds[tx].phase.Locking? && w.holds[tx].phase.n < |w.holds[tx].rows|
      && (forall t :: t in w.holds && t != tx ==> w.holds[tx].rows[w.holds[tx].phase.n] !in LockedRows(w.holds[t]))
    case CheckStay(tx, kept) =>
      && tx in w.holds
      && (w.holds[tx].phase == Locking(|w.holds[tx].rows|) ||
          (w.holds[tx].phase.Checking? && w.holds[tx].phase.n < |w.holds[tx].cart|))
    case CommitHold(tx) => tx in w.holds && w.holds[tx].phase == Checking(|w.holds[tx].cart|, true)
    case AbortHold(tx) => tx in w.holds
    case ReadOrder(tx, order, target) =>
      tx !in w.changes && order in w.orders && TransitionAllowed(w.orders[order].status, target)
    case WriteOrder(tx) => tx in w.changes && w.changes[tx].order in w.orders && OrderFree(w.holds, w.changes[tx].order)
    case DropChange(tx) => tx in w.changes
  }

  function SetPhase(w: World, tx: TxId, phase: Phase): World
    requires tx in w.holds
  {
    w.(holds := w.holds[tx := w.holds[tx].(phase := phase)])
  }

  /** Looking up the next stay of the cart. */
  function Looked(w: World, h: Hold, kept: set<OrderId>): Hold {
    var n, free := if h.phase.Checking? then h.phase.n else 0, h.phase.Checking? ==> h.phase.free;
    if n < |h.cart| then
      h.(phase := Checking(n + 1, free && StayFree(w, h, h.cart[n], kept)), loaded := Loaded(w, h, h.cart[n], kept))
    else h
  }

  function NewItems(h: Hold): map<ItemKey, Item> {
    map n: nat | n < |h.cart| :: ItemKey(h.order, n) := Item(PersistedStays(h.cart)[n], true)
  }

  function Written(w: World, tx: TxId): World
    requires Enabled(w, WriteOrder(tx))
  {
    var c := w.changes[tx];
    w.(orders := w.orders[c.order := Moved(w.orders[c.order], c.target)],
       items := if c.target == Cancelled then CancelItems(w.items, c.order) else w.items,
       changes := w.changes - {tx})
  }

  function Next(w: World, a: Action): World
    requires Enabled(w, a)
  {
    match a
    case Tick(until) => w.(clock := until)
    case StartHold(tx, order, cart, rows, ttl) =>
      w.(holds := w.holds[tx := Hold(order, cart, rows, w.clock, ttl, Started, map[])])
    case SweepRead(tx, listing) => SetPhase(w, tx, Sweeping(listing, 0))
    case SweepLock(tx) => SetPhase(w, tx, Sweeping(w.holds[tx].phase.listing, w.holds[tx].phase.n + 1))
    case SweepCommit(tx) =>
      SetPhase(w.(orders := Swept(w.orders, w.holds[tx].phase.listing)), tx, Locking(0))
    case LockRow(tx) => SetPhase(w, tx, Locking(w.holds[tx].phase.n + 1))
    case CheckStay(tx, kept) => w.(holds := w.holds[tx := Looked(w, w.holds[tx], kept)])
    case CommitHold(tx) =>
      var h := w.holds[tx];
      w.(orders := w.orders[h.order := Order(Held, Some(h.now + h.ttl))],
         items := w.items + NewItems(h),
         holds := w.holds - {tx})
    case AbortHold(tx) => w.(holds := w.holds - {tx})
    case ReadOrder(tx, order, target) => w.(changes := w.changes[tx := Change(order, target)])
    case WriteOrder(tx) => Written(w, tx)
    case DropChange(tx) => w.(changes := w.changes - {tx})
  }

  const EMPTY_WORLD := World(0, map[], map[], map[], map[])

  ghost predicate Runs(w: World, actions: seq<Action>)
    decreases |actions|
  {
    actions == [] || (Enabled(w, actions[0]) && Runs(Next(w, actions[0]), actions[1..]))
  }

  ghost function After(w: World, actions: seq<Action>): World
    requires Runs(w, actions)
    decreases |actions|
  {
    if actions == [] then w else After(Next(w, actions[0]), actions[1..])
  }

  // ----- what must not happen -----

  /** Two active items of different orders that share an instant on one object. */
  predicate Clash(items: map<ItemKey, Item>, a: ItemKey, b: ItemKey)
    requires a in items && b in items
  {
    a.order != b.order && items[a].active && items[b].active && Overlaps(items[a].stay, items[b].stay)
  }

  ghost predicate NoDoubleBooking(w: World) {
    forall a, b :: a in w.items && b in w.items && Clash(w.items, a, b)
                   && a.order in w.orders && b.order in w.orders ==>
      !IsOrderBlocking(w.orders[a.order], w.clock) || !IsOrderBlocking(w.orders[b.order], w.clock)
  }

  predicate WritesClaim(w: World, a: Action) {
    && a.WriteOrder? && a.tx in w.changes && w.changes[a.tx].order in w.orders
    && w.changes[a.tx].target in BLOCKING_STATUSES
  }

  /** A write that makes an order block which does not block at that instant, such as a late submit. */
  predicate Revives(w: World, a: Action) {
    WritesClaim(w, a) && !IsOrderBlocking(w.orders[w.changes[a.tx].order], w.clock)
  }

  /** A write of a blocking status over a row that has been expired or cancelled since it was read. */
  predicate TornWrite(w: World, a: Action) {
    WritesClaim(w, a) && w.orders[w.changes[a.tx].order].status !in BLOCKING_STATUSES
  }

  /** A hold that is already past its own deadline when it is committed. */
  predicate StaleCommit(w: World, a: Action) {
    a.CommitHold? && a.tx in w.holds && w.holds[a.tx].now + w.holds[a.tx].ttl <= w.clock
  }

  ghost predicate SomeStep(w: World, actions: seq<Action>, what: (World, Action) -> bool)
    requires Runs(w, actions)
    decreases |actions|
  {
    actions != [] && (what(w, actions[0]) || SomeStep(Next(w, actions[0]), actions[1..], what))
  }
}
