/** Rows, requests and rules of the finance ledger, as values. Money is in cents, days are day numbers. */
module FinanceModel {
  import opened Common
  import opened Sums

  type Id = int
  type Day = int
  type Cents = int
  type PositiveCents = c: int | 0 < c witness 1
  type PositiveReal = q: real | 0.0 < q witness 1.0

  datatype InvoiceStatus = Draft | Issued | Sent | Partial | Paid | Overdue | Cancelled | Void

  datatype PaymentStatus = PaymentPending | Completed | Failed | Refunded | PaymentCancelled

  datatype Invoice = Invoice(status: InvoiceStatus, total: Cents, amountPaid: Cents, dueDate: Option<Day>)

  datatype Payment = Payment(status: PaymentStatus, amount: PositiveCents, amountAllocated: Cents)

  datatype Allocation = Allocation(payment: Id, invoice: Id, amount: PositiveCents)

  /** The three tables of one tenant. */
  datatype Books = Books(
    invoices: map<Id, Invoice>,
    payments: map<Id, Payment>,
    allocations: seq<Allocation>)

  datatype Item = Item(invoice: Id, amount: PositiveCents)

  /** A line of a new invoice; the unit price may be negative. */
  datatype Line = Line(quantity: PositiveReal, unitPrice: real)

  datatype Failure = NotFound | Conflict | DuplicateKey

  datatype Request =
    | CreateInvoice(id: Id, lines: seq<Line>, due: Option<Day>, issue: bool)
    | UpdateInvoice(id: Id, status: Option<InvoiceStatus>, due: Option<Day>)
    | CreatePayment(id: Id, amount: PositiveCents, paymentStatus: PaymentStatus)
    | Allocate(payment: Id, items: seq<Item>)

  const ITEM_INVOICE: Item -> Id := (i: Item) => i.invoice
  const ITEM_AMOUNT: Item -> Cents := (i: Item) => i.amount
  const ROW_INVOICE: Allocation -> Id := (a: Allocation) => a.invoice
  const ROW_PAYMENT: Allocation -> Id := (a: Allocation) => a.payment
  const ROW_AMOUNT: Allocation -> Cents := (a: Allocation) => a.amount

  // ----- line rounding -----

  /** Decimal rounding to the nearest integer, ties to even. */
  function RoundHalfEven(x: real): int {
    var low := x.Floor;
    var rest := x - low as real;
    if rest < 0.5 then low
    else if 0.5 < rest then low + 1
    else if low % 2 == 0 then low else low + 1
  }

  function ExactCents(line: Line): real {
    line.quantity * line.unitPrice * 100.0
  }

  function LineTotal(line: Line): Cents {
    RoundHalfEven(ExactCents(line))
  }

  const LINE_CENTS: Line -> Cents := (l: Line) => LineTotal(l)

  // ----- invoice status machine -----

  predicate PastDue(inv: Invoice, today: Day) {
    inv.dueDate.Some? && inv.dueDate.value < today
  }

  function RefreshOverdue(inv: Invoice, today: Day): Invoice {
    if inv.status in {Paid, Cancelled, Void, Draft} then inv
    else if PastDue(inv, today) && inv.amountPaid < inv.total then inv.(status := Overdue)
    else inv
  }

  function UpdatePaymentStatus(inv: Invoice, today: Day): Invoice {
    var marked :=
      if inv.total <= inv.amountPaid then inv.(status := Paid)
      else if 0 < inv.amountPaid then inv.(status := Partial)
      else inv;
    RefreshOverdue(marked, today)
  }

  function IssueInvoice(inv: Invoice, today: Day): Result<Invoice, Failure> {
    if inv.status != Draft then Err(Conflict)
    else Ok(RefreshOverdue(inv.(status := Issued), today))
  }

  function TransitionStatus(inv: Invoice, target: InvoiceStatus, today: Day): Result<Invoice, Failure> {
    if target == Issued && inv.status == Draft then IssueInvoice(inv, today)
    else if target in {Cancelled, Void} && 0 < inv.amountPaid then Err(Conflict)
    else Ok(RefreshOverdue(inv.(status := target), today))
  }

  // ----- allocation, stated on the books before the request -----

  function TotalOf(items: seq<Item>): Cents {
    Sum(items, ITEM_AMOUNT)
  }

  /** What the request gives to one invoice. */
  function AmountFor(items: seq<Item>, id: Id): Cents {
    Sum(items, Only(ITEM_INVOICE, ITEM_AMOUNT, id))
  }

  ghost predicate DistinctInvoices(items: seq<Item>) {
    forall i, j :: 0 <= i < j < |items| ==> items[i].invoice != items[j].invoice
  }

  predicate HasRow(rows: seq<Allocation>, payment: Id, invoice: Id) {
    exists k :: 0 <= k < |rows| && rows[k].payment == payment && rows[k].invoice == invoice
  }

  /** The item's own checks, against the books as they were before the request. */
  predicate ItemFits(b: Books, payment: Id, item: Item) {
    FitsNow(b.invoices, b.allocations, payment, item)
  }

  ghost predicate ItemsFit(b: Books, payment: Id, items: seq<Item>) {
    && DistinctInvoices(items)
    && forall i :: 0 <= i < |items| ==> ItemFits(b, payment, items[i])
  }

  predicate PaymentFits(b: Books, payment: Id, items: seq<Item>) {
    && payment in b.payments
    && var p := b.payments[payment];
       && p.status == Completed
       && TotalOf(items) <= p.amount - p.amountAllocated
  }

  /** The whole condition under which an allocation request succeeds. */
  ghost predicate Allocatable(b: Books, payment: Id, items: seq<Item>) {
    PaymentFits(b, payment, items) && ItemsFit(b, payment, items)
  }

  /** The checks of one round of the item loop, against the books as that round finds them. */
  predicate FitsNow(invoices: map<Id, Invoice>, rows: seq<Allocation>, payment: Id, item: Item) {
    && item.invoice in invoices
    && invoices[item.invoice].status !in {Draft, Cancelled, Void}
    && item.amount <= invoices[item.invoice].total - invoices[item.invoice].amountPaid
    && !HasRow(rows, payment, item.invoice)
  }

  /** What one round of the item loop makes of the invoice. */
  function Booked(inv: Invoice, amount: Cents, today: Day): Invoice {
    RefreshOverdue(UpdatePaymentStatus(inv.(amountPaid := inv.amountPaid + amount), today), today)
  }

  /** An invoice after receiving amount: paid, else overdue, else partial. */
  function Settled(inv: Invoice, amount: Cents, today: Day): Invoice {
    var paid := inv.amountPaid + amount;
    inv.(amountPaid := paid,
         status := if inv.total <= paid then Paid else if PastDue(inv, today) then Overdue else Partial)
  }

  function SettledInvoices(b: Books, items: seq<Item>, today: Day): (m: map<Id, Invoice>)
    ensures m.Keys == b.invoices.Keys
  {
    map id | id in b.invoices ::
      if 0 < AmountFor(items, id) then Settled(b.invoices[id], AmountFor(items, id), today)
      else b.invoices[id]
  }

  function NewRows(payment: Id, items: seq<Item>): (rows: seq<Allocation>)
    ensures |rows| == |items|
  {
    seq(|items|, i requires 0 <= i < |items| => Allocation(payment, items[i].invoice, items[i].amount))
  }

  /** The books after a successful allocation. */
  function Allocated(b: Books, payment: Id, items: seq<Item>, today: Day): Books
    requires payment in b.payments
  {
    var p := b.payments[payment];
    Books(SettledInvoices(b, items, today),
          b.payments[payment := p.(amountAllocated := p.amountAllocated + TotalOf(items))],
          b.allocations + NewRows(payment, items))
  }

  /** The first item that fails names an invoice that does not exist. */
  ghost predicate MeetsMissingInvoice(b: Books, payment: Id, items: seq<Item>) {
    exists k :: 0 <= k < |items| && ItemsFit(b, payment, items[..k]) && items[k].invoice !in b.invoices
  }

  /** The first check that fails is the lookup of a row that does not exist. */
  ghost predicate FailsOnMissingRow(b: Books, payment: Id, items: seq<Item>) {
    payment !in b.payments || (PaymentFits(b, payment, items) && MeetsMissingInvoice(b, payment, items))
  }

  // ----- whole requests -----

  function DraftInvoice(lines: seq<Line>, due: Option<Day>): Invoice {
    Invoice(Draft, Sum(lines, LINE_CENTS), 0, due)
  }

  function NewInvoice(lines: seq<Line>, due: Option<Day>, issue: bool, today: Day): Invoice {
    var inv := DraftInvoice(lines, due);
    if issue then IssueInvoice(inv, today).value else inv
  }

  function UpdatedInvoice(inv: Invoice, status: Option<InvoiceStatus>, due: Option<Day>, today: Day)
    : Result<Invoice, Failure>
  {
    var moved := if status.Some? then TransitionStatus(inv, status.value, today) else Ok(inv);
    if moved.Err? then moved
    else
      var dated := if due.Some? then moved.value.(dueDate := due) else moved.value;
      Ok(RefreshOverdue(dated, today))
  }

  /** One request against the books; a request that raises leaves them as they were. */
  ghost function Step(b: Books, request: Request, today: Day): Books {
    match request
    case CreateInvoice(id, lines, due, issue) =>
      if id in b.invoices then b
      else b.(invoices := b.invoices[id := NewInvoice(lines, due, issue, today)])
    case UpdateInvoice(id, status, due) =>
      if id !in b.invoices then b
      else
        var r := UpdatedInvoice(b.invoices[id], status, due, today);
        if r.Err? then b else b.(invoices := b.invoices[id := r.value])
    case CreatePayment(id, amount, status) =>
      if id in b.payments then b
      else b.(payments := b.payments[id := Payment(status, amount, 0)])
    case Allocate(payment, items) =>
      if Allocatable(b, payment, items) then Allocated(b, payment, items, today) else b
  }

  /** The books after a run of requests, each on its own day. */
  ghost function Run(requests: seq<(Request, Day)>): Books {
    if requests == [] then Books(map[], map[], [])
    else
      var n := |requests| - 1;
      Step(Run(requests[..n]), requests[n].0, requests[n].1)
  }

  // ----- what every run keeps -----

  function PaidFromRows(b: Books, invoice: Id): Cents {
    Sum(b.allocations, Only(ROW_INVOICE, ROW_AMOUNT, invoice))
  }

  function SpentFromRows(b: Books, payment: Id): Cents {
    Sum(b.allocations, Only(ROW_PAYMENT, ROW_AMOUNT, payment))
  }

  ghost predicate RowsSound(b: Books) {
    && (forall i :: 0 <= i < |b.allocations| ==>
          b.allocations[i].payment in b.payments && b.allocations[i].invoice in b.invoices)
    && (forall i, j :: 0 <= i < j < |b.allocations| ==>
          b.allocations[i].payment != b.allocations[j].payment ||
          b.allocations[i].invoice != b.allocations[j].invoice)
  }

  predicate InvoiceSound(inv: Invoice) {
    && 0 <= inv.amountPaid
    && (inv.amountPaid == 0 || inv.amountPaid <= inv.total)
    && (inv.status in {Cancelled, Void} ==> inv.amountPaid == 0)
  }

  ghost predicate Consistent(b: Books) {
    && RowsSound(b)
    && (forall id :: id in b.invoices ==>
          InvoiceSound(b.invoices[id]) && b.invoices[id].amountPaid == PaidFromRows(b, id))
    && (forall id :: id in b.payments ==>
          b.payments[id].amountAllocated == SpentFromRows(b, id) <= b.payments[id].amount)
  }

  ghost function TotalAllocated(b: Books): Cents {
    SumOver(b.payments.Keys, (id: Id) => if id in b.payments then b.payments[id].amountAllocated else 0)
  }

  ghost function TotalPaid(b: Books): Cents {
    SumOver(b.invoices.Keys, (id: Id) => if id in b.invoices then b.invoices[id].amountPaid else 0)
  }

  // ----- receivables -----

  predicate IsReceivable(inv: Invoice) {
    inv.status in {Issued, Sent, Partial, Overdue}
  }

  function Balance(inv: Invoice): Cents {
    inv.total - inv.amountPaid
  }

  /** What one invoice adds to the outstanding total. */
  function OpenBalance(inv: Invoice): Cents {
    if IsReceivable(inv) && 0 < Balance(inv) then Balance(inv) else 0
  }

  function OpenBalanceIn(invoices: map<Id, Invoice>): Id -> Cents {
    (id: Id) => if id in invoices then OpenBalance(invoices[id]) else 0
  }

  ghost function Outstanding(b: Books): Cents {
    SumOver(b.invoices.Keys, OpenBalanceIn(b.invoices))
  }

  datatype Receivable = Receivable(id: Id, balance: Cents, isOverdue: bool)

  const RECEIVABLE_BALANCE: Receivable -> Cents := (r: Receivable) => r.balance
  const OVERDUE_BALANCE: Receivable -> Cents := (r: Receivable) => if r.isOverdue then r.balance else 0
  const OVERDUE_COUNT: Receivable -> int := (r: Receivable) => if r.isOverdue then 1 else 0

  /** The query lists every receivable invoice once. */
  ghost predicate ListsReceivables(b: Books, rows: seq<Id>) {
    && (forall i, j :: 0 <= i < j < |rows| ==> rows[i] != rows[j])
    && (forall k :: 0 <= k < |rows| ==> rows[k] in b.invoices && IsReceivable(b.invoices[rows[k]]))
    && (forall id :: id in b.invoices && IsReceivable(b.invoices[id]) ==> id in rows)
  }

  /** The receivables view over the listed rows: those with money still to come, in the same order. */
  function ReceivablesOf(invoices: map<Id, Invoice>, rows: seq<Id>, today: Day): seq<Receivable>
    requires forall k :: 0 <= k < |rows| ==> rows[k] in invoices
  {
    if rows == [] then []
    else
      var n := |rows| - 1;
      var inv := invoices[rows[n]];
      var head := ReceivablesOf(invoices, rows[..n], today);
      if 0 < Balance(inv) then head + [Receivable(rows[n], Balance(inv), PastDue(inv, today) && inv.status != Paid)]
      else head
  }
}
