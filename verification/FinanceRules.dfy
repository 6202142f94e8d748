/** What each request of the ledger does, and when it goes through, stated on the rows themselves. */
module FinanceRules {
  import opened Common
  import opened Sums
  import opened FinanceModel
  import opened FinanceProperties

  // ----- only money that arrived is given out -----

  ghost predicate OnlyCompletedGive(b: Books) {
    && (forall id :: id in b.payments && b.payments[id].amountAllocated != 0 ==> b.payments[id].status == Completed)
    && (forall k :: 0 <= k < |b.allocations| ==>
          b.allocations[k].payment in b.payments && b.payments[b.allocations[k].payment].status == Completed)
  }

  lemma StepGivesCompleted(b: Books, request: Request, today: Day)
    requires OnlyCompletedGive(b)
    ensures OnlyCompletedGive(Step(b, request, today))
  {
    if request.Allocate? && Allocatable(b, request.payment, request.items) {
      var after := Step(b, request, today);
      assert b.payments[request.payment].status == Completed;
      forall k | 0 <= k < |after.allocations|
        ensures after.allocations[k].payment in after.payments
        ensures after.payments[after.allocations[k].payment].status == Completed
      {
        if k < |b.allocations| { assert after.allocations[k] == b.allocations[k]; }
      }
    }
  }

  /** On every run only completed payments have given anything, or stand in a row. */
  lemma OnlyCompletedPaymentsGive(requests: seq<(Request, Day)>)
    ensures
      var b := Run(requests);
      && (forall id :: id in b.payments && b.payments[id].amountAllocated != 0 ==> b.payments[id].status == Completed)
      && (forall k :: 0 <= k < |b.allocations| ==>
            b.allocations[k].payment in b.payments && b.payments[b.allocations[k].payment].status == Completed)
  {
    RunGivesCompleted(requests);
  }

  lemma {:induction false} RunGivesCompleted(requests: seq<(Request, Day)>)
    ensures OnlyCompletedGive(Run(requests))
  {
    if requests != [] {
      var n := |requests| - 1;
      RunGivesCompleted(requests[..n]);
      StepGivesCompleted(Run(requests[..n]), requests[n].0, requests[n].1);
    }
  }

  // ----- when an allocation goes through -----

  /** An invoice that can take this much more, by the rows booked to it. */
  ghost predicate TakesMore(b: Books, invoice: Id, amount: Cents) {
    && invoice in b.invoices
    && b.invoices[invoice].status in {Issued, Sent, Partial, Paid, Overdue}
    && PaidFromRows(b, invoice) + amount <= b.invoices[invoice].total
  }

  ghost predicate AlreadyGives(b: Books, payment: Id, invoice: Id) {
    exists k :: 0 <= k < |b.allocations| && b.allocations[k].payment == payment && b.allocations[k].invoice == invoice
  }

  /**
   * In every reachable state an allocation goes through exactly when the payment is known and
   * completed, what it gave so far and the items together do not exceed its amount, no invoice is named
   * twice, and each named invoice is open to payments, can take its amount, and has no row of this
   * payment yet.
   */
  lemma AllocationGoesThroughIff(requests: seq<(Request, Day)>, payment: Id, items: seq<Item>)
    ensures
      var b := Run(requests);
      Allocatable(b, payment, items) <==>
        && payment in b.payments && b.payments[payment].status == Completed
        && SpentFromRows(b, payment) + Sum(items, (i: Item) => i.amount) <= b.payments[payment].amount
        && (forall i, j :: 0 <= i < j < |items| ==> items[i].invoice != items[j].invoice)
        && (forall k :: 0 <= k < |items| ==>
              TakesMore(b, items[k].invoice, items[k].amount) && !AlreadyGives(b, payment, items[k].invoice))
  {
    EveryRunIsConsistent(requests);
    var b := Run(requests);
    SameTotal(items);
    forall k | 0 <= k < |items|
      ensures ItemFits(b, payment, items[k]) <==>
        TakesMore(b, items[k].invoice, items[k].amount) && !AlreadyGives(b, payment, items[k].invoice)
    {
      FitsByRows(b, payment, items[k]);
    }
  }

  lemma {:induction false} SameTotal(items: seq<Item>)
    ensures TotalOf(items) == Sum(items, (i: Item) => i.amount)
  {
    if items != [] { SameTotal(items[..|items| - 1]); }
  }

  lemma SameRow(b: Books, payment: Id, invoice: Id)
    ensures HasRow(b.allocations, payment, invoice) <==> AlreadyGives(b, payment, invoice)
  {
    var rows := b.allocations;
    if HasRow(rows, payment, invoice) {
      var k :| 0 <= k < |rows| && rows[k].payment == payment && rows[k].invoice == invoice;
      assert b.allocations[k].payment == payment;
    }
    if AlreadyGives(b, payment, invoice) {
      var k :| 0 <= k < |b.allocations| && b.allocations[k].payment == payment && b.allocations[k].invoice == invoice;
      assert rows[k].payment == payment;
    }
  }

  lemma OpenToPayments(inv: Invoice)
    ensures inv.status in {Issued, Sent, Partial, Paid, Overdue} <==> inv.status !in {Draft, Cancelled, Void}
  {
    var s := inv.status;
    assert s.Draft? || s.Issued? || s.Sent? || s.Partial? || s.Paid? || s.Overdue? || s.Cancelled? || s.Void?;
  }

  lemma FitsByRows(b: Books, payment: Id, item: Item)
    requires Consistent(b)
    ensures ItemFits(b, payment, item) <==>
      TakesMore(b, item.invoice, item.amount) && !AlreadyGives(b, payment, item.invoice)
  {
    SameRow(b, payment, item.invoice);
    if item.invoice in b.invoices {
      var inv := b.invoices[item.invoice];
      assert inv.amountPaid == PaidFromRows(b, item.invoice);
      OpenToPayments(inv);
    }
  }

  // ----- what a new and an edited invoice are -----

  /** Money is open on the invoice and the day it was due is over. */
  predicate Late(inv: Invoice, due: Option<Day>, today: Day) {
    due.Some? && due.value < today && inv.amountPaid < inv.total
  }

  /** A new invoice is a draft, or once issued is Issued or at once Overdue; its total is the sum of its lines. */
  lemma NewInvoiceIs(b: Books, id: Id, lines: seq<Line>, due: Option<Day>, issue: bool, today: Day)
    requires id !in b.invoices
    ensures
      var after := Step(b, CreateInvoice(id, lines, due, issue), today);
      && id in after.invoices && after == b.(invoices := b.invoices[id := after.invoices[id]])
      && var inv := after.invoices[id];
         && inv.total == Sum(lines, (l: Line) => LineTotal(l)) && inv.amountPaid == 0 && inv.dueDate == due
         && inv.status == (if !issue then Draft else if Late(inv, due, today) then Overdue else Issued)
  {
    SameLineSum(lines);
  }

  lemma {:induction false} SameLineSum(lines: seq<Line>)
    ensures Sum(lines, LINE_CENTS) == Sum(lines, (l: Line) => LineTotal(l))
  {
    if lines != [] { SameLineSum(lines[..|lines| - 1]); }
  }

  /**
   * An edit is refused exactly when it would cancel or void an invoice with money on it. Otherwise the
   * given due date is stored, amounts stay, and the status is the one asked for, or kept, but Overdue
   * where that is an open status and the invoice is late by its old date (if a status is given) or its new one.
   */
  lemma EditedInvoiceIs(b: Books, id: Id, status: Option<InvoiceStatus>, due: Option<Day>, today: Day)
    requires id in b.invoices
    ensures
      var inv := b.invoices[id];
      var after := Step(b, UpdateInvoice(id, status, due), today);
      if (status == Some(Cancelled) || status == Some(Void)) && 0 < inv.amountPaid then after == b
      else
        && id in after.invoices && after == b.(invoices := b.invoices[id := after.invoices[id]])
        && var next := after.invoices[id];
           var wanted := if status.Some? then status.value else inv.status;
           && next.total == inv.total && next.amountPaid == inv.amountPaid
           && next.dueDate == (if due.Some? then due else inv.dueDate)
           && next.status ==
                (if wanted in {Issued, Sent, Partial, Overdue}
                    && ((status.Some? && Late(inv, inv.dueDate, today)) || Late(inv, next.dueDate, today))
                 then Overdue else wanted)
  {
  }

  /** Whole quantities at whole cents cost what they should. */
  lemma WholeLineTotal(quantity: int, cents: int)
    requires 0 < quantity
    ensures LineTotal(Line(quantity as real, cents as real / 100.0)) == quantity * cents
  {
    var line := Line(quantity as real, cents as real / 100.0);
    Regroup(line.quantity, line.unitPrice);
    assert line.unitPrice * 100.0 == cents as real;
    WholeProduct(quantity, cents);
    assert ExactCents(line) == (quantity * cents) as real;
    RoundsToNearestEven(ExactCents(line), quantity * cents);
  }

  lemma Regroup(a: real, b: real)
    ensures a * b * 100.0 == a * (b * 100.0)
  {
  }

  lemma WholeProduct(a: int, b: int)
    ensures (a * b) as real == a as real * b as real
  {
  }

  /** The amount of a line is the nearest whole number of cents to quantity times price, ties to even. */
  lemma LineIsNearestCent(line: Line, cents: int)
    ensures cents == LineTotal(line) <==>
      var error := cents as real - line.quantity * line.unitPrice * 100.0;
      -0.5 < error < 0.5 || ((error == 0.5 || error == -0.5) && cents % 2 == 0)
  {
    RoundsToNearestEven(line.quantity * line.unitPrice * 100.0, cents);
  }

  // ----- the receivables and the summary, from the rows -----

  predicate IsOpen(inv: Invoice) {
    inv.status in {Issued, Sent, Partial, Overdue} && inv.amountPaid < inv.total
  }

  /** The view has one entry for each open invoice, with what is missing and whether the due date is over. */
  lemma ReceivablesAre(b: Books, rows: seq<Id>, today: Day, r: Receivable)
    requires ListsReceivables(b, rows)
    ensures r in ReceivablesOf(b.invoices, rows, today) <==>
      && r.id in b.invoices && IsOpen(b.invoices[r.id])
      && var inv := b.invoices[r.id];
         r.balance == inv.total - inv.amountPaid && (r.isOverdue <==> Late(inv, inv.dueDate, today))
  {
    ReceivablesAreTheOpenInvoices(b, rows, today);
    assert r.id in rows ==> r.id in b.invoices && IsReceivable(b.invoices[r.id]) by {
      if r.id in rows { var k :| 0 <= k < |rows| && rows[k] == r.id; }
    }
  }

  /** What an entry for this invoice weighs, if there is one. */
  function Weighed(invoices: map<Id, Invoice>, today: Day, w: Receivable -> int): Id -> int {
    (id: Id) =>
      if id in invoices && IsOpen(invoices[id]) then
        var inv := invoices[id];
        w(Receivable(id, inv.total - inv.amountPaid, Late(inv, inv.dueDate, today)))
      else 0
  }

  lemma {:induction false} WeighRows(b: Books, rows: seq<Id>, today: Day, w: Receivable -> int)
    requires forall k :: 0 <= k < |rows| ==> rows[k] in b.invoices && IsReceivable(b.invoices[rows[k]])
    ensures Sum(ReceivablesOf(b.invoices, rows, today), w) == Sum(rows, Weighed(b.invoices, today, w))
  {
    if rows != [] {
      var n := |rows| - 1;
      WeighRows(b, rows[..n], today, w);
      var head := ReceivablesOf(b.invoices, rows[..n], today);
      var inv := b.invoices[rows[n]];
      SumSnoc(head, Receivable(rows[n], Balance(inv), PastDue(inv, today) && inv.status != Paid), w);
    }
  }

  lemma WeighAll(b: Books, rows: seq<Id>, today: Day, w: Receivable -> int)
    requires ListsReceivables(b, rows)
    ensures Sum(ReceivablesOf(b.invoices, rows, today), w) == SumOver(b.invoices.Keys, Weighed(b.invoices, today, w))
  {
    WeighRows(b, rows, today, w);
    SumOverSequence(b.invoices.Keys, rows, Weighed(b.invoices, today, w));
  }

  ghost function OpenIds(b: Books): set<Id> {
    set id | id in b.invoices && IsOpen(b.invoices[id])
  }

  ghost function LateIds(b: Books, today: Day): set<Id> {
    set id | id in b.invoices && IsOpen(b.invoices[id]) && Late(b.invoices[id], b.invoices[id].dueDate, today)
  }

  ghost function MissingOn(b: Books): Id -> Cents {
    (id: Id) => if id in b.invoices then b.invoices[id].total - b.invoices[id].amountPaid else 0
  }

  lemma {:induction false} SumOverPart<K>(keys: set<K>, part: set<K>, f: K -> int, g: K -> int)
    requires part <= keys && forall k :: k in keys ==> f(k) == if k in part then g(k) else 0
    ensures SumOver(keys, f) == SumOver(part, g)
    decreases |part|
  {
    if part == {} {
      SumOverNothing(keys, f);
    } else {
      var k :| k in part;
      SumOverRemove(keys, f, k);
      SumOverRemove(part, g, k);
      SumOverPart(keys - {k}, part - {k}, f, g);
    }
  }

  lemma SumOverNothing<K>(keys: set<K>, f: K -> int)
    requires forall k :: k in keys ==> f(k) == 0
    ensures SumOver(keys, f) == 0
  {
    SumOverZeroIff(keys, f);
  }

  lemma {:induction false} SumOverOnes<K>(keys: set<K>, f: K -> int)
    requires forall k :: k in keys ==> f(k) == 1
    ensures SumOver(keys, f) == |keys|
    decreases |keys|
  {
    if keys != {} {
      var k :| k in keys;
      SumOverRemove(keys, f, k);
      SumOverOnes(keys - {k}, f);
    }
  }

  lemma {:induction false} SumOfOnes<T>(xs: seq<T>, w: T -> int)
    requires forall x :: x in xs ==> w(x) == 1
    ensures Sum(xs, w) == |xs|
  {
    if xs != [] { SumOfOnes(xs[..|xs| - 1], w); }
  }

  /** The summary's figures: over the open invoices, and over those of them whose due date is over. */
  lemma SummaryFigures(b: Books, rows: seq<Id>, today: Day)
    requires ListsReceivables(b, rows)
    ensures Outstanding(b) == SumOver(OpenIds(b), MissingOn(b))
    ensures |ReceivablesOf(b.invoices, rows, today)| == |OpenIds(b)|
    ensures Sum(ReceivablesOf(b.invoices, rows, today), OVERDUE_BALANCE) == SumOver(LateIds(b, today), MissingOn(b))
    ensures Sum(ReceivablesOf(b.invoices, rows, today), OVERDUE_COUNT) == |LateIds(b, today)|
  {
    var keys, view := b.invoices.Keys, ReceivablesOf(b.invoices, rows, today);
    var one := (r: Receivable) => 1;
    var ones := (id: Id) => 1;
    forall id | id in keys
      ensures OpenBalanceIn(b.invoices)(id) == if id in OpenIds(b) then MissingOn(b)(id) else 0
    {
      assert OpenBalanceIn(b.invoices)(id) == OpenBalance(b.invoices[id]);
    }
    SumOverPart(keys, OpenIds(b), OpenBalanceIn(b.invoices), MissingOn(b));
    WeighAll(b, rows, today, one);
    SumOfOnes(view, one);
    SumOverPart(keys, OpenIds(b), Weighed(b.invoices, today, one), ones);
    SumOverOnes(OpenIds(b), ones);
    WeighAll(b, rows, today, OVERDUE_BALANCE);
    SumOverPart(keys, LateIds(b, today), Weighed(b.invoices, today, OVERDUE_BALANCE), MissingOn(b));
    WeighAll(b, rows, today, OVERDUE_COUNT);
    SumOverPart(keys, LateIds(b, today), Weighed(b.invoices, today, OVERDUE_COUNT), ones);
    SumOverOnes(LateIds(b, today), ones);
  }
}
