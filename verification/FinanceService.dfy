/**
 * The finance service over its three tables. Every method leaves the tables as they were when it
 * fails: the route commits only after the call returns.
 */
module FinanceService {
  import opened Common
  import opened Sums
  import opened FinanceModel
  import opened FinanceProperties

  datatype Summary = Summary(outstanding: Cents, open: nat, overdue: int, overdueAmount: Cents)

  class Service {
    var invoices: map<Id, Invoice>
    var payments: map<Id, Payment>
    var allocations: seq<Allocation>

    ghost function View(): Books
      reads this
    {
      Books(invoices, payments, allocations)
    }

    constructor ()
      ensures View() == Run([]) && Consistent(View())
    {
      invoices, payments, allocations := map[], map[], [];
    }

    method CreateInvoice(id: Id, lines: seq<Line>, due: Option<Day>, issue: bool, today: Day)
      returns (r: Result<Invoice, Failure>)
      modifies this
      ensures View() == Step(old(View()), Request.CreateInvoice(id, lines, due, issue), today)
      ensures r.Err? <==> id in old(invoices)
      ensures r.Ok? ==> id in invoices && r.value == invoices[id]
    {
      if id in invoices { return Err(DuplicateKey); }
      var subtotal := 0;
      for n := 0 to |lines|
        invariant subtotal == Sum(lines[..n], LINE_CENTS)
      {
        assert lines[..n + 1][..n] == lines[..n];
        subtotal := subtotal + LineTotal(lines[n]);
      }
      assert lines[..|lines|] == lines;
      var invoice := Invoice(Draft, subtotal, 0, due);
      if issue {
        var issued := IssueInvoice(invoice, today);
        invoice := issued.value;
      }
      invoices := invoices[id := invoice];
      r := Ok(invoice);
    }

    method UpdateInvoice(id: Id, status: Option<InvoiceStatus>, due: Option<Day>, today: Day)
      returns (r: Result<Invoice, Failure>)
      modifies this
      ensures View() == Step(old(View()), Request.UpdateInvoice(id, status, due), today)
      ensures r.Ok? ==> id in invoices && r.value == invoices[id]
      ensures r == Err(NotFound) <==> id !in old(invoices)
      ensures r == Err(Conflict) <==>
        && id in old(invoices)
        && (status == Some(Cancelled) || status == Some(Void))
        && 0 < old(invoices)[id].amountPaid
    {
      if id !in invoices { return Err(NotFound); }
      var invoice := invoices[id];
      if status.Some? {
        var moved := TransitionStatus(invoice, status.value, today);
        if moved.Err? { return moved; }
        invoice := moved.value;
      }
      if due.Some? {
        invoice := invoice.(dueDate := due);
      }
      invoice := RefreshOverdue(invoice, today);
      invoices := invoices[id := invoice];
      r := Ok(invoice);
    }

    method CreatePayment(id: Id, amount: PositiveCents, status: PaymentStatus, today: Day)
      returns (r: Result<Payment, Failure>)
      modifies this
      ensures View() == Step(old(View()), Request.CreatePayment(id, amount, status), today)
      ensures r.Err? <==> id in old(payments)
      ensures r.Ok? ==> id in payments && r.value == payments[id]
    {
      if id in payments { return Err(DuplicateKey); }
      payments := payments[id := Payment(status, amount, 0)];
      r := Ok(payments[id]);
    }

    /**
     * Checks the payment, then checks and books the items one by one; the payment row is updated
     * last. A failure on any item undoes the items before it.
     */
    method AllocatePayment(payment: Id, items: seq<Item>, today: Day)
      returns (r: Result<Payment, Failure>)
      requires Consistent(View())
      modifies this
      ensures r.Ok? <==> Allocatable(old(View()), payment, items)
      ensures r == Err(NotFound) <==> FailsOnMissingRow(old(View()), payment, items)
      ensures View() == Step(old(View()), Allocate(payment, items), today)
      ensures Consistent(View())
      ensures r.Ok? ==> payment in payments && r.value == payments[payment]
    {
      StepKeepsConsistent(View(), Allocate(payment, items), today);
      if payment !in payments { return Err(NotFound); }
      var p := payments[payment];
      if p.status != Completed { return Err(Conflict); }
      var totalNew := RequestTotal(items);
      if p.amount - p.amountAllocated < totalNew { return Err(Conflict); }

      var savedInvoices, savedAllocations := invoices, allocations;
      var failure := BookItems(payment, items, today);
      if failure.Some? {
        invoices, allocations := savedInvoices, savedAllocations;
        return Err(failure.value);
      }
      payments := payments[payment := p.(amountAllocated := p.amountAllocated + totalNew)];
      r := Ok(payments[payment]);
    }

    static method RequestTotal(items: seq<Item>) returns (total: Cents)
      ensures total == TotalOf(items)
    {
      total := 0;
      for n := 0 to |items|
        invariant total == TotalOf(items[..n])
      {
        assert items[..n + 1][..n] == items[..n];
        total := total + items[n].amount;
      }
      assert items[..|items|] == items;
    }

    /** The item loop of an allocation; on failure the items before the failing one are still booked. */
    method BookItems(payment: Id, items: seq<Item>, today: Day) returns (failure: Option<Failure>)
      requires Consistent(View())
      modifies this`invoices, this`allocations
      ensures failure.None? <==> ItemsFit(old(View()), payment, items)
      ensures failure == Some(NotFound) <==> MeetsMissingInvoice(old(View()), payment, items)
      ensures failure.Some? ==> failure.value in {NotFound, Conflict}
      ensures failure.None? ==>
        && invoices == SettledInvoices(old(View()), items, today)
        && allocations == old(allocations) + NewRows(payment, items)
    {
      failure := None;
      ghost var before := View();
      assert SettledInvoices(before, [], today) == before.invoices;
      for n := 0 to |items|
        invariant failure.None? && ItemsFit(before, payment, items[..n])
        invariant invoices == SettledInvoices(before, items[..n], today)
        invariant allocations == before.allocations + NewRows(payment, items[..n])
      {
        assert items[..n + 1] == items[..n] + [items[n]];
        ItemCheckIsFaithful(before, payment, items[..n], items[n], today);
        failure := BookItem(payment, items[n], today);
        if failure.Some? {
          FirstFailureDecides(before, payment, items, n);
          return;
        }
        BookingOneItem(before, payment, items[..n], items[n], today);
      }
      assert items[..|items|] == items;
      AllItemsKnown(before, payment, items);
    }

    /** One round of the item loop. */
    method BookItem(payment: Id, item: Item, today: Day) returns (failure: Option<Failure>)
      modifies this`invoices, this`allocations
      ensures failure.None? <==> FitsNow(old(invoices), old(allocations), payment, item)
      ensures failure.Some? ==>
        && failure.value == (if item.invoice in old(invoices) then Conflict else NotFound)
        && invoices == old(invoices) && allocations == old(allocations)
      ensures failure.None? ==>
        && invoices == old(invoices)[item.invoice := Booked(old(invoices)[item.invoice], item.amount, today)]
        && allocations == old(allocations) + [Allocation(payment, item.invoice, item.amount)]
    {
      if item.invoice !in invoices { return Some(NotFound); }
      var invoice := invoices[item.invoice];
      if invoice.status in {Draft, Cancelled, Void} { return Some(Conflict); }
      var balance := invoice.total - invoice.amountPaid;
      if balance < item.amount { return Some(Conflict); }
      if HasRow(allocations, payment, item.invoice) { return Some(Conflict); }
      allocations := allocations + [Allocation(payment, item.invoice, item.amount)];
      invoice := invoice.(amountPaid := invoice.amountPaid + item.amount);
      invoice := UpdatePaymentStatus(invoice, today);
      invoice := RefreshOverdue(invoice, today);
      invoices := invoices[item.invoice := invoice];
      failure := None;
    }

    /** The rows come from the receivables query: each receivable invoice once, in some order. */
    method ListReceivables(rows: seq<Id>, today: Day) returns (result: seq<Receivable>)
      requires ListsReceivables(View(), rows)
      ensures result == ReceivablesOf(invoices, rows, today)
    {
      result := [];
      for n := 0 to |rows|
        invariant result == ReceivablesOf(invoices, rows[..n], today)
      {
        assert rows[n] in rows;
        assert rows[..n + 1][..n] == rows[..n];
        var invoice := invoices[rows[n]];
        var balance := invoice.total - invoice.amountPaid;
        if 0 < balance {
          result := result + [Receivable(rows[n], balance, PastDue(invoice, today) && invoice.status != Paid)];
        }
      }
      assert rows[..|rows|] == rows;
    }

    method GetSummary(rows: seq<Id>, today: Day) returns (s: Summary)
      requires ListsReceivables(View(), rows)
      ensures s.outstanding == Outstanding(View())
      ensures s.open == |ReceivablesOf(invoices, rows, today)|
      ensures s.overdueAmount == Sum(ReceivablesOf(invoices, rows, today), OVERDUE_BALANCE)
      ensures s.overdue == Sum(ReceivablesOf(invoices, rows, today), OVERDUE_COUNT)
    {
      var receivables := ListReceivables(rows, today);
      var outstanding, overdueCount, overdueAmount := 0, 0, 0;
      for n := 0 to |receivables|
        invariant outstanding == Sum(receivables[..n], RECEIVABLE_BALANCE)
        invariant overdueCount == Sum(receivables[..n], OVERDUE_COUNT)
        invariant overdueAmount == Sum(receivables[..n], OVERDUE_BALANCE)
      {
        var row := receivables[n];
        assert receivables[..n + 1][..n] == receivables[..n];
        outstanding := outstanding + row.balance;
        if row.isOverdue {
          overdueCount := overdueCount + 1;
          overdueAmount := overdueAmount + row.balance;
        }
      }
      assert receivables[..|receivables|] == receivables;
      ReceivablesAddUp(View(), rows, today);
      s := Summary(outstanding, |receivables|, overdueCount, overdueAmount);
    }
  }
}
