/** What the ledger guarantees: conservation, order independence, status safety, rounding. */
module FinanceProperties {
  import opened Common
  import opened Sums
  import opened FinanceModel

  // ----- one allocation item -----

  lemma AmountForSnoc(items: seq<Item>, item: Item, id: Id)
    ensures AmountFor(items + [item], id)
         == AmountFor(items, id) + if item.invoice == id then item.amount else 0
  {
    SumSnoc(items, item, Only(ITEM_INVOICE, ITEM_AMOUNT, id));
  }

  /** Only invoices named in the request receive anything, and each named one does. */
  lemma {:induction false} AmountForNamed(items: seq<Item>, id: Id)
    ensures 0 <= AmountFor(items, id)
    ensures 0 < AmountFor(items, id) <==> exists k :: 0 <= k < |items| && items[k].invoice == id
  {
    if items != [] {
      var n := |items| - 1;
      assert items == items[..n] + [items[n]];
      AmountForNamed(items[..n], id);
      AmountForSnoc(items[..n], items[n], id);
      if k :| 0 <= k < |items| && items[k].invoice == id {
        if k < n { assert items[..n][k].invoice == id; }
      }
    }
  }

  /** In a request without repeats each named invoice receives its own item's amount. */
  lemma {:induction false} AmountForDistinct(items: seq<Item>, k: nat)
    requires DistinctInvoices(items) && k < |items|
    ensures AmountFor(items, items[k].invoice) == items[k].amount
  {
    var n := |items| - 1;
    assert items == items[..n] + [items[n]];
    AmountForSnoc(items[..n], items[n], items[k].invoice);
    if k < n {
      AmountForDistinct(items[..n], k);
    } else {
      AmountForNamed(items[..n], items[k].invoice);
    }
  }

  /** Recomputing the status right after the payment status changes nothing. */
  lemma RefreshIsIdempotent(inv: Invoice, today: Day)
    ensures RefreshOverdue(RefreshOverdue(inv, today), today) == RefreshOverdue(inv, today)
    ensures RefreshOverdue(UpdatePaymentStatus(inv, today), today) == UpdatePaymentStatus(inv, today)
  {
  }

  /**
   * Checking an item against the half-updated books, as the loop does, decides the same as checking
   * it against the original books and the items already taken.
   */
  lemma ItemCheckIsFaithful(b: Books, payment: Id, taken: seq<Item>, item: Item, today: Day)
    requires Consistent(b) && ItemsFit(b, payment, taken)
    ensures
      ItemsFit(b, payment, taken + [item]) <==>
      FitsNow(SettledInvoices(b, taken, today), b.allocations + NewRows(payment, taken), payment, item)
  {
    var id := item.invoice;
    var rows := b.allocations + NewRows(payment, taken);
    var all := taken + [item];
    AmountForNamed(taken, id);
    if k :| 0 <= k < |taken| && taken[k].invoice == id {
      assert all[k].invoice == all[|taken|].invoice;
      assert rows[|b.allocations| + k].invoice == id;
    } else {
      assert HasRow(rows, payment, id) <==> HasRow(b.allocations, payment, id) by {
        if HasRow(b.allocations, payment, id) {
          var k :| 0 <= k < |b.allocations| && b.allocations[k].payment == payment && b.allocations[k].invoice == id;
          assert rows[k] == b.allocations[k];
        }
        assert forall k :: |b.allocations| <= k < |rows| ==> rows[k].invoice == taken[k - |b.allocations|].invoice;
        if HasRow(rows, payment, id) {
          var k :| 0 <= k < |rows| && rows[k].payment == payment && rows[k].invoice == id;
        }
      }
      if ItemsFit(b, payment, all) { assert ItemFits(b, payment, all[|taken|]); }
    }
  }

  /** One round of the loop body extends the settled invoices by one item. */
  lemma BookingOneItem(b: Books, payment: Id, taken: seq<Item>, item: Item, today: Day)
    requires Consistent(b) && ItemsFit(b, payment, taken + [item])
    ensures
      var now := SettledInvoices(b, taken, today);
      && item.invoice in now
      && SettledInvoices(b, taken + [item], today)
         == now[item.invoice := Booked(now[item.invoice], item.amount, today)]
    ensures NewRows(payment, taken + [item])
         == NewRows(payment, taken) + [Allocation(payment, item.invoice, item.amount)]
  {
    var all := taken + [item];
    assert ItemFits(b, payment, all[|taken|]);
    AmountForNamed(taken, item.invoice);
    assert AmountFor(taken, item.invoice) == 0 by {
      forall k | 0 <= k < |taken| ensures taken[k].invoice != item.invoice {
        assert all[k].invoice != all[|taken|].invoice;
      }
    }
    forall id | id in b.invoices
      ensures AmountFor(all, id) == AmountFor(taken, id) + if item.invoice == id then item.amount else 0
    {
      AmountForSnoc(taken, item, id);
    }
  }

  /** Dropping items from the end keeps what fits, so a failing prefix dooms the whole request. */
  lemma ItemsFitPrefix(b: Books, payment: Id, items: seq<Item>, n: nat)
    requires n <= |items|
    ensures ItemsFit(b, payment, items) ==> ItemsFit(b, payment, items[..n])
  {
    var head := items[..n];
    assert forall i :: 0 <= i < n ==> head[i] == items[i];
  }

  lemma NotAllocatableBeyond(b: Books, payment: Id, items: seq<Item>, n: nat)
    requires n < |items| && !ItemsFit(b, payment, items[..n + 1])
    ensures !ItemsFit(b, payment, items)
    ensures forall k :: n < k <= |items| ==> !ItemsFit(b, payment, items[..k])
  {
    forall k | n < k <= |items| ensures !ItemsFit(b, payment, items[..k]) {
      var head := items[..k];
      assert head[..n + 1] == items[..n + 1];
      ItemsFitPrefix(b, payment, head, n + 1);
    }
    assert items[..|items|] == items;
  }

  lemma AllItemsKnown(b: Books, payment: Id, items: seq<Item>)
    requires ItemsFit(b, payment, items)
    ensures !MeetsMissingInvoice(b, payment, items)
    ensures forall k :: 0 <= k < |items| ==> items[k].invoice in b.invoices
  {
    assert forall k :: 0 <= k < |items| ==> ItemFits(b, payment, items[k]);
  }

  lemma FirstFailureDecides(b: Books, payment: Id, items: seq<Item>, n: nat)
    requires n < |items| && ItemsFit(b, payment, items[..n]) && !ItemsFit(b, payment, items[..n + 1])
    ensures !ItemsFit(b, payment, items)
    ensures MeetsMissingInvoice(b, payment, items) <==> items[n].invoice !in b.invoices
  {
    NotAllocatableBeyond(b, payment, items, n);
    AllItemsKnown(b, payment, items[..n]);
    assert forall k :: 0 <= k < n ==> items[k].invoice == items[..n][k].invoice;
  }

  // ----- conservation -----

  lemma {:induction false} NewRowsByInvoice(payment: Id, items: seq<Item>, id: Id)
    ensures Sum(NewRows(payment, items), Only(ROW_INVOICE, ROW_AMOUNT, id)) == AmountFor(items, id)
  {
    if items != [] {
      var n := |items| - 1;
      NewRowsByInvoice(payment, items[..n], id);
      assert NewRows(payment, items)[..n] == NewRows(payment, items[..n]);
    }
  }

  lemma {:induction false} NewRowsByPayment(payment: Id, items: seq<Item>, id: Id)
    ensures Sum(NewRows(payment, items), Only(ROW_PAYMENT, ROW_AMOUNT, id))
         == if id == payment then TotalOf(items) else 0
  {
    if items != [] {
      var n := |items| - 1;
      NewRowsByPayment(payment, items[..n], id);
      assert NewRows(payment, items)[..n] == NewRows(payment, items[..n]);
    }
  }

  lemma AllocatedKeepsRowsSound(b: Books, payment: Id, items: seq<Item>, today: Day)
    requires RowsSound(b) && Allocatable(b, payment, items)
    ensures RowsSound(Allocated(b, payment, items, today))
  {
    var rows := Allocated(b, payment, items, today).allocations;
    var n := |b.allocations|;
    forall i | 0 <= i < |rows| ensures rows[i].payment in b.payments && rows[i].invoice in b.invoices {
      if n <= i { assert ItemFits(b, payment, items[i - n]); }
    }
    forall i, j | 0 <= i < j < |rows|
      ensures rows[i].payment != rows[j].payment || rows[i].invoice != rows[j].invoice
    {
      if n <= j {
        assert ItemFits(b, payment, items[j - n]);
        if n <= i {
          assert items[i - n].invoice != items[j - n].invoice;
        } else {
          assert !HasRow(b.allocations, payment, items[j - n].invoice);
          assert rows[i] == b.allocations[i];
        }
      }
    }
  }

  /** An invoice named in a request that succeeds can take what it is given. */
  lemma GivenAmountFits(b: Books, payment: Id, items: seq<Item>, id: Id)
    requires ItemsFit(b, payment, items) && 0 < AmountFor(items, id)
    ensures id in b.invoices && b.invoices[id].status !in {Draft, Cancelled, Void}
    ensures AmountFor(items, id) <= b.invoices[id].total - b.invoices[id].amountPaid
  {
    AmountForNamed(items, id);
    var k :| 0 <= k < |items| && items[k].invoice == id;
    AmountForDistinct(items, k);
    assert ItemFits(b, payment, items[k]);
  }

  lemma AllocatedKeepsConsistent(b: Books, payment: Id, items: seq<Item>, today: Day)
    requires Consistent(b)
    ensures Allocatable(b, payment, items) ==> Consistent(Allocated(b, payment, items, today))
  {
    if Allocatable(b, payment, items) {
      var after := Allocated(b, payment, items, today);
      AllocatedKeepsRowsSound(b, payment, items, today);
      forall id | id in after.invoices
        ensures InvoiceSound(after.invoices[id]) && after.invoices[id].amountPaid == PaidFromRows(after, id)
      {
        SumConcat(b.allocations, NewRows(payment, items), Only(ROW_INVOICE, ROW_AMOUNT, id));
        NewRowsByInvoice(payment, items, id);
        AmountForNamed(items, id);
        if 0 < AmountFor(items, id) {
          GivenAmountFits(b, payment, items, id);
        }
      }
      forall id | id in after.payments
        ensures after.payments[id].amountAllocated == SpentFromRows(after, id) <= after.payments[id].amount
      {
        SumConcat(b.allocations, NewRows(payment, items), Only(ROW_PAYMENT, ROW_AMOUNT, id));
        NewRowsByPayment(payment, items, id);
      }
    }
  }

  /** Rows never mention an id that is not in its table, so a new row starts with nothing booked. */
  lemma UnusedIdsHaveNoRows(b: Books, id: Id)
    requires RowsSound(b)
    ensures id !in b.invoices ==> PaidFromRows(b, id) == 0
    ensures id !in b.payments ==> SpentFromRows(b, id) == 0
  {
    if id !in b.invoices { SumZero(b.allocations, Only(ROW_INVOICE, ROW_AMOUNT, id)); }
    if id !in b.payments { SumZero(b.allocations, Only(ROW_PAYMENT, ROW_AMOUNT, id)); }
  }

  lemma StepKeepsConsistent(b: Books, request: Request, today: Day)
    requires Consistent(b)
    ensures Consistent(Step(b, request, today))
  {
    var after := Step(b, request, today);
    match request
    case Allocate(payment, items) =>
      AllocatedKeepsConsistent(b, payment, items, today);
    case _ =>
      UnusedIdsHaveNoRows(b, request.id);
      assert after.allocations == b.allocations;
      assert forall id :: PaidFromRows(after, id) == PaidFromRows(b, id);
      assert forall id :: SpentFromRows(after, id) == SpentFromRows(b, id);
  }

  /**
   * On every run, each payment's and each invoice's running amount is the sum of its own rows, no
   * payment is spent beyond its amount and no invoice is paid beyond its total.
   */
  lemma {:induction false} EveryRunIsConsistent(requests: seq<(Request, Day)>)
    ensures Consistent(Run(requests))
  {
    if requests != [] {
      var n := |requests| - 1;
      EveryRunIsConsistent(requests[..n]);
      StepKeepsConsistent(Run(requests[..n]), requests[n].0, requests[n].1);
    }
  }

  /** On every run, what payments have given equals what invoices have received. */
  lemma NothingLostBetweenPaymentsAndInvoices(requests: seq<(Request, Day)>)
    ensures
      var b := Run(requests);
      TotalAllocated(b) == Sum(b.allocations, ROW_AMOUNT) == TotalPaid(b)
  {
    var b := Run(requests);
    EveryRunIsConsistent(requests);
    GroupingKeepsTotal(b.allocations, ROW_PAYMENT, ROW_AMOUNT, b.payments.Keys);
    GroupingKeepsTotal(b.allocations, ROW_INVOICE, ROW_AMOUNT, b.invoices.Keys);
    forall id | id in b.payments
      ensures PerKey(b.allocations, ROW_PAYMENT, ROW_AMOUNT)(id) == b.payments[id].amountAllocated
    {
      assert b.payments[id].amountAllocated == SpentFromRows(b, id);
    }
    forall id | id in b.invoices
      ensures PerKey(b.allocations, ROW_INVOICE, ROW_AMOUNT)(id) == b.invoices[id].amountPaid
    {
      assert b.invoices[id].amountPaid == PaidFromRows(b, id);
    }
    SumOverAgree(b.payments.Keys, PerKey(b.allocations, ROW_PAYMENT, ROW_AMOUNT),
      (id: Id) => if id in b.payments then b.payments[id].amountAllocated else 0);
    SumOverAgree(b.invoices.Keys, PerKey(b.allocations, ROW_INVOICE, ROW_AMOUNT),
      (id: Id) => if id in b.invoices then b.invoices[id].amountPaid else 0);
  }

  /** On every run, no invoice is at the same time cancelled and paid, and none is overpaid. */
  lemma CancelledInvoicesHoldNoMoney(requests: seq<(Request, Day)>, id: Id)
    requires id in Run(requests).invoices
    ensures
      var inv := Run(requests).invoices[id];
      && (inv.status in {Cancelled, Void} ==> inv.amountPaid == 0)
      && 0 <= inv.amountPaid
      && (0 <= inv.total ==> inv.amountPaid <= inv.total)
      && (inv.total < 0 ==> inv.amountPaid == 0)
  {
    EveryRunIsConsistent(requests);
  }

  // ----- order independence -----

  lemma {:induction false} NamedCount(items: seq<Item>, id: Id)
    ensures 0 <= Sum(items, NamesInvoice(id)) <= |items|
    ensures 0 < Sum(items, NamesInvoice(id)) <==> exists k :: 0 <= k < |items| && items[k].invoice == id
  {
    if items != [] {
      var n := |items| - 1;
      NamedCount(items[..n], id);
      if k :| 0 <= k < |items| && items[k].invoice == id {
        if k < n { assert items[..n][k].invoice == id; }
      }
    }
  }

  function NamesInvoice(id: Id): Item -> int {
    (i: Item) => if i.invoice == id then 1 else 0
  }

  /** A request names no invoice twice exactly when no invoice is counted twice. */
  lemma {:induction false} DistinctByCount(items: seq<Item>)
    ensures DistinctInvoices(items) <==> forall id :: Sum(items, NamesInvoice(id)) <= 1
  {
    if items != [] {
      var n := |items| - 1;
      var head, last := items[..n], items[n];
      assert items == head + [last];
      DistinctByCount(head);
      forall id
        ensures Sum(items, NamesInvoice(id)) == Sum(head, NamesInvoice(id)) + if last.invoice == id then 1 else 0
      {
        SumSnoc(head, last, NamesInvoice(id));
      }
      NamedCount(head, last.invoice);
      if DistinctInvoices(items) {
        forall k | 0 <= k < n ensures head[k].invoice != last.invoice {
          assert items[k].invoice != items[n].invoice;
        }
        assert DistinctInvoices(head) by {
          assert forall i :: 0 <= i < n ==> head[i] == items[i];
        }
        forall id ensures Sum(items, NamesInvoice(id)) <= 1 {
          assert Sum(head, NamesInvoice(id)) <= 1;
        }
      }
      if forall id :: Sum(items, NamesInvoice(id)) <= 1 {
        assert forall id :: Sum(head, NamesInvoice(id)) <= Sum(items, NamesInvoice(id));
        assert DistinctInvoices(head);
        assert Sum(items, NamesInvoice(last.invoice)) <= 1;
        forall i, j | 0 <= i < j < |items| ensures items[i].invoice != items[j].invoice {
          if j < n { assert head[i].invoice != head[j].invoice; } else { assert head[i] == items[i]; }
        }
      }
    }
  }

  lemma ItemsFitPermutes(b: Books, payment: Id, items: seq<Item>, others: seq<Item>)
    requires multiset(items) == multiset(others) && ItemsFit(b, payment, items)
    ensures ItemsFit(b, payment, others)
  {
    DistinctByCount(items);
    DistinctByCount(others);
    forall id ensures Sum(others, NamesInvoice(id)) <= 1 {
      SumPermutation(items, others, NamesInvoice(id));
    }
    forall i | 0 <= i < |others| ensures ItemFits(b, payment, others[i]) {
      assert others[i] in multiset(items);
    }
  }

  lemma {:induction false} NewRowsMultiset(payment: Id, items: seq<Item>, row: Allocation)
    ensures multiset(NewRows(payment, items))[row]
         == if row.payment == payment then multiset(items)[Item(row.invoice, row.amount)] else 0
  {
    if items != [] {
      var n := |items| - 1;
      NewRowsMultiset(payment, items[..n], row);
      assert items == items[..n] + [items[n]];
      assert NewRows(payment, items)
          == NewRows(payment, items[..n]) + [Allocation(payment, items[n].invoice, items[n].amount)];
    }
  }

  lemma SettledInvoicesPermute(b: Books, items: seq<Item>, others: seq<Item>, today: Day)
    requires multiset(items) == multiset(others)
    ensures SettledInvoices(b, items, today) == SettledInvoices(b, others, today)
  {
    forall id | id in b.invoices ensures AmountFor(items, id) == AmountFor(others, id) {
      SumPermutation(items, others, Only(ITEM_INVOICE, ITEM_AMOUNT, id));
    }
  }

  lemma NewRowsPermute(payment: Id, items: seq<Item>, others: seq<Item>)
    requires multiset(items) == multiset(others)
    ensures multiset(NewRows(payment, items)) == multiset(NewRows(payment, others))
  {
    forall row ensures multiset(NewRows(payment, items))[row] == multiset(NewRows(payment, others))[row] {
      NewRowsMultiset(payment, items, row);
      NewRowsMultiset(payment, others, row);
    }
  }

  /** Whether a request succeeds does not depend on the order of its items. */
  lemma AllocatableIgnoresItemOrder(b: Books, payment: Id, items: seq<Item>, others: seq<Item>)
    requires multiset(items) == multiset(others)
    ensures Allocatable(b, payment, items) <==> Allocatable(b, payment, others)
  {
    SumPermutation(items, others, ITEM_AMOUNT);
    if ItemsFit(b, payment, items) { ItemsFitPermutes(b, payment, items, others); }
    if ItemsFit(b, payment, others) { ItemsFitPermutes(b, payment, others, items); }
  }

  /**
   * The order of the items does not matter: either both requests fail, or both succeed with the
   * same invoices, the same payment and the same rows up to their order.
   */
  lemma AllocationIgnoresItemOrder(
    b: Books, payment: Id, items: seq<Item>, others: seq<Item>, today: Day)
    requires multiset(items) == multiset(others)
    ensures Allocatable(b, payment, items) <==> Allocatable(b, payment, others)
    ensures payment in b.payments ==>
      var one, two := Allocated(b, payment, items, today), Allocated(b, payment, others, today);
      && one.invoices == two.invoices
      && one.payments == two.payments
      && multiset(one.allocations) == multiset(two.allocations)
  {
    AllocatableIgnoresItemOrder(b, payment, items, others);
    SumPermutation(items, others, ITEM_AMOUNT);
    SettledInvoicesPermute(b, items, others, today);
    NewRowsPermute(payment, items, others);
  }

  /** After an allocation each touched invoice is paid, else overdue, else partial; the rest is untouched. */
  lemma StatusAfterAllocation(b: Books, payment: Id, items: seq<Item>, today: Day, id: Id)
    requires Consistent(b) && Allocatable(b, payment, items) && id in b.invoices
    ensures
      var old', new' := b.invoices[id], Allocated(b, payment, items, today).invoices[id];
      if exists k :: 0 <= k < |items| && items[k].invoice == id then
        && old'.amountPaid < new'.amountPaid <= new'.total
        && (new'.status == Paid <==> new'.amountPaid == new'.total)
        && (new'.status == Overdue <==>
              new'.amountPaid < new'.total && old'.dueDate.Some? && old'.dueDate.value < today)
        && (new'.status == Partial <==>
              new'.amountPaid < new'.total && (old'.dueDate.None? || today <= old'.dueDate.value))
        && new'.total == old'.total && new'.dueDate == old'.dueDate
        && (forall k :: 0 <= k < |items| && items[k].invoice == id ==>
              new'.amountPaid == old'.amountPaid + items[k].amount)
      else new' == old'
  {
    AmountForNamed(items, id);
    if 0 < AmountFor(items, id) {
      GivenAmountFits(b, payment, items, id);
    }
    forall k | 0 <= k < |items| && items[k].invoice == id ensures AmountFor(items, id) == items[k].amount {
      AmountForDistinct(items, k);
    }
  }

  // ----- receivables -----

  lemma {:induction false} SumOverSequence(keys: set<Id>, rows: seq<Id>, f: Id -> Cents)
    requires forall i, j :: 0 <= i < j < |rows| ==> rows[i] != rows[j]
    requires forall id :: id in rows ==> id in keys
    requires forall id :: id in keys && id !in rows ==> f(id) == 0
    ensures SumOver(keys, f) == Sum(rows, f)
  {
    if rows == [] {
      forall id | id in keys ensures f(id) == 0 {
        assert id !in rows;
      }
      SumOverZeroIff(keys, f);
    } else {
      var n := |rows| - 1;
      var last := rows[n];
      SumOverRemove(keys, f, last);
      assert forall id :: id in rows[..n] ==> id in keys - {last};
      assert forall id :: id in rows ==> id == last || id in rows[..n];
      SumOverSequence(keys - {last}, rows[..n], f);
    }
  }

  /** Whatever order the query returns the receivable invoices in, they add up to the same total. */
  lemma ListingCoversOutstanding(b: Books, rows: seq<Id>)
    requires ListsReceivables(b, rows)
    ensures Sum(rows, OpenBalanceIn(b.invoices)) == Outstanding(b)
  {
    SumOverSequence(b.invoices.Keys, rows, OpenBalanceIn(b.invoices));
  }

  lemma {:induction false} ReceivablesSum(b: Books, rows: seq<Id>, today: Day)
    requires forall k :: 0 <= k < |rows| ==> rows[k] in b.invoices && IsReceivable(b.invoices[rows[k]])
    ensures Sum(ReceivablesOf(b.invoices, rows, today), RECEIVABLE_BALANCE) == Sum(rows, OpenBalanceIn(b.invoices))
  {
    if rows != [] {
      var n := |rows| - 1;
      ReceivablesSum(b, rows[..n], today);
      var head := ReceivablesOf(b.invoices, rows[..n], today);
      var inv := b.invoices[rows[n]];
      SumSnoc(head, Receivable(rows[n], Balance(inv), PastDue(inv, today) && inv.status != Paid), RECEIVABLE_BALANCE);
    }
  }

  /** The receivables view adds up to the outstanding total, in whatever order the rows come. */
  lemma ReceivablesAddUp(b: Books, rows: seq<Id>, today: Day)
    requires ListsReceivables(b, rows)
    ensures Sum(ReceivablesOf(b.invoices, rows, today), RECEIVABLE_BALANCE) == Outstanding(b)
  {
    ReceivablesSum(b, rows, today);
    ListingCoversOutstanding(b, rows);
  }

  /** The view shows exactly the invoices with an open balance, each with that balance. */
  lemma {:induction false} ReceivablesAreTheOpenInvoices(b: Books, rows: seq<Id>, today: Day)
    requires forall k :: 0 <= k < |rows| ==> rows[k] in b.invoices && IsReceivable(b.invoices[rows[k]])
    ensures forall r :: r in ReceivablesOf(b.invoices, rows, today) <==>
      && r.id in rows && 0 < OpenBalance(b.invoices[r.id]) == r.balance
      && (r.isOverdue <==> PastDue(b.invoices[r.id], today))
  {
    if rows != [] {
      var n := |rows| - 1;
      assert rows == rows[..n] + [rows[n]];
      ReceivablesAreTheOpenInvoices(b, rows[..n], today);
    }
  }

  /** What a request brings back into the receivables: open balances that were marked paid by hand. */
  function Reopened(b: Books, items: seq<Item>): Id -> Cents {
    (id: Id) =>
      if id in b.invoices && 0 < AmountFor(items, id) && !IsReceivable(b.invoices[id])
      then Balance(b.invoices[id]) else 0
  }

  lemma OneInvoiceOutstanding(b: Books, payment: Id, items: seq<Item>, today: Day, id: Id)
    requires Consistent(b) && Allocatable(b, payment, items) && id in b.invoices
    ensures 0 <= Reopened(b, items)(id)
    ensures OpenBalanceIn(SettledInvoices(b, items, today))(id)
         == OpenBalanceIn(b.invoices)(id) - AmountFor(items, id) + Reopened(b, items)(id)
  {
    AmountForNamed(items, id);
    if 0 < AmountFor(items, id) {
      GivenAmountFits(b, payment, items, id);
    }
  }

  lemma AmountsReachKnownInvoices(b: Books, payment: Id, items: seq<Item>)
    requires ItemsFit(b, payment, items)
    ensures SumOver(b.invoices.Keys, PerKey(items, ITEM_INVOICE, ITEM_AMOUNT)) == TotalOf(items)
  {
    forall i | i in items ensures ITEM_INVOICE(i) in b.invoices.Keys {
      var k :| 0 <= k < |items| && items[k] == i;
      assert ItemFits(b, payment, items[k]);
    }
    GroupingKeepsTotal(items, ITEM_INVOICE, ITEM_AMOUNT, b.invoices.Keys);
  }

  /** The general law: outstanding falls by the amount allocated and rises by what is reopened. */
  lemma OutstandingBalanceLaw(b: Books, payment: Id, items: seq<Item>, today: Day)
    requires Consistent(b) && Allocatable(b, payment, items)
    ensures Outstanding(Allocated(b, payment, items, today))
         == Outstanding(b) - TotalOf(items) + SumOver(b.invoices.Keys, Reopened(b, items))
  {
    var keys := b.invoices.Keys;
    var before := OpenBalanceIn(b.invoices);
    var after := OpenBalanceIn(SettledInvoices(b, items, today));
    var given := PerKey(items, ITEM_INVOICE, ITEM_AMOUNT);
    var reopened := Reopened(b, items);
    var plus := (id: Id) => before(id) + reopened(id);
    AmountsReachKnownInvoices(b, payment, items);
    SumOverAdd(keys, before, reopened, plus);
    forall id | id in keys ensures plus(id) == after(id) + given(id) {
      OneInvoiceOutstanding(b, payment, items, today, id);
    }
    SumOverAdd(keys, after, given, plus);
  }

  /**
   * A successful allocation lowers the outstanding total by exactly the amount allocated if and
   * only if every named invoice was receivable. An invoice set to PAID by hand with money still
   * open comes back into the list, and then the total falls by less.
   */
  lemma OutstandingFallsByAmountIff(b: Books, payment: Id, items: seq<Item>, today: Day)
    requires Consistent(b) && Allocatable(b, payment, items)
    ensures Outstanding(Allocated(b, payment, items, today)) == Outstanding(b) - TotalOf(items)
      <==> forall k :: 0 <= k < |items| ==> IsReceivable(b.invoices[items[k].invoice])
  {
    var keys := b.invoices.Keys;
    OutstandingBalanceLaw(b, payment, items, today);
    forall id | id in keys ensures 0 <= Reopened(b, items)(id) {
      OneInvoiceOutstanding(b, payment, items, today, id);
    }
    SumOverZeroIff(keys, Reopened(b, items));
    forall k | 0 <= k < |items|
      ensures items[k].invoice in keys
      ensures IsReceivable(b.invoices[items[k].invoice]) <==> Reopened(b, items)(items[k].invoice) == 0
    {
      assert ItemFits(b, payment, items[k]);
      AmountForNamed(items, items[k].invoice);
    }
    forall id | id in keys && Reopened(b, items)(id) != 0
      ensures exists k :: 0 <= k < |items| && !IsReceivable(b.invoices[items[k].invoice])
    {
      AmountForNamed(items, id);
    }
  }

  // ----- rounding -----

  /** The rounded value is the one integer within half a unit; a tie goes to the even neighbour. */
  lemma RoundsToNearestEven(x: real, n: int)
    ensures n == RoundHalfEven(x) <==>
      || -0.5 < n as real - x < 0.5
      || ((n as real - x == 0.5 || n as real - x == -0.5) && n % 2 == 0)
  {
    var low := x.Floor;
    assert low as real <= x < low as real + 1.0;
    var d := n as real - x;
    if -0.5 <= d <= 0.5 {
      assert low <= n <= low + 1 by {
        assert (n - low) as real > -1.0;
        assert (n - low) as real < 2.0;
      }
    }
  }

  lemma NegatedProduct(a: real, b: real)
    ensures a * -b == -(a * b)
  {
  }

  lemma RoundingIsOdd(x: real)
    ensures RoundHalfEven(-x) == -RoundHalfEven(x)
  {
    RoundsToNearestEven(x, RoundHalfEven(x));
    RoundsToNearestEven(-x, -RoundHalfEven(x));
  }

  /** Negating the price negates the line: a line and its reversal cancel exactly. */
  lemma ReversalCancels(line: Line)
    ensures LineTotal(line) + LineTotal(line.(unitPrice := -line.unitPrice)) == 0
  {
    var twin := line.(unitPrice := -line.unitPrice);
    assert ExactCents(twin) == -ExactCents(line) by {
      NegatedProduct(line.quantity, line.unitPrice);
    }
    RoundingIsOdd(ExactCents(line));
  }

  ghost function ExactTotal(lines: seq<Line>): real {
    if lines == [] then 0.0 else ExactTotal(lines[..|lines| - 1]) + ExactCents(lines[|lines| - 1])
  }

  /** The total of a new invoice is within half a cent per line of the exact sum of its products. */
  lemma {:induction false} InvoiceRoundingBound(lines: seq<Line>, due: Option<Day>)
    ensures
      var error := DraftInvoice(lines, due).total as real - ExactTotal(lines);
      -(|lines| as real) <= 2.0 * error <= |lines| as real
    ensures (forall k :: 0 <= k < |lines| ==> ExactCents(lines[k]) == ExactCents(lines[k]).Floor as real) ==>
      DraftInvoice(lines, due).total as real == ExactTotal(lines)
  {
    if lines != [] {
      var n := |lines| - 1;
      InvoiceRoundingBound(lines[..n], due);
      RoundsToNearestEven(ExactCents(lines[n]), LineTotal(lines[n]));
      if forall k :: 0 <= k < |lines| ==> ExactCents(lines[k]) == ExactCents(lines[k]).Floor as real {
        forall k | 0 <= k < n ensures ExactCents(lines[..n][k]) == ExactCents(lines[..n][k]).Floor as real {
          assert lines[..n][k] == lines[k];
        }
        RoundsToNearestEven(ExactCents(lines[n]), ExactCents(lines[n]).Floor);
      }
    }
  }
}
