/** A run of requests after which the outstanding total goes the wrong way. */
module FinanceRuns {
  import opened Common
  import opened Sums
  import opened FinanceModel

  lemma OneMore(requests: seq<(Request, Day)>, request: Request, today: Day)
    ensures Run(requests + [(request, today)]) == Step(Run(requests), request, today)
  {
    var all := requests + [(request, today)];
    assert all[..|requests|] == requests;
  }

  function OneInvoice(id: Id, inv: Invoice, payments: map<Id, Payment>, rows: seq<Allocation>): Books {
    Books(map[id := inv], payments, rows)
  }

  lemma OneInvoiceOutstanding(id: Id, inv: Invoice, payments: map<Id, Payment>, rows: seq<Allocation>)
    ensures Outstanding(OneInvoice(id, inv, payments, rows)) == OpenBalance(inv)
  {
    var b := OneInvoice(id, inv, payments, rows);
    SumOverOnly(b.invoices.Keys, id, OpenBalance(inv), OpenBalanceIn(b.invoices));
  }

  const HUNDRED: seq<Line> := [Line(1.0, 100.0)]

  lemma HundredIsTenThousandCents()
    ensures Sum(HUNDRED, LINE_CENTS) == 10000
  {
    assert ExactCents(HUNDRED[0]) == 10000.0;
    assert HUNDRED[..0] == [];
  }

  /** An invoice of 100.00 is issued, and set to PAID by hand; a payment of 50.00 comes in. */
  function PaidByHand(): seq<(Request, Day)> {
    [(CreateInvoice(1, HUNDRED, None, true), 0), (UpdateInvoice(1, Some(Paid), None), 0)]
    + [(CreatePayment(2, 5000, Completed), 0)]
  }

  /** Its tables afterwards. */
  function PaidBooks(amount: PositiveCents, total: Cents): Books {
    OneInvoice(1, Invoice(Paid, total, 0, None), map[2 := Payment(Completed, amount, 0)], [])
  }

  lemma AfterPaidByHand()
    ensures Run(PaidByHand()) == PaidBooks(5000, 10000)
  {
    HundredIsTenThousandCents();
    var create := (CreateInvoice(1, HUNDRED, None, true), 0);
    var update := (UpdateInvoice(1, Some(Paid), None), 0);
    OneMore([], create.0, 0);
    assert [] + [create] == [create];
    OneMore([create], update.0, 0);
    assert [create] + [update] == [create, update];
    OneMore([create, update], CreatePayment(2, 5000, Completed), 0);
  }

  lemma AllocatedToPaid(amount: PositiveCents, total: Cents)
    requires amount < total
    ensures Allocatable(PaidBooks(amount, total), 2, [Item(1, amount)])
    ensures Allocated(PaidBooks(amount, total), 2, [Item(1, amount)], 0).invoices
         == map[1 := Invoice(Partial, total, amount, None)]
  {
    var items := [Item(1, amount)];
    assert [] + items == items;
    SumSnoc([], items[0], ITEM_AMOUNT);
    SumSnoc([], items[0], Only(ITEM_INVOICE, ITEM_AMOUNT, 1));
    assert TotalOf(items) == amount && AmountFor(items, 1) == amount;
  }

  lemma OutstandingReopened(amount: PositiveCents, total: Cents)
    requires amount < total
    ensures Outstanding(PaidBooks(amount, total)) == 0
    ensures Outstanding(Allocated(PaidBooks(amount, total), 2, [Item(1, amount)], 0)) == total - amount
  {
    var before := PaidBooks(amount, total);
    OneInvoiceOutstanding(1, before.invoices[1], before.payments, before.allocations);
    AllocatedToPaid(amount, total);
    var after := Allocated(before, 2, [Item(1, amount)], 0);
    OneInvoiceOutstanding(1, after.invoices[1], after.payments, after.allocations);
  }

  lemma AllocateNext(requests: seq<(Request, Day)>, payment: Id, items: seq<Item>)
    requires Allocatable(Run(requests), payment, items)
    ensures Run(requests + [(Allocate(payment, items), 0)]) == Allocated(Run(requests), payment, items, 0)
  {
    OneMore(requests, Allocate(payment, items), 0);
  }

  /** Allocating the payment to that invoice raises the outstanding total instead of lowering it. */
  lemma PaidInvoiceIsReopened()
    ensures
      var before := Run(PaidByHand());
      var after := Run(PaidByHand() + [(Allocate(2, [Item(1, 5000)]), 0)]);
      Allocatable(before, 2, [Item(1, 5000)]) && Outstanding(before) == 0 && Outstanding(after) == 5000
  {
    AfterPaidByHand();
    AllocatedToPaid(5000, 10000);
    OutstandingReopened(5000, 10000);
    AllocateNext(PaidByHand(), 2, [Item(1, 5000)]);
  }
}
