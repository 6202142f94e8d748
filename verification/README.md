# Verified models of the business core

Dafny models of the parts of the platform that keep state or take text and bytes apart, with proofs
about every input and every run. `dafny verify dfyconfig.toml` checks the whole project.

Where the source changes rows or variables step by step, the model does too: service classes whose
methods update tables, loops with invariants, each proved against a specification function. What the
source promises is then proved about those functions and about runs of requests. A request that
raises is never committed, so in the model it leaves the tables as they were.

| Part | Files |
|---|---|
| Finance ledger: invoices, payments, allocations, receivables | FinanceModel, FinanceService, FinanceProperties, FinanceRules, FinanceRuns |
| Booking holds: overlap search, row locks, sweeps and status changes as reads and writes, their interleaving | BookingModel, BookingProperties, BookingSweeps, BookingLocks, BookingDeadlock, BookingRings, BookingSafety, BookingExact, BookingRules, BookingRuns |
| AI proposals: human approval, execution, expiry, usage | AiModel, AiService, AiProperties, AiRules, AiRuns |
| Module registry: dependency guard, plans | ModuleModel, ModuleService, ModuleProperties, ModulePlans, CodeOrder |
| Envelope format and sealing, secret references, key ring | EnvelopeAad, Envelope, Utf8, SecretRefs, Urls, UuidText, KekRing, Base64, Integers, Decimals |
| Text: post splitter, line wrapper, markdown converter, document templates | ThreadsSplitter, TextWrap, TextWrapProperties, Markdown, MarkdownLines, MarkdownProperties, Templates, TemplateProperties, Text |
| Shared | Common, Sums |

## What the proofs found

Places where the code does less than its intent. Each comes with an exact condition, and with a
concrete input or run on which the code falls short.

- Booking: a status change reads the order without locking it, checks the status it read, and writes
  whatever the row has become. In `BookingRuns.TornRunDoubleBooks` a submit reads a hold in time, another
  request sweeps that hold away and takes its night, and the submit then writes PENDING_PAYMENT over
  EXPIRED: two orders block one object.
- Booking: `submit_for_payment` does not look at the hold's deadline either. In
  `BookingRuns.LateRunDoubleBooks` a hold is committed after its own deadline (the request waited between
  its check and its commit) and is submitted later, with the same result.
- Booking: these are the only ways. `BookingSafety.DoubleBookingNeedsTornOrLateSteps` shows that every
  double booking has a torn write, or both a late commit and a late write; `BookingExact.NeverDoubleBookedIff`
  says exactly which runs are free of double bookings; `BookingSafety.HoldsAloneNeverDoubleBook` that holds,
  sweeps, expiry and cancellation alone always are.
- Booking: the sweep, too, writes what it read. It frees a blocking order exactly when the last write to one
  of those it listed, since it read them, set a blocking status (`BookingSweeps.SweepFreesNothingIff`), as in
  `BookingRuns.SweepLosesSubmittedOrder`.
- Booking: the query for stale holds has no sort order, so sweeps can deadlock, any number of them. Requests
  about to sweep can come to a deadlock exactly when some of them form a ring with as many different orders,
  each stale for one request and for the next (`BookingRings.CanDeadlockIff`); a deadlock lasts until one of
  them gives up (`BookingRings.DeadlockLasts`). Once listings are read, two of them can deadlock exactly when
  the first order of one that the other shares is not the first order of the other that the one shares
  (`BookingDeadlock.TwoSweepsCanDeadlockIff`); for more than two there is no such test by pairs
  (`BookingRings.ThreeWaitThoughPairsAgree`). With one fixed order there is no deadlock
  (`BookingLocks.SomeHoldCanStep`).
- Booking: a cart that names one object twice with different dates writes the last interval for both
  lines (`BookingProperties.PersistedAsRequestedIff`, `BookingRuns.SameObjectTwiceKeepsLastStay`).
- Finance: an invoice may be set to PAID by hand with money open; allocating to it brings it back into
  the receivables, and the outstanding total then falls by less than the amount allocated, or rises
  (`FinanceProperties.OutstandingFallsByAmountIff`, `FinanceRuns.PaidInvoiceIsReopened`).
- Modules: a status edit through PATCH has no dependency check (`ModuleProperties.PatchKeepsInvariantIff`,
  `ModuleProperties.PatchTakesDependency`, `ModuleProperties.PatchActivatesCycle`), and a module whose
  definition is inactive does not protect its dependencies (`ModuleProperties.AlwaysFullyClosedIff`,
  `ModuleProperties.InactiveDefinitionLosesDependency`).
- Modules: enabling a plan is meant to follow the dependencies, but the order is fixed for eight codes and as
  given for the others. Plans that bring all they require go through in every order exactly when each required
  module is one of the eight, and earlier than the one that requires it if that is one too
  (`ModulePlans.OrderIsDependencyOrderIff`). The shipped registry is of that kind
  (`ModulePlans.ShippedPlansSucceed`); `ModulePlans.PlanOrderMatters` is a registry that is not.
- AI: a late decision sets EXPIRED and raises, so EXPIRED is never committed and the proposal stays
  pending (`AiProperties.DecisionsMatchStatus`, `AiRuns.LateApprovalLeavesPending`); execution asks neither
  the deadline nor whether the agent is active (`AiProperties.ExecutionAllowedIff`,
  `AiRuns.LateExecutionOfInactiveAgent`).
- Key ring: the builder does not check the active version, so a ring built for version 0 does not parse
  (`KekRing.ParseBuilt`, `KekRing.BuiltButRefused`).
- Key ring: the decoder does not look at the two unused bits of a key's text. Two texts are the same key
  exactly when they agree in all other bits (`Base64.SameBytesIff`, `KekRing.SameRingIff`), so that every key
  has exactly four texts (`KekRing.FourTextsOneRing`).
- Post splitter: with a limit of 0 a round of the loop leaves the text as it was, and the loop never ends
  (`ThreadsSplitter.RoundProgressesIff`).

## Model

| member | source | states |
|---|---|---|
| FinanceService.Service.CreateInvoice | backend/app/modules/finance/service.py:60-144 | the line loop adds up each line rounded to cents; the tables become exactly what the request specifies |
| FinanceService.Service.UpdateInvoice | backend/app/modules/finance/service.py:146-169 | an invoice with money paid cannot become CANCELLED or VOID; exactly when it fails, and the whole new state |
| FinanceService.Service.CreatePayment | backend/app/modules/finance/service.py:192-221 | a new payment starts with nothing allocated |
| FinanceService.Service.AllocatePayment | backend/app/modules/finance/service.py:223-272 | the interleaved check-and-mutate loop succeeds exactly when the request as a whole is allocatable against the starting balances, and is all or nothing |
| FinanceService.Service.BookItems | backend/app/modules/finance/service.py:238-266 | the item loop: which failure wins, and what all items together do to invoices and rows |
| FinanceService.Service.BookItem | backend/app/modules/finance/service.py:239-266 | one round of the loop: the four checks, the row added, the invoice after it |
| FinanceRules.OnlyCompletedPaymentsGive | backend/app/modules/finance/service.py:229-231 | on every run only completed payments have given anything or stand in an allocation row |
| FinanceRules.AllocationGoesThroughIff | backend/app/modules/finance/service.py:229-258 | in every reachable state an allocation goes through exactly when the payment is completed, its rows and the items stay within its amount, and each invoice is open to payments, has room by its rows, is named once and has no row of this payment |
| FinanceRules.NewInvoiceIs | backend/app/modules/finance/service.py:60-144 | a new invoice is a draft, or issued and then Issued or Overdue; its total, due date and paid amount |
| FinanceRules.EditedInvoiceIs | backend/app/modules/finance/service.py:146-169 | when an edit is refused, and otherwise the due date stored, the amounts kept, and the status, Overdue where it is late |
| FinanceRules.LineIsNearestCent | backend/app/modules/finance/service.py:105-106 | a line is the nearest whole number of cents to quantity times price, ties to even |
| FinanceRules.WholeLineTotal | backend/app/modules/finance/service.py:105-106 | whole quantities at whole cents cost exactly their product |
| FinanceService.Service.ListReceivables | backend/app/modules/finance/service.py:274-300 | the loop returns the receivables view of the listed rows, keeping their order |
| FinanceService.Service.GetSummary | backend/app/modules/finance/service.py:302-316 | outstanding total, open count, overdue count and amount agree with the ledger |
| FinanceProperties.ItemCheckIsFaithful | backend/app/modules/finance/service.py:239-258 | the running check of an item, made after earlier items were booked, agrees with the check of the whole request |
| FinanceProperties.EveryRunIsConsistent | backend/app/modules/finance/service.py:223-272 | on every run each payment's allocated amount and each invoice's paid amount are the sums of their rows and within their limits |
| FinanceProperties.NothingLostBetweenPaymentsAndInvoices | backend/app/modules/finance/service.py:257-268 | on every run all that payments gave is all that invoices received |
| FinanceProperties.CancelledInvoicesHoldNoMoney | backend/app/modules/finance/service.py:327-335 | in every reachable state a CANCELLED or VOID invoice has nothing paid, and none is overpaid |
| FinanceProperties.AllocationIgnoresItemOrder | backend/app/modules/finance/service.py:233-270 | any order of the items gives the same verdict, invoices, payment, and rows up to order |
| FinanceProperties.StatusAfterAllocation | backend/app/modules/finance/service.py:337-354 | each touched invoice is PAID if fully paid, else OVERDUE if past due, else PARTIAL; the others are unchanged |
| FinanceProperties.RefreshIsIdempotent | backend/app/modules/finance/service.py:344-354 | refreshing the overdue status again changes nothing |
| FinanceProperties.ReceivablesAddUp | backend/app/modules/finance/service.py:274-316 | the receivables view adds up to the outstanding total, whatever order the rows come in |
| FinanceProperties.ReceivablesAreTheOpenInvoices | backend/app/modules/finance/repository.py:138-155 | the view shows exactly the receivable invoices with money open, each with its balance |
| FinanceRules.ReceivablesAre | backend/app/modules/finance/service.py:274-300 | one entry for each invoice in the four open statuses with money missing, with what is missing and whether its due date is over |
| FinanceRules.SummaryFigures | backend/app/modules/finance/service.py:302-316 | the outstanding total, the counts and the overdue amount are those of the open invoices and of the late ones |
| FinanceProperties.OutstandingBalanceLaw | backend/app/modules/finance/service.py:223-316 | an allocation lowers the outstanding total by its amount and raises it by what it reopens |
| FinanceProperties.OutstandingFallsByAmountIff | backend/app/modules/finance/service.py:223-316 | it falls by exactly the amount if and only if all named invoices were receivable |
| FinanceRuns.PaidInvoiceIsReopened | backend/app/modules/finance/service.py:327-342 | a run after which an allocation of 50.00 raises the outstanding total from nothing to 50.00 |
| FinanceProperties.RoundsToNearestEven | backend/app/modules/finance/service.py:105-106 | the rounded value is the one integer within half a unit, ties to even |
| FinanceProperties.ReversalCancels | backend/app/modules/finance/service.py:99-120 | a line and its price-negated twin add up to zero |
| FinanceProperties.InvoiceRoundingBound | backend/app/modules/finance/service.py:82-120 | the total of n lines is within n half-cents of the exact sum, and exact when all products are whole cents |
| BookingProperties.OverlapMeansSharedInstant | backend/app/modules/booking/repository.py:114-127 | the two-sided comparison holds exactly when both stays occupy one object at one instant |
| BookingProperties.OverlapSearchIsExact | backend/app/modules/booking/repository.py:103-132 | the SQL status filter followed by the blocking check returns exactly the active, overlapping items of blocking orders |
| BookingRules.BlocksIff | backend/app/modules/booking/repository.py:43-54 | an order blocks while it is to be paid, paid or confirmed, and as a hold until its deadline |
| BookingRules.SearchFinds | backend/app/modules/booking/repository.py:103-132 | the overlap search finds exactly the active items on the object at a common instant whose orders are in those statuses |
| BookingRules.LookupIsSearch | backend/app/modules/booking/service/hold.py:104-106 | a lookup goes on as free exactly when it was and the overlap search is empty |
| BookingRules.LookupGoesByKeptRows | backend/app/modules/booking/repository.py:125-132 | with rows kept by the session it filters on the stored statuses and asks the kept rows whether they block |
| BookingProperties.StaleHoldsDoNotBlock | backend/app/modules/booking/repository.py:134-154 | the stale holds are exactly the held orders with a deadline that no longer block |
| BookingSweeps.ListedBlocksIff | backend/app/modules/booking/service/hold.py:49-60 | an order that a sweep has listed blocks at a later instant exactly when the last write to it since set a blocking status |
| BookingSweeps.SweepFreesNothingIff | backend/app/modules/booking/service/hold.py:49-60 | a sweep's commit frees nothing that blocks if and only if no listed order was last given a blocking status between the sweep's read and its commit |
| BookingProperties.PersistedAsRequestedIff | backend/app/modules/booking/service/hold.py:139-161 | the written stays are the requested ones if and only if no object is asked for with two intervals |
| BookingRules.CommitHoldWrites | backend/app/modules/booking/service/hold.py:115-166 | a hold is written with its deadline, and one active item a line with the last stay asked for on its object; all else stays |
| BookingRules.WriteOrderWrites | backend/app/modules/booking/service/order.py:48-112 | a status change writes its target; submitting and expiring clear the deadline, cancelling frees the items |
| BookingProperties.NextIsWellFormed | backend/app/modules/booking/service/hold.py:40-166 | every step, with the sweep and the status change split into read and write, keeps both lock tables exclusive and the tables well formed |
| BookingProperties.ReachableIsWellFormed | backend/app/modules/booking/service/hold.py:40-166 | every reachable world is well formed |
| BookingLocks.LocksAllRowsIff | backend/app/modules/booking/repository.py:166-180 | the lock query returns as many rows as were named exactly when they all exist and are distinct |
| BookingLocks.SomeHoldCanStep | backend/app/modules/booking/service/hold.py:49-105 | no deadlock over order rows and object rows together, while the sweeps in progress go through their orders in the sense of one ranking |
| BookingLocks.EveryHoldCanFinish | backend/app/modules/booking/service/hold.py:40-113 | under that condition all requests can be brought to an end by their own steps alone |
| BookingDeadlock.MutualWaitMeansDifferentFirst | backend/app/modules/booking/service/hold.py:55-60 | two sweeps that wait for each other have listings whose first shared orders differ |
| BookingDeadlock.TwoSweepsCanDeadlockIff | backend/app/modules/booking/service/hold.py:49-60 | two sweeps that have read their listings can both come to wait if and only if the first shared orders differ |
| BookingDeadlock.TwoStaleOrdersCanDeadlock | backend/app/modules/booking/repository.py:142-154 | whenever two requests about to sweep see the same two stale orders, a run from there leaves both waiting for each other |
| BookingRings.DeadlockIsRing | backend/app/modules/booking/service/hold.py:49-105 | some requests all wait, and only for each other, exactly when sweeps wait in a ring; object rows have no part in it |
| BookingRings.DeadlockLasts | backend/app/modules/booking/service/hold.py:49-113 | whatever any request does, a deadlock lasts until one of those in it gives up |
| BookingRings.CanDeadlockIff | backend/app/modules/booking/repository.py:142-154 | requests of which none sweeps yet can come to a deadlock among themselves if and only if some form a ring with as many different orders, each stale for one and for the next |
| BookingRings.ThreeWaitThoughPairsAgree | backend/app/modules/booking/service/hold.py:55-60 | three sweeps that wait in a ring although each two agree on the first order they share |
| BookingSafety.DoubleBookingNeedsTornOrLateSteps | backend/app/modules/booking/service/order.py:48-67 | on every run no two orders block one object at one instant, unless the run writes over a row expired or cancelled since it was read, or has both a late commit and a late write |
| BookingRules.ReadAllowedIff | backend/app/modules/booking/service/order.py:17-33 | a status change passes its check exactly on the seven moves of the table |
| BookingRules.TornWriteFollowsChange | backend/app/modules/booking/service/order.py:48-61 | each torn write has an earlier read of the order by the same request that found it held, to be paid or paid, and a step in between that changed the row |
| BookingRules.UndividedMoves | backend/app/modules/booking/service/order.py:17-33 | where each write follows its read at once, a status stays or makes one of six moves; Expired comes only from Held, Cancelled only from Held or PendingPayment |
| BookingRules.FinalStatusesStay | backend/app/modules/booking/service/order.py:17-33 | in such runs expired, cancelled and confirmed orders stay so |
| BookingSafety.HoldsAloneNeverDoubleBook | backend/app/modules/booking/service/hold.py:64-113 | runs of holds, sweeps, expiry, cancellation and time never double book |
| BookingSafety.WriteIsSafeIff | backend/app/modules/booking/service/order.py:55-61 | writing a blocking status is safe if and only if the overlap search, run at the instant of the write, finds nothing |
| BookingSafety.BlockingOrderIsClear | backend/app/modules/booking/service/order.py:63-67 | while an order blocks, that search is empty |
| BookingRuns.TornRunDoubleBooks | backend/app/modules/booking/service/order.py:48-61 | a run with a torn submit and no late commit that ends in a double booking, although the search was empty when the submit read |
| BookingRuns.LateRunDoubleBooks | backend/app/modules/booking/service/order.py:63-67 | a run with a late commit and a late submit and no torn write that ends in a double booking |
| BookingRuns.SweepLosesSubmittedOrder | backend/app/modules/booking/service/hold.py:49-60 | a run in which a sweep expires an order submitted since it was listed |
| BookingRuns.SameObjectTwiceKeepsLastStay | backend/app/modules/booking/service/hold.py:139-161 | a run that commits a cart of two stays on one object as the second stay, twice |
| BookingExact.CommitIsSafeIff | backend/app/modules/booking/service/hold.py:104-110 | a commit is safe if and only if its stays are still free or its hold is born past its deadline |
| BookingExact.NeverDoubleBookedIff | backend/app/modules/booking/service/hold.py:40-113 | a run is free of double bookings throughout if and only if each write of a blocking status finds its stays free at that instant, and each hold does when committed or is past its deadline by then |
| AiService.Service.CreateTask | backend/app/modules/ai/service.py:117-146 | an inactive agent gets no task; tokens, the task row and, on a mock run, its proposal, or nothing at all |
| AiService.Service.RunMockTask | backend/app/modules/ai/service.py:346-386 | which action a task type proposes, and that the task ends completed |
| AiService.Service.CreateProposal | backend/app/modules/ai/service.py:167-199 | a pending proposal with its criticality and a seven-day deadline |
| AiRules.EveryProposalWasAskedFor | backend/app/modules/ai/service.py:167-199 | on every run each proposal was made by a request, with the agent, task and action it asked for (a task by its type), critical unless the action is none of the listed ones, and due seven days later |
| AiRules.AskedIsMade | backend/app/modules/ai/service.py:346-371 | a request that goes through makes the proposal, on its terms to the end of the run |
| AiRules.MadeOnce | backend/app/modules/ai/service.py:177-199 | no two requests make the same proposal |
| AiRules.ProposalAllowedIff | backend/app/modules/ai/service.py:172-175 | a proposal is taken for any known agent, active or not, with a known task or none |
| AiRules.TaskAllowedIff | backend/app/modules/ai/service.py:117-146 | a task is taken exactly for a known, active agent, and runs at once or stays pending |
| AiService.Service.EnsurePending | backend/app/modules/ai/service.py:388-401 | fails on a decided or late proposal and marks the late one before failing |
| AiService.Service.ApproveProposal | backend/app/modules/ai/service.py:201-238 | succeeds exactly on a pending proposal in time; one approval row, or no change at all |
| AiService.Service.RejectProposal | backend/app/modules/ai/service.py:240-276 | succeeds exactly on a pending proposal in time; one rejection row, or no change at all |
| AiService.Service.ExecuteProposal | backend/app/modules/ai/service.py:278-322 | the order of the checks, the executed row, and that soundness is kept |
| AiProperties.EveryRunIsSound | backend/app/modules/ai/service.py:201-322 | in every reachable state rows and statuses agree, and no proposal is EXPIRED or CANCELLED |
| AiProperties.DecisionsMatchStatus | backend/app/modules/ai/service.py:201-276 | no row while pending, exactly one agreeing row when approved or rejected, at most one approval when executed |
| AiProperties.FinalForever | backend/app/modules/ai/service.py:278-294 | a rejected or executed proposal and its decisions never change again |
| AiProperties.TermsNeverChange | backend/app/modules/ai/service.py:167-322 | agent, action, criticality and deadline of a proposal are fixed at creation |
| AiProperties.SignedIffApprovedInTime | backend/app/modules/ai/service.py:201-218 | an approval row exists exactly when the run approved the proposal while pending and in time |
| AiProperties.ExecutedMeansApprovedOrWaived | backend/app/modules/ai/service.py:289-294 | an executed critical proposal was either approved in time or executed undecided while the flag was off, never both |
| AiProperties.HumanApprovalRule | backend/app/modules/ai/service.py:278-322 | while the flag stays on, every executed critical proposal has exactly one approval, checked by the deadline |
| AiRules.RequestedActionNeedsApproval | backend/app/modules/ai/service.py:278-322 | the same rule on what was requested: a listed action asked for is executed only with one approval, checked within seven days of the asking |
| AiRules.AgentFlagsAreLastSet | backend/app/modules/ai/service.py:289-294 | an agent is active and needs approvals exactly as the run last said |
| AiProperties.DecisionAllowedIff | backend/app/modules/ai/service.py:388-401 | a decision goes through exactly on a known, pending proposal checked by its deadline |
| AiProperties.ExecutionAllowedIff | backend/app/modules/ai/service.py:278-294 | exactly when execution goes through, and exactly when it is denied for want of approval |
| AiRuns.LateApprovalLeavesPending | backend/app/modules/ai/service.py:388-401 | a run in which an approval after the deadline fails and leaves the proposal pending |
| AiRuns.LateExecutionOfInactiveAgent | backend/app/modules/ai/service.py:278-322 | a run in which the proposal of an agent switched off is executed after its deadline |
| AiProperties.UsageAddsUp | backend/app/modules/ai/service.py:403-423 | the token total is 100 a task, 150 more once it ran, 50 a proposal, 25 an execution |
| AiRules.UsageOfEachAgent | backend/app/modules/ai/service.py:403-423 | the same for each agent: its tokens are those of its own tasks, proposals and executions |
| AiRules.EveryUsageRowIsAboutItsEvent | backend/app/modules/ai/service.py:403-423 | on every run each usage row names the agent, task and proposal of its event, at the event's rate |
| ModuleService.Service.CheckRequiredDependencies | backend/app/core/modules.py:55-65 | lists the required modules that are not active, in order, with their repeats |
| ModuleService.Service.ListActiveDependents | backend/app/core/modules.py:74-81 | lists exactly the active modules, by active definitions, that require this one, in sorted order |
| ModuleService.Service.EnableModule | backend/app/modules/module_registry/service.py:79-96 | enables when the guard passes, and otherwise changes nothing |
| ModuleService.Service.DisableModule | backend/app/modules/module_registry/service.py:98-112 | disables when no active dependent is left, and otherwise changes nothing |
| ModuleService.Service.EnableModulesOrdered | backend/app/modules/module_registry/service.py:156-196 | enables the plan's modules in order, all or nothing |
| ModuleService.Service.UpdateTenantModule | backend/app/modules/module_registry/service.py:59-77 | sets any status on a known row, and otherwise changes nothing |
| ModulePlans.SortIsByRank | backend/app/modules/module_registry/service.py:180-196 | sorting keeps the codes and orders them by the fixed list, then by first mention |
| ModulePlans.PlanSucceedsIff | backend/app/modules/module_registry/service.py:156-177 | a plan goes through exactly when each code is known and all it requires is active before or in the plan at a lower rank |
| ModulePlans.PlanLeaves | backend/app/modules/module_registry/service.py:156-177 | after a plan that goes through its codes are on trial or enabled as asked, new definitions disabled, and all else as before |
| ModulePlans.OrderIsDependencyOrderIff | backend/app/modules/module_registry/service.py:180-196 | complete plans go through in every order if and only if the fixed list puts each required module before those that require it |
| ModulePlans.PlanOrderMatters | backend/app/modules/module_registry/service.py:156-196 | two modules outside the fixed list, one requiring the other: the plan goes through in one order and fails in the other |
| ModulePlans.ShippedPlansSucceed | backend/app/modules/module_registry/seed.py:3-76 | where only the first module of the fixed list is ever required, complete plans go through in every order |
| ModuleProperties.EveryGuardedRunKeeps | backend/app/core/modules.py:55-89 | on every guarded run all that the active modules with active definitions require is active, and no active module lies on a dependency cycle or depends on one |
| ModuleProperties.EnableWithDependencies | backend/app/core/modules.py:67-72 | a module with a known, acyclic closure can be enabled by guarded steps that lose nothing active |
| ModuleProperties.CanBecomeActiveIff | backend/app/core/modules.py:55-89 | some guarded run activates a module if and only if its closure is known and acyclic |
| ModuleProperties.AlwaysFullyClosedIff | backend/app/core/modules.py:55-89 | every guarded run keeps all active modules, with active definitions or not, supplied with what they require if and only if no module that could be activated has an inactive definition with dependencies |
| ModuleProperties.PatchKeepsInvariantIff | backend/app/modules/module_registry/service.py:59-77 | when the unguarded edit keeps the closure, and when it keeps modules on cycles or unknown ones from being active |
| ModuleProperties.PatchTakesDependency | backend/app/modules/module_registry/service.py:59-77 | a run in which the edit takes a dependency away from an active module |
| ModuleProperties.PatchActivatesCycle | backend/app/modules/module_registry/service.py:59-77 | a run in which it activates a module on a cycle |
| ModuleProperties.InactiveDefinitionLosesDependency | backend/app/core/modules.py:74-81 | a concrete run in which a dependent with an inactive definition loses its dependency |
| Utf8.DecodeEncode | backend/app/core/secrets/envelope_crypto.py:77-77 | decoding gives back every encodable string, as in section 3 of RFC 3629 |
| Utf8.EncodeDecode | backend/app/core/secrets/envelope_crypto.py:107-110 | every accepted byte string is the one encoding of what it decodes to |
| Utf8.BytesOfCodePoint | backend/app/core/secrets/envelope_crypto.py:77-77 | the length and the bits of every code point's bytes, as in the table of section 3 of RFC 3629 |
| EnvelopeAad.Layout | backend/app/core/secrets/envelope_crypto.py:62-88 | every field at its documented offset |
| EnvelopeAad.BytesOf | backend/app/core/secrets/envelope_crypto.py:62-88 | the magic bytes, and each number as its bytes read most significant first |
| EnvelopeAad.EncodeErrorsAre | backend/app/core/secrets/envelope_crypto.py:71-88 | which error an owner that cannot be encoded gets |
| EnvelopeAad.DecodeEncodeAad | backend/app/core/secrets/envelope_crypto.py:62-118 | decoding gives back what was encoded |
| EnvelopeAad.EncodeDecodeAadIff | backend/app/core/secrets/envelope_crypto.py:62-118 | a decoded value encodes to the same bytes exactly when its versions are positive and its purpose is not empty |
| EnvelopeAad.EncodingIsInjective | backend/app/core/secrets/envelope_crypto.py:62-88 | different owners have different bytes |
| Envelope.OpensOnlyForItsOwner | backend/app/core/secrets/envelope_crypto.py:129-224 | over an ideal cipher an envelope opens exactly under its key, tenant, connection, version, purpose and schema 1, and gives back the plaintext |
| Envelope.SealedIff | backend/app/core/secrets/envelope_crypto.py:129-176 | when a secret can be sealed, and the version, algorithm, schema and nonces its envelope carries |
| Envelope.OpenErrorsAre | backend/app/core/secrets/envelope_crypto.py:178-224 | which error an envelope gets before its seals are tried |
| Envelope.OpenedWasSealed | backend/app/core/secrets/envelope_crypto.py:178-224 | whatever opens was sealed under exactly that owner |
| Envelope.IdealCipherExists | backend/app/core/secrets/envelope_crypto.py:129-224 | the assumptions about the cipher can be met, so the two results are not empty |
| SecretRefs.ConstructibleIff | backend/app/core/secrets/ref.py:37-47 | a reference can be built exactly for positive versions of at most 122 digits |
| SecretRefs.RenderedIsPlain | backend/app/core/secrets/ref.py:20-22 | a rendered reference has no white space or query mark and never looks like a token |
| SecretRefs.ParseRender | backend/app/core/secrets/ref.py:43-104 | parsing the text form gives back the reference |
| SecretRefs.ParseRenderParse | backend/app/core/secrets/ref.py:71-104 | rendering and parsing an accepted reference changes nothing |
| SecretRefs.AcceptedIff | backend/app/core/secrets/ref.py:71-104 | which strings are accepted; building the reference never fails on them |
| SecretRefs.AcceptedIsCanonical | backend/app/core/secrets/ref.py:71-104 | an accepted string is the text form but for surrounding blanks, line breaks, letter case and an empty query or fragment |
| SecretRefs.RenderIsInjective | backend/app/core/secrets/ref.py:43-47 | the text form tells references apart |
| SecretRefs.BearerIsRefused | backend/app/core/secrets/ref.py:20-22 | a text within the limit with an authorization value in it, from a word start on and with any white space between, is refused as a token |
| SecretRefs.JwtIsRefused | backend/app/core/secrets/ref.py:20-22 | so is one with the first two dotted parts of a signed token in it |
| SecretRefs.KeyIsRefused | backend/app/core/secrets/ref.py:20-22 | so is one with the first sixteen characters of a service key in it, whatever follows |
| SecretRefs.TokenLikeIff | backend/app/core/secrets/ref.py:20-22 | a text is token-like exactly when one of the three patterns, by its parts, starts at a word start, or it starts with the word and a blank |
| SecretRefs.PatternCharacters | backend/app/core/secrets/ref.py:20-22 | which plain characters the patterns take |
| SecretRefs.ParseErrorsAre | backend/app/core/secrets/ref.py:71-104 | which of its errors a reference gets |
| UuidText.UuidOfText | backend/app/core/secrets/ref.py:93-97 | reading the text of a UUID gives it back |
| UuidText.TextShowsBytes | backend/app/core/secrets/ref.py:43-47 | each byte as two hexadecimal digits in order, with the four dashes |
| KekRing.ParseKekRing | backend/app/core/secrets/kek_provider.py:66-117 | the parsing loop computes the ring of the data or one of its two errors |
| KekRing.RingAcceptedIff | backend/app/core/secrets/kek_provider.py:66-111 | which rings are accepted, and that they hold exactly their entries' keys |
| KekRing.RingErrorsAre | backend/app/core/secrets/kek_provider.py:66-111 | an object of another schema than 1 is told apart, every other failure is an invalid ring |
| KekRing.EntryReadIff | backend/app/core/secrets/kek_provider.py:90-104 | a good entry is a positive version and 43 base-64 symbols with one padding character, as in section 4 of RFC 4648 |
| KekRing.TwoSpellingsRejected | backend/app/core/secrets/kek_provider.py:105-106 | two spellings of one version make the ring invalid |
| KekRing.EntriesReadAlikeIff | backend/app/core/secrets/kek_provider.py:90-104 | two good entries of one version hold the same key exactly when their texts agree but for the unused bits |
| KekRing.SameRingIff | backend/app/core/secrets/kek_provider.py:66-111 | two accepted rings with the same versions in the same order are read as one ring exactly when all their texts agree so |
| KekRing.FourTextsOneRing | backend/app/core/secrets/kek_provider.py:100-106 | every key has exactly four texts, and rings written with different ones are the same ring |
| KekRing.LookupIff | backend/app/core/secrets/kek_provider.py:46-52 | an accepted ring answers for exactly its spelled versions, always including the active one |
| KekRing.LookupErrorsAre | backend/app/core/secrets/kek_provider.py:46-52 | versions below 1 are told from versions that are not there |
| KekRing.BuildEphemeralKekRing | backend/app/core/secrets/kek_provider.py:195-214 | the two building loops compute the specified ring data or its error |
| KekRing.ParseBuilt | backend/app/core/secrets/kek_provider.py:66-214 | a built ring parses exactly when its active version is positive, back to the same versions and keys |
| KekRing.BuiltButRefused | backend/app/core/secrets/kek_provider.py:195-214 | a ring for version 0 is built and does not parse |
| KekRing.BuilderRefusesIff | backend/app/core/secrets/kek_provider.py:201-207 | the builder refuses extra keys exactly when one has a bad version or size |
| Base64.DecodeEncodeBase64 | backend/app/core/secrets/kek_provider.py:208-209 | decoding gives back every encoded byte string |
| Base64.Alphabet | backend/app/core/secrets/kek_provider.py:208-209 | the alphabet of table 1 in section 4 of RFC 4648 |
| Base64.OnePadIff | backend/app/core/secrets/kek_provider.py:100-104 | exactly which texts decode to 3n + 2 bytes |
| Base64.SameBytesIff | backend/app/core/secrets/kek_provider.py:100-103 | two texts of 3n + 2 bytes decode alike exactly when they agree but for the two unused bits of the last symbol |
| Base64.FourTexts | backend/app/core/secrets/kek_provider.py:100-103 | such a byte string has exactly four texts, one for each value of the unused bits |
| Integers.ParseFormatted | backend/app/core/secrets/kek_provider.py:91-95 | reading a written number gives it back |
| Integers.ReadIff | backend/app/core/secrets/kek_provider.py:91-95 | which texts are read as numbers, by their blanks, sign and digit groups, and as which |
| Integers.AsciiBlanks | backend/app/core/secrets/kek_provider.py:91-95 | which plain characters count as blanks around a number |
| Integers.OtherSpellings | backend/app/core/secrets/kek_provider.py:91-95 | every version has more than one accepted spelling |
| ThreadsSplitter.SplitTextChunks | scripts/content/publish_threads_live.py:64-93 | the loop ends and computes the chunks of the stripped text, or fails on an empty one |
| ThreadsSplitter.RoundProgressesIff | scripts/content/publish_threads_live.py:75-91 | a round leaves less text exactly for a limit of at least 1; with 0 it leaves the text as it was |
| ThreadsSplitter.CutCases | scripts/content/publish_threads_live.py:79-86 | the cut lies between a third of the limit and one past it, and where it reaches one past it, white space goes |
| ThreadsSplitter.CutPrefers | scripts/content/publish_threads_live.py:70-86 | the cut is behind the last late paragraph break, else sentence end, else blank, else at the limit |
| ThreadsSplitter.ChunksAtCut | scripts/content/publish_threads_live.py:87-92 | the first chunk is what stands before the cut, the others are the chunks of what is behind it |
| ThreadsSplitter.ChunksAreFaithful | scripts/content/publish_threads_live.py:64-93 | chunks are non-empty, trimmed, within the limit, and the text is the chunks with only white space between them |
| ThreadsSplitter.ChunkCountBound | scripts/content/publish_threads_live.py:76-91 | each cut but the last uses up more than a third of the limit, which bounds the number of chunks |
| ThreadsSplitter.WordCutOnlyWithoutSpace | scripts/content/publish_threads_live.py:79-86 | a word is cut in two only when the window has no space from a third of the limit on |
| TextWrap.SplitLongWord | scripts/content/generate_social_assets.py:123-140 | the character loop computes the parts of a word |
| TextWrap.WrapText | scripts/content/generate_social_assets.py:143-171 | the nested loops compute the wrapped lines |
| TextWrap.FitText | scripts/content/generate_social_assets.py:180-197 | the result is the largest tried size whose height fits; it fails exactly when none does |
| TextWrapProperties.HeightIs | scripts/content/generate_social_assets.py:180-196 | the height is that of the lines and the gaps between them; a gap is a fifth of the size and at least 8 |
| TextWrapProperties.SizesTried | scripts/content/generate_social_assets.py:189-189 | the sizes tried are the largest and those in steps of four below it |
| TextWrapProperties.EveryLineFits | scripts/content/generate_social_assets.py:123-171 | only a single character or an empty line can be too wide, so all lines fit when those do |
| TextWrapProperties.WordsStand | scripts/content/generate_social_assets.py:153-153 | the words are the stretches without white space, in order, each with white space or an end on both sides |
| TextWrapProperties.FittingWordsStay | scripts/content/generate_social_assets.py:153-157 | words that fit are never cut |
| TextWrapProperties.LineIs | scripts/content/generate_social_assets.py:159-166 | a line holds its words in order with one blank between two of them and nothing else |
| TextWrapProperties.WrappedIs | scripts/content/generate_social_assets.py:151-171 | the lines of the paragraphs, with one empty line between two of them |
| Text.LinesAndBreaks | scripts/content/generate_social_assets.py:151-151 | a text is its lines with one break behind each, a carriage return and line feed being one |
| Text.AsciiBreaks | scripts/content/generate_social_assets.py:151-151 | which plain characters break a line |
| Text.AsciiSpaces | scripts/content/generate_social_assets.py:153-153 | which plain characters are white space |
| TextWrapProperties.WordPartsAreGreedy | scripts/content/generate_social_assets.py:129-140 | an over-long word is cut only where its next character would not fit |
| TextWrapProperties.ParagraphIsGreedy | scripts/content/generate_social_assets.py:159-166 | within a paragraph no line could have taken the next line's first word |
| TextWrapProperties.FewestLines | scripts/content/generate_social_assets.py:159-166 | when parts of a fitting line fit, no other way to break the words takes fewer lines |
| TextWrapProperties.WrappingKeepsCharacters | scripts/content/generate_social_assets.py:143-171 | all characters but white space survive, in order |
| Markdown.ConvertLines | scripts/content/generate_insights.py:178-234 | the line loop over three buffers refines the pure grouping of classified lines |
| Markdown.MarkdownToHtml | scripts/content/generate_insights.py:178-234 | the page is the written form of that grouping |
| Markdown.FeedingIsFaithful | scripts/content/generate_insights.py:200-229 | every line keeps at most one buffer filled and closes exactly the run that ends |
| MarkdownLines.HeadingIff | scripts/content/generate_insights.py:203-208 | a line is a heading of level two or three exactly when it is that many hash signs, white space and a text |
| MarkdownLines.OrderedIff | scripts/content/generate_insights.py:215-215 | a line is a numbered item exactly when it is decimals, a full stop, white space and a text |
| MarkdownLines.UnorderedIff | scripts/content/generate_insights.py:221-221 | a line is a bulleted item exactly when it is a hyphen or asterisk, white space and a text |
| MarkdownLines.BlankIff | scripts/content/generate_insights.py:200-202 | a line is blank exactly when it is all white space |
| MarkdownLines.PlainIff | scripts/content/generate_insights.py:227-229 | a line is plain exactly when it is none of these, and keeps its text |
| MarkdownLines.HeadingWritten | scripts/content/generate_insights.py:212-213 | level two is written as h2, level three as h3 |
| MarkdownLines.ListWritten | scripts/content/generate_insights.py:184-198 | numbered items are written in an ol, bulleted ones in a ul, one li each |
| MarkdownLines.ParagraphWritten | scripts/content/generate_insights.py:172-175 | plain lines are written as one p, joined by blanks |
| MarkdownLines.PageOneMore | scripts/content/generate_insights.py:231-234 | the page is what its blocks are written as, one after the other |
| MarkdownProperties.EveryLineOnceInOrder | scripts/content/generate_insights.py:178-234 | every non-blank line is in exactly one block, in order |
| MarkdownProperties.RunsAreMaximal | scripts/content/generate_insights.py:178-234 | there are as many blocks as places where a run must start |
| MarkdownProperties.ListTagsBalance | scripts/content/generate_insights.py:184-198 | list tags are balanced and never nested, and items stand only inside them |
| TemplateProperties.MatchAtIff | backend/app/modules/documents/template_engine.py:3-3 | the scan finds a match exactly where the pattern has one, and it has at most one |
| TemplateProperties.SpansArePlaceholders | backend/app/modules/documents/template_engine.py:6-7 | each reported span is a placeholder of the pattern |
| TemplateProperties.GapsHoldNoPlaceholder | backend/app/modules/documents/template_engine.py:6-7 | no placeholder starts between the matches |
| TemplateProperties.RenderFailsIff | backend/app/modules/documents/template_engine.py:10-17 | rendering fails exactly when an extracted key is missing |
| TemplateProperties.RenderReplacesPlaceholders | backend/app/modules/documents/template_engine.py:10-17 | the output is the literal gaps interleaved with the values, never rescanned |
| Templates.BuildContext | backend/app/modules/documents/service.py:367-386 | the field loop fills defaults only where nothing is provided, and fails as specified |
| TemplateProperties.ContextBuiltIff | backend/app/modules/documents/service.py:367-386 | a context is built exactly when every placeholder is provided or gets a default in time |
| TemplateProperties.ProvidedWins | backend/app/modules/documents/service.py:374-376 | a provided value is never overridden |
| TemplateProperties.ContextHolds | backend/app/modules/documents/service.py:372-386 | a built context holds exactly the provided values, and for other keys the first default that a field gives |
| TemplateProperties.DocumentHoldsGivenValues | backend/app/modules/documents/service.py:150-154 | a generated document is the literal text with those values where the placeholders were |
| TemplateProperties.ContextFailsWith | backend/app/modules/documents/service.py:379-385 | the first required field without a value stops the context, and else exactly the placeholders without one are reported |
| TemplateProperties.GenerationFailsOnlyOnContext | backend/app/modules/documents/service.py:150-154 | once the context is built, rendering cannot fail |

## Left out

- Amounts below a cent, the database's numeric rounding and the 28-digit decimal context: amounts are integer cents, quantities and prices exact reals.
- Finance reads the date several times in a request; the model has one "today" for each request.
- FinanceService.Service.CreateInvoice: refusals by party, catalog and plan lookups, currency and document numbers are not modelled.
- FinanceService.Service.CreatePayment: the party lookup is not modelled, and the status is the one stored, whether given or derived from a legacy payment type.
- FinanceService.Service.ListReceivables: the SQL ordering of the rows is a parameter, any order of the receivable invoices.
- FinanceService.Service.GetSummary: the two totals that the database adds up, invoiced and paid, are not modelled.
- Update in place: tables are maps and sequences of row values held by a service object, not session objects; outside booking, requests do not interleave, so a row that two of them read at once (a lost update) is not modelled.
- Audit rows, and the ids and timestamps the database assigns.
- Booking covers one territory; instants are integers, naive timestamps being read as UTC; pricing and input validation other than stay dates are left out.
- BookingLocks.SomeHoldCanStep: the writes of a status change and its commit are one step, so the row lock it holds between the two, and a request waiting for it, are not modelled.
- BookingLocks.EveryHoldCanFinish: the same.
- The database's breaking of deadlocks: requests that wait for each other stay so until one is aborted.
- ThreadsSplitter.SplitTextChunks: limits of at least 1; ThreadsSplitter.RoundProgressesIff shows what a limit of 0 does, and negative limits are not modelled.
- Strings are Unicode scalar values, so lone surrogates appear only in Utf8 and EnvelopeAad, which work on code points.
- Which characters outside ASCII are letters, digits or decimals is a parameter of the models that ask it.
- SecretRefs.Parse: for an authority with brackets or from outside ASCII the URL library may raise its own error first; the model says only that such a reference is rejected.
- KekRing.ParseKekRing: decoding the bytes and reading the JSON text are left out; the data arrives as a JSON value whose object names are distinct strings.
- Base64.DecodeBase64: padding behind full quads, which some releases of the library accept, is refused; no 32-byte key has such a text.
- Envelope: the cipher is ideal, keys and nonces are parameters.
- A JSON null in a definition's list of required modules, and module modes.
- Markdown.MarkdownToHtml: inline markup is a function parameter.
- Templates.BuildContext: values are already strings.
- The import of AI agents from configuration, task and usage listings, and the cost column of usage.
- TextWrap: text width and line height are functions of the text and the size.
- Signature statuses of documents, accounting, catalog, seeding, masking and the console.
