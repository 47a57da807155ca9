# Verified model of the trading, backtest and scoring core

A Dafny model of the parts of the platform where a mistake costs money or misleads a reader, with proofs of what
those parts are for. `dafny verify dfyconfig.toml` checks everything.

**Broker book and ledger** (`Decimals`, `BrokerBook`, `BrokerAccounts`, `BookAccounting`, `CostBasis`,
`RealizedProfit`, `Reconciliation`, `LedgerReplay`, `DemoFills`). `BrokerPortfolio` is the mutable account: cash,
signed positions, an append-only ledger and the set of booked fills. Its methods follow the code's branches and apply
the code's three roundings where the code does: cash and quantities half away from zero, a position's realised profit,
prices and costs half to even. Amounts are exact reals, so every rounding is visible. The identities are proved for
any rounding of known accuracy and then for exact arithmetic and for the code's roundings.

**Order submission** (`OrderGroups`, `OrderProtocol`, `OrderWrites`, `OrderPolling`). A state machine whose atomic
steps are the code's conditional updates and transactions: any number of workers race to claim a row, hand it to the
broker, crash or record an answer; the venue takes or loses requests still on the wire, before or after the worker
gave up; pollers refresh, adopt and expire rows; a sweep rejects stuck ones; confirmations, holds, releases and
cancels write statuses at any time, since they are not guarded by the submission state. The venue keeps its own count
of what it took. Polls may answer anything, and the lookup that precedes an expiry may be wrong.

**Backtests** (`Simulation`, `SimulatedBook`, `SimulatedValue`, `Decisions`, `ExecutionBounds`, `GrossCap`, `DayLoop`,
`SegmentValue`, `SegmentLoop`, `WalkForward`). `SimulatedPortfolio` is the mutable book; `Execute` resolves targets,
scales them, orders them, clips buys to the margin floor and fills. The day loop carries one book through a segment
and through walk-forward folds. Sizing is an arbitrary function of the day and the value of the book; the
configuration a fold selected is part of that function, since folds have no day in common.

**Agent graphs** (`CycleSearch`, `GraphWiring`), **scoring statistics** (`Thinning`, `PeriodReturns`,
`ForwardReturns`) and **one-pass forms** (`MarketCalendar`, `Metrics`, with `Sums`, `Sorting` and `Options` for
support).

Each stateful operation is a method proved against a specification function, and the theorems are about that
function over all inputs and runs.

Where the code does less than its prose says, the code is modelled and the exact condition is proved:

- The cash floor of `execute` is checked before spread and commission
  (`backend/apps/backtests/portfolio.py:235-242`), so cash can end below it by the costs of the last buy, although the
  docstring speaks of a floor at zero. `ExecutionBounds.ExecuteKeepsFloor` says exactly when, from the notionals of the
  plan; `ExecutionBounds.FloorIsBroken` is an instance.
- Decisions still pending at the end of a segment are dropped (`backend/apps/backtests/engine.py:177`).
  `WalkForward.SegmentsAreOneRunExactly` says exactly when that changes a run, for any number of segments, and
  `DayLoop.SplitCanLoseATrade` shows one.
- A confirmation tests the status it read earlier and then saves unconditionally, a group's in two statements
  (`backend/apps/brokers/confirmation.py:107`, `219-224`, `277-284`), and releasing a held order writes a draft
  unconditionally (`backend/apps/portfolios/autopilot.py:658-660`). Landing on an acknowledged order, such writes can hide
  a live order from the poll: `OrderPolling.LostExactly` says exactly when over every run, `OrderPolling.StepLosesExactly`
  and `OrderPolling.EditLosesExactly` for one step, `OrderPolling.LostStaysLost` for how long, and
  `OrderPolling.LateConfirmLosesOrder` and `OrderPolling.LateGroupConfirmLosesGroup` are runs.
- An evaluation of a demo order takes no lock, so evaluators at once can fill an order twice or spend the same cash
  twice. `DemoFills.CommitFillsOnce` and `DemoFills.CommitFundsExactly` give the exact conditions for one write,
  `DemoFills.InterleavedExactly` for every interleaving; `DemoFills.StaleEvaluatorFillsTwice` and
  `DemoFills.TwoStaleBuysOverdraw` are instances.
- The gross cap of `execute` fails for a short whose cover is clipped: `GrossCap.ShortsCanExceedCap`. It holds whenever
  the covers find room (`GrossCap.GrossIsCappedWithShorts`).
- The demo funding check rounds half to even and the booking half away from zero, so a funded buy can overdraw by
  one cent: `DemoFills.FundedBuyOverdraft` gives the exact case and `DemoFills.OverdraftHappens` an instance.
- A ledger row's cash delta and the balance it leaves are rounded separately, so they can part by one cent on a
  half-cent notional (`Decimals.MoneyShift`, `Decimals.MoneyShiftHappens`, `LedgerReplay.FillMovesCash`).
- A fill whose quantity rounds to zero opens a stored position of zero (`LedgerReplay.FillStoresNoZero`,
  `LedgerReplay.ZeroFillIsStored`).
- A filled entry without any exit leg reads as working for ever (`OrderGroups.TerminalGroupIsSettled`,
  `OrderGroups.LoneEntryReadsWorking`).
- An expired order is shown as rejected but stays `unknown`, so it stays polled and can still be adopted
  (`backend/apps/brokers/idempotency.py:371-381`).

## Model

| member | source | states |
|---|---|---|
| `Decimals.Money` | backend/apps/brokers/reconcile.py:46-47 | Money lies on whole cents, within half a cent of the exact amount, and an amount already in cents is unchanged |
| `Decimals.Qty` | backend/apps/brokers/reconcile.py:50-51 | Quantities lie on the six-decimal grid, at most half a step away, and never turn negative |
| `Decimals.RoundHalfUp` | backend/apps/brokers/reconcile.py:46-51 | Nearest whole number, with ties away from zero on both sides; whole numbers are fixed |
| `Decimals.RoundHalfEven` | backend/apps/brokers/reconcile.py:413 | Nearest whole number, with ties to the even one |
| `Decimals.TickStaysBetween` | backend/apps/brokers/reconcile.py:413-421 | Rounding a cost to four decimals never leaves an interval whose ends are prices on that grid |
| `Decimals.MoneyShift` | backend/apps/brokers/reconcile.py:427-437 | Booking a cash movement on a balance in cents moves it by the rounded movement, except exactly one cent when the movement is half a cent off the grid and flips the sign of the balance |
| `Decimals.MoneyShiftHappens` | backend/apps/brokers/reconcile.py:427-437 | Half a cent taken from one cent: the balance stays and the row says minus one cent |
| `BrokerAccounts.BrokerPortfolio.FillPosition` | backend/apps/brokers/reconcile.py:395-423 | One existing position after a fill: realised profit on the closed part only, average cost re-weighted on an increase, kept on a reduction and reset to the fill price on a flip, each with the code's own rounding |
| `BrokerAccounts.BrokerPortfolio.UpdatePosition` | backend/apps/brokers/reconcile.py:375-430 | The whole position map after a fill: the touched symbol opened, changed or removed when it closes to zero, every other symbol untouched |
| `BrokerAccounts.BrokerPortfolio.ApplyFillToBook` | backend/apps/brokers/reconcile.py:351-445 | Positions, cash and the one appended ledger row after a fill; the zero-over-zero averaging case is the only one that raises, and then the book is unchanged |
| `BrokerAccounts.BrokerPortfolio.IngestFill` | backend/apps/brokers/reconcile.py:282-298 | A fill is booked if and only if its (order, venue fill id) was not seen before, with quantity and price rounded first |
| `BrokerAccounts.BrokerPortfolio.ComputeDrift` | backend/apps/brokers/reconcile.py:473-492 | The drift lists, once each, exactly the symbols whose venue and local quantities differ by more than a millionth, with the exact gap, and the cash gap in cents |
| `BrokerAccounts.BrokerPortfolio.SquarePosition` | backend/apps/brokers/reconcile.py:505-560 | One symbol moved by its gap, with the venue's cost where there is one, removed at zero, and one ledger row exactly when something was written |
| `BrokerAccounts.BrokerPortfolio.ApplyDrift` | backend/apps/brokers/reconcile.py:495-580 | All listed symbols and the cash squared; the number returned is the number of ledger rows appended |
| `BrokerAccounts.BrokerPortfolio.DriftWithinTolerance` | backend/apps/brokers/reconcile.py:587-609 | True exactly when the cash gap and every listed quantity gap lie within the larger of one percent and fifty dollars |
| `BrokerAccounts.BrokerPortfolio.ReconcileAccount` | backend/apps/brokers/reconcile.py:612-749 | An account that is not active or a venue that does not answer leaves the book as it is; otherwise the pass leaves it alone when nothing differs or when it is told to halt and drift is beyond tolerance, and squares it in every other case; it reports beyond-tolerance exactly when it is told to halt and some gap, or the cash gap, is worth more than fifty dollars and more than one percent |
| `BookAccounting.UnroundedCostConserves` | backend/apps/brokers/reconcile.py:397-421 | Open, add, reduce, close and flip alike: the position's cost before rounding is the old cost plus the cash paid plus the profit recognised |
| `BookAccounting.FillMovesBookValue` | backend/apps/brokers/reconcile.py:351-445 | One fill moves cash + positions at cost - booked profit by at most one cash rounding, one profit rounding and one cost rounding per share held afterwards |
| `BookAccounting.RunKeepsBookValue` | backend/apps/brokers/reconcile.py:351-445 | The same summed over any run of fills on any number of symbols, for any rounding of known accuracy |
| `BookAccounting.ExactAccountingIdentity` | backend/apps/brokers/reconcile.py:351-445 | Without rounding, cash + positions at cost - booked profit never changes over any run of fills |
| `BookAccounting.CodeAccountingIdentity` | backend/apps/brokers/reconcile.py:351-445 | With the code's three roundings each fill moves it by at most 0.005 + 0.005 + 0.00005 per share held afterwards |
| `CostBasis.PositionKeepsEnvelope` | backend/apps/brokers/reconcile.py:397-421 | A reduction leaves the average cost alone, a flip sets it to the fill price, an increase keeps it between the prices that built the position |
| `CostBasis.CostStaysInEnvelope` | backend/apps/brokers/reconcile.py:375-421 | Over every run, each open position's average cost lies between the lowest and highest price of the fills that opened, flipped or increased it, despite rounding at every step |
| `RealizedProfit.RunKeepsProfit` | backend/apps/brokers/reconcile.py:375-430 | Over every run of fills, for any rounding of known accuracy, the profit stored on a held position is its opening value plus the profit rows of its symbol since it was last opened, within two roundings for each fill that reduced it |
| `RealizedProfit.ExactProfit` | backend/apps/brokers/reconcile.py:395-423 | Without rounding the two agree exactly |
| `RealizedProfit.CodeProfit` | backend/apps/brokers/reconcile.py:395-423 | With the code's roundings they part by at most one cent for each reducing fill |
| `LedgerReplay.FillMovesCash` | backend/apps/brokers/reconcile.py:427-437 | A fill row's cash delta explains the balance exactly, but for one cent on a notional that lands on half a cent |
| `LedgerReplay.FillStoresNoZero` | backend/apps/brokers/reconcile.py:379-423 | A zero position is stored if and only if a fill of quantity zero opens a symbol that is not held |
| `LedgerReplay.ZeroFillIsStored` | backend/apps/brokers/reconcile.py:282-423 | Reporting a tenth of a millionth of a share does it |
| `LedgerReplay.DeliverIsAccounted` | backend/apps/brokers/reconcile.py:282-298 | Every delivery, of whatever quantity, new, repeated or raising, keeps what the ledger accounts for |
| `LedgerReplay.DeliverKeeps` | backend/apps/brokers/reconcile.py:282-298 | A delivery leaves every booked fill with a row and no zero position if and only if the fill is known, its quantity rounds to more than zero or its symbol is held |
| `LedgerReplay.SquareKeeps` | backend/apps/brokers/reconcile.py:495-580 | A reconcile pass, halted or not, keeps both |
| `LedgerReplay.LedgerAccountsForBook` | backend/apps/brokers/reconcile.py:282-580 | In every run of deliveries and reconcile passes at all: held quantity is the sum of quantity deltas, every quantity_after is the running sum, cash is opening cash plus cash deltas within one cent per half-cent fill, and no fill has two rows |
| `LedgerReplay.LedgerExplainsBook` | backend/apps/brokers/reconcile.py:282-580 | In every run whose deliveries meet the exact condition, moreover, every booked fill has its row and no position of quantity zero is stored |
| `LedgerReplay.RunShows` | backend/apps/brokers/reconcile.py:282-580 | In every run the last ledger row shows the balance, fill rows name their fill and price, and adjustments name none |
| `LedgerReplay.RedeliveryChangesNothing` | backend/apps/brokers/reconcile.py:282-298 | A run with duplicated deliveries ends in the same book and ledger as the run of first deliveries only |
| `Reconciliation.AdjustPositionsHeld` | backend/apps/brokers/reconcile.py:505-560 | Squaring distinct symbols moves each by its own gap, leaves all others and the cash alone |
| `Reconciliation.SquaredBookMatchesVenue` | backend/apps/brokers/reconcile.py:473-580 | After squaring, every symbol that had drifted has exactly the venue's quantity, every other keeps its sub-millionth gap, and cash is within one cent of the venue's cash to the cent |
| `Reconciliation.ReconciliationConverges` | backend/apps/brokers/reconcile.py:451-580 | From any book, a second drift against the same venue answer finds nothing and a second squaring writes nothing |
| `Reconciliation.HaltIsExact` | backend/apps/brokers/reconcile.py:711-732 | A pass leaves the book unchanged if and only if it halts beyond tolerance or nothing differed |
| `Reconciliation.BandIsExact` | backend/apps/brokers/reconcile.py:584-609 | Drift is within tolerance if and only if no gap above a millionth is worth more than fifty dollars while being more than one percent of the quantity held, each share at a positive average cost or else at a hundred dollars, and cash likewise |
| `Reconciliation.HaltingPass` | backend/apps/brokers/reconcile.py:711-732 | A pass that may halt leaves the book unchanged if and only if some gap or the cash gap lies beyond that band, or no quantity is off by more than a millionth and cash by no more than a cent |
| `Reconciliation.SmallDriftIsSquared` | backend/apps/brokers/reconcile.py:584-732 | Where every gap lies within the band, even a pass that may halt ends with the venue's quantities and, to a cent, its cash |
| `Reconciliation.SquaredCosts` | backend/apps/brokers/reconcile.py:505-560 | A squared position takes the venue's cost where that is positive and keeps its realised profit; a symbol the book did not know starts at the venue's cost, or at a hundred dollars, with no profit |
| `Reconciliation.AdjustmentRow` | backend/apps/brokers/reconcile.py:505-560 | The row of an adjustment moves a quantity and nothing else: no fill, no cash, no profit |
| `Reconciliation.SquaringWrites` | backend/apps/brokers/reconcile.py:505-580 | Squaring appends exactly one row per listed symbol and one more when cash differs |
| `DemoFills.FundedBuyOverdraft` | backend/apps/brokers/demo_fills.py:115-129 | A buy that passes the half-even funding check takes cash below zero if and only if its notional is exactly half a cent above the balance, and then by exactly one cent |
| `DemoFills.OverdraftHappens` | backend/apps/brokers/demo_fills.py:115-197 | The overdraft is real: evaluating a market buy of 0.005 shares at one dollar on an account without cash fills it and leaves minus one cent |
| `DemoFills.DecisionPrice` | backend/apps/brokers/demo_fills.py:70-98 | The price a demo order fills at is on the price grid and not negative, and for a limit order it is the limit itself |
| `DemoFills.EvaluationIs` | backend/apps/brokers/demo_fills.py:70-197 | What one evaluation does to a resting order: nothing before its limit or stop is reached from the side its direction asks for; a rejection, and nothing else, of a buy the cash does not cover to the cent; otherwise the order filled and one row for its whole quantity |
| `DemoFills.QuoteKeepsDemo` | backend/apps/brokers/demo_fills.py:148-197 | One evaluation keeps cash at or above minus one cent, every fill row the only one of its order, for the order's whole quantity and never worse than its limit |
| `DemoFills.CommitFillsOnce` | backend/apps/brokers/demo_fills.py:172-189 | The write half of an evaluation keeps one fill for each order if and only if the order has no fill yet; an order that is still resting has none |
| `DemoFills.CommitFundsExactly` | backend/apps/brokers/demo_fills.py:115-189 | It keeps cash at or above minus one cent if and only if the order sells or its notional is less than one and a half cents over the cash at that moment; and keeps every promise about the demo book if and only if the order has no fill yet as well |
| `DemoFills.RefuseExactly` | backend/apps/brokers/demo_fills.py:132-145 | Refusing an order for lack of cash keeps them if and only if it has no fill yet |
| `DemoFills.InterleavedExactly` | backend/apps/brokers/demo_fills.py:148-245 | Over every interleaving of evaluators, however stale what they read, the book keeps its promises throughout if and only if each write, at its turn, meets an order without a fill and, to fill it, cash that pays |
| `DemoFills.StaleEvaluatorFillsTwice` | backend/apps/brokers/demo_fills.py:148-197 | Two evaluators that both found one order resting fill it twice, and the second takes the book below zero |
| `DemoFills.TwoStaleBuysOverdraw` | backend/apps/brokers/demo_fills.py:115-197 | Two different orders, each found funded by the same ten dollars and each filled once, take the book to minus ten |
| `DemoFills.DemoBookStaysFunded` | backend/apps/brokers/demo_fills.py:148-245 | The same over every sequence of evaluations, one after the other |
| `DemoFills.DemoAccount.TryFillDemoOrder` | backend/apps/brokers/demo_fills.py:148-197 | One evaluation as the code steps through it, at the given price or else the live one: no change, a rejection for lack of cash, one booked fill, or a booking that raises and leaves the order resting; true exactly when a resting order became filled |
| `DemoFills.DemoAccount.EvaluateResting` | backend/apps/brokers/demo_fills.py:226-245 | A pass over the resting orders equals evaluating each in turn at its symbol's live price, or at a second lookup where that gave none, however the price cache was filled and whichever bookings raised; it returns how many filled |
| `OrderGroups.MatchLeg` | backend/apps/brokers/idempotency.py:205-216 | The first child whose role the venue leg names, or none |
| `OrderGroups.BackfillLegs` | backend/apps/brokers/idempotency.py:219-235 | The loop over venue legs equals updating the matching child leg by leg; roles and number of children never change |
| `OrderGroups.PollGroupLegs` | backend/apps/brokers/reconcile.py:105-126 | The poll's loop over legs: a child learns its venue id once, is skipped without one, and otherwise takes the polled status |
| `OrderGroups.CreatedGroupsAreShaped` | backend/apps/brokers/brackets.py:68-158 | Every group that is created has an anchor and exactly the protective legs asked for, of distinct roles, all drafts that were never submitted; only a one-cancels-other set without a take-profit is refused |
| `OrderGroups.GroupStatusMeans` | backend/apps/brokers/brackets.py:173-256 | The status of every group, told by the statuses of its rows: not started, an error or an unprotected position, closed by an exit, cancelled, closed by cancelled exits, or working |
| `OrderGroups.TerminalGroupIsSettled` | backend/apps/brokers/brackets.py:189-256 | A group all of whose rows are terminal reads as working if and only if it is a filled entry without any exit leg |
| `OrderGroups.LoneEntryReadsWorking` | backend/apps/brokers/brackets.py:189-256 | Such an entry |
| `OrderProtocol.StepKeepsInv` | backend/apps/brokers/idempotency.py:65-152 | No step of submitters, venue, pollers, sweeps, expiries or unguarded status writes breaks the claim: at most one worker per order, at most one request taken or on the wire, none for an unsubmitted order |
| `OrderProtocol.RunKeepsInv` | backend/apps/brokers/idempotency.py:65-152 | So no run does |
| `OrderProtocol.AtMostOnceAccepted` | backend/apps/brokers/idempotency.py:54-154 | In every interleaving the venue takes each client order id at most once, and exactly once when the row is acknowledged; singles and groups alike |
| `OrderProtocol.StepNeverResubmits` | backend/apps/brokers/idempotency.py:331-382 | No step hands an unknown or acknowledged order to the broker, and the only way out of unknown is adopting an order the venue really took |
| `OrderProtocol.UnknownIsNeverResubmitted` | backend/apps/brokers/idempotency.py:331-382 | In every run from there on the order is never handed to the broker again, even after the grace window marked it rejected |
| `OrderWrites.RecordWrites` | backend/apps/brokers/idempotency.py:104-152 | What a worker writes: a venue refusal leaves the anchor and every leg unsubmitted and rejected, rejected credentials leave them all unsubmitted and confirmed, an unclear answer parks the anchor with an error and leaves the legs, an acceptance stores the venue's id and status |
| `OrderWrites.RefusalStaysVisible` | backend/apps/brokers/idempotency.py:104-138 | In every run after a refusal or rejected credentials the rows keep reading rejected or confirmed until an edit, a sweep or another claim concerns the order |
| `OrderWrites.UnsubmittedStays` | backend/apps/brokers/idempotency.py:65-152 | Nothing else touches an order that is not submitted, over every run |
| `OrderWrites.WordsNameStatuses` | backend/apps/brokers/idempotency.py:385-395 | Each status word of an adapter is recorded as the status it names, by submits, adoptions and polls alike; a draft is not taken from a poll |
| `OrderWrites.OtherWords` | backend/apps/brokers/reconcile.py:301-325 | Any other word is recorded as submitted by a submit and ignored by a poll |
| `OrderWrites.BackfillsLastLeg` | backend/apps/brokers/idempotency.py:219-235 | The last venue leg that names a role decides the status, and its id the id, of the child in that role |
| `OrderWrites.BackfillSkipsUnnamed` | backend/apps/brokers/idempotency.py:219-235 | A child no venue leg names stays as it is |
| `OrderWrites.PollLearnsId` | backend/apps/brokers/reconcile.py:105-126 | A poll never changes a venue id a child has, and gives one to a child without only from a leg that names its role |
| `OrderWrites.PollsLastLeg` | backend/apps/brokers/reconcile.py:105-126 | The last leg that names a role with a known word decides the status of the child in that role once it has a venue id |
| `OrderWrites.PollWrites` | backend/apps/brokers/reconcile.py:105-168 | A poll with a known word sets the anchor to the status it names and leaves its claim and its venue id |
| `OrderWrites.ClaimWrites` | backend/apps/brokers/idempotency.py:65-85 | A claim marks the row pending and changes nothing else of it |
| `OrderWrites.ExpiryWrites` | backend/apps/brokers/idempotency.py:366-381 | An expiry rejects the anchor and changes nothing else |
| `OrderWrites.AdoptionWrites` | backend/apps/brokers/idempotency.py:331-365 | An adoption acknowledges the anchor with the venue's id and status |
| `OrderWrites.SweepWrites` | backend/apps/brokers/tasks.py:101-133 | A sweep rejects, of the rows it looks at, exactly the confirmed ones without a venue id |
| `OrderPolling.BackfillLeavesLive` | backend/apps/brokers/idempotency.py:219-235 | A child named by the venue's answer is open or terminal afterwards, whatever order the legs come in |
| `OrderPolling.StepLosesExactly` | backend/apps/brokers/reconcile.py:105-245 | Any step on an acknowledged order, edit, poll or sweep, loses it or leaves it lost if and only if no row ends open and some row ends neither open nor terminal |
| `OrderPolling.StepParksExactly` | backend/apps/brokers/reconcile.py:105-245 | A row of an acknowledged order is neither open nor terminal after a step if and only if the step parked it, or it was so before and the step did not set it |
| `OrderPolling.AcknowledgingIsLive` | backend/apps/brokers/idempotency.py:140-152 | The step that acknowledges an order leaves every row of it open or terminal |
| `OrderPolling.RunParksExactly` | backend/apps/brokers/reconcile.py:105-245 | In every run: a row of an acknowledged order is neither open nor terminal if and only if an edit parked it after the acknowledgement and nothing has set it since |
| `OrderPolling.LostExactly` | backend/apps/brokers/reconcile.py:170-245 | In every run: an unknown order is never lost to the poll, and an acknowledged one is lost if and only if no row is open and some row was parked by an edit that no later write, poll or sweep of that row replaced |
| `OrderPolling.NoLiveLegIsLost` | backend/apps/brokers/reconcile.py:170-245 | In particular, in every run without such an edit, the order is selected by the poll from acknowledgement or unknown onward until all its legs are terminal locally, and a terminal group with an exit does not read as working |
| `OrderPolling.EditLosesExactly` | backend/apps/brokers/confirmation.py:219-284 | A status write on any acknowledged order loses it to the poll if and only if, by the writes and the statuses they meet, no row ends open and some row ends neither open nor terminal |
| `OrderPolling.LateWriteLosesSingle` | backend/apps/brokers/confirmation.py:219-224 | For an order without legs: exactly the late writes of a draft, a confirmation or a hold |
| `OrderPolling.LostStaysLost` | backend/apps/brokers/reconcile.py:170-190 | A lost order stays exactly as it is through every run without another write, a sweep or a poll asked for it |
| `OrderPolling.LateConfirmLosesOrder` | backend/apps/brokers/confirmation.py:107-224 | Two confirmations of one draft, the slower one saved after the acknowledgement: the venue took the order and the poll never selects it |
| `OrderPolling.LateGroupConfirmLosesGroup` | backend/apps/brokers/confirmation.py:219-284 | The same for a group, whose confirmation writes the anchor and then the legs: in sight after the first write, lost after the second |
| `SimulatedBook.SimulatedPortfolio.constructor` | backend/apps/backtests/portfolio.py:48-72 | A simulated book opens with its cash and nothing else |
| `SimulatedBook.SimulatedPortfolio.Value` | backend/apps/backtests/portfolio.py:76-77 | Cash plus the market value of every holding, whatever order they are summed in |
| `SimulatedBook.SimulatedPortfolio.MarkToMarket` | backend/apps/backtests/portfolio.py:81-87 | Exactly the holdings with a positive price are re-marked |
| `SimulatedBook.SimulatedPortfolio.AccrueFinancing` | backend/apps/backtests/portfolio.py:89-122 | Cash falls by the returned charge, which is the carry on the cash debit plus carry and borrow on the short side, and nothing while financing is off |
| `SimulatedBook.SimulatedPortfolio.ApplyCorporateAction` | backend/apps/backtests/portfolio.py:126-148 | One action changes one holding or cash, and nothing for a symbol that is not held |
| `SimulatedBook.SimulatedPortfolio.ApplyCorporateActions` | backend/apps/backtests/corporate_actions.py:104-114 | A day's actions on a symbol in their order |
| `SimulatedBook.SimulatedPortfolio.FillOrder` | backend/apps/backtests/portfolio.py:245-272 | Cash, holding, turnover and fill list after one fill |
| `SimulatedBook.SimulatedPortfolio.ResolveTargets` | backend/apps/backtests/portfolio.py:188-202 | The dictionary of target quantities, in first-decision order with the last decision's quantity |
| `SimulatedBook.SimulatedPortfolio.CapTargets` | backend/apps/backtests/portfolio.py:207-217 | Targets scaled pro rata into the gross budget the other holdings leave |
| `SimulatedBook.SimulatedPortfolio.ClipToFloor` | backend/apps/backtests/portfolio.py:232-242 | The quantity to trade: clipped to the cash above the floor, or nothing under a dollar |
| `SimulatedBook.SimulatedPortfolio.TradeTarget` | backend/apps/backtests/portfolio.py:230-243 | One target's turn in the third pass |
| `SimulatedBook.SimulatedPortfolio.Execute` | backend/apps/backtests/portfolio.py:152-243 | The three passes over the mutable book equal the specified plan traded in order, and the returned fills are the day's fills |
| `Simulation.ResolvedPriced` | backend/apps/backtests/portfolio.py:188-202 | Resolved targets are one per symbol and all have a positive price |
| `Decisions.ResolvesLastWords` | backend/apps/backtests/portfolio.py:188-202 | A target is resolved if and only if the last decision on its symbol that is not a hold to keep asks for it at a positive price: nothing for a sale or a hold that does not keep, otherwise the weight's share of the equity |
| `Decisions.HoldsAreKept` | backend/apps/backtests/portfolio.py:188-243 | Over a whole call: a symbol without a positive price, or on which every decision is a hold to keep, keeps its holding, or its absence |
| `Decisions.PlanFollowsDecisions` | backend/apps/backtests/portfolio.py:188-217 | The plan has one target for each symbol so decided, at what its last decision asks for times one scale between zero and one |
| `Decisions.CapFillsBudget` | backend/apps/backtests/portfolio.py:203-217 | That scale is one where the cap is off or the targets fit, and otherwise brings them to exactly what the other holdings leave of it, those at the day's price or, without one, at their mark |
| `Decisions.DecisionIsFollowed` | backend/apps/backtests/portfolio.py:188-272 | Over a whole call, the last decision moves the holding towards what it asks for: a reduction all the way, or nowhere under a dollar, an increase part of the way |
| `Decisions.SalesSell` | backend/apps/backtests/portfolio.py:188-272 | A final sale, or hold that does not keep, sells all of a long holding, whatever weight it carries, unless it is worth less than a dollar |
| `ExecutionBounds.PlanIsOrdered` | backend/apps/backtests/portfolio.py:219-228 | Trades are planned one per symbol and in ascending signed notional |
| `ExecutionBounds.TradeCash` | backend/apps/backtests/portfolio.py:230-272 | One trade: a reduction never lowers cash; a buy happens only above the floor and ends no lower than the floor minus the spread and commission on the cash above it |
| `ExecutionBounds.FloorHoldsFrom` | backend/apps/backtests/portfolio.py:230-243 | After any number of buys cash is either where the reductions left it or was set by a last buy made from above the floor |
| `ExecutionBounds.MarginFloor` | backend/apps/backtests/portfolio.py:219-272 | All reductions come before all buys and end with cash no lower than before; final cash is that level, or no lower than the floor less the costs of what lay above it before the last buy |
| `ExecutionBounds.TradedNotional` | backend/apps/backtests/portfolio.py:232-242 | The mid notional traded: reductions in full, buys up to the room above the floor, nothing under a dollar |
| `ExecutionBounds.BuyBreaksFloor` | backend/apps/backtests/portfolio.py:232-253 | A buy takes cash below the floor if and only if it asks for a dollar or more, finds a dollar or more of room, trades at a cost, and what it asks for does not fit the room together with that cost |
| `ExecutionBounds.ReductionPays` | backend/apps/backtests/portfolio.py:230-253 | A reduction of a dollar or more brings in exactly its mid notional less half-spread and commission, a smaller one nothing |
| `ExecutionBounds.ExecuteKeepsFloor` | backend/apps/backtests/portfolio.py:219-253 | From the opening cash, the plan's notionals and the costs alone, against the literal floor: if what the reductions bring in leaves cash below the floor nothing is bought and cash ends there; otherwise final cash is at or above the floor if and only if no planned buy overspends the room the ones before it leave |
| `ExecutionBounds.FloorIsBroken` | backend/apps/backtests/portfolio.py:232-253 | A concrete buy that does: all cash spent, one percent commission on top |
| `ExecutionBounds.FloorIs` | backend/apps/backtests/portfolio.py:222-228 | The floor is zero without leverage, and otherwise the equity less its multiple |
| `ExecutionBounds.TradeStaysBetween` | backend/apps/backtests/portfolio.py:230-272 | A trade never takes a holding beyond the larger of its old size and its target, never flips a long name with a long target, and ends within a dollar of the target's exposure unless it is the cover of a short that lacks room |
| `GrossCap.CappedWithinBudget` | backend/apps/backtests/portfolio.py:207-217 | After scaling, the targeted names fit the budget the untargeted holdings leave |
| `GrossCap.GrossIsCapped` | backend/apps/backtests/portfolio.py:188-243 | For a long-only book the final gross exposure is at most the larger of the budget and the untargeted holdings, plus one dollar per targeted name |
| `GrossCap.GrossIsCappedWithShorts` | backend/apps/backtests/portfolio.py:188-243 | With shorts the same holds whenever every planned cover finds room for its whole notional, read off the plan |
| `GrossCap.ShortsCanExceedCap` | backend/apps/backtests/portfolio.py:188-243 | A concrete book where a cover is clipped to nothing and the cap fails |
| `GrossCap.StaysLongOnly` | backend/apps/backtests/portfolio.py:188-272 | A long-only book with non-short decisions stays long-only |
| `GrossCap.NoNameOvershoots` | backend/apps/backtests/portfolio.py:188-243 | For any book, shorts included, no planned name ends larger than it was or than its target |
| `SimulatedValue.FillConservesValue` | backend/apps/backtests/portfolio.py:245-272 | A fill changes the value of the book at the traded price by exactly its half-spread and commission, up to written-off dust |
| `SimulatedValue.ExecuteConservesValue` | backend/apps/backtests/portfolio.py:152-243 | A whole call neither creates nor destroys value: the book is worth what it was, less the costs of the fills it made, up to dust |
| `SimulatedValue.FrictionIsACost` | backend/apps/backtests/portfolio.py:245-253 | At plausible costs no fill, buy or sell, has negative cost |
| `SimulatedValue.FilledBasis` | backend/apps/backtests/portfolio.py:254-268 | Adding, trimming, closing and crossing zero alike: quantity times average cost afterwards is the old basis plus the money paid plus the gain on the shares closed |
| `SimulatedValue.SplitKeepsHolding` | backend/apps/backtests/portfolio.py:126-133 | A split changes neither market value nor cost basis |
| `SimulatedValue.ActionMovesValue` | backend/apps/backtests/portfolio.py:126-148 | A corporate action moves the value of the book by what it is worth to the holding and by nothing else |
| `SimulatedValue.FinancingIsACost` | backend/apps/backtests/portfolio.py:89-122 | Financing is never negative and is exactly what the book loses |
| `SimulatedValue.DailyCharge` | backend/apps/backtests/portfolio.py:89-122 | A day's charge is the financing rate on the cash debit plus financing and borrow on the short holdings at their sizes, over 10000 basis points and 252 days |
| `SimulatedValue.ChargesNothingExactly` | backend/apps/backtests/portfolio.py:89-122 | Nothing is charged if and only if financing is off, or cash is not negative and no short has any value |
| `SimulatedValue.MarkingSetsMarks` | backend/apps/backtests/portfolio.py:81-87 | Marking sets the mark of a holding with a positive price and nothing else |
| `SimulatedValue.ActionSetsHolding` | backend/apps/backtests/portfolio.py:126-148 | A split multiplies the shares, a cash merger ends the position, a dividend changes no holding |
| `SimulatedValue.ExecuteTurnsOver` | backend/apps/backtests/portfolio.py:245-272 | Over a whole call turnover grows by the notionals of its fills, buys and sells alike |
| `SegmentValue.MarkingMovesValue` | backend/apps/backtests/portfolio.py:81-87 | Marking changes the value by quantity times the move of the mark, summed over the holdings |
| `SegmentValue.TradesTakeMoves` | backend/apps/backtests/portfolio.py:230-272 | Trading re-marks exactly the traded names: what that is worth is the quantity held before times the way from mark to price, summed over them |
| `SegmentValue.DayIsExplained` | backend/apps/backtests/engine.py:607-671 | The equity recorded for a day is the value before, plus mark moves and corporate actions, less financing and the costs of the recorded fills, up to dust |
| `SegmentValue.SegmentIsExplained` | backend/apps/backtests/engine.py:607-671 | The same from the opening to the final value over any number of days |
| `DayLoop.DaysAppend` | backend/apps/backtests/engine.py:176-246 | Running A then B with book, pending decisions and last date handed over equals one run over A followed by B |
| `DayLoop.BoundaryMark` | backend/apps/backtests/engine.py:63-76 | Marking a carried book at a segment's first day with the most recent earlier closes is the mark an unbroken run would have used |
| `DayLoop.LastDayDecides` | backend/apps/backtests/engine.py:230-246 | A segment whose last day is no rebalance day ends with nothing pending |
| `DayLoop.RecordShowsDay` | backend/apps/backtests/engine.py:607-671 | A day's record shows the cash, the holdings still held and the equity at its end, and decisions taken on that equity; they are what is pending for the next day |
| `DayLoop.TwoSegmentsAreOne` | backend/apps/backtests/engine.py:138-246 | Two abutting segments on one carried book give the same book and records as one run, if nothing is pending at the boundary |
| `DayLoop.SplitIsExact` | backend/apps/backtests/engine.py:176-237 | With decisions pending at the boundary, splitting changes nothing if and only if every trade planned for them at the next open is dust: a reduction under a dollar, or a buy that asks for or finds less than a dollar |
| `DayLoop.SplitCanLoseATrade` | backend/apps/backtests/engine.py:176-237 | A concrete two-day run that ends differently when split after a rebalance day |
| `SegmentLoop.PriorClosePrices` | backend/apps/backtests/engine.py:63-76 | The closes of the latest bar date strictly before a day, or none |
| `SegmentLoop.RunDay` | backend/apps/backtests/engine.py:607-671 | One day on the mutable book: mark, charge, act, trade what was decided before at the open, then decide and record |
| `SegmentLoop.RunSegmentDays` | backend/apps/backtests/engine.py:575-674 | The loop over days equals the segment specification; an earlier day's fill list is never read |
| `WalkForward.GenerateFolds` | backend/apps/backtests/walkforward.py:45-76 | Fold k has its in-sample window k steps in and its out-of-sample window right after, each of its length; every fold ends before the end, one more would not fit; a step that is not positive is refused |
| `WalkForward.FoldsAbut` | backend/apps/backtests/walkforward.py:45-76 | When the step is the out-of-sample window, each fold starts the day after the one before it ends |
| `WalkForward.RebalanceDates` | backend/apps/backtests/engine.py:680-701 | Every day, or exactly the first trading day of each period |
| `WalkForward.SegmentsAreOneRunExactly` | backend/apps/backtests/walkforward.py:190-222 | Any number of segments that tile their range, on one carried book, are one continuous run with the union of their rebalance days if and only if the decisions dropped at every boundary are dust on the next trading day |
| `WalkForward.CarriedSegmentsAreOneRun` | backend/apps/backtests/walkforward.py:190-222 | In particular they are when no segment but the last rebalances on its last day |
| `WalkForward.WalkForwardIsOneRun` | backend/apps/backtests/walkforward.py:287-326 | The same if-and-only-if for generated folds whose step is the out-of-sample window |
| `CycleSearch.DepthFirst.Visit` | backend/apps/graphs/validators.py:110-121 | A visit that reports a cycle is right; one that does not has blackened its node, in an order in which every edge leads back to an earlier node |
| `CycleSearch.Adjacency` | backend/apps/graphs/validators.py:103-109 | The adjacency lists hold exactly the edges |
| `CycleSearch.FinishedIsAcyclic` | backend/apps/graphs/validators.py:103-122 | An order of finishing over all nodes rules out every cycle |
| `CycleSearch.HasCycle` | backend/apps/graphs/validators.py:103-122 | True if and only if the edges contain a directed cycle, self-loops included |
| `GraphWiring.CanonicalEdges` | backend/apps/graphs/validators.py:81-96 | Exactly the two edges of each analyst and of each persona |
| `GraphWiring.EdgeErrors` | backend/apps/graphs/validators.py:197-225 | No issue if and only if the stored edges are the canonical ones and all their ends exist |
| `GraphWiring.NodeSetErrors` | backend/apps/graphs/validators.py:140-190 | No issue if and only if every node is allowed, no type occurs twice, and there is a persona and an analyst |
| `GraphWiring.ValidateGraph` | backend/apps/graphs/validators.py:125-237 | The validator accepts a draft if and only if it is well formed; a cycle is never its only fault |
| `GraphWiring.CompileGraph` | backend/apps/graphs/compiler.py:36-86 | The compiled edges are the canonical ones of the kept nodes plus the fixed tail |
| `GraphWiring.ValidDraftCompiles` | backend/apps/graphs/compiler.py:63-86 | An accepted draft compiles to its own stored edges plus the tail; the result is acyclic and puts every node on a path from the entry to the end |
| `Thinning.Span` | backend/apps/leaderboard/compute.py:252-254 | Seven calendar days per five trading days, rounded up, and at least one |
| `Thinning.KeepFirstRuns` | backend/apps/leaderboard/compute.py:321-325 | One decision per key and date, of its earliest run, standing for every decision there is |
| `Thinning.ThinToDisjoint` | backend/apps/leaderboard/compute.py:242-266 | The kept decisions come from the input, are a span apart per key, and every input decision lies within a span after a kept one; a window that is not positive keeps all |
| `Thinning.GreedyIsOptimal` | backend/apps/leaderboard/compute.py:242-266 | No selection with disjoint windows keeps more decisions |
| `Thinning.SelectDecisions` | backend/apps/leaderboard/compute.py:269-326 | Deduplicating and thinning the raw decisions is as large as any disjoint selection of them, re-runs included |
| `PeriodReturns.BuildPriceBook` | backend/apps/leaderboard/period_returns.py:64-92 | Per ticker strictly increasing dates, and for each day exactly the first row whose price, adjusted where there is one, is positive |
| `PeriodReturns.LookUp` | backend/apps/leaderboard/period_returns.py:96-104 | Binary search under the upper-case ticker finds the last close on or before a day |
| `PeriodReturns.LastClose` | backend/apps/leaderboard/period_returns.py:96-104 | That close is the one with no later date up to the day, and none only when every date is later |
| `PeriodReturns.DedupeKeepsLast` | backend/apps/leaderboard/period_returns.py:110-120 | Exactly the last cycle written for each date survives, in date order |
| `PeriodReturns.ComputeBookReturn` | backend/apps/leaderboard/period_returns.py:123-149 | The weighted return of the legs that can be priced, zero when every weight is zero or does not parse, none when no leg can be priced |
| `PeriodReturns.HasReturnExactly` | backend/apps/leaderboard/period_returns.py:123-149 | There is a return if and only if no leg has a weight, or some leg with a weight has a close for both ends, the first one positive |
| `PeriodReturns.FoldedAlike` | backend/apps/leaderboard/period_returns.py:96-104 | Tickers that differ only by case are priced alike |
| `PeriodReturns.ComputePeriods` | backend/apps/leaderboard/period_returns.py:152-181 | The loop yields the period of every cycle that has one, in order |
| `PeriodReturns.PeriodsAreDisjoint` | backend/apps/leaderboard/period_returns.py:152-181 | Periods are ordered, never overlap and stay inside the range |
| `PeriodReturns.PeriodsTile` | backend/apps/leaderboard/period_returns.py:152-181 | If none is dropped they tile from the first cycle to the end date without a gap |
| `PeriodReturns.ChainIsNetAssetValue` | backend/apps/leaderboard/period_returns.py:123-181 | Chaining the returns gives exactly the value of an account that buys shares by weight at each boundary, keeps the rest in cash and marks at the end |
| `PeriodReturns.SingleNameTelescopes` | backend/apps/leaderboard/period_returns.py:123-181 | A fully invested single name chains to its last price over its first |
| `ForwardReturns.ForwardReturn` | backend/apps/leaderboard/forward_returns.py:18-45 | The early-exit scan gives the return from the first distinct day to the n-th after it, or none |
| `ForwardReturns.QuotesAreFirstBars` | backend/apps/leaderboard/forward_returns.py:18-45 | The quotes read are exactly the first bar of each day from the start on, in increasing days |
| `ForwardReturns.ForwardReturnMeans` | backend/apps/leaderboard/forward_returns.py:18-45 | The return is the gain from the first day's close to the close n distinct days later over the first; none when days run out or the first close is not positive |
| `ForwardReturns.LaterStart` | backend/apps/leaderboard/forward_returns.py:64-109 | Collecting from an earlier day and skipping gives the same quotes as collecting from the later day |
| `ForwardReturns.BatchForwardReturns` | backend/apps/leaderboard/forward_returns.py:64-109 | Every requested pair gets exactly what the single lookup gives it, missing ones included, and no other pair appears |
| `MarketCalendar.Thanksgiving` | backend/apps/brokers/market_calendar.py:83-88 | The fourth Thursday of November |
| `MarketCalendar.BuildEarlyCloses` | backend/apps/brokers/market_calendar.py:91-104 | Exactly the candidates that are neither weekends nor full holidays |
| `MarketCalendar.NextOpen` | backend/apps/brokers/market_calendar.py:160-170 | Terminates for any finite set of holidays with the least session start strictly after the moment |
| `MarketCalendar.NextClose` | backend/apps/brokers/market_calendar.py:173-178 | The least session close strictly after the moment |
| `MarketCalendar.OpenMeansCloseComesFirst` | backend/apps/brokers/market_calendar.py:153-178 | The market is open if and only if the next close comes before the next open |
| `MarketCalendar.SessionHours` | backend/apps/brokers/market_calendar.py:115-157 | Open exactly on weekdays that are no holiday from 9:30 to 16:00, to 13:00 on half-days |
| `Metrics.DrawdownPct` | backend/apps/backtests/metrics.py:39-58 | In [0, 1], no smaller than any drop from a positive level to a later one, and zero or equal to one of them; a wiped-out level counts as a full drop |
| `Metrics.BenchmarkCurve` | backend/apps/backtests/metrics.py:213-235 | With a bar in the window, each point is the base times last price over first price; empty otherwise |
| `Metrics.BaselineCurve` | backend/apps/backtests/metrics.py:171-203 | On any number of tickers each point multiplies the one before by the mean growth of the tickers that have a price now and had one before |
| `Metrics.BasketStepsBetween` | backend/apps/backtests/metrics.py:193-199 | Every step lies between the growth of the worst and of the best ticker |
| `Metrics.OneTickerBasket` | backend/apps/backtests/metrics.py:171-235 | On one ticker that running product equals the anchored ratio of the benchmark curve at every date, gaps or not |

## Left out

- OrderProtocol.AtMostOnceAccepted: safety only; a worker that dies after its claim leaves the row in `submit_pending`, so no liveness is claimed, and refusals and rejected credentials are taken to mean the venue did not take the order.
- OrderPolling.LostExactly: starts at acknowledgement or `unknown`, since a crashed `submit_pending` row is not polled; assumes that answers to a submit and adopted records carry one leg per child and are not drafts.
- OrderPolling.NoLiveLegIsLost: for runs in which no status write parks a row once the order is acknowledged, which the code does not ensure; `OrderPolling.LostExactly` covers every run.
- BrokerAccounts.BrokerPortfolio.ReconcileAccount: accounts with a venue; the demo account's branch is `DemoFills.DemoAccount.EvaluateResting`.
- LedgerReplay.LedgerExplainsBook: for runs whose deliveries meet the exact condition of `LedgerReplay.DeliverKeeps`; `LedgerReplay.LedgerAccountsForBook` covers every run. Reported quantities are not negative.
- DemoFills.DemoBookStaysFunded: evaluations one after the other, each reading the order and the cash as they stand; `DemoFills.InterleavedExactly` covers evaluators at once, with a fill and the status write after it as one step.
- Reconciliation.SquaredBookMatchesVenue: cash is compared with the venue's cash to the cent, since the code rounds it first.
- WalkForward.WalkForwardIsOneRun: for a step equal to the out-of-sample window, since other steps leave gaps or overlaps.
- GrossCap.GrossIsCappedWithShorts: a condition under which the cap holds with shorts; it is not necessary, since a clipped cover can still end within the cap.
- Metrics.BenchmarkCurve: positive prices; a date's row without a usable price is a missing bar.
- ForwardReturns.BatchForwardReturns: rows sorted by day per ticker, and a window that is not negative; adjusted closes are present, as the column demands (`backend/apps/data/models.py:14`).
- MarketCalendar.NextOpen: wall-clock days and minutes in exchange time; time zones and daylight saving are not modelled.
- Rounding of stored numbers by the database columns (venue quantities and costs beyond their decimals) and the 28-digit context of decimal division.
- Binary floating point in the simulator and the statistics: modelled as real arithmetic.
- Sleeve books that mirror fills for attribution, and their logged failures.
- A crash between storing a fill row and booking it; each reconcile pass, resolution and sweep of a row is one atomic step, as is each transaction.
- Case folding of tickers: symbols are stored in upper case when orders are created, so the book compares them as they are; forward returns and price books take the folding as a parameter.
- The venue side of a user's cancel, order types beyond market, limit and stop in the demo account, and the fuzzy match by order details that one adapter uses to find lost orders.
- Issue texts, warnings and missing dictionary keys of a graph draft (a missing id or type is the empty string); the built-in sort is an insertion sort function with the same stable result.
- Position sizing, prompts, personas, attribution, the random search over parameters and the caching of agent outputs: the day loop takes decisions as given.
- The stitched out-of-sample curve, Sharpe, Sortino, beta, Wilson intervals and leg caps followed by renormalising.
- The price look-back window of a period's price query, which only bounds what is loaded.
- HTTP views, ORM, task scheduling, adapters, credentials and gateway sessions; the venue is its possible answers.
