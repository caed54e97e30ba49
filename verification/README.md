# A Dafny model of the travel platform's bookings, books and workers

This project models, in Dafny, the parts of a travel platform that keep shared records: the books of managed hotels,
the room inventory behind hotel bookings, the delivery of integration events, scheduled jobs, bus seats, a partner's
ledger, payout destinations and banquet venues, together with four computations (local time, canonical JSON, extras of a
stay and contract prices). `dafny verify dfyconfig.toml` checks everything.

## How it is built

Each component that changes stored records has four parts.

- **A state machine on values** (`HotelBooks`, `RoomInventory`, `Outbox`, `JobLease`, `SeatHolds`, `Ledger`,
  `PayoutAccounts`, `BanquetVenues`): tables, one function per transaction with every refusal in the order the code tests
  for it, `Apply` for one call and `Run` for a list of calls. A transaction is one step. Where the code reads first and
  writes later outside a transaction, the two are separate calls, so any interleaving is a run: quotes and approvals of
  rooms (reading, lock), their confirmations (compare-and-set, save, release), operators' edits of buses, workers of the
  outbox and of scheduled jobs, payroll postings, payout reviews. The few places where two are one step are named below.
- **Theorems over every run**: an invariant of all tables that every call keeps, and what follows from it.
- **Outcomes** (`...Outcomes`, `HotelBooksRefusals`): for each call, spelled on the rows rather than on the tests the
  transaction makes in turn, exactly when it is accepted, every row it changes and how, that nothing else changes, and that
  the reason of a refusal is so.
- **A class** (`...Store.Store`) whose fields are the tables and whose methods change them step by step, with the loops of
  the services. Each method is proved to leave exactly the state, and give exactly the answer, of the function it
  implements, so every theorem about runs speaks about these methods.

The computations are functions with theorems, and methods for the loops of the code.

The portal (`services/hotelBookingService.ts`) and the direct desk of a partner
(`services/partnerDirectBookingService.ts:199-247`, `339-415`) make the same calls on the same locks, so a run of
`RoomInventory` mixes both freely.

Tables are sequences and an identifier is a position; a request fingerprint is the request itself. Dates are day
numbers, instants are milliseconds (minutes in `LocalTime`), amounts are whole rupees. Clocks, the answers of outside
services, and facts kept by other parts of the system (a manager's permission, a partner calendar, whether a room is
ready) are parameters of the calls.

## What is proved, in short

- **Hotel books.** A closed day stays as it is: postings, corrections, discounts, split payments and service orders (which
  carry the date of their order) never add to it. Closes follow each other day by day. After checkout a folio
  grows only by corrections. Every order log replays. Cash counted in closed drawers is the cash posted to them, and so
  for each day closed since a date is stored. Repeating any keyed call changes nothing. A day closes exactly when nothing
  stands against it, and a posted order is charged under the category of its mode.
- **Rooms.** No night is oversold exactly while no lock is placed where its rooms no longer fit, so never if each is placed
  right after its reading; each converted lock has one owner in any interleaving; released is final; a lock whose booking
  could not be saved can be confirmed again exactly until the expiry it always had.
- **Workers.** A claim is settled once and only under its stamp, and only an administrator takes up a dead letter; retries
  wait one minute, then twice as long each time up to six hours; leases
  of a job never overlap in time; a succeeded run answers for ever what it answered first.
- **Seats.** One hand per seat; the seat map and the creation of holds agree exactly; a hold is a guarantee on a trip that
  is not edited meanwhile and whose reserved seats are on the bus; the maintenance batch makes no difference.
- **Ledger, payouts, banquets.** Books balance and mean what stands; the default destination is the one verified last;
  venues are exclusive.
- **Computations.** In every zone whose clock is not changed twice within 28 hours the two-pass solver finds the instant
  whenever there is one; the canonical form is a fixed point and forgets key order and nothing else; extras are charged
  by what their mode counts and never drift under amendments; contract prices never overflow and are monotone.

## What does not hold of the code

Each of these is a lemma with the inputs that show it; where a property holds under a condition, the condition is proved.

- Two quotes that both read before either makes its lock can sell the last room twice
  (`RoomInventoryNights.QuotesThatOverlapOversell`); when a night is oversold is stated exactly
  (`RoomInventoryNights.NeverOversoldExactly`).
- An operator's edit of a bus writes by what it looked up before: seats reserved meanwhile can be left outside, the trip
  oversold and a running hold refused as sold out (`SeatHoldsTheorems.LateWriteOversellsTheTrip`). The reserved seats are
  on the bus exactly when each such write was followed by another that was not one
  (`SeatHoldsTheorems.SeatsAreOnTheBusExactlyWithoutCuts`). An edit also looks at reservations only and can leave a held
  seat outside (`SeatHoldsTheorems.EditIgnoresHolds`). When a running hold can be booked is stated exactly
  (`SeatHoldsTheorems.HeldSeatsCanBeReserved`).
- The attempt limit of an event can be passed: the retry decision uses the attempts of an earlier reading
  (`OutboxTheorems.StaleReadingsExceedTheLimit`), and an administrator's retry keeps the attempts of a dead letter
  (`OutboxTheorems.RetriesExceedTheLimit`). Over every run it holds exactly without either
  (`OutboxTheorems.LimitsHoldExactlyWithoutOverruns`).
- A day closed before the date was ever stored need not reconcile with its drawers
  (`HotelBooksDays.OvernightDrawerDoesNotReconcile`); when a day does is stated exactly
  (`HotelBooksDays.ClosedDaysReconcileExactly`), and each does if all calls before the first close are made on one
  calendar day (`HotelBooksDays.ClosedDaysReconcile`).
- A cashier drawer with more than a hundred postings can never be closed and so stops the nightly close of its property
  (`HotelBooksRetries.OversizedDrawerStopsTheBooks`); a hundred and one payments reach it
  (`HotelBooksRuns.OneRupeeTooManyStopsTheBooks`), and a correction of an older payment can leave a drawer with less than
  no cash (`HotelBooksRuns.CorrectionLeavesLessThanNothing`). Which drawers can be closed is stated exactly in
  `HotelBooksRetries.DrawerClosesExactlyWithinLimits`.
- A key that was used for an expense hides later expenses under it (`LedgerTheorems.SecondExpenseIsLost`); an accepted
  expense is on record exactly when its key was fresh or had been used for the same category and amount
  (`LedgerTheorems.ExpenseIsRecordedExactlyUnderItsOwnKey`).
- Maintenance takes a succeeded delivery for its own (`JobLeaseTheorems.MaintenanceReportsADelivery`), exactly when one
  succeeded under its correlation id (`JobLeaseTheorems.MaintenanceAnswersForDeliveries`).
- A worker that loses the race for a correlation id leaves the lease taken with nobody working
  (`JobLeaseTheorems.LostRaceLeavesTheLease`); when that happens, and how long the job then waits, is stated exactly
  (`JobLeaseTheorems.HoldersAreLostExactlyOnTakenIds`, `LeftLeasesHoldOthersOff`, `LeftLeasesAreTakenWhenTheyRunOut`).
- An approved amendment can pass the limit of the partner calendar, which it does not look at
  (`RoomInventoryNights.AmendmentPassesThePartnerLimit`); the limit survives exactly when the booking's rooms fit beside
  the others (`RoomInventoryNights.ApprovalsKeepPartnerLimitsExactlyWhenTheyFit`).
- The canonical form keeps the order of names that the collation ties (`CanonicalJsonTies.KeyOrderIsForgottenExactlyWithoutTies`).
- An approved amendment prices the room by the nightly rate even where a calendar set another charge
  (`AddonPricingTheorems.CalendarChargeIsLost`); the price is the fresh one exactly where none did
  (`AddonPricingTheorems.AmendedPriceIsFreshExactlyWithoutCalendar`).

## Model

| member | source | states |
|---|---|---|
| HotelBooksHistory.ClosedDaysAreFrozen | services/partnerNightAuditService.ts:248-301 | Once a day of a property is closed, the list of folio entries dated that day or earlier stays exactly the same through every later run of calls |
| HotelBooksHistory.NewEntriesCarryTheStoredDate | services/partnerHotelPosService.ts:414-446 | Every entry any call puts on a folio, a service posting with the date of its order included, carries the operational date stored for the property at that moment |
| HotelBooksHistory.ClosesAreGapFree | services/partnerNightAuditService.ts:281-301 | The closes of a property are consecutive days, one for each version of its date, and the stored date is the day after the last |
| HotelBooksHistory.NoDateIsClosedTwice | services/partnerNightAuditService.ts:281-292 | The unique pair of property and date never stops a close |
| HotelBooksHistory.CheckedOutFolioOnlyCorrected | services/partnerOperationsService.ts:300-340 | A guest leaves only with balance zero and no running order; afterwards, in every run, no order of the stay runs and the folio grows only by reversals of entries it had |
| HotelBooksHistory.OrderLogsReplay | services/partnerHotelPosService.ts:447-470 | For every order of every run the log has versions 1 to the version of the row, each move starts where the last ended, all moves are allowed ones and the last ends in the status of the row |
| HotelBooksHistory.PostedOrdersAreChargedOnce | services/partnerHotelPosService.ts:413-454 | Posted orders and service charges correspond one to one, the charge having the amount, date, folio and category of the order |
| HotelBooksHistory.RunIsLater | services/partnerHotelFolioService.ts:515-558 | Over every run entries, events and closes are only appended, closed shifts and finished orders never change, dates never go back, and no entry is attached to a closed shift |
| HotelBooksPreservation.ReachableBooksKeepInv | services/partnerHotelFolioService.ts:430-667 | The invariant of all seven tables holds in every reachable state |
| HotelBooksMoney.NetIsStanding | services/partnerHotelReportingService.ts:160-177 | Folding all entries of a folio, reversals included, gives the signed sum of the originals that no entry reverses |
| HotelBooksMoney.BalanceIsStandingEntries | lib/pms/folio.ts:127-165 | In every run a balance is the booking value plus standing charges less unrefunded online payment and standing payments |
| HotelBooksMoney.ReversalsMirrorOriginals | services/partnerHotelFolioService.ts:605-645 | Each original is reversed at most once, by a later entry of its folio with its amount and category, and reversals are never reversed |
| HotelBooksMoney.PostingMovesBalance | services/partnerHotelFolioService.ts:475-536 | A charge raises the balance of its folio by its amount, a payment lowers it by its amount and never below zero, and no other folio moves |
| HotelBooksMoney.DiscountMovesBalance | services/partnerSplitBillingService.ts:139-168 | A discount lowers the balance the caller expected by its amount and never below zero |
| HotelBooksMoney.SplitPaymentSettles | services/partnerSplitBillingService.ts:240-287 | A split payment leaves balance zero |
| HotelBooksMoney.ReversalUndoesOriginal | services/partnerHotelFolioService.ts:605-645 | A reversal takes exactly the effect of its original back out of the balance |
| HotelBooksMoney.ClosedDrawersReconcile | services/partnerHotelFolioService.ts:383-404 | For any set of closed shifts, counted cash less opening floats equals the signed cash entries attached to them |
| HotelBooksMoney.CashIsConserved | services/partnerHotelFolioService.ts:383-404 | In every run the closed shifts together account for exactly the cash posted to them |
| HotelBooksMoney.PaymentsSitInOneDrawer | services/partnerHotelFolioService.ts:515-536 | An entry has a shift exactly when it is a payment or the reversal of one, and the shift is of the property of its booking |
| HotelBooksMoney.ClosedDrawersAreFrozen | services/partnerHotelFolioService.ts:287-304 | The postings and the expected cash of a closed shift never change again |
| HotelBooksDays.ClosedDaysReconcile | services/partnerNightAuditService.ts:248-301 | Over every run from empty books whose calls before the first close of a property are made on one calendar day, each closed day of it reconciles: the cash dated that day is the cash counted over the floats of the drawers opened that day |
| HotelBooksDays.ClosedDaysReconcileExactly | services/partnerNightAuditService.ts:248-301 | Over every run from empty books, on whatever days its calls are made, a closed day reconciles exactly when the cash dated that day in drawers opened on other days is the cash of other days in the drawers opened that day |
| HotelBooksMoney.ClosedDaysReconcileFrom | services/partnerNightAuditService.ts:248-301 | The same from any books with a stored date whose drawers hold nothing of another date from that date on |
| HotelBooksDays.OvernightDrawerDoesNotReconcile | services/partnerNightAuditService.ts:248-301 | A run that keeps the first drawer open overnight before any close: the day that is closed has five hundred rupees of cash and no drawer opened on it |
| HotelBooksRetries.RetriesChangeNothing | services/partnerHotelFolioService.ts:455-474 | Any accepted keyed call (shift, posting, reversal, discount, split, order, move, close) repeated with its key after any other calls changes nothing and answers the same row |
| HotelBooksRetries.DrawerClosesExactlyWithinLimits | services/partnerHotelFolioService.ts:366-390 | The cashier of an open drawer can close it, by some count, exactly while it has at most a hundred postings and its expected cash is from zero to 10000000 |
| HotelBooksRetries.OversizedDrawerStopsTheBooks | services/partnerHotelFolioService.ts:370-382 | A drawer with more than a hundred postings can never be closed, and its property never sees another nightly close |
| HotelBooksRuns.OneRupeeTooManyStopsTheBooks | services/partnerHotelFolioService.ts:500-536 | A run of a hundred and one payments of one rupee into one drawer reaches such a drawer, and every run from there leaves it open and the date of its property unset |
| HotelBooksRuns.CorrectionLeavesLessThanNothing | services/partnerHotelFolioService.ts:366-390 | A run that counts out a payment of five hundred and corrects it while the next drawer is open leaves that drawer expecting minus five hundred, which no call can close |
| HotelBooksStore.Store.OpenShift | services/partnerHotelFolioService.ts:245-324 | The whole new state and answer of opening a cashier shift, all refusals included, as the transition of the state machine |
| HotelBooksStore.Store.CloseShift | services/partnerHotelFolioService.ts:326-428 | The whole new state and answer of closing a shift against its expected cash, all refusals included, as the transition of the state machine |
| HotelBooksStore.Store.Post | services/partnerHotelFolioService.ts:430-560 | The whole new state and answer of posting a charge or payment, all refusals included, as the transition of the state machine |
| HotelBooksStore.Store.Reverse | services/partnerHotelFolioService.ts:562-667 | The whole new state and answer of reversing an entry, all refusals included, as the transition of the state machine |
| HotelBooksStore.Store.ApplyDiscount | services/partnerSplitBillingService.ts:100-192 | The whole new state and answer of discounting a folio, all refusals included, as the transition of the state machine |
| HotelBooksStore.Store.SplitPayment | services/partnerSplitBillingService.ts:194-310 | The whole new state and answer of settling a folio by two to four payments, all refusals included, as the transition of the state machine |
| HotelBooksStore.Store.PlaceOrder | services/partnerHotelPosService.ts:176-309 | The whole new state and answer of placing a service order, all refusals included, as the transition of the state machine |
| HotelBooksStore.Store.MoveOrder | services/partnerHotelPosService.ts:319-502 | The whole new state and answer of moving a service order and charging it, under the category of its mode, when posted, all refusals included, as the transition of the state machine |
| HotelBooksStore.Store.CloseDay | services/partnerNightAuditService.ts:196-322 | The whole new state and answer of the nightly close, all refusals included, as the transition of the state machine |
| HotelBooksStore.Store.ChangeStay | services/partnerOperationsService.ts:219-390 | The whole new state and answer of check-in, check-out and no-show, all refusals included, as the transition of the state machine |
| HotelBooksStore.Store.ReadFolio | lib/pms/folio.ts:127-165 | The loop over a folio returns its size and its balance |
| HotelBooksStore.Store.ReadDrawer | lib/pms/folio.ts:167-179 | The loop over a drawer returns its size and its expected cash |
| HotelBooksStore.Store.CountBlockers | services/partnerNightAuditService.ts:39-132 | The counted blockers are positive exactly when a running order, open drawer, unresolved arrival, overdue departure or other item stands against the close |
| HotelBooksStore.Store.CountActiveOrdersOf | services/partnerHotelPosService.ts:514-530 | The count is positive exactly when an order of the stay is running |
| HotelBooksOutcomes.BalanceAddsUp | lib/pms/folio.ts:127-165 | A balance is the booking value, less the online payment that was not refunded, plus each charge, less each discount and payment, each reversal taking its original back |
| HotelBooksOutcomes.DrawerAddsUp | lib/pms/folio.ts:167-179 | The cash of a drawer is its cash payments less the reversals of cash payments |
| HotelBooksOutcomes.FolioSizeCounts | services/partnerHotelFolioService.ts:472-500 | The limit of a hundred counts the entries of that folio |
| HotelBooksOutcomes.DrawerSizeCounts | services/partnerHotelFolioService.ts:366-382 | The limit of a hundred counts the postings of that drawer |
| HotelBooksOutcomes.DrawersOpenExactly | services/partnerHotelFolioService.ts:245-324 | Under a fresh key a drawer is opened exactly for a float from 0 to 10000000, at a property the partner runs, by a cashier without an open drawer there; nothing else changes |
| HotelBooksOutcomes.DrawersCloseExactly | services/partnerHotelFolioService.ts:326-428 | Under a fresh key an open drawer of at most a hundred postings is closed exactly by its cashier, holding its version, with a count equal to its float and the cash posted to it |
| HotelBooksOutcomes.PostingsExactly | services/partnerHotelFolioService.ts:430-560 | Under a fresh key an entry is posted exactly for an amount, category and stay in order and, if a payment, with permission, an open drawer and no more than the balance; it carries the stored date and, exactly if a payment, the drawer of the cashier |
| HotelBooksOutcomes.ReversalsExactly | services/partnerHotelFolioService.ts:562-667 | Under a fresh key an entry is reversed exactly once and never if itself a reversal, and a payment only into an open drawer of the caller |
| HotelBooksOutcomes.DiscountsExactly | services/partnerSplitBillingService.ts:100-192 | Under a fresh key a discount is given exactly by permission, with a reason, on the balance the caller saw and no more than it |
| HotelBooksOutcomes.SplitsExactly | services/partnerSplitBillingService.ts:194-310 | Under fresh keys a split payment is taken exactly for two to four payments that sum to the balance the caller saw, into the drawer of the caller; entry by entry the parts are posted in their order |
| HotelBooksOutcomes.OrdersExactly | services/partnerHotelPosService.ts:176-309 | Under a fresh key an order is placed exactly for a guest in the house, with a room unless at an outlet, at the desk of its mode |
| HotelBooksOutcomes.MovesExactly | services/partnerHotelPosService.ts:319-502 | Under a fresh key an order is moved exactly along the moves its mode knows, in the version the caller saw, with a reason to cancel and otherwise a guest in the house; posting it charges its own amount, date and folio under the category of its mode |
| HotelBooksOutcomes.ChargesFollowTheMode | services/partnerHotelPosService.ts:413-424 | Over every run the charge of a posted order is of category room service, laundry, minibar, spa or food and beverage exactly for an order of the room service, laundry, minibar, spa or outlet mode |
| HotelBooksOutcomes.MovesFollowTheMode | lib/pms/pointOfSale.ts:165-193 | Over every run an order is accepted when placed, cancelled only when placed or accepted, and posted from accepted in the minibar mode and from ready in any other |
| HotelBooksOutcomes.DaysCloseExactlyWhenClear | services/partnerNightAuditService.ts:248-301 | In every reachable state a close under a fresh key succeeds exactly when it names the stored day and version and no confirmed booking of the property has yet to arrive by that day or leave by it, no order is between placed and ready, no drawer is open and no other item stands against it; the answer is that it is blocked exactly when the call is right and one of these does |
| HotelBooksOutcomes.StaysChangeExactly | services/partnerOperationsService.ts:219-390 | A guest checks in exactly between check-in and check-out date with rooms ready, is a no-show from the check-in date on, and leaves exactly with balance zero and every order posted or cancelled |
| HotelBooksOutcomes.UsedFolioKeys | services/partnerHotelFolioService.ts:455-474 | A used folio key is answered by its own entry exactly for the same request, refused otherwise, and never changes anything |
| HotelBooksOutcomes.UsedDrawerKeys | services/partnerHotelFolioService.ts:256-272 | A used key of a drawer is answered by that drawer exactly for the same cashier and count, and never changes anything |
| HotelBooksOutcomes.UsedOrderKeys | services/partnerHotelPosService.ts:208-219 | A used order key is answered by its order exactly for the same request |
| HotelBooksOutcomes.UsedMoveKeys | services/partnerHotelPosService.ts:337-358 | A used move key never changes anything and is refused for any other request |
| HotelBooksOutcomes.UsedCloseKeys | services/partnerNightAuditService.ts:222-233 | A used close key is answered by its close exactly for the same request |
| HotelBooksRefusals.OpeningsRefusedTruly | services/partnerHotelFolioService.ts:245-324 | Whatever reason an opening is refused for is so on the rows: each error that can be answered is tied to the fact it names |
| HotelBooksRefusals.ClosingsRefusedTruly | services/partnerHotelFolioService.ts:326-428 | Whatever reason a closing is refused for is so on the rows: each error that can be answered is tied to the fact it names |
| HotelBooksRefusals.PostingsRefusedTruly | services/partnerHotelFolioService.ts:430-560 | Whatever reason a posting is refused for is so on the rows: each error that can be answered is tied to the fact it names |
| HotelBooksRefusals.ReversalsRefusedTruly | services/partnerHotelFolioService.ts:562-667 | Whatever reason a reversal is refused for is so on the rows: each error that can be answered is tied to the fact it names |
| HotelBooksRefusals.DiscountsRefusedTruly | services/partnerSplitBillingService.ts:100-192 | Whatever reason a discount is refused for is so on the rows: each error that can be answered is tied to the fact it names |
| HotelBooksRefusals.SplitsRefusedTruly | services/partnerSplitBillingService.ts:194-310 | Whatever reason a split payment is refused for is so on the rows: each error that can be answered is tied to the fact it names |
| HotelBooksRefusals.OrdersRefusedTruly | services/partnerHotelPosService.ts:176-309 | Whatever reason an order is refused for is so on the rows: each error that can be answered is tied to the fact it names |
| HotelBooksRefusals.MovesRefusedTruly | services/partnerHotelPosService.ts:319-502 | Whatever reason a move is refused for is so on the rows: each error that can be answered is tied to the fact it names |
| HotelBooksRefusals.DaysRefusedTruly | services/partnerNightAuditService.ts:196-322 | Whatever reason a nightly close is refused for is so on the rows: each error that can be answered is tied to the fact it names |
| HotelBooksRefusals.StaysRefusedTruly | services/partnerOperationsService.ts:219-390 | Whatever reason a change of stay is refused for is so on the rows: each error that can be answered is tied to the fact it names |
| RoomInventoryNights.NeverOversoldExactly | services/hotelBookingService.ts:184-278 | Over every interleaving of quotes, approvals, confirmations, failed saves, releases, cancellations and expiries, each reading apart from its writing: no night of any room type is ever kept by more rooms than it has exactly when no lock was made and no lock moved where its rooms no longer fitted |
| RoomInventoryNights.StepKeepsCapacityExactly | services/hotelBookingService.ts:184-278 | From a state that oversells no night, a step oversells one exactly when it makes or moves a lock whose rooms no longer fit on a night of its stay |
| RoomInventoryNights.OverplacedHoldsAreStale | services/hotelBookingService.ts:184-278 | A lock that no longer fits was read when fewer rooms were kept on one of its nights |
| RoomInventoryNights.NeverOversoldWithoutOverlap | services/hotelBookingService.ts:184-278 | In runs in which every lock is made, and every approved change written, with nothing in between since its reading, no night is ever oversold |
| RoomInventoryNights.QuotesThatOverlapOversell | services/hotelBookingService.ts:184-278 | A run of two quotes for the only room that both read before either makes its lock: the room is kept twice |
| RoomInventoryNights.QuotesRespectNightLimits | services/hotelBookingService.ts:190-278 | Over every run between the reading of a quote and its lock, the lock adds its rooms to what each night keeps by then, and stays within the manual limit and the limit of the partner calendar it read if no more is kept by then than it read |
| RoomInventoryNights.ApprovedNightIsKept | services/hotelBookingService.ts:877-954 | After an approved change is written each new night keeps exactly what other locks keep on it and, unless the booking was cancelled meanwhile, its rooms, even where the old and the new stay overlap |
| RoomInventoryNights.ApprovalsRespectManualLimits | services/hotelBookingService.ts:877-954 | Over every run between the review of a change and its writing, each new night stays within the manual limit that was read if others keep no more by then than was read |
| RoomInventoryNights.ApprovalsKeepPartnerLimitsExactlyWhenTheyFit | services/hotelBookingService.ts:877-893 | The limit of the partner calendar survives an approval on all new nights exactly when the rooms of the booking fit beside what others keep on each |
| RoomInventoryNights.AmendmentPassesThePartnerLimit | services/hotelBookingService.ts:877-893 | A run in which a quote keeps the last room the partner allows for a night and an approved change then takes a second one |
| RoomInventoryTheorems.ConvertedLocksHaveOneOwner | services/hotelBookingService.ts:417-472 | In any interleaving a lock is converted exactly while one confirmation in flight or one confirmed booking owns it, never two owners |
| RoomInventoryTheorems.BookingsNeverShareALock | repositories/bookingRepository.ts:258-278 | No two bookings share a lock; the lock of a confirmed booking is converted, that of a cancelled one released |
| RoomInventoryTheorems.GoneIsFinal | repositories/availabilityLockRepository.ts:130-137 | A released lock, or an unconfirmed one that ran out, is never converted again |
| RoomInventory.OverrideRangeSetsItsNights | repositories/inventoryOverrideRepository.ts:42-68 | Setting a range sets every night of it and no other |
| RoomInventoryStore.Store.Look | services/hotelBookingService.ts:138-263 | The whole new state and answer of the reading of a quote, all refusals included, as the transition of the state machine |
| RoomInventoryStore.Store.Save | repositories/bookingRepository.ts:359-400 | The whole new state and answer of storing the booking of a confirmation, or its failure as the transition of the state machine |
| RoomInventoryStore.Store.RequestChange | services/hotelBookingService.ts:601-640 | The whole new state and answer of a change request as the transition of the state machine |
| RoomInventoryStore.Store.ReviewChange | services/hotelBookingService.ts:835-898 | The whole new state and answer of the reading of an approval, all refusals included, as the transition of the state machine |
| RoomInventoryStore.Store.SetOverride | services/hotelBookingService.ts:795-833 | The whole new state and answer of a manual limit for a range of nights as the transition of the state machine |
| RoomInventoryStore.Store.Convert | repositories/availabilityLockRepository.ts:130-137 | The compare-and-set of a confirmation takes an unexpired active lock; from any state within the invariant (one owner for each converted lock, readings that were free when read) it leaves one within it |
| RoomInventoryStore.Store.Release | repositories/availabilityLockRepository.ts:195-207 | After a failed save a lock goes back to active while its expiry is ahead and to expired otherwise; from any state within the invariant (one owner for each converted lock, readings that were free when read) it leaves one within it |
| RoomInventoryStore.Store.Cancel | repositories/bookingRepository.ts:258-278 | A booking is cancelled and its lock released; from any state within the invariant (one owner for each converted lock, readings that were free when read) it leaves one within it |
| RoomInventoryStore.Store.Decline | repositories/amendmentRepository.ts:178-186 | A pending change is declined; from any state within the invariant (one owner for each converted lock, readings that were free when read) it leaves one within it |
| RoomInventoryStore.Store.Hold | services/hotelBookingService.ts:271-278 | The lock of a quote is made by what the quote read; from any state within the invariant (one owner for each converted lock, readings that were free when read) it leaves one within it |
| RoomInventoryStore.Store.Check | repositories/amendmentRepository.ts:76-81 | The last look before an approval is written passes only a pending change of a confirmed booking; from any state within the invariant (one owner for each converted lock, readings that were free when read) it leaves one within it |
| RoomInventoryStore.Store.Move | repositories/amendmentRepository.ts:84-113 | The transaction of an approval moves the lock and looks at nothing again; from any state within the invariant (one owner for each converted lock, readings that were free when read) it leaves one within it |
| RoomInventoryOutcomes.NightsAreCounted | repositories/availabilityLockRepository.ts:156-176 | The rooms kept on a night are those of the confirmed locks and of the holds still in time whose stay has that night |
| RoomInventoryOutcomes.HoldsExactly | services/hotelBookingService.ts:271-278 | The lock of a quote is for its own rooms and nights and runs out ten minutes from its making |
| RoomInventoryOutcomes.ConvertsExactly | repositories/availabilityLockRepository.ts:130-137 | A lock can be confirmed exactly while it is held and in time |
| RoomInventoryOutcomes.ReleasesExactly | repositories/availabilityLockRepository.ts:195-207 | A release is for a confirmation whose booking could not be saved, and only once |
| RoomInventoryOutcomes.CancelsExactly | repositories/bookingRepository.ts:258-278 | A cancelled booking is no longer confirmed and its own lock is released, no other |
| RoomInventoryOutcomes.ExpiresExactly | services/maintenanceAutomationService.ts:143-160 | Maintenance writes off exactly a hold that ran out |
| RoomInventoryOutcomes.DeclinesExactly | repositories/amendmentRepository.ts:178-186 | Exactly a pending change is declined, and nothing else of the stay changes |
| RoomInventoryOutcomes.ChecksExactly | repositories/amendmentRepository.ts:76-81 | In every reachable state the last look passes exactly while the change is pending and its booking confirmed |
| RoomInventoryOutcomes.MovesExactly | repositories/amendmentRepository.ts:84-113 | In every reachable state a change that was looked at moves exactly the lock of its booking to the new nights and is approved |
| RoomInventoryOutcomes.ChangesRefusedTruly | services/hotelBookingService.ts:601-640 | Each reason a change or a manual limit is refused for is so on the booking, its lock and the room type |
| RoomInventoryTheorems.ReleasesGiveTheLockBack | repositories/availabilityLockRepository.ts:195-207 | An accepted release leaves the lock active exactly while its expiry is ahead and expired otherwise; nothing else of it and no other lock changes |
| RoomInventoryTheorems.FailedSavesCanBeTriedAgain | repositories/availabilityLockRepository.ts:195-207 | After a failed save and its release, and any run in which nobody else confirms the lock, the lock can be confirmed again exactly while the clock is before the expiry it had when it was held |
| RoomInventoryOutcomes.LooksExactly | services/hotelBookingService.ts:138-263 | A quote in order finds its rooms exactly when they fit, beside the confirmed and running locks on any night of the stay, under the rooms there are, the manual limits of its nights and the limit of the partner; overdue holds of the room type are written off on the way |
| RoomInventoryOutcomes.ReviewsExactly | services/hotelBookingService.ts:835-898 | The reading of an approval finds its rooms exactly when they fit beside the locks of others on the new nights, under the rooms there are and the manual limits |
| RoomInventoryOutcomes.LimitIsLeast | repositories/inventoryOverrideRepository.ts:30-40 | The limit of a stay is the least of the rooms there are and of the manual limits of its nights |
| RoomInventoryOutcomes.SavesExactly | repositories/bookingRepository.ts:359-400 | A booking is stored exactly when neither its lock nor its key was used for one and nothing else fails |
| RoomInventoryOutcomes.RequestsExactly | services/hotelBookingService.ts:601-640 | A change is requested exactly for a confirmed booking without a pending change and for other dates than it has |
| RoomInventoryOutcomes.LimitsAreSetExactly | services/hotelBookingService.ts:795-833 | A manual limit from zero to the rooms there are is set on exactly the nights of a range that does not begin before today |
| RoomInventoryOutcomes.QuotesRefusedTruly | services/hotelBookingService.ts:138-263 | Each reason a quote is refused for is so: the dates, the occupancy, the room, the stop of the partner calendar, the rooms that do not fit, or the missing price |
| RoomInventoryOutcomes.ApprovalsRefusedTruly | services/hotelBookingService.ts:835-898 | Each reason the reading of an approval is refused for is so on the change, the booking and the locks |
| RoomInventoryStore.Store.FindReserved | repositories/availabilityLockRepository.ts:156-176 | Expires the overdue holds of the room type and returns the rooms of the live locks that overlap the stay |
| RoomInventoryStore.Store.FindLimitForStay | repositories/inventoryOverrideRepository.ts:30-40 | The least manual limit over the nights of the stay, if there is one |
| RoomInventoryStore.Store.EnumerateNights | repositories/inventoryOverrideRepository.ts:3-12 | The nights from check-in up to, not including, check-out, each once and in order |
| RoomInventoryStore.Store.ExpireBatch | services/maintenanceAutomationService.ts:143-160 | Of the selected locks those active and overdue expire, and they are counted |
| OutboxTheorems.ClaimsAreSettledOnce | services/integrationOutboxService.ts:77-129 | In any interleaving of workers with distinct stamps no worker settles a row twice, the attempts of a row are its settlements, and a worker reports exactly what it delivered |
| OutboxTheorems.DeliveredWasAccepted | services/integrationOutboxService.ts:83-105 | A delivered row was accepted by the adapter for the very worker and claim that settled it |
| OutboxTheorems.RowsChangeOnlyUnderTheirStamp | services/integrationOutboxService.ts:61-66 | A row changes only when its lease ran out, when it is claimed while queued, when the worker whose stamp it carries settles it, or when an administrator who loaded it as it is puts it back or sets it aside |
| OutboxTheorems.FinalRowsChangeOnlyByReview | app/api/v1/admin/operations/integrations/[eventId]/route.ts:31-68 | Delivered and ignored rows never change again; over every run a dead letter changes exactly when a review of it by an administrator is accepted |
| OutboxTheorems.OneReviewPerLoadedRow | app/api/v1/admin/operations/integrations/[eventId]/route.ts:37-58 | Over every run, of two administrators who loaded a row in one version only one can decide on it, and the decision is recorded |
| OutboxTheorems.StepKeepsLimitExactly | services/integrationOutboxService.ts:107-129 | While all rows are within their allowed attempts, a step keeps them there exactly unless it is a failure under the stamp of the worker with attempts left by the reading and none left by the row, or a retry by an administrator of a row with none left |
| OutboxTheorems.LimitsHoldExactlyWithoutOverruns | lib/integrations/outbox.ts:6-20 | Over every run all rows are within their allowed attempts all the way exactly when no step was such a failure or such a retry |
| OutboxTheorems.OverrunsAreStale | services/integrationOutboxService.ts:67-81 | In every run such a failure was decided on a reading older than the row, whose limit is more than one attempt |
| OutboxTheorems.DeadLettersAreSpent | app/api/v1/admin/operations/integrations/[eventId]/route.ts:44-54 | In every run a dead letter has no attempts left, so each retry of one lets it pass its limit |
| OutboxTheorems.StaleReadingsExceedTheLimit | services/integrationOutboxService.ts:67-81 | Two workers that read one row before either claims it use up its two attempts and leave it queued |
| OutboxTheorems.RetriesExceedTheLimit | app/api/v1/admin/operations/integrations/[eventId]/route.ts:44-54 | A run with fresh readings only: one attempt is allowed, it fails, an administrator retries the dead letter, and it fails a second time |
| OutboxTheorems.FailuresWait | lib/integrations/outbox.ts:6-20 | A fenced failure with attempts left queues the row for 1, 2, 4, 8, 16, 32, 64, 128 or 256 minutes after its first to ninth failure and for 360 from the tenth on; without attempts left it is given up at the moment of the failure |
| OutboxTheorems.WaitsDouble | lib/integrations/outbox.ts:15-18 | Each further failure waits twice as long as the one before it and never more than six hours |
| OutboxOutcomes.StartsExactly | services/integrationOutboxService.ts:51-66 | A worker that starts puts back exactly the rows locked for more than fifteen minutes |
| OutboxOutcomes.ReadsExactly | services/integrationOutboxService.ts:67-71 | A worker reads up to 25 queued rows that are due, none twice, with their attempts and limits as they are |
| OutboxOutcomes.ClaimsExactly | services/integrationOutboxService.ts:77-81 | A worker at a row stamps it with its own start exactly while the row is queued, and passes over it otherwise |
| OutboxOutcomes.DeliversExactly | services/integrationOutboxService.ts:83-92 | An accepted delivery is on record for that row and worker; a rejected one leaves every row as it is |
| OutboxOutcomes.ReviewsExactly | app/api/v1/admin/operations/integrations/[eventId]/route.ts:31-68 | A decision is made exactly on a queued or dead row in the loaded version: a retry is due at once and keeps the attempts, otherwise the row is set aside |
| OutboxOutcomes.CompletesExactly | services/integrationOutboxService.ts:92-106 | A row is delivered, once counted and released, exactly under the stamp of the worker whose delivery was accepted and stored |
| OutboxOutcomes.FailsExactly | services/integrationOutboxService.ts:107-131 | A failure counts one attempt and gives the row up exactly when the reading has no attempt left after it, both only under the stamp of the worker; the counters of the worker count it in any case |
| OutboxStore.Store.Recover | services/integrationOutboxService.ts:61-66 | Puts back exactly the claims whose lease ran out and counts them |
| OutboxStore.Store.SelectDue | services/integrationOutboxService.ts:67-71 | The due rows in order of their next attempt and age, up to the limit, none left out that comes earlier |
| OutboxStore.Store.ClaimEvent | services/integrationOutboxService.ts:77-81 | Takes a row only while it is queued and keeps the invariant of the interleaved workers |
| OutboxStore.Store.CompleteEvent | services/integrationOutboxService.ts:92-106 | Marks a row delivered exactly when the stamp of the worker is still on it, and keeps the invariant of the interleaved workers |
| OutboxStore.Store.FailEvent | services/integrationOutboxService.ts:107-131 | Queues a row again, for the wait that FailuresWait gives minute by minute, or gives it up, only under the stamp of the worker, and keeps the invariant of the interleaved workers |
| OutboxStore.Store.ReviewEvent | app/api/v1/admin/operations/integrations/[eventId]/route.ts:31-68 | Done exactly while the row is queued or dead and in the loaded version; keeps the invariant of the interleaved workers |
| OutboxStore.Store.DeliverPending | services/integrationOutboxService.ts:51-135 | One whole pass is a run of the protocol: every selected row is settled by its outcome, all others are only recovered, and the four counters are right |
| JobLeaseTheorems.TenuresNeverOverlap | services/integrationOutboxAutomationService.ts:94-131 | Over every run, of two tenures of a job the earlier ends, by expiry or hand-back, before the later begins |
| JobLeaseTheorems.LateWorkersLeaveTheLease | services/integrationOutboxAutomationService.ts:198-220 | A worker that finishes after another took the lease changes no lease; the last to take it ends it at that moment |
| JobLeaseTheorems.EndedRunsStay | services/integrationOutboxAutomationService.ts:187-220 | A run that succeeded or failed never changes again |
| JobLeaseTheorems.RepeatedRunsAnswerTheSame | services/integrationOutboxAutomationService.ts:51-92 | A job that succeeded under a correlation id is answered with that very summary for ever and nothing changes; it is refused instead exactly when a count is no safe integer |
| JobLeaseTheorems.MaintenanceAnswersForDeliveries | services/maintenanceAutomationService.ts:106-119 | A maintenance call is answered with the summary of a delivery exactly when its lease and correlation id are valid and some delivery succeeded under that id |
| JobLeaseTheorems.MaintenanceReportsADelivery | services/maintenanceAutomationService.ts:106-119 | A run of one delivery after which maintenance under the same id does nothing and reports the counts of the delivery |
| JobLeaseTheorems.HoldersAreLostExactlyOnTakenIds | services/integrationOutboxAutomationService.ts:165-172 | Whatever happened since it took the lease, a worker is lost at its record exactly when its correlation id is taken by then, and leaves the lease behind exactly when nobody took it over |
| JobLeaseTheorems.LeftLeasesHoldOthersOff | services/integrationOutboxAutomationService.ts:94-131 | Over every run from there, nobody takes the job before the lease left behind runs out, and until then that lease is untouched |
| JobLeaseTheorems.LeftLeasesAreTakenWhenTheyRunOut | services/integrationOutboxAutomationService.ts:94-131 | A worker that starts at the moment it runs out takes it, so the wait is exactly that long |
| JobLeaseTheorems.LostRaceLeavesTheLease | services/integrationOutboxAutomationService.ts:165-172 | A run of two starts under one id in which the second takes the lease after the first is done, is lost, and leaves it for five minutes |
| JobLeaseOutcomes.StartsExactly | services/integrationOutboxAutomationService.ts:133-163 | A run may start exactly under an unused id of up to 120 letters and for a lease its job allows: deliveries from 300 to 900 seconds, maintenance from 30 to 600, 120 unless it says |
| JobLeaseOutcomes.UsedIdsAnswerExactly | services/integrationOutboxAutomationService.ts:51-92 | A used id is answered by the stored summary exactly when its run succeeded, is one of the job (or the caller is maintenance) and, for a delivery, its counts are safe and add up |
| JobLeaseOutcomes.AcquiresExactly | services/integrationOutboxAutomationService.ts:94-131 | The lease is taken, for the seconds that were asked, exactly when there is none or it ran out by the moment the worker started |
| JobLeaseOutcomes.RecordsExactly | services/integrationOutboxAutomationService.ts:165-172 | A holder goes on record exactly while its id is unused, and is lost otherwise with its lease left as it is |
| JobLeaseOutcomes.FailuresAreStored | services/integrationOutboxAutomationService.ts:208-221 | A failure stores no counts and ends the lease and the tenure exactly if they are still its own |
| JobLeaseOutcomes.SuccessesAreStored | services/integrationOutboxAutomationService.ts:187-221 | A success stores every count in its place and their sum (of a delivery the delivered and the failed), and ends the lease and the tenure exactly if they are still its own |
| JobLeaseStore.Store.Acquire | services/integrationOutboxAutomationService.ts:94-131 | Creates the lease row or takes over one that ran out by the moment the worker started; tenures of a job stay apart |
| JobLeaseStore.Store.Start | services/integrationOutboxAutomationService.ts:157-163 | The look for an earlier run and its answer |
| JobLeaseStore.Store.Record | services/integrationOutboxAutomationService.ts:170-172 | Puts the run on record unless its correlation id is taken |
| JobLeaseStore.Store.Finish | services/integrationOutboxAutomationService.ts:187-221 | Ends the run row, and the lease row only under the token of the worker; a working run ended for good keeps the invariant |
| JobLeaseStore.Store.RunJob | services/integrationOutboxAutomationService.ts:133-224 | A whole run is a run of the protocol: a known correlation id changes nothing, otherwise one run row is added, with every count of the outcome in its place and their sum, and the lease ends when the job ends |
| SeatHoldsTheorems.SeatsAreInOneHand | services/busSeatHoldService.ts:97-148 | In every run a seat of a trip is in at most one hold, at most one reservation and never both, and a traveller has one hold per trip at most |
| SeatHoldsTheorems.SeatsAreOnTheBusExactlyWithoutCuts | app/api/v1/partner/bus-trips/[tripId]/route.ts:39-83 | Over every run, edits reading first and writing later: all reserved seats of a trip are on its bus exactly when every edit written below a place reserved by then was followed by one that was not |
| SeatHoldsTheorems.CutsAreStale | app/api/v1/partner/bus-trips/[tripId]/route.ts:63-83 | Such an edit looked before that place was reserved |
| SeatHoldsTheorems.TripsNeverOversell | services/partnerOperationsService.ts:2723-2750 | Under that condition the reserved seats of a trip never outnumber its capacity |
| SeatHoldsTheorems.LateWriteOversellsTheTrip | app/api/v1/partner/bus-trips/[tripId]/route.ts:39-83 | A run in which an edit looks, four seats are reserved, and the edit writes a capacity of three: four of three seats are reserved, and a running hold on an active trip that it fits is refused as sold out, as is one made afterwards |
| SeatHoldsTheorems.CreateAgreesWithSeatMap | services/busSeatHoldService.ts:177-200 | For a valid list on an active trip, creating a hold succeeds exactly when no seat of the list is unavailable to that traveller; otherwise nothing changes |
| SeatHoldsTheorems.HoldGuaranteesReservation | services/partnerOperationsService.ts:2696-2759 | Whatever others, the operator and the maintenance batch do, a traveller who books the held seats before the hold runs out gets them exactly if the trip is active by then, the seats fit it and the count leaves room; always if no edit of the trip was written meanwhile and its reserved seats were on the bus |
| SeatHoldsTheorems.HeldSeatsCanBeReserved | services/partnerOperationsService.ts:2696-2759 | In a reachable state a running hold can be booked exactly while its trip is active, its seats fit the trip and the count leaves room; the count always does while the reserved seats are on the bus |
| SeatHoldsTheorems.SoldOutOnlyAfterCuts | services/partnerOperationsService.ts:2732-2737 | The sold-out answer is given only after an edit that was written below a reserved place and not mended since |
| SeatHoldsTheorems.EditIgnoresHolds | app/api/v1/partner/bus-trips/[tripId]/route.ts:64-79 | After a run that schedules a trip, holds its last seat and looks for an edit, the edit is written and the held seat can no longer be booked |
| SeatHoldsTheorems.SweepsMakeNoDifference | services/maintenanceAutomationService.ts:130-142 | Taking every expired-hold batch out of any run changes no answer to a create, a booking or a look at the seat map |
| SeatHoldsTheorems.ReleaseSeesSweepsExactlyWhenExpired | services/busSeatHoldService.ts:170-175 | Only a release can tell, exactly for a hold that ran out and was in the batch |
| SeatHoldsOutcomes.HoldsExactly | services/busSeatHoldService.ts:53-168 | A hold of ten minutes is made exactly for one to six different seats of the bus of an active trip that are neither booked nor in a running hold of another; it replaces the own hold of the traveller on that trip and those that ran out, and no other |
| SeatHoldsOutcomes.ReservesExactly | services/partnerOperationsService.ts:2655-2759 | Held seats are booked exactly under an own running hold of the same seats, one for each passenger, on the bus, none booked, while the count leaves room |
| SeatHoldsOutcomes.ReleasesExactly | services/busSeatHoldService.ts:170-175 | A release deletes exactly the hold that is the own of the traveller, and says how many |
| SeatHoldsOutcomes.OccupiedAreBooked | services/partnerOperationsService.ts:2723-2737 | The seats counted against the capacity are exactly those of the reservations of the trip |
| SeatHoldsOutcomes.SchedulesExactly | app/api/v1/partner/bus-trips/[tripId]/route.ts:53-62 | A trip has from 1 to 80 seats and begins active |
| SeatHoldsOutcomes.EditsRefusedTruly | app/api/v1/partner/bus-trips/[tripId]/route.ts:53-83 | An edit is refused for its controls exactly when its capacity is outside 1 to 80, and otherwise for the booked seats exactly when it is below what its look found |
| SeatHoldsOutcomes.LooksExactly | app/api/v1/partner/bus-trips/[tripId]/route.ts:39-62 | An edit reads the controls of its trip, the highest place booked by then and the number of booked passengers |
| SeatHoldsOutcomes.SweepsExactly | services/maintenanceAutomationService.ts:130-142 | A batch deletes of its selected holds exactly those that ran out, and counts them |
| SeatHoldsOutcomes.WritesExactly | app/api/v1/partner/bus-trips/[tripId]/route.ts:53-83 | An edit is written exactly when its capacity is from 1 to 80 and not below what it read; what it does not ask for is written as it was read |
| SeatHoldsOutcomes.HoldsRefusedTruly | services/busSeatHoldService.ts:53-168 | Each reason a hold is refused for is so on the list, the trip, the reservations and the holds of others |
| SeatHoldsOutcomes.ReservationsRefusedTruly | services/partnerOperationsService.ts:2655-2759 | Each reason a booking is refused for is so on the trip, the hold and the reservations |
| SeatHoldsStore.Store.Create | services/busSeatHoldService.ts:53-168 | The whole new state and answer of creating a hold, rolled back when refused as the transition of the state machine |
| SeatHoldsStore.Store.Reserve | services/partnerOperationsService.ts:2655-2759 | The whole new state and answer of turning a hold into a reservation as the transition of the state machine |
| SeatHoldsStore.Store.Look | app/api/v1/partner/bus-trips/[tripId]/route.ts:39-52 | The whole new state and answer of the look of an operator edit as the transition of the state machine |
| SeatHoldsStore.Store.Write | app/api/v1/partner/bus-trips/[tripId]/route.ts:53-83 | The write of an operator edit by what it looked up, both capacity tests included; every seat stays in one hand |
| SeatHoldsStore.Store.Release | services/busSeatHoldService.ts:170-175 | Deletes the hold of its owner only; every seat stays in one hand |
| SeatHoldsStore.Store.UnavailableSeats | services/busSeatHoldService.ts:177-200 | Exactly the seats that are reserved or in a running hold of another traveller |
| SeatHoldsStore.Store.ValidateOwnedHold | services/busSeatHoldService.ts:202-230 | Accepts exactly a running hold of the traveller on the trip and date with the same set of seats |
| SeatHoldsStore.Store.SelectExpired | services/maintenanceAutomationService.ts:131-136 | The holds that ran out earliest, up to the limit |
| SeatHoldsStore.Store.Sweep | services/maintenanceAutomationService.ts:130-142 | Deletes the selected holds that ran out; when any is left, the batch was full |
| LedgerTheorems.DebitsEqualCredits | services/partnerExpenseService.ts:83-119 | Over every run all debits equal all credits, and so within every journal and against its stored totals |
| LedgerTheorems.AccountsAreStanding | services/partnerPayrollService.ts:66-130 | The net of any account of any partner is what its unreversed expenses and posted payroll records alone amount to |
| LedgerTheorems.OnePostedRecordPerPeriod | services/partnerPayrollService.ts:66-87 | However looks and writes interleave, of the records of one member and period only the last can be posted, and revisions rise |
| LedgerTheorems.PostedPayrollIsReversible | services/partnerPayrollService.ts:146-204 | A posted record can be reversed by whoever holds its version: its journal exists and is not reversed |
| LedgerTheorems.ExpensesAreReversedOnce | services/partnerExpenseService.ts:145-173 | Reversing an expense again answers the same reversal and changes nothing; no expense has two reversals |
| LedgerTheorems.ExpenseIsRecordedExactlyUnderItsOwnKey | services/partnerExpenseService.ts:83-119 | An accepted expense is on record with its own category and amount exactly when its key was fresh or had been used for the same |
| LedgerTheorems.ReusedExpenseKeyKeepsTheFirst | services/partnerExpenseService.ts:83-87 | Over every run in between, a later expense under a used key is answered with the first and is on record exactly when it names the same category and amount |
| LedgerTheorems.SecondExpenseIsLost | services/partnerExpenseService.ts:83-87 | A run of two expenses under one key, of five hundred and seven hundred rupees, leaves only the first in the books |
| LedgerReport.Summarize | lib/pms/accountingLedger.ts:7-32 | The loop returns both sides of every account over the postings that count, the two totals and whether they agree |
| LedgerReport.ReportsBalance | lib/pms/accountingLedger.ts:7-32 | The report over the postings of a partner balances in every run, and debit less credit of each account is what stands |
| LedgerReport.SidesAreSums | lib/pms/accountingLedger.ts:7-32 | A side of an account, and a total, is the sum of the postings of that direction whose amount is a safe integer that is not negative |
| LedgerReport.SummaryListsItsAccounts | lib/pms/accountingLedger.ts:7-32 | The accounts listed are exactly those with such a posting, zero amounts included, each with the sums of its two sides |
| LedgerOutcomes.ExpensesExactly | services/partnerExpenseService.ts:34-120 | Under a fresh key an expense is recorded exactly when its key, category, amount, description and property are in order: the cost on the debit side, paid from cash |
| LedgerOutcomes.ReversalsExactly | services/partnerExpenseService.ts:122-174 | A first reversal of an expense of the partner turns round every posting and exchanges the totals |
| LedgerOutcomes.LooksExactly | services/partnerPayrollService.ts:18-72 | A payroll posting in order is answered by the record of the highest revision while that is posted, and otherwise drafts the next revision |
| LedgerOutcomes.WritesExactly | services/partnerPayrollService.ts:73-131 | A draft is written exactly while its revision is not taken: gross pay on the debit side; deductions, if any, and what is left to pay on the other |
| LedgerOutcomes.PayrollReversalsExactly | services/partnerPayrollService.ts:133-206 | A posted record is reversed exactly by the holder of its version and with a reason, and every posting of its journal turned round |
| LedgerOutcomes.JournalsRefusedTruly | services/partnerExpenseService.ts:34-174 | Each reason an expense or its reversal is refused for is so |
| LedgerOutcomes.PayRefusedTruly | services/partnerPayrollService.ts:18-206 | Each reason a payroll call is refused for is so; a missing journal or a second reversal never stops one in a reachable state |
| LedgerStore.Store.PostExpense | services/partnerExpenseService.ts:34-120 | The whole new state and answer of recording an expense as the transition of the state machine |
| LedgerStore.Store.ReverseExpense | services/partnerExpenseService.ts:122-174 | The whole new state and answer of reversing an expense as the transition of the state machine |
| LedgerStore.Store.Look | services/partnerPayrollService.ts:18-72 | The whole new state and answer of the look before a payroll posting as the transition of the state machine |
| LedgerStore.Store.Write | services/partnerPayrollService.ts:73-131 | The whole new state and answer of the transaction of a payroll posting as the transition of the state machine |
| LedgerStore.Store.ReversePayroll | services/partnerPayrollService.ts:133-206 | The whole new state and answer of reversing payroll as the transition of the state machine |
| PayoutAccountsTheorems.TheDefaultIsTheLastVerified | services/partnerPayoutService.ts:108-172 | In every run an account is the default exactly when it was verified last of its supplier, every default is verified, a supplier with a verified account has one, and the destination version counts the verifications |
| PayoutAccountsTheorems.RacingReviewsExcludeEachOther | services/partnerPayoutService.ts:109-125 | Of two verifying reviews that read the same destination version only one can ever commit |
| PayoutAccountsTheorems.AccountLogsReplay | services/partnerPayoutService.ts:144-189 | The events of an account replay to its status and version |
| PayoutAccountsOutcomes.ImportsExactly | services/partnerPayoutService.ts:19-81 | A destination is imported exactly for a known supplier under a reference not used before; it waits to be verified and is no default |
| PayoutAccountsOutcomes.LooksExactly | services/partnerPayoutService.ts:90-113 | A review begins exactly for a pending account in the version the caller saw, and reads the version of the supplier |
| PayoutAccountsOutcomes.DefaultsAreSuperseded | services/partnerPayoutService.ts:126-155 | Exactly the other defaults of the supplier lose the mark, each with an event of its own |
| PayoutAccountsOutcomes.CommitsExactly | services/partnerPayoutService.ts:106-193 | A review is written exactly while its account is pending in the version it saw and, to verify, the supplier is in the version it read; a verification makes the account the one default and takes the mark off every other, a rejection touches its account only |
| PayoutAccountsOutcomes.RefusedTruly | services/partnerPayoutService.ts:19-193 | Each reason a call is refused for is so, a decision already under way told apart from a changed account |
| PayoutAccountsStore.Store.Register | services/partnerPayoutService.ts:19-81 | The whole new state and answer of an import as the transition of the state machine |
| PayoutAccountsStore.Store.Look | services/partnerPayoutService.ts:90-113 | The reads of a review and its refusals; the default stays the one verified last |
| PayoutAccountsStore.Store.SupersedeDefaults | services/partnerPayoutService.ts:126-155 | The loop takes the default mark off every other account of the supplier and records each |
| PayoutAccountsStore.Store.Commit | services/partnerPayoutService.ts:106-193 | The writes of a review, undone when the account changed |
| BanquetVenuesTheorems.VenuesAreExclusive | services/partnerBanquetService.ts:39-50 | In every run any two provisional or confirmed events of one property, venue and date have disjoint times |
| BanquetVenuesTheorems.ConfirmationNeverConflicts | services/partnerBanquetService.ts:284-293 | Confirming a provisional event is never refused for its venue |
| BanquetVenuesTheorems.HistoriesReplay | services/partnerBanquetService.ts:294-313 | The history of an event has versions 1 to the version of the row, only allowed moves, and ends in the status of the row |
| BanquetVenuesTheorems.RetriesChangeNothing | services/partnerBanquetService.ts:246-263 | An accepted creation or move repeated with its key after any other calls changes nothing and answers the same event |
| BanquetVenuesOutcomes.CreationsExactly | services/partnerBanquetService.ts:120-221 | Under a fresh key an event is taken as an inquiry exactly for a window within one day, from the stored day on, at a property the partner runs |
| BanquetVenuesOutcomes.ConflictsAreClashes | services/partnerBanquetService.ts:28-57 | The venue is taken exactly when some other provisional or confirmed event of the property is there in some minute of the event |
| BanquetVenuesOutcomes.MovesExactly | services/partnerBanquetService.ts:223-335 | Under a fresh key an event is moved exactly along the known moves, in the version the caller saw, with a reason to cancel and a free venue to be kept or confirmed |
| BanquetVenuesOutcomes.UsedKeysAnswerTheirRequest | services/partnerBanquetService.ts:246-263 | A used key never changes anything, answers a creation by its own event exactly for the same request, and refuses any other request |
| BanquetVenuesOutcomes.CreationsRefusedTruly | services/partnerBanquetService.ts:120-221 | Each reason a creation is refused for is so on the call, the property and the events |
| BanquetVenuesOutcomes.MovesRefusedTruly | services/partnerBanquetService.ts:223-335 | Each reason a move is refused for is so on the event and its history |
| BanquetVenuesStore.Store.VenueTaken | services/partnerBanquetService.ts:28-57 | True exactly when another provisional or confirmed event keeps the venue during some of the time |
| BanquetVenuesStore.Store.Create | services/partnerBanquetService.ts:120-221 | The whole new state and answer of a creation as the transition of the state machine |
| BanquetVenuesStore.Store.Move | services/partnerBanquetService.ts:223-335 | The whole new state and answer of a move as the transition of the state machine |
| LocalTime.LocalDateTimeToUtc | services/hotelBookingService.ts:84-126 | The two passes of the loop give the wall clock less the offset at the first correction |
| LocalTime.SolvedWheneverItOccurs | services/hotelBookingService.ts:105-122 | With one transition in reach the result shows the wall clock exactly when some instant does |
| LocalTime.SolvedInstant | services/hotelBookingService.ts:105-122 | Which instant comes out before, after, in an overlap and in a gap, and by how much a gap is missed |
| LocalTime.SolvedExactlyUnlessMissed | services/hotelBookingService.ts:105-122 | With two transitions in reach the result shows the wall clock exactly when it occurs and a stated condition on the transitions and their offsets does not hold; whenever it holds the wall clock occurs |
| LocalTime.SolvedInEveryRealZone | services/hotelBookingService.ts:105-122 | In every zone whose clock is not changed twice within twice its greatest offset, 28 hours for offsets of up to 14, and for every wall clock, the result shows it exactly when some instant does |
| LocalTime.SolvedBetweenFarApartTransitions | services/hotelBookingService.ts:105-122 | With two transitions in reach that are at least as far apart as the offsets before and after them are from UTC, and as the middle offset differs from them in the skipping direction, the result shows the wall clock exactly when it occurs |
| LocalTime.TwoTransitionsMayMiss | services/hotelBookingService.ts:105-122 | The bound on how close changes come is needed: in an invented zone with two transitions three minutes apart a wall clock occurs and is missed |
| LocalTime.EligibleExactlyBeforeCutoff | services/hotelBookingService.ts:70-82 | For a check-in that occurs once, eligibility is a refundable rate more than the cutoff before it |
| LocalTime.UnknownCheckInIsNotEligible | services/hotelBookingService.ts:70-82 | Without a check-in, a known zone or a cutoff nothing is refunded |
| CanonicalJsonTheorems.UndefinedExactlyWhenUnsupported | services/customerTripPersistenceRules.ts:78-97 | The canonical form is undefined exactly when an unsupported value occurs inside, at any depth |
| CanonicalJsonTheorems.FormIsFixed | services/customerTripPersistenceRules.ts:78-97 | The canonical form of a canonical form is itself, whatever the collation |
| CanonicalJsonTheorems.SameFormMeansEquivalent | services/customerTripPersistenceRules.ts:78-97 | Values with one canonical form are equal up to the order of keys at every level |
| CanonicalJsonTheorems.EquivalentMeansSameForm | services/customerTripPersistenceRules.ts:87-96 | Values equal up to the order of keys have one canonical form when the collation ties no two names of an object |
| CanonicalJsonTies.KeyOrderIsForgottenExactlyWithoutTies | services/customerTripPersistenceRules.ts:87-89 | A supported value has one form with all its reorderings exactly when no object in it has two names the collation ties |
| CanonicalJsonTies.TiedValuesHaveRivals | services/customerTripPersistenceRules.ts:87-89 | Every value with a tie at some depth has an equal-up-to-order rival with another canonical form |
| CanonicalOrder.ArrangeAgain | services/customerTripPersistenceRules.ts:87-96 | Sorting and rebuilding an object a second time changes nothing, ties or not |
| CanonicalJsonService.CanonicalJsonValue | services/customerTripPersistenceRules.ts:78-97 | The recursive computation, entries sorted before their values are converted, returns the canonical form |
| AddonPricingTheorems.AddonsNeverDrift | services/hotelBookingService.ts:920-938 | After any sequence of amendments the extras and their taxes are those of a fresh quote for the nights the stay now has |
| AddonPricingTheorems.AmendedPriceIsFreshExactlyWithoutCalendar | services/hotelBookingService.ts:898-960 | The amended total is the fresh total under the same plan exactly when no calendar sets another charge for the stay |
| AddonPricingTheorems.CalendarChargeIsLost | services/hotelBookingService.ts:898-960 | Two nights under a calendar charge amended to three: the amended total is 3000 by the nightly rate where a fresh quote is 4500 by the calendar |
| AddonPricingTheorems.MultiplierIsLinear | lib/pms/bookingAddons.ts:76-98 | The multiplier of a nightly mode is that of one night times the nights, of any other mode the same for every stay |
| AddonPricingTheorems.QuotientWithinHalf | services/partnerBookingAddonService.ts:109 | Rounding is within half a unit of exact, halves going up |
| AddonPricingTheorems.QuotesChargeByTheMode | lib/pms/bookingAddons.ts:76-98 | A quote succeeds exactly for at most twenty selections of different extras, each on offer and within its quantities; it then charges each in its order the unit price by the quantity by 1, the nights, the rooms, the rooms and nights, the guests or the guests and nights, mode by mode, and the tax on that charge |
| AddonPricingTheorems.TotalIsTheSum | services/hotelBookingService.ts:939-960 | The extras cost the sum of all their components |
| AddonPricingTheorems.AmendedTotal | services/hotelBookingService.ts:898-960 | An amended total is the nightly rate and fee for the new nights and the rooms of the stay, and the sum of its extras |
| AddonPricingTheorems.AmendmentsAskForTheirExtras | services/hotelBookingService.ts:898-953 | An amendment goes on exactly while no charged extra is missing from those on offer |
| AddonPricingService.QuoteSelection | services/partnerBookingAddonService.ts:65-135 | The loops check the selections and push each charge with its tax; the result is the quote of which QuotesChargeByTheMode says what every selection is charged, mode by mode |
| AddonPricingService.Reprice | services/hotelBookingService.ts:898-953 | Refused exactly when a charged extra is no longer available, otherwise the amended components, old charges one by one and their taxes anew |
| B2BPricing.SucceedsExactlyInRange | services/b2bCommercialRules.ts:186-240 | A price comes back exactly for well-formed input whose sell amount is from 1 to 100000000; overflow never happens |
| B2BPricing.AmountsAreRoundedShares | services/b2bCommercialRules.ts:225-247 | Each amount is within half a unit of its exact share and no more than its base, the commission base is the source or the sell amount as the term says, the snapshot carries every field of the term that was given, the parts make up the sell amount, and a corporate customer has no commission |
| B2BPricing.HigherSourceNeverSellsLower | services/b2bCommercialRules.ts:225-228 | Under one contract the sell amount is monotone in the source amount |
| B2BPricing.SellablePricesAreARange | services/b2bCommercialRules.ts:225-240 | The source amounts a contract can sell form one range |

## Left out

- OutboxStore.Store.DeliverPending: no other worker steps in between its own steps; the steps it is made of (`ClaimEvent`, `CompleteEvent`, `FailEvent`) are proved from any state, and interleavings are the runs of `OutboxTheorems`.
- JobLeaseStore.Store.RunJob: no other worker steps in between its own steps; interleavings are the runs of `JobLeaseTheorems`.
- RoomInventoryStore.Store.Look: the reads of one quote (locks, manual limit, partner calendar) are one step, and whether a price can be made is a parameter.
- RoomInventoryStore.Store.ReviewChange: the reads of one approval before its last look are one step.
- RoomInventoryStore.Store.RequestChange: the look for a pending request and the insert are one step.
- HotelBooksStore.Store.ChangeStay: the reads that come before its transaction are part of the step, and whether the rooms are ready is a parameter.
- HotelBooksStore.Store.CountBlockers: pending change requests and urgent maintenance enter as one given count, because their tables are not part of this model.
- LedgerStore.Store.PostExpense: the look for the key and the insert are one step; in a race the code answers with a unique violation instead of the first journal, which stores nothing either.
- OutboxTheorems.ClaimsAreSettledOnce: workers are taken to start at different milliseconds, because the moment of the start is the only mark of a claim.
- OutboxTheorems.OneReviewPerLoadedRow: a row's version is a count; the code compares the moment of the last change, so two changes within one millisecond look alike to it.
- Status of channel sync runs written beside an event (`services/integrationOutboxService.ts:34-48`): it is written without the fence of the claim.
- Delivery of notifications (`services/notificationDeliveryService.ts`): its settling writes look at the status only, so the fencing theorems do not hold there.
- Expiry of converted locks in the in-memory lock repository (`repositories/availabilityLockRepository.ts:72-75`): the stored repository is modelled; the in-memory one gives rooms away again.
- Changes of a room type's count after it has locks: the count is fixed in a run.
- Rules of the partner calendar (`repositories/partnerHotelInventoryRepository.ts`): an arbitrary further limit and a refusal flag stand for them.
- Marketplace tax, capture and settlement amounts written when a booking is saved: saving is a step that succeeds or fails.
- Text normalisation, length limits of free text, e-mail and phone patterns, SHA-256 fingerprints and token hashes: keys and texts are plain strings with the length tests that decide an outcome.
- Audit logs, workspaces and other read projections, page sizes and safety limits of lists.
- Scheduled release of promotion claims and the other kinds of jobs that use the same lease: one delivery and one maintenance job stand for them.
- A correlation id left blank or padded with blanks: ids are taken as they arrive.
- Seat labels outside rows 1 to 99 and columns A to D: the route refuses them before the service sees them.
- Rounding inside a floating-point division: `Math.round` and `Math.floor` of a quotient are taken of the exact quotient, which agrees for all amounts the validators let through except extras far above a hundred thousand million rupees.
- Offsets of zones with seconds, and sparse arrays, negative zero and cyclic values in JSON.
- Serialisation of the canonical form to text: the form itself is compared.
- Page metadata, HTTP routes, e-mail, media and supplier adapters, payment confirmation and the user interface: outside calls or easy members.
