# Locker rental flow: a verified model

The kiosk rents luggage cells. A customer selects a size and gets a cell held for 90 seconds, books it with a
phone number, pays, opens the cell with an access code, and finishes. Three tables carry this: `lockers` (cells),
`storage_sessions` (a selection that becomes a rental) and `payments`. The Go repository keeps a cell's status by
hand beside the sessions that explain it, expires holds lazily in three places, and advances a payment only when
somebody looks at it. This project models that flow and proves what its operations keep, over every run and every
interleaving of their transactions.

`dafny verify dfyconfig.toml` checks everything.

## How it is organised

| file | contents |
|---|---|
| `Tables.dfy` | rows, column values, the lookups and statements of the queries |
| `Operations.dfy` | each operation as a function of the database: its writes (`Plan`, made of a few effects), its reply (`Answer`); runs |
| `Store.dfy` | the repository as a class over mutable tables, one method per operation, statement by statement with its rollbacks |
| `Traces.dfy`, `Invariants.dfy` | runs as traces of effects; what every effect keeps about sessions and payments |
| `Allocation.dfy`, `Witnesses.dfy` | who holds a cell, agreement of `lockers.status` with the sessions, and runs that break it |
| `Answers.dfy`, `Selection.dfy` | what each operation answers, when it refuses and what it changes, read off the rows; which cell a selection gets |
| `Lifecycle.dfy`, `Journey.dfy` | whole-run properties of one selection, rental and code; one customer from the selection to the revenue report |
| `CleanupTransparency.dfy` | cleanup ticks cannot be noticed |
| `Payments.dfy`, `Revenue.dfy` | what lazy payment refresh computes; the revenue report and its windows |
| `Interleaving.dfy`, `Concurrency.dfy` | transactions with row locks, write buffers, commit and rollback, and the admin panel's unlocked check and update; what interleavings preserve, and when a commit is a whole operation |
| `Refinement.dfy`, `Solo.dfy`, `Late.dfy` | interleavings as sequences of whole operations; a transaction that runs alone; transactions that are no whole operation |
| `Waiting.dfy` | who waits for whom, and that nobody waits in a circle |
| `Meanwhile.dfy` | checks, openings and reports whose statements are spread over an interleaving |
| `Phones.dfy`, `Codes.dfy` | phone normalisation and access codes |

Each method of `Store` is proved equal, in its whole new state and its reply, to `Apply` and `Answer`; the theorems
are about those functions. An operation is at most two effects, and both a run of operations and an interleaving of
transactions are traces of effects, so an invariant is proved once per effect. Automatic induction is switched off
throughout, so that every inductive proof is written out.

## Assumptions

- One nondecreasing clock stands for both the application's time and `NOW()`. Inside an interleaving every step has
  its own instant; an operation taken as a whole has one.
- Identifiers, codes and the clock are inputs. A repeated identifier is not excluded: the unique index refuses it
  and the transaction rolls back (`DbError`).
- A row lock has one owner until commit or rollback, and a statement either gets all the rows it must lock or waits.
  A transaction that fails is a rollback: what it had written, such as the expiry of a refused booking, is dropped.
- Two hypotheses are explicit where they are used, and shown to be exactly what is needed: no finish of a rental
  whose cell somebody else now holds, and no admin change to `free` of a cell somebody holds. When the panel's check
  and update are one operation, the check has seen to the active rentals and only pending selections matter; when
  they are two statements of an interleaving, nothing has. An interleaving or run that meets both is called careful
  below.
- Commits are compared with whole operations in every reachable database, whatever statuses an admin has set. What a
  commit needs to be one (`WholeStep`) is stated per step, proved exact, and shown to fail in reachable worlds.
- Upper-casing is the usual one on ASCII and leaves white space alone; what it does to other letters is arbitrary.

## Where the code and its documentation differ

The model follows the code. `backend-api-endpoints.md` lists `CELL_ALREADY_TAKEN` for bookings and `PAYMENT_EXPIRED`;
the code answers such requests with selection-expired and payment-required. It lists the payment status `failed`,
which nothing writes. A payment that lapses also gets a `paid_at` (line 513 of the rental flow repository), so
`paid_at` is set exactly when the payment is no longer pending, not exactly when it is paid.

## Model

| member | source | states |
|---|---|---|
| RentalStore.Store.CleanupExpiredSelections | internal/repository/rental_flow_repository.go:73-87 | row by row: a selected session whose hold is strictly past becomes expired, a reserved cell with such a session becomes free, and nothing else changes |
| RentalStore.Store.CreateCellSelection | internal/repository/rental_flow_repository.go:140-207 | whole new state and reply, in the code's order of checks; any failure leaves the store as it was, its own cleanup included |
| RentalStore.Store.CreateBooking | internal/repository/rental_flow_repository.go:209-291 | whole new state and reply; the expiry written before the selection-expired return is rolled back with the rest |
| RentalStore.Store.RefreshPaymentStatus | internal/repository/rental_flow_repository.go:506-518 | row by row: a pending payment of the rental lapses strictly after its expiry, else is paid from five seconds after creation, else waits; either end sets `paid_at`; all other payments stay |
| RentalStore.Store.CheckAccessCode | internal/repository/rental_flow_repository.go:293-360 | reply and state: find by code, refresh, read again, then closed, granted or unpaid |
| RentalStore.Store.GetPayment | internal/repository/rental_flow_repository.go:362-399 | reply and state of polling a payment |
| RentalStore.Store.OpenRental | internal/repository/rental_flow_repository.go:401-433 | reply and state of opening: refresh first, then only the payment is asked about |
| RentalStore.Store.FinishRental | internal/repository/rental_flow_repository.go:435-462 | closes the session and frees its cell whatever their status |
| RentalStore.Store.GetRental | internal/repository/rental_flow_repository.go:464-504 | reply of reading a rental back |
| RentalStore.Store.CountActive | internal/repository/admin_panel_repository.go:310-313 | the count is positive exactly when an active session sits on the cell |
| RentalStore.Store.UpdateLockerStatus | internal/repository/admin_panel_repository.go:299-332 | free and maintenance are refused on an active rental, every other change is made; refusals change nothing |
| Tables.LowestOf | internal/repository/rental_flow_repository.go:164-177 | the pick: the selectable cell not locked by others that comes first by number, and none exactly when there is no such cell |
| Tables.LatestOf | internal/repository/rental_flow_repository.go:316-323 | the latest payment of a session, and none exactly when it has no payment |
| Tables.FindCode | internal/repository/rental_flow_repository.go:298-309 | an active rental at the location with this code, and none exactly when there is none |
| Traces.RunIsTrace | internal/repository/rental_flow_repository.go:140-462 | every run of operations is a trace of effects each allowed where it happens |
| Invariants.SelectionUnique | migrations/010_align_runtime_schema.sql:86-88 | a selection id finds its own row |
| Invariants.RentalUnique | migrations/010_align_runtime_schema.sql:94-96 | a rental id finds its own row |
| Invariants.SessionsOkKept | internal/repository/rental_flow_repository.go:140-462 | ids stay unique, holds stay 90 seconds, rental id, booking id, code and opening time stay present exactly on active and closed sessions, and a finish time exactly on closed ones |
| Invariants.OneEdge | internal/repository/rental_flow_repository.go:140-462 | one effect moves a session along at most one of selected-active, selected-expired, active-closed |
| Invariants.TraceAdvances | internal/repository/rental_flow_repository.go:140-462 | over every trace, repeated finishes included, no session is lost or moves backwards, and booked data never changes |
| Invariants.RunAdvances | internal/repository/rental_flow_repository.go:140-462 | the same over every run of operations |
| Invariants.PaymentsOkKept | internal/repository/rental_flow_repository.go:262-272 | each booked session keeps exactly one payment of 900, `paid_at` set exactly when not pending, paid only between five seconds and expiry |
| Invariants.RunPayments | internal/repository/rental_flow_repository.go:209-518 | the same in every database of every run |
| Invariants.InitialOk | internal/repository/rental_flow_repository.go:46-69 | a database before its first customer has both invariants |
| Allocation.OneLiveExactly | internal/repository/rental_flow_repository.go:164-194 | an effect, an admin update issued after a stale check included, keeps one live session per cell and none on a free cell if and only if it is careful |
| Allocation.FinishActive | internal/repository/rental_flow_repository.go:443-451 | finishing an active rental is always careful |
| Allocation.RunOneLive | internal/repository/rental_flow_repository.go:140-462 | every database of a run has one holder per cell if and only if the run meets the two hypotheses; other admin changes are arbitrary |
| Allocation.InitialSound | internal/repository/rental_flow_repository.go:46-69 | an all-free start with no sessions is in agreement |
| Allocation.RunSound | internal/repository/rental_flow_repository.go:73-291 | in admin-free careful runs the stored status of every cell is the one recomputed from its sessions |
| Allocation.Conservation | internal/repository/rental_flow_repository.go:73-291 | reserved cells equal selected sessions, occupied cells equal active ones, and free, reserved and occupied add up to all cells |
| Allocation.ReservedHasHolder | internal/repository/rental_flow_repository.go:179-194 | a reserved cell has a selected session whose hold ends 90 seconds after its selection |
| Allocation.CleanupSettles | internal/repository/rental_flow_repository.go:73-87 | a cleanup later than every pending hold leaves each cell occupied by an active session or free |
| Allocation.NoReservationLeaks | internal/repository/rental_flow_repository.go:73-194 | after any admin-free careful run, a cleanup more than 90 seconds later leaves no cell reserved |
| Witnesses.SecondFinishGivesCellAway | internal/repository/rental_flow_repository.go:443-451 | six operations with a second finish end with two customers on one cell |
| Witnesses.AdminFreeGivesCellAway | internal/repository/admin_panel_repository.go:308-321 | freeing a cell with a pending selection gives it to two customers |
| Witnesses.StaleAdminCheckGivesCellAway | internal/repository/admin_panel_repository.go:308-321 | a booking between the admin's check and update gives the cell of an active rental away |
| Witnesses.AdminReserveShowsTick | internal/repository/admin_panel_repository.go:318-321 | after an admin sets a cell with an ended hold to reserved, the next customer gets it if no tick came before and is told there is none if one did |
| Lifecycle.FailureIsAtomic | internal/repository/rental_flow_repository.go:145-237 | a failing selection or booking leaves the whole database unchanged |
| Answers.TickAnswers | internal/repository/rental_flow_repository.go:73-87 | a tick expires exactly the selections whose hold is strictly past, frees exactly the cells still reserved for one, and changes nothing else |
| Answers.BookingAnswers | internal/repository/rental_flow_repository.go:220-283 | a booking is refused as expired exactly when no selection of that id is at the location, selected and at most 90 seconds old; fails exactly when one is and some row carries one of its ids; and is made otherwise |
| Answers.BookingWrites | internal/repository/rental_flow_repository.go:239-290 | it makes that session an active rental opened now, occupies its cell, adds one pending payment of 900 due in five minutes, and changes nothing else |
| Answers.CheckAnswers | internal/repository/rental_flow_repository.go:298-309 | a check answers invalid exactly when no active rental of the location has the code; it never changes a cell or session |
| Answers.CheckShows | internal/repository/rental_flow_repository.go:311-359 | otherwise it answers such a rental with its id, cell number and phone, and asks for payment, with that rental's payment as this look leaves it, exactly when that is not paid |
| Answers.PollAnswers | internal/repository/rental_flow_repository.go:362-383 | polling answers not-found exactly when no payment has the id, and changes no cell or session |
| Answers.PollShows | internal/repository/rental_flow_repository.go:364-398 | otherwise it answers the payment with that id as this look leaves it |
| Answers.OpenAnswers | internal/repository/rental_flow_repository.go:406-422 | opening answers not-found exactly when no session has the rental id, and else opens or asks for payment |
| Answers.OpenChanges | internal/repository/rental_flow_repository.go:401-425 | it looks at the rental's payments alone and changes no cell; a refused opening changes no session |
| Answers.OpenShows | internal/repository/rental_flow_repository.go:424-432 | a granted one answers the session's cell number and stamps its opening time, and nothing else of any session |
| Answers.FinishAnswers | internal/repository/rental_flow_repository.go:443-461 | finishing answers not-found exactly when no session has the rental id, and else the rental closed now |
| Answers.FinishWrites | internal/repository/rental_flow_repository.go:449-455 | it closes that session now, frees its cell, and changes nothing else |
| Answers.ReadAnswers | internal/repository/rental_flow_repository.go:471-484 | reading changes nothing and answers not-found exactly when no session has the rental id |
| Answers.ReadShows | internal/repository/rental_flow_repository.go:471-503 | otherwise it answers what the row and its cell hold |
| Answers.PanelAnswers | internal/repository/admin_panel_repository.go:300-321 | not-found exactly for no cell; refused exactly to free or maintain a cell with an active rental; else that cell alone takes the status and the answer tells the one before |
| Lifecycle.BookedStays | internal/repository/rental_flow_repository.go:209-291 | once booked, a selection is an active or closed rental with its ids and code for the rest of the run |
| Lifecycle.BookedOnce | internal/repository/rental_flow_repository.go:233-237 | a selection is booked at most once in a run; a retry is refused and changes nothing |
| Lifecycle.RunActiveUnlessFinished | internal/repository/rental_flow_repository.go:435-462 | a rental ends a run active exactly when it began so and no event finished it |
| Lifecycle.RentalReadsBack | internal/repository/rental_flow_repository.go:464-504 | at any later point of a run the rental reads back with the data it was booked with, active exactly until it is finished |
| Lifecycle.TimesReadBack | internal/repository/rental_flow_repository.go:424-504 | right after an opening or a finish the rental reads back its time in whole seconds, and a finish reads back as closed |
| Lifecycle.CodeFindsRental | internal/repository/rental_flow_repository.go:293-309 | with distinct codes, the issued code finds its rental from booking until finish |
| Lifecycle.CodeDiesWithFinish | internal/repository/rental_flow_repository.go:293-309 | after a finish no code ever finds that rental |
| Lifecycle.UndisturbedCheck | internal/repository/rental_flow_repository.go:293-360 | the check in three statements with nobody in between is the whole operation |
| Lifecycle.InterleavedCheckCorrect | internal/repository/rental_flow_repository.go:293-360 | with any allowed effects between its two reads and its refresh, a check admits only rentals active throughout, with the cell number and phone of its first read, and asks for no payment exactly when it is paid at the second read, else for one of that rental |
| Selection.SelectionAnswers | internal/repository/rental_flow_repository.go:157-206 | an unknown location is answered as such; at a known one with a cell to give, a repeated id fails and every other request is granted for what was asked and 90 seconds |
| Selection.NoCellsExactly | internal/repository/rental_flow_repository.go:147-177 | no-cells is answered exactly when the location exists and no active cell of the size there is free or held by an ended hold |
| Selection.TakesLowest | internal/repository/rental_flow_repository.go:164-194 | a granted selection reserves the lowest-numbered such cell and adds one session holding it for 90 seconds, all columns given, and nothing else changes beyond the cleanup |
| Journey.HoldIsKept | internal/repository/rental_flow_repository.go:140-291 | a selection is booked, with the cell number it was told, exactly when this is its first booking and comes within 90 seconds, whatever any run in between did, admin changes included |
| Journey.CheckTells | internal/repository/rental_flow_repository.go:293-360 | until its finish a rental's code is answered with that rental, the cell number the booking told and its phone, if no other active rental there has the code |
| Journey.CheckAsksForPayment | internal/repository/rental_flow_repository.go:311-359 | and without payment exactly when the first look at least five seconds after the booking, this one included, came within five minutes; else with its payment, pending or lapsed |
| Journey.PollTells | internal/repository/rental_flow_repository.go:362-399 | polling after any run answers 900, pending until such a look, then paid or lapsed by when it came, with its time |
| Journey.OpenTells | internal/repository/rental_flow_repository.go:401-433 | opening after any run is granted, with the cell number the booking told, exactly when that payment is then paid, and else asks for payment and changes no session |
| Journey.ReadTells | internal/repository/rental_flow_repository.go:464-504 | after any run a rental reads back the time of its last granted opening, or of its booking, and of its last finish |
| Journey.RevenueTells | internal/repository/admin_panel_repository.go:455-476 | after any run a booking's 900 is in the group of its location and of no other exactly when its payment was settled within five minutes and inside the window |
| CleanupTransparency.BookableXorStale | internal/repository/rental_flow_repository.go:233-237 | at any instant a selection is bookable exactly when a cleanup would not expire it |
| CleanupTransparency.CleanedTwice | internal/repository/rental_flow_repository.go:73-87 | a later cleanup makes an earlier one redundant |
| CleanupTransparency.CleanupCommutes | internal/repository/rental_flow_repository.go:73-87 | a cleanup may be taken before or after bookings, refreshes, stamps and finishes |
| CleanupTransparency.StatusCommutes | internal/repository/admin_panel_repository.go:318-321 | and before or after an admin status change if and only if that does not reserve a cell over an ended hold |
| CleanupTransparency.Indistinguishable | internal/repository/rental_flow_repository.go:147-237 | every operation answers alike before and after a cleanup, the previous status told to an admin aside, and the two databases stay equal up to a cleanup if and only if it does not reserve a cell over an ended hold |
| CleanupTransparency.TicksAreInvisible | internal/cron/expired_selections.go:24-29 | dropping all ticks from an ordered run, admin changes included, changes no reply, and the final databases agree once cleaned, if neither run reserves a cell over an ended hold |
| CleanupTransparency.TicksCanBeDropped | internal/cron/expired_selections.go:24-29 | the same from one start, where the condition on the run without ticks is enough |
| CleanupTransparency.TicksAnywhere | internal/cron/expired_selections.go:16-29 | two runs that differ only in where ticks happen give the same replies, under that condition |
| CleanupTransparency.TicksShowExactly | internal/cron/expired_selections.go:16-29 | and that condition is exact: in any ordered tickless run, ticks put anywhere change no reply and no cleaned database at any of its prefixes if and only if the run reserves no cell over an ended hold |
| Payments.LazyIsClosedForm | internal/repository/rental_flow_repository.go:506-518 | any nondecreasing looks amount to the first one at least five seconds after creation: paid then if not past expiry, else lapsed |
| Payments.RunPaymentClosedForm | internal/repository/rental_flow_repository.go:293-518 | the same for a payment over a whole run, with the looks read off the run |
| Payments.OnePayment | internal/repository/rental_flow_repository.go:316-323 | the latest-payment lookup of a rental never meets none or several |
| Payments.OpensExactly | internal/repository/rental_flow_repository.go:401-422 | a rental opens exactly when its payment was turned paid between five seconds after creation and expiry |
| Payments.OpensAfterFinish | internal/repository/rental_flow_repository.go:406-422 | a finish changes no answer of open: that the rental is still active is not asked |
| Payments.LapsedNeverOpens | internal/repository/rental_flow_repository.go:401-422 | once lapsed, every later open of the rental in any run is answered payment-required |
| Payments.AmountsMatchBookings | internal/repository/rental_flow_repository.go:262-272 | in every run the payments add up to 900 times the sessions ever booked |
| Revenue.RevenueByLocation | internal/repository/admin_panel_repository.go:455-502 | one row per wanted location with a paid payment in the window, ascending, with its count, sum, average, first and last payment time, and no other row |
| Revenue.GroupCounts | internal/repository/admin_panel_repository.go:456-476 | a group counts exactly the payments paid or confirmed in the half-open window whose session's cell stands at the location, and adds their amounts, in reachable databases 900 for each |
| Revenue.StampBounds | internal/repository/admin_panel_repository.go:464-465 | the first and last times are stamps of payments of the group and bound all of them |
| Revenue.GroupPayments | internal/repository/admin_panel_repository.go:456-476 | one pass accumulates exactly the groups' counts and sums |
| Revenue.ReportUnique | internal/repository/admin_panel_repository.go:456-476 | the report is determined by database, window and filter |
| Revenue.SingleLocation | internal/repository/admin_panel_repository.go:470-475 | a filtered report is exactly that location's row, if any, of the unfiltered one |
| Revenue.ReportCountsEachOnce | internal/repository/admin_panel_repository.go:456-476 | the rows add up to all paid payments of the window, each counted once |
| Revenue.ExportCoversDays | internal/service/admin_service.go:205-215 | an export covers whole days of 24 hours, the first and last included, and reversed days are refused |
| Revenue.ExportsAdd | internal/service/admin_service.go:205-215 | exports of adjoining day ranges add up, per location, to the export of the whole range |
| Revenue.ClosedWindow | internal/repository/admin_panel_repository.go:470-473 | once the clock reaches the end of a window, its count, sum, first and last time per location never change under any further run |
| Revenue.RevenueIsPriceTimesCount | internal/repository/rental_flow_repository.go:264-272 | in reachable databases revenue is 900 times the payments counted |
| Interleaving.CommitIsAtomic | internal/repository/rental_flow_repository.go:140-291 | publishing a finished transaction's buffered rows is doing its atomic effects, each allowed at that moment |
| Interleaving.StepKeeps | internal/repository/rental_flow_repository.go:140-462 | every step of every transaction keeps the locking invariant |
| Interleaving.InterleavingIsTrace | internal/repository/rental_flow_repository.go:140-462 | every interleaving of any number of transactions is simulated by the atomic effects of those that commit, in commit order |
| Waiting.NoDeadlock | internal/repository/rental_flow_repository.go:140-462 | nobody waits for a transaction that waits itself |
| Waiting.CleansExactly | internal/repository/rental_flow_repository.go:147-155 | a selection's cleanup goes on exactly when nobody else holds a row or cell it must lock |
| Waiting.FreesExactly | internal/repository/rental_flow_repository.go:451-451 | so does the freeing of a finished rental's cell |
| Waiting.UpdatesExactly | internal/repository/admin_panel_repository.go:318-321 | so does an admin update |
| Waiting.TicksExactly | internal/repository/rental_flow_repository.go:73-87 | so does a cleanup tick |
| Waiting.PicksExactly | internal/repository/rental_flow_repository.go:157-177 | a pick finds a cell exactly when the location exists and a selectable cell is locked by nobody else |
| Waiting.BookingBegins | internal/repository/rental_flow_repository.go:220-231 | a booking begins exactly when its session sits at the location and nobody holds it or its cell |
| Waiting.BookingGoesOn | internal/repository/rental_flow_repository.go:233-237 | and goes on exactly while that session is held |
| Waiting.FinishBegins | internal/repository/rental_flow_repository.go:443-447 | a finish begins exactly when a session has the rental id and nobody holds it |
| Waiting.PanelChecksExactly | internal/repository/admin_panel_repository.go:300-316 | the panel's check passes exactly when the whole operation would be granted |
| Concurrency.NoDoublePick | internal/repository/rental_flow_repository.go:164-171 | SKIP LOCKED never hands one cell to two transactions |
| Concurrency.ReserveHits | internal/repository/rental_flow_repository.go:179-186 | the update guarded by `status='free'` always hits exactly the picked row |
| Concurrency.PickIsLowestUnlocked | internal/repository/rental_flow_repository.go:164-171 | a pick is selectable, unlocked, and every lower-numbered selectable cell is locked by somebody |
| Concurrency.InterleavedOneLive | internal/repository/rental_flow_repository.go:140-462 | an interleaving, with the admin's check and update as separate steps, has one holder per cell throughout if and only if it meets the two hypotheses |
| Concurrency.StepCoherent | internal/repository/rental_flow_repository.go:73-194 | a step, admin updates included, keeps one holder per cell and lets every cleanup in flight still free all it must, if and only if it meets the two hypotheses and does not mark a cell reserved whose session such a cleanup has expired |
| Concurrency.InterleavedCoherent | internal/repository/rental_flow_repository.go:73-462 | the same throughout a whole interleaving |
| Concurrency.IdleCoherent | internal/repository/rental_flow_repository.go:46-69 | with nothing in flight, one holder per cell is all these theorems ask of the start |
| Concurrency.InterleavedAgreement | internal/repository/rental_flow_repository.go:73-291 | in careful interleavings without admin updates the stored status agrees with the sessions at every committed database |
| Concurrency.InterleavedTimely | internal/repository/rental_flow_repository.go:147-155 | while no selecting transaction outlives its own hold, the cleanup inside each still covers every session stale at its time |
| Concurrency.SelectPastNothing | internal/repository/rental_flow_repository.go:140-196 | a selection that passed over nothing it could have picked, with one instant for cleaning and inserting, is `CreateCellSelection` |
| Concurrency.SelectionIsOperation | internal/repository/rental_flow_repository.go:140-196 | in any world, a committed selection is a whole cleanup followed by taking the lowest cell of the size and place it asked for, among those it did not pass over, if and only if its cleanup missed no stale session and left no cell of one reserved |
| Concurrency.LateCommitIsMissed | internal/repository/rental_flow_repository.go:147-196 | a selection committed after its hold had ended at another's cleanup makes that cleanup miss a session |
| Concurrency.NoSelection | internal/repository/rental_flow_repository.go:140-196 | otherwise, having inserted no earlier than it cleaned, it is `CreateCellSelection` of no instant, request or id |
| Concurrency.UncontendedSelection | internal/repository/rental_flow_repository.go:140-196 | when it passed over nothing selectable and the clock did not move, it is `CreateCellSelection` for its own request if and only if the same holds |
| Concurrency.BookingIsOperation | internal/repository/rental_flow_repository.go:209-279 | a committed booking is `CreateBooking` at some instant if and only if it was written by the end of its hold, and then for its own request at the time of writing |
| Concurrency.FinishIsOperation | internal/repository/rental_flow_repository.go:435-455 | a committed finish is `FinishRental` |
| Concurrency.AdminIsOperation | internal/repository/admin_panel_repository.go:308-321 | an admin update is `UpdateLockerStatus` at its instant if and only if the panel's check still passes then or the cell has that status already |
| Refinement.StepIsAtom | internal/repository/rental_flow_repository.go:140-462 | a step does what the operation it completes does, unrefused, if and only if it is whole: a selection's cleanup was whole, a booking was written by the end of its hold, an admin's check still passes |
| Refinement.InterleavingIsOperations | internal/repository/rental_flow_repository.go:140-462 | in any interleaving, admin updates included, every step is the operation it completes if and only if every step is whole; then the interleaving does exactly what the sequence of those operations does, in commit order, none refused |
| Refinement.PromptIsWhole | internal/repository/rental_flow_repository.go:147-279 | steps are whole when the interleaving is coherent, no selection outlives its hold uncommitted, bookings are written in time and admin checks still pass |
| Refinement.RequestKept | internal/repository/rental_flow_repository.go:140-462 | each transaction keeps the request of its first statement to its commit |
| Late.LateBookingCommits | internal/repository/rental_flow_repository.go:233-279 | a booking checked in time and written after its hold commits, and is `CreateBooking` of no instant, request or ticket |
| Late.LateSelectionIsMissed | internal/repository/rental_flow_repository.go:147-196 | two selections can interleave so that the cleanup of the second misses the stale session of the first, and the second then commits as `CreateCellSelection` of no instant, request or id |
| Late.ReservedIsMissed | internal/repository/admin_panel_repository.go:318-321 | so does a selection between whose statements an admin reserves a cell of a session it has expired |
| Meanwhile.CheckMeanwhile | internal/repository/rental_flow_repository.go:293-360 | a check whose reads and refresh are spread over an interleaving admits only a rental active at every step in between, with the cell number and phone of its first read, and asks for no payment exactly when it is paid at the second read, else for one of that rental |
| Meanwhile.InterleavedClosedForm | internal/repository/rental_flow_repository.go:506-518 | over any interleaving a payment ends as the closed form of the looks at it |
| Meanwhile.OpenMeanwhile | internal/repository/rental_flow_repository.go:402-422 | an opening whose refresh and read are separate statements is let through, with the rental's cell number, exactly when the payment was paid already or its first settled look, its own refresh included, came by the expiry; a lapsed payment refuses it whatever happens meanwhile |
| Meanwhile.StampMeanwhile | internal/repository/rental_flow_repository.go:424-425 | the stamp that follows, whenever it comes, sets the opening time of that rental and changes nothing else |
| Meanwhile.ClosedWindowStays | internal/repository/admin_panel_repository.go:470-473 | a window whose end the clock has reached never changes under any interleaving |
| Solo.SoloSelection | internal/repository/rental_flow_repository.go:140-207 | a selection that succeeds as an operation can be taken step by step, and its six steps alone end in exactly its database |
| Solo.SoloBooking | internal/repository/rental_flow_repository.go:209-291 | the same for lock, decide, write and commit of a booking |
| Solo.SoloFinish | internal/repository/rental_flow_repository.go:435-462 | the same for lock, close, free and commit of a finish |
| Solo.SoloAdmin | internal/repository/admin_panel_repository.go:308-321 | the admin's check and update with nothing between them are `UpdateLockerStatus` |
| Phones.NormalizePhone | internal/service/rental_flow_service.go:175-192 | succeeds exactly when the kiosk's check accepts, with the canonical number |
| Phones.CanonicalIsStable | frontend/src/pages/Locker/Locker.tsx:114-121 | a canonical number is `+7` and ten digits, accepted, and its own canonical form |
| Phones.NoiseIsIgnored | internal/service/rental_flow_service.go:176-181 | inserted non-digits change neither acceptance nor result |
| Phones.SameNumber | internal/service/rental_flow_service.go:182-191 | two accepted phones are one number exactly when their digits agree after the first |
| Phones.EightIsSeven | internal/service/rental_flow_service.go:185-187 | a leading 8 and a leading 7 are the same number |
| Codes.GenAccessCode | internal/repository/rental_flow_repository.go:529-536 | six capital letters and digits, the drawn ones in order |
| Codes.NormalizesExactly | internal/service/rental_flow_service.go:108-112 | any input, in any alphabet, is brought to a code exactly when it upper-cases to that code with white space around it |
| Codes.OnlyVariantsNormalize | internal/service/rental_flow_service.go:108-112 | for an ASCII input that means exactly the case variants of the code |
| Codes.VariantsNormalize | internal/service/rental_flow_service.go:108-112 | every such variant is brought to its code, which passes the length check |
| Codes.IssuedCodeAdmits | internal/service/rental_flow_service.go:108-118 | from booking until finish everything that spells the issued code is answered with that rental, its cell number and phone, if no other active rental there has the code |

## Left out

- FindCode: when several active rentals of a location share a code, the query returns any of them; the model takes the first row.
- RevenueByLocation: the location's name and address, copied from its row, are not modelled.
- GenAccessCode: the random draws are inputs, and `genID`, the same loop over another alphabet, is an opaque type of identifiers.
- CreateCellSelection: the size is an input; case folding and the mapping from dimensions to sizes are not modelled.
- InterleavingIsTrace: a statement locks all its rows at once or waits, so waits holding part of a statement's locks, the deadlocks they could cause, and failures of the engine are not modelled.
- InterleavingIsOperations: the refreshes and stamps of opening a rental, checking a code and looking at a payment, which the code runs outside any transaction, stay separate pieces; `CheckMeanwhile` and `OpenMeanwhile` say what a check or an opening so spread out answers.
- `NOW()` staying fixed through a transaction, and the difference between database time and application time.
- Rows of older schemas (sessions without a selection id, payments without a rental id) and `EnsureDemoData` on a restart, which forces demo cells to free; it only appears as the initial state.
- Columns no operation reads back: update and start times, price, currency, QR payload, creation source, event and audit logs.
- Free-cell listings, admin listings, pagination and manual opening.
- HTTP handlers, error envelopes, tokens, passwords, spreadsheets, date parsing, phone masking, and the React kiosk beyond its phone check.
- The session, payment, locker and device services that the server does not wire in.
