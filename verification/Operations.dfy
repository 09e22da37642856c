/** The operations of the rental flow as functions of the database state: what each one writes
    (`Plan`) and what it answers (`Answer`).  Writes are built from a few effects, so that a run of
    whole operations and an interleaving of their transactions can be compared. */
module Operations {
  import opened Tables

  /** The values drawn or supplied when a booking is made. */
  datatype Ticket = Ticket(phone: string, bookingId: Id, rentalId: Id, code: string, paymentId: Id)

  datatype Op =
    | CreateCellSelection(location: int, size: Size, selectionId: Id)
    | CreateBooking(location: int, selectionId: Id, ticket: Ticket)
    | CheckAccessCode(location: int, code: string)
    | GetPayment(paymentId: Id)
    | OpenRental(rentalId: Id)
    | FinishRental(rentalId: Id)
    | GetRental(rentalId: Id)
    | CleanupExpired
    | UpdateLockerStatus(cell: nat, newStatus: CellStatus)

  /** An operation at an instant. */
  datatype Event = Event(at: Time, op: Op)

  datatype Reply =
    | LockerNotFound | NoCellsAvailable | SelectionExpired | InvalidAccess | PaymentRequired
    | PaymentNotFound | RentalClosed | RentalNotFound | ActiveRentalExists | DbError
    | SelectionMade(selectionId: Id, location: int, size: Size, cellNumber: int, hold: Time)
    | Booked(ticket: Ticket, location: int, cellNumber: int, openedAt: Time)
    | AccessGranted(rentalId: Id, location: int, cellNumber: int, phone: string, code: string)
    | AccessUnpaid(rentalId: Id, location: int, cellNumber: int, phone: string, code: string, payment: Payment)
    | PaymentInfo(paymentId: Id, status: PaymentStatus, amount: int, paidAt: Option<Time>)
    | Opened(rentalId: Id, cellNumber: int, openedAt: Time)
    | Finished(rentalId: Id, finishedAt: Time)
    | RentalInfo(bookingId: Id, rentalId: Id, location: int, cellNumber: int, phone: string, code: string,
                 state: SessionStatus, openedSec: Option<int>, finishedSec: Option<int>)
    | StatusChanged(cell: nat, previous: CellStatus, updatedAt: Time)
    | Done

  // ---------------------------------------------------------------- effects

  datatype Effect =
    | Nop
      // expire the sessions `rows`, free the cells `freed`
    | Expire(rows: set<nat>, freed: set<nat>, at: Time)
      // mark a cell reserved and insert the session that holds it
    | Reserve(cell: nat, selectionId: Id, at: Time)
      // turn a selection into a rental and insert its payment
    | Book(row: nat, checkedAt: Time, at: Time, ticket: Ticket)
    | Refresh(rentalId: Id, at: Time)
    | Stamp(row: nat, at: Time)
    | Finish(row: nat, at: Time)
    | SetStatus(cell: nat, status: CellStatus)

  function NewSession(cells: seq<Cell>, c: nat, selectionId: Id, at: Time): Session
    requires c < |cells|
  {
    Session(selectionId, c, cells[c].no, cells[c].size, at, at + HOLD, Selected,
            None, None, "", None, None, None)
  }

  function BookedRow(x: Session, t: Ticket, at: Time): Session {
    x.(bookingId := Some(t.bookingId), rentalId := Some(t.rentalId), phone := t.phone, code := Some(t.code),
       status := Active, openedAt := Some(at / SECOND))
  }

  function NewPayment(row: nat, t: Ticket, at: Time): Payment {
    Payment(row, t.rentalId, t.paymentId, PRICE, Pending, at + PAY_WINDOW, at, None)
  }

  function ClosedRow(x: Session, at: Time): Session {
    x.(status := Closed, finishedAt := Some(at / SECOND))
  }

  function Do(s: State, e: Effect): State {
    match e
    case Nop => s
    case Expire(rows, freed, _) =>
      s.(sessions := ExpireRows(s.sessions, rows), cells := FreeCells(s.cells, freed))
    case Reserve(c, selectionId, at) =>
      if c < |s.cells| then
        s.(cells := WithStatus(s.cells, c, Reserved),
           sessions := s.sessions + [NewSession(s.cells, c, selectionId, at)])
      else s
    case Book(i, _, at, t) =>
      if i < |s.sessions| then
        s.(sessions := s.sessions[i := BookedRow(s.sessions[i], t, at)],
           payments := s.payments + [NewPayment(i, t, at)],
           cells := WithStatus(s.cells, s.sessions[i].cell, Occupied))
      else s
    case Refresh(rentalId, at) => s.(payments := RefreshRows(s.payments, rentalId, at))
    case Stamp(i, at) =>
      if i < |s.sessions| then s.(sessions := s.sessions[i := s.sessions[i].(openedAt := Some(at / SECOND))]) else s
    case Finish(i, at) =>
      if i < |s.sessions| then
        s.(sessions := s.sessions[i := ClosedRow(s.sessions[i], at)],
           cells := WithStatus(s.cells, s.sessions[i].cell, Free))
      else s
    case SetStatus(c, status) => s.(cells := WithStatus(s.cells, c, status))
  }

  /** No row carries any of the ticket's ids: the unique indexes let the booking through. */
  predicate FreshTicket(s: State, t: Ticket) {
    FindBooking(s.sessions, t.bookingId).None? && FindRental(s.sessions, t.rentalId).None?
    && FindPayment(s.payments, t.paymentId).None?
  }

  /** When the code lets an effect happen. */
  predicate Allowed(s: State, e: Effect) {
    match e
    case Nop => true
    case Expire(rows, freed, at) =>
      (forall i :: i in rows ==> i < |s.sessions| && Stale(s.sessions[i], at))
      && (forall c :: c in freed ==> c < |s.cells| && s.cells[c].status == Reserved
                                     && exists i :: i in rows && s.sessions[i].cell == c)
    case Reserve(c, selectionId, _) =>
      c < |s.cells| && s.cells[c].status == Free && s.cells[c].active && FindSelection(s.sessions, selectionId).None?
    case Book(i, checkedAt, _, t) =>
      i < |s.sessions| && s.sessions[i].cell < |s.cells| && s.sessions[i].status == Selected
      && checkedAt <= s.sessions[i].hold && FreshTicket(s, t)
    case Refresh(_, _) => true
    case Stamp(i, _) => i < |s.sessions| && s.sessions[i].rentalId.Some?
    case Finish(i, _) => i < |s.sessions| && s.sessions[i].rentalId.Some?
    case SetStatus(c, _) => c < |s.cells|
  }

  /** Some session with this status sits on cell `c`. */
  predicate HasSession(s: State, c: nat, status: SessionStatus) {
    exists i :: 0 <= i < |s.sessions| && s.sessions[i].cell == c && s.sessions[i].status == status
  }

  /** What the admin panel asks before an update: no active session on a cell to be freed or maintained. */
  predicate PanelRefuses(s: State, c: nat, status: CellStatus) {
    (status == Free || status == Maintenance) && HasSession(s, c, Active)
  }

  // ---------------------------------------------------------------- operations

  function ExpireStale(s: State, now: Time): Effect {
    Expire(StaleRows(s.sessions, now), StaleCells(s.cells, s.sessions, now), now)
  }

  /** The database after a cleanup. */
  function Cleaned(s: State, now: Time): State {
    Do(s, ExpireStale(s, now))
  }

  /** `m` is `s` after a cleanup, row by row. */
  ghost predicate IsCleaned(s: State, m: State, now: Time) {
    |m.sessions| == |s.sessions| && |m.cells| == |s.cells| && m.payments == s.payments && m.locations == s.locations
    && (forall i :: 0 <= i < |s.sessions| ==> m.sessions[i] == ExpiredIf(s.sessions[i], now))
    && (forall c :: 0 <= c < |s.cells| ==> m.cells[c] == FreedIf(s.cells[c], HasStale(s.sessions, c, now)))
  }

  function ExpiredIf(x: Session, now: Time): Session {
    if Stale(x, now) then x.(status := Expired) else x
  }

  function FreedIf(c: Cell, stale: bool): Cell {
    if c.status == Reserved && stale then c.(status := Free) else c
  }

  lemma {:induction false} CleanedRows(s: State, now: Time)
    ensures IsCleaned(s, Cleaned(s, now), now)
  {
  }

  /** The row `CreateBooking` finds under its join with the location. */
  function JoinedSelection(s: State, location: int, selectionId: Id): (r: Option<nat>)
    ensures r.Some? ==> r == FindSelection(s.sessions, selectionId)
                        && LocationOf(s.cells, s.sessions[r.value]) == Some(location)
  {
    var r := FindSelection(s.sessions, selectionId);
    if r.Some? && LocationOf(s.cells, s.sessions[r.value]) == Some(location) then r else None
  }

  /** That row, if it is still selected and its hold has not ended. */
  function Bookable(s: State, location: int, selectionId: Id, now: Time): (r: Option<nat>)
    ensures r.Some? ==> r == FindSelection(s.sessions, selectionId)
  {
    var row := JoinedSelection(s, location, selectionId);
    if row.Some? && s.sessions[row.value].status == Selected && now <= s.sessions[row.value].hold then row else None
  }

  /** The two effects, in order, of one operation. */
  function Plan(s: State, e: Event): (Effect, Effect) {
    var now := e.at;
    match e.op
    case CreateCellSelection(location, size, selectionId) =>
      var pick := LowestFree(Cleaned(s, now).cells, location, size, {});
      if location in s.locations && pick.Some? && FindSelection(s.sessions, selectionId).None?
      then (ExpireStale(s, now), Reserve(pick.value, selectionId, now)) else (Nop, Nop)
    case CreateBooking(location, selectionId, t) =>
      var row := Bookable(s, location, selectionId, now);
      if row.Some? && FreshTicket(s, t) then (Book(row.value, now, now, t), Nop) else (Nop, Nop)
    case CheckAccessCode(location, code) =>
      var row := FindCode(s.cells, s.sessions, location, code);
      if row.Some? && s.sessions[row.value].rentalId.Some?
      then (Refresh(s.sessions[row.value].rentalId.value, now), Nop) else (Nop, Nop)
    case GetPayment(paymentId) =>
      var k := FindPayment(s.payments, paymentId);
      if k.Some? then (Refresh(s.payments[k.value].rentalId, now), Nop) else (Nop, Nop)
    case OpenRental(rentalId) =>
      var row := FindRental(s.sessions, rentalId);
      (Refresh(rentalId, now),
       if row.Some? && OpenReply(Do(s, Refresh(rentalId, now)), rentalId, now).Opened? then Stamp(row.value, now)
           else Nop)
    case FinishRental(rentalId) =>
      var row := FindRental(s.sessions, rentalId);
      if row.Some? then (Finish(row.value, now), Nop) else (Nop, Nop)
    case GetRental(_) => (Nop, Nop)
    case CleanupExpired => (ExpireStale(s, now), Nop)
    case UpdateLockerStatus(c, status) =>
      if c < |s.cells| && !PanelRefuses(s, c, status) then (SetStatus(c, status), Nop) else (Nop, Nop)
  }

  /** The database after an operation. */
  function Apply(s: State, e: Event): State {
    var p := Plan(s, e);
    Do(Do(s, p.0), p.1)
  }

  /** Status of the latest payment of a session; a null from the outer join is `None`. */
  function PaymentStatusOf(s: State, row: nat): Option<PaymentStatus> {
    var k := LatestPayment(s.payments, row);
    if k.Some? then Some(s.payments[k.value].status) else None
  }

  /** What `OpenRental` reads after its refresh, and the answer it gives. */
  function OpenReply(s: State, rentalId: Id, now: Time): Reply {
    var row := FindRental(s.sessions, rentalId);
    if row.None? then RentalNotFound
    else
      var status := PaymentStatusOf(s, row.value);
      if status.None? then DbError
      else if status != Some(Paid) then PaymentRequired
      else Opened(rentalId, s.sessions[row.value].cellNumber, now)
  }

  /** The second read of `CheckAccessCode` and the answer it gives.  `x` is the row of the first read. */
  function AccessAnswer(s: State, x: Session, rentalId: Id, location: int, code: string): Reply {
    var row := FindRental(s.sessions, rentalId);
    if row.None? then DbError else
      var k := LatestPayment(s.payments, row.value);
      if k.None? then DbError
      else if s.sessions[row.value].status != Active then RentalClosed
      else if s.payments[k.value].status == Paid then AccessGranted(rentalId, location, x.cellNumber, x.phone, code)
      else AccessUnpaid(rentalId, location, x.cellNumber, x.phone, code, s.payments[k.value])
  }

  /** What `GetRental` tells of a rental. */
  function InfoOf(cells: seq<Cell>, x: Session, rentalId: Id): Reply
    requires x.cell < |cells| && x.bookingId.Some? && x.code.Some?
  {
    RentalInfo(x.bookingId.value, rentalId, cells[x.cell].location, x.cellNumber, x.phone, x.code.value,
               x.status, x.openedAt, x.finishedAt)
  }

  function Answer(s: State, e: Event): Reply {
    var now := e.at;
    var s' := Apply(s, e);
    match e.op
    case CreateCellSelection(location, size, selectionId) =>
      var pick := LowestFree(Cleaned(s, now).cells, location, size, {});
      if location !in s.locations then LockerNotFound
      else if pick.None? then NoCellsAvailable
      else if FindSelection(s.sessions, selectionId).Some? then DbError
      else SelectionMade(selectionId, location, size, s.cells[pick.value].no, now + HOLD)
    case CreateBooking(location, selectionId, t) =>
      var row := Bookable(s, location, selectionId, now);
      if row.None? then SelectionExpired
      else if !FreshTicket(s, t) then DbError
      else Booked(t, location, s.sessions[row.value].cellNumber, now)
    case CheckAccessCode(location, code) =>
      var row := FindCode(s.cells, s.sessions, location, code);
      if row.None? then InvalidAccess
      else if s.sessions[row.value].rentalId.None? then DbError
      else AccessAnswer(s', s.sessions[row.value], s.sessions[row.value].rentalId.value, location, code)
    case GetPayment(paymentId) =>
      var k := FindPayment(s.payments, paymentId);
      if k.None? then PaymentNotFound
      else var p := s'.payments[k.value]; PaymentInfo(paymentId, p.status, p.amount, p.paidAt)
    case OpenRental(rentalId) =>
      OpenReply(Do(s, Refresh(rentalId, now)), rentalId, now)
    case FinishRental(rentalId) =>
      if FindRental(s.sessions, rentalId).None? then RentalNotFound else Finished(rentalId, now)
    case GetRental(rentalId) =>
      var row := FindRental(s.sessions, rentalId);
      if row.None? || LocationOf(s.cells, s.sessions[row.value]).None? then RentalNotFound
      else
        var x := s.sessions[row.value];
        if x.bookingId.None? || x.code.None? then DbError else InfoOf(s.cells, x, rentalId)
    case CleanupExpired => Done
    case UpdateLockerStatus(c, status) =>
      if c >= |s.cells| then LockerNotFound
      else if PanelRefuses(s, c, status) then ActiveRentalExists
      else StatusChanged(c, s.cells[c].status, now)
  }

  // ---------------------------------------------------------------- the operations one by one

  lemma {:induction false} CleanupApplied(s: State, at: Time)
    ensures Apply(s, Event(at, CleanupExpired)) == Cleaned(s, at)
  {
    assert Plan(s, Event(at, CleanupExpired)) == (ExpireStale(s, at), Nop);
  }

  lemma {:induction false} SelectionApplied(s: State, at: Time, location: int, size: Size, selectionId: Id, c: nat)
    requires location in s.locations && FindSelection(s.sessions, selectionId).None?
    requires LowestFree(Cleaned(s, at).cells, location, size, {}) == Some(c)
    ensures var e := Event(at, CreateCellSelection(location, size, selectionId));
            Apply(s, e) == Do(Cleaned(s, at), Reserve(c, selectionId, at))
            && Answer(s, e) == SelectionMade(selectionId, location, size, s.cells[c].no, at + HOLD)
  {
  }

  lemma {:induction false} SelectionRefused(s: State, at: Time, location: int, size: Size, selectionId: Id)
    requires location !in s.locations || LowestFree(Cleaned(s, at).cells, location, size, {}).None?
             || FindSelection(s.sessions, selectionId).Some?
    ensures var e := Event(at, CreateCellSelection(location, size, selectionId));
            Apply(s, e) == s
            && Answer(s, e) == if location !in s.locations then LockerNotFound
                               else if LowestFree(Cleaned(s, at).cells, location, size, {}).None?
                                   then NoCellsAvailable else DbError
  {
  }

  lemma {:induction false} SameSelections(a: seq<Session>, b: seq<Session>, selectionId: Id)
    requires |a| == |b| && forall i :: 0 <= i < |a| ==> a[i].selectionId == b[i].selectionId
    ensures FindSelection(a, selectionId) == FindSelection(b, selectionId)
  {
  }

  lemma {:induction false} SameRentals(a: seq<Session>, b: seq<Session>, rentalId: Id)
    requires |a| == |b| && forall i :: 0 <= i < |a| ==> a[i].rentalId == b[i].rentalId
    ensures FindRental(a, rentalId) == FindRental(b, rentalId)
  {
  }

  /** A cleanup changes no selection id. */
  lemma {:induction false} CleanedSelections(s: State, at: Time, selectionId: Id)
    ensures FindSelection(Cleaned(s, at).sessions, selectionId) == FindSelection(s.sessions, selectionId)
  {
    SameSelections(ExpireRows(s.sessions, StaleRows(s.sessions, at)), s.sessions, selectionId);
  }

  lemma {:induction false} BookingApplied(s: State, at: Time, location: int, selectionId: Id, t: Ticket, i: nat)
    requires Bookable(s, location, selectionId, at) == Some(i) && FreshTicket(s, t)
    ensures var e := Event(at, CreateBooking(location, selectionId, t));
            Apply(s, e) == Do(s, Book(i, at, at, t))
            && Answer(s, e) == Booked(t, location, s.sessions[i].cellNumber, at)
  {
  }

  lemma {:induction false} BookingRefused(s: State, at: Time, location: int, selectionId: Id, t: Ticket)
    requires Bookable(s, location, selectionId, at).None? || !FreshTicket(s, t)
    ensures var e := Event(at, CreateBooking(location, selectionId, t));
            Apply(s, e) == s
            && Answer(s, e) == if Bookable(s, location, selectionId, at).None? then SelectionExpired else DbError
  {
  }

  lemma {:induction false} BookedWhen(s: State, e: Event)
    requires e.op.CreateBooking?
    ensures Answer(s, e).Booked? <==>
              Bookable(s, e.op.location, e.op.selectionId, e.at).Some? && FreshTicket(s, e.op.ticket)
  {
  }

  /** The row a successful booking turned into a rental. */
  lemma {:induction false} BookedRowOf(s: State, book: Event) returns (i: nat)
    requires book.op.CreateBooking? && Answer(s, book).Booked?
    ensures i < |s.sessions| && FindSelection(s.sessions, book.op.selectionId) == Some(i)
    ensures LocationOf(s.cells, s.sessions[i]) == Some(book.op.location)
    ensures Apply(s, book).sessions == s.sessions[i := BookedRow(s.sessions[i], book.op.ticket, book.at)]
    ensures Answer(s, book) == Booked(book.op.ticket, book.op.location, s.sessions[i].cellNumber, book.at)
  {
    BookedWhen(s, book);
    i := Bookable(s, book.op.location, book.op.selectionId, book.at).value;
    BookingApplied(s, book.at, book.op.location, book.op.selectionId, book.op.ticket, i);
  }

  lemma {:induction false} RentalAnswered(s: State, at: Time, rentalId: Id, i: nat)
    requires FindRental(s.sessions, rentalId) == Some(i) && s.sessions[i].cell < |s.cells|
    requires s.sessions[i].bookingId.Some? && s.sessions[i].code.Some?
    ensures Answer(s, Event(at, GetRental(rentalId))) == InfoOf(s.cells, s.sessions[i], rentalId)
  {
  }

  lemma {:induction false} OpenApplied(s: State, at: Time, rentalId: Id)
    ensures Apply(s, Event(at, OpenRental(rentalId))).payments == RefreshRows(s.payments, rentalId, at)
    ensures Answer(s, Event(at, OpenRental(rentalId)))
         == OpenReply(s.(payments := RefreshRows(s.payments, rentalId, at)), rentalId, at)
  {
  }

  lemma {:induction false} FinishApplied(s: State, at: Time, rentalId: Id)
    ensures var row := FindRental(s.sessions, rentalId);
            Apply(s, Event(at, FinishRental(rentalId))) == if row.Some? then Do(s, Finish(row.value, at)) else s
  {
  }

  lemma {:induction false} StatusApplied(s: State, at: Time, c: nat, status: CellStatus)
    ensures var e := Event(at, UpdateLockerStatus(c, status));
            var refused := PanelRefuses(s, c, status);
            Apply(s, e) == (if c < |s.cells| && !refused then s.(cells := WithStatus(s.cells, c, status)) else s)
            && Answer(s, e) == if c >= |s.cells| then LockerNotFound else if refused then ActiveRentalExists
                               else StatusChanged(c, s.cells[c].status, at)
  {
  }

  // ---------------------------------------------------------------- runs

  /** Events in nondecreasing time, none before `t`. */
  predicate Ordered(t: Time, es: seq<Event>)
    decreases |es|
  {
    es == [] || (t <= es[0].at && Ordered(es[0].at, es[1..]))
  }

  /** When the last event happens, or `t` if there is none. */
  function LastTime(t: Time, es: seq<Event>): Time {
    if es == [] then t else es[|es| - 1].at
  }

  function Run(s: State, es: seq<Event>): State
    decreases |es|
  {
    if es == [] then s else Run(Apply(s, es[0]), es[1..])
  }

  function Replies(s: State, es: seq<Event>): (r: seq<Reply>)
    ensures |r| == |es|
    decreases |es|
  {
    if es == [] then [] else [Answer(s, es[0])] + Replies(Apply(s, es[0]), es[1..])
  }

  /** A database before its first customer. */
  predicate Initial(s: State) {
    s.sessions == [] && s.payments == []
  }
}
