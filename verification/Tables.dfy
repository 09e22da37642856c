/** The three tables of the rental flow, their column values and the lookups its queries make.
    A table is the sequence of its rows in insertion order, and a row's serial primary key is its
    position: the flow inserts rows and updates them, and never deletes one. */
module Tables {

  /** A random identifier, as `genID` draws it; identifiers are only ever compared. */
  type Id(==, !new)

  /** An instant in microseconds, the resolution of the database's timestamps. */
  type Time = int

  const SECOND: Time := 1_000_000
  const HOLD: Time := 90 * SECOND
  const SETTLE: Time := 5 * SECOND
  const PAY_WINDOW: Time := 300 * SECOND
  const PRICE: int := 900

  datatype Option<+T> = None | Some(value: T)

  datatype Size = S | M | L | XL

  datatype CellStatus = Free | Reserved | Occupied | Locked | Open | Maintenance | OutOfService

  datatype SessionStatus = Selected | Active | Closed | Expired

  /** `Lapsed` is the column value 'expired'.  `Confirmed` is read by the revenue report, but no
      operation of the flow writes it. */
  datatype PaymentStatus = Pending | Paid | Lapsed | Confirmed

  /** A row of `lockers`: one cell of a location. */
  datatype Cell = Cell(location: int, no: int, size: Size, status: CellStatus, active: bool)

  /** A row of `storage_sessions`.  The last six columns are null or empty until the booking. */
  datatype Session = Session(
    selectionId: Id, cell: nat, cellNumber: int, size: Size, createdAt: Time, hold: Time, status: SessionStatus,
    bookingId: Option<Id>, rentalId: Option<Id>, phone: string, code: Option<string>,
    openedAt: Option<int>, finishedAt: Option<int>)

  /** A row of `payments`. */
  datatype Payment = Payment(
    session: nat, rentalId: Id, paymentId: Id, amount: int, status: PaymentStatus,
    expiresAt: Time, createdAt: Time, paidAt: Option<Time>)

  datatype State = State(locations: set<int>, cells: seq<Cell>, sessions: seq<Session>, payments: seq<Payment>)

  /** A session that still holds its cell. */
  predicate Live(x: Session) {
    x.status == Selected || x.status == Active
  }

  /** Still selected, and its hold strictly past. */
  predicate Stale(x: Session, now: Time) {
    x.status == Selected && x.hold < now
  }

  /** A free, active cell of the place and size asked for. */
  predicate Selectable(c: Cell, location: int, size: Size) {
    c.location == location && c.size == size && c.status == Free && c.active
  }

  /** The location a session joins to through its cell. */
  function LocationOf(cells: seq<Cell>, x: Session): Option<int> {
    if x.cell < |cells| then Some(cells[x.cell].location) else None
  }

  // ---------------------------------------------------------------- lookups

  /** The first of the first `n` rows that satisfies a WHERE clause. */
  function First<T>(rows: seq<T>, p: T -> bool, n: nat): (r: Option<nat>)
    requires n <= |rows|
    ensures r.Some? ==> r.value < n && p(rows[r.value]) && forall j :: 0 <= j < r.value ==> !p(rows[j])
    ensures r.None? ==> forall j :: 0 <= j < n ==> !p(rows[j])
  {
    if n == 0 then None else
      var earlier := First(rows, p, n - 1);
      if earlier.Some? then earlier else if p(rows[n - 1]) then Some(n - 1) else None
  }

  function FindSelection(sessions: seq<Session>, selectionId: Id): (r: Option<nat>)
    ensures r.Some? ==> r.value < |sessions| && sessions[r.value].selectionId == selectionId
    ensures r.Some? ==> forall j {:trigger sessions[j].selectionId} :: 0 <= j < r.value ==>
              sessions[j].selectionId != selectionId
    ensures r.None? ==> forall j {:trigger sessions[j].selectionId} :: 0 <= j < |sessions| ==>
              sessions[j].selectionId != selectionId
  {
    First(sessions, (x: Session) => x.selectionId == selectionId, |sessions|)
  }

  function FindBooking(sessions: seq<Session>, bookingId: Id): (r: Option<nat>)
    ensures r.Some? ==> r.value < |sessions| && sessions[r.value].bookingId == Some(bookingId)
    ensures r.Some? ==> forall j {:trigger sessions[j].bookingId} :: 0 <= j < r.value ==>
              sessions[j].bookingId != Some(bookingId)
    ensures r.None? ==> forall j {:trigger sessions[j].bookingId} :: 0 <= j < |sessions| ==>
              sessions[j].bookingId != Some(bookingId)
  {
    First(sessions, (x: Session) => x.bookingId == Some(bookingId), |sessions|)
  }

  function FindRental(sessions: seq<Session>, rentalId: Id): (r: Option<nat>)
    ensures r.Some? ==> r.value < |sessions| && sessions[r.value].rentalId == Some(rentalId)
    ensures r.Some? ==> forall j {:trigger sessions[j].rentalId} :: 0 <= j < r.value ==>
              sessions[j].rentalId != Some(rentalId)
    ensures r.None? ==> forall j {:trigger sessions[j].rentalId} :: 0 <= j < |sessions| ==>
              sessions[j].rentalId != Some(rentalId)
  {
    First(sessions, (x: Session) => x.rentalId == Some(rentalId), |sessions|)
  }

  function FindPayment(payments: seq<Payment>, paymentId: Id): (r: Option<nat>)
    ensures r.Some? ==> r.value < |payments| && payments[r.value].paymentId == paymentId
    ensures r.Some? ==> forall j {:trigger payments[j].paymentId} :: 0 <= j < r.value ==>
              payments[j].paymentId != paymentId
    ensures r.None? ==> forall j {:trigger payments[j].paymentId} :: 0 <= j < |payments| ==>
              payments[j].paymentId != paymentId
  {
    First(payments, (p: Payment) => p.paymentId == paymentId, |payments|)
  }

  /** An active rental at the location that opens with this code. */
  predicate OpensWith(cells: seq<Cell>, x: Session, location: int, code: string) {
    LocationOf(cells, x) == Some(location) && x.code == Some(code) && x.status == Active
  }

  function FindCode(cells: seq<Cell>, sessions: seq<Session>, location: int, code: string): (r: Option<nat>)
    ensures r.Some? ==> r.value < |sessions| && OpensWith(cells, sessions[r.value], location, code)
    ensures r.Some? ==>
              forall j {:trigger OpensWith(cells, sessions[j], location, code)} ::
                0 <= j < r.value ==> !OpensWith(cells, sessions[j], location, code)
    ensures r.None? ==>
              forall j {:trigger OpensWith(cells, sessions[j], location, code)} ::
                0 <= j < |sessions| ==> !OpensWith(cells, sessions[j], location, code)
  {
    First(sessions, (x: Session) => OpensWith(cells, x, location, code), |sessions|)
  }

  /** The newest of the first `n` payments that belong to a session. */
  function LatestOf(payments: seq<Payment>, row: nat, n: nat): (r: Option<nat>)
    requires n <= |payments|
    ensures r.Some? ==> r.value < n && payments[r.value].session == row
    ensures r.Some? ==>
              forall k {:trigger payments[k].session} ::
                0 <= k < n && payments[k].session == row ==> payments[k].createdAt <= payments[r.value].createdAt
    ensures r.None? ==> forall k {:trigger payments[k].session} :: 0 <= k < n ==> payments[k].session != row
  {
    if n == 0 then None else
      var p, earlier := payments[n - 1], LatestOf(payments, row, n - 1);
      if p.session == row && (earlier.None? || p.createdAt > payments[earlier.value].createdAt)
      then Some(n - 1) else earlier
  }

  function LatestPayment(payments: seq<Payment>, row: nat): (r: Option<nat>)
    ensures r.Some? ==> r.value < |payments| && payments[r.value].session == row
  {
    LatestOf(payments, row, |payments|)
  }

  /** Cell `c` comes no later than cell `d` in the order of their numbers. */
  predicate Before(cells: seq<Cell>, c: nat, d: nat)
    requires c < |cells| && d < |cells|
  {
    cells[c].no < cells[d].no || (cells[c].no == cells[d].no && c <= d)
  }

  /** The lowest-numbered selectable cell among the first `n`, passing over those in `hidden`. */
  function LowestOf(cells: seq<Cell>, location: int, size: Size, hidden: set<nat>, n: nat): (r: Option<nat>)
    requires n <= |cells|
    ensures r.Some? ==> r.value < n && r.value !in hidden && Selectable(cells[r.value], location, size)
    ensures r.Some? ==>
              forall c {:trigger Selectable(cells[c], location, size)} ::
                0 <= c < n && c !in hidden && Selectable(cells[c], location, size) ==> Before(cells, r.value, c)
    ensures r.None? ==>
              forall c {:trigger Selectable(cells[c], location, size)} ::
                0 <= c < n && c !in hidden ==> !Selectable(cells[c], location, size)
  {
    if n == 0 then None else
      var best := LowestOf(cells, location, size, hidden, n - 1);
      if n - 1 !in hidden && Selectable(cells[n - 1], location, size)
         && (best.None? || cells[n - 1].no < cells[best.value].no)
      then Some(n - 1) else best
  }

  /** The pick of a selection; SKIP LOCKED passes over the cells in `hidden`, which others have locked. */
  function LowestFree(cells: seq<Cell>, location: int, size: Size, hidden: set<nat>): (r: Option<nat>)
    ensures r.Some? ==> r.value < |cells| && r.value !in hidden && Selectable(cells[r.value], location, size)
  {
    LowestOf(cells, location, size, hidden, |cells|)
  }

  // ---------------------------------------------------------------- statements

  /** Sets the status of one cell; no row, no effect. */
  function WithStatus(cells: seq<Cell>, c: nat, status: CellStatus): (r: seq<Cell>)
    ensures |r| == |cells|
  {
    if c < |cells| then cells[c := cells[c].(status := status)] else cells
  }

  /** The first `n` cells, those in `freed` freed. */
  function FreeFirst(cells: seq<Cell>, freed: set<nat>, n: nat): (r: seq<Cell>)
    requires n <= |cells|
    ensures |r| == n
    ensures forall c :: 0 <= c < n ==> r[c] == if c in freed then cells[c].(status := Free) else cells[c]
  {
    if n == 0 then [] else
      FreeFirst(cells, freed, n - 1) + [if n - 1 in freed then cells[n - 1].(status := Free) else cells[n - 1]]
  }

  /** Frees the cells in `freed`. */
  function FreeCells(cells: seq<Cell>, freed: set<nat>): seq<Cell> {
    FreeFirst(cells, freed, |cells|)
  }

  /** The first `n` sessions, those in `rows` expired. */
  function ExpireFirst(sessions: seq<Session>, rows: set<nat>, n: nat): (r: seq<Session>)
    requires n <= |sessions|
    ensures |r| == n
    ensures forall i :: 0 <= i < n ==> r[i] == if i in rows then sessions[i].(status := Expired) else sessions[i]
  {
    if n == 0 then [] else
      var x := sessions[n - 1];
      ExpireFirst(sessions, rows, n - 1) + [if n - 1 in rows then x.(status := Expired) else x]
  }

  /** Expires the sessions in `rows`. */
  function ExpireRows(sessions: seq<Session>, rows: set<nat>): seq<Session> {
    ExpireFirst(sessions, rows, |sessions|)
  }

  /** The CASE expressions of `refreshPaymentStatus` on one row. */
  function RefreshPayment(p: Payment, now: Time): Payment {
    var settled := p.status == Pending && p.createdAt <= now - SETTLE;
    p.(status := if p.status == Pending && p.expiresAt < now then Lapsed else if settled then Paid else p.status,
       paidAt := if settled then Some(now) else p.paidAt)
  }

  /** What a look at `now` for a rental makes of a payment, case by case: another rental's payment, and one
      that is no longer pending, stay; a pending one lapses once its expiry is strictly past, otherwise it is
      paid five seconds after its creation, otherwise it waits; and either end sets `paidAt`. */
  predicate Looked(p: Payment, q: Payment, rentalId: Id, now: Time) {
    q.session == p.session && q.rentalId == p.rentalId && q.paymentId == p.paymentId && q.amount == p.amount
    && q.expiresAt == p.expiresAt && q.createdAt == p.createdAt
    && (p.rentalId != rentalId || p.status != Pending ==> q == p)
    && (p.rentalId == rentalId && p.status == Pending ==>
          (q.status == Lapsed <==> p.expiresAt < now)
          && (q.status == Paid <==> p.createdAt + SETTLE <= now <= p.expiresAt)
          && (q.status == Pending <==> now < p.createdAt + SETTLE && now <= p.expiresAt)
          && q.paidAt == if p.createdAt + SETTLE <= now then Some(now) else p.paidAt)
  }

  function RefreshFirst(payments: seq<Payment>, rentalId: Id, now: Time, n: nat): (r: seq<Payment>)
    requires n <= |payments|
    ensures |r| == n
    ensures forall k :: 0 <= k < n ==>
              r[k] == if payments[k].rentalId == rentalId then RefreshPayment(payments[k], now) else payments[k]
  {
    if n == 0 then [] else
      var p := payments[n - 1];
      RefreshFirst(payments, rentalId, now, n - 1) + [if p.rentalId == rentalId then RefreshPayment(p, now) else p]
  }

  /** Refreshes the payments of a rental. */
  function RefreshRows(payments: seq<Payment>, rentalId: Id, now: Time): seq<Payment> {
    RefreshFirst(payments, rentalId, now, |payments|)
  }

  /** The sessions a cleanup at `now` expires. */
  function StaleRows(sessions: seq<Session>, now: Time): set<nat> {
    set i | 0 <= i < |sessions| && Stale(sessions[i], now)
  }

  /** Some stale session sits on cell `c`. */
  predicate HasStale(sessions: seq<Session>, c: nat, now: Time) {
    exists i :: 0 <= i < |sessions| && sessions[i].cell == c && Stale(sessions[i], now)
  }

  /** The cells a cleanup at `now` frees: those still marked reserved for a stale session. */
  function StaleCells(cells: seq<Cell>, sessions: seq<Session>, now: Time): set<nat> {
    set c | 0 <= c < |cells| && cells[c].status == Reserved && HasStale(sessions, c, now)
  }
}
