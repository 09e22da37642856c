/** Selections, bookings and finishes as concurrent transactions.  Each takes row locks, buffers its
    writes where only it sees them, and publishes them at commit; a rollback drops them.  Between them
    run the statements that commit by themselves: the cleanup tick, payment refreshes, the stamp of an
    opened rental, and admin status changes.  A statement runs when no other transaction holds a row it
    must lock, and waits otherwise. */
module Interleaving {
  import opened Tables
  import opened Operations
  import opened Traces
  import opened Invariants

  /** How far a transaction has come, with what it decided on the way. */
  datatype Stage =
    | SelectBegun(location: int, size: Size)
    | SelectCleaned(location: int, size: Size, expired: set<nat>, freed: set<nat>, cleanedAt: Time)
    | SelectPicked(location: int, size: Size, expired: set<nat>, freed: set<nat>, cleanedAt: Time,
                   cell: nat, passed: set<nat>)
    | SelectReserved(location: int, size: Size, expired: set<nat>, freed: set<nat>, cleanedAt: Time,
                     cell: nat, passed: set<nat>)
    | SelectInserted(location: int, size: Size, expired: set<nat>, freed: set<nat>, cleanedAt: Time,
                     cell: nat, passed: set<nat>, selectionId: Id, at: Time)
    | BookLocked(location: int, selectionId: Id, row: nat)
    | BookDecided(location: int, selectionId: Id, row: nat, checkedAt: Time)
    | BookWritten(location: int, selectionId: Id, row: nat, checkedAt: Time, at: Time, ticket: Ticket)
    | FinishLocked(rentalId: Id, row: nat)
    | FinishClosed(rentalId: Id, row: nat, at: Time)
    | FinishFreed(rentalId: Id, row: nat, at: Time)
      // an admin request whose check has passed
    | AdminChecked(cell: nat, status: CellStatus)

  /** A transaction: the rows it has locked and the row versions it has written.  An admin request, which is
      no transaction, locks and buffers nothing between its two statements. */
  datatype Tx = Tx(stage: Stage, cellLocks: set<nat>, rowLocks: set<nat>,
                   cells: map<nat, Cell>, rows: map<nat, Session>, inserts: seq<Session>, payments: seq<Payment>)

  /** The clock, the committed database, and the transactions in flight. */
  datatype World = World(now: Time, db: State, txs: map<nat, Tx>)

  datatype Label =
    | Tick(to: Time)
    | CleanupTick
    | RefreshStatement(rentalId: Id)
    | StampStatement(rentalId: Id)
    | AdminCheck(id: nat, cell: nat, status: CellStatus)
    | AdminUpdate(id: nat)
    | BeginSelect(id: nat, location: int, size: Size)
    | CleanStatement(id: nat)
    | PickCell(id: nat)
    | ReserveCell(id: nat)
    | InsertSession(id: nat, selectionId: Id)
    | LockBooking(id: nat, location: int, selectionId: Id)
    | DecideBooking(id: nat)
    | WriteBooking(id: nat, ticket: Ticket)
    | LockRental(id: nat, rentalId: Id)
    | CloseRental(id: nat)
    | FreeCell(id: nat)
    | Commit(id: nat)
    | Rollback(id: nat)

  // ---------------------------------------------------------------- what a transaction sees

  function OverlayCells(cells: seq<Cell>, m: map<nat, Cell>): (r: seq<Cell>)
    ensures |r| == |cells| && forall c :: 0 <= c < |cells| ==> r[c] == if c in m then m[c] else cells[c]
  {
    seq(|cells|, c requires 0 <= c < |cells| => if c in m then m[c] else cells[c])
  }

  function OverlayRows(sessions: seq<Session>, m: map<nat, Session>): (r: seq<Session>)
    ensures |r| == |sessions| && forall i :: 0 <= i < |sessions| ==> r[i] == if i in m then m[i] else sessions[i]
  {
    seq(|sessions|, i requires 0 <= i < |sessions| => if i in m then m[i] else sessions[i])
  }

  /** The committed database under the transaction's own writes. */
  function View(db: State, tx: Tx): State {
    State(db.locations, OverlayCells(db.cells, tx.cells), OverlayRows(db.sessions, tx.rows) + tx.inserts,
          db.payments + tx.payments)
  }

  /** The cells locked by others, which SKIP LOCKED passes over. */
  function LockedByOthers(w: World, id: nat): (r: set<nat>)
    ensures forall j, c :: j in w.txs && j != id && c in w.txs[j].cellLocks ==> c in r
  {
    set j, c | j in w.txs && j != id && c in w.txs[j].cellLocks :: c
  }

  /** No other transaction has locked any of these rows. */
  predicate Unlocked(w: World, id: nat, cells: set<nat>, rows: set<nat>) {
    forall j :: j in w.txs && j != id ==> cells !! w.txs[j].cellLocks && rows !! w.txs[j].rowLocks
  }

  function SelectionOf(stage: Stage): Option<Id> {
    if stage.SelectInserted? then Some(stage.selectionId) else None
  }

  function TicketOf(stage: Stage): Option<Ticket> {
    if stage.BookWritten? then Some(stage.ticket) else None
  }

  predicate DistinctTickets(a: Ticket, b: Ticket) {
    a.bookingId != b.bookingId && a.rentalId != b.rentalId && a.paymentId != b.paymentId
  }

  /** The unique indexes, also against rows others have inserted and not yet committed. */
  predicate FreshSelection(w: World, id: nat, selectionId: Id) {
    FindSelection(w.db.sessions, selectionId).None?
    && forall j :: j in w.txs && j != id ==> SelectionOf(w.txs[j].stage) != Some(selectionId)
  }

  predicate FreshBooking(w: World, id: nat, t: Ticket) {
    FreshTicket(w.db, t)
    && forall j :: j in w.txs && j != id && TicketOf(w.txs[j].stage).Some? ==>
        DistinctTickets(t, TicketOf(w.txs[j].stage).value)
  }

  // ---------------------------------------------------------------- steps

  function Put(w: World, id: nat, tx: Tx): World {
    w.(txs := w.txs[id := tx])
  }

  function Has(w: World, id: nat): Option<Tx> {
    if id in w.txs then Some(w.txs[id]) else None
  }

  /** The versions a cleanup writes of the first `n` sessions and cells. */
  function ExpiredVersions(sessions: seq<Session>, rows: set<nat>, n: nat): (r: map<nat, Session>)
    requires n <= |sessions|
    ensures forall i :: i in r <==> i in rows && i < n
    ensures forall i :: i in r ==> i < n && r[i] == sessions[i].(status := Expired)
  {
    if n == 0 then map[] else
      var earlier := ExpiredVersions(sessions, rows, n - 1);
      if n - 1 in rows then earlier[n - 1 := sessions[n - 1].(status := Expired)] else earlier
  }

  function FreedVersions(cells: seq<Cell>, freed: set<nat>, n: nat): (r: map<nat, Cell>)
    requires n <= |cells|
    ensures forall c :: c in r <==> c in freed && c < n
    ensures forall c :: c in r ==> c < n && r[c] == cells[c].(status := Free)
  {
    if n == 0 then map[] else
      var earlier := FreedVersions(cells, freed, n - 1);
      if n - 1 in freed then earlier[n - 1 := cells[n - 1].(status := Free)] else earlier
  }

  function Cleaning(w: World, id: nat, tx: Tx): Tx
    requires tx.stage.SelectBegun?
  {
    var expired, freed := StaleRows(w.db.sessions, w.now), StaleCells(w.db.cells, w.db.sessions, w.now);
    tx.(stage := SelectCleaned(tx.stage.location, tx.stage.size, expired, freed, w.now),
        cellLocks := tx.cellLocks + freed, rowLocks := tx.rowLocks + expired,
        rows := ExpiredVersions(w.db.sessions, expired, |w.db.sessions|),
        cells := FreedVersions(w.db.cells, freed, |w.db.cells|))
  }

  function StepClean(w: World, id: nat): Option<World> {
    var tx := Has(w, id);
    if tx.Some? && tx.value.stage.SelectBegun?
       && Unlocked(w, id, StaleCells(w.db.cells, w.db.sessions, w.now), StaleRows(w.db.sessions, w.now))
    then Some(Put(w, id, Cleaning(w, id, tx.value))) else None
  }

  /** The cells a pick passes over: those not selectable as the transaction sees them, and those in `hidden`. */
  function PassedOver(cells: seq<Cell>, location: int, size: Size, hidden: set<nat>): set<nat> {
    set c | 0 <= c < |cells| && (c in hidden || !Selectable(cells[c], location, size))
  }

  function Picking(w: World, id: nat, tx: Tx, c: nat): Tx
    requires tx.stage.SelectCleaned?
  {
    var g := tx.stage;
    var passed := PassedOver(View(w.db, tx).cells, g.location, g.size, LockedByOthers(w, id));
    tx.(stage := SelectPicked(g.location, g.size, g.expired, g.freed, g.cleanedAt, c, passed),
        cellLocks := tx.cellLocks + {c})
  }

  function StepPick(w: World, id: nat): Option<World> {
    var tx := Has(w, id);
    if tx.Some? && tx.value.stage.SelectCleaned? && tx.value.stage.location in w.db.locations then
      var g := tx.value.stage;
      var pick := LowestFree(View(w.db, tx.value).cells, g.location, g.size, LockedByOthers(w, id));
      if pick.None? then None else Some(Put(w, id, Picking(w, id, tx.value, pick.value)))
    else None
  }

  /** Mark the picked cell reserved if it is free; how many rows that changed is not looked at. */
  function StepReserve(w: World, id: nat): Option<World> {
    var tx := Has(w, id);
    if tx.Some? && tx.value.stage.SelectPicked? then
      var g := tx.value.stage;
      var seen := View(w.db, tx.value).cells;
      var hit := g.cell < |seen| && seen[g.cell].status == Free;
      var next := SelectReserved(g.location, g.size, g.expired, g.freed, g.cleanedAt, g.cell, g.passed);
      Some(Put(w, id, tx.value.(stage := next,
                                cells := if hit then tx.value.cells[g.cell := seen[g.cell].(status := Reserved)]
                                    else tx.value.cells)))
    else None
  }

  function StepInsert(w: World, id: nat, selectionId: Id): Option<World> {
    var tx := Has(w, id);
    if tx.Some? && tx.value.stage.SelectReserved? && tx.value.stage.cell < |w.db.cells|
       && FreshSelection(w, id, selectionId) then
      var g := tx.value.stage;
      var next := SelectInserted(g.location, g.size, g.expired, g.freed, g.cleanedAt, g.cell, g.passed,
                                 selectionId, w.now);
      Some(Put(w, id, tx.value.(stage := next,
                                inserts := [NewSession(w.db.cells, g.cell, selectionId, w.now)])))
    else None
  }

  /** The join FOR UPDATE locks the session and its cell. */
  function StepLockBooking(w: World, id: nat, location: int, selectionId: Id): Option<World> {
    var row := JoinedSelection(w.db, location, selectionId);
    if id !in w.txs && row.Some? && Unlocked(w, id, {w.db.sessions[row.value].cell}, {row.value})
    then Some(Put(w, id, Tx(BookLocked(location, selectionId, row.value), {w.db.sessions[row.value].cell}, {row.value},
                            map[], map[], [], [])))
    else None
  }

  function StepDecide(w: World, id: nat): Option<World> {
    var tx := Has(w, id);
    if tx.Some? && tx.value.stage.BookLocked? && tx.value.stage.row < |w.db.sessions|
       && w.db.sessions[tx.value.stage.row].status == Selected && w.now <= w.db.sessions[tx.value.stage.row].hold
    then
      var g := tx.value.stage;
      Some(Put(w, id, tx.value.(stage := BookDecided(g.location, g.selectionId, g.row, w.now))))
    else None
  }

  function StepWriteBooking(w: World, id: nat, t: Ticket): Option<World> {
    var tx := Has(w, id);
    if tx.Some? && tx.value.stage.BookDecided? && tx.value.stage.row < |w.db.sessions|
       && w.db.sessions[tx.value.stage.row].cell < |w.db.cells| && FreshBooking(w, id, t) then
      var g, i := tx.value.stage, tx.value.stage.row;
      var x := w.db.sessions[i];
      Some(Put(w, id, tx.value.(stage := BookWritten(g.location, g.selectionId, i, g.checkedAt, w.now, t),
                                rows := map[i := BookedRow(x, t, w.now)],
                                payments := [NewPayment(i, t, w.now)],
                                cells := map[x.cell := w.db.cells[x.cell].(status := Occupied)])))
    else None
  }

  /** FinishRental locks the session only. */
  function StepLockRental(w: World, id: nat, rentalId: Id): Option<World> {
    var row := FindRental(w.db.sessions, rentalId);
    if id !in w.txs && row.Some? && Unlocked(w, id, {}, {row.value})
    then Some(Put(w, id, Tx(FinishLocked(rentalId, row.value), {}, {row.value}, map[], map[], [], []))) else None
  }

  function StepClose(w: World, id: nat): Option<World> {
    var tx := Has(w, id);
    if tx.Some? && tx.value.stage.FinishLocked? && tx.value.stage.row < |w.db.sessions| then
      var i := tx.value.stage.row;
      Some(Put(w, id, tx.value.(stage := FinishClosed(tx.value.stage.rentalId, i, w.now),
                                rows := map[i := ClosedRow(w.db.sessions[i], w.now)])))
    else None
  }

  function StepFree(w: World, id: nat): Option<World> {
    var tx := Has(w, id);
    if tx.Some? && tx.value.stage.FinishClosed? && tx.value.stage.row < |w.db.sessions|
       && w.db.sessions[tx.value.stage.row].cell < |w.db.cells|
       && Unlocked(w, id, {w.db.sessions[tx.value.stage.row].cell}, {}) then
      var c := w.db.sessions[tx.value.stage.row].cell;
      Some(Put(w, id, tx.value.(stage := FinishFreed(tx.value.stage.rentalId, tx.value.stage.row, tx.value.stage.at),
                                cellLocks := tx.value.cellLocks + {c},
                                cells := map[c := w.db.cells[c].(status := Free)])))
    else None
  }

  predicate Committable(stage: Stage) {
    stage.SelectInserted? || stage.BookWritten? || stage.FinishFreed?
  }

  function StepCommit(w: World, id: nat): Option<World> {
    var tx := Has(w, id);
    if tx.Some? && Committable(tx.value.stage) then Some(World(w.now, View(w.db, tx.value), w.txs - {id})) else None
  }

  predicate IsStatement(l: Label) {
    l.CleanupTick? || l.RefreshStatement? || l.StampStatement?
  }

  /** What a statement that commits by itself does. */
  function Statement(w: World, l: Label): Effect {
    match l
    case CleanupTick => ExpireStale(w.db, w.now)
    case RefreshStatement(rentalId) => Refresh(rentalId, w.now)
    case StampStatement(rentalId) =>
      var row := FindRental(w.db.sessions, rentalId);
      if row.Some? then Stamp(row.value, w.now) else Nop
    case _ => Nop
  }

  /** The rows a statement locks are not locked by any transaction. */
  predicate Unobstructed(w: World, e: Effect) {
    forall j :: j in w.txs ==>
      match e
      case Expire(rows, freed, _) => rows !! w.txs[j].rowLocks && freed !! w.txs[j].cellLocks
      case Stamp(i, _) => i !in w.txs[j].rowLocks
      case SetStatus(c, _) => c !in w.txs[j].cellLocks
      case _ => true
  }

  function StepStatement(w: World, l: Label): Option<World> {
    if Unobstructed(w, Statement(w, l)) then Some(w.(db := Do(w.db, Statement(w, l)))) else None
  }

  /** The panel's check: the cell exists, and no active session sits on it if it is to be free or maintained. */
  function StepAdminCheck(w: World, id: nat, c: nat, status: CellStatus): Option<World> {
    if id !in w.txs && c < |w.db.cells| && !PanelRefuses(w.db, c, status)
    then Some(Put(w, id, Tx(AdminChecked(c, status), {}, {}, map[], map[], [], []))) else None
  }

  /** The panel's update, whatever has happened since the check. */
  function StepAdminUpdate(w: World, id: nat): Option<World> {
    var tx := Has(w, id);
    if tx.Some? && tx.value.stage.AdminChecked? && Unlocked(w, id, {tx.value.stage.cell}, {}) then
      Some(World(w.now, Do(w.db, SetStatus(tx.value.stage.cell, tx.value.stage.status)), w.txs - {id}))
    else None
  }

  /** One step of one transaction, or of the clock; `None` when it must wait or fail. */
  function Step(w: World, l: Label): Option<World> {
    match l
    case Tick(to) => if w.now <= to then Some(w.(now := to)) else None
    case CleanupTick => StepStatement(w, l)
    case RefreshStatement(_) => StepStatement(w, l)
    case StampStatement(_) => StepStatement(w, l)
    case AdminCheck(id, c, status) => StepAdminCheck(w, id, c, status)
    case AdminUpdate(id) => StepAdminUpdate(w, id)
    case BeginSelect(id, location, size) =>
      if id !in w.txs then Some(Put(w, id, Tx(SelectBegun(location, size), {}, {}, map[], map[], [], []))) else None
    case CleanStatement(id) => StepClean(w, id)
    case PickCell(id) => StepPick(w, id)
    case ReserveCell(id) => StepReserve(w, id)
    case InsertSession(id, selectionId) => StepInsert(w, id, selectionId)
    case LockBooking(id, location, selectionId) => StepLockBooking(w, id, location, selectionId)
    case DecideBooking(id) => StepDecide(w, id)
    case WriteBooking(id, t) => StepWriteBooking(w, id, t)
    case LockRental(id, rentalId) => StepLockRental(w, id, rentalId)
    case CloseRental(id) => StepClose(w, id)
    case FreeCell(id) => StepFree(w, id)
    case Commit(id) => StepCommit(w, id)
    case Rollback(id) => if id in w.txs then Some(w.(txs := w.txs - {id})) else None
  }

  /** The atomic effects a finished transaction stands for. */
  function Effects(stage: Stage): (Effect, Effect) {
    match stage
    case SelectInserted(_, _, expired, freed, cleanedAt, cell, _, selectionId, at) =>
      (Expire(expired, freed, cleanedAt), Reserve(cell, selectionId, at))
    case BookWritten(_, _, row, checkedAt, at, ticket) => (Book(row, checkedAt, at, ticket), Nop)
    case FinishFreed(_, row, at) => (Finish(row, at), Nop)
    case _ => (Nop, Nop)
  }

  /** What a step commits: the effects of a finished transaction at its commit, those of a statement that
      commits by itself, and nothing otherwise. */
  function Committed(w: World, l: Label): (Effect, Effect) {
    if IsStatement(l) then (Statement(w, l), Nop)
    else if l.Commit? && l.id in w.txs then Effects(w.txs[l.id].stage)
    else if l.AdminUpdate? && l.id in w.txs && w.txs[l.id].stage.AdminChecked?
      then (SetStatus(w.txs[l.id].stage.cell, w.txs[l.id].stage.status), Nop)
    else (Nop, Nop)
  }

  // ---------------------------------------------------------------- the invariant

  /** The rows a selection expired are locked, still stale in the committed database, and expired in its buffer. */
  ghost predicate CleanedPart(db: State, tx: Tx, expired: set<nat>, freed: set<nat>, at: Time) {
    Allowed(db, Expire(expired, freed, at)) && expired <= tx.rowLocks && freed <= tx.cellLocks
    && tx.rows.Keys == expired && (forall i :: i in expired ==> tx.rows[i] == db.sessions[i].(status := Expired))
    && tx.payments == []
  }

  /** The picked cell is locked, free for this transaction, as asked for, and of all the cells like that which
      the pick did not pass over, the one with the lowest number. */
  ghost predicate PickedPart(db: State, tx: Tx, location: int, size: Size, freed: set<nat>, c: nat, passed: set<nat>) {
    c in tx.cellLocks && c < |db.cells| && db.cells[c].active && (c in freed || db.cells[c].status == Free)
    && location in db.locations && Fits(db.cells[c], location, size) && c !in passed
    && forall d :: 0 <= d < |db.cells| && d !in passed && Fits(db.cells[d], location, size) ==> Before(db.cells, c, d)
  }

  predicate Fits(c: Cell, location: int, size: Size) {
    c.location == location && c.size == size
  }

  ghost predicate FreedCells(db: State, tx: Tx, freed: set<nat>, except: set<nat>) {
    forall c :: c in freed && c !in except ==>
        c < |db.cells| && c in tx.cells && tx.cells[c] == db.cells[c].(status := Free)
  }

  ghost predicate StageOk(db: State, tx: Tx) {
    match tx.stage
    case SelectBegun(_, _) => NothingWritten(tx) && NothingLocked(tx)
    case SelectCleaned(_, _, expired, freed, at) =>
      CleanedPart(db, tx, expired, freed, at) && tx.cells.Keys == freed && FreedCells(db, tx, freed, {})
      && tx.inserts == []
    case SelectPicked(location, size, expired, freed, at, c, passed) =>
      CleanedPart(db, tx, expired, freed, at) && tx.cells.Keys == freed && FreedCells(db, tx, freed, {})
      && tx.inserts == [] && PickedPart(db, tx, location, size, freed, c, passed)
    case SelectReserved(location, size, expired, freed, at, c, passed) =>
      CleanedPart(db, tx, expired, freed, at) && tx.cells.Keys == freed + {c} && FreedCells(db, tx, freed, {c})
      && tx.inserts == [] && PickedPart(db, tx, location, size, freed, c, passed)
      && tx.cells[c] == db.cells[c].(status := Reserved)
    case SelectInserted(location, size, expired, freed, at, c, passed, selectionId, insertedAt) =>
      CleanedPart(db, tx, expired, freed, at) && tx.cells.Keys == freed + {c} && FreedCells(db, tx, freed, {c})
      && PickedPart(db, tx, location, size, freed, c, passed) && tx.cells[c] == db.cells[c].(status := Reserved)
      && tx.inserts == [NewSession(db.cells, c, selectionId, insertedAt)]
      && FindSelection(db.sessions, selectionId).None?
    case BookLocked(location, selectionId, i) => BookPart(db, tx, location, selectionId, i) && NothingWritten(tx)
    case BookDecided(location, selectionId, i, checkedAt) =>
      BookPart(db, tx, location, selectionId, i) && NothingWritten(tx)
      && db.sessions[i].status == Selected && checkedAt <= db.sessions[i].hold
    case BookWritten(location, selectionId, i, checkedAt, at, t) =>
      BookPart(db, tx, location, selectionId, i) && tx.inserts == []
      && db.sessions[i].status == Selected && checkedAt <= db.sessions[i].hold
      && tx.rows == map[i := BookedRow(db.sessions[i], t, at)] && tx.payments == [NewPayment(i, t, at)]
      && tx.cells == map[db.sessions[i].cell := db.cells[db.sessions[i].cell].(status := Occupied)]
      && FreshTicket(db, t)
    case FinishLocked(rentalId, i) =>
      FinishPart(db, tx, rentalId, i) && tx.cellLocks == {} && tx.cells == map[] && tx.rows == map[]
    case FinishClosed(rentalId, i, at) =>
      FinishPart(db, tx, rentalId, i) && tx.cellLocks == {} && tx.cells == map[]
      && tx.rows == map[i := ClosedRow(db.sessions[i], at)]
    case FinishFreed(rentalId, i, at) =>
      FinishPart(db, tx, rentalId, i) && db.sessions[i].cell in tx.cellLocks
      && tx.rows == map[i := ClosedRow(db.sessions[i], at)]
      && tx.cells == map[db.sessions[i].cell := db.cells[db.sessions[i].cell].(status := Free)]
    case AdminChecked(c, _) => c < |db.cells| && NothingWritten(tx) && NothingLocked(tx)
  }

  predicate NothingWritten(tx: Tx) {
    tx.cells == map[] && tx.rows == map[] && tx.inserts == [] && tx.payments == []
  }

  predicate NothingLocked(tx: Tx) {
    tx.cellLocks == {} && tx.rowLocks == {}
  }

  ghost predicate BookPart(db: State, tx: Tx, location: int, selectionId: Id, i: nat) {
    i in tx.rowLocks && i < |db.sessions| && db.sessions[i].cell in tx.cellLocks && db.sessions[i].cell < |db.cells|
    && db.sessions[i].selectionId == selectionId && db.cells[db.sessions[i].cell].location == location
  }

  ghost predicate FinishPart(db: State, tx: Tx, rentalId: Id, i: nat) {
    tx.rowLocks == {i} && i < |db.sessions| && db.sessions[i].rentalId == Some(rentalId)
    && db.sessions[i].cell < |db.cells| && tx.inserts == [] && tx.payments == []
  }

  ghost predicate TxOk(db: State, tx: Tx) {
    (forall i :: i in tx.rowLocks ==> i < |db.sessions|)
    && (forall c :: c in tx.cellLocks ==> c < |db.cells|)
    && StageOk(db, tx)
  }

  /** Each row lock has one owner, and no two transactions are about to insert the same id. */
  ghost predicate Apart(a: Tx, b: Tx) {
    a.cellLocks !! b.cellLocks && a.rowLocks !! b.rowLocks
    && (SelectionOf(a.stage).Some? ==> SelectionOf(a.stage) != SelectionOf(b.stage))
    && (TicketOf(a.stage).Some? && TicketOf(b.stage).Some? ==>
        DistinctTickets(TicketOf(a.stage).value, TicketOf(b.stage).value))
  }

  ghost predicate Inv(w: World) {
    SessionsOk(w.db)
    && (forall j :: j in w.txs ==> TxOk(w.db, w.txs[j]))
    && (forall j, k :: j in w.txs && k in w.txs && j != k ==> Apart(w.txs[j], w.txs[k]))
  }

  /** A step that only advances one transaction keeps the invariant if that transaction stays sound. */
  lemma {:induction false} PutKeeps(w: World, id: nat, tx: Tx)
    requires Inv(w) && TxOk(w.db, tx)
    requires forall j :: j in w.txs && j != id ==> Apart(tx, w.txs[j])
    ensures Inv(Put(w, id, tx))
  {
    var w' := Put(w, id, tx);
    forall j, k | j in w'.txs && k in w'.txs && j != k
      ensures Apart(w'.txs[j], w'.txs[k])
    {
      if k == id {
        assert Apart(tx, w.txs[j]);
      }
    }
  }

  // ---------------------------------------------------------------- selection steps

  lemma {:induction false} CleanOk(w: World, id: nat)
    requires Inv(w) && StepClean(w, id).Some?
    ensures TxOk(w.db, Cleaning(w, id, w.txs[id]))
  {
    StaleAllowed(w.db, w.now);
    assert TxOk(w.db, w.txs[id]);
  }

  lemma {:induction false} CleanApart(w: World, id: nat, j: nat)
    requires Inv(w) && StepClean(w, id).Some? && j in w.txs && j != id
    ensures Apart(Cleaning(w, id, w.txs[id]), w.txs[j])
  {
    assert Apart(w.txs[id], w.txs[j]);
  }

  lemma {:induction false} CleanKeeps(w: World, id: nat)
    requires Inv(w) && StepClean(w, id).Some?
    ensures Inv(StepClean(w, id).value)
  {
    var tx' := Cleaning(w, id, w.txs[id]);
    assert StepClean(w, id).value == Put(w, id, tx');
    CleanOk(w, id);
    forall j | j in w.txs && j != id
      ensures Apart(tx', w.txs[j])
    {
      CleanApart(w, id, j);
    }
    PutKeeps(w, id, tx');
  }

  /** What a pick on the cells as seen means for the committed ones, which differ in status at most. */
  lemma {:induction false} PickedFirst(cells: seq<Cell>, seen: seq<Cell>, location: int, size: Size,
                                       hidden: set<nat>, c: nat)
    requires |seen| == |cells| && forall d :: 0 <= d < |cells| ==> SameShape(cells[d], seen[d])
    requires LowestFree(seen, location, size, hidden) == Some(c)
    ensures c < |cells| && Fits(cells[c], location, size) && c !in PassedOver(seen, location, size, hidden)
    ensures forall d :: 0 <= d < |cells| && d !in PassedOver(seen, location, size, hidden) ==> Before(cells, c, d)
  {
    forall d | 0 <= d < |cells| && d !in PassedOver(seen, location, size, hidden)
      ensures Before(cells, c, d)
    {
      assert Selectable(seen[d], location, size);
      assert Before(seen, c, d);
      assert SameShape(cells[c], seen[c]) && SameShape(cells[d], seen[d]);
    }
  }

  lemma {:induction false} SeenShapes(db: State, tx: Tx)
    requires TxOk(db, tx) && tx.stage.SelectCleaned?
    ensures |View(db, tx).cells| == |db.cells|
    ensures forall d :: 0 <= d < |db.cells| ==> SameShape(db.cells[d], View(db, tx).cells[d])
  {
  }

  /** What is picked is as asked for, and first among the cells not passed over. */
  lemma {:induction false} PickOk(w: World, id: nat)
    requires Inv(w) && StepPick(w, id).Some?
    ensures TxOk(w.db, StepPick(w, id).value.txs[id])
  {
    var tx := w.txs[id];
    var g := tx.stage;
    assert TxOk(w.db, tx);
    SeenShapes(w.db, tx);
    PickedFirst(w.db.cells, View(w.db, tx).cells, g.location, g.size, LockedByOthers(w, id),
                StepPick(w, id).value.txs[id].stage.cell);
  }

  lemma {:induction false} PickApart(w: World, id: nat, j: nat)
    requires Inv(w) && StepPick(w, id).Some? && j in w.txs && j != id
    ensures Apart(StepPick(w, id).value.txs[id], w.txs[j])
  {
    assert Apart(w.txs[id], w.txs[j]);
  }

  lemma {:induction false} PickKeeps(w: World, id: nat)
    requires Inv(w) && StepPick(w, id).Some?
    ensures Inv(StepPick(w, id).value)
  {
    var tx' := StepPick(w, id).value.txs[id];
    assert StepPick(w, id).value == Put(w, id, tx');
    PickOk(w, id);
    forall j | j in w.txs && j != id
      ensures Apart(tx', w.txs[j])
    {
      PickApart(w, id, j);
    }
    PutKeeps(w, id, tx');
  }

  lemma {:induction false} ReserveKeeps(w: World, id: nat)
    requires Inv(w) && StepReserve(w, id).Some?
    ensures Inv(StepReserve(w, id).value)
  {
    var tx := w.txs[id];
    assert TxOk(w.db, tx);
    var tx' := StepReserve(w, id).value.txs[id];
    forall j | j in w.txs && j != id
      ensures Apart(tx', w.txs[j])
    {
      assert Apart(tx, w.txs[j]);
    }
    PutKeeps(w, id, tx');
  }

  lemma {:induction false} InsertKeeps(w: World, id: nat, selectionId: Id)
    requires Inv(w) && StepInsert(w, id, selectionId).Some?
    ensures Inv(StepInsert(w, id, selectionId).value)
  {
    var tx := w.txs[id];
    assert TxOk(w.db, tx);
    var tx' := StepInsert(w, id, selectionId).value.txs[id];
    forall j | j in w.txs && j != id
      ensures Apart(tx', w.txs[j])
    {
      assert Apart(tx, w.txs[j]);
    }
    PutKeeps(w, id, tx');
  }

  // ---------------------------------------------------------------- booking and finish steps

  lemma {:induction false} LockBookingKeeps(w: World, id: nat, location: int, selectionId: Id)
    requires Inv(w) && StepLockBooking(w, id, location, selectionId).Some?
    ensures Inv(StepLockBooking(w, id, location, selectionId).value)
  {
    PutKeeps(w, id, StepLockBooking(w, id, location, selectionId).value.txs[id]);
  }

  lemma {:induction false} DecideKeeps(w: World, id: nat)
    requires Inv(w) && StepDecide(w, id).Some?
    ensures Inv(StepDecide(w, id).value)
  {
    var tx := w.txs[id];
    assert TxOk(w.db, tx);
    forall j | j in w.txs && j != id
      ensures Apart(StepDecide(w, id).value.txs[id], w.txs[j])
    {
      assert Apart(tx, w.txs[j]);
    }
    PutKeeps(w, id, StepDecide(w, id).value.txs[id]);
  }

  lemma {:induction false} WriteBookingKeeps(w: World, id: nat, t: Ticket)
    requires Inv(w) && StepWriteBooking(w, id, t).Some?
    ensures Inv(StepWriteBooking(w, id, t).value)
  {
    var tx := w.txs[id];
    assert TxOk(w.db, tx);
    var tx' := StepWriteBooking(w, id, t).value.txs[id];
    forall j | j in w.txs && j != id
      ensures Apart(tx', w.txs[j])
    {
      assert Apart(tx, w.txs[j]);
    }
    PutKeeps(w, id, tx');
  }

  lemma {:induction false} LockRentalKeeps(w: World, id: nat, rentalId: Id)
    requires Inv(w) && StepLockRental(w, id, rentalId).Some?
    ensures Inv(StepLockRental(w, id, rentalId).value)
  {
    var i := FindRental(w.db.sessions, rentalId).value;
    assert SessionOk(w.db.cells, w.db.sessions[i]);
    PutKeeps(w, id, StepLockRental(w, id, rentalId).value.txs[id]);
  }

  lemma {:induction false} CloseKeeps(w: World, id: nat)
    requires Inv(w) && StepClose(w, id).Some?
    ensures Inv(StepClose(w, id).value)
  {
    var tx := w.txs[id];
    assert TxOk(w.db, tx);
    forall j | j in w.txs && j != id
      ensures Apart(StepClose(w, id).value.txs[id], w.txs[j])
    {
      assert Apart(tx, w.txs[j]);
    }
    PutKeeps(w, id, StepClose(w, id).value.txs[id]);
  }

  lemma {:induction false} FreeKeeps(w: World, id: nat)
    requires Inv(w) && StepFree(w, id).Some?
    ensures Inv(StepFree(w, id).value)
  {
    var tx := w.txs[id];
    assert TxOk(w.db, tx);
    var tx' := StepFree(w, id).value.txs[id];
    forall j | j in w.txs && j != id
      ensures Apart(tx', w.txs[j])
    {
      assert Apart(tx, w.txs[j]);
    }
    PutKeeps(w, id, tx');
  }

  // ---------------------------------------------------------------- commits

  /** Publishing a finished transaction's buffer is doing its atomic effects. */
  lemma {:induction false} CommitIsAtomic(db: State, tx: Tx)
    requires SessionsOk(db) && TxOk(db, tx) && Committable(tx.stage)
    ensures Allowed(db, Effects(tx.stage).0)
    ensures Allowed(Do(db, Effects(tx.stage).0), Effects(tx.stage).1)
    ensures View(db, tx) == Do(Do(db, Effects(tx.stage).0), Effects(tx.stage).1)
  {
    if tx.stage.SelectInserted? {
      SelectCommit(db, tx);
    } else {
      var s' := Do(db, Effects(tx.stage).0);
      var v := View(db, tx);
      assert v.sessions == s'.sessions;
      assert v.cells == s'.cells;
      assert v.payments == s'.payments;
    }
  }

  lemma {:induction false} SelectCommit(db: State, tx: Tx)
    requires SessionsOk(db) && TxOk(db, tx) && tx.stage.SelectInserted?
    ensures Allowed(db, Effects(tx.stage).0)
    ensures Allowed(Do(db, Effects(tx.stage).0), Effects(tx.stage).1)
    ensures View(db, tx) == Do(Do(db, Effects(tx.stage).0), Effects(tx.stage).1)
  {
    var g := tx.stage;
    var mid := Do(db, Expire(g.expired, g.freed, g.cleanedAt));
    FreshAfterExpiry(db, mid, g.expired, g.freed, g.cleanedAt, g.selectionId);
    CommittedCells(db, tx);
    CommittedRows(db, tx);
    assert NewSession(mid.cells, g.cell, g.selectionId, g.at) == NewSession(db.cells, g.cell, g.selectionId, g.at);
  }

  lemma {:induction false} CommittedRows(db: State, tx: Tx)
    requires TxOk(db, tx) && tx.stage.SelectInserted?
    ensures OverlayRows(db.sessions, tx.rows) == ExpireRows(db.sessions, tx.stage.expired)
  {
    var a, b := OverlayRows(db.sessions, tx.rows), ExpireRows(db.sessions, tx.stage.expired);
    forall i | 0 <= i < |db.sessions|
      ensures a[i] == b[i]
    {
    }
  }

  lemma {:induction false} FreshAfterExpiry(db: State, mid: State, rows: set<nat>, freed: set<nat>, at: Time,
                                            selectionId: Id)
    requires mid == Do(db, Expire(rows, freed, at)) && FindSelection(db.sessions, selectionId).None?
    ensures FindSelection(mid.sessions, selectionId).None?
  {
    assert forall j :: 0 <= j < |db.sessions| ==> mid.sessions[j].selectionId == db.sessions[j].selectionId;
  }

  lemma {:induction false} CommittedCells(db: State, tx: Tx)
    requires TxOk(db, tx) && tx.stage.SelectInserted?
    ensures var g := tx.stage;
            OverlayCells(db.cells, tx.cells) == WithStatus(FreeCells(db.cells, g.freed), g.cell, Reserved)
  {
    var g := tx.stage;
    var a, b := OverlayCells(db.cells, tx.cells), WithStatus(FreeCells(db.cells, g.freed), g.cell, Reserved);
    forall c | 0 <= c < |db.cells|
      ensures a[c] == b[c]
    {
    }
  }

  /** Everything of a cell but its status, which no operation changes. */
  predicate SameShape(a: Cell, b: Cell) {
    a.location == b.location && a.no == b.no && a.size == b.size && a.active == b.active
  }

  /** What the commits of others leave a transaction with: its locked rows as they were, and its ids unused. */
  ghost predicate Undisturbed(db: State, db': State, tx: Tx) {
    |db'.cells| == |db.cells| && |db.sessions| <= |db'.sessions| && db'.locations == db.locations
    && (forall i :: i in tx.rowLocks && i < |db.sessions| ==> db'.sessions[i] == db.sessions[i])
    && (forall c :: c in tx.cellLocks && c < |db.cells| ==> db'.cells[c] == db.cells[c])
    && (forall c :: 0 <= c < |db.cells| ==> SameShape(db.cells[c], db'.cells[c]))
    && (SelectionOf(tx.stage).Some? ==> FindSelection(db'.sessions, SelectionOf(tx.stage).value).None?)
    && (TicketOf(tx.stage).Some? ==> FreshTicket(db', TicketOf(tx.stage).value))
  }

  lemma {:induction false} ExpiryStaysAllowed(db: State, db': State, rows: set<nat>, freed: set<nat>, at: Time)
    requires Allowed(db, Expire(rows, freed, at)) && |db.sessions| <= |db'.sessions| && |db.cells| == |db'.cells|
    requires forall i :: i in rows && i < |db.sessions| ==> db'.sessions[i] == db.sessions[i]
    requires forall c :: c in freed && c < |db.cells| ==> db'.cells[c] == db.cells[c]
    ensures Allowed(db', Expire(rows, freed, at))
  {
    forall c | c in freed
      ensures exists i :: i in rows && db'.sessions[i].cell == c
    {
      var i :| i in rows && db.sessions[i].cell == c;
      assert db'.sessions[i].cell == c;
    }
  }

  lemma {:induction false} UndisturbedStays(db: State, db': State, tx: Tx)
    requires TxOk(db, tx) && Undisturbed(db, db', tx)
    ensures TxOk(db', tx)
  {
    var g := tx.stage;
    if g.SelectCleaned? {
      SelectUndisturbed(db, db', tx, g.expired, g.freed, g.cleanedAt);
    } else if g.SelectPicked? || g.SelectReserved? || g.SelectInserted? {
      SelectUndisturbed(db, db', tx, g.expired, g.freed, g.cleanedAt);
      PickUndisturbed(db, db', tx, g.location, g.size, g.freed, g.cell, g.passed);
    }
  }

  lemma {:induction false} SelectUndisturbed(db: State, db': State, tx: Tx, expired: set<nat>, freed: set<nat>,
                                             at: Time)
    requires CleanedPart(db, tx, expired, freed, at) && Undisturbed(db, db', tx)
    ensures CleanedPart(db', tx, expired, freed, at)
  {
    ExpiryStaysAllowed(db, db', expired, freed, at);
  }

  lemma {:induction false} PickUndisturbed(db: State, db': State, tx: Tx, location: int, size: Size, freed: set<nat>,
                                           c: nat, passed: set<nat>)
    requires PickedPart(db, tx, location, size, freed, c, passed) && Undisturbed(db, db', tx)
    ensures PickedPart(db', tx, location, size, freed, c, passed)
  {
    forall d | 0 <= d < |db'.cells| && d !in passed && Fits(db'.cells[d], location, size)
      ensures Before(db'.cells, c, d)
    {
      assert SameShape(db.cells[d], db'.cells[d]) && Before(db.cells, c, d);
    }
  }

  /** Effects on rows a transaction has not locked, with ids it does not use, leave it undisturbed. */
  ghost predicate Clear(db: State, e: Effect, tx: Tx) {
    match e
    case Nop => true
    case Expire(rows, freed, _) => rows !! tx.rowLocks && freed !! tx.cellLocks
    case Reserve(c, selectionId, _) => c !in tx.cellLocks && SelectionOf(tx.stage) != Some(selectionId)
    case Book(i, _, _, t) =>
      i < |db.sessions| && i !in tx.rowLocks && db.sessions[i].cell !in tx.cellLocks
      && (TicketOf(tx.stage).Some? ==> DistinctTickets(t, TicketOf(tx.stage).value))
    case Finish(i, _) => i < |db.sessions| && i !in tx.rowLocks && db.sessions[i].cell !in tx.cellLocks
    case Refresh(_, _) => true
    case Stamp(i, _) => i !in tx.rowLocks
    case SetStatus(c, _) => c !in tx.cellLocks
  }

  lemma {:induction false} ClearUndisturbed(db: State, e: Effect, tx: Tx)
    requires TxOk(db, tx) && Clear(db, e, tx)
    ensures Undisturbed(db, Do(db, e), tx)
  {
    ClearRows(db, e, tx);
    if SelectionOf(tx.stage).Some? {
      SelectionStaysFresh(db, e, tx);
    }
    if TicketOf(tx.stage).Some? {
      TicketStaysFresh(db, e, TicketOf(tx.stage).value);
    }
  }

  lemma {:induction false} ClearRows(db: State, e: Effect, tx: Tx)
    requires Clear(db, e, tx)
    ensures var db' := Do(db, e);
            |db'.cells| == |db.cells| && |db.sessions| <= |db'.sessions| && db'.locations == db.locations
            && (forall i :: i in tx.rowLocks && i < |db.sessions| ==> db'.sessions[i] == db.sessions[i])
            && (forall c :: c in tx.cellLocks && c < |db.cells| ==> db'.cells[c] == db.cells[c])
            && (forall c :: 0 <= c < |db.cells| ==> SameShape(db.cells[c], db'.cells[c]))
  {
  }

  lemma {:induction false} SelectionStaysFresh(db: State, e: Effect, tx: Tx)
    requires Clear(db, e, tx) && SelectionOf(tx.stage).Some?
    requires FindSelection(db.sessions, SelectionOf(tx.stage).value).None?
    ensures FindSelection(Do(db, e).sessions, SelectionOf(tx.stage).value).None?
  {
    var db' := Do(db, e);
    forall j | 0 <= j < |db'.sessions|
      ensures db'.sessions[j].selectionId != SelectionOf(tx.stage).value
    {
      if j < |db.sessions| {
        assert db'.sessions[j].selectionId == db.sessions[j].selectionId;
      }
    }
  }

  lemma {:induction false} TicketStaysFresh(db: State, e: Effect, t: Ticket)
    requires FreshTicket(db, t) && (e.Book? ==> DistinctTickets(e.ticket, t))
    ensures FreshTicket(Do(db, e), t)
  {
    var db' := Do(db, e);
    forall k | 0 <= k < |db'.payments|
      ensures db'.payments[k].paymentId != t.paymentId
    {
      assert k < |db.payments| ==> db'.payments[k].paymentId == db.payments[k].paymentId;
    }
    forall j | 0 <= j < |db'.sessions|
      ensures db'.sessions[j].bookingId != Some(t.bookingId) && db'.sessions[j].rentalId != Some(t.rentalId)
    {
    }
  }

  lemma {:induction false} TwoClear(db: State, e: Effect, f: Effect, tx: Tx)
    requires TxOk(db, tx) && Clear(db, e, tx) && Clear(Do(db, e), f, tx)
    ensures TxOk(Do(Do(db, e), f), tx)
  {
    ClearUndisturbed(db, e, tx);
    UndisturbedStays(db, Do(db, e), tx);
    ClearUndisturbed(Do(db, e), f, tx);
    UndisturbedStays(Do(db, e), Do(Do(db, e), f), tx);
  }

  /** A finished transaction touches only what it has locked. */
  lemma {:induction false} EffectsClear(db: State, tx: Tx, other: Tx)
    requires SessionsOk(db) && TxOk(db, tx) && Committable(tx.stage) && Apart(tx, other)
    ensures Clear(db, Effects(tx.stage).0, other)
    ensures Clear(Do(db, Effects(tx.stage).0), Effects(tx.stage).1, other)
  {
  }

  lemma {:induction false} CommitKeeps(w: World, id: nat)
    requires Inv(w) && StepCommit(w, id).Some?
    ensures Inv(StepCommit(w, id).value)
  {
    var tx := w.txs[id];
    var w' := StepCommit(w, id).value;
    assert TxOk(w.db, tx);
    CommitIsAtomic(w.db, tx);
    var e, f := Effects(tx.stage).0, Effects(tx.stage).1;
    SessionsOkKept(w.db, e);
    SessionsOkKept(Do(w.db, e), f);
    forall j | j in w'.txs
      ensures TxOk(w'.db, w'.txs[j])
    {
      assert Apart(tx, w.txs[j]);
      EffectsClear(w.db, tx, w.txs[j]);
      TwoClear(w.db, e, f, w.txs[j]);
    }
    forall j, k | j in w'.txs && k in w'.txs && j != k
      ensures Apart(w'.txs[j], w'.txs[k])
    {
      assert Apart(w.txs[j], w.txs[k]);
    }
  }

  lemma {:induction false} StatementAllowed(w: World, l: Label)
    ensures Allowed(w.db, Statement(w, l))
  {
    StaleAllowed(w.db, w.now);
  }

  lemma {:induction false} EffectKeeps(w: World, e: Effect)
    requires Inv(w) && Allowed(w.db, e) && forall j :: j in w.txs ==> Clear(w.db, e, w.txs[j])
    ensures Inv(w.(db := Do(w.db, e)))
  {
    SessionsOkKept(w.db, e);
    forall j | j in w.txs
      ensures TxOk(Do(w.db, e), w.txs[j])
    {
      TwoClear(w.db, e, Nop, w.txs[j]);
    }
  }

  lemma {:induction false} StatementKeeps(w: World, l: Label)
    requires Inv(w) && IsStatement(l) && StepStatement(w, l).Some?
    ensures Inv(StepStatement(w, l).value)
  {
    StatementAllowed(w, l);
    forall j | j in w.txs
      ensures Clear(w.db, Statement(w, l), w.txs[j])
    {
      StatementClear(w, l, j);
    }
    EffectKeeps(w, Statement(w, l));
  }

  lemma {:induction false} AdminCheckKeeps(w: World, id: nat, c: nat, status: CellStatus)
    requires Inv(w) && StepAdminCheck(w, id, c, status).Some?
    ensures Inv(StepAdminCheck(w, id, c, status).value)
  {
    PutKeeps(w, id, Tx(AdminChecked(c, status), {}, {}, map[], map[], [], []));
  }

  lemma {:induction false} LeaveKeeps(w: World, id: nat)
    requires Inv(w)
    ensures Inv(w.(txs := w.txs - {id}))
  {
  }

  lemma {:induction false} AdminUpdateKeeps(w: World, id: nat)
    requires Inv(w) && StepAdminUpdate(w, id).Some?
    ensures Inv(StepAdminUpdate(w, id).value)
  {
    var g := w.txs[id].stage;
    assert TxOk(w.db, w.txs[id]);
    LeaveKeeps(w, id);
    EffectKeeps(w.(txs := w.txs - {id}), SetStatus(g.cell, g.status));
  }

  lemma {:induction false} StatementClear(w: World, l: Label, j: nat)
    requires IsStatement(l) && Unobstructed(w, Statement(w, l)) && j in w.txs
    ensures Clear(w.db, Statement(w, l), w.txs[j])
  {
  }

  // ---------------------------------------------------------------- the theorem

  lemma {:induction false} StepKeeps(w: World, l: Label)
    requires Inv(w) && Step(w, l).Some?
    ensures Inv(Step(w, l).value)
  {
    match l
    case Tick(_) =>
    case CleanupTick => StatementKeeps(w, l);
    case RefreshStatement(_) => StatementKeeps(w, l);
    case StampStatement(_) => StatementKeeps(w, l);
    case AdminCheck(id, c, status) => AdminCheckKeeps(w, id, c, status);
    case AdminUpdate(id) => AdminUpdateKeeps(w, id);
    case BeginSelect(id, location, size) =>
      PutKeeps(w, id, Tx(SelectBegun(location, size), {}, {}, map[], map[], [], []));
    case CleanStatement(id) => CleanKeeps(w, id);
    case PickCell(id) => PickKeeps(w, id);
    case ReserveCell(id) => ReserveKeeps(w, id);
    case InsertSession(id, selectionId) => InsertKeeps(w, id, selectionId);
    case LockBooking(id, location, selectionId) => LockBookingKeeps(w, id, location, selectionId);
    case DecideBooking(id) => DecideKeeps(w, id);
    case WriteBooking(id, t) => WriteBookingKeeps(w, id, t);
    case LockRental(id, rentalId) => LockRentalKeeps(w, id, rentalId);
    case CloseRental(id) => CloseKeeps(w, id);
    case FreeCell(id) => FreeKeeps(w, id);
    case Commit(id) => CommitKeeps(w, id);
    case Rollback(id) => LeaveKeeps(w, id);
  }

  /** One step of any interleaving does to the committed database exactly the atomic effects it commits. */
  lemma {:induction false} StepIsAtomic(w: World, l: Label)
    requires Inv(w) && Step(w, l).Some?
    ensures Allowed(w.db, Committed(w, l).0) && Allowed(Do(w.db, Committed(w, l).0), Committed(w, l).1)
    ensures Step(w, l).value.db == Do(Do(w.db, Committed(w, l).0), Committed(w, l).1)
  {
    if l.Commit? {
      assert TxOk(w.db, w.txs[l.id]);
      CommitIsAtomic(w.db, w.txs[l.id]);
    } else if IsStatement(l) {
      StatementAllowed(w, l);
    } else if l.AdminUpdate? {
      assert TxOk(w.db, w.txs[l.id]);
    } else {
      NothingCommitted(w, l);
    }
  }

  lemma {:induction false} NothingCommitted(w: World, l: Label)
    requires Step(w, l).Some? && !l.Commit? && !IsStatement(l) && !l.AdminUpdate?
    ensures Step(w, l).value.db == w.db && Committed(w, l) == (Nop, Nop)
  {
  }

  /** The world after a sequence of steps, if each of them can be taken. */
  function Steps(w: World, ls: seq<Label>): Option<World>
    decreases |ls|
  {
    if ls == [] then Some(w)
    else if Step(w, ls[0]).None? then None
    else Steps(Step(w, ls[0]).value, ls[1..])
  }

  /** The effects committed along the way, in commit order. */
  function CommittedTrace(w: World, ls: seq<Label>): seq<Effect>
    decreases |ls|
  {
    if ls == [] || Step(w, ls[0]).None? then []
    else [Committed(w, ls[0]).0, Committed(w, ls[0]).1] + CommittedTrace(Step(w, ls[0]).value, ls[1..])
  }

  /** Every interleaving of any number of transactions is simulated by doing, one after another, the
      atomic effects of those that commit, in the order in which they commit. */
  lemma {:induction false} InterleavingIsTrace(w: World, ls: seq<Label>)
    requires Inv(w) && Steps(w, ls).Some?
    ensures Inv(Steps(w, ls).value)
    ensures AllowedAll(w.db, CommittedTrace(w, ls))
    ensures Steps(w, ls).value.db == DoAll(w.db, CommittedTrace(w, ls))
    decreases |ls|
  {
    if ls == [] {
    } else {
      var w' := Step(w, ls[0]).value;
      var c := Committed(w, ls[0]);
      StepKeeps(w, ls[0]);
      StepIsAtomic(w, ls[0]);
      TwoEffects(w.db, c.0, c.1);
      InterleavingIsTrace(w', ls[1..]);
      Concat(w.db, [c.0, c.1], CommittedTrace(w', ls[1..]));
    }
  }

  lemma {:induction false} IdleInv(now: Time, db: State)
    requires SessionsOk(db)
    ensures Inv(World(now, db, map[]))
  {
  }
}
