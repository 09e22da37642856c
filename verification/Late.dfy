/** What the hypotheses of the refinement theorem exclude can happen: slow transactions, and an admin change
    between the statements of a selection. */
module Late {
  import opened Tables
  import opened Operations
  import opened Invariants
  import opened Allocation
  import opened Interleaving
  import opened Concurrency
  import opened Solo

  /** Lock and decide in time, then write and commit after the hold has ended. */
  function SlowBooking(id: nat, location: int, selectionId: Id, later: Time, t: Ticket): seq<Label> {
    [LockBooking(id, location, selectionId)]
    + ([DecideBooking(id)] + ([Tick(later)] + ([WriteBooking(id, t)] + ([Commit(id)] + []))))
  }

  /** A booking that was checked in time commits however late it is written, and past the hold it is no
      `CreateBooking` of any instant, request or ticket. */
  lemma {:induction false} LateBookingCommits(now: Time, later: Time, db: State, id: nat, location: int,
                                              selectionId: Id, t: Ticket)
    requires SessionsOk(db) && Answer(db, Event(now, CreateBooking(location, selectionId, t))).Booked?
    requires now <= later && FindSelection(db.sessions, selectionId).Some?
    requires db.sessions[FindSelection(db.sessions, selectionId).value].hold < later
    ensures var end := Steps(Idle(now, db), SlowBooking(id, location, selectionId, later, t));
            end.Some? && forall at, l, sel, u :: end.value.db != Apply(db, Event(at, CreateBooking(l, sel, u)))
  {
    BookedWhen(db, Event(now, CreateBooking(location, selectionId, t)));
    var i := Bookable(db, location, selectionId, now).value;
    var locked := BookTx(db, i, BookLocked(location, selectionId, i));
    var decided := BookTx(db, i, BookDecided(location, selectionId, i, now));
    var written := WrittenTx(now, later, db, location, selectionId, i, t);
    LockAlone(now, db, id, location, selectionId, i);
    DecideAlone(now, db, id, location, selectionId, i);
    WriteAlone(now, later, db, id, location, selectionId, i, t);
    var end := Do(db, Book(i, now, later, t));
    CommitAlone(later, db, id, written);
    FourSteps(Alone(now, db, id, locked), DecideBooking(id), Tick(later), WriteBooking(id, t), Commit(id),
              Alone(now, db, id, decided), Alone(later, db, id, decided), Alone(later, db, id, written),
              Idle(later, end));
    OneStep(Idle(now, db), LockBooking(id, location, selectionId),
            [DecideBooking(id)] + ([Tick(later)] + ([WriteBooking(id, t)] + ([Commit(id)] + []))));
    forall at, l, sel, u
      ensures end != Apply(db, Event(at, CreateBooking(l, sel, u)))
    {
      NeverAtomic(db, i, now, later, t, at, l, sel, u);
    }
  }

  lemma {:induction false} NeverAtomic(db: State, i: nat, checkedAt: Time, written: Time, ticket: Ticket, at: Time,
                                       l: int, sel: Id, t: Ticket)
    requires i < |db.sessions| && db.sessions[i].hold < written
    ensures Do(db, Book(i, checkedAt, written, ticket)) != Apply(db, Event(at, CreateBooking(l, sel, t)))
  {
    if Do(db, Book(i, checkedAt, written, ticket)) == Apply(db, Event(at, CreateBooking(l, sel, t))) {
      OnlyInTime(db, i, checkedAt, written, ticket, at, l, sel, t);
    }
  }

  // ---------------------------------------------------------------- a late selection

  /** Selection `a` inserts its session and waits past its hold; selection `b` cleans; then `a` commits; then `b`
      goes on until it can commit. */
  function SlowSelection(a: nat, b: nat, location: int, size: Size, first: Id, second: Id, later: Time): seq<Label> {
    [BeginSelect(a, location, size)] + ([CleanStatement(a)] + ([PickCell(a)] + ([ReserveCell(a)]
    + ([InsertSession(a, first)] + Overtaken(a, b, location, size, second, later)))))
  }

  function Overtaken(a: nat, b: nat, location: int, size: Size, second: Id, later: Time): seq<Label> {
    [Tick(later)] + ([BeginSelect(b, location, size)] + ([CleanStatement(b)] + ([Commit(a)] + Taking(b, second))))
  }

  function Taking(b: nat, second: Id): seq<Label> {
    [PickCell(b)] + ([ReserveCell(b)] + ([InsertSession(b, second)] + []))
  }

  /** Transaction `b` can commit, and its commit is no whole cleanup and pick, let alone a `CreateCellSelection`
      of any instant, request or id. */
  ghost predicate CommitsNoOperation(w: World, b: nat) {
    StepCommit(w, b).Some? && w.txs[b].stage.SelectInserted?
    && StepCommit(w, b).value.db != SelectPast(w.db, w.txs[b].stage)
    && forall at, l, z, sel :: StepCommit(w, b).value.db != Apply(w.db, Event(at, CreateCellSelection(l, z, sel)))
  }

  /** Two selections at a location with two free cells of the size, the first one slower than its hold: the
      cleanup of the second misses the session of the first, and its commit is no operation. */
  lemma {:induction false} LateSelectionIsMissed(now: Time, later: Time, db: State, a: nat, b: nat, location: int,
                                                 size: Size, first: Id, second: Id, c: nat, d: nat)
    requires SessionsOk(db) && db.sessions == [] && location in db.locations && a != b && first != second
    requires now + HOLD < later && c < |db.cells| && d < |db.cells| && c != d
    requires Selectable(db.cells[c], location, size) && Selectable(db.cells[d], location, size)
    ensures var end := Steps(Idle(now, db), SlowSelection(a, b, location, size, first, second, later));
            end.Some? && CommitsNoOperation(end.value, b)
  {
    SomeFree(db, now, location, size, c);
    var p := LowestFree(Cleaned(db, now).cells, location, size, {}).value;
    var t, rest := CleanedTx(now, db, a, location, size), Overtaken(a, b, location, size, second, later);
    CleanedAlone(now, db, a, location, size,
                 [PickCell(a)] + ([ReserveCell(a)] + ([InsertSession(a, first)] + rest)));
    CleanView(now, db, a, location, size);
    InsertedAlone(now, db, a, t, p, first);
    OneStep(Alone(now, db, a, ReservedTx(db, t, p)), InsertSession(a, first), rest);
    OneStep(Alone(now, db, a, PickedTx(db, t, p)), ReserveCell(a), [InsertSession(a, first)] + rest);
    OneStep(Alone(now, db, a, t), PickCell(a), [ReserveCell(a)] + ([InsertSession(a, first)] + rest));
    OvertakenSteps(now, later, db, a, b, location, size, second, InsertedTx(now, db, t, p, first),
                   if p == c then d else c);
  }

  lemma {:induction false} SomeFree(db: State, now: Time, location: int, size: Size, c: nat)
    requires c < |db.cells| && Selectable(db.cells[c], location, size)
    ensures LowestFree(Cleaned(db, now).cells, location, size, {}).Some?
  {
    assert Selectable(Cleaned(db, now).cells[c], location, size);
  }

  lemma {:induction false} OvertakenSteps(now: Time, later: Time, db: State, a: nat, b: nat, location: int, size: Size,
                                          second: Id, t: Tx, d: nat)
    requires Inv(Alone(now, db, a, t)) && t.stage.SelectInserted? && t.stage.at == now && t.stage.selectionId != second
    requires db.sessions == [] && location in db.locations && a != b && now + HOLD < later
    requires d < |db.cells| && d != t.stage.cell && Selectable(db.cells[d], location, size)
    ensures var end := Steps(Alone(now, db, a, t), Overtaken(a, b, location, size, second, later));
            end.Some? && CommitsNoOperation(end.value, b)
  {
    var u := CleanedTx(later, db, b, location, size);
    CleanedBeside(now, later, db, a, b, location, size, t, u, Taking(b, second));
    var w := World(later, db, map[a := t, b := u]);
    var db' := View(db, t);
    CommitBeside(later, db, a, b, t, u);
    OneStep(w, Commit(a), Taking(b, second));
    assert TxOk(db, t) by { assert Alone(now, db, a, t).txs[a] == t; }
    TakenView(db, t, u, second, location, size, d);
    TakingSteps(later, db', b, u, second);
  }

  /** After the commit the second selection still sees a free cell, and misses the first one's session. */
  lemma {:induction false} TakenView(db: State, t: Tx, u: Tx, second: Id, location: int, size: Size, d: nat)
    requires TxOk(db, t) && t.stage.SelectInserted? && t.stage.selectionId != second && db.sessions == []
    requires u.stage.SelectCleaned? && u.stage.expired == {} && u.cells == map[]
    requires t.stage.at + HOLD < u.stage.cleanedAt
    requires d < |db.cells| && d != t.stage.cell && Selectable(db.cells[d], location, size)
    ensures var db' := View(db, t);
            db'.locations == db.locations && FindSelection(db'.sessions, second).None? && !MissesNone(db', u.stage)
            && LowestFree(View(db', u).cells, location, size, {}).Some?
  {
    var db' := View(db, t);
    assert |db'.sessions| == 1 && Stale(db'.sessions[0], u.stage.cleanedAt);
    assert View(db', u).cells[d] == db.cells[d];
  }

  /** Its remaining steps, alone. */
  lemma {:induction false} TakingSteps(now: Time, db: State, b: nat, u: Tx, second: Id)
    requires Inv(Alone(now, db, b, u)) && u.stage.SelectCleaned? && u.stage.location in db.locations
    requires LowestFree(View(db, u).cells, u.stage.location, u.stage.size, {}).Some?
    requires FindSelection(db.sessions, second).None? && u.stage.cleanedAt <= now
    requires !MissesNone(db, u.stage) || !FreesReserved(db, u.stage)
    ensures var end := Steps(Alone(now, db, b, u), Taking(b, second));
            end.Some? && CommitsNoOperation(end.value, b)
  {
    var c := LowestFree(View(db, u).cells, u.stage.location, u.stage.size, {}).value;
    InsertedAlone(now, db, b, u, c, second);
    var end := Alone(now, db, b, InsertedTx(now, db, u, c, second));
    OneStep(Alone(now, db, b, ReservedTx(db, u, c)), InsertSession(b, second), []);
    OneStep(Alone(now, db, b, PickedTx(db, u, c)), ReserveCell(b), [InsertSession(b, second)] + []);
    OneStep(Alone(now, db, b, u), PickCell(b), [ReserveCell(b)] + ([InsertSession(b, second)] + []));
    NotWholeCommits(end, b);
  }

  lemma {:induction false} NotWholeCommits(w: World, b: nat)
    requires Inv(w) && b in w.txs && w.txs[b].stage.SelectInserted?
    requires !MissesNone(w.db, w.txs[b].stage) || !FreesReserved(w.db, w.txs[b].stage)
    requires w.txs[b].stage.cleanedAt <= w.txs[b].stage.at
    ensures CommitsNoOperation(w, b)
  {
    SelectionIsOperation(w, b);
    NoSelection(w, b);
  }

  /** While `a` waits, `b` begins and cleans, and finds nothing to clean. */
  lemma {:induction false} CleanedBeside(now: Time, later: Time, db: State, a: nat, b: nat, location: int, size: Size,
                                         t: Tx, u: Tx, rest: seq<Label>)
    requires Inv(Alone(now, db, a, t)) && db.sessions == [] && a != b && now <= later
    requires u == CleanedTx(later, db, b, location, size)
    ensures u.stage.SelectCleaned? && u.stage.expired == {} && u.stage.cleanedAt == later && u.cells == map[]
    ensures u.stage.location == location && u.stage.size == size
    ensures Inv(World(later, db, map[a := t, b := u]))
    ensures Steps(Alone(now, db, a, t),
                  [Tick(later)] + ([BeginSelect(b, location, size)] + ([CleanStatement(b)] + ([Commit(a)] + rest))))
         == Steps(World(later, db, map[a := t, b := u]), [Commit(a)] + rest)
  {
    var w, w1 := Alone(now, db, a, t), Alone(later, db, a, t);
    var w2, w3 := Put(w1, b, BegunTx(location, size)), Put(w1, b, u);
    assert Step(w, Tick(later)) == Some(w1);
    InvStep(w, Tick(later), w1);
    assert Step(w1, BeginSelect(b, location, size)) == Some(w2);
    InvStep(w1, BeginSelect(b, location, size), w2);
    CleanBeside(later, db, a, b, location, size, t, u);
    InvStep(w2, CleanStatement(b), w3);
    assert w3 == World(later, db, map[a := t, b := u]);
    OneStep(w2, CleanStatement(b), [Commit(a)] + rest);
    OneStep(w1, BeginSelect(b, location, size), [CleanStatement(b)] + ([Commit(a)] + rest));
    OneStep(w, Tick(later), [BeginSelect(b, location, size)] + ([CleanStatement(b)] + ([Commit(a)] + rest)));
  }

  lemma {:induction false} CleanBeside(now: Time, db: State, a: nat, b: nat, location: int, size: Size, t: Tx, u: Tx)
    requires db.sessions == [] && a != b && u == CleanedTx(now, db, b, location, size)
    ensures u.stage.SelectCleaned? && u.stage.expired == {} && u.stage.cleanedAt == now && u.cells == map[]
    ensures u.stage.location == location && u.stage.size == size
    ensures Step(Put(Alone(now, db, a, t), b, BegunTx(location, size)), CleanStatement(b))
         == Some(Put(Alone(now, db, a, t), b, u))
  {
    assert StaleRows(db.sessions, now) == {} && StaleCells(db.cells, db.sessions, now) == {};
    var w := Put(Alone(now, db, a, t), b, BegunTx(location, size));
    assert Put(w, b, u) == Put(Alone(now, db, a, t), b, u);
  }

  lemma {:induction false} CommitBeside(now: Time, db: State, a: nat, b: nat, t: Tx, u: Tx)
    requires Inv(World(now, db, map[a := t, b := u])) && a != b && t.stage.SelectInserted?
    ensures Step(World(now, db, map[a := t, b := u]), Commit(a)) == Some(Alone(now, View(db, t), b, u))
    ensures Inv(Alone(now, View(db, t), b, u))
  {
    CommitLeaves(now, db, a, b, t, u);
    InvStep(World(now, db, map[a := t, b := u]), Commit(a), Alone(now, View(db, t), b, u));
  }

  lemma {:induction false} CommitLeaves(now: Time, db: State, a: nat, b: nat, t: Tx, u: Tx)
    requires a != b && t.stage.SelectInserted?
    ensures Step(World(now, db, map[a := t, b := u]), Commit(a)) == Some(Alone(now, View(db, t), b, u))
  {
    var w := World(now, db, map[a := t, b := u]);
    assert w.txs - {a} == map[b := u];
    assert w.txs[a] == t && Step(w, Commit(a)) == StepCommit(w, a);
  }

  // ---------------------------------------------------------------- an admin change meanwhile

  /** Selection `a` cleans, an admin marks cell `c` reserved, and `a` goes on until it can commit. */
  function ReservedMeanwhile(a: nat, admin: nat, location: int, size: Size, selectionId: Id, c: nat): seq<Label> {
    [BeginSelect(a, location, size)] + ([CleanStatement(a)]
    + ([AdminCheck(admin, c, Reserved)] + ([AdminUpdate(admin)] + Taking(a, selectionId))))
  }

  /** When the cell was in maintenance over a hold that has ended, the selection has expired that session and
      freed nothing, and its commit is no operation. */
  lemma {:induction false} ReservedIsMissed(now: Time, db: State, a: nat, admin: nat, location: int, size: Size,
                                            selectionId: Id, i: nat, d: nat)
    requires SessionsOk(db) && location in db.locations && a != admin && FindSelection(db.sessions, selectionId).None?
    requires d < |db.cells| && Selectable(db.cells[d], location, size)
    requires i < |db.sessions| && Stale(db.sessions[i], now) && db.sessions[i].cell < |db.cells|
    requires db.cells[db.sessions[i].cell].status == Maintenance
    ensures var ls := ReservedMeanwhile(a, admin, location, size, selectionId, db.sessions[i].cell);
            var end := Steps(Idle(now, db), ls);
            end.Some? && CommitsNoOperation(end.value, a)
  {
    var c, t := db.sessions[i].cell, CleanedTx(now, db, a, location, size);
    CleanedAlone(now, db, a, location, size,
                 [AdminCheck(admin, c, Reserved)] + ([AdminUpdate(admin)] + Taking(a, selectionId)));
    ReservedView(now, db, a, location, size, i, d);
    ReservedSteps(now, db, a, admin, t, c, selectionId);
  }

  lemma {:induction false} ReservedSteps(now: Time, db: State, a: nat, admin: nat, t: Tx, c: nat, selectionId: Id)
    requires Inv(Alone(now, db, a, t)) && a != admin && c < |db.cells| && c !in t.cellLocks
    requires t.stage.SelectCleaned? && t.stage.cleanedAt == now && t.stage.location in db.locations
    requires FindSelection(db.sessions, selectionId).None?
    requires var db' := Do(db, SetStatus(c, Reserved));
             !FreesReserved(db', t.stage)
             && LowestFree(View(db', t).cells, t.stage.location, t.stage.size, {}).Some?
    ensures var end := Steps(Alone(now, db, a, t),
                             [AdminCheck(admin, c, Reserved)] + ([AdminUpdate(admin)] + Taking(a, selectionId)));
            end.Some? && CommitsNoOperation(end.value, a)
  {
    AdminBeside(now, db, a, admin, t, c, Taking(a, selectionId));
    TakingSteps(now, Do(db, SetStatus(c, Reserved)), a, t, selectionId);
  }

  lemma {:induction false} AdminBeside(now: Time, db: State, a: nat, admin: nat, t: Tx, c: nat, rest: seq<Label>)
    requires Inv(Alone(now, db, a, t)) && a != admin && c < |db.cells| && c !in t.cellLocks
    ensures Inv(Alone(now, Do(db, SetStatus(c, Reserved)), a, t))
    ensures Steps(Alone(now, db, a, t), [AdminCheck(admin, c, Reserved)] + ([AdminUpdate(admin)] + rest))
         == Steps(Alone(now, Do(db, SetStatus(c, Reserved)), a, t), rest)
  {
    var w, u := Alone(now, db, a, t), Tx(AdminChecked(c, Reserved), {}, {}, map[], map[], [], []);
    var w1, w2 := Put(w, admin, u), Alone(now, Do(db, SetStatus(c, Reserved)), a, t);
    assert Step(w, AdminCheck(admin, c, Reserved)) == Some(w1);
    InvStep(w, AdminCheck(admin, c, Reserved), w1);
    assert w1.txs - {admin} == w.txs;
    assert Step(w1, AdminUpdate(admin)) == Some(w2);
    InvStep(w1, AdminUpdate(admin), w2);
    OneStep(w1, AdminUpdate(admin), rest);
    OneStep(w, AdminCheck(admin, c, Reserved), [AdminUpdate(admin)] + rest);
  }

  /** The selection has neither locked nor freed the cell, and still sees a free one. */
  lemma {:induction false} ReservedView(now: Time, db: State, a: nat, location: int, size: Size, i: nat, d: nat)
    requires d < |db.cells| && Selectable(db.cells[d], location, size)
    requires i < |db.sessions| && Stale(db.sessions[i], now) && db.sessions[i].cell < |db.cells|
    requires db.cells[db.sessions[i].cell].status == Maintenance
    ensures var t, db' := CleanedTx(now, db, a, location, size), Do(db, SetStatus(db.sessions[i].cell, Reserved));
            t.stage.SelectCleaned? && t.stage.location == location && t.stage.size == size && t.stage.cleanedAt == now
            && db.sessions[i].cell !in t.cellLocks && !FreesReserved(db', t.stage)
            && LowestFree(View(db', t).cells, location, size, {}).Some?
  {
    var c, t := db.sessions[i].cell, CleanedTx(now, db, a, location, size);
    var db' := Do(db, SetStatus(c, Reserved));
    assert i in t.stage.expired && c !in t.stage.freed && OnReserved(db', i);
    assert Selectable(View(db', t).cells[d], location, size);
  }
}
