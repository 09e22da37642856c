/** A transaction that runs alone: every one of its steps can be taken, and together they do exactly what
    the atomic operation does. */
module Solo {
  import opened Tables
  import opened Operations
  import opened Invariants
  import opened Interleaving

  function Idle(now: Time, db: State): World {
    World(now, db, map[])
  }

  function Alone(now: Time, db: State, id: nat, tx: Tx): World {
    World(now, db, map[id := tx])
  }

  lemma {:induction false} NobodyLocks(now: Time, db: State, id: nat, tx: Tx)
    ensures LockedByOthers(Alone(now, db, id, tx), id) == {}
  {
  }

  /** Committing alone leaves an idle world with the transaction's effects done. */
  lemma {:induction false} CommitAlone(now: Time, db: State, id: nat, tx: Tx)
    requires SessionsOk(db) && TxOk(db, tx) && Committable(tx.stage)
    ensures Step(Alone(now, db, id, tx), Commit(id))
              == Some(Idle(now, Do(Do(db, Effects(tx.stage).0), Effects(tx.stage).1)))
  {
    var db' := Do(Do(db, Effects(tx.stage).0), Effects(tx.stage).1);
    assert View(db, tx) == db' by {
      CommitIsAtomic(db, tx);
    }
    LeaveAlone(now, db, id, tx, db');
  }

  lemma {:induction false} LeaveAlone(now: Time, db: State, id: nat, tx: Tx, db': State)
    requires Committable(tx.stage) && View(db, tx) == db'
    ensures Step(Alone(now, db, id, tx), Commit(id)) == Some(Idle(now, db'))
  {
    assert map[id := tx] - {id} == map[];
  }

  lemma {:induction false} PutAlone(now: Time, db: State, id: nat, t0: Tx, t1: Tx)
    ensures Put(Alone(now, db, id, t0), id, t1) == Alone(now, db, id, t1)
  {
    assert map[id := t0][id := t1] == map[id := t1];
  }

  lemma {:induction false} OneStep(w: World, l: Label, ls: seq<Label>)
    requires Step(w, l).Some?
    ensures Steps(w, [l] + ls) == Steps(Step(w, l).value, ls)
  {
    assert ([l] + ls)[0] == l && ([l] + ls)[1..] == ls;
  }

  // ---------------------------------------------------------------- booking

  function BookTx(db: State, i: nat, stage: Stage): Tx
    requires i < |db.sessions|
  {
    Tx(stage, {db.sessions[i].cell}, {i}, map[], map[], [], [])
  }

  function WrittenTx(checkedAt: Time, now: Time, db: State, location: int, selectionId: Id, i: nat, t: Ticket): Tx
    requires i < |db.sessions| && db.sessions[i].cell < |db.cells|
  {
    var c := db.sessions[i].cell;
    Tx(BookWritten(location, selectionId, i, checkedAt, now, t), {c}, {i}, map[c := db.cells[c].(status := Occupied)],
       map[i := BookedRow(db.sessions[i], t, now)], [], [NewPayment(i, t, now)])
  }

  lemma {:induction false} LockAlone(now: Time, db: State, id: nat, location: int, selectionId: Id, i: nat)
    requires Bookable(db, location, selectionId, now) == Some(i)
    ensures Step(Idle(now, db), LockBooking(id, location, selectionId))
              == Some(Alone(now, db, id, BookTx(db, i, BookLocked(location, selectionId, i))))
  {
  }

  lemma {:induction false} DecideAlone(now: Time, db: State, id: nat, location: int, selectionId: Id, i: nat)
    requires i < |db.sessions| && db.sessions[i].status == Selected && now <= db.sessions[i].hold
    ensures Step(Alone(now, db, id, BookTx(db, i, BookLocked(location, selectionId, i))), DecideBooking(id))
         == Some(Alone(now, db, id, BookTx(db, i, BookDecided(location, selectionId, i, now))))
  {
    PutAlone(now, db, id, BookTx(db, i, BookLocked(location, selectionId, i)),
             BookTx(db, i, BookDecided(location, selectionId, i, now)));
  }

  lemma {:induction false} WriteAlone(checkedAt: Time, now: Time, db: State, id: nat, location: int, selectionId: Id,
                                      i: nat, t: Ticket)
    requires i < |db.sessions| && db.sessions[i].cell < |db.cells| && FreshTicket(db, t)
    ensures Step(Alone(now, db, id, BookTx(db, i, BookDecided(location, selectionId, i, checkedAt))),
                 WriteBooking(id, t))
         == Some(Alone(now, db, id, WrittenTx(checkedAt, now, db, location, selectionId, i, t)))
  {
    PutAlone(now, db, id, BookTx(db, i, BookDecided(location, selectionId, i, checkedAt)),
             WrittenTx(checkedAt, now, db, location, selectionId, i, t));
  }

  lemma {:induction false} FourSteps(w: World, a: Label, b: Label, c: Label, d: Label, w1: World, w2: World,
                                     w3: World, w4: World)
    requires Step(w, a) == Some(w1) && Step(w1, b) == Some(w2) && Step(w2, c) == Some(w3) && Step(w3, d) == Some(w4)
    ensures Steps(w, [a] + ([b] + ([c] + ([d] + [])))) == Some(w4)
  {
    OneStep(w3, d, []);
    OneStep(w2, c, [d] + []);
    OneStep(w1, b, [c] + ([d] + []));
    OneStep(w, a, [b] + ([c] + ([d] + [])));
  }

  /** A booking that succeeds as an operation can be taken step by step, and does the same. */
  lemma {:induction false} SoloBooking(now: Time, db: State, id: nat, location: int, selectionId: Id, t: Ticket)
    requires SessionsOk(db) && Answer(db, Event(now, CreateBooking(location, selectionId, t))).Booked?
    ensures Steps(Idle(now, db),
                  [LockBooking(id, location, selectionId)]
                  + ([DecideBooking(id)] + ([WriteBooking(id, t)] + ([Commit(id)] + []))))
         == Some(Idle(now, Apply(db, Event(now, CreateBooking(location, selectionId, t)))))
  {
    BookedWhen(db, Event(now, CreateBooking(location, selectionId, t)));
    var i := Bookable(db, location, selectionId, now).value;
    LockAlone(now, db, id, location, selectionId, i);
    DecideAlone(now, db, id, location, selectionId, i);
    WriteAlone(now, now, db, id, location, selectionId, i, t);
    BookingApplied(db, now, location, selectionId, t, i);
    CommitAlone(now, db, id, WrittenTx(now, now, db, location, selectionId, i, t));
    FourSteps(Idle(now, db), LockBooking(id, location, selectionId), DecideBooking(id), WriteBooking(id, t), Commit(id),
              Alone(now, db, id, BookTx(db, i, BookLocked(location, selectionId, i))),
              Alone(now, db, id, BookTx(db, i, BookDecided(location, selectionId, i, now))),
              Alone(now, db, id, WrittenTx(now, now, db, location, selectionId, i, t)),
              Idle(now, Do(db, Book(i, now, now, t))));
  }

  // ---------------------------------------------------------------- finish

  function ClosedTx(now: Time, db: State, rentalId: Id, i: nat): Tx
    requires i < |db.sessions|
  {
    Tx(FinishClosed(rentalId, i, now), {}, {i}, map[], map[i := ClosedRow(db.sessions[i], now)], [], [])
  }

  function FreedTx(now: Time, db: State, rentalId: Id, i: nat): Tx
    requires i < |db.sessions| && db.sessions[i].cell < |db.cells|
  {
    var c := db.sessions[i].cell;
    ClosedTx(now, db, rentalId, i).(stage := FinishFreed(rentalId, i, now), cellLocks := {c},
                                    cells := map[c := db.cells[c].(status := Free)])
  }

  lemma {:induction false} CloseAlone(now: Time, db: State, id: nat, rentalId: Id, i: nat)
    requires FindRental(db.sessions, rentalId) == Some(i)
    ensures var t0 := Tx(FinishLocked(rentalId, i), {}, {i}, map[], map[], [], []);
            Step(Idle(now, db), LockRental(id, rentalId)) == Some(Alone(now, db, id, t0))
            && Step(Alone(now, db, id, t0), CloseRental(id)) == Some(Alone(now, db, id, ClosedTx(now, db, rentalId, i)))
  {
    PutAlone(now, db, id, Tx(FinishLocked(rentalId, i), {}, {i}, map[], map[], [], []), ClosedTx(now, db, rentalId, i));
  }

  lemma {:induction false} FreeAlone(now: Time, db: State, id: nat, rentalId: Id, i: nat)
    requires i < |db.sessions| && db.sessions[i].cell < |db.cells|
    ensures Step(Alone(now, db, id, ClosedTx(now, db, rentalId, i)), FreeCell(id))
              == Some(Alone(now, db, id, FreedTx(now, db, rentalId, i)))
  {
    assert {} + {db.sessions[i].cell} == {db.sessions[i].cell};
    PutAlone(now, db, id, ClosedTx(now, db, rentalId, i), FreedTx(now, db, rentalId, i));
  }

  /** The same for a finish. */
  lemma {:induction false} SoloFinish(now: Time, db: State, id: nat, rentalId: Id)
    requires SessionsOk(db) && FindRental(db.sessions, rentalId).Some?
    ensures Steps(Idle(now, db),
                  [LockRental(id, rentalId)] + ([CloseRental(id)] + ([FreeCell(id)] + ([Commit(id)] + []))))
         == Some(Idle(now, Apply(db, Event(now, FinishRental(rentalId)))))
  {
    var i := FindRental(db.sessions, rentalId).value;
    assert SessionOk(db.cells, db.sessions[i]);
    CloseAlone(now, db, id, rentalId, i);
    FreeAlone(now, db, id, rentalId, i);
    FinishApplied(db, now, rentalId);
    CommitAlone(now, db, id, FreedTx(now, db, rentalId, i));
    FourSteps(Idle(now, db), LockRental(id, rentalId), CloseRental(id), FreeCell(id), Commit(id),
              Alone(now, db, id, Tx(FinishLocked(rentalId, i), {}, {i}, map[], map[], [], [])),
              Alone(now, db, id, ClosedTx(now, db, rentalId, i)),
              Alone(now, db, id, FreedTx(now, db, rentalId, i)), Idle(now, Do(db, Finish(i, now))));
  }

  // ---------------------------------------------------------------- selection

  function BegunTx(location: int, size: Size): Tx {
    Tx(SelectBegun(location, size), {}, {}, map[], map[], [], [])
  }

  function CleanedTx(now: Time, db: State, id: nat, location: int, size: Size): Tx {
    Cleaning(Alone(now, db, id, BegunTx(location, size)), id, BegunTx(location, size))
  }

  /** The transaction once it has picked, reserved and inserted. */
  function PickedTx(db: State, t: Tx, c: nat): Tx
    requires t.stage.SelectCleaned?
  {
    var g := t.stage;
    t.(stage := SelectPicked(g.location, g.size, g.expired, g.freed, g.cleanedAt, c,
                             PassedOver(View(db, t).cells, g.location, g.size, {})),
       cellLocks := t.cellLocks + {c})
  }

  function ReservedTx(db: State, t: Tx, c: nat): Tx
    requires t.stage.SelectCleaned? && c < |db.cells|
  {
    var p := PickedTx(db, t, c);
    var g := p.stage;
    p.(stage := SelectReserved(g.location, g.size, g.expired, g.freed, g.cleanedAt, c, g.passed),
       cells := t.cells[c := View(db, t).cells[c].(status := Reserved)])
  }

  function InsertedTx(now: Time, db: State, t: Tx, c: nat, selectionId: Id): Tx
    requires t.stage.SelectCleaned? && c < |db.cells|
  {
    var p := ReservedTx(db, t, c);
    var g := p.stage;
    p.(stage := SelectInserted(g.location, g.size, g.expired, g.freed, g.cleanedAt, c, g.passed, selectionId, now),
       inserts := [NewSession(db.cells, c, selectionId, now)])
  }

  lemma {:induction false} BeginAlone(now: Time, db: State, id: nat, location: int, size: Size)
    ensures Step(Idle(now, db), BeginSelect(id, location, size)) == Some(Alone(now, db, id, BegunTx(location, size)))
  {
  }

  lemma {:induction false} CleanAlone(now: Time, db: State, id: nat, location: int, size: Size)
    ensures Step(Alone(now, db, id, BegunTx(location, size)), CleanStatement(id))
         == Some(Alone(now, db, id, CleanedTx(now, db, id, location, size)))
  {
    PutAlone(now, db, id, BegunTx(location, size), CleanedTx(now, db, id, location, size));
  }

  /** After its cleanup the transaction sees the cells as a cleanup leaves them. */
  lemma {:induction false} CleanView(now: Time, db: State, id: nat, location: int, size: Size)
    ensures View(db, CleanedTx(now, db, id, location, size)).cells == Cleaned(db, now).cells
  {
  }

  lemma {:induction false} PickAlone(now: Time, db: State, id: nat, t: Tx, c: nat)
    requires t.stage.SelectCleaned? && t.stage.location in db.locations
    requires LowestFree(View(db, t).cells, t.stage.location, t.stage.size, {}) == Some(c)
    ensures Step(Alone(now, db, id, t), PickCell(id)) == Some(Alone(now, db, id, PickedTx(db, t, c)))
  {
    NobodyLocks(now, db, id, t);
    PutAlone(now, db, id, t, PickedTx(db, t, c));
  }

  lemma {:induction false} ReserveAlone(now: Time, db: State, id: nat, t: Tx, c: nat)
    requires t.stage.SelectCleaned? && c < |db.cells| && View(db, t).cells[c].status == Free
    ensures Step(Alone(now, db, id, PickedTx(db, t, c)), ReserveCell(id))
              == Some(Alone(now, db, id, ReservedTx(db, t, c)))
  {
    assert View(db, PickedTx(db, t, c)).cells == View(db, t).cells;
    PutAlone(now, db, id, PickedTx(db, t, c), ReservedTx(db, t, c));
  }

  lemma {:induction false} InsertAlone(now: Time, db: State, id: nat, t: Tx, c: nat, selectionId: Id)
    requires t.stage.SelectCleaned? && c < |db.cells| && FindSelection(db.sessions, selectionId).None?
    ensures Step(Alone(now, db, id, ReservedTx(db, t, c)), InsertSession(id, selectionId))
         == Some(Alone(now, db, id, InsertedTx(now, db, t, c, selectionId)))
  {
    PutAlone(now, db, id, ReservedTx(db, t, c), InsertedTx(now, db, t, c, selectionId));
  }

  lemma {:induction false} SelectionWhen(db: State, e: Event)
    requires e.op.CreateCellSelection?
    ensures Answer(db, e).SelectionMade? <==>
              e.op.location in db.locations && LowestFree(Cleaned(db, e.at).cells, e.op.location, e.op.size, {}).Some?
              && FindSelection(db.sessions, e.op.selectionId).None?
  {
  }

  lemma {:induction false} InvStep(w: World, l: Label, w': World)
    requires Inv(w) && Step(w, l) == Some(w')
    ensures Inv(w')
  {
    StepKeeps(w, l);
  }

  /** The first two steps of a lone selection. */
  lemma {:induction false} CleanedAlone(now: Time, db: State, id: nat, location: int, size: Size, rest: seq<Label>)
    requires SessionsOk(db)
    ensures Inv(Alone(now, db, id, CleanedTx(now, db, id, location, size)))
    ensures Steps(Idle(now, db), [BeginSelect(id, location, size)] + ([CleanStatement(id)] + rest))
         == Steps(Alone(now, db, id, CleanedTx(now, db, id, location, size)), rest)
  {
    var begun, t := BegunTx(location, size), CleanedTx(now, db, id, location, size);
    IdleInv(now, db);
    BeginAlone(now, db, id, location, size);
    InvStep(Idle(now, db), BeginSelect(id, location, size), Alone(now, db, id, begun));
    CleanAlone(now, db, id, location, size);
    InvStep(Alone(now, db, id, begun), CleanStatement(id), Alone(now, db, id, t));
    OneStep(Alone(now, db, id, begun), CleanStatement(id), rest);
    OneStep(Idle(now, db), BeginSelect(id, location, size), [CleanStatement(id)] + rest);
  }

  /** From its cleanup on, a lone selection picks the lowest free cell, reserves it and inserts its session. */
  lemma {:induction false} InsertedAlone(now: Time, db: State, id: nat, t: Tx, c: nat, selectionId: Id)
    requires Inv(Alone(now, db, id, t)) && t.stage.SelectCleaned? && t.stage.location in db.locations
    requires LowestFree(View(db, t).cells, t.stage.location, t.stage.size, {}) == Some(c)
    requires FindSelection(db.sessions, selectionId).None?
    ensures c < |db.cells| && Inv(Alone(now, db, id, InsertedTx(now, db, t, c, selectionId)))
    ensures Step(Alone(now, db, id, t), PickCell(id)) == Some(Alone(now, db, id, PickedTx(db, t, c)))
    ensures Step(Alone(now, db, id, PickedTx(db, t, c)), ReserveCell(id))
              == Some(Alone(now, db, id, ReservedTx(db, t, c)))
    ensures Step(Alone(now, db, id, ReservedTx(db, t, c)), InsertSession(id, selectionId))
         == Some(Alone(now, db, id, InsertedTx(now, db, t, c, selectionId)))
  {
    var t1, t2, t3 := PickedTx(db, t, c), ReservedTx(db, t, c), InsertedTx(now, db, t, c, selectionId);
    PickAlone(now, db, id, t, c);
    InvStep(Alone(now, db, id, t), PickCell(id), Alone(now, db, id, t1));
    ReserveAlone(now, db, id, t, c);
    InvStep(Alone(now, db, id, t1), ReserveCell(id), Alone(now, db, id, t2));
    InsertAlone(now, db, id, t, c, selectionId);
    InvStep(Alone(now, db, id, t2), InsertSession(id, selectionId), Alone(now, db, id, t3));
  }

  lemma {:induction false} TakeAlone(now: Time, db: State, id: nat, t: Tx, c: nat, selectionId: Id)
    requires Inv(Alone(now, db, id, t)) && t.stage.SelectCleaned? && t.stage.location in db.locations
    requires LowestFree(View(db, t).cells, t.stage.location, t.stage.size, {}) == Some(c)
    requires FindSelection(db.sessions, selectionId).None?
    ensures c < |db.cells|
    ensures var e := Expire(t.stage.expired, t.stage.freed, t.stage.cleanedAt);
            Steps(Alone(now, db, id, t),
                  [PickCell(id)] + ([ReserveCell(id)] + ([InsertSession(id, selectionId)] + ([Commit(id)] + []))))
            == Some(Idle(now, Do(Do(db, e), Reserve(c, selectionId, now))))
  {
    InsertedAlone(now, db, id, t, c, selectionId);
    var t1, t2, t3 := PickedTx(db, t, c), ReservedTx(db, t, c), InsertedTx(now, db, t, c, selectionId);
    assert SessionsOk(db) && TxOk(db, t3) by {
      assert Alone(now, db, id, t3).txs[id] == t3;
    }
    CommitAlone(now, db, id, t3);
    FourSteps(Alone(now, db, id, t), PickCell(id), ReserveCell(id), InsertSession(id, selectionId), Commit(id),
              Alone(now, db, id, t1), Alone(now, db, id, t2), Alone(now, db, id, t3),
              Idle(now, Do(Do(db, Effects(t3.stage).0), Effects(t3.stage).1)));
  }

  /** The same for a selection: its six steps, taken alone, are `CreateCellSelection`. */
  lemma {:induction false} SoloSelection(now: Time, db: State, id: nat, location: int, size: Size, selectionId: Id)
    requires SessionsOk(db) && Answer(db, Event(now, CreateCellSelection(location, size, selectionId))).SelectionMade?
    ensures Steps(Idle(now, db),
                  [BeginSelect(id, location, size)] + ([CleanStatement(id)] + ([PickCell(id)] + ([ReserveCell(id)]
                  + ([InsertSession(id, selectionId)] + ([Commit(id)] + []))))))
         == Some(Idle(now, Apply(db, Event(now, CreateCellSelection(location, size, selectionId)))))
  {
    SelectionWhen(db, Event(now, CreateCellSelection(location, size, selectionId)));
    var c := LowestFree(Cleaned(db, now).cells, location, size, {}).value;
    var t := CleanedTx(now, db, id, location, size);
    var rest := [PickCell(id)] + ([ReserveCell(id)] + ([InsertSession(id, selectionId)] + ([Commit(id)] + [])));
    CleanedAlone(now, db, id, location, size, rest);
    CleanView(now, db, id, location, size);
    TakeAlone(now, db, id, t, c, selectionId);
    SelectionApplied(db, now, location, size, selectionId, c);
  }

  // ---------------------------------------------------------------- admin

  /** With nothing between the panel's check and its update, they are `UpdateLockerStatus`. */
  lemma {:induction false} SoloAdmin(now: Time, db: State, id: nat, c: nat, status: CellStatus)
    requires Answer(db, Event(now, UpdateLockerStatus(c, status))).StatusChanged?
    ensures Steps(Idle(now, db), [AdminCheck(id, c, status)] + ([AdminUpdate(id)] + []))
         == Some(Idle(now, Apply(db, Event(now, UpdateLockerStatus(c, status)))))
  {
    StatusApplied(db, now, c, status);
    var t := Tx(AdminChecked(c, status), {}, {}, map[], map[], [], []);
    assert Step(Idle(now, db), AdminCheck(id, c, status)) == Some(Alone(now, db, id, t));
    assert map[id := t] - {id} == map[];
    assert Step(Alone(now, db, id, t), AdminUpdate(id)) == Some(Idle(now, Do(db, SetStatus(c, status))));
    OneStep(Alone(now, db, id, t), AdminUpdate(id), []);
    OneStep(Idle(now, db), AdminCheck(id, c, status), [AdminUpdate(id)] + []);
  }
}
