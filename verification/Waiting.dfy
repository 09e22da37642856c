/** Who waits for whom.  A transaction waits when its next statement must lock a row another one holds, and
    nobody waits for a transaction that waits itself. */
module Waiting {
  import opened Tables
  import opened Operations
  import opened Invariants
  import opened Answers
  import opened Interleaving

  // ---------------------------------------------------------------- no deadlock

  /** A row or a cell the cleanup must lock is held by `b`. */
  ghost predicate HoldsStale(db: State, now: Time, b: Tx) {
    (exists i :: i in b.rowLocks && i < |db.sessions| && Ended(db.sessions[i], now))
    || (exists c :: c in b.cellLocks && c < |db.cells| && db.cells[c].status == Reserved && EndedOn(db, c, now))
  }

  /** The next statement of transaction `id` must lock something that `j` holds. */
  ghost predicate Waits(w: World, id: nat, j: nat)
    requires id in w.txs
  {
    j in w.txs && j != id
    && match w.txs[id].stage
       case SelectBegun(_, _) => HoldsStale(w.db, w.now, w.txs[j])
       case FinishClosed(_, i, _) => i < |w.db.sessions| && w.db.sessions[i].cell in w.txs[j].cellLocks
       case AdminChecked(c, _) => c in w.txs[j].cellLocks
       case _ => false
  }

  /** What `b` holds, and a selection, a finish or an admin update waits for, is held by a transaction that has
      all its locks. */
  lemma {:induction false} HolderHasAll(db: State, now: Time, b: Tx)
    requires SessionsOk(db) && TxOk(db, b) && (HoldsStale(db, now, b) || b.cellLocks != {})
    ensures !b.stage.SelectBegun? && !b.stage.FinishClosed? && !b.stage.AdminChecked?
  {
  }

  /** Nobody waits for a transaction that waits itself: there is no deadlock. */
  lemma {:induction false} NoDeadlock(w: World, id: nat, j: nat, k: nat)
    requires Inv(w) && id in w.txs && Waits(w, id, j)
    ensures !Waits(w, j, k)
  {
    assert TxOk(w.db, w.txs[id]) && TxOk(w.db, w.txs[j]);
    HolderHasAll(w.db, w.now, w.txs[j]);
  }

  // ---------------------------------------------------------------- when a step can be taken

  /** A cleanup, the freeing of a finished rental's cell, and an admin update can be taken exactly when nobody
      is waited for. */
  lemma {:induction false} CleansExactly(w: World, id: nat)
    requires id in w.txs && w.txs[id].stage.SelectBegun?
    ensures Step(w, CleanStatement(id)).Some? <==> forall j :: j in w.txs ==> !Waits(w, id, j)
  {
    StaleLocks(w, id);
    forall j | j in w.txs
      ensures Waits(w, id, j) <==> j != id && HoldsStale(w.db, w.now, w.txs[j])
    {
    }
  }

  lemma {:induction false} StaleLocks(w: World, id: nat)
    ensures Unlocked(w, id, StaleCells(w.db.cells, w.db.sessions, w.now), StaleRows(w.db.sessions, w.now))
            <==> forall j :: j in w.txs && j != id ==> !HoldsStale(w.db, w.now, w.txs[j])
  {
    var cells, rows := StaleCells(w.db.cells, w.db.sessions, w.now), StaleRows(w.db.sessions, w.now);
    forall j | j in w.txs
      ensures cells !! w.txs[j].cellLocks && rows !! w.txs[j].rowLocks <==> !HoldsStale(w.db, w.now, w.txs[j])
    {
      HoldsExactly(w.db, w.now, w.txs[j]);
    }
  }

  lemma {:induction false} HoldsExactly(db: State, now: Time, b: Tx)
    ensures StaleCells(db.cells, db.sessions, now) !! b.cellLocks && StaleRows(db.sessions, now) !! b.rowLocks
            <==> !HoldsStale(db, now, b)
  {
    forall c: nat
      ensures c in StaleCells(db.cells, db.sessions, now) <==>
                c < |db.cells| && db.cells[c].status == Reserved && EndedOn(db, c, now)
    {
      SameEnded(db, c, now);
    }
    if HoldsStale(db, now, b) {
      if i :| i in b.rowLocks && i < |db.sessions| && Ended(db.sessions[i], now) {
        assert i in StaleRows(db.sessions, now);
      } else {
        var c :| c in b.cellLocks && c < |db.cells| && db.cells[c].status == Reserved && EndedOn(db, c, now);
        assert c in StaleCells(db.cells, db.sessions, now);
      }
    }
  }

  lemma {:induction false} FreesExactly(w: World, id: nat)
    requires Inv(w) && id in w.txs && w.txs[id].stage.FinishClosed?
    ensures Step(w, FreeCell(id)).Some? <==> forall j :: j in w.txs ==> !Waits(w, id, j)
  {
    assert TxOk(w.db, w.txs[id]);
    var c := w.db.sessions[w.txs[id].stage.row].cell;
    forall j | j in w.txs
      ensures Waits(w, id, j) <==> j != id && !({c} !! w.txs[j].cellLocks)
    {
      OneCell(c, w.txs[j].cellLocks);
    }
  }

  lemma {:induction false} OneCell(c: nat, locks: set<nat>)
    ensures {c} !! locks <==> c !in locks
  {
    if c !in locks {
      assert {c} * locks == {};
    }
  }

  lemma {:induction false} UpdatesExactly(w: World, id: nat)
    requires id in w.txs && w.txs[id].stage.AdminChecked?
    ensures Step(w, AdminUpdate(id)).Some? <==> forall j :: j in w.txs ==> !Waits(w, id, j)
  {
    var c := w.txs[id].stage.cell;
    forall j | j in w.txs
      ensures Waits(w, id, j) <==> j != id && !({c} !! w.txs[j].cellLocks)
    {
      OneCell(c, w.txs[j].cellLocks);
    }
  }

  /** A tick waits exactly for the holders of what it must lock. */
  lemma {:induction false} TicksExactly(w: World)
    ensures Step(w, CleanupTick).Some? <==> forall j :: j in w.txs ==> !HoldsStale(w.db, w.now, w.txs[j])
  {
    forall j | j in w.txs
      ensures StaleCells(w.db.cells, w.db.sessions, w.now) !! w.txs[j].cellLocks
              && StaleRows(w.db.sessions, w.now) !! w.txs[j].rowLocks
              <==> !HoldsStale(w.db, w.now, w.txs[j])
    {
      HoldsExactly(w.db, w.now, w.txs[j]);
    }
  }

  /** A pick finds a cell exactly when one that could be taken is locked by nobody else: it never waits. */
  lemma {:induction false} PicksExactly(w: World, id: nat)
    requires id in w.txs && w.txs[id].stage.SelectCleaned?
    ensures var g, seen := w.txs[id].stage, View(w.db, w.txs[id]).cells;
            Step(w, PickCell(id)).Some? <==>
              g.location in w.db.locations
              && exists c: nat :: c < |seen| && Selectable(seen[c], g.location, g.size)
                                  && forall j :: j in w.txs && j != id ==> c !in w.txs[j].cellLocks
  {
    var g, seen := w.txs[id].stage, View(w.db, w.txs[id]).cells;
    var pick := LowestFree(seen, g.location, g.size, LockedByOthers(w, id));
    if pick.Some? {
      assert forall j :: j in w.txs && j != id ==> pick.value !in w.txs[j].cellLocks;
    }
  }

  /** A booking begins exactly when a session of that id sits at the location and nobody has locked it or its
      cell; it goes on exactly while that session is held. */
  lemma {:induction false} BookingBegins(w: World, id: nat, location: int, selectionId: Id)
    requires SessionsOk(w.db) && id !in w.txs
    ensures Step(w, LockBooking(id, location, selectionId)).Some? <==>
              exists i: nat :: Sits(w.db, i, location) && w.db.sessions[i].selectionId == selectionId
                  && forall j :: j in w.txs ==> i !in w.txs[j].rowLocks && w.db.sessions[i].cell !in w.txs[j].cellLocks
  {
    var row := JoinedSelection(w.db, location, selectionId);
    forall i: nat | Sits(w.db, i, location) && w.db.sessions[i].selectionId == selectionId
      ensures row == Some(i)
    {
      SelectionUnique(w.db, i);
    }
    if row.Some? {
      assert Sits(w.db, row.value, location);
    }
  }

  lemma {:induction false} BookingGoesOn(w: World, id: nat)
    requires Inv(w) && id in w.txs && w.txs[id].stage.BookLocked?
    ensures var g := w.txs[id].stage;
            Step(w, DecideBooking(id)).Some? <==> Held(w.db, g.row, g.location, g.selectionId, w.now)
  {
    assert TxOk(w.db, w.txs[id]) && SessionOk(w.db.cells, w.db.sessions[w.txs[id].stage.row]);
  }

  /** A finish begins exactly when a session has the rental id and nobody has locked it. */
  lemma {:induction false} FinishBegins(w: World, id: nat, rentalId: Id)
    requires SessionsOk(w.db) && id !in w.txs
    ensures Step(w, LockRental(id, rentalId)).Some? <==>
              exists i: nat :: i < |w.db.sessions| && w.db.sessions[i].rentalId == Some(rentalId)
                               && forall j :: j in w.txs ==> i !in w.txs[j].rowLocks
  {
    forall i: nat | i < |w.db.sessions| && w.db.sessions[i].rentalId == Some(rentalId)
      ensures FindRental(w.db.sessions, rentalId) == Some(i)
    {
      RentalUnique(w.db, i);
    }
  }

  /** The panel's check passes exactly when the whole operation would be granted. */
  lemma {:induction false} PanelChecksExactly(w: World, id: nat, c: nat, status: CellStatus)
    requires id !in w.txs
    ensures Step(w, AdminCheck(id, c, status)).Some?
            <==> Answer(w.db, Event(w.now, UpdateLockerStatus(c, status))).StatusChanged?
  {
  }
}
