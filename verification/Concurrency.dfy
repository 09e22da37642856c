/** What the interleaving theorem gives.  No cell is handed out twice, a cell has one holder exactly under
    the two hypotheses, and the stored cell status agrees with the sessions at every committed database as
    long as no admin changes it.  When a commit, or an admin's update, is a whole operation, and when it is
    none. */
module Concurrency {
  import opened Tables
  import opened Operations
  import opened Invariants
  import opened Allocation
  import opened Interleaving

  // ---------------------------------------------------------------- picking a cell

  /** The cell a transaction has picked. */
  function PickOf(stage: Stage): Option<nat> {
    if stage.SelectPicked? || stage.SelectReserved? || stage.SelectInserted? then Some(stage.cell) else None
  }

  /** SKIP LOCKED never hands one cell to two transactions. */
  lemma {:induction false} NoDoublePick(w: World, j: nat, k: nat)
    requires Inv(w) && j in w.txs && k in w.txs && j != k && PickOf(w.txs[j].stage).Some?
    ensures PickOf(w.txs[j].stage) != PickOf(w.txs[k].stage)
  {
    assert TxOk(w.db, w.txs[j]) && TxOk(w.db, w.txs[k]);
    assert Apart(w.txs[j], w.txs[k]);
  }

  /** The update guarded by the cell being free always hits the one row its transaction picked, and no one
      else can have changed it meanwhile. */
  lemma {:induction false} ReserveHits(w: World, id: nat)
    requires Inv(w) && id in w.txs && w.txs[id].stage.SelectPicked?
    ensures var c := w.txs[id].stage.cell;
            c < |w.db.cells| && View(w.db, w.txs[id]).cells[c].status == Free
            && StepReserve(w, id).Some?
            && View(w.db, StepReserve(w, id).value.txs[id]).cells
               == View(w.db, w.txs[id]).cells[c := w.db.cells[c].(status := Reserved)]
  {
    assert TxOk(w.db, w.txs[id]);
    PickedFree(w.db, w.txs[id]);
    ReserveWrites(w, id);
  }

  /** A picked cell is free as its transaction sees it, and else as committed. */
  lemma {:induction false} PickedFree(db: State, tx: Tx)
    requires TxOk(db, tx) && tx.stage.SelectPicked?
    ensures tx.stage.cell < |db.cells|
    ensures View(db, tx).cells[tx.stage.cell] == db.cells[tx.stage.cell].(status := Free)
  {
  }

  lemma {:induction false} ReserveWrites(w: World, id: nat)
    requires id in w.txs && w.txs[id].stage.SelectPicked? && w.txs[id].stage.cell < |w.db.cells|
    requires var c := w.txs[id].stage.cell; View(w.db, w.txs[id]).cells[c] == w.db.cells[c].(status := Free)
    ensures StepReserve(w, id).Some?
    ensures var c := w.txs[id].stage.cell;
            View(w.db, StepReserve(w, id).value.txs[id]).cells
            == View(w.db, w.txs[id]).cells[c := w.db.cells[c].(status := Reserved)]
  {
    var c := w.txs[id].stage.cell;
    var a := View(w.db, StepReserve(w, id).value.txs[id]).cells;
    assert a == View(w.db, w.txs[id]).cells[c := w.db.cells[c].(status := Reserved)];
  }

  /** A pick is the lowest-numbered selectable cell that no other transaction has locked. */
  lemma {:induction false} PickIsLowestUnlocked(w: World, id: nat)
    requires StepPick(w, id).Some?
    ensures var g := w.txs[id].stage;
            var seen := View(w.db, w.txs[id]).cells;
            var c := StepPick(w, id).value.txs[id].stage.cell;
            c < |seen| && Selectable(seen[c], g.location, g.size)
            && (forall j :: j in w.txs && j != id ==> c !in w.txs[j].cellLocks)
            && (forall d :: 0 <= d < |seen| && Selectable(seen[d], g.location, g.size) && seen[d].no < seen[c].no
                            ==> exists j :: j in w.txs && j != id && d in w.txs[j].cellLocks)
  {
  }

  // ---------------------------------------------------------------- one holder per cell

  /** The two things that can go wrong: committing a finish whose cell someone else holds, and an admin
      update freeing a cell that somebody holds, selected or, since the check, active. */
  ghost predicate CarefulStep(w: World, l: Label) {
    (l.Commit? && l.id in w.txs && w.txs[l.id].stage.FinishFreed? && w.txs[l.id].stage.row < |w.db.sessions|
     ==> !HeldByOther(w.db, w.txs[l.id].stage.row))
    && (l.AdminUpdate? && l.id in w.txs && w.txs[l.id].stage.AdminChecked? && w.txs[l.id].stage.status == Free
        ==> !HasSession(w.db, w.txs[l.id].stage.cell, Selected) && !HasSession(w.db, w.txs[l.id].stage.cell, Active))
  }

  lemma {:induction false} CommittedCareful(w: World, l: Label)
    ensures Careful(w.db, Committed(w, l).0) <==> CarefulStep(w, l)
    ensures Committed(w, l).1 == Nop || (Committed(w, l).1.Reserve? && Committed(w, l).0.Expire?)
  {
  }

  lemma {:induction false} StepOneLive(w: World, l: Label)
    requires Inv(w) && OneLive(w.db) && Step(w, l).Some?
    ensures OneLive(Step(w, l).value.db) <==> CarefulStep(w, l)
  {
    var e, f := Committed(w, l).0, Committed(w, l).1;
    var db' := Step(w, l).value.db;
    assert Allowed(w.db, e) && Allowed(Do(w.db, e), f) && db' == Do(Do(w.db, e), f) by {
      StepIsAtomic(w, l);
    }
    assert (Careful(w.db, e) <==> CarefulStep(w, l)) && (f == Nop || (f.Reserve? && e.Expire?)) by {
      CommittedCareful(w, l);
    }
    OneLiveTwice(w.db, e, f);
  }

  ghost predicate CarefulSteps(w: World, ls: seq<Label>)
    decreases |ls|
  {
    ls == [] || (CarefulStep(w, ls[0]) && (Step(w, ls[0]).Some? ==> CarefulSteps(Step(w, ls[0]).value, ls[1..])))
  }

  /** Every committed database along an interleaving has at most one live session per cell, and none on a
      free cell. */
  ghost predicate OneLiveAlong(w: World, ls: seq<Label>)
    decreases |ls|
  {
    OneLive(w.db) && (ls == [] || (Step(w, ls[0]).Some? ==> OneLiveAlong(Step(w, ls[0]).value, ls[1..])))
  }

  /** An interleaving, the admin panel's unlocked check and update included, has a single holder per cell
      throughout if and only if it is careful. */
  lemma {:induction false} InterleavedOneLive(w: World, ls: seq<Label>)
    requires Inv(w) && OneLive(w.db) && Steps(w, ls).Some?
    ensures OneLiveAlong(w, ls) <==> CarefulSteps(w, ls)
    ensures CarefulSteps(w, ls) ==> OneLive(Steps(w, ls).value.db)
    decreases |ls|
  {
    if ls == [] {
    } else {
      StepKeeps(w, ls[0]);
      StepOneLive(w, ls[0]);
      if CarefulStep(w, ls[0]) {
        InterleavedOneLive(Step(w, ls[0]).value, ls[1..]);
      }
    }
  }

  // ---------------------------------------------------------------- whole cleanups in flight

  predicate HasCleaned(stage: Stage) {
    stage.SelectCleaned? || stage.SelectPicked? || stage.SelectReserved? || stage.SelectInserted?
  }

  /** The cleanup inside a selecting transaction frees every cell still marked reserved of the sessions it
      expires. */
  ghost predicate FreesReserved(db: State, stage: Stage) {
    HasCleaned(stage) ==>
      forall i :: i in stage.expired && i < |db.sessions| && OnReserved(db, i) ==> db.sessions[i].cell in stage.freed
  }

  /** One holder per cell, and every cleanup in flight still frees what it must. */
  ghost predicate Coherent(w: World) {
    Inv(w) && OneLive(w.db) && forall j :: j in w.txs ==> FreesReserved(w.db, w.txs[j].stage)
  }

  /** An admin marks a cell reserved whose session a selection in flight has already expired. */
  ghost predicate ReservesExpiring(w: World, l: Label) {
    l.AdminUpdate? && l.id in w.txs && w.txs[l.id].stage.AdminChecked? && w.txs[l.id].stage.status == Reserved
    && exists j :: j in w.txs && HoldsExpired(w.db, w.txs[j].stage, w.txs[l.id].stage.cell)
  }

  ghost predicate HoldsExpired(db: State, stage: Stage, c: nat) {
    HasCleaned(stage) && exists i :: i in stage.expired && i < |db.sessions| && db.sessions[i].cell == c
  }

  /** What one step leaves of another transaction's cleanup, or of its own. */
  predicate Continues(a: Stage, b: Stage) {
    HasCleaned(b) ==> HasCleaned(a) && a.expired == b.expired && a.freed == b.freed && a.cleanedAt == b.cleanedAt
  }

  lemma {:induction false} StepContinues(w: World, l: Label, j: nat)
    requires !l.CleanStatement? && Step(w, l).Some? && j in Step(w, l).value.txs
    ensures j in w.txs ==> Continues(w.txs[j].stage, Step(w, l).value.txs[j].stage)
    ensures j !in w.txs ==> !HasCleaned(Step(w, l).value.txs[j].stage)
  {
    match l
    case PickCell(_) => TakeContinues(w, l, j);
    case ReserveCell(_) => TakeContinues(w, l, j);
    case InsertSession(_, _) => TakeContinues(w, l, j);
    case LockBooking(_, _, _) =>
    case DecideBooking(_) =>
    case WriteBooking(_, _) =>
    case LockRental(_, _) =>
    case CloseRental(_) =>
    case FreeCell(_) =>
    case _ =>
  }

  lemma {:induction false} TakeContinues(w: World, l: Label, j: nat)
    requires l.PickCell? || l.ReserveCell? || l.InsertSession?
    requires Step(w, l).Some? && j in Step(w, l).value.txs
    ensures j in w.txs && Continues(w.txs[j].stage, Step(w, l).value.txs[j].stage)
  {
    match l
    case PickCell(_) =>
    case ReserveCell(_) =>
    case InsertSession(_, _) =>
  }

  /** Sessions keep their cells. */
  lemma {:induction false} StepCells(w: World, l: Label)
    requires Inv(w) && Step(w, l).Some?
    ensures Advances(w.db, Step(w, l).value.db)
  {
    var e, f := Committed(w, l).0, Committed(w, l).1;
    var db' := Step(w, l).value.db;
    assert Allowed(w.db, e) && Allowed(Do(w.db, e), f) && db' == Do(Do(w.db, e), f) by {
      StepIsAtomic(w, l);
    }
    SessionsOkKept(w.db, e);
    AdvancesStep(w.db, e);
    AdvancesStep(Do(w.db, e), f);
    AdvancesTransitive(w.db, Do(w.db, e), db');
  }

  /** No cell comes to be marked reserved that a live session sits on. */
  ghost predicate ReservesNoneLive(db: State, db': State) {
    |db'.cells| == |db.cells|
    && forall i :: 0 <= i < |db.sessions| && Live(db.sessions[i]) && db.sessions[i].cell < |db.cells|
                   && db'.cells[db.sessions[i].cell].status == Reserved
                   ==> db.cells[db.sessions[i].cell].status == Reserved
  }

  lemma {:induction false} EffectsReserveNoneLive(db: State, e: Effect, f: Effect)
    requires OneLive(db) && Allowed(db, e) && Allowed(Do(db, e), f) && !e.Reserve? && !e.SetStatus?
    requires f.Nop? || (f.Reserve? && e.Expire?)
    ensures ReservesNoneLive(db, Do(Do(db, e), f))
  {
  }

  lemma {:induction false} FreesReservedStays(db: State, db': State, tx: Tx, stage: Stage)
    requires TxOk(db, tx) && FreesReserved(db, tx.stage) && Advances(db, db') && Continues(tx.stage, stage)
    requires ReservesNoneLive(db, db')
    ensures FreesReserved(db', stage)
  {
    if HasCleaned(stage) {
      forall i | i in stage.expired && i < |db'.sessions| && OnReserved(db', i)
        ensures db'.sessions[i].cell in stage.freed
      {
        assert Allowed(db, Expire(tx.stage.expired, tx.stage.freed, tx.stage.cleanedAt));
        assert i < |db.sessions| && Moves(db.sessions[i], db'.sessions[i]) && Live(db.sessions[i]);
        assert OnReserved(db, i);
      }
    }
  }

  lemma {:induction false} StepReservesNoneLive(w: World, l: Label)
    requires Inv(w) && OneLive(w.db) && Step(w, l).Some? && !l.AdminUpdate?
    ensures ReservesNoneLive(w.db, Step(w, l).value.db)
  {
    var e, f := Committed(w, l).0, Committed(w, l).1;
    var db' := Step(w, l).value.db;
    assert Allowed(w.db, e) && Allowed(Do(w.db, e), f) && db' == Do(Do(w.db, e), f) by {
      StepIsAtomic(w, l);
    }
    assert f == Nop || (f.Reserve? && e.Expire?) by {
      CommittedCareful(w, l);
    }
    CommittedNoStatus(w, l);
    EffectsReserveNoneLive(w.db, e, f);
  }

  lemma {:induction false} CommittedNoStatus(w: World, l: Label)
    requires !l.AdminUpdate?
    ensures !Committed(w, l).0.Reserve? && !Committed(w, l).0.SetStatus?
  {
  }

  lemma {:induction false} CleanFreesReserved(w: World, id: nat, j: nat)
    requires Coherent(w) && StepClean(w, id).Some? && j in StepClean(w, id).value.txs
    ensures FreesReserved(StepClean(w, id).value.db, StepClean(w, id).value.txs[j].stage)
  {
    if j != id {
      assert FreesReserved(w.db, w.txs[j].stage);
    } else {
      forall i | i in StaleRows(w.db.sessions, w.now) && OnReserved(w.db, i)
        ensures w.db.sessions[i].cell in StaleCells(w.db.cells, w.db.sessions, w.now)
      {
        assert HasStale(w.db.sessions, w.db.sessions[i].cell, w.now);
      }
    }
  }

  lemma {:induction false} StepFreesReserved(w: World, l: Label, j: nat)
    requires Coherent(w) && Step(w, l).Some? && !l.AdminUpdate? && j in Step(w, l).value.txs
    ensures FreesReserved(Step(w, l).value.db, Step(w, l).value.txs[j].stage)
  {
    if l.CleanStatement? {
      CleanFreesReserved(w, l.id, j);
    } else {
      StepContinues(w, l, j);
      StepCells(w, l);
      StepReservesNoneLive(w, l);
      if j in w.txs {
        FreesReservedStays(w.db, Step(w, l).value.db, w.txs[j], Step(w, l).value.txs[j].stage);
      }
    }
  }

  /** A status change leaves a cleanup in flight whole exactly when it does not reserve one of its cells. */
  lemma {:induction false} StatusFreesReserved(db: State, stage: Stage, c: nat, status: CellStatus)
    requires c < |db.cells| && FreesReserved(db, stage) && (HasCleaned(stage) ==> c !in stage.freed)
    ensures FreesReserved(Do(db, SetStatus(c, status)), stage)
            <==> !(status == Reserved && HoldsExpired(db, stage, c))
  {
    var db' := Do(db, SetStatus(c, status));
    if status == Reserved && HoldsExpired(db, stage, c) {
      var i :| i in stage.expired && i < |db.sessions| && db.sessions[i].cell == c;
      assert OnReserved(db', i);
    } else if HasCleaned(stage) {
      forall i | i in stage.expired && i < |db.sessions| && OnReserved(db', i)
        ensures db.sessions[i].cell in stage.freed
      {
        assert OnReserved(db, i);
      }
    }
  }

  lemma {:induction false} UpdateUnlocked(w: World, id: nat, j: nat)
    requires Inv(w) && StepAdminUpdate(w, id).Some? && j in w.txs && j != id
    ensures w.txs[id].stage.cell < |w.db.cells|
    ensures HasCleaned(w.txs[j].stage) ==> w.txs[id].stage.cell !in w.txs[j].stage.freed
  {
    assert TxOk(w.db, w.txs[id]) && TxOk(w.db, w.txs[j]);
  }

  lemma {:induction false} AdminFreesReserved(w: World, id: nat, j: nat)
    requires Coherent(w) && StepAdminUpdate(w, id).Some? && j in w.txs && j != id
    ensures var g := w.txs[id].stage;
            FreesReserved(StepAdminUpdate(w, id).value.db, w.txs[j].stage)
            <==> !(g.status == Reserved && HoldsExpired(w.db, w.txs[j].stage, g.cell))
  {
    UpdateUnlocked(w, id, j);
    assert FreesReserved(w.db, w.txs[j].stage);
    StatusFreesReserved(w.db, w.txs[j].stage, w.txs[id].stage.cell, w.txs[id].stage.status);
  }

  lemma {:induction false} UpdateFreesReserved(w: World, id: nat)
    requires Coherent(w) && StepAdminUpdate(w, id).Some?
    ensures var w' := StepAdminUpdate(w, id).value;
            (forall j :: j in w'.txs ==> FreesReserved(w'.db, w'.txs[j].stage))
            <==> !ReservesExpiring(w, AdminUpdate(id))
  {
    var w', g := StepAdminUpdate(w, id).value, w.txs[id].stage;
    forall j | j in w.txs && j != id
      ensures j in w'.txs && w'.txs[j] == w.txs[j]
      ensures FreesReserved(w'.db, w.txs[j].stage)
              <==> !(g.status == Reserved && HoldsExpired(w.db, w.txs[j].stage, g.cell))
    {
      AdminFreesReserved(w, id, j);
    }
    assert !HoldsExpired(w.db, g, g.cell);
  }

  /** A step keeps one holder per cell and the cleanups in flight whole if and only if it is careful and does
      not reserve a cell that one of them is about to free. */
  lemma {:induction false} StepCoherent(w: World, l: Label)
    requires Coherent(w) && Step(w, l).Some?
    ensures Coherent(Step(w, l).value) <==> CarefulStep(w, l) && !ReservesExpiring(w, l)
  {
    StepKeeps(w, l);
    StepOneLive(w, l);
    if l.AdminUpdate? {
      UpdateFreesReserved(w, l.id);
    } else {
      forall j | j in Step(w, l).value.txs
        ensures FreesReserved(Step(w, l).value.db, Step(w, l).value.txs[j].stage)
      {
        StepFreesReserved(w, l, j);
      }
    }
  }

  ghost predicate CoherentSteps(w: World, ls: seq<Label>)
    decreases |ls|
  {
    ls == []
    || (CarefulStep(w, ls[0]) && !ReservesExpiring(w, ls[0])
        && (Step(w, ls[0]).Some? ==> CoherentSteps(Step(w, ls[0]).value, ls[1..])))
  }

  ghost predicate CoherentAlong(w: World, ls: seq<Label>)
    decreases |ls|
  {
    Coherent(w) && (ls == [] || (Step(w, ls[0]).Some? ==> CoherentAlong(Step(w, ls[0]).value, ls[1..])))
  }

  /** The same over a whole interleaving, admin changes included. */
  lemma {:induction false} InterleavedCoherent(w: World, ls: seq<Label>)
    requires Coherent(w) && Steps(w, ls).Some?
    ensures CoherentAlong(w, ls) <==> CoherentSteps(w, ls)
    ensures CoherentSteps(w, ls) ==> Coherent(Steps(w, ls).value)
    decreases |ls|
  {
    if ls == [] {
    } else {
      StepCoherent(w, ls[0]);
      if CarefulStep(w, ls[0]) && !ReservesExpiring(w, ls[0]) {
        InterleavedCoherent(Step(w, ls[0]).value, ls[1..]);
      }
    }
  }

  /** With nothing in flight, one holder per cell is all it takes to begin with. */
  lemma {:induction false} IdleCoherent(now: Time, db: State)
    requires SessionsOk(db) && OneLive(db)
    ensures Coherent(World(now, db, map[])) && Timely(World(now, db, map[]))
  {
  }

  // ---------------------------------------------------------------- agreement

  ghost predicate Agreeing(w: World) {
    Coherent(w) && Sound(w.db)
  }

  /** A careful step that is no admin change keeps the agreement. */
  lemma {:induction false} StepSound(w: World, l: Label)
    requires Agreeing(w) && Step(w, l).Some? && CarefulStep(w, l) && !l.AdminUpdate?
    ensures Sound(Step(w, l).value.db)
  {
    var e, f := Committed(w, l).0, Committed(w, l).1;
    var db' := Step(w, l).value.db;
    assert Allowed(w.db, e) && Allowed(Do(w.db, e), f) && db' == Do(Do(w.db, e), f) by {
      StepIsAtomic(w, l);
    }
    assert Faithful(w.db, e) && (f == Nop || f.Reserve?) by {
      CommittedFaithful(w, l);
    }
    SoundTwice(w.db, e, f);
  }

  lemma {:induction false} CommittedFaithful(w: World, l: Label)
    requires Coherent(w) && CarefulStep(w, l) && !l.AdminUpdate?
    ensures Faithful(w.db, Committed(w, l).0)
    ensures Committed(w, l).1 == Nop || Committed(w, l).1.Reserve?
  {
    CommittedCareful(w, l);
    StaleComplete(w.db, w.now);
    if l.Commit? && l.id in w.txs {
      assert TxOk(w.db, w.txs[l.id]) && FreesReserved(w.db, w.txs[l.id].stage);
    }
  }

  predicate AdminFreeSteps(ls: seq<Label>) {
    forall k :: 0 <= k < |ls| ==> !ls[k].AdminUpdate?
  }

  /** In every careful interleaving without admin changes the stored cell status agrees with the sessions
      at every committed database, and so all that follows from agreement: the counts, and no leaked
      reservation. */
  lemma {:induction false} InterleavedAgreement(w: World, ls: seq<Label>)
    requires Agreeing(w) && Steps(w, ls).Some? && CarefulSteps(w, ls) && AdminFreeSteps(ls)
    ensures Agreeing(Steps(w, ls).value) && Sound(Steps(w, ls).value.db)
    decreases |ls|
  {
    if ls == [] {
    } else {
      assert !ls[0].AdminUpdate?;
      StepCoherent(w, ls[0]);
      StepSound(w, ls[0]);
      assert forall k :: 0 <= k < |ls[1..]| ==> ls[1..][k] == ls[k + 1];
      InterleavedAgreement(Step(w, ls[0]).value, ls[1..]);
    }
  }

  // ---------------------------------------------------------------- prompt interleavings

  function InsertedAt(stage: Stage): Option<Time> {
    if stage.SelectInserted? then Some(stage.at) else None
  }

  /** The clock does not pass the hold of a selection that is still to be committed. */
  predicate PromptStep(w: World, l: Label) {
    l.Tick? ==> forall j :: j in w.txs && InsertedAt(w.txs[j].stage).Some? ==>
        l.to <= InsertedAt(w.txs[j].stage).value + HOLD
  }

  ghost predicate PromptSteps(w: World, ls: seq<Label>)
    decreases |ls|
  {
    ls == [] || (PromptStep(w, ls[0]) && (Step(w, ls[0]).Some? ==> PromptSteps(Step(w, ls[0]).value, ls[1..])))
  }

  /** The cleanup inside a selecting transaction covers every session stale at its time. */
  ghost predicate MissesNone(db: State, stage: Stage) {
    HasCleaned(stage) ==>
      forall i :: 0 <= i < |db.sessions| && Stale(db.sessions[i], stage.cleanedAt) ==> i in stage.expired
  }

  ghost predicate TakesAll(w: World, stage: Stage) {
    MissesNone(w.db, stage) && (HasCleaned(stage) ==> stage.cleanedAt <= w.now)
  }

  predicate StillHeld(w: World, stage: Stage) {
    InsertedAt(stage).Some? ==> w.now <= InsertedAt(stage).value + HOLD
  }

  ghost predicate Timely(w: World) {
    forall j :: j in w.txs ==> TakesAll(w, w.txs[j].stage) && StillHeld(w, w.txs[j].stage)
  }

  /** New sessions are not stale yet; old ones only leave the selected state. */
  ghost predicate NothingNewStale(db: State, db': State, now: Time) {
    |db.sessions| <= |db'.sessions|
    && (forall i :: 0 <= i < |db.sessions| && db'.sessions[i].status == Selected ==> db'.sessions[i] == db.sessions[i])
    && (forall i :: |db.sessions| <= i < |db'.sessions| ==> now <= db'.sessions[i].hold)
  }

  lemma {:induction false} StepBringsNothingStale(w: World, l: Label)
    requires Inv(w) && Timely(w) && Step(w, l).Some?
    ensures NothingNewStale(w.db, Step(w, l).value.db, w.now)
  {
    var e, f := Committed(w, l).0, Committed(w, l).1;
    var db' := Step(w, l).value.db;
    assert Allowed(w.db, e) && Allowed(Do(w.db, e), f) && db' == Do(Do(w.db, e), f) by {
      StepIsAtomic(w, l);
    }
    CommittedHeld(w, l);
    EffectsBringNothingStale(w.db, e, f, w.now);
  }

  lemma {:induction false} CommittedHeld(w: World, l: Label)
    requires Timely(w)
    ensures !Committed(w, l).0.Reserve?
    ensures var f := Committed(w, l).1; f.Nop? || (f.Reserve? && w.now <= f.at + HOLD)
  {
    if l.Commit? && l.id in w.txs {
      assert StillHeld(w, w.txs[l.id].stage);
    }
  }

  lemma {:induction false} EffectsBringNothingStale(db: State, e: Effect, f: Effect, now: Time)
    requires SessionsOk(db) && Allowed(db, e) && Allowed(Do(db, e), f) && !e.Reserve?
    requires f.Nop? || (f.Reserve? && now <= f.at + HOLD)
    ensures NothingNewStale(db, Do(Do(db, e), f), now)
  {
    forall i | 0 <= i < |db.sessions|
      ensures SessionOk(db.cells, db.sessions[i])
    {
    }
  }

  /** What one step leaves of another transaction's insertion time; its own it sets to now. */
  predicate Inserts(now: Time, a: Stage, b: Stage) {
    InsertedAt(b).Some? ==> InsertedAt(b) == InsertedAt(a) || InsertedAt(b) == Some(now)
  }

  lemma {:induction false} StepInserts(w: World, l: Label, j: nat)
    requires Step(w, l).Some? && j in Step(w, l).value.txs
    ensures j in w.txs ==> Inserts(w.now, w.txs[j].stage, Step(w, l).value.txs[j].stage)
    ensures j !in w.txs ==> InsertedAt(Step(w, l).value.txs[j].stage).None?
    ensures w.now <= Step(w, l).value.now && (!l.Tick? ==> Step(w, l).value.now == w.now)
  {
  }

  lemma {:induction false} HeldStays(w: World, l: Label, j: nat)
    requires Timely(w) && Step(w, l).Some? && PromptStep(w, l) && j in Step(w, l).value.txs
    ensures StillHeld(Step(w, l).value, Step(w, l).value.txs[j].stage)
  {
    StepInserts(w, l, j);
    if j in w.txs {
      assert StillHeld(w, w.txs[j].stage);
    }
  }

  lemma {:induction false} TakesStay(w: World, w': World, a: Stage, b: Stage)
    requires TakesAll(w, a) && Continues(a, b) && NothingNewStale(w.db, w'.db, w.now) && w.now <= w'.now
    ensures TakesAll(w', b)
  {
  }

  lemma {:induction false} CleanTakesAll(w: World, id: nat, j: nat)
    requires Timely(w) && StepClean(w, id).Some? && j in StepClean(w, id).value.txs
    ensures TakesAll(StepClean(w, id).value, StepClean(w, id).value.txs[j].stage)
  {
    if j != id {
      assert TakesAll(w, w.txs[j].stage);
    }
  }

  lemma {:induction false} TimelyKept(w: World, l: Label)
    requires Inv(w) && Timely(w) && Step(w, l).Some? && PromptStep(w, l)
    ensures Timely(Step(w, l).value)
  {
    var w' := Step(w, l).value;
    forall j | j in w'.txs
      ensures TakesAll(w', w'.txs[j].stage) && StillHeld(w', w'.txs[j].stage)
    {
      HeldStays(w, l, j);
      if l.CleanStatement? {
        CleanTakesAll(w, l.id, j);
      } else {
        StepContinues(w, l, j);
        StepInserts(w, l, j);
        StepBringsNothingStale(w, l);
        if j in w.txs {
          TakesStay(w, w', w.txs[j].stage, w'.txs[j].stage);
        }
      }
    }
  }

  lemma {:induction false} InterleavedTimely(w: World, ls: seq<Label>)
    requires Inv(w) && Timely(w) && Steps(w, ls).Some? && PromptSteps(w, ls)
    ensures Inv(Steps(w, ls).value) && Timely(Steps(w, ls).value)
    decreases |ls|
  {
    if ls == [] {
    } else {
      StepKeeps(w, ls[0]);
      TimelyKept(w, ls[0]);
      InterleavedTimely(Step(w, ls[0]).value, ls[1..]);
    }
  }

  // ---------------------------------------------------------------- commits are operations

  /** The expiry a finished selection commits is the full cleanup at its time. */
  lemma {:induction false} WholeExpiry(db: State, tx: Tx)
    requires TxOk(db, tx) && HasCleaned(tx.stage) && FreesReserved(db, tx.stage) && MissesNone(db, tx.stage)
    ensures Expire(tx.stage.expired, tx.stage.freed, tx.stage.cleanedAt) == ExpireStale(db, tx.stage.cleanedAt)
  {
    var g := tx.stage;
    WholeExpirySets(db, g.expired, g.freed, g.cleanedAt);
  }

  lemma {:induction false} WholeExpirySets(db: State, rows: set<nat>, freed: set<nat>, at: Time)
    requires Allowed(db, Expire(rows, freed, at))
    requires forall i :: i in rows && i < |db.sessions| && OnReserved(db, i) ==> db.sessions[i].cell in freed
    requires forall i :: 0 <= i < |db.sessions| && Stale(db.sessions[i], at) ==> i in rows
    ensures rows == StaleRows(db.sessions, at) && freed == StaleCells(db.cells, db.sessions, at)
  {
    assert rows == StaleRows(db.sessions, at);
    forall c | c in freed
      ensures HasStale(db.sessions, c, at)
    {
      var i :| i in rows && db.sessions[i].cell == c;
    }
    forall c: nat | c < |db.cells| && db.cells[c].status == Reserved && HasStale(db.sessions, c, at)
      ensures c in freed
    {
      var i :| 0 <= i < |db.sessions| && db.sessions[i].cell == c && Stale(db.sessions[i], at);
      assert OnReserved(db, i);
    }
    assert freed == StaleCells(db.cells, db.sessions, at);
  }

  /** A selection that cleans at one time and inserts at another, passing over some cells. */
  function SelectPast(s: State, ask: Stage): State
    requires ask.SelectInserted?
  {
    var m := Cleaned(s, ask.cleanedAt);
    var pick := LowestFree(m.cells, ask.location, ask.size, ask.passed);
    if ask.location in s.locations && pick.Some? && FindSelection(s.sessions, ask.selectionId).None?
    then Do(m, Reserve(pick.value, ask.selectionId, ask.at)) else s
  }

  lemma {:induction false} LowestIs(cells: seq<Cell>, location: int, size: Size, hidden: set<nat>, c: nat)
    requires c < |cells| && c !in hidden && Selectable(cells[c], location, size)
    requires forall d: nat :: d < |cells| && d !in hidden && Selectable(cells[d], location, size) ==>
              Before(cells, c, d)
    ensures LowestFree(cells, location, size, hidden) == Some(c)
  {
  }

  /** No cell that could have been picked is passed over. */
  predicate PassesNothing(cells: seq<Cell>, location: int, size: Size, passed: set<nat>) {
    forall d :: d in passed && d < |cells| ==> !Selectable(cells[d], location, size)
  }

  lemma {:induction false} SamePick(cells: seq<Cell>, location: int, size: Size, passed: set<nat>)
    requires PassesNothing(cells, location, size, passed)
    ensures LowestFree(cells, location, size, passed) == LowestFree(cells, location, size, {})
  {
    var pick := LowestFree(cells, location, size, passed);
    if pick.Some? {
      LowestIs(cells, location, size, {}, pick.value);
    }
  }

  /** With one time and nothing passed over, it is `CreateCellSelection`. */
  lemma {:induction false} SelectPastNothing(s: State, ask: Stage)
    requires ask.SelectInserted? && ask.cleanedAt == ask.at
    requires PassesNothing(Cleaned(s, ask.at).cells, ask.location, ask.size, ask.passed)
    ensures SelectPast(s, ask) == Apply(s, Event(ask.at, CreateCellSelection(ask.location, ask.size, ask.selectionId)))
  {
    var pick := LowestFree(Cleaned(s, ask.at).cells, ask.location, ask.size, {});
    SamePick(Cleaned(s, ask.at).cells, ask.location, ask.size, ask.passed);
    if ask.location !in s.locations || pick.None? || FindSelection(s.sessions, ask.selectionId).Some? {
      SelectionRefused(s, ask.at, ask.location, ask.size, ask.selectionId);
    } else {
      SelectionApplied(s, ask.at, ask.location, ask.size, ask.selectionId, pick.value);
    }
  }

  /** The pick at commit: the transaction's cell is still the lowest-numbered one of the size and place it
      asked for, among those it did not pass over. */
  lemma {:induction false} PickStands(db: State, tx: Tx)
    requires TxOk(db, tx) && tx.stage.SelectInserted? && FreesReserved(db, tx.stage) && MissesNone(db, tx.stage)
    ensures var g := tx.stage; LowestFree(Cleaned(db, g.cleanedAt).cells, g.location, g.size, g.passed) == Some(g.cell)
  {
    var g := tx.stage;
    WholeExpiry(db, tx);
    var cells := FreeCells(db.cells, g.freed);
    assert Cleaned(db, g.cleanedAt).cells == cells;
    assert Selectable(cells[g.cell], g.location, g.size);
    forall d: nat | d < |cells| && d !in g.passed && Selectable(cells[d], g.location, g.size)
      ensures Before(cells, g.cell, d)
    {
      assert Fits(db.cells[d], g.location, g.size);
      assert Before(db.cells, g.cell, d);
    }
    LowestIs(cells, g.location, g.size, g.passed, g.cell);
  }

  /** A committed selection is a whole cleanup at the time of its first statement followed by taking its
      cell if and only if that cleanup missed no session stale at its time and left none of its cells
      reserved. */
  lemma {:induction false} SelectionIsOperation(w: World, id: nat)
    requires Inv(w) && StepCommit(w, id).Some? && w.txs[id].stage.SelectInserted?
    ensures var g := w.txs[id].stage;
            StepCommit(w, id).value.db == SelectPast(w.db, g) <==> MissesNone(w.db, g) && FreesReserved(w.db, g)
  {
    var db, tx, g := w.db, w.txs[id], w.txs[id].stage;
    assert TxOk(db, tx);
    if !MissesNone(db, g) {
      StaleLeft(db, tx);
    } else if !FreesReserved(db, g) {
      ReservedLeft(db, tx);
    } else {
      CommitIsAtomic(db, tx);
      WholeExpiry(db, tx);
      PickStands(db, tx);
    }
  }

  /** A session the cleanup missed is still selected after the commit, and no whole cleanup leaves it so. */
  lemma {:induction false} StaleLeft(db: State, tx: Tx)
    requires TxOk(db, tx) && tx.stage.SelectInserted? && !MissesNone(db, tx.stage)
    ensures View(db, tx) != SelectPast(db, tx.stage)
  {
    var i := MissedRow(db, tx);
    StaleShows(db, View(db, tx), tx.stage, i);
  }

  lemma {:induction false} MissedRow(db: State, tx: Tx) returns (i: nat)
    requires TxOk(db, tx) && tx.stage.SelectInserted? && !MissesNone(db, tx.stage)
    ensures i < |db.sessions| && Stale(db.sessions[i], tx.stage.cleanedAt)
    ensures |View(db, tx).sessions| == |db.sessions| + 1 && View(db, tx).sessions[i] == db.sessions[i]
  {
    i :| 0 <= i < |db.sessions| && Stale(db.sessions[i], tx.stage.cleanedAt) && i !in tx.stage.expired;
  }

  lemma {:induction false} StaleShows(db: State, v: State, g: Stage, i: nat)
    requires g.SelectInserted? && i < |db.sessions| && Stale(db.sessions[i], g.cleanedAt)
    requires |v.sessions| == |db.sessions| + 1 && v.sessions[i] == db.sessions[i]
    ensures v != SelectPast(db, g)
  {
    CleanedRows(db, g.cleanedAt);
    assert Cleaned(db, g.cleanedAt).sessions[i] == ExpiredIf(db.sessions[i], g.cleanedAt);
  }

  /** A cell of an expired session that came to be reserved again stays so at the commit, and a whole cleanup
      frees it. */
  lemma {:induction false} ReservedLeft(db: State, tx: Tx)
    requires TxOk(db, tx) && tx.stage.SelectInserted? && !FreesReserved(db, tx.stage)
    ensures View(db, tx) != SelectPast(db, tx.stage)
  {
    var i := ExpiredOnReserved(db, tx);
    StillReserved(db, tx, db.sessions[i].cell);
    FreedCellShows(db, View(db, tx), tx.stage, i);
  }

  lemma {:induction false} ExpiredOnReserved(db: State, tx: Tx) returns (i: nat)
    requires TxOk(db, tx) && tx.stage.SelectInserted? && !FreesReserved(db, tx.stage)
    ensures i < |db.sessions| && OnReserved(db, i) && Stale(db.sessions[i], tx.stage.cleanedAt)
    ensures db.sessions[i].cell !in tx.stage.freed
  {
    var g := tx.stage;
    i :| i in g.expired && i < |db.sessions| && OnReserved(db, i) && db.sessions[i].cell !in g.freed;
    assert Allowed(db, Expire(g.expired, g.freed, g.cleanedAt));
  }

  lemma {:induction false} CleanupFrees(db: State, i: nat, at: Time)
    requires i < |db.sessions| && OnReserved(db, i) && Stale(db.sessions[i], at)
    ensures var m := Cleaned(db, at);
            |m.sessions| == |db.sessions| && |m.cells| == |db.cells| && m.cells[db.sessions[i].cell].status == Free
  {
    CleanedRows(db, at);
    assert HasStale(db.sessions, db.sessions[i].cell, at);
  }

  lemma {:induction false} StillReserved(db: State, tx: Tx, c: nat)
    requires TxOk(db, tx) && tx.stage.SelectInserted?
    requires c < |db.cells| && c !in tx.stage.freed && db.cells[c].status == Reserved
    ensures View(db, tx).cells[c].status == Reserved && |View(db, tx).sessions| == |db.sessions| + 1
    ensures View(db, tx).sessions[|db.sessions|].cell == tx.stage.cell != c
  {
  }

  /** A whole cleanup frees that cell, and reserving another leaves it so. */
  lemma {:induction false} FreedCellShows(db: State, v: State, g: Stage, i: nat)
    requires g.SelectInserted? && i < |db.sessions| && OnReserved(db, i) && Stale(db.sessions[i], g.cleanedAt)
    requires db.sessions[i].cell < |v.cells| && v.cells[db.sessions[i].cell].status == Reserved
    requires |v.sessions| == |db.sessions| + 1 && v.sessions[|db.sessions|].cell != db.sessions[i].cell
    ensures v != SelectPast(db, g)
  {
    var pick := LowestFree(Cleaned(db, g.cleanedAt).cells, g.location, g.size, g.passed);
    if pick.Some? {
      CleanupFrees(db, i, g.cleanedAt);
      OtherReserved(Cleaned(db, g.cleanedAt), v, db.sessions[i].cell, pick.value, g.selectionId, g.at);
    }
  }

  lemma {:induction false} OtherReserved(m: State, v: State, c: nat, d: nat, sel: Id, at: Time)
    requires c < |m.cells| && c < |v.cells| && m.cells[c].status == Free && v.cells[c].status == Reserved
    requires d < |m.cells| && |v.sessions| == |m.sessions| + 1 && v.sessions[|m.sessions|].cell != c
    ensures v != Do(m, Reserve(d, sel, at))
  {
    var r := Do(m, Reserve(d, sel, at));
    assert r.sessions[|m.sessions|].cell == d;
  }

  /** A cleanup comes to miss a session that was inserted before it and is committed only after it, when that
      session's hold had ended already. */
  lemma {:induction false} LateCommitIsMissed(w: World, j: nat, k: nat)
    requires Inv(w) && j in w.txs && k in w.txs && j != k && w.txs[j].stage.SelectInserted?
    requires HasCleaned(w.txs[k].stage)
    requires w.txs[j].stage.at + HOLD < w.txs[k].stage.cleanedAt
    ensures !MissesNone(StepCommit(w, j).value.db, w.txs[k].stage)
  {
    assert TxOk(w.db, w.txs[j]) && TxOk(w.db, w.txs[k]);
    var db' := StepCommit(w, j).value.db;
    var i := |w.db.sessions|;
    assert |db'.sessions| == i + 1 && Stale(db'.sessions[i], w.txs[k].stage.cleanedAt);
    assert i !in w.txs[k].stage.expired;
  }

  /** A selection whose cleanup was not whole is no `CreateCellSelection` of any instant, request or id. */
  lemma {:induction false} NoSelection(w: World, id: nat)
    requires Inv(w) && StepCommit(w, id).Some? && w.txs[id].stage.SelectInserted?
    requires !MissesNone(w.db, w.txs[id].stage) || !FreesReserved(w.db, w.txs[id].stage)
    requires w.txs[id].stage.cleanedAt <= w.txs[id].stage.at
    ensures forall at, l, z, sel :: StepCommit(w, id).value.db != Apply(w.db, Event(at, CreateCellSelection(l, z, sel)))
  {
    assert TxOk(w.db, w.txs[id]);
    forall at, l, z, sel
      ensures View(w.db, w.txs[id]) != Apply(w.db, Event(at, CreateCellSelection(l, z, sel)))
    {
      if !MissesNone(w.db, w.txs[id].stage) {
        MissedIsNoSelection(w.db, w.txs[id], at, l, z, sel);
      } else {
        ReservedIsNoSelection(w.db, w.txs[id], at, l, z, sel);
      }
    }
  }

  lemma {:induction false} MissedIsNoSelection(db: State, tx: Tx, at: Time, location: int, size: Size, sel: Id)
    requires TxOk(db, tx) && tx.stage.SelectInserted? && tx.stage.cleanedAt <= tx.stage.at
    requires !MissesNone(db, tx.stage)
    ensures View(db, tx) != Apply(db, Event(at, CreateCellSelection(location, size, sel)))
  {
    var i := MissedRow(db, tx);
    assert View(db, tx).sessions[|db.sessions|].createdAt == tx.stage.at;
    StaleKept(db, View(db, tx), i, at, location, size, sel);
  }

  lemma {:induction false} ReservedIsNoSelection(db: State, tx: Tx, at: Time, location: int, size: Size, sel: Id)
    requires TxOk(db, tx) && tx.stage.SelectInserted? && tx.stage.cleanedAt <= tx.stage.at
    requires !FreesReserved(db, tx.stage)
    ensures View(db, tx) != Apply(db, Event(at, CreateCellSelection(location, size, sel)))
  {
    var i := ExpiredOnReserved(db, tx);
    StillReserved(db, tx, db.sessions[i].cell);
    assert View(db, tx).sessions[|db.sessions|].createdAt == tx.stage.at;
    ReservedKept(db, View(db, tx), i, at, location, size, sel);
  }

  lemma {:induction false} ReservedKept(db: State, v: State, i: nat, at: Time, location: int, size: Size, sel: Id)
    requires |v.sessions| == |db.sessions| + 1 && i < |db.sessions| && OnReserved(db, i)
    requires Stale(db.sessions[i], v.sessions[|db.sessions|].createdAt)
    requires db.sessions[i].cell < |v.cells| && v.cells[db.sessions[i].cell].status == Reserved
    requires v.sessions[|db.sessions|].cell != db.sessions[i].cell
    ensures v != Apply(db, Event(at, CreateCellSelection(location, size, sel)))
  {
    var m := Cleaned(db, at);
    var pick := LowestFree(m.cells, location, size, {});
    if location !in db.locations || pick.None? || FindSelection(db.sessions, sel).Some? {
      SelectionRefused(db, at, location, size, sel);
    } else if at == v.sessions[|db.sessions|].createdAt {
      SelectionApplied(db, at, location, size, sel, pick.value);
      CleanupFrees(db, i, at);
      OtherReserved(m, v, db.sessions[i].cell, pick.value, sel, at);
    } else {
      SelectionApplied(db, at, location, size, sel, pick.value);
      CleanedRows(db, at);
      assert Do(m, Reserve(pick.value, sel, at)).sessions[|db.sessions|].createdAt == at;
    }
  }

  lemma {:induction false} StaleKept(db: State, v: State, i: nat, at: Time, location: int, size: Size, sel: Id)
    requires |v.sessions| == |db.sessions| + 1 && i < |db.sessions| && v.sessions[i] == db.sessions[i]
    requires Stale(db.sessions[i], v.sessions[|db.sessions|].createdAt)
    ensures v != Apply(db, Event(at, CreateCellSelection(location, size, sel)))
  {
    var pick := LowestFree(Cleaned(db, at).cells, location, size, {});
    if location !in db.locations || pick.None? || FindSelection(db.sessions, sel).Some? {
      SelectionRefused(db, at, location, size, sel);
    } else {
      SelectionApplied(db, at, location, size, sel, pick.value);
      CleanedRows(db, at);
      StaleGone(db, Cleaned(db, at), v, i, at, pick.value, sel);
    }
  }

  lemma {:induction false} StaleGone(db: State, m: State, v: State, i: nat, at: Time, c: nat, sel: Id)
    requires |v.sessions| == |db.sessions| + 1 && i < |db.sessions| && v.sessions[i] == db.sessions[i]
    requires Stale(db.sessions[i], v.sessions[|db.sessions|].createdAt)
    requires IsCleaned(db, m, at) && c < |m.cells|
    ensures v != Do(m, Reserve(c, sel, at))
  {
    assert m.sessions[i] == ExpiredIf(db.sessions[i], at);
  }

  /** Nothing passed over and no clock movement: the committed selection is `CreateCellSelection` itself, for
      the transaction's own request, under the same condition. */
  lemma {:induction false} UncontendedSelection(w: World, id: nat)
    requires Inv(w) && StepCommit(w, id).Some? && w.txs[id].stage.SelectInserted?
    requires w.txs[id].stage.cleanedAt == w.txs[id].stage.at
    requires var g := w.txs[id].stage; PassesNothing(Cleaned(w.db, g.at).cells, g.location, g.size, g.passed)
    ensures var g := w.txs[id].stage;
            var whole := Apply(w.db, Event(g.at, CreateCellSelection(g.location, g.size, g.selectionId)));
            StepCommit(w, id).value.db == whole <==> MissesNone(w.db, g) && FreesReserved(w.db, g)
  {
    SelectionIsOperation(w, id);
    SelectPastNothing(w.db, w.txs[id].stage);
  }

  /** A committed booking is `CreateBooking`, at some instant and for some request, if and only if it was
      written by the end of its hold; and then it is so at the time it was written, for its own request. */
  lemma {:induction false} BookingIsOperation(w: World, id: nat)
    requires Inv(w) && StepCommit(w, id).Some? && w.txs[id].stage.BookWritten?
    ensures w.txs[id].stage.row < |w.db.sessions|
    ensures var g := w.txs[id].stage;
            g.at <= w.db.sessions[g.row].hold ==>
              StepCommit(w, id).value.db == Apply(w.db, Event(g.at, CreateBooking(g.location, g.selectionId, g.ticket)))
              && Answer(w.db, Event(g.at, CreateBooking(g.location, g.selectionId, g.ticket))).Booked?
    ensures var g := w.txs[id].stage;
            (exists at, l, sel, t :: StepCommit(w, id).value.db == Apply(w.db, Event(at, CreateBooking(l, sel, t))))
            <==> g.at <= w.db.sessions[g.row].hold
  {
    var g := w.txs[id].stage;
    assert TxOk(w.db, w.txs[id]);
    CommitIsAtomic(w.db, w.txs[id]);
    var db' := StepCommit(w, id).value.db;
    if g.at <= w.db.sessions[g.row].hold {
      SelectionUnique(w.db, g.row);
      BookingApplied(w.db, g.at, g.location, g.selectionId, g.ticket, g.row);
    }
    forall at, l, sel, t | db' == Apply(w.db, Event(at, CreateBooking(l, sel, t)))
      ensures g.at <= w.db.sessions[g.row].hold
    {
      OnlyInTime(w.db, g.row, g.checkedAt, g.at, g.ticket, at, l, sel, t);
    }
  }

  lemma {:induction false} OnlyInTime(db: State, i: nat, checkedAt: Time, written: Time, ticket: Ticket, at: Time,
                                      l: int, sel: Id, t: Ticket)
    requires i < |db.sessions|
    requires Do(db, Book(i, checkedAt, written, ticket)) == Apply(db, Event(at, CreateBooking(l, sel, t)))
    ensures written <= db.sessions[i].hold
  {
    var db' := Do(db, Book(i, checkedAt, written, ticket));
    var row := Bookable(db, l, sel, at);
    assert |db'.payments| == |db.payments| + 1;
    if row.None? || !FreshTicket(db, t) {
      BookingRefused(db, at, l, sel, t);
    }
    BookingApplied(db, at, l, sel, t, row.value);
    assert db'.payments[|db.payments|] == NewPayment(i, ticket, written) == NewPayment(row.value, t, at);
  }

  /** A finish is `FinishRental` at the time it closes the session. */
  lemma {:induction false} FinishIsOperation(w: World, id: nat)
    requires Inv(w) && StepCommit(w, id).Some? && w.txs[id].stage.FinishFreed?
    ensures var g := w.txs[id].stage;
            StepCommit(w, id).value.db == Apply(w.db, Event(g.at, FinishRental(g.rentalId)))
            && Answer(w.db, Event(g.at, FinishRental(g.rentalId))) == Finished(g.rentalId, g.at)
  {
    assert TxOk(w.db, w.txs[id]);
    CommitIsAtomic(w.db, w.txs[id]);
    RentalUnique(w.db, w.txs[id].stage.row);
  }

  /** An admin update is `UpdateLockerStatus` when it is made if and only if the panel's check still passes
      then, or the cell has that status already. */
  lemma {:induction false} AdminIsOperation(w: World, id: nat)
    requires Inv(w) && StepAdminUpdate(w, id).Some?
    ensures var g := w.txs[id].stage;
            g.cell < |w.db.cells|
            && (StepAdminUpdate(w, id).value.db == Apply(w.db, Event(w.now, UpdateLockerStatus(g.cell, g.status)))
                <==> !PanelRefuses(w.db, g.cell, g.status) || w.db.cells[g.cell].status == g.status)
  {
    var g := w.txs[id].stage;
    assert TxOk(w.db, w.txs[id]);
    StatusApplied(w.db, w.now, g.cell, g.status);
    if w.db.cells[g.cell].status == g.status {
      assert WithStatus(w.db.cells, g.cell, g.status) == w.db.cells;
    }
  }
}
