/** Interleavings as sequences of whole operations. */
module Refinement {
  import opened Tables
  import opened Operations
  import opened Interleaving
  import opened Concurrency

  /** A whole operation; a selection that passes over the cells others have locked, for the request and the
      times recorded in its stage; or one statement of `OpenRental`, `CheckAccessCode` or `GetPayment`. */
  datatype Atom = Whole(event: Event) | Selection(ask: Stage) | Piece(effect: Effect)

  function DoAtom(s: State, a: Atom): State {
    match a
    case Whole(e) => Apply(s, e)
    case Selection(ask) => if ask.SelectInserted? then SelectPast(s, ask) else s
    case Piece(e) => Do(s, e)
  }

  function DoAtoms(s: State, atoms: seq<Atom>): State
    decreases |atoms|
  {
    if atoms == [] then s else DoAtoms(DoAtom(s, atoms[0]), atoms[1..])
  }

  /** The atom is no refusal: an operation that succeeds, a selection that finds its cell free. */
  predicate Succeeds(s: State, a: Atom) {
    match a
    case Whole(e) => var r := Answer(s, e); r.Booked? || r.Finished? || r.StatusChanged? || r.Done?
    case Selection(ask) =>
      ask.SelectInserted? && ask.location in s.locations && FindSelection(s.sessions, ask.selectionId).None?
      && LowestFree(Cleaned(s, ask.cleanedAt).cells, ask.location, ask.size, ask.passed) == Some(ask.cell)
    case Piece(e) => e.Refresh? || e.Stamp?
  }

  predicate AllSucceed(s: State, atoms: seq<Atom>)
    decreases |atoms|
  {
    atoms == [] || (Succeeds(s, atoms[0]) && AllSucceed(DoAtom(s, atoms[0]), atoms[1..]))
  }

  /** The atom a finished transaction stands for. */
  function CommitAtom(stage: Stage): seq<Atom> {
    match stage
    case SelectInserted(_, _, _, _, _, _, _, _, _) => [Selection(stage)]
    case BookWritten(location, selectionId, _, _, at, ticket) =>
      [Whole(Event(at, CreateBooking(location, selectionId, ticket)))]
    case FinishFreed(rentalId, _, at) => [Whole(Event(at, FinishRental(rentalId)))]
    case _ => []
  }

  /** What a step adds: the operation it completes, the piece it is, or nothing. */
  function AtomsOf(w: World, l: Label): seq<Atom> {
    if l.CleanupTick? then [Whole(Event(w.now, CleanupExpired))]
    else if IsStatement(l) then (if Statement(w, l).Nop? then [] else [Piece(Statement(w, l))])
    else if l.Commit? && l.id in w.txs then CommitAtom(w.txs[l.id].stage)
    else if l.AdminUpdate? && l.id in w.txs && w.txs[l.id].stage.AdminChecked?
      then [Whole(Event(w.now, UpdateLockerStatus(w.txs[l.id].stage.cell, w.txs[l.id].stage.status)))]
    else []
  }

  function Atoms(w: World, ls: seq<Label>): seq<Atom>
    decreases |ls|
  {
    if ls == [] || Step(w, ls[0]).None? then [] else AtomsOf(w, ls[0]) + Atoms(Step(w, ls[0]).value, ls[1..])
  }

  /** What a request was granted on still holds when it is carried out: a booking is written by the end of
      its hold, and the panel's check still passes at its update. */
  predicate GrantStands(w: World, l: Label) {
    (l.Commit? && l.id in w.txs && w.txs[l.id].stage.BookWritten? && w.txs[l.id].stage.row < |w.db.sessions|
     ==> w.txs[l.id].stage.at <= w.db.sessions[w.txs[l.id].stage.row].hold)
    && (l.AdminUpdate? && l.id in w.txs && w.txs[l.id].stage.AdminChecked?
        ==> !PanelRefuses(w.db, w.txs[l.id].stage.cell, w.txs[l.id].stage.status))
  }

  /** And the cleanup of a selection that commits missed no stale session and left none of its cells reserved. */
  ghost predicate WholeStep(w: World, l: Label) {
    GrantStands(w, l)
    && (l.Commit? && l.id in w.txs && w.txs[l.id].stage.SelectInserted?
        ==> MissesNone(w.db, w.txs[l.id].stage) && FreesReserved(w.db, w.txs[l.id].stage))
  }

  ghost predicate WholeSteps(w: World, ls: seq<Label>)
    decreases |ls|
  {
    ls == [] || (WholeStep(w, ls[0]) && (Step(w, ls[0]).Some? ==> WholeSteps(Step(w, ls[0]).value, ls[1..])))
  }

  /** The step does to the committed database what its atoms do, and none of them is refused. */
  predicate IsItsAtoms(w: World, l: Label) {
    Step(w, l).Some? && Step(w, l).value.db == DoAtoms(w.db, AtomsOf(w, l)) && AllSucceed(w.db, AtomsOf(w, l))
  }

  predicate AtomicAlong(w: World, ls: seq<Label>)
    decreases |ls|
  {
    ls == [] || (IsItsAtoms(w, ls[0]) && AtomicAlong(Step(w, ls[0]).value, ls[1..]))
  }

  lemma {:induction false} Compose(s: State, a: seq<Atom>, b: seq<Atom>)
    ensures DoAtoms(s, a + b) == DoAtoms(DoAtoms(s, a), b)
    ensures AllSucceed(s, a + b) <==> AllSucceed(s, a) && AllSucceed(DoAtoms(s, a), b)
    decreases |a|
  {
    if a == [] {
      assert a + b == b;
    } else {
      assert (a + b)[1..] == a[1..] + b;
      Compose(DoAtom(s, a[0]), a[1..], b);
    }
  }

  lemma {:induction false} OneAtom(s: State, a: Atom)
    ensures DoAtoms(s, [a]) == DoAtom(s, a) && (AllSucceed(s, [a]) <==> Succeeds(s, a))
  {
    assert [a][1..] == [];
    assert DoAtoms(s, [a]) == DoAtoms(DoAtom(s, a), []);
    assert AllSucceed(s, [a]) <==> Succeeds(s, a) && AllSucceed(DoAtom(s, a), []);
  }

  /** A single atom does what it does. */
  lemma {:induction false} OneAtomStep(w: World, l: Label, a: Atom)
    requires Step(w, l).Some? && AtomsOf(w, l) == [a]
    ensures IsItsAtoms(w, l) <==> Step(w, l).value.db == DoAtom(w.db, a) && Succeeds(w.db, a)
  {
    OneAtom(w.db, a);
  }

  lemma {:induction false} SelectionIsAtom(w: World, id: nat)
    requires Inv(w) && StepCommit(w, id).Some? && w.txs[id].stage.SelectInserted?
    ensures var a := Selection(w.txs[id].stage);
            StepCommit(w, id).value.db == DoAtom(w.db, a) && Succeeds(w.db, a) <==> WholeStep(w, Commit(id))
  {
    assert TxOk(w.db, w.txs[id]);
    SelectionIsOperation(w, id);
    if WholeStep(w, Commit(id)) {
      PickStands(w.db, w.txs[id]);
    }
  }

  lemma {:induction false} BookingIsAtom(w: World, id: nat)
    requires Inv(w) && StepCommit(w, id).Some? && w.txs[id].stage.BookWritten?
    ensures var g := w.txs[id].stage;
            var a := Whole(Event(g.at, CreateBooking(g.location, g.selectionId, g.ticket)));
            StepCommit(w, id).value.db == DoAtom(w.db, a) && Succeeds(w.db, a) <==> WholeStep(w, Commit(id))
  {
    BookingIsOperation(w, id);
  }

  lemma {:induction false} FinishIsAtom(w: World, id: nat)
    requires Inv(w) && StepCommit(w, id).Some? && w.txs[id].stage.FinishFreed?
    ensures var g := w.txs[id].stage;
            var a := Whole(Event(g.at, FinishRental(g.rentalId)));
            StepCommit(w, id).value.db == DoAtom(w.db, a) && Succeeds(w.db, a)
  {
    FinishIsOperation(w, id);
  }

  lemma {:induction false} CommitAtoms(w: World, id: nat)
    requires StepCommit(w, id).Some?
    ensures Step(w, Commit(id)) == StepCommit(w, id) && AtomsOf(w, Commit(id)) == CommitAtom(w.txs[id].stage)
    ensures |CommitAtom(w.txs[id].stage)| == 1
  {
  }

  lemma {:induction false} CommitIsAtom(w: World, id: nat)
    requires Inv(w) && StepCommit(w, id).Some?
    ensures IsItsAtoms(w, Commit(id)) <==> WholeStep(w, Commit(id))
  {
    CommitAtoms(w, id);
    var a := CommitAtom(w.txs[id].stage)[0];
    OneAtomStep(w, Commit(id), a);
    assert StepCommit(w, id).value.db == DoAtom(w.db, a) && Succeeds(w.db, a) <==> WholeStep(w, Commit(id)) by {
      CommitIsOneAtom(w, id);
    }
  }

  lemma {:induction false} CommitIsOneAtom(w: World, id: nat)
    requires Inv(w) && StepCommit(w, id).Some? && |CommitAtom(w.txs[id].stage)| == 1
    ensures var a := CommitAtom(w.txs[id].stage)[0];
            StepCommit(w, id).value.db == DoAtom(w.db, a) && Succeeds(w.db, a) <==> WholeStep(w, Commit(id))
  {
    if w.txs[id].stage.SelectInserted? {
      SelectionIsAtom(w, id);
    } else if w.txs[id].stage.BookWritten? {
      BookingIsAtom(w, id);
    } else {
      FinishIsAtom(w, id);
    }
  }

  lemma {:induction false} AdminIsAtom(w: World, id: nat)
    requires Inv(w) && StepAdminUpdate(w, id).Some?
    ensures IsItsAtoms(w, AdminUpdate(id)) <==> WholeStep(w, AdminUpdate(id))
  {
    var g := w.txs[id].stage;
    var a := Whole(Event(w.now, UpdateLockerStatus(g.cell, g.status)));
    assert AtomsOf(w, AdminUpdate(id)) == [a] && Step(w, AdminUpdate(id)) == StepAdminUpdate(w, id);
    AdminIsOneAtom(w, id);
    OneAtomStep(w, AdminUpdate(id), a);
  }

  lemma {:induction false} AdminIsOneAtom(w: World, id: nat)
    requires Inv(w) && StepAdminUpdate(w, id).Some?
    ensures var g := w.txs[id].stage;
            var a := Whole(Event(w.now, UpdateLockerStatus(g.cell, g.status)));
            StepAdminUpdate(w, id).value.db == DoAtom(w.db, a) && Succeeds(w.db, a) <==> WholeStep(w, AdminUpdate(id))
  {
    var g := w.txs[id].stage;
    AdminIsOperation(w, id);
    StatusApplied(w.db, w.now, g.cell, g.status);
  }

  lemma {:induction false} PieceIsAtom(w: World, l: Label)
    requires StepStatement(w, l).Some? && (l.RefreshStatement? || l.StampStatement?)
    ensures IsItsAtoms(w, l)
  {
    OneAtom(w.db, Piece(Statement(w, l)));
  }

  lemma {:induction false} TickIsAtom(w: World)
    requires Step(w, CleanupTick).Some?
    ensures IsItsAtoms(w, CleanupTick)
  {
    CleanupApplied(w.db, w.now);
    OneAtomStep(w, CleanupTick, Whole(Event(w.now, CleanupExpired)));
  }

  lemma {:induction false} QuietStep(w: World, l: Label)
    requires Step(w, l).Some? && !l.Commit? && !IsStatement(l) && !l.AdminUpdate?
    ensures IsItsAtoms(w, l) && WholeStep(w, l)
  {
    NothingCommitted(w, l);
  }

  /** A step does what the operation it completes does, unrefused, if and only if it is a whole step. */
  lemma {:induction false} StepIsAtom(w: World, l: Label)
    requires Inv(w) && Step(w, l).Some?
    ensures IsItsAtoms(w, l) <==> WholeStep(w, l)
  {
    match l
    case Commit(id) => CommitIsAtom(w, id);
    case AdminUpdate(id) => AdminIsAtom(w, id);
    case CleanupTick => TickIsAtom(w);
    case RefreshStatement(_) => PieceIsAtom(w, l);
    case StampStatement(_) => PieceIsAtom(w, l);
    case _ => QuietStep(w, l);
  }

  // ---------------------------------------------------------------- requests

  datatype Request =
    | SelectRequest(location: int, size: Size)
    | BookRequest(location: int, selectionId: Id)
    | FinishRequest(rentalId: Id)
    | AdminRequest(cell: nat, status: CellStatus)

  function RequestOf(stage: Stage): Request {
    if stage.BookLocked? || stage.BookDecided? || stage.BookWritten? then BookRequest(stage.location, stage.selectionId)
    else if stage.FinishLocked? || stage.FinishClosed? || stage.FinishFreed? then FinishRequest(stage.rentalId)
    else if stage.AdminChecked? then AdminRequest(stage.cell, stage.status)
    else SelectRequest(stage.location, stage.size)
  }

  /** What the label that begins a transaction asks for. */
  function Asks(l: Label): Option<(nat, Request)> {
    match l
    case BeginSelect(id, location, size) => Some((id, SelectRequest(location, size)))
    case LockBooking(id, location, selectionId) => Some((id, BookRequest(location, selectionId)))
    case LockRental(id, rentalId) => Some((id, FinishRequest(rentalId)))
    case AdminCheck(id, c, status) => Some((id, AdminRequest(c, status)))
    case _ => None
  }

  /** A transaction begins with the request of its first label and keeps it to its commit. */
  lemma {:induction false} RequestKept(w: World, l: Label, j: nat)
    requires Step(w, l).Some? && j in Step(w, l).value.txs
    ensures j in w.txs ==> RequestOf(Step(w, l).value.txs[j].stage) == RequestOf(w.txs[j].stage)
    ensures j !in w.txs ==> Asks(l) == Some((j, RequestOf(Step(w, l).value.txs[j].stage)))
  {
    if l.CleanStatement? || l.PickCell? {
      PickingStep(w, l, j);
    } else if l.ReserveCell? || l.InsertSession? {
      TakingStep(w, l, j);
    } else if l.DecideBooking? || l.WriteBooking? || l.CloseRental? || l.FreeCell? {
      LaterStep(w, l, j);
    } else if l.BeginSelect? || l.LockBooking? || l.LockRental? || l.AdminCheck? {
      FirstStep(w, l, j);
    }
  }

  lemma {:induction false} PickingStep(w: World, l: Label, j: nat)
    requires l.CleanStatement? || l.PickCell?
    requires Step(w, l).Some? && j in Step(w, l).value.txs
    ensures j in w.txs && RequestOf(Step(w, l).value.txs[j].stage) == RequestOf(w.txs[j].stage)
  {
    if l.CleanStatement? {
      CleaningAsks(w, l.id);
    } else {
      PickingAsks(w, l.id);
    }
  }

  lemma {:induction false} CleaningAsks(w: World, id: nat)
    requires StepClean(w, id).Some?
    ensures id in w.txs && StepClean(w, id) == Some(Put(w, id, StepClean(w, id).value.txs[id]))
    ensures RequestOf(StepClean(w, id).value.txs[id].stage) == RequestOf(w.txs[id].stage)
  {
  }

  lemma {:induction false} PickingAsks(w: World, id: nat)
    requires StepPick(w, id).Some?
    ensures id in w.txs && StepPick(w, id) == Some(Put(w, id, StepPick(w, id).value.txs[id]))
    ensures RequestOf(StepPick(w, id).value.txs[id].stage) == RequestOf(w.txs[id].stage)
  {
  }

  lemma {:induction false} TakingStep(w: World, l: Label, j: nat)
    requires l.ReserveCell? || l.InsertSession?
    requires Step(w, l).Some? && j in Step(w, l).value.txs
    ensures j in w.txs && RequestOf(Step(w, l).value.txs[j].stage) == RequestOf(w.txs[j].stage)
  {
    match l
    case ReserveCell(_) =>
    case InsertSession(_, _) =>
  }

  lemma {:induction false} LaterStep(w: World, l: Label, j: nat)
    requires l.DecideBooking? || l.WriteBooking? || l.CloseRental? || l.FreeCell?
    requires Step(w, l).Some? && j in Step(w, l).value.txs
    ensures j in w.txs && RequestOf(Step(w, l).value.txs[j].stage) == RequestOf(w.txs[j].stage)
  {
    match l
    case DecideBooking(_) =>
    case WriteBooking(_, _) =>
    case CloseRental(_) =>
    case FreeCell(_) =>
  }

  lemma {:induction false} FirstStep(w: World, l: Label, j: nat)
    requires l.BeginSelect? || l.LockBooking? || l.LockRental? || l.AdminCheck?
    requires Step(w, l).Some? && j in Step(w, l).value.txs
    ensures j in w.txs ==> Step(w, l).value.txs[j] == w.txs[j]
    ensures j !in w.txs ==> Asks(l) == Some((j, RequestOf(Step(w, l).value.txs[j].stage)))
  {
  }

  // ---------------------------------------------------------------- the theorem

  /** Every step of an interleaving is the operation it completes, for the request its transaction began with,
      if and only if every step is whole; and then the interleaving does exactly what the sequence of those
      operations does, in commit order, none of them refused. */
  lemma {:induction false} InterleavingIsOperations(w: World, ls: seq<Label>)
    requires Inv(w) && Steps(w, ls).Some?
    ensures AtomicAlong(w, ls) <==> WholeSteps(w, ls)
    ensures WholeSteps(w, ls) ==>
              Steps(w, ls).value.db == DoAtoms(w.db, Atoms(w, ls)) && AllSucceed(w.db, Atoms(w, ls))
    decreases |ls|
  {
    if ls == [] {
    } else {
      var w' := Step(w, ls[0]).value;
      StepIsAtom(w, ls[0]);
      StepKeeps(w, ls[0]);
      if WholeStep(w, ls[0]) {
        InterleavingIsOperations(w', ls[1..]);
        Compose(w.db, AtomsOf(w, ls[0]), Atoms(w', ls[1..]));
      }
    }
  }

  predicate GrantsStand(w: World, ls: seq<Label>)
    decreases |ls|
  {
    ls == [] || (GrantStands(w, ls[0]) && (Step(w, ls[0]).Some? ==> GrantsStand(Step(w, ls[0]).value, ls[1..])))
  }

  /** Steps are whole as long as the interleaving is coherent, no selection outlives its own hold before it
      commits, and what requests were granted on still holds when they are carried out. */
  lemma {:induction false} PromptIsWhole(w: World, ls: seq<Label>)
    requires Coherent(w) && Timely(w) && Steps(w, ls).Some?
    requires CoherentSteps(w, ls) && PromptSteps(w, ls) && GrantsStand(w, ls)
    ensures WholeSteps(w, ls)
    decreases |ls|
  {
    if ls == [] {
    } else {
      if ls[0].Commit? {
        assert TakesAll(w, w.txs[ls[0].id].stage) && FreesReserved(w.db, w.txs[ls[0].id].stage);
      }
      StepCoherent(w, ls[0]);
      TimelyKept(w, ls[0]);
      PromptIsWhole(Step(w, ls[0]).value, ls[1..]);
    }
  }
}
