/** Who holds a cell.  `lockers.status` is a hand-kept copy of what the sessions say; these are the
    conditions under which each cell has one holder and the copy stays true. */
module Allocation {
  import opened Tables
  import opened Operations
  import opened Traces
  import opened Invariants

  // ---------------------------------------------------------------- one holder per cell

  /** At most one live session per cell, and none on a free cell. */
  ghost predicate OneLive(s: State) {
    (forall i, j :: 0 <= i < j < |s.sessions| && Live(s.sessions[i]) && Live(s.sessions[j])
                    ==> s.sessions[i].cell != s.sessions[j].cell)
    && (forall i :: 0 <= i < |s.sessions| && Live(s.sessions[i])
                    ==> s.sessions[i].cell < |s.cells| && s.cells[s.sessions[i].cell].status != Free)
  }

  /** Someone other than session `i` holds its cell. */
  ghost predicate HeldByOther(s: State, i: nat)
    requires i < |s.sessions|
  {
    exists j :: 0 <= j < |s.sessions| && j != i && s.sessions[j].cell == s.sessions[i].cell && Live(s.sessions[j])
  }

  /** The two hypotheses on an effect: no finish of a rental whose cell is now held by someone else, and no
      freeing of a cell somebody holds. */
  ghost predicate Careful(s: State, e: Effect) {
    (e.Finish? && e.row < |s.sessions| ==> !HeldByOther(s, e.row))
    && (e.SetStatus? && e.status == Free ==> !HasSession(s, e.cell, Selected) && !HasSession(s, e.cell, Active))
  }

  /** The same on an operation of a run.  The admin panel's own check has seen to the active sessions. */
  ghost predicate CarefulEvent(s: State, e: Event) {
    (e.op.FinishRental? ==>
       var row := FindRental(s.sessions, e.op.rentalId); row.Some? ==> !HeldByOther(s, row.value))
    && (e.op.UpdateLockerStatus? && e.op.newStatus == Free ==> !HasSession(s, e.op.cell, Selected))
  }

  ghost predicate CarefulRun(s: State, es: seq<Event>)
    decreases |es|
  {
    es == [] || (CarefulEvent(s, es[0]) && CarefulRun(Apply(s, es[0]), es[1..]))
  }

  ghost predicate OneLiveThroughout(s: State, es: seq<Event>)
    decreases |es|
  {
    OneLive(s) && (es == [] || OneLiveThroughout(Apply(s, es[0]), es[1..]))
  }

  /** Finishing an active rental is always careful. */
  lemma {:induction false} FinishActive(s: State, i: nat)
    requires OneLive(s) && i < |s.sessions| && s.sessions[i].status == Active
    ensures !HeldByOther(s, i)
  {
    assert Live(s.sessions[i]);
  }

  /** One effect keeps a single holder per cell exactly when it is careful. */
  lemma {:induction false} OneLiveExactly(s: State, e: Effect)
    requires SessionsOk(s) && OneLive(s) && Allowed(s, e)
    ensures OneLive(Do(s, e)) <==> Careful(s, e)
  {
    if Careful(s, e) {
      OneLiveKept(s, e);
    } else {
      OneLiveLost(s, e);
    }
  }

  lemma {:induction false} OneLiveKept(s: State, e: Effect)
    requires SessionsOk(s) && OneLive(s) && Allowed(s, e) && Careful(s, e)
    ensures OneLive(Do(s, e))
  {
    var s' := Do(s, e);
    forall i | 0 <= i < |s'.sessions| && Live(s'.sessions[i])
      ensures s'.sessions[i].cell < |s'.cells| && s'.cells[s'.sessions[i].cell].status != Free
    {
      LiveNotFree(s, e, i);
    }
    LiveApart(s, e);
  }

  lemma {:induction false} LiveNotFree(s: State, e: Effect, i: nat)
    requires SessionsOk(s) && OneLive(s) && Allowed(s, e) && Careful(s, e) && i < |Do(s, e).sessions|
    requires Live(Do(s, e).sessions[i])
    ensures Do(s, e).sessions[i].cell < |Do(s, e).cells| && Do(s, e).cells[Do(s, e).sessions[i].cell].status != Free
  {
    var s' := Do(s, e);
    if i < |s.sessions| {
      assert SessionOk(s.cells, s.sessions[i]);
      assert Live(s.sessions[i]) && s'.sessions[i].cell == s.sessions[i].cell;
      if e.Expire? && s.sessions[i].cell in e.freed {
        var j :| j in e.rows && s.sessions[j].cell == s.sessions[i].cell;
        assert Live(s.sessions[j]) && j != i;
      }
    }
  }

  lemma {:induction false} LiveApart(s: State, e: Effect)
    requires SessionsOk(s) && OneLive(s) && Allowed(s, e)
    ensures var xs := Do(s, e).sessions;
            forall i, j :: 0 <= i < j < |xs| && Live(xs[i]) && Live(xs[j]) ==> xs[i].cell != xs[j].cell
  {
    var xs := Do(s, e).sessions;
    forall i | 0 <= i < |s.sessions| && Live(xs[i])
      ensures Live(s.sessions[i]) && xs[i].cell == s.sessions[i].cell
    {
      assert SessionOk(s.cells, s.sessions[i]);
    }
  }

  lemma {:induction false} OneLiveLost(s: State, e: Effect)
    requires SessionsOk(s) && OneLive(s) && Allowed(s, e) && !Careful(s, e)
    ensures !OneLive(Do(s, e))
  {
    var s' := Do(s, e);
    if e.Finish? {
      var j :| 0 <= j < |s.sessions| && j != e.row && s.sessions[j].cell == s.sessions[e.row].cell
          && Live(s.sessions[j]);
      assert Live(s'.sessions[j]) && s'.cells[s'.sessions[j].cell].status == Free;
    } else {
      var j :| 0 <= j < |s.sessions| && s.sessions[j].cell == e.cell && Live(s.sessions[j]);
      assert Live(s'.sessions[j]) && s'.cells[s'.sessions[j].cell].status == Free;
    }
  }

  lemma {:induction false} ApplyOneLive(s: State, e: Event)
    requires SessionsOk(s) && OneLive(s)
    ensures SessionsOk(Apply(s, e))
    ensures OneLive(Apply(s, e)) <==> CarefulEvent(s, e)
  {
    ApplyAdvances(s, e);
    PlanAllowed(s, e);
    PlanCareful(s, e);
    OneLiveTwice(s, Plan(s, e).0, Plan(s, e).1);
  }

  lemma {:induction false} OneLiveTwice(s: State, e: Effect, f: Effect)
    requires SessionsOk(s) && OneLive(s) && Allowed(s, e) && Allowed(Do(s, e), f) && Careful(Do(s, e), f)
    requires Careful(s, e) || f == Nop
    ensures OneLive(Do(Do(s, e), f)) <==> Careful(s, e)
  {
    SessionsOkKept(s, e);
    OneLiveExactly(s, e);
    if Careful(s, e) {
      OneLiveExactly(Do(s, e), f);
    }
  }

  lemma {:induction false} PlanCareful(s: State, e: Event)
    requires SessionsOk(s) && OneLive(s)
    ensures Careful(s, Plan(s, e).0) <==> CarefulEvent(s, e)
    ensures Careful(Do(s, Plan(s, e).0), Plan(s, e).1)
    ensures Careful(s, Plan(s, e).0) || Plan(s, e).1 == Nop
  {
    match e.op
    case UpdateLockerStatus(_, _) => StatusCareful(s, e);
    case CreateCellSelection(_, _, _) =>
    case CreateBooking(_, _, _) =>
    case FinishRental(_) =>
    case _ =>
  }

  lemma {:induction false} StatusCareful(s: State, e: Event)
    requires SessionsOk(s) && OneLive(s) && e.op.UpdateLockerStatus?
    ensures Careful(s, Plan(s, e).0) <==> CarefulEvent(s, e)
    ensures Plan(s, e).1 == Nop
  {
    if HasSession(s, e.op.cell, Selected) {
      var i :| 0 <= i < |s.sessions| && s.sessions[i].cell == e.op.cell && s.sessions[i].status == Selected;
      assert SessionOk(s.cells, s.sessions[i]);
      SelectedAlone(s, i);
    }
  }

  /** A selected session shares its cell with no active one. */
  lemma {:induction false} SelectedAlone(s: State, i: nat)
    requires OneLive(s) && i < |s.sessions| && s.sessions[i].status == Selected
    ensures !HasSession(s, s.sessions[i].cell, Active)
  {
    forall j | 0 <= j < |s.sessions| && j != i && s.sessions[j].cell == s.sessions[i].cell
      ensures !Live(s.sessions[j])
    {
    }
  }

  /** The two hypotheses are exactly what is needed: every database of a run has at most one live
      session per cell and none on a free cell if and only if the run is careful.  Every other admin
      status change is allowed. */
  lemma {:induction false} RunOneLive(s: State, es: seq<Event>)
    requires SessionsOk(s) && OneLive(s)
    ensures OneLiveThroughout(s, es) <==> CarefulRun(s, es)
    ensures CarefulRun(s, es) ==> OneLive(Run(s, es))
    decreases |es|
  {
    if es == [] {
    } else {
      ApplyOneLive(s, es[0]);
      if CarefulEvent(s, es[0]) {
        RunOneLive(Apply(s, es[0]), es[1..]);
      }
    }
  }

  // ---------------------------------------------------------------- the stored status agrees

  /** The status a cell should have, from the sessions alone. */
  ghost function Recomputed(s: State, c: nat): CellStatus {
    if HasSession(s, c, Active) then Occupied else if HasSession(s, c, Selected) then Reserved else Free
  }

  ghost predicate Agrees(s: State) {
    forall c :: 0 <= c < |s.cells| ==> s.cells[c].status == Recomputed(s, c)
  }

  ghost predicate Sound(s: State) {
    SessionsOk(s) && OneLive(s) && Agrees(s)
  }

  predicate OnReserved(s: State, i: nat)
    requires i < |s.sessions|
  {
    s.sessions[i].cell < |s.cells| && s.cells[s.sessions[i].cell].status == Reserved
  }

  /** No admin status change, careful finishes, and a cleanup that frees every reserved
      cell of the sessions it expires. */
  ghost predicate Faithful(s: State, e: Effect) {
    !e.SetStatus? && Careful(s, e)
    && (e.Expire? ==> forall i :: i in e.rows && i < |s.sessions| && OnReserved(s, i) ==> s.sessions[i].cell in e.freed)
  }

  lemma {:induction false} SoundExpire(s: State, rows: set<nat>, freed: set<nat>, at: Time)
    requires Sound(s) && Allowed(s, Expire(rows, freed, at)) && Faithful(s, Expire(rows, freed, at))
    ensures Agrees(Do(s, Expire(rows, freed, at)))
  {
    var s' := Do(s, Expire(rows, freed, at));
    forall c | 0 <= c < |s.cells|
      ensures s'.cells[c].status == Recomputed(s', c)
    {
      if c in freed {
        FreedCell(s, rows, freed, at, c);
      } else {
        KeptCell(s, rows, freed, at, c);
      }
    }
  }

  /** A freed cell has no live session left: its only one expired. */
  lemma {:induction false} FreedCell(s: State, rows: set<nat>, freed: set<nat>, at: Time, c: nat)
    requires OneLive(s) && Allowed(s, Expire(rows, freed, at)) && c in freed
    ensures Recomputed(Do(s, Expire(rows, freed, at)), c) == Free
  {
    var i :| i in rows && s.sessions[i].cell == c;
    assert Live(s.sessions[i]);
    forall j | 0 <= j < |s.sessions| && j != i && s.sessions[j].cell == c
      ensures !Live(s.sessions[j])
    {
    }
  }

  /** In agreement, a selected session's cell is marked reserved. */
  lemma {:induction false} SelectedOnReserved(s: State, i: nat)
    requires Sound(s) && i < |s.sessions| && s.sessions[i].status == Selected
    ensures OnReserved(s, i)
  {
    assert SessionOk(s.cells, s.sessions[i]);
    SelectedAlone(s, i);
    assert HasSession(s, s.sessions[i].cell, Selected);
    assert s.cells[s.sessions[i].cell].status == Recomputed(s, s.sessions[i].cell);
  }

  /** A cell that stays as it was had none of the expired sessions. */
  lemma {:induction false} KeptCell(s: State, rows: set<nat>, freed: set<nat>, at: Time, c: nat)
    requires Sound(s) && c < |s.cells| && c !in freed
    requires Allowed(s, Expire(rows, freed, at)) && Faithful(s, Expire(rows, freed, at))
    ensures Recomputed(Do(s, Expire(rows, freed, at)), c) == s.cells[c].status
  {
    forall i | 0 <= i < |s.sessions| && s.sessions[i].status == Selected
      ensures OnReserved(s, i)
    {
      SelectedOnReserved(s, i);
    }
    assert forall i :: 0 <= i < |s.sessions| && s.sessions[i].cell == c ==> i !in rows;
    var s' := Do(s, Expire(rows, freed, at));
    SameSessions(s, s', c, Active);
    SameSessions(s, s', c, Selected);
  }

  /** Cells whose sessions did not change keep the answer. */
  lemma {:induction false} SameSessions(s: State, s': State, c: nat, status: SessionStatus)
    requires |s.sessions| <= |s'.sessions|
    requires forall i :: 0 <= i < |s.sessions| ==> s'.sessions[i].cell == s.sessions[i].cell
    requires forall i :: 0 <= i < |s.sessions| && s.sessions[i].cell == c ==>
              s'.sessions[i].status == s.sessions[i].status
    requires forall i :: |s.sessions| <= i < |s'.sessions| ==> s'.sessions[i].cell != c
    ensures HasSession(s', c, status) <==> HasSession(s, c, status)
  {
    if HasSession(s, c, status) {
      var i :| 0 <= i < |s.sessions| && s.sessions[i].cell == c && s.sessions[i].status == status;
      assert s'.sessions[i].cell == c && s'.sessions[i].status == status;
    }
    if HasSession(s', c, status) {
      var i :| 0 <= i < |s'.sessions| && s'.sessions[i].cell == c && s'.sessions[i].status == status;
      assert s.sessions[i].cell == c && s.sessions[i].status == status;
    }
  }

  /** An effect that changes the sessions of one cell `d` only leaves every other cell in agreement. */
  lemma {:induction false} OtherCells(s: State, s': State, d: nat)
    requires Agrees(s) && |s'.cells| == |s.cells| && |s.sessions| <= |s'.sessions|
    requires forall c :: 0 <= c < |s.cells| && c != d ==> s'.cells[c] == s.cells[c]
    requires forall i :: 0 <= i < |s.sessions| ==> s'.sessions[i].cell == s.sessions[i].cell
    requires forall i :: 0 <= i < |s.sessions| && s.sessions[i].cell != d ==>
              s'.sessions[i].status == s.sessions[i].status
    requires forall i :: |s.sessions| <= i < |s'.sessions| ==> s'.sessions[i].cell == d
    ensures forall c :: 0 <= c < |s.cells| && c != d ==> s'.cells[c].status == Recomputed(s', c)
  {
    forall c | 0 <= c < |s.cells| && c != d
      ensures s'.cells[c].status == Recomputed(s', c)
    {
      SameSessions(s, s', c, Active);
      SameSessions(s, s', c, Selected);
    }
  }

  lemma {:induction false} ReserveAgrees(s: State, c: nat, selectionId: Id, at: Time)
    requires Sound(s) && Allowed(s, Reserve(c, selectionId, at))
    ensures Agrees(Do(s, Reserve(c, selectionId, at)))
  {
    var s' := Do(s, Reserve(c, selectionId, at));
    OtherCells(s, s', c);
    assert s'.sessions[|s.sessions|].cell == c;
    assert !HasSession(s', c, Active) by {
      forall i | 0 <= i < |s.sessions| && s.sessions[i].cell == c
        ensures !Live(s.sessions[i])
      {
      }
    }
  }

  lemma {:induction false} BookAgrees(s: State, e: Effect)
    requires Sound(s) && Allowed(s, e) && e.Book?
    ensures Agrees(Do(s, e))
  {
    var s' := Do(s, e);
    OtherCells(s, s', s.sessions[e.row].cell);
    assert s'.sessions[e.row].status == Active && s'.sessions[e.row].cell == s.sessions[e.row].cell;
  }

  lemma {:induction false} FinishAgrees(s: State, e: Effect)
    requires Sound(s) && Allowed(s, e) && Careful(s, e) && e.Finish?
    ensures Agrees(Do(s, e))
  {
    var c := s.sessions[e.row].cell;
    OtherCells(s, Do(s, e), c);
    assert forall j :: 0 <= j < |s.sessions| && j != e.row && s.sessions[j].cell == c ==> !Live(s.sessions[j]);
  }

  /** Effects that change no cell and no status. */
  lemma {:induction false} QuietAgrees(s: State, e: Effect)
    requires Agrees(s) && (e.Refresh? || e.Stamp?)
    ensures Agrees(Do(s, e))
  {
    OtherCells(s, Do(s, e), |s.cells|);
  }

  lemma {:induction false} AgreesKept(s: State, e: Effect)
    requires Sound(s) && Allowed(s, e) && Faithful(s, e)
    ensures Agrees(Do(s, e))
  {
    match e
    case Expire(rows, freed, at) => SoundExpire(s, rows, freed, at);
    case Reserve(c, selectionId, at) => ReserveAgrees(s, c, selectionId, at);
    case Book(_, _, _, _) => BookAgrees(s, e);
    case Finish(_, _) => FinishAgrees(s, e);
    case Stamp(_, _) => QuietAgrees(s, e);
    case Refresh(_, _) => QuietAgrees(s, e);
    case Nop =>
  }

  lemma {:induction false} SoundKept(s: State, e: Effect)
    requires Sound(s) && Allowed(s, e) && Faithful(s, e)
    ensures Sound(Do(s, e))
  {
    SessionsOkKept(s, e);
    OneLiveKept(s, e);
    AgreesKept(s, e);
  }

  /** No admin status change and careful finishes, all along a run. */
  ghost predicate FaithfulRun(s: State, es: seq<Event>) {
    CarefulRun(s, es) && forall k :: 0 <= k < |es| ==> !es[k].op.UpdateLockerStatus?
  }

  lemma {:induction false} ApplySound(s: State, e: Event)
    requires Sound(s) && CarefulEvent(s, e) && !e.op.UpdateLockerStatus?
    ensures Sound(Apply(s, e))
  {
    PlanAllowed(s, e);
    PlanFaithful(s, e);
    SoundTwice(s, Plan(s, e).0, Plan(s, e).1);
  }

  lemma {:induction false} SoundTwice(s: State, e: Effect, f: Effect)
    requires Sound(s) && Allowed(s, e) && Faithful(s, e) && Allowed(Do(s, e), f) && Faithful(Do(s, e), f)
    ensures Sound(Do(Do(s, e), f))
  {
    SoundKept(s, e);
    SoundKept(Do(s, e), f);
  }

  lemma {:induction false} PlanFaithful(s: State, e: Event)
    requires CarefulEvent(s, e) && !e.op.UpdateLockerStatus?
    ensures Faithful(s, Plan(s, e).0) && Faithful(Do(s, Plan(s, e).0), Plan(s, e).1)
  {
    StaleComplete(s, e.at);
  }

  /** A full cleanup frees every reserved cell of the sessions it expires. */
  lemma {:induction false} StaleComplete(s: State, now: Time)
    ensures Faithful(s, ExpireStale(s, now))
  {
  }

  /** In admin-free runs from an all-free start the stored status of every cell is, at every step,
      exactly the one its sessions determine. */
  lemma {:induction false} RunSound(s: State, es: seq<Event>)
    requires Sound(s) && FaithfulRun(s, es)
    ensures Sound(Run(s, es))
    decreases |es|
  {
    if es == [] {
    } else {
      assert !es[0].op.UpdateLockerStatus?;
      ApplySound(s, es[0]);
      assert forall k :: 0 <= k < |es[1..]| ==> es[1..][k] == es[k + 1];
      RunSound(Apply(s, es[0]), es[1..]);
    }
  }

  lemma {:induction false} InitialSound(s: State)
    requires Initial(s) && forall c :: 0 <= c < |s.cells| ==> s.cells[c].status == Free
    ensures Sound(s)
  {
  }

  // ---------------------------------------------------------------- counts

  ghost function CellsWith(s: State, status: CellStatus): set<nat> {
    set c | 0 <= c < |s.cells| && s.cells[c].status == status
  }

  ghost function RowsWith(s: State, status: SessionStatus): set<nat> {
    set i | 0 <= i < |s.sessions| && s.sessions[i].status == status
  }

  lemma {:induction false} SameSize(a: set<nat>, b: set<nat>, f: nat -> nat)
    requires forall i :: i in a ==> f(i) in b
    requires forall i, j :: i in a && j in a && i != j ==> f(i) != f(j)
    requires forall y :: y in b ==> exists i :: i in a && f(i) == y
    ensures |a| == |b|
    decreases a
  {
    if a == {} {
      assert b == {};
    } else {
      var i :| i in a;
      SameSize(a - {i}, b - {f(i)}, f);
    }
  }

  ghost function UpTo(n: nat): (r: set<nat>)
    ensures |r| == n && forall c: nat :: c in r <==> c < n
  {
    if n == 0 then {} else UpTo(n - 1) + {n - 1}
  }

  /** Conservation of cells: as many reserved cells as selected sessions, as many occupied cells as
      active ones, and every cell free, reserved or occupied. */
  lemma {:induction false} Conservation(s: State)
    requires Sound(s)
    ensures |CellsWith(s, Reserved)| == |RowsWith(s, Selected)|
    ensures |CellsWith(s, Occupied)| == |RowsWith(s, Active)|
    ensures |CellsWith(s, Free)| + |CellsWith(s, Reserved)| + |CellsWith(s, Occupied)| == |s.cells|
  {
    HolderSize(s, Selected, Reserved);
    HolderSize(s, Active, Occupied);
    CellsPartition(s);
  }

  lemma {:induction false} CellsPartition(s: State)
    requires Agrees(s)
    ensures |CellsWith(s, Free)| + |CellsWith(s, Reserved)| + |CellsWith(s, Occupied)| == |s.cells|
  {
    forall c: nat | c < |s.cells|
      ensures c in CellsWith(s, Free) || c in CellsWith(s, Reserved) || c in CellsWith(s, Occupied)
    {
      assert s.cells[c].status == Recomputed(s, c);
    }
    Partition(CellsWith(s, Free), CellsWith(s, Reserved), CellsWith(s, Occupied), |s.cells|);
  }

  lemma {:induction false} Partition(a: set<nat>, b: set<nat>, c: set<nat>, n: nat)
    requires a !! b !! c
    requires forall x: nat :: x in a || x in b || x in c <==> x < n
    ensures |a| + |b| + |c| == n
  {
    assert UpTo(n) == a + b + c;
  }

  lemma {:induction false} HolderSize(s: State, held: SessionStatus, status: CellStatus)
    requires Sound(s) && ((held == Selected && status == Reserved) || (held == Active && status == Occupied))
    ensures |CellsWith(s, status)| == |RowsWith(s, held)|
  {
    var f := (i: nat) => if i < |s.sessions| then s.sessions[i].cell else 0;
    forall i | i in RowsWith(s, held)
      ensures f(i) in CellsWith(s, status)
    {
      assert SessionOk(s.cells, s.sessions[i]);
      var c := s.sessions[i].cell;
      assert HasSession(s, c, held);
      if held == Selected {
        SelectedAlone(s, i);
      }
    }
    forall c | c in CellsWith(s, status)
      ensures exists i :: i in RowsWith(s, held) && f(i) == c
    {
      assert HasSession(s, c, held);
      var i :| 0 <= i < |s.sessions| && s.sessions[i].cell == c && s.sessions[i].status == held;
      assert i in RowsWith(s, held);
    }
    forall i, j | i in RowsWith(s, held) && j in RowsWith(s, held) && i != j
      ensures f(i) != f(j)
    {
      assert Live(s.sessions[i]) && Live(s.sessions[j]);
    }
    SameSize(RowsWith(s, held), CellsWith(s, status), f);
  }

  // ---------------------------------------------------------------- no reservation leaks

  ghost predicate CreatedBy(s: State, t: Time) {
    forall i :: 0 <= i < |s.sessions| ==> s.sessions[i].createdAt <= t
  }

  lemma {:induction false} ApplyCreatedBy(s: State, e: Event)
    requires CreatedBy(s, e.at)
    ensures CreatedBy(Apply(s, e), e.at)
  {
    var p := Plan(s, e);
    CreatedByKept(s, p.0, e.at);
    CreatedByKept(Do(s, p.0), p.1, e.at);
  }

  lemma {:induction false} CreatedByKept(s: State, e: Effect, t: Time)
    requires CreatedBy(s, t) && (e.Reserve? ==> e.at <= t)
    ensures CreatedBy(Do(s, e), t)
  {
  }

  lemma {:induction false} RunCreatedBy(s: State, t: Time, es: seq<Event>)
    requires CreatedBy(s, t) && Ordered(t, es)
    ensures CreatedBy(Run(s, es), LastTime(t, es))
    decreases |es|
  {
    if es == [] {
    } else {
      var s' := Apply(s, es[0]);
      ApplyCreatedBy(s, es[0]);
      RunCreatedBy(s', es[0].at, es[1..]);
      if |es| > 1 {
        assert es[1..][|es| - 2] == es[|es| - 1];
      }
    }
  }

  /** Every reserved cell has a selected session, and its hold ends 90 seconds after its selection. */
  lemma {:induction false} ReservedHasHolder(s: State, c: nat)
    requires Sound(s) && c < |s.cells| && s.cells[c].status == Reserved
    ensures exists i :: 0 <= i < |s.sessions| && s.sessions[i].cell == c && s.sessions[i].status == Selected
                        && s.sessions[i].hold == s.sessions[i].createdAt + HOLD
  {
    var i :| 0 <= i < |s.sessions| && s.sessions[i].cell == c && s.sessions[i].status == Selected;
    assert SessionOk(s.cells, s.sessions[i]);
  }

  /** A cleanup later than every pending hold leaves each cell free or occupied. */
  lemma {:induction false} CleanupSettles(s: State, now: Time)
    requires Sound(s)
    requires forall i :: 0 <= i < |s.sessions| && s.sessions[i].status == Selected ==> s.sessions[i].hold < now
    ensures Sound(Cleaned(s, now))
    ensures forall c :: 0 <= c < |s.cells| ==>
                          Cleaned(s, now).cells[c].status == if HasSession(s, c, Active) then Occupied else Free
  {
    var s' := Cleaned(s, now);
    StaleAllowed(s, now);
    StaleComplete(s, now);
    SoundKept(s, ExpireStale(s, now));
    forall c | 0 <= c < |s.cells|
      ensures s'.cells[c].status == if HasSession(s, c, Active) then Occupied else Free
    {
      forall i | 0 <= i < |s.sessions| && s.sessions[i].status == Selected
        ensures s'.sessions[i].status == Expired
      {
        assert i in StaleRows(s.sessions, now);
      }
      assert !HasSession(s', c, Selected);
      assert HasSession(s', c, Active) <==> HasSession(s, c, Active) by {
        if HasSession(s, c, Active) {
          var i :| 0 <= i < |s.sessions| && s.sessions[i].cell == c && s.sessions[i].status == Active;
          assert s'.sessions[i] == s.sessions[i];
        }
      }
    }
  }

  /** Reservations do not leak: a cleanup more than 90 seconds after the last event of any admin-free
      run leaves every cell free or occupied. */
  lemma {:induction false} NoReservationLeaks(s: State, t: Time, es: seq<Event>, now: Time)
    requires Sound(s) && CreatedBy(s, t) && Ordered(t, es) && FaithfulRun(s, es)
    requires LastTime(t, es) + HOLD < now
    ensures forall c :: 0 <= c < |Run(s, es).cells| ==>
                          Cleaned(Run(s, es), now).cells[c].status == Free
                          || Cleaned(Run(s, es), now).cells[c].status == Occupied
  {
    RunSound(s, es);
    RunCreatedBy(s, t, es);
    var s' := Run(s, es);
    forall i | 0 <= i < |s'.sessions| && s'.sessions[i].status == Selected
      ensures s'.sessions[i].hold < now
    {
      assert SessionOk(s'.cells, s'.sessions[i]);
    }
    CleanupSettles(s', now);
  }
}
