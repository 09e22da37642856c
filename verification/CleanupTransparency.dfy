/** Reservations expire in three places: the cleanup tick, the start of every selection, and the check a
    booking makes.  They agree so well that ticks cannot be noticed: two databases that are equal after
    a cleanup answer every operation alike, now and later, unless an admin reserves a cell over a hold that
    has ended. */
module CleanupTransparency {
  import opened Tables
  import opened Operations
  import opened Traces
  import opened Invariants

  /** At any instant a selection is bookable or expirable, never both and never neither. */
  lemma {:induction false} BookableXorStale(s: State, i: nat, e: Event)
    requires SessionsOk(s) && i < |s.sessions| && s.sessions[i].status == Selected
    requires e.op.CreateBooking? && e.op.selectionId == s.sessions[i].selectionId && FreshTicket(s, e.op.ticket)
    requires LocationOf(s.cells, s.sessions[i]) == Some(e.op.location)
    ensures Answer(s, e).Booked? <==> i !in StaleRows(s.sessions, e.at)
  {
    SelectionUnique(s, i);
  }

  lemma {:induction false} SameCleaned(s: State, a: State, b: State, now: Time)
    requires IsCleaned(s, a, now) && IsCleaned(s, b, now)
    ensures a == b
  {
    assert a.sessions == b.sessions;
    assert a.cells == b.cells;
  }

  /** A later cleanup makes an earlier one redundant. */
  lemma {:induction false} CleanedTwice(s: State, t: Time, now: Time)
    requires t <= now
    ensures Cleaned(Cleaned(s, t), now) == Cleaned(s, now)
  {
    CleanedRows(s, t);
    CleanedRows(Cleaned(s, t), now);
    CleanedRows(s, now);
    LaterCleanup(s, Cleaned(s, t), Cleaned(Cleaned(s, t), now), t, now);
    SameCleaned(s, Cleaned(Cleaned(s, t), now), Cleaned(s, now), now);
  }

  lemma {:induction false} LaterCleanup(s: State, m: State, a: State, t: Time, now: Time)
    requires t <= now && IsCleaned(s, m, t) && IsCleaned(m, a, now)
    ensures IsCleaned(s, a, now)
  {
    forall c | 0 <= c < |s.cells|
      ensures a.cells[c] == FreedIf(s.cells[c], HasStale(s.sessions, c, now))
    {
      assert m.cells[c] == FreedIf(s.cells[c], HasStale(s.sessions, c, t));
      assert a.cells[c] == FreedIf(m.cells[c], HasStale(m.sessions, c, now));
      StaleSplits(s, m, t, now, c);
    }
  }

  lemma {:induction false} StaleSplits(s: State, m: State, t: Time, now: Time, c: nat)
    requires t <= now && IsCleaned(s, m, t)
    ensures HasStale(s.sessions, c, now) <==> HasStale(s.sessions, c, t) || HasStale(m.sessions, c, now)
  {
    if HasStale(s.sessions, c, now) {
      var i :| 0 <= i < |s.sessions| && s.sessions[i].cell == c && Stale(s.sessions[i], now);
      assert m.sessions[i] == ExpiredIf(s.sessions[i], t);
      assert Stale(m.sessions[i], now) || Stale(s.sessions[i], t);
    }
    if HasStale(m.sessions, c, now) {
      var i :| 0 <= i < |m.sessions| && m.sessions[i].cell == c && Stale(m.sessions[i], now);
      assert s.sessions[i].cell == c && Stale(s.sessions[i], now);
    }
    if HasStale(s.sessions, c, t) {
      var i :| 0 <= i < |s.sessions| && s.sessions[i].cell == c && Stale(s.sessions[i], t);
      assert Stale(s.sessions[i], now);
    }
  }

  /** The effects of customer operations other than selection; a booking only of a session that is not stale. */
  predicate Customer(s: State, e: Effect, now: Time) {
    e.Nop? || e.Refresh? || e.Stamp? || e.Finish?
    || (e.Book? && e.row < |s.sessions| && s.sessions[e.row].status == Selected && !Stale(s.sessions[e.row], now))
  }

  /** Such an effect may be taken before or after the cleanup. */
  lemma {:induction false} CleanupCommutes(s: State, e: Effect, now: Time)
    requires Customer(s, e, now)
    ensures Cleaned(Do(s, e), now) == Cleaned(Do(Cleaned(s, now), e), now)
  {
    CleanedRows(s, now);
    CleanedRows(Do(s, e), now);
    CleanedRows(Do(Cleaned(s, now), e), now);
    CommutesRows(s, Cleaned(s, now), e, Cleaned(Do(Cleaned(s, now), e), now), now);
    SameCleaned(Do(s, e), Cleaned(Do(s, e), now), Cleaned(Do(Cleaned(s, now), e), now), now);
  }

  lemma {:induction false} CommutesRows(s: State, m: State, e: Effect, b: State, now: Time)
    requires Customer(s, e, now) && IsCleaned(s, m, now) && IsCleaned(Do(m, e), b, now)
    ensures IsCleaned(Do(s, e), b, now)
  {
    var s1, m1 := Do(s, e), Do(m, e);
    forall c | 0 <= c < |s.cells|
      ensures b.cells[c] == FreedIf(s1.cells[c], HasStale(s1.sessions, c, now))
    {
      assert m.cells[c] == FreedIf(s.cells[c], HasStale(s.sessions, c, now));
      assert b.cells[c] == FreedIf(m1.cells[c], HasStale(m1.sessions, c, now));
      NothingStale(s, m, e, now, c);
      if !(e.Finish? && e.row < |s.sessions| && s.sessions[e.row].cell == c) {
        SameStale(s, e, now, c);
      }
    }
    forall i | 0 <= i < |s.sessions|
      ensures b.sessions[i] == ExpiredIf(s1.sessions[i], now)
    {
      assert m.sessions[i] == ExpiredIf(s.sessions[i], now);
      assert b.sessions[i] == ExpiredIf(m1.sessions[i], now);
    }
  }

  lemma {:induction false} NothingStale(s: State, m: State, e: Effect, now: Time, c: nat)
    requires Customer(s, e, now) && IsCleaned(s, m, now)
    ensures !HasStale(Do(m, e).sessions, c, now)
  {
    forall i | 0 <= i < |m.sessions|
      ensures !Stale(Do(m, e).sessions[i], now)
    {
      assert m.sessions[i] == ExpiredIf(s.sessions[i], now);
    }
  }

  lemma {:induction false} SameStale(s: State, e: Effect, now: Time, c: nat)
    requires Customer(s, e, now) && !(e.Finish? && e.row < |s.sessions| && s.sessions[e.row].cell == c)
    ensures HasStale(Do(s, e).sessions, c, now) <==> HasStale(s.sessions, c, now)
  {
    var s1 := Do(s, e);
    assert |s1.sessions| == |s.sessions|;
    if HasStale(s.sessions, c, now) {
      var i :| 0 <= i < |s.sessions| && s.sessions[i].cell == c && Stale(s.sessions[i], now);
      assert s1.sessions[i].cell == c && Stale(s1.sessions[i], now);
    }
    if HasStale(s1.sessions, c, now) {
      var i :| 0 <= i < |s1.sessions| && s1.sessions[i].cell == c && Stale(s1.sessions[i], now);
      assert s.sessions[i].cell == c && Stale(s.sessions[i], now);
    }
  }

  /** A cleanup changes no lookup. */
  lemma {:induction false} SameIds(s: State, m: State, now: Time, id: Id)
    requires IsCleaned(s, m, now)
    ensures FindSelection(m.sessions, id) == FindSelection(s.sessions, id)
    ensures FindBooking(m.sessions, id) == FindBooking(s.sessions, id)
    ensures FindRental(m.sessions, id) == FindRental(s.sessions, id)
  {
    forall i | 0 <= i < |s.sessions|
      ensures m.sessions[i].selectionId == s.sessions[i].selectionId
      ensures m.sessions[i].bookingId == s.sessions[i].bookingId
      ensures m.sessions[i].rentalId == s.sessions[i].rentalId
    {
      assert m.sessions[i] == ExpiredIf(s.sessions[i], now);
    }
  }

  lemma {:induction false} SameCode(s: State, m: State, now: Time, location: int, code: string)
    requires IsCleaned(s, m, now)
    ensures FindCode(m.cells, m.sessions, location, code) == FindCode(s.cells, s.sessions, location, code)
  {
    forall i | 0 <= i < |s.sessions|
      ensures OpensWith(m.cells, m.sessions[i], location, code) <==> OpensWith(s.cells, s.sessions[i], location, code)
    {
      assert m.sessions[i] == ExpiredIf(s.sessions[i], now);
      SameLocation(s, m, now, i);
    }
  }

  lemma {:induction false} SameLocation(s: State, m: State, now: Time, i: nat)
    requires IsCleaned(s, m, now) && i < |s.sessions|
    ensures LocationOf(m.cells, m.sessions[i]) == LocationOf(s.cells, s.sessions[i])
  {
    assert m.sessions[i] == ExpiredIf(s.sessions[i], now);
    var c := s.sessions[i].cell;
    if c < |s.cells| {
      assert m.cells[c] == FreedIf(s.cells[c], HasStale(s.sessions, c, now));
    }
  }

  predicate Plain(op: Op) {
    !op.CreateCellSelection? && !op.CleanupExpired? && !op.UpdateLockerStatus?
  }

  /** Before and after a cleanup the operation does the same and answers the same. */
  ghost predicate SameStep(s: State, m: State, e: Event) {
    Plan(m, e) == Plan(s, e) && Answer(m, e) == Answer(s, e)
    && Customer(s, Plan(s, e).0, e.at) && (Plan(s, e).1.Nop? || Plan(s, e).1.Stamp?)
  }

  lemma {:induction false} PlainStep(s: State, m: State, e: Event)
    requires SessionsOk(s) && IsCleaned(s, m, e.at) && Plain(e.op)
    ensures SameStep(s, m, e)
  {
    if e.op.CreateBooking? {
      BookingStep(s, m, e);
    } else if e.op.CheckAccessCode? {
      CheckStep(s, m, e);
    } else if e.op.OpenRental? {
      OpenStep(s, m, e);
    } else {
      OtherStep(s, m, e);
    }
  }

  lemma {:induction false} SameBookable(s: State, m: State, now: Time, location: int, selectionId: Id)
    requires IsCleaned(s, m, now)
    ensures var row := Bookable(s, location, selectionId, now);
            Bookable(m, location, selectionId, now) == row
            && (row.Some? ==> m.sessions[row.value] == s.sessions[row.value] && !Stale(s.sessions[row.value], now))
  {
    SameIds(s, m, now, selectionId);
    var row := FindSelection(s.sessions, selectionId);
    if row.Some? {
      SameLocation(s, m, now, row.value);
      assert m.sessions[row.value] == ExpiredIf(s.sessions[row.value], now);
    }
  }

  lemma {:induction false} SameFresh(s: State, m: State, now: Time, t: Ticket)
    requires IsCleaned(s, m, now)
    ensures FreshTicket(m, t) <==> FreshTicket(s, t)
  {
    SameIds(s, m, now, t.bookingId);
    SameIds(s, m, now, t.rentalId);
  }

  lemma {:induction false} BookingStep(s: State, m: State, e: Event)
    requires IsCleaned(s, m, e.at) && e.op.CreateBooking?
    ensures SameStep(s, m, e)
  {
    SameBookable(s, m, e.at, e.op.location, e.op.selectionId);
    SameFresh(s, m, e.at, e.op.ticket);
  }

  lemma {:induction false} CheckStep(s: State, m: State, e: Event)
    requires IsCleaned(s, m, e.at) && e.op.CheckAccessCode?
    ensures SameStep(s, m, e)
  {
    SameCode(s, m, e.at, e.op.location, e.op.code);
    var row := FindCode(s.cells, s.sessions, e.op.location, e.op.code);
    if row.Some? {
      assert m.sessions[row.value] == ExpiredIf(s.sessions[row.value], e.at);
      var rid := s.sessions[row.value].rentalId;
      if rid.Some? {
        SameAccess(s, m, e.at, s.sessions[row.value], rid.value, e.op.location, e.op.code);
      }
    }
  }

  lemma {:induction false} OpenStep(s: State, m: State, e: Event)
    requires IsCleaned(s, m, e.at) && e.op.OpenRental?
    ensures SameStep(s, m, e)
  {
    SameIds(s, m, e.at, e.op.rentalId);
    var row := FindRental(s.sessions, e.op.rentalId);
    if row.Some? {
      assert m.sessions[row.value] == ExpiredIf(s.sessions[row.value], e.at);
    }
    assert Do(m, Refresh(e.op.rentalId, e.at)).payments == Do(s, Refresh(e.op.rentalId, e.at)).payments;
  }

  lemma {:induction false} OtherStep(s: State, m: State, e: Event)
    requires SessionsOk(s) && IsCleaned(s, m, e.at)
    requires e.op.GetPayment? || e.op.FinishRental? || e.op.GetRental?
    ensures SameStep(s, m, e)
  {
    if e.op.FinishRental? {
      SameIds(s, m, e.at, e.op.rentalId);
    } else if e.op.GetRental? {
      ReadStep(s, m, e);
    }
  }

  lemma {:induction false} ReadStep(s: State, m: State, e: Event)
    requires SessionsOk(s) && IsCleaned(s, m, e.at) && e.op.GetRental?
    ensures SameStep(s, m, e)
  {
    SameIds(s, m, e.at, e.op.rentalId);
    var row := FindRental(s.sessions, e.op.rentalId);
    if row.Some? {
      SameLocation(s, m, e.at, row.value);
      assert SessionOk(s.cells, s.sessions[row.value]);
      assert m.sessions[row.value] == ExpiredIf(s.sessions[row.value], e.at);
    }
  }

  lemma {:induction false} SameAccess(s: State, m: State, now: Time, x: Session, rentalId: Id, location: int,
                                      code: string)
    requires IsCleaned(s, m, now)
    ensures AccessAnswer(Do(m, Refresh(rentalId, now)), x, rentalId, location, code)
         == AccessAnswer(Do(s, Refresh(rentalId, now)), x, rentalId, location, code)
  {
    SameIds(s, m, now, rentalId);
    var row := FindRental(s.sessions, rentalId);
    if row.Some? {
      assert m.sessions[row.value] == ExpiredIf(s.sessions[row.value], now);
    }
    SameAccessAnswer(Do(m, Refresh(rentalId, now)), Do(s, Refresh(rentalId, now)), x, rentalId, location, code);
  }

  lemma {:induction false} SameAccessAnswer(a: State, b: State, x: Session, rentalId: Id, location: int, code: string)
    requires a.payments == b.payments && FindRental(a.sessions, rentalId) == FindRental(b.sessions, rentalId)
    requires var row := FindRental(b.sessions, rentalId);
             row.Some? ==> (a.sessions[row.value].status == Active <==> b.sessions[row.value].status == Active)
    ensures AccessAnswer(a, x, rentalId, location, code) == AccessAnswer(b, x, rentalId, location, code)
  {
  }

  /** An admin may notice a cleanup by the previous status of a cell, reserved or free; nothing else shows it. */
  function Veil(r: Reply): Reply {
    if r.StatusChanged? then r.(previous := Free) else r
  }

  /** The one operation that tells a cleanup apart: an admin change to reserved over a hold that has ended. */
  ghost predicate ReservesStale(s: State, e: Event) {
    e.op.UpdateLockerStatus? && e.op.newStatus == Reserved && e.op.cell < |s.cells|
    && HasStale(s.sessions, e.op.cell, e.at)
  }

  /** An operation taken before and after a cleanup: the same answer, and databases that stay equal up to a
      cleanup unless it reserves a cell over a stale hold. */
  lemma {:induction false} Indistinguishable(s: State, e: Event)
    requires SessionsOk(s)
    ensures Veil(Answer(Cleaned(s, e.at), e)) == Veil(Answer(s, e))
    ensures Cleaned(Apply(Cleaned(s, e.at), e), e.at) == Cleaned(Apply(s, e), e.at) <==> !ReservesStale(s, e)
  {
    var m := Cleaned(s, e.at);
    CleanedRows(s, e.at);
    CleanedTwice(s, e.at, e.at);
    if e.op.CreateCellSelection? {
      SameSelection(s, m, e);
    } else if e.op.UpdateLockerStatus? {
      AdminStep(s, m, e);
    } else if Plain(e.op) {
      PlainStep(s, m, e);
      PlainCommutes(s, Plan(s, e).0, Plan(s, e).1, e.at);
    }
  }

  /** The panel refuses, or has no such cell. */
  ghost predicate Unchanging(s: State, e: Event)
    requires e.op.UpdateLockerStatus?
  {
    e.op.cell >= |s.cells| || PanelRefuses(s, e.op.cell, e.op.newStatus)
  }

  lemma {:induction false} AdminApplied(s: State, e: Event)
    requires e.op.UpdateLockerStatus?
    ensures Apply(s, e) == if Unchanging(s, e) then s else Do(s, SetStatus(e.op.cell, e.op.newStatus))
    ensures Veil(Answer(s, e)) == if e.op.cell >= |s.cells| then LockerNotFound
                                  else if Unchanging(s, e) then ActiveRentalExists
                                      else StatusChanged(e.op.cell, Free, e.at)
  {
    StatusApplied(s, e.at, e.op.cell, e.op.newStatus);
  }

  lemma {:induction false} AdminStep(s: State, m: State, e: Event)
    requires m == Cleaned(s, e.at) && Cleaned(m, e.at) == m && IsCleaned(s, m, e.at) && e.op.UpdateLockerStatus?
    ensures Veil(Answer(m, e)) == Veil(Answer(s, e))
    ensures Cleaned(Apply(m, e), e.at) == Cleaned(Apply(s, e), e.at) <==> !ReservesStale(s, e)
  {
    SameActive(s, m, e.at, e.op.cell);
    AdminApplied(s, e);
    AdminApplied(m, e);
    if !Unchanging(s, e) {
      StatusCommutes(s, e.op.cell, e.op.newStatus, e.at);
    }
  }

  lemma {:induction false} SameActive(s: State, m: State, now: Time, c: nat)
    requires IsCleaned(s, m, now)
    ensures HasSession(m, c, Active) <==> HasSession(s, c, Active)
  {
    forall i | 0 <= i < |s.sessions|
      ensures m.sessions[i].cell == s.sessions[i].cell
      ensures m.sessions[i].status == Active <==> s.sessions[i].status == Active
    {
      assert m.sessions[i] == ExpiredIf(s.sessions[i], now);
    }
    if HasSession(s, c, Active) {
      var i :| 0 <= i < |s.sessions| && s.sessions[i].cell == c && s.sessions[i].status == Active;
      assert m.sessions[i].cell == c && m.sessions[i].status == Active;
    }
    if HasSession(m, c, Active) {
      var i :| 0 <= i < |m.sessions| && m.sessions[i].cell == c && m.sessions[i].status == Active;
      assert s.sessions[i].cell == c && s.sessions[i].status == Active;
    }
  }

  /** Setting a status commutes with a cleanup exactly so. */
  lemma {:induction false} StatusCommutes(s: State, c: nat, status: CellStatus, now: Time)
    ensures Cleaned(Do(s, SetStatus(c, status)), now) == Cleaned(Do(Cleaned(s, now), SetStatus(c, status)), now)
            <==> !(status == Reserved && c < |s.cells| && HasStale(s.sessions, c, now))
  {
    var m := Cleaned(s, now);
    var s1, m1 := Do(s, SetStatus(c, status)), Do(m, SetStatus(c, status));
    CleanedRows(s, now);
    CleanedRows(s1, now);
    CleanedRows(m1, now);
    StatusRows(s, m, c, status, Cleaned(s1, now), Cleaned(m1, now), now);
  }

  lemma {:induction false} StatusRows(s: State, m: State, c: nat, status: CellStatus, a: State, b: State, now: Time)
    requires IsCleaned(s, m, now)
    requires IsCleaned(Do(s, SetStatus(c, status)), a, now) && IsCleaned(Do(m, SetStatus(c, status)), b, now)
    ensures a == b <==> !(status == Reserved && c < |s.cells| && HasStale(s.sessions, c, now))
  {
    StatusSessions(s, m, Do(s, SetStatus(c, status)), Do(m, SetStatus(c, status)), a, b, now);
    if c < |s.cells| {
      StatusCell(s, m, c, status, a, b, now);
    }
    if c < |s.cells| && status == Reserved && HasStale(s.sessions, c, now) {
      assert a.cells[c] != b.cells[c];
    } else {
      assert a.cells == b.cells;
    }
  }

  lemma {:induction false} StatusSessions(s: State, m: State, s1: State, m1: State, a: State, b: State, now: Time)
    requires IsCleaned(s, m, now) && IsCleaned(s1, a, now) && IsCleaned(m1, b, now)
    requires s1.sessions == s.sessions && m1.sessions == m.sessions && |s1.cells| == |m1.cells|
    ensures a.sessions == b.sessions
    ensures forall d: nat :: d < |a.cells| && d < |s.cells| && s1.cells[d] == s.cells[d] && m1.cells[d] == m.cells[d]
                             ==> a.cells[d] == b.cells[d]
    ensures forall d: nat :: !HasStale(m1.sessions, d, now)
  {
    forall i | 0 <= i < |s.sessions|
      ensures a.sessions[i] == b.sessions[i] && !Stale(m.sessions[i], now)
    {
      assert m.sessions[i] == ExpiredIf(s.sessions[i], now);
      assert a.sessions[i] == ExpiredIf(s1.sessions[i], now) && b.sessions[i] == ExpiredIf(m1.sessions[i], now);
    }
    forall d: nat | d < |a.cells| && d < |s.cells| && s1.cells[d] == s.cells[d] && m1.cells[d] == m.cells[d]
      ensures a.cells[d] == b.cells[d]
    {
      assert m.cells[d] == FreedIf(s.cells[d], HasStale(s.sessions, d, now));
      assert a.cells[d] == FreedIf(s1.cells[d], HasStale(s1.sessions, d, now));
      assert b.cells[d] == FreedIf(m1.cells[d], HasStale(m1.sessions, d, now));
    }
  }

  lemma {:induction false} StatusCell(s: State, m: State, c: nat, status: CellStatus, a: State, b: State, now: Time)
    requires c < |s.cells| && IsCleaned(s, m, now) && !HasStale(m.sessions, c, now)
    requires IsCleaned(Do(s, SetStatus(c, status)), a, now) && IsCleaned(Do(m, SetStatus(c, status)), b, now)
    ensures a.cells[c] == b.cells[c] <==> !(status == Reserved && HasStale(s.sessions, c, now))
  {
    assert m.cells[c] == FreedIf(s.cells[c], HasStale(s.sessions, c, now));
    assert a.cells[c] == FreedIf(s.cells[c].(status := status), HasStale(s.sessions, c, now));
    assert b.cells[c] == FreedIf(m.cells[c].(status := status), HasStale(m.sessions, c, now));
  }

  /** A selection cleans first, so it cannot tell either. */
  lemma {:induction false} SameSelection(s: State, m: State, e: Event)
    requires m == Cleaned(s, e.at) && Cleaned(m, e.at) == m && IsCleaned(s, m, e.at) && e.op.CreateCellSelection?
    ensures Answer(m, e) == Answer(s, e)
    ensures Cleaned(Apply(m, e), e.at) == Cleaned(Apply(s, e), e.at)
  {
    SameIds(s, m, e.at, e.op.selectionId);
    var pick := LowestFree(m.cells, e.op.location, e.op.size, {});
    if pick.Some? {
      assert m.cells[pick.value] == FreedIf(s.cells[pick.value], HasStale(s.sessions, pick.value, e.at));
    }
  }

  lemma {:induction false} PlainCommutes(s: State, e: Effect, f: Effect, now: Time)
    requires Customer(s, e, now) && (f.Nop? || f.Stamp?)
    ensures Cleaned(Do(Do(s, e), f), now) == Cleaned(Do(Do(Cleaned(s, now), e), f), now)
  {
    CleanupCommutes(s, e, now);
    CleanupCommutes(Do(s, e), f, now);
    CleanupCommutes(Do(Cleaned(s, now), e), f, now);
  }

  /** A run without its cleanup ticks. */
  function Strip(es: seq<Event>): seq<Event> {
    if es == [] then [] else (if es[0].op.CleanupExpired? then [] else [es[0]]) + Strip(es[1..])
  }

  /** What a run answers, its ticks aside. */
  function Visible(s: State, es: seq<Event>): seq<Reply>
    decreases |es|
  {
    if es == [] then []
    else (if es[0].op.CleanupExpired? then [] else [Veil(Answer(s, es[0]))]) + Visible(Apply(s, es[0]), es[1..])
  }

  /** No event of the run reserves a cell over a stale hold. */
  ghost predicate ReservesNoStale(s: State, es: seq<Event>)
    decreases |es|
  {
    es == [] || (!ReservesStale(s, es[0]) && ReservesNoStale(Apply(s, es[0]), es[1..]))
  }

  /** Two runs tell their customers the same, and end in databases that are equal once cleaned. */
  ghost predicate SameOutcome(s: State, es: seq<Event>, s': State, fs: seq<Event>, last: Time) {
    Visible(s, es) == Visible(s', fs) && Cleaned(Run(s, es), last) == Cleaned(Run(s', fs), last)
  }

  lemma {:induction false} TickFirst(s: State, es: seq<Event>, s': State, last: Time)
    requires es != [] && es[0].op.CleanupExpired?
    requires SameOutcome(Apply(s, es[0]), es[1..], s', Strip(es[1..]), last)
    ensures SameOutcome(s, es, s', Strip(es), last)
  {
    assert Strip(es) == Strip(es[1..]);
    assert Visible(s, es) == Visible(Apply(s, es[0]), es[1..]);
  }

  lemma {:induction false} EventFirst(s: State, es: seq<Event>, s': State, last: Time)
    requires es != [] && !es[0].op.CleanupExpired? && Veil(Answer(s, es[0])) == Veil(Answer(s', es[0]))
    requires SameOutcome(Apply(s, es[0]), es[1..], Apply(s', es[0]), Strip(es[1..]), last)
    ensures SameOutcome(s, es, s', Strip(es), last)
  {
    var fs := Strip(es);
    assert fs[1..] == Strip(es[1..]) && fs[0] == es[0];
    assert Visible(s, es) == [Veil(Answer(s, es[0]))] + Visible(Apply(s, es[0]), es[1..]);
    assert Visible(s', fs) == [Veil(Answer(s', fs[0]))] + Visible(Apply(s', fs[0]), fs[1..]);
  }

  /** Dropping every cleanup tick from an ordered run changes nothing anybody is told, and the two final
      databases are equal once cleaned, as long as neither run reserves a cell over a stale hold.  The runs
      may start in databases that are only equal up to a cleanup. */
  lemma {:induction false} TicksAreInvisible(s: State, s': State, t: Time, es: seq<Event>)
    requires SessionsOk(s) && SessionsOk(s') && Cleaned(s, t) == Cleaned(s', t)
    requires Ordered(t, es) && ReservesNoStale(s, es) && ReservesNoStale(s', Strip(es))
    ensures SameOutcome(s, es, s', Strip(es), LastTime(t, es))
    decreases |es|
  {
    if es == [] {
    } else {
      var e, rest := es[0], es[1..];
      StrippedNext(s', es);
      NextEvent(s, s', t, e);
      assert LastTime(e.at, rest) == LastTime(t, es);
      if e.op.CleanupExpired? {
        TicksAreInvisible(Apply(s, e), s', e.at, rest);
        TickFirst(s, es, s', LastTime(t, es));
      } else {
        TicksAreInvisible(Apply(s, e), Apply(s', e), e.at, rest);
        EventFirst(s, es, s', LastTime(t, es));
      }
    }
  }

  lemma {:induction false} StrippedNext(s: State, es: seq<Event>)
    requires es != []
    ensures es[0].op.CleanupExpired? ==> Strip(es) == Strip(es[1..])
    ensures !es[0].op.CleanupExpired? ==> Strip(es) == [es[0]] + Strip(es[1..])
    ensures !es[0].op.CleanupExpired? && ReservesNoStale(s, Strip(es)) ==>
              !ReservesStale(s, es[0]) && ReservesNoStale(Apply(s, es[0]), Strip(es[1..]))
  {
    if !es[0].op.CleanupExpired? {
      assert Strip(es)[0] == es[0] && Strip(es)[1..] == Strip(es[1..]);
    }
  }

  /** Databases equal after one cleanup are equal after every later one. */
  lemma {:induction false} EqualLater(s: State, s': State, t: Time, now: Time)
    requires Cleaned(s, t) == Cleaned(s', t) && t <= now
    ensures Cleaned(s, now) == Cleaned(s', now)
  {
    CleanedTwice(s, t, now);
    CleanedTwice(s', t, now);
  }

  lemma {:induction false} AfterTick(s: State, e: Event)
    requires e.op.CleanupExpired?
    ensures Cleaned(Apply(s, e), e.at) == Cleaned(s, e.at)
  {
    CleanupApplied(s, e.at);
    CleanedTwice(s, e.at, e.at);
  }

  lemma {:induction false} AfterEvent(s: State, s': State, e: Event)
    requires SessionsOk(s) && SessionsOk(s') && Cleaned(s, e.at) == Cleaned(s', e.at)
    requires !ReservesStale(s, e) && !ReservesStale(s', e)
    ensures Veil(Answer(s, e)) == Veil(Answer(s', e))
    ensures Cleaned(Apply(s, e), e.at) == Cleaned(Apply(s', e), e.at)
  {
    Indistinguishable(s, e);
    Indistinguishable(s', e);
  }

  /** The bisimulation, one event at a time. */
  lemma {:induction false} NextEvent(s: State, s': State, t: Time, e: Event)
    requires SessionsOk(s) && SessionsOk(s') && Cleaned(s, t) == Cleaned(s', t) && t <= e.at
    requires !e.op.CleanupExpired? ==> !ReservesStale(s, e) && !ReservesStale(s', e)
    ensures SessionsOk(Apply(s, e)) && SessionsOk(Apply(s', e))
    ensures e.op.CleanupExpired? ==> Cleaned(Apply(s, e), e.at) == Cleaned(s', e.at)
    ensures !e.op.CleanupExpired? ==>
              Veil(Answer(s, e)) == Veil(Answer(s', e)) && Cleaned(Apply(s, e), e.at) == Cleaned(Apply(s', e), e.at)
  {
    EqualLater(s, s', t, e.at);
    ApplyAdvances(s, e);
    ApplyAdvances(s', e);
    if e.op.CleanupExpired? {
      AfterTick(s, e);
    } else {
      AfterEvent(s, s', e);
    }
  }

  // ---------------------------------------------------------------- from one start

  /** The run with ticks is ahead of the one without: its sessions are the same, or expired where the
      others are stale. */
  ghost predicate Ahead(s: State, s': State, t: Time) {
    |s.sessions| == |s'.sessions| && |s.cells| == |s'.cells|
    && forall i :: 0 <= i < |s.sessions| ==> RowAhead(s.sessions[i], s'.sessions[i], t)
  }

  predicate RowAhead(x: Session, y: Session, t: Time) {
    x == y || (x == y.(status := Expired) && Stale(y, t))
  }

  lemma {:induction false} AheadStale(s: State, s': State, t: Time, now: Time, c: nat)
    requires Ahead(s, s', t) && t <= now && HasStale(s.sessions, c, now)
    ensures HasStale(s'.sessions, c, now)
  {
    var i :| 0 <= i < |s.sessions| && s.sessions[i].cell == c && Stale(s.sessions[i], now);
    assert RowAhead(s.sessions[i], s'.sessions[i], t);
  }

  /** So it reserves a cell over a stale hold only when the other does. */
  lemma {:induction false} AheadReserves(s: State, s': State, t: Time, e: Event)
    requires Ahead(s, s', t) && t <= e.at
    ensures ReservesStale(s, e) ==> ReservesStale(s', e)
  {
    if ReservesStale(s, e) {
      AheadStale(s, s', t, e.at, e.op.cell);
    }
  }

  lemma {:induction false} AheadTick(s: State, s': State, t: Time, now: Time)
    requires Ahead(s, s', t) && t <= now
    ensures Ahead(Cleaned(s, now), s', now)
  {
    var m := Cleaned(s, now);
    CleanedRows(s, now);
    forall i | 0 <= i < |s.sessions|
      ensures RowAhead(m.sessions[i], s'.sessions[i], now)
    {
      assert m.sessions[i] == ExpiredIf(s.sessions[i], now) && RowAhead(s.sessions[i], s'.sessions[i], t);
    }
  }

  lemma {:induction false} AheadEffect(s: State, s': State, t: Time, e: Effect)
    requires SessionsOk(s') && Ahead(s, s', t) && Allowed(s, e) && !e.Expire? && !e.Reserve?
    ensures Ahead(Do(s, e), Do(s', e), t)
  {
    forall i | 0 <= i < |s.sessions|
      ensures RowAhead(s.sessions[i], s'.sessions[i], t) && SessionOk(s'.cells, s'.sessions[i])
    {
    }
  }

  lemma {:induction false} AheadLater(s: State, s': State, t: Time, now: Time)
    requires Ahead(s, s', t) && t <= now
    ensures Ahead(s, s', now)
  {
    forall i | 0 <= i < |s.sessions|
      ensures RowAhead(s.sessions[i], s'.sessions[i], now)
    {
      assert RowAhead(s.sessions[i], s'.sessions[i], t);
    }
  }

  /** Both runs do the same at an event that is no tick. */
  lemma {:induction false} SamePlan(s: State, s': State, e: Event)
    requires SessionsOk(s) && SessionsOk(s') && Cleaned(s, e.at) == Cleaned(s', e.at) && !e.op.CleanupExpired?
    requires !e.op.CreateCellSelection?
    ensures Plan(s, e) == Plan(s', e)
    ensures !Plan(s, e).0.Expire? && !Plan(s, e).0.Reserve? && !Plan(s, e).1.Expire? && !Plan(s, e).1.Reserve?
  {
    var m := Cleaned(s, e.at);
    CleanedRows(s, e.at);
    CleanedRows(s', e.at);
    if Plain(e.op) {
      PlainStep(s, m, e);
      PlainStep(s', m, e);
    } else {
      SameActive(s, m, e.at, e.op.cell);
      SameActive(s', m, e.at, e.op.cell);
    }
  }

  lemma {:induction false} AheadEvent(s: State, s': State, e: Event)
    requires SessionsOk(s) && SessionsOk(s') && Cleaned(s, e.at) == Cleaned(s', e.at) && Ahead(s, s', e.at)
    requires !e.op.CleanupExpired?
    ensures Ahead(Apply(s, e), Apply(s', e), e.at)
  {
    if e.op.CreateCellSelection? {
      AheadSelection(s, s', e);
    } else {
      SamePlan(s, s', e);
      var f, g := Plan(s, e).0, Plan(s, e).1;
      PlanAllowed(s, e);
      PlanAllowed(s', e);
      AheadEffect(s, s', e.at, f);
      assert SessionsOk(Do(s', f)) by {
        SessionsOkKept(s', f);
      }
      AheadEffect(Do(s, f), Do(s', f), e.at, g);
    }
  }

  lemma {:induction false} AheadSelection(s: State, s': State, e: Event)
    requires Cleaned(s, e.at) == Cleaned(s', e.at) && Ahead(s, s', e.at) && e.op.CreateCellSelection?
    ensures Ahead(Apply(s, e), Apply(s', e), e.at)
  {
    var op := e.op;
    var pick := LowestFree(Cleaned(s, e.at).cells, op.location, op.size, {});
    assert s.locations == Cleaned(s, e.at).locations == s'.locations;
    CleanedSelections(s, e.at, op.selectionId);
    CleanedSelections(s', e.at, op.selectionId);
    if op.location !in s.locations || pick.None? || FindSelection(s.sessions, op.selectionId).Some? {
      SelectionRefused(s, e.at, op.location, op.size, op.selectionId);
      SelectionRefused(s', e.at, op.location, op.size, op.selectionId);
    } else {
      SelectionApplied(s, e.at, op.location, op.size, op.selectionId, pick.value);
      SelectionApplied(s', e.at, op.location, op.size, op.selectionId, pick.value);
    }
  }

  /** A run with ticks reserves no cell over a stale hold if the run without them does not. */
  lemma {:induction false} TicksReserveNothing(s: State, s': State, t: Time, es: seq<Event>)
    requires SessionsOk(s) && SessionsOk(s') && Cleaned(s, t) == Cleaned(s', t) && Ahead(s, s', t)
    requires Ordered(t, es) && ReservesNoStale(s', Strip(es))
    ensures ReservesNoStale(s, es)
    decreases |es|
  {
    if es == [] {
    } else {
      var e := es[0];
      StrippedNext(s', es);
      if e.op.CleanupExpired? {
        NextEvent(s, s', t, e);
        CleanupApplied(s, e.at);
        AheadTick(s, s', t, e.at);
        TicksReserveNothing(Apply(s, e), s', e.at, es[1..]);
      } else {
        AheadReserves(s, s', t, e);
        NextEvent(s, s', t, e);
        EqualLater(s, s', t, e.at);
        AheadLater(s, s', t, e.at);
        AheadEvent(s, s', e);
        TicksReserveNothing(Apply(s, e), Apply(s', e), e.at, es[1..]);
      }
    }
  }

  /** The same for any run, the condition read off the run without its ticks. */
  lemma {:induction false} TicksCanBeDropped(s: State, t: Time, es: seq<Event>)
    requires SessionsOk(s) && Ordered(t, es) && ReservesNoStale(s, Strip(es))
    ensures SameOutcome(s, es, s, Strip(es), LastTime(t, es))
  {
    TicksReserveNothing(s, s, t, es);
    TicksAreInvisible(s, s, t, es);
  }

  /** Two runs that differ only in when cleanup ticks happen answer the same. */
  lemma {:induction false} TicksAnywhere(s: State, t: Time, es: seq<Event>, fs: seq<Event>)
    requires SessionsOk(s) && Strip(es) == Strip(fs) && ReservesNoStale(s, Strip(es))
    requires Ordered(t, es) && Ordered(t, fs)
    ensures Visible(s, es) == Visible(s, fs)
  {
    TicksCanBeDropped(s, t, es);
    TicksCanBeDropped(s, t, fs);
  }

  // ---------------------------------------------------------------- exactly when

  predicate Tickless(es: seq<Event>) {
    forall k :: 0 <= k < |es| ==> !es[k].op.CleanupExpired?
  }

  /** However ticks are put into a tickless run, the outcome is that of the run without them. */
  ghost predicate TicksDoNotShow(s: State, t: Time, fs: seq<Event>) {
    forall es :: Ordered(t, es) && Strip(es) == fs ==> SameOutcome(s, es, s, fs, LastTime(t, es))
  }

  lemma {:induction false} StripConcat(a: seq<Event>, b: seq<Event>)
    ensures Strip(a + b) == Strip(a) + Strip(b)
    decreases |a|
  {
    if a == [] {
      assert a + b == b;
    } else {
      assert (a + b)[0] == a[0] && (a + b)[1..] == a[1..] + b;
      StripConcat(a[1..], b);
    }
  }

  lemma {:induction false} StripTickless(es: seq<Event>)
    requires Tickless(es)
    ensures Strip(es) == es
    decreases |es|
  {
    if es == [] {
    } else {
      assert forall k :: 0 <= k < |es[1..]| ==> es[1..][k] == es[k + 1];
      StripTickless(es[1..]);
      assert es == [es[0]] + es[1..];
    }
  }

  lemma {:induction false} OrderedConcat(t: Time, a: seq<Event>, b: seq<Event>)
    ensures Ordered(t, a + b) <==> Ordered(t, a) && Ordered(LastTime(t, a), b)
    decreases |a|
  {
    if a == [] {
      assert a + b == b;
    } else {
      assert (a + b)[0] == a[0] && (a + b)[1..] == a[1..] + b;
      OrderedConcat(a[0].at, a[1..], b);
      assert LastTime(a[0].at, a[1..]) == LastTime(t, a);
    }
  }

  lemma {:induction false} ReservesConcat(s: State, a: seq<Event>, b: seq<Event>)
    ensures ReservesNoStale(s, a + b) <==> ReservesNoStale(s, a) && ReservesNoStale(Run(s, a), b)
    decreases |a|
  {
    if a == [] {
      assert a + b == b;
    } else {
      assert (a + b)[0] == a[0] && (a + b)[1..] == a[1..] + b;
      ReservesConcat(Apply(s, a[0]), a[1..], b);
    }
  }

  /** Where a run reserves over a stale hold. */
  lemma {:induction false} FirstReserve(s: State, fs: seq<Event>) returns (n: nat)
    requires !ReservesNoStale(s, fs)
    ensures n < |fs| && ReservesStale(Run(s, fs[..n]), fs[n])
    decreases |fs|
  {
    if ReservesStale(s, fs[0]) {
      n := 0;
    } else {
      var m := FirstReserve(Apply(s, fs[0]), fs[1..]);
      n := m + 1;
      assert fs[..n][0] == fs[0] && fs[..n][1..] == fs[1..][..m];
    }
  }

  lemma {:induction false} LastOne(m: State, e: Event)
    ensures Run(m, [e]) == Apply(m, e)
  {
    assert [e][1..] == [];
    assert Run(m, [e]) == Run(Apply(m, e), []);
  }

  lemma {:induction false} LastTwo(m: State, e: Event, f: Event)
    ensures Run(m, [e] + [f]) == Apply(Apply(m, e), f)
  {
    RunConcat(m, [e], [f]);
    LastOne(m, e);
    LastOne(Apply(m, e), f);
  }

  function TickBefore(e: Event): seq<Event> {
    [Event(e.at, CleanupExpired)] + [e]
  }

  lemma {:induction false} StripTickBefore(e: Event)
    requires !e.op.CleanupExpired?
    ensures Strip(TickBefore(e)) == [e]
  {
    StripConcat([Event(e.at, CleanupExpired)], [e]);
    StripTickless([e]);
    assert [Event(e.at, CleanupExpired)][1..] == [] && Strip([]) == [];
  }

  /** A tick put right before the last event of a run makes another ordered run that strips to it. */
  lemma {:induction false} TickedRun(t: Time, a: seq<Event>, e: Event)
    requires Ordered(t, a + [e]) && Tickless(a + [e])
    ensures Ordered(t, a + TickBefore(e)) && Strip(a + TickBefore(e)) == a + [e]
    ensures LastTime(t, a + TickBefore(e)) == e.at
  {
    assert !e.op.CleanupExpired? && Tickless(a) by {
      assert (a + [e])[|a|] == e && forall k :: 0 <= k < |a| ==> a[k] == (a + [e])[k];
    }
    OrderedConcat(t, a, [e]);
    OrderedConcat(t, a, TickBefore(e));
    OrderedConcat(e.at, [Event(e.at, CleanupExpired)], [e]);
    StripConcat(a, TickBefore(e));
    StripTickless(a);
    StripTickBefore(e);
  }

  lemma {:induction false} TickedState(s: State, a: seq<Event>, e: Event)
    ensures Run(s, a + TickBefore(e)) == Apply(Cleaned(Run(s, a), e.at), e)
    ensures Run(s, a + [e]) == Apply(Run(s, a), e)
  {
    var m := Run(s, a);
    RunConcat(s, a, [e]);
    RunConcat(s, a, TickBefore(e));
    CleanupApplied(m, e.at);
    LastOne(m, e);
    LastTwo(m, Event(e.at, CleanupExpired), e);
  }

  /** Such a tick shows in the database that an event reserving over a stale hold leaves. */
  lemma {:induction false} TickShows(s: State, t: Time, a: seq<Event>, e: Event)
    requires SessionsOk(s) && Ordered(t, a + [e]) && Tickless(a + [e]) && ReservesStale(Run(s, a), e)
    ensures !TicksDoNotShow(s, t, a + [e])
  {
    TickedRun(t, a, e);
    TickedState(s, a, e);
    RunAdvances(s, a);
    Indistinguishable(Run(s, a), e);
    assert !SameOutcome(s, a + TickBefore(e), s, a + [e], LastTime(t, a + TickBefore(e)));
  }

  lemma {:induction false} TicksHidden(s: State, t: Time, fs: seq<Event>)
    requires SessionsOk(s) && ReservesNoStale(s, fs)
    ensures TicksDoNotShow(s, t, fs)
  {
    forall es | Ordered(t, es) && Strip(es) == fs
      ensures SameOutcome(s, es, s, fs, LastTime(t, es))
    {
      TicksCanBeDropped(s, t, es);
    }
  }

  /** The condition is exact: wherever ticks are put, they show at no point of a run if and only if the run
      reserves no cell over a stale hold. */
  lemma {:induction false} TicksShowExactly(s: State, t: Time, fs: seq<Event>)
    requires SessionsOk(s) && Ordered(t, fs) && Tickless(fs)
    ensures (forall n :: 0 <= n <= |fs| ==> TicksDoNotShow(s, t, fs[..n])) <==> ReservesNoStale(s, fs)
  {
    if ReservesNoStale(s, fs) {
      forall n | 0 <= n <= |fs|
        ensures TicksDoNotShow(s, t, fs[..n])
      {
        assert fs == fs[..n] + fs[n..];
        ReservesConcat(s, fs[..n], fs[n..]);
        TicksHidden(s, t, fs[..n]);
      }
    } else {
      var n := FirstReserve(s, fs);
      assert fs[..n + 1] == fs[..n] + [fs[n]];
      assert fs == fs[..n + 1] + fs[n + 1..];
      OrderedConcat(t, fs[..n + 1], fs[n + 1..]);
      TickShows(s, t, fs[..n], fs[n]);
    }
  }
}
