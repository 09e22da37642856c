/** Short runs that show the hypotheses of the holder theorem are needed: without them the one cell of a
    location is given to two customers at once. */
module Witnesses {
  import opened Tables
  import opened Operations

  /** A database of a single cell. */
  function Single(c: Cell, status: CellStatus, sessions: seq<Session>, payments: seq<Payment>): State {
    State({c.location}, [c.(status := status)], sessions, payments)
  }

  function Select(c: Cell, at: Time, selectionId: Id): Event {
    Event(at, CreateCellSelection(c.location, c.size, selectionId))
  }

  function Book(c: Cell, at: Time, selectionId: Id, t: Ticket): Event {
    Event(at, Op.CreateBooking(c.location, selectionId, t))
  }

  /** A selection of the cell made at `at`. */
  function Pending(c: Cell, at: Time, selectionId: Id): Session {
    Session(selectionId, 0, c.no, c.size, at, at + HOLD, Selected, None, None, "", None, None, None)
  }

  function Rental(c: Cell, at: Time, selectionId: Id, t: Ticket): Session {
    BookedRow(Pending(c, at, selectionId), t, at)
  }

  /** Two live sessions on one cell. */
  predicate HandedOutTwice(s: State) {
    exists i, j :: 0 <= i < j < |s.sessions| && Live(s.sessions[i]) && Live(s.sessions[j])
                   && s.sessions[i].cell == s.sessions[j].cell
  }

  /** Whenever the cell is marked free, the next customer gets it. */
  lemma {:induction false} SelectTakesIt(c: Cell, at: Time, xs: seq<Session>, ps: seq<Payment>, selectionId: Id)
    requires c.active && forall i :: 0 <= i < |xs| ==> !Stale(xs[i], at) && xs[i].selectionId != selectionId
    ensures Answer(Single(c, Free, xs, ps), Select(c, at, selectionId)).SelectionMade?
    ensures Apply(Single(c, Free, xs, ps), Select(c, at, selectionId))
         == Single(c, Reserved, xs + [Pending(c, at, selectionId)], ps)
  {
    var s := Single(c, Free, xs, ps);
    var m := Cleaned(s, at);
    assert m.sessions == s.sessions && m.cells == s.cells;
    assert Selectable(m.cells[0], c.location, c.size);
    assert LowestFree(m.cells, c.location, c.size, {}) == Some(0);
    assert Apply(s, Select(c, at, selectionId)).cells == [c.(status := Reserved)];
  }

  lemma {:induction false} BookIt(c: Cell, at: Time, a: Id, t: Ticket)
    ensures Apply(Single(c, Reserved, [Pending(c, at, a)], []), Book(c, at, a, t))
         == Single(c, Occupied, [Rental(c, at, a, t)], [NewPayment(0, t, at)])
  {
    var s := Single(c, Reserved, [Pending(c, at, a)], []);
    assert s.sessions[0].selectionId == a;
    assert FindSelection(s.sessions, a) == Some(0);
    var s' := Apply(s, Book(c, at, a, t));
    assert s'.sessions == [Rental(c, at, a, t)];
    assert s'.cells == [c.(status := Occupied)];
  }

  /** Finishing the rental of the first session frees the cell, whoever else is on it. */
  lemma {:induction false} FinishIt(c: Cell, at: Time, status: CellStatus, x: Session, rest: seq<Session>,
                                    ps: seq<Payment>, rentalId: Id)
    requires x.rentalId == Some(rentalId) && x.cell == 0
    ensures Apply(Single(c, status, [x] + rest, ps), Event(at, FinishRental(rentalId)))
         == Single(c, Free, [ClosedRow(x, at)] + rest, ps)
  {
    var s := Single(c, status, [x] + rest, ps);
    assert s.sessions[0] == x;
    assert FindRental(s.sessions, rentalId) == Some(0);
    var s' := Apply(s, Event(at, FinishRental(rentalId)));
    assert s'.sessions == [ClosedRow(x, at)] + rest;
    assert s'.cells == [c.(status := Free)];
  }

  lemma {:induction false} RunThree(s: State, es: seq<Event>)
    requires |es| >= 3
    ensures Run(s, es) == Run(Apply(Apply(Apply(s, es[0]), es[1]), es[2]), es[3..])
  {
    assert es[1..][1..] == es[2..] && es[2..][1..] == es[3..];
    assert Run(s, es) == Run(Apply(s, es[0]), es[1..]);
    assert Run(Apply(s, es[0]), es[1..]) == Run(Apply(Apply(s, es[0]), es[1]), es[2..]);
  }

  // ---------------------------------------------------------------- a second finish

  /** Select, book and finish; another customer selects; the first rental is finished again; a third selects. */
  function FinishTwice(c: Cell, at: Time, a: Id, b: Id, d: Id, t: Ticket): seq<Event> {
    [Select(c, at, a), Book(c, at, a, t), Event(at, FinishRental(t.rentalId)),
     Select(c, at, b), Event(at, FinishRental(t.rentalId)), Select(c, at, d)]
  }

  function Thrice(s: State, e: Event, f: Event, g: Event): State {
    Apply(Apply(Apply(s, e), f), g)
  }

  lemma {:induction false} FirstVisit(c: Cell, at: Time, a: Id, t: Ticket)
    requires c.active
    ensures Thrice(Single(c, Free, [], []), Select(c, at, a), Book(c, at, a, t), Event(at, FinishRental(t.rentalId)))
         == Single(c, Free, [ClosedRow(Rental(c, at, a, t), at)], [NewPayment(0, t, at)])
  {
    SelectTakesIt(c, at, [], [], a);
    assert [] + [Pending(c, at, a)] == [Pending(c, at, a)];
    BookIt(c, at, a, t);
    var x := Rental(c, at, a, t);
    assert [x] + [] == [x] && [ClosedRow(x, at)] + [] == [ClosedRow(x, at)];
    FinishIt(c, at, Occupied, x, [], [NewPayment(0, t, at)], t.rentalId);
  }

  lemma {:induction false} FreedUnderNext(c: Cell, at: Time, x: Session, ps: seq<Payment>, b: Id, rentalId: Id)
    requires c.active && x.status == Closed && ClosedRow(x, at) == x && x.rentalId == Some(rentalId) && x.cell == 0
    requires x.selectionId != b
    ensures Apply(Apply(Single(c, Free, [x], ps), Select(c, at, b)), Event(at, FinishRental(rentalId)))
         == Single(c, Free, [x, Pending(c, at, b)], ps)
  {
    SelectTakesIt(c, at, [x], ps, b);
    assert [x] + [Pending(c, at, b)] == [x, Pending(c, at, b)];
    FinishIt(c, at, Reserved, x, [Pending(c, at, b)], ps, rentalId);
  }

  lemma {:induction false} SecondVisit(c: Cell, at: Time, x: Session, ps: seq<Payment>, b: Id, d: Id, rentalId: Id)
    requires c.active && x.status == Closed && ClosedRow(x, at) == x && x.rentalId == Some(rentalId) && x.cell == 0
    requires x.selectionId != b && b != d && x.selectionId != d
    ensures Thrice(Single(c, Free, [x], ps), Select(c, at, b), Event(at, FinishRental(rentalId)), Select(c, at, d))
         == Single(c, Reserved, [x, Pending(c, at, b), Pending(c, at, d)], ps)
  {
    FreedUnderNext(c, at, x, ps, b, rentalId);
    var xs := [x, Pending(c, at, b)];
    SelectTakesIt(c, at, xs, ps, d);
    assert xs + [Pending(c, at, d)] == [x, Pending(c, at, b), Pending(c, at, d)];
  }

  /** `FinishRental` reads no status: finishing a closed rental frees the cell somebody else now holds, and
      it is handed out again. */
  lemma {:induction false} SecondFinishGivesCellAway(c: Cell, at: Time, a: Id, b: Id, d: Id, t: Ticket)
    requires c.active && a != b && b != d && a != d
    ensures HandedOutTwice(Run(Single(c, Free, [], []), FinishTwice(c, at, a, b, d, t)))
  {
    var s, es := Single(c, Free, [], []), FinishTwice(c, at, a, b, d, t);
    var x, ps := ClosedRow(Rental(c, at, a, t), at), [NewPayment(0, t, at)];
    FirstVisit(c, at, a, t);
    SecondVisit(c, at, x, ps, b, d, t.rentalId);
    var last := Single(c, Reserved, [x, Pending(c, at, b), Pending(c, at, d)], ps);
    SixEvents(s, es);
    assert Run(s, es) == last;
    assert Live(last.sessions[1]) && Live(last.sessions[2]) && last.sessions[1].cell == last.sessions[2].cell;
  }

  lemma {:induction false} SixEvents(s: State, es: seq<Event>)
    requires |es| == 6
    ensures Run(s, es) == Thrice(Thrice(s, es[0], es[1], es[2]), es[3], es[4], es[5])
  {
    RunThree(s, es);
    RunThree(Thrice(s, es[0], es[1], es[2]), es[3..]);
    assert es[3..][3..] == [];
  }

  // ---------------------------------------------------------------- an admin frees a cell

  /** Select; the admin panel sets the cell free; another customer selects. */
  function FreePending(c: Cell, at: Time, a: Id, b: Id): seq<Event> {
    [Select(c, at, a), Event(at, UpdateLockerStatus(0, Free)), Select(c, at, b)]
  }

  /** The panel looks for active sessions only: freeing a cell with a pending selection hands it out twice. */
  lemma {:induction false} AdminFreeGivesCellAway(c: Cell, at: Time, a: Id, b: Id)
    requires c.active && a != b
    ensures HandedOutTwice(Run(Single(c, Free, [], []), FreePending(c, at, a, b)))
  {
    var s, es := Single(c, Free, [], []), FreePending(c, at, a, b);
    FreedUnderSelection(c, at, a, b);
    RunThree(s, es);
    assert es[3..] == [];
    assert Run(s, es) == Thrice(s, es[0], es[1], es[2]);
  }

  lemma {:induction false} FreedUnderSelection(c: Cell, at: Time, a: Id, b: Id)
    requires c.active && a != b
    ensures HandedOutTwice(Thrice(Single(c, Free, [], []), Select(c, at, a),
                                  Event(at, UpdateLockerStatus(0, Free)), Select(c, at, b)))
  {
    var xs := [Pending(c, at, a)];
    SelectTakesIt(c, at, [], [], a);
    assert [] + xs == xs;
    FreeIt(c, at, Pending(c, at, a));
    SelectTakesIt(c, at, xs, [], b);
    TwoLive(Single(c, Reserved, xs + [Pending(c, at, b)], []));
  }

  lemma {:induction false} FreeIt(c: Cell, at: Time, x: Session)
    requires x.status == Selected
    ensures Apply(Single(c, Reserved, [x], []), Event(at, UpdateLockerStatus(0, Free))) == Single(c, Free, [x], [])
  {
    var s := Single(c, Reserved, [x], []);
    assert !HasSession(s, 0, Active);
    StatusApplied(s, at, 0, Free);
    assert WithStatus(s.cells, 0, Free) == [c.(status := Free)];
  }

  lemma {:induction false} TwoLive(s: State)
    requires |s.sessions| == 2 && Live(s.sessions[0]) && Live(s.sessions[1]) && s.sessions[0].cell == s.sessions[1].cell
    ensures HandedOutTwice(s)
  {
  }

  /** The panel's check and its update are two statements.  If a customer selects and books the cell in
      between, the check has passed, an active session the check would now refuse sits on the cell, and the
      update gives the cell away. */
  lemma {:induction false} StaleAdminCheckGivesCellAway(c: Cell, at: Time, a: Id, b: Id, t: Ticket)
    requires c.active && a != b
    ensures !HasSession(Single(c, Free, [], []), 0, Active)
    ensures var s := Apply(Apply(Single(c, Free, [], []), Select(c, at, a)), Book(c, at, a, t));
            HasSession(s, 0, Active) && HandedOutTwice(Apply(Do(s, SetStatus(0, Free)), Select(c, at, b)))
  {
    SelectTakesIt(c, at, [], [], a);
    assert [] + [Pending(c, at, a)] == [Pending(c, at, a)];
    BookIt(c, at, a, t);
    FreedUnderRental(c, at, Rental(c, at, a, t), [NewPayment(0, t, at)], b);
  }

  lemma {:induction false} FreedUnderRental(c: Cell, at: Time, x: Session, ps: seq<Payment>, b: Id)
    requires c.active && x.status == Active && x.cell == 0 && x.selectionId != b
    ensures var s := Single(c, Occupied, [x], ps);
            HasSession(s, 0, Active) && HandedOutTwice(Apply(Do(s, SetStatus(0, Free)), Select(c, at, b)))
  {
    var s := Single(c, Occupied, [x], ps);
    assert s.sessions[0].cell == 0 && HasSession(s, 0, Active);
    assert Do(s, SetStatus(0, Free)) == Single(c, Free, [x], ps);
    SelectTakesIt(c, at, [x], ps, b);
    var last := Single(c, Reserved, [x] + [Pending(c, at, b)], ps);
    assert Live(last.sessions[0]) && Live(last.sessions[1]) && last.sessions[0].cell == last.sessions[1].cell;
  }

  // ---------------------------------------------------------------- an admin reserves over a stale hold

  /** A cleanup once the hold has ended, or none. */
  lemma {:induction false} TickFrees(c: Cell, at: Time, later: Time, a: Id)
    requires at + HOLD < later
    ensures var x := Pending(c, at, a);
            Cleaned(Single(c, Reserved, [x], []), later) == Single(c, Free, [x.(status := Expired)], [])
  {
    var x := Pending(c, at, a);
    var s := Single(c, Reserved, [x], []);
    assert s.sessions[0] == x && HasStale(s.sessions, 0, later);
    var m := Cleaned(s, later);
    assert m.sessions == [x.(status := Expired)] && m.cells == [c.(status := Free)];
  }

  lemma {:induction false} ReserveIt(c: Cell, at: Time, status: CellStatus, xs: seq<Session>)
    ensures Apply(Single(c, status, xs, []), Event(at, UpdateLockerStatus(0, Reserved))) == Single(c, Reserved, xs, [])
  {
    var s := Single(c, status, xs, []);
    StatusApplied(s, at, 0, Reserved);
    assert WithStatus(s.cells, 0, Reserved) == [c.(status := Reserved)];
  }

  /** The panel may set a cell to reserved.  Over a hold that has ended this makes a cleanup tick visible:
      without a tick before it the next customer gets the cell, and with one the cell stays reserved for
      nobody and the customer is told there is none. */
  lemma {:induction false} AdminReserveShowsTick(c: Cell, at: Time, later: Time, a: Id, b: Id)
    requires c.active && a != b && at + HOLD < later
    ensures var s := Apply(Single(c, Free, [], []), Select(c, at, a));
            var reserve := Event(later, UpdateLockerStatus(0, Reserved));
            Answer(Apply(s, reserve), Select(c, later, b)).SelectionMade?
            && Answer(Apply(Apply(s, Event(later, CleanupExpired)), reserve), Select(c, later, b)) == NoCellsAvailable
  {
    var x := Pending(c, at, a);
    SelectTakesIt(c, at, [], [], a);
    assert [] + [x] == [x];
    TickFrees(c, at, later, a);
    CleanupApplied(Single(c, Reserved, [x], []), later);
    ReserveIt(c, later, Reserved, [x]);
    ReserveIt(c, later, Free, [x.(status := Expired)]);
    FreedForNext(c, later, x, b);
    StuckReserved(c, later, x.(status := Expired), b);
  }

  lemma {:induction false} FreedForNext(c: Cell, later: Time, x: Session, b: Id)
    requires c.active && x.status == Selected && x.hold < later && x.cell == 0 && x.selectionId != b
    ensures Answer(Single(c, Reserved, [x], []), Select(c, later, b)).SelectionMade?
  {
    var s := Single(c, Reserved, [x], []);
    assert s.sessions[0] == x && HasStale(s.sessions, 0, later);
    var m := Cleaned(s, later);
    assert m.cells[0] == c.(status := Free);
    assert Selectable(m.cells[0], c.location, c.size);
    SelectionApplied(s, later, c.location, c.size, b, 0);
  }

  lemma {:induction false} StuckReserved(c: Cell, later: Time, x: Session, b: Id)
    requires x.status == Expired
    ensures Answer(Single(c, Reserved, [x], []), Select(c, later, b)) == NoCellsAvailable
  {
    var s := Single(c, Reserved, [x], []);
    assert !HasStale(s.sessions, 0, later);
    var m := Cleaned(s, later);
    assert m.cells[0] == c.(status := Reserved);
    SelectionRefused(s, later, c.location, c.size, b);
  }
}
