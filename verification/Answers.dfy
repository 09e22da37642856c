/** What every operation answers, when it refuses, and what it changes, read off the rows of the tables.  Times
    are written out in microseconds. */
module Answers {
  import opened Tables
  import opened Operations
  import opened Invariants
  import opened Payments

  // ---------------------------------------------------------------- rows

  /** The session sits at the location. */
  predicate Sits(s: State, i: nat, location: int) {
    i < |s.sessions| && s.sessions[i].cell < |s.cells| && s.cells[s.sessions[i].cell].location == location
  }

  /** Some selection of the cell was not booked within its hold. */
  ghost predicate EndedOn(s: State, c: nat, at: Time) {
    exists i :: 0 <= i < |s.sessions| && s.sessions[i].cell == c && Ended(s.sessions[i], at)
  }

  predicate Ended(x: Session, at: Time) {
    x.status == Selected && x.hold < at
  }

  /** Some session carries the rental id. */
  ghost predicate Rented(s: State, rentalId: Id) {
    exists i :: 0 <= i < |s.sessions| && s.sessions[i].rentalId == Some(rentalId)
  }

  /** Only the payments of one rental change, each as a look at it says. */
  predicate OnlyLooked(s: State, s': State, rentalId: Id, at: Time) {
    |s'.payments| == |s.payments|
    && forall k :: 0 <= k < |s.payments| ==> Looked(s.payments[k], s'.payments[k], rentalId, at)
  }

  /** Cells and sessions are as they were, one session `i` and one cell `c` aside. */
  predicate OnlyRow(s: State, s': State, i: nat, c: nat) {
    s'.locations == s.locations && |s'.sessions| == |s.sessions| && |s'.cells| == |s.cells|
    && (forall j :: 0 <= j < |s.sessions| && j != i ==> s'.sessions[j] == s.sessions[j])
    && (forall d :: 0 <= d < |s.cells| && d != c ==> s'.cells[d] == s.cells[d])
  }

  // ---------------------------------------------------------------- the cleanup

  /** A tick expires the selections whose hold is strictly past and frees the cells still reserved for them. */
  lemma {:induction false} TickAnswers(s: State, e: Event)
    requires e.op.CleanupExpired?
    ensures Answer(s, e) == Done
    ensures var s' := Apply(s, e);
            s'.locations == s.locations && s'.payments == s.payments
            && |s'.sessions| == |s.sessions| && |s'.cells| == |s.cells|
            && (forall i :: 0 <= i < |s.sessions| ==>
                              s'.sessions[i] == if Ended(s.sessions[i], e.at) then s.sessions[i].(status := Expired)
                                                else s.sessions[i])
            && (forall c :: 0 <= c < |s.cells| ==>
                              s'.cells[c] == if s.cells[c].status == Reserved && EndedOn(s, c, e.at)
                                             then s.cells[c].(status := Free) else s.cells[c])
  {
    var s' := Apply(s, e);
    forall c | 0 <= c < |s.cells|
      ensures HasStale(s.sessions, c, e.at) <==> EndedOn(s, c, e.at)
    {
      SameEnded(s, c, e.at);
    }
  }

  lemma {:induction false} SameEnded(s: State, c: nat, at: Time)
    ensures HasStale(s.sessions, c, at) <==> EndedOn(s, c, at)
  {
    if HasStale(s.sessions, c, at) {
      var i :| 0 <= i < |s.sessions| && s.sessions[i].cell == c && Stale(s.sessions[i], at);
      assert Ended(s.sessions[i], at);
    }
    if EndedOn(s, c, at) {
      var i :| 0 <= i < |s.sessions| && s.sessions[i].cell == c && Ended(s.sessions[i], at);
      assert Stale(s.sessions[i], at);
    }
  }

  // ---------------------------------------------------------------- booking

  /** A selection of the location that can still be booked. */
  predicate Held(s: State, i: nat, location: int, selectionId: Id, at: Time) {
    Sits(s, i, location) && s.sessions[i].selectionId == selectionId && s.sessions[i].status == Selected
    && at <= s.sessions[i].createdAt + 90_000_000
  }

  /** No row carries an id of the ticket. */
  predicate Unused(s: State, t: Ticket) {
    (forall j :: 0 <= j < |s.sessions| ==>
                   s.sessions[j].bookingId != Some(t.bookingId) && s.sessions[j].rentalId != Some(t.rentalId))
    && (forall k :: 0 <= k < |s.payments| ==> s.payments[k].paymentId != t.paymentId)
  }

  lemma {:induction false} HeldIsBookable(s: State, e: Event)
    requires SessionsOk(s) && e.op.CreateBooking?
    ensures forall i: nat :: Held(s, i, e.op.location, e.op.selectionId, e.at)
                             <==> Bookable(s, e.op.location, e.op.selectionId, e.at) == Some(i)
  {
    forall i: nat
      ensures Held(s, i, e.op.location, e.op.selectionId, e.at)
              <==> Bookable(s, e.op.location, e.op.selectionId, e.at) == Some(i)
    {
      if i < |s.sessions| {
        assert SessionOk(s.cells, s.sessions[i]);
        SelectionUnique(s, i);
      }
    }
  }

  /** A booking is refused for an ended selection exactly when no selection of that id is held at the location,
      for its ids exactly when one is and some row carries one of them, and made otherwise. */
  lemma {:induction false} BookingAnswers(s: State, e: Event)
    requires SessionsOk(s) && e.op.CreateBooking?
    ensures var held := exists i: nat :: Held(s, i, e.op.location, e.op.selectionId, e.at);
            (Answer(s, e) == SelectionExpired <==> !held)
            && (Answer(s, e) == DbError <==> held && !Unused(s, e.op.ticket))
            && (Answer(s, e).Booked? <==> held && Unused(s, e.op.ticket))
  {
    HeldIsBookable(s, e);
    var row := Bookable(s, e.op.location, e.op.selectionId, e.at);
    if row.Some? {
      assert Held(s, row.value, e.op.location, e.op.selectionId, e.at);
    }
  }

  /** What a booking writes: that session becomes an active rental opened now, its cell is occupied, and one
      pending payment of 900, due in five minutes, is added. */
  lemma {:induction false} BookingWrites(s: State, e: Event, i: nat)
    requires SessionsOk(s) && e.op.CreateBooking? && Answer(s, e).Booked?
    requires Held(s, i, e.op.location, e.op.selectionId, e.at)
    ensures var t, s', x := e.op.ticket, Apply(s, e), s.sessions[i];
            Answer(s, e) == Booked(t, e.op.location, x.cellNumber, e.at)
            && OnlyRow(s, s', i, x.cell) && s'.cells[x.cell] == s.cells[x.cell].(status := Occupied)
            && s'.sessions[i] == Session(x.selectionId, x.cell, x.cellNumber, x.size, x.createdAt, x.hold, Active,
                                         Some(t.bookingId), Some(t.rentalId), t.phone, Some(t.code),
                                         Some(e.at / 1_000_000), x.finishedAt)
            && s'.payments == s.payments
                              + [Payment(i, t.rentalId, t.paymentId, 900, Pending, e.at + 300_000_000, e.at, None)]
  {
    HeldIsBookable(s, e);
    assert Bookable(s, e.op.location, e.op.selectionId, e.at) == Some(i);
  }

  // ---------------------------------------------------------------- payments

  /** Polling answers not-found exactly when no payment has the id; otherwise it answers that payment as the
      look it takes leaves it.  No cell and no session changes. */
  lemma {:induction false} PollAnswers(s: State, e: Event)
    requires e.op.GetPayment?
    ensures Answer(s, e) == PaymentNotFound <==> forall k :: 0 <= k < |s.payments| ==>
              s.payments[k].paymentId != e.op.paymentId
    ensures Answer(s, e) == PaymentNotFound ==> Apply(s, e) == s
    ensures var s' := Apply(s, e); s'.locations == s.locations && s'.cells == s.cells && s'.sessions == s.sessions
  {
  }

  lemma {:induction false} PollShows(s: State, e: Event, k: nat)
    requires PaymentsOk(s) && e.op.GetPayment? && k < |s.payments| && s.payments[k].paymentId == e.op.paymentId
    ensures var s' := Apply(s, e);
            OnlyLooked(s, s', s.payments[k].rentalId, e.at)
            && Answer(s, e) == PaymentInfo(e.op.paymentId, s'.payments[k].status, 900, s'.payments[k].paidAt)
  {
    assert PaymentOk(s.sessions, s.payments[k]);
    PaymentUnique(s, k);
  }

  /** A payment id finds its own row. */
  lemma {:induction false} PaymentUnique(s: State, k: nat)
    requires PaymentsOk(s) && k < |s.payments|
    ensures FindPayment(s.payments, s.payments[k].paymentId) == Some(k)
  {
    forall j | 0 <= j < k
      ensures s.payments[j].paymentId != s.payments[k].paymentId
    {
    }
  }

  // ---------------------------------------------------------------- the access code

  /** An active rental of the location with this code. */
  predicate Admitted(s: State, i: nat, location: int, code: string) {
    Sits(s, i, location) && s.sessions[i].status == Active && s.sessions[i].code == Some(code)
  }

  /** A check answers invalid exactly when no active rental of the location has the code, and changes then
      nothing; it never changes a cell or a session. */
  lemma {:induction false} CheckAnswers(s: State, e: Event)
    requires SessionsOk(s) && e.op.CheckAccessCode?
    ensures Answer(s, e) == InvalidAccess <==> !exists i: nat :: Admitted(s, i, e.op.location, e.op.code)
    ensures Answer(s, e) == InvalidAccess ==> Apply(s, e) == s
    ensures var s' := Apply(s, e); s'.locations == s.locations && s'.cells == s.cells && s'.sessions == s.sessions
  {
    var row := FindCode(s.cells, s.sessions, e.op.location, e.op.code);
    if row.Some? {
      assert Admitted(s, row.value, e.op.location, e.op.code);
    } else {
      forall i: nat
        ensures !Admitted(s, i, e.op.location, e.op.code)
      {
        if i < |s.sessions| {
          assert !OpensWith(s.cells, s.sessions[i], e.op.location, e.op.code);
        }
      }
    }
  }

  /** Otherwise it answers such a rental with its cell number and phone, for payment exactly when the rental's
      own payment is not paid after the look the check takes, and then with that payment. */
  lemma {:induction false} CheckShows(s: State, e: Event) returns (i: nat, k: nat)
    requires SessionsOk(s) && PaymentsOk(s) && e.op.CheckAccessCode? && Answer(s, e) != InvalidAccess
    ensures Admitted(s, i, e.op.location, e.op.code) && s.sessions[i].rentalId.Some?
    ensures k < |s.payments| && s.payments[k].session == i
    ensures var x, s' := s.sessions[i], Apply(s, e);
            OnlyLooked(s, s', x.rentalId.value, e.at)
            && Answer(s, e) == if s'.payments[k].status == Paid
                               then AccessGranted(x.rentalId.value, e.op.location, x.cellNumber, x.phone, e.op.code)
                               else AccessUnpaid(x.rentalId.value, e.op.location, x.cellNumber, x.phone, e.op.code,
                                                 s'.payments[k])
  {
    i := FindCode(s.cells, s.sessions, e.op.location, e.op.code).value;
    assert SessionOk(s.cells, s.sessions[i]);
    RentalUnique(s, i);
    OnePayment(s, i);
    k := LatestPayment(s.payments, i).value;
    LookKeepsLatest(s, i, k, e.at);
    CheckReads(s, e, i, k);
  }

  lemma {:induction false} CheckReads(s: State, e: Event, i: nat, k: nat)
    requires e.op.CheckAccessCode? && FindCode(s.cells, s.sessions, e.op.location, e.op.code) == Some(i)
    requires s.sessions[i].rentalId.Some? && FindRental(s.sessions, s.sessions[i].rentalId.value) == Some(i)
    requires k < |s.payments|
    requires LatestPayment(Do(s, Refresh(s.sessions[i].rentalId.value, e.at)).payments, i) == Some(k)
    ensures var x, s' := s.sessions[i], Apply(s, e);
            OnlyLooked(s, s', x.rentalId.value, e.at)
            && Answer(s, e) == if s'.payments[k].status == Paid
                               then AccessGranted(x.rentalId.value, e.op.location, x.cellNumber, x.phone, e.op.code)
                               else AccessUnpaid(x.rentalId.value, e.op.location, x.cellNumber, x.phone, e.op.code,
                                                 s'.payments[k])
  {
  }

  /** A look leaves the latest payment of its rental the same row. */
  lemma {:induction false} LookKeepsLatest(s: State, i: nat, k: nat, at: Time)
    requires SessionsOk(s) && PaymentsOk(s) && i < |s.sessions| && s.sessions[i].rentalId.Some?
    requires LatestPayment(s.payments, i) == Some(k)
    ensures LatestPayment(Do(s, Refresh(s.sessions[i].rentalId.value, at)).payments, i) == Some(k)
  {
    var look := Refresh(s.sessions[i].rentalId.value, at);
    OnePayment(s, i);
    SessionsOkKept(s, look);
    PaymentsOkKept(s, look);
    OnePayment(Do(s, look), i);
    assert Do(s, look).payments[k].rentalId == s.sessions[i].rentalId.value;
  }

  // ---------------------------------------------------------------- opening and finishing

  /** An opening answers not-found exactly when no session has the rental id, and is otherwise let through or
      asked for payment. */
  lemma {:induction false} OpenAnswers(s: State, e: Event)
    requires SessionsOk(s) && PaymentsOk(s) && e.op.OpenRental?
    ensures Answer(s, e) == RentalNotFound <==> !Rented(s, e.op.rentalId)
    ensures Answer(s, e) == RentalNotFound || Answer(s, e) == PaymentRequired || Answer(s, e).Opened?
  {
    var row := FindRental(s.sessions, e.op.rentalId);
    if row.Some? {
      OnePayment(s, row.value);
      LookKeepsLatest(s, row.value, LatestPayment(s.payments, row.value).value, e.at);
    }
  }

  /** It looks at the rental's payment, and changes no cell; a refused one changes no session either. */
  lemma {:induction false} OpenChanges(s: State, e: Event)
    requires e.op.OpenRental?
    ensures var s' := Apply(s, e);
            OnlyLooked(s, s', e.op.rentalId, e.at) && s'.cells == s.cells && s'.locations == s.locations
            && (!Answer(s, e).Opened? ==> s'.sessions == s.sessions)
  {
  }

  /** A granted one stamps the opening time of its rental and changes nothing else of any session. */
  lemma {:induction false} OpenShows(s: State, e: Event, i: nat)
    requires SessionsOk(s) && e.op.OpenRental? && i < |s.sessions| && s.sessions[i].rentalId == Some(e.op.rentalId)
    requires Answer(s, e).Opened?
    ensures Answer(s, e) == Opened(e.op.rentalId, s.sessions[i].cellNumber, e.at)
    ensures Apply(s, e).sessions == s.sessions[i := s.sessions[i].(openedAt := Some(e.at / 1_000_000))]
  {
    RentalUnique(s, i);
  }

  /** A finish answers not-found exactly when no session has the rental id, and changes then nothing. */
  lemma {:induction false} FinishAnswers(s: State, e: Event)
    requires e.op.FinishRental?
    ensures Answer(s, e) == if Rented(s, e.op.rentalId) then Finished(e.op.rentalId, e.at) else RentalNotFound
    ensures !Rented(s, e.op.rentalId) ==> Apply(s, e) == s
  {
  }

  /** Otherwise it closes that session now, whatever its status, and frees its cell; no payment changes. */
  lemma {:induction false} FinishWrites(s: State, e: Event, i: nat)
    requires SessionsOk(s) && e.op.FinishRental? && i < |s.sessions| && s.sessions[i].rentalId == Some(e.op.rentalId)
    ensures var s', x := Apply(s, e), s.sessions[i];
            s'.payments == s.payments && OnlyRow(s, s', i, x.cell)
            && x.cell < |s.cells| && s'.cells[x.cell] == s.cells[x.cell].(status := Free)
            && s'.sessions[i] == x.(status := Closed, finishedAt := Some(e.at / 1_000_000))
  {
    assert SessionOk(s.cells, s.sessions[i]);
    RentalUnique(s, i);
  }

  /** Reading a rental changes nothing, and answers not-found exactly when no session has the rental id; else it
      answers what that row and its cell hold. */
  lemma {:induction false} ReadAnswers(s: State, e: Event)
    requires SessionsOk(s) && e.op.GetRental?
    ensures Apply(s, e) == s
    ensures Answer(s, e) == RentalNotFound <==> !Rented(s, e.op.rentalId)
    ensures Answer(s, e) != RentalNotFound ==> Answer(s, e).RentalInfo?
  {
    var row := FindRental(s.sessions, e.op.rentalId);
    if row.Some? {
      assert SessionOk(s.cells, s.sessions[row.value]);
    }
  }

  lemma {:induction false} ReadShows(s: State, e: Event, i: nat)
    requires SessionsOk(s) && e.op.GetRental? && i < |s.sessions| && s.sessions[i].rentalId == Some(e.op.rentalId)
    ensures var x := s.sessions[i];
            x.cell < |s.cells| && x.bookingId.Some? && x.code.Some?
            && Answer(s, e) == RentalInfo(x.bookingId.value, e.op.rentalId, s.cells[x.cell].location, x.cellNumber,
                                          x.phone, x.code.value, x.status, x.openedAt, x.finishedAt)
  {
    assert SessionOk(s.cells, s.sessions[i]);
    RentalUnique(s, i);
  }

  // ---------------------------------------------------------------- the panel

  /** Some active rental sits on the cell. */
  ghost predicate InUse(s: State, c: nat) {
    exists i :: 0 <= i < |s.sessions| && s.sessions[i].cell == c && s.sessions[i].status == Active
  }

  /** The panel answers not-found exactly for a cell that is not there, and refuses exactly to free or maintain
      a cell with an active rental; every other request changes the status of that cell alone and answers the
      status it had. */
  lemma {:induction false} PanelAnswers(s: State, e: Event)
    requires e.op.UpdateLockerStatus?
    ensures Answer(s, e) == LockerNotFound <==> e.op.cell >= |s.cells|
    ensures Answer(s, e) == ActiveRentalExists <==>
              e.op.cell < |s.cells| && (e.op.newStatus == Free || e.op.newStatus == Maintenance)
              && InUse(s, e.op.cell)
    ensures var c := e.op.cell;
            if Answer(s, e) == LockerNotFound || Answer(s, e) == ActiveRentalExists then Apply(s, e) == s
            else c < |s.cells| && Answer(s, e) == StatusChanged(c, s.cells[c].status, e.at)
                 && Apply(s, e) == s.(cells := s.cells[c := s.cells[c].(status := e.op.newStatus)])
  {
    assert InUse(s, e.op.cell) <==> HasSession(s, e.op.cell, Active);
  }
}
