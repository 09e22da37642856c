/** The repository as an object over its three tables.  Each method issues its statements one by one,
    as the transaction does, and undoes them where the transaction rolls back. */
module RentalStore {
  import opened Tables
  import opened Operations

  class Store {
    const locations: set<int>
    var cells: seq<Cell>
    var sessions: seq<Session>
    var payments: seq<Payment>

    ghost function Db(): State
      reads this
    {
      State(locations, cells, sessions, payments)
    }

    constructor (locations: set<int>, cells: seq<Cell>)
      ensures Db() == State(locations, cells, [], []) && Initial(Db())
    {
      this.locations, this.cells, this.sessions, this.payments := locations, cells, [], [];
    }

    method CleanupExpiredSelections(now: Time)
      modifies `cells, `sessions
      ensures IsCleaned(old(Db()), Db(), now) && Db() == Cleaned(old(Db()), now)
    {
      CleanedRows(Db(), now);
      var freed := StaleCells(cells, sessions, now);
      sessions := ExpireRows(sessions, StaleRows(sessions, now));
      cells := FreeCells(cells, freed);
    }

    method CreateCellSelection(now: Time, location: int, size: Size, selectionId: Id) returns (reply: Reply)
      modifies `cells, `sessions
      ensures var e := Event(now, Op.CreateCellSelection(location, size, selectionId));
              Db() == Apply(old(Db()), e) && reply == Answer(old(Db()), e)
      ensures !reply.SelectionMade? ==> Db() == old(Db())
    {
      ghost var was := Db();
      var cells0, sessions0 := cells, sessions;
      CleanupExpiredSelections(now);
      if location !in locations {
        SelectionRefused(was, now, location, size, selectionId);
        cells, sessions := cells0, sessions0;
        return LockerNotFound;
      }
      var pick := LowestFree(cells, location, size, {});
      if pick.None? {
        SelectionRefused(was, now, location, size, selectionId);
        cells, sessions := cells0, sessions0;
        return NoCellsAvailable;
      }
      var c := pick.value;
      ghost var m := Db();
      if cells[c].status == Free {
        cells := WithStatus(cells, c, Reserved);
      }
      CleanedSelections(was, now, selectionId);
      if FindSelection(sessions, selectionId).Some? {
        SelectionRefused(was, now, location, size, selectionId);
        cells, sessions := cells0, sessions0;
        return DbError;
      }
      var hold := now + HOLD;
      sessions := sessions + [Session(selectionId, c, cells[c].no, size, now, hold, Selected,
                                      None, None, "", None, None, None)];
      assert cells == WithStatus(m.cells, c, Reserved);
      assert sessions == m.sessions + [NewSession(m.cells, c, selectionId, now)];
      assert Db() == Do(m, Reserve(c, selectionId, now));
      SelectionApplied(was, now, location, size, selectionId, c);
      return SelectionMade(selectionId, location, size, cells[c].no, hold);
    }

    method CreateBooking(now: Time, location: int, selectionId: Id, ticket: Ticket) returns (reply: Reply)
      modifies this
      ensures var e := Event(now, Op.CreateBooking(location, selectionId, ticket));
              Db() == Apply(old(Db()), e) && reply == Answer(old(Db()), e)
      ensures !reply.Booked? ==> Db() == old(Db())
    {
      ghost var was := Db();
      var cells0, sessions0 := cells, sessions;
      var row := FindSelection(sessions, selectionId);
      if Bookable(was, location, selectionId, now).None? || !FreshTicket(was, ticket) {
        BookingRefused(was, now, location, selectionId, ticket);
      }
      if row.None? || LocationOf(cells, sessions[row.value]) != Some(location) {
        return SelectionExpired;
      }
      var i := row.value;
      var x := sessions[i];
      if x.status != Selected || now > x.hold {
        sessions := sessions[i := x.(status := Expired)];
        if x.cell < |cells| && cells[x.cell].status == Reserved {
          cells := WithStatus(cells, x.cell, Free);
        }
        cells, sessions := cells0, sessions0;
        return SelectionExpired;
      }
      if FindBooking(sessions, ticket.bookingId).Some? || FindRental(sessions, ticket.rentalId).Some? {
        return DbError;
      }
      sessions := sessions[i := x.(bookingId := Some(ticket.bookingId), rentalId := Some(ticket.rentalId),
                                   phone := ticket.phone, code := Some(ticket.code), status := Active,
                                   openedAt := Some(now / SECOND))];
      if FindPayment(payments, ticket.paymentId).Some? {
        sessions := sessions0;
        assert sessions == old(sessions);
        return DbError;
      }
      payments := payments + [Payment(i, ticket.rentalId, ticket.paymentId, PRICE, Pending,
                                      now + PAY_WINDOW, now, None)];
      cells := WithStatus(cells, x.cell, Occupied);
      assert sessions == was.sessions[i := BookedRow(x, ticket, now)];
      assert Db() == Do(was, Book(i, now, now, ticket));
      BookingApplied(was, now, location, selectionId, ticket, i);
      return Booked(ticket, location, x.cellNumber, now);
    }

    method RefreshPaymentStatus(now: Time, rentalId: Id)
      modifies `payments
      ensures Db() == Do(old(Db()), Refresh(rentalId, now)) && |payments| == |old(payments)|
      ensures forall k :: 0 <= k < |payments| ==> Looked(old(payments)[k], payments[k], rentalId, now)
    {
      payments := RefreshRows(payments, rentalId, now);
    }

    method CheckAccessCode(now: Time, location: int, code: string) returns (reply: Reply)
      modifies `payments
      ensures var e := Event(now, Op.CheckAccessCode(location, code));
              Db() == Apply(old(Db()), e) && reply == Answer(old(Db()), e)
    {
      var row := FindCode(cells, sessions, location, code);
      if row.None? {
        return InvalidAccess;
      }
      var x := sessions[row.value];
      if x.rentalId.None? {
        return DbError;
      }
      var rentalId := x.rentalId.value;
      RefreshPaymentStatus(now, rentalId);
      var again := FindRental(sessions, rentalId);
      if again.None? {
        return DbError;
      }
      var latest := LatestPayment(payments, again.value);
      if latest.None? {
        return DbError;
      }
      if sessions[again.value].status != Active {
        return RentalClosed;
      }
      var p := payments[latest.value];
      if p.status == Paid {
        return AccessGranted(rentalId, location, x.cellNumber, x.phone, code);
      }
      return AccessUnpaid(rentalId, location, x.cellNumber, x.phone, code, p);
    }

    method GetPayment(now: Time, paymentId: Id) returns (reply: Reply)
      modifies `payments
      ensures var e := Event(now, Op.GetPayment(paymentId));
              Db() == Apply(old(Db()), e) && reply == Answer(old(Db()), e)
    {
      var k := FindPayment(payments, paymentId);
      if k.Some? {
        RefreshPaymentStatus(now, payments[k.value].rentalId);
      }
      if k.None? {
        return PaymentNotFound;
      }
      var p := payments[k.value];
      return PaymentInfo(paymentId, p.status, p.amount, p.paidAt);
    }

    method OpenRental(now: Time, rentalId: Id) returns (reply: Reply)
      modifies `payments, `sessions
      ensures var e := Event(now, Op.OpenRental(rentalId));
              Db() == Apply(old(Db()), e) && reply == Answer(old(Db()), e)
    {
      RefreshPaymentStatus(now, rentalId);
      var row := FindRental(sessions, rentalId);
      if row.None? {
        return RentalNotFound;
      }
      var i := row.value;
      var latest := LatestPayment(payments, i);
      if latest.None? {
        return DbError;
      }
      if payments[latest.value].status != Paid {
        return PaymentRequired;
      }
      var cellNumber := sessions[i].cellNumber;
      sessions := sessions[i := sessions[i].(openedAt := Some(now / SECOND))];
      return Opened(rentalId, cellNumber, now);
    }

    method FinishRental(now: Time, rentalId: Id) returns (reply: Reply)
      modifies `cells, `sessions
      ensures var e := Event(now, Op.FinishRental(rentalId));
              Db() == Apply(old(Db()), e) && reply == Answer(old(Db()), e)
    {
      var row := FindRental(sessions, rentalId);
      if row.None? {
        return RentalNotFound;
      }
      var c := sessions[row.value].cell;
      sessions := sessions[row.value := sessions[row.value].(status := Closed, finishedAt := Some(now / SECOND))];
      cells := WithStatus(cells, c, Free);
      return Finished(rentalId, now);
    }

    method GetRental(now: Time, rentalId: Id) returns (reply: Reply)
      ensures reply == Answer(Db(), Event(now, Op.GetRental(rentalId)))
    {
      var row := FindRental(sessions, rentalId);
      if row.None? || LocationOf(cells, sessions[row.value]).None? {
        return RentalNotFound;
      }
      var x := sessions[row.value];
      if x.bookingId.None? || x.code.None? {
        return DbError;
      }
      return RentalInfo(x.bookingId.value, rentalId, LocationOf(cells, x).value, x.cellNumber, x.phone, x.code.value,
                        x.status, x.openedAt, x.finishedAt);
    }

    /** How many active sessions sit on a cell. */
    method CountActive(c: nat) returns (n: nat)
      ensures n > 0 <==> HasSession(Db(), c, Active)
    {
      var rows := set i | 0 <= i < |sessions| && sessions[i].cell == c && sessions[i].status == Active;
      n := |rows|;
      if HasSession(Db(), c, Active) {
        ghost var i :| 0 <= i < |sessions| && sessions[i].cell == c && sessions[i].status == Active;
        assert i in rows;
      } else {
        assert rows == {};
      }
    }

    /** The admin panel's step on the same cells. */
    method UpdateLockerStatus(now: Time, c: nat, newStatus: CellStatus) returns (reply: Reply)
      modifies `cells
      ensures var e := Event(now, Op.UpdateLockerStatus(c, newStatus));
              Db() == Apply(old(Db()), e) && reply == Answer(old(Db()), e)
      ensures !reply.StatusChanged? ==> Db() == old(Db())
    {
      StatusApplied(Db(), now, c, newStatus);
      if c >= |cells| {
        return LockerNotFound;
      }
      var previous := cells[c].status;
      if newStatus == Free || newStatus == Maintenance {
        var active := CountActive(c);
        if active > 0 {
          return ActiveRentalExists;
        }
      }
      cells := WithStatus(cells, c, newStatus);
      return StatusChanged(c, previous, now);
    }
  }
}
