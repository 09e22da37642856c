/** One customer from the selection to the revenue report: what the operations tell of the same rental, with
    any run of other operations between them.  Times are written out in microseconds. */
module Journey {
  import opened Tables
  import opened Operations
  import opened Traces
  import opened Invariants
  import opened Lifecycle
  import opened Payments
  import opened Answers
  import Revenue

  // ---------------------------------------------------------------- the hold

  predicate Books(s: State, e: Event, selectionId: Id) {
    e.op.CreateBooking? && e.op.selectionId == selectionId && Answer(s, e).Booked?
  }

  /** No event of the run books the selection. */
  predicate NeverBooked(s: State, es: seq<Event>, selectionId: Id)
    decreases |es|
  {
    es == [] || (!Books(s, es[0], selectionId) && NeverBooked(Apply(s, es[0]), es[1..], selectionId))
  }

  /** Up to the end of its hold only a booking takes a session out of the selected state. */
  lemma {:induction false} StaysSelected(s: State, e: Event, i: nat)
    requires SessionsOk(s) && i < |s.sessions| && s.sessions[i].status == Selected && e.at <= s.sessions[i].hold
    ensures i < |Apply(s, e).sessions|
    ensures Apply(s, e).sessions[i].status == Selected <==> !Books(s, e, s.sessions[i].selectionId)
  {
    assert SessionOk(s.cells, s.sessions[i]);
    PlanTakes(s, e, i);
    EffectTakes(s, Plan(s, e).0, i);
    if !Takes(Plan(s, e).0, i) {
      EffectTakes(Do(s, Plan(s, e).0), Plan(s, e).1, i);
    } else {
      assert Plan(s, e).1 == Nop;
    }
  }

  /** The effect ends the selected state of session `i`. */
  predicate Takes(e: Effect, i: nat) {
    (e.Book? && e.row == i) || (e.Expire? && i in e.rows)
  }

  lemma {:induction false} EffectTakes(s: State, e: Effect, i: nat)
    requires i < |s.sessions| && s.sessions[i].status == Selected && (e.Finish? ==> e.row != i)
    ensures i < |Do(s, e).sessions|
    ensures Do(s, e).sessions[i].status == Selected <==> !Takes(e, i)
  {
  }

  lemma {:induction false} PlanTakes(s: State, e: Event, i: nat)
    requires SessionsOk(s) && i < |s.sessions| && s.sessions[i].status == Selected && e.at <= s.sessions[i].hold
    requires s.sessions[i].rentalId.None?
    ensures Takes(Plan(s, e).0, i) <==> Books(s, e, s.sessions[i].selectionId)
    ensures Takes(Plan(s, e).0, i) ==> Plan(s, e).1 == Nop
    ensures !Takes(Plan(s, e).1, i) && (Plan(s, e).0.Finish? ==> Plan(s, e).0.row != i) && !Plan(s, e).1.Finish?
  {
    SelectionUnique(s, i);
  }

  lemma {:induction false} RunStaysSelected(s: State, t: Time, es: seq<Event>, i: nat)
    requires SessionsOk(s) && i < |s.sessions| && s.sessions[i].status == Selected
    requires Ordered(t, es) && LastTime(t, es) <= s.sessions[i].hold
    ensures SessionsOk(Run(s, es)) && i < |Run(s, es).sessions|
    ensures Run(s, es).sessions[i].status == Selected <==> NeverBooked(s, es, s.sessions[i].selectionId)
    decreases |es|
  {
    if es == [] {
    } else {
      var s', id := Apply(s, es[0]), s.sessions[i].selectionId;
      NoneEarlier(es[0].at, es[1..]);
      assert LastTime(es[0].at, es[1..]) == LastTime(t, es);
      StaysSelected(s, es[0], i);
      ApplyAdvances(s, es[0]);
      assert Moves(s.sessions[i], s'.sessions[i]);
      if Books(s, es[0], id) {
        RunAdvances(s', es[1..]);
        assert Moves(s'.sessions[i], Run(s, es).sessions[i]);
        assert SessionOk(s'.cells, s'.sessions[i]);
      } else {
        RunStaysSelected(s', es[0].at, es[1..], i);
      }
    }
  }

  /** The session a selection adds. */
  lemma {:induction false} SelectedRow(s: State, select: Event) returns (i: nat)
    requires SessionsOk(s) && select.op.CreateCellSelection? && Answer(s, select).SelectionMade?
    ensures SessionsOk(Apply(s, select)) && Sits(Apply(s, select), i, select.op.location)
    ensures var x := Apply(s, select).sessions[i];
            x.selectionId == select.op.selectionId && x.status == Selected && x.createdAt == select.at
            && x.hold == select.at + 90_000_000 && x.cellNumber == Answer(s, select).cellNumber
  {
    ApplyAdvances(s, select);
    var b := Apply(s, select);
    i := |b.sessions| - 1;
    assert SessionOk(b.cells, b.sessions[i]);
    SelectionRow(s, select);
  }

  lemma {:induction false} SelectionRow(s: State, select: Event)
    requires select.op.CreateCellSelection? && Answer(s, select).SelectionMade?
    ensures var b := Apply(s, select);
            |b.sessions| == |s.sessions| + 1 && Sits(b, |s.sessions|, select.op.location)
            && var x := b.sessions[|s.sessions|];
               x.selectionId == select.op.selectionId && x.status == Selected && x.createdAt == select.at
               && x.hold == select.at + 90_000_000 && x.cellNumber == Answer(s, select).cellNumber
  {
  }

  /** The hold is kept: a selection is booked, at its location and with the cell number it was told, exactly
      when this is its first booking and comes within 90 seconds, whatever else happened in between, admin
      changes of its cell included. */
  lemma {:induction false} HoldIsKept(s: State, select: Event, es: seq<Event>, book: Event)
    requires SessionsOk(s) && select.op.CreateCellSelection? && Answer(s, select).SelectionMade?
    requires book.op.CreateBooking? && book.op.selectionId == select.op.selectionId
    requires book.op.location == select.op.location
    requires Ordered(select.at, es) && LastTime(select.at, es) <= book.at
    requires Unused(Run(Apply(s, select), es), book.op.ticket)
    ensures var b := Apply(s, select);
            var r := Answer(Run(b, es), book);
            (r.Booked? <==> NeverBooked(b, es, select.op.selectionId) && book.at <= select.at + 90_000_000)
            && (!r.Booked? ==> r == SelectionExpired)
            && (r.Booked? ==> r == Booked(book.op.ticket, select.op.location, Answer(s, select).cellNumber, book.at))
  {
    var i := SelectedRow(s, select);
    var b := Apply(s, select);
    var s' := Run(b, es);
    RunAdvances(b, es);
    assert Moves(b.sessions[i], s'.sessions[i]) && SessionOk(s'.cells, s'.sessions[i]);
    assert SessionOk(b.cells, b.sessions[i]);
    if book.at <= select.at + 90_000_000 {
      RunStaysSelected(b, select.at, es, i);
    }
    OnlyHeldRow(s', book, i);
    BookingAnswers(s', book);
    if Answer(s', book).Booked? {
      BookingWrites(s', book, i);
    }
  }

  lemma {:induction false} OnlyHeldRow(s: State, book: Event, i: nat)
    requires SessionsOk(s) && book.op.CreateBooking? && Sits(s, i, book.op.location)
    requires s.sessions[i].selectionId == book.op.selectionId
    ensures (exists j: nat :: Held(s, j, book.op.location, book.op.selectionId, book.at))
            <==> s.sessions[i].status == Selected && book.at <= s.sessions[i].createdAt + 90_000_000
  {
    if s.sessions[i].status == Selected && book.at <= s.sessions[i].createdAt + 90_000_000 {
      assert Held(s, i, book.op.location, book.op.selectionId, book.at);
    }
    forall j: nat | Held(s, j, book.op.location, book.op.selectionId, book.at)
      ensures j == i
    {
      SelectionUnique(s, i);
      SelectionUnique(s, j);
    }
  }

  // ---------------------------------------------------------------- the rows of a booking

  /** The row carries what was booked. */
  predicate IsRentalOf(x: Session, s: State, book: Event)
    requires book.op.CreateBooking? && Answer(s, book).Booked?
  {
    var t := book.op.ticket;
    x.rentalId == Some(t.rentalId) && x.bookingId == Some(t.bookingId) && x.code == Some(t.code)
    && x.phone == t.phone && x.cellNumber == Answer(s, book).cellNumber
  }

  /** The session and the payment of a booking, after it and any run. */
  lemma {:induction false} RentedRows(s: State, book: Event, es: seq<Event>) returns (i: nat, k: nat)
    requires SessionsOk(s) && book.op.CreateBooking? && Answer(s, book).Booked?
    ensures var b, s' := Apply(s, book), Run(Apply(s, book), es);
            SessionsOk(b) && SessionsOk(s') && i < |b.sessions| && Sits(s', i, book.op.location)
            && b.sessions[i].status == Active && b.sessions[i].openedAt == Some(book.at / 1_000_000)
            && IsRentalOf(b.sessions[i], s, book) && IsRentalOf(s'.sessions[i], s, book)
            && k < |b.payments| && b.payments[k] == PaymentOf(i, book)
  {
    BookingAnswers(s, book);
    i :| Held(s, i, book.op.location, book.op.selectionId, book.at);
    BookingWrites(s, book, i);
    k := |s.payments|;
    var b := Apply(s, book);
    ApplyAdvances(s, book);
    RunAdvances(b, es);
    assert Moves(s.sessions[i], b.sessions[i]) && Moves(b.sessions[i], Run(b, es).sessions[i]);
    assert SessionOk(Run(b, es).cells, Run(b, es).sessions[i]);
  }

  /** The payment a booking adds for session `i`. */
  function PaymentOf(i: nat, book: Event): Payment
    requires book.op.CreateBooking?
  {
    Payment(i, book.op.ticket.rentalId, book.op.ticket.paymentId, 900, Pending, book.at + 300_000_000, book.at, None)
  }

  // ---------------------------------------------------------------- the payment

  /** The first of the looks at a booking's payment that comes at least five seconds after it. */
  function Settled(looks: seq<Time>, book: Event): Option<Time> {
    FirstLook(looks, book.at + 5_000_000)
  }

  /** What the payment is once that look has come: paid if it came within five minutes, else lapsed. */
  function StatusOf(settled: Option<Time>, book: Event): PaymentStatus {
    if settled.None? then Pending else if settled.value <= book.at + 300_000_000 then Paid else Lapsed
  }

  function PaymentOnceSettled(i: nat, book: Event, settled: Option<Time>): Payment
    requires book.op.CreateBooking?
  {
    PaymentOf(i, book).(status := StatusOf(settled, book), paidAt := settled)
  }

  /** A payment after a look is determined by what it was. */
  lemma {:induction false} LookedIs(p: Payment, q: Payment, now: Time)
    requires Looked(p, q, p.rentalId, now) && p.createdAt + 5_000_000 <= p.expiresAt
    ensures q == RefreshPayment(p, now)
  {
  }

  /** The booking's payment after a run, and after one more look at it. */
  lemma {:induction false} PaymentTells(s: State, book: Event, es: seq<Event>, at: Time) returns (i: nat, k: nat)
    requires SessionsOk(s) && PaymentsOk(s) && book.op.CreateBooking? && Answer(s, book).Booked?
    requires Ordered(book.at, es) && LastTime(book.at, es) <= at
    ensures var b, rid := Apply(s, book), book.op.ticket.rentalId;
            var s', looks := Run(b, es), LookTimes(b, es, rid);
            SessionsOk(s') && PaymentsOk(s') && k < |s'.payments| && Sits(s', i, book.op.location)
            && s'.sessions[i].rentalId == Some(rid) && s'.sessions[i].cellNumber == Answer(s, book).cellNumber
            && s'.payments[k] == PaymentOnceSettled(i, book, Settled(looks, book))
            && RefreshPayment(s'.payments[k], at) == PaymentOnceSettled(i, book, Settled(looks + [at], book))
  {
    i, k := RentedRows(s, book, es);
    PaymentsAfter(s, book, es);
    PaymentSettles(Apply(s, book), book, es, at, i, k);
  }

  lemma {:induction false} PaymentSettles(b: State, book: Event, es: seq<Event>, at: Time, i: nat, k: nat)
    requires book.op.CreateBooking? && k < |b.payments| && b.payments[k] == PaymentOf(i, book)
    requires Ordered(book.at, es) && LastTime(book.at, es) <= at
    ensures var s', looks := Run(b, es), LookTimes(b, es, book.op.ticket.rentalId);
            k < |s'.payments| && s'.payments[k] == PaymentOnceSettled(i, book, Settled(looks, book))
            && RefreshPayment(s'.payments[k], at) == PaymentOnceSettled(i, book, Settled(looks + [at], book))
  {
    var looks := LookTimes(b, es, book.op.ticket.rentalId);
    RunRefreshes(b, es, k);
    LookTimesOrdered(b, book.at, es, book.op.ticket.rentalId);
    LazyIsClosedForm(b.payments[k], looks);
    SettledForm(i, book, looks);
    LookedAfterRun(b, book.at, es, k, at);
    SettledForm(i, book, looks + [at]);
  }

  lemma {:induction false} SettledForm(i: nat, book: Event, looks: seq<Time>)
    requires book.op.CreateBooking?
    ensures ClosedForm(PaymentOf(i, book), looks) == PaymentOnceSettled(i, book, Settled(looks, book))
  {
  }

  /** Polling a booking's payment after any run answers 900, pending until a look has come at least five seconds
      after the booking, this one included; then paid if that look came within five minutes, else lapsed, with
      its time. */
  lemma {:induction false} PollTells(s: State, book: Event, es: seq<Event>, at: Time)
    requires SessionsOk(s) && PaymentsOk(s) && book.op.CreateBooking? && Answer(s, book).Booked?
    requires Ordered(book.at, es) && LastTime(book.at, es) <= at
    ensures var b, t := Apply(s, book), book.op.ticket;
            var settled := Settled(LookTimes(b, es, t.rentalId) + [at], book);
            Answer(Run(b, es), Event(at, GetPayment(t.paymentId)))
            == PaymentInfo(t.paymentId, StatusOf(settled, book), 900, settled)
  {
    var i, k := PaymentTells(s, book, es, at);
    var s', e := Run(Apply(s, book), es), Event(at, GetPayment(book.op.ticket.paymentId));
    PollShows(s', e, k);
    LookedIs(s'.payments[k], Apply(s', e).payments[k], at);
  }

  // ---------------------------------------------------------------- the access code

  /** While the rental is not finished, its code is answered, at its location, with the rental, the cell number
      the booking told and the phone it was given, if no other active rental there has the code. */
  lemma {:induction false} CheckTells(s: State, book: Event, es: seq<Event>, at: Time)
    requires SessionsOk(s) && PaymentsOk(s) && book.op.CreateBooking? && Answer(s, book).Booked?
    requires Unfinished(es, book.op.ticket.rentalId) && CodesDistinct(Run(Apply(s, book), es))
    ensures var t := book.op.ticket;
            var r := Answer(Run(Apply(s, book), es), Event(at, CheckAccessCode(book.op.location, t.code)));
            Admits(r) && r.rentalId == t.rentalId && r.location == book.op.location
            && r.cellNumber == Answer(s, book).cellNumber && r.phone == t.phone && r.code == t.code
  {
    var i, k := CheckedRow(s, book, es, at);
  }

  /** The rows behind that answer are the rental's own. */
  lemma {:induction false} CheckedRow(s: State, book: Event, es: seq<Event>, at: Time) returns (i: nat, k: nat)
    requires SessionsOk(s) && PaymentsOk(s) && book.op.CreateBooking? && Answer(s, book).Booked?
    requires Unfinished(es, book.op.ticket.rentalId) && CodesDistinct(Run(Apply(s, book), es))
    ensures var t, s' := book.op.ticket, Run(Apply(s, book), es);
            var e := Event(at, CheckAccessCode(book.op.location, t.code));
            k < |s'.payments| && s'.payments[k].rentalId == t.rentalId && OnlyLooked(s', Apply(s', e), t.rentalId, at)
            && var q, n := Apply(s', e).payments[k], Answer(s, book).cellNumber;
               Answer(s', e) == if q.status == Paid then AccessGranted(t.rentalId, book.op.location, n, t.phone, t.code)
                                else AccessUnpaid(t.rentalId, book.op.location, n, t.phone, t.code, q)
  {
    var j, l := RentedRows(s, book, es);
    var t, s' := book.op.ticket, Run(Apply(s, book), es);
    var e := Event(at, CheckAccessCode(book.op.location, t.code));
    RunActiveUnlessFinished(Apply(s, book), es, j);
    assert Admitted(s', j, book.op.location, t.code);
    PaymentsAfter(s, book, es);
    CheckAnswers(s', e);
    i, k := CheckShows(s', e);
    assert i == j by {
      SameCodeSameRow(s', i, j, book.op.location, t.code);
    }
    assert PaymentOk(s'.sessions, s'.payments[k]);
  }

  lemma {:induction false} SameCodeSameRow(s: State, i: nat, j: nat, location: int, code: string)
    requires CodesDistinct(s) && Admitted(s, i, location, code) && Admitted(s, j, location, code)
    ensures i == j
  {
    assert LocationOf(s.cells, s.sessions[i]) == LocationOf(s.cells, s.sessions[j]);
  }

  /** And it is let in without payment exactly when its payment has been paid, this look included; otherwise the
      answer carries that payment, pending or lapsed. */
  lemma {:induction false} CheckAsksForPayment(s: State, book: Event, es: seq<Event>, at: Time) returns (i: nat)
    requires SessionsOk(s) && PaymentsOk(s) && book.op.CreateBooking? && Answer(s, book).Booked?
    requires Unfinished(es, book.op.ticket.rentalId) && CodesDistinct(Run(Apply(s, book), es))
    requires Ordered(book.at, es) && LastTime(book.at, es) <= at
    ensures var t, b := book.op.ticket, Apply(s, book);
            var settled := Settled(LookTimes(b, es, t.rentalId) + [at], book);
            var r := Answer(Run(b, es), Event(at, CheckAccessCode(book.op.location, t.code)));
            (r.AccessGranted? <==> StatusOf(settled, book) == Paid)
            && (!r.AccessGranted? ==> r.AccessUnpaid? && r.payment == PaymentOnceSettled(i, book, settled))
  {
    var k, j, l;
    i, k := PaymentTells(s, book, es, at);
    j, l := CheckedRow(s, book, es, at);
    var t, s' := book.op.ticket, Run(Apply(s, book), es);
    OnePayment(s', i);
    assert k == l;
    LookedIs(s'.payments[k], Apply(s', Event(at, CheckAccessCode(book.op.location, t.code))).payments[k], at);
  }

  // ---------------------------------------------------------------- opening

  /** Opening a booked rental after any run: let through, with the cell number the booking told, exactly when its
      payment has been paid, this look included; otherwise asked for payment, and no session changes. */
  lemma {:induction false} OpenTells(s: State, book: Event, es: seq<Event>, open: Event)
    requires SessionsOk(s) && PaymentsOk(s) && book.op.CreateBooking? && Answer(s, book).Booked?
    requires open.op.OpenRental? && open.op.rentalId == book.op.ticket.rentalId
    requires Ordered(book.at, es) && LastTime(book.at, es) <= open.at
    ensures var b, rid := Apply(s, book), book.op.ticket.rentalId;
            var settled, r := Settled(LookTimes(b, es, rid) + [open.at], book), Answer(Run(b, es), open);
            if StatusOf(settled, book) == Paid then r == Opened(rid, Answer(s, book).cellNumber, open.at)
            else r == PaymentRequired && Apply(Run(b, es), open).sessions == Run(b, es).sessions
  {
    var i, k := PaymentTells(s, book, es, open.at);
    var s' := Run(Apply(s, book), es);
    OpenAnswer(s', open, k);
    if Answer(s', open).Opened? {
      OpenShows(s', open, i);
    } else {
      OpenChanges(s', open);
    }
  }

  // ---------------------------------------------------------------- the times of a rental

  predicate Opens(s: State, e: Event, rentalId: Id) {
    e.op.OpenRental? && e.op.rentalId == rentalId && Answer(s, e).Opened?
  }

  /** When the rental was last opened, `since` if it was not. */
  function LastOpened(s: State, es: seq<Event>, rentalId: Id, since: Time): Time
    decreases |es|
  {
    if es == [] then since
    else LastOpened(Apply(s, es[0]), es[1..], rentalId, if Opens(s, es[0], rentalId) then es[0].at else since)
  }

  /** When it was last finished, `since` if it was not. */
  function LastFinished(es: seq<Event>, rentalId: Id, since: Option<Time>): Option<Time>
    decreases |es|
  {
    if es == [] then since
    else LastFinished(es[1..], rentalId, if Finishes(es[0], rentalId) then Some(es[0].at) else since)
  }

  function Seconds(t: Option<Time>): Option<int> {
    if t.None? then None else Some(t.value / 1_000_000)
  }

  lemma {:induction false} StepTimes(s: State, e: Event, i: nat)
    requires SessionsOk(s) && i < |s.sessions| && s.sessions[i].rentalId.Some?
    ensures i < |Apply(s, e).sessions|
    ensures var x, y := s.sessions[i], Apply(s, e).sessions[i];
            y.rentalId == x.rentalId
            && y.openedAt == (if Opens(s, e, x.rentalId.value) then Some(e.at / 1_000_000) else x.openedAt)
            && y.finishedAt == if Finishes(e, x.rentalId.value) then Some(e.at / 1_000_000) else x.finishedAt
  {
    RentalUnique(s, i);
    assert SessionOk(s.cells, s.sessions[i]);
    PlanTimes(s, e, i);
    PlanAllowed(s, e);
    EffectTimes(s, Plan(s, e).0, i);
    EffectTimes(Do(s, Plan(s, e).0), Plan(s, e).1, i);
  }

  lemma {:induction false} EffectTimes(s: State, e: Effect, i: nat)
    requires i < |s.sessions| && s.sessions[i].rentalId.Some? && s.sessions[i].status != Selected && Allowed(s, e)
    ensures i < |Do(s, e).sessions|
    ensures var x, y := s.sessions[i], Do(s, e).sessions[i];
            y.rentalId == x.rentalId && y.status != Selected
            && y.openedAt == (if e.Stamp? && e.row == i then Some(e.at / 1_000_000) else x.openedAt)
            && y.finishedAt == if e.Finish? && e.row == i then Some(e.at / 1_000_000) else x.finishedAt
  {
  }

  lemma {:induction false} PlanTimes(s: State, e: Event, i: nat)
    requires i < |s.sessions| && s.sessions[i].rentalId.Some?
    requires FindRental(s.sessions, s.sessions[i].rentalId.value) == Some(i)
    ensures var f, g, rid := Plan(s, e).0, Plan(s, e).1, s.sessions[i].rentalId.value;
            !f.Stamp? && !g.Finish? && (g.Stamp? && g.row == i <==> Opens(s, e, rid)) && (g.Stamp? ==> g.at == e.at)
            && (f.Finish? && f.row == i <==> Finishes(e, rid)) && (f.Finish? ==> f.at == e.at)
  {
  }

  lemma {:induction false} RunTimes(s: State, es: seq<Event>, i: nat, since: Time, finished: Option<Time>)
    requires SessionsOk(s) && i < |s.sessions| && s.sessions[i].rentalId.Some?
    requires s.sessions[i].openedAt == Some(since / 1_000_000) && s.sessions[i].finishedAt == Seconds(finished)
    ensures i < |Run(s, es).sessions|
    ensures var x, rid := Run(s, es).sessions[i], s.sessions[i].rentalId.value;
            x.openedAt == Some(LastOpened(s, es, rid, since) / 1_000_000)
            && x.finishedAt == Seconds(LastFinished(es, rid, finished))
    decreases |es|
  {
    if es == [] {
    } else {
      var rid := s.sessions[i].rentalId.value;
      StepTimes(s, es[0], i);
      ApplyAdvances(s, es[0]);
      RunTimes(Apply(s, es[0]), es[1..], i, if Opens(s, es[0], rid) then es[0].at else since,
               if Finishes(es[0], rid) then Some(es[0].at) else finished);
    }
  }

  /** A rental reads back, in whole seconds, the time of its last granted opening, or of its booking if there was
      none, and of its last finish: a refused opening leaves no trace. */
  lemma {:induction false} ReadTells(s: State, book: Event, es: seq<Event>, at: Time)
    requires SessionsOk(s) && book.op.CreateBooking? && Answer(s, book).Booked?
    ensures var b, rid := Apply(s, book), book.op.ticket.rentalId;
            var r := Answer(Run(b, es), Event(at, GetRental(rid)));
            r.RentalInfo? && r.openedSec == Some(LastOpened(b, es, rid, book.at) / 1_000_000)
            && r.finishedSec == Seconds(LastFinished(es, rid, None))
  {
    var i, k := RentedRows(s, book, es);
    var b := Apply(s, book);
    assert SessionOk(b.cells, b.sessions[i]);
    RunTimes(b, es, i, book.at, None);
    ReadShows(Run(b, es), Event(at, GetRental(book.op.ticket.rentalId)), i);
  }

  // ---------------------------------------------------------------- the revenue

  /** A booking's payment is in the group of its location, and of no other, exactly when the first settled look
      came within five minutes of the booking and inside the window. */
  lemma {:induction false} RevenueTells(s: State, book: Event, es: seq<Event>, w: Revenue.Window) returns (k: nat)
    requires SessionsOk(s) && PaymentsOk(s) && book.op.CreateBooking? && Answer(s, book).Booked?
    requires book.op.location in s.locations && Ordered(book.at, es)
    ensures var b, t := Apply(s, book), book.op.ticket;
            var s', settled := Run(b, es), Settled(LookTimes(b, es, t.rentalId), book);
            k < |s'.payments| && s'.payments[k].paymentId == t.paymentId && s'.payments[k].amount == 900
            && forall l :: k in Revenue.GroupOf(s', w, l)
                           <==> l == book.op.location && settled.Some? && settled.value <= book.at + 300_000_000
                                && w.from <= settled.value < w.to
  {
    var i;
    i, k := PaymentTells(s, book, es, LastTime(book.at, es));
    RunLocations(s, [book]);
    RunLocations(Apply(s, book), es);
    assert [book][1..] == [];
    assert Run(s, [book]) == Run(Apply(s, book), []);
  }

  lemma {:induction false} RunLocations(s: State, es: seq<Event>)
    ensures Run(s, es).locations == s.locations
    decreases |es|
  {
    if es == [] {
    } else {
      ApplyLocations(s, es[0]);
      RunLocations(Apply(s, es[0]), es[1..]);
    }
  }

  lemma {:induction false} ApplyLocations(s: State, e: Event)
    ensures Apply(s, e).locations == s.locations
  {
    var p := Plan(s, e);
    assert Do(s, p.0).locations == s.locations;
  }
}
