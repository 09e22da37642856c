/** What a whole run says about one selection, its rental and its access code. */
module Lifecycle {
  import opened Tables
  import opened Operations
  import opened Traces
  import opened Invariants

  lemma {:induction false} RunOne(s: State, es: seq<Event>, e: Event)
    ensures Run(s, es + [e]) == Apply(Run(s, es), e)
  {
    RunConcat(s, es, [e]);
    assert [e][1..] == [];
    assert Run(Run(s, es), [e]) == Run(Apply(Run(s, es), e), []);
  }

  lemma {:induction false} RunPrefix(s: State, es: seq<Event>, k: nat)
    requires k < |es|
    ensures Run(s, es[..k + 1]) == Apply(Run(s, es[..k]), es[k])
  {
    var a, e := es[..k], es[k];
    assert es[..k + 1] == a + [e];
    RunOne(s, a, e);
  }

  /** The k-th reply of a run is the answer given in the database after the first k events. */
  lemma {:induction false} ReplyAt(s: State, es: seq<Event>, k: nat)
    requires k < |es|
    ensures Replies(s, es)[k] == Answer(Run(s, es[..k]), es[k])
    ensures Run(s, es[..k + 1]) == Apply(Run(s, es[..k]), es[k])
  {
    AnsweredAt(s, es, k);
    RunPrefix(s, es, k);
  }

  lemma {:induction false} AnsweredAt(s: State, es: seq<Event>, k: nat)
    requires k < |es|
    ensures Replies(s, es)[k] == Answer(Run(s, es[..k]), es[k])
    decreases |es|
  {
    if k == 0 {
    } else {
      AnsweredAt(Apply(s, es[0]), es[1..], k - 1);
      assert es[..k][1..] == es[1..][..k - 1];
    }
  }

  /** Every database of a run advances to every later one. */
  lemma {:induction false} LaterAdvances(s: State, a: seq<Event>, b: seq<Event>)
    requires SessionsOk(s)
    ensures SessionsOk(Run(s, a)) && SessionsOk(Run(s, a + b)) && Advances(Run(s, a), Run(s, a + b))
  {
    RunAdvances(s, a);
    RunConcat(s, a, b);
    RunAdvances(Run(s, a), b);
  }

  lemma {:induction false} Later(s: State, es: seq<Event>, k: nat, l: nat)
    requires SessionsOk(s) && k <= l <= |es|
    ensures SessionsOk(Run(s, es[..k])) && SessionsOk(Run(s, es[..l]))
    ensures Advances(Run(s, es[..k]), Run(s, es[..l]))
  {
    LaterAdvances(s, es[..k], es[k..l]);
    assert es[..l] == es[..k] + es[k..l];
  }

  // ---------------------------------------------------------------- failing transactions

  /** A failing selection or booking leaves the whole database as it was: its own cleanup, and the
      expiry it wrote before returning, are undone. */
  lemma {:induction false} FailureIsAtomic(s: State, e: Event)
    requires (e.op.CreateCellSelection? && !Answer(s, e).SelectionMade?)
             || (e.op.CreateBooking? && !Answer(s, e).Booked?)
    ensures Apply(s, e) == s
  {
  }

  /** After a booking its selection is a rental, active or closed, for the rest of the run. */
  lemma {:induction false} BookedStays(s: State, es: seq<Event>, k: nat, l: nat)
    requires SessionsOk(s) && k < l <= |es| && es[k].op.CreateBooking? && Replies(s, es)[k].Booked?
    ensures var row := FindSelection(Run(s, es[..l]).sessions, es[k].op.selectionId);
            row.Some? && row == FindSelection(Run(s, es[..k]).sessions, es[k].op.selectionId)
            && var x := Run(s, es[..l]).sessions[row.value];
               (x.status == Active || x.status == Closed) && x.rentalId == Some(es[k].op.ticket.rentalId)
               && x.code == Some(es[k].op.ticket.code)
  {
    var a, b, c := Run(s, es[..k]), Run(s, es[..k + 1]), Run(s, es[..l]);
    ReplyAt(s, es, k);
    Later(s, es, k, k + 1);
    Later(s, es, k + 1, l);
    var i := BookedRowOf(a, es[k]);
    assert Moves(b.sessions[i], c.sessions[i]);
    assert SessionOk(c.cells, c.sessions[i]);
    SelectionUnique(c, i);
  }

  /** A selection is booked at most once in a run, and a retry is refused without touching anything:
      it can neither expire the rental nor free its cell. */
  lemma {:induction false} BookedOnce(s: State, es: seq<Event>, k: nat, l: nat)
    requires SessionsOk(s) && k < l < |es|
    requires es[k].op.CreateBooking? && es[l].op.CreateBooking? && es[k].op.selectionId == es[l].op.selectionId
    requires Replies(s, es)[k].Booked?
    ensures Replies(s, es)[l] == SelectionExpired
    ensures Run(s, es[..l + 1]) == Run(s, es[..l])
  {
    BookedStays(s, es, k, l);
    ReplyAt(s, es, l);
    FailureIsAtomic(Run(s, es[..l]), es[l]);
  }

  // ---------------------------------------------------------------- access codes

  /** No two active rentals of one location share a code. */
  ghost predicate CodesDistinct(s: State) {
    forall i, j :: 0 <= i < j < |s.sessions| && s.sessions[i].status == Active && s.sessions[j].status == Active
                   && LocationOf(s.cells, s.sessions[i]) == LocationOf(s.cells, s.sessions[j])
                   ==> s.sessions[i].code != s.sessions[j].code
  }

  predicate Finishes(e: Event, rentalId: Id) {
    e.op.FinishRental? && e.op.rentalId == rentalId
  }

  /** No event of the run finishes the rental. */
  predicate Unfinished(es: seq<Event>, rentalId: Id) {
    forall k :: 0 <= k < |es| ==> !Finishes(es[k], rentalId)
  }

  lemma {:induction false} UnfinishedNext(es: seq<Event>, rentalId: Id)
    requires es != []
    ensures Unfinished(es, rentalId) <==> !Finishes(es[0], rentalId) && Unfinished(es[1..], rentalId)
  {
    assert forall k :: 1 <= k < |es| ==> es[k] == es[1..][k - 1];
  }

  /** One operation leaves a rental active exactly when it was and is not the one being finished. */
  lemma {:induction false} ActiveUnlessFinished(s: State, e: Event, i: nat)
    requires SessionsOk(s) && i < |s.sessions| && s.sessions[i].rentalId.Some?
    ensures i < |Apply(s, e).sessions|
    ensures Apply(s, e).sessions[i].status == Active <==>
              s.sessions[i].status == Active && !Finishes(e, s.sessions[i].rentalId.value)
  {
    PlanAllowed(s, e);
    RentalUnique(s, i);
    assert SessionOk(s.cells, s.sessions[i]);
    var p := Plan(s, e);
    StaysActive(s, p.0, i);
    StaysActive(Do(s, p.0), p.1, i);
  }

  lemma {:induction false} StaysActive(s: State, e: Effect, i: nat)
    requires i < |s.sessions| && s.sessions[i].status != Selected && Allowed(s, e)
    ensures i < |Do(s, e).sessions| && Do(s, e).sessions[i].status != Selected
    ensures Do(s, e).sessions[i].status == Active <==> s.sessions[i].status == Active && !(e.Finish? && e.row == i)
  {
  }

  /** Over a run a rental ends active exactly when it began so and no event of the run finishes it. */
  lemma {:induction false} RunActiveUnlessFinished(s: State, es: seq<Event>, i: nat)
    requires SessionsOk(s) && i < |s.sessions| && s.sessions[i].rentalId.Some?
    ensures i < |Run(s, es).sessions|
    ensures Run(s, es).sessions[i].status == Active <==>
              s.sessions[i].status == Active && Unfinished(es, s.sessions[i].rentalId.value)
    decreases |es|
  {
    if es == [] {
    } else {
      var s' := Apply(s, es[0]);
      ActiveUnlessFinished(s, es[0], i);
      ApplyAdvances(s, es[0]);
      assert Moves(s.sessions[i], s'.sessions[i]);
      UnfinishedNext(es, s.sessions[i].rentalId.value);
      RunActiveUnlessFinished(s', es[1..], i);
    }
  }

  /** What was booked reads back: at any later point of a run the rental is found with the data it was
      booked with, and it is active exactly when no event since has finished it. */
  lemma {:induction false} RentalReadsBack(s: State, book: Event, es: seq<Event>, at: Time)
    requires SessionsOk(s) && book.op.CreateBooking? && Answer(s, book).Booked?
    ensures var t := book.op.ticket;
            var r := Answer(Run(Apply(s, book), es), Event(at, GetRental(t.rentalId)));
            r.RentalInfo? && r.bookingId == t.bookingId && r.rentalId == t.rentalId
            && r.phone == t.phone && r.code == t.code
            && r.location == book.op.location && r.cellNumber == Answer(s, book).cellNumber
            && (r.state == Active || r.state == Closed)
            && (r.state == Active <==> Unfinished(es, t.rentalId))
  {
    var t := book.op.ticket;
    var i := BookedRowOf(s, book);
    var b := Apply(s, book);
    var s' := Run(b, es);
    ApplyAdvances(s, book);
    RunActiveUnlessFinished(b, es, i);
    RunAdvances(b, es);
    assert Moves(s.sessions[i], b.sessions[i]) && Moves(b.sessions[i], s'.sessions[i]);
    assert SessionOk(s'.cells, s'.sessions[i]);
    RentalUnique(s', i);
    RentalAnswered(s', at, t.rentalId, i);
  }

  /** Times read back too, in whole seconds: an opening and a finish are what the rental shows next. */
  lemma {:induction false} TimesReadBack(s: State, e: Event, at: Time)
    requires SessionsOk(s)
    requires ((e.op.OpenRental? && Answer(s, e).Opened?) || (e.op.FinishRental? && Answer(s, e).Finished?))
    ensures var r := Answer(Apply(s, e), Event(at, GetRental(e.op.rentalId)));
            r.RentalInfo? && (e.op.OpenRental? ==> r.openedSec == Some(e.at / SECOND))
            && (e.op.FinishRental? ==> r.state == Closed && r.finishedSec == Some(e.at / SECOND))
  {
    var s' := Apply(s, e);
    var i := TouchedRow(s, e);
    ApplyAdvances(s, e);
    assert Moves(s.sessions[i], s'.sessions[i]);
    assert SessionOk(s.cells, s.sessions[i]) && SessionOk(s'.cells, s'.sessions[i]);
    RentalUnique(s', i);
    RentalAnswered(s', at, e.op.rentalId, i);
  }

  lemma {:induction false} TouchedRow(s: State, e: Event) returns (i: nat)
    requires (e.op.OpenRental? && Answer(s, e).Opened?) || (e.op.FinishRental? && Answer(s, e).Finished?)
    ensures i < |s.sessions| && s.sessions[i].rentalId == Some(e.op.rentalId) && |Apply(s, e).sessions| == |s.sessions|
    ensures e.op.OpenRental? ==> Apply(s, e).sessions[i].openedAt == Some(e.at / SECOND)
    ensures e.op.FinishRental? ==> Apply(s, e).sessions[i] == ClosedRow(s.sessions[i], e.at)
  {
    i := FindRental(s.sessions, e.op.rentalId).value;
  }

  /** With distinct codes, the issued code finds its rental from the booking until the finish. */
  lemma {:induction false} CodeFindsRental(s: State, book: Event, es: seq<Event>)
    requires SessionsOk(s) && book.op.CreateBooking? && Answer(s, book).Booked?
    requires Unfinished(es, book.op.ticket.rentalId)
    requires CodesDistinct(Run(Apply(s, book), es))
    ensures var s' := Run(Apply(s, book), es);
            var row := FindCode(s'.cells, s'.sessions, book.op.location, book.op.ticket.code);
            row.Some? && s'.sessions[row.value].rentalId == Some(book.op.ticket.rentalId)
  {
    var i := BookedRowOf(s, book);
    var b := Apply(s, book);
    ApplyAdvances(s, book);
    RunActiveUnlessFinished(b, es, i);
    RunAdvances(b, es);
    var s' := Run(b, es);
    assert Moves(b.sessions[i], s'.sessions[i]);
    assert OpensWith(s'.cells, s'.sessions[i], book.op.location, book.op.ticket.code);
  }

  /** Once finished, no code finds the rental again. */
  lemma {:induction false} CodeDiesWithFinish(s: State, finish: Event, es: seq<Event>, location: int, code: string)
    requires SessionsOk(s) && finish.op.FinishRental? && Answer(s, finish).Finished?
    ensures var s' := Run(Apply(s, finish), es);
            var row := FindCode(s'.cells, s'.sessions, location, code);
            row.Some? ==> s'.sessions[row.value].rentalId != Some(finish.op.rentalId)
  {
    var i := FindRental(s.sessions, finish.op.rentalId).value;
    var b := Apply(s, finish);
    ApplyAdvances(s, finish);
    RunAdvances(b, es);
    var s' := Run(b, es);
    assert Moves(b.sessions[i], s'.sessions[i]);
    forall j | 0 <= j < |s'.sessions| && s'.sessions[j].rentalId == Some(finish.op.rentalId)
      ensures j == i
    {
      RentalUnique(s', i);
      RentalUnique(s', j);
    }
  }

  // ---------------------------------------------------------------- the check in three statements

  /** `CheckAccessCode` while others run: the code is read in `s`, then `before` happens, the payment is
      refreshed at `at`, then `after` happens, and the second read answers. */
  function AfterRefresh(s: State, row: nat, before: seq<Effect>, at: Time): State
    requires row < |s.sessions| && s.sessions[row].rentalId.Some?
  {
    Do(DoAll(s, before), Refresh(s.sessions[row].rentalId.value, at))
  }

  function InterleavedCheck(s: State, location: int, code: string, before: seq<Effect>, at: Time,
                            after: seq<Effect>): Reply {
    var row := FindCode(s.cells, s.sessions, location, code);
    if row.None? then InvalidAccess
    else if s.sessions[row.value].rentalId.None? then DbError
    else AccessAnswer(DoAll(AfterRefresh(s, row.value, before, at), after), s.sessions[row.value],
                      s.sessions[row.value].rentalId.value, location, code)
  }

  /** What happens in between is allowed where it happens. */
  predicate AllowedBetween(s: State, location: int, code: string, before: seq<Effect>, at: Time, after: seq<Effect>) {
    var row := FindCode(s.cells, s.sessions, location, code);
    AllowedAll(s, before)
    && (row.Some? && s.sessions[row.value].rentalId.Some? ==> AllowedAll(AfterRefresh(s, row.value, before, at), after))
  }

  /** With nobody in between it is the atomic operation. */
  lemma {:induction false} UndisturbedCheck(s: State, location: int, code: string, at: Time)
    ensures InterleavedCheck(s, location, code, [], at, []) == Answer(s, Event(at, CheckAccessCode(location, code)))
  {
  }

  predicate Admits(r: Reply) {
    r.AccessGranted? || r.AccessUnpaid?
  }

  /** The answer is about the session of the first read, and carries a payment of that rental if it asks for one. */
  predicate Tells(s: State, r: Reply, x: Session, rentalId: Id, location: int, code: string)
    requires Admits(r)
  {
    r.rentalId == rentalId && r.location == location && r.cellNumber == x.cellNumber && r.phone == x.phone
    && r.code == code
    && (r.AccessUnpaid? ==> r.payment in s.payments && r.payment.status != Paid && r.payment.session < |s.sessions|
                            && s.sessions[r.payment.session].rentalId == Some(rentalId))
  }

  /** The second read, when it finds the row and its payment. */
  lemma {:induction false} AccessAnswerIs(s: State, x: Session, rentalId: Id, location: int, code: string, i: nat)
    requires FindRental(s.sessions, rentalId) == Some(i) && LatestPayment(s.payments, i).Some?
    ensures var r := AccessAnswer(s, x, rentalId, location, code);
            (r == RentalClosed || Admits(r)) && (Admits(r) <==> s.sessions[i].status == Active)
            && (Admits(r) ==> (r.AccessGranted? <==> PaymentStatusOf(s, i) == Some(Paid)))
            && (Admits(r) ==> Tells(s, r, x, rentalId, location, code))
  {
  }

  /** Whatever effects happen in between, an admitting answer means the rental was active in every database
      from the first read to the second, a closed rental is reported as closed, and no payment is asked
      for exactly when the payment is paid at the second read. */
  lemma {:induction false} InterleavedCheckCorrect(s: State, location: int, code: string, before: seq<Effect>,
                                                   at: Time, after: seq<Effect>)
    requires SessionsOk(s) && PaymentsOk(s) && AllowedBetween(s, location, code, before, at, after)
    ensures var r := InterleavedCheck(s, location, code, before, at, after);
            var row := FindCode(s.cells, s.sessions, location, code);
            if row.None? then r == InvalidAccess else
              var i := row.value;
              s.sessions[i].rentalId.Some?
              && var mid := AfterRefresh(s, i, before, at);
                 var end := DoAll(mid, after);
                 i < |end.sessions|
                 && (r == RentalClosed || Admits(r))
                 && (Admits(r) <==> end.sessions[i].status == Active)
                 && (Admits(r) ==> ActiveThroughout(s, before, i) && ActiveThroughout(mid, after, i))
                 && (Admits(r) ==> (r.AccessGranted? <==> PaymentStatusOf(end, i) == Some(Paid)))
                 && (Admits(r) ==> Tells(end, r, s.sessions[i], s.sessions[i].rentalId.value, location, code))
  {
    var row := FindCode(s.cells, s.sessions, location, code);
    if row.Some? {
      var i := row.value;
      assert SessionOk(s.cells, s.sessions[i]);
      var rid := s.sessions[i].rentalId.value;
      var pre, mid := DoAll(s, before), AfterRefresh(s, i, before, at);
      var end := DoAll(mid, after);
      StillThere(s, before, i);
      OneEffect(pre, Refresh(rid, at));
      StillThere(pre, [Refresh(rid, at)], i);
      StillThere(mid, after, i);
      RentalUnique(end, i);
      assert HasPayment(end, i);
      AccessAnswerIs(end, s.sessions[i], rid, location, code, i);
      if end.sessions[i].status == Active {
        ActiveBetween(s, before, i);
        ActiveBetween(mid, after, i);
      }
    }
  }

  lemma {:induction false} OneEffect(s: State, e: Effect)
    ensures DoAll(s, [e]) == Do(s, e) && (AllowedAll(s, [e]) <==> Allowed(s, e))
  {
    assert [e][1..] == [];
    assert DoAll(s, [e]) == DoAll(Do(s, e), []);
    assert AllowedAll(s, [e]) <==> Allowed(s, e) && AllowedAll(Do(s, e), []);
  }

  /** A rental is still there at the end of a trace, and it was active if it is. */
  lemma {:induction false} StillThere(s: State, tr: seq<Effect>, i: nat)
    requires SessionsOk(s) && PaymentsOk(s) && i < |s.sessions| && s.sessions[i].rentalId.Some?
    requires AllowedAll(s, tr)
    ensures SessionsOk(DoAll(s, tr)) && PaymentsOk(DoAll(s, tr))
    ensures i < |DoAll(s, tr).sessions| && DoAll(s, tr).sessions[i].rentalId == s.sessions[i].rentalId
    ensures DoAll(s, tr).sessions[i].status == Active ==> s.sessions[i].status == Active
  {
    assert SessionOk(s.cells, s.sessions[i]);
    TraceAdvances(s, tr);
    TracePayments(s, tr);
    assert Moves(s.sessions[i], DoAll(s, tr).sessions[i]);
  }

  predicate ActiveIn(s: State, i: nat) {
    i < |s.sessions| && s.sessions[i].status == Active
  }

  /** Active in every database along a trace. */
  predicate ActiveThroughout(s: State, tr: seq<Effect>, i: nat) {
    forall n :: 0 <= n <= |tr| ==> ActiveIn(DoAll(s, tr[..n]), i)
  }

  /** Active at both ends, active throughout. */
  lemma {:induction false} ActiveBetween(s: State, tr: seq<Effect>, i: nat)
    requires SessionsOk(s) && AllowedAll(s, tr) && ActiveIn(s, i) && ActiveIn(DoAll(s, tr), i)
    ensures ActiveThroughout(s, tr, i)
  {
    forall n | 0 <= n <= |tr|
      ensures ActiveIn(DoAll(s, tr[..n]), i)
    {
      assert tr == tr[..n] + tr[n..];
      Concat(s, tr[..n], tr[n..]);
      TraceAdvances(s, tr[..n]);
      TraceAdvances(DoAll(s, tr[..n]), tr[n..]);
      assert Moves(s.sessions[i], DoAll(s, tr[..n]).sessions[i]);
      assert Moves(DoAll(s, tr[..n]).sessions[i], DoAll(s, tr).sessions[i]);
    }
  }
}
