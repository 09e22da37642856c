/** What every effect keeps, and so every run and every interleaving: the shape of a session's life,
    and one payment per booking. */
module Invariants {
  import opened Tables
  import opened Operations
  import opened Traces

  // ---------------------------------------------------------------- sessions

  /** Foreign keys, unique indexes, and which columns a status allows. */
  ghost predicate SessionsOk(s: State) {
    (forall i :: 0 <= i < |s.sessions| ==> SessionOk(s.cells, s.sessions[i]))
    && (forall i, j :: 0 <= i < j < |s.sessions| ==> Distinct(s.sessions[i], s.sessions[j]))
  }

  predicate SessionOk(cells: seq<Cell>, x: Session) {
    x.cell < |cells| && x.hold == x.createdAt + HOLD
    && (x.rentalId.Some? <==> x.status == Active || x.status == Closed)
    && (x.bookingId.Some? <==> x.rentalId.Some?) && (x.code.Some? <==> x.rentalId.Some?)
    && (x.openedAt.Some? <==> x.rentalId.Some?) && (x.finishedAt.Some? <==> x.status == Closed)
  }

  predicate Distinct(x: Session, y: Session) {
    x.selectionId != y.selectionId
    && (x.rentalId.Some? ==> x.rentalId != y.rentalId)
    && (x.bookingId.Some? ==> x.bookingId != y.bookingId)
  }

  /** Ids are unique, so a lookup finds the row itself. */
  lemma {:induction false} SelectionUnique(s: State, i: nat)
    requires SessionsOk(s) && i < |s.sessions|
    ensures FindSelection(s.sessions, s.sessions[i].selectionId) == Some(i)
  {
    forall j | 0 <= j < i
      ensures s.sessions[j].selectionId != s.sessions[i].selectionId
    {
      assert Distinct(s.sessions[j], s.sessions[i]);
    }
  }

  lemma {:induction false} RentalUnique(s: State, i: nat)
    requires SessionsOk(s) && i < |s.sessions| && s.sessions[i].rentalId.Some?
    ensures FindRental(s.sessions, s.sessions[i].rentalId.value) == Some(i)
  {
    forall j | 0 <= j < i
      ensures s.sessions[j].rentalId != s.sessions[i].rentalId
    {
      assert Distinct(s.sessions[j], s.sessions[i]);
    }
  }

  lemma {:induction false} SessionsOkKept(s: State, e: Effect)
    requires SessionsOk(s) && Allowed(s, e)
    ensures SessionsOk(Do(s, e))
  {
    SessionRowsKept(s, e);
    SessionsStayDistinct(s, e);
  }

  lemma {:induction false} SessionRowsKept(s: State, e: Effect)
    requires SessionsOk(s) && Allowed(s, e)
    ensures forall i :: 0 <= i < |Do(s, e).sessions| ==> SessionOk(Do(s, e).cells, Do(s, e).sessions[i])
  {
    assert |Do(s, e).cells| == |s.cells|;
    forall i | 0 <= i < |s.sessions|
      ensures SessionOk(s.cells, s.sessions[i])
    {
    }
  }

  lemma {:induction false} SessionsStayDistinct(s: State, e: Effect)
    requires SessionsOk(s) && Allowed(s, e)
    ensures forall i, j :: 0 <= i < j < |Do(s, e).sessions| ==> Distinct(Do(s, e).sessions[i], Do(s, e).sessions[j])
  {
    var s' := Do(s, e);
    forall i, j | 0 <= i < j < |s'.sessions|
      ensures Distinct(s'.sessions[i], s'.sessions[j])
    {
      if j < |s.sessions| {
        assert Distinct(s.sessions[i], s.sessions[j]);
      }
    }
  }

  /** How one session may change: selected to active to closed, or selected to expired. */
  predicate Moves(x: Session, y: Session) {
    x.selectionId == y.selectionId && x.cell == y.cell && x.hold == y.hold && x.cellNumber == y.cellNumber
    && (x.rentalId.Some? ==>
        y.rentalId == x.rentalId && y.code == x.code && y.phone == x.phone && y.bookingId == x.bookingId)
    && match x.status
       case Selected => true
       case Active => y.status == Active || y.status == Closed
       case Closed => y.status == Closed
       case Expired => y.status == Expired && y.rentalId.None?
  }

  /** The four edges of a session's life; a second finish leaves a closed session closed. */
  predicate Edge(before: SessionStatus, after: SessionStatus) {
    before == after
    || (before == Selected && (after == Active || after == Expired))
    || (before == Active && after == Closed)
  }

  /** One effect takes each session along at most one edge. */
  lemma {:induction false} OneEdge(s: State, e: Effect, i: nat)
    requires SessionsOk(s) && Allowed(s, e) && i < |s.sessions|
    ensures i < |Do(s, e).sessions| && Edge(s.sessions[i].status, Do(s, e).sessions[i].status)
  {
    assert SessionOk(s.cells, s.sessions[i]);
  }

  /** No session is lost and every session only moves forward. */
  ghost predicate Advances(s: State, s': State) {
    |s.sessions| <= |s'.sessions| && |s.cells| == |s'.cells|
    && (forall i :: 0 <= i < |s.sessions| ==> Moves(s.sessions[i], s'.sessions[i]))
    && (forall c :: 0 <= c < |s.cells| ==> s'.cells[c].location == s.cells[c].location)
  }

  lemma {:induction false} AdvancesStep(s: State, e: Effect)
    requires SessionsOk(s) && Allowed(s, e)
    ensures Advances(s, Do(s, e))
  {
  }

  lemma {:induction false} AdvancesTransitive(a: State, b: State, c: State)
    requires Advances(a, b) && Advances(b, c)
    ensures Advances(a, c)
  {
    forall i | 0 <= i < |a.sessions|
      ensures Moves(a.sessions[i], c.sessions[i])
    {
      assert Moves(a.sessions[i], b.sessions[i]) && Moves(b.sessions[i], c.sessions[i]);
    }
  }

  /** Over every trace, repeated finishes included, session status moves only forward. */
  lemma {:induction false} TraceAdvances(s: State, tr: seq<Effect>)
    requires SessionsOk(s) && AllowedAll(s, tr)
    ensures SessionsOk(DoAll(s, tr)) && Advances(s, DoAll(s, tr))
    decreases |tr|
  {
    if tr == [] {
    } else {
      SessionsOkKept(s, tr[0]);
      AdvancesStep(s, tr[0]);
      TraceAdvances(Do(s, tr[0]), tr[1..]);
      AdvancesTransitive(s, Do(s, tr[0]), DoAll(s, tr));
    }
  }

  lemma {:induction false} RunAdvances(s: State, es: seq<Event>)
    requires SessionsOk(s)
    ensures SessionsOk(Run(s, es)) && Advances(s, Run(s, es))
  {
    RunIsTrace(s, es);
    TraceAdvances(s, TraceOf(s, es));
  }

  lemma {:induction false} ApplyAdvances(s: State, e: Event)
    requires SessionsOk(s)
    ensures SessionsOk(Apply(s, e)) && Advances(s, Apply(s, e))
  {
    RunAdvances(s, [e]);
    assert [e][1..] == [];
    assert Run(s, [e]) == Run(Apply(s, e), []);
  }

  // ---------------------------------------------------------------- payments

  /** A payment row as the flow leaves it.  `paidAt` is also set when a payment lapses. */
  predicate PaymentOk(sessions: seq<Session>, p: Payment) {
    p.session < |sessions| && sessions[p.session].rentalId == Some(p.rentalId)
    && p.amount == PRICE && p.expiresAt == p.createdAt + PAY_WINDOW
    && (p.status == Pending <==> p.paidAt.None?)
    && (p.status == Paid ==> p.createdAt + SETTLE <= p.paidAt.value <= p.expiresAt)
    && (p.status == Lapsed ==> p.expiresAt < p.paidAt.value)
    && p.status != Confirmed
  }

  /** Exactly one payment for each booked session, and none for any other. */
  ghost predicate PaymentsOk(s: State) {
    (forall k :: 0 <= k < |s.payments| ==> PaymentOk(s.sessions, s.payments[k]))
    && (forall k, l :: 0 <= k < l < |s.payments| ==> s.payments[k].session != s.payments[l].session)
    && (forall k, l :: 0 <= k < l < |s.payments| ==> s.payments[k].paymentId != s.payments[l].paymentId)
    && (forall i :: 0 <= i < |s.sessions| && s.sessions[i].rentalId.Some? ==> HasPayment(s, i))
  }

  ghost predicate HasPayment(s: State, i: nat) {
    exists k :: 0 <= k < |s.payments| && s.payments[k].session == i
  }

  lemma {:induction false} PaymentsOkKept(s: State, e: Effect)
    requires SessionsOk(s) && PaymentsOk(s) && Allowed(s, e)
    ensures PaymentsOk(Do(s, e))
  {
    var s' := Do(s, e);
    assert forall k :: 0 <= k < |s'.payments| ==> PaymentOk(s'.sessions, s'.payments[k]) by {
      PaymentRowsKept(s, e);
    }
    PaymentsStayDistinct(s, e);
    forall i | 0 <= i < |s'.sessions| && s'.sessions[i].rentalId.Some?
      ensures HasPayment(s', i)
    {
      BookedStaysPaidFor(s, e, i);
    }
  }

  lemma {:induction false} PaymentRowsKept(s: State, e: Effect)
    requires SessionsOk(s) && PaymentsOk(s) && Allowed(s, e)
    ensures forall k :: 0 <= k < |Do(s, e).payments| ==> PaymentOk(Do(s, e).sessions, Do(s, e).payments[k])
  {
    var s' := Do(s, e);
    AdvancesStep(s, e);
    forall k | 0 <= k < |s.payments|
      ensures PaymentOk(s'.sessions, s'.payments[k])
    {
      assert PaymentOk(s.sessions, s.payments[k]);
      assert Moves(s.sessions[s.payments[k].session], s'.sessions[s.payments[k].session]);
    }
  }

  lemma {:induction false} PaymentsStayDistinct(s: State, e: Effect)
    requires SessionsOk(s) && PaymentsOk(s) && Allowed(s, e)
    ensures var ps := Do(s, e).payments;
            forall k, l :: 0 <= k < l < |ps| ==> ps[k].session != ps[l].session && ps[k].paymentId != ps[l].paymentId
  {
    var ps := Do(s, e).payments;
    forall k | 0 <= k < |s.payments|
      ensures ps[k].session == s.payments[k].session && ps[k].paymentId == s.payments[k].paymentId
      ensures e.Book? ==> ps[k].session != e.row && ps[k].paymentId != e.ticket.paymentId
    {
      assert PaymentOk(s.sessions, s.payments[k]) && SessionOk(s.cells, s.sessions[s.payments[k].session]);
    }
  }

  lemma {:induction false} BookedStaysPaidFor(s: State, e: Effect, i: nat)
    requires PaymentsOk(s) && Allowed(s, e) && i < |Do(s, e).sessions| && Do(s, e).sessions[i].rentalId.Some?
    ensures HasPayment(Do(s, e), i)
  {
    var s' := Do(s, e);
    if e.Book? && e.row == i {
      assert s'.payments[|s.payments|].session == i;
    } else {
      assert i < |s.sessions| && s.sessions[i].rentalId.Some?;
      assert HasPayment(s, i);
      var k :| 0 <= k < |s.payments| && s.payments[k].session == i;
      assert s'.payments[k].session == i;
    }
  }

  lemma {:induction false} TracePayments(s: State, tr: seq<Effect>)
    requires SessionsOk(s) && PaymentsOk(s) && AllowedAll(s, tr)
    ensures SessionsOk(DoAll(s, tr)) && PaymentsOk(DoAll(s, tr))
    decreases |tr|
  {
    if tr == [] {
    } else {
      SessionsOkKept(s, tr[0]);
      PaymentsOkKept(s, tr[0]);
      TracePayments(Do(s, tr[0]), tr[1..]);
    }
  }

  lemma {:induction false} RunPayments(s: State, es: seq<Event>)
    requires SessionsOk(s) && PaymentsOk(s)
    ensures SessionsOk(Run(s, es)) && PaymentsOk(Run(s, es))
  {
    RunIsTrace(s, es);
    TracePayments(s, TraceOf(s, es));
  }

  lemma {:induction false} PaymentsAfter(s: State, e: Event, es: seq<Event>)
    requires SessionsOk(s) && PaymentsOk(s)
    ensures SessionsOk(Run(Apply(s, e), es)) && PaymentsOk(Run(Apply(s, e), es))
  {
    RunPayments(s, [e] + es);
    assert ([e] + es)[1..] == es;
  }

  lemma {:induction false} InitialOk(s: State)
    requires Initial(s)
    ensures SessionsOk(s) && PaymentsOk(s)
  {
  }
}
