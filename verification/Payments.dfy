/** Payments advance only when somebody looks at them.  What that laziness computes, over whole runs. */
module Payments {
  import opened Tables
  import opened Operations
  import opened Invariants
  import opened Allocation

  // ---------------------------------------------------------------- one row, any looks

  /** A payment after looks at these times. */
  function Refreshed(p: Payment, times: seq<Time>): Payment
    decreases |times|
  {
    if times == [] then p else Refreshed(RefreshPayment(p, times[0]), times[1..])
  }

  predicate Nondecreasing(times: seq<Time>) {
    forall i, j :: 0 <= i < j < |times| ==> times[i] <= times[j]
  }

  /** The first of the times at or after an instant. */
  function FirstLook(times: seq<Time>, from: Time): (r: Option<Time>)
    ensures r.Some? ==> exists i :: 0 <= i < |times| && times[i] == r.value && from <= times[i]
                                    && forall j :: 0 <= j < i ==> times[j] < from
    ensures r.None? ==> forall i :: 0 <= i < |times| ==> times[i] < from
    decreases |times|
  {
    if times == [] then None
    else if from <= times[0] then Some(times[0])
    else
      var r := FirstLook(times[1..], from);
      assert forall i :: 1 <= i < |times| ==> times[i] == times[1..][i - 1];
      r
  }

  /** What the looks amount to: nothing before the first settled look, and everything at it. */
  function ClosedForm(p: Payment, times: seq<Time>): Payment {
    var first := FirstLook(times, p.createdAt + SETTLE);
    if p.status != Pending || first.None? then p
    else p.(status := if first.value <= p.expiresAt then Paid else Lapsed, paidAt := first)
  }

  /** The lazily advanced payment is its closed form, for every nondecreasing sequence of looks. */
  lemma {:induction false} LazyIsClosedForm(p: Payment, times: seq<Time>)
    requires p.createdAt + SETTLE <= p.expiresAt && Nondecreasing(times)
    ensures Refreshed(p, times) == ClosedForm(p, times)
    decreases |times|
  {
    if times == [] {
    } else {
      var q := RefreshPayment(p, times[0]);
      LazyIsClosedForm(q, times[1..]);
    }
  }

  // ---------------------------------------------------------------- whole runs

  /** Whether an operation looks at a payment of this rental. */
  predicate Looks(s: State, e: Event, rentalId: Id) {
    match e.op
    case CheckAccessCode(location, code) =>
      var row := FindCode(s.cells, s.sessions, location, code);
      row.Some? && s.sessions[row.value].rentalId == Some(rentalId)
    case GetPayment(paymentId) =>
      var k := FindPayment(s.payments, paymentId);
      k.Some? && s.payments[k.value].rentalId == rentalId
    case OpenRental(id) => id == rentalId
    case _ => false
  }

  /** When, along a run, somebody looks at the rental's payment. */
  function LookTimes(s: State, es: seq<Event>, rentalId: Id): seq<Time>
    decreases |es|
  {
    if es == [] then []
    else (if Looks(s, es[0], rentalId) then [es[0].at] else []) + LookTimes(Apply(s, es[0]), es[1..], rentalId)
  }

  lemma {:induction false} ApplyPayment(s: State, e: Event, k: nat)
    requires k < |s.payments|
    ensures k < |Apply(s, e).payments|
    ensures Apply(s, e).payments[k]
         == if Looks(s, e, s.payments[k].rentalId) then RefreshPayment(s.payments[k], e.at) else s.payments[k]
  {
    var f, g := Plan(s, e).0, Plan(s, e).1;
    PlanLooks(s, e, s.payments[k].rentalId);
    DoPayment(s, f, k);
    DoPayment(Do(s, f), g, k);
  }

  lemma {:induction false} DoPayment(s: State, e: Effect, k: nat)
    requires k < |s.payments|
    ensures k < |Do(s, e).payments|
    ensures Do(s, e).payments[k]
         == if e.Refresh? && e.rentalId == s.payments[k].rentalId then RefreshPayment(s.payments[k], e.at)
             else s.payments[k]
  {
  }

  lemma {:induction false} PlanLooks(s: State, e: Event, rentalId: Id)
    ensures var f := Plan(s, e).0; f.Refresh? && f.rentalId == rentalId <==> Looks(s, e, rentalId)
    ensures Plan(s, e).0.Refresh? ==> Plan(s, e).0.at == e.at
    ensures !Plan(s, e).1.Refresh?
  {
  }

  lemma {:induction false} LookTimesOrdered(s: State, t: Time, es: seq<Event>, rentalId: Id)
    requires Ordered(t, es)
    ensures Nondecreasing(LookTimes(s, es, rentalId))
    ensures forall i :: 0 <= i < |LookTimes(s, es, rentalId)| ==> t <= LookTimes(s, es, rentalId)[i]
    decreases |es|
  {
    if es == [] {
    } else {
      LookTimesOrdered(Apply(s, es[0]), es[0].at, es[1..], rentalId);
    }
  }

  lemma {:induction false} LookTimesNext(s: State, es: seq<Event>, rentalId: Id)
    requires es != []
    ensures var rest := LookTimes(Apply(s, es[0]), es[1..], rentalId);
            LookTimes(s, es, rentalId) == if Looks(s, es[0], rentalId) then [es[0].at] + rest else rest
  {
  }

  lemma {:induction false} RefreshedNext(p: Payment, t: Time, times: seq<Time>)
    ensures Refreshed(p, [t] + times) == Refreshed(RefreshPayment(p, t), times)
  {
    assert ([t] + times)[1..] == times;
  }

  lemma {:induction false} RunRefreshes(s: State, es: seq<Event>, k: nat)
    requires k < |s.payments|
    ensures k < |Run(s, es).payments|
    ensures Run(s, es).payments[k] == Refreshed(s.payments[k], LookTimes(s, es, s.payments[k].rentalId))
    decreases |es|
  {
    if es == [] {
    } else {
      var rid := s.payments[k].rentalId;
      var s1 := Apply(s, es[0]);
      ApplyPayment(s, es[0], k);
      RunRefreshes(s1, es[1..], k);
      LookTimesNext(s, es, rid);
      RefreshedNext(s.payments[k], es[0].at, LookTimes(s1, es[1..], rid));
    }
  }

  /** Over any ordered run, whatever else happens in it, a payment ends as the closed form of the times
      at which somebody looked at its rental. */
  lemma {:induction false} RunPaymentClosedForm(s: State, t: Time, es: seq<Event>, k: nat)
    requires SessionsOk(s) && PaymentsOk(s) && Ordered(t, es) && k < |s.payments|
    ensures k < |Run(s, es).payments|
    ensures Run(s, es).payments[k] == ClosedForm(s.payments[k], LookTimes(s, es, s.payments[k].rentalId))
  {
    assert PaymentOk(s.sessions, s.payments[k]);
    RunRefreshes(s, es, k);
    LookTimesOrdered(s, t, es, s.payments[k].rentalId);
    LazyIsClosedForm(s.payments[k], LookTimes(s, es, s.payments[k].rentalId));
  }

  /** The payment of a rental. */
  predicate PaymentFor(s: State, k: nat, rentalId: Id) {
    k < |s.payments| && s.payments[k].rentalId == rentalId
  }

  /** There is exactly one payment for a rental, the one the latest-payment lookup returns. */
  lemma {:induction false} OnePayment(s: State, i: nat)
    requires SessionsOk(s) && PaymentsOk(s) && i < |s.sessions| && s.sessions[i].rentalId.Some?
    ensures LatestPayment(s.payments, i).Some?
    ensures forall k :: 0 <= k < |s.payments| && s.payments[k].rentalId == s.sessions[i].rentalId.value
                        ==> LatestPayment(s.payments, i) == Some(k)
    ensures s.payments[LatestPayment(s.payments, i).value].rentalId == s.sessions[i].rentalId.value
  {
    assert HasPayment(s, i);
    var l := LatestPayment(s.payments, i).value;
    assert PaymentOk(s.sessions, s.payments[l]);
    forall k | 0 <= k < |s.payments| && s.payments[k].rentalId == s.sessions[i].rentalId.value
      ensures k == l
    {
      assert PaymentOk(s.sessions, s.payments[k]);
      RentalUnique(s, i);
      RentalUnique(s, s.payments[k].session);
    }
  }

  lemma {:induction false} RefreshKeepsOk(sessions: seq<Session>, p: Payment, now: Time)
    requires PaymentOk(sessions, p)
    ensures PaymentOk(sessions, RefreshPayment(p, now))
  {
  }

  /** What `OpenRental` reads depends on the rental's one payment. */
  lemma {:induction false} OpenRead(s: State, rentalId: Id, at: Time, k: nat)
    requires SessionsOk(s) && PaymentsOk(s) && PaymentFor(s, k, rentalId)
    ensures s.payments[k].session < |s.sessions|
    ensures OpenReply(s, rentalId, at) == if s.payments[k].status == Paid
                                          then Opened(rentalId, s.sessions[s.payments[k].session].cellNumber, at)
                                              else PaymentRequired
  {
    assert PaymentOk(s.sessions, s.payments[k]);
    RentalUnique(s, s.payments[k].session);
    OnePayment(s, s.payments[k].session);
  }

  /** And its answer on that payment as it is after looking at it now. */
  lemma {:induction false} OpenAnswer(s: State, e: Event, k: nat)
    requires SessionsOk(s) && PaymentsOk(s) && e.op.OpenRental? && PaymentFor(s, k, e.op.rentalId)
    ensures s.payments[k].session < |s.sessions|
    ensures Answer(s, e) == if RefreshPayment(s.payments[k], e.at).status == Paid
                            then Opened(e.op.rentalId, s.sessions[s.payments[k].session].cellNumber, e.at)
                                else PaymentRequired
  {
    var look := Refresh(e.op.rentalId, e.at);
    SessionsOkKept(s, look);
    PaymentsOkKept(s, look);
    OpenRead(Do(s, look), e.op.rentalId, e.at, k);
    OpenApplied(s, e.at, e.op.rentalId);
  }

  /** A rental opens exactly when its payment, looked at now, was turned paid at some time between five
      seconds after its creation and its expiry.  That the rental is still active is not asked. */
  lemma {:induction false} OpensExactly(s: State, e: Event)
    requires SessionsOk(s) && PaymentsOk(s) && e.op.OpenRental?
    ensures Answer(s, e).Opened? <==>
              exists k: nat :: PaymentFor(s, k, e.op.rentalId) && PaidInTime(RefreshPayment(s.payments[k], e.at))
  {
    forall k: nat | PaymentFor(s, k, e.op.rentalId)
      ensures Answer(s, e).Opened? <==> PaidInTime(RefreshPayment(s.payments[k], e.at))
    {
      OpenAnswer(s, e, k);
      RefreshKeepsOk(s.sessions, s.payments[k], e.at);
    }
    if Answer(s, e).Opened? {
      var i := FindRental(s.sessions, e.op.rentalId).value;
      OnePayment(s, i);
      assert PaymentFor(s, LatestPayment(s.payments, i).value, e.op.rentalId);
    }
  }

  predicate PaidInTime(p: Payment) {
    p.status == Paid && p.paidAt.Some? && p.createdAt + SETTLE <= p.paidAt.value <= p.expiresAt
  }

  lemma {:induction false} SameOpenReply(a: State, b: State, rentalId: Id, at: Time)
    requires a.payments == b.payments && |a.sessions| == |b.sessions|
    requires forall i :: 0 <= i < |a.sessions| ==>
                           a.sessions[i].rentalId == b.sessions[i].rentalId
                               && a.sessions[i].cellNumber == b.sessions[i].cellNumber
    ensures OpenReply(a, rentalId, at) == OpenReply(b, rentalId, at)
  {
    SameRentals(a.sessions, b.sessions, rentalId);
  }

  lemma {:induction false} FinishKeepsIds(s: State, e: Effect)
    requires e.Finish?
    ensures var s' := Do(s, e);
            s'.payments == s.payments && |s'.sessions| == |s.sessions|
            && forall i :: 0 <= i < |s.sessions| ==>
                             s'.sessions[i].rentalId == s.sessions[i].rentalId
                                 && s'.sessions[i].cellNumber == s.sessions[i].cellNumber
  {
  }

  /** So a finished rental opens just as it did before: a finish changes no answer of `OpenRental`. */
  lemma {:induction false} OpensAfterFinish(s: State, finish: Event, open: Event)
    requires finish.op.FinishRental? && open.op.OpenRental?
    ensures Answer(Apply(s, finish), open) == Answer(s, open)
  {
    var id := open.op.rentalId;
    var row := FindRental(s.sessions, finish.op.rentalId);
    FinishApplied(s, finish.at, finish.op.rentalId);
    if row.Some? {
      var s' := Apply(s, finish);
      FinishKeepsIds(s, Finish(row.value, finish.at));
      OpenApplied(s, open.at, id);
      OpenApplied(s', open.at, id);
      var ps := RefreshRows(s.payments, id, open.at);
      SameOpenReply(s'.(payments := ps), s.(payments := ps), id, open.at);
    }
  }

  /** Once a payment has lapsed, every later attempt to open its rental is refused for payment. */
  lemma {:induction false} LapsedNeverOpens(s: State, t: Time, es: seq<Event>, k: nat, e: Event)
    requires SessionsOk(s) && PaymentsOk(s) && Ordered(t, es)
    requires k < |s.payments| && s.payments[k].status == Lapsed
    requires e.op.OpenRental? && e.op.rentalId == s.payments[k].rentalId
    ensures Answer(Run(s, es), e) == PaymentRequired
  {
    RunPayments(s, es);
    RunPaymentClosedForm(s, t, es, k);
    OpenAnswer(Run(s, es), e, k);
  }

  // ---------------------------------------------------------------- opening, over a run

  lemma {:induction false} RefreshedLast(p: Payment, times: seq<Time>, t: Time)
    ensures Refreshed(p, times + [t]) == RefreshPayment(Refreshed(p, times), t)
    decreases |times|
  {
    if times == [] {
      assert times + [t] == [t];
      assert Refreshed(p, [t]) == Refreshed(RefreshPayment(p, t), []);
    } else {
      assert (times + [t])[1..] == times[1..] + [t];
      RefreshedLast(RefreshPayment(p, times[0]), times[1..], t);
    }
  }

  lemma {:induction false} LooksBefore(s: State, t: Time, es: seq<Event>, rentalId: Id)
    requires Ordered(t, es)
    ensures forall i :: 0 <= i < |LookTimes(s, es, rentalId)| ==> LookTimes(s, es, rentalId)[i] <= LastTime(t, es)
    decreases |es|
  {
    if es == [] {
    } else {
      assert LastTime(es[0].at, es[1..]) == LastTime(t, es);
      NoneEarlier(es[0].at, es[1..]);
      LooksBefore(Apply(s, es[0]), es[0].at, es[1..], rentalId);
      LookTimesNext(s, es, rentalId);
    }
  }

  lemma {:induction false} NoneEarlier(t: Time, es: seq<Event>)
    requires Ordered(t, es)
    ensures t <= LastTime(t, es)
    decreases |es|
  {
    if es == [] {
    } else {
      NoneEarlier(es[0].at, es[1..]);
      assert LastTime(es[0].at, es[1..]) == LastTime(t, es);
    }
  }

  /** A payment looked at once more after a run is the closed form of all its looks. */
  lemma {:induction false} LookedAfterRun(b: State, t: Time, es: seq<Event>, k: nat, at: Time)
    requires k < |b.payments| && b.payments[k].createdAt + SETTLE <= b.payments[k].expiresAt
    requires Ordered(t, es) && LastTime(t, es) <= at
    ensures k < |Run(b, es).payments|
    ensures RefreshPayment(Run(b, es).payments[k], at)
         == ClosedForm(b.payments[k], LookTimes(b, es, b.payments[k].rentalId) + [at])
  {
    var p := b.payments[k];
    var times := LookTimes(b, es, p.rentalId);
    RunRefreshes(b, es, k);
    LookTimesOrdered(b, t, es, p.rentalId);
    LooksBefore(b, t, es, p.rentalId);
    RefreshedLast(p, times, at);
    LazyIsClosedForm(p, times + [at]);
  }

  // ---------------------------------------------------------------- sums

  function SumAmounts(payments: seq<Payment>): int {
    if payments == [] then 0 else SumAmounts(payments[..|payments| - 1]) + payments[|payments| - 1].amount
  }

  ghost function BookedRows(s: State): set<nat> {
    set i | 0 <= i < |s.sessions| && s.sessions[i].rentalId.Some?
  }

  /** In every reachable database the payments add up to 900 for each session ever booked. */
  lemma {:induction false} AmountsMatchBookings(s: State, es: seq<Event>)
    requires SessionsOk(s) && PaymentsOk(s)
    ensures SumAmounts(Run(s, es).payments) == PRICE * |BookedRows(Run(s, es))|
  {
    RunPayments(s, es);
    OnePricePerBooking(Run(s, es));
  }

  lemma {:induction false} OnePricePerBooking(s: State)
    requires PaymentsOk(s)
    ensures SumAmounts(s.payments) == PRICE * |BookedRows(s)|
  {
    OnePaymentPerBooking(s);
    forall k | 0 <= k < |s.payments|
      ensures s.payments[k].amount == PRICE
    {
      assert PaymentOk(s.sessions, s.payments[k]);
    }
    SumOfPrices(s.payments);
  }

  ghost function PayerOf(s: State, k: nat): nat {
    if k < |s.payments| then s.payments[k].session else 0
  }

  lemma {:induction false} OnePaymentPerBooking(s: State)
    requires PaymentsOk(s)
    ensures |s.payments| == |BookedRows(s)|
  {
    PayersAreBooked(s);
    SameSize(UpTo(|s.payments|), BookedRows(s), k => PayerOf(s, k));
  }

  lemma {:induction false} PayersAreBooked(s: State)
    requires PaymentsOk(s)
    ensures forall k :: k in UpTo(|s.payments|) ==> PayerOf(s, k) in BookedRows(s)
    ensures forall k, l :: k in UpTo(|s.payments|) && l in UpTo(|s.payments|) && k != l ==>
              PayerOf(s, k) != PayerOf(s, l)
    ensures forall i :: i in BookedRows(s) ==> exists k :: k in UpTo(|s.payments|) && PayerOf(s, k) == i
  {
    forall k | k in UpTo(|s.payments|)
      ensures PayerOf(s, k) in BookedRows(s)
    {
      assert PaymentOk(s.sessions, s.payments[k]);
    }
    forall i | i in BookedRows(s)
      ensures exists k :: k in UpTo(|s.payments|) && PayerOf(s, k) == i
    {
      BookedHasPayer(s, i);
    }
  }

  lemma {:induction false} BookedHasPayer(s: State, i: nat)
    requires PaymentsOk(s) && i in BookedRows(s)
    ensures exists k :: k in UpTo(|s.payments|) && PayerOf(s, k) == i
  {
    assert HasPayment(s, i);
    var k: nat :| k < |s.payments| && s.payments[k].session == i;
    assert k in UpTo(|s.payments|) && PayerOf(s, k) == i;
  }

  lemma {:induction false} SumOfPrices(payments: seq<Payment>)
    requires forall k :: 0 <= k < |payments| ==> payments[k].amount == PRICE
    ensures SumAmounts(payments) == PRICE * |payments|
    decreases |payments|
  {
    if payments == [] {
    } else {
      SumOfPrices(payments[..|payments| - 1]);
    }
  }
}
