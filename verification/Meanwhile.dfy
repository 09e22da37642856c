/** What the operations that run outside any transaction see while transactions come and go between their
    statements: an access code being checked, a rental being opened, a revenue report. */
module Meanwhile {
  import opened Tables
  import opened Operations
  import opened Traces
  import opened Invariants
  import opened Lifecycle
  import opened Payments
  import opened Interleaving
  import opened Concurrency
  import Revenue

  // ---------------------------------------------------------------- a check meanwhile

  /** Every prefix of the steps can be taken, and the session is active in the database it commits. */
  predicate ActiveAlong(w: World, ls: seq<Label>, i: nat) {
    forall n :: 0 <= n <= |ls| ==> Steps(w, ls[..n]).Some? && ActiveIn(Steps(w, ls[..n]).value.db, i)
  }

  lemma {:induction false} StepsAdvance(w: World, ls: seq<Label>)
    requires Inv(w) && Steps(w, ls).Some?
    ensures Inv(Steps(w, ls).value) && Advances(w.db, Steps(w, ls).value.db)
  {
    InterleavingIsTrace(w, ls);
    TraceAdvances(w.db, CommittedTrace(w, ls));
  }

  /** Active at both ends of an interleaving, active along it. */
  lemma {:induction false} ActiveAlongSteps(w: World, ls: seq<Label>, i: nat)
    requires Inv(w) && Steps(w, ls).Some? && ActiveIn(w.db, i) && ActiveIn(Steps(w, ls).value.db, i)
    ensures ActiveAlong(w, ls, i)
    decreases |ls|
  {
    if ls == [] {
    } else {
      var w' := Step(w, ls[0]).value;
      assert Inv(w') by { StepKeeps(w, ls[0]); }
      StepCells(w, ls[0]);
      StepsAdvance(w', ls[1..]);
      assert Moves(w.db.sessions[i], w'.db.sessions[i]) && Moves(w'.db.sessions[i], Steps(w, ls).value.db.sessions[i]);
      ActiveAlongSteps(w', ls[1..], i);
      forall n | 0 <= n <= |ls|
        ensures Steps(w, ls[..n]).Some? && ActiveIn(Steps(w, ls[..n]).value.db, i)
      {
        if n > 0 {
          assert ls[..n][0] == ls[0] && ls[..n][1..] == ls[1..][..n - 1];
        }
      }
    }
  }

  /** A check whose first read, refresh and second read are separate steps, with any steps of any
      transactions in between, is answered as `InterleavedCheckCorrect` says: it admits only a rental
      active at every step from the first read to the second. */
  lemma {:induction false} CheckMeanwhile(w: World, ls: seq<Label>, ms: seq<Label>, location: int, code: string, i: nat)
    requires Inv(w) && PaymentsOk(w.db) && FindCode(w.db.cells, w.db.sessions, location, code) == Some(i)
    requires w.db.sessions[i].rentalId.Some? && Steps(w, ls).Some?
    requires var refresh := RefreshStatement(w.db.sessions[i].rentalId.value);
             Step(Steps(w, ls).value, refresh).Some? && Steps(Step(Steps(w, ls).value, refresh).value, ms).Some?
    ensures var rid := w.db.sessions[i].rentalId.value;
            var mid := Step(Steps(w, ls).value, RefreshStatement(rid)).value;
            var end := Steps(mid, ms).value.db;
            var r := AccessAnswer(end, w.db.sessions[i], rid, location, code);
            i < |end.sessions| && (r == RentalClosed || Admits(r)) && (Admits(r) <==> end.sessions[i].status == Active)
            && (Admits(r) ==> ActiveAlong(w, ls, i) && ActiveAlong(mid, ms, i))
            && (Admits(r) ==> (r.AccessGranted? <==> PaymentStatusOf(end, i) == Some(Paid)))
            && (Admits(r) ==> Tells(end, r, w.db.sessions[i], rid, location, code))
  {
    var rid := w.db.sessions[i].rentalId.value;
    var w1 := Steps(w, ls).value;
    InterleavingIsTrace(w, ls);
    var w2 := Step(w1, RefreshStatement(rid)).value;
    assert Inv(w2) by { StepKeeps(w1, RefreshStatement(rid)); }
    InterleavingIsTrace(w2, ms);
    var before, after := CommittedTrace(w, ls), CommittedTrace(w2, ms);
    assert w2.db == AfterRefresh(w.db, i, before, w1.now);
    InterleavedCheckCorrect(w.db, location, code, before, w1.now, after);
    var r := AccessAnswer(Steps(w2, ms).value.db, w.db.sessions[i], rid, location, code);
    if Admits(r) {
      EndsActive(w.db, before, i);
      EndsActive(w2.db, after, i);
      ActiveAlongSteps(w, ls, i);
      ActiveAlongSteps(w2, ms, i);
    }
  }

  lemma {:induction false} EndsActive(s: State, tr: seq<Effect>, i: nat)
    requires ActiveThroughout(s, tr, i)
    ensures ActiveIn(s, i) && ActiveIn(DoAll(s, tr), i)
  {
    assert tr[..0] == [] && tr[..|tr|] == tr;
    assert ActiveIn(DoAll(s, tr[..0]), i);
  }

  // ---------------------------------------------------------------- an opening meanwhile

  /** When, along an interleaving, somebody looks at the rental's payment. */
  function LooksAlong(w: World, ls: seq<Label>, rentalId: Id): seq<Time>
    decreases |ls|
  {
    if ls == [] || Step(w, ls[0]).None? then []
    else
      (if ls[0] == RefreshStatement(rentalId) then [w.now] else [])
      + LooksAlong(Step(w, ls[0]).value, ls[1..], rentalId)
  }

  lemma {:induction false} LooksNext(w: World, ls: seq<Label>, rentalId: Id)
    requires ls != [] && Step(w, ls[0]).Some?
    ensures var rest := LooksAlong(Step(w, ls[0]).value, ls[1..], rentalId);
            LooksAlong(w, ls, rentalId) == if ls[0] == RefreshStatement(rentalId) then [w.now] + rest else rest
  {
  }

  lemma {:induction false} CommittedLook(w: World, l: Label, rentalId: Id)
    ensures var e := Committed(w, l).0;
            (e.Refresh? && e.rentalId == rentalId <==> l == RefreshStatement(rentalId))
            && (e.Refresh? ==> e.at == w.now) && !Committed(w, l).1.Refresh?
  {
  }

  /** A step changes a payment only by looking at it. */
  lemma {:induction false} StepPayment(w: World, l: Label, k: nat)
    requires Inv(w) && Step(w, l).Some? && k < |w.db.payments|
    ensures k < |Step(w, l).value.db.payments|
    ensures var p := w.db.payments[k];
            Step(w, l).value.db.payments[k] == if l == RefreshStatement(p.rentalId) then RefreshPayment(p, w.now) else p
  {
    var e, f := Committed(w, l).0, Committed(w, l).1;
    assert Step(w, l).value.db == Do(Do(w.db, e), f) by {
      StepIsAtomic(w, l);
    }
    CommittedLook(w, l, w.db.payments[k].rentalId);
    DoPayment(w.db, e, k);
    DoPayment(Do(w.db, e), f, k);
  }

  lemma {:induction false} LookedAlong(w: World, ls: seq<Label>, k: nat)
    requires Inv(w) && Steps(w, ls).Some? && k < |w.db.payments|
    ensures k < |Steps(w, ls).value.db.payments|
    ensures var p := w.db.payments[k];
            Steps(w, ls).value.db.payments[k] == Refreshed(p, LooksAlong(w, ls, p.rentalId))
    decreases |ls|
  {
    if ls == [] {
    } else {
      var p, w' := w.db.payments[k], Step(w, ls[0]).value;
      StepKeeps(w, ls[0]);
      StepPayment(w, ls[0], k);
      LookedAlong(w', ls[1..], k);
      LooksNext(w, ls, p.rentalId);
      RefreshedNext(p, w.now, LooksAlong(w', ls[1..], p.rentalId));
    }
  }

  lemma {:induction false} ClockMoves(w: World, l: Label)
    requires Step(w, l).Some?
    ensures w.now <= Step(w, l).value.now
  {
  }

  /** All of the times are at or after an instant, in order. */
  predicate OrderedFrom(times: seq<Time>, t: Time) {
    Nondecreasing(times) && forall i :: 0 <= i < |times| ==> t <= times[i]
  }

  lemma {:induction false} EarlierFirst(times: seq<Time>, t: Time, u: Time)
    requires OrderedFrom(times, u) && t <= u
    ensures OrderedFrom(times, t) && OrderedFrom([t] + times, t)
  {
  }

  lemma {:induction false} LooksOrdered(w: World, ls: seq<Label>, rentalId: Id)
    ensures OrderedFrom(LooksAlong(w, ls, rentalId), w.now)
    decreases |ls|
  {
    if ls == [] || Step(w, ls[0]).None? {
    } else {
      var w' := Step(w, ls[0]).value;
      ClockMoves(w, ls[0]);
      LooksOrdered(w', ls[1..], rentalId);
      EarlierFirst(LooksAlong(w', ls[1..], rentalId), w.now, w'.now);
      LooksNext(w, ls, rentalId);
    }
  }

  /** Over any interleaving, too, a payment ends as the closed form of the looks at it. */
  lemma {:induction false} InterleavedClosedForm(w: World, ls: seq<Label>, k: nat)
    requires Inv(w) && PaymentsOk(w.db) && Steps(w, ls).Some? && k < |w.db.payments|
    ensures var end := Steps(w, ls).value.db;
            var p := w.db.payments[k];
            SessionsOk(end) && PaymentsOk(end) && k < |end.payments|
            && end.payments[k] == ClosedForm(p, LooksAlong(w, ls, p.rentalId))
  {
    assert PaymentOk(w.db.sessions, w.db.payments[k]);
    InterleavingIsTrace(w, ls);
    TracePayments(w.db, CommittedTrace(w, ls));
    LookedAlong(w, ls, k);
    LooksOrdered(w, ls, w.db.payments[k].rentalId);
    LazyIsClosedForm(w.db.payments[k], LooksAlong(w, ls, w.db.payments[k].rentalId));
  }

  /** The first statement of opening a rental, then any steps of any transactions. */
  function Opening(rentalId: Id, ls: seq<Label>): seq<Label> {
    [RefreshStatement(rentalId)] + ls
  }

  /** An opening whose refresh and read are separate statements, with any steps of any transactions in
      between, is let through exactly when its payment was paid already, or when the first look at it at
      least five seconds after the booking, its own refresh included, came by its expiry; else it is asked for
      payment.  A lapsed payment refuses it whatever happens meanwhile. */
  lemma {:induction false} OpenMeanwhile(w: World, ls: seq<Label>, rentalId: Id, k: nat)
    requires Inv(w) && PaymentsOk(w.db) && PaymentFor(w.db, k, rentalId)
    requires Steps(w, Opening(rentalId, ls)).Some?
    ensures var p, end := w.db.payments[k], Steps(w, Opening(rentalId, ls)).value;
            var r := OpenReply(end.db, rentalId, end.now);
            var first := FirstLook(LooksAlong(w, Opening(rentalId, ls), rentalId), p.createdAt + SETTLE);
            (r.Opened? || r == PaymentRequired)
            && (r.Opened? <==> p.status == Paid || (p.status == Pending && first.Some? && first.value <= p.expiresAt))
            && (r.Opened? <==> k < |end.db.payments| && PaidInTime(end.db.payments[k]))
            && (p.status == Lapsed ==> r == PaymentRequired)
            && (r.Opened? ==> p.session < |w.db.sessions|
                              && r == Opened(rentalId, w.db.sessions[p.session].cellNumber, end.now))
  {
    var end := Steps(w, Opening(rentalId, ls)).value;
    InterleavedClosedForm(w, Opening(rentalId, ls), k);
    assert PaymentOk(w.db.sessions, w.db.payments[k]) && PaymentOk(end.db.sessions, end.db.payments[k]);
    OpenRead(end.db, rentalId, end.now, k);
    StepsAdvance(w, Opening(rentalId, ls));
    assert Moves(w.db.sessions[w.db.payments[k].session], end.db.sessions[w.db.payments[k].session]);
  }

  /** The stamp that follows, whenever it comes, sets the opening time of that rental and of no other. */
  lemma {:induction false} StampMeanwhile(w: World, ls: seq<Label>, i: nat)
    requires Inv(w) && i < |w.db.sessions| && w.db.sessions[i].rentalId.Some? && Steps(w, ls).Some?
    requires Step(Steps(w, ls).value, StampStatement(w.db.sessions[i].rentalId.value)).Some?
    ensures var w1 := Steps(w, ls).value;
            var w2 := Step(w1, StampStatement(w.db.sessions[i].rentalId.value)).value;
            i < |w1.db.sessions|
            && w2.db == w1.db.(sessions := w1.db.sessions[i := w1.db.sessions[i].(openedAt := Some(w1.now / SECOND))])
  {
    StepsAdvance(w, ls);
    var w1 := Steps(w, ls).value;
    assert Moves(w.db.sessions[i], w1.db.sessions[i]);
    RentalUnique(w1.db, i);
  }

  // ---------------------------------------------------------------- closed windows

  lemma {:induction false} WindowStep(w: World, l: Label, v: Revenue.Window, location: int)
    requires Inv(w) && Revenue.Linked(w.db) && v.to <= w.now && Step(w, l).Some?
    ensures var w' := Step(w, l).value;
            Revenue.Linked(w'.db) && v.to <= w'.now && Revenue.SameGroup(w.db, w'.db, v, location)
  {
    var e, f := Committed(w, l).0, Committed(w, l).1;
    assert Step(w, l).value.db == Do(Do(w.db, e), f) by {
      StepIsAtomic(w, l);
    }
    RefreshedNow(w, l);
    Revenue.WindowStep(w.db, e, v, location);
    Revenue.WindowStep(Do(w.db, e), f, v, location);
  }

  lemma {:induction false} RefreshedNow(w: World, l: Label)
    requires Step(w, l).Some?
    ensures Committed(w, l).0.Refresh? ==> Committed(w, l).0.at == w.now
    ensures !Committed(w, l).1.Refresh? && w.now <= Step(w, l).value.now
  {
  }

  /** A reporting window whose end the clock has reached never changes again, whatever transactions are in
      flight and however they go on. */
  lemma {:induction false} ClosedWindowStays(w: World, ls: seq<Label>, v: Revenue.Window, location: int)
    requires Inv(w) && Revenue.Linked(w.db) && v.to <= w.now && Steps(w, ls).Some?
    ensures Revenue.SameGroup(w.db, Steps(w, ls).value.db, v, location)
    decreases |ls|
  {
    if ls == [] {
    } else {
      WindowStep(w, ls[0], v, location);
      StepKeeps(w, ls[0]);
      ClosedWindowStays(Step(w, ls[0]).value, ls[1..], v, location);
    }
  }
}
