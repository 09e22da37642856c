/** Traces of effects.  A run of whole operations is a trace, and so is every interleaving of
    transactions, so a property kept by every effect holds of both. */
module Traces {
  import opened Tables
  import opened Operations

  function DoAll(s: State, tr: seq<Effect>): State
    decreases |tr|
  {
    if tr == [] then s else DoAll(Do(s, tr[0]), tr[1..])
  }

  predicate AllowedAll(s: State, tr: seq<Effect>)
    decreases |tr|
  {
    tr == [] || (Allowed(s, tr[0]) && AllowedAll(Do(s, tr[0]), tr[1..]))
  }

  lemma {:induction false} Concat(s: State, a: seq<Effect>, b: seq<Effect>)
    ensures DoAll(s, a + b) == DoAll(DoAll(s, a), b)
    ensures AllowedAll(s, a + b) <==> AllowedAll(s, a) && AllowedAll(DoAll(s, a), b)
    decreases |a|
  {
    if a == [] {
      assert a + b == b;
    } else {
      assert (a + b)[1..] == a[1..] + b;
      Concat(Do(s, a[0]), a[1..], b);
    }
  }

  lemma {:induction false} TwoEffects(s: State, e: Effect, f: Effect)
    ensures DoAll(s, [e, f]) == Do(Do(s, e), f)
    ensures AllowedAll(s, [e, f]) <==> Allowed(s, e) && Allowed(Do(s, e), f)
  {
    assert [e, f][1..] == [f];
    assert DoAll(Do(s, e), [f]) == DoAll(Do(Do(s, e), f), []);
    assert AllowedAll(Do(s, e), [f]) <==> Allowed(Do(s, e), f) && AllowedAll(Do(Do(s, e), f), []);
  }

  /** Both effects of an operation are allowed where they happen. */
  lemma {:induction false} PlanAllowed(s: State, e: Event)
    ensures Allowed(s, Plan(s, e).0)
    ensures Allowed(Do(s, Plan(s, e).0), Plan(s, e).1)
  {
    match e.op
    case CreateCellSelection(location, size, selectionId) => SelectionAllowed(s, e);
    case CreateBooking(_, _, _) =>
    case OpenRental(_) =>
    case FinishRental(_) =>
    case CleanupExpired => StaleAllowed(s, e.at);
    case _ =>
  }

  lemma {:induction false} SelectionAllowed(s: State, e: Event)
    requires e.op.CreateCellSelection?
    ensures Allowed(s, Plan(s, e).0)
    ensures Allowed(Do(s, Plan(s, e).0), Plan(s, e).1)
  {
    StaleAllowed(s, e.at);
    CleanedSelections(s, e.at, e.op.selectionId);
  }

  lemma {:induction false} StaleAllowed(s: State, now: Time)
    ensures Allowed(s, ExpireStale(s, now))
  {
    var E := StaleRows(s.sessions, now);
    forall c | c in StaleCells(s.cells, s.sessions, now)
      ensures exists i :: i in E && s.sessions[i].cell == c
    {
      var i :| 0 <= i < |s.sessions| && Stale(s.sessions[i], now) && s.sessions[i].cell == c;
      assert i in E;
    }
  }

  function TraceOf(s: State, es: seq<Event>): seq<Effect>
    decreases |es|
  {
    if es == [] then [] else
      var p := Plan(s, es[0]);
      [p.0, p.1] + TraceOf(Apply(s, es[0]), es[1..])
  }

  /** Every run of operations is an allowed trace of effects. */
  lemma {:induction false} RunIsTrace(s: State, es: seq<Event>)
    ensures AllowedAll(s, TraceOf(s, es))
    ensures DoAll(s, TraceOf(s, es)) == Run(s, es)
    decreases |es|
  {
    if es == [] {
    } else {
      var p := Plan(s, es[0]);
      PlanAllowed(s, es[0]);
      TwoEffects(s, p.0, p.1);
      RunIsTrace(Apply(s, es[0]), es[1..]);
      Concat(s, [p.0, p.1], TraceOf(Apply(s, es[0]), es[1..]));
    }
  }

  /** Splitting a run. */
  lemma {:induction false} RunConcat(s: State, a: seq<Event>, b: seq<Event>)
    ensures Run(s, a + b) == Run(Run(s, a), b)
    decreases |a|
  {
    if a == [] {
      assert a + b == b;
    } else {
      assert (a + b)[1..] == a[1..] + b;
      RunConcat(Apply(s, a[0]), a[1..], b);
    }
  }
}
