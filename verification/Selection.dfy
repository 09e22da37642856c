/** Which cell a selection gets when nobody else is selecting. */
module Selection {
  import opened Tables
  import opened Operations

  /** Location and number identify a cell: the unique index of `lockers`. */
  ghost predicate NumbersUnique(cells: seq<Cell>) {
    forall c, d :: 0 <= c < d < |cells| && cells[c].location == cells[d].location ==> cells[c].no != cells[d].no
  }

  /** The cell could be taken now: active, of this size and place, and free or reserved for a hold that ended. */
  ghost predicate Obtainable(s: State, c: nat, location: int, size: Size, now: Time)
    requires c < |s.cells|
  {
    s.cells[c].location == location && s.cells[c].size == size && s.cells[c].active
    && (s.cells[c].status == Free || (s.cells[c].status == Reserved && HasStale(s.sessions, c, now)))
  }

  lemma {:induction false} ObtainableIsSelectable(s: State, c: nat, location: int, size: Size, now: Time)
    requires c < |s.cells|
    ensures c < |Cleaned(s, now).cells|
    ensures Obtainable(s, c, location, size, now) <==> Selectable(Cleaned(s, now).cells[c], location, size)
  {
    CleanedRows(s, now);
    assert Cleaned(s, now).cells[c] == FreedIf(s.cells[c], HasStale(s.sessions, c, now));
  }

  lemma {:induction false} SomeSelectable(s: State, e: Event)
    requires e.op.CreateCellSelection?
    ensures LowestFree(Cleaned(s, e.at).cells, e.op.location, e.op.size, {}).Some? <==>
              exists c: nat :: c < |s.cells| && Obtainable(s, c, e.op.location, e.op.size, e.at)
  {
    forall c: nat | c < |s.cells|
      ensures c < |Cleaned(s, e.at).cells|
      ensures Obtainable(s, c, e.op.location, e.op.size, e.at) <==>
                Selectable(Cleaned(s, e.at).cells[c], e.op.location, e.op.size)
    {
      ObtainableIsSelectable(s, c, e.op.location, e.op.size, e.at);
    }
    CleanedRows(s, e.at);
  }

  /** No cells are reported exactly when the location exists and no cell of it is obtainable. */
  lemma {:induction false} NoCellsExactly(s: State, e: Event)
    requires e.op.CreateCellSelection?
    ensures Answer(s, e) == NoCellsAvailable <==>
              e.op.location in s.locations
              && forall c: nat :: c < |s.cells| ==> !Obtainable(s, c, e.op.location, e.op.size, e.at)
  {
    SomeSelectable(s, e);
  }

  /** Some session carries the selection id. */
  ghost predicate Taken(s: State, selectionId: Id) {
    exists i :: 0 <= i < |s.sessions| && s.sessions[i].selectionId == selectionId
  }

  /** An unknown location is answered as such; at a known one with a cell to give, a repeated id fails, and every
      other request is granted, for what was asked and for 90 seconds. */
  lemma {:induction false} SelectionAnswers(s: State, e: Event)
    requires e.op.CreateCellSelection?
    ensures var some := exists c: nat :: c < |s.cells| && Obtainable(s, c, e.op.location, e.op.size, e.at);
            var r, known, taken := Answer(s, e), e.op.location in s.locations, Taken(s, e.op.selectionId);
            (r == LockerNotFound <==> !known) && (r == DbError <==> known && some && taken)
            && (r.SelectionMade? <==> known && some && !taken)
            && (r.SelectionMade? ==> r.selectionId == e.op.selectionId && r.location == e.op.location
                                     && r.size == e.op.size && r.hold == e.at + 90_000_000)
  {
    SomeSelectable(s, e);
  }

  /** Otherwise the selection takes the lowest-numbered obtainable cell: that cell becomes reserved, a
      session holding it for 90 seconds is added, and the rest is as the cleanup leaves it. */
  lemma {:induction false} TakesLowest(s: State, e: Event) returns (c: nat)
    requires e.op.CreateCellSelection? && Answer(s, e).SelectionMade? && NumbersUnique(s.cells)
    ensures c < |s.cells| && Obtainable(s, c, e.op.location, e.op.size, e.at)
    ensures forall d :: 0 <= d < |s.cells| && d != c && Obtainable(s, d, e.op.location, e.op.size, e.at)
                        ==> s.cells[c].no < s.cells[d].no
    ensures Answer(s, e).cellNumber == s.cells[c].no && Answer(s, e).hold == e.at + HOLD
    ensures var m, s' := Cleaned(s, e.at), Apply(s, e);
            |m.cells| == |s.cells| && s'.cells == m.cells[c := s.cells[c].(status := Reserved)]
            && s'.payments == s.payments && s'.locations == s.locations
            && s'.sessions == m.sessions + [Session(e.op.selectionId, c, s.cells[c].no, e.op.size, e.at,
                                                    e.at + 90_000_000, Selected, None, None, "", None, None, None)]
  {
    var m := Cleaned(s, e.at);
    CleanedRows(s, e.at);
    c := LowestFree(m.cells, e.op.location, e.op.size, {}).value;
    ObtainableIsSelectable(s, c, e.op.location, e.op.size, e.at);
    assert m.cells[c] == FreedIf(s.cells[c], HasStale(s.sessions, c, e.at));
    forall d: nat | d < |s.cells| && d != c && Obtainable(s, d, e.op.location, e.op.size, e.at)
      ensures s.cells[c].no < s.cells[d].no
    {
      ObtainableIsSelectable(s, d, e.op.location, e.op.size, e.at);
      assert m.cells[d] == FreedIf(s.cells[d], HasStale(s.sessions, d, e.at));
    }
  }
}
