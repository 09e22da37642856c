/** The revenue report: paid payments in a half-open window of time, grouped by location. */
module Revenue {
  import opened Tables
  import opened Operations
  import opened Invariants
  import opened Answers
  import opened Payments

  const DAY: Time := 86_400_000_000

  /** A half-open window of time. */
  datatype Window = Window(from: Time, to: Time)

  // ---------------------------------------------------------------- groups

  /** `COALESCE(paid_at, created_at)` */
  function StampOf(p: Payment): Time {
    if p.paidAt.Some? then p.paidAt.value else p.createdAt
  }

  /** The location a payment joins to through its session and cell. */
  function PaidAtLocation(s: State, p: Payment): Option<int> {
    if p.session >= |s.sessions| then None else
      var l := LocationOf(s.cells, s.sessions[p.session]);
      if l.Some? && l.value in s.locations then l else None
  }

  /** The WHERE clause of the report, without its location filter. */
  predicate InWindow(p: Payment, w: Window) {
    (p.status == Paid || p.status == Confirmed) && w.from <= StampOf(p) < w.to
  }

  /** Whether a payment is reported under `location`. */
  predicate Reported(s: State, p: Payment, w: Window, location: int) {
    InWindow(p, w) && PaidAtLocation(s, p) == Some(location)
  }

  /** COUNT(*) of a location's group, over the first `n` payments. */
  function Count(s: State, w: Window, location: int, n: nat): nat
    requires n <= |s.payments|
  {
    if n == 0 then 0
    else Count(s, w, location, n - 1) + if Reported(s, s.payments[n - 1], w, location) then 1 else 0
  }

  /** SUM(amount) of a location's group, over the first `n` payments. */
  function Sum(s: State, w: Window, location: int, n: nat): int
    requires n <= |s.payments|
  {
    if n == 0 then 0
    else Sum(s, w, location, n - 1) + if Reported(s, s.payments[n - 1], w, location)
        then s.payments[n - 1].amount else 0
  }

  /** MIN and MAX of the stamps of a location's group, over the first `n` payments. */
  function Earliest(s: State, w: Window, location: int, n: nat): Option<Time>
    requires n <= |s.payments|
  {
    if n == 0 then None else
      var t, p := Earliest(s, w, location, n - 1), s.payments[n - 1];
      if Reported(s, p, w, location) && (t.None? || StampOf(p) < t.value) then Some(StampOf(p)) else t
  }

  function Latest(s: State, w: Window, location: int, n: nat): Option<Time>
    requires n <= |s.payments|
  {
    if n == 0 then None else
      var t, p := Latest(s, w, location, n - 1), s.payments[n - 1];
      if Reported(s, p, w, location) && (t.None? || StampOf(p) > t.value) then Some(StampOf(p)) else t
  }

  /** Some reported payment among the first `n` has this stamp. */
  ghost predicate Stamped(s: State, w: Window, location: int, n: nat, t: Time)
    requires n <= |s.payments|
  {
    exists k :: 0 <= k < n && Reported(s, s.payments[k], w, location) && StampOf(s.payments[k]) == t
  }

  /** They are the first and the last stamp of the group, and there are such exactly when it has a payment. */
  lemma {:induction false} StampBounds(s: State, w: Window, location: int, n: nat)
    requires n <= |s.payments|
    ensures Earliest(s, w, location, n).Some? <==> Count(s, w, location, n) > 0
    ensures Latest(s, w, location, n).Some? <==> Count(s, w, location, n) > 0
    ensures Count(s, w, location, n) > 0 ==>
              Stamped(s, w, location, n, Earliest(s, w, location, n).value)
              && Stamped(s, w, location, n, Latest(s, w, location, n).value)
    ensures forall k :: 0 <= k < n && Reported(s, s.payments[k], w, location) ==>
                          Count(s, w, location, n) > 0
                          && Earliest(s, w, location, n).value <= StampOf(s.payments[k])
                          && StampOf(s.payments[k]) <= Latest(s, w, location, n).value
    decreases n
  {
    if n == 0 {
    } else {
      StampBounds(s, w, location, n - 1);
      if Count(s, w, location, n - 1) > 0 {
        StampedMore(s, w, location, n - 1, Earliest(s, w, location, n - 1).value);
        StampedMore(s, w, location, n - 1, Latest(s, w, location, n - 1).value);
      }
      if Reported(s, s.payments[n - 1], w, location) {
        assert Stamped(s, w, location, n, StampOf(s.payments[n - 1]));
      }
    }
  }

  lemma {:induction false} StampedMore(s: State, w: Window, location: int, n: nat, t: Time)
    requires n < |s.payments| && Stamped(s, w, location, n, t)
    ensures Stamped(s, w, location, n + 1, t)
  {
  }

  function CountAt(s: State, w: Window, location: int): nat {
    Count(s, w, location, |s.payments|)
  }

  function SumAt(s: State, w: Window, location: int): int {
    Sum(s, w, location, |s.payments|)
  }

  // ---------------------------------------------------------------- who is in a group

  /** Payment `k` was paid or confirmed in the window, and the cell of its session stands at the location. */
  predicate PaidAt(s: State, k: nat, w: Window, location: int) {
    k < |s.payments| && location in s.locations && Sits(s, s.payments[k].session, location)
    && (s.payments[k].status == Paid || s.payments[k].status == Confirmed)
    && if s.payments[k].paidAt.Some? then w.from <= s.payments[k].paidAt.value < w.to
       else w.from <= s.payments[k].createdAt < w.to
  }

  ghost function PaidBefore(s: State, w: Window, location: int, n: nat): set<nat> {
    set k | 0 <= k < n && PaidAt(s, k, w, location)
  }

  lemma {:induction false} CountIsSize(s: State, w: Window, location: int, n: nat)
    requires n <= |s.payments|
    ensures Count(s, w, location, n) == |PaidBefore(s, w, location, n)|
    decreases n
  {
    if n == 0 {
    } else {
      CountIsSize(s, w, location, n - 1);
      assert Reported(s, s.payments[n - 1], w, location) <==> PaidAt(s, n - 1, w, location);
      var before := PaidBefore(s, w, location, n - 1);
      assert PaidBefore(s, w, location, n)
          == if PaidAt(s, n - 1, w, location) then before + {n - 1} else before;
    }
  }

  /** The same payments as rows, in order. */
  function RowsPaid(s: State, w: Window, location: int, n: nat): seq<Payment>
    requires n <= |s.payments|
  {
    if n == 0 then []
    else RowsPaid(s, w, location, n - 1) + if PaidAt(s, n - 1, w, location) then [s.payments[n - 1]] else []
  }

  /** A group's sum is that of the amounts of its payments. */
  lemma {:induction false} SumIsAmounts(s: State, w: Window, location: int, n: nat)
    requires n <= |s.payments|
    ensures Sum(s, w, location, n) == SumAmounts(RowsPaid(s, w, location, n))
    decreases n
  {
    if n == 0 {
    } else {
      SumIsAmounts(s, w, location, n - 1);
      assert Reported(s, s.payments[n - 1], w, location) <==> PaidAt(s, n - 1, w, location);
      AmountsMore(RowsPaid(s, w, location, n - 1), s.payments[n - 1]);
    }
  }

  lemma {:induction false} AmountsMore(rows: seq<Payment>, p: Payment)
    ensures SumAmounts(rows + [p]) == SumAmounts(rows) + p.amount && rows + [] == rows
  {
    assert (rows + [p])[..|rows|] == rows;
  }

  /** The payments of a location's group. */
  ghost function GroupOf(s: State, w: Window, location: int): set<nat> {
    PaidBefore(s, w, location, |s.payments|)
  }

  /** A group counts exactly those payments and adds their amounts, in reachable databases 900 for each. */
  lemma {:induction false} GroupCounts(s: State, w: Window, location: int)
    ensures CountAt(s, w, location) == |GroupOf(s, w, location)|
    ensures SumAt(s, w, location) == SumAmounts(RowsPaid(s, w, location, |s.payments|))
    ensures PaymentsOk(s) ==> SumAt(s, w, location) == 900 * |GroupOf(s, w, location)|
  {
    CountIsSize(s, w, location, |s.payments|);
    SumIsAmounts(s, w, location, |s.payments|);
    if PaymentsOk(s) {
      RevenueIsPriceTimesCount(s, w, location, |s.payments|);
    }
  }

  // ---------------------------------------------------------------- the report

  datatype RevenueRow = RevenueRow(location: int, count: nat, sum: int, average: real, first: Time, last: Time)

  predicate Wanted(filter: Option<int>, location: int) {
    filter.None? || filter == Some(location)
  }

  /** One row for each wanted location with a payment in the window, by ascending location. */
  ghost predicate IsReport(s: State, w: Window, filter: Option<int>, rows: seq<RevenueRow>) {
    Ascending(rows)
    && (forall i :: 0 <= i < |rows| ==> IsRow(s, w, filter, rows[i]))
    && (forall l :: Wanted(filter, l) && CountAt(s, w, l) > 0 ==> Listed(rows, l))
  }

  predicate Ascending(rows: seq<RevenueRow>) {
    forall i, j :: 0 <= i < j < |rows| ==> rows[i].location < rows[j].location
  }

  ghost predicate IsRow(s: State, w: Window, filter: Option<int>, row: RevenueRow) {
    Wanted(filter, row.location) && row.count > 0
    && row.count == CountAt(s, w, row.location) && row.sum == SumAt(s, w, row.location)
    && row.average == row.sum as real / row.count as real
    && Earliest(s, w, row.location, |s.payments|) == Some(row.first)
    && Latest(s, w, row.location, |s.payments|) == Some(row.last)
  }

  ghost predicate Listed(rows: seq<RevenueRow>, location: int) {
    exists i :: 0 <= i < |rows| && rows[i].location == location
  }

  method RevenueByLocation(s: State, w: Window, filter: Option<int>) returns (rows: seq<RevenueRow>)
    ensures IsReport(s, w, filter, rows)
  {
    var groups := GroupPayments(s, w, filter);
    rows := [];
    var todo := groups.Keys;
    while todo != {}
      invariant Progress(s, w, filter, groups, rows, todo)
      decreases todo
    {
      HasLeast(todo);
      var l :| l in todo && forall m :: m in todo ==> l <= m;
      ghost var was := rows;
      rows := rows + [RowOf(l, groups[l])];
      OneMoreRow(s, w, filter, groups, was, todo, l);
      todo := todo - {l};
    }
  }

  function RowOf(location: int, g: Group): RevenueRow
    requires g.count > 0
  {
    RevenueRow(location, g.count, g.sum, g.sum as real / g.count as real, g.first, g.last)
  }

  /** The report so far: the rows of all groups but those in `todo`, which come later. */
  ghost predicate Progress(s: State, w: Window, filter: Option<int>, groups: map<int, Group>, rows: seq<RevenueRow>,
                           todo: set<int>) {
    GroupsOf(s, w, filter, groups, |s.payments|) && todo <= groups.Keys && Ascending(rows)
    && (forall l :: l in groups && l !in todo ==> Listed(rows, l))
    && (forall i :: 0 <= i < |rows| ==> IsRow(s, w, filter, rows[i]))
    && (forall i, l :: 0 <= i < |rows| && l in todo ==> rows[i].location < l)
  }

  lemma {:induction false} OneMoreRow(s: State, w: Window, filter: Option<int>, groups: map<int, Group>,
                                      rows: seq<RevenueRow>, todo: set<int>, l: int)
    requires Progress(s, w, filter, groups, rows, todo) && l in todo && forall m :: m in todo ==> l <= m
    ensures groups[l].count > 0
    ensures Progress(s, w, filter, groups, rows + [RowOf(l, groups[l])], todo - {l})
  {
    assert IsGroup(s, w, l, groups[l], |s.payments|) && Wanted(filter, l);
    GroupRow(s, w, filter, groups[l], l);
    ListedMore(rows, RowOf(l, groups[l]));
    AscendingMore(rows, RowOf(l, groups[l]));
  }

  lemma {:induction false} GroupRow(s: State, w: Window, filter: Option<int>, g: Group, l: int)
    requires IsGroup(s, w, l, g, |s.payments|) && Wanted(filter, l)
    ensures IsRow(s, w, filter, RowOf(l, g))
  {
  }

  lemma {:induction false} AscendingMore(rows: seq<RevenueRow>, row: RevenueRow)
    requires Ascending(rows) && forall i :: 0 <= i < |rows| ==> rows[i].location < row.location
    ensures Ascending(rows + [row])
  {
  }

  lemma {:induction false} ListedMore(rows: seq<RevenueRow>, row: RevenueRow)
    ensures forall m :: Listed(rows, m) || m == row.location ==> Listed(rows + [row], m)
  {
    var more := rows + [row];
    assert more[|rows|] == row;
    forall m | Listed(rows, m)
      ensures Listed(more, m)
    {
      var i :| 0 <= i < |rows| && rows[i].location == m;
      assert more[i].location == m;
    }
  }

  /** What the report accumulates for a location. */
  datatype Group = Group(count: nat, sum: int, first: Time, last: Time)

  /** The groups over the first `n` payments: one for each wanted location met so far. */
  ghost predicate GroupsOf(s: State, w: Window, filter: Option<int>, groups: map<int, Group>, n: nat)
    requires n <= |s.payments|
  {
    (forall l :: l in groups <==> Wanted(filter, l) && Count(s, w, l, n) > 0)
    && (forall l :: l in groups ==> IsGroup(s, w, l, groups[l], n))
  }

  ghost predicate IsGroup(s: State, w: Window, location: int, g: Group, n: nat)
    requires n <= |s.payments|
  {
    g.count == Count(s, w, location, n) && g.count > 0 && g.sum == Sum(s, w, location, n)
    && Earliest(s, w, location, n) == Some(g.first) && Latest(s, w, location, n) == Some(g.last)
  }

  /** The location's group with one more payment in it. */
  function Grown(groups: map<int, Group>, location: int, p: Payment): Group {
    var t := StampOf(p);
    if location !in groups then Group(1, p.amount, t, t) else
      var g := groups[location];
      Group(g.count + 1, g.sum + p.amount, if t < g.first then t else g.first, if t > g.last then t else g.last)
  }

  /** One pass over the payments, accumulating a group for each location it meets. */
  method GroupPayments(s: State, w: Window, filter: Option<int>) returns (groups: map<int, Group>)
    ensures GroupsOf(s, w, filter, groups, |s.payments|)
  {
    groups := map[];
    for k := 0 to |s.payments|
      invariant GroupsOf(s, w, filter, groups, k)
    {
      var p := s.payments[k];
      var l := PaidAtLocation(s, p);
      OthersStay(s, w, k);
      if InWindow(p, w) && l.Some? && Wanted(filter, l.value) {
        GroupGrows(s, w, filter, groups, k, l.value);
        groups := groups[l.value := Grown(groups, l.value, p)];
      }
    }
  }

  lemma {:induction false} GroupGrows(s: State, w: Window, filter: Option<int>, groups: map<int, Group>, k: nat, l: int)
    requires k < |s.payments| && GroupsOf(s, w, filter, groups, k) && Reported(s, s.payments[k], w, l)
    requires Wanted(filter, l)
    ensures IsGroup(s, w, l, Grown(groups, l, s.payments[k]), k + 1)
  {
    EmptyGroup(s, w, l, k);
    if l in groups {
      assert IsGroup(s, w, l, groups[l], k);
    }
  }

  /** A payment adds to the group of its own location only. */
  lemma {:induction false} OthersStay(s: State, w: Window, k: nat)
    requires k < |s.payments|
    ensures forall l, g :: !Reported(s, s.payments[k], w, l) ==>
                             (IsGroup(s, w, l, g, k + 1) <==> IsGroup(s, w, l, g, k))
                             && Count(s, w, l, k + 1) == Count(s, w, l, k)
  {
    forall l, g | !Reported(s, s.payments[k], w, l)
      ensures IsGroup(s, w, l, g, k + 1) <==> IsGroup(s, w, l, g, k)
      ensures Count(s, w, l, k + 1) == Count(s, w, l, k)
    {
      OtherStays(s, w, l, g, k);
    }
  }

  lemma {:induction false} OtherStays(s: State, w: Window, l: int, g: Group, k: nat)
    requires k < |s.payments| && !Reported(s, s.payments[k], w, l)
    ensures IsGroup(s, w, l, g, k + 1) <==> IsGroup(s, w, l, g, k)
    ensures Count(s, w, l, k + 1) == Count(s, w, l, k)
  {
  }

  lemma {:induction false} EmptyGroup(s: State, w: Window, location: int, n: nat)
    requires n <= |s.payments|
    ensures Count(s, w, location, n) == 0 ==>
              Sum(s, w, location, n) == 0 && Earliest(s, w, location, n) == None && Latest(s, w, location, n) == None
    decreases n
  {
    if n == 0 {
    } else {
      EmptyGroup(s, w, location, n - 1);
    }
  }

  lemma {:induction false} HasLeast(s: set<int>)
    requires s != {}
    ensures exists l :: l in s && forall m :: m in s ==> l <= m
  {
    assert exists x :: x in s by {
      assert (forall x :: x !in s) ==> s == {};
    }
    var x :| x in s;
    LeastFrom(s, x);
  }

  /** Walking down from an element reaches the least one. */
  lemma {:induction false} LeastFrom(s: set<int>, x: int)
    requires x in s
    ensures exists l :: l in s && forall m :: m in s ==> l <= m
    decreases |set y | y in s && y < x|
  {
    if y :| y in s && y < x {
      var below, further := set z | z in s && z < x, set z | z in s && z < y;
      assert further < below by {
        assert y in below && y !in further;
      }
      Smaller(further, below);
      LeastFrom(s, y);
    }
  }

  lemma {:induction false} Smaller(a: set<int>, b: set<int>)
    requires a < b
    ensures |a| < |b|
  {
    var rest := b - a;
    assert a + rest == b && a !! rest;
    assert rest != {};
  }

  /** The row of one report at a position stands no earlier in the other. */
  lemma {:induction false} NotEarlier(s: State, w: Window, filter: Option<int>, a: seq<RevenueRow>,
                                      b: seq<RevenueRow>, n: nat)
      returns (j: nat)
    requires IsReport(s, w, filter, a) && IsReport(s, w, filter, b) && n < |a|
    requires n <= |b| && a[..n] == b[..n]
    ensures n <= j < |b| && b[j] == a[n]
  {
    j := SameRow(s, w, filter, a, b, n);
    assert forall k :: 0 <= k < n ==> a[k] == a[..n][k] && b[k] == b[..n][k];
  }

  lemma {:induction false} SameRow(s: State, w: Window, filter: Option<int>, a: seq<RevenueRow>, b: seq<RevenueRow>,
                                   n: nat)
      returns (j: nat)
    requires IsReport(s, w, filter, a) && IsReport(s, w, filter, b) && n < |a|
    ensures j < |b| && b[j] == a[n]
  {
    assert IsRow(s, w, filter, a[n]);
    assert Listed(b, a[n].location);
    j :| 0 <= j < |b| && b[j].location == a[n].location;
    assert IsRow(s, w, filter, b[j]);
  }

  lemma {:induction false} SameNext(s: State, w: Window, filter: Option<int>, a: seq<RevenueRow>, b: seq<RevenueRow>,
                                    n: nat)
    requires IsReport(s, w, filter, a) && IsReport(s, w, filter, b) && n < |a|
    requires n <= |b| && a[..n] == b[..n]
    ensures n < |b| && a[n] == b[n]
  {
    var j := NotEarlier(s, w, filter, a, b, n);
    var i := NotEarlier(s, w, filter, b, a, n);
    assert j > n ==> b[n].location < b[j].location;
    assert i > n ==> a[n].location < a[i].location;
  }

  lemma {:induction false} ReportPrefix(s: State, w: Window, filter: Option<int>, a: seq<RevenueRow>,
                                        b: seq<RevenueRow>, n: nat)
    requires IsReport(s, w, filter, a) && IsReport(s, w, filter, b) && n <= |a|
    ensures n <= |b| && a[..n] == b[..n]
    decreases n
  {
    if n == 0 {
    } else {
      ReportPrefix(s, w, filter, a, b, n - 1);
      SameNext(s, w, filter, a, b, n - 1);
      assert a[..n] == a[..n - 1] + [a[n - 1]] && b[..n] == b[..n - 1] + [b[n - 1]];
    }
  }

  /** The report is determined by the database, the window and the filter. */
  lemma {:induction false} ReportUnique(s: State, w: Window, filter: Option<int>, a: seq<RevenueRow>,
                                        b: seq<RevenueRow>)
    requires IsReport(s, w, filter, a) && IsReport(s, w, filter, b)
    ensures a == b
  {
    ReportPrefix(s, w, filter, a, b, |a|);
    ReportPrefix(s, w, filter, b, a, |b|);
  }

  /** The report of one location is exactly its row, if any, of the unfiltered report. */
  lemma {:induction false} SingleLocation(s: State, w: Window, location: int, all: seq<RevenueRow>,
                                          one: seq<RevenueRow>)
    requires IsReport(s, w, None, all) && IsReport(s, w, Some(location), one)
    ensures forall i :: 0 <= i < |all| && all[i].location == location ==> one == [all[i]]
    ensures !Listed(all, location) ==> one == []
  {
    if CountAt(s, w, location) > 0 {
      assert Wanted(None, location);
      assert Listed(all, location);
      var i :| 0 <= i < |all| && all[i].location == location;
      assert IsRow(s, w, None, all[i]);
      assert [all[i]][0].location == location;
      assert Listed([all[i]], location);
      assert IsReport(s, w, Some(location), [all[i]]);
      ReportUnique(s, w, Some(location), one, [all[i]]);
    } else {
      assert forall i :: 0 <= i < |all| ==> IsRow(s, w, None, all[i]);
      assert IsReport(s, w, Some(location), []);
      ReportUnique(s, w, Some(location), one, []);
    }
  }

  // ---------------------------------------------------------------- each payment once

  /** Whether some row of the report covers the payment. */
  predicate Anywhere(s: State, p: Payment, w: Window) {
    InWindow(p, w) && PaidAtLocation(s, p).Some?
  }

  /** All payments of the window among the first `n`, whatever their location. */
  function TotalCount(s: State, w: Window, n: nat): nat
    requires n <= |s.payments|
  {
    if n == 0 then 0 else TotalCount(s, w, n - 1) + if Anywhere(s, s.payments[n - 1], w) then 1 else 0
  }

  function TotalSum(s: State, w: Window, n: nat): int
    requires n <= |s.payments|
  {
    if n == 0 then 0
    else TotalSum(s, w, n - 1) + if Anywhere(s, s.payments[n - 1], w) then s.payments[n - 1].amount else 0
  }

  /** The counts and sums of the first `m` rows, each taken over the first `n` payments. */
  function RowsCount(s: State, w: Window, rows: seq<RevenueRow>, m: nat, n: nat): nat
    requires m <= |rows| && n <= |s.payments|
  {
    if m == 0 then 0 else RowsCount(s, w, rows, m - 1, n) + Count(s, w, rows[m - 1].location, n)
  }

  function RowsSum(s: State, w: Window, rows: seq<RevenueRow>, m: nat, n: nat): int
    requires m <= |rows| && n <= |s.payments|
  {
    if m == 0 then 0 else RowsSum(s, w, rows, m - 1, n) + Sum(s, w, rows[m - 1].location, n)
  }

  function AddCounts(rows: seq<RevenueRow>, m: nat): nat
    requires m <= |rows|
  {
    if m == 0 then 0 else AddCounts(rows, m - 1) + rows[m - 1].count
  }

  function AddSums(rows: seq<RevenueRow>, m: nat): int
    requires m <= |rows|
  {
    if m == 0 then 0 else AddSums(rows, m - 1) + rows[m - 1].sum
  }

  lemma {:induction false} RowsEmpty(s: State, w: Window, rows: seq<RevenueRow>, m: nat)
    requires m <= |rows|
    ensures RowsCount(s, w, rows, m, 0) == 0 && RowsSum(s, w, rows, m, 0) == 0
    decreases m
  {
    if m == 0 {
    } else {
      RowsEmpty(s, w, rows, m - 1);
    }
  }

  /** One of the first `m` rows covers the payment. */
  ghost predicate Covered(s: State, p: Payment, w: Window, rows: seq<RevenueRow>, m: nat)
    requires m <= |rows|
  {
    exists i :: 0 <= i < m && Reported(s, p, w, rows[i].location)
  }

  /** One more payment adds to one row only. */
  lemma {:induction false} RowsStep(s: State, w: Window, rows: seq<RevenueRow>, m: nat, n: nat)
    requires m <= |rows| && n < |s.payments|
    requires forall i, j :: 0 <= i < j < |rows| ==> rows[i].location < rows[j].location
    ensures RowsCount(s, w, rows, m, n + 1)
         == RowsCount(s, w, rows, m, n) + if Covered(s, s.payments[n], w, rows, m) then 1 else 0
    ensures RowsSum(s, w, rows, m, n + 1)
         == RowsSum(s, w, rows, m, n) + if Covered(s, s.payments[n], w, rows, m) then s.payments[n].amount else 0
    decreases m
  {
    if m == 0 {
    } else {
      RowsStep(s, w, rows, m - 1, n);
    }
  }

  lemma {:induction false} ReportedCounts(s: State, w: Window, location: int, k: nat, n: nat)
    requires k < n <= |s.payments| && Reported(s, s.payments[k], w, location)
    ensures Count(s, w, location, n) > 0
    decreases n
  {
    if k < n - 1 {
      ReportedCounts(s, w, location, k, n - 1);
    }
  }

  lemma {:induction false} RowsCoverAll(s: State, w: Window, rows: seq<RevenueRow>, n: nat)
    requires IsReport(s, w, None, rows) && n <= |s.payments|
    ensures RowsCount(s, w, rows, |rows|, n) == TotalCount(s, w, n)
    ensures RowsSum(s, w, rows, |rows|, n) == TotalSum(s, w, n)
    decreases n
  {
    if n == 0 {
      RowsEmpty(s, w, rows, |rows|);
    } else {
      RowsCoverAll(s, w, rows, n - 1);
      RowsStep(s, w, rows, |rows|, n - 1);
      var p := s.payments[n - 1];
      if Anywhere(s, p, w) {
        var l := PaidAtLocation(s, p).value;
        ReportedCounts(s, w, l, n - 1, |s.payments|);
        assert Wanted(None, l) && Listed(rows, l);
        var i :| 0 <= i < |rows| && rows[i].location == l;
        assert Reported(s, p, w, rows[i].location);
      }
    }
  }

  lemma {:induction false} AddsAreRows(s: State, w: Window, rows: seq<RevenueRow>, m: nat)
    requires IsReport(s, w, None, rows) && m <= |rows|
    ensures AddCounts(rows, m) == RowsCount(s, w, rows, m, |s.payments|)
    ensures AddSums(rows, m) == RowsSum(s, w, rows, m, |s.payments|)
    decreases m
  {
    if m == 0 {
    } else {
      AddsAreRows(s, w, rows, m - 1);
      assert IsRow(s, w, None, rows[m - 1]);
    }
  }

  /** The rows of the unfiltered report add up to all paid payments of the window, each counted once. */
  lemma {:induction false} ReportCountsEachOnce(s: State, w: Window, rows: seq<RevenueRow>)
    requires IsReport(s, w, None, rows)
    ensures AddCounts(rows, |rows|) == TotalCount(s, w, |s.payments|)
    ensures AddSums(rows, |rows|) == TotalSum(s, w, |s.payments|)
  {
    AddsAreRows(s, w, rows, |rows|);
    RowsCoverAll(s, w, rows, |s.payments|);
  }

  // ---------------------------------------------------------------- windows

  /** The window of an export from one day to another, both included; none when they are reversed. */
  function ExportWindow(fromDay: int, toDay: int): Option<Window> {
    if toDay < fromDay then None else Some(Window(fromDay * DAY, toDay * DAY + DAY))
  }

  /** An export covers whole days of 24 hours, the first and the last included, and reversed days are refused. */
  lemma {:induction false} ExportCoversDays(p: Payment, fromDay: int, toDay: int)
    ensures ExportWindow(fromDay, toDay).None? <==> toDay < fromDay
    ensures fromDay <= toDay && p.status == Paid ==>
              (InWindow(p, ExportWindow(fromDay, toDay).value)
               <==> fromDay <= StampOf(p) / 86_400_000_000 <= toDay)
  {
  }

  lemma {:induction false} GroupSplits(s: State, from: Time, mid: Time, to: Time, location: int, n: nat)
    requires from <= mid <= to && n <= |s.payments|
    ensures Count(s, Window(from, to), location, n)
         == Count(s, Window(from, mid), location, n) + Count(s, Window(mid, to), location, n)
    ensures Sum(s, Window(from, to), location, n)
         == Sum(s, Window(from, mid), location, n) + Sum(s, Window(mid, to), location, n)
    decreases n
  {
    if n == 0 {
    } else {
      GroupSplits(s, from, mid, to, location, n - 1);
    }
  }

  /** Exports of adjoining day ranges add up, location by location, to the export of the whole range. */
  lemma {:induction false} ExportsAdd(s: State, a: int, b: int, c: int, location: int)
    requires a <= b < c
    ensures ExportWindow(a, b).Some? && ExportWindow(b + 1, c).Some? && ExportWindow(a, c).Some?
    ensures CountAt(s, ExportWindow(a, c).value, location)
         == CountAt(s, ExportWindow(a, b).value, location) + CountAt(s, ExportWindow(b + 1, c).value, location)
    ensures SumAt(s, ExportWindow(a, c).value, location)
         == SumAt(s, ExportWindow(a, b).value, location) + SumAt(s, ExportWindow(b + 1, c).value, location)
  {
    GroupSplits(s, a * DAY, (b + 1) * DAY, c * DAY + DAY, location, |s.payments|);
  }

  // ---------------------------------------------------------------- closed windows stay closed

  /** Every payment belongs to a session row: the foreign key of `payments`. */
  ghost predicate Linked(s: State) {
    forall k :: 0 <= k < |s.payments| ==> s.payments[k].session < |s.sessions|
  }

  predicate SameInWindow(p: Payment, q: Payment, w: Window) {
    q.session == p.session && (q == p || (!InWindow(p, w) && !InWindow(q, w)))
  }

  /** What an operation at or after the end of the window does to the rows the report reads. */
  ghost predicate Frozen(s: State, s': State, w: Window) {
    |s.payments| <= |s'.payments| && |s.sessions| <= |s'.sessions|
    && |s.cells| == |s'.cells| && s.locations == s'.locations
    && (forall k :: 0 <= k < |s.payments| ==> SameInWindow(s.payments[k], s'.payments[k], w))
    && (forall k :: |s.payments| <= k < |s'.payments| ==> !InWindow(s'.payments[k], w))
    && (forall i :: 0 <= i < |s.sessions| ==> s'.sessions[i].cell == s.sessions[i].cell)
    && (forall c :: 0 <= c < |s.cells| ==> s'.cells[c].location == s.cells[c].location)
  }

  lemma {:induction false} FrozenStep(s: State, e: Effect, w: Window)
    requires e.Refresh? ==> w.to <= e.at
    ensures Frozen(s, Do(s, e), w)
    ensures Linked(s) ==> Linked(Do(s, e))
  {
  }

  lemma {:induction false} GroupFrozen(s: State, s': State, w: Window, location: int, n: nat)
    requires Linked(s) && Frozen(s, s', w) && n <= |s'.payments|
    ensures var m := if n <= |s.payments| then n else |s.payments|;
            Count(s', w, location, n) == Count(s, w, location, m) && Sum(s', w, location, n) == Sum(s, w, location, m)
            && Earliest(s', w, location, n) == Earliest(s, w, location, m)
            && Latest(s', w, location, n) == Latest(s, w, location, m)
    decreases n
  {
    if n == 0 {
    } else {
      GroupFrozen(s, s', w, location, n - 1);
      if n <= |s.payments| {
        assert SameInWindow(s.payments[n - 1], s'.payments[n - 1], w);
      }
    }
  }

  /** The group of a location is the same in both databases. */
  ghost predicate SameGroup(s: State, s': State, w: Window, location: int) {
    CountAt(s', w, location) == CountAt(s, w, location) && SumAt(s', w, location) == SumAt(s, w, location)
    && Earliest(s', w, location, |s'.payments|) == Earliest(s, w, location, |s.payments|)
    && Latest(s', w, location, |s'.payments|) == Latest(s, w, location, |s.payments|)
  }

  lemma {:induction false} WindowStep(s: State, e: Effect, w: Window, location: int)
    requires Linked(s) && (e.Refresh? ==> w.to <= e.at)
    ensures Linked(Do(s, e)) && SameGroup(s, Do(s, e), w, location)
  {
    FrozenStep(s, e, w);
    GroupFrozen(s, Do(s, e), w, location, |Do(s, e).payments|);
  }

  lemma {:induction false} RefreshTime(s: State, e: Event)
    ensures Plan(s, e).0.Refresh? ==> Plan(s, e).0.at == e.at
    ensures !Plan(s, e).1.Refresh?
  {
  }

  lemma {:induction false} WindowEvent(s: State, e: Event, w: Window, location: int)
    requires Linked(s) && w.to <= e.at
    ensures Linked(Apply(s, e)) && SameGroup(s, Apply(s, e), w, location)
  {
    RefreshTime(s, e);
    WindowStep(s, Plan(s, e).0, w, location);
    WindowStep(Do(s, Plan(s, e).0), Plan(s, e).1, w, location);
  }

  lemma {:induction false} LaterOrdered(t: Time, u: Time, es: seq<Event>)
    requires t <= u && Ordered(u, es)
    ensures Ordered(t, es)
  {
  }

  /** Once the clock has reached the end of a window, its count and revenue per location never change
      again, under any further run whatever. */
  lemma {:induction false} ClosedWindow(s: State, w: Window, es: seq<Event>, location: int)
    requires Linked(s) && Ordered(w.to, es)
    ensures SameGroup(s, Run(s, es), w, location)
    decreases |es|
  {
    if es == [] {
    } else {
      WindowEvent(s, es[0], w, location);
      LaterOrdered(w.to, es[0].at, es[1..]);
      ClosedWindow(Apply(s, es[0]), w, es[1..], location);
    }
  }

  /** In every database the flow can reach, a group's revenue is 900 for each of its payments. */
  lemma {:induction false} RevenueIsPriceTimesCount(s: State, w: Window, location: int, n: nat)
    requires PaymentsOk(s) && n <= |s.payments|
    ensures Sum(s, w, location, n) == PRICE * Count(s, w, location, n)
    decreases n
  {
    if n == 0 {
    } else {
      RevenueIsPriceTimesCount(s, w, location, n - 1);
      assert PaymentOk(s.sessions, s.payments[n - 1]);
    }
  }
}
