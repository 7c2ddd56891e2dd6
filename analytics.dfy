// The analytics page's aggregates: per-group totals for the pie chart, the five
// most recent expenses for the trend chart, and the per-group average.

module Analytics {
  import opened LedgerTypes
  import opened Queries
  import opened Splits

  // ---------------------------------------------------------------------------
  // Expenses by group

  /** Sum of the expense amounts (`reduce((sum, exp) => sum + exp.amount, 0)`). */
  function SumAmounts(expenses: seq<Expense>): int
  {
    if |expenses| == 0 then 0
    else SumAmounts(expenses[..|expenses| - 1]) + expenses[|expenses| - 1].amount
  }

  /** The total spent in group `gid`. */
  function GroupTotal(expenses: seq<Expense>, gid: Id): (total: int)
    ensures (forall e :: e in expenses ==> e.groupId != gid) ==> total == 0
    ensures (forall e :: e in expenses ==> e.amount >= 0) ==> total >= 0
  {
    var ges := GroupExpenses(expenses, gid);
    GroupExpensesWithin(expenses, gid);
    SumAmountsNonNegative(ges);
    SumAmounts(ges)
  }

  lemma GroupExpensesWithin(expenses: seq<Expense>, gid: Id)
    ensures forall e :: e in GroupExpenses(expenses, gid) ==> e in expenses && e.groupId == gid
    ensures (forall e :: e in expenses ==> e.groupId != gid) ==> GroupExpenses(expenses, gid) == []
  {
    var ges := GroupExpenses(expenses, gid);
    forall e | e in ges ensures e in expenses && e.groupId == gid {
      GroupExpensesMembership(expenses, gid, e);
    }
    if ges != [] {
      assert ges[0] in ges;
    }
  }

  lemma {:induction false} SumAmountsNonNegative(expenses: seq<Expense>)
    ensures (forall e :: e in expenses ==> e.amount >= 0) ==> SumAmounts(expenses) >= 0
  {
    if |expenses| > 0 {
      var init := expenses[..|expenses| - 1];
      assert forall e :: e in init ==> e in expenses;
      assert expenses[|expenses| - 1] in expenses;
      SumAmountsNonNegative(init);
    }
  }

  /** One slice of the pie chart. */
  datatype Slice = Slice(name: string, value: int)

  /** expensesByGroup over the user's groups `gs`: a slice per group with a positive
      total, in group order. */
  function ExpensesByGroup(gs: seq<Group>, expenses: seq<Expense>): (r: seq<Slice>)
    ensures |r| <= |gs|
    ensures forall s :: s in r ==> s.value > 0
  {
    if |gs| == 0 then []
    else
      var g := gs[|gs| - 1];
      var total := GroupTotal(expenses, g.id);
      ExpensesByGroup(gs[..|gs| - 1], expenses) + (if total > 0 then [Slice(g.name, total)] else [])
  }

  /** A slice is exactly a listed group's name with that group's positive total. */
  lemma {:induction false} ExpensesByGroupMembership(gs: seq<Group>, expenses: seq<Expense>, s: Slice)
    ensures s in ExpensesByGroup(gs, expenses) <==>
            exists g :: g in gs && GroupTotal(expenses, g.id) > 0 && s == Slice(g.name, GroupTotal(expenses, g.id))
  {
    if |gs| > 0 {
      var init := gs[..|gs| - 1];
      ExpensesByGroupMembership(init, expenses, s);
      assert gs == init + [gs[|gs| - 1]];
    }
  }

  /** The slices follow the group order: the map-then-filter distributes over
      concatenation. */
  lemma {:induction false} ExpensesByGroupAppend(a: seq<Group>, b: seq<Group>, expenses: seq<Expense>)
    ensures ExpensesByGroup(a + b, expenses) == ExpensesByGroup(a, expenses) + ExpensesByGroup(b, expenses)
  {
    if |b| == 0 {
      assert a + b == a;
    } else {
      var init := b[..|b| - 1];
      var g := b[|b| - 1];
      var total := GroupTotal(expenses, g.id);
      var tail := if total > 0 then [Slice(g.name, total)] else [];
      ExpensesByGroupAppend(a, init, expenses);
      assert (a + b)[..|a + b| - 1] == a + init;
      assert (a + b)[|a + b| - 1] == g;
      assert ExpensesByGroup(a + b, expenses) == ExpensesByGroup(a + init, expenses) + tail;
      assert ExpensesByGroup(b, expenses) == ExpensesByGroup(init, expenses) + tail;
    }
  }

  lemma {:induction false} SumAmountsAppend(a: seq<Expense>, b: seq<Expense>)
    ensures SumAmounts(a + b) == SumAmounts(a) + SumAmounts(b)
  {
    if |b| == 0 {
      assert a + b == a;
    } else {
      var init := b[..|b| - 1];
      SumAmountsAppend(a, init);
      assert (a + b)[..|a + b| - 1] == a + init;
    }
  }

  /** Recording an expense raises its own group's total by its amount and leaves the
      other groups' totals alone. */
  lemma GroupTotalAppend(expenses: seq<Expense>, e: Expense, gid: Id)
    ensures GroupTotal(expenses + [e], gid) ==
            GroupTotal(expenses, gid) + (if e.groupId == gid then e.amount else 0)
  {
    GroupExpensesAppend(expenses, [e], gid);
    var single := GroupExpenses([e], gid);
    assert single == (if e.groupId == gid then [e] else []) by {
      assert [e][..0] == [];
    }
    SumAmountsAppend(GroupExpenses(expenses, gid), single);
    assert SumAmounts(single) == (if e.groupId == gid then e.amount else 0) by {
      assert [e][..0] == [];
    }
  }

  // ---------------------------------------------------------------------------
  // Recent expenses

  /** Descending by date. */
  predicate NewestFirst(s: seq<Expense>)
  {
    forall i, j :: 0 <= i < j < |s| ==> s[i].date >= s[j].date
  }

  /** Places `x` after every element at least as new, i.e. after its equals, which
      keeps the sort stable. */
  function Insert(x: Expense, s: seq<Expense>): (r: seq<Expense>)
    requires NewestFirst(s)
    ensures NewestFirst(r)
    ensures multiset(r) == multiset(s) + multiset{x}
  {
    if |s| == 0 then [x]
    else if s[0].date >= x.date then
      var rest := Insert(x, s[1..]);
      InsertBehind(x, s, rest);
      [s[0]] + rest
    else
      InsertAhead(x, s);
      [x] + s
  }

  /** The step of Insert that keeps the newest element in front. */
  lemma InsertBehind(x: Expense, s: seq<Expense>, rest: seq<Expense>)
    requires |s| > 0 && NewestFirst(s) && s[0].date >= x.date
    requires NewestFirst(rest) && multiset(rest) == multiset(s[1..]) + multiset{x}
    ensures NewestFirst([s[0]] + rest)
    ensures multiset([s[0]] + rest) == multiset(s) + multiset{x}
  {
    assert s == [s[0]] + s[1..];
    forall e | e in rest ensures e.date <= s[0].date {
      assert e in multiset(rest);
      if e != x {
        assert e in multiset(s[1..]);
        var j :| 0 <= j < |s[1..]| && s[1..][j] == e;
        assert s[j + 1] == e;
      }
    }
    var r := [s[0]] + rest;
    forall i, j | 0 <= i < j < |r| ensures r[i].date >= r[j].date {
      assert r[j] == rest[j - 1];
      assert rest[j - 1] in rest;
      if i > 0 {
        assert r[i] == rest[i - 1];
      }
    }
  }

  /** The step of Insert that puts a strictly newer element in front. */
  lemma InsertAhead(x: Expense, s: seq<Expense>)
    requires |s| > 0 && NewestFirst(s) && s[0].date < x.date
    ensures NewestFirst([x] + s)
  {
    var r := [x] + s;
    forall i, j | 0 <= i < j < |r| ensures r[i].date >= r[j].date {
      assert r[j] == s[j - 1];
      if i > 0 {
        assert r[i] == s[i - 1];
      } else {
        assert s[0].date >= s[j - 1].date || j == 1;
      }
    }
  }

  /** `[...expenses].sort((a, b) => b.date - a.date)`: newest first, the same multiset
      of expenses. */
  function SortNewestFirst(s: seq<Expense>): (r: seq<Expense>)
    ensures NewestFirst(r)
    ensures multiset(r) == multiset(s)
    ensures |r| == |s|
  {
    if |s| == 0 then []
    else
      var r := Insert(s[|s| - 1], SortNewestFirst(s[..|s| - 1]));
      assert s == s[..|s| - 1] + [s[|s| - 1]];
      assert |r| == |multiset(r)|;
      r
  }

  /** The expenses dated `d`, in order. */
  function DatedAt(s: seq<Expense>, d: int): seq<Expense>
  {
    if |s| == 0 then [] else (if s[0].date == d then [s[0]] else []) + DatedAt(s[1..], d)
  }

  lemma {:induction false} DatedAtAppend(a: seq<Expense>, b: seq<Expense>, d: int)
    ensures DatedAt(a + b, d) == DatedAt(a, d) + DatedAt(b, d)
  {
    if |a| > 0 {
      assert (a + b)[1..] == a[1..] + b;
      DatedAtAppend(a[1..], b, d);
    } else {
      assert a + b == b;
    }
  }

  lemma {:induction false} DatedAtNone(s: seq<Expense>, d: int)
    requires forall e :: e in s ==> e.date < d
    ensures DatedAt(s, d) == []
  {
    if |s| > 0 {
      assert s[0] in s;
      assert forall e :: e in s[1..] ==> e in s;
      DatedAtNone(s[1..], d);
    }
  }

  lemma HeadIsNewest(s: seq<Expense>)
    requires |s| > 0 && NewestFirst(s)
    ensures forall e :: e in s ==> e.date <= s[0].date
  {
    forall e | e in s ensures e.date <= s[0].date {
      var j :| 0 <= j < |s| && s[j] == e;
      if j > 0 {
        assert s[0].date >= s[j].date;
      }
    }
  }

  lemma DatedAtCons(h: Expense, t: seq<Expense>, d: int)
    ensures DatedAt([h] + t, d) == (if h.date == d then [h] else []) + DatedAt(t, d)
  {
    assert ([h] + t)[1..] == t;
  }

  lemma {:induction false} DatedAtInsert(x: Expense, s: seq<Expense>, d: int)
    requires NewestFirst(s)
    ensures DatedAt(Insert(x, s), d) == DatedAt(s, d) + (if x.date == d then [x] else [])
  {
    if |s| == 0 {
      DatedAtCons(x, [], d);
      assert [x] + [] == [x];
    } else if s[0].date >= x.date {
      var rest := Insert(x, s[1..]);
      assert Insert(x, s) == [s[0]] + rest;
      NewestFirstTail(s);
      DatedAtInsert(x, s[1..], d);
      DatedAtCons(s[0], rest, d);
      DatedAtCons(s[0], s[1..], d);
      assert [s[0]] + s[1..] == s;
    } else {
      DatedAtInsertAhead(x, s, d);
    }
  }

  lemma NewestFirstTail(s: seq<Expense>)
    requires |s| > 0 && NewestFirst(s)
    ensures NewestFirst(s[1..])
  {
    forall i, j | 0 <= i < j < |s[1..]| ensures s[1..][i].date >= s[1..][j].date {
      assert s[1..][i] == s[i + 1] && s[1..][j] == s[j + 1];
    }
  }

  /** A strictly newer expense goes in front; no expense of its date is behind it. */
  lemma DatedAtInsertAhead(x: Expense, s: seq<Expense>, d: int)
    requires |s| > 0 && NewestFirst(s) && s[0].date < x.date
    ensures DatedAt(Insert(x, s), d) == DatedAt(s, d) + (if x.date == d then [x] else [])
  {
    assert Insert(x, s) == [x] + s;
    DatedAtCons(x, s, d);
    if x.date == d {
      HeadIsNewest(s);
      DatedAtNone(s, d);
    }
  }

  /** The sort is stable: expenses of the same date keep their relative order. */
  lemma {:induction false} SortIsStable(s: seq<Expense>, d: int)
    ensures DatedAt(SortNewestFirst(s), d) == DatedAt(s, d)
  {
    if |s| > 0 {
      var init := s[..|s| - 1];
      var x := s[|s| - 1];
      var sortedInit := SortNewestFirst(init);
      SortIsStable(init, d);
      SortStep(s);
      DatedAtInsert(x, sortedInit, d);
      DatedAtSnoc(s, d);
    }
  }

  lemma DatedAtSnoc(s: seq<Expense>, d: int)
    requires |s| > 0
    ensures DatedAt(s, d) == DatedAt(s[..|s| - 1], d) + (if s[|s| - 1].date == d then [s[|s| - 1]] else [])
  {
    var x := s[|s| - 1];
    DatedAtSingle(x, d);
    DatedAtAppend(s[..|s| - 1], [x], d);
    assert s[..|s| - 1] + [x] == s;
  }

  lemma SortStep(s: seq<Expense>)
    requires |s| > 0
    ensures SortNewestFirst(s) == Insert(s[|s| - 1], SortNewestFirst(s[..|s| - 1]))
  {
  }

  lemma DatedAtSingle(x: Expense, d: int)
    ensures DatedAt([x], d) == if x.date == d then [x] else []
  {
    assert [x][1..] == [];
  }

  function Min(a: int, b: int): int { if a <= b then a else b }

  /** `.slice(0, 5)` of the sorted copy: the five newest expenses, newest first. */
  function MostRecent(expenses: seq<Expense>): (r: seq<Expense>)
    ensures |r| == Min(5, |expenses|)
    ensures NewestFirst(r)
    ensures multiset(r) <= multiset(expenses)
  {
    var sorted := SortNewestFirst(expenses);
    var n := Min(5, |expenses|);
    assert sorted == sorted[..n] + sorted[n..];
    sorted[..n]
  }

  /** No expense left out of the five is newer than one that was kept. */
  lemma MostRecentAreNewest(expenses: seq<Expense>, e: Expense)
    requires e in multiset(expenses) - multiset(MostRecent(expenses))
    ensures forall t :: t in MostRecent(expenses) ==> t.date >= e.date
    ensures |MostRecent(expenses)| == Min(5, |expenses|)
  {
    var sorted := SortNewestFirst(expenses);
    var n := Min(5, |expenses|);
    assert sorted == sorted[..n] + sorted[n..];
    assert multiset(expenses) == multiset(sorted[..n]) + multiset(sorted[n..]);
    assert e in multiset(sorted[n..]);
    var j :| 0 <= j < |sorted[n..]| && sorted[n..][j] == e;
    assert sorted[n + j] == e;
    forall t | t in sorted[..n] ensures t.date >= e.date {
      var i :| 0 <= i < n && sorted[..n][i] == t;
      assert sorted[i] == t;
    }
  }

  /** A bar of the trend chart. */
  datatype TrendPoint = TrendPoint(name: string, amount: int, group: string, date: int)

  /** `group?.name || 'Unknown'` for the expense's group among the user's groups. */
  function GroupLabel(gs: seq<Group>, gid: Id): (shown: string)
    ensures shown != ""
    ensures (forall g :: g in gs ==> g.id != gid) ==> shown == "Unknown"
    ensures shown != "Unknown" ==> exists g :: g in gs && g.id == gid && g.name == shown
    ensures FindGroup(gs, gid).Some? && FindGroup(gs, gid).value.name != "" ==> shown == FindGroup(gs, gid).value.name
  {
    match FindGroup(gs, gid)
    case Some(g) => if g.name != "" then g.name else "Unknown"
    case None => "Unknown"
  }

  function Point(gs: seq<Group>, e: Expense): TrendPoint
  {
    TrendPoint(e.description, e.amount, GroupLabel(gs, e.groupId), e.date)
  }

  /** recentExpenses: the five most recent expenses as chart points, reversed so the
      oldest of them comes first. */
  function RecentExpenses(gs: seq<Group>, expenses: seq<Expense>): (r: seq<TrendPoint>)
    ensures |r| == Min(5, |expenses|)
    ensures forall i :: 0 <= i < |r| ==> r[i] == Point(gs, MostRecent(expenses)[|r| - 1 - i])
  {
    var top := MostRecent(expenses);
    seq(|top|, i requires 0 <= i < |top| => Point(gs, top[|top| - 1 - i]))
  }

  /** The trend chart runs oldest first: the points' dates ascend. */
  lemma RecentExpensesOldestFirst(gs: seq<Group>, expenses: seq<Expense>)
    ensures var r := RecentExpenses(gs, expenses);
            forall i, j :: 0 <= i < j < |r| ==> r[i].date <= r[j].date
  {
    ReversedPointsAscend(gs, MostRecent(expenses), RecentExpenses(gs, expenses));
  }

  lemma ReversedPointsAscend(gs: seq<Group>, top: seq<Expense>, r: seq<TrendPoint>)
    requires NewestFirst(top) && |r| == |top|
    requires forall i :: 0 <= i < |r| ==> r[i] == Point(gs, top[|top| - 1 - i])
    ensures forall i, j :: 0 <= i < j < |r| ==> r[i].date <= r[j].date
  {
    forall i, j | 0 <= i < j < |r| ensures r[i].date <= r[j].date {
      assert r[i].date == top[|top| - 1 - i].date;
      assert r[j].date == top[|top| - 1 - j].date;
    }
  }

  // ---------------------------------------------------------------------------
  // Average

  /** The average expense of group `gid` to the cent (the total over the count, with
      the two-decimal rounding), or 0 when it has no expenses. */
  function AverageExpense(expenses: seq<Expense>, gid: Id): (avg: int)
    ensures |GroupExpenses(expenses, gid)| == 0 ==> avg == 0
    ensures var n := |GroupExpenses(expenses, gid)|;
            n > 0 ==> -n <= 2 * (n * avg - GroupTotal(expenses, gid)) <= n
  {
    var n := |GroupExpenses(expenses, gid)|;
    if n == 0 then 0 else RoundedShare(GroupTotal(expenses, gid), n)
  }

  lemma {:induction false} SumOfEqualAmounts(expenses: seq<Expense>, a: int)
    requires forall e :: e in expenses ==> e.amount == a
    ensures SumAmounts(expenses) == |expenses| * a
  {
    if |expenses| > 0 {
      var init := expenses[..|expenses| - 1];
      assert expenses[|expenses| - 1] in expenses;
      assert forall e :: e in init ==> e in expenses;
      SumOfEqualAmounts(init, a);
    }
  }

  /** When every expense of the group has the same amount, that is the average. */
  lemma AverageOfEqualAmounts(expenses: seq<Expense>, gid: Id, a: int)
    requires GroupExpenses(expenses, gid) != []
    requires forall e :: e in GroupExpenses(expenses, gid) ==> e.amount == a
    ensures AverageExpense(expenses, gid) == a
  {
    var ges := GroupExpenses(expenses, gid);
    SumOfEqualAmounts(ges, a);
    ExactShare(|ges| * a, |ges|, a);
  }
}
