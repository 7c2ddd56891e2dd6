// The balance aggregation of getGroupBalances, stated as functions of the
// group and its expenses, and the conservation of money.

module Balances {
  import opened LedgerTypes
  import opened Queries
  import opened Splits

  /** What one expense does to `uid`'s balance: credited the full amount when they
      paid, debited every share their splits carry. */
  function Delta(e: Expense, uid: Id): int
  {
    (if e.paidBy == uid then e.amount else 0) - SplitShare(e.splits, uid)
  }

  /** `uid`'s net balance over a list of expenses, starting from zero. */
  function Net(expenses: seq<Expense>, uid: Id): int
  {
    if |expenses| == 0 then 0
    else Net(expenses[..|expenses| - 1], uid) + Delta(expenses[|expenses| - 1], uid)
  }

  /** One balance per member, in member order. */
  function MemberBalances(members: seq<Member>, expenses: seq<Expense>): seq<Balance>
  {
    seq(|members|, k requires 0 <= k < |members| =>
      Balance(members[k].id, members[k].name, Net(expenses, members[k].id)))
  }

  /** The value getGroupBalances returns: nothing without a current user or for an
      unknown group, otherwise every member's balance over the group's expenses. */
  function GroupBalances(user: Option<Member>, groups: seq<Group>, expenses: seq<Expense>,
                         gid: Id): (r: seq<Balance>)
    ensures (user.None? || FindGroup(groups, gid).None?) ==> r == []
    ensures user.Some? && FindGroup(groups, gid).Some? ==>
              var ms := FindGroup(groups, gid).value.members;
              |r| == |ms| &&
              forall k :: 0 <= k < |r| ==> r[k].userId == ms[k].id && r[k].userName == ms[k].name
  {
    if user.None? then []
    else
      match FindGroup(groups, gid)
      case None => []
      case Some(g) => MemberBalances(g.members, GroupExpenses(expenses, gid))
  }

  /** What getGroupBalances needs of a group to run without throwing: member ids are
      distinct keys, and every payer and split user of its expenses is a member. */
  predicate GroupConsistent(g: Group, expenses: seq<Expense>)
  {
    && DistinctIds(g.members)
    && forall e :: e in expenses && e.groupId == g.id ==> ExpenseWithin(e, g.members)
  }

  /** The payer and every split user of `e` are among `members`. */
  predicate ExpenseWithin(e: Expense, members: seq<Member>)
  {
    IsMember(members, e.paidBy) && forall s :: s in e.splits ==> IsMember(members, s.userId)
  }

  /** getGroupBalances(gid) does not throw: the group it finds (if any) is consistent. */
  predicate BalancesDefined(groups: seq<Group>, expenses: seq<Expense>, gid: Id)
  {
    match FindGroup(groups, gid)
    case None => true
    case Some(g) => GroupConsistent(g, expenses)
  }

  /** `balances.find(b => b.userId === uid)`. */
  function FindBalance(balances: seq<Balance>, uid: Id): (r: Option<Balance>)
    ensures r.None? <==> forall b :: b in balances ==> b.userId != uid
    ensures r.Some? ==> r.value in balances && r.value.userId == uid
    ensures r.Some? ==> exists k :: 0 <= k < |balances| && balances[k] == r.value &&
                                    forall j :: 0 <= j < k ==> balances[j].userId != uid
  {
    if |balances| == 0 then None
    else if balances[0].userId == uid then Some(balances[0])
    else
      var rest := FindBalance(balances[1..], uid);
      assert forall b :: b in balances[1..] ==> b in balances;
      assert forall b :: b in balances ==> b == balances[0] || b in balances[1..];
      if rest.Some? then
        var k :| 0 <= k < |balances[1..]| && balances[1..][k] == rest.value &&
                 forall j :: 0 <= j < k ==> balances[1..][j].userId != uid;
        assert balances[k + 1] == rest.value;
        assert forall j :: 0 <= j < k + 1 ==> balances[j].userId != uid by {
          forall j | 0 <= j < k + 1 ensures balances[j].userId != uid {
            if j > 0 { assert balances[j] == balances[1..][j - 1]; }
          }
        }
        rest
      else rest
  }

  /** Sum of the balance amounts. */
  function SumBalances(balances: seq<Balance>): int
  {
    if |balances| == 0 then 0
    else SumBalances(balances[..|balances| - 1]) + balances[|balances| - 1].amount
  }

  /** What the expenses leave unassigned: amounts minus split totals. */
  function Unassigned(expenses: seq<Expense>): int
  {
    if |expenses| == 0 then 0
    else
      var last := expenses[|expenses| - 1];
      Unassigned(expenses[..|expenses| - 1]) + (last.amount - SumSplits(last.splits))
  }

  // ---------------------------------------------------------------------------
  // Starting point

  /** Every member starts at zero: without expenses, every balance is 0. */
  lemma {:induction false} NoExpensesNoDebt(user: Option<Member>, groups: seq<Group>,
                                            expenses: seq<Expense>, gid: Id)
    requires GroupExpenses(expenses, gid) == []
    ensures forall b :: b in GroupBalances(user, groups, expenses, gid) ==> b.amount == 0
  {
  }

  // ---------------------------------------------------------------------------
  // The balance of one member

  function TotalPaid(expenses: seq<Expense>, uid: Id): int
  {
    if |expenses| == 0 then 0
    else
      var last := expenses[|expenses| - 1];
      TotalPaid(expenses[..|expenses| - 1], uid) + (if last.paidBy == uid then last.amount else 0)
  }

  function TotalOwed(expenses: seq<Expense>, uid: Id): int
  {
    if |expenses| == 0 then 0
    else TotalOwed(expenses[..|expenses| - 1], uid) + SplitShare(expenses[|expenses| - 1].splits, uid)
  }

  /** A member's balance is what they paid minus the shares they were split. */
  lemma {:induction false} NetIsPaidMinusOwed(expenses: seq<Expense>, uid: Id)
    ensures Net(expenses, uid) == TotalPaid(expenses, uid) - TotalOwed(expenses, uid)
  {
    if |expenses| > 0 {
      NetIsPaidMinusOwed(expenses[..|expenses| - 1], uid);
    }
  }

  /** Balances over concatenated expense lists add up. */
  lemma {:induction false} NetAppend(a: seq<Expense>, b: seq<Expense>, uid: Id)
    ensures Net(a + b, uid) == Net(a, uid) + Net(b, uid)
  {
    if |b| == 0 {
      assert a + b == a;
    } else {
      NetAppend(a, b[..|b| - 1], uid);
      assert (a + b)[..|a + b| - 1] == a + b[..|b| - 1];
    }
  }

  /** The order in which expenses are folded does not matter: any rearrangement of
      the same expenses gives the same balance. */
  lemma {:induction false} NetOrderIndependent(a: seq<Expense>, b: seq<Expense>, uid: Id)
    requires multiset(a) == multiset(b)
    ensures Net(a, uid) == Net(b, uid)
    decreases |a|
  {
    if |a| == 0 {
      assert |b| == |multiset(b)|;
    } else {
      var init := a[..|a| - 1];
      var x := a[|a| - 1];
      assert a == init + [x];
      assert x in multiset(b);
      var j :| 0 <= j < |b| && b[j] == x;
      var before, after := b[..j], b[j + 1..];
      assert b == before + [x] + after;
      assert multiset(init) == multiset(a) - multiset{x};
      RemoveAt(b, j);
      NetOrderIndependent(init, before + after, uid);
      NetAppend(before + [x], after, uid);
      NetAppend(before, [x], uid);
      NetAppend(before, after, uid);
      assert [x][..0] == [];
    }
  }

  lemma RemoveAt(s: seq<Expense>, j: int)
    requires 0 <= j < |s|
    ensures multiset(s[..j] + s[j + 1..]) == multiset(s) - multiset{s[j]}
  {
    assert s == s[..j] + [s[j]] + s[j + 1..];
  }

  /** With distinct member ids, looking a member's balance up finds their net balance. */
  lemma FindMemberBalance(members: seq<Member>, expenses: seq<Expense>, k: int)
    requires DistinctIds(members) && 0 <= k < |members|
    ensures FindBalance(MemberBalances(members, expenses), members[k].id) ==
            Some(Balance(members[k].id, members[k].name, Net(expenses, members[k].id)))
  {
    var bs := MemberBalances(members, expenses);
    var r := FindBalance(bs, members[k].id);
    assert bs[k] in bs;
    var i :| 0 <= i < |bs| && bs[i] == r.value && forall j :: 0 <= j < i ==> bs[j].userId != members[k].id;
    assert !(k < i);
    assert !(i < k);
  }

  // ---------------------------------------------------------------------------
  // Conservation

  /** Σ over the members of `f(member id)`, for the three summands below. */
  function NetTotal(members: seq<Member>, expenses: seq<Expense>): int
  {
    if |members| == 0 then 0
    else NetTotal(members[..|members| - 1], expenses) + Net(expenses, members[|members| - 1].id)
  }

  function DeltaTotal(members: seq<Member>, e: Expense): int
  {
    if |members| == 0 then 0
    else DeltaTotal(members[..|members| - 1], e) + Delta(e, members[|members| - 1].id)
  }

  function IndicatorTotal(members: seq<Member>, uid: Id, a: int): int
  {
    if |members| == 0 then 0
    else IndicatorTotal(members[..|members| - 1], uid, a) + (if members[|members| - 1].id == uid then a else 0)
  }

  function ShareTotal(members: seq<Member>, splits: seq<Split>): int
  {
    if |members| == 0 then 0
    else ShareTotal(members[..|members| - 1], splits) + SplitShare(splits, members[|members| - 1].id)
  }

  lemma {:induction false} SumMemberBalances(members: seq<Member>, expenses: seq<Expense>)
    ensures SumBalances(MemberBalances(members, expenses)) == NetTotal(members, expenses)
  {
    if |members| > 0 {
      var init := members[..|members| - 1];
      SumMemberBalances(init, expenses);
      assert MemberBalances(members, expenses)[..|members| - 1] == MemberBalances(init, expenses);
    }
  }

  lemma {:induction false} NetTotalSnoc(members: seq<Member>, expenses: seq<Expense>, e: Expense)
    ensures NetTotal(members, expenses + [e]) == NetTotal(members, expenses) + DeltaTotal(members, e)
  {
    if |members| > 0 {
      NetTotalSnoc(members[..|members| - 1], expenses, e);
      assert (expenses + [e])[..|expenses|] == expenses;
    }
  }

  lemma {:induction false} DeltaTotalSplit(members: seq<Member>, e: Expense)
    ensures DeltaTotal(members, e) ==
            IndicatorTotal(members, e.paidBy, e.amount) - ShareTotal(members, e.splits)
  {
    if |members| > 0 {
      DeltaTotalSplit(members[..|members| - 1], e);
    }
  }

  lemma {:induction false} IndicatorAbsent(members: seq<Member>, uid: Id, a: int)
    requires !IsMember(members, uid)
    ensures IndicatorTotal(members, uid, a) == 0
  {
    if |members| > 0 {
      var init := members[..|members| - 1];
      assert forall m :: m in init ==> m in members;
      IndicatorAbsent(init, uid, a);
    }
  }

  /** With distinct ids, a member's indicator is counted exactly once. */
  lemma {:induction false} IndicatorOnce(members: seq<Member>, uid: Id, a: int)
    requires DistinctIds(members) && IsMember(members, uid)
    ensures IndicatorTotal(members, uid, a) == a
  {
    var init := members[..|members| - 1];
    var last := members[|members| - 1];
    assert forall m :: m in init ==> m in members;
    if last.id == uid {
      IndicatorAbsent(init, uid, a);
    } else {
      var m :| m in members && m.id == uid;
      assert m in init by {
        var j :| 0 <= j < |members| && members[j] == m;
        assert j != |members| - 1;
        assert init[j] == m;
      }
      IndicatorOnce(init, uid, a);
    }
  }

  lemma {:induction false} ShareTotalSnoc(members: seq<Member>, splits: seq<Split>, x: Split)
    ensures ShareTotal(members, splits + [x]) ==
            ShareTotal(members, splits) + IndicatorTotal(members, x.userId, x.amount)
  {
    if |members| > 0 {
      ShareTotalSnoc(members[..|members| - 1], splits, x);
      assert (splits + [x])[..|splits|] == splits;
    }
  }

  /** When every split user is a distinct member, the members' shares are the split total. */
  lemma {:induction false} ShareTotalIsSum(members: seq<Member>, splits: seq<Split>)
    requires DistinctIds(members)
    requires forall s :: s in splits ==> IsMember(members, s.userId)
    ensures ShareTotal(members, splits) == SumSplits(splits)
  {
    if |splits| == 0 {
      ShareTotalEmpty(members);
    } else {
      var init := splits[..|splits| - 1];
      var x := splits[|splits| - 1];
      assert forall s :: s in init ==> s in splits;
      ShareTotalIsSum(members, init);
      assert splits == init + [x];
      ShareTotalSnoc(members, init, x);
      IndicatorOnce(members, x.userId, x.amount);
    }
  }

  lemma {:induction false} ShareTotalEmpty(members: seq<Member>)
    ensures ShareTotal(members, []) == 0
  {
    if |members| > 0 {
      ShareTotalEmpty(members[..|members| - 1]);
    }
  }

  lemma {:induction false} NetTotalEmpty(members: seq<Member>)
    ensures NetTotal(members, []) == 0
  {
    if |members| > 0 {
      NetTotalEmpty(members[..|members| - 1]);
    }
  }

  /** Money is neither created nor destroyed among the members: the balances add up
      to what the expenses leave unassigned. */
  lemma {:induction false} NetConservation(members: seq<Member>, expenses: seq<Expense>)
    requires DistinctIds(members)
    requires forall e :: e in expenses ==> ExpenseWithin(e, members)
    ensures NetTotal(members, expenses) == Unassigned(expenses)
  {
    if |expenses| == 0 {
      NetTotalEmpty(members);
    } else {
      var init := expenses[..|expenses| - 1];
      var e := expenses[|expenses| - 1];
      assert forall x :: x in init ==> x in expenses;
      NetConservation(members, init);
      assert e in expenses;
      assert expenses == init + [e];
      NetTotalSnoc(members, init, e);
      DeltaTotalSplit(members, e);
      IndicatorOnce(members, e.paidBy, e.amount);
      ShareTotalIsSum(members, e.splits);
    }
  }

  /** Conservation for getGroupBalances: Σ balances = Σ over the group's expenses of
      (amount − Σ splits). */
  lemma Conservation(user: Option<Member>, groups: seq<Group>, expenses: seq<Expense>, gid: Id)
    requires user.Some? && FindGroup(groups, gid).Some?
    requires BalancesDefined(groups, expenses, gid)
    ensures SumBalances(GroupBalances(user, groups, expenses, gid)) == Unassigned(GroupExpenses(expenses, gid))
  {
    var g := FindGroup(groups, gid).value;
    var ges := GroupExpenses(expenses, gid);
    forall e | e in ges ensures ExpenseWithin(e, g.members) {
      GroupExpensesMembership(expenses, gid, e);
    }
    SumMemberBalances(g.members, ges);
    NetConservation(g.members, ges);
  }

  /** When every expense's splits add up exactly, the group's balances sum to zero. */
  lemma {:induction false} ExactSplitsUnassignNothing(expenses: seq<Expense>)
    requires forall e :: e in expenses ==> SumSplits(e.splits) == e.amount
    ensures Unassigned(expenses) == 0
  {
    if |expenses| > 0 {
      var init := expenses[..|expenses| - 1];
      assert forall x :: x in init ==> x in expenses;
      ExactSplitsUnassignNothing(init);
    }
  }

  /** In an equal split over distinct members, each member owes exactly the rounded share. */
  lemma EqualSplitShare(members: seq<Member>, amount: int, k: int)
    requires DistinctIds(members) && 0 <= k < |members|
    ensures SplitShare(EqualSplits(members, amount), members[k].id) == RoundedShare(amount, |members|)
  {
    var splits := EqualSplits(members, amount);
    EqualSplitPrefixShare(members, amount, k, |members|);
    assert splits[..|members|] == splits;
  }

  lemma {:induction false} EqualSplitPrefixShare(members: seq<Member>, amount: int, k: int, i: int)
    requires DistinctIds(members) && 0 <= k < |members| && 0 <= i <= |members|
    ensures SplitShare(EqualSplits(members, amount)[..i], members[k].id) ==
            if k < i then RoundedShare(amount, |members|) else 0
  {
    var splits := EqualSplits(members, amount);
    if i > 0 {
      EqualSplitPrefixShare(members, amount, k, i - 1);
      assert splits[..i][..i - 1] == splits[..i - 1];
      assert splits[i - 1].userId == members[i - 1].id;
    }
  }

  /** The worked example: 90.00 paid by A, split equally over A, B, C gives
      A +60.00, B −30.00, C −30.00. */
  lemma DinnerExample(a: Member, b: Member, c: Member, groups: seq<Group>, g: Group)
    requires a.id != b.id && a.id != c.id && b.id != c.id
    requires g.members == [a, b, c] && groups == [g]
    ensures var dinner := Expense("e1", g.id, "Dinner", 9000, a.id, 0, EqualSplits(g.members, 9000));
            GroupBalances(Some(a), groups, [dinner], g.id) ==
              [Balance(a.id, a.name, 6000), Balance(b.id, b.name, -3000), Balance(c.id, c.name, -3000)]
  {
    var splits := EqualSplits(g.members, 9000);
    ExactShare(9000, 3, 3000);
    EqualSplitShare(g.members, 9000, 0);
    EqualSplitShare(g.members, 9000, 1);
    EqualSplitShare(g.members, 9000, 2);
    var dinner := Expense("e1", g.id, "Dinner", 9000, a.id, 0, splits);
    assert GroupExpenses([dinner], g.id) == [dinner];
    assert [dinner][..0] == [];
    assert Net([dinner], a.id) == 6000;
    assert Net([dinner], b.id) == -3000;
    assert Net([dinner], c.id) == -3000;
    assert FindGroup(groups, g.id) == Some(g);
    var bs := MemberBalances(g.members, [dinner]);
    assert bs == [Balance(a.id, a.name, 6000), Balance(b.id, b.name, -3000), Balance(c.id, c.name, -3000)];
  }
}
