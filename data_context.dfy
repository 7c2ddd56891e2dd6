// The data provider: the store of groups and expenses, the operations that
// append to it (createGroup, addExpense) and the balance views computed by loops
// (getGroupBalances, getUserTotalBalance).

module DataContext {
  import opened LedgerTypes
  import opened Queries
  import opened Splits
  import opened Balances
  import opened Summaries

  // ---------------------------------------------------------------------------
  // createGroup's member list

  /** The directory users whose email was invited, or who are the creator, in
      directory order. */
  function Invited(users: seq<Member>, emails: seq<string>, creatorId: Id): seq<Member>
  {
    if |users| == 0 then []
    else
      var last := users[|users| - 1];
      Invited(users[..|users| - 1], emails, creatorId) +
        (if last.email in emails || last.id == creatorId then [last] else [])
  }

  /** The members of a new group: the invited users, then the creator when the
      directory did not already supply them. */
  function GroupMembers(users: seq<Member>, emails: seq<string>, creator: Member): (r: seq<Member>)
    ensures IsMember(r, creator.id)
  {
    var found := Invited(users, emails, creator.id);
    if IsMember(found, creator.id) then found
    else
      assert creator in found + [creator];
      found + [creator]
  }

  lemma {:induction false} InvitedMembership(users: seq<Member>, emails: seq<string>, creatorId: Id, m: Member)
    ensures m in Invited(users, emails, creatorId) <==>
            m in users && (m.email in emails || m.id == creatorId)
  {
    if |users| > 0 {
      var init := users[..|users| - 1];
      InvitedMembership(init, emails, creatorId, m);
      assert users == init + [users[|users| - 1]];
    }
  }

  /** Exactly the invited directory users and the creator's directory entry are
      members; the creator's own record is added only when the directory has none. */
  lemma GroupMembersExactly(users: seq<Member>, emails: seq<string>, creator: Member, m: Member)
    ensures m in GroupMembers(users, emails, creator) <==>
            (m in users && (m.email in emails || m.id == creator.id)) ||
            (m == creator && !IsMember(Invited(users, emails, creator.id), creator.id))
  {
    InvitedMembership(users, emails, creator.id, m);
  }

  /** A directory with unique ids yields a group with unique member ids, which
      getGroupBalances relies on. */
  lemma GroupMembersDistinct(users: seq<Member>, emails: seq<string>, creator: Member)
    requires DistinctIds(users)
    ensures DistinctIds(GroupMembers(users, emails, creator))
  {
    var found := Invited(users, emails, creator.id);
    InvitedDistinct(users, emails, creator.id);
    if !IsMember(found, creator.id) {
      var ms := found + [creator];
      forall i, j | 0 <= i < j < |ms| ensures ms[i].id != ms[j].id {
        if j == |found| {
          assert ms[i] in found;
        } else {
          assert ms[i] == found[i] && ms[j] == found[j];
        }
      }
    }
  }

  lemma {:induction false} InvitedDistinct(users: seq<Member>, emails: seq<string>, creatorId: Id)
    requires DistinctIds(users)
    ensures DistinctIds(Invited(users, emails, creatorId))
  {
    if |users| > 0 {
      var init := users[..|users| - 1];
      var last := users[|users| - 1];
      var found := Invited(init, emails, creatorId);
      InvitedDistinct(init, emails, creatorId);
      if last.email in emails || last.id == creatorId {
        var ms := found + [last];
        forall i, j | 0 <= i < j < |ms| ensures ms[i].id != ms[j].id {
          if j == |found| {
            assert ms[i] in found;
            InvitedMembership(init, emails, creatorId, ms[i]);
            var k :| 0 <= k < |init| && init[k] == ms[i];
            assert users[k] == ms[i];
          } else {
            assert ms[i] == found[i] && ms[j] == found[j];
          }
        }
      }
    }
  }

  // ---------------------------------------------------------------------------
  // addExpense's outcome

  /** The expense addExpense appends, or the error it throws, checked in the
      source's order: current user, group, split computation. */
  function RecordExpense(user: Option<Member>, groups: seq<Group>, gid: Id, description: string,
                         amount: int, paidById: Id, splitType: SplitType,
                         customSplits: Option<seq<Split>>, id: Id, date: int): (r: Result<Expense>)
    ensures user.None? ==> r == Err(NotLoggedIn)
    ensures user.Some? && FindGroup(groups, gid).None? ==> r == Err(GroupNotFound)
    ensures user.Some? && FindGroup(groups, gid).Some? ==>
              (r.Ok? <==> splitType == Equal ||
                          (customSplits.Some? && Within(SumSplits(customSplits.value), amount)))
    ensures user.Some? && FindGroup(groups, gid).Some? && splitType == Custom && r.Err? ==>
              r.error == (if customSplits.None? then InvalidSplit else SplitMismatch)
    ensures r.Ok? ==> r.value.id == id && r.value.groupId == gid && r.value.description == description &&
                      r.value.amount == amount && r.value.paidBy == paidById && r.value.date == date
    ensures r.Ok? && splitType == Equal ==>
              r.value.splits == EqualSplits(FindGroup(groups, gid).value.members, amount)
    ensures r.Ok? && splitType == Custom ==> r.value.splits == customSplits.value
  {
    if user.None? then Err(NotLoggedIn)
    else
      match FindGroup(groups, gid)
      case None => Err(GroupNotFound)
      case Some(g) =>
        match ComputeSplits(g.members, amount, splitType, customSplits)
        case Err(e) => Err(e)
        case Ok(splits) => Ok(Expense(id, gid, description, amount, paidById, date, splits))
  }

  /** An expense recorded with a member as payer, and with member-only splits when they
      are custom, names only members; equal splits always do. */
  lemma RecordedWithin(user: Option<Member>, groups: seq<Group>, gid: Id, description: string,
                       amount: int, paidById: Id, splitType: SplitType,
                       customSplits: Option<seq<Split>>, id: Id, date: int)
    requires RecordExpense(user, groups, gid, description, amount, paidById, splitType,
                           customSplits, id, date).Ok?
    requires IsMember(FindGroup(groups, gid).value.members, paidById)
    requires splitType == Custom ==>
               forall s :: s in customSplits.value ==> IsMember(FindGroup(groups, gid).value.members, s.userId)
    ensures ExpenseWithin(RecordExpense(user, groups, gid, description, amount, paidById, splitType,
                                        customSplits, id, date).value,
                          FindGroup(groups, gid).value.members)
  {
    var ms := FindGroup(groups, gid).value.members;
    if splitType == Equal {
      var splits := EqualSplits(ms, amount);
      forall s | s in splits ensures IsMember(ms, s.userId) {
        var k :| 0 <= k < |splits| && splits[k] == s;
        assert ms[k] in ms;
      }
    }
  }

  /** Appending an expense that names only members of its group keeps every group's
      balances computable. */
  lemma AppendKeepsBalancesDefined(groups: seq<Group>, expenses: seq<Expense>, e: Expense, gid: Id)
    requires BalancesDefined(groups, expenses, gid)
    requires FindGroup(groups, e.groupId).Some?
    requires ExpenseWithin(e, FindGroup(groups, e.groupId).value.members)
    ensures BalancesDefined(groups, expenses + [e], gid)
  {
    if FindGroup(groups, gid).Some? {
      var g := FindGroup(groups, gid).value;
      forall x | x in expenses + [e] && x.groupId == g.id ensures ExpenseWithin(x, g.members) {
        if x !in expenses {
          assert x == e;
        }
      }
    }
  }

  // ---------------------------------------------------------------------------
  // The store

  /** The provider's state: the `groups` and `expenses` lists it holds. */
  class DataStore {
    var groups: seq<Group>
    var expenses: seq<Expense>

    constructor ()
      ensures groups == [] && expenses == []
    {
      groups := [];
      expenses := [];
    }

    /** createGroup: appends a group with a fresh id whose members follow
        GroupMembers; fails without a current user. */
    method CreateGroup(user: Option<Member>, users: seq<Member>, name: string,
                       memberEmails: seq<string>, id: Id, createdAt: int) returns (r: Result<Group>)
      modifies this
      ensures expenses == old(expenses)
      ensures user.None? ==> r == Err(NoCreator) && groups == old(groups)
      ensures user.Some? ==>
                r == Ok(Group(id, name, GroupMembers(users, memberEmails, user.value), user.value.id, createdAt)) &&
                groups == old(groups) + [r.value]
    {
      if user.None? {
        return Err(NoCreator);
      }
      var members := GroupMembers(users, memberEmails, user.value);
      var g := Group(id, name, members, user.value.id, createdAt);
      groups := groups + [g];
      r := Ok(g);
    }

    /** addExpense: appends exactly one expense on success, changes nothing on error. */
    method AddExpense(user: Option<Member>, gid: Id, description: string, amount: int,
                      paidById: Id, splitType: SplitType, customSplits: Option<seq<Split>>,
                      id: Id, date: int) returns (r: Result<Expense>)
      modifies this
      ensures groups == old(groups)
      ensures r == RecordExpense(user, old(groups), gid, description, amount, paidById,
                                 splitType, customSplits, id, date)
      ensures r.Ok? ==> expenses == old(expenses) + [r.value]
      ensures r.Err? ==> expenses == old(expenses)
    {
      r := RecordExpense(user, groups, gid, description, amount, paidById, splitType, customSplits, id, date);
      if r.Ok? {
        expenses := expenses + [r.value];
      }
    }

    /** getGroupBalances: zero balances for every member, then the payer of each
        group expense credited and each split user debited. */
    method GetGroupBalances(user: Option<Member>, gid: Id) returns (r: seq<Balance>)
      requires BalancesDefined(groups, expenses, gid)
      ensures r == GroupBalances(user, groups, expenses, gid)
    {
      if user.None? {
        return [];
      }
      var found := FindGroup(groups, gid);
      if found.None? {
        return [];
      }
      var ms := found.value.members;
      var groupExpenses := GroupExpenses(expenses, gid);
      forall e | e in groupExpenses ensures ExpenseWithin(e, ms) {
        GroupExpensesMembership(expenses, gid, e);
      }
      var balances := seq(|ms|, k requires 0 <= k < |ms| => Balance(ms[k].id, ms[k].name, 0));
      var i := 0;
      while i < |groupExpenses|
        invariant 0 <= i <= |groupExpenses|
        invariant |balances| == |ms|
        invariant forall k :: 0 <= k < |ms| ==>
                    balances[k] == Balance(ms[k].id, ms[k].name, Net(groupExpenses[..i], ms[k].id))
      {
        var e := groupExpenses[i];
        assert e in groupExpenses;
        balances := Credit(balances, ms, e.paidBy, e.amount);
        balances := DebitSplits(balances, ms, e.splits);
        assert groupExpenses[..i + 1][..i] == groupExpenses[..i];
        i := i + 1;
      }
      assert groupExpenses[..|groupExpenses|] == groupExpenses;
      r := balances;
    }

    /** getUserTotalBalance: the user's entry summed over their groups' balances. */
    method GetUserTotalBalance(user: Option<Member>) returns (total: int)
      requires forall g :: g in UserGroups(user, groups) ==> BalancesDefined(groups, expenses, g.id)
      ensures total == UserTotalBalance(user, groups, expenses)
    {
      if user.None? {
        return 0;
      }
      var userGroups := UserGroups(user, groups);
      total := 0;
      var i := 0;
      while i < |userGroups|
        invariant 0 <= i <= |userGroups|
        invariant total == SumOwnBalances(userGroups[..i], user, groups, expenses)
      {
        assert userGroups[i] in userGroups;
        var balances := GetGroupBalances(user, userGroups[i].id);
        var userBalance := FindBalance(balances, user.value.id);
        if userBalance.Some? {
          total := total + userBalance.value.amount;
        }
        assert total == SumOwnBalances(userGroups[..i], user, groups, expenses) +
                        OwnBalance(balances, user.value.id);
        SumOwnBalancesSnoc(userGroups, i, user, groups, expenses);
        i := i + 1;
      }
      assert userGroups[..|userGroups|] == userGroups;
    }
  }

  lemma SumOwnBalancesSnoc(gs: seq<Group>, i: int, user: Option<Member>, groups: seq<Group>,
                           expenses: seq<Expense>)
    requires user.Some? && 0 <= i < |gs|
    ensures SumOwnBalances(gs[..i + 1], user, groups, expenses) ==
            SumOwnBalances(gs[..i], user, groups, expenses) +
              OwnBalance(GroupBalances(user, groups, expenses, gs[i].id), user.value.id)
  {
    assert gs[..i + 1][..i] == gs[..i];
  }

  /** `balances[uid].amount += a`: only the entry of `uid` changes. */
  method Credit(balances: seq<Balance>, members: seq<Member>, uid: Id, a: int) returns (r: seq<Balance>)
    requires |balances| == |members| && DistinctIds(members) && IsMember(members, uid)
    requires forall k :: 0 <= k < |members| ==> balances[k].userId == members[k].id
    ensures |r| == |balances|
    ensures forall k :: 0 <= k < |r| ==>
              r[k] == balances[k].(amount := balances[k].amount + (if members[k].id == uid then a else 0))
  {
    var p := MemberIndex(members, uid);
    r := balances[p := balances[p].(amount := balances[p].amount + a)];
  }

  /** `expense.splits.forEach(split => balances[split.userId].amount -= split.amount)`. */
  method DebitSplits(balances: seq<Balance>, members: seq<Member>, splits: seq<Split>) returns (r: seq<Balance>)
    requires |balances| == |members| && DistinctIds(members)
    requires forall k :: 0 <= k < |members| ==> balances[k].userId == members[k].id
    requires forall s :: s in splits ==> IsMember(members, s.userId)
    ensures |r| == |balances|
    ensures forall k :: 0 <= k < |r| ==>
              r[k] == balances[k].(amount := balances[k].amount - SplitShare(splits, members[k].id))
  {
    r := balances;
    var j := 0;
    while j < |splits|
      invariant 0 <= j <= |splits|
      invariant |r| == |balances|
      invariant forall k :: 0 <= k < |r| ==>
                  r[k] == balances[k].(amount := balances[k].amount - SplitShare(splits[..j], members[k].id))
    {
      assert splits[j] in splits;
      r := Credit(r, members, splits[j].userId, -splits[j].amount);
      assert splits[..j + 1][..j] == splits[..j];
      j := j + 1;
    }
    assert splits[..|splits|] == splits;
  }
}
