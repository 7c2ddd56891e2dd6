// The per-user summaries over the whole store: getTotalSpent and
// getUserTotalBalance, as functions of the current user and the store's lists.

module Summaries {
  import opened LedgerTypes
  import opened Queries
  import opened Splits
  import opened Balances

  /** `splits.find(s => s.userId === uid)?.amount || 0`: the first split of `uid`,
      or 0 when there is none. */
  function FirstShare(splits: seq<Split>, uid: Id): (r: int)
    ensures (forall s :: s in splits ==> s.amount >= 0) ==> r >= 0
    ensures (forall s :: s in splits ==> s.userId != uid) ==> r == 0
  {
    if |splits| == 0 then 0
    else if splits[0].userId == uid then splits[0].amount
    else
      assert forall s :: s in splits[1..] ==> s in splits;
      FirstShare(splits[1..], uid)
  }

  /** The expense's group is known and has `uid` as a member. */
  predicate InMemberGroup(groups: seq<Group>, gid: Id, uid: Id)
  {
    var g := FindGroup(groups, gid);
    g.Some? && IsMember(g.value.members, uid)
  }

  /** Σ of `uid`'s first split over the expenses of groups `uid` belongs to. */
  function SpentBy(expenses: seq<Expense>, groups: seq<Group>, uid: Id): (r: int)
    ensures NonNegativeSplits(expenses) ==> r >= 0
  {
    if |expenses| == 0 then 0
    else
      var init := expenses[..|expenses| - 1];
      var last := expenses[|expenses| - 1];
      assert forall e :: e in init ==> e in expenses;
      assert last in expenses;
      SpentBy(init, groups, uid) +
        (if InMemberGroup(groups, last.groupId, uid) then FirstShare(last.splits, uid) else 0)
  }

  /** Every split amount of every expense is at least zero. */
  predicate NonNegativeSplits(expenses: seq<Expense>)
  {
    forall e, s :: e in expenses && s in e.splits ==> s.amount >= 0
  }

  /** getTotalSpent: 0 without a current user, never negative when no split is. */
  function TotalSpent(user: Option<Member>, groups: seq<Group>, expenses: seq<Expense>): (r: int)
    ensures user.None? ==> r == 0
    ensures NonNegativeSplits(expenses) ==> r >= 0
  {
    if user.None? then 0 else SpentBy(expenses, groups, user.value.id)
  }

  /** The amount of `uid`'s entry in a balance list, 0 when there is none. */
  function OwnBalance(balances: seq<Balance>, uid: Id): int
  {
    match FindBalance(balances, uid)
    case Some(b) => b.amount
    case None => 0
  }

  /** Σ over `gs` of the user's entry in getGroupBalances(g.id). */
  function SumOwnBalances(gs: seq<Group>, user: Option<Member>, groups: seq<Group>,
                          expenses: seq<Expense>): int
    requires user.Some?
  {
    if |gs| == 0 then 0
    else
      SumOwnBalances(gs[..|gs| - 1], user, groups, expenses) +
        OwnBalance(GroupBalances(user, groups, expenses, gs[|gs| - 1].id), user.value.id)
  }

  /** getUserTotalBalance: 0 without a current user. */
  function UserTotalBalance(user: Option<Member>, groups: seq<Group>, expenses: seq<Expense>): (r: int)
    ensures user.None? ==> r == 0
  {
    if user.None? then 0 else SumOwnBalances(UserGroups(user, groups), user, groups, expenses)
  }

  /** Σ over `gs` of `uid`'s net balance in each group. */
  function NetAcross(gs: seq<Group>, expenses: seq<Expense>, uid: Id): int
  {
    if |gs| == 0 then 0
    else NetAcross(gs[..|gs| - 1], expenses, uid) + Net(GroupExpenses(expenses, gs[|gs| - 1].id), uid)
  }

  /** At most one split of `splits` belongs to `uid`. */
  predicate SingleSplit(splits: seq<Split>, uid: Id)
  {
    forall i, j :: 0 <= i < j < |splits| && splits[i].userId == uid ==> splits[j].userId != uid
  }

  lemma {:induction false} SplitShareAbsent(splits: seq<Split>, uid: Id)
    requires forall s :: s in splits ==> s.userId != uid
    ensures SplitShare(splits, uid) == 0
  {
    if |splits| > 0 {
      var init := splits[..|splits| - 1];
      assert forall s :: s in init ==> s in splits;
      SplitShareAbsent(init, uid);
    }
  }

  /** With at most one split per user, the first split found is the user's whole share. */
  lemma {:induction false} FirstShareIsShare(splits: seq<Split>, uid: Id)
    requires SingleSplit(splits, uid)
    ensures FirstShare(splits, uid) == SplitShare(splits, uid)
  {
    if |splits| > 0 {
      var x := splits[0];
      var rest := splits[1..];
      assert splits == [x] + rest;
      SplitShareAppend([x], rest, uid);
      assert [x][..0] == [];
      if x.userId == uid {
        forall s | s in rest ensures s.userId != uid {
          var j :| 0 <= j < |rest| && rest[j] == s;
          assert splits[j + 1] == s;
        }
        SplitShareAbsent(rest, uid);
      } else {
        assert SingleSplit(rest, uid) by {
          forall i, j | 0 <= i < j < |rest| && rest[i].userId == uid ensures rest[j].userId != uid {
            assert splits[i + 1] == rest[i] && splits[j + 1] == rest[j];
          }
        }
        FirstShareIsShare(rest, uid);
      }
    }
  }

  // ---------------------------------------------------------------------------
  // getTotalSpent regrouped by group

  /** Σ of `uid`'s first split over a list of expenses. */
  function FirstShares(expenses: seq<Expense>, uid: Id): int
  {
    if |expenses| == 0 then 0
    else FirstShares(expenses[..|expenses| - 1], uid) + FirstShare(expenses[|expenses| - 1].splits, uid)
  }

  /** Σ over `gs` of `uid`'s first splits in each group's own expenses. */
  function SpentAcross(gs: seq<Group>, expenses: seq<Expense>, uid: Id): int
  {
    if |gs| == 0 then 0
    else SpentAcross(gs[..|gs| - 1], expenses, uid) + FirstShares(GroupExpenses(expenses, gs[|gs| - 1].id), uid)
  }

  /** Σ over `gs` of what `uid` owes in each group's own expenses. */
  function OwedAcross(gs: seq<Group>, expenses: seq<Expense>, uid: Id): int
  {
    if |gs| == 0 then 0
    else OwedAcross(gs[..|gs| - 1], expenses, uid) + TotalOwed(GroupExpenses(expenses, gs[|gs| - 1].id), uid)
  }

  /** How many groups of `gs` carry the id `gid`. */
  function CountId(gs: seq<Group>, gid: Id): nat
  {
    if |gs| == 0 then 0
    else CountId(gs[..|gs| - 1], gid) + (if gs[|gs| - 1].id == gid then 1 else 0)
  }

  /** A group appended with another id does not change a lookup. */
  lemma {:induction false} FindGroupSkipLast(gs: seq<Group>, g: Group, gid: Id)
    requires g.id != gid
    ensures FindGroup(gs + [g], gid) == FindGroup(gs, gid)
  {
    if |gs| == 0 {
      assert gs + [g] == [g];
      assert [g][1..] == [];
    } else {
      assert (gs + [g])[0] == gs[0];
      assert (gs + [g])[1..] == gs[1..] + [g];
      FindGroupSkipLast(gs[1..], g, gid);
    }
  }

  /** With unique group ids, a group id occurs once among the user's groups when its
      group is one of theirs, and not at all otherwise. */
  lemma {:induction false} MemberGroupsWithId(groups: seq<Group>, uid: Id, gid: Id)
    requires DistinctGroupIds(groups)
    ensures CountId(GroupsWithMember(groups, uid), gid) == (if InMemberGroup(groups, gid, uid) then 1 else 0)
  {
    if |groups| > 0 {
      var init := groups[..|groups| - 1];
      var g := groups[|groups| - 1];
      assert groups == init + [g];
      assert DistinctGroupIds(init) by {
        forall i, j | 0 <= i < j < |init| ensures init[i].id != init[j].id {
          assert init[i] == groups[i] && init[j] == groups[j];
        }
      }
      MemberGroupsWithId(init, uid, gid);
      var mine := GroupsWithMember(init, uid);
      var all := mine + (if IsMember(g.members, uid) then [g] else []);
      assert GroupsWithMember(groups, uid) == all;
      assert CountId(all, gid) == CountId(mine, gid) + (if IsMember(g.members, uid) && g.id == gid then 1 else 0) by {
        if IsMember(g.members, uid) {
          assert all[..|mine|] == mine && all[|mine|] == g;
        } else {
          assert all == mine;
        }
      }
      if g.id == gid {
        forall h | h in init ensures h.id != gid {
          var i :| 0 <= i < |init| && init[i] == h;
          assert groups[i] == h;
        }
        assert FindGroup(init, gid).None?;
        assert g in groups;
        FindListedGroup(groups, g);
      } else {
        FindGroupSkipLast(init, g, gid);
        assert FindGroup(groups, gid) == FindGroup(init, gid);
      }
    }
  }

  /** One more expense adds its first split to each listed group carrying its group id. */
  lemma {:induction false} SpentAcrossSnoc(gs: seq<Group>, expenses: seq<Expense>, e: Expense, uid: Id)
    ensures SpentAcross(gs, expenses + [e], uid) ==
            SpentAcross(gs, expenses, uid) + CountId(gs, e.groupId) * FirstShare(e.splits, uid)
  {
    if |gs| > 0 {
      var init := gs[..|gs| - 1];
      var g := gs[|gs| - 1];
      SpentAcrossSnoc(init, expenses, e, uid);
      GroupFirstSharesSnoc(expenses, e, g.id, uid);
      CountStep(CountId(init, e.groupId), if g.id == e.groupId then 1 else 0, FirstShare(e.splits, uid));
    }
  }

  lemma GroupFirstSharesSnoc(expenses: seq<Expense>, e: Expense, gid: Id, uid: Id)
    ensures FirstShares(GroupExpenses(expenses + [e], gid), uid) ==
            FirstShares(GroupExpenses(expenses, gid), uid) + (if e.groupId == gid then FirstShare(e.splits, uid) else 0)
  {
    var ges := GroupExpenses(expenses, gid);
    assert (expenses + [e])[..|expenses|] == expenses;
    if e.groupId == gid {
      assert GroupExpenses(expenses + [e], gid) == ges + [e];
      assert (ges + [e])[..|ges|] == ges;
    } else {
      assert GroupExpenses(expenses + [e], gid) == ges;
    }
  }

  lemma CountStep(c: nat, d: nat, f: int)
    requires d <= 1
    ensures (c + d) * f == c * f + (if d == 1 then f else 0)
  {
  }

  lemma {:induction false} SpentAcrossNothing(gs: seq<Group>, uid: Id)
    ensures SpentAcross(gs, [], uid) == 0
  {
    if |gs| > 0 {
      SpentAcrossNothing(gs[..|gs| - 1], uid);
    }
  }

  lemma {:induction false} SpentByPerGroup(expenses: seq<Expense>, groups: seq<Group>, uid: Id)
    requires DistinctGroupIds(groups)
    ensures SpentBy(expenses, groups, uid) == SpentAcross(GroupsWithMember(groups, uid), expenses, uid)
  {
    var mine := GroupsWithMember(groups, uid);
    if |expenses| == 0 {
      SpentAcrossNothing(mine, uid);
    } else {
      var init := expenses[..|expenses| - 1];
      var e := expenses[|expenses| - 1];
      var share := FirstShare(e.splits, uid);
      assert SpentBy(expenses, groups, uid) ==
             SpentBy(init, groups, uid) + (if InMemberGroup(groups, e.groupId, uid) then share else 0);
      SpentByPerGroup(init, groups, uid);
      assert expenses == init + [e];
      SpentAcrossSnoc(mine, init, e, uid);
      MemberGroupsWithId(groups, uid, e.groupId);
      CountStep(0, CountId(mine, e.groupId), share);
    }
  }

  /** With unique group ids, getTotalSpent counts every expense once, under its own
      group: it is the sum over the user's groups of the user's first split in each of
      the group's expenses. */
  lemma TotalSpentByGroup(user: Option<Member>, groups: seq<Group>, expenses: seq<Expense>)
    requires user.Some? && DistinctGroupIds(groups)
    ensures TotalSpent(user, groups, expenses) == SpentAcross(UserGroups(user, groups), expenses, user.value.id)
  {
    SpentByPerGroup(expenses, groups, user.value.id);
  }

  lemma {:induction false} FirstSharesAreOwed(expenses: seq<Expense>, uid: Id)
    requires forall e :: e in expenses ==> SingleSplit(e.splits, uid)
    ensures FirstShares(expenses, uid) == TotalOwed(expenses, uid)
  {
    if |expenses| > 0 {
      var init := expenses[..|expenses| - 1];
      var e := expenses[|expenses| - 1];
      assert forall x :: x in init ==> x in expenses;
      assert e in expenses;
      FirstSharesAreOwed(init, uid);
      FirstShareIsShare(e.splits, uid);
    }
  }

  lemma {:induction false} SpentAcrossIsOwed(gs: seq<Group>, expenses: seq<Expense>, uid: Id)
    requires forall e :: e in expenses ==> SingleSplit(e.splits, uid)
    ensures SpentAcross(gs, expenses, uid) == OwedAcross(gs, expenses, uid)
  {
    if |gs| > 0 {
      var gid := gs[|gs| - 1].id;
      SpentAcrossIsOwed(gs[..|gs| - 1], expenses, uid);
      forall e | e in GroupExpenses(expenses, gid) ensures SingleSplit(e.splits, uid) {
        GroupExpensesMembership(expenses, gid, e);
      }
      FirstSharesAreOwed(GroupExpenses(expenses, gid), uid);
    }
  }

  /** With unique group ids and at most one split per user in each expense,
      getTotalSpent is the sum over the user's groups of everything split to them
      there, the same debits getGroupBalances takes. */
  lemma TotalSpentIsOwed(user: Option<Member>, groups: seq<Group>, expenses: seq<Expense>)
    requires user.Some? && DistinctGroupIds(groups)
    requires forall e :: e in expenses ==> SingleSplit(e.splits, user.value.id)
    ensures TotalSpent(user, groups, expenses) == OwedAcross(UserGroups(user, groups), expenses, user.value.id)
  {
    TotalSpentByGroup(user, groups, expenses);
    SpentAcrossIsOwed(UserGroups(user, groups), expenses, user.value.id);
  }

  /** With unique group ids and member ids, getUserTotalBalance is the sum of the user's
      net balance over the groups they belong to. */
  lemma UserTotalBalanceIsNetSum(user: Option<Member>, groups: seq<Group>, expenses: seq<Expense>)
    requires user.Some?
    requires DistinctGroupIds(groups)
    requires forall g :: g in groups ==> DistinctIds(g.members)
    ensures UserTotalBalance(user, groups, expenses) ==
            NetAcross(UserGroups(user, groups), expenses, user.value.id)
  {
    var gs := UserGroups(user, groups);
    forall g | g in gs ensures g in groups && IsMember(g.members, user.value.id) {
      UserGroupsMembership(user, groups, g);
    }
    OwnBalancesAreNets(gs, user, groups, expenses);
  }

  lemma {:induction false} OwnBalancesAreNets(gs: seq<Group>, user: Option<Member>, groups: seq<Group>,
                                              expenses: seq<Expense>)
    requires user.Some?
    requires DistinctGroupIds(groups)
    requires forall g :: g in groups ==> DistinctIds(g.members)
    requires forall g :: g in gs ==> g in groups && IsMember(g.members, user.value.id)
    ensures SumOwnBalances(gs, user, groups, expenses) == NetAcross(gs, expenses, user.value.id)
  {
    if |gs| > 0 {
      var init := gs[..|gs| - 1];
      var g := gs[|gs| - 1];
      assert forall h :: h in init ==> h in gs;
      OwnBalancesAreNets(init, user, groups, expenses);
      assert g in gs;
      OwnBalanceIsNet(user, groups, expenses, g);
    }
  }

  /** In a listed group the user belongs to, their entry of getGroupBalances is their
      net balance over the group's expenses. */
  lemma OwnBalanceIsNet(user: Option<Member>, groups: seq<Group>, expenses: seq<Expense>, g: Group)
    requires user.Some?
    requires DistinctGroupIds(groups) && g in groups
    requires DistinctIds(g.members) && IsMember(g.members, user.value.id)
    ensures OwnBalance(GroupBalances(user, groups, expenses, g.id), user.value.id) ==
            Net(GroupExpenses(expenses, g.id), user.value.id)
  {
    FindListedGroup(groups, g);
    var k := MemberIndex(g.members, user.value.id);
    var ges := GroupExpenses(expenses, g.id);
    FindMemberBalance(g.members, ges, k);
    assert GroupBalances(user, groups, expenses, g.id) == MemberBalances(g.members, ges);
  }
}
