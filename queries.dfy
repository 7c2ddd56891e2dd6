// Lookups and filters over the store's group and expense lists
// (getGroupById, getUserGroups, getGroupExpenses).

module Queries {
  import opened LedgerTypes

  /** `groups.find(g => g.id === gid)`: the first group with that id. */
  function FindGroup(groups: seq<Group>, gid: Id): (r: Option<Group>)
    ensures r.None? <==> forall g :: g in groups ==> g.id != gid
    ensures r.Some? ==> r.value in groups && r.value.id == gid
    ensures r.Some? ==> exists k :: 0 <= k < |groups| && groups[k] == r.value &&
                                    forall j :: 0 <= j < k ==> groups[j].id != gid
  {
    if |groups| == 0 then None
    else if groups[0].id == gid then Some(groups[0])
    else
      var rest := FindGroup(groups[1..], gid);
      assert forall g :: g in groups[1..] ==> g in groups;
      assert forall g :: g in groups ==> g == groups[0] || g in groups[1..];
      if rest.Some? then
        var k :| 0 <= k < |groups[1..]| && groups[1..][k] == rest.value &&
                 forall j :: 0 <= j < k ==> groups[1..][j].id != gid;
        assert groups[k + 1] == rest.value;
        assert forall j :: 0 <= j < k + 1 ==> groups[j].id != gid by {
          forall j | 0 <= j < k + 1 ensures groups[j].id != gid {
            if j > 0 { assert groups[j] == groups[1..][j - 1]; }
          }
        }
        rest
      else rest
  }

  /** `members.some(m => m.id === id)`. */
  predicate IsMember(members: seq<Member>, id: Id)
  {
    exists m :: m in members && m.id == id
  }

  /** The position of the member with id `id` (the record lookup `balances[id]`). */
  function MemberIndex(members: seq<Member>, id: Id): (k: int)
    requires IsMember(members, id)
    ensures 0 <= k < |members| && members[k].id == id
  {
    if members[0].id == id then 0
    else
      assert IsMember(members[1..], id) by {
        var m :| m in members && m.id == id;
        assert m in members[1..] by {
          var j :| 0 <= j < |members| && members[j] == m;
          assert members[1..][j - 1] == m;
        }
      }
      MemberIndex(members[1..], id) + 1
  }

  /** No two members share an id (ids come from the user directory's keys). */
  predicate DistinctIds(members: seq<Member>)
  {
    forall i, j :: 0 <= i < j < |members| ==> members[i].id != members[j].id
  }

  /** No two groups share an id (ids are generated UUIDs). */
  predicate DistinctGroupIds(groups: seq<Group>)
  {
    forall i, j :: 0 <= i < j < |groups| ==> groups[i].id != groups[j].id
  }

  /** The groups having `uid` among their members, in store order. */
  function GroupsWithMember(groups: seq<Group>, uid: Id): (r: seq<Group>)
    ensures |r| <= |groups|
  {
    if |groups| == 0 then []
    else
      var last := groups[|groups| - 1];
      GroupsWithMember(groups[..|groups| - 1], uid) + (if IsMember(last.members, uid) then [last] else [])
  }

  /** getUserGroups: no groups without a current user; otherwise only stored groups
      the user belongs to. */
  function UserGroups(user: Option<Member>, groups: seq<Group>): (r: seq<Group>)
    ensures user.None? ==> r == []
    ensures |r| <= |groups|
  {
    if user.None? then [] else GroupsWithMember(groups, user.value.id)
  }

  /** getGroupExpenses: the expenses recorded against `gid`, in store order. */
  function GroupExpenses(expenses: seq<Expense>, gid: Id): (r: seq<Expense>)
    ensures |r| <= |expenses|
  {
    if |expenses| == 0 then []
    else
      var last := expenses[|expenses| - 1];
      GroupExpenses(expenses[..|expenses| - 1], gid) + (if last.groupId == gid then [last] else [])
  }

  /** With unique group ids, looking a listed group up by its id finds that group. */
  lemma FindListedGroup(groups: seq<Group>, g: Group)
    requires DistinctGroupIds(groups) && g in groups
    ensures FindGroup(groups, g.id) == Some(g)
  {
    var r := FindGroup(groups, g.id);
    var k :| 0 <= k < |groups| && groups[k] == r.value &&
             forall j :: 0 <= j < k ==> groups[j].id != g.id;
    var i :| 0 <= i < |groups| && groups[i] == g;
    assert !(i < k);
    assert !(k < i);
  }

  /** getUserGroups keeps exactly the groups the user belongs to. */
  lemma {:induction false} UserGroupsMembership(user: Option<Member>, groups: seq<Group>, g: Group)
    ensures g in UserGroups(user, groups) <==>
            user.Some? && g in groups && IsMember(g.members, user.value.id)
  {
    if user.Some? {
      GroupsWithMemberMembership(groups, user.value.id, g);
    }
  }

  lemma {:induction false} GroupsWithMemberMembership(groups: seq<Group>, uid: Id, g: Group)
    ensures g in GroupsWithMember(groups, uid) <==> g in groups && IsMember(g.members, uid)
  {
    if |groups| > 0 {
      var init := groups[..|groups| - 1];
      GroupsWithMemberMembership(init, uid, g);
      assert groups == init + [groups[|groups| - 1]];
    }
  }

  /** getUserGroups is an order-preserving filter: it distributes over concatenation. */
  lemma {:induction false} GroupsWithMemberAppend(a: seq<Group>, b: seq<Group>, uid: Id)
    ensures GroupsWithMember(a + b, uid) == GroupsWithMember(a, uid) + GroupsWithMember(b, uid)
  {
    if |b| == 0 {
      assert a + b == a;
    } else {
      var init := b[..|b| - 1];
      GroupsWithMemberAppend(a, init, uid);
      assert (a + b)[..|a + b| - 1] == a + init;
    }
  }

  /** getGroupExpenses keeps exactly the expenses of the group. */
  lemma {:induction false} GroupExpensesMembership(expenses: seq<Expense>, gid: Id, e: Expense)
    ensures e in GroupExpenses(expenses, gid) <==> e in expenses && e.groupId == gid
  {
    if |expenses| > 0 {
      var init := expenses[..|expenses| - 1];
      GroupExpensesMembership(init, gid, e);
      assert expenses == init + [expenses[|expenses| - 1]];
    }
  }

  /** getGroupExpenses is an order-preserving filter: it distributes over concatenation. */
  lemma {:induction false} GroupExpensesAppend(a: seq<Expense>, b: seq<Expense>, gid: Id)
    ensures GroupExpenses(a + b, gid) == GroupExpenses(a, gid) + GroupExpenses(b, gid)
  {
    if |b| == 0 {
      assert a + b == a;
    } else {
      var init := b[..|b| - 1];
      GroupExpensesAppend(a, init, gid);
      assert (a + b)[..|a + b| - 1] == a + init;
    }
  }
}
