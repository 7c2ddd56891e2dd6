// The settle-up page: who the current user can pay back, and the one-split
// custom expense that records a payment.

module SettleUp {
  import opened LedgerTypes
  import opened Queries
  import opened Splits
  import opened Balances
  import opened DataContext

  /** The balances with a positive amount (members who are owed money), in order. */
  function Creditors(balances: seq<Balance>): (r: seq<Balance>)
    ensures |r| <= |balances|
    ensures forall b :: b in r ==> b.amount > 0
  {
    if |balances| == 0 then []
    else
      var last := balances[|balances| - 1];
      Creditors(balances[..|balances| - 1]) + (if last.amount > 0 then [last] else [])
  }

  /** The current user's entry exists and is negative: they owe money in the group. */
  predicate Owes(balances: seq<Balance>, user: Option<Member>)
  {
    user.Some? && FindBalance(balances, user.value.id).Some? &&
    FindBalance(balances, user.value.id).value.amount < 0
  }

  /** usersToPayBack: nobody unless the current user owes, then every creditor. */
  function UsersToPayBack(balances: seq<Balance>, user: Option<Member>): (r: seq<Balance>)
    ensures !Owes(balances, user) ==> r == []
    ensures |r| <= |balances|
    ensures forall b :: b in r ==> b.amount > 0
  {
    if Owes(balances, user) then Creditors(balances) else []
  }

  lemma {:induction false} CreditorsMembership(balances: seq<Balance>, b: Balance)
    ensures b in Creditors(balances) <==> b in balances && b.amount > 0
  {
    if |balances| > 0 {
      var init := balances[..|balances| - 1];
      CreditorsMembership(init, b);
      assert balances == init + [balances[|balances| - 1]];
    }
  }

  /** The creditor filter keeps the order of the balance list. */
  lemma {:induction false} CreditorsAppend(a: seq<Balance>, b: seq<Balance>)
    ensures Creditors(a + b) == Creditors(a) + Creditors(b)
  {
    if |b| == 0 {
      assert a + b == a;
    } else {
      var init := b[..|b| - 1];
      CreditorsAppend(a, init);
      assert (a + b)[..|a + b| - 1] == a + init;
    }
  }

  /** The list is empty unless the current user owes money; when they do, it holds
      exactly the balances with a positive amount. */
  lemma UsersToPayBackMembership(balances: seq<Balance>, user: Option<Member>, b: Balance)
    ensures !Owes(balances, user) ==> UsersToPayBack(balances, user) == []
    ensures b in UsersToPayBack(balances, user) <==>
            Owes(balances, user) && b in balances && b.amount > 0
  {
    CreditorsMembership(balances, b);
  }

  /** The payee's name as the balances list it (`?.userName || 'User'`). */
  function PayeeName(balances: seq<Balance>, selected: Id): (name: string)
    ensures name != ""
    ensures FindBalance(balances, selected).None? ==> name == "User"
    ensures name != "User" ==> exists b :: b in balances && b.userId == selected && b.userName == name
    ensures FindBalance(balances, selected).Some? && FindBalance(balances, selected).value.userName != "" ==>
              name == FindBalance(balances, selected).value.userName
  {
    match FindBalance(balances, selected)
    case Some(b) => if b.userName != "" then b.userName else "User"
    case None => "User"
  }

  function SettlementDescription(name: string): string
  {
    "Settlement payment to " + name
  }

  /** The one split of a settlement: the selected user owes the whole amount. */
  function SettlementSplits(selected: Id, amount: int): seq<Split>
  {
    [Split(selected, amount)]
  }

  /** A settlement always passes the custom-split check and is stored as given. */
  lemma SettlementSplitsAccepted(members: seq<Member>, selected: Id, amount: int)
    ensures ComputeSplits(members, amount, Custom, Some(SettlementSplits(selected, amount))) ==
            Ok(SettlementSplits(selected, amount))
  {
    assert SumSplits(SettlementSplits(selected, amount)) == amount by {
      assert SettlementSplits(selected, amount)[..0] == [];
    }
  }

  /** Recording a settlement for a known group with a current user always succeeds,
      with the user as payer and the single split. */
  lemma SettlementRecorded(user: Option<Member>, groups: seq<Group>, gid: Id, name: string,
                           selected: Id, amount: int, id: Id, date: int)
    requires user.Some? && FindGroup(groups, gid).Some?
    ensures var r := RecordExpense(user, groups, gid, SettlementDescription(name), amount, user.value.id,
                                   Custom, Some(SettlementSplits(selected, amount)), id, date);
            r == Ok(Expense(id, gid, SettlementDescription(name), amount, user.value.id, date,
                            SettlementSplits(selected, amount)))
  {
    SettlementSplitsAccepted(FindGroup(groups, gid).value.members, selected, amount);
  }

  /** One settlement moves `amount` from the selected user's net balance to the payer's. */
  lemma SettlementNet(expenses: seq<Expense>, e: Expense, selected: Id, amount: int, uid: Id)
    requires e.amount == amount && e.splits == SettlementSplits(selected, amount)
    ensures Net(expenses + [e], uid) == Net(expenses, uid) + (if uid == e.paidBy then amount else 0)
                                                           - (if uid == selected then amount else 0)
  {
    assert (expenses + [e])[..|expenses|] == expenses;
    assert e.splits[..0] == [];
    assert SplitShare(e.splits, uid) == (if uid == selected then amount else 0);
  }

  /** In the settlement's group, the payer's balance rises by the amount, the selected
      user's falls by it, and every other member's is unchanged. */
  lemma SettlementBalanceEffect(user: Option<Member>, groups: seq<Group>, expenses: seq<Expense>,
                                e: Expense, selected: Id, amount: int, k: int)
    requires user.Some? && FindGroup(groups, e.groupId).Some?
    requires e.amount == amount && e.splits == SettlementSplits(selected, amount)
    requires 0 <= k < |FindGroup(groups, e.groupId).value.members|
    ensures var uid := FindGroup(groups, e.groupId).value.members[k].id;
            var before := GroupBalances(user, groups, expenses, e.groupId);
            var after := GroupBalances(user, groups, expenses + [e], e.groupId);
            |after| == |before| && k < |before| &&
            after[k].amount == before[k].amount + (if uid == e.paidBy then amount else 0)
                                                - (if uid == selected then amount else 0)
  {
    var gid := e.groupId;
    var ms := FindGroup(groups, gid).value.members;
    var ges := GroupExpenses(expenses, gid);
    GroupExpensesAppend(expenses, [e], gid);
    assert GroupExpenses([e], gid) == [e] by {
      assert [e][..0] == [];
    }
    assert GroupExpenses(expenses + [e], gid) == ges + [e];
    assert GroupBalances(user, groups, expenses, gid) == MemberBalances(ms, ges);
    assert GroupBalances(user, groups, expenses + [e], gid) == MemberBalances(ms, ges + [e]);
    SettlementNet(ges, e, selected, amount, ms[k].id);
  }

  /** A settlement leaves nothing unassigned, so the group's balances still sum as
      before. */
  lemma SettlementConserves(selected: Id, amount: int, e: Expense)
    requires e.amount == amount && e.splits == SettlementSplits(selected, amount)
    ensures Unassigned([e]) == 0
  {
    assert [e][..0] == [];
    assert e.splits[..0] == [];
    assert SumSplits(e.splits) == amount;
    assert Unassigned([e]) == Unassigned([]) + (e.amount - SumSplits(e.splits));
  }

  /** How a settle-up attempt ended. */
  datatype SettleOutcome =
    | Invalid                       // the input check failed; nothing was recorded
    | Failed(message: string)       // addExpense threw
    | Settled(expense: Expense)     // the payment was recorded

  /** handleSettleUp's guard: a positive amount, a selected user and a current user. */
  predicate SettleInputValid(settledAmount: Option<int>, selectedUser: Id, user: Option<Member>)
  {
    settledAmount.Some? && settledAmount.value > 0 && selectedUser != "" && user.Some?
  }

  /** The page of one group: the amount field (None while empty) and the selected payee. */
  class SettleUpPage {
    const groupId: Id
    var settledAmount: Option<int>
    var selectedUser: Id

    constructor (groupId: Id)
      ensures this.groupId == groupId && settledAmount == None && selectedUser == ""
    {
      this.groupId := groupId;
      settledAmount := None;
      selectedUser := "";
    }

    /** handleSettleUp: rejects bad input without recording anything; otherwise records
        the payment as a one-split custom expense paid by the current user and, on
        success, clears the amount and the selection. */
    method HandleSettleUp(store: DataStore, user: Option<Member>, balances: seq<Balance>,
                          id: Id, date: int) returns (outcome: SettleOutcome)
      modifies this, store
      ensures store.groups == old(store.groups)
      ensures !SettleInputValid(old(settledAmount), old(selectedUser), user) ==>
                outcome == Invalid && store.expenses == old(store.expenses) &&
                settledAmount == old(settledAmount) && selectedUser == old(selectedUser)
      ensures SettleInputValid(old(settledAmount), old(selectedUser), user) ==>
                var amount := old(settledAmount).value;
                var e := Expense(id, groupId, SettlementDescription(PayeeName(balances, old(selectedUser))),
                                 amount, user.value.id, date, SettlementSplits(old(selectedUser), amount));
                if FindGroup(old(store.groups), groupId).Some? then
                  outcome == Settled(e) && store.expenses == old(store.expenses) + [e] &&
                  settledAmount == None && selectedUser == ""
                else
                  outcome == Failed(Message(GroupNotFound)) && store.expenses == old(store.expenses) &&
                  settledAmount == old(settledAmount) && selectedUser == old(selectedUser)
    {
      if settledAmount.None? || settledAmount.value <= 0 || selectedUser == "" || user.None? {
        return Invalid;
      }
      var amount := settledAmount.value;
      var name := PayeeName(balances, selectedUser);
      if FindGroup(store.groups, groupId).Some? {
        SettlementRecorded(user, store.groups, groupId, name, selectedUser, amount, id, date);
      }
      var r := store.AddExpense(user, groupId, SettlementDescription(name), amount, user.value.id,
                                Custom, Some(SettlementSplits(selectedUser, amount)), id, date);
      if r.Ok? {
        outcome := Settled(r.value);
        settledAmount := None;
        selectedUser := "";
      } else {
        outcome := Failed(Message(r.error));
      }
    }
  }
}
