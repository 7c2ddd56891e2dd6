// The add-expense form: its state, the handlers that update it, the
// mismatch flag, and the submit-time checks before the expense is recorded.

module AddExpenseForm {
  import opened LedgerTypes
  import opened Splits
  import opened AmountText
  import opened DataContext

  /** `prevSplits.map(s => s.userId === uid ? { ...s, amount: v } : s)`. */
  function SetShare(splits: seq<Split>, uid: Id, v: int): (r: seq<Split>)
    ensures |r| == |splits|
    ensures forall k :: 0 <= k < |r| ==> r[k].userId == splits[k].userId
    ensures forall k :: 0 <= k < |r| ==>
              r[k] == (if splits[k].userId == uid then splits[k].(amount := v) else splits[k])
  {
    seq(|splits|, k requires 0 <= k < |splits| =>
      if splits[k].userId == uid then splits[k].(amount := v) else splits[k])
  }

  /** How many splits belong to `uid`. */
  function Count(splits: seq<Split>, uid: Id): nat
  {
    if |splits| == 0 then 0
    else Count(splits[..|splits| - 1], uid) + (if splits[|splits| - 1].userId == uid then 1 else 0)
  }

  /** The point update sets every split of `uid` to `v` and leaves the other users'
      shares as they were; the total moves accordingly. */
  lemma {:induction false} SetShareEffect(splits: seq<Split>, uid: Id, v: int, other: Id)
    ensures SplitShare(SetShare(splits, uid, v), uid) == Count(splits, uid) * v
    ensures other != uid ==> SplitShare(SetShare(splits, uid, v), other) == SplitShare(splits, other)
    ensures SumSplits(SetShare(splits, uid, v)) ==
            SumSplits(splits) - SplitShare(splits, uid) + Count(splits, uid) * v
  {
    if |splits| > 0 {
      var init := splits[..|splits| - 1];
      SetShareEffect(init, uid, v, other);
      assert SetShare(splits, uid, v)[..|splits| - 1] == SetShare(init, uid, v);
    }
  }

  /** Re-seeded equal shares never trip the mismatch flag in groups of up to three. */
  lemma SeededSplitsWithinTolerance(members: seq<Member>, amount: int)
    requires 1 <= |members| <= 3
    ensures Within(SumSplits(EqualSplits(members, amount)), amount)
  {
    EqualSplitsTotal(members, amount);
  }

  /** In larger groups they can: 1.00 seeded over six members is 0.17 each, 1.02 in
      all, so the flag is raised on the form's own suggestion. */
  lemma SeededSplitsCanMismatch(members: seq<Member>)
    requires |members| == 6
    ensures SumSplits(EqualSplits(members, 100)) == 102
    ensures !Within(SumSplits(EqualSplits(members, 100)), 100)
  {
    var splits := EqualSplits(members, 100);
    assert RoundedShare(100, 6) == 17;
    SumOfEqualShares(splits, 17);
  }

  /** The first check handleSubmit fails, in the source's order, or None. */
  function SubmitError(description: string, amount: string, paidById: Id): (r: Option<string>)
    requires amount == "" || IsAmountText(amount)
    ensures r.None? <==> description != "" && amount != "" && ParseCents(amount) > 0 && paidById != ""
    ensures description == "" ==> r == Some("Please enter a description")
    ensures description != "" && (amount == "" || ParseCents(amount) <= 0) ==>
              r == Some("Please enter a valid amount")
    ensures description != "" && amount != "" && ParseCents(amount) > 0 && paidById == "" ==>
              r == Some("Please select who paid")
  {
    if description == "" then Some("Please enter a description")
    else if amount == "" || ParseCents(amount) <= 0 then Some("Please enter a valid amount")
    else if paidById == "" then Some("Please select who paid")
    else None
  }

  /** How a submission ended. */
  datatype SubmitOutcome =
    | Rejected(message: string)     // a form check failed; addExpense was not called
    | Failed(message: string)       // addExpense threw
    | Submitted(expense: Expense)   // recorded; onSuccess runs

  /** The form of one group. */
  class ExpenseForm {
    const groupId: Id
    const members: seq<Member>
    var description: string
    var amount: string
    var paidById: Id
    var splitType: SplitType
    var customSplits: seq<Split>
    var error: string

    /** The amount field only ever holds an empty string or an accepted amount. */
    ghost predicate Valid()
      reads this
    {
      amount == "" || IsAmountText(amount)
    }

    /** `amount ? parseFloat(amount) : 0`, in cents. */
    function AmountValue(): int
      reads this
      requires Valid()
    {
      if amount == "" then 0 else ParseCents(amount)
    }

    /** customSplitError: the custom splits miss the amount by more than a cent. */
    predicate CustomSplitError()
      reads this
      requires Valid()
      ensures CustomSplitError() <==>
                splitType == Custom && ComputeSplits(members, AmountValue(), Custom, Some(customSplits)) == Err(SplitMismatch)
    {
      splitType == Custom && Abs(SumSplits(customSplits) - AmountValue()) > Tolerance
    }

    /** The submit button's `disabled` flag: set while a submission is pending and
        whenever the custom splits are off by more than a cent. */
    predicate SubmitDisabled(isLoading: bool)
      reads this
      requires Valid()
      ensures isLoading ==> SubmitDisabled(isLoading)
      ensures splitType == Custom && ComputeSplits(members, AmountValue(), Custom, Some(customSplits)).Err? ==>
                SubmitDisabled(isLoading)
      ensures !SubmitDisabled(isLoading) && splitType == Custom ==>
                ComputeSplits(members, AmountValue(), Custom, Some(customSplits)).Ok?
    {
      isLoading || (splitType == Custom && CustomSplitError())
    }

    constructor (groupId: Id, members: seq<Member>, user: Option<Member>)
      ensures Valid()
      ensures this.groupId == groupId && this.members == members
      ensures description == "" && amount == "" && splitType == Equal && customSplits == [] && error == ""
      ensures paidById == (if user.Some? then user.value.id else "")
    {
      this.groupId := groupId;
      this.members := members;
      description := "";
      amount := "";
      paidById := if user.Some? then user.value.id else "";
      splitType := Equal;
      customSplits := [];
      error := "";
    }

    /** handleAmountChange: an accepted value replaces the amount, and in custom mode a
        non-empty one re-seeds the custom splits with equal shares; anything else is
        ignored. */
    method HandleAmountChange(value: string)
      requires Valid()
      modifies this
      ensures Valid()
      ensures var accepted := value == "" || IsAmountText(value);
              && amount == (if accepted then value else old(amount))
              && customSplits == (if accepted && splitType == Custom && value != ""
                                  then EqualSplits(members, ParseCents(value)) else old(customSplits))
      ensures description == old(description) && paidById == old(paidById) &&
              splitType == old(splitType) && error == old(error)
    {
      if value == "" || IsAmountText(value) {
        amount := value;
        if splitType == Custom && value != "" {
          customSplits := EqualSplits(members, ParseCents(value));
        }
      }
    }

    /** handleSplitTypeChange: switching to custom with an amount re-seeds the custom
        splits with equal shares. */
    method HandleSplitTypeChange(newSplitType: SplitType)
      requires Valid()
      modifies this
      ensures Valid()
      ensures splitType == newSplitType
      ensures customSplits == (if newSplitType == Custom && amount != ""
                               then EqualSplits(members, ParseCents(amount)) else old(customSplits))
      ensures description == old(description) && amount == old(amount) &&
              paidById == old(paidById) && error == old(error)
    {
      splitType := newSplitType;
      if newSplitType == Custom && amount != "" {
        customSplits := EqualSplits(members, ParseCents(amount));
      }
    }

    /** handleCustomSplitChange: the parsed input (None for an empty field, which
        counts as 0) becomes the share of `userId`. */
    method HandleCustomSplitChange(userId: Id, value: Option<int>)
      requires Valid()
      modifies this
      ensures Valid()
      ensures customSplits == SetShare(old(customSplits), userId, if value.None? then 0 else value.value)
      ensures description == old(description) && amount == old(amount) && paidById == old(paidById) &&
              splitType == old(splitType) && error == old(error)
    {
      var newAmount := if value.None? then 0 else value.value;
      customSplits := SetShare(customSplits, userId, newAmount);
    }

    /** handleSubmit: the form checks, then addExpense with the custom splits only in
        custom mode; the error text shows the first failure. */
    method HandleSubmit(store: DataStore, user: Option<Member>, id: Id, date: int)
      returns (outcome: SubmitOutcome)
      requires Valid()
      modifies this, store
      ensures Valid()
      ensures description == old(description) && amount == old(amount) && paidById == old(paidById) &&
              splitType == old(splitType) && customSplits == old(customSplits)
      ensures store.groups == old(store.groups)
      ensures var check := SubmitError(description, amount, paidById);
              check.Some? ==> outcome == Rejected(check.value) && error == check.value &&
                              store.expenses == old(store.expenses)
      ensures var check := SubmitError(description, amount, paidById);
              check.None? ==>
                var r := RecordExpense(user, old(store.groups), groupId, description, ParseCents(amount),
                                       paidById, splitType,
                                       if splitType == Custom then Some(customSplits) else None, id, date);
                && (r.Ok? ==> outcome == Submitted(r.value) && error == "" &&
                              store.expenses == old(store.expenses) + [r.value])
                && (r.Err? ==> outcome == Failed(Message(r.error)) && error == Message(r.error) &&
                               store.expenses == old(store.expenses))
      ensures splitType == Custom && !CustomSplitError() && outcome.Failed? ==>
                outcome.message != Message(SplitMismatch)
    {
      error := "";
      var check := SubmitError(description, amount, paidById);
      if check.Some? {
        error := check.value;
        return Rejected(check.value);
      }
      var splits := if splitType == Custom then Some(customSplits) else None;
      var r := store.AddExpense(user, groupId, description, ParseCents(amount), paidById, splitType,
                                splits, id, date);
      if r.Ok? {
        outcome := Submitted(r.value);
      } else {
        error := Message(r.error);
        outcome := Failed(error);
      }
    }
  }
}
