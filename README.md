# SplitEase ledger core in Dafny

This project models the ledger of SplitEase, a shared-expense web app, and proves properties about the model. Users form groups and record expenses paid by one member. Each expense is split among the members, equally or by custom amounts. The app then shows every member's net balance, lets a debtor record a settlement payment, and draws simple analytics.

The model covers:

- the data provider (`src/contexts/DataContext.tsx`): the group and expense store, `createGroup`, `addExpense`, `getGroupBalances`, `getUserGroups`, `getGroupExpenses`, `getUserTotalBalance` and `getTotalSpent`;
- the add-expense form (`src/components/AddExpenseForm.tsx`);
- the settle-up page (`src/pages/SettleUp.tsx`);
- the analytics aggregates (`src/pages/Analytics.tsx`).

Conventions:

- **Money.** Amounts are integer cents, so the 0.01 tolerance becomes `Tolerance == 1`. `parseFloat(x.toFixed(2))` of a quotient becomes `Splits.RoundedShare`: the nearest cent, with an exact half rounded away from zero.
- **Inputs.** The current user (`currentUser` of the auth context) is an `Option<Member>` parameter. Generated ids and timestamps are parameters too, and dates are integers.
- **Mutable state.** The provider's state is the class `DataContext.DataStore`, which holds the `groups` and `expenses` lists. `createGroup` and `addExpense` append to them. `getGroupBalances` and `getUserTotalBalance` are loops proved against the specification functions `Balances.GroupBalances` and `Summaries.UserTotalBalance`. The form state and the settle-up page state are the classes `AddExpenseForm.ExpenseForm` and `SettleUp.SettleUpPage`.
- **Pure views.** The filters, summaries and analytics are functions.

Modules:

| file | module | contents |
|---|---|---|
| ledger_types.dfy | LedgerTypes | records, errors and their messages, the tolerance |
| queries.dfy | Queries | group lookup, membership, `getUserGroups`, `getGroupExpenses` |
| splits.dfy | Splits | rounding, equal split, custom-split check |
| balances.dfy | Balances | balance per member, conservation of money |
| summaries.dfy | Summaries | `getTotalSpent`, `getUserTotalBalance` as functions |
| data_context.dfy | DataContext | createGroup's member rule, addExpense's outcome, the store class |
| amount_text.dfy | AmountText | the amount-field pattern, its value in cents |
| add_expense_form.dfy | AddExpenseForm | the form class and its handlers |
| settle_up.dfy | SettleUp | who can be paid back, the settlement expense, the page class |
| analytics.dfy | Analytics | per-group totals, the five most recent expenses, the average |

Behaviour worth knowing:

- **Equal splits are not exact.** Shares are not corrected for rounding. 100.00 over three members is 33.33 each, which adds up to 99.99. Balances then sum to that unassigned remainder instead of to zero.
- **Seeding can trip the form's own check.** The form re-seeds custom splits with the same rounded shares. In the cents model, for up to three members these always pass the form's 1-cent check. For larger groups they can fail it: 1.00 over six members seeds 0.17 each, 1.02 in all, and the submit button is disabled.
- **Conservation needs consistent groups.** `getGroupBalances` throws when a payer or split user of one of the group's expenses is not a member. With duplicate member ids it does not throw: the balances record keeps one entry per distinct id, so the result is shorter than the member list. The model requires both (see `Balances.BalancesDefined`); `createGroup` guarantees distinct ids when the directory's ids are distinct (`DataContext.GroupMembersDistinct`). Group member ids come from the user directory's keys, which are UUIDs. Because they are never integer-like, `Object.values` returns the balances in member order.

## Model

| member | source | states |
|---|---|---|
| Queries.FindGroup | src/contexts/DataContext.tsx:111-113 | None exactly when no group has the id; otherwise a listed group with that id, the first such |
| Queries.FindListedGroup | src/contexts/DataContext.tsx:111-113 | with unique group ids, looking up a listed group's id returns that group |
| Queries.UserGroups | src/contexts/DataContext.tsx:104-109 | no groups without a current user, and never more than are stored (UserGroupsMembership states exactly which) |
| Queries.UserGroupsMembership | src/contexts/DataContext.tsx:104-109 | a group is among the user's groups iff there is a current user, the group is in the store and the user is one of its members |
| Queries.GroupsWithMemberAppend | src/contexts/DataContext.tsx:106-108 | the user-group filter distributes over concatenation, so it keeps store order |
| Queries.GroupExpenses | src/contexts/DataContext.tsx:115-117 | never more expenses than are stored (GroupExpensesMembership and GroupExpensesAppend state which and in what order) |
| Queries.GroupExpensesMembership | src/contexts/DataContext.tsx:115-117 | an expense is in a group's list iff it is in the store with that group id |
| Queries.GroupExpensesAppend | src/contexts/DataContext.tsx:115-117 | the group-expense filter distributes over concatenation, so it keeps store order |
| Splits.RoundedShare | src/contexts/DataContext.tsx:191-194 | the share is within half a cent of amount / n; a half is rounded away from zero |
| Splits.ExactShare | src/contexts/DataContext.tsx:191-194 | an amount divisible by n is split exactly |
| Splits.EqualSplits | src/contexts/DataContext.tsx:190-195 | one split per member in member order, each member's id, every share rounded to the cent from amount / n, all shares equal |
| Splits.EqualSplitsTotal | src/contexts/DataContext.tsx:190-195 | the equal shares add up to the amount only to within half a cent per member (the remainder is kept) |
| Splits.EqualSplitsThreeWays | src/contexts/DataContext.tsx:190-195 | 100.00 over three members is 33.33 each, summing to 99.99 |
| Splits.ComputeSplits | src/contexts/DataContext.tsx:188-205 | equal always succeeds with the equal split; custom succeeds iff a list is given and its sum is within 1 cent of the amount, and then stores it unchanged; a missing list is InvalidSplit, a bad sum SplitMismatch |
| Balances.FindBalance | src/contexts/DataContext.tsx:276 | None exactly when no entry has the id; otherwise the first entry with that id |
| Balances.GroupBalances | src/contexts/DataContext.tsx:237-267 | [] without a user or for an unknown group; otherwise one entry per member, in member order, with the member's id and name |
| Balances.NoExpensesNoDebt | src/contexts/DataContext.tsx:245-253 | every member starts at zero: without group expenses every balance is 0 |
| Balances.NetIsPaidMinusOwed | src/contexts/DataContext.tsx:255-264 | a member's balance is the total they paid minus the total of their split amounts |
| Balances.NetAppend | src/contexts/DataContext.tsx:255-264 | a balance over concatenated expense lists is the sum of the two balances |
| Balances.NetOrderIndependent | src/contexts/DataContext.tsx:255-264 | any rearrangement of the same expenses (equal multisets) gives the same balance, so the order in which they are applied does not matter |
| Balances.FindMemberBalance | src/contexts/DataContext.tsx:266 | with distinct member ids, looking up a member's id in the result finds that member's own balance |
| Balances.NetConservation | src/contexts/DataContext.tsx:256-264 | over a consistent group, the members' balances sum to Σ(amount − Σ splits) of its expenses |
| Balances.Conservation | src/contexts/DataContext.tsx:237-267 | the sum of getGroupBalances' result is the group's unassigned remainder |
| Balances.ExactSplitsUnassignNothing | src/contexts/DataContext.tsx:256-264 | when every expense's splits add up to its amount, nothing is unassigned (balances sum to 0) |
| Balances.EqualSplitShare | src/contexts/DataContext.tsx:190-195 | with distinct member ids, each member's share of an equal split is the rounded share |
| Balances.DinnerExample | src/contexts/DataContext.tsx:173-264 | a 90.00 dinner paid by A and split equally among A, B, C gives +60.00, −30.00, −30.00 |
| Summaries.FirstShareIsShare | src/contexts/DataContext.tsx:294-295 | the first split found for a user is their whole share when they have at most one split |
| Summaries.TotalSpent | src/contexts/DataContext.tsx:285-299 | 0 without a current user; never negative when no split amount is |
| Summaries.TotalSpentByGroup | src/contexts/DataContext.tsx:285-299 | with unique group ids, every expense is counted once under its own group: the total is the sum over the user's groups of the user's first split in each of that group's expenses |
| Summaries.TotalSpentIsOwed | src/contexts/DataContext.tsx:285-299 | with unique group ids and at most one split per user, the total is the sum over the user's groups of everything split to the user there, the debits getGroupBalances takes |
| Summaries.UserTotalBalance | src/contexts/DataContext.tsx:269-283 | 0 without a current user (UserTotalBalanceIsNetSum relates it to the balances) |
| Summaries.UserTotalBalanceIsNetSum | src/contexts/DataContext.tsx:269-283 | with unique ids, getUserTotalBalance is the sum of the user's net balance over their groups |
| DataContext.InvitedMembership | src/contexts/DataContext.tsx:128-134 | a directory user is kept iff their email was invited or they are the creator |
| DataContext.GroupMembers | src/contexts/DataContext.tsx:128-143 | the creator is always a member of the new group |
| DataContext.GroupMembersExactly | src/contexts/DataContext.tsx:128-143 | the members are exactly the kept directory users plus the creator's own record when the directory did not supply one |
| DataContext.GroupMembersDistinct | src/contexts/DataContext.tsx:128-143 | a directory with unique ids gives a group with unique member ids |
| DataContext.RecordExpense | src/contexts/DataContext.tsx:173-215 | the checks run in the source's order (user, group, splits); on success the expense carries the given id, group, description, amount, payer, date and the computed splits |
| DataContext.RecordedWithin | src/contexts/DataContext.tsx:190-202 | with a member as payer, an equal-split expense (or custom splits naming members) names only members of its group |
| DataContext.AppendKeepsBalancesDefined | src/contexts/DataContext.tsx:217 | appending an expense that names only members of its group keeps every group's balances computable |
| DataContext.DataStore.constructor | src/contexts/DataContext.tsx:66-67 | the store starts with no groups and no expenses |
| DataContext.DataStore.CreateGroup | src/contexts/DataContext.tsx:119-153 | without a user nothing changes; otherwise exactly the new group is appended, with the member rule, the creator and the given id and time |
| DataContext.DataStore.AddExpense | src/contexts/DataContext.tsx:173-217 | the result is RecordExpense's; on success exactly that expense is appended, on error the expenses are unchanged; groups never change |
| DataContext.DataStore.GetGroupBalances | src/contexts/DataContext.tsx:237-267 | the loop's result equals GroupBalances |
| DataContext.DataStore.GetUserTotalBalance | src/contexts/DataContext.tsx:269-283 | the loop's result equals UserTotalBalance |
| DataContext.Credit | src/contexts/DataContext.tsx:258 | adds to the paying member's entry only |
| DataContext.DebitSplits | src/contexts/DataContext.tsx:261-263 | each entry loses exactly that member's total split amount |
| AmountText.AmountTextMatchesPattern | src/components/AddExpenseForm.tsx:39 | the scanner accepts exactly the strings of one or more digits optionally followed by a point and at most two digits |
| AmountText.IsAmountText | src/components/AddExpenseForm.tsx:39 | an accepted string is non-empty and starts with a digit; every non-empty string of digits is accepted |
| AmountText.ParseCents | src/components/AddExpenseForm.tsx:44 | a whole number of units is worth its digits' value times 100 cents |
| AmountText.ParseDecimalCents | src/components/AddExpenseForm.tsx:117 | digits, a point and up to two digits are accepted and worth the units times 100 plus the fraction as tenths or hundredths |
| AmountText.ParseCentsExamples | src/components/AddExpenseForm.tsx:117 | "12.5" is 1250 cents and "12." is 1200 |
| AmountText.ParseFormatCents | src/components/AddExpenseForm.tsx:44-49 | the two-decimal rendering of an amount is accepted by the amount field and parses back to the same cents |
| AddExpenseForm.SetShareEffect | src/components/AddExpenseForm.tsx:72-79 | the point update gives the user's splits the new value, leaves other users' shares alone and moves the total accordingly |
| AddExpenseForm.SetShare | src/components/AddExpenseForm.tsx:74-78 | the update keeps the length and every entry's user; each entry of the user gets the new amount and every other entry is unchanged |
| AddExpenseForm.SeededSplitsWithinTolerance | src/components/AddExpenseForm.tsx:42-51 | seeded equal shares never raise the mismatch flag in groups of one to three members |
| AddExpenseForm.SeededSplitsCanMismatch | src/components/AddExpenseForm.tsx:116-120 | 1.00 seeded over six members sums to 1.02 and raises the mismatch flag |
| AddExpenseForm.SubmitError | src/components/AddExpenseForm.tsx:85-98 | the first failing check, in order: empty description, then empty or non-positive amount, then no payer; None iff all pass |
| AddExpenseForm.ExpenseForm.CustomSplitError | src/components/AddExpenseForm.tsx:116-120 | raised exactly when custom splits are selected and the store's split check would reject them with the mismatch error |
| AddExpenseForm.ExpenseForm.SubmitDisabled | src/components/AddExpenseForm.tsx:221 | disabled while a submission is pending and whenever the store would reject the custom splits; an enabled submit in custom mode always passes the store's split check |
| AddExpenseForm.ExpenseForm.constructor | src/components/AddExpenseForm.tsx:30-35 | empty fields, equal split, the current user as payer |
| AddExpenseForm.ExpenseForm.HandleAmountChange | src/components/AddExpenseForm.tsx:37-54 | an accepted string replaces the amount and, in custom mode, a non-empty one re-seeds equal shares; anything else changes nothing |
| AddExpenseForm.ExpenseForm.HandleSplitTypeChange | src/components/AddExpenseForm.tsx:56-70 | sets the split type; switching to custom with an amount re-seeds equal shares |
| AddExpenseForm.ExpenseForm.HandleCustomSplitChange | src/components/AddExpenseForm.tsx:72-79 | the given user's share becomes the value (0 for an empty input); nothing else changes |
| AddExpenseForm.ExpenseForm.HandleSubmit | src/components/AddExpenseForm.tsx:81-114 | a failed check sets its message and records nothing; otherwise addExpense runs with the custom splits only in custom mode, and its error message is shown on failure; with the flag clear, a failure is never the mismatch error |
| SettleUp.Creditors | src/pages/SettleUp.tsx:37-42 | only positive balances are kept |
| SettleUp.CreditorsAppend | src/pages/SettleUp.tsx:37-42 | the filter distributes over concatenation, so it keeps balance order |
| SettleUp.UsersToPayBack | src/pages/SettleUp.tsx:37-42 | empty unless the user owes; never longer than the balance list; every entry has a positive amount |
| SettleUp.UsersToPayBackMembership | src/pages/SettleUp.tsx:34-42 | empty unless the user's entry exists and is negative; then exactly the balances with a positive amount |
| SettleUp.PayeeName | src/pages/SettleUp.tsx:57 | never empty; 'User' when the payee has no entry; the name of the payee's first entry when that name is non-empty |
| SettleUp.SettlementSplitsAccepted | src/pages/SettleUp.tsx:59-66 | the single full-amount split always passes the custom-split check and is stored unchanged |
| SettleUp.SettlementRecorded | src/pages/SettleUp.tsx:59-66 | with a user and a known group, the settlement is recorded with the user as payer and the one split |
| SettleUp.SettlementNet | src/pages/SettleUp.tsx:59-66 | a settlement adds the amount to the payer's balance and takes it from the payee's |
| SettleUp.SettlementBalanceEffect | src/pages/SettleUp.tsx:59-66 | in the group's balances, the payer gains the amount, the payee loses it, every other member is unchanged |
| SettleUp.SettlementConserves | src/pages/SettleUp.tsx:65 | a settlement leaves nothing unassigned |
| SettleUp.SettleUpPage.constructor | src/pages/SettleUp.tsx:19-20 | empty amount and no selected user |
| SettleUp.SettleUpPage.HandleSettleUp | src/pages/SettleUp.tsx:44-89 | a missing or non-positive amount, no selection or no user is rejected with nothing changed; otherwise the settlement expense is appended and the amount and selection are cleared, or, for an unknown group, "Group not found" with nothing changed |
| Analytics.ExpensesByGroup | src/pages/Analytics.tsx:34-41 | at most one slice per group, every value positive |
| Analytics.ExpensesByGroupMembership | src/pages/Analytics.tsx:34-41 | a slice is exactly a listed group's name with that group's positive total |
| Analytics.ExpensesByGroupAppend | src/pages/Analytics.tsx:34-41 | the slices distribute over concatenation, so they keep group order |
| Analytics.GroupTotal | src/pages/Analytics.tsx:35-36 | 0 for a group without expenses; never negative when no amount is |
| Analytics.GroupTotalAppend | src/pages/Analytics.tsx:35-36 | a new expense raises its own group's total by its amount and no other's |
| Analytics.SortNewestFirst | src/pages/Analytics.tsx:44-45 | the copy is sorted newest first and is a permutation of the expenses |
| Analytics.SortIsStable | src/pages/Analytics.tsx:44-45 | expenses with the same date keep their relative order |
| Analytics.MostRecent | src/pages/Analytics.tsx:44-46 | min(5, n) expenses, newest first, drawn from the store's expenses |
| Analytics.MostRecentAreNewest | src/pages/Analytics.tsx:44-46 | min(5, n) expenses are kept and none left out is newer than one kept |
| Analytics.RecentExpenses | src/pages/Analytics.tsx:44-56 | min(5, n) points, the kept expenses in reverse order |
| Analytics.RecentExpensesOldestFirst | src/pages/Analytics.tsx:44-56 | the points' dates ascend, so the chart runs oldest first |
| Analytics.GroupLabel | src/pages/Analytics.tsx:48-52 | 'Unknown' when the group is not among the user's groups; the first such group's name when that name is non-empty; otherwise a name of one of them |
| Analytics.AverageExpense | src/pages/Analytics.tsx:194-196 | 0 for a group without expenses; otherwise within half a cent of total / count |
| Analytics.AverageOfEqualAmounts | src/pages/Analytics.tsx:194-196 | when all of a group's expenses have the same amount, that is the average |

## Left out

- Persistence: loading and saving the lists through localStorage, and the JSON parsing, are I/O and not modelled.
- Generated ids (`crypto.randomUUID`) and timestamps (`new Date().toISOString()`) are parameters of the operations.
- React state, hooks, async/await, loading flags (`isLoading`, `isSettling`), toasts and navigation are not modelled; state setters are synchronous field updates.
- Floating point: amounts are exact integer cents. Float sums, `toFixed(2)` artefacts and `parseFloat` rounding are not reproduced. Rounding is to the nearest cent, with halves away from zero.
- AddExpenseForm.SeededSplitsWithinTolerance: holds for integer cents only. In floats, a gap of exactly one cent can exceed the 0.01 tolerance: 1.01 seeded over two members is 0.51 each, and `Math.abs(1.02 - 1.01)` is slightly above 0.01.
- Balances.GroupBalances: the source throws when a payer or split user is not a group member, and its balances record collapses duplicate member ids into one entry per id; the function lists one entry per member position and does not model the exception.
- DataContext.DataStore.GetGroupBalances: requires `Balances.BalancesDefined` (distinct member ids, and every payer and split user a member), so neither the exception nor the collapsing of duplicates arises.
- DataContext.DataStore.GetUserTotalBalance: requires `BalancesDefined` for each of the user's groups, for the same reason.
- DataContext.DataStore.CreateGroup: the user directory (`Object.values` of the stored users) is a parameter in directory order, since reading it is I/O.
- AddExpenseForm.ExpenseForm.HandleCustomSplitChange: the number input is taken already parsed to cents (None for an empty field), so `parseFloat` of arbitrary text is not modelled.
- SettleUp.SettleUpPage.HandleSettleUp: the amount field is taken as cents (None when empty), and the balances are taken as a parameter (the render-time `getGroupBalances` result); the page's redirect for a missing group is navigation.
- Analytics.Point: dates are shown as integers; `toLocaleDateString` formatting is not modelled.
- The chart bar width in `src/pages/Analytics.tsx:203-206` is float-only display arithmetic and is not modelled.
- The auth context (`src/contexts/AuthContext.tsx`) is session plumbing; its current user is an input.
- `addMemberToGroup` and `deleteGroup` are used by other pages but are not defined in the data provider, so they are not part of this model.
- No settlement planner exists in the source; the settle-up page only records one user-chosen transfer, and that is what is modelled.
- Splits.EqualSplits: an empty member list gives an empty split list and no error, because the code maps over the empty list.
- Splits.ComputeSplits: an empty custom split list is accepted like any other list (only a missing list is InvalidSplit), because an empty array is truthy in the source.
