// The split calculator of addExpense: equal shares rounded to the cent, and
// the tolerance check on custom splits.

module Splits {
  import opened LedgerTypes

  /** `parseFloat((amount / n).toFixed(2))` in cents: the quotient rounded to the
      nearest cent, an exact half rounded away from zero. */
  function RoundedShare(amount: int, n: int): (share: int)
    requires n > 0
    ensures -n <= 2 * (n * share - amount) <= n
    ensures amount >= 0 ==> -n < 2 * (n * share - amount)
    ensures amount < 0 ==> 2 * (n * share - amount) < n
  {
    if amount >= 0 then
      var q := (2 * amount + n) / (2 * n);
      HalfUp(2 * amount + n, 2 * n, q);
      q
    else
      var q := (2 * -amount + n) / (2 * n);
      HalfUp(2 * -amount + n, 2 * n, q);
      -q
  }

  /** Euclidean division of `a` by `d`: the remainder lies in [0, d). */
  lemma HalfUp(a: int, d: int, q: int)
    requires d > 0 && q == a / d
    ensures 0 <= a - d * q < d
  {
  }

  /** An amount that divides evenly is split exactly. */
  lemma ExactShare(amount: int, n: int, k: int)
    requires n > 0 && amount == n * k
    ensures RoundedShare(amount, n) == k
  {
    var share := RoundedShare(amount, n);
    var d := share - k;
    assert n * share - amount == n * d;
    if d >= 1 {
      ScaleAtLeast(n, d);
    } else if d <= -1 {
      ScaleAtLeast(n, -d);
    }
  }

  lemma ScaleAtLeast(n: int, d: int)
    requires n > 0 && d >= 1
    ensures n * d >= n
  {
    assert n * d == n + n * (d - 1);
  }

  /** Sum of the split amounts (the `reduce` over a split list). */
  function SumSplits(splits: seq<Split>): int
  {
    if |splits| == 0 then 0
    else SumSplits(splits[..|splits| - 1]) + splits[|splits| - 1].amount
  }

  /** The total the splits assign to `uid`; 0 when `uid` has no split. */
  function SplitShare(splits: seq<Split>, uid: Id): int
  {
    if |splits| == 0 then 0
    else
      var last := splits[|splits| - 1];
      SplitShare(splits[..|splits| - 1], uid) + (if last.userId == uid then last.amount else 0)
  }

  /** The equal split: one split per member, in member order, each the rounded share. */
  function EqualSplits(members: seq<Member>, amount: int): (splits: seq<Split>)
    ensures |splits| == |members|
    ensures forall k :: 0 <= k < |splits| ==> splits[k].userId == members[k].id
    ensures forall k :: 0 <= k < |splits| ==>
              -|members| <= 2 * (|members| * splits[k].amount - amount) <= |members|
    ensures forall j, k :: 0 <= j < k < |splits| ==> splits[j].amount == splits[k].amount
  {
    if |members| == 0 then []
    else
      var share := RoundedShare(amount, |members|);
      seq(|members|, k requires 0 <= k < |members| => Split(members[k].id, share))
  }

  /** Splits whose amounts are all `share` add up to `|splits| * share`. */
  lemma {:induction false} SumOfEqualShares(splits: seq<Split>, share: int)
    requires forall k :: 0 <= k < |splits| ==> splits[k].amount == share
    ensures SumSplits(splits) == |splits| * share
  {
    if |splits| > 0 {
      SumOfEqualShares(splits[..|splits| - 1], share);
    }
  }

  /** The rounding remainder is not redistributed: the equal shares add up to the
      amount only to within half a cent per member. */
  lemma EqualSplitsTotal(members: seq<Member>, amount: int)
    requires |members| > 0
    ensures var total := SumSplits(EqualSplits(members, amount));
            -|members| <= 2 * (total - amount) <= |members|
  {
    var splits := EqualSplits(members, amount);
    var share := RoundedShare(amount, |members|);
    SumOfEqualShares(splits, share);
  }

  /** 100.00 split three ways gives 33.33 each, which sum to 99.99. */
  lemma EqualSplitsThreeWays(a: Member, b: Member, c: Member)
    ensures var splits := EqualSplits([a, b, c], 10000);
            splits == [Split(a.id, 3333), Split(b.id, 3333), Split(c.id, 3333)] &&
            SumSplits(splits) == 9999
  {
    var splits := EqualSplits([a, b, c], 10000);
    assert splits[0] == Split(a.id, 3333);
    SumOfEqualShares(splits, 3333);
  }

  /** The split list addExpense stores, or the error it throws. */
  function ComputeSplits(members: seq<Member>, amount: int, splitType: SplitType,
                         customSplits: Option<seq<Split>>): (r: Result<seq<Split>>)
    ensures splitType == Equal ==> r.Ok? && r.value == EqualSplits(members, amount)
    ensures splitType == Custom ==>
              (r.Ok? <==> customSplits.Some? && Within(SumSplits(customSplits.value), amount))
    ensures splitType == Custom && r.Ok? ==> r.value == customSplits.value
    ensures splitType == Custom && customSplits.None? ==> r == Err(InvalidSplit)
    ensures splitType == Custom && customSplits.Some? && r.Err? ==> r.error == SplitMismatch
  {
    match splitType
    case Equal => Ok(EqualSplits(members, amount))
    case Custom =>
      if customSplits.None? then Err(InvalidSplit)
      else if Abs(SumSplits(customSplits.value) - amount) > Tolerance then Err(SplitMismatch)
      else Ok(customSplits.value)
  }

  /** A member's share over concatenated split lists. */
  lemma {:induction false} SplitShareAppend(a: seq<Split>, b: seq<Split>, uid: Id)
    ensures SplitShare(a + b, uid) == SplitShare(a, uid) + SplitShare(b, uid)
  {
    if |b| == 0 {
      assert a + b == a;
    } else {
      SplitShareAppend(a, b[..|b| - 1], uid);
      assert (a + b)[..|a + b| - 1] == a + b[..|b| - 1];
    }
  }
}
