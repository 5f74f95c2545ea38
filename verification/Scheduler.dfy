/**
 How one task is cut into consecutive blocks, one for each active worker, in proportion to
 benchmarked speed. `Dispatch` is the specification of the loop in the main node; the lemmas say
 what the blocks are.
 */
module Scheduler {
  import opened MachineWords
  import opened Outcomes
  import opened Quotients
  import opened Tasks

  /** The blocks sent, what is left in the caller's task, and whether every worker was served. */
  datatype Plan = Plan(sent: seq<Task>, left: Task, completed: bool)

  /** Machine arithmetic: the product wraps, the division truncates. */
  function Share(speed: Word, sum: Word, total: Word): Word
    requires sum > 0
  {
    MulWord(speed, total) / sum
  }

  /** One share for each worker but the last, in the order the workers are visited. */
  function Shares(speeds: seq<Word>, sum: Word, total: Word): (shares: seq<Word>)
    requires |speeds| > 0
    requires |speeds| > 1 ==> sum > 0
  {
    seq(|speeds| - 1, i requires 0 <= i < |speeds| - 1 => Share(speeds[i], sum, total))
  }

  /** Slices one block per share off the task; whatever remains goes to one more worker. */
  function Dispatch(task: Task, shares: seq<Word>): Plan
    decreases |shares|
  {
    if |shares| == 0 then Plan([task], task, true)
    else
      match Slice(task, shares[0])
      case Failure(_) => Plan([], task, false)
      case Success((block, rest)) =>
        var plan := Dispatch(rest, shares[1..]);
        plan.(sent := [block] + plan.sent)
  }

  ghost function Sum(xs: seq<int>): int {
    if |xs| == 0 then 0 else xs[0] + Sum(xs[1..])
  }

  lemma {:induction false} SumNonNegative(words: seq<Word>)
    ensures Sum(words) >= 0
  {
    if |words| > 0 {
      SumNonNegative(words[1..]);
    }
  }

  /** The blocks follow each other without gap or overlap from `from` up to but excluding `to`. */
  ghost predicate Tiles(blocks: seq<Task>, from: int, to: int) {
    if |blocks| == 0 then from == to
    else blocks[0].first == from && blocks[0].WellFormed() && Tiles(blocks[1..], blocks[0].second + 1, to)
  }

  /** What a plan promises, whether or not it could be completed. */
  ghost predicate PlanKeepsRange(plan: Plan, task: Task, shares: seq<Word>) {
    && (forall block <- plan.sent :: block.SameParameters(task))
    && plan.left.SameParameters(task) && plan.left.WellFormed() && plan.left.second == task.second
    && |plan.sent| <= |shares| + 1
    && (forall i | 0 <= i < |plan.sent| && i < |shares| :: plan.sent[i].Size() == shares[i])
    && (plan.completed <==> |plan.sent| == |shares| + 1)
    && (plan.completed ==>
          && Tiles(plan.sent, task.first, task.second + 1)
          && plan.left == plan.sent[|shares|]
          && plan.left.Size() == task.Size() - Sum(shares))
    && (!plan.completed ==>
          && |plan.sent| < |shares| && shares[|plan.sent|] == 0
          && Tiles(plan.sent, task.first, plan.left.first))
  }

  /** The plan with blocks that were already sent put in front. */
  function After(sent: seq<Task>, plan: Plan): Plan {
    plan.(sent := sent + plan.sent)
  }

  lemma {:induction false} DispatchLength(task: Task, shares: seq<Word>)
    ensures |Dispatch(task, shares).sent| <= |shares| + 1
    ensures Dispatch(task, shares).completed ==> |Dispatch(task, shares).sent| == |shares| + 1
    decreases |shares|
  {
    if |shares| > 0 && Slice(task, shares[0]).Success? {
      DispatchLength(Slice(task, shares[0]).value.1, shares[1..]);
    }
  }

  /** One turn of the loop: either the plan ends here, or one more block has been sent. */
  lemma DispatchTurn(sent: seq<Task>, task: Task, shares: seq<Word>, i: nat)
    requires i < |shares|
    ensures match Slice(task, shares[i])
            case Failure(_) => After(sent, Dispatch(task, shares[i..])) == Plan(sent, task, false)
            case Success((block, rest)) =>
              After(sent, Dispatch(task, shares[i..])) == After(sent + [block], Dispatch(rest, shares[i + 1..]))
  {
    assert shares[i..][0] == shares[i] && shares[i..][1..] == shares[i + 1..];
    if Slice(task, shares[i]).Success? {
      var (block, rest) := Slice(task, shares[i]).value;
      var plan := Dispatch(rest, shares[i + 1..]);
      assert sent + ([block] + plan.sent) == sent + [block] + plan.sent;
    } else {
      assert sent + [] == sent;
    }
  }

  /** Shares that together leave an iteration are never refused for exhausting the range. */
  lemma {:induction false} DispatchOfShares(task: Task, shares: seq<Word>)
    requires task.WellFormed() && Sum(shares) < task.Size()
    ensures PlanKeepsRange(Dispatch(task, shares), task, shares)
    ensures Dispatch(task, shares).completed <==> forall i | 0 <= i < |shares| :: shares[i] >= 1
    decreases |shares|
  {
    if |shares| == 0 {
      assert Dispatch(task, shares).sent[1..] == [];
    } else {
      SliceSplitsRange(task, shares[0]);
      SumNonNegative(shares[1..]);
      if Slice(task, shares[0]).Success? {
        var (block, rest) := Slice(task, shares[0]).value;
        DispatchOfShares(rest, shares[1..]);
        PlanExtends(task, shares, block, rest, Dispatch(rest, shares[1..]));
        assert forall i | 1 <= i < |shares| :: shares[i] == shares[1..][i - 1];
      }
    }
  }

  /** A block put in front of a plan for the rest gives a plan for the whole. */
  lemma PlanExtends(task: Task, shares: seq<Word>, block: Task, rest: Task, tail: Plan)
    requires |shares| > 0 && PlanKeepsRange(tail, rest, shares[1..])
    requires block.first == task.first && block.WellFormed() && block.second + 1 == rest.first
    requires rest.second == task.second && block.SameParameters(task) && rest.SameParameters(task)
    requires block.Size() == shares[0]
    ensures PlanKeepsRange(tail.(sent := [block] + tail.sent), task, shares)
  {
    var plan := tail.(sent := [block] + tail.sent);
    assert plan.sent[1..] == tail.sent;
    forall i | 0 <= i < |plan.sent| && i < |shares|
      ensures plan.sent[i].Size() == shares[i]
    {
      if i > 0 {
        assert plan.sent[i] == tail.sent[i - 1] && shares[i] == shares[1..][i - 1];
      }
    }
  }

  // ----- the arithmetic of the shares

  /** `share` is the quotient of `speed * size` by `sum`, rounded down. */
  ghost predicate Proportional(share: int, speed: int, size: int, sum: int) {
    sum * share <= speed * size < sum * share + sum
  }

  lemma ProductMod(a: nat, b: nat)
    ensures 0 <= (a * b) % WORD_RANGE <= a * b
    ensures a * b < WORD_RANGE ==> (a * b) % WORD_RANGE == a * b
  {
  }

  /** A share is at most proportional even if the product wraps, and exactly so if it does not. */
  lemma ShareBounds(speed: Word, sum: Word, total: Word)
    requires sum > 0
    ensures sum * Share(speed, sum, total) <= MulWord(speed, total) < sum * Share(speed, sum, total) + sum
    ensures sum * Share(speed, sum, total) <= speed * total
    ensures speed * total < WORD_RANGE ==> Proportional(Share(speed, sum, total), speed, total, sum)
  {
    ProductMod(speed, total);
    QuotientBounds(MulWord(speed, total), sum);
  }

  lemma ProportionalPositive(share: nat, speed: nat, size: nat, sum: nat)
    requires Proportional(share, speed, size, sum)
    ensures share >= 1 <==> speed * size >= sum
  {
    if share >= 1 {
      assert sum * share == sum + sum * (share - 1);
    }
  }

  lemma Distribute(a: int, b: int, c: int)
    ensures a * (b + c) == a * b + a * c
    ensures a * (b - c) == a * b - a * c
  {
  }

  ghost function Scale(factor: int, xs: seq<int>): (ys: seq<int>) {
    seq(|xs|, i requires 0 <= i < |xs| => factor * xs[i])
  }

  lemma {:induction false} SumScale(factor: int, xs: seq<int>)
    ensures Sum(Scale(factor, xs)) == factor * Sum(xs)
  {
    if |xs| > 0 {
      SumScale(factor, xs[1..]);
      assert Scale(factor, xs)[1..] == Scale(factor, xs[1..]);
      Distribute(factor, xs[0], Sum(xs[1..]));
    }
  }

  lemma {:induction false} SumAtMost(xs: seq<int>, ys: seq<int>)
    requires |xs| == |ys| && forall i | 0 <= i < |xs| :: xs[i] <= ys[i]
    ensures Sum(xs) <= Sum(ys)
  {
    if |xs| > 0 {
      SumAtMost(xs[1..], ys[1..]);
    }
  }

  lemma {:induction false} SumAtLeast(xs: seq<int>, ys: seq<int>, slack: nat)
    requires |xs| == |ys| && forall i | 0 <= i < |xs| :: ys[i] <= xs[i] + slack
    ensures Sum(ys) <= Sum(xs) + |xs| * slack
  {
    if |xs| > 0 {
      SumAtLeast(xs[1..], ys[1..], slack);
      Distribute(slack, |xs| - 1, 1);
    }
  }

  lemma {:induction false} SumOfLast(xs: seq<int>)
    requires |xs| > 0
    ensures Sum(xs) == Sum(xs[..|xs| - 1]) + xs[|xs| - 1]
  {
    if |xs| == 1 {
      assert xs[1..] == [];
    } else {
      SumOfLast(xs[1..]);
      assert xs[1..][..|xs| - 2] == xs[..|xs| - 1][1..];
    }
  }

  lemma {:induction false} SumPositive(xs: seq<int>)
    requires forall i | 0 <= i < |xs| :: xs[i] >= 1
    ensures Sum(xs) >= |xs|
  {
    if |xs| > 0 {
      SumPositive(xs[1..]);
    }
  }

  lemma RangeSizeMod(task: Task)
    requires task.WellFormed()
    ensures RangeSize(task) == task.Size() % WORD_RANGE
  {
    assert SubWord(task.second, task.first) == task.second - task.first;
  }

  /** What is worth no more than a proper part of the whole is less than the whole. */
  lemma ProperPart(a: nat, b: nat, factor: nat, total: nat, whole: nat)
    requires factor * a <= total * b && b < factor && total <= whole && whole > 0
    ensures a < whole
  {
    assert total * b <= whole * b < whole * factor;
    FactorCancels(factor, a, whole);
  }

  // ----- main results

  /**
   Conservation for every well-formed range and every cluster, products that wrap included: the
   blocks sent are consecutive and non-empty, and with what is left they are exactly the range;
   and every worker is served exactly when no worker but the last has an empty share.
   */
  lemma {:induction false} DispatchKeepsRange(task: Task, speeds: seq<Word>, sum: Word)
    requires task.WellFormed() && |speeds| > 0 && sum == Sum(speeds)
    requires forall i | 0 <= i < |speeds| :: speeds[i] >= 1
    ensures sum > 0
    ensures var shares := Shares(speeds, sum, RangeSize(task));
            var plan := Dispatch(task, shares);
            && PlanKeepsRange(plan, task, shares)
            && (plan.completed <==> forall i | 0 <= i < |shares| :: shares[i] >= 1)
  {
    SumPositive(speeds);
    var total, front := RangeSize(task), speeds[..|speeds| - 1];
    var shares := Shares(speeds, sum, total);
    RangeSizeMod(task);
    SharesAtMost(front, shares, sum, total);
    SumOfLast(speeds);
    SumPositive(front);
    SumNonNegative(shares);
    ProperPart(Sum(shares), Sum(front), sum, total, task.Size());
    DispatchOfShares(task, shares);
  }

  lemma {:induction false} SharesAtMost(front: seq<Word>, shares: seq<Word>, sum: Word, total: Word)
    requires sum > 0 && |shares| == |front|
    requires forall i | 0 <= i < |front| :: shares[i] == Share(front[i], sum, total)
    ensures sum * Sum(shares) <= total * Sum(front)
  {
    forall i | 0 <= i < |front|
      ensures Scale(sum, shares)[i] <= Scale(total, front)[i]
    {
      ShareBounds(front[i], sum, total);
    }
    SumAtMost(Scale(sum, shares), Scale(total, front));
    SumScale(sum, shares);
    SumScale(total, front);
  }

  lemma {:induction false} SharesAtLeast(front: seq<Word>, shares: seq<Word>, sum: Word, total: Word)
    requires sum > 0 && |shares| == |front|
    requires forall i | 0 <= i < |front| :: Proportional(shares[i], front[i], total, sum)
    ensures total * Sum(front) <= sum * Sum(shares) + |front| * (sum - 1)
  {
    forall i | 0 <= i < |front|
      ensures Scale(total, front)[i] <= Scale(sum, shares)[i] + (sum - 1)
    {
      assert Proportional(shares[i], front[i], total, sum);
    }
    SumAtLeast(Scale(sum, shares), Scale(total, front), sum - 1);
    SumScale(sum, shares);
    SumScale(total, front);
  }

  /** The longest range for which no product of a speed and the length wraps. */
  const MAX_TOTAL: nat := 18446744
  const MAX_SPEED: nat := 1_000_000_000_000

  lemma NoProductWraps(speed: nat, size: nat)
    requires speed <= MAX_SPEED && size <= MAX_TOTAL
    ensures speed * size < WORD_RANGE
  {
    ProductMonotone(speed, MAX_SPEED, size, MAX_TOTAL);
  }

  /** Within that length every share is the proportion over the integers, rounded down. */
  lemma {:induction false} SharesProportional(task: Task, speeds: seq<Word>, sum: Word)
    requires task.WellFormed() && task.Size() <= MAX_TOTAL && |speeds| > 0 && sum > 0
    requires forall i | 0 <= i < |speeds| :: speeds[i] <= MAX_SPEED
    ensures RangeSize(task) == task.Size()
    ensures var shares := Shares(speeds, sum, RangeSize(task));
            forall i | 0 <= i < |shares| :: Proportional(shares[i], speeds[i], task.Size(), sum)
  {
    RangeSizeMod(task);
    forall i | 0 <= i < |speeds| - 1
      ensures Proportional(Share(speeds[i], sum, task.Size()), speeds[i], task.Size(), sum)
    {
      NoProductWraps(speeds[i], task.Size());
      ShareBounds(speeds[i], sum, task.Size());
    }
  }

  /** There the task is completed exactly when every worker but the last is owed an iteration. */
  lemma {:induction false} CompletedExactly(task: Task, speeds: seq<Word>, sum: Word)
    requires task.WellFormed() && task.Size() <= MAX_TOTAL && |speeds| > 0 && sum == Sum(speeds)
    requires forall i | 0 <= i < |speeds| :: 1 <= speeds[i] <= MAX_SPEED
    ensures sum > 0
    ensures Dispatch(task, Shares(speeds, sum, RangeSize(task))).completed
       <==> forall i | 0 <= i < |speeds| - 1 :: speeds[i] * task.Size() >= sum
  {
    DispatchKeepsRange(task, speeds, sum);
    SharesProportional(task, speeds, sum);
    var shares := Shares(speeds, sum, RangeSize(task));
    forall i | 0 <= i < |speeds| - 1
      ensures shares[i] >= 1 <==> speeds[i] * task.Size() >= sum
    {
      ProportionalPositive(shares[i], speeds[i], task.Size(), sum);
    }
  }

  /**
   And the last worker takes no less than its proportion, and exceeds it by less than one
   iteration for each other worker.
   */
  lemma {:induction false} LastShareFair(task: Task, speeds: seq<Word>, sum: Word)
    requires task.WellFormed() && task.Size() <= MAX_TOTAL && |speeds| > 0 && sum == Sum(speeds) > 0
    requires forall i | 0 <= i < |speeds| :: 1 <= speeds[i] <= MAX_SPEED
    requires Dispatch(task, Shares(speeds, sum, RangeSize(task))).completed
    ensures var n := |speeds|;
            var last := Dispatch(task, Shares(speeds, sum, RangeSize(task))).left.Size();
            && speeds[n - 1] * task.Size() <= sum * last
            && sum * last <= speeds[n - 1] * task.Size() + (n - 1) * (sum - 1)
  {
    DispatchKeepsRange(task, speeds, sum);
    TakenBounds(task, speeds, sum);
    var taken := Sum(Shares(speeds, sum, RangeSize(task)));
    Remainder(sum, task.Size(), Sum(speeds[..|speeds| - 1]), speeds[|speeds| - 1], taken, (|speeds| - 1) * (sum - 1));
  }

  /** What all workers but the last take, against what they are owed together. */
  lemma {:induction false} TakenBounds(task: Task, speeds: seq<Word>, sum: Word)
    requires task.WellFormed() && task.Size() <= MAX_TOTAL && |speeds| > 0 && sum == Sum(speeds) > 0
    requires forall i | 0 <= i < |speeds| :: 1 <= speeds[i] <= MAX_SPEED
    ensures var front, taken := Sum(speeds[..|speeds| - 1]), Sum(Shares(speeds, sum, RangeSize(task)));
            && sum == front + speeds[|speeds| - 1]
            && sum * taken <= task.Size() * front <= sum * taken + (|speeds| - 1) * (sum - 1)
  {
    SharesProportional(task, speeds, sum);
    SumOfLast(speeds);
    var shares, front := Shares(speeds, sum, RangeSize(task)), speeds[..|speeds| - 1];
    SharesAtMost(front, shares, sum, task.Size());
    SharesAtLeast(front, shares, sum, task.Size());
  }

  /** Shares, completion and the last block of a plan for speeds that add up to `sum`. */
  ghost predicate FairPlan(plan: Plan, task: Task, speeds: seq<Word>, sum: Word)
    requires |speeds| > 0
  {
    var last := |speeds| - 1;
    && (forall i | 0 <= i < |plan.sent| && i < last :: Proportional(plan.sent[i].Size(), speeds[i], task.Size(), sum))
    && (plan.completed <==> forall i | 0 <= i < last :: speeds[i] * task.Size() >= sum)
    && (plan.completed ==>
          && speeds[last] * task.Size() <= sum * plan.left.Size()
          && sum * plan.left.Size() <= speeds[last] * task.Size() + last * (sum - 1))
  }

  lemma {:induction false} DispatchIsFair(task: Task, speeds: seq<Word>, sum: Word)
    requires task.WellFormed() && task.Size() <= MAX_TOTAL && |speeds| > 0 && sum == Sum(speeds)
    requires forall i | 0 <= i < |speeds| :: 1 <= speeds[i] <= MAX_SPEED
    ensures sum > 0 && FairPlan(Dispatch(task, Shares(speeds, sum, RangeSize(task))), task, speeds, sum)
  {
    DispatchKeepsRange(task, speeds, sum);
    var plan := Dispatch(task, Shares(speeds, sum, RangeSize(task)));
    CompletedExactly(task, speeds, sum);
    SharesProportional(task, speeds, sum);
    if plan.completed {
      LastShareFair(task, speeds, sum);
    }
  }

  lemma LessIsFewer(few: nat, many: nat, less: nat, more: nat, size: nat, sum: nat)
    requires less <= more && sum * few <= less * size && more * size < sum * many + sum
    ensures few <= many
  {
    ProductMonotone(less, more, size, size);
    assert sum * (many + 1) == sum * many + sum;
    if many < few {
      ProductMonotone(sum, sum, many + 1, few);
    }
  }

  lemma FairOrder(p: nat, q: nat, speed: nat, speed': nat, size: nat, sum: nat)
    requires speed' <= speed && Proportional(q, speed', size, sum)
    requires Proportional(p, speed, size, sum) || (sum > 0 && speed * size <= sum * p)
    ensures q <= p
  {
    LessIsFewer(q, p, speed', speed, size, sum);
  }

  lemma {:induction false} TilesWellFormed(blocks: seq<Task>, start: int, end: int, i: nat)
    requires Tiles(blocks, start, end) && i < |blocks|
    ensures blocks[i].WellFormed()
  {
    if i > 0 {
      TilesWellFormed(blocks[1..], blocks[0].second + 1, end, i - 1);
    }
  }

  /** In a fair plan no less speed means no fewer iterations, unless the other one is the last. */
  lemma {:induction false} FairIsMonotone(plan: Plan, task: Task, speeds: seq<Word>, sum: Word, a: nat, b: nat)
    requires |speeds| > 0 && sum > 0 && FairPlan(plan, task, speeds, sum) && task.WellFormed()
    requires a < |plan.sent| && b < |plan.sent| <= |speeds| && b < |speeds| - 1 && speeds[a] >= speeds[b]
    requires plan.sent[a].WellFormed() && plan.sent[b].WellFormed()
    requires a == |speeds| - 1 ==> plan.completed && plan.sent[a] == plan.left
    ensures plan.sent[a].Size() >= plan.sent[b].Size()
  {
    FairOrder(plan.sent[a].Size(), plan.sent[b].Size(), speeds[a], speeds[b], task.Size(), sum);
  }

  /** So it is for the plan that is followed, where the last worker's share holds the remainder. */
  lemma {:induction false} DispatchIsMonotone(task: Task, speeds: seq<Word>, sum: Word, a: nat, b: nat)
    requires task.WellFormed() && task.Size() <= MAX_TOTAL && |speeds| > 0 && sum == Sum(speeds)
    requires forall i | 0 <= i < |speeds| :: 1 <= speeds[i] <= MAX_SPEED
    requires a < |speeds| && b < |speeds| - 1 && speeds[a] >= speeds[b]
    ensures sum > 0
    ensures var sent := Dispatch(task, Shares(speeds, sum, RangeSize(task))).sent;
            a < |sent| && b < |sent| ==> sent[a].Size() >= sent[b].Size()
  {
    DispatchKeepsRange(task, speeds, sum);
    DispatchIsFair(task, speeds, sum);
    var plan := Dispatch(task, Shares(speeds, sum, RangeSize(task)));
    if a < |plan.sent| && b < |plan.sent| {
      var end := if plan.completed then task.second + 1 else plan.left.first;
      TilesWellFormed(plan.sent, task.first, end, a);
      TilesWellFormed(plan.sent, task.first, end, b);
      FairIsMonotone(plan, task, speeds, sum, a, b);
    }
  }

  lemma Remainder(sum: int, total: int, front: int, last: int, taken: int, losses: int)
    requires sum == front + last && sum * taken <= total * front <= sum * taken + losses
    ensures last * total <= sum * (total - taken) <= last * total + losses
  {
    Distribute(sum, total, taken);
    Distribute(total, front, last);
  }
}
