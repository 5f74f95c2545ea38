/**
 A benchmark runs its iterations on one clock, adding that clock's totals to a copy taken at the
 start and resetting it after each iteration.
 */
module Benchmark {
  import opened ClockArray
  import opened ClockRuns
  import opened Sequences

  type Iteration = seq<Event>

  /** An iteration that ends what it starts, from the file and thread that started it. */
  ghost predicate Balanced(it: Iteration, unit: Unit) {
    Matched(it, unit) && FollowAll(NOTHING, it, unit).open == []
  }

  ghost predicate AllBalanced(its: seq<Iteration>, unit: Unit) {
    forall i | 0 <= i < |its| :: Balanced(its[i], unit)
  }

  function Concat(its: seq<Iteration>): seq<Event> {
    if |its| == 0 then [] else its[0] + Concat(its[1..])
  }

  /** The totals collected so far, the working clock, and whether resetting it failed. */
  datatype Progress = Progress(total: Timers, clock: ClockState, thrown: bool)

  function Bench(total: Timers, clock: ClockState, its: seq<Iteration>, unit: Unit): Progress
    decreases |its|
  {
    if |its| == 0 then Progress(total, clock, false)
    else
      var after := PlayAll(clock, its[0], unit);
      if after.toTak != [] then Progress(Merged(total, after.timers), after, true)
      else Bench(Merged(total, after.timers), FRESH, its[1..], unit)
  }

  // ----- what one iteration adds

  function Own(it: Iteration, unit: Unit): Timers {
    ChargeAll(map[], FollowAll(NOTHING, it, unit).closed, unit)
  }

  function OwnAll(its: seq<Iteration>, unit: Unit): Timers {
    if |its| == 0 then map[] else Merged(Own(its[0], unit), OwnAll(its[1..], unit))
  }

  lemma {:induction false} ChargeAllMerged(timers: Timers, closed: seq<Section>, unit: Unit)
    ensures ChargeAll(timers, closed, unit) == Merged(timers, ChargeAll(map[], closed, unit))
    decreases |closed|
  {
    if |closed| == 0 {
      MergedUnit(timers);
    } else {
      var rest, s := closed[..|closed| - 1], closed[|closed| - 1];
      var own, one := ChargeAll(map[], rest, unit), map[s.loc := TimeStore(Elapsed(s.end, s.resumed, unit), 1)];
      ChargeAllMerged(timers, rest, unit);
      ChargedIsMerged(ChargeAll(timers, rest, unit), s.loc, Elapsed(s.end, s.resumed, unit));
      ChargedIsMerged(own, s.loc, Elapsed(s.end, s.resumed, unit));
      MergedAssociative(timers, own, one);
    }
  }

  /** A balanced iteration adds its own totals and nothing else, whatever the clock held before. */
  lemma IterationAdds(s: ClockState, it: Iteration, unit: Unit)
    requires s.toTak == [] && Balanced(it, unit)
    ensures PlayAll(s, it, unit).toTak == []
    ensures PlayAll(s, it, unit).timers == Merged(s.timers, Own(it, unit))
  {
    RunMirrored(s, it, unit);
    ChargeAllMerged(s.timers, FollowAll(NOTHING, it, unit).closed, unit);
  }

  lemma {:induction false} PlayConcat(s: ClockState, a: seq<Event>, b: seq<Event>, unit: Unit)
    ensures PlayAll(s, a + b, unit) == PlayAll(PlayAll(s, a, unit), b, unit)
    decreases |b|
  {
    if |b| == 0 {
      assert a + b == a;
    } else {
      assert (a + b)[..|a + b| - 1] == a + b[..|b| - 1];
      PlayConcat(s, a, b[..|b| - 1], unit);
    }
  }

  /** Running all iterations on one clock that is never reset. */
  lemma {:induction false} NeverResetTotals(s: ClockState, its: seq<Iteration>, unit: Unit)
    requires s.toTak == [] && AllBalanced(its, unit)
    ensures PlayAll(s, Concat(its), unit).timers == Merged(s.timers, OwnAll(its, unit))
    decreases |its|
  {
    if |its| == 0 {
      MergedUnit(s.timers);
    } else {
      var s' := PlayAll(s, its[0], unit);
      IterationAdds(s, its[0], unit);
      PlayConcat(s, its[0], Concat(its[1..]), unit);
      NeverResetTotals(s', its[1..], unit);
      MergedAssociative(s.timers, Own(its[0], unit), OwnAll(its[1..], unit));
    }
  }

  lemma {:induction false} BenchFromFresh(total: Timers, its: seq<Iteration>, unit: Unit)
    requires AllBalanced(its, unit)
    ensures Bench(total, FRESH, its, unit) == Progress(Merged(total, OwnAll(its, unit)), FRESH, false)
    decreases |its|
  {
    if |its| == 0 {
      MergedUnit(total);
    } else {
      IterationAdds(FRESH, its[0], unit);
      MergedUnit(Own(its[0], unit));
      BenchFromFresh(Merged(total, Own(its[0], unit)), its[1..], unit);
      MergedAssociative(total, Own(its[0], unit), OwnAll(its[1..], unit));
    }
  }

  /** The working clock still holds what the copy was made of, so that is added a second time. */
  lemma BenchTotals(s: ClockState, its: seq<Iteration>, unit: Unit)
    requires s.toTak == [] && AllBalanced(its, unit) && |its| > 0
    ensures !Bench(s.timers, s, its, unit).thrown
    ensures Bench(s.timers, s, its, unit).total == Merged(s.timers, PlayAll(s, Concat(its), unit).timers)
  {
    IterationAdds(s, its[0], unit);
    NeverResetTotals(s, its, unit);
    var first := Merged(s.timers, Own(its[0], unit));
    BenchFromFresh(Merged(s.timers, first), its[1..], unit);
    MergedAssociative(s.timers, first, OwnAll(its[1..], unit));
    MergedAssociative(s.timers, Own(its[0], unit), OwnAll(its[1..], unit));
  }

  ghost predicate CountsPositive(timers: Timers) {
    forall loc <- timers :: timers[loc].count > 0
  }

  lemma {:induction false} ReachableCountsPositive(s: ClockState, events: seq<Event>, unit: Unit)
    requires CountsPositive(s.timers)
    ensures CountsPositive(PlayAll(s, events, unit).timers)
    decreases |events|
  {
    if |events| > 0 {
      ReachableCountsPositive(s, events[..|events| - 1], unit);
    }
  }

  /**
   Collecting and resetting leaves the totals of one clock never reset exactly when the handler's
   clock was empty to begin with; a second benchmark on the same handler counts the first twice.
   */
  lemma BenchFaithfulIffFresh(s: ClockState, its: seq<Iteration>, unit: Unit)
    requires s.toTak == [] && AllBalanced(its, unit) && |its| > 0 && CountsPositive(s.timers)
    ensures Bench(s.timers, s, its, unit).total == PlayAll(s, Concat(its), unit).timers <==> s.timers == map[]
  {
    BenchTotals(s, its, unit);
    NeverResetTotals(s, its, unit);
    var sequential := PlayAll(s, Concat(its), unit).timers;
    if s.timers == map[] {
      MergedUnit(sequential);
    } else {
      var loc :| loc in s.timers;
      assert Merged(s.timers, sequential)[loc].count == s.timers[loc].count + sequential[loc].count;
    }
  }

  // ----- the order of the iterations does not matter

  lemma {:induction false} OwnAllPullOut(its: seq<Iteration>, k: nat, unit: Unit)
    requires k < |its|
    ensures OwnAll(its, unit) == Merged(Own(its[k], unit), OwnAll(Without(its, k), unit))
    decreases k
  {
    if k == 0 {
      assert Without(its, k) == its[1..];
    } else {
      OwnAllPullOut(its[1..], k - 1, unit);
      assert Without(its, k)[0] == its[0] && Without(its, k)[1..] == Without(its[1..], k - 1);
      OwnSwapped(Own(its[0], unit), Own(its[k], unit), OwnAll(Without(its[1..], k - 1), unit));
    }
  }

  lemma OwnSwapped(a: Timers, b: Timers, c: Timers)
    ensures Merged(a, Merged(b, c)) == Merged(b, Merged(a, c))
  {
    MergedAssociative(a, b, c);
    MergedCommutative(a, b);
    MergedAssociative(b, a, c);
  }

  lemma {:induction false} OwnAllAnyOrder(its: seq<Iteration>, other: seq<Iteration>, unit: Unit)
    requires multiset(its) == multiset(other)
    ensures OwnAll(its, unit) == OwnAll(other, unit)
    decreases |its|
  {
    if |its| == 0 {
      assert |multiset(other)| == 0;
    } else {
      assert its[0] in multiset(other);
      var k :| 0 <= k < |other| && other[k] == its[0];
      DropSame(its, 0, other, k);
      assert Without(its, 0) == its[1..];
      OwnAllPullOut(other, k, unit);
      OwnAllAnyOrder(its[1..], Without(other, k), unit);
    }
  }

  // ----- the handler

  /** One benchmark iteration: some calls on the clock. */
  method RunIteration(clock: ClockArray, it: Iteration)
    modifies clock
    ensures clock.State() == PlayAll(old(clock.State()), it, clock.unit)
  {
    assert it[..0] == [];
    for i := 0 to |it|
      invariant clock.State() == PlayAll(old(clock.State()), it[..i], clock.unit)
    {
      assert it[..i + 1][..i] == it[..i];
      match it[i]
      case Tik(loc, now) => clock.Tik(loc, now);
      case Tak(loc, now) => var _ := clock.Tak(loc, now);
    }
    assert it[..|it|] == it;
  }

  class BenchmarkHandler {
    var clock: ClockArray

    constructor (unit: Unit)
      ensures fresh(clock) && clock.State() == FRESH && clock.unit == unit
    {
      clock := new ClockArray(unit);
    }

    /** An iteration that leaves a section open makes the reset fail and ends the benchmark. */
    method RunBenchmark(its: seq<Iteration>) returns (thrown: bool)
      modifies this, clock
      ensures var p := Bench(old(clock.timers), old(clock.State()), its, old(clock.unit));
              && thrown == p.thrown
              && (if thrown then clock == old(clock) && clock.State() == p.clock
                  else fresh(clock) && clock.State() == old(clock.State()).(timers := p.total))
    {
      var total := new ClockArray.Copy(clock);
      ghost var p := Bench(clock.timers, clock.State(), its, clock.unit);
      for i := 0 to |its|
        invariant clock == old(clock) && fresh(total) && total != clock
        invariant total.starts == old(clock.starts) && total.toTak == old(clock.toTak)
        invariant p == Bench(total.timers, clock.State(), its[i..], clock.unit)
      {
        assert its[i..][0] == its[i] && its[i..][1..] == its[i + 1..];
        RunIteration(clock, its[i]);
        total.Advance(clock);
        var failed := clock.Reset();
        if failed {
          return true;
        }
      }
      clock := total;
      return false;
    }
  }
}
