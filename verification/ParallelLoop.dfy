/**
 A worker's parallel loop: the iterations of one block are spread over threads, each thread
 computes a mesh for its next index on its own, and adds it to the shared result inside a
 critical section. Computing and adding are separate steps, so threads interleave freely.
 */
module ParallelLoop {
  import opened Tasks
  import opened Scheduler
  import opened Sequences
  import Linear
  import Meshes

  type Mesh = seq<real>

  /** The loop variable is a signed 32-bit integer that must be able to pass the last index. */
  const LOOP_LIMIT: nat := 0x7FFF_FFFF

  /** What a thread holds between computing a mesh and adding it. */
  datatype Slot = Idle | Holding(index: int, mesh: Mesh)

  datatype Contribution = Contribution(index: int, mesh: Mesh)

  datatype Loop = Loop(todo: seq<seq<int>>, slots: seq<Slot>, res: Mesh, added: seq<Contribution>)
  {
    ghost predicate Valid() {
      && |todo| == |slots|
      && (forall t | 0 <= t < |slots| :: slots[t].Holding? ==> |slots[t].mesh| == |res|)
      && (forall a <- added :: |a.mesh| == |res|)
    }

    ghost predicate Finished() {
      forall t | 0 <= t < |slots| && t < |todo| :: todo[t] == [] && slots[t].Idle?
    }
  }

  datatype Event = Compute(thread: nat, mesh: Mesh) | Accumulate(thread: nat)

  ghost predicate Enabled(l: Loop, e: Event)
    requires l.Valid()
  {
    && e.thread < |l.slots|
    && match e
       case Compute(t, mesh) => l.slots[t].Idle? && l.todo[t] != [] && |mesh| == |l.res|
       case Accumulate(t) => l.slots[t].Holding?
  }

  ghost function Step(l: Loop, e: Event): (l': Loop)
    requires l.Valid() && Enabled(l, e)
    ensures l'.Valid()
  {
    match e
    case Compute(t, mesh) =>
      l.(todo := l.todo[t := l.todo[t][1..]], slots := l.slots[t := Holding(l.todo[t][0], mesh)])
    case Accumulate(t) =>
      Loop(l.todo, l.slots[t := Idle], Linear.Plus(l.res, l.slots[t].mesh),
           l.added + [Contribution(l.slots[t].index, l.slots[t].mesh)])
  }

  /** `l'` is reached from `l` by the given interleaving of thread steps. */
  ghost predicate Reaches(l: Loop, schedule: seq<Event>, l': Loop)
    requires l.Valid()
    decreases |schedule|
  {
    if |schedule| == 0 then l == l'
    else Enabled(l, schedule[0]) && Reaches(Step(l, schedule[0]), schedule[1..], l')
  }

  // ----- nothing is lost or added twice

  ghost function Count(xs: seq<int>, x: int): nat {
    if |xs| == 0 then 0 else (if xs[0] == x then 1 else 0) + Count(xs[1..], x)
  }

  lemma {:induction false} CountAppend(xs: seq<int>, ys: seq<int>, x: int)
    ensures Count(xs + ys, x) == Count(xs, x) + Count(ys, x)
  {
    if |xs| == 0 {
      assert xs + ys == ys;
    } else {
      assert (xs + ys)[1..] == xs[1..] + ys;
      CountAppend(xs[1..], ys, x);
    }
  }

  ghost function Held(s: Slot, x: int): nat {
    if s.Holding? && s.index == x then 1 else 0
  }

  /** How often index `x` is still waiting or held, over all threads. */
  ghost function Outstanding(todo: seq<seq<int>>, slots: seq<Slot>, x: int): nat
    requires |todo| == |slots|
  {
    if |todo| == 0 then 0
    else Count(todo[0], x) + Held(slots[0], x) + Outstanding(todo[1..], slots[1..], x)
  }

  ghost function Indices(added: seq<Contribution>): seq<int> {
    seq(|added|, i requires 0 <= i < |added| => added[i].index)
  }

  /** How often index `x` occurs in the loop, wherever it currently is. */
  ghost function Account(l: Loop, x: int): nat
    requires l.Valid()
  {
    Outstanding(l.todo, l.slots, x) + Count(Indices(l.added), x)
  }

  lemma {:induction false} OutstandingUpdate(
      todo: seq<seq<int>>, slots: seq<Slot>, t: nat, queue: seq<int>, slot: Slot, x: int)
    requires |todo| == |slots| && t < |todo|
    ensures Outstanding(todo[t := queue], slots[t := slot], x) + Count(todo[t], x) + Held(slots[t], x)
            == Outstanding(todo, slots, x) + Count(queue, x) + Held(slot, x)
    decreases t
  {
    if t == 0 {
      assert todo[0 := queue][1..] == todo[1..] && slots[0 := slot][1..] == slots[1..];
    } else {
      OutstandingUpdate(todo[1..], slots[1..], t - 1, queue, slot, x);
      assert todo[t := queue][1..] == todo[1..][t - 1 := queue];
      assert slots[t := slot][1..] == slots[1..][t - 1 := slot];
    }
  }

  lemma StepKeepsAccount(l: Loop, e: Event, x: int)
    requires l.Valid() && Enabled(l, e)
    ensures Account(Step(l, e), x) == Account(l, x)
  {
    var t, l' := e.thread, Step(l, e);
    OutstandingUpdate(l.todo, l.slots, t, l'.todo[t], l'.slots[t], x);
    if e.Accumulate? {
      assert l.todo[t := l'.todo[t]] == l.todo;
      assert Indices(l'.added) == Indices(l.added) + [l.slots[t].index];
      CountAppend(Indices(l.added), [l.slots[t].index], x);
    }
  }

  lemma {:induction false} FinishedHasNothingOutstanding(todo: seq<seq<int>>, slots: seq<Slot>, x: int)
    requires |todo| == |slots| && forall t | 0 <= t < |slots| :: todo[t] == [] && slots[t].Idle?
    ensures Outstanding(todo, slots, x) == 0
  {
    if |todo| > 0 {
      FinishedHasNothingOutstanding(todo[1..], slots[1..], x);
    }
  }

  /** The result after adding the contributions one by one. */
  ghost function AddAll(start: Mesh, added: seq<Contribution>): (m: Mesh)
    requires forall a <- added :: |a.mesh| == |start|
    ensures |m| == |start|
    decreases |added|
  {
    if |added| == 0 then start
    else Linear.Plus(AddAll(start, added[..|added| - 1]), added[|added| - 1].mesh)
  }

  lemma {:induction false} ReachesInvariant(start: Mesh, l: Loop, schedule: seq<Event>, l': Loop, x: int)
    requires l.Valid() && Reaches(l, schedule, l')
    requires |start| == |l.res| && l.res == AddAll(start, l.added)
    ensures l'.Valid() && |l'.res| == |start| && Account(l', x) == Account(l, x)
    ensures l'.res == AddAll(start, l'.added)
    decreases |schedule|
  {
    if |schedule| > 0 {
      var next := Step(l, schedule[0]);
      StepKeepsAccount(l, schedule[0], x);
      if schedule[0].Accumulate? {
        assert next.added[..|l.added|] == l.added;
      }
      ReachesInvariant(start, next, schedule[1..], l', x);
    }
  }

  /** Membership in an inclusive block, as a number of occurrences. */
  ghost function InBlock(first: int, second: int, x: int): nat {
    if first <= x <= second then 1 else 0
  }

  /**
   A loop about to run `block`: any distribution of its indices over any number of threads, each
   index with one thread. The loop variable must be able to pass the last index.
   */
  ghost predicate Starts(l: Loop, block: Task, start: Mesh) {
    && block.second < LOOP_LIMIT
    && |l.todo| == |l.slots|
    && (forall t | 0 <= t < |l.slots| :: l.slots[t].Idle?)
    && l.added == [] && l.res == start
    && (forall x :: Outstanding(l.todo, l.slots, x) == InBlock(block.first, block.second, x))
  }

  /**
   In every interleaving, a finished loop has added each index of its block exactly once and no
   other index, and the shared result is its starting value plus exactly those meshes.
   */
  lemma EveryIndexAddedOnce(block: Task, start: Mesh, l: Loop, schedule: seq<Event>, l': Loop, x: int)
    requires Starts(l, block, start) && l.Valid()
    requires Reaches(l, schedule, l') && l'.Finished()
    ensures Count(Indices(l'.added), x) == InBlock(block.first, block.second, x)
    ensures l'.Valid() && |l'.res| == |start| && l'.res == AddAll(start, l'.added)
  {
    ReachesInvariant(start, l, schedule, l', x);
    FinishedHasNothingOutstanding(l'.todo, l'.slots, x);
  }

  // ----- the result does not depend on the schedule

  lemma AddMeshSwap(a: Mesh, b: Mesh, c: Mesh)
    requires |a| == |b| == |c|
    ensures Linear.Plus(Linear.Plus(a, b), c) == Linear.Plus(Linear.Plus(a, c), b)
  {
  }

  lemma {:induction false} AddAllPullOut(start: Mesh, added: seq<Contribution>, k: nat)
    requires forall a <- added :: |a.mesh| == |start|
    requires k < |added|
    ensures forall a <- Without(added, k) :: |a.mesh| == |start|
    ensures AddAll(start, added) == Linear.Plus(AddAll(start, Without(added, k)), added[k].mesh)
    decreases |added|
  {
    var last := |added| - 1;
    if k == last {
      assert Without(added, k) == added[..last];
    } else {
      AddAllPullOut(start, added[..last], k);
      var rest := Without(added, k);
      assert rest[..|rest| - 1] == Without(added[..last], k);
      AddMeshSwap(AddAll(start, Without(added[..last], k)), added[k].mesh, added[last].mesh);
    }
  }

  /** Two orders of the same contributions give the same mesh. */
  lemma {:induction false} AddAllAnyOrder(start: Mesh, some: seq<Contribution>, other: seq<Contribution>)
    requires multiset(some) == multiset(other)
    requires forall a <- some :: |a.mesh| == |start|
    requires forall a <- other :: |a.mesh| == |start|
    ensures AddAll(start, some) == AddAll(start, other)
    decreases |some|
  {
    if |some| == 0 {
      assert |multiset(other)| == 0;
    } else {
      var last := |some| - 1;
      assert some[last] in multiset(other);
      var k :| 0 <= k < |other| && other[k] == some[last];
      DropSame(some, last, other, k);
      assert Without(some, last) == some[..last];
      AddAllPullOut(start, other, k);
      AddAllAnyOrder(start, some[..last], Without(other, k));
    }
  }

  /** Whatever the interleavings, two finished runs that added the same meshes agree. */
  lemma ScheduleInvisible(
      start: Mesh, l: Loop, schedule: seq<Event>, l': Loop, other: seq<Event>, l'': Loop, block: Task)
    requires Starts(l, block, start) && l.Valid()
    requires Reaches(l, schedule, l') && Reaches(l, other, l'')
    requires l'.Finished() && l''.Finished()
    requires multiset(l'.added) == multiset(l''.added)
    ensures l'.res == l''.res
  {
    EveryIndexAddedOnce(block, start, l, schedule, l', 0);
    EveryIndexAddedOnce(block, start, l, other, l'', 0);
    AddAllAnyOrder(start, l'.added, l''.added);
  }

  /** Every mesh added is the one its index stands for. */
  ghost predicate Computes(added: seq<Contribution>, f: int -> Mesh) {
    forall k | 0 <= k < |added| :: added[k].mesh == f(added[k].index)
  }

  lemma {:induction false} CountOfContribution(added: seq<Contribution>, f: int -> Mesh, c: Contribution)
    requires Computes(added, f)
    ensures multiset(added)[c] == if c.mesh == f(c.index) then Count(Indices(added), c.index) else 0
    decreases |added|
  {
    if |added| > 0 {
      var rest := added[1..];
      assert added == [added[0]] + rest;
      assert Indices(added)[1..] == Indices(rest);
      assert Computes(rest, f) by {
        assert forall k | 0 <= k < |rest| :: rest[k] == added[k + 1];
      }
      CountOfContribution(rest, f, c);
    }
  }

  /** Where the mesh is a function of the index, no interleaving can be told from another. */
  lemma DeterministicSchedulesAgree(
      start: Mesh, l: Loop, schedule: seq<Event>, l': Loop, other: seq<Event>, l'': Loop, block: Task, f: int -> Mesh)
    requires Starts(l, block, start) && l.Valid()
    requires Reaches(l, schedule, l') && Reaches(l, other, l'')
    requires l'.Finished() && l''.Finished()
    requires Computes(l'.added, f) && Computes(l''.added, f)
    ensures l'.res == l''.res
  {
    forall c: Contribution
      ensures multiset(l'.added)[c] == multiset(l''.added)[c]
    {
      EveryIndexAddedOnce(block, start, l, schedule, l', c.index);
      EveryIndexAddedOnce(block, start, l, other, l'', c.index);
      CountOfContribution(l'.added, f, c);
      CountOfContribution(l''.added, f, c);
    }
    ScheduleInvisible(start, l, schedule, l', other, l'', block);
  }

  // ----- what the starting value does to the result

  /** The starting value stays in the result as one more summand. */
  lemma {:induction false} StartIsAdded(start: Mesh, added: seq<Contribution>)
    requires forall a <- added :: |a.mesh| == |start|
    ensures AddAll(start, added) == Linear.Plus(start, AddAll(Linear.Zeros(|start|), added))
    decreases |added|
  {
    if |added| > 0 {
      StartIsAdded(start, added[..|added| - 1]);
      Linear.PlusAssociative(start, AddAll(Linear.Zeros(|start|), added[..|added| - 1]), added[|added| - 1].mesh);
    }
  }

  /** The result is the sum of the meshes exactly when the starting value is zero. */
  lemma {:induction false} SumIffStartZero(start: Mesh, added: seq<Contribution>)
    requires forall a <- added :: |a.mesh| == |start|
    ensures AddAll(start, added) == AddAll(Linear.Zeros(|start|), added) <==> start == Linear.Zeros(|start|)
  {
    StartIsAdded(start, added);
    Linear.PlusKeepsIffZero(start, AddAll(Linear.Zeros(|start|), added));
  }

  /** The mesh the callback constructs from the defaults; its first array is where the sum starts. */
  function CallbackMesh(values: Mesh): Meshes.Mesh {
    Meshes.Constructed(Meshes.DEFAULT_DIMS, Meshes.DEFAULT_LIMITS, values)
  }

  /** That array is the azimuth of every grid point, which is not zero. */
  lemma CallbackStartNotZero(values: Mesh)
    ensures var start := CallbackMesh(values).phi; |start| == 175 && start != Linear.Zeros(|start|)
  {
    var dims, limits := Meshes.DEFAULT_DIMS, Meshes.DEFAULT_LIMITS;
    Meshes.ConstructedAt(dims, limits, values, 1);
    Meshes.PointEnds(limits.phiLow, limits.phiHigh, dims.phi);
    Meshes.PointsDiffer(limits.phiLow, limits.phiHigh, dims.phi, 1, 0);
  }

  /**
   So every block a worker runs, in every interleaving and on any number of threads, ends with the
   sum of its meshes and the azimuths on top, never with the sum itself.
   */
  lemma BlockResultOffByAzimuths(block: Task, values: Mesh, l: Loop, schedule: seq<Event>, l': Loop)
    requires Starts(l, block, CallbackMesh(values).phi) && l.Valid()
    requires Reaches(l, schedule, l') && l'.Finished()
    ensures forall x :: Count(Indices(l'.added), x) == InBlock(block.first, block.second, x)
    ensures l'.Valid() && |l'.res| == |CallbackMesh(values).phi|
    ensures var sum := AddAll(Linear.Zeros(|l'.res|), l'.added);
            l'.res == Linear.Plus(CallbackMesh(values).phi, sum) && l'.res != sum
  {
    forall x
      ensures Count(Indices(l'.added), x) == InBlock(block.first, block.second, x)
    {
      EveryIndexAddedOnce(block, CallbackMesh(values).phi, l, schedule, l', x);
    }
    EveryIndexAddedOnce(block, CallbackMesh(values).phi, l, schedule, l', 0);
    StartIsAdded(CallbackMesh(values).phi, l'.added);
    SumIffStartZero(CallbackMesh(values).phi, l'.added);
    CallbackStartNotZero(values);
  }

  // ----- the whole cluster

  /** How often index `x` is added by the workers of all blocks together. */
  ghost function TimesAdded(runs: seq<Loop>, x: int): nat {
    if |runs| == 0 then 0 else Count(Indices(runs[0].added), x) + TimesAdded(runs[1..], x)
  }

  /** One worker's complete run of the block it was sent. */
  ghost predicate CompleteRun(block: Task, run: Loop) {
    exists start, l: Loop, schedule ::
      Starts(l, block, start) && l.Valid() && Reaches(l, schedule, run) && run.Finished()
  }

  ghost predicate AllComplete(blocks: seq<Task>, runs: seq<Loop>) {
    |runs| == |blocks| && forall i | 0 <= i < |runs| :: CompleteRun(blocks[i], runs[i])
  }

  lemma {:induction false} TilesCoverOnce(blocks: seq<Task>, runs: seq<Loop>, from: int, to: int, x: int)
    requires Tiles(blocks, from, to) && AllComplete(blocks, runs)
    ensures from <= to
    ensures TimesAdded(runs, x) == InBlock(from, to - 1, x)
    decreases |blocks|
  {
    if |blocks| > 0 {
      assert CompleteRun(blocks[0], runs[0]);
      var start, l: Loop, schedule :|
        Starts(l, blocks[0], start) && l.Valid() && Reaches(l, schedule, runs[0]) && runs[0].Finished();
      EveryIndexAddedOnce(blocks[0], start, l, schedule, runs[0], x);
      TilesCoverOnce(blocks[1..], runs[1..], blocks[0].second + 1, to, x);
    }
  }

  /**
   When blocks that tile a range have all been run, each iteration of the range has been added
   exactly once and nothing else has, whatever each worker's threads do.
   */
  lemma TiledRangeAddedOnce(blocks: seq<Task>, runs: seq<Loop>, first: int, second: int, x: int)
    requires Tiles(blocks, first, second + 1) && AllComplete(blocks, runs)
    ensures TimesAdded(runs, x) == if first <= x <= second then 1 else 0
  {
    TilesCoverOnce(blocks, runs, first, second + 1, x);
  }
}
