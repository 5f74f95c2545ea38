/**
 The main node: the guarded connect and disconnect commands, publishing as an append to a log,
 and the loop that sends a task to the active workers.
 */
module MainNode {
  import opened MachineWords
  import opened Outcomes
  import opened NodeSpeeds
  import opened WorkerRegistry
  import opened Tasks
  import opened Scheduler
  import ParallelLoop

  /** One published message: the worker's queue and the task it carries. */
  datatype Message = Message(host: string, task: Task)

  /** The HTTP status returned, or the exception that leaves the method. */
  datatype Response = Status(code: nat) | Thrown(error: OutOfRange)

  /** `order` lists every active host exactly once: the unspecified order of the hash map. */
  ghost predicate Enumerates(order: seq<string>, nodes: Nodes) {
    && (forall i, j | 0 <= i < j < |order| :: order[i] != order[j])
    && (forall host <- order :: host in nodes)
    && |order| == |nodes|
  }

  function SpeedsInOrder(order: seq<string>, nodes: Nodes, k: nat): (speeds: seq<Word>)
    requires forall host <- order :: host in nodes
  {
    seq(|order|, i requires 0 <= i < |order| => assert order[i] in order; nodes[order[i]].SpeedAt(k))
  }

  function Addressed(order: seq<string>, blocks: seq<Task>): (messages: seq<Message>)
    requires |blocks| <= |order|
  {
    seq(|blocks|, i requires 0 <= i < |blocks| => Message(order[i], blocks[i]))
  }

  /** What reaches the log of the blocks: all of them, or nothing with the publisher down. */
  function Delivered(up: bool, order: seq<string>, blocks: seq<Task>): seq<Message>
    requires |blocks| <= |order|
  {
    if up then Addressed(order, blocks) else []
  }

  /** One message for each block, to the worker at its place; none with the publisher down. */
  lemma DeliveredInOrder(log: seq<Message>, up: bool, order: seq<string>, blocks: seq<Task>)
    requires |blocks| <= |order|
    ensures var after := log + Delivered(up, order, blocks);
            && |after| == |log| + (if up then |blocks| else 0) && after[..|log|] == log
            && (up ==> forall i | 0 <= i < |blocks| :: after[|log| + i] == Message(order[i], blocks[i]))
  {
  }

  lemma DeliveredNext(log: seq<Message>, up: bool, order: seq<string>, sent: seq<Task>, block: Task)
    requires |sent| < |order|
    ensures log + Delivered(up, order, sent) + (if up then [Message(order[|sent|], block)] else [])
            == log + Delivered(up, order, sent + [block])
  {
    assert Addressed(order, sent + [block]) == Addressed(order, sent) + [Message(order[|sent|], block)];
  }

  // ----- commands as steps on the registry

  datatype Command =
    | ConnectWorker(host: string, queueReady: bool, reply: Reply)
    | DisconnectWorker(host: string, reply: Reply)

  /** What one command does when the publisher is up, whatever the remote side answers. */
  ghost function Step(r: Registry, c: Command): (r': Registry)
    requires Inv(r) && c.reply.Usable()
    ensures Inv(r')
  {
    AddedKeepsInv(r, c.host);
    if c.DisconnectWorker? then
      DisconnectedKeepsInv(r, c.host, c.reply);
      Disconnected(r, c.host, c.reply)
    else if c.host in r.active then r
    else if !c.queueReady then Added(r, c.host)
    else
      ConnectedKeepsInv(Added(r, c.host), c.host, c.reply);
      Connected(Added(r, c.host), c.host, c.reply)
  }

  ghost predicate Usable(commands: seq<Command>) {
    forall i | 0 <= i < |commands| :: commands[i].reply.Usable()
  }

  /**
   The state after any run of commands, with whatever remote failures. In every such state no
   host is both active and inactive, every active node has a full vector of positive speeds, and
   the cached sum is the sum over the active nodes.
   */
  ghost function Run(commands: seq<Command>): (r: Registry)
    requires Usable(commands)
    ensures Inv(r)
    decreases |commands|
  {
    if |commands| == 0 then EMPTY
    else Step(Run(commands[..|commands| - 1]), commands[|commands| - 1])
  }

  // ----- who is active after a run

  predicate ConnectsTo(c: Command, host: string) {
    c.ConnectWorker? && c.host == host && c.queueReady && c.reply.Accepted()
  }

  predicate DisconnectsFrom(c: Command, host: string) {
    c.DisconnectWorker? && c.host == host && c.reply.Accepted()
  }

  /** What one command does to one host. */
  lemma {:induction false} StepMovesHost(r: Registry, c: Command, host: string)
    requires Inv(r) && c.reply.Usable()
    ensures var r' := Step(r, c);
            && (host in r'.active <==> ConnectsTo(c, host) || (host in r.active && !DisconnectsFrom(c, host)))
            && (host in r'.active || host in r'.inactive
                <==> host in r.active || host in r.inactive || (c.ConnectWorker? && c.host == host))
            && (c.host != host && host in r.active ==> r'.active[host] == r.active[host])
            && (c.host != host && host in r.inactive ==> host in r'.inactive && r'.inactive[host] == r.inactive[host])
  {
    AddedTouchesNothing(r, c.host);
    AddedKeepsInv(r, c.host);
    if c.DisconnectWorker? {
      DisconnectedMovesHost(r, c.host, c.reply);
    } else if c.host !in r.active && c.queueReady {
      ConnectedTouchesHost(Added(r, c.host), c.host, c.reply);
    }
  }

  predicate StaysConnected(commands: seq<Command>, i: nat, host: string) {
    forall j | i < j < |commands| :: !DisconnectsFrom(commands[j], host)
  }

  /** Some command connected the host and none behind it disconnected it. */
  ghost predicate ConnectedLast(commands: seq<Command>, host: string) {
    exists i: nat | i < |commands| :: ConnectsTo(commands[i], host) && StaysConnected(commands, i, host)
  }

  ghost predicate AskedFor(commands: seq<Command>, host: string) {
    exists i | 0 <= i < |commands| :: commands[i].ConnectWorker? && commands[i].host == host
  }

  lemma ConnectedLastStep(commands: seq<Command>, host: string)
    requires |commands| > 0
    ensures var before, c := commands[..|commands| - 1], commands[|commands| - 1];
            ConnectedLast(commands, host)
            <==> ConnectsTo(c, host) || (ConnectedLast(before, host) && !DisconnectsFrom(c, host))
  {
    var before, c := commands[..|commands| - 1], commands[|commands| - 1];
    if ConnectedLast(commands, host) && !ConnectsTo(c, host) {
      var i: nat :| i < |commands| && ConnectsTo(commands[i], host) && StaysConnected(commands, i, host);
      assert ConnectsTo(before[i], host) && StaysConnected(before, i, host);
    }
    if ConnectsTo(c, host) {
      assert StaysConnected(commands, |commands| - 1, host);
    } else if ConnectedLast(before, host) && !DisconnectsFrom(c, host) {
      var i: nat :| i < |before| && ConnectsTo(before[i], host) && StaysConnected(before, i, host);
      forall j | i < j < |commands|
        ensures !DisconnectsFrom(commands[j], host)
      {
        assert j < |before| ==> commands[j] == before[j];
      }
      assert ConnectsTo(commands[i], host) && StaysConnected(commands, i, host);
    }
  }

  lemma AskedForStep(commands: seq<Command>, host: string)
    requires |commands| > 0
    ensures var before, c := commands[..|commands| - 1], commands[|commands| - 1];
            AskedFor(commands, host) <==> AskedFor(before, host) || (c.ConnectWorker? && c.host == host)
  {
    var before := commands[..|commands| - 1];
    if AskedFor(before, host) {
      var i :| 0 <= i < |before| && before[i].ConnectWorker? && before[i].host == host;
      assert commands[i] == before[i];
    }
    assert forall i | 0 <= i < |before| :: before[i] == commands[i];
  }

  /**
   After any run of commands a worker is active exactly if it was accepted once and not let go
   since, and it is known exactly if it was ever asked for.
   */
  lemma {:induction false} ActiveIffConnectedLast(commands: seq<Command>, host: string)
    requires Usable(commands)
    ensures host in Run(commands).active <==> ConnectedLast(commands, host)
    ensures host in Run(commands).active || host in Run(commands).inactive <==> AskedFor(commands, host)
    decreases |commands|
  {
    if |commands| > 0 {
      var last := |commands| - 1;
      ActiveIffConnectedLast(commands[..last], host);
      StepMovesHost(Run(commands[..last]), commands[last], host);
      ConnectedLastStep(commands, host);
      AskedForStep(commands, host);
    }
  }

  // ----- composing the registry with the scheduler

  lemma {:induction false} SpeedsInOrderSum(order: seq<string>, nodes: Nodes, k: nat)
    requires Enumerates(order, nodes)
    ensures Sum(SpeedsInOrder(order, nodes, k)) == SpeedSum(nodes, k)
    decreases |order|
  {
    if |order| == 0 {
    } else {
      var rest := nodes - {order[0]};
      assert order[0] in order;
      assert rest.Keys == nodes.Keys - {order[0]};
      forall host <- order[1..]
        ensures host in rest
      {
        var i :| 0 <= i < |order| - 1 && order[1..][i] == host;
        assert host == order[i + 1];
      }
      SpeedsInOrderSum(order[1..], rest, k);
      SpeedSumRemove(nodes, order[0], k);
      assert SpeedsInOrder(order, nodes, k)[1..] == SpeedsInOrder(order[1..], rest, k);
    }
  }

  /**
   The scheduler's assumption holds in every state the registry can be in: whatever order the
   hash map is visited in, the cached sum is the sum of the speeds visited, and these are between
   1 and the largest speed.
   */
  lemma CachedSumServesScheduler(r: Registry, order: seq<string>, k: nat)
    requires Inv(r) && Enumerates(order, r.active) && k < COLUMNS
    requires |r.active| <= MAX_ACTIVE
    ensures var speeds := SpeedsInOrder(order, r.active, k);
            && |speeds| == |order|
            && r.normalized[k] == Sum(speeds)
            && (|order| > 0 ==> r.normalized[k] > 0)
            && forall i | 0 <= i < |speeds| :: 1 <= speeds[i] <= MAX_SPEED
  {
    SpeedsInOrderSum(order, r.active, k);
    CachedSumExact(r, k);
    assert |order| > 0 ==> order[0] in r.active;
    forall i | 0 <= i < |order|
      ensures 1 <= SpeedsInOrder(order, r.active, k)[i] <= MAX_SPEED
    {
      assert order[i] in r.active;
    }
  }

  /** The plan the main node follows for a task, from the cached sum. */
  ghost function PlanFor(r: Registry, order: seq<string>, task: Task): Plan
    requires Inv(r) && Enumerates(order, r.active) && |order| > 0
    requires |order| > 1 ==> NIndex(task.n) < COLUMNS && r.normalized[NIndex(task.n)] > 0
  {
    if |order| == 1 then Plan([task], task, true)
    else
      var k := NIndex(task.n);
      Dispatch(task, Shares(SpeedsInOrder(order, r.active, k), r.normalized[k], RangeSize(task)))
  }

  /**
   The blocks sent and the range that is left are consecutive, non-empty and make up the range of
   the task; a completed plan has one block for each worker, any other fewer.
   */
  ghost predicate CoversRange(plan: Plan, order: seq<string>, task: Task) {
    && plan.left.second == task.second && plan.left.WellFormed()
    && (forall block <- plan.sent :: block.SameParameters(task))
    && (if plan.completed then |plan.sent| == |order| && Tiles(plan.sent, task.first, task.second + 1)
        else |plan.sent| < |order| - 1 && Tiles(plan.sent, task.first, plan.left.first))
  }

  /** End to end: so it is after any run of commands, for any order and any well-formed range. */
  lemma {:induction false} ReachableClusterCoversRange(commands: seq<Command>, order: seq<string>, task: Task)
    requires Usable(commands)
    requires Enumerates(order, Run(commands).active) && 0 < |order| <= MAX_ACTIVE
    requires task.WellFormed() && NIndex(task.n) < COLUMNS
    ensures Run(commands).normalized[NIndex(task.n)] > 0
    ensures CoversRange(PlanFor(Run(commands), order, task), order, task)
  {
    var r, k := Run(commands), NIndex(task.n);
    CachedSumServesScheduler(r, order, k);
    DispatchKeepsRange(task, SpeedsInOrder(order, r.active, k), r.normalized[k]);
    assert |order| == 1 ==> Shares(SpeedsInOrder(order, r.active, k), r.normalized[k], RangeSize(task)) == [];
  }

  /**
   End to end, for ranges in which no product wraps: after any run of commands every block but the
   last is the proportion by the cached sum, rounded down; all workers are served exactly when each
   but the last is owed an iteration; and the last one gets at least its proportion and less than
   one iteration more for each other worker.
   */
  lemma {:induction false} ReachableClusterSharesFairly(commands: seq<Command>, order: seq<string>, task: Task)
    requires Usable(commands)
    requires Enumerates(order, Run(commands).active) && 0 < |order| <= MAX_ACTIVE
    requires task.WellFormed() && task.Size() <= MAX_TOTAL && NIndex(task.n) < COLUMNS
    ensures var r, k := Run(commands), NIndex(task.n);
            && r.normalized[k] > 0
            && FairPlan(PlanFor(r, order, task), task, SpeedsInOrder(order, r.active, k), r.normalized[k])
  {
    var r, k := Run(commands), NIndex(task.n);
    CachedSumServesScheduler(r, order, k);
    var speeds, sum := SpeedsInOrder(order, r.active, k), r.normalized[k];
    DispatchIsFair(task, speeds, sum);
    assert |order| == 1 ==> Shares(speeds, sum, RangeSize(task)) == [];
  }

  // ----- speeds come from the first report

  /** The first command that connects the host, or the number of commands. */
  function FirstConnect(commands: seq<Command>, host: string): (i: nat)
    ensures i <= |commands|
    ensures i < |commands| ==> ConnectsTo(commands[i], host)
    ensures forall j | 0 <= j < i :: !ConnectsTo(commands[j], host)
  {
    if |commands| == 0 then 0
    else
      var last := |commands| - 1;
      var i := FirstConnect(commands[..last], host);
      if i < last || ConnectsTo(commands[last], host) then i else |commands|
  }

  /** Nodes as the first report of their host has left them. */
  ghost predicate SpeedsReported(r: Registry, commands: seq<Command>, host: string) {
    var i := FirstConnect(commands, host);
    && (i == |commands| ==> host !in r.active && (host in r.inactive ==> r.inactive[host].speeds == []))
    && (i < |commands| ==>
          && (host in r.active ==> Measured(r.active[host].speeds, commands[i].reply.bench))
          && (host in r.inactive ==> Measured(r.inactive[host].speeds, commands[i].reply.bench))
          && (host in r.active || host in r.inactive))
  }

  lemma {:induction false} SpeedsReportedStep(r: Registry, commands: seq<Command>, c: Command, host: string)
    requires Inv(r) && c.reply.Usable() && SpeedsReported(r, commands, host)
    ensures SpeedsReported(Step(r, c), commands + [c], host)
  {
    assert (commands + [c])[..|commands|] == commands;
    AddedTouchesNothing(r, c.host);
    AddedKeepsInv(r, c.host);
    if c.DisconnectWorker? {
      DisconnectedMovesHost(r, c.host, c.reply);
    } else if c.host !in r.active && c.queueReady {
      ConnectedTouchesHost(Added(r, c.host), c.host, c.reply);
    }
  }

  /** The speeds of a host are those of the first report it was connected with, whatever followed. */
  lemma {:induction false} SpeedsFromFirstConnect(commands: seq<Command>, host: string)
    requires Usable(commands)
    ensures SpeedsReported(Run(commands), commands, host)
    decreases |commands|
  {
    if |commands| > 0 {
      var last := |commands| - 1;
      SpeedsFromFirstConnect(commands[..last], host);
      assert commands == commands[..last] + [commands[last]];
      SpeedsReportedStep(Run(commands[..last]), commands[..last], commands[last], host);
    }
  }

  /** What a host reported for a size when it was first connected. */
  function FirstTime(commands: seq<Command>, host: string, k: nat): Word
    requires Usable(commands) && FirstConnect(commands, host) < |commands| && k < COLUMNS
  {
    commands[FirstConnect(commands, host)].reply.bench[k]
  }

  /** Of two active workers the one that first reported the smaller time has no less speed. */
  lemma {:induction false} FasterHasNoLessSpeed(commands: seq<Command>, fast: string, slow: string, k: nat)
    requires Usable(commands) && k < COLUMNS
    requires fast in Run(commands).active && slow in Run(commands).active
    ensures FirstConnect(commands, fast) < |commands| && FirstConnect(commands, slow) < |commands|
    ensures FirstTime(commands, fast, k) <= FirstTime(commands, slow, k) ==>
              Run(commands).active[fast].SpeedAt(k) >= Run(commands).active[slow].SpeedAt(k)
  {
    SpeedsFromFirstConnect(commands, fast);
    SpeedsFromFirstConnect(commands, slow);
    var s, t := Run(commands).active[fast].speeds[k], FirstTime(commands, fast, k);
    var s', t' := Run(commands).active[slow].speeds[k], FirstTime(commands, slow, k);
    assert IsSpeed(s, t) && IsSpeed(s', t');
    if t <= t' {
      FasterHasMoreSpeed(s, t, s', t');
    }
  }

  /**
   End to end: of two workers the one that first reported the smaller time is never sent fewer
   iterations, unless the slower one is the last and takes the remainder.
   */
  lemma {:induction false} FasterNeverSentFewer(commands: seq<Command>, order: seq<string>, task: Task, a: nat, b: nat)
    requires Usable(commands)
    requires Enumerates(order, Run(commands).active) && |order| <= MAX_ACTIVE && a < |order| && b < |order| - 1
    requires task.WellFormed() && task.Size() <= MAX_TOTAL && NIndex(task.n) < COLUMNS
    ensures FirstConnect(commands, order[a]) < |commands| && FirstConnect(commands, order[b]) < |commands|
    ensures Run(commands).normalized[NIndex(task.n)] > 0
    ensures FirstTime(commands, order[a], NIndex(task.n)) <= FirstTime(commands, order[b], NIndex(task.n)) ==>
              var sent := PlanFor(Run(commands), order, task).sent;
              a < |sent| && b < |sent| ==> sent[a].Size() >= sent[b].Size()
  {
    var r, k := Run(commands), NIndex(task.n);
    assert order[a] in order && order[b] in order;
    FasterHasNoLessSpeed(commands, order[a], order[b], k);
    CachedSumServesScheduler(r, order, k);
    var speeds := SpeedsInOrder(order, r.active, k);
    if speeds[a] >= speeds[b] {
      DispatchIsMonotone(task, speeds, r.normalized[k], a, b);
    }
  }

  /** Hence, once every worker has run its block, each requested iteration was added exactly once. */
  lemma CoveredRangeAddedOnce(plan: Plan, order: seq<string>, task: Task, runs: seq<ParallelLoop.Loop>, x: int)
    requires CoversRange(plan, order, task) && plan.completed
    requires ParallelLoop.AllComplete(plan.sent, runs)
    ensures |runs| == |order|
    ensures ParallelLoop.TimesAdded(runs, x) == if task.first <= x <= task.second then 1 else 0
  {
    ParallelLoop.TiledRangeAddedOnce(plan.sent, runs, task.first, task.second, x);
  }

  // ----- the service object

  class MainNodeService {
    const workers: WorkerManagementService
    var publisherUp: bool
    var published: seq<Message>

    constructor (publisherUp: bool)
      ensures Valid() && fresh(workers) && workers.State() == EMPTY
      ensures this.publisherUp == publisherUp && published == []
    {
      workers := new WorkerManagementService();
      this.publisherUp, published := publisherUp, [];
    }

    ghost predicate Valid()
      reads this, workers
    {
      workers.Valid()
    }

    /** The worker-level connect is reached only for a host the registry holds as inactive. */
    method ConnectNode(host: string, queueReady: bool, reply: Reply) returns (status: nat)
      requires Valid() && reply.Usable()
      modifies workers
      ensures Valid()
      ensures !publisherUp ==> status == 409 && workers.State() == old(workers.State())
      ensures publisherUp ==> workers.State() == Step(old(workers.State()), ConnectWorker(host, queueReady, reply))
      ensures status == if !publisherUp || host in old(workers.active) || !queueReady then 409
                        else if reply.Accepted() then 200
                        else if reply.BadServerAddress? then 504 else reply.code
    {
      if !publisherUp {
        return 409;
      }
      var added := workers.AddNewNode(host);
      if added.Some? {
        return added.value;
      }
      if !queueReady {
        return 409;
      }
      var connected := workers.ConnectNode(host, reply);
      if connected.Some? {
        return connected.value;
      }
      return 200;
    }

    method DisconnectNode(host: string, reply: Reply) returns (status: nat)
      requires Valid() && reply.Usable()
      modifies workers
      ensures Valid()
      ensures !publisherUp ==> status == 409 && workers.State() == old(workers.State())
      ensures publisherUp ==> workers.State() == Step(old(workers.State()), DisconnectWorker(host, reply))
      ensures status == if !publisherUp || host !in old(workers.active) then 409
                        else if reply.Accepted() then 200
                        else if reply.BadServerAddress? then 504 else reply.code
    {
      if !publisherUp {
        return 409;
      }
      var disconnected := workers.DisconnectNode(host, reply);
      if disconnected.Some? {
        return disconnected.value;
      }
      return 200;
    }

    method PublishMessage(task: Task, host: string) returns (status: nat)
      modifies this`published
      ensures published == if publisherUp then old(published) + [Message(host, task)] else old(published)
      ensures status == if publisherUp then 200 else 409
    {
      if !publisherUp {
        return 409;
      }
      published := published + [Message(host, task)];
      return 200;
    }

    /** One turn of the sending loop: slice the worker's share off the task and publish it. */
    method SendBlock(ts: TestSolveParam, host: string, itercount: Word) returns (error: Option<OutOfRange>)
      requires host in workers.active && |workers.active[host].speeds| == |workers.normalized| == COLUMNS
      requires NIndex(ts.n) < COLUMNS && workers.normalized[NIndex(ts.n)] > 0
      modifies ts`first, this`published
      ensures var k := NIndex(ts.n);
              match Slice(old(ts.Value()), Share(workers.active[host].speeds[k], workers.normalized[k], itercount))
              case Failure(e) => error == Some(e) && ts.Value() == old(ts.Value()) && published == old(published)
              case Success((block, rest)) =>
                && error == None && ts.Value() == rest
                && published == if publisherUp then old(published) + [Message(host, block)] else old(published)
    {
      var sum := workers.GetSum();
      var k := NIndex(ts.n);
      var share := MulWord(workers.active[host].speeds[k], itercount) / sum[k];
      var block := ts.SliceAway(share);
      if block.Failure? {
        return Some(block.error);
      }
      var _ := PublishMessage(block.value, host);
      return None;
    }

    /** The sending loop, over all workers but the last. */
    method SendBlocks(ts: TestSolveParam, order: seq<string>, itercount: Word, ghost shares: seq<Word>)
      returns (error: Option<OutOfRange>, ghost sent: seq<Task>)
      requires |order| == |shares| + 1
      requires |shares| > 0 ==> NIndex(ts.n) < COLUMNS == |workers.normalized| && workers.normalized[NIndex(ts.n)] > 0
      requires forall i | 0 <= i < |shares| ::
                 && order[i] in workers.active && |workers.active[order[i]].speeds| == COLUMNS
                 && shares[i] == Share(workers.active[order[i]].speeds[NIndex(ts.n)],
                                       workers.normalized[NIndex(ts.n)], itercount)
      modifies ts`first, this`published
      ensures |sent| <= |shares|
      ensures published == old(published) + Delivered(publisherUp, order, sent)
      ensures Dispatch(old(ts.Value()), shares)
              == if error.Some? then Plan(sent, ts.Value(), false) else Plan(sent + [ts.Value()], ts.Value(), true)
      ensures error.None? ==> |sent| == |shares|
    {
      sent := [];
      var i := 0;
      while i + 1 < |order|
        invariant 0 <= i < |order| && i == |sent|
        invariant published == old(published) + Delivered(publisherUp, order, sent)
        invariant Dispatch(old(ts.Value()), shares) == After(sent, Dispatch(ts.Value(), shares[i..]))
      {
        DispatchTurn(sent, ts.Value(), shares, i);
        ghost var slice := Slice(ts.Value(), shares[i]);
        error := SendBlock(ts, order[i], itercount);
        if error.Some? {
          return;
        }
        ghost var block := slice.value.0;
        DeliveredNext(old(published), publisherUp, order, sent, block);
        sent := sent + [block];
        i := i + 1;
      }
      error := None;
    }

    /**
     Follows the plan: blocks go out in the order of the workers, the caller's task keeps what is
     left, and a refused slice leaves the method as an exception. The status of publishing is not
     looked at, so with the publisher down the task is consumed and nothing is sent.
     */
    method SendToExecution(ts: TestSolveParam, order: seq<string>) returns (r: Response)
      requires Valid() && Enumerates(order, workers.active)
      requires |order| > 1 ==> NIndex(ts.n) < COLUMNS && workers.normalized[NIndex(ts.n)] > 0
      modifies ts, this`published
      ensures Valid()
      ensures |order| == 0 ==> r == Status(409) && ts.Value() == old(ts.Value()) && published == old(published)
      ensures |order| > 0 ==>
                var plan := PlanFor(old(workers.State()), order, old(ts.Value()));
                && ts.Value() == plan.left
                && |plan.sent| <= |order|
                && published == old(published) + Delivered(publisherUp, order, plan.sent)
                && (if plan.completed then r == Status(200) else r.Thrown?)
    {
      if |order| == 0 {
        return Status(409);
      }
      var itercount := RangeSize(ts.Value());
      ghost var k := NIndex(ts.n);
      ghost var shares: seq<Word> := [];
      if |order| > 1 {
        shares := Shares(SpeedsInOrder(order, workers.active, k), workers.normalized[k], itercount);
      }
      assert PlanFor(workers.State(), order, ts.Value()) == Dispatch(ts.Value(), shares);
      assert forall i | 0 <= i < |order| :: order[i] in order;
      var error, sent := SendBlocks(ts, order, itercount, shares);
      if error.Some? {
        return Thrown(error.value);
      }
      var last := order[|order| - 1];
      var _ := PublishMessage(ts.Value(), last);
      DeliveredNext(old(published), publisherUp, order, sent, ts.Value());
      r := Status(200);
    }
  }
}
