/** The benchmarked system sizes and the vectors indexed by them. */
module NodeSpeeds {
  import opened MachineWords
  import opened Quotients

  const N_VALUES: seq<Word> := [1, 2, 4, 5, 8, 10, 20, 40, 50, 100, 200, 400, 500]
  const COLUMNS: nat := 13
  const BENCH_INFINITY: Word := 1_000_000_000_000

  type BenchVec = seq<Word>

  /** Position of `n` among the benchmarked sizes, or the number of sizes when it is absent. */
  function NIndex(n: Word): (i: nat)
    ensures i <= |N_VALUES| == COLUMNS
    ensures if n in N_VALUES then i < |N_VALUES| && N_VALUES[i] == n && n !in N_VALUES[..i] else i == |N_VALUES|
  {
    NIndexFrom(n, 0)
  }

  function NIndexFrom(n: Word, start: nat): (i: nat)
    requires start <= |N_VALUES|
    ensures start <= i <= |N_VALUES|
    ensures i < |N_VALUES| ==> N_VALUES[i] == n
    ensures forall j | start <= j < i :: N_VALUES[j] != n
    decreases |N_VALUES| - start
  {
    if start == |N_VALUES| || N_VALUES[start] == n then start else NIndexFrom(n, start + 1)
  }

  /** What a worker may report: one positive time for each size, no larger than the largest time. */
  predicate ValidTimes(times: BenchVec) {
    |times| == COLUMNS && forall k | 0 <= k < COLUMNS :: 1 <= times[k] <= BENCH_INFINITY
  }

  predicate ValidSpeeds(speeds: BenchVec) {
    |speeds| == COLUMNS && forall k | 0 <= k < COLUMNS :: 1 <= speeds[k] <= BENCH_INFINITY
  }

  /** Each speed is how often the time fits into the largest one. */
  predicate Measured(speeds: BenchVec, times: BenchVec) {
    && |speeds| == |times| == COLUMNS
    && forall k | 0 <= k < COLUMNS :: IsSpeed(speeds[k], times[k])
  }

  predicate IsSpeed(speed: int, time: int) {
    speed * time <= BENCH_INFINITY < (speed + 1) * time
  }

  lemma SpeedFits(times: BenchVec)
    requires ValidTimes(times)
    ensures ValidSpeeds(SpeedsOf(times)) && Measured(SpeedsOf(times), times)
  {
    forall k | 0 <= k < COLUMNS
      ensures 1 <= BENCH_INFINITY / times[k] <= BENCH_INFINITY
      ensures IsSpeed(BENCH_INFINITY / times[k], times[k])
    {
      FitsInto(BENCH_INFINITY, times[k]);
    }
  }

  lemma FitsInto(a: nat, d: nat)
    requires 1 <= d <= a
    ensures 1 <= a / d <= a && (a / d) * d <= a < (a / d + 1) * d
  {
    QuotientBounds(a, d);
    assert (a / d + 1) * d == d * (a / d) + d;
  }

  /** A shorter time never gives a smaller speed. */
  lemma FasterHasMoreSpeed(s: nat, t: nat, s': nat, t': nat)
    requires IsSpeed(s, t) && IsSpeed(s', t') && t <= t'
    ensures s >= s'
  {
    if s < s' {
      ProductMonotone(s + 1, s', t, t');
    }
  }

  function SpeedsOf(times: BenchVec): (speeds: BenchVec)
    requires ValidTimes(times)
    ensures ValidSpeeds(speeds)
  {
    seq(COLUMNS, k requires 0 <= k < COLUMNS => FitsInto(BENCH_INFINITY, times[k]); BENCH_INFINITY / times[k])
  }

  function AddColumns(a: BenchVec, b: BenchVec): (c: BenchVec)
    requires |a| == |b|
    ensures |c| == |a| && forall k | 0 <= k < |a| :: c[k] == AddWord(a[k], b[k])
  {
    seq(|a|, k requires 0 <= k < |a| => AddWord(a[k], b[k]))
  }

  function SubColumns(a: BenchVec, b: BenchVec): (c: BenchVec)
    requires |a| == |b|
    ensures |c| == |a| && forall k | 0 <= k < |a| :: c[k] == SubWord(a[k], b[k])
  {
    seq(|a|, k requires 0 <= k < |a| => SubWord(a[k], b[k]))
  }

  const NO_SPEED: BenchVec := [0, 0, 0, 0, 0, 0, 0, 0, 0, 0, 0, 0, 0]
}

/**
 The registry of worker nodes: who is active, who is only known, and a running per-column sum
 of the active speeds that is added to and subtracted from instead of being recomputed.
 */
module WorkerRegistry {
  import opened MachineWords
  import opened Outcomes
  import opened NodeSpeeds

  /** Nodes are stored by value; an empty speed vector means "never benchmarked". */
  datatype Node = Node(times: BenchVec, speeds: BenchVec)
  {
    /** The reported times are always replaced, the speeds only the first time. */
    function Recomputed(reported: BenchVec): Node
      requires ValidTimes(reported)
    {
      Node(reported, if |speeds| == 0 then SpeedsOf(reported) else speeds)
    }

    function SpeedAt(k: nat): Word {
      if k < |speeds| then speeds[k] else 0
    }
  }

  /** What the remote worker answers. */
  datatype Reply = BadServerAddress | Response(code: nat, bench: BenchVec)
  {
    predicate Accepted() {
      Response? && code < 400
    }

    predicate Usable() {
      Accepted() ==> ValidTimes(bench)
    }

    /** The status reported to the caller, none on success. */
    function Status(): Option<nat> {
      if BadServerAddress? then Some(504) else if code >= 400 then Some(code) else None
    }
  }

  type Nodes = map<string, Node>

  datatype Registry = Registry(active: Nodes, inactive: Nodes, normalized: BenchVec)

  const EMPTY: Registry := Registry(map[], map[], NO_SPEED)

  // ----- one step of each operation

  function Added(r: Registry, host: string): Registry {
    if host !in r.inactive && host !in r.active then r.(inactive := r.inactive[host := Node([], [])]) else r
  }

  function Connected(r: Registry, host: string, reply: Reply): Registry
    requires host in r.inactive && reply.Usable() && |r.normalized| == COLUMNS
    requires |r.inactive[host].speeds| in {0, COLUMNS}
  {
    if !reply.Accepted() then r
    else
      var node := r.inactive[host].Recomputed(reply.bench);
      Registry(r.active[host := node], r.inactive - {host}, AddColumns(r.normalized, node.speeds))
  }

  function Disconnected(r: Registry, host: string, reply: Reply): Registry
    requires |r.normalized| == COLUMNS
    requires host in r.active ==> |r.active[host].speeds| == COLUMNS
  {
    if host !in r.active || !reply.Accepted() then r
    else
      var node := r.active[host];
      Registry(r.active - {host}, r.inactive[host := node], SubColumns(r.normalized, node.speeds))
  }

  // ----- what each operation leaves alone

  /** Adding changes no active node and no known one; a new one has not been benchmarked. */
  lemma AddedTouchesNothing(r: Registry, host: string)
    ensures Added(r, host).active == r.active && Added(r, host).normalized == r.normalized
    ensures forall other <- r.inactive ::
              other in Added(r, host).inactive && Added(r, host).inactive[other] == r.inactive[other]
    ensures Added(r, host).inactive.Keys == r.inactive.Keys + if host in r.active then {} else {host}
    ensures host !in r.inactive && host !in r.active ==> Added(r, host).inactive[host].speeds == []
  {
  }

  /** A refusal changes nothing; an acceptance makes the host active with what it reported and touches no other. */
  lemma ConnectedTouchesHost(r: Registry, host: string, reply: Reply)
    requires Inv(r) && host in r.inactive && reply.Usable()
    ensures !reply.Accepted() ==> Connected(r, host, reply) == r
    ensures reply.Accepted() ==>
              var r' := Connected(r, host, reply);
              && r'.active.Keys == r.active.Keys + {host} && r'.inactive.Keys == r.inactive.Keys - {host}
              && (forall other <- r.active | other != host :: r'.active[other] == r.active[other])
              && (forall other <- r'.inactive :: r'.inactive[other] == r.inactive[other])
              && r'.active[host].times == reply.bench
              && (r.inactive[host].speeds == [] ==> Measured(r'.active[host].speeds, reply.bench))
              && (r.inactive[host].speeds != [] ==> r'.active[host].speeds == r.inactive[host].speeds)
  {
    if reply.Accepted() {
      SpeedFits(reply.bench);
    }
  }

  /** A refusal changes nothing; an acceptance moves the node as it is. */
  lemma DisconnectedMovesHost(r: Registry, host: string, reply: Reply)
    requires Inv(r)
    ensures host !in r.active || !reply.Accepted() ==> Disconnected(r, host, reply) == r
    ensures host in r.active && reply.Accepted() ==>
              var r' := Disconnected(r, host, reply);
              && r'.active == r.active - {host} && r'.inactive == r.inactive[host := r.active[host]]
  {
  }

  // ----- the sum the registry should be keeping

  ghost function AnyHost(nodes: Nodes): (host: string)
    requires nodes != map[]
    ensures host in nodes
  {
    var host :| host in nodes;
    host
  }

  ghost function SpeedSum(nodes: Nodes, k: nat): nat {
    if nodes == map[] then 0
    else
      var host := AnyHost(nodes);
      nodes[host].SpeedAt(k) + SpeedSum(nodes - {host}, k)
  }

  lemma {:induction false} SpeedSumRemove(nodes: Nodes, host: string, k: nat)
    requires host in nodes
    ensures SpeedSum(nodes, k) == nodes[host].SpeedAt(k) + SpeedSum(nodes - {host}, k)
  {
    var first := AnyHost(nodes);
    if first != host {
      SpeedSumRemove(nodes - {first}, host, k);
      SpeedSumRemove(nodes - {host}, first, k);
      assert nodes - {first} - {host} == nodes - {host} - {first};
    }
  }

  lemma {:induction false} SpeedSumBound(nodes: Nodes, k: nat)
    requires forall host <- nodes :: ValidSpeeds(nodes[host].speeds)
    requires k < COLUMNS
    ensures |nodes| <= SpeedSum(nodes, k) <= |nodes| * BENCH_INFINITY
  {
    if nodes != map[] {
      var first := AnyHost(nodes);
      assert (nodes - {first}).Keys == nodes.Keys - {first};
      SpeedSumBound(nodes - {first}, k);
    }
  }

  // ----- the invariant

  ghost predicate Inv(r: Registry) {
    && r.active.Keys !! r.inactive.Keys
    && |r.normalized| == COLUMNS
    && (forall host <- r.active :: ValidSpeeds(r.active[host].speeds))
    && (forall host <- r.inactive :: r.inactive[host].speeds == [] || ValidSpeeds(r.inactive[host].speeds))
    && (forall k | 0 <= k < COLUMNS :: r.normalized[k] == SpeedSum(r.active, k) % WORD_RANGE)
  }

  lemma AddedKeepsInv(r: Registry, host: string)
    requires Inv(r)
    ensures Inv(Added(r, host))
    ensures host in Added(r, host).inactive || host in r.active
  {
  }

  lemma AddedWord(a: nat, b: Word)
    ensures AddWord(a % WORD_RANGE, b) == (a + b) % WORD_RANGE
    ensures SubWord((a + b) % WORD_RANGE, b) == a % WORD_RANGE
  {
    var q, m := a / WORD_RANGE, a % WORD_RANGE;
    assert a == q * WORD_RANGE + m;
    if m + b < WORD_RANGE {
      assert (a + b) / WORD_RANGE == q && (a + b) % WORD_RANGE == m + b;
    } else {
      assert (a + b) / WORD_RANGE == q + 1 && (a + b) % WORD_RANGE == m + b - WORD_RANGE;
    }
  }

  lemma ConnectedKeepsInv(r: Registry, host: string, reply: Reply)
    requires Inv(r) && host in r.inactive && reply.Usable()
    ensures Inv(Connected(r, host, reply))
  {
    if reply.Accepted() {
      var r' := Connected(r, host, reply);
      var speeds := r'.active[host].speeds;
      assert r'.active - {host} == r.active;
      forall k | 0 <= k < COLUMNS
        ensures r'.normalized[k] == SpeedSum(r'.active, k) % WORD_RANGE
      {
        SpeedSumRemove(r'.active, host, k);
        AddedWord(SpeedSum(r.active, k), speeds[k]);
      }
    }
  }

  lemma DisconnectedKeepsInv(r: Registry, host: string, reply: Reply)
    requires Inv(r)
    ensures Inv(Disconnected(r, host, reply))
  {
    if host in r.active && reply.Accepted() {
      var r' := Disconnected(r, host, reply);
      forall k | 0 <= k < COLUMNS
        ensures r'.normalized[k] == SpeedSum(r'.active, k) % WORD_RANGE
      {
        SpeedSumRemove(r.active, host, k);
        AddedWord(SpeedSum(r'.active, k), r.active[host].speeds[k]);
      }
    }
  }

  /** The largest cluster whose speed sums fit in a machine word whatever the benchmarks are. */
  const MAX_ACTIVE: nat := 18446744

  /** Up to that size the cached sum is exact, and the subtraction on disconnect never underflows. */
  lemma CachedSumExact(r: Registry, k: nat)
    requires Inv(r) && |r.active| <= MAX_ACTIVE && k < COLUMNS
    ensures r.normalized[k] == SpeedSum(r.active, k)
    ensures forall host <- r.active :: r.active[host].speeds[k] <= r.normalized[k]
    ensures r.active != map[] ==> r.normalized[k] > 0
  {
    SpeedSumBound(r.active, k);
    assert |r.active| * BENCH_INFINITY <= MAX_ACTIVE * BENCH_INFINITY < WORD_RANGE;
    forall host <- r.active
      ensures r.active[host].speeds[k] <= r.normalized[k]
    {
      SpeedSumRemove(r.active, host, k);
    }
  }

  /** A node that leaves and comes back keeps the speed it was first measured with. */
  lemma ReconnectRestoresSum(r: Registry, host: string, leave: Reply, back: Reply)
    requires Inv(r) && host in r.active
    requires leave.Accepted() && back.Accepted() && back.Usable()
    ensures var away := Disconnected(r, host, leave);
            && host in away.inactive && Inv(away)
            && var again := Connected(away, host, back);
               && again.normalized == r.normalized
               && again.inactive == r.inactive
               && again.active.Keys == r.active.Keys
               && again.active[host].speeds == r.active[host].speeds
  {
    DisconnectedKeepsInv(r, host, leave);
    var away := Disconnected(r, host, leave);
    ConnectedKeepsInv(away, host, back);
    var again := Connected(away, host, back);
    assert again.inactive == r.inactive;
    forall k | 0 <= k < COLUMNS
      ensures again.normalized[k] == r.normalized[k]
    {
      SubtractedAndAdded(r.normalized[k], r.active[host].speeds[k]);
    }
  }

  lemma SubtractedAndAdded(a: Word, b: Word)
    ensures AddWord(SubWord(a, b), b) == a
  {
    if a < b {
      assert SubWord(a, b) == a - b + WORD_RANGE;
    } else {
      assert SubWord(a, b) == a - b;
    }
  }

  // ----- the service object

  class WorkerManagementService {
    var active: Nodes
    var inactive: Nodes
    var normalized: BenchVec

    constructor ()
      ensures State() == EMPTY && Valid()
    {
      active, inactive, normalized := map[], map[], NO_SPEED;
    }

    ghost function State(): Registry
      reads this
    {
      Registry(active, inactive, normalized)
    }

    ghost predicate Valid()
      reads this
    {
      Inv(State())
    }

    method AddNewNode(host: string) returns (status: Option<nat>)
      requires Valid()
      modifies this
      ensures Valid() && State() == Added(old(State()), host)
      ensures status == if host in old(active) then Some(409) else None
      ensures status.None? ==> host in inactive
    {
      if host !in inactive && host !in active {
        inactive := inactive[host := Node([], [])];
      } else {
        if host in active {
          return Some(409);
        }
      }
      return None;
    }

    /** The source dereferences the client stored for an inactive host, so there must be one. */
    method ConnectNode(host: string, reply: Reply) returns (status: Option<nat>)
      requires Valid() && host in inactive && reply.Usable()
      modifies this
      ensures Valid() && State() == Connected(old(State()), host, reply)
      ensures status == reply.Status()
      ensures reply.Accepted() ==> host in active && active[host].times == reply.bench
      ensures reply.Accepted() && old(inactive)[host].speeds == [] ==> Measured(active[host].speeds, reply.bench)
    {
      ghost var was := State();
      if reply.BadServerAddress? {
        return Some(504);
      }
      if reply.code >= 400 {
        return Some(reply.code);
      }
      inactive := inactive[host := inactive[host].Recomputed(reply.bench)];
      MoveToActive(host);
      normalized := AddColumns(normalized, active[host].speeds);
      assert inactive == was.inactive - {host};
      ConnectedKeepsInv(was, host, reply);
      SpeedFits(reply.bench);
      return None;
    }

    method DisconnectNode(host: string, reply: Reply) returns (status: Option<nat>)
      requires Valid()
      modifies this
      ensures Valid() && State() == Disconnected(old(State()), host, reply)
      ensures status == if host !in old(active) then Some(409) else reply.Status()
    {
      ghost var was := State();
      if host !in active {
        return Some(409);
      }
      if reply.BadServerAddress? {
        return Some(504);
      }
      if reply.code >= 400 {
        return Some(reply.code);
      }
      MoveToInactive(host);
      normalized := SubColumns(normalized, inactive[host].speeds);
      DisconnectedKeepsInv(was, host, reply);
      return None;
    }

    method MoveToActive(host: string)
      requires host in inactive
      modifies this`active, this`inactive
      ensures active == old(active)[host := old(inactive)[host]] && inactive == old(inactive) - {host}
    {
      var node := inactive[host];
      inactive := inactive - {host};
      active := active[host := node];
    }

    method MoveToInactive(host: string)
      requires host in active
      modifies this`active, this`inactive
      ensures inactive == old(inactive)[host := old(active)[host]] && active == old(active) - {host}
    {
      var node := active[host];
      active := active - {host};
      inactive := inactive[host := node];
    }

    method GetSum() returns (sum: BenchVec)
      ensures sum == normalized
    {
      return normalized;
    }
  }
}
