/**
 Whole runs of a clock. The reference keeps what the code does not: for every open section its
 own start, and for every closed one both its start and the time it was last started again.
 The lemmas say what the code's totals are in terms of the sections of the run.
 */
module ClockRuns {
  import opened ClockArray
  import opened Quotients

  datatype Event = Tik(loc: Location, now: Instant) | Tak(loc: Location, now: Instant)

  /** What the code does; a call that throws changes nothing. */
  function Play(s: ClockState, e: Event, unit: Unit): ClockState {
    match e
    case Tik(loc, now) => TikState(s, loc, now)
    case Tak(loc, now) => if TakThrows(s, loc) then s else TakState(s, loc, now, unit)
  }

  function PlayAll(s: ClockState, events: seq<Event>, unit: Unit): ClockState
    decreases |events|
  {
    if |events| == 0 then s else Play(PlayAll(s, events[..|events| - 1], unit), events[|events| - 1], unit)
  }

  // ----- the reference

  /** An open section, with the summed durations of the sections closed directly inside it. */
  datatype Frame = Frame(loc: Location, tikAt: nat, start: Instant, inside: int)

  /**
   A closed section, with the positions of the calls that opened and ended it; `resumed` is the
   last time its location was started before the end.
   */
  datatype Section = Section(
    loc: Location, tikAt: nat, takAt: nat, start: Instant, resumed: Instant, end: Instant, inside: int)

  datatype Trace = Trace(open: seq<Frame>, closed: seq<Section>, last: map<Location, Instant>, steps: nat)

  const NOTHING: Trace := Trace([], [], map[], 0)

  function Top(g: Trace): Frame
    requires g.open != []
  {
    g.open[|g.open| - 1]
  }

  predicate Closes(g: Trace, e: Event) {
    e.Tak? && g.open != [] && Top(g).loc.func == e.loc.func
  }

  /** Removes the innermost section and credits its duration to the one around it. */
  function Popped(open: seq<Frame>, duration: int): seq<Frame>
    requires open != []
  {
    var below := open[..|open| - 1];
    if |below| == 0 then below
    else below[|below| - 1 := below[|below| - 1].(inside := below[|below| - 1].inside + duration)]
  }

  function Follow(g: Trace, e: Event, unit: Unit): Trace {
    if e.Tik? then Trace(g.open + [Frame(e.loc, g.steps, e.now, 0)], g.closed, g.last[e.loc := e.now], g.steps + 1)
    else if !Closes(g, e) then g.(steps := g.steps + 1)
    else
      var top := Top(g);
      var resumed := if top.loc in g.last then g.last[top.loc] else 0;
      Trace(Popped(g.open, Elapsed(e.now, top.start, unit)),
            g.closed + [Section(top.loc, top.tikAt, g.steps, top.start, resumed, e.now, top.inside)],
            g.last, g.steps + 1)
  }

  function FollowAll(g: Trace, events: seq<Event>, unit: Unit): Trace
    decreases |events|
  {
    if |events| == 0 then g else Follow(FollowAll(g, events[..|events| - 1], unit), events[|events| - 1], unit)
  }

  /** Every call that ends a section comes from the file and thread that started it. */
  ghost predicate Matched(events: seq<Event>, unit: Unit)
    decreases |events|
  {
    |events| > 0 ==>
      var before, e := FollowAll(NOTHING, events[..|events| - 1], unit), events[|events| - 1];
      && Matched(events[..|events| - 1], unit)
      && (Closes(before, e) ==> Top(before).loc.file == e.loc.file && Top(before).loc.thread == e.loc.thread)
  }

  /** No location is started again while a section of it is open. */
  ghost predicate NoReopening(events: seq<Event>, unit: Unit)
    decreases |events|
  {
    |events| > 0 ==>
      var before, e := FollowAll(NOTHING, events[..|events| - 1], unit), events[|events| - 1];
      && NoReopening(events[..|events| - 1], unit)
      && (e.Tik? ==> forall k | 0 <= k < |before.open| :: before.open[k].loc != e.loc)
  }

  /** The clock never runs backwards. */
  ghost predicate Monotone(events: seq<Event>) {
    forall i, j | 0 <= i <= j < |events| :: events[i].now <= events[j].now
  }

  // ----- the code's state, read off the reference

  function Locations(open: seq<Frame>): (locs: seq<Location>)
    ensures |locs| == |open|
  {
    seq(|open|, i requires 0 <= i < |open| => open[i].loc)
  }

  /** Totals after charging each closed section from the time it was last resumed. */
  function ChargeAll(timers: Timers, closed: seq<Section>, unit: Unit): Timers
    decreases |closed|
  {
    if |closed| == 0 then timers
    else
      var s := closed[|closed| - 1];
      Charged(ChargeAll(timers, closed[..|closed| - 1], unit), s.loc, Elapsed(s.end, s.resumed, unit))
  }

  /** `s` is the state the code is in when it started with `timers` and the reference is at `g`. */
  ghost predicate Mirrors(s: ClockState, timers: Timers, g: Trace, unit: Unit) {
    && s.toTak == Locations(g.open)
    && (forall loc <- g.last :: loc in s.starts && s.starts[loc] == g.last[loc])
    && (forall k | 0 <= k < |g.open| :: g.open[k].loc in g.last)
    && s.timers == ChargeAll(timers, g.closed, unit)
  }

  lemma {:induction false} PoppedLocations(open: seq<Frame>, duration: int)
    requires open != []
    ensures Locations(Popped(open, duration)) == Locations(open)[..|open| - 1]
    ensures forall k | 0 <= k < |open| - 1 :: Popped(open, duration)[k].start == open[k].start
  {
  }

  lemma MirrorsStep(s: ClockState, timers: Timers, g: Trace, e: Event, unit: Unit)
    requires Mirrors(s, timers, g, unit)
    requires Closes(g, e) ==> Top(g).loc.file == e.loc.file && Top(g).loc.thread == e.loc.thread
    ensures Mirrors(Play(s, e, unit), timers, Follow(g, e, unit), unit)
  {
    var s', g' := Play(s, e, unit), Follow(g, e, unit);
    if e.Tik? {
      assert Locations(g'.open) == Locations(g.open) + [e.loc];
    } else if Closes(g, e) {
      var top := Top(g);
      PoppedLocations(g.open, Elapsed(e.now, top.start, unit));
      assert ClosedLocation(s, e.loc) == top.loc;
      assert g'.closed[..|g.closed|] == g.closed;
      forall k | 0 <= k < |g'.open|
        ensures g'.open[k].loc in g'.last
      {
        assert Locations(g'.open)[k] == Locations(g.open)[k];
      }
    }
  }

  /** From any clock with nothing open, a matched run leaves the state the reference describes. */
  lemma {:induction false} RunMirrored(s: ClockState, events: seq<Event>, unit: Unit)
    requires s.toTak == [] && Matched(events, unit)
    ensures Mirrors(PlayAll(s, events, unit), s.timers, FollowAll(NOTHING, events, unit), unit)
    decreases |events|
  {
    if |events| > 0 {
      var last := |events| - 1;
      RunMirrored(s, events[..last], unit);
      MirrorsStep(PlayAll(s, events[..last], unit), s.timers, FollowAll(NOTHING, events[..last], unit),
                  events[last], unit);
    }
  }

  // ----- totals by location

  ghost function TimesClosed(closed: seq<Section>, loc: Location): nat
    decreases |closed|
  {
    if |closed| == 0 then 0
    else (if closed[|closed| - 1].loc == loc then 1 else 0) + TimesClosed(closed[..|closed| - 1], loc)
  }

  /** The time between start and end of every closed section of `loc`, each truncated. */
  ghost function TrueTime(closed: seq<Section>, loc: Location, unit: Unit): int
    decreases |closed|
  {
    if |closed| == 0 then 0
    else
      var s := closed[|closed| - 1];
      (if s.loc == loc then Elapsed(s.end, s.start, unit) else 0) + TrueTime(closed[..|closed| - 1], loc, unit)
  }

  /** The same measured from the last resumption. */
  ghost function ResumedTime(closed: seq<Section>, loc: Location, unit: Unit): int
    decreases |closed|
  {
    if |closed| == 0 then 0
    else
      var s := closed[|closed| - 1];
      (if s.loc == loc then Elapsed(s.end, s.resumed, unit) else 0) + ResumedTime(closed[..|closed| - 1], loc, unit)
  }

  lemma {:induction false} ChargeAllTotals(closed: seq<Section>, loc: Location, unit: Unit)
    ensures var timers := ChargeAll(map[], closed, unit);
            && (loc in timers <==> TimesClosed(closed, loc) > 0)
            && (loc in timers ==> timers[loc] == TimeStore(ResumedTime(closed, loc, unit), TimesClosed(closed, loc)))
            && (loc !in timers ==> ResumedTime(closed, loc, unit) == 0)
    decreases |closed|
  {
    if |closed| > 0 {
      ChargeAllTotals(closed[..|closed| - 1], loc, unit);
    }
  }

  /**
   After any matched run from a fresh clock, reopenings or not: the stack is the open sections in
   order, and each location's count is the number of its closed sections and its time their
   total, each counted from its last resumption.
   */
  lemma {:induction false} TotalsOfRun(events: seq<Event>, unit: Unit, loc: Location)
    requires Matched(events, unit)
    ensures var s, g := PlayAll(FRESH, events, unit), FollowAll(NOTHING, events, unit);
            && s.toTak == Locations(g.open)
            && (loc in s.timers <==> TimesClosed(g.closed, loc) > 0)
            && (loc in s.timers ==>
                  s.timers[loc] == TimeStore(ResumedTime(g.closed, loc, unit), TimesClosed(g.closed, loc)))
  {
    RunMirrored(FRESH, events, unit);
    ChargeAllTotals(FollowAll(NOTHING, events, unit).closed, loc, unit);
  }

  // ----- without reopening, the totals are the true ones

  ghost predicate StartsAreLast(g: Trace) {
    && (forall k | 0 <= k < |g.open| :: g.open[k].loc in g.last && g.last[g.open[k].loc] == g.open[k].start)
    && (forall j, k | 0 <= j < k < |g.open| :: g.open[j].loc != g.open[k].loc)
    && (forall k | 0 <= k < |g.closed| :: g.closed[k].resumed == g.closed[k].start)
  }

  lemma {:induction false} NoReopeningKeepsStarts(events: seq<Event>, unit: Unit)
    requires NoReopening(events, unit)
    ensures StartsAreLast(FollowAll(NOTHING, events, unit))
    decreases |events|
  {
    if |events| > 0 {
      var e := events[|events| - 1];
      var g := FollowAll(NOTHING, events[..|events| - 1], unit);
      NoReopeningKeepsStarts(events[..|events| - 1], unit);
      if Closes(g, e) {
        var open := Popped(g.open, Elapsed(e.now, Top(g).start, unit));
        PoppedLocations(g.open, Elapsed(e.now, Top(g).start, unit));
        forall k | 0 <= k < |open|
          ensures open[k].loc == g.open[k].loc && open[k].start == g.open[k].start
        {
          assert Locations(open)[k] == Locations(g.open)[k];
        }
      }
    }
  }

  lemma {:induction false} SameTimes(closed: seq<Section>, loc: Location, unit: Unit)
    requires forall k | 0 <= k < |closed| :: closed[k].resumed == closed[k].start
    ensures ResumedTime(closed, loc, unit) == TrueTime(closed, loc, unit)
    decreases |closed|
  {
    if |closed| > 0 {
      SameTimes(closed[..|closed| - 1], loc, unit);
    }
  }

  /** The clock's promise: count and total duration of the closed sections, exactly. */
  lemma {:induction false} TotalsAreTrue(events: seq<Event>, unit: Unit, loc: Location)
    requires Matched(events, unit) && NoReopening(events, unit)
    ensures var s, g := PlayAll(FRESH, events, unit), FollowAll(NOTHING, events, unit);
            && s.toTak == Locations(g.open)
            && (loc in s.timers <==> TimesClosed(g.closed, loc) > 0)
            && (loc in s.timers ==>
                  s.timers[loc] == TimeStore(TrueTime(g.closed, loc, unit), TimesClosed(g.closed, loc)))
  {
    TotalsOfRun(events, unit, loc);
    NoReopeningKeepsStarts(events, unit);
    SameTimes(FollowAll(NOTHING, events, unit).closed, loc, unit);
  }

  // ----- on a monotone clock

  lemma ElapsedMonotone(curr: Instant, late: Instant, early: Instant, unit: Unit)
    requires early <= late <= curr
    ensures 0 <= Elapsed(curr, late, unit) <= Elapsed(curr, early, unit)
    ensures Elapsed(curr, late, unit) + Elapsed(late, early, unit) <= Elapsed(curr, early, unit)
  {
    DivisionSuperadditive(curr - late, late - early, unit);
  }

  lemma DivisionSuperadditive(a: nat, b: nat, d: nat)
    requires d > 0
    ensures 0 <= a / d && 0 <= b / d && a / d + b / d <= (a + b) / d
  {
    QuotientBounds(a, d);
    QuotientBounds(b, d);
    QuotientBounds(a + b, d);
    QuotientsFit(d, a / d, b / d, (a + b) / d, a, b);
  }

  lemma QuotientsFit(d: nat, p: nat, q: nat, m: nat, a: nat, b: nat)
    requires d * p <= a && d * q <= b && a + b < d * m + d
    ensures p + q <= m
  {
    assert d * (p + q) == d * p + d * q;
    assert d * (m + 1) == d * m + d;
    FactorCancels(d, p + q, m + 1);
  }

  /** What holds of open and closed sections at time `now`. */
  ghost predicate Ordered(g: Trace, now: Instant, unit: Unit) {
    && (forall k | 0 <= k < |g.open| :: Orderly(g, k, now, unit))
    && (forall k | 0 <= k < |g.closed| ::
          var s := g.closed[k];
          && s.start <= s.resumed <= s.end
          && s.inside <= Elapsed(s.end, s.start, unit))
  }

  /** A frame started no later than its location was last started, and holds what fits before the next. */
  ghost predicate Orderly(g: Trace, k: int, now: Instant, unit: Unit)
    requires 0 <= k < |g.open|
  {
    var frame := g.open[k];
    var until := if k + 1 < |g.open| then g.open[k + 1].start else now;
    && frame.loc in g.last && frame.start <= g.last[frame.loc] <= now
    && frame.start <= until <= now
    && frame.inside <= Elapsed(until, frame.start, unit)
  }

  lemma OrderlyLater(g: Trace, k: int, now: Instant, later: Instant, unit: Unit)
    requires 0 <= k < |g.open| && now <= later && Orderly(g, k, now, unit)
    ensures Orderly(g, k, later, unit)
  {
    if k + 1 == |g.open| {
      ElapsedMonotone(later, now, g.open[k].start, unit);
    }
  }

  lemma OrderedTik(g: Trace, now: Instant, e: Event, unit: Unit)
    requires Ordered(g, now, unit) && e.Tik? && now <= e.now
    ensures Ordered(Follow(g, e, unit), e.now, unit)
  {
    var g' := Follow(g, e, unit);
    forall k | 0 <= k < |g'.open|
      ensures Orderly(g', k, e.now, unit)
    {
      if k < |g.open| {
        OrderlyLater(g, k, now, e.now, unit);
      }
    }
  }

  lemma OrderedTak(g: Trace, now: Instant, e: Event, unit: Unit)
    requires Ordered(g, now, unit) && Closes(g, e) && now <= e.now
    ensures Ordered(Follow(g, e, unit), e.now, unit)
  {
    var g', n := Follow(g, e, unit), |g.open|;
    OrderlyLater(g, n - 1, now, e.now, unit);
    PoppedLocations(g.open, Elapsed(e.now, Top(g).start, unit));
    forall k | 0 <= k < |g'.open|
      ensures Orderly(g', k, e.now, unit)
    {
      OrderlyLater(g, k, now, e.now, unit);
      assert Locations(g'.open)[k] == Locations(g.open)[k];
      if k == n - 2 {
        ElapsedMonotone(e.now, g.open[n - 1].start, g.open[k].start, unit);
      }
    }
  }

  lemma {:induction false} MonotoneRunOrdered(events: seq<Event>, unit: Unit)
    requires Monotone(events)
    ensures Ordered(FollowAll(NOTHING, events, unit), if |events| == 0 then 0 else events[|events| - 1].now, unit)
    decreases |events|
  {
    if |events| > 0 {
      var e, before := events[|events| - 1], events[..|events| - 1];
      var g := FollowAll(NOTHING, before, unit);
      MonotoneRunOrdered(before, unit);
      var now := if |before| == 0 then e.now else before[|before| - 1].now;
      if e.Tik? {
        OrderedTik(g, now, e, unit);
      } else if Closes(g, e) {
        OrderedTak(g, now, e, unit);
      } else {
        forall k | 0 <= k < |g.open|
          ensures Orderly(Follow(g, e, unit), k, e.now, unit)
        {
          OrderlyLater(g, k, now, e.now, unit);
        }
      }
    }
  }

  /**
   On a clock that never runs backwards, the truncated durations of the sections closed directly
   inside a section sum to at most that section's own truncated duration.
   */
  lemma NestedDurationsFit(events: seq<Event>, unit: Unit, k: nat)
    requires Monotone(events) && k < |FollowAll(NOTHING, events, unit).closed|
    ensures var s := FollowAll(NOTHING, events, unit).closed[k];
            0 <= Elapsed(s.end, s.start, unit) && s.inside <= Elapsed(s.end, s.start, unit)
  {
    MonotoneRunOrdered(events, unit);
    var s := FollowAll(NOTHING, events, unit).closed[k];
    ElapsedMonotone(s.end, s.resumed, s.start, unit);
  }

  // ----- totals in the units of the clock

  /** The time between start and end of every closed section of `loc`, before anything is truncated. */
  ghost function Duration(closed: seq<Section>, loc: Location): int
    decreases |closed|
  {
    if |closed| == 0 then 0
    else
      var s := closed[|closed| - 1];
      (if s.loc == loc then s.end - s.start else 0) + Duration(closed[..|closed| - 1], loc)
  }

  lemma OneMoreSection(unit: Unit, t: int, n: nat, d: int, elapsed: int, more: int)
    requires unit * t <= d <= unit * (t + n) - n
    requires unit * elapsed <= more < unit * (elapsed + 1)
    ensures unit * (elapsed + t) <= more + d <= unit * (elapsed + t + (1 + n)) - (1 + n)
  {
    assert unit * (elapsed + t) == unit * elapsed + unit * t;
    assert unit * (elapsed + t + (1 + n)) == unit * (elapsed + 1) + unit * (t + n);
  }

  lemma {:induction false} TrueTimeWithin(closed: seq<Section>, loc: Location, unit: Unit)
    requires forall k | 0 <= k < |closed| :: closed[k].start <= closed[k].end
    ensures var time, count := TrueTime(closed, loc, unit), TimesClosed(closed, loc);
            unit * time <= Duration(closed, loc) <= unit * (time + count) - count
    decreases |closed|
  {
    if |closed| > 0 {
      var rest, s := closed[..|closed| - 1], closed[|closed| - 1];
      TrueTimeWithin(rest, loc, unit);
      if s.loc == loc {
        ElapsedCountsUnits(s.end, s.start, unit);
        OneMoreSection(unit, TrueTime(rest, loc, unit), TimesClosed(rest, loc), Duration(rest, loc),
                       Elapsed(s.end, s.start, unit), s.end - s.start);
      }
    }
  }

  /** A total holds all whole units of its sections and falls short by less than one for each of them. */
  lemma {:induction false} TotalsCountUnits(events: seq<Event>, unit: Unit, loc: Location)
    requires Monotone(events) && Matched(events, unit) && NoReopening(events, unit)
    requires loc in PlayAll(FRESH, events, unit).timers
    ensures var total := PlayAll(FRESH, events, unit).timers[loc];
            var spent := Duration(FollowAll(NOTHING, events, unit).closed, loc);
            unit * total.time <= spent < unit * (total.time + total.count)
  {
    TotalsAreTrue(events, unit, loc);
    MonotoneRunOrdered(events, unit);
    TrueTimeWithin(FollowAll(NOTHING, events, unit).closed, loc, unit);
  }

  lemma {:induction false} ResumedAtMostTrue(closed: seq<Section>, loc: Location, unit: Unit)
    requires forall k | 0 <= k < |closed| :: closed[k].start <= closed[k].resumed <= closed[k].end
    ensures ResumedTime(closed, loc, unit) <= TrueTime(closed, loc, unit)
    ensures ResumedTime(closed, loc, unit) == TrueTime(closed, loc, unit) <==>
            forall k | 0 <= k < |closed| && closed[k].loc == loc ::
              Elapsed(closed[k].end, closed[k].resumed, unit) == Elapsed(closed[k].end, closed[k].start, unit)
    decreases |closed|
  {
    if |closed| > 0 {
      var rest, s := closed[..|closed| - 1], closed[|closed| - 1];
      ResumedAtMostTrue(rest, loc, unit);
      ElapsedMonotone(s.end, s.resumed, s.start, unit);
      assert forall k | 0 <= k < |rest| :: rest[k] == closed[k];
    }
  }

  /**
   With reopenings, a monotone clock never charges too much, and it is exact for a location
   precisely when no closed section of it lost a whole unit to being started again while open.
   */
  lemma {:induction false} TotalsNeverTooLarge(events: seq<Event>, unit: Unit, loc: Location)
    requires Matched(events, unit) && Monotone(events)
    requires loc in PlayAll(FRESH, events, unit).timers
    ensures var time, g := PlayAll(FRESH, events, unit).timers[loc].time, FollowAll(NOTHING, events, unit);
            && time <= TrueTime(g.closed, loc, unit)
            && (time == TrueTime(g.closed, loc, unit) <==>
                forall k | 0 <= k < |g.closed| && g.closed[k].loc == loc ::
                  Elapsed(g.closed[k].end, g.closed[k].resumed, unit)
                  == Elapsed(g.closed[k].end, g.closed[k].start, unit))
  {
    TotalsOfRun(events, unit, loc);
    MonotoneRunOrdered(events, unit);
    ResumedAtMostTrue(FollowAll(NOTHING, events, unit).closed, loc, unit);
  }

  /** Two sections of one location, the second inside the first. */
  function Recursion(loc: Location): seq<Event> {
    [Tik(loc, 0), Tik(loc, 10), Tak(loc, 20), Tak(loc, 30)]
  }

  lemma RecursionPrefixes(loc: Location)
    ensures var events := Recursion(loc);
            && events[..3] == [Tik(loc, 0), Tik(loc, 10), Tak(loc, 20)]
            && events[..3][..2] == [Tik(loc, 0), Tik(loc, 10)]
            && events[..3][..2][..1] == [Tik(loc, 0)]
            && events[..3][..2][..1][..0] == []
  {
  }

  lemma {:induction false} RecursionPlayed(loc: Location)
    ensures PlayAll(FRESH, Recursion(loc), 1).timers == map[loc := TimeStore(30, 2)]
  {
    var events := Recursion(loc);
    RecursionPrefixes(loc);
    assert PlayAll(FRESH, events[..3][..2][..1], 1) == ClockState(map[], map[loc := 0], [loc]);
    assert PlayAll(FRESH, events[..3][..2], 1) == ClockState(map[], map[loc := 10], [loc, loc]);
    assert PlayAll(FRESH, events[..3], 1) == ClockState(map[loc := TimeStore(10, 1)], map[loc := 10], [loc]);
  }

  lemma RecursionFollowed(loc: Location)
    ensures FollowAll(NOTHING, Recursion(loc), 1).closed
            == [Section(loc, 1, 2, 10, 10, 20, 0), Section(loc, 0, 3, 0, 10, 30, 10)]
  {
    var events := Recursion(loc);
    RecursionPrefixes(loc);
    var outer, inner := Frame(loc, 0, 0, 0), Frame(loc, 1, 10, 0);
    assert FollowAll(NOTHING, events[..3][..2][..1], 1) == Trace([outer], [], map[loc := 0], 1);
    assert FollowAll(NOTHING, events[..3][..2], 1) == Trace([outer, inner], [], map[loc := 10], 2);
    assert Popped([outer, inner], 10) == [Frame(loc, 0, 0, 10)];
    assert FollowAll(NOTHING, events[..3], 1)
        == Trace([Frame(loc, 0, 0, 10)], [Section(loc, 1, 2, 10, 10, 20, 0)], map[loc := 10], 3);
  }

  /** A recursive function loses the time before its inner call: 30 is recorded instead of 40. */
  lemma RecursionUndercharged(loc: Location)
    ensures PlayAll(FRESH, Recursion(loc), 1).timers == map[loc := TimeStore(30, 2)]
    ensures TrueTime(FollowAll(NOTHING, Recursion(loc), 1).closed, loc, 1) == 40
  {
    RecursionPlayed(loc);
    RecursionFollowed(loc);
    var inner, outer := Section(loc, 1, 2, 10, 10, 20, 0), Section(loc, 0, 3, 0, 10, 30, 10);
    assert [inner, outer][..1] == [inner] && [inner][..0] == [];
    assert TrueTime([], loc, 1) == 0 && TrueTime([inner], loc, 1) == 10;
  }
}
