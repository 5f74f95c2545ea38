/**
 The sections of a run as positions in its list of calls: when a total is exact despite
 reopenings, and what the calls directly inside a section charge.
 */
module ClockSections {
  import opened ClockArray
  import opened ClockRuns

  // ----- the reference, in terms of the calls

  predicate Starts(e: Event, loc: Location) {
    e.Tik? && e.loc == loc
  }

  /** The last call among the first n that starts `loc`, or -1. */
  function LastStart(events: seq<Event>, n: nat, loc: Location): (j: int)
    requires n <= |events|
    ensures -1 <= j < n && (j >= 0 ==> Starts(events[j], loc))
    ensures forall i | j < i < n :: !Starts(events[i], loc)
  {
    if n == 0 then -1 else if Starts(events[n - 1], loc) then n - 1 else LastStart(events, n - 1, loc)
  }

  /** Opened and ended by these calls, and resumed by the last start of its location before the end. */
  ghost predicate SectionNoted(s: Section, events: seq<Event>) {
    && s.tikAt < s.takAt < |events|
    && events[s.tikAt] == Tik(s.loc, s.start)
    && events[s.takAt].Tak? && events[s.takAt].now == s.end
    && s.tikAt <= LastStart(events, s.takAt, s.loc)
    && s.resumed == events[LastStart(events, s.takAt, s.loc)].now
  }

  ghost predicate LastNoted(g: Trace, events: seq<Event>, n: nat, loc: Location)
    requires n <= |events|
  {
    var j := LastStart(events, n, loc);
    (loc in g.last <==> j >= 0) && (loc in g.last ==> g.last[loc] == events[j].now)
  }

  ghost predicate Noted(g: Trace, events: seq<Event>, n: nat)
    requires n <= |events|
  {
    && g.steps == n
    && (forall loc :: LastNoted(g, events, n, loc))
    && (forall k | 0 <= k < |g.open| :: FrameNoted(g.open[k], events, n))
    && (forall k | 0 <= k < |g.closed| :: SectionNoted(g.closed[k], events))
  }

  ghost predicate FrameNoted(f: Frame, events: seq<Event>, n: nat)
    requires n <= |events|
  {
    f.tikAt < n && events[f.tikAt] == Tik(f.loc, f.start)
  }

  lemma {:induction false} LastNotedStep(g: Trace, events: seq<Event>, n: nat, unit: Unit, loc: Location)
    requires n < |events| && LastNoted(g, events, n, loc)
    ensures LastNoted(Follow(g, events[n], unit), events, n + 1, loc)
  {
  }

  lemma {:induction false} FramesNotedStep(g: Trace, events: seq<Event>, n: nat, unit: Unit, k: nat)
    requires n < |events| && Noted(g, events, n)
    requires k < |Follow(g, events[n], unit).open|
    ensures FrameNoted(Follow(g, events[n], unit).open[k], events, n + 1)
  {
    var e, g' := events[n], Follow(g, events[n], unit);
    assert k < |g.open| ==> FrameNoted(g.open[k], events, n);
    if Closes(g, e) {
      PoppedLocations(g.open, Elapsed(e.now, Top(g).start, unit));
      assert Locations(g'.open)[k] == Locations(g.open)[k];
    }
  }

  lemma {:induction false} ClosedNoted(g: Trace, events: seq<Event>, n: nat, unit: Unit)
    requires n < |events| && Noted(g, events, n) && Closes(g, events[n])
    ensures var closed := Follow(g, events[n], unit).closed; SectionNoted(closed[|closed| - 1], events)
  {
    var top := Top(g);
    assert FrameNoted(top, events, n);
    assert Starts(events[top.tikAt], top.loc);
    assert LastNoted(g, events, n, top.loc);
  }

  lemma {:induction false} NotedStep(g: Trace, events: seq<Event>, n: nat, unit: Unit)
    requires n < |events| && Noted(g, events, n)
    ensures Noted(Follow(g, events[n], unit), events, n + 1)
  {
    var g', m := Follow(g, events[n], unit), n + 1;
    forall loc
      ensures LastNoted(g', events, m, loc)
    {
      assert LastNoted(g, events, n, loc);
      LastNotedStep(g, events, n, unit, loc);
    }
    forall k | 0 <= k < |g'.open|
      ensures FrameNoted(g'.open[k], events, m)
    {
      FramesNotedStep(g, events, n, unit, k);
    }
    if Closes(g, events[n]) {
      ClosedNoted(g, events, n, unit);
    }
  }

  lemma {:induction false} RunNoted(events: seq<Event>, n: nat, unit: Unit)
    requires n <= |events|
    ensures Noted(FollowAll(NOTHING, events[..n], unit), events, n)
    decreases n
  {
    if n > 0 {
      RunNoted(events, n - 1, unit);
      assert events[..n][..n - 1] == events[..n - 1];
      NotedStep(FollowAll(NOTHING, events[..n - 1], unit), events, n - 1, unit);
    }
  }

  // ----- totals that are exact despite reopenings

  /** Call i starts the location of `s` again while `s` is open. */
  predicate Reopens(events: seq<Event>, s: Section, i: int) {
    s.tikAt < i < s.takAt && i < |events| && Starts(events[i], s.loc)
  }

  /** No reopening of the section loses a whole unit. */
  ghost predicate LosesNothing(events: seq<Event>, s: Section, unit: Unit) {
    forall i | Reopens(events, s, i) :: Elapsed(s.end, events[i].now, unit) == Elapsed(s.end, s.start, unit)
  }

  lemma ResumedExactly(events: seq<Event>, s: Section, unit: Unit)
    requires Monotone(events) && SectionNoted(s, events)
    ensures LosesNothing(events, s, unit) <==> Elapsed(s.end, s.resumed, unit) == Elapsed(s.end, s.start, unit)
  {
    var j := LastStart(events, s.takAt, s.loc);
    if j > s.tikAt {
      assert Reopens(events, s, j);
    }
    forall i | Reopens(events, s, i)
      ensures Elapsed(s.end, s.resumed, unit) <= Elapsed(s.end, events[i].now, unit) <= Elapsed(s.end, s.start, unit)
    {
      ElapsedMonotone(s.end, s.resumed, events[i].now, unit);
      ElapsedMonotone(s.end, events[i].now, s.start, unit);
    }
  }

  /**
   With reopenings, a monotone clock never charges too much. A location's total is exact precisely
   when no call that starts it again while it is open comes a whole unit later than it matters: the
   time from that call to the end, truncated, is the time from the start.
   */
  lemma {:induction false} TotalExactIffNothingLost(events: seq<Event>, unit: Unit, loc: Location)
    requires Matched(events, unit) && Monotone(events)
    requires loc in PlayAll(FRESH, events, unit).timers
    ensures var time, g := PlayAll(FRESH, events, unit).timers[loc].time, FollowAll(NOTHING, events, unit);
            && time <= TrueTime(g.closed, loc, unit)
            && (time == TrueTime(g.closed, loc, unit) <==>
                forall k | 0 <= k < |g.closed| && g.closed[k].loc == loc :: LosesNothing(events, g.closed[k], unit))
  {
    TotalsNeverTooLarge(events, unit, loc);
    assert events[..|events|] == events;
    RunNoted(events, |events|, unit);
    var g := FollowAll(NOTHING, events, unit);
    forall k | 0 <= k < |g.closed|
      ensures LosesNothing(events, g.closed[k], unit)
              <==> Elapsed(g.closed[k].end, g.closed[k].resumed, unit)
                   == Elapsed(g.closed[k].end, g.closed[k].start, unit)
    {
      ResumedExactly(events, g.closed[k], unit);
    }
  }

  /** Counted in single ticks of the clock: exact if and only if every reopening is at the very start. */
  lemma {:induction false} TickTotalExactIff(events: seq<Event>, loc: Location)
    requires Matched(events, 1) && Monotone(events)
    requires loc in PlayAll(FRESH, events, 1).timers
    ensures var time, g := PlayAll(FRESH, events, 1).timers[loc].time, FollowAll(NOTHING, events, 1);
            time == TrueTime(g.closed, loc, 1) <==>
            forall k, i | 0 <= k < |g.closed| && g.closed[k].loc == loc && Reopens(events, g.closed[k], i) ::
              events[i].now <= g.closed[k].start
  {
    TotalExactIffNothingLost(events, 1, loc);
    assert events[..|events|] == events;
    RunNoted(events, |events|, 1);
    var g := FollowAll(NOTHING, events, 1);
    forall k | 0 <= k < |g.closed|
      ensures LosesNothing(events, g.closed[k], 1)
              <==> forall i | Reopens(events, g.closed[k], i) :: events[i].now <= g.closed[k].start
    {
      TickLosesNothing(events, g.closed[k]);
    }
  }

  lemma TickLosesNothing(events: seq<Event>, s: Section)
    requires Monotone(events) && SectionNoted(s, events)
    ensures LosesNothing(events, s, 1) <==> forall i | Reopens(events, s, i) :: events[i].now <= s.start
  {
    forall i | Reopens(events, s, i)
      ensures Elapsed(s.end, events[i].now, 1) == Elapsed(s.end, s.start, 1) <==> events[i].now <= s.start
    {
      assert s.start <= events[i].now <= s.end;
    }
  }

  // ----- what the calls charge

  /** The clock before call n, and how many sections are open there. */
  function StateAt(events: seq<Event>, n: nat, unit: Unit): ClockState
    requires n <= |events|
  {
    PlayAll(FRESH, events[..n], unit)
  }

  function Height(events: seq<Event>, n: nat, unit: Unit): nat
    requires n <= |events|
  {
    |StateAt(events, n, unit).toTak|
  }

  function TimeOf(timers: Timers, loc: Location): int {
    if loc in timers then timers[loc].time else 0
  }

  predicate Charges(events: seq<Event>, i: nat, unit: Unit)
    requires i < |events|
  {
    events[i].Tak? && !TakThrows(StateAt(events, i, unit), events[i].loc)
  }

  /** By how much call i raises the total of the location it ends. */
  function ChargeAt(events: seq<Event>, i: nat, unit: Unit): int
    requires i < |events|
  {
    if !Charges(events, i, unit) then 0
    else
      var s := StateAt(events, i, unit);
      var id := ClosedLocation(s, events[i].loc);
      TimeOf(StateAt(events, i + 1, unit).timers, id) - TimeOf(s.timers, id)
  }

  /** The charges, from call j up to call n, that are made with `height` sections open. */
  function ChargesAtHeight(events: seq<Event>, j: nat, n: nat, height: nat, unit: Unit): int
    requires j <= n <= |events|
    decreases n
  {
    if j == n then 0
    else
      ChargesAtHeight(events, j, n - 1, height, unit)
      + if Height(events, n - 1, unit) == height then ChargeAt(events, n - 1, unit) else 0
  }

  /** Call i ends the section that call j opened: in between that section stays open. */
  ghost predicate Pairs(events: seq<Event>, j: nat, i: nat, unit: Unit) {
    && j < i < |events| && events[j].Tik? && Charges(events, i, unit)
    && Height(events, j, unit) + 1 == Height(events, i, unit)
    && OpenSince(events, j, i, Height(events, i, unit), unit)
  }

  /** From behind call j up to call n at least `height` sections are open. */
  ghost predicate OpenSince(events: seq<Event>, j: nat, n: nat, height: nat, unit: Unit)
    requires n <= |events|
  {
    forall m: nat | j < m <= n :: Height(events, m, unit) >= height
  }

  // ----- prefixes of a run

  lemma {:induction false} OrderlyPrefix(events: seq<Event>, n: nat, unit: Unit)
    requires n <= |events| && Matched(events, unit) && NoReopening(events, unit)
    ensures Matched(events[..n], unit) && NoReopening(events[..n], unit)
    decreases |events| - n
  {
    if n == |events| {
      assert events[..n] == events;
    } else {
      OrderlyPrefix(events, n + 1, unit);
      assert events[..n + 1][..n] == events[..n];
    }
  }

  ghost predicate StartsKnown(s: ClockState, g: Trace) {
    forall k | 0 <= k < |g.open| :: g.open[k].loc in s.starts && s.starts[g.open[k].loc] == g.open[k].start
  }

  /** The clock and the reference agree before every call, and no open section has been restarted. */
  lemma {:induction false} AgreeAt(events: seq<Event>, n: nat, unit: Unit)
    requires n <= |events| && Matched(events, unit) && NoReopening(events, unit)
    ensures var s, g := StateAt(events, n, unit), FollowAll(NOTHING, events[..n], unit);
            s.toTak == Locations(g.open) && StartsAreLast(g) && StartsKnown(s, g)
  {
    OrderlyPrefix(events, n, unit);
    RunMirrored(FRESH, events[..n], unit);
    NoReopeningKeepsStarts(events[..n], unit);
  }

  lemma {:induction false} NextState(events: seq<Event>, n: nat, unit: Unit)
    requires n < |events|
    ensures StateAt(events, n + 1, unit) == Play(StateAt(events, n, unit), events[n], unit)
    ensures FollowAll(NOTHING, events[..n + 1], unit) == Follow(FollowAll(NOTHING, events[..n], unit), events[n], unit)
  {
    assert events[..n + 1][..n] == events[..n];
  }

  lemma {:induction false} MatchedAt(events: seq<Event>, n: nat, unit: Unit)
    requires n < |events| && Matched(events, unit) && NoReopening(events, unit)
    ensures var g := FollowAll(NOTHING, events[..n], unit);
            Closes(g, events[n]) ==> Top(g).loc.file == events[n].loc.file && Top(g).loc.thread == events[n].loc.thread
  {
    OrderlyPrefix(events, n + 1, unit);
    assert events[..n + 1][..n] == events[..n];
  }

  /** The charge of a call is the time since the innermost open section was started. */
  lemma {:induction false} ChargeIsElapsed(events: seq<Event>, n: nat, unit: Unit)
    requires n < |events| && Matched(events, unit) && NoReopening(events, unit)
    ensures var g := FollowAll(NOTHING, events[..n], unit);
            && Height(events, n, unit) == |g.open|
            && (Charges(events, n, unit) <==> Closes(g, events[n]))
            && (Closes(g, events[n]) ==> ChargeAt(events, n, unit) == Elapsed(events[n].now, Top(g).start, unit))
  {
    var s, g := StateAt(events, n, unit), FollowAll(NOTHING, events[..n], unit);
    AgreeAt(events, n, unit);
    NextState(events, n, unit);
    MatchedAt(events, n, unit);
    if Closes(g, events[n]) {
      assert ClosedLocation(s, events[n].loc) == Top(g).loc;
    }
  }

  // ----- the reference's accumulator is the sum of these charges

  ghost predicate Accounted(g: Trace, events: seq<Event>, n: nat, unit: Unit, k: nat)
    requires n <= |events| && k < |g.open|
  {
    var f := g.open[k];
    && f.tikAt < n
    && Height(events, f.tikAt, unit) == k
    && OpenSince(events, f.tikAt, n, k + 1, unit)
    && f.inside == ChargesAtHeight(events, f.tikAt + 1, n, k + 2, unit)
  }

  ghost predicate AllAccounted(g: Trace, events: seq<Event>, n: nat, unit: Unit)
    requires n <= |events|
  {
    forall k | 0 <= k < |g.open| :: Accounted(g, events, n, unit, k)
  }

  lemma {:induction false} FramesFollow(g: Trace, e: Event, unit: Unit, k: nat)
    requires k < |g.open| && k < |Follow(g, e, unit).open|
    ensures var f, f' := g.open[k], Follow(g, e, unit).open[k];
            && f'.tikAt == f.tikAt
            && f'.inside == f.inside
                            + if Closes(g, e) && k + 2 == |g.open| then Elapsed(e.now, Top(g).start, unit) else 0
  {
  }

  lemma {:induction false} OldFrameStep(events: seq<Event>, n: nat, unit: Unit, k: nat, g: Trace, g': Trace)
    requires n < |events| && k < |g.open| && k < |g'.open|
    requires g' == Follow(g, events[n], unit) && Accounted(g, events, n, unit, k)
    requires Height(events, n, unit) == |g.open| && Height(events, n + 1, unit) == |g'.open|
    requires ChargeAt(events, n, unit) == if Closes(g, events[n]) then Elapsed(events[n].now, Top(g).start, unit) else 0
    ensures Accounted(g', events, n + 1, unit, k)
  {
    FramesFollow(g, events[n], unit, k);
    assert OpenSince(events, g.open[k].tikAt, n + 1, k + 1, unit);
  }

  lemma {:induction false} NewFrameStep(events: seq<Event>, n: nat, unit: Unit, g: Trace, g': Trace)
    requires n < |events| && events[n].Tik? && g.steps == n && g' == Follow(g, events[n], unit)
    requires Height(events, n, unit) == |g.open| && Height(events, n + 1, unit) == |g'.open|
    ensures Accounted(g', events, n + 1, unit, |g.open|)
  {
    assert g'.open[|g.open|] == Frame(events[n].loc, n, events[n].now, 0);
    assert OpenSince(events, n, n + 1, |g.open| + 1, unit);
  }

  lemma {:induction false} AccountedStep(events: seq<Event>, n: nat, unit: Unit, k: nat, g: Trace, g': Trace)
    requires n < |events| && Matched(events, unit) && NoReopening(events, unit)
    requires g == FollowAll(NOTHING, events[..n], unit) && g' == FollowAll(NOTHING, events[..n + 1], unit)
    requires g.steps == n && AllAccounted(g, events, n, unit) && k < |g'.open|
    ensures Accounted(g', events, n + 1, unit, k)
  {
    NextState(events, n, unit);
    ChargeIsElapsed(events, n, unit);
    AgreeAt(events, n + 1, unit);
    if k < |g.open| {
      OldFrameStep(events, n, unit, k, g, g');
    } else {
      NewFrameStep(events, n, unit, g, g');
    }
  }

  lemma {:induction false} RunAccounted(events: seq<Event>, n: nat, unit: Unit)
    requires n <= |events| && Matched(events, unit) && NoReopening(events, unit)
    ensures AllAccounted(FollowAll(NOTHING, events[..n], unit), events, n, unit)
    decreases n
  {
    if n > 0 {
      RunAccounted(events, n - 1, unit);
      RunNoted(events, n - 1, unit);
      var m := n - 1;
      var g, g' := FollowAll(NOTHING, events[..m], unit), FollowAll(NOTHING, events[..m + 1], unit);
      forall k | 0 <= k < |g'.open|
        ensures Accounted(g', events, n, unit, k)
      {
        AccountedStep(events, m, unit, k, g, g');
      }
    }
  }

  /** The call that opened the innermost section is the one paired with the call that ends it. */
  lemma {:induction false} PairedCall(events: seq<Event>, j: nat, i: nat, unit: Unit)
    requires Matched(events, unit) && NoReopening(events, unit) && Pairs(events, j, i, unit)
    ensures var g := FollowAll(NOTHING, events[..i], unit); g.open != [] && Top(g).tikAt == j
  {
    var g := FollowAll(NOTHING, events[..i], unit);
    ChargeIsElapsed(events, i, unit);
    RunAccounted(events, i, unit);
    var o := Top(g).tikAt;
    assert Accounted(g, events, i, unit, |g.open| - 1);
    assert Height(events, o, unit) == Height(events, j, unit) == |g.open| - 1;
  }

  /**
   On a clock that never runs backwards and with no location reopened: what the calls directly
   inside a section charge sums to at most what the call that ends it charges.
   */
  lemma {:induction false} ChargesInsideFit(events: seq<Event>, j: nat, i: nat, unit: Unit)
    requires Monotone(events) && Matched(events, unit) && NoReopening(events, unit)
    requires Pairs(events, j, i, unit)
    ensures ChargesAtHeight(events, j + 1, i, Height(events, i, unit) + 1, unit) <= ChargeAt(events, i, unit)
  {
    var g := FollowAll(NOTHING, events[..i], unit);
    ChargeIsElapsed(events, i, unit);
    PairedCall(events, j, i, unit);
    RunAccounted(events, i, unit);
    assert Accounted(g, events, i, unit, |g.open| - 1);
    NextState(events, i, unit);
    assert Monotone(events[..i + 1]);
    var closed := FollowAll(NOTHING, events[..i + 1], unit).closed;
    NestedDurationsFit(events[..i + 1], unit, |closed| - 1);
  }

  // ----- any run, whoever ends a section

  /** How often, before call n, a section was charged to `loc`. */
  function TimesCharged(events: seq<Event>, n: nat, loc: Location, unit: Unit): nat
    requires n <= |events|
  {
    if n == 0 then 0
    else
      var i := n - 1;
      TimesCharged(events, i, loc, unit)
      + if Charges(events, i, unit) && ClosedLocation(StateAt(events, i, unit), events[i].loc) == loc then 1 else 0
  }

  /** And how much. */
  function AmountCharged(events: seq<Event>, n: nat, loc: Location, unit: Unit): int
    requires n <= |events|
  {
    if n == 0 then 0
    else
      var i := n - 1;
      AmountCharged(events, i, loc, unit)
      + if Charges(events, i, unit) && ClosedLocation(StateAt(events, i, unit), events[i].loc) == loc
        then ChargeAt(events, i, unit) else 0
  }

  /** The time of the last start of `loc` before call n, or the epoch if there is none. */
  function LastStarted(events: seq<Event>, n: nat, loc: Location): Instant
    requires n <= |events|
  {
    if LastStart(events, n, loc) >= 0 then events[LastStart(events, n, loc)].now else 0
  }

  lemma {:induction false} StartsOfAnyRun(events: seq<Event>, n: nat, unit: Unit, loc: Location)
    requires n <= |events|
    ensures StartOf(StateAt(events, n, unit), loc) == LastStarted(events, n, loc)
    decreases n
  {
    if n > 0 {
      StartsOfAnyRun(events, n - 1, unit, loc);
      NextState(events, n - 1, unit);
      var i := n - 1;
      assert Starts(events[i], loc) ==> LastStart(events, n, loc) == i;
      assert !Starts(events[i], loc) ==> LastStart(events, n, loc) == LastStart(events, i, loc);
    }
  }

  /**
   Every call that ends a section, matched or not, charges the time since its own file and thread
   last started the section's line, or since the epoch if they never did.
   */
  lemma {:induction false} ChargeOfAnyRun(events: seq<Event>, i: nat, unit: Unit)
    requires i < |events| && Charges(events, i, unit)
    ensures var id := ClosedLocation(StateAt(events, i, unit), events[i].loc);
            ChargeAt(events, i, unit) == Elapsed(events[i].now, LastStarted(events, i, id), unit)
  {
    StartsOfAnyRun(events, i, unit, ClosedLocation(StateAt(events, i, unit), events[i].loc));
    NextState(events, i, unit);
  }

  /** A section that is still open is where it was pushed. */
  lemma {:induction false} StaysPushed(events: seq<Event>, j: nat, n: nat, unit: Unit)
    requires j < n <= |events| && events[j].Tik? && OpenSince(events, j, n, Height(events, j, unit) + 1, unit)
    ensures Height(events, n, unit) > Height(events, j, unit)
    ensures StateAt(events, n, unit).toTak[Height(events, j, unit)] == events[j].loc
    decreases n
  {
    NextState(events, n - 1, unit);
    assert Height(events, n, unit) >= Height(events, j, unit) + 1;
    if n - 1 > j {
      StaysPushed(events, j, n - 1, unit);
    }
  }

  /**
   Of any run, matched or not: a call that ends a section changes one total only, that of the line
   and column of the call that opened the section with the ending call's own file and thread.
   */
  lemma {:induction false} CallCharges(events: seq<Event>, j: nat, i: nat, unit: Unit)
    requires Pairs(events, j, i, unit)
    ensures var begun, ended := events[j].loc, events[i].loc;
            var id := Location(ended.func, begun.line, begun.column, ended.file, ended.thread);
            var before, after := StateAt(events, i, unit).timers, StateAt(events, i + 1, unit).timers;
            && begun.func == ended.func
            && after.Keys == before.Keys + {id}
            && (forall loc <- before | loc != id :: after[loc] == before[loc])
            && after[id].count == 1 + (if id in before then before[id].count else 0)
            && after[id].time == TimeOf(before, id) + Elapsed(events[i].now, LastStarted(events, i, id), unit)
  {
    StaysPushed(events, j, i, unit);
    ChargeOfAnyRun(events, i, unit);
    NextState(events, i, unit);
  }

  lemma {:induction false} ChargeStep(events: seq<Event>, i: nat, unit: Unit)
    requires i < |events|
    ensures var before, after := StateAt(events, i, unit), StateAt(events, i + 1, unit);
            after.timers == if Charges(events, i, unit)
                            then
                              Charged(before.timers, ClosedLocation(before, events[i].loc), ChargeAt(events, i, unit))
                            else before.timers
  {
    NextState(events, i, unit);
  }

  /** Totals that are the counted and summed charges. */
  ghost predicate IsTotal(timers: Timers, loc: Location, count: nat, time: int) {
    if loc in timers then count > 0 && timers[loc] == TimeStore(time, count) else count == 0 && time == 0
  }

  lemma TotalCharged(timers: Timers, loc: Location, count: nat, time: int, id: Location, amount: int)
    requires IsTotal(timers, loc, count, time)
    ensures if id == loc then IsTotal(Charged(timers, id, amount), loc, count + 1, time + amount)
            else IsTotal(Charged(timers, id, amount), loc, count, time)
  {
  }

  /** Counts and times of every run from a fresh clock are those of its charges. */
  lemma {:induction false} TotalsOfAnyRun(events: seq<Event>, n: nat, unit: Unit, loc: Location)
    requires n <= |events|
    ensures IsTotal(StateAt(events, n, unit).timers, loc, TimesCharged(events, n, loc, unit),
                    AmountCharged(events, n, loc, unit))
    decreases n
  {
    if n > 0 {
      var i := n - 1;
      TotalsOfAnyRun(events, i, unit, loc);
      ChargeStep(events, i, unit);
      if Charges(events, i, unit) {
        var s := StateAt(events, i, unit);
        TotalCharged(s.timers, loc, TimesCharged(events, i, loc, unit), AmountCharged(events, i, loc, unit),
                     ClosedLocation(s, events[i].loc), ChargeAt(events, i, unit));
      }
    }
  }
}
