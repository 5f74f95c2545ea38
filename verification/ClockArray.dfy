/**
 A clock that times nested sections of code: starting a section pushes it on a stack and notes
 the time, ending one pops it and adds the elapsed time to the section's total.
 */
module ClockArray {
  import opened Quotients

  /** Function, line, column, file and thread. */
  datatype Location = Location(func: string, line: string, column: string, file: string, thread: string)

  /** Nanoseconds since the clock's epoch. */
  type Instant = int

  datatype TimeStore = TimeStore(time: int, count: nat)

  type Timers = map<Location, TimeStore>

  type Unit = u: nat | u > 0 witness 1

  /** The elapsed time in whole units, truncated towards zero as the cast does. */
  function Elapsed(curr: Instant, prev: Instant, unit: Unit): int {
    if curr >= prev then (curr - prev) / unit else -((prev - curr) / unit)
  }

  /** As often as the unit fits into the time that has passed; the other way round it is negated. */
  lemma ElapsedCountsUnits(curr: Instant, prev: Instant, unit: Unit)
    requires curr >= prev
    ensures unit * Elapsed(curr, prev, unit) <= curr - prev < unit * (Elapsed(curr, prev, unit) + 1)
    ensures Elapsed(prev, curr, unit) == -Elapsed(curr, prev, unit)
  {
    var d := curr - prev;
    QuotientBounds(d, unit);
    assert unit * (d / unit + 1) == unit * (d / unit) + unit;
  }

  datatype ClockState = ClockState(timers: Timers, starts: map<Location, Instant>, toTak: seq<Location>)

  const FRESH: ClockState := ClockState(map[], map[], [])

  /** Adds one closed section to the totals. */
  function Charged(timers: Timers, loc: Location, time: int): Timers {
    if loc !in timers then timers[loc := TimeStore(time, 1)]
    else timers[loc := TimeStore(timers[loc].time + time, timers[loc].count + 1)]
  }

  function TikState(s: ClockState, loc: Location, now: Instant): ClockState {
    s.(starts := s.starts[loc := now], toTak := s.toTak + [loc])
  }

  /** No section is open, or the innermost one belongs to another function. */
  predicate TakThrows(s: ClockState, loc: Location) {
    |s.toTak| == 0 || s.toTak[|s.toTak| - 1].func != loc.func
  }

  /** Line and column come from the section, file and thread from the call that ends it. */
  function ClosedLocation(s: ClockState, loc: Location): Location
    requires !TakThrows(s, loc)
  {
    var top := s.toTak[|s.toTak| - 1];
    Location(loc.func, top.line, top.column, loc.file, loc.thread)
  }

  /** A start time that was never noted reads as the epoch, and is noted from then on. */
  function StartOf(s: ClockState, id: Location): Instant {
    if id in s.starts then s.starts[id] else 0
  }

  function TakState(s: ClockState, loc: Location, now: Instant, unit: Unit): ClockState
    requires !TakThrows(s, loc)
  {
    var id := ClosedLocation(s, loc);
    ClockState(Charged(s.timers, id, Elapsed(now, StartOf(s, id), unit)),
               s.starts[id := StartOf(s, id)],
               s.toTak[..|s.toTak| - 1])
  }

  // ----- merging

  function MergedStore(a: TimeStore, b: TimeStore): TimeStore {
    TimeStore(a.time + b.time, a.count + b.count)
  }

  /** Pointwise addition over the union of the keys. */
  function Merged(a: Timers, b: Timers): (m: Timers)
    ensures m.Keys == a.Keys + b.Keys
  {
    map loc | loc in a.Keys + b.Keys ::
      if loc in a && loc in b then MergedStore(a[loc], b[loc]) else if loc in a then a[loc] else b[loc]
  }

  lemma MergedAssociative(a: Timers, b: Timers, c: Timers)
    ensures Merged(Merged(a, b), c) == Merged(a, Merged(b, c))
  {
  }

  lemma MergedCommutative(a: Timers, b: Timers)
    ensures Merged(a, b) == Merged(b, a)
  {
  }

  lemma MergedUnit(a: Timers)
    ensures Merged(a, map[]) == a && Merged(map[], a) == a
  {
  }

  /** Charging a section is merging its own one-section clock. */
  lemma ChargedIsMerged(timers: Timers, loc: Location, time: int)
    ensures Charged(timers, loc, time) == Merged(timers, map[loc := TimeStore(time, 1)])
  {
  }

  // ----- the object

  class ClockArray {
    const unit: Unit
    var timers: Timers
    var starts: map<Location, Instant>
    var toTak: seq<Location>

    constructor (unit: Unit)
      ensures this.unit == unit && State() == FRESH
    {
      this.unit := unit;
      timers, starts, toTak := map[], map[], [];
    }

    constructor Copy(other: ClockArray)
      ensures unit == other.unit && State() == other.State()
    {
      unit := other.unit;
      timers, starts, toTak := other.timers, other.starts, other.toTak;
    }

    function State(): ClockState
      reads this
    {
      ClockState(timers, starts, toTak)
    }

    method Tik(loc: Location, now: Instant)
      modifies this
      ensures State() == TikState(old(State()), loc, now)
    {
      starts := starts[loc := now];
      toTak := toTak + [loc];
    }

    method TikLoc(loc: Location, now: Instant) returns (r: Location)
      modifies this
      ensures State() == TikState(old(State()), loc, now) && r == loc
    {
      Tik(loc, now);
      r := loc;
    }

    method Tak(loc: Location, now: Instant) returns (thrown: bool)
      modifies this
      ensures thrown <==> TakThrows(old(State()), loc)
      ensures State() == if thrown then old(State()) else TakState(old(State()), loc, now, unit)
    {
      if |toTak| == 0 || toTak[|toTak| - 1].func != loc.func {
        return true;
      }
      var top := toTak[|toTak| - 1];
      var id := Location(loc.func, top.line, top.column, loc.file, loc.thread);
      toTak := toTak[..|toTak| - 1];
      if id !in starts {
        starts := starts[id := 0];
      }
      var res := Elapsed(now, starts[id], unit);
      if id !in timers {
        timers := timers[id := TimeStore(res, 1)];
      } else {
        timers := timers[id := TimeStore(timers[id].time + res, timers[id].count + 1)];
      }
      return false;
    }

    method Reset() returns (thrown: bool)
      modifies this
      ensures thrown <==> old(toTak) != []
      ensures State() == if thrown then old(State()) else FRESH
    {
      if |toTak| != 0 {
        return true;
      }
      timers, starts := map[], map[];
      return false;
    }

    method ResetTimer(loc: Location)
      modifies this`timers
      ensures timers == old(timers) - {loc}
    {
      if loc in timers {
        timers := timers - {loc};
      }
    }

    /** Adds the other clock's totals; the two may be the same object. */
    method Advance(other: ClockArray)
      modifies this`timers
      ensures timers == Merged(old(timers), old(other.timers))
    {
      var left := other.timers.Keys;
      while left != {}
        invariant left <= old(other.timers).Keys
        invariant other.timers.Keys >= old(other.timers).Keys
        invariant forall loc <- left :: other.timers[loc] == old(other.timers)[loc]
        invariant timers.Keys == old(timers).Keys + (old(other.timers).Keys - left)
        invariant forall loc <- timers :: timers[loc] ==
                    if loc in left then old(timers)[loc] else Merged(old(timers), old(other.timers))[loc]
        decreases left
      {
        var loc :| loc in left;
        if loc in timers {
          timers := timers[loc := MergedStore(timers[loc], other.timers[loc])];
        } else {
          timers := timers[loc := other.timers[loc]];
        }
        left := left - {loc};
      }
    }
  }
}
