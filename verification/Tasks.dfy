/**
 The task structure: an inclusive iteration range together with the parameters every
 iteration shares. A block is cut off the front of the range in place.
 */
module Tasks {
  import opened MachineWords
  import opened Outcomes

  /** Argument values are opaque here: slicing and scheduling only copy them. */
  type Arguments = map<string, string>

  datatype Task = Task(experimentId: Word, n: Word, first: Word, second: Word, args: Arguments)
  {
    ghost predicate WellFormed() {
      first <= second
    }

    /** The true number of iterations; the machine computes it modulo 2^64. */
    ghost function Size(): int {
      second - first + 1
    }

    /** Same parameters, whatever the range. */
    ghost predicate SameParameters(other: Task) {
      experimentId == other.experimentId && n == other.n && args == other.args
    }
  }

  datatype OutOfRange = OutOfRange(value: Word, low: Word, high: Word)

  /** The range length as the machine computes it. */
  function RangeSize(t: Task): Word {
    AddWord(SubWord(t.second, t.first), 1)
  }

  /** The block cut off and the task that stays, or the refusal. */
  function Slice(t: Task, iterCount: Word): Result<(Task, Task), OutOfRange> {
    if iterCount == 0 || AddWord(t.first, iterCount) > t.second then
      Failure(OutOfRange(iterCount, 1, RangeSize(t)))
    else
      Success((t.(second := SubWord(AddWord(t.first, iterCount), 1)),
               t.(first := AddWord(t.first, iterCount))))
  }

  class TestSolveParam {
    var experimentId: Word
    var n: Word
    var first: Word
    var second: Word
    var args: Arguments

    constructor (t: Task)
      ensures Value() == t
    {
      experimentId, n, first, second, args := t.experimentId, t.n, t.first, t.second, t.args;
    }

    function Value(): Task
      reads this
    {
      Task(experimentId, n, first, second, args)
    }

    /** Cuts the first `iterCount` iterations off; a refusal leaves the range untouched. */
    method SliceAway(iterCount: Word) returns (r: Result<Task, OutOfRange>)
      modifies this`first
      ensures r.Failure? <==> Slice(old(Value()), iterCount).Failure?
      ensures r.Failure? ==> Value() == old(Value()) && r.error == Slice(old(Value()), iterCount).error
      ensures r.Success? ==> (r.value, Value()) == Slice(old(Value()), iterCount).value
    {
      if iterCount == 0 || AddWord(first, iterCount) > second {
        return Failure(OutOfRange(iterCount, 1, RangeSize(Value())));
      }
      var ret := Value();
      ret := ret.(second := SubWord(AddWord(first, iterCount), 1));
      first := AddWord(first, iterCount);
      return Success(ret);
    }
  }

  /**
   On a well-formed range a request is granted exactly when it is not empty and either leaves an
   iteration behind or wraps past the machine word. A granted request that leaves an iteration
   gives two non-empty, adjacent ranges that together are the old one.
   */
  lemma SliceSplitsRange(t: Task, iterCount: Word)
    requires t.WellFormed()
    ensures Slice(t, iterCount).Success?
       <==> 1 <= iterCount && (iterCount < t.Size() || t.first + iterCount >= WORD_RANGE)
    ensures Slice(t, iterCount).Success? && iterCount < t.Size() ==>
              var (block, rest) := Slice(t, iterCount).value;
              && block.WellFormed() && rest.WellFormed()
              && block.first == t.first && block.second + 1 == rest.first && rest.second == t.second
              && block.Size() == iterCount && rest.Size() == t.Size() - iterCount
              && block.SameParameters(t) && rest.SameParameters(t)
    ensures Slice(t, iterCount).Failure? && t.Size() < WORD_RANGE ==>
              Slice(t, iterCount).error == OutOfRange(iterCount, 1, t.Size())
  {
    if t.first + iterCount >= WORD_RANGE {
      assert AddWord(t.first, iterCount) == t.first + iterCount - WORD_RANGE;
    } else {
      assert AddWord(t.first, iterCount) == t.first + iterCount;
    }
  }

  /** The two ranges of a grant are non-empty, adjacent, and together the old one. */
  ghost predicate Splits(t: Task, block: Task, rest: Task) {
    && block.WellFormed() && rest.WellFormed()
    && block.first == t.first && block.second + 1 == rest.first && rest.second == t.second
  }

  /**
   A grant splits the range exactly when the end of its block does not wrap. If it does wrap, what
   is left is the whole range once more with everything before it that the wrap reaches.
   */
  lemma GrantSplitsIff(t: Task, iterCount: Word)
    requires t.WellFormed() && Slice(t, iterCount).Success?
    ensures var (block, rest) := Slice(t, iterCount).value;
            && (Splits(t, block, rest) <==> t.first + iterCount < WORD_RANGE)
            && (t.first + iterCount >= WORD_RANGE ==>
                  && rest.first == t.first + iterCount - WORD_RANGE < t.first && rest.second == t.second
                  && rest.Size() == t.Size() + (WORD_RANGE - iterCount)
                  && block.first == t.first
                  && block.second == if rest.first == 0 then WORD_RANGE - 1 else rest.first - 1)
  {
    var end := AddWord(t.first, iterCount);
    if t.first + iterCount >= WORD_RANGE {
      assert end == t.first + iterCount - WORD_RANGE;
      assert SubWord(end, 1) == if end == 0 then WORD_RANGE - 1 else end - 1;
    } else {
      assert end == t.first + iterCount;
      assert SubWord(end, 1) == end - 1;
    }
  }

  /** One iteration, and a request for all but one that a word can count: granted, and doubled. */
  lemma WrappedGrant(t: Task)
    requires t.first == t.second == 1
    ensures var (block, rest) := (t.(second := WORD_RANGE - 1), t.(first := 0));
            Slice(t, WORD_RANGE - 1) == Success((block, rest)) && t.Size() == 1 && rest.Size() == 2
  {
    assert AddWord(1, WORD_RANGE - 1) == 0;
    assert SubWord(0, 1) == WORD_RANGE - 1;
  }
}
