/** Unsigned 64-bit arithmetic, with the wrap-around of the machine written out. */
module MachineWords {
  const WORD_RANGE: nat := 0x1_0000_0000_0000_0000

  type Word = x: int | 0 <= x < WORD_RANGE

  function AddWord(a: Word, b: Word): Word {
    (a + b) % WORD_RANGE
  }

  function SubWord(a: Word, b: Word): Word {
    (a - b) % WORD_RANGE
  }

  function MulWord(a: Word, b: Word): Word {
    (a * b) % WORD_RANGE
  }

  /** Machine results differ from the true ones by whole turns only. */
  lemma WholeTurns(a: Word, b: Word)
    ensures (AddWord(a, b) - (a + b)) % WORD_RANGE == 0
    ensures (SubWord(a, b) - (a - b)) % WORD_RANGE == 0
    ensures (MulWord(a, b) - a * b) % WORD_RANGE == 0
  {
    RemainderTurns(a + b);
    RemainderTurns(a - b);
    RemainderTurns(a * b);
  }

  lemma RemainderTurns(x: int)
    ensures (x % WORD_RANGE - x) % WORD_RANGE == 0
  {
    assert x % WORD_RANGE - x == WORD_RANGE * -(x / WORD_RANGE);
  }
}
