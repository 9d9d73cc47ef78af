/** A program that the shipped machine fetches stale: the first instruction clears the word after it. */
module Lc3bStaleFetch {
  import opened Lc3bDatapath
  import opened Lc3bNumbers
  import opened Lc3bPipeline
  import opened Lc3bRuns
  import opened Lc3bMicrocode

  /** STW R0, R0, #2 at address 2, with every register zero: it stores zero to address 4. */
  const STORE: Word := Word(0x7002)

  const START: Word := Word(2)
  const NEXT: Word := Word(4)

  /** The store, the word 1 after it, and zero everywhere else. */
  function ProgramMemory(): Memory {
    Memory(seq(WORDS_IN_MEM, _ => Byte(0))[1 := Byte(0x02)][2 := Byte(0x01)],
           seq(WORDS_IN_MEM, _ => Byte(0))[1 := Byte(0x70)])
  }

  /** Power-on, with the program loaded. */
  function Loaded(): State {
    State(Arch(seq(LC3B_REGS, _ => ZERO), Cc(false, true, false), ProgramMemory(), START),
          DeLatch(ZERO, ZERO, false),
          AgexLatch(ZERO, ZERO, ZERO, Cc(false, false, false), ZERO, 0, false, EMPTY_CS.agex),
          MemLatch(ZERO, ZERO, ZERO, Cc(false, false, false), ZERO, 0, false, EMPTY_CS.agex.mem),
          SrLatch(ZERO, ZERO, ZERO, ZERO, ZERO, 0, false, EMPTY_CS.agex.mem.sr),
          0)
  }

  lemma SmallNumbers(n: nat)
    requires n >= 2
    ensures Number(1, n) == 1 && Number(2, n) == 2
  {
    hide Number;
    NextNumber(1, n);
    NextNumber(1, n - 1);
    NextNumber(2, n);
    NumberOfZero(n - 1);
    NumberOfZero(n - 2);
  }

  lemma IndexBitsOf()
    ensures ShiftRight(And(Low16(START).bits, 0xFFFF), 1) == ShiftRight(And(Low16(Low16(START)).bits, 0xFFFF), 1) == 1
    ensures ShiftRight(And(Low16(NEXT).bits, 0xFFFF), 1) == ShiftRight(And(Low16(Low16(NEXT)).bits, 0xFFFF), 1) == 2
    ensures Plus2(START) == NEXT
  {
  }

  lemma Indices()
    ensures WordIndex(START) == 1 && WordIndex(NEXT) == 2 && WordIndex(Low16(START)) == 1 && WordIndex(Low16(NEXT)) == 2
    ensures Plus2(START) == NEXT
  {
    hide Number, ShiftRight, And, Low16, Plus2;
    IndexBitsOf();
    SmallNumbers(15);
  }

  lemma StoreIndex()
    ensures ControlIndex(STORE) == 28
  {
    assert Or(ShiftLeft(ShiftRight(And(STORE.bits, 0xFFFF), 11), 1), ShiftRight(And(STORE.bits, 0x20), 5)) == 28;
    hide And, Or, ShiftLeft, ShiftRight;
    NextNumber(28, 6);
    NextNumber(14, 5);
    NextNumber(7, 4);
    NextNumber(3, 3);
    NextNumber(1, 2);
    NumberOfZero(1);
  }

  lemma StoreFields()
    ensures Sr1Field(STORE) == 0 && Sr2Field(STORE) == 0
  {
  }

  lemma StoreControls()
    ensures Decode(UCODE, STORE) == ReadDeCs(RowBits(StwRow()))
  {
    StoreIndex();
  }

  lemma LoadedWords()
    ensures LoadWord(ProgramMemory(), START) == LoadWord(ProgramMemory(), Low16(START)) == STORE
    ensures LoadWord(ProgramMemory(), NEXT) == LoadWord(ProgramMemory(), Low16(NEXT)) == Word(1)
  {
    Indices();
    hide WordIndex;
  }

  lemma StoreAddress()
    ensures AgexAddress(ReadDeCs(RowBits(StwRow())).agex, NEXT, ZERO, STORE) == NEXT
    ensures AgexResult(ReadDeCs(RowBits(StwRow())).agex, ZERO, ZERO, STORE) == ZERO
  {
  }

  /** The sequential machine has cleared the next word when it gets there. */
  lemma SequentialClears()
    ensures var here := IsaRun(UCODE, Loaded().arch, 1);
      here.pc == NEXT && LoadWord(here.mem, here.pc) == ZERO
  {
    hide Decode, AgexAddress, AgexResult, WordIndex;
    LoadedWords();
    StoreControls();
    StoreFields();
    StoreAddress();
    Indices();
    assert IsaRun(UCODE, Loaded().arch, 0) == Loaded().arch;
  }

  predicate Idle(s: State) { !s.agex.v && !s.mem.v && !s.sr.v }

  lemma FirstCycleMisses()
    ensures var t := Run(UCODE, Loaded(), 1);
      t.arch == Loaded().arch && t.cycleCount == 1 && !t.de.v && Idle(t)
    ensures Fetched(UCODE, Loaded(), 1) == 0
  {
    hide Decode, AgexAddress, AgexResult, LoadWord, Low16;
    assert Run(UCODE, Loaded(), 0) == Loaded() && Fetched(UCODE, Loaded(), 0) == 0;
  }

  lemma SecondCycleFetches(s: State)
    requires s.arch == Loaded().arch && s.cycleCount == 1 && !s.de.v && Idle(s)
    ensures Fetches(UCODE, s)
    ensures var t := Cycle(UCODE, s);
      && t.arch.mem == ProgramMemory() && t.arch.pc == NEXT && t.cycleCount == 2
      && t.de.v && t.de.ir == STORE && Idle(t)
  {
    hide Decode, AgexAddress, AgexResult, WordIndex, LoadWord;
    LoadedWords();
    Indices();
  }

  lemma TwoCycles()
    ensures var t := Run(UCODE, Loaded(), 2);
      && t.arch.mem == ProgramMemory() && t.arch.pc == NEXT && t.cycleCount == 2
      && t.de.v && t.de.ir == STORE && Idle(t)
    ensures Fetched(UCODE, Loaded(), 2) == 1
  {
    hide Cycle, Fetches, Loaded;
    FirstCycleMisses();
    SecondCycleFetches(Run(UCODE, Loaded(), 1));
  }

  lemma ThirdCycleFetches(s: State)
    requires s.arch.mem == ProgramMemory() && s.arch.pc == NEXT && s.cycleCount == 2
    requires s.de.v && s.de.ir == STORE && Idle(s)
    ensures Fetches(UCODE, s) && FetchedWord(s) == Word(1) && Unseen(s) == 1
  {
    hide WordIndex, LoadWord;
    StoreControls();
    StoreFields();
    LoadedWords();
  }

  /** The third cycle fetches the word as it was before the store, so that the pipeline executes another
      instruction than the sequential machine. */
  lemma ShippedMachineFetchesStale()
    ensures Empty(Loaded()) && Fetches(UCODE, Run(UCODE, Loaded(), 2))
    ensures FetchedWord(Run(UCODE, Loaded(), 2)) == Word(1)
    ensures !FetchesRight(UCODE, Loaded(), 2) && !FetchesAfterStores(UCODE, Loaded(), 2)
  {
    hide Run, IsaRun, Fetched, WordIndex, LoadWord, Cycle, Fetches, FetchedWord, Unseen;
    TwoCycles();
    ThirdCycleFetches(Run(UCODE, Loaded(), 2));
    LoadedWords();
    SequentialClears();
    IsaRunZero(UCODE, Loaded().arch);
  }
}
