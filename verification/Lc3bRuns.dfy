/** Whole runs of the pipeline: what the machine computes over any number of cycles, and how fast. */
module Lc3bRuns {
  import opened Lc3bDatapath
  import opened Lc3bPipeline

  function Run(store: ControlStore, s: State, n: nat): State
    decreases n
  {
    if n == 0 then s else Cycle(store, Run(store, s, n - 1))
  }

  function IsaRun(store: ControlStore, a: Arch, n: nat): Arch
    decreases n
  {
    if n == 0 then a else IsaStep(store, IsaRun(store, a, n - 1))
  }

  /** How many instructions have entered DE in the first `n` cycles. */
  function Fetched(store: ControlStore, s: State, n: nat): (k: nat)
    ensures k <= n
    decreases n
  {
    if n == 0 then 0
    else Fetched(store, s, n - 1) + One(Fetches(store, Run(store, s, n - 1)))
  }

  function One(b: bool): (n: nat)
    ensures n <= 1
  {
    if b then 1 else 0
  }

  predicate Empty(s: State) { !s.de.v && !s.agex.v && !s.mem.v && !s.sr.v }

  /** With nothing in flight the drained state is the machine's own. */
  lemma EmptyIsDrained(store: ControlStore, s: State)
    requires Empty(s)
    ensures Drain(store, s) == DrainAgex(s) == DrainMem(s) == s.arch && Inv(s)
  {
  }

  // ---------- self-modifying code ----------

  function Minus(k: nat, d: nat): nat { if d <= k then k - d else 0 }

  /** How many of the instructions fetched last have not reached the data cache: those in DE and AGEX. */
  function Unseen(s: State): nat { One(s.de.v) + One(s.agex.v) }

  /** The pipeline has fetched `k` instructions, and its partial drains hold the memories of the
      sequential machine as they were one or two instructions ago. */
  ghost predicate InStep(store: ControlStore, a: Arch, s: State, k: nat) {
    && Inv(s)
    && Unseen(s) <= k
    && Drain(store, s) == IsaRun(store, a, k)
    && DrainAgex(s).mem == IsaRun(store, a, k - One(s.de.v)).mem
    && DrainMem(s).mem == IsaRun(store, a, k - Unseen(s)).mem
  }

  /** The instructions in DE and AGEX leave the word to be fetched as it is. */
  ghost predicate NothingPending(store: ControlStore, a: Arch, s: State, k: nat) {
    var here := IsaRun(store, a, k);
    LoadWord(IsaRun(store, a, Minus(k, Unseen(s))).mem, here.pc) == LoadWord(here.mem, here.pc)
  }

  /** A valid fetch reads the memory as it was before the instructions in DE and AGEX. So it gets the word
      that the sequential machine executes exactly if they have not changed that word. */
  lemma FetchIsCurrent(store: ControlStore, a: Arch, s: State, k: nat)
    requires WellFormed(store) && InStep(store, a, s, k) && Fetches(store, s)
    ensures var here := IsaRun(store, a, k);
      && FetchedWord(s) == LoadWord(IsaRun(store, a, k - Unseen(s)).mem, here.pc)
      && (FetchedWord(s) == LoadWord(here.mem, here.pc) <==> NothingPending(store, a, s, k))
  {
    hide LoadWord, IsaExec, Drain, DrainAgex, DrainMem, AfterMem, Inv, WellFormed, Cycle, Low16;
    hide DepStall, MemStall, AgexBrStall, MemBrStall, DeBrStall;
    CycleRefines(store, s);
    CheckpointsShift(store, s);
    FetchMasksPc(AfterMem(s), s.arch.pc);
  }

  lemma CycleStaysInStep(store: ControlStore, a: Arch, s: State, k: nat)
    requires WellFormed(store) && InStep(store, a, s, k)
    requires Fetches(store, s) ==> NothingPending(store, a, s, k)
    ensures InStep(store, a, Cycle(store, s), k + One(Fetches(store, s)))
  {
    hide Drain, DrainAgex, DrainMem, AfterMem, Inv, WellFormed, NothingPending, IsaRun, IsaExec, FetchedWord;
    hide WriteBack, ToMem, ToSr, MemRead, NextPc, Decode, AgexBrStall, MemBrStall, DeBrStall;
    CycleRefines(store, s);
    CheckpointsShift(store, s);
    InvPreserved(store, s);
    if Fetches(store, s) {
      FetchIsCurrent(store, a, s, k);
      NextInstruction(store, a, k);
    }
  }

  lemma NextInstruction(store: ControlStore, a: Arch, k: nat)
    ensures IsaRun(store, a, k + 1) == IsaExec(store, IsaRun(store, a, k), LoadWord(IsaRun(store, a, k).mem, IsaRun(store, a, k).pc))
  {
    hide IsaExec, LoadWord;
  }

  /** If cycle `n` of the run fetches, no store to that word is pending. */
  ghost predicate FetchesAfterStores(store: ControlStore, s: State, n: nat) {
    Fetches(store, Run(store, s, n)) ==> NothingPending(store, s.arch, Run(store, s, n), Fetched(store, s, n))
  }

  /** If cycle `n` of the run fetches, it gets the word that the sequential machine executes. */
  ghost predicate FetchesRight(store: ControlStore, s: State, n: nat) {
    var here := IsaRun(store, s.arch, Fetched(store, s, n));
    Fetches(store, Run(store, s, n)) ==> FetchedWord(Run(store, s, n)) == LoadWord(here.mem, here.pc)
  }

  /** The whole run: started with nothing in flight, after any number of cycles the drained
      pipeline is the sequential machine after as many instructions as were fetched. */
  lemma {:induction false} PipelineRunsProgram(store: ControlStore, s: State, n: nat)
    requires WellFormed(store) && Empty(s)
    requires forall j :: 0 <= j < n ==> FetchesAfterStores(store, s, j)
    ensures InStep(store, s.arch, Run(store, s, n), Fetched(store, s, n))
    decreases n
  {
    hide Drain, DrainAgex, DrainMem, Inv, WellFormed, NothingPending, IsaRun, Fetches, Cycle;
    if n == 0 {
      EmptyIsDrained(store, s);
      assert IsaRun(store, s.arch, 0) == s.arch by { IsaRunZero(store, s.arch); }
    } else {
      PipelineRunsProgram(store, s, n - 1);
      assert FetchesAfterStores(store, s, n - 1);
      CycleStaysInStep(store, s.arch, Run(store, s, n - 1), Fetched(store, s, n - 1));
    }
  }

  /** The condition of the run is exact: all fetches of a run are right if and only if none of them comes
      before a pending store to its word. */
  lemma {:induction false} RunFetchesRight(store: ControlStore, s: State, n: nat)
    requires WellFormed(store) && Empty(s)
    ensures (forall j :: 0 <= j < n ==> FetchesRight(store, s, j)) <==> (forall j :: 0 <= j < n ==> FetchesAfterStores(store, s, j))
    decreases n
  {
    hide NothingPending, WellFormed, Fetches, Run, Fetched, IsaRun, LoadWord, FetchedWord, InStep;
    if n > 0 {
      RunFetchesRight(store, s, n - 1);
      if forall j :: 0 <= j < n - 1 ==> FetchesAfterStores(store, s, j) {
        PipelineRunsProgram(store, s, n - 1);
        if Fetches(store, Run(store, s, n - 1)) { FetchIsCurrent(store, s.arch, Run(store, s, n - 1), Fetched(store, s, n - 1)); }
        assert FetchesRight(store, s, n - 1) <==> FetchesAfterStores(store, s, n - 1);
      }
    }
  }

  /** Neither of the two instructions executed before the k-th one changes the word that the k-th
      one is fetched from. Instructions further back may. */
  ghost predicate StoresKeepDistance(store: ControlStore, a: Arch, k: nat) {
    var here := IsaRun(store, a, k);
    && LoadWord(IsaRun(store, a, Minus(k, 1)).mem, here.pc) == LoadWord(here.mem, here.pc)
    && LoadWord(IsaRun(store, a, Minus(k, 2)).mem, here.pc) == LoadWord(here.mem, here.pc)
  }

  /** A condition on the program alone that is enough whatever the stalls. */
  lemma DistanceSuffices(store: ControlStore, s: State, n: nat)
    requires StoresKeepDistance(store, s.arch, Fetched(store, s, n))
    ensures FetchesAfterStores(store, s, n)
  {
    hide IsaRun, LoadWord, Run, Fetched, Fetches;
  }

  lemma IsaRunZero(store: ControlStore, a: Arch)
    ensures IsaRun(store, a, 0) == a
  {
  }

  // ---------- progress ----------

  /** An upper bound on the hit-only cycles before the next fetch: a dependency waits for the
      youngest writer in flight to leave SR, a branch-stalling instruction has to leave MEM. */
  function Wait(store: ControlStore, s: State): (d: nat)
    ensures d <= 6
  {
    if s.de.v then
      (if !DepStall(store, s) then 0 else if s.agex.v then 3 else if s.mem.v then 2 else 1)
      + (if DeBrStall(store, s) then 3 else 0)
    else if AgexBrStall(s) then 2
    else if MemBrStall(s) then 1
    else 0
  }

  /** How many cycles in a row may miss, from this one on. */
  function Misses(cycle: nat): (r: nat)
    ensures r <= 2
  {
    var miss := (c: nat) => !DcacheReady(c) || !IcacheReady(c);
    if !miss(cycle) then 0 else if !miss(cycle + 1) then 1 else 2
  }

  lemma MissesCountDown(cycle: nat)
    ensures Misses(cycle) == 0 ==> DcacheReady(cycle) && IcacheReady(cycle)
    ensures Misses(cycle) > 0 ==> Misses(cycle + 1) < Misses(cycle)
  {
  }

  function Patience(store: ControlStore, s: State): (p: nat)
    ensures p <= 20
  {
    3 * Wait(store, s) + Misses(s.cycleCount)
  }

  lemma WaitShrinks(store: ControlStore, s: State)
    requires Inv(s) && !Fetches(store, s)
    ensures Wait(store, Cycle(store, s)) <= Wait(store, s)
    ensures DcacheReady(s.cycleCount) && IcacheReady(s.cycleCount) ==> Wait(store, Cycle(store, s)) < Wait(store, s)
  {
  }

  lemma PatienceShrinks(store: ControlStore, s: State)
    requires Inv(s) && !Fetches(store, s)
    ensures Patience(store, Cycle(store, s)) < Patience(store, s)
  {
    hide Wait, Cycle, Fetches, Inv, Misses;
    WaitShrinks(store, s);
    MissesCountDown(s.cycleCount);
    CycleCounts(store, s);
  }

  lemma CycleCounts(store: ControlStore, s: State)
    ensures Cycle(store, s).cycleCount == s.cycleCount + 1
  {
  }

  lemma {:induction false} RunKeepsInv(store: ControlStore, s: State, n: nat)
    requires WellFormed(store) && Inv(s)
    ensures Inv(Run(store, s, n))
    decreases n
  {
    hide Inv, WellFormed, Cycle;
    if n > 0 {
      RunKeepsInv(store, s, n - 1);
      InvPreserved(store, Run(store, s, n - 1));
    }
  }

  lemma {:induction false} FetchedGrows(store: ControlStore, s: State, m: nat, n: nat)
    requires m <= n
    ensures Fetched(store, s, m) <= Fetched(store, s, n)
    decreases n
  {
    hide Cycle, Fetches, Run, One;
    if m < n { FetchedGrows(store, s, m, n - 1); }
  }

  /** From any cycle of any run a valid instruction enters DE at most `Patience` cycles later. */
  lemma {:induction false} NextFetch(store: ControlStore, s: State, m: nat)
    requires WellFormed(store) && Inv(s)
    ensures Fetched(store, s, m + Patience(store, Run(store, s, m)) + 1) > Fetched(store, s, m)
    decreases Patience(store, Run(store, s, m))
  {
    hide Inv, WellFormed, Cycle, Fetches, Patience;
    var t := Run(store, s, m);
    RunKeepsInv(store, s, m);
    if Fetches(store, t) {
      FetchedGrows(store, s, m + 1, m + Patience(store, t) + 1);
    } else {
      PatienceShrinks(store, t);
      NextFetch(store, s, m + 1);
      var p := Patience(store, Run(store, s, m + 1));
      FetchedGrows(store, s, m + 1 + p + 1, m + Patience(store, t) + 1);
    }
  }

  /** Cache misses, dependencies and branches never hold the pipeline for more than twenty cycles:
      every twenty-one cycles of any run fetch at least one instruction. */
  lemma {:induction false} PipelineProgresses(store: ControlStore, s: State, m: nat)
    requires WellFormed(store) && Inv(s)
    ensures Fetched(store, s, 21 * m) >= m
    decreases m
  {
    hide Inv, WellFormed, Cycle, Fetches;
    if m > 0 {
      PipelineProgresses(store, s, m - 1);
      var n := 21 * (m - 1);
      NextFetch(store, s, n);
      FetchedGrows(store, s, n + Patience(store, Run(store, s, n)) + 1, 21 * m);
    }
  }
}
