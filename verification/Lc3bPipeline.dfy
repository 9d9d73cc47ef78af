/** The five-stage pipeline as a transition system on values, next to the sequential machine it
    has to agree with. */
module Lc3bPipeline {
  import opened Lc3bDatapath

  type RegId = r: nat | r < LC3B_REGS
  type Registers = s: seq<Word> | |s| == LC3B_REGS witness seq(LC3B_REGS, _ => ZERO)
  type Bank = s: seq<Byte> | |s| == WORDS_IN_MEM witness seq(WORDS_IN_MEM, _ => Byte(0))

  /** Word i of memory is hi[i], lo[i]. */
  datatype Memory = Memory(lo: Bank, hi: Bank)

  /** The architectural state. */
  datatype Arch = Arch(regs: Registers, cc: Cc, mem: Memory, pc: Word)

  datatype DeLatch = DeLatch(npc: Word, ir: Word, v: bool)
  datatype AgexLatch = AgexLatch(npc: Word, sr1: Word, sr2: Word, cc: Cc, ir: Word, drid: RegId, v: bool, cs: AgexCs)
  datatype MemLatch = MemLatch(npc: Word, aluResult: Word, address: Word, cc: Cc, ir: Word, drid: RegId, v: bool, cs: MemCs)
  datatype SrLatch = SrLatch(npc: Word, data: Word, aluResult: Word, address: Word, ir: Word, drid: RegId, v: bool, cs: SrCs)

  datatype State = State(arch: Arch, de: DeLatch, agex: AgexLatch, mem: MemLatch, sr: SrLatch, cycleCount: nat)

  // ---------- memory ----------

  function LoadWord(m: Memory, address: Word): Word {
    JoinBytes(m.hi[WordIndex(address)], m.lo[WordIndex(address)])
  }

  function StoreBytes(m: Memory, address: Word, value: Word, we: (bool, bool)): Memory {
    var i := WordIndex(address);
    Memory(if we.0 then m.lo[i := LowByte(value)] else m.lo,
           if we.1 then m.hi[i := HighByte(value)] else m.hi)
  }

  // ---------- the sequential machine ----------

  /** What an instruction writes into its register. */
  function Selected<T>(mux: nat, address: T, loaded: T, npc: T, result: T): T {
    match mux
    case 0 => address
    case 1 => loaded
    case 2 => npc
    case _ => result
  }

  function Written(ldReg: bool, regs: Registers, r: RegId, v: Word): Registers { if ldReg then regs[r := v] else regs }

  /** One LC-3b instruction `ir`, executed to completion on `a`; `a.pc` is its own address. */
  function IsaExec(store: ControlStore, a: Arch, ir: Word): Arch {
    var cs := Decode(store, ir);
    var mcs := cs.agex.mem;
    var npc := Plus2(a.pc);
    var sr1 := a.regs[Sr1Field(ir)];
    var sr2 := a.regs[Sr2Field(ir)];
    var address := AgexAddress(cs.agex, npc, sr1, ir);
    var result := AgexResult(cs.agex, sr1, sr2, ir);
    var odd := IsOdd(address);
    var loaded := DcacheResult(if mcs.dcacheEn then LoadWord(a.mem, address) else ZERO, mcs.wordSize, odd);
    var stored :=
      if mcs.dcacheEn then
        StoreBytes(a.mem, address, DcacheFeed(result, mcs.wordSize, odd), WriteEnables(odd, mcs.dcacheWrite, mcs.wordSize))
      else a.mem;
    var value := Selected(mcs.sr.drValueMux, address, loaded, npc, result);
    var dr := DrField(cs.drMux, ir);
    Arch(Written(mcs.sr.ldReg, a.regs, dr, value),
         if mcs.sr.ldCc then CcOf(value) else a.cc,
         stored,
         match BranchLogic(true, mcs, a.cc, ir)
         case Sequential => npc
         case Target => address
         case TrapVector => loaded)
  }

  /** Fetch and execute. */
  function IsaStep(store: ControlStore, a: Arch): Arch {
    IsaExec(store, a, LoadWord(a.mem, a.pc))
  }

  // ---------- what each stage hands to the next one ----------

  function DrValue(s: SrLatch): Word {
    Selected(s.cs.drValueMux, s.address, s.data, s.npc, s.aluResult)
  }

  function WriteBack(a: Arch, s: SrLatch): Arch {
    Arch(if s.v && s.cs.ldReg then a.regs[s.drid := DrValue(s)] else a.regs,
         if s.v && s.cs.ldCc then CcOf(DrValue(s)) else a.cc,
         a.mem, a.pc)
  }

  lemma WriteBackParts(a: Arch, b: Arch, s: SrLatch)
    requires a.regs == b.regs && a.cc == b.cc
    ensures WriteBack(b, s) == Arch(WriteBack(a, s).regs, WriteBack(a, s).cc, b.mem, b.pc)
  {
  }

  function Odd(m: MemLatch): bool { IsOdd(m.address) }

  function ReadData(a: Memory, m: MemLatch): Word {
    DcacheResult(if m.v && m.cs.dcacheEn then LoadWord(a, m.address) else ZERO, m.cs.wordSize, Odd(m))
  }

  function WriteData(a: Memory, m: MemLatch): Memory {
    if m.v && m.cs.dcacheEn then
      StoreBytes(a, m.address, DcacheFeed(m.aluResult, m.cs.wordSize, Odd(m)),
                 WriteEnables(Odd(m), m.cs.dcacheWrite, m.cs.wordSize))
    else a
  }

  function ToSr(m: MemLatch, data: Word, v: bool): SrLatch {
    SrLatch(m.npc, data, m.aluResult, m.address, m.ir, m.drid, v, m.cs.sr)
  }

  function ToMem(x: AgexLatch): MemLatch {
    MemLatch(x.npc, AgexResult(x.cs, x.sr1, x.sr2, x.ir), AgexAddress(x.cs, x.npc, x.sr1, x.ir),
             x.cc, x.ir, x.drid, x.v, x.cs.mem)
  }

  function ToAgex(store: ControlStore, a: Arch, d: DeLatch, v: bool): AgexLatch {
    var cs := Decode(store, d.ir);
    AgexLatch(d.npc, a.regs[Sr1Field(d.ir)], a.regs[Sr2Field(d.ir)], a.cc, d.ir, DrField(cs.drMux, d.ir), v, cs.agex)
  }

  function PcMuxOf(m: MemLatch): PcMux { BranchLogic(m.v, m.cs, m.cc, m.ir) }

  function Resolve(pc: Word, mux: PcMux, target: Word, trap: Word): Word {
    match mux
    case Sequential => pc
    case Target => target
    case TrapVector => trap
  }

  // ---------- one clock cycle ----------

  function DcacheReady(cycle: nat): bool { cycle % 9 != 0 }
  function IcacheReady(cycle: nat): bool { cycle % 13 != 0 }

  function MemStall(s: State): bool { s.mem.v && s.mem.cs.dcacheEn && !DcacheReady(s.cycleCount) }

  function WritesNeeded(v: bool, ldReg: bool, drid: nat, cs: DeCs, ir: Word): bool {
    v && ldReg && ((drid == Sr2Field(ir) && cs.sr2Needed) || (drid == Sr1Field(ir) && cs.sr1Needed))
  }

  function DepStall(store: ControlStore, s: State): bool {
    var cs := Decode(store, s.de.ir);
    if !s.de.v then false
    else if cs.agex.mem.brOp then
      (s.agex.v && s.agex.cs.mem.sr.ldCc) || (s.mem.v && s.mem.cs.sr.ldCc) || (s.sr.v && s.sr.cs.ldCc)
    else
      || WritesNeeded(s.agex.v, s.agex.cs.mem.sr.ldReg, s.agex.drid, cs, s.de.ir)
      || WritesNeeded(s.mem.v, s.mem.cs.sr.ldReg, s.mem.drid, cs, s.de.ir)
      || WritesNeeded(s.sr.v, s.sr.cs.ldReg, s.sr.drid, cs, s.de.ir)
  }

  function DeBrStall(store: ControlStore, s: State): bool { s.de.v && Decode(store, s.de.ir).agex.mem.brStall }
  function AgexBrStall(s: State): bool { s.agex.v && s.agex.cs.mem.brStall }
  function MemBrStall(s: State): bool { s.mem.v && s.mem.cs.brStall }

  /** True when the fetch stage latches a valid instruction into DE. */
  function Fetches(store: ControlStore, s: State): bool {
    && !MemStall(s) && !DepStall(store, s)
    && !AgexBrStall(s) && !MemBrStall(s) && !DeBrStall(store, s) && IcacheReady(s.cycleCount)
  }

  function LoadsPc(store: ControlStore, s: State): bool {
    || Fetches(store, s)
    || (!MemStall(s) && !DepStall(store, s) && !AgexBrStall(s) && !DeBrStall(store, s)
        && MemBrStall(s) && PcMuxOf(s.mem) != Sequential)
  }

  /** The memory after this cycle's data-cache access; the fetch stage reads this one. */
  function AfterMem(s: State): Memory { if MemStall(s) then s.arch.mem else WriteData(s.arch.mem, s.mem) }

  /** The data-cache word as the MEM stage sees it: garbage on a miss. */
  function MemRead(s: State): Word {
    if MemStall(s) then DcacheResult(BUS_GARBAGE, s.mem.cs.wordSize, Odd(s.mem)) else ReadData(s.arch.mem, s.mem)
  }

  function FetchedWord(s: State): Word {
    if IcacheReady(s.cycleCount) then LoadWord(AfterMem(s), Low16(s.arch.pc)) else BUS_GARBAGE
  }

  function NextPc(store: ControlStore, s: State): Word {
    if LoadsPc(store, s) then Resolve(Plus2(s.arch.pc), PcMuxOf(s.mem), s.mem.address, MemRead(s)) else s.arch.pc
  }

  function Cycle(store: ControlStore, s: State): State {
    var memStall := MemStall(s);
    var depStall := DepStall(store, s);
    State(WriteBack(Arch(s.arch.regs, s.arch.cc, AfterMem(s), NextPc(store, s)), s.sr),
          if memStall || depStall then s.de else DeLatch(Plus2(s.arch.pc), FetchedWord(s), Fetches(store, s)),
          if memStall then s.agex else ToAgex(store, s.arch, s.de, s.de.v && !depStall),
          if memStall then s.mem else ToMem(s.agex),
          ToSr(s.mem, MemRead(s), s.mem.v && !memStall),
          s.cycleCount + 1)
  }

  // ---------- draining ----------

  function CompleteMem(a: Arch, m: MemLatch): Arch {
    if !m.v then a
    else
      var data := ReadData(a.mem, m);
      WriteBack(Arch(a.regs, a.cc, WriteData(a.mem, m), Resolve(a.pc, PcMuxOf(m), m.address, data)), ToSr(m, data, true))
  }

  function CompleteAgex(a: Arch, x: AgexLatch): Arch {
    if !x.v then a else CompleteMem(a, ToMem(x))
  }

  function CompleteDe(store: ControlStore, a: Arch, d: DeLatch): Arch {
    if !d.v then a else CompleteAgex(a, ToAgex(store, a, d, true))
  }

  /** The state once the instructions in SR and MEM are finished. */
  function DrainMem(s: State): Arch { CompleteMem(WriteBack(s.arch, s.sr), s.mem) }

  /** ... and the one in AGEX too. */
  function DrainAgex(s: State): Arch { CompleteAgex(DrainMem(s), s.agex) }

  /** Finish every instruction in flight, oldest first, and fetch nothing more. */
  function Drain(store: ControlStore, s: State): Arch { CompleteDe(store, DrainAgex(s), s.de) }

  // ---------- assumptions on the control store, and the invariant ----------

  /** The row's effect depends on the first (second) register operand. */
  predicate UsesAddress(cs: MemCs) {
    cs.dcacheEn || cs.brOp || cs.uncondOp || (cs.sr.drValueMux == 0 && (cs.sr.ldReg || cs.sr.ldCc))
  }

  predicate UsesResult(cs: MemCs) {
    (cs.dcacheEn && cs.dcacheWrite) || (cs.sr.drValueMux >= 3 && (cs.sr.ldReg || cs.sr.ldCc))
  }

  predicate ReadsSr1(cs: AgexCs) {
    || (UsesAddress(cs.mem) && cs.addressMux && cs.addr1Mux)
    || (UsesResult(cs.mem) && !(cs.aluResultMux && cs.aluk >= 3))
  }

  predicate ReadsSr2(cs: AgexCs) {
    UsesResult(cs.mem) && cs.aluResultMux && !cs.sr2Mux
  }

  predicate RedirectsStall(cs: MemCs) { cs.brOp || cs.uncondOp || cs.trapOp ==> cs.brStall }

  predicate WellFormedRow(cs: DeCs) {
    && RedirectsStall(cs.agex.mem)
    && (ReadsSr1(cs.agex) ==> cs.sr1Needed && !cs.agex.mem.brOp)
    && (ReadsSr2(cs.agex) ==> cs.sr2Needed && !cs.agex.mem.brOp)
  }

  predicate WellFormed(store: ControlStore) {
    forall i :: 0 <= i < |store| ==> WellFormedRow(store[i])
  }

  /** At most one valid branch-stalling instruction sits in DE/AGEX/MEM, and nothing valid is
      younger than it. */
  predicate Inv(s: State) {
    && (MemBrStall(s) ==> !s.agex.v && !s.de.v)
    && (AgexBrStall(s) ==> !s.de.v)
    && (s.mem.v ==> RedirectsStall(s.mem.cs))
    && (s.agex.v ==> RedirectsStall(s.agex.cs.mem))
  }

  lemma InvPreserved(store: ControlStore, s: State)
    requires WellFormed(store) && Inv(s)
    ensures Inv(Cycle(store, s))
  {
    assert WellFormedRow(Decode(store, s.de.ir));
  }

  // ---------- the pipeline refines the sequential machine ----------

  /** Draining a freshly fetched instruction is executing it on the sequential machine. */
  lemma CompleteDeIsIsaExec(store: ControlStore, a: Arch, ir: Word)
    ensures CompleteDe(store, a.(pc := Plus2(a.pc)), DeLatch(Plus2(a.pc), ir, true)) == IsaExec(store, a, ir)
  {
  }

  /** The byte lanes of an idle data cache carry zero whatever the address. */
  lemma IdleCacheIsZero(word: bool, odd: bool)
    ensures DcacheResult(ZERO, word, odd) == ZERO
  {
  }

  lemma UnreadAddress(x: AgexCs, npc: Word, ir: Word, sr1: Word, sr1': Word)
    requires ReadsSr1(x) ==> sr1 == sr1'
    requires UsesAddress(x.mem)
    ensures AgexAddress(x, npc, sr1, ir) == AgexAddress(x, npc, sr1', ir)
  {
    hide Low16, Sext, Field, Add, UsesResult;
  }

  lemma UnreadResult(x: AgexCs, ir: Word, sr1: Word, sr2: Word, sr1': Word, sr2': Word)
    requires ReadsSr1(x) ==> sr1 == sr1'
    requires ReadsSr2(x) ==> sr2 == sr2'
    requires UsesResult(x.mem)
    ensures AgexResult(x, sr1, sr2, ir) == AgexResult(x, sr1', sr2', ir)
  {
    hide Low16, Sext, Field, Shf, UsesAddress, UsesResult;
  }

  /** What a memory-stage instruction does depends only on the latch fields its control word uses. */
  lemma UnusedLatchFields(a: Arch, m: MemLatch, n: MemLatch)
    requires n == m.(address := n.address, aluResult := n.aluResult, cc := n.cc)
    requires UsesAddress(m.cs) ==> m.address == n.address
    requires UsesResult(m.cs) ==> m.aluResult == n.aluResult
    requires m.cs.brOp ==> m.cc == n.cc
    ensures CompleteMem(a, m) == CompleteMem(a, n)
  {
    IdleCacheIsZero(m.cs.wordSize, Odd(m));
    IdleCacheIsZero(m.cs.wordSize, Odd(n));
    hide DcacheResult, IsOdd, LoadWord, DcacheFeed, BranchMask, CcOf;
    assert ReadData(a.mem, m) == ReadData(a.mem, n);
    assert WriteData(a.mem, m) == WriteData(a.mem, n);
  }

  /** An instruction completes the same way whatever stands in an operand it does not read. */
  lemma UnreadOperands(a: Arch, x: AgexLatch, y: AgexLatch)
    requires y == x.(sr1 := y.sr1, sr2 := y.sr2, cc := y.cc)
    requires ReadsSr1(x.cs) ==> x.sr1 == y.sr1
    requires ReadsSr2(x.cs) ==> x.sr2 == y.sr2
    requires x.cs.mem.brOp ==> x.cc == y.cc
    ensures CompleteAgex(a, x) == CompleteAgex(a, y)
  {
    if UsesAddress(x.cs.mem) { UnreadAddress(x.cs, x.npc, x.ir, x.sr1, y.sr1); }
    if UsesResult(x.cs.mem) { UnreadResult(x.cs, x.ir, x.sr1, x.sr2, y.sr1, y.sr2); }
    hide AgexAddress, AgexResult, CompleteMem, UsesAddress, UsesResult, ReadsSr1, ReadsSr2;
    UnusedLatchFields(a, ToMem(x), ToMem(y));
  }

  /** Completing one instruction leaves alone what it does not write. */
  lemma CompleteMemFrame(a: Arch, m: MemLatch, r: RegId)
    ensures !(m.v && m.cs.sr.ldReg && m.drid == r) ==> CompleteMem(a, m).regs[r] == a.regs[r]
    ensures !(m.v && m.cs.sr.ldCc) ==> CompleteMem(a, m).cc == a.cc
    ensures !(m.v && m.cs.dcacheEn && m.cs.dcacheWrite) ==> CompleteMem(a, m).mem == a.mem
    ensures PcMuxOf(m) == Sequential ==> CompleteMem(a, m).pc == a.pc
  {
  }

  /** Completing one instruction is determined by the drained registers and condition codes of the
      operands it waited for: with no dependency stall, what the decode stage read this cycle is
      what it would read after every older instruction has finished. */
  lemma OperandsAreCurrent(store: ControlStore, s: State)
    requires WellFormed(store) && s.de.v && !DepStall(store, s)
    ensures CompleteAgex(DrainAgex(s), ToAgex(store, s.arch, s.de, true)) == Drain(store, s)
  {
    var cs := Decode(store, s.de.ir);
    assert WellFormedRow(cs);
    var r1, r2 := Sr1Field(s.de.ir), Sr2Field(s.de.ir);
    var a0 := WriteBack(s.arch, s.sr);
    var a1 := DrainMem(s);
    var older := DrainAgex(s);
    CompleteMemFrame(a0, s.mem, r1);
    CompleteMemFrame(a0, s.mem, r2);
    CompleteMemFrame(a1, ToMem(s.agex), r1);
    CompleteMemFrame(a1, ToMem(s.agex), r2);
    hide CompleteMem, ReadsSr1, ReadsSr2, RedirectsStall, Decode, Sr1Field, Sr2Field, AgexAddress, AgexResult, DrField, CcOf, DrValue;
    UnreadOperands(older, ToAgex(store, s.arch, s.de, true), ToAgex(store, older, s.de, true));
  }

  /** An instruction that does not redirect the PC completes independently of it. */
  lemma PcIsUntouched(a: Arch, x: AgexLatch, pc: Word)
    requires x.v ==> RedirectsStall(x.cs.mem) && !x.cs.mem.brStall
    ensures CompleteAgex(a, x).pc == a.pc
    ensures CompleteAgex(a.(pc := pc), x) == CompleteAgex(a, x).(pc := pc)
  {
    hide AgexAddress, AgexResult, ReadData, WriteData, CcOf, DrValue;
  }

  /** After this cycle the oldest two instructions have left the drained state exactly where the
      previous drain put them; only the PC may have moved on past a new fetch. */
  lemma OldestCommute(store: ControlStore, s: State)
    requires Inv(s) && !MemStall(s)
    ensures var t := Cycle(store, s);
            && DrainMem(t) == CompleteAgex(WriteBack(t.arch, t.sr), s.agex)
            && WriteBack(t.arch, t.sr) == DrainMem(s).(pc := if Fetches(store, s) then Plus2(s.arch.pc) else DrainMem(s).pc)
            && (Fetches(store, s) ==> DrainMem(s).pc == s.arch.pc)
  {
    hide AgexAddress, AgexResult, ReadData, StoreBytes, DcacheFeed, WriteEnables, IsOdd;
    hide CcOf, DrValue, ToAgex, Decode, FetchedWord;
    hide DcacheReady, IcacheReady, WritesNeeded;
  }

  lemma FetchMasksPc(m: Memory, pc: Word)
    ensures LoadWord(m, Low16(pc)) == LoadWord(m, pc)
  {
    PcBitsSelectWord(pc);
    hide Low16, JoinBytes, WordIndex;
  }

  /** With no branch in flight the two younger instructions do not care about the PC. */
  lemma YoungerCommute(store: ControlStore, s: State)
    requires WellFormed(store) && Inv(s) && !AgexBrStall(s) && !DeBrStall(store, s)
    ensures var pc := Plus2(s.arch.pc);
            var early := ToAgex(store, s.arch, s.de, s.de.v);
            && DrainAgex(s).pc == DrainMem(s).pc
            && CompleteAgex(DrainMem(s).(pc := pc), s.agex) == DrainAgex(s).(pc := pc)
            && CompleteAgex(DrainAgex(s), early).pc == DrainMem(s).pc
            && CompleteAgex(DrainAgex(s).(pc := pc), early) == CompleteAgex(DrainAgex(s), early).(pc := pc)
  {
    assert WellFormedRow(Decode(store, s.de.ir));
    PcIsUntouched(DrainMem(s), s.agex, Plus2(s.arch.pc));
    PcIsUntouched(DrainAgex(s), ToAgex(store, s.arch, s.de, s.de.v), Plus2(s.arch.pc));
  }

  /** One clock cycle of the pipeline is one instruction of the sequential machine when a valid
      instruction enters DE, and no instruction otherwise. */
  lemma CycleRefines(store: ControlStore, s: State)
    requires WellFormed(store) && Inv(s)
    ensures Drain(store, Cycle(store, s))
            == if Fetches(store, s) then IsaExec(store, Drain(store, s), FetchedWord(s)) else Drain(store, s)
    ensures Fetches(store, s) ==> Drain(store, s).pc == s.arch.pc
  {
    if !MemStall(s) {
      OldestCommute(store, s);
      if s.de.v && !DepStall(store, s) { OperandsAreCurrent(store, s); }
      if Fetches(store, s) {
        YoungerCommute(store, s);
        CompleteDeIsIsaExec(store, Drain(store, s), FetchedWord(s));
      }
    }
    hide CompleteMem, CompleteAgex, Decode, PcMuxOf, RedirectsStall, FetchedWord, IsaExec, WriteBack;
    hide ToMem, WellFormed;
  }

  /** How the partial drains move: each checkpoint takes over the memory of the next younger one. */
  lemma CheckpointsShift(store: ControlStore, s: State)
    requires WellFormed(store) && Inv(s)
    ensures var t := Cycle(store, s);
            && DrainMem(t).mem == (if MemStall(s) then DrainMem(s) else DrainAgex(s)).mem
            && DrainAgex(t).mem == (if MemStall(s) || DepStall(store, s) then DrainAgex(s) else Drain(store, s)).mem
    ensures Fetches(store, s) ==> AfterMem(s) == DrainMem(s).mem
  {
    if !MemStall(s) {
      OldestCommute(store, s);
      if s.de.v && !DepStall(store, s) { OperandsAreCurrent(store, s); }
      if Fetches(store, s) { YoungerCommute(store, s); }
    }
    hide CompleteAgex, Decode, PcMuxOf, RedirectsStall, FetchedWord;
    hide ToMem, WellFormed;
  }

}
