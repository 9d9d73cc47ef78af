/** The simulator itself: global state updated in place, stage by stage, oldest stage first. Each
    stage method is tied to the transition system of `Lc3bPipeline`; a whole cycle is one step of it. */
module Lc3bSimulator {
  import opened Lc3bDatapath
  import opened Lc3bPipeline
  import opened Lc3bRuns

  datatype Latches = Latches(de: DeLatch, agex: AgexLatch, mem: MemLatch, sr: SrLatch)

  /** The signals one stage generates for the stages before it, kept in globals by the source. */
  datatype SrSignals = SrSignals(data: Word, cc: Cc, vLdCc: bool, vLdReg: bool, regId: RegId)
  datatype MemSignals = MemSignals(stall: bool, pcMux: PcMux, target: Word, trap: Word, drid: RegId,
                                   vLdCc: bool, vLdReg: bool, vBrStall: bool)
  datatype AgexSignals = AgexSignals(drid: RegId, vLdCc: bool, vLdReg: bool, vBrStall: bool)
  datatype DeSignals = DeSignals(depStall: bool, vBrStall: bool)

  ghost function SrOf(s: State): SrSignals {
    SrSignals(DrValue(s.sr), CcOf(DrValue(s.sr)), s.sr.v && s.sr.cs.ldCc, s.sr.v && s.sr.cs.ldReg, s.sr.drid)
  }

  ghost function MemOf(s: State): MemSignals {
    MemSignals(MemStall(s), PcMuxOf(s.mem), s.mem.address, MemRead(s), s.mem.drid,
               s.mem.v && s.mem.cs.sr.ldCc, s.mem.v && s.mem.cs.sr.ldReg, MemBrStall(s))
  }

  ghost function AgexOf(s: State): AgexSignals {
    AgexSignals(s.agex.drid, s.agex.v && s.agex.cs.mem.sr.ldCc, s.agex.v && s.agex.cs.mem.sr.ldReg, AgexBrStall(s))
  }

  ghost function DeOf(store: ControlStore, s: State): DeSignals {
    DeSignals(DepStall(store, s), DeBrStall(store, s))
  }

  ghost function LatchesOf(s: State): Latches { Latches(s.de, s.agex, s.mem, s.sr) }

  class Simulator {
    const store: ControlStore
    const regs: array<Word>
    const memLo: array<Byte>
    const memHi: array<Byte>
    var pc: Word
    var cc: Cc
    var cycleCount: nat
    var ps: Latches
    var newPs: Latches
    var srOut: SrSignals
    var memOut: MemSignals
    var agexOut: AgexSignals
    var deOut: DeSignals
    var runBit: bool

    ghost predicate Valid() {
      && regs.Length == LC3B_REGS && memLo.Length == WORDS_IN_MEM && memHi.Length == WORDS_IN_MEM
      && memLo != memHi
    }

    ghost function MemoryNow(): Memory
      requires Valid()
      reads memLo, memHi
    {
      Memory(memLo[..], memHi[..])
    }

    ghost function StateNow(): State
      requires Valid()
      reads this, regs, memLo, memHi
    {
      State(Arch(regs[..], cc, MemoryNow(), pc), ps.de, ps.agex, ps.mem, ps.sr, cycleCount)
    }

    /** Power-on: latches, registers and memory are zero, the Z condition is set. */
    constructor (store: ControlStore)
      ensures Valid() && fresh(regs) && fresh(memLo) && fresh(memHi)
      ensures this.store == store && runBit && Empty(StateNow()) && cycleCount == 0
      ensures pc == ZERO && regs[..] == seq(LC3B_REGS, _ => ZERO) && cc == Cc(false, true, false)
      ensures MemoryNow() == Memory(seq(WORDS_IN_MEM, _ => Byte(0)), seq(WORDS_IN_MEM, _ => Byte(0)))
    {
      this.store := store;
      regs := new Word[LC3B_REGS](_ => ZERO);
      memLo := new Byte[WORDS_IN_MEM](_ => Byte(0));
      memHi := new Byte[WORDS_IN_MEM](_ => Byte(0));
      pc, cc, cycleCount, runBit := ZERO, Cc(false, true, false), 0, true;
      var none := EMPTY_CS.agex;
      ps := Latches(DeLatch(ZERO, ZERO, false),
                    AgexLatch(ZERO, ZERO, ZERO, Cc(false, false, false), ZERO, 0, false, none),
                    MemLatch(ZERO, ZERO, ZERO, Cc(false, false, false), ZERO, 0, false, none.mem),
                    SrLatch(ZERO, ZERO, ZERO, ZERO, ZERO, 0, false, none.mem.sr));
    }

    /** The data cache misses every ninth cycle; a hit reads first and then writes. */
    method DcacheAccess(address: Word, write: Word, we0: bool, we1: bool) returns (read: Word, ready: bool)
      requires Valid()
      modifies memLo, memHi
      ensures ready == DcacheReady(cycleCount) && (ready <==> cycleCount % 9 != 0)
      ensures read == if ready then LoadWord(old(MemoryNow()), address) else Word(0xfeed)
      ensures MemoryNow() == if ready then StoreBytes(old(MemoryNow()), address, write, (we0, we1)) else old(MemoryNow())
    {
      var i := WordIndex(address);
      if cycleCount % 9 == 0 {
        read, ready := BUS_GARBAGE, false;
      } else {
        ready := true;
        read := JoinBytes(memHi[i], memLo[i]);
        if we0 { memLo[i] := LowByte(write); }
        if we1 { memHi[i] := HighByte(write); }
      }
    }

    method IcacheAccess(address: Word) returns (read: Word, ready: bool)
      requires Valid()
      ensures ready == IcacheReady(cycleCount) && (ready <==> cycleCount % 13 != 0)
      ensures read == if ready then LoadWord(MemoryNow(), address) else Word(0xfeed)
    {
      var i := WordIndex(address);
      if cycleCount % 13 == 0 {
        read, ready := BUS_GARBAGE, false;
      } else {
        read, ready := JoinBytes(memHi[i], memLo[i]), true;
      }
    }

    method SrStage(ghost s: State)
      requires Valid() && ps == LatchesOf(s)
      modifies `srOut
      ensures srOut == SrOf(s)
    {
      hide CcOf;
      var r := ps.sr;
      var data;
      match r.cs.drValueMux {
        case 0 => data := r.address;
        case 1 => data := r.data;
        case 2 => data := r.npc;
        case _ => data := r.aluResult;
      }
      srOut := SrSignals(data, CcOf(data), r.cs.ldCc && r.v, r.cs.ldReg && r.v, r.drid);
    }

    method MemStage(ghost s: State)
      requires Valid() && ps == LatchesOf(s) && cycleCount == s.cycleCount && MemoryNow() == s.arch.mem
      modifies memLo, memHi, `memOut, `newPs
      ensures MemoryNow() == AfterMem(s)
      ensures memOut == MemOf(s)
      ensures newPs == old(newPs).(sr := ToSr(s.mem, MemRead(s), s.mem.v && !MemStall(s)))
    {
      hide LoadWord, StoreBytes, DcacheResult, DcacheFeed, WriteEnables, IsOdd, BranchLogic, DcacheReady;
      var m := ps.mem;
      var (we0, we1) := WriteEnables(IsOdd(m.address), m.cs.dcacheWrite, m.cs.wordSize);
      var word := DcacheFeed(m.aluResult, m.cs.wordSize, IsOdd(m.address));
      var read, ready := ZERO, false;
      if m.cs.dcacheEn && m.v {
        read, ready := DcacheAccess(m.address, word, we0, we1);
      }
      var stall := !ready && m.cs.dcacheEn && m.v;
      var data := DcacheResult(read, m.cs.wordSize, IsOdd(m.address));
      memOut := MemSignals(stall, BranchLogic(m.v, m.cs, m.cc, m.ir), m.address, data, m.drid,
                           m.v && m.cs.sr.ldCc, m.v && m.cs.sr.ldReg, m.v && m.cs.brStall);
      newPs := newPs.(sr := SrLatch(m.npc, data, m.aluResult, m.address, m.ir, m.drid, !stall && m.v, m.cs.sr));
    }

    method AgexStage(ghost s: State)
      requires Valid() && ps == LatchesOf(s) && memOut == MemOf(s)
      modifies `agexOut, `newPs
      ensures agexOut == AgexOf(s)
      ensures newPs == if MemStall(s) then old(newPs) else old(newPs).(mem := ToMem(s.agex))
    {
      hide AgexAddress, AgexResult, MemRead, PcMuxOf, MemStall;
      var x := ps.agex;
      var address := AgexAddress(x.cs, x.npc, x.sr1, x.ir);
      var result := AgexResult(x.cs, x.sr1, x.sr2, x.ir);
      agexOut := AgexSignals(x.drid, x.v && x.cs.mem.sr.ldCc, x.v && x.cs.mem.sr.ldReg, x.v && x.cs.mem.brStall);
      if !memOut.stall {
        newPs := newPs.(mem := MemLatch(x.npc, result, address, x.cc, x.ir, x.drid, x.v, x.cs.mem));
      }
    }

    method DependencyLogic(v: bool, sr2: nat, sr1: nat, sr1Need: bool, sr2Need: bool, brOp: bool) returns (stall: bool)
      ensures stall <==> v &&
                         if brOp then agexOut.vLdCc || memOut.vLdCc || srOut.vLdCc
                         else
                           || (agexOut.vLdReg && ((agexOut.drid == sr2 && sr2Need) || (agexOut.drid == sr1 && sr1Need)))
                           || (memOut.vLdReg && ((memOut.drid == sr2 && sr2Need) || (memOut.drid == sr1 && sr1Need)))
                           || (srOut.vLdReg && ((srOut.regId == sr2 && sr2Need) || (srOut.regId == sr1 && sr1Need)))
    {
      if !v { return false; }
      if brOp { return agexOut.vLdCc || memOut.vLdCc || srOut.vLdCc; }
      if agexOut.vLdReg && ((agexOut.drid == sr2 && sr2Need) || (agexOut.drid == sr1 && sr1Need)) { return true; }
      if memOut.vLdReg && ((memOut.drid == sr2 && sr2Need) || (memOut.drid == sr1 && sr1Need)) { return true; }
      return srOut.vLdReg && ((srOut.regId == sr2 && sr2Need) || (srOut.regId == sr1 && sr1Need));
    }

    /** Decode, then write the SR results back: the register file and condition codes are read
        before they are written, as in one clock edge. */
    method DeStage(ghost s: State)
      requires Valid() && ps == LatchesOf(s) && regs[..] == s.arch.regs && cc == s.arch.cc
      requires srOut == SrOf(s) && memOut == MemOf(s) && agexOut == AgexOf(s)
      modifies regs, `cc, `deOut, `newPs
      ensures deOut == DeOf(store, s)
      ensures newPs == if MemStall(s) then old(newPs)
                       else old(newPs).(agex := ToAgex(store, s.arch, s.de, s.de.v && !DepStall(store, s)))
      ensures regs[..] == WriteBack(s.arch, s.sr).regs && cc == WriteBack(s.arch, s.sr).cc
    {
      hide CcOf, MemRead, Sr1Field, Sr2Field, DrField, Decode, DrValue, PcMuxOf, MemStall;
      var d := ps.de;
      var cs := Decode(store, d.ir);
      var sr1, sr2 := Sr1Field(d.ir), Sr2Field(d.ir);
      var value1, value2 := regs[sr1], regs[sr2];
      var depStall := DependencyLogic(d.v, sr2, sr1, cs.sr1Needed, cs.sr2Needed, cs.agex.mem.brOp);
      assert depStall == DepStall(store, s);
      hide DepStall;
      deOut := DeSignals(depStall, d.v && cs.agex.mem.brStall);
      if !memOut.stall {
        newPs := newPs.(agex := AgexLatch(d.npc, value1, value2, cc, d.ir, DrField(cs.drMux, d.ir),
                                          !depStall && d.v, cs.agex));
      }
      if srOut.vLdCc { cc := srOut.cc; }
      if srOut.vLdReg { regs[srOut.regId] := srOut.data; }
    }

    method FetchStage(ghost s: State)
      requires Valid() && pc == s.arch.pc && cycleCount == s.cycleCount && MemoryNow() == AfterMem(s)
      requires memOut == MemOf(s) && agexOut == AgexOf(s) && deOut == DeOf(store, s)
      modifies `pc, `newPs
      ensures pc == NextPc(store, s)
      ensures newPs == if MemStall(s) || DepStall(store, s) then old(newPs)
                       else old(newPs).(de := DeLatch(Plus2(s.arch.pc), FetchedWord(s), Fetches(store, s)))
    {
      hide LoadWord, MemRead, DepStall, MemStall, DeBrStall, PcMuxOf, Decode, Low16, IcacheReady, AfterMem, Plus2;
      var npc := Plus2(pc);
      var word, icacheReady := IcacheAccess(Low16(pc));
      var stall := memOut.stall || deOut.depStall;
      var redirected := memOut.vBrStall && memOut.pcMux != Sequential;
      var brStall := agexOut.vBrStall || memOut.vBrStall || deOut.vBrStall;
      var ldPc := false;
      if !stall && !brStall && icacheReady { ldPc := true; }
      if !stall && !agexOut.vBrStall && !deOut.vBrStall && redirected { ldPc := true; }
      if ldPc {
        match memOut.pcMux {
          case Sequential => pc := Plus2(pc);
          case Target => pc := memOut.target;
          case TrapVector => pc := memOut.trap;
        }
      }
      if !stall {
        newPs := newPs.(de := DeLatch(npc, word, !brStall && icacheReady));
      }
    }

    /** One clock cycle, stage by stage, is one step of the transition system. */
    method ClockCycle()
      requires Valid()
      modifies this, regs, memLo, memHi
      ensures StateNow() == Cycle(store, old(StateNow())) && runBit == old(runBit)
    {
      hide MemRead, AfterMem, FetchedWord, NextPc, DepStall, MemStall, ToAgex, ToMem, WriteBack, DeBrStall, Fetches;
      hide PcMuxOf, CcOf, DrValue, SrOf, MemOf, AgexOf, DeOf, Plus2;
      ghost var s := StateNow();
      newPs := ps;
      SrStage(s);
      MemStage(s);
      AgexStage(s);
      DeStage(s);
      FetchStage(s);
      ps := newPs;
      cycleCount := cycleCount + 1;
      WriteBackParts(s.arch, Arch(s.arch.regs, s.arch.cc, AfterMem(s), NextPc(store, s)), s.sr);
    }

    /** Simulate `limit` cycles; the first PC of zero halts the machine after one more cycle. */
    method RunFor(limit: nat) returns (ghost cycles: nat)
      requires Valid()
      modifies this, regs, memLo, memHi
      ensures StateNow() == Run(store, old(StateNow()), cycles)
      ensures !old(runBit) ==> cycles == 0 && !runBit
      ensures cycles <= limit && (cycles < limit ==> !runBit)
      ensures forall j: nat :: j + 1 < cycles ==> Run(store, old(StateNow()), j).arch.pc != ZERO
      ensures old(runBit) ==> (!runBit <==> cycles > 0 && Run(store, old(StateNow()), cycles - 1).arch.pc == ZERO)
    {
      hide Cycle;
      cycles := 0;
      if !runBit { return; }
      ghost var start := StateNow();
      for i := 0 to limit
        invariant cycles == i && runBit
        invariant StateNow() == Run(store, start, cycles)
        invariant forall j: nat :: j < cycles ==> Run(store, start, j).arch.pc != ZERO
      {
        if pc == ZERO {
          ClockCycle();
          cycles := cycles + 1;
          runBit := false;
          return;
        }
        ClockCycle();
        cycles := cycles + 1;
      }
    }
  }
}
