/** The LC-3b instruction set in numbers, and the proof that the sequential machine with the shipped microcode
    is that instruction set. Registers hold what a C `int` of the simulator holds; all but a link register
    written at the end of memory are below 0x10000. */
module Lc3bIsa {
  import opened Counting
  import opened Lc3bDatapath
  import opened Lc3bNumbers
  import opened Lc3bArithmetic
  import opened Lc3bPipeline
  import opened Lc3bRuns
  import opened Lc3bMicrocode

  type File = s: seq<nat> | |s| == 8 witness seq(8, _ => 0)
  type Bytes = s: seq<nat> | |s| == 0x1_0000 witness seq(0x1_0000, _ => 0)

  datatype Machine = Machine(regs: File, cc: Cc, mem: Bytes, pc: nat)

  // ---------- the instruction set ----------

  /** The word that holds a byte, low byte first. */
  function WordAt(mem: Bytes, a: nat): nat
    requires a < 0x1_0000
  {
    mem[2 * (a / 2)] + 256 * mem[2 * (a / 2) + 1]
  }

  function PutWord(mem: Bytes, a: nat, v: nat): Bytes
    requires a < 0x1_0000
  {
    mem[2 * (a / 2) := v % 256][2 * (a / 2) + 1 := v / 256 % 256]
  }

  function SignOf(v: nat): Cc { Cc(v / 0x8000 % 2 == 1, v % 0x1_0000 == 0, v / 0x8000 % 2 == 0 && v % 0x1_0000 != 0) }

  function Follow(m: Machine): nat { (m.pc + 2) % 0x1_0000_0000 }

  /** An instruction that sets a register and the condition codes. */
  function Set(m: Machine, dr: nat, v: nat): Machine
    requires dr < 8
  {
    Machine(m.regs[dr := v], SignOf(v), m.mem, Follow(m))
  }

  /** A jump that leaves the address of the next instruction in register 7. */
  function Call(m: Machine, target: nat): Machine { m.(regs := m.regs[7 := Follow(m)], pc := target) }

  function Relative(base: nat, offset: int): (a: nat)
    ensures a < 0x1_0000
  {
    (base + offset) % 0x1_0000
  }

  predicate Wanted(cc: Cc, ir: nat) {
    (cc.n && ir / 2048 % 2 == 1) || (cc.z && ir / 1024 % 2 == 1) || (cc.p && ir / 512 % 2 == 1)
  }

  /** One instruction, by its opcode in the four highest bits. */
  function Execute(m: Machine, ir: nat): Machine {
    var dr := ir / 512 % 8;
    var a := m.regs[ir / 64 % 8];
    var b := if ir / 32 % 2 == 1 then Signed(ir, 16) % 0x1_0000 else m.regs[ir % 8];
    var next := Follow(m);
    match ir / 4096
    case 0 => m.(pc := if Wanted(m.cc, ir) then Relative(next, 2 * Signed(ir, 256)) else next)
    case 1 => Set(m, dr, (a + b) % 0x1_0000)
    case 2 => Set(m, dr, Signed(m.mem[Relative(a, Signed(ir, 32))], 128) % 0x1_0000)
    case 3 => m.(mem := m.mem[Relative(a, Signed(ir, 32)) := m.regs[dr] % 256], pc := next)
    case 4 => Call(m, if ir / 2048 % 2 == 1 then Relative(next, 2 * Signed(ir, 1024)) else a % 0x1_0000)
    case 5 => Set(m, dr, Meet(a, b, 16))
    case 6 => Set(m, dr, WordAt(m.mem, Relative(a, 2 * Signed(ir, 32))))
    case 7 => m.(mem := PutWord(m.mem, Relative(a, 2 * Signed(ir, 32)), m.regs[dr]), pc := next)
    case 9 => Set(m, dr, Differ(a, b, 16))
    case 12 => m.(pc := a % 0x1_0000)
    case 13 => Set(m, dr, ShiftedBy(a, ir % 16, ir / 16 % 2 == 1, ir / 32 % 2 == 1))
    case 14 => m.(regs := m.regs[dr := Relative(next, 2 * Signed(ir, 256))], pc := next)
    case 15 => Call(m, WordAt(m.mem, 2 * (ir % 256)))
    case _ => m.(pc := next)
  }

  /** Multiplied by a power of two, or divided by it: as it is, or with its sign. */
  function ShiftedBy(v: nat, amount: nat, right: bool, arithmetic: bool): nat {
    if !right then v * Pow2(amount) % 0x1_0000
    else if !arithmetic then v / Pow2(amount) % 0x1_0000
    else (if v % 0x1_0000 >= 0x8000 then v % 0x1_0000 - 0x1_0000 else v) / Pow2(amount) % 0x1_0000
  }

  function Step(m: Machine): Machine { Execute(m, WordAt(m.mem, m.pc % 0x1_0000)) }

  function Steps(m: Machine, n: nat): Machine
    decreases n
  {
    if n == 0 then m else Step(Steps(m, n - 1))
  }

  // ---------- what a simulator state stands for ----------

  function BytesOf(m: Memory): (s: Bytes)
    ensures forall i :: 0 <= i < 0x1_0000 ==> s[i] == ByteValue(if i % 2 == 0 then m.lo[i / 2] else m.hi[i / 2])
  {
    seq(0x1_0000, i requires 0 <= i < 0x1_0000 => ByteValue(if i % 2 == 0 then m.lo[i / 2] else m.hi[i / 2]))
  }

  function FileOf(regs: Registers): (s: File)
    ensures forall i :: 0 <= i < 8 ==> s[i] == Value(regs[i])
  {
    seq(8, i requires 0 <= i < 8 => Value(regs[i]))
  }

  function Meaning(a: Arch): Machine { Machine(FileOf(a.regs), a.cc, BytesOf(a.mem), Value(a.pc)) }

  // ---------- the datapath under any control word ----------

  function Result(cs: AgexCs, a: nat, b: nat, ir: nat): nat {
    var c := if cs.sr2Mux then Signed(ir, 16) % 0x1_0000 else b;
    if !cs.aluResultMux then Shifted(ir % 64, a)
    else
      match cs.aluk
      case 0 => (a + c) % 0x1_0000
      case 1 => Meet(a, c, 16)
      case 2 => Differ(a, c, 16)
      case 3 => c % 0x1_0000
      case _ => 0
  }

  function Loaded(cs: MemCs, mem: Bytes, a: nat): nat
    requires a < 0x1_0000
  {
    if !cs.dcacheEn then 0
    else if cs.wordSize then WordAt(mem, a)
    else Signed(mem[a], 128) % 0x1_0000
  }

  function Stored(cs: MemCs, mem: Bytes, a: nat, v: nat): Bytes
    requires a < 0x1_0000
  {
    if !cs.dcacheEn || !cs.dcacheWrite then mem
    else if cs.wordSize then PutWord(mem, a, v)
    else mem[a := v % 256]
  }

  function Target(cs: MemCs, cc: Cc, ir: nat, next: nat, address: nat, loaded: nat): nat {
    if cs.brOp then (if Wanted(cc, ir) then address else next)
    else if cs.uncondOp then address
    else if cs.trapOp then loaded
    else next
  }

  /** What an instruction does under a control word. */
  function Datapath(cs: DeCs, m: Machine, ir: nat): Machine {
    var x := cs.agex.mem;
    var dr := if cs.drMux then 7 else ir / 512 % 8;
    var a := m.regs[ir / 64 % 8];
    var b := m.regs[if ir / 0x2000 % 2 == 1 then ir / 512 % 8 else ir % 8];
    var next := Follow(m);
    var address := Address(cs.agex, next, a, ir);
    var result := Result(cs.agex, a, b, ir);
    var loaded := Loaded(x, m.mem, address);
    var value := Selected(x.sr.drValueMux, address, loaded, next, result);
    Machine(if x.sr.ldReg then m.regs[dr := value] else m.regs,
            if x.sr.ldCc then SignOf(value) else m.cc,
            Stored(x, m.mem, address, result),
            Target(x, m.cc, ir, next, address, loaded))
  }

  lemma ResultValue(cs: AgexCs, sr1: Word, sr2: Word, ir: Word)
    ensures Value(AgexResult(cs, sr1, sr2, ir)) == Result(cs, Value(sr1), Value(sr2), Value(ir))
  {
    hide Value, Sext, Field, Signed, Meet, Differ, Shf, Shifted, Alu;
    AluOther(cs.aluk, sr1, sr2);
    TwoValue();
    AluOther(cs.aluk, sr1, Sext(Field(ir, 0x1F), 5));
    Sext5Value(ir);
    AluValue(sr1, sr2);
    AluValue(sr1, Sext(Field(ir, 0x1F), 5));
    ShfValue(Field(ir, 0x3F), sr1);
    FieldValue(ir);
  }

  lemma AluOther(aluk: nat, one: Word, two: Word)
    ensures aluk > 3 ==> Alu(aluk, one, two) == ZERO
  {
  }

  lemma HalfAddress(v: nat)
    ensures v % 0x1_0000 / 2 == v / 2 % 0x8000
  {
    var q, r := v / 0x1_0000, v % 0x1_0000;
    assert v == 0x1_0000 * q + r;
    assert v / 2 == 0x8000 * q + r / 2;
  }

  lemma BytesOfWord(m: Memory, i: nat)
    requires i < WORDS_IN_MEM
    ensures BytesOf(m)[2 * i] == ByteValue(m.lo[i]) && BytesOf(m)[2 * i + 1] == ByteValue(m.hi[i])
  {
    hide ByteValue;
  }

  lemma WordValue(m: Memory, address: Word)
    ensures Value(LoadWord(m, address)) == WordAt(BytesOf(m), Value(address) % 0x1_0000)
  {
    hide Value, ByteValue, JoinBytes, WordIndex;
    WordIndexValue(address);
    HalfAddress(Value(address));
    BytesOfWord(m, WordIndex(address));
    hide BytesOf;
    JoinValue(m.hi[WordIndex(address)], m.lo[WordIndex(address)]);
  }

  lemma LoadedValue(cs: MemCs, m: Memory, address: Word)
    requires Value(address) < 0x1_0000
    ensures
      var read := if cs.dcacheEn then LoadWord(m, address) else ZERO;
      Value(DcacheResult(read, cs.wordSize, IsOdd(address))) == Loaded(cs, BytesOf(m), Value(address))
  {
    hide Value, LoadWord, BytesOf, WordAt, Signed, DcacheResult, IsOdd;
    if !cs.dcacheEn {
      IdleCacheIsZero(cs.wordSize, IsOdd(address));
      TwoValue();
    } else if cs.wordSize {
      WholeWord(m, address);
      WordValue(m, address);
    } else {
      OneByte(m, address);
    }
  }

  lemma WholeWord(m: Memory, address: Word)
    ensures DcacheResult(LoadWord(m, address), true, IsOdd(address)) == LoadWord(m, address)
  {
    hide JoinBytes, WordIndex, IsOdd;
  }

  lemma OneByte(m: Memory, address: Word)
    requires Value(address) < 0x1_0000
    ensures Value(DcacheResult(LoadWord(m, address), false, IsOdd(address))) == Signed(BytesOf(m)[Value(address)], 128) % 0x1_0000
  {
    hide Value, ByteValue, JoinBytes, WordIndex, DcacheResult, Signed, IsOdd;
    var i := WordIndex(address);
    PlaceOf(address);
    ReadByteValue(m.hi[i], m.lo[i], IsOdd(address));
  }

  lemma PutLow(m: Memory, i: nat, b: Byte)
    requires i < WORDS_IN_MEM
    ensures BytesOf(Memory(m.lo[i := b], m.hi)) == BytesOf(m)[2 * i := ByteValue(b)]
  {
    hide ByteValue;
  }

  lemma PutHigh(m: Memory, i: nat, b: Byte)
    requires i < WORDS_IN_MEM
    ensures BytesOf(Memory(m.lo, m.hi[i := b])) == BytesOf(m)[2 * i + 1 := ByteValue(b)]
  {
    hide ByteValue;
  }

  /** The place of a byte address: the word, and the half of it. */
  lemma PlaceOf(address: Word)
    requires Value(address) < 0x1_0000
    ensures WordIndex(address) == Value(address) / 2 && (IsOdd(address) <==> Value(address) % 2 == 1)
  {
    hide Value, WordIndex, Bit;
    WordIndexValue(address);
    TestedBits(address);
  }

  lemma StoredWord(m: Memory, address: Word, v: Word)
    requires Value(address) < 0x1_0000
    ensures BytesOf(StoreBytes(m, address, v, (true, true))) == PutWord(BytesOf(m), Value(address), Value(v))
  {
    hide Value, ByteValue, WordIndex, LowByte, HighByte, IsOdd, BytesOf;
    var i := WordIndex(address);
    PlaceOf(address);
    PutLow(m, i, LowByte(v));
    PutHigh(Memory(m.lo[i := LowByte(v)], m.hi), i, HighByte(v));
    LowByteValue(v);
    HighByteValue(v);
  }

  lemma StoredByte(m: Memory, address: Word, v: Word)
    requires Value(address) < 0x1_0000
    ensures
      var odd := IsOdd(address);
      BytesOf(StoreBytes(m, address, DcacheFeed(v, false, odd), (!odd, odd))) == BytesOf(m)[Value(address) := Value(v) % 256]
  {
    hide Value, ByteValue, WordIndex, LowByte, HighByte, IsOdd, BytesOf, DcacheFeed;
    var i, odd := WordIndex(address), IsOdd(address);
    PlaceOf(address);
    FeedBytes(v, odd);
    LowByteValue(v);
    if odd {
      PutHigh(m, i, LowByte(v));
    } else {
      PutLow(m, i, LowByte(v));
    }
  }

  lemma StoredValue(cs: MemCs, m: Memory, address: Word, v: Word)
    requires Value(address) < 0x1_0000
    ensures
      var odd := IsOdd(address);
      var after := StoreBytes(m, address, DcacheFeed(v, cs.wordSize, odd), WriteEnables(odd, cs.dcacheWrite, cs.wordSize));
      BytesOf(if cs.dcacheEn then after else m) == Stored(cs, BytesOf(m), Value(address), Value(v))
  {
    hide Value, BytesOf, DcacheFeed, IsOdd, PutWord, StoreBytes;
    FeedBytes(v, IsOdd(address));
    if !cs.dcacheWrite {
      NothingStored(m, address, DcacheFeed(v, cs.wordSize, IsOdd(address)));
    } else if cs.wordSize {
      StoredWord(m, address, v);
    } else {
      StoredByte(m, address, v);
    }
  }

  lemma NothingStored(m: Memory, address: Word, v: Word)
    ensures StoreBytes(m, address, v, (false, false)) == m
  {
    hide WordIndex;
  }

  lemma PutRegister(regs: Registers, r: RegId, v: Word)
    ensures FileOf(regs[r := v]) == FileOf(regs)[r := Value(v)]
  {
    hide Value;
  }

  /** The words that an instruction computes on its way. */
  datatype Words = Words(npc: Word, address: Word, result: Word, loaded: Word)

  function WordsOf(cs: DeCs, a: Arch, ir: Word): Words {
    var npc, sr1 := Plus2(a.pc), a.regs[Sr1Field(ir)];
    var address := AgexAddress(cs.agex, npc, sr1, ir);
    Words(npc, address, AgexResult(cs.agex, sr1, a.regs[Sr2Field(ir)], ir),
          DcacheResult(if cs.agex.mem.dcacheEn then LoadWord(a.mem, address) else ZERO, cs.agex.mem.wordSize, IsOdd(address)))
  }

  function MemoryAfter(cs: MemCs, m: Memory, address: Word, v: Word): Memory {
    var odd := IsOdd(address);
    if cs.dcacheEn then StoreBytes(m, address, DcacheFeed(v, cs.wordSize, odd), WriteEnables(odd, cs.dcacheWrite, cs.wordSize)) else m
  }

  function PcAfter(cs: MemCs, cc: Cc, ir: Word, npc: Word, address: Word, loaded: Word): Word {
    match BranchLogic(true, cs, cc, ir)
    case Sequential => npc
    case Target => address
    case TrapVector => loaded
  }

  lemma ExecByWords(store: ControlStore, a: Arch, ir: Word)
    ensures
      var cs := Decode(store, ir);
      var x, w := cs.agex.mem, WordsOf(cs, a, ir);
      var value := Selected(x.sr.drValueMux, w.address, w.loaded, w.npc, w.result);
      IsaExec(store, a, ir) ==
        Arch(if x.sr.ldReg then a.regs[DrField(cs.drMux, ir) := value] else a.regs, if x.sr.ldCc then CcOf(value) else a.cc,
             MemoryAfter(x, a.mem, w.address, w.result), PcAfter(x, a.cc, ir, w.npc, w.address, w.loaded))
  {
    hide Decode, AgexAddress, AgexResult, DcacheResult, DcacheFeed, StoreBytes, WriteEnables, LoadWord, IsOdd, Sr1Field, Sr2Field,
         DrField, CcOf, BranchLogic, Plus2;
  }

  lemma WordsMean(cs: DeCs, a: Arch, ir: Word)
    ensures
      var w, m, v := WordsOf(cs, a, ir), Meaning(a), Value(ir);
      var sr1 := m.regs[v / 64 % 8];
      && Value(w.npc) == Follow(m)
      && Value(w.address) == Address(cs.agex, Follow(m), sr1, v) < 0x1_0000
      && Value(w.result) == Result(cs.agex, sr1, m.regs[if v / 0x2000 % 2 == 1 then v / 512 % 8 else v % 8], v)
      && Value(w.loaded) == Loaded(cs.agex.mem, m.mem, Value(w.address))
  {
    hide Value, AgexAddress, AgexResult, DcacheResult, LoadWord, IsOdd, Sr1Field, Sr2Field, Plus2, Address, Result, Loaded, BytesOf;
    var npc, sr1, sr2 := Plus2(a.pc), a.regs[Sr1Field(ir)], a.regs[Sr2Field(ir)];
    RegisterFields(ir, cs.drMux);
    Plus2Value(a.pc);
    AgexAddressValue(cs.agex, npc, sr1, ir);
    ResultValue(cs.agex, sr1, sr2, ir);
    LoadedValue(cs.agex.mem, a.mem, AgexAddress(cs.agex, npc, sr1, ir));
  }

  /** The sequential machine does in numbers what its control word says. */
  lemma ExecMeans(store: ControlStore, a: Arch, ir: Word)
    ensures Meaning(IsaExec(store, a, ir)) == Datapath(Decode(store, ir), Meaning(a), Value(ir))
  {
    hide Value, Decode, WordsOf, IsaExec, DrField, CcOf, MemoryAfter, PcAfter, Address, Result, Loaded, Stored, Target, SignOf, BytesOf, Follow;
    var cs := Decode(store, ir);
    var x, w := cs.agex.mem, WordsOf(cs, a, ir);
    ExecByWords(store, a, ir);
    WordsMean(cs, a, ir);
    MemoryMeans(x, a.mem, w.address, w.result);
    PcMeans(x, a.cc, ir, w.npc, w.address, w.loaded);
    RegisterFields(ir, cs.drMux);
    var value := Selected(x.sr.drValueMux, w.address, w.loaded, w.npc, w.result);
    SignIs(value);
    PutRegister(a.regs, DrField(cs.drMux, ir), value);
  }

  lemma MemoryMeans(cs: MemCs, m: Memory, address: Word, v: Word)
    requires Value(address) < 0x1_0000
    ensures BytesOf(MemoryAfter(cs, m, address, v)) == Stored(cs, BytesOf(m), Value(address), Value(v))
  {
    hide Value, BytesOf, DcacheFeed, IsOdd, StoreBytes, Stored, WriteEnables;
    StoredValue(cs, m, address, v);
  }

  lemma PcMeans(cs: MemCs, cc: Cc, ir: Word, npc: Word, address: Word, loaded: Word)
    ensures Value(PcAfter(cs, cc, ir, npc, address, loaded)) == Target(cs, cc, Value(ir), Value(npc), Value(address), Value(loaded))
  {
    hide Value, Bit;
    TestedBits(ir);
  }

  lemma SignIs(x: Word)
    ensures CcOf(x) == SignOf(Value(x))
  {
    hide Value, CcOf;
    CcValue(x);
  }

  // ---------- row by row ----------

  /** Under the row the datapath does what the instruction set says. */
  predicate Does(t: Row, m: Machine, ir: nat) { Datapath(ReadDeCs(RowBits(t)), m, ir) == Execute(m, ir) }

  lemma BrDoes(m: Machine, ir: nat)
    requires ir / 4096 == 0
    ensures Does(BrRow(), m, ir)
  {
    hide Signed, Meet, Differ, WordAt, PutWord, Pow2, Wanted, Shifted;
  }

  lemma AddRegDoes(m: Machine, ir: nat)
    requires ir / 4096 == 1 && ir / 32 % 2 == 0
    ensures Does(AddRegRow(), m, ir)
  {
    hide Signed, Meet, Differ, WordAt, PutWord, Pow2, Wanted, Shifted;
  }

  lemma AddImmDoes(m: Machine, ir: nat)
    requires ir / 4096 == 1 && ir / 32 % 2 == 1
    ensures Does(AddImmRow(), m, ir)
  {
    hide Signed, Meet, Differ, WordAt, PutWord, Pow2, Wanted, Shifted;
  }

  lemma LdbDoes(m: Machine, ir: nat)
    requires ir / 4096 == 2
    ensures Does(LdbRow(), m, ir)
  {
    hide Signed, Meet, Differ, WordAt, PutWord, Pow2, Wanted, Shifted;
  }

  lemma ShortParts(q: nat, r: nat)
    ensures (0x1_0000 * q + r) % 256 == r % 256 && (0x1_0000 * q + r) / 256 == 256 * q + r / 256 && (256 * q + r / 256) % 256 == r / 256 % 256
  {
  }

  lemma ShortWord(mem: Bytes, a: nat, v: nat)
    requires a < 0x1_0000
    ensures PutWord(mem, a, v % 0x1_0000) == PutWord(mem, a, v) && v % 0x1_0000 % 256 == v % 256
  {
    var q, r := v / 0x1_0000, v % 0x1_0000;
    assert v == 0x1_0000 * q + r;
    ShortParts(q, r);
  }

  /** In a store bit 13 makes the destination field the second source. */
  lemma StoreSource(ir: nat)
    requires ir / 4096 == 3 || ir / 4096 == 7
    ensures ir / 0x2000 % 2 == 1
  {
  }

  lemma StbDoes(m: Machine, ir: nat)
    requires ir / 4096 == 3
    ensures Does(StbRow(), m, ir)
  {
    StoreSource(ir);
    ShortWord(m.mem, 0, m.regs[ir / 512 % 8]);
    hide Signed, Meet, Differ, WordAt, PutWord, Pow2, Wanted, Shifted;
  }

  lemma JsrrDoes(m: Machine, ir: nat)
    requires ir / 4096 == 4 && ir / 2048 % 2 == 0
    ensures Does(JsrrRow(), m, ir)
  {
    hide Signed, Meet, Differ, WordAt, PutWord, Pow2, Wanted, Shifted;
  }

  lemma JsrDoes(m: Machine, ir: nat)
    requires ir / 4096 == 4 && ir / 2048 % 2 == 1
    ensures Does(JsrRow(), m, ir)
  {
    hide Signed, Meet, Differ, WordAt, PutWord, Pow2, Wanted, Shifted;
  }

  lemma AndRegDoes(m: Machine, ir: nat)
    requires ir / 4096 == 5 && ir / 32 % 2 == 0
    ensures Does(AndRegRow(), m, ir)
  {
    hide Signed, Meet, Differ, WordAt, PutWord, Pow2, Wanted, Shifted;
  }

  lemma AndImmDoes(m: Machine, ir: nat)
    requires ir / 4096 == 5 && ir / 32 % 2 == 1
    ensures Does(AndImmRow(), m, ir)
  {
    hide Signed, Meet, Differ, WordAt, PutWord, Pow2, Wanted, Shifted;
  }

  lemma LdwDoes(m: Machine, ir: nat)
    requires ir / 4096 == 6
    ensures Does(LdwRow(), m, ir)
  {
    hide Signed, Meet, Differ, WordAt, PutWord, Pow2, Wanted, Shifted;
  }

  lemma StwDoes(m: Machine, ir: nat)
    requires ir / 4096 == 7
    ensures Does(StwRow(), m, ir)
  {
    StoreSource(ir);
    ShortWord(m.mem, Relative(m.regs[ir / 64 % 8], 2 * Signed(ir, 32)), m.regs[ir / 512 % 8]);
    hide Signed, Meet, Differ, WordAt, PutWord, Pow2, Wanted, Shifted;
  }

  lemma XorRegDoes(m: Machine, ir: nat)
    requires ir / 4096 == 9 && ir / 32 % 2 == 0
    ensures Does(XorRegRow(), m, ir)
  {
    hide Signed, Meet, Differ, WordAt, PutWord, Pow2, Wanted, Shifted;
  }

  lemma XorImmDoes(m: Machine, ir: nat)
    requires ir / 4096 == 9 && ir / 32 % 2 == 1
    ensures Does(XorImmRow(), m, ir)
  {
    hide Signed, Meet, Differ, WordAt, PutWord, Pow2, Wanted, Shifted;
  }

  lemma JmpDoes(m: Machine, ir: nat)
    requires ir / 4096 == 12
    ensures Does(JmpRow(), m, ir)
  {
    hide Signed, Meet, Differ, WordAt, PutWord, Pow2, Wanted, Shifted;
  }

  lemma SameShift(signal: nat, v: nat)
    ensures Shifted(signal % 64, v) == ShiftedBy(v, signal % 16, signal / 16 % 2 == 1, signal / 32 % 2 == 1)
  {
    hide Pow2, Signed16;
    SignalFields(signal);
    SameSign(v);
    Commuted(v, Pow2(signal % 16));
  }

  lemma SignalFields(signal: nat)
    ensures signal % 64 % 16 == signal % 16 && signal % 64 / 16 % 2 == signal / 16 % 2 && signal % 64 / 32 % 2 == signal / 32 % 2
  {
    var q, r := signal / 64, signal % 64;
    assert signal == 64 * q + r;
    FieldOf(q, r);
    EvenMore(r / 16, 2 * q);
    EvenMore(r / 32, q);
  }

  lemma EvenMore(n: nat, q: nat)
    ensures (2 * q + n) % 2 == n % 2
  {
  }

  lemma FieldOf(q: nat, r: nat)
    ensures (64 * q + r) % 16 == r % 16 && (64 * q + r) / 16 == 4 * q + r / 16 && (64 * q + r) / 32 == 2 * q + r / 32
  {
  }

  lemma SameSign(v: nat)
    ensures Signed16(v) == if v % 0x1_0000 >= 0x8000 then v % 0x1_0000 - 0x1_0000 else v
  {
  }

  lemma Commuted(v: nat, p: nat)
    ensures v * p == p * v
  {
  }

  lemma ShfDoes(m: Machine, ir: nat)
    requires ir / 4096 == 13
    ensures Does(ShfRow(), m, ir)
  {
    hide Signed, Meet, Differ, WordAt, PutWord, Pow2, Wanted, Shifted, ShiftedBy;
    SameShift(ir, m.regs[ir / 64 % 8]);
  }

  lemma LeaDoes(m: Machine, ir: nat)
    requires ir / 4096 == 14
    ensures Does(LeaRow(), m, ir)
  {
    hide Signed, Meet, Differ, WordAt, PutWord, Pow2, Wanted, Shifted;
  }

  lemma TrapDoes(m: Machine, ir: nat)
    requires ir / 4096 == 15
    ensures Does(TrapRow(), m, ir)
  {
    hide Signed, Meet, Differ, WordAt, PutWord, Pow2, Wanted, Shifted;
  }

  /** Opcodes that are not in use do nothing, and so does RTI. */
  lemma NoDoes(m: Machine, ir: nat)
    requires ir / 4096 == 8 || ir / 4096 == 10 || ir / 4096 == 11
    ensures Does(RtiRow(), m, ir)
  {
    hide Signed, Meet, Differ, WordAt, PutWord, Pow2, Wanted, Shifted;
  }

  // ---------- the whole instruction set ----------

  lemma Steering(v: nat)
    requires v < 0x1_0000
    ensures 2 * (v / 2048 % 32) + v / 32 % 2 == 4 * (v / 4096) + 2 * (v / 2048 % 2) + v / 32 % 2 < 64
  {
  }

  /** The row of an opcode and its steering bits does what the instruction set says. */
  lemma RowDoes(m: Machine, ir: nat)
    requires ir < 0x1_0000
    ensures 4 * (ir / 4096) + 2 * (ir / 2048 % 2) + ir / 32 % 2 < 64
    ensures Does(RowText(4 * (ir / 4096) + 2 * (ir / 2048 % 2) + ir / 32 % 2), m, ir)
  {
    hide Does, BrRow, AddRegRow, AddImmRow, LdbRow, StbRow, JsrrRow, JsrRow, AndRegRow, AndImmRow, LdwRow, StwRow, RtiRow, XorRegRow, XorImmRow,
         JmpRow, ShfRow, LeaRow, TrapRow;
    match ir / 4096
    case 0 => BrDoes(m, ir);
    case 1 => if ir / 32 % 2 == 1 { AddImmDoes(m, ir); } else { AddRegDoes(m, ir); }
    case 2 => LdbDoes(m, ir);
    case 3 => StbDoes(m, ir);
    case 4 => if ir / 2048 % 2 == 1 { JsrDoes(m, ir); } else { JsrrDoes(m, ir); }
    case 5 => if ir / 32 % 2 == 1 { AndImmDoes(m, ir); } else { AndRegDoes(m, ir); }
    case 6 => LdwDoes(m, ir);
    case 7 => StwDoes(m, ir);
    case 9 => if ir / 32 % 2 == 1 { XorImmDoes(m, ir); } else { XorRegDoes(m, ir); }
    case 12 => JmpDoes(m, ir);
    case 13 => ShfDoes(m, ir);
    case 14 => LeaDoes(m, ir);
    case 15 => TrapDoes(m, ir);
    case _ => NoDoes(m, ir);
  }

  /** With the shipped microcode one instruction of the sequential machine is one of the instruction set. */
  lemma InstructionMeans(a: Arch, ir: Word)
    requires Value(ir) < 0x1_0000
    ensures Meaning(IsaExec(UCODE, a, ir)) == Execute(Meaning(a), Value(ir))
  {
    hide Value, Meaning, IsaExec, Execute, Datapath, RowText, ReadDeCs, RowBits, ControlIndex;
    ControlIndexValue(ir);
    Steering(Value(ir));
    RowDoes(Meaning(a), Value(ir));
    ExecMeans(UCODE, a, ir);
  }

  lemma FetchedIsShort(m: Memory, pc: Word)
    ensures Value(LoadWord(m, pc)) < 0x1_0000
  {
    hide Value, ByteValue, JoinBytes, WordIndex;
    var i := WordIndex(pc);
    JoinValue(m.hi[i], m.lo[i]);
    ByteRange(m.hi[i]);
    ByteRange(m.lo[i]);
  }

  lemma StepMeans(a: Arch)
    ensures Meaning(IsaStep(UCODE, a)) == Step(Meaning(a))
  {
    hide Value, IsaExec, Execute, LoadWord, WordAt, BytesOf, FileOf;
    FetchedIsShort(a.mem, a.pc);
    WordValue(a.mem, a.pc);
    InstructionMeans(a, LoadWord(a.mem, a.pc));
  }

  /** Any number of instructions. */
  lemma {:induction false} RunMeans(a: Arch, n: nat)
    ensures Meaning(IsaRun(UCODE, a, n)) == Steps(Meaning(a), n)
    decreases n
  {
    hide Meaning, IsaStep, Step;
    if n > 0 {
      RunMeans(a, n - 1);
      StepMeans(IsaRun(UCODE, a, n - 1));
    }
  }

  /** The simulator as shipped computes LC-3b programs: after 21 * m cycles from an empty pipeline its drained
      state is what the instruction set makes of the initial one in as many instructions as were fetched. */
  lemma ShippedMachineIsLc3b(s: State, m: nat)
    requires Empty(s)
    requires forall j :: 0 <= j < 21 * m ==> FetchesAfterStores(UCODE, s, j)
    ensures Fetched(UCODE, s, 21 * m) >= m
    ensures Meaning(Drain(UCODE, Run(UCODE, s, 21 * m))) == Steps(Meaning(s.arch), Fetched(UCODE, s, 21 * m))
  {
    hide Run, IsaRun, Fetched, FetchesAfterStores, Drain, Meaning, Steps;
    ShippedMachineRunsProgram(s, m);
    RunMeans(s.arch, Fetched(UCODE, s, 21 * m));
  }

  // ---------- the width of registers ----------

  predicate Short(m: Machine) { forall r :: 0 <= r < 8 ==> m.regs[r] < 0x1_0000 }

  predicate BytesFit(mem: Bytes) { forall i :: 0 <= i < 0x1_0000 ==> mem[i] < 256 }

  predicate Calls(ir: nat) { ir / 4096 == 4 || ir / 4096 == 15 }

  lemma {:induction false} BitwiseFits(a: nat, b: nat, n: nat)
    ensures Meet(a, b, n) < Pow2(n) && Differ(a, b, n) < Pow2(n)
    decreases n
  {
    if n > 0 { BitwiseFits(a / 2, b / 2, n - 1); }
  }

  lemma ShiftFits(v: nat, amount: nat, right: bool, arithmetic: bool)
    ensures ShiftedBy(v, amount, right, arithmetic) < 0x1_0000
  {
    hide Pow2;
  }

  lemma WordFits(mem: Bytes, a: nat)
    requires BytesFit(mem) && a < 0x1_0000
    ensures WordAt(mem, a) < 0x1_0000
  {
  }

  lemma SetShort(m: Machine, dr: nat, v: nat)
    requires Short(m) && dr < 8 && v < 0x1_0000
    ensures Short(Set(m, dr, v))
  {
  }

  lemma CallShort(m: Machine, target: nat)
    requires Short(m)
    ensures Short(Call(m, target)) <==> Follow(m) < 0x1_0000
  {
    assert Call(m, target).regs[7] == Follow(m);
  }

  /** Sixteen bits hold every register, except the link of a call whose next address lies beyond the memory. */
  lemma RegistersStayShort(m: Machine, ir: nat)
    requires Short(m) && BytesFit(m.mem) && m.pc < 0xFFFF_FFFE
    ensures Short(Execute(m, ir)) <==> !(Calls(ir) && m.pc + 2 >= 0x1_0000)
  {
    hide Signed, Meet, Differ, ShiftedBy, Wanted, PutWord, WordAt, Pow2, Set, Call, BytesFit, Relative;
    var dr, a, b := ir / 512 % 8, m.regs[ir / 64 % 8], if ir / 32 % 2 == 1 then Signed(ir, 16) % 0x1_0000 else m.regs[ir % 8];
    match ir / 4096
    case 1 => SetShort(m, dr, (a + b) % 0x1_0000);
    case 2 => SetShort(m, dr, Signed(m.mem[Relative(a, Signed(ir, 32))], 128) % 0x1_0000);
    case 4 => CallShort(m, if ir / 2048 % 2 == 1 then Relative(Follow(m), 2 * Signed(ir, 1024)) else a % 0x1_0000);
    case 5 =>
      BitwiseFits(a, b, 16);
      Powers();
      SetShort(m, dr, Meet(a, b, 16));
    case 6 =>
      WordFits(m.mem, Relative(a, 2 * Signed(ir, 32)));
      SetShort(m, dr, WordAt(m.mem, Relative(a, 2 * Signed(ir, 32))));
    case 9 =>
      BitwiseFits(a, b, 16);
      Powers();
      SetShort(m, dr, Differ(a, b, 16));
    case 13 =>
      ShiftFits(a, ir % 16, ir / 16 % 2 == 1, ir / 32 % 2 == 1);
      SetShort(m, dr, ShiftedBy(a, ir % 16, ir / 16 % 2 == 1, ir / 32 % 2 == 1));
    case 15 => CallShort(m, WordAt(m.mem, 2 * (ir % 256)));
    case _ =>
  }
}
