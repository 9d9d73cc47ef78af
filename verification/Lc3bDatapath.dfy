/** The value-only helpers of the LC-3b pipeline simulator: sign extension, ALU, shifter, the
    byte-lane logic around the data cache, the branch decision, and the control-store word.
    A C `int` of the simulator is a 32-bit vector here; every value that reaches a helper is
    non-negative, so C's signed and unsigned readings of it agree. */
module Lc3bDatapath {
  import opened Counting

  /** A C `int`, as its 32 bits. */
  datatype Word = Word(bits: bv32)

  /** One byte of memory. */
  datatype Byte = Byte(bits: bv8)

  const WORDS_IN_MEM: nat := 0x8000
  const LC3B_REGS: nat := 8

  const ZERO: Word := Word(0)

  /** The number that the `n` low bits of `x` stand for. */
  function Number(x: bv32, n: nat): (v: nat)
    ensures v < Pow2(n)
  {
    if n == 0 then 0 else (if x & 1 == 1 then 1 else 0) + 2 * Number(x >> 1, n - 1)
  }

  // The operators on bits, by name.

  function Plus(x: bv32, y: bv32): bv32 { x + y }

  function And(x: bv32, y: bv32): bv32 { x & y }

  function Xor(x: bv32, y: bv32): bv32 { x ^ y }

  function Or(x: bv32, y: bv32): bv32 { x | y }

  function ShiftLeft(x: bv32, k: bv32): bv32
    requires k <= 15
  {
    x << k
  }

  function ShiftRight(x: bv32, k: bv32): bv32
    requires k <= 15
  {
    x >> k
  }

  function Low16(x: Word): Word { Word(And(x.bits, 0xFFFF)) }

  function Add(x: Word, y: Word): Word { Word(Plus(x.bits, y.bits)) }

  /** The address of the next instruction. */
  function Plus2(x: Word): Word { Word(Plus(x.bits, 2)) }

  /** The low bits of an instruction selected by `mask`. */
  function Field(ir: Word, mask: bv32): Word { Word(And(ir.bits, mask)) }

  predicate Bit(x: Word, mask: bv32) { And(x.bits, mask) != 0 }

  function Sext(num: Word, size: nat): Word {
    match size
    case 5 => if Bit(num, 0x10) then Word(Or(num.bits, 0xFFE0)) else num
    case 9 => if Bit(num, 0x100) then Word(Or(num.bits, 0xFE00)) else num
    case 11 => if Bit(num, 0x400) then Word(Or(num.bits, 0xF800)) else num
    case 6 => if Bit(num, 0x20) then Word(Or(num.bits, 0xFFC0)) else num
    case 8 => if Bit(num, 0x80) then Word(Or(num.bits, 0xFF00)) else num
    case _ => num
  }

  function Alu(aluk: nat, one: Word, two: Word): Word {
    match aluk
    case 0 => Low16(Add(one, two))
    case 1 => Low16(Word(And(one.bits, two.bits)))
    case 2 => Low16(Word(Xor(one.bits, two.bits)))
    case 3 => Low16(two)
    case _ => ZERO
  }

  /** The arithmetic right shift is a loop in the source: shift by one and put bit 15 back. */
  function ShiftRightArith(value: bv32, bit15: bv32, amount: bv32): bv32
    decreases amount
  {
    if amount == 0 then value else ShiftRightArith(Or(ShiftRight(value, 1), bit15), bit15, amount - 1)
  }

  function Shf(signal: Word, input: Word): Word {
    var amount := And(signal.bits, 0xF);
    if Bit(signal, 0x10) then
      if Bit(signal, 0x20) then
        Low16(Word(ShiftRightArith(input.bits, And(Low16(input).bits, 0x8000), amount)))
      else Low16(Word(ShiftRight(input.bits, amount)))
    else Low16(Word(ShiftLeft(input.bits, amount)))
  }

  /** Byte write enables of the data cache: (we0, we1). */
  function WriteEnables(addressBit0: bool, write: bool, word: bool): (bool, bool) {
    if !write then (false, false)
    else if word then (true, true)
    else if addressBit0 then (false, true)
    else (true, false)
  }

  function DcacheResult(read: Word, word: bool, addressBit0: bool): Word {
    if word then read
    else if addressBit0 then Sext(Field(Word(ShiftRight(And(read.bits, 0xFF00), 8)), 0xFF), 8)
    else Sext(Field(read, 0xFF), 8)
  }

  function DcacheFeed(input: Word, word: bool, addressBit0: bool): Word {
    if word then input
    else if addressBit0 then Low16(Word(ShiftLeft(input.bits, 8)))
    else input
  }

  /** What a miss leaves on the data bus. */
  const BUS_GARBAGE: Word := Word(0xfeed)

  function LowByte(x: Word): Byte { Byte(And(x.bits, 0xFF) as bv8) }

  function HighByte(x: Word): Byte { Byte(ShiftRight(And(x.bits, 0xFF00), 8) as bv8) }

  function JoinBytes(hi: Byte, lo: Byte): Word {
    Word(Or(ShiftLeft(hi.bits as bv32, 8), lo.bits as bv32))
  }

  /** Three condition bits, also used for the n/z/p field of a branch. */
  datatype Cc = Cc(n: bool, z: bool, p: bool)

  function CcOf(data: Word): Cc {
    var n := Bit(data, 0x8000);
    var z := !Bit(data, 0xFFFF);
    Cc(n, z, !n && !z)
  }

  function BranchMask(ir: Word): Cc {
    Cc(Bit(ir, 0x800), Bit(ir, 0x400), Bit(ir, 0x200))
  }

  /** What the next program counter is taken from. */
  datatype PcMux = Sequential | Target | TrapVector

  function BranchLogic(valid: bool, cs: MemCs, cc: Cc, ir: Word): PcMux {
    if !valid then Sequential
    else if cs.brOp then
      var want := BranchMask(ir);
      if (cc.n && want.n) || (cc.z && want.z) || (cc.p && want.p) then Target else Sequential
    else if cs.uncondOp then Target
    else if cs.trapOp then TrapVector
    else Sequential
  }

  /** The control word, nested by the stage that consumes each part: a stage latches the whole
      word below its own level and passes the inner part on. */
  datatype SrCs = SrCs(drValueMux: nat, ldReg: bool, ldCc: bool)

  datatype MemCs = MemCs(brOp: bool, uncondOp: bool, trapOp: bool, brStall: bool,
                         dcacheEn: bool, dcacheWrite: bool, wordSize: bool, sr: SrCs)

  datatype AgexCs = AgexCs(addr1Mux: bool, addr2Mux: nat, lshf1: bool, addressMux: bool,
                           sr2Mux: bool, aluk: nat, aluResultMux: bool, mem: MemCs)

  datatype DeCs = DeCs(sr1Needed: bool, sr2Needed: bool, drMux: bool, agex: AgexCs)

  const NUM_CONTROL_STORE_BITS: nat := 23
  const COPY_AGEX_CS_START: nat := 3
  const COPY_MEM_CS_START: nat := 9
  const COPY_SR_CS_START: nat := 7

  function TwoBits(hi: bool, lo: bool): (n: nat)
    ensures n < 4
  {
    (if hi then 2 else 0) + (if lo then 1 else 0)
  }

  function ReadSrCs(x: seq<bool>): SrCs
    requires |x| == 4
  {
    SrCs(TwoBits(x[0], x[1]), x[2], x[3])
  }

  function ReadMemCs(x: seq<bool>): MemCs
    requires |x| == 11
  {
    MemCs(x[0], x[1], x[2], x[3], x[4], x[5], x[6], SrCs(TwoBits(x[7], x[8]), x[9], x[10]))
  }

  function ReadAgexCs(x: seq<bool>): AgexCs
    requires |x| == 20
  {
    AgexCs(x[0], TwoBits(x[1], x[2]), x[3], x[4], x[5], TwoBits(x[6], x[7]), x[8],
           MemCs(x[9], x[10], x[11], x[12], x[13], x[14], x[15],
                 SrCs(TwoBits(x[16], x[17]), x[18], x[19])))
  }

  /** The row as the decode stage reads it, bit by bit in the order of the control-store file. */
  function ReadDeCs(x: seq<bool>): DeCs
    requires |x| == NUM_CONTROL_STORE_BITS
  {
    DeCs(x[0], x[1], x[2],
         AgexCs(x[3], TwoBits(x[4], x[5]), x[6], x[7], x[8], TwoBits(x[9], x[10]), x[11],
                MemCs(x[12], x[13], x[14], x[15], x[16], x[17], x[18],
                      SrCs(TwoBits(x[19], x[20]), x[21], x[22]))))
  }

  /** The three copy loops move the right suffix of the row: what each later stage reads from its
      latched bits is what the decode stage would have read from the row. */
  lemma CopyOffsetsAgree(row: seq<bool>)
    requires |row| == NUM_CONTROL_STORE_BITS
    ensures ReadAgexCs(row[COPY_AGEX_CS_START..]) == ReadDeCs(row).agex
    ensures ReadMemCs(row[COPY_AGEX_CS_START..][COPY_MEM_CS_START..]) == ReadDeCs(row).agex.mem
    ensures ReadSrCs(row[COPY_AGEX_CS_START..][COPY_MEM_CS_START..][COPY_SR_CS_START..])
            == ReadDeCs(row).agex.mem.sr
  {
    assert row[3..][9..] == row[12..];
    assert row[12..][7..] == row[19..];
  }

  type ControlStore = s: seq<DeCs> | |s| == 64 witness seq(64, _ => EMPTY_CS)

  const EMPTY_CS: DeCs :=
    DeCs(false, false, false,
         AgexCs(false, 0, false, false, false, 0, false,
                MemCs(false, false, false, false, false, false, false, SrCs(0, false, false))))

  /** Row of the control store that decodes `ir`: opcode and bits 11 and 5. */
  function ControlIndex(ir: Word): (i: nat)
    ensures i < 64
  {
    Number(Or(ShiftLeft(ShiftRight(And(ir.bits, 0xFFFF), 11), 1), ShiftRight(And(ir.bits, 0x20), 5)), 6)
  }

  function Decode(store: ControlStore, ir: Word): DeCs { store[ControlIndex(ir)] }

  function Sr1Field(ir: Word): (r: nat)
    ensures r < LC3B_REGS
  {
    Number(ShiftRight(And(ir.bits, 0x1C0), 6), 3)
  }

  function Sr2Field(ir: Word): (r: nat)
    ensures r < LC3B_REGS
  {
    if Bit(ir, 0x2000) then Number(ShiftRight(And(ir.bits, 0xE00), 9), 3) else Number(And(ir.bits, 0x7), 3)
  }

  function DrField(drMux: bool, ir: Word): (r: nat)
    ensures r < LC3B_REGS
  {
    if drMux then 7 else Number(ShiftRight(And(ir.bits, 0xE00), 9), 3)
  }

  function Halve(x: Word): (i: nat)
    ensures i < WORDS_IN_MEM
  {
    assert Pow2(8) == 256 && Pow2(15) == WORDS_IN_MEM;
    Number(ShiftRight(And(x.bits, 0xFFFF), 1), 15)
  }

  /** Index of the memory word that holds byte address `address`. */
  function WordIndex(address: Word): (i: nat)
    ensures i < WORDS_IN_MEM
  {
    Halve(Low16(address))
  }

  lemma MaskTwice(x: Word)
    ensures Low16(Low16(x)) == Low16(x)
  {
  }

  /** The instruction cache is given the low sixteen bits of the PC only; they select the word. */
  lemma PcBitsSelectWord(pc: Word)
    ensures WordIndex(Low16(pc)) == WordIndex(pc)
  {
    MaskTwice(pc);
    hide Halve, Low16;
  }

  predicate IsOdd(address: Word) { Bit(address, 1) }

  /** The address adder of the execute stage. */
  function AgexAddress(cs: AgexCs, npc: Word, sr1: Word, ir: Word): Word {
    var base := if cs.addr1Mux then sr1 else npc;
    var offset :=
      match cs.addr2Mux
      case 0 => ZERO
      case 1 => Sext(Field(ir, 0x3F), 6)
      case 2 => Sext(Field(ir, 0x1FF), 9)
      case 3 => Sext(Field(ir, 0x7FF), 11)
      case _ => ZERO;
    var shifted := if cs.lshf1 then Low16(Word(ShiftLeft(offset.bits, 1))) else offset;
    if cs.addressMux then Low16(Add(base, shifted)) else Low16(Word(ShiftLeft(Field(ir, 0xFF).bits, 1)))
  }

  /** The ALU and shifter of the execute stage. */
  function AgexResult(cs: AgexCs, sr1: Word, sr2: Word, ir: Word): Word {
    if cs.aluResultMux then Alu(cs.aluk, sr1, if cs.sr2Mux then Sext(Field(ir, 0x1F), 5) else sr2)
    else Shf(Field(ir, 0x3F), sr1)
  }
}
