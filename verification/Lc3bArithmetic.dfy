/** The datapath of the pipeline in numbers: fields, sign extension, the ALU, the shifter and the byte lanes. */
module Lc3bArithmetic {
  import opened Counting
  import opened Lc3bDatapath
  import opened Lc3bNumbers

  lemma Powers()
    ensures Pow2(1) == 2 && Pow2(3) == 8 && Pow2(4) == 16 && Pow2(5) == 32 && Pow2(6) == 64 && Pow2(7) == 128 && Pow2(8) == 256
    ensures Pow2(9) == 512 && Pow2(11) == 2048 && Pow2(15) == 0x8000 && Pow2(16) == 0x1_0000
  {
    assert Pow2(4) == 16;
    assert Pow2(8) == 256;
    assert Pow2(12) == 4096;
  }

  lemma WordRange(x: Word)
    ensures Value(x) < 0x1_0000_0000 == Pow2(32)
  {
    Powers();
    Pow2Sum(16, 16);
  }

  lemma MaskValue(x: Word, m: nat)
    requires m <= 32
    ensures Value(Word(And(x.bits, Ones(m)))) == Value(x) % Pow2(m)
  {
    hide Ones, Number, And, Pow2;
    MaskedNumber(x.bits, m, 32);
    NumberParts(x.bits, m, 32 - m);
  }

  lemma FieldOnes(x: Word, m: nat, mask: bv32)
    requires m <= 32 && mask == Ones(m)
    ensures Value(Field(x, mask)) == Value(x) % Pow2(m)
  {
    hide And, Value, Ones;
    MaskValue(x, m);
  }

  lemma Low16Value(x: Word)
    ensures Value(Low16(x)) == Value(x) % 0x1_0000
  {
    hide Value, Ones, And;
    ManyOnes();
    Powers();
    MaskValue(x, 16);
  }

  lemma SmallOnes()
    ensures Ones(3) == 7 && Ones(4) == 0xF && Ones(5) == 0x1F && Ones(6) == 0x3F && Ones(8) == 0xFF && Ones(9) == 0x1FF && Ones(11) == 0x7FF
  {
  }

  lemma FieldValue(ir: Word)
    ensures Value(Field(ir, 0x1F)) == Value(ir) % 32 && Value(Field(ir, 0x3F)) == Value(ir) % 64
    ensures Value(Field(ir, 0xFF)) == Value(ir) % 256 && Value(Field(ir, 0x1FF)) == Value(ir) % 512
    ensures Value(Field(ir, 0x7FF)) == Value(ir) % 2048 && Value(Field(ir, 0xF)) == Value(ir) % 16
  {
    hide Value, Ones, Pow2, Field;
    SmallOnes();
    Powers();
    FieldOnes(ir, 4, 0xF);
    FieldOnes(ir, 5, 0x1F);
    FieldOnes(ir, 6, 0x3F);
    FieldOnes(ir, 8, 0xFF);
    FieldOnes(ir, 9, 0x1FF);
    FieldOnes(ir, 11, 0x7FF);
  }

  lemma SumValue(x: Word, y: Word)
    ensures Value(Word(Plus(x.bits, y.bits))) == (Value(x) + Value(y)) % 0x1_0000_0000
  {
    hide Number, Pow2, Plus;
    SumOfNumbers(x.bits, y.bits);
    WordRange(x);
  }

  lemma AddValue(x: Word, y: Word)
    ensures Value(Add(x, y)) == (Value(x) + Value(y)) % 0x1_0000_0000
  {
    hide Plus;
    SumValue(x, y);
  }

  lemma Plus2Value(x: Word)
    ensures Value(Plus2(x)) == (Value(x) + 2) % 0x1_0000_0000
  {
    hide Plus, Value;
    SumValue(x, Word(2));
    TwoValue();
  }

  lemma TwoValue()
    ensures Value(Word(0)) == 0 && Value(Word(1)) == 1 && Value(Word(2)) == 2
  {
    hide Number, Plus, Inc;
    Successor(0, 32);
    Successor(1, 32);
    NumberOfZero(32);
    WordRange(Word(0));
    SmallIncrements();
  }

  lemma SmallIncrements()
    ensures Inc(0) == 1 && Inc(1) == 2
  {
  }

  // ---------- the ALU ----------

  lemma AluValue(one: Word, two: Word)
    ensures Value(Alu(0, one, two)) == (Value(one) + Value(two)) % 0x1_0000
    ensures Value(Alu(1, one, two)) == Meet(Value(one), Value(two), 16)
    ensures Value(Alu(2, one, two)) == Differ(Value(one), Value(two), 16)
    ensures Value(Alu(3, one, two)) == Value(two) % 0x1_0000
  {
    hide Value, Low16, Add, And, Xor, Meet, Differ;
    AddValue(one, two);
    Low16Value(Add(one, two));
    Low16Value(two);
    AndValue(one, two);
    XorValue(one, two);
    WideRemainder(Value(one) + Value(two));
  }

  lemma WideRemainder(v: nat)
    ensures v % 0x1_0000_0000 % 0x1_0000 == v % 0x1_0000
  {
  }

  lemma LowNumber(x: bv32)
    ensures Value(Low16(Word(x))) == Number(x, 16)
  {
    hide Low16, Number, Ones, Drop;
    Low16Value(Word(x));
    NumberParts(x, 16, 16);
    Powers();
  }

  lemma AndValue(one: Word, two: Word)
    ensures Value(Low16(Word(And(one.bits, two.bits)))) == Meet(Value(one), Value(two), 16)
  {
    hide Low16, And, Number, Meet;
    LowNumber(And(one.bits, two.bits));
    NumberOfAnd(one.bits, two.bits, 16);
    LowParts(one);
    LowParts(two);
    MeetLow(Value(one), Value(two), 16);
    Powers();
  }

  lemma XorValue(one: Word, two: Word)
    ensures Value(Low16(Word(Xor(one.bits, two.bits)))) == Differ(Value(one), Value(two), 16)
  {
    hide Low16, Xor, Number, Differ;
    LowNumber(Xor(one.bits, two.bits));
    NumberOfXor(one.bits, two.bits, 16);
    LowParts(one);
    LowParts(two);
    DifferLow(Value(one), Value(two), 16);
    Powers();
  }

  lemma LowParts(x: Word)
    ensures Number(x.bits, 16) == Value(x) % 0x1_0000
  {
    hide Number, Drop;
    NumberParts(x.bits, 16, 16);
    Powers();
  }

  // ---------- the shifter ----------

  /** A shift to the right that fills up with the sign of a 16-bit number. */
  function Signed16(v: nat): int { if v / 0x8000 % 2 == 1 then v % 0x1_0000 - 0x1_0000 else v }

  lemma AmountValue(signal: Word)
    ensures And(signal.bits, 0xF) <= 15 && Number(And(signal.bits, 0xF), 32) == Value(signal) % 16
  {
    FieldValue(signal);
    AmountFits(signal.bits);
    hide And, Number;
  }

  lemma AmountFits(x: bv32)
    ensures And(x, 0xF) <= 15
  {
  }

  lemma LeftValue(x: Word, k: bv32)
    requires k <= 15
    ensures Value(Low16(Word(ShiftLeft(x.bits, k)))) == Pow2(Number(k, 32)) * Value(x) % 0x1_0000
  {
    hide ShiftLeft, Number, Pow2, Low16;
    LeftShift(x.bits, k);
    WordRange(x);
    Low16Value(Word(ShiftLeft(x.bits, k)));
    var product := Pow2(Number(k, 32)) * Value(x);
    WideRemainder(product);
  }

  lemma RightValue(x: Word, k: bv32)
    requires k <= 15
    ensures Value(Low16(Word(ShiftRight(x.bits, k)))) == Value(x) / Pow2(Number(k, 32)) % 0x1_0000
  {
    hide ShiftRight, Number, Pow2, Low16;
    RightShift(x.bits, k);
    Low16Value(Word(ShiftRight(x.bits, k)));
  }

  /** One turn of the shifting loop when the sign is 0. */
  lemma {:induction false} PlainTurns(x: bv32, k: bv32)
    requires k <= 15
    ensures Number(ShiftRightArith(x, 0, k), 32) == Number(x, 32) / Pow2(Number(k, 32))
    decreases k
  {
    NextTurn(x, 0, k);
    hide Number, ShiftRight, Or, ShiftRightArith, Pow2;
    NextPower(0);
    if k == 0 {
      NumberOfZero(32);
    } else {
      OrZero(x);
      PreviousAmount(k);
      NextPower(Number(k - 1, 32));
      PlainTurns(Half(x), k - 1);
      HalfNumber(x);
      HalfQuotient(Number(x, 32), Pow2(Number(k - 1, 32)));
    }
  }

  lemma NextTurn(x: bv32, sign: bv32, k: bv32)
    ensures ShiftRightArith(x, sign, k) == if k == 0 then x else ShiftRightArith(Or(ShiftRight(x, 1), sign), sign, k - 1)
  {
  }

  lemma OrZero(x: bv32)
    ensures Or(ShiftRight(x, 1), 0) == Half(x)
  {
  }

  /** One turn when the sign is 1: the sign comes in at position 15 again. */
  function Refill(x: bv32): bv32 { Or(ShiftRight(x, 1), 0x8000) }

  lemma RefillBits(x: bv32)
    ensures !Blank(And(Refill(x), Single(15))) && Blank(And(Xor(Refill(x), Half(x)), Ones(15)))
  {
    assert Single(15) == 0x8000;
    assert Ones(8) == 0xFF;
    assert Ones(15) == 0x7FFF;
  }

  lemma RefillNumber(x: bv32)
    ensures Number(Refill(x), 16) == Number(x, 16) / 2 + 0x8000 && Number(Refill(x), 16) >= 0x8000
  {
    hide Number, Refill, Half, Blank, And, Xor, Ones, Single, Odd, Drop;
    RefillBits(x);
    SameLowBits(Refill(x), Half(x), 15);
    NextNumber(x, 16);
    NumberSplit(Refill(x), 15, 1);
    BitNumber(Refill(x), 15);
    NextNumber(Drop(Refill(x), 15), 1);
    NextNumber(Half(Drop(Refill(x), 15)), 0);
    Powers();
  }

  lemma {:induction false} SignTurns(x: bv32, k: bv32)
    requires k <= 15 && Number(x, 16) >= 0x8000
    ensures Number(ShiftRightArith(x, 0x8000, k), 16) == (Number(x, 16) - 0x1_0000) / Pow2(Number(k, 32)) + 0x1_0000
    decreases k
  {
    NextTurn(x, 0x8000, k);
    hide Number, ShiftRight, Or, ShiftRightArith, Pow2;
    NextPower(0);
    if k == 0 {
      NumberOfZero(32);
    } else {
      PreviousAmount(k);
      NextPower(Number(k - 1, 32));
      RefillNumber(x);
      SignTurns(Refill(x), k - 1);
      HalfQuotient(Number(x, 16) - 0x1_0000, Pow2(Number(k - 1, 32)));
    }
  }

  lemma BitMeans(x: Word, i: nat, mask: bv32)
    requires i <= 31 && mask == Single(i)
    ensures Bit(x, mask) <==> BitOf(Value(x), i)
  {
    hide And, Number, BitOf;
    BitValue(x.bits, i);
  }

  lemma Singles()
    ensures Single(0) == 1 && Single(4) == 0x10 && Single(5) == 0x20 && Single(7) == 0x80 && Single(8) == 0x100 && Single(9) == 0x200
    ensures Single(10) == 0x400 && Single(11) == 0x800 && Single(13) == 0x2000 && Single(15) == 0x8000
  {
  }

  /** The bits of a word that the datapath tests. */
  lemma TestedBits(x: Word)
    ensures Bit(x, 1) <==> Value(x) % 2 == 1
    ensures Bit(x, 0x10) <==> Value(x) / 16 % 2 == 1
    ensures Bit(x, 0x20) <==> Value(x) / 32 % 2 == 1
    ensures Bit(x, 0x80) <==> Value(x) / 128 % 2 == 1
    ensures Bit(x, 0x100) <==> Value(x) / 256 % 2 == 1
    ensures Bit(x, 0x200) <==> Value(x) / 512 % 2 == 1
    ensures Bit(x, 0x400) <==> Value(x) / 1024 % 2 == 1
    ensures Bit(x, 0x800) <==> Value(x) / 2048 % 2 == 1
    ensures Bit(x, 0x2000) <==> Value(x) / 0x2000 % 2 == 1
    ensures Bit(x, 0x8000) <==> Value(x) / 0x8000 % 2 == 1
  {
    hide Value, Bit, Single, Pow2;
    Singles();
    BitMeans(x, 0, 1);
    BitMeans(x, 4, 0x10);
    BitMeans(x, 5, 0x20);
    BitMeans(x, 7, 0x80);
    BitMeans(x, 8, 0x100);
    BitMeans(x, 9, 0x200);
    BitMeans(x, 10, 0x400);
    BitMeans(x, 11, 0x800);
    BitMeans(x, 13, 0x2000);
    BitMeans(x, 15, 0x8000);
    BitPowers();
  }

  lemma BitPowers()
    ensures Pow2(0) == 1 && Pow2(4) == 16 && Pow2(5) == 32 && Pow2(7) == 128 && Pow2(8) == 256 && Pow2(9) == 512
    ensures Pow2(10) == 1024 && Pow2(11) == 2048 && Pow2(13) == 0x2000 && Pow2(15) == 0x8000
  {
    assert Pow2(4) == 16;
    assert Pow2(8) == 256;
    assert Pow2(12) == 4096;
  }

  /** The result of a shift instruction: to the left, or to the right with zeros or the sign. */
  function Shifted(signal: nat, v: nat): nat {
    var p := Pow2(signal % 16);
    if signal / 16 % 2 == 0 then p * v % 0x1_0000
    else if signal / 32 % 2 == 0 then v / p % 0x1_0000
    else Signed16(v) / p % 0x1_0000
  }

  lemma ShfValue(signal: Word, input: Word)
    ensures Value(Shf(signal, input)) == Shifted(Value(signal), Value(input))
  {
    hide Value, Bit, Low16, And, ShiftLeft, ShiftRight, ShiftRightArith, Number, Pow2;
    AmountValue(signal);
    TestedBits(signal);
    var k := And(signal.bits, 0xF);
    LeftValue(input, k);
    RightValue(input, k);
    ArithmeticValue(input, k);
  }

  lemma ArithmeticValue(x: Word, k: bv32)
    requires k <= 15
    ensures Value(Low16(Word(ShiftRightArith(x.bits, And(Low16(x).bits, 0x8000), k)))) == Signed16(Value(x)) / Pow2(Number(k, 32)) % 0x1_0000
  {
    hide *;
    SignBit(x);
    if Bit(x, 0x8000) {
      NegativeValue(x, k);
    } else {
      PositiveValue(x, k);
    }
  }

  lemma PositiveValue(x: Word, k: bv32)
    requires k <= 15 && !Bit(x, 0x8000)
    ensures Value(Low16(Word(ShiftRightArith(x.bits, 0, k)))) == Signed16(Value(x)) / Pow2(Number(k, 32)) % 0x1_0000
  {
    hide Low16, And, ShiftRightArith, Number, Pow2, Bit;
    TestedBits(x);
    PlainTurns(x.bits, k);
    Low16Value(Word(ShiftRightArith(x.bits, 0, k)));
  }

  lemma NegativeValue(x: Word, k: bv32)
    requires k <= 15 && Bit(x, 0x8000)
    ensures Value(Low16(Word(ShiftRightArith(x.bits, 0x8000, k)))) == Signed16(Value(x)) / Pow2(Number(k, 32)) % 0x1_0000
  {
    hide Low16, And, ShiftRightArith, Number, Pow2, Bit, Value;
    TestedBits(x);
    LowParts(x);
    SignedLow(Value(x));
    SignTurns(x.bits, k);
    LowNumber(ShiftRightArith(x.bits, 0x8000, k));
    hide Signed16;
    SignedFits(Number(x.bits, 16), Pow2(Number(k, 32)));
  }

  lemma SignedLow(v: nat)
    requires v / 0x8000 % 2 == 1
    ensures v % 0x1_0000 >= 0x8000 && Signed16(v) == v % 0x1_0000 - 0x1_0000
  {
  }

  lemma SignBit(x: Word)
    ensures Bit(x, 0x8000) ==> And(Low16(x).bits, 0x8000) == 0x8000
    ensures !Bit(x, 0x8000) ==> And(Low16(x).bits, 0x8000) == 0
  {
  }

  lemma SignedFits(v: nat, p: nat)
    requires 0x8000 <= v < 0x1_0000 && p > 0
    ensures (v - 0x1_0000) / p % 0x1_0000 == (v - 0x1_0000) / p + 0x1_0000
  {
    var q, r := (v - 0x1_0000) / p, (v - 0x1_0000) % p;
    assert v - 0x1_0000 == p * q + r;
    ProductRange(p, q, 0x8000);
  }

  lemma ProductRange(p: nat, q: int, m: int)
    requires p > 0 && m >= 0
    ensures q >= 0 ==> p * q >= 0
    ensures q < -m ==> p * q + p <= -m
  {
    if q < -m {
      var d := -m - q;
      assert p * q + p == -(p * (d - 1)) - p * m;
      assert p * m >= m && p * (d - 1) >= 0;
    }
  }

  // ---------- sign extension ----------

  /** A field of an instruction as a two's complement number; `half` is the weight of its sign bit. */
  function Signed(v: nat, half: nat): int
    requires half > 0
  {
    var f := v % (2 * half);
    if f < half then f else f - 2 * half
  }

  lemma ExtensionNumber(c: bv32, s: nat)
    requires s <= 11 && Plus(c, Ones(s)) == Ones(16)
    ensures Number(c, 32) == 0x1_0000 - Pow2(s)
  {
    hide Number, Plus, Ones, Pow2;
    SumOfNumbers(c, Ones(s));
    NumberOfOnes(s, 32);
    NumberOfOnes(16, 32);
    WordRange(Word(c));
    Powers();
    SmallPower(s);
  }

  lemma {:induction false} SmallPower(s: nat)
    requires s <= 11
    ensures Pow2(s) <= 2048
    decreases 11 - s
  {
    if s < 11 {
      SmallPower(s + 1);
    } else {
      Powers();
    }
  }

  lemma OrIsPlus(x: bv32, c: bv32)
    requires And(x, c) == 0
    ensures Or(x, c) == Plus(x, c)
  {
    hide Or, Plus, And;
    NamedAnd(x, c);
    NamedOr(x, c);
    NamedPlus(x, c);
    DisjointSum(x, c);
  }

  lemma NamedAnd(x: bv32, y: bv32)
    ensures And(x, y) == x & y
  {
  }

  lemma NamedOr(x: bv32, y: bv32)
    ensures Or(x, y) == x | y
  {
  }

  lemma NamedPlus(x: bv32, y: bv32)
    ensures Plus(x, y) == x + y
  {
  }

  lemma DisjointSum(x: bv32, y: bv32)
    requires x & y == 0
    ensures x | y == x + y
  {
  }

  lemma ExtendedValue(x: Word, s: nat, c: bv32)
    requires s <= 11 && Plus(c, Ones(s)) == Ones(16) && And(x.bits, c) == 0 && Value(x) < Pow2(s)
    ensures Value(Word(Or(x.bits, c))) == Value(x) + 0x1_0000 - Pow2(s)
  {
    hide Number, Plus, Ones, Or, And;
    OrIsPlus(x.bits, c);
    SumOfNumbers(x.bits, c);
    ExtensionNumber(c, s);
    WordRange(x);
    SmallPower(s);
    hide Pow2;
  }

  /** The constants of the five extensions. */
  lemma ExtensionFacts(ir: Word)
    ensures Ones(5) == 0x1F && Ones(6) == 0x3F && Ones(8) == 0xFF && Ones(9) == 0x1FF && Ones(11) == 0x7FF
    ensures Single(4) == 0x10 && Single(5) == 0x20 && Single(7) == 0x80 && Single(8) == 0x100 && Single(10) == 0x400
    ensures Pow2(4) == 16 && Pow2(5) == 32 && Pow2(7) == 128 && Pow2(8) == 256 && Pow2(10) == 1024
    ensures Plus(0xFFE0, Ones(5)) == Ones(16) && Plus(0xFFC0, Ones(6)) == Ones(16) && Plus(0xFF00, Ones(8)) == Ones(16)
    ensures Plus(0xFE00, Ones(9)) == Ones(16) && Plus(0xF800, Ones(11)) == Ones(16)
    ensures And(Field(ir, 0x1F).bits, 0xFFE0) == 0 && And(Field(ir, 0x3F).bits, 0xFFC0) == 0 && And(Field(ir, 0xFF).bits, 0xFF00) == 0
    ensures And(Field(ir, 0x1FF).bits, 0xFE00) == 0 && And(Field(ir, 0x7FF).bits, 0xF800) == 0
  {
    SmallOnes();
    Singles();
    BitPowers();
    ManyOnes();
    hide Ones, Single, Pow2;
  }

  lemma SignedByBit(v: nat, half: nat, s: nat)
    requires s > 0 && half == Pow2(s - 1)
    ensures BitOf(v % Pow2(s), s - 1) <==> Signed(v, half) < 0
    ensures v % Pow2(s) == if Signed(v, half) < 0 then Signed(v, half) + Pow2(s) else Signed(v, half)
  {
    var f := v % (2 * half);
    if f < half {
      QuotientIs(f, 0, f, half);
    } else {
      QuotientIs(f, 1, f - half, half);
    }
  }

  lemma ExtendedField(ir: Word, s: nat, mask: bv32, sign: bv32, c: bv32, half: nat)
    requires 0 < s <= 11 && mask == Ones(s) && sign == Single(s - 1) && half == Pow2(s - 1)
    requires Plus(c, Ones(s)) == Ones(16) && And(Field(ir, mask).bits, c) == 0
    ensures
      var x := Field(ir, mask);
      Value(if Bit(x, sign) then Word(Or(x.bits, c)) else x) == Signed(Value(ir), half) % 0x1_0000
  {
    hide Value, Field, Bit, Or, Plus, And, Ones, Single, Signed, BitOf;
    var x := Field(ir, mask);
    FieldOnes(ir, s, mask);
    BitMeans(x, s - 1, sign);
    SignedByBit(Value(ir), half, s);
    ExtendedValue(x, s, c);
    SmallPower(s);
    hide Pow2;
  }

  lemma Sext5Value(ir: Word)
    ensures Value(Sext(Field(ir, 0x1F), 5)) == Signed(Value(ir), 16) % 0x1_0000
  {
    hide Value, Field, Bit, Or, Plus, And, Ones, Pow2, Signed;
    ExtensionFacts(ir);
    ExtendedField(ir, 5, 0x1F, 0x10, 0xFFE0, 16);
  }

  lemma Sext6Value(ir: Word)
    ensures Value(Sext(Field(ir, 0x3F), 6)) == Signed(Value(ir), 32) % 0x1_0000
  {
    hide Value, Field, Bit, Or, Plus, And, Ones, Pow2, Signed;
    ExtensionFacts(ir);
    ExtendedField(ir, 6, 0x3F, 0x20, 0xFFC0, 32);
  }

  lemma Sext8Value(ir: Word)
    ensures Value(Sext(Field(ir, 0xFF), 8)) == Signed(Value(ir), 128) % 0x1_0000
  {
    hide Value, Field, Bit, Or, Plus, And, Ones, Pow2, Signed;
    ExtensionFacts(ir);
    ExtendedField(ir, 8, 0xFF, 0x80, 0xFF00, 128);
  }

  lemma Sext9Value(ir: Word)
    ensures Value(Sext(Field(ir, 0x1FF), 9)) == Signed(Value(ir), 256) % 0x1_0000
  {
    hide Value, Field, Bit, Or, Plus, And, Ones, Pow2, Signed;
    ExtensionFacts(ir);
    ExtendedField(ir, 9, 0x1FF, 0x100, 0xFE00, 256);
  }

  lemma Sext11Value(ir: Word)
    ensures Value(Sext(Field(ir, 0x7FF), 11)) == Signed(Value(ir), 1024) % 0x1_0000
  {
    hide Value, Field, Bit, Or, Plus, And, Ones, Pow2, Signed;
    ExtensionFacts(ir);
    ExtendedField(ir, 11, 0x7FF, 0x400, 0xF800, 1024);
  }

  // ---------- fields ----------

  /** `y` holds the `k` bits of the instruction from position `m` on. */
  lemma FieldIs(y: bv32, ir: Word, m: nat, k: nat)
    requires m + k <= 32 && Blank(And(Xor(y, Drop(ir.bits, m)), Ones(k)))
    ensures Number(y, k) == Value(ir) / Pow2(m) % Pow2(k)
  {
    hide Number, Blank, And, Xor, Ones, Drop, Pow2;
    SameLowBits(y, Drop(ir.bits, m), k);
    FieldNumber(ir.bits, m, k);
  }

  lemma {:induction false} DroppedMore(x: bv32, m: nat)
    ensures Drop(x, m + 1) == Half(Drop(x, m))
    decreases m
  {
    hide Half;
    DropHalf(x, m);
    DropHalf(x, m + 1);
    if m == 0 {
      DropHalf(Half(x), 0);
    } else {
      DroppedMore(Half(x), m - 1);
    }
  }

  lemma ShiftMore(x: bv32, k: bv32)
    requires k < 15
    ensures Half(ShiftRight(x, k)) == ShiftRight(x, k + 1)
  {
    var j := k + 1;
    ShiftStep(x, j);
    hide Half, ShiftRight;
    assert j - 1 == k;
  }

  lemma DroppedOne(x: bv32)
    ensures Drop(x, 0) == x && Drop(x, 1) == x >> 1
  {
  }

  lemma DropOneMore(x: bv32, m: nat, k: bv32)
    requires k < 15 && Drop(x, m) == ShiftRight(x, k)
    ensures Drop(x, m + 1) == ShiftRight(x, k + 1)
  {
    hide Drop, ShiftRight, Half;
    DroppedMore(x, m);
    ShiftMore(x, k);
  }

  /** Dropping bits is shifting to the right. */
  lemma Dropped(x: bv32)
    ensures Drop(x, 6) == ShiftRight(x, 6) && Drop(x, 9) == ShiftRight(x, 9) && Drop(x, 11) == ShiftRight(x, 11)
  {
    hide Drop, ShiftRight;
    DropHalf(x, 0);
    NoShift(x);
    DropOneMore(x, 0, 0);
    DropOneMore(x, 1, 1);
    DropOneMore(x, 2, 2);
    DropOneMore(x, 3, 3);
    DropOneMore(x, 4, 4);
    DropOneMore(x, 5, 5);
    DropOneMore(x, 6, 6);
    DropOneMore(x, 7, 7);
    DropOneMore(x, 8, 8);
    DropOneMore(x, 9, 9);
    DropOneMore(x, 10, 10);
  }

  lemma FirstSource(x: bv32)
    ensures Blank(And(Xor(ShiftRight(And(x, 0x1C0), 6), ShiftRight(x, 6)), 7))
  {
  }

  lemma Destination(x: bv32)
    ensures Blank(And(Xor(ShiftRight(And(x, 0xE00), 9), ShiftRight(x, 9)), 7))
  {
  }

  lemma SecondSource(x: bv32)
    ensures Blank(And(Xor(And(x, 7), x), 7))
  {
  }

  lemma Sr1Value(ir: Word)
    ensures Sr1Field(ir) == Value(ir) / 64 % 8
  {
    hide Number, Blank, And, Xor, Ones, Drop, Pow2, ShiftRight;
    Dropped(ir.bits);
    FirstSource(ir.bits);
    SmallOnes();
    Powers();
    FieldIs(ShiftRight(And(ir.bits, 0x1C0), 6), ir, 6, 3);
  }

  lemma DrValue(ir: Word)
    ensures Number(ShiftRight(And(ir.bits, 0xE00), 9), 3) == Value(ir) / 512 % 8
  {
    hide Number, Blank, And, Xor, Ones, Drop, Pow2, ShiftRight;
    Dropped(ir.bits);
    Destination(ir.bits);
    SmallOnes();
    Powers();
    FieldIs(ShiftRight(And(ir.bits, 0xE00), 9), ir, 9, 3);
  }

  lemma LowFieldValue(ir: Word)
    ensures Number(And(ir.bits, 7), 3) == Value(ir) % 8
  {
    hide Number, Blank, And, Xor, Ones, Drop, Pow2, ShiftRight;
    DroppedOne(ir.bits);
    SecondSource(ir.bits);
    SmallOnes();
    Powers();
    BitPowers();
    FieldIs(And(ir.bits, 7), ir, 0, 3);
  }

  /** The register fields of an instruction. */
  lemma RegisterFields(ir: Word, drMux: bool)
    ensures Sr1Field(ir) == Value(ir) / 64 % 8
    ensures Sr2Field(ir) == if Value(ir) / 0x2000 % 2 == 1 then Value(ir) / 512 % 8 else Value(ir) % 8
    ensures DrField(drMux, ir) == if drMux then 7 else Value(ir) / 512 % 8
  {
    hide Number, And, ShiftRight, Value, Bit, Sr1Field;
    Sr1Value(ir);
    DrValue(ir);
    LowFieldValue(ir);
    TestedBits(ir);
  }

  lemma IndexBits(x: bv32)
    ensures Blank(And(Xor(ShiftRight(And(And(x, 0xFFFF), 0xFFFF), 1), x >> 1), 0x7FFF))
  {
  }

  lemma WordIndexValue(address: Word)
    ensures WordIndex(address) == Value(address) / 2 % 0x8000
  {
    hide Number, Blank, And, Xor, Ones, Drop, Pow2, ShiftRight;
    DroppedOne(address.bits);
    IndexBits(address.bits);
    FifteenOnes();
    Powers();
    FieldIs(ShiftRight(And(And(address.bits, 0xFFFF), 0xFFFF), 1), address, 1, 15);
  }

  lemma FifteenOnes()
    ensures Ones(15) == 0x7FFF
  {
    assert Ones(5) == 0x1F;
    assert Ones(10) == 0x3FF;
  }

  function IndexOf(x: bv32): bv32 { Or(ShiftLeft(ShiftRight(And(x, 0xFFFF), 11), 1), ShiftRight(And(x, 0x20), 5)) }

  lemma IndexRow(x: bv32)
    ensures Odd(IndexOf(x)) <==> And(x, 0x20) != 0
    ensures Blank(And(Xor(Half(IndexOf(x)), ShiftRight(x, 11)), 0x1F))
  {
  }

  lemma ControlIndexValue(ir: Word)
    ensures ControlIndex(ir) == 2 * (Value(ir) / 2048 % 32) + Value(ir) / 32 % 2
  {
    hide Blank, And, Xor, Ones, Drop, Pow2, Half, Odd, Value, IndexOf;
    Dropped(ir.bits);
    IndexRow(ir.bits);
    SmallOnes();
    Powers();
    TestedBits(ir);
    FieldIs(Half(IndexOf(ir.bits)), ir, 11, 5);
    NextNumber(IndexOf(ir.bits), 6);
    IndexIs(ir);
    hide Number;
  }

  lemma IndexIs(ir: Word)
    ensures ControlIndex(ir) == Number(IndexOf(ir.bits), 6)
  {
    hide Number, Or, ShiftLeft, ShiftRight, And;
  }

  // ---------- addresses ----------

  lemma DoubledValue(x: Word)
    ensures Value(Low16(Word(ShiftLeft(x.bits, 1)))) == 2 * Value(x) % 0x1_0000
  {
    hide ShiftLeft, Number, Pow2, Low16;
    TwoValue();
    Powers();
    LeftValue(x, 1);
  }

  /** The offset that the second address multiplexer selects. */
  function Offset(mux: nat, v: nat): int {
    match mux
    case 1 => Signed(v, 32)
    case 2 => Signed(v, 256)
    case 3 => Signed(v, 1024)
    case _ => 0
  }

  function OffsetWord(mux: nat, ir: Word): Word {
    match mux
    case 0 => ZERO
    case 1 => Sext(Field(ir, 0x3F), 6)
    case 2 => Sext(Field(ir, 0x1FF), 9)
    case 3 => Sext(Field(ir, 0x7FF), 11)
    case _ => ZERO
  }

  lemma OffsetValue(mux: nat, ir: Word)
    ensures Value(OffsetWord(mux, ir)) == Offset(mux, Value(ir)) % 0x1_0000
  {
    hide Value, Sext, Field, Signed;
    Sext6Value(ir);
    Sext9Value(ir);
    Sext11Value(ir);
    TwoValue();
  }

  function ShiftedWord(lshf1: bool, offset: Word): Word {
    if lshf1 then Low16(Word(ShiftLeft(offset.bits, 1))) else offset
  }

  lemma AddressCases(cs: AgexCs, npc: Word, sr1: Word, ir: Word)
    ensures AgexAddress(cs, npc, sr1, ir) ==
      if cs.addressMux then Low16(Add(if cs.addr1Mux then sr1 else npc, ShiftedWord(cs.lshf1, OffsetWord(cs.addr2Mux, ir))))
      else ShiftedWord(true, Field(ir, 0xFF))
  {
    hide Low16, ShiftLeft, Add, Field, Sext;
  }

  /** The address of a load, a store or a jump, or the one of a trap vector. */
  function Address(cs: AgexCs, npc: nat, sr1: nat, ir: nat): (a: nat)
    ensures a < 0x1_0000
  {
    var offset := Offset(cs.addr2Mux, ir);
    if cs.addressMux then ((if cs.addr1Mux then sr1 else npc) + (if cs.lshf1 then 2 * offset else offset)) % 0x1_0000
    else 2 * (ir % 256)
  }

  lemma WholeTurns(x: int, q: int)
    ensures (x + 0x1_0000 * q) % 0x1_0000 == x % 0x1_0000
  {
  }

  lemma SumModulo(base: nat, a: nat, b: int)
    requires a == b % 0x1_0000
    ensures (base + a) % 0x1_0000 == (base + b) % 0x1_0000
    ensures 2 * a % 0x1_0000 == 2 * b % 0x1_0000
  {
    var q := b / 0x1_0000;
    assert b == a + 0x1_0000 * q;
    WholeTurns(base + a, q);
    WholeTurns(2 * a, 2 * q);
  }

  lemma SumAddress(base: Word, shifted: Word, b: int)
    requires Value(shifted) == b % 0x1_0000
    ensures Value(Low16(Add(base, shifted))) == (Value(base) + b) % 0x1_0000
  {
    hide Value, Low16, Add;
    AddValue(base, shifted);
    Low16Value(Add(base, shifted));
    WideRemainder(Value(base) + Value(shifted));
    SumModulo(Value(base), Value(shifted), b);
  }

  lemma ShiftedOffset(offset: Word, b: int, lshf1: bool)
    requires Value(offset) == b % 0x1_0000
    ensures Value(ShiftedWord(lshf1, offset)) == (if lshf1 then 2 * b else b) % 0x1_0000
  {
    hide Value, Low16, ShiftLeft;
    DoubledValue(offset);
    SumModulo(0, Value(offset), b);
  }

  lemma AgexAddressValue(cs: AgexCs, npc: Word, sr1: Word, ir: Word)
    ensures Value(AgexAddress(cs, npc, sr1, ir)) == Address(cs, Value(npc), Value(sr1), Value(ir))
  {
    hide Value, AgexAddress, OffsetWord, Offset, Low16, Add, Field, ShiftedWord;
    AddressCases(cs, npc, sr1, ir);
    if cs.addressMux {
      OffsetValue(cs.addr2Mux, ir);
      var offset, b := OffsetWord(cs.addr2Mux, ir), Offset(cs.addr2Mux, Value(ir));
      ShiftedOffset(offset, b, cs.lshf1);
      SumAddress(if cs.addr1Mux then sr1 else npc, ShiftedWord(cs.lshf1, offset), if cs.lshf1 then 2 * b else b);
    } else {
      FieldValue(ir);
      ShiftedOffset(Field(ir, 0xFF), Value(ir) % 256, true);
    }
  }

  // ---------- bytes ----------

  function AsWord(b: Byte): Word { Word(b.bits as bv32) }

  function ByteValue(b: Byte): nat { Value(AsWord(b)) }

  lemma ByteIsField(b: Byte)
    ensures Field(AsWord(b), 0xFF) == AsWord(b)
  {
  }

  lemma ByteRange(b: Byte)
    ensures ByteValue(b) < 256
  {
    hide Value, Field, AsWord;
    ByteIsField(b);
    FieldValue(AsWord(b));
  }

  lemma LowByteIs(x: Word)
    ensures AsWord(LowByte(x)) == Field(x, 0xFF)
  {
  }

  lemma LowByteValue(x: Word)
    ensures ByteValue(LowByte(x)) == Value(x) % 256
  {
    hide Value, Field, AsWord, LowByte;
    LowByteIs(x);
    FieldValue(x);
  }

  lemma HighByteIs(x: Word)
    ensures AsWord(HighByte(x)) == Field(Word(ShiftRight(x.bits, 8)), 0xFF)
  {
  }

  lemma ShiftedByte(x: Word)
    ensures Value(Word(ShiftRight(x.bits, 8))) == Value(x) / 256
  {
    hide Number, ShiftRight, Pow2;
    RightShift(x.bits, 8);
    EightValue();
    Powers();
  }

  lemma EightValue()
    ensures Number(8, 32) == 8
  {
    hide Number;
    PreviousAmount(8);
    PreviousAmount(7);
    PreviousAmount(6);
    PreviousAmount(5);
    PreviousAmount(4);
    PreviousAmount(3);
    PreviousAmount(2);
    PreviousAmount(1);
    NumberOfZero(32);
  }

  lemma HighByteValue(x: Word)
    ensures ByteValue(HighByte(x)) == Value(x) / 256 % 256
  {
    hide Value, Field, AsWord, HighByte, ShiftRight;
    HighByteIs(x);
    FieldValue(Word(ShiftRight(x.bits, 8)));
    ShiftedByte(x);
  }

  lemma JoinedLow(hi: Byte, lo: Byte)
    ensures LowByte(JoinBytes(hi, lo)) == lo
  {
  }

  lemma JoinedHigh(hi: Byte, lo: Byte)
    ensures HighByte(JoinBytes(hi, lo)) == hi
  {
  }

  lemma JoinedIsShort(hi: Byte, lo: Byte)
    ensures Low16(JoinBytes(hi, lo)) == JoinBytes(hi, lo)
  {
  }

  lemma JoinValue(hi: Byte, lo: Byte)
    ensures Value(JoinBytes(hi, lo)) == 256 * ByteValue(hi) + ByteValue(lo)
  {
    hide Value, ByteValue, JoinBytes, Low16;
    var x := JoinBytes(hi, lo);
    JoinedLow(hi, lo);
    JoinedHigh(hi, lo);
    JoinedIsShort(hi, lo);
    LowByteValue(x);
    HighByteValue(x);
    Low16Value(x);
    ByteRange(hi);
    ByteRange(lo);
  }

  /** A store of a byte to an odd address moves it into the upper half of the word. */
  lemma FeedBytes(x: Word, odd: bool)
    ensures if odd then HighByte(DcacheFeed(x, false, odd)) == LowByte(x) else LowByte(DcacheFeed(x, false, odd)) == LowByte(x)
    ensures DcacheFeed(x, true, odd) == x
  {
  }

  lemma ReadByteIs(hi: Byte, lo: Byte, odd: bool)
    ensures DcacheResult(JoinBytes(hi, lo), false, odd) == Sext(Field(AsWord(if odd then hi else lo), 0xFF), 8)
    ensures DcacheResult(JoinBytes(hi, lo), true, odd) == JoinBytes(hi, lo)
  {
    hide Sext;
  }

  lemma ReadByteValue(hi: Byte, lo: Byte, odd: bool)
    ensures Value(DcacheResult(JoinBytes(hi, lo), false, odd)) == Signed(ByteValue(if odd then hi else lo), 128) % 0x1_0000
  {
    hide Value, DcacheResult, Sext, Field, AsWord, Signed;
    ReadByteIs(hi, lo, odd);
    Sext8Value(AsWord(if odd then hi else lo));
  }

  /** The condition codes say whether a 16-bit result is negative, zero or positive. */
  lemma CcValue(x: Word)
    ensures CcOf(x) == Cc(Value(x) / 0x8000 % 2 == 1, Value(x) % 0x1_0000 == 0, Value(x) / 0x8000 % 2 == 0 && Value(x) % 0x1_0000 != 0)
  {
    hide Number, And, Ones;
    TestedBits(x);
    ManyOnes();
    ZeroNumber(x.bits, 16);
    LowParts(x);
  }
}
