/** What the simulator's operations on C `int`s compute, in numbers. */
module Lc3bNumbers {
  import opened Counting
  import opened Lc3bDatapath

  /** The number that a C `int` stands for, read as unsigned. */
  function Value(x: Word): nat { Number(x.bits, 32) }

  // The operations on bits that proofs about numbers must not look into.

  function Half(x: bv32): bv32 { x >> 1 }

  predicate Odd(x: bv32) { x & 1 == 1 }

  lemma NextNumber(x: bv32, n: nat)
    ensures Number(x, n) == if n == 0 then 0 else (if Odd(x) then 1 else 0) + 2 * Number(Half(x), n - 1)
  {
  }

  lemma HalfAnd(x: bv32, y: bv32)
    ensures Half(And(x, y)) == And(Half(x), Half(y)) && (Odd(And(x, y)) <==> Odd(x) && Odd(y))
  {
  }

  lemma HalfXor(x: bv32, y: bv32)
    ensures Half(Xor(x, y)) == Xor(Half(x), Half(y)) && (Odd(Xor(x, y)) <==> Odd(x) != Odd(y))
  {
  }

  predicate Blank(x: bv32) { x == 0 }

  lemma HalfBlank(x: bv32)
    ensures Blank(x) <==> !Odd(x) && Blank(Half(x))
  {
  }

  // ---------- low bits ----------

  /** A one in each of the `n` low bits. */
  function Ones(n: nat): bv32 { if n == 0 then 0 else (Ones(n - 1) << 1) | 1 }

  lemma {:induction false} FewerOnes(m: nat, n: nat)
    requires m <= n
    ensures Ones(m) & Ones(n) == Ones(m)
  {
    if m > 0 { FewerOnes(m - 1, n - 1); }
  }

  lemma ManyOnes()
    ensures Ones(16) == 0xFFFF && Ones(31) == 0x7FFF_FFFF
  {
    assert Ones(4) == 0xF;
    assert Ones(8) == 0xFF;
    assert Ones(12) == 0xFFF;
    assert Ones(16) == 0xFFFF;
    assert Ones(20) == 0xF_FFFF;
    assert Ones(24) == 0xFF_FFFF;
    assert Ones(28) == 0xFFF_FFFF;
  }

  lemma HalfOnes(n: nat)
    requires 0 < n <= 32
    ensures Odd(Ones(n)) && Half(Ones(n)) == Ones(n - 1)
  {
    FewerOnes(n - 1, 31);
    ManyOnes();
  }

  /** Numbers depend on the low bits only. */
  lemma {:induction false} SameLowBits(x: bv32, y: bv32, n: nat)
    requires n <= 32 && Blank(And(Xor(x, y), Ones(n)))
    ensures Number(x, n) == Number(y, n)
    decreases n
  {
    hide And, Xor, Half, Odd, Ones, Number, Blank;
    NextNumber(x, n);
    NextNumber(y, n);
    if n > 0 {
      HalfOnes(n);
      HalfXor(x, y);
      HalfAnd(Xor(x, y), Ones(n));
      HalfBlank(And(Xor(x, y), Ones(n)));
      SameLowBits(Half(x), Half(y), n - 1);
    }
  }

  /** All bits but the highest. */
  lemma SameButTop(x: bv32, y: bv32, n: nat)
    requires n <= 31 && (x ^ y) & 0x7FFF_FFFF == 0
    ensures Number(x, n) == Number(y, n)
  {
    FewerOnes(n, 31);
    ManyOnes();
    SameLowBits(x, y, n);
  }

  lemma {:induction false} NumberOfZero(n: nat)
    ensures Number(0, n) == 0
  {
    if n > 0 { NumberOfZero(n - 1); }
  }

  /** `x` without its `m` low bits. */
  function Drop(x: bv32, m: nat): bv32
    decreases m
  {
    if m == 0 then x else Drop(x >> 1, m - 1)
  }

  /** A number is its low part and its high part. */
  lemma {:induction false} NumberSplit(x: bv32, m: nat, n: nat)
    ensures Number(x, m + n) == Pow2(m) * Number(Drop(x, m), n) + Number(x, m)
    decreases m
  {
    if m > 0 {
      NumberSplit(x >> 1, m - 1, n);
      var high := Number(Drop(x, m), n);
      assert Number(x, m + n) == 2 * (Pow2(m - 1) * high + Number(x >> 1, m - 1)) + if x & 1 == 1 then 1 else 0;
      Doubled(Pow2(m - 1), high);
    }
  }

  lemma Doubled(p: nat, q: nat)
    ensures (2 * p) * q == 2 * (p * q)
  {
  }

  /** So the parts are the remainder and the quotient. */
  lemma NumberParts(x: bv32, m: nat, n: nat)
    ensures Number(x, m + n) / Pow2(m) == Number(Drop(x, m), n) && Number(x, m + n) % Pow2(m) == Number(x, m)
  {
    NumberSplit(x, m, n);
    var q, r, p := Number(Drop(x, m), n), Number(x, m), Pow2(m);
    hide Number, Pow2, Drop;
    Remainder(q, r, p);
  }

  /** A field of `k` bits, from position `m` on. */
  lemma FieldNumber(x: bv32, m: nat, k: nat)
    requires m + k <= 32
    ensures Number(Drop(x, m), k) == Number(x, 32) / Pow2(m) % Pow2(k)
  {
    hide Number, Pow2, Drop;
    NumberParts(x, m, 32 - m);
    NumberParts(Drop(x, m), k, 32 - m - k);
  }

  lemma NothingMasked(x: bv32)
    ensures And(x, Ones(0)) == 0 && Ones(0) == 0 && Blank(0)
  {
  }

  lemma {:induction false} MaskedNumber(x: bv32, m: nat, n: nat)
    requires m <= n <= 32
    ensures Number(And(x, Ones(m)), n) == Number(x, m)
    decreases m
  {
    hide And, Half, Odd, Ones, Number;
    NextNumber(x, m);
    if m == 0 {
      NothingMasked(x);
      NumberOfZero(n);
    } else {
      NextNumber(And(x, Ones(m)), n);
      HalfOnes(m);
      HalfAnd(x, Ones(m));
      MaskedNumber(Half(x), m - 1, n - 1);
    }
  }

  lemma {:induction false} NumberOfOnes(m: nat, n: nat)
    requires m <= n <= 32
    ensures Number(Ones(m), n) == Pow2(m) - 1
  {
    hide And, Half, Odd, Ones, Number;
    if m == 0 {
      NothingMasked(0);
      NumberOfZero(n);
    } else {
      NextNumber(Ones(m), n);
      HalfOnes(m);
      NumberOfOnes(m - 1, n - 1);
    }
  }

  lemma {:induction false} ZeroNumber(x: bv32, n: nat)
    requires n <= 32
    ensures Number(x, n) == 0 <==> Blank(And(x, Ones(n)))
    decreases n
  {
    hide And, Half, Odd, Ones, Number, Blank;
    NextNumber(x, n);
    NothingMasked(x);
    if n > 0 {
      HalfOnes(n);
      HalfAnd(x, Ones(n));
      HalfBlank(And(x, Ones(n)));
      ZeroNumber(Half(x), n - 1);
    }
  }

  // ---------- single bits ----------

  /** A one at position `i`. */
  function Single(i: nat): bv32 { if i == 0 then 1 else Single(i - 1) << 1 }

  lemma {:induction false} SingleAmongOnes(i: nat)
    ensures Single(i) & Ones(i + 1) == Single(i)
  {
    if i > 0 { SingleAmongOnes(i - 1); }
  }

  lemma HalfSingle(i: nat)
    requires 0 < i <= 31
    ensures Half(Single(i)) == Single(i - 1) && !Odd(Single(i))
  {
    SingleAmongOnes(i - 1);
    FewerOnes(i, 31);
    ManyOnes();
  }

  lemma {:induction false} BitNumber(x: bv32, i: nat)
    requires i <= 31
    ensures !Blank(And(x, Single(i))) <==> Odd(Drop(x, i))
    decreases i
  {
    if i == 0 {
      LowestBit(x);
    } else {
      hide And, Odd, Half, Single, Blank, Drop;
      HalfSingle(i);
      HalfAnd(x, Single(i));
      HalfBlank(And(x, Single(i)));
      BitNumber(Half(x), i - 1);
      DropHalf(x, i);
    }
  }

  lemma LowestBit(x: bv32)
    ensures !Blank(And(x, Single(0))) <==> Odd(x)
  {
  }

  lemma DropHalf(x: bv32, i: nat)
    ensures Drop(x, 0) == x && (i > 0 ==> Drop(x, i) == Drop(Half(x), i - 1))
  {
  }

  /** Position `i` of a number. */
  predicate BitOf(v: nat, i: nat) { v / Pow2(i) % 2 == 1 }

  lemma BitValue(x: bv32, i: nat)
    requires i <= 31
    ensures !Blank(And(x, Single(i))) <==> BitOf(Number(x, 32), i)
  {
    hide Drop, Single, Odd, Half, And, Blank, Number;
    BitNumber(x, i);
    FieldNumber(x, i, 1);
    NextNumber(Drop(x, i), 1);
    NextNumber(Half(Drop(x, i)), 0);
    assert Pow2(1) == 2;
  }

  // ---------- sums ----------

  function Inc(x: bv32): bv32 { x + 1 }

  lemma EvenSuccessor(x: bv32)
    requires !Odd(x)
    ensures Odd(Inc(x)) && Half(Inc(x)) == Half(x)
  {
  }

  lemma OddSuccessor(x: bv32)
    requires Odd(x)
    ensures !Odd(Inc(x)) && (Half(Inc(x)) ^ Inc(Half(x))) & 0x7FFF_FFFF == 0
  {
  }

  /** The highest value is followed by zero. */
  function Next(v: nat, p: nat): nat { if v + 1 == p then 0 else v + 1 }

  lemma {:induction false} Successor(x: bv32, n: nat)
    requires n <= 32
    ensures Number(Inc(x), n) == Next(Number(x, n), Pow2(n))
    decreases n
  {
    hide Half, Odd, Inc, Number;
    NextNumber(x, n);
    NextNumber(Inc(x), n);
    if n > 0 {
      if Odd(x) {
        OddSuccessor(x);
        Successor(Half(x), n - 1);
        SameButTop(Half(Inc(x)), Inc(Half(x)), n - 1);
      } else {
        EvenSuccessor(x);
      }
    }
  }

  lemma NextOfSum(a: nat, b: nat, p: nat)
    requires p > 0
    ensures Next((a + b) % p, p) == (a + b + 1) % p
  {
    var q, r := (a + b) / p, (a + b) % p;
    assert a + b + 1 == p * q + r + 1;
    if r + 1 == p {
      Remainder(q + 1, 0, p);
      assert p * (q + 1) == p * q + p;
    } else {
      Remainder(q, r + 1, p);
    }
  }

  lemma NextModulo(a: nat, b: nat, p: nat)
    requires b < p
    ensures Next((a + b) % p, p) == (a + Next(b, p)) % p
  {
    NextOfSum(a, b, p);
    if b + 1 == p { WholeTurn(a, p); }
  }

  lemma WholeTurn(a: nat, p: nat)
    requires p > 0
    ensures (a + p) % p == a % p
  {
    assert a + p == p * (a / p + 1) + a % p;
    Remainder(a / p + 1, a % p, p);
  }

  lemma Predecessor(y: bv32)
    ensures Inc(y - 1) == y && (y != 0 ==> y - 1 < y)
  {
  }

  lemma PlusPredecessor(x: bv32, y: bv32)
    ensures Inc(Plus(x, y - 1)) == Plus(x, y)
  {
    assert (x + (y - 1)) + 1 == x + y;
  }

  lemma PlusZero(x: bv32)
    ensures Plus(x, 0) == x
  {
  }

  /** Addition is addition modulo a power of two. */
  lemma {:induction false} SumOfNumbers(x: bv32, y: bv32)
    ensures Number(Plus(x, y), 32) == (Number(x, 32) + Number(y, 32)) % Pow2(32)
    decreases y
  {
    hide Number, Pow2, Inc, Plus, Next;
    Predecessor(y);
    if y == 0 {
      PlusZero(x);
      NumberOfZero(32);
      SmallRemainder(Number(x, 32), Pow2(32));
    } else {
      var z := y - 1;
      SumOfNumbers(x, z);
      PlusPredecessor(x, y);
      Successor(Plus(x, z), 32);
      Successor(z, 32);
      NextModulo(Number(x, 32), Number(z, 32), Pow2(32));
    }
  }

  lemma SmallRemainder(v: nat, p: nat)
    requires v < p
    ensures v % p == v
  {
  }

  // ---------- bitwise operations ----------

  /** The bits that two numbers have in common, and those in which they differ. */
  function Meet(a: nat, b: nat, n: nat): nat
    decreases n
  {
    if n == 0 then 0 else (if a % 2 == 1 && b % 2 == 1 then 1 else 0) + 2 * Meet(a / 2, b / 2, n - 1)
  }

  function Differ(a: nat, b: nat, n: nat): nat
    decreases n
  {
    if n == 0 then 0 else (if a % 2 != b % 2 then 1 else 0) + 2 * Differ(a / 2, b / 2, n - 1)
  }

  lemma HalfBit(v: nat, i: nat)
    requires i > 0
    ensures BitOf(v, i) <==> BitOf(v / 2, i - 1)
  {
    HalfQuotient(v, Pow2(i - 1));
  }

  lemma HalfQuotient(v: int, p: nat)
    requires p > 0
    ensures v / (2 * p) == v / 2 / p
  {
    var h, q := v / 2, v / 2 / p;
    var r := v - 2 * h + 2 * (h - p * q);
    assert v == (2 * p) * q + r && 0 <= r < 2 * p;
    QuotientIs(v, q, r, 2 * p);
  }

  lemma QuotientIs(v: int, q: int, r: nat, n: nat)
    requires v == n * q + r && r < n
    ensures v / n == q && v % n == r
  {
    assert v == n * (v / n) + v % n;
    assert n * (q - v / n) == v % n - r;
    NoMultipleBetween(n, q - v / n);
  }

  lemma FirstBit(v: nat)
    ensures BitOf(v, 0) <==> v % 2 == 1
  {
  }

  lemma MeetParts(a: nat, b: nat, n: nat)
    requires n > 0
    ensures Meet(a, b, n) / 2 == Meet(a / 2, b / 2, n - 1) && (Meet(a, b, n) % 2 == 1 <==> a % 2 == 1 && b % 2 == 1)
  {
  }

  lemma DifferParts(a: nat, b: nat, n: nat)
    requires n > 0
    ensures Differ(a, b, n) / 2 == Differ(a / 2, b / 2, n - 1) && (Differ(a, b, n) % 2 == 1 <==> a % 2 != b % 2)
  {
  }

  /** Bit by bit. */
  lemma {:induction false} BitsOfMeet(a: nat, b: nat, n: nat, i: nat)
    requires i < n
    ensures BitOf(Meet(a, b, n), i) <==> BitOf(a, i) && BitOf(b, i)
    decreases n
  {
    MeetParts(a, b, n);
    hide BitOf, Meet;
    var m := Meet(a, b, n);
    if i == 0 {
      FirstBit(a);
      FirstBit(b);
      FirstBit(m);
    } else {
      HalfBit(a, i);
      HalfBit(b, i);
      HalfBit(m, i);
      BitsOfMeet(a / 2, b / 2, n - 1, i - 1);
    }
  }

  lemma {:induction false} BitsOfDiffer(a: nat, b: nat, n: nat, i: nat)
    requires i < n
    ensures BitOf(Differ(a, b, n), i) <==> BitOf(a, i) != BitOf(b, i)
    decreases n
  {
    DifferParts(a, b, n);
    hide BitOf, Differ;
    var m := Differ(a, b, n);
    if i == 0 {
      FirstBit(a);
      FirstBit(b);
      FirstBit(m);
    } else {
      HalfBit(a, i);
      HalfBit(b, i);
      HalfBit(m, i);
      BitsOfDiffer(a / 2, b / 2, n - 1, i - 1);
    }
  }

  /** Only the low bits matter. */
  lemma {:induction false} MeetLow(a: nat, b: nat, n: nat)
    ensures Meet(a % Pow2(n), b % Pow2(n), n) == Meet(a, b, n)
    decreases n
  {
    if n > 0 {
      LowHalf(a, Pow2(n - 1));
      LowHalf(b, Pow2(n - 1));
      MeetLow(a / 2, b / 2, n - 1);
    }
  }

  lemma {:induction false} DifferLow(a: nat, b: nat, n: nat)
    ensures Differ(a % Pow2(n), b % Pow2(n), n) == Differ(a, b, n)
    decreases n
  {
    if n > 0 {
      LowHalf(a, Pow2(n - 1));
      LowHalf(b, Pow2(n - 1));
      DifferLow(a / 2, b / 2, n - 1);
    }
  }

  lemma LowHalf(v: nat, p: nat)
    requires p > 0
    ensures v % (2 * p) / 2 == v / 2 % p && v % (2 * p) % 2 == v % 2
  {
    var h := v / 2;
    var q, r := h / p, h % p;
    assert v == (2 * p) * q + (2 * r + v % 2);
    QuotientIs(v, q, 2 * r + v % 2, 2 * p);
  }

  lemma {:induction false} NumberOfAnd(x: bv32, y: bv32, n: nat)
    ensures Number(And(x, y), n) == Meet(Number(x, n), Number(y, n), n)
    decreases n
  {
    hide And, Half, Odd, Number;
    NextNumber(x, n);
    NextNumber(y, n);
    NextNumber(And(x, y), n);
    if n > 0 {
      HalfAnd(x, y);
      NumberOfAnd(Half(x), Half(y), n - 1);
    }
  }

  lemma {:induction false} NumberOfXor(x: bv32, y: bv32, n: nat)
    ensures Number(Xor(x, y), n) == Differ(Number(x, n), Number(y, n), n)
    decreases n
  {
    hide Xor, Half, Odd, Number;
    NextNumber(x, n);
    NextNumber(y, n);
    NextNumber(Xor(x, y), n);
    if n > 0 {
      HalfXor(x, y);
      NumberOfXor(Half(x), Half(y), n - 1);
    }
  }

  // ---------- shifts ----------

  lemma ShiftStep(x: bv32, k: bv32)
    requires 0 < k <= 15
    ensures ShiftLeft(x, k) == Twice(ShiftLeft(x, k - 1))
    ensures ShiftRight(x, k) == Half(ShiftRight(x, k - 1))
  {
  }

  function Twice(x: bv32): bv32 { x << 1 }

  lemma TwiceIsPlus(x: bv32)
    ensures Twice(x) == Plus(x, x)
  {
  }

  lemma NoShift(x: bv32)
    ensures ShiftLeft(x, 0) == x && ShiftRight(x, 0) == x
  {
  }

  /** A number in which only the `m` low bits are set. */
  lemma SmallNumber(x: bv32, m: nat)
    requires m <= 32 && And(x, Ones(m)) == x
    ensures Number(x, 32) == Number(x, m) && Number(x, 32) < Pow2(m)
  {
    hide Number, And, Ones, Pow2;
    MaskedNumber(x, m, 32);
  }

  lemma SmallAmount(k: bv32)
    requires k <= 15
    ensures And(k, Ones(4)) == k
  {
    assert Ones(4) == 0xF;
  }

  lemma PreviousAmount(k: bv32)
    requires 0 < k <= 15
    ensures Number(k, 32) == Number(k - 1, 32) + 1 && k - 1 <= 14
  {
    var j := k - 1;
    assert j <= 14;
    Predecessor(k);
    hide Number, Inc, And, Ones;
    SmallAmount(j);
    SmallNumber(j, 4);
    Successor(j, 32);
    assert Pow2(4) == 16;
  }

  lemma HalfNumber(x: bv32)
    ensures Number(Half(x), 32) == Number(x, 32) / 2
  {
    HalfIsSmall(x);
    hide Number, And, Ones, Half, Odd;
    SmallNumber(Half(x), 31);
    NextNumber(x, 32);
  }

  lemma HalfIsSmall(x: bv32)
    ensures And(Half(x), Ones(31)) == Half(x)
  {
    ManyOnes();
  }

  lemma {:induction false} RightShift(x: bv32, k: bv32)
    requires k <= 15
    ensures Number(ShiftRight(x, k), 32) == Number(x, 32) / Pow2(Number(k, 32))
    decreases k
  {
    hide Number, ShiftRight, ShiftLeft, Half, Twice;
    NoShift(x);
    NumberOfZero(32);
    if k > 0 {
      PreviousAmount(k);
      ShiftStep(x, k);
      RightShift(x, k - 1);
      HalfNumber(ShiftRight(x, k - 1));
      QuotientHalf(Number(x, 32), Pow2(Number(k - 1, 32)));
    }
  }

  lemma QuotientHalf(v: int, p: nat)
    requires p > 0
    ensures v / p / 2 == v / (2 * p)
  {
    var q, r := v / p, v % p;
    assert v == p * q + r;
    assert q == 2 * (q / 2) + q % 2;
    assert v == (2 * p) * (q / 2) + (p * (q % 2) + r);
    assert 0 <= p * (q % 2) <= p;
    QuotientIs(v, q / 2, p * (q % 2) + r, 2 * p);
  }

  lemma {:induction false} LeftShift(x: bv32, k: bv32)
    requires k <= 15
    ensures Number(ShiftLeft(x, k), 32) == Pow2(Number(k, 32)) * Number(x, 32) % Pow2(32)
    decreases k
  {
    hide Number, ShiftRight, ShiftLeft, Half, Twice, Plus, Pow2;
    if k == 0 {
      NoShift(x);
      NumberOfZero(32);
      NextPower(0);
      SmallRemainder(Number(x, 32), Pow2(32));
    } else {
      PreviousAmount(k);
      ShiftStep(x, k);
      LeftShift(x, k - 1);
      var y := ShiftLeft(x, k - 1);
      TwiceIsPlus(y);
      SumOfNumbers(y, y);
      DoubleProduct(Pow2(Number(k - 1, 32)), Number(x, 32), Pow2(32));
      NextPower(Number(k - 1, 32));
    }
  }

  lemma NextPower(n: nat)
    ensures Pow2(n + 1) == 2 * Pow2(n) && Pow2(0) == 1
  {
  }

  lemma DoubleProduct(p: nat, v: nat, m: nat)
    requires m > 0
    ensures (p * v % m + p * v % m) % m == (2 * p) * v % m
  {
    var w := p * v;
    DoubleRemainder(w, m);
    Doubled(p, v);
  }

  lemma DoubleRemainder(v: nat, p: nat)
    requires p > 0
    ensures (v % p + v % p) % p == 2 * v % p
  {
    var q, r := v / p, v % p;
    var e, f := 2 * r / p, 2 * r % p;
    assert 2 * v == p * (2 * q + e) + f;
    QuotientIs(2 * v, 2 * q + e, f, p);
  }
}
