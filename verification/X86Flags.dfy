/** The arithmetic flags of the functional x86 simulator. */
module X86Flags {
  import opened Counting

  datatype Flags = Flags(cf: bool, pf: bool, af: bool, zf: bool, sf: bool, of: bool, df: bool)

  function Ones(n: nat): nat { if n == 0 then 0 else n % 2 + Ones(n / 2) }

  /** An even number of ones in the low byte. */
  predicate EvenParity(v: nat) { Ones(v % 256) % 2 == 0 }

  // ---------- parity ----------

  /** The positions of the ones among the `n` low bits. */
  function Positions(v: nat, n: nat): set<nat> { set i: nat | i < n && v / Pow2(i) % 2 == 1 }

  /** The ones of a number are the lowest one and the ones of its half. */
  lemma {:induction false} OnesAbove(v: nat, n: nat)
    requires v < Pow2(n)
    ensures Ones(v + Pow2(n)) == Ones(v) + 1
    decreases n
  {
    if n == 0 {
      assert Ones(1) == 1 + Ones(0);
    } else {
      OnesAbove(v / 2, n - 1);
      assert (v + Pow2(n)) / 2 == v / 2 + Pow2(n - 1) && (v + Pow2(n)) % 2 == v % 2;
    }
  }

  lemma {:induction false} OnesCounted(v: nat, n: nat)
    ensures Ones(v % Pow2(n)) == |Positions(v, n)|
    decreases n
  {
    if n == 0 {
      assert Positions(v, 0) == {};
    } else {
      OnesCounted(v, n - 1);
      LastPosition(v, n - 1);
      TopBit(v, Pow2(n - 1));
      OnesAbove(v % Pow2(n - 1), n - 1);
      assert Pow2(n) == 2 * Pow2(n - 1);
      hide Positions, Pow2, Ones;
    }
  }

  lemma TopBit(v: nat, p: nat)
    requires p > 0
    ensures v % (2 * p) == v % p + if v / p % 2 == 1 then p else 0
  {
    var q, r := v / p, v % p;
    assert v == p * q + r;
    assert v == (2 * p) * (q / 2) + (p * (q % 2) + r);
    assert q % 2 == 0 || q % 2 == 1;
    Remainder(q / 2, p * (q % 2) + r, 2 * p);
  }

  lemma LastPosition(v: nat, n: nat)
    ensures |Positions(v, n + 1)| == |Positions(v, n)| + if v / Pow2(n) % 2 == 1 then 1 else 0
  {
    if v / Pow2(n) % 2 == 1 {
      assert Positions(v, n + 1) == Positions(v, n) + {n};
    } else {
      assert Positions(v, n + 1) == Positions(v, n);
    }
  }

  /** The parity flag: an even number of the eight low bits are one. */
  lemma ParityMeans(v: nat)
    ensures EvenParity(v) <==> |Positions(v, 8)| % 2 == 0
  {
    OnesCounted(v, 8);
    assert Pow2(8) == 256;
    hide Positions;
  }

  // ---------- the flags ----------

  function Masked(result: int, bits: nat): nat { result % Pow2(bits) }

  predicate SignBit(v: nat, bits: nat)
    requires bits > 0
  {
    v / Pow2(bits - 1) % 2 == 1
  }

  /** The two's complement reading of an operand. */
  function Signed(v: nat, bits: nat): int
    requires bits > 0
  {
    if v < Pow2(bits - 1) then v else v - Pow2(bits)
  }

  predicate InRange(x: int, bits: nat)
    requires bits > 0
  {
    x + Pow2(bits - 1) >= 0 && x < Pow2(bits - 1)
  }

  function AfterSub(f: Flags, a: nat, b: nat, result: int, bits: nat, borrow: nat): Flags
    requires bits > 0
  {
    var r := Masked(result, bits);
    Flags(
      result < 0 || result > Pow2(bits) - 1,
      EvenParity(r),
      a % 16 < b % 16 + borrow,
      r == 0,
      SignBit(r, bits),
      SignBit(a, bits) != SignBit(b, bits) && SignBit(r, bits) != SignBit(a, bits),
      f.df)
  }

  function AfterAdd(f: Flags, a: nat, b: nat, result: int, bits: nat): Flags
    requires bits > 0
  {
    var r := Masked(result, bits);
    Flags(
      result > Pow2(bits) - 1,
      EvenParity(r),
      a % 16 + b % 16 > 15,
      r == 0,
      SignBit(r, bits),
      SignBit(a, bits) == SignBit(b, bits) && SignBit(r, bits) != SignBit(a, bits),
      f.df)
  }

  lemma SignBitMeans(v: nat, bits: nat)
    requires bits > 0 && v < Pow2(bits)
    ensures SignBit(v, bits) <==> v >= Pow2(bits - 1)
    ensures SignBit(v, bits) <==> Signed(v, bits) < 0
  {
    var p := Pow2(bits - 1);
    if v >= p { Remainder(1, v - p, p); } else { Remainder(0, v, p); }
  }

  /** One wrap brings a sum or a difference of two operands into the word. */
  lemma Wrapped(x: int, bits: nat)
    requires x + Pow2(bits) >= 0 && x < 2 * Pow2(bits)
    ensures x % Pow2(bits) == if x < 0 then x + Pow2(bits) else if x < Pow2(bits) then x else x - Pow2(bits)
  {
    var p := Pow2(bits);
    var y := if x < 0 then x + p else if x < p then x else x - p;
    var q := if x < 0 then -1 else if x < p then 0 else 1;
    assert x == p * q + y;
    assert p * (x / p - q) == y - x % p;
    NoMultipleBetween(p, x / p - q);
  }

  /** After a comparison or a subtraction, the flags order the operands, unsigned and signed. */
  lemma SubFlagsOrder(f: Flags, a: nat, b: nat, bits: nat, borrow: nat)
    requires bits > 0 && a < Pow2(bits) && b < Pow2(bits) && borrow <= 1
    ensures var g, d := AfterSub(f, a, b, a - b - borrow, bits, borrow), Signed(a, bits) - Signed(b, bits) - borrow;
      && (g.cf <==> a < b + borrow)
      && (g.zf <==> a == b + borrow || a + Pow2(bits) == b + borrow)
      && (g.of <==> !InRange(d, bits))
      && (g.sf != g.of <==> d < 0)
      && g.df == f.df
    ensures
      var g, r := AfterSub(f, a, b, a - b - borrow, bits, borrow), (a - b - borrow) % Pow2(bits);
      && (g.sf <==> r >= Pow2(bits - 1))
      && (g.pf <==> |Positions(r, 8)| % 2 == 0)
      && (a - b - borrow) / 16 == a / 16 - b / 16 - if g.af then 1 else 0
  {
    var r := (a - b - borrow) % Pow2(bits);
    ParityMeans(r);
    DigitBorrow(a, b, borrow);
    Wrapped(a - b - borrow, bits);
    SignBitMeans(a, bits);
    SignBitMeans(b, bits);
    SignBitMeans(r, bits);
    hide SignBit, EvenParity, Positions, Pow2;
  }

  /** The low digit of a difference borrows from the next one. */
  lemma DigitBorrow(a: nat, b: nat, borrow: nat)
    requires borrow <= 1
    ensures (a - b - borrow) / 16 == a / 16 - b / 16 - if a % 16 < b % 16 + borrow then 1 else 0
  {
  }

  /** After an addition the flags tell a sum of zero, its sign and parity, and unsigned and signed overflow. */
  lemma AddFlagsMean(f: Flags, a: nat, b: nat, bits: nat, carry: nat)
    requires bits > 0 && a < Pow2(bits) && b < Pow2(bits) && carry <= 1
    ensures var g, d := AfterAdd(f, a, b, a + b + carry, bits), Signed(a, bits) + Signed(b, bits) + carry;
      && (g.cf <==> a + b + carry >= Pow2(bits))
      && (g.zf <==> a + b + carry == 0 || a + b + carry == Pow2(bits))
      && (g.of <==> !InRange(d, bits))
      && (g.sf != g.of <==> d < 0)
      && g.df == f.df
    ensures
      var g, r := AfterAdd(f, a, b, a + b + carry, bits), (a + b + carry) % Pow2(bits);
      && (g.sf <==> r >= Pow2(bits - 1))
      && (g.pf <==> |Positions(r, 8)| % 2 == 0)
      && (a + b) / 16 == a / 16 + b / 16 + if g.af then 1 else 0
  {
    var r := (a + b + carry) % Pow2(bits);
    ParityMeans(r);
    DigitCarry(a, b);
    Wrapped(a + b + carry, bits);
    SignBitMeans(a, bits);
    SignBitMeans(b, bits);
    SignBitMeans(r, bits);
    hide SignBit, EvenParity, Positions, Pow2;
  }

  lemma DigitCarry(a: nat, b: nat)
    ensures (a + b) / 16 == a / 16 + b / 16 + if a % 16 + b % 16 > 15 then 1 else 0
  {
  }

  /** The auxiliary flag leaves out the carry that comes in: it is the carry out of bit 3 unless a carry
      comes in and the low digits add up to 15. */
  lemma AuxiliaryCarry(f: Flags, a: nat, b: nat, bits: nat, carry: nat)
    requires bits > 0 && carry <= 1
    ensures (AfterAdd(f, a, b, a + b + carry, bits).af <==> a % 16 + b % 16 + carry >= 16)
      <==> !(carry == 1 && a % 16 + b % 16 == 15)
  {
  }

  class FlagRegister {
    var cf: bool
    var pf: bool
    var af: bool
    var zf: bool
    var sf: bool
    var of: bool
    var df: bool

    function Value(): Flags
      reads this
    {
      Flags(cf, pf, af, zf, sf, of, df)
    }

    constructor ()
      ensures Value() == Flags(false, false, false, false, false, false, false)
    {
      cf, pf, af, zf, sf, of, df := false, false, false, false, false, false, false;
    }

    method UpdateSub(a: nat, b: nat, result: int, bits: nat, borrow: nat)
      requires bits > 0
      modifies this
      ensures Value() == AfterSub(old(Value()), a, b, result, bits, borrow)
    {
      hide SignBit, EvenParity, Pow2, Masked;
      var mask, r := Pow2(bits) - 1, Masked(result, bits);
      cf := result < 0 || result > mask;
      zf := r == 0;
      sf := SignBit(r, bits);
      of := SignBit(a, bits) != SignBit(b, bits) && SignBit(r, bits) != SignBit(a, bits);
      pf := EvenParity(r);
      af := a % 16 < b % 16 + borrow;
    }

    method UpdateAdd(a: nat, b: nat, result: int, bits: nat)
      requires bits > 0
      modifies this
      ensures Value() == AfterAdd(old(Value()), a, b, result, bits)
    {
      hide SignBit, EvenParity, Pow2, Masked;
      var mask, r := Pow2(bits) - 1, Masked(result, bits);
      cf := result > mask;
      zf := r == 0;
      sf := SignBit(r, bits);
      of := SignBit(a, bits) == SignBit(b, bits) && SignBit(r, bits) != SignBit(a, bits);
      pf := EvenParity(r);
      af := a % 16 + b % 16 > 15;
    }
  }
}
