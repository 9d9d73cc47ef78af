/** The ROM generator: a CSV truth table, last matching row wins, stored in banks of 32-word ROMs whose
    outputs share a wire for each slice of 64 output columns. */
module RomCompiler {
  import opened Counting
  import opened QuineMcCluskey
  import CombCompiler
  import opened Wrappers

  type Row = CombCompiler.Row

  const WORDS: nat := 32
  const WIDTH: nat := 64
  const ADDRESS_BITS: nat := 5
  const MAX_GATE_INPUTS: nat := 12

  // ---------- numbers ----------

  /** A row of digits, first digit highest. A don't-care counts as 0. */
  function Number(ts: seq<Trit>): (v: nat)
    ensures v < Pow2(|ts|)
  {
    if ts == [] then 0 else 2 * Number(ts[..|ts| - 1]) + if ts[|ts| - 1] == One then 1 else 0
  }

  /** The `n` digits of a number. */
  function Digits(v: nat, n: nat): (ts: seq<Trit>)
    ensures IsMinterm(ts, n)
  {
    if n == 0 then [] else Digits(v / 2, n - 1) + [if v % 2 == 1 then One else Zero]
  }

  function Shift(v: nat, k: nat): nat { Quotient(v, Pow2(k)) }

  function Mask(v: nat, w: nat): nat { v % Pow2(w) }

  predicate Bit(v: nat, k: nat) { Shift(v, k) % 2 == 1 }

  lemma {:induction false} NumberOfDigits(v: nat, n: nat)
    requires v < Pow2(n)
    ensures Number(Digits(v, n)) == v
  {
    if n > 0 {
      NumberOfDigits(v / 2, n - 1);
      assert Digits(v, n)[..n - 1] == Digits(v / 2, n - 1);
    }
  }

  lemma {:induction false} DigitsOfNumber(m: Cube)
    requires IsMinterm(m, |m|)
    ensures Digits(Number(m), |m|) == m
    decreases |m|
  {
    if m != [] {
      var init := m[..|m| - 1];
      DigitsOfNumber(init);
      assert Number(m) / 2 == Number(init);
      assert m == init + [m[|m| - 1]];
    }
  }

  /** Vectors with the same address are the same. */
  lemma SameNumber(a: Cube, b: Cube, n: nat)
    requires IsMinterm(a, n) && IsMinterm(b, n) && Number(a) == Number(b)
    ensures a == b
  {
    DigitsOfNumber(a);
    DigitsOfNumber(b);
    hide Digits, Number;
  }

  lemma {:induction false} NumberConcat(a: Cube, b: Cube)
    ensures Number(a + b) == Pow2(|b|) * Number(a) + Number(b)
    decreases |b|
  {
    hide Number, Pow2;
    NothingIsZero();
    if b == [] {
      assert a + b == a;
    } else {
      var init, t := b[..|b| - 1], b[|b| - 1];
      NumberConcat(a, init);
      NumberEnds(a + init, t);
      NumberEnds(init, t);
      assert a + b == a + init + [t] && b == init + [t];
      NextPow2(|init|);
      Double(Pow2(|init|), Number(a));
    }
  }

  lemma NothingIsZero()
    ensures Number([]) == 0 && Pow2(0) == 1
  {
  }

  lemma NextPow2(n: nat)
    ensures Pow2(n + 1) == 2 * Pow2(n)
  {
  }

  lemma NumberEnds(ts: seq<Trit>, t: Trit)
    ensures Number(ts + [t]) == 2 * Number(ts) + if t == One then 1 else 0
  {
    assert (ts + [t])[..|ts|] == ts;
  }

  lemma LowestBit(v: nat)
    ensures Bit(v, 0) <==> v % 2 == 1
  {
    assert Pow2(0) == 1;
  }

  /** Digit `i` of a row is bit |ts| - 1 - i of its number. */
  lemma {:induction false} BitOfNumber(ts: seq<Trit>, i: nat)
    requires i < |ts|
    ensures Bit(Number(ts), |ts| - 1 - i) <==> ts[i] == One
    decreases |ts|
  {
    hide Bit;
    var init := ts[..|ts| - 1];
    if i == |ts| - 1 {
      LowestBit(Number(ts));
    } else {
      BitOfNumber(init, i);
      HalfBit(Number(ts), |ts| - 1 - i);
    }
  }

  lemma Double(p: nat, q: nat)
    ensures (2 * p) * q == 2 * (p * q)
  {
  }

  lemma Halves(v: nat, p: nat)
    requires p > 0
    ensures v / (2 * p) == v / 2 / p && v % (2 * p) / 2 == v / 2 % p && v % (2 * p) % 2 == v % 2
  {
    var h := v / 2;
    var q, r := h / p, h % p;
    assert h == p * q + r;
    Double(p, q);
    Remainder(q, 2 * r + v % 2, 2 * p);
  }

  lemma HalfBit(v: nat, k: nat)
    requires k > 0
    ensures Bit(v, k) == Bit(v / 2, k - 1)
  {
    Halves(v, Pow2(k - 1));
  }

  /** Masking keeps the bits below the mask. */
  lemma {:induction false} MaskedBit(v: nat, w: nat, k: nat)
    requires k < w
    ensures Bit(Mask(v, w), k) == Bit(v, k)
    decreases k
  {
    Halves(v, Pow2(w - 1));
    if k == 0 {
      assert Pow2(0) == 1;
    } else {
      HalfBit(v, k);
      HalfBit(Mask(v, w), k);
      MaskedBit(v / 2, w - 1, k - 1);
      hide Bit;
    }
  }

  lemma {:induction false} ShiftedBit(v: nat, shift: nat, k: nat)
    ensures Bit(Shift(v, shift), k) == Bit(v, shift + k)
    decreases shift
  {
    if shift == 0 {
      assert Pow2(0) == 1;
    } else {
      HalfBit(v, shift + k);
      Halves(v, Pow2(shift - 1));
      ShiftedBit(v / 2, shift - 1, k);
      hide Bit;
    }
  }

  /** Bit `k` of the slice at `shift` is bit shift + k of the whole. */
  lemma SliceBit(v: nat, shift: nat, k: nat)
    requires k < WIDTH
    ensures Bit(Mask(Shift(v, shift), WIDTH), k) == Bit(v, shift + k)
  {
    hide Bit, Shift, Mask;
    MaskedBit(Shift(v, shift), WIDTH, k);
    ShiftedBit(v, shift, k);
  }

  // ---------- the table ----------

  predicate WellFormedRows(rows: seq<Row>, n: nat, outs: nat) { CombCompiler.WellFormedRows(rows, n, outs) }

  /** The last row, among the first `k`, that covers the vector. */
  function LastMatch(rows: seq<Row>, m: Cube, k: nat): (r: Option<nat>)
    requires k <= |rows| && forall i :: 0 <= i < |rows| ==> |rows[i].inputs| == |m|
    ensures r.Some? ==> r.value < k && Covers(rows[r.value].inputs, m)
    ensures r.Some? ==> forall i :: r.value < i < k ==> !Covers(rows[i].inputs, m)
    ensures r.None? ==> forall i :: 0 <= i < k ==> !Covers(rows[i].inputs, m)
    decreases k
  {
    if k == 0 then None
    else if Covers(rows[k - 1].inputs, m) then Some(k - 1)
    else LastMatch(rows, m, k - 1)
  }

  /** The address holds what the last matching row says, and nothing if no row matches. */
  ghost predicate Holds(t: map<nat, nat>, rows: seq<Row>, m: Cube, k: nat)
    requires k <= |rows| && forall i :: 0 <= i < |rows| ==> |rows[i].inputs| == |m|
  {
    var last := LastMatch(rows, m, k);
    if last.Some? then Number(m) in t && t[Number(m)] == Number(rows[last.value].outputs) else Number(m) !in t
  }

  ghost predicate TableOf(t: map<nat, nat>, rows: seq<Row>, n: nat, k: nat)
    requires k <= |rows| && forall i :: 0 <= i < |rows| ==> |rows[i].inputs| == n
  {
    forall m :: IsMinterm(m, n) ==> Holds(t, rows, m, k)
  }

  method ExpandRows(rows: seq<Row>, n: nat, outs: nat) returns (t: map<nat, nat>)
    requires WellFormedRows(rows, n, outs)
    ensures TableOf(t, rows, n, |rows|)
  {
    t := map[];
    for r := 0 to |rows|
      invariant TableOf(t, rows, n, r)
    {
      var before := t;
      t := AddRow(before, rows[r]);
      RowAdded(before, t, rows, n, r);
    }
  }

  ghost predicate Added(before: map<nat, nat>, t: map<nat, nat>, ms: seq<Cube>, out: nat) {
    && (forall a :: a in t <==> a in before || exists m :: m in ms && Number(m) == a)
    && (forall m :: m in ms && Number(m) in t ==> t[Number(m)] == out)
    && (forall a :: a in before && (forall m :: m in ms ==> Number(m) != a) ==> t[a] == before[a])
  }

  method AddRow(before: map<nat, nat>, row: Row) returns (t: map<nat, nat>)
    ensures Added(before, t, CombCompiler.Expand(row.inputs), Number(row.outputs))
  {
    hide Number, Added, CombCompiler.Expand;
    t := before;
    NothingAdded(t, Number(row.outputs));
    var ms := CombCompiler.Expand(row.inputs);
    for k := 0 to |ms|
      invariant Added(before, t, ms[..k], Number(row.outputs))
    {
      assert ms[..k + 1] == ms[..k] + [ms[k]];
      AddressAdded(before, t, ms[..k], ms[k], Number(row.outputs));
      t := t[Number(ms[k]) := Number(row.outputs)];
    }
    assert ms[..|ms|] == ms;
  }

  lemma NothingAdded(t: map<nat, nat>, out: nat)
    ensures Added(t, t, [], out)
  {
  }

  lemma AddressAdded(before: map<nat, nat>, t: map<nat, nat>, ms: seq<Cube>, m: Cube, out: nat)
    requires Added(before, t, ms, out)
    ensures Added(before, t[Number(m) := out], ms + [m], out)
  {
    hide Number;
    assert forall x :: x in ms + [m] <==> x in ms || x == m;
  }

  lemma RowAdded(before: map<nat, nat>, t: map<nat, nat>, rows: seq<Row>, n: nat, r: nat)
    requires r < |rows| && forall i :: 0 <= i < |rows| ==> |rows[i].inputs| == n
    requires TableOf(before, rows, n, r)
    requires Added(before, t, CombCompiler.Expand(rows[r].inputs), Number(rows[r].outputs))
    ensures TableOf(t, rows, n, r + 1)
  {
    forall m | IsMinterm(m, n) ensures Holds(t, rows, m, r + 1) {
      hide CombCompiler.Expand, Number, Covers;
      var ms := CombCompiler.Expand(rows[r].inputs);
      CombCompiler.ExpandsToCovered(rows[r].inputs, m);
      assert Holds(before, rows, m, r);
      if m !in ms {
        forall x | x in ms ensures Number(x) != Number(m) {
          CombCompiler.ExpandsToCovered(rows[r].inputs, x);
          if Number(x) == Number(m) { SameNumber(x, m, n); }
        }
      }
    }
  }

  // ---------- layout ----------

  function UpperBits(n: nat): nat { if n > ADDRESS_BITS then n - ADDRESS_BITS else 0 }

  function Banks(n: nat): (b: nat)
    ensures b > 0
  {
    if Pow2(n) / WORDS > 0 then Pow2(n) / WORDS else 1
  }

  function Slices(outs: nat): (s: nat)
    ensures s > 0
  {
    var needed := (outs + WIDTH - 1) / WIDTH;
    if needed > 0 then needed else 1
  }

  lemma Pow2Of5()
    ensures Pow2(ADDRESS_BITS) == WORDS
  {
    assert Pow2(3) == 8;
  }

  lemma {:induction false} SmallAddressSpace(n: nat)
    requires n <= ADDRESS_BITS
    ensures Pow2(n) <= WORDS && (n < ADDRESS_BITS ==> Pow2(n) < WORDS)
    decreases ADDRESS_BITS - n
  {
    Pow2Of5();
    if n < ADDRESS_BITS { SmallAddressSpace(n + 1); }
  }

  lemma BanksOfUpper(n: nat)
    ensures Banks(n) == Pow2(UpperBits(n))
  {
    Pow2Of5();
    if n > ADDRESS_BITS {
      Pow2Sum(ADDRESS_BITS, n - ADDRESS_BITS);
      Remainder(Pow2(n - ADDRESS_BITS), 0, WORDS);
    } else {
      SmallAddressSpace(n);
      assert Pow2(0) == 1;
    }
  }

  /** The upper digits of a vector pick the bank, the lower ones the word. */
  lemma BankAndWord(m: Cube)
    ensures UpperBits(|m|) <= |m|
    ensures Number(m) / WORDS == Number(m[..UpperBits(|m|)]) && Number(m) % WORDS == Number(m[UpperBits(|m|)..])
    ensures Number(m) / WORDS < Banks(|m|)
  {
    var u := UpperBits(|m|);
    var hi, lo := m[..u], m[u..];
    assert m == hi + lo;
    NumberConcat(hi, lo);
    BanksOfUpper(|m|);
    Pow2Of5();
    if u > 0 {
      Remainder(Number(hi), Number(lo), WORDS);
    } else {
      SmallAddressSpace(|m|);
      assert Number(hi) == 0;
      Remainder(0, Number(m), WORDS);
    }
    hide Number, Banks;
  }

  // ---------- the netlist ----------

  /** An upper address line, or its inverter. Lines count from the lowest bit of the bus. */
  datatype Lit = Line(b: nat) | Inverter(b: nat)

  datatype Enable = Always | Wire(l: Lit) | And(ls: seq<Lit>)

  /** An output port is bit `bit` of the shared wire of slice `slice`. */
  datatype Tap = Tap(slice: nat, bit: nat)

  datatype Netlist = Netlist(enables: seq<Enable>, roms: seq<seq<seq<nat>>>, taps: seq<Tap>)

  /** The bus lists the first input columns, highest bit first. */
  predicate UpperLine(m: Cube, b: nat) { b < UpperBits(|m|) <= |m| && m[UpperBits(|m|) - 1 - b] == One }

  predicate LitValue(l: Lit, m: Cube) {
    match l
    case Line(b) => UpperLine(m, b)
    case Inverter(b) => !UpperLine(m, b)
  }

  predicate Enabled(e: Enable, m: Cube) {
    match e
    case Always => true
    case Wire(l) => LitValue(l, m)
    case And(ls) => forall k :: 0 <= k < |ls| ==> LitValue(ls[k], m)
  }

  function LowerAddress(m: Cube): nat { if |m| >= ADDRESS_BITS then Number(m[|m| - ADDRESS_BITS..]) else Number(m) }

  /** The banks that drive the slice wires; the others are high-impedance. */
  function Drivers(net: Netlist, m: Cube): set<nat> { set b: nat | b < |net.enables| && Enabled(net.enables[b], m) }

  predicate HasShape(roms: seq<seq<seq<nat>>>, n: nat, outs: nat) {
    |roms| == Banks(n) && forall b :: 0 <= b < |roms| ==>
      |roms[b]| == Slices(outs) && forall s :: 0 <= s < |roms[b]| ==> |roms[b][s]| == WORDS
  }

  /** The value of port `i`, when `bank` drives the slices. */
  predicate Port(net: Netlist, m: Cube, bank: nat, i: nat)
    requires i < |net.taps| && bank < |net.roms| && net.taps[i].slice < |net.roms[bank]|
    requires LowerAddress(m) < |net.roms[bank][net.taps[i].slice]|
  {
    Bit(net.roms[bank][net.taps[i].slice][LowerAddress(m)], net.taps[i].bit)
  }

  // ---------- bank select ----------

  function SelectLit(bank: nat, u: nat, k: nat): Lit
    requires k < u
  {
    if Digits(bank, u)[k] == One then Line(u - 1 - k) else Inverter(u - 1 - k)
  }

  function EnableOf(bank: nat, u: nat): Enable {
    if u == 0 then Always
    else if u == 1 then Wire(SelectLit(bank, 1, 0))
    else And(seq(u, k requires 0 <= k < u => SelectLit(bank, u, k)))
  }

  lemma SelectLitMeans(bank: nat, m: Cube, k: nat)
    requires IsMinterm(m, |m|) && k < UpperBits(|m|)
    ensures LitValue(SelectLit(bank, UpperBits(|m|), k), m) <==> m[k] == Digits(bank, UpperBits(|m|))[k]
  {
  }

  /** A bank is enabled exactly when the upper digits are its number. */
  lemma EnableDecodes(bank: nat, m: Cube)
    requires IsMinterm(m, |m|) && bank < Banks(|m|)
    ensures Enabled(EnableOf(bank, UpperBits(|m|)), m) <==> Number(m) / WORDS == bank
  {
    hide LitValue, Number, Banks, Enabled, EnableOf, Digits;
    var u := UpperBits(|m|);
    var hi := m[..u];
    BankAndWord(m);
    BanksOfUpper(|m|);
    DigitsDecide(bank, hi, u);
    AllLits(bank, m, u);
    forall k | 0 <= k < u ensures LitValue(SelectLit(bank, u, k), m) <==> hi[k] == Digits(bank, u)[k] { SelectLitMeans(bank, m, k); }
  }

  lemma DigitsDecide(bank: nat, hi: Cube, u: nat)
    requires bank < Pow2(u) && IsMinterm(hi, u)
    ensures (forall k :: 0 <= k < u ==> hi[k] == Digits(bank, u)[k]) <==> Number(hi) == bank
  {
    hide Digits, Number;
    NumberOfDigits(bank, u);
    if Number(hi) == bank { SameNumber(hi, Digits(bank, u), u); }
    if forall k :: 0 <= k < u ==> hi[k] == Digits(bank, u)[k] { assert hi == Digits(bank, u); }
  }

  lemma AllLits(bank: nat, m: Cube, u: nat)
    ensures Enabled(EnableOf(bank, u), m) <==> forall k :: 0 <= k < u ==> LitValue(SelectLit(bank, u, k), m)
  {
    hide SelectLit, LitValue;
    if u > 1 {
      var ls := seq(u, k requires 0 <= k < u => SelectLit(bank, u, k));
      assert EnableOf(bank, u) == And(ls);
      assert forall k :: 0 <= k < u ==> ls[k] == SelectLit(bank, u, k);
    }
  }

  lemma OneBank(n: nat)
    ensures Banks(n) == 1 <==> UpperBits(n) == 0
  {
    BanksOfUpper(n);
    hide Banks;
  }

  /** The decoder: one inverter for each upper line, and one gate, wire or constant for each bank. It fails
      when the gate would need more than twelve inputs. */
  method EmitOeLogic(n: nat) returns (r: Option<seq<Enable>>)
    ensures r.Some? <==> UpperBits(n) <= MAX_GATE_INPUTS
    ensures r.Some? ==> |r.value| == Banks(n) && forall b :: 0 <= b < Banks(n) ==> r.value[b] == EnableOf(b, UpperBits(n))
  {
    var u, banks := UpperBits(n), Banks(n);
    OneBank(n);
    hide Banks;
    if banks == 1 { return Some([Always]); }
    var enables: seq<Enable> := [];
    for bank := 0 to banks
      invariant |enables| == bank && (bank > 0 ==> u <= MAX_GATE_INPUTS)
      invariant forall b :: 0 <= b < bank ==> enables[b] == EnableOf(b, u)
    {
      var ls := BankLits(bank, u);
      if |ls| == 1 {
        enables := enables + [Wire(ls[0])];
      } else {
        if |ls| > MAX_GATE_INPUTS { return None; }
        enables := enables + [And(ls)];
      }
    }
    return Some(enables);
  }

  method BankLits(bank: nat, u: nat) returns (ls: seq<Lit>)
    ensures |ls| == u && forall k :: 0 <= k < u ==> ls[k] == SelectLit(bank, u, k)
    ensures u > 1 ==> And(ls) == EnableOf(bank, u)
    ensures u == 1 ==> Wire(ls[0]) == EnableOf(bank, u)
  {
    ls := [];
    var digits := Digits(bank, u);
    for k := 0 to u
      invariant |ls| == k && forall j :: 0 <= j < k ==> ls[j] == SelectLit(bank, u, j)
    {
      ls := ls + [if digits[k] == One then Line(u - 1 - k) else Inverter(u - 1 - k)];
    }
    if u > 1 { assert ls == seq(u, k requires 0 <= k < u => SelectLit(bank, u, k)); }
  }

  // ---------- contents and ports ----------

  /** The word of slice `s` at address `a`: the last slice holds the lowest bits. */
  function Content(t: map<nat, nat>, outs: nat, a: nat, s: nat): nat
    requires s < Slices(outs)
  {
    var out := if a in t then t[a] else 0;
    Mask(Shift(Mask(out, outs), (Slices(outs) - 1 - s) * WIDTH), WIDTH)
  }

  ghost predicate Filled(roms: seq<seq<seq<nat>>>, t: map<nat, nat>, n: nat, outs: nat, upTo: nat) {
    && HasShape(roms, n, outs)
    && forall a: nat :: a < upTo && a / WORDS < |roms| ==> RowFilled(roms[a / WORDS], t, outs, a)
  }

  ghost predicate RowFilled(bank: seq<seq<nat>>, t: map<nat, nat>, outs: nat, a: nat) {
    |bank| == Slices(outs) && forall s :: 0 <= s < |bank| ==> |bank[s]| == WORDS && bank[s][a % WORDS] == Content(t, outs, a, s)
  }

  method BuildRomContents(t: map<nat, nat>, n: nat, outs: nat) returns (roms: seq<seq<seq<nat>>>)
    ensures Filled(roms, t, n, outs, Pow2(n))
  {
    hide Content, RowFilled;
    var slices := Slices(outs);
    roms := seq(Banks(n), _ => seq(slices, _ => seq(WORDS, _ => 0)));
    for addr := 0 to Pow2(n)
      invariant Filled(roms, t, n, outs, addr)
    {
      AddressFits(addr, n);
      var row := FillWord(roms[addr / WORDS], t, outs, addr);
      WordFilled(roms, row, t, n, outs, addr);
      roms := roms[addr / WORDS := row];
    }
  }

  lemma AddressFits(a: nat, n: nat)
    requires a < Pow2(n)
    ensures a / WORDS < Banks(n)
  {
    NumberOfDigits(a, n);
    BankAndWord(Digits(a, n));
    hide Banks, Number;
  }

  method FillWord(bank: seq<seq<nat>>, t: map<nat, nat>, outs: nat, addr: nat) returns (row: seq<seq<nat>>)
    requires |bank| == Slices(outs) && forall s :: 0 <= s < |bank| ==> |bank[s]| == WORDS
    ensures |row| == |bank| && forall s :: 0 <= s < |row| ==> row[s] == bank[s][addr % WORDS := Content(t, outs, addr, s)]
  {
    var out := if addr in t then t[addr] else 0;
    var padded := Mask(out, outs);
    row := bank;
    for sl := 0 to |bank|
      invariant |row| == |bank|
      invariant forall s :: 0 <= s < sl ==> row[s] == bank[s][addr % WORDS := Content(t, outs, addr, s)]
      invariant forall s :: sl <= s < |row| ==> row[s] == bank[s]
    {
      hide Mask, Shift, Slices;
      var shift := (Slices(outs) - 1 - sl) * WIDTH;
      var words: seq<nat> := row[sl][addr % WORDS := Mask(Shift(padded, shift), WIDTH)];
      row := row[sl := words];
    }
  }

  lemma WordFilled(roms: seq<seq<seq<nat>>>, row: seq<seq<nat>>, t: map<nat, nat>, n: nat, outs: nat, addr: nat)
    requires addr / WORDS < |roms| && Filled(roms, t, n, outs, addr) && |row| == Slices(outs)
    requires forall s :: 0 <= s < |row| ==> row[s] == roms[addr / WORDS][s][addr % WORDS := Content(t, outs, addr, s)]
    ensures Filled(roms[addr / WORDS := row], t, n, outs, addr + 1)
  {
    hide Content, Slices, Banks;
    var after := roms[addr / WORDS := row];
    forall a: nat | a < addr + 1 && a / WORDS < |after| ensures RowFilled(after[a / WORDS], t, outs, a) {
      if a < addr && a / WORDS == addr / WORDS {
        assert RowFilled(roms[a / WORDS], t, outs, a);
        assert a % WORDS != addr % WORDS;
      }
    }
  }

  function TapOf(outs: nat, i: nat): (p: Tap)
    requires i < outs
    ensures p.slice < Slices(outs) && p.bit < WIDTH
  {
    var bit := outs - 1 - i;
    Tap(Slices(outs) - 1 - bit / WIDTH, bit % WIDTH)
  }

  method EmitOutputAssigns(outs: nat) returns (taps: seq<Tap>)
    ensures |taps| == outs && forall i :: 0 <= i < outs ==> taps[i] == TapOf(outs, i)
  {
    taps := [];
    for i := 0 to outs
      invariant |taps| == i && forall j :: 0 <= j < i ==> taps[j] == TapOf(outs, j)
    {
      var bit := outs - 1 - i;
      taps := taps + [Tap(Slices(outs) - 1 - bit / WIDTH, bit % WIDTH)];
    }
  }

  /** A tap reads its own bit of the row's number. */
  lemma TapReads(t: map<nat, nat>, outs: nat, a: nat, i: nat)
    requires i < outs
    ensures var p := TapOf(outs, i);
      Bit(Content(t, outs, a, p.slice), p.bit) <==> Bit(if a in t then t[a] else 0, outs - 1 - i)
  {
    hide Bit, Mask, Shift;
    var p, out := TapOf(outs, i), if a in t then t[a] else 0;
    var shift := (Slices(outs) - 1 - p.slice) * WIDTH;
    SliceBit(Mask(out, outs), shift, p.bit);
    MaskedBit(out, outs, outs - 1 - i);
  }

  /** What the CSV wants of output `i`: the digit of the last matching row, and 0 without one. */
  function Wanted(rows: seq<Row>, m: Cube, outs: nat, i: nat): bool
    requires WellFormedRows(rows, |m|, outs) && i < outs
  {
    var last := LastMatch(rows, m, |rows|);
    last.Some? && rows[last.value].outputs[i] == One
  }

  /** For this vector one bank alone drives the slices, and the ports show the wanted row. */
  ghost predicate Shows(net: Netlist, rows: seq<Row>, m: Cube, outs: nat)
    requires WellFormedRows(rows, |m|, outs)
  {
    var bank := Number(m) / WORDS;
    && Drivers(net, m) == {bank}
    && bank < |net.roms| && |net.taps| == outs
    && forall i :: 0 <= i < outs ==>
         && net.taps[i].slice < |net.roms[bank]|
         && LowerAddress(m) < |net.roms[bank][net.taps[i].slice]|
         && Port(net, m, bank, i) == Wanted(rows, m, outs, i)
  }

  lemma LowerIsWord(m: Cube)
    ensures LowerAddress(m) == Number(m) % WORDS
  {
    BankAndWord(m);
    assert m[0..] == m;
    hide Banks;
  }

  lemma OneDriver(net: Netlist, m: Cube)
    requires IsMinterm(m, |m|) && |net.enables| == Banks(|m|)
    requires forall b :: 0 <= b < Banks(|m|) ==> net.enables[b] == EnableOf(b, UpperBits(|m|))
    ensures Drivers(net, m) == {Number(m) / WORDS} && Number(m) / WORDS < Banks(|m|)
  {
    hide Enabled, EnableOf, Number, Banks, UpperBits;
    BankAndWord(m);
    forall b: nat | b < |net.enables| ensures Enabled(net.enables[b], m) <==> b == Number(m) / WORDS { EnableDecodes(b, m); }
  }

  lemma StoredBit(t: map<nat, nat>, rows: seq<Row>, m: Cube, outs: nat, i: nat)
    requires WellFormedRows(rows, |m|, outs) && IsMinterm(m, |m|) && TableOf(t, rows, |m|, |rows|) && i < outs
    ensures Bit(if Number(m) in t then t[Number(m)] else 0, outs - 1 - i) == Wanted(rows, m, outs, i)
  {
    assert Holds(t, rows, m, |rows|);
    var last := LastMatch(rows, m, |rows|);
    if last.Some? { BitOfNumber(rows[last.value].outputs, i); } else { ZeroBit(outs - 1 - i); }
    hide Number, Bit, LastMatch;
  }

  lemma ZeroBit(k: nat)
    ensures !Bit(0, k)
  {
    Remainder(0, 0, Pow2(k));
  }

  lemma NetlistShows(net: Netlist, t: map<nat, nat>, rows: seq<Row>, m: Cube, n: nat, outs: nat)
    requires WellFormedRows(rows, n, outs) && IsMinterm(m, n) && TableOf(t, rows, n, |rows|)
    requires Filled(net.roms, t, n, outs, Pow2(n))
    requires |net.enables| == Banks(n) && forall b :: 0 <= b < Banks(n) ==> net.enables[b] == EnableOf(b, UpperBits(n))
    requires |net.taps| == outs && forall i :: 0 <= i < outs ==> net.taps[i] == TapOf(outs, i)
    ensures Shows(net, rows, m, outs)
  {
    hide Drivers, EnableOf, Number, Banks, Bit, Content, Wanted, LowerAddress, TableOf, Slices, TapOf;
    var a := Number(m);
    OneDriver(net, m);
    LowerIsWord(m);
    assert RowFilled(net.roms[a / WORDS], t, outs, a);
    forall i | 0 <= i < outs
      ensures net.taps[i].slice < |net.roms[a / WORDS]| && LowerAddress(m) < |net.roms[a / WORDS][net.taps[i].slice]|
      ensures Port(net, m, a / WORDS, i) == Wanted(rows, m, outs, i)
    {
      TapReads(t, outs, a, i);
      StoredBit(t, rows, m, outs, i);
    }
  }

  /** The generator. It refuses a table without input or output columns, and a decoder with gates that the
      library does not have. */
  method Generate(rows: seq<Row>, n: nat, outs: nat) returns (r: Option<Netlist>)
    requires WellFormedRows(rows, n, outs)
    ensures r.Some? <==> 0 < n <= ADDRESS_BITS + MAX_GATE_INPUTS && outs > 0
    ensures r.Some? ==> forall m :: IsMinterm(m, n) ==> Shows(r.value, rows, m, outs)
  {
    if n == 0 || outs == 0 { return None; }
    var t := ExpandRows(rows, n, outs);
    var roms := BuildRomContents(t, n, outs);
    var enables := EmitOeLogic(n);
    if enables.None? { return None; }
    var taps := EmitOutputAssigns(outs);
    var net := Netlist(enables.value, roms, taps);
    forall m | IsMinterm(m, n) ensures Shows(net, rows, m, outs) { NetlistShows(net, t, rows, m, n, outs); }
    return Some(net);
  }
}
