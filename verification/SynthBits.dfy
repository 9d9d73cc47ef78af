/** Bit vectors, least significant bit first, as the signals and cells of the register-transfer
    synthesiser compute with them. */
module SynthBits {
  import opened Counting

  type Bits = seq<bool>

  function ToNat(b: Bits): nat { if b == [] then 0 else (if b[0] then 1 else 0) + 2 * ToNat(b[1..]) }

  function OfNat(n: nat, w: nat): (b: Bits)
    ensures |b| == w
    decreases w
  {
    if w == 0 then [] else [n % 2 == 1] + OfNat(n / 2, w - 1)
  }

  function Zeros(n: nat): (b: Bits)
    ensures |b| == n && forall i :: 0 <= i < n ==> !b[i]
  {
    seq(n, _ => false)
  }

  /** Truncated or extended with zeros to a width, as where a wire is connected to a port. */
  function Fit(b: Bits, w: nat): (r: Bits)
    ensures |r| == w && forall i :: 0 <= i < w ==> r[i] == (i < |b| && b[i])
  {
    if |b| >= w then b[..w] else b + Zeros(w - |b|)
  }

  function Not(b: Bits): (r: Bits)
    ensures |r| == |b| && forall i :: 0 <= i < |b| ==> r[i] == !b[i]
  {
    seq(|b|, i requires 0 <= i < |b| => !b[i])
  }

  datatype Bitwise = And | Or | Xor

  function Apply(op: Bitwise, x: bool, y: bool): bool {
    match op
    case And => x && y
    case Or => x || y
    case Xor => x != y
  }

  function Pointwise(op: Bitwise, a: Bits, b: Bits): (r: Bits)
    requires |a| == |b|
    ensures |r| == |a| && forall i :: 0 <= i < |a| ==> r[i] == Apply(op, a[i], b[i])
  {
    seq(|a|, i requires 0 <= i < |a| => Apply(op, a[i], b[i]))
  }

  function Majority(x: bool, y: bool, z: bool): bool { (x && y) || (x && z) || (y && z) }

  /** Ripple-carry addition; the carry out of the last bit is dropped. */
  function Add(a: Bits, b: Bits, c: bool): (r: Bits)
    requires |a| == |b|
    ensures |r| == |a|
    decreases |a|
  {
    if a == [] then [] else [(a[0] != b[0]) != c] + Add(a[1..], b[1..], Majority(a[0], b[0], c))
  }

  function Sub(a: Bits, b: Bits): (r: Bits)
    requires |a| == |b|
    ensures |r| == |a|
  {
    Add(a, Not(b), true)
  }

  predicate Less(a: Bits, b: Bits)
    requires |a| == |b|
    decreases |a|
  {
    a != [] && (Less(a[1..], b[1..]) || (a[1..] == b[1..] && !a[0] && b[0]))
  }

  function Parity(b: Bits): bool { if b == [] then false else b[0] != Parity(b[1..]) }

  predicate AnyBit(b: Bits) { true in b }

  datatype Reducer = RAnd | ROr | RXor

  predicate Reduced(op: Reducer, b: Bits) {
    match op
    case RAnd => false !in b
    case ROr => AnyBit(b)
    case RXor => Parity(b)
  }

  // ---------- what the operations compute ----------

  lemma {:induction false} ToNatBound(b: Bits)
    ensures ToNat(b) < Pow2(|b|)
    decreases |b|
  {
    if b != [] { ToNatBound(b[1..]); }
  }

  /** Addition is addition modulo a power of two. */
  lemma {:induction false} AddIsAddition(a: Bits, b: Bits, c: bool)
    requires |a| == |b|
    ensures exists carry: nat :: carry <= 1 && ToNat(a) + ToNat(b) + (if c then 1 else 0) == ToNat(Add(a, b, c)) + carry * Pow2(|a|)
    decreases |a|
  {
    if a == [] {
      assert ToNat(a) + ToNat(b) + (if c then 1 else 0) == ToNat(Add(a, b, c)) + (if c then 1 else 0) * Pow2(0);
    } else {
      var d := Majority(a[0], b[0], c);
      AddIsAddition(a[1..], b[1..], d);
      var rest := Add(a[1..], b[1..], d);
      var carry: nat :| carry <= 1 && ToNat(a[1..]) + ToNat(b[1..]) + (if d then 1 else 0) == ToNat(rest) + carry * Pow2(|a| - 1);
      assert Add(a, b, c)[1..] == rest;
      assert 2 * (carry * Pow2(|a| - 1)) == carry * Pow2(|a|);
      assert ToNat(a) + ToNat(b) + (if c then 1 else 0) == ToNat(Add(a, b, c)) + carry * Pow2(|a|);
    }
  }

  lemma {:induction false} NotIsComplement(b: Bits)
    ensures ToNat(b) + ToNat(Not(b)) == Pow2(|b|) - 1
    decreases |b|
  {
    if b != [] {
      NotIsComplement(b[1..]);
      assert Not(b)[1..] == Not(b[1..]);
    }
  }

  /** Subtraction is subtraction modulo a power of two. */
  lemma SubIsSubtraction(a: Bits, b: Bits)
    requires |a| == |b|
    ensures ToNat(Sub(a, b)) == if ToNat(a) >= ToNat(b) then ToNat(a) - ToNat(b) else ToNat(a) + Pow2(|a|) - ToNat(b)
  {
    AddIsAddition(a, Not(b), true);
    NotIsComplement(b);
    ToNatBound(a);
    ToNatBound(b);
    ToNatBound(Sub(a, b));
    var p := Pow2(|a|);
    hide Sub, ToNat, Pow2;
    var carry: nat :| carry <= 1 && ToNat(a) + ToNat(Not(b)) + 1 == ToNat(Sub(a, b)) + carry * p;
    assert carry == 0 || carry == 1;
  }

  lemma {:induction false} LessIsLess(a: Bits, b: Bits)
    requires |a| == |b|
    ensures Less(a, b) <==> ToNat(a) < ToNat(b)
    decreases |a|
  {
    if a != [] {
      LessIsLess(a[1..], b[1..]);
      SameNat(a[1..], b[1..]);
    }
  }

  lemma {:induction false} SameNat(a: Bits, b: Bits)
    requires |a| == |b|
    ensures a == b <==> ToNat(a) == ToNat(b)
    decreases |a|
  {
    if a != [] {
      SameNat(a[1..], b[1..]);
      assert a == [a[0]] + a[1..] && b == [b[0]] + b[1..];
    }
  }

  lemma {:induction false} OfNatValue(n: nat, w: nat)
    requires n < Pow2(w)
    ensures ToNat(OfNat(n, w)) == n
    decreases w
  {
    if w > 0 {
      OfNatValue(n / 2, w - 1);
      assert OfNat(n, w)[1..] == OfNat(n / 2, w - 1);
    }
  }

  lemma {:induction false} OfNatZero(w: nat)
    ensures OfNat(0, w) == Zeros(w) == Fit(Zeros(w), w)
    decreases w
  {
    if w > 0 {
      OfNatZero(w - 1);
      assert [false] + Zeros(w - 1) == Zeros(w);
    }
  }

  // ---------- width changes ----------

  lemma FitFit(b: Bits, w: nat, u: nat)
    requires w <= u || |b| <= u
    ensures Fit(Fit(b, u), w) == Fit(b, w)
  {
  }

  /** The low bits of a sum depend on the low bits only. */
  lemma {:induction false} AddLow(a: Bits, b: Bits, c: bool, w: nat)
    requires |a| == |b| && w <= |a|
    ensures Add(a, b, c)[..w] == Add(a[..w], b[..w], c)
    decreases w
  {
    if w > 0 {
      AddLow(a[1..], b[1..], Majority(a[0], b[0], c), w - 1);
      assert a[..w][1..] == a[1..][..w - 1] && b[..w][1..] == b[1..][..w - 1];
      assert Add(a, b, c)[..w] == [(a[0] != b[0]) != c] + Add(a[1..], b[1..], Majority(a[0], b[0], c))[..w - 1];
    }
  }

  lemma SubLow(a: Bits, b: Bits, w: nat)
    requires |a| == |b| && w <= |a|
    ensures Sub(a, b)[..w] == Sub(a[..w], b[..w])
  {
    AddLow(a, Not(b), true, w);
    assert Not(b)[..w] == Not(b[..w]);
  }

  lemma PointwiseLow(op: Bitwise, a: Bits, b: Bits, w: nat)
    requires |a| == |b| && w <= |a|
    ensures Pointwise(op, a, b)[..w] == Pointwise(op, a[..w], b[..w])
  {
  }

  lemma PointwiseFit(op: Bitwise, a: Bits, b: Bits, w: nat)
    requires |a| == |b| <= w
    ensures Pointwise(op, Fit(a, w), Fit(b, w)) == Fit(Pointwise(op, a, b), w)
  {
  }

  /** Leading zeros do not change a comparison. */
  lemma {:induction false} LessFit(a: Bits, b: Bits, w: nat)
    requires |a| == |b| <= w
    ensures Less(Fit(a, w), Fit(b, w)) == Less(a, b)
    decreases w
  {
    if a == [] {
      NeverLess(w);
      assert Fit(a, w) == Zeros(w) == Fit(b, w);
    } else {
      LessFit(a[1..], b[1..], w - 1);
      assert Fit(a, w)[1..] == Fit(a[1..], w - 1) && Fit(b, w)[1..] == Fit(b[1..], w - 1);
      EqualFit(a[1..], b[1..], w - 1);
    }
  }

  lemma {:induction false} NeverLess(w: nat)
    ensures !Less(Zeros(w), Zeros(w))
    decreases w
  {
    if w > 0 {
      NeverLess(w - 1);
      assert Zeros(w)[1..] == Zeros(w - 1);
    }
  }

  lemma EqualFit(a: Bits, b: Bits, w: nat)
    requires |a| == |b| <= w
    ensures Fit(a, w) == Fit(b, w) <==> a == b
  {
    assert a == Fit(a, w)[..|a|] && b == Fit(b, w)[..|b|];
  }

  lemma AnyBitFit(b: Bits, w: nat)
    requires |b| <= w
    ensures AnyBit(Fit(b, w)) == AnyBit(b)
  {
    var f := Fit(b, w);
    if AnyBit(b) {
      var i :| 0 <= i < |b| && b[i];
      assert f[i];
    }
  }

  lemma {:induction false} ParityFit(b: Bits, w: nat)
    requires |b| <= w
    ensures Parity(Fit(b, w)) == Parity(b)
    decreases w
  {
    if b != [] {
      ParityFit(b[1..], w - 1);
      assert Fit(b, w)[1..] == Fit(b[1..], w - 1);
    } else if w > 0 {
      ParityFit(b, w - 1);
      assert Fit(b, w)[1..] == Fit(b, w - 1);
    }
  }

  lemma {:induction false} OfNatLow(n: nat, w: nat, u: nat)
    requires w <= u
    ensures OfNat(n, u)[..w] == OfNat(n, w)
    decreases w
  {
    if w > 0 {
      OfNatLow(n / 2, w - 1, u - 1);
      assert OfNat(n, u)[..w] == [n % 2 == 1] + OfNat(n / 2, u - 1)[..w - 1];
    }
  }

  /** A number that fits a width has only zeros above. */
  lemma {:induction false} OfNatFit(n: nat, w: nat, u: nat)
    requires w <= u && n < Pow2(w)
    ensures OfNat(n, u) == Fit(OfNat(n, w), u)
    decreases u
  {
    if u > 0 {
      if w == 0 {
        OfNatFit(0, 0, u - 1);
        assert Fit([], u) == [false] + Fit([], u - 1);
      } else {
        OfNatFit(n / 2, w - 1, u - 1);
        assert Fit(OfNat(n, w), u) == [n % 2 == 1] + Fit(OfNat(n / 2, w - 1), u - 1);
      }
    }
  }
}
