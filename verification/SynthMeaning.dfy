/** What the operators of the source language mean in numbers and bit by bit, apart from how they are computed. */
module SynthMeaning {
  import opened Counting
  import opened SynthBits
  import opened SynthLowering

  lemma NatModulo(x: int, p: nat, y: nat)
    requires y < p && (x == y || x == y + p || x == y - p)
    ensures x % p == y
  {
    if x == y {
      Remainder(0, y, p);
    } else if x == y + p {
      Remainder(1, y, p);
    } else {
      assert (x + p) % p == y by { Remainder(0, y, p); }
      OneTurn(x, p);
    }
  }

  lemma OneTurn(x: int, p: nat)
    requires p > 0
    ensures (x + p) % p == x % p
  {
    assert x == p * (x / p) + x % p && x + p == p * ((x + p) / p) + (x + p) % p;
    assert p * ((x + p) / p - x / p - 1) == x % p - (x + p) % p;
    NoMultipleBetween(p, (x + p) / p - x / p - 1);
  }

  lemma AddMeans(a: Bits, b: Bits)
    requires |a| == |b|
    ensures ToNat(Add(a, b, false)) == (ToNat(a) + ToNat(b)) % Pow2(|a|)
  {
    AddIsAddition(a, b, false);
    ToNatBound(Add(a, b, false));
    var carry: nat :| carry <= 1 && ToNat(a) + ToNat(b) == ToNat(Add(a, b, false)) + carry * Pow2(|a|);
    hide ToNat, Add, Pow2;
    NatModulo(ToNat(a) + ToNat(b), Pow2(|a|), ToNat(Add(a, b, false)));
  }

  lemma SubMeans(a: Bits, b: Bits)
    requires |a| == |b|
    ensures ToNat(Sub(a, b)) == (ToNat(a) - ToNat(b)) % Pow2(|a|)
  {
    SubIsSubtraction(a, b);
    ToNatBound(Sub(a, b));
    hide ToNat, Sub, Pow2;
    NatModulo(ToNat(a) - ToNat(b), Pow2(|a|), ToNat(Sub(a, b)));
  }

  lemma {:induction false} ZerosValue(w: nat)
    ensures ToNat(Zeros(w)) == 0
    decreases w
  {
    if w > 0 {
      ZerosValue(w - 1);
      assert Zeros(w)[1..] == Zeros(w - 1);
    }
  }

  /** Sums and differences, computed in the width of the context. */
  lemma SumOperators(e: Expr, w: nat, env: Signals, syms: Widths)
    requires Declared(e, syms) && Carries(env, syms) && w >= SelfWidth(e, syms) && e.Binary? && (e.bop.Plus? || e.bop.Minus?)
    ensures
      var a, b := Eval(e.left, w, env, syms), Eval(e.right, w, env, syms);
      && (e.bop.Plus? ==> ToNat(Eval(e, w, env, syms)) == (ToNat(a) + ToNat(b)) % Pow2(w))
      && (e.bop.Minus? ==> ToNat(Eval(e, w, env, syms)) == (ToNat(a) - ToNat(b)) % Pow2(w))
  {
    hide ToNat, Add, Sub, Pow2;
    if e.bop.Plus? {
      AddMeans(Eval(e.left, w, env, syms), Eval(e.right, w, env, syms));
    } else if e.bop.Minus? {
      SubMeans(Eval(e.left, w, env, syms), Eval(e.right, w, env, syms));
    }
  }

  /** The bitwise operators, position by position. */
  lemma BitOperators(e: Expr, w: nat, env: Signals, syms: Widths, i: nat)
    requires Declared(e, syms) && Carries(env, syms) && w >= SelfWidth(e, syms) && e.Binary? && (e.bop.Bits2? || e.bop.Xnor?) && i < w
    ensures
      var a, b := Eval(e.left, w, env, syms)[i], Eval(e.right, w, env, syms)[i];
      Eval(e, w, env, syms)[i] == match e.bop
        case Bits2(And) => a && b
        case Bits2(Or) => a || b
        case Bits2(Xor) => a != b
        case _ => a == b
  {
  }

  lemma ComplementOperators(e: Expr, w: nat, env: Signals, syms: Widths)
    requires Declared(e, syms) && Carries(env, syms) && w >= SelfWidth(e, syms) && e.Unary? && (e.uop.Invert? || e.uop.Negate?)
    ensures
      var a, r := Eval(e.operand, w, env, syms), Eval(e, w, env, syms);
      && (e.uop.Negate? ==> ToNat(r) == (0 - ToNat(a)) % Pow2(w))
      && (e.uop.Invert? ==> forall i :: 0 <= i < w ==> r[i] == !a[i])
  {
    hide ToNat, Sub, Pow2;
    if e.uop.Negate? {
      ZerosValue(w);
      SubMeans(Zeros(w), Eval(e.operand, w, env, syms));
    }
  }

  lemma {:induction false} AnyBitValue(b: Bits)
    ensures AnyBit(b) <==> ToNat(b) != 0
    decreases |b|
  {
    if b != [] {
      AnyBitValue(b[1..]);
      assert b == [b[0]] + b[1..];
    }
  }

  lemma AllBitsValue(b: Bits)
    ensures (false !in b) <==> ToNat(b) == Pow2(|b|) - 1
  {
    NotIsComplement(b);
    AnyBitValue(Not(b));
    if false in b {
      var i :| 0 <= i < |b| && !b[i];
      assert Not(b)[i];
    }
  }

  lemma {:induction false} ParityCounts(b: Bits)
    ensures Parity(b) <==> |Where(b)| % 2 == 1
    decreases |b|
  {
    TruesCounted(b);
    if b != [] {
      ParityCounts(b[1..]);
      TruesCounted(b[1..]);
      FirstTrue(b);
    } else {
      assert Trues(b) == 0;
    }
    hide Where;
  }

  /** The result is one bit, and zeros above it. */
  predicate Truth(r: Bits, value: bool) { |r| > 0 && r[0] == value && forall i :: 0 < i < |r| ==> !r[i] }

  lemma FitTruth(value: bool, w: nat)
    requires w > 0
    ensures Truth(Fit([value], w), value)
  {
  }

  lemma CompareMeans(op: BinaryOp, a: Bits, b: Bits)
    requires |a| == |b| && Compares(op)
    ensures CompareBits(op, a, b) == match op
      case Equal => ToNat(a) == ToNat(b)
      case NotEqual => ToNat(a) != ToNat(b)
      case Lt => ToNat(a) < ToNat(b)
      case Gt => ToNat(a) > ToNat(b)
      case Le => ToNat(a) <= ToNat(b)
      case _ => ToNat(a) >= ToNat(b)
  {
    SameNat(a, b);
    LessIsLess(a, b);
    LessIsLess(b, a);
  }

  /** Comparisons and logical operators give one bit; their operands are computed in widths of their own. */
  lemma TruthOperators(e: Expr, w: nat, env: Signals, syms: Widths)
    requires Declared(e, syms) && Carries(env, syms) && w >= SelfWidth(e, syms) && e.Binary? && SelfSized(e.bop)
    ensures
      var u, v := SelfWidth(e.left, syms), SelfWidth(e.right, syms);
      var x, y := ToNat(Eval(e.left, Max(u, v), env, syms)), ToNat(Eval(e.right, Max(u, v), env, syms));
      var p, q := ToNat(Eval(e.left, u, env, syms)) != 0, ToNat(Eval(e.right, v, env, syms)) != 0;
      Truth(Eval(e, w, env, syms), match e.bop
        case Equal => x == y
        case NotEqual => x != y
        case Lt => x < y
        case Gt => x > y
        case Le => x <= y
        case Ge => x >= y
        case LogicalAnd => p && q
        case _ => p || q)
  {
    var u, v := SelfWidth(e.left, syms), SelfWidth(e.right, syms);
    if Compares(e.bop) {
      var a, b := Eval(e.left, Max(u, v), env, syms), Eval(e.right, Max(u, v), env, syms);
      CompareMeans(e.bop, a, b);
      FitTruth(CompareBits(e.bop, a, b), w);
    } else {
      var a, b := Eval(e.left, u, env, syms), Eval(e.right, v, env, syms);
      AnyBitValue(a);
      AnyBitValue(b);
      FitTruth(if e.bop.LogicalAnd? then AnyBit(a) && AnyBit(b) else AnyBit(a) || AnyBit(b), w);
    }
  }

  /** The reductions: all bits, some bit, or an odd number of bits; each may be inverted. */
  lemma Reductions(e: Expr, w: nat, env: Signals, syms: Widths)
    requires Declared(e, syms) && Carries(env, syms) && w >= SelfWidth(e, syms) && e.Unary? && (e.uop.LogicalNot? || e.uop.Reduce?)
    ensures
      var u := SelfWidth(e.operand, syms);
      var a := Eval(e.operand, u, env, syms);
      Truth(Eval(e, w, env, syms), match e.uop
        case Reduce(RAnd, inverted) => (ToNat(a) == Pow2(u) - 1) != inverted
        case Reduce(ROr, inverted) => (ToNat(a) != 0) != inverted
        case Reduce(RXor, inverted) => (|Where(a)| % 2 == 1) != inverted
        case _ => ToNat(a) == 0)
  {
    var a := Eval(e.operand, SelfWidth(e.operand, syms), env, syms);
    AnyBitValue(a);
    AllBitsValue(a);
    ParityCounts(a);
    FitTruth(if e.uop.Reduce? then Reduced(e.uop.op, a) != e.uop.inverted else !AnyBit(a), w);
  }
}
