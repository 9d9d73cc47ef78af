/** The register-transfer synthesiser: expressions and what they mean under the width rules of
    SystemVerilog, their lowering to cells, and the agreement of the two. */
module SynthLowering {
  import opened Counting
  import opened SynthBits
  import opened Wrappers

  // ---------- expressions ----------

  datatype UnaryOp = Invert | Negate | LogicalNot | Reduce(op: Reducer, inverted: bool)

  datatype BinaryOp = Plus | Minus | Bits2(op: Bitwise) | Xnor | Equal | NotEqual
                    | Lt | Gt | Le | Ge | LogicalAnd | LogicalOr

  /** An expression after elaboration: bounds of part-selects are numbers. A literal without a width
      has `width` None. */
  datatype Expr =
    | Number(width: Option<nat>, value: nat)
    | Identifier(name: string)
    | PartSelect(name: string, hi: nat, lo: nat)
    | Unary(uop: UnaryOp, operand: Expr)
    | Binary(bop: BinaryOp, left: Expr, right: Expr)

  type Widths = map<string, nat>

  const UNSIZED: nat := 32

  predicate SelfSized(op: BinaryOp) { op.Equal? || op.NotEqual? || op.Lt? || op.Gt? || op.Le? || op.Ge? || op.LogicalAnd? || op.LogicalOr? }

  predicate Compares(op: BinaryOp) { op.Equal? || op.NotEqual? || op.Lt? || op.Gt? || op.Le? || op.Ge? }

  function Max(a: nat, b: nat): nat { if a >= b then a else b }

  predicate Declared(e: Expr, syms: Widths) {
    match e
    case Number(_, _) => true
    case Identifier(name) => name in syms
    case PartSelect(name, hi, lo) => name in syms && lo <= hi < syms[name]
    case Unary(_, x) => Declared(x, syms)
    case Binary(_, x, y) => Declared(x, syms) && Declared(y, syms)
  }

  // ---------- meaning: IEEE 1800, section 11.6 ----------

  /** The bit length of an expression by itself. */
  function SelfWidth(e: Expr, syms: Widths): nat
    requires Declared(e, syms)
  {
    match e
    case Number(w, _) => if w.Some? then w.value else UNSIZED
    case Identifier(name) => syms[name]
    case PartSelect(_, hi, lo) => hi - lo + 1
    case Unary(op, x) => if op.Invert? || op.Negate? then SelfWidth(x, syms) else 1
    case Binary(op, x, y) => if SelfSized(op) then 1 else Max(SelfWidth(x, syms), SelfWidth(y, syms))
  }

  type Signals = map<string, Bits>

  predicate Carries(env: Signals, syms: Widths) {
    forall name :: name in syms ==> name in env && |env[name]| == syms[name]
  }

  function CompareBits(op: BinaryOp, a: Bits, b: Bits): bool
    requires |a| == |b|
  {
    match op
    case Equal => a == b
    case NotEqual => a != b
    case Lt => Less(a, b)
    case Gt => Less(b, a)
    case Le => !Less(b, a)
    case Ge => !Less(a, b)
    case _ => false
  }

  /** The value of an expression in a context of `w` bits: operands take the width of the context,
      except that those of comparisons, reductions and logical operators make a context of their own. */
  function Eval(e: Expr, w: nat, env: Signals, syms: Widths): (v: Bits)
    requires Declared(e, syms) && Carries(env, syms) && w >= SelfWidth(e, syms)
    ensures |v| == w
    decreases e
  {
    match e
    case Number(width, value) => if width.Some? then Fit(OfNat(value, width.value), w) else OfNat(value, w)
    case Identifier(name) => Fit(env[name], w)
    case PartSelect(name, hi, lo) => Fit(env[name][lo..hi + 1], w)
    case Unary(op, x) => (
      var own := SelfWidth(x, syms);
      match op
      case Invert => Not(Eval(x, w, env, syms))
      case Negate => Sub(Zeros(w), Eval(x, w, env, syms))
      case LogicalNot => Fit([!AnyBit(Eval(x, own, env, syms))], w)
      case Reduce(r, inverted) => Fit([Reduced(r, Eval(x, own, env, syms)) != inverted], w)
    )
    case Binary(op, x, y) =>
      var a, b := SelfWidth(x, syms), SelfWidth(y, syms);
      var own := Max(a, b);
      match op
      case Plus => Add(Eval(x, w, env, syms), Eval(y, w, env, syms), false)
      case Minus => Sub(Eval(x, w, env, syms), Eval(y, w, env, syms))
      case Bits2(o) => Pointwise(o, Eval(x, w, env, syms), Eval(y, w, env, syms))
      case Xnor => Not(Pointwise(Xor, Eval(x, w, env, syms), Eval(y, w, env, syms)))
      case LogicalAnd => Fit([AnyBit(Eval(x, a, env, syms)) && AnyBit(Eval(y, b, env, syms))], w)
      case LogicalOr => Fit([AnyBit(Eval(x, a, env, syms)) || AnyBit(Eval(y, b, env, syms))], w)
      case _ => Fit([CompareBits(op, Eval(x, own, env, syms), Eval(y, own, env, syms))], w)
  }

  // ---------- the netlist ----------

  datatype Wire = Signal(name: string) | Temp(id: nat)

  datatype Entry =
    | Const(dst: Wire, width: nat, value: nat)
    | Slice(dst: Wire, src: Wire, hi: nat, lo: nat)
    | Reduction(rop: Reducer, dst: Wire, src: Wire)
    | Alias(dst: Wire, src: Wire)
    | Inv(width: nat, a: Wire, y: Wire)
    | Gate(op: Bitwise, width: nat, a: Wire, b: Wire, y: Wire)
    | AddCell(width: nat, a: Wire, b: Wire, y: Wire, cout: Wire)
    | SubCell(width: nat, a: Wire, b: Wire, y: Wire, bout: Wire)
    | EqCell(width: nat, a: Wire, b: Wire, y: Wire)
    | CmpCell(width: nat, a: Wire, b: Wire, lt: Wire, gt: Wire, lte: Wire, gte: Wire)
    | Mux(width: nat, sel: Wire, a: Wire, b: Wire, y: Wire)
    | Reg(width: nat, clk: string, d: Wire, q: Wire)

  type Valuation = Wire -> Bits

  /** The equation of a netlist entry; ports cut or extend what is connected to them. Carry and borrow
      outputs are driven but never read. A register constrains nothing within a cycle. */
  predicate Holds(v: Valuation, g: Entry) {
    match g
    case Const(dst, width, value) => v(dst) == OfNat(value, width)
    case Slice(dst, src, hi, lo) => lo <= hi < |v(src)| && v(dst) == v(src)[lo..hi + 1]
    case Reduction(op, dst, src) => v(dst) == [Reduced(op, v(src))]
    case Alias(dst, src) => v(dst) == Fit(v(src), |v(dst)|)
    case Inv(w, a, y) => v(y) == Not(Fit(v(a), w))
    case Gate(op, w, a, b, y) => v(y) == Pointwise(op, Fit(v(a), w), Fit(v(b), w))
    case AddCell(w, a, b, y, _) => v(y) == Add(Fit(v(a), w), Fit(v(b), w), false)
    case SubCell(w, a, b, y, _) => v(y) == Sub(Fit(v(a), w), Fit(v(b), w))
    case EqCell(w, a, b, y) => v(y) == [Fit(v(a), w) == Fit(v(b), w)]
    case CmpCell(w, a, b, lt, gt, lte, gte) =>
      var x, y := Fit(v(a), w), Fit(v(b), w);
      v(lt) == [Less(x, y)] && v(gt) == [Less(y, x)] && v(lte) == [!Less(y, x)] && v(gte) == [!Less(x, y)]
    case Mux(w, sel, a, b, y) => v(y) == if Fit(v(sel), 1)[0] then Fit(v(a), w) else Fit(v(b), w)
    case Reg(_, _, _, _) => true
  }

  predicate Satisfies(v: Valuation, gs: seq<Entry>) { forall i :: 0 <= i < |gs| ==> Holds(v, gs[i]) }

  // ---------- lowering ----------

  /** The tool's own width inference: 0 for an unsized literal. */
  function Infer(e: Expr, syms: Widths): nat
    requires Declared(e, syms)
  {
    match e
    case Number(w, _) => if w.Some? then w.value else 0
    case Identifier(name) => syms[name]
    case PartSelect(_, hi, lo) => hi - lo + 1
    case Unary(op, x) => if op.Invert? || op.Negate? then Infer(x, syms) else 1
    case Binary(op, x, y) => if SelfSized(op) then 1 else Max(Infer(x, syms), Infer(y, syms))
  }

  /** Entries emitted, the wire of the result, and the next number for a fresh wire. */
  datatype Lowered = Lowered(gs: seq<Entry>, w: Wire, n: nat)

  function Lower(e: Expr, ctx: Option<nat>, n: nat, syms: Widths): Lowered
    requires Declared(e, syms)
    decreases e
  {
    match e
    case Identifier(name) => Lowered([], Signal(name), n)
    case Number(width, value) =>
      var w := if width.Some? then width.value else if ctx.Some? then ctx.value else UNSIZED;
      Lowered([Const(Temp(n), w, value)], Temp(n), n + 1)
    case PartSelect(name, hi, lo) =>
      if hi == syms[name] - 1 && lo == 0 then Lowered([], Signal(name), n)
      else Lowered([Slice(Temp(n), Signal(name), hi, lo)], Temp(n), n + 1)
    case Unary(op, x) =>
      var r := Lower(x, ctx, n, syms);
      var out := LowerUnary(op, r.w, Infer(x, syms), r.n);
      Lowered(r.gs + out.gs, out.w, out.n)
    case Binary(op, x, y) =>
      var lw, rw := Infer(x, syms), Infer(y, syms);
      var w := Max(lw, rw);
      var l := Lower(x, Some(w), n, syms);
      var r := Lower(y, Some(w), l.n, syms);
      var out := LowerBinary(op, l.w, r.w, lw, rw, r.n);
      Lowered(l.gs + r.gs + out.gs, out.w, out.n)
  }

  /** The cells of a unary operator on wire `a` of width `w`. Instance names take numbers from the same
      counter as wires. */
  function LowerUnary(op: UnaryOp, a: Wire, w: nat, n: nat): Lowered {
    match op
    case Invert => Lowered([Inv(w, a, Temp(n))], Temp(n), n + 2)
    case Negate => Lowered([Const(Temp(n), w, 0), SubCell(w, Temp(n), a, Temp(n + 2), Temp(n + 1))], Temp(n + 2), n + 4)
    case LogicalNot =>
      if w == 1 then Lowered([Inv(1, a, Temp(n))], Temp(n), n + 2)
      else Lowered([Reduction(ROr, Temp(n), a), Inv(1, Temp(n), Temp(n + 2))], Temp(n + 2), n + 4)
    case Reduce(r, inverted) =>
      if inverted then Lowered([Reduction(r, Temp(n), a), Inv(1, Temp(n), Temp(n + 1))], Temp(n + 1), n + 3)
      else Lowered([Reduction(r, Temp(n), a)], Temp(n), n + 1)
  }

  /** A wire reduced to one bit, for the logical operators. */
  function OrReduce(a: Wire, w: nat, n: nat): Lowered {
    if w == 1 then Lowered([], a, n) else Lowered([Reduction(ROr, Temp(n), a)], Temp(n), n + 1)
  }

  function LowerBinary(op: BinaryOp, a: Wire, b: Wire, lw: nat, rw: nat, n: nat): Lowered {
    var w := Max(lw, rw);
    match op
    case Plus => Lowered([AddCell(w, a, b, Temp(n + 1), Temp(n))], Temp(n + 1), n + 3)
    case Minus => Lowered([SubCell(w, a, b, Temp(n + 1), Temp(n))], Temp(n + 1), n + 3)
    case Bits2(o) => Lowered([Gate(o, w, a, b, Temp(n))], Temp(n), n + 2)
    case Xnor => Lowered([Gate(Xor, w, a, b, Temp(n)), Inv(w, Temp(n), Temp(n + 2))], Temp(n + 2), n + 4)
    case Equal => Lowered([EqCell(w, a, b, Temp(n))], Temp(n), n + 2)
    case NotEqual => Lowered([EqCell(w, a, b, Temp(n)), Inv(1, Temp(n), Temp(n + 2))], Temp(n + 2), n + 4)
    case LogicalAnd =>
      var l := OrReduce(a, lw, n);
      var r := OrReduce(b, rw, l.n);
      Lowered(l.gs + r.gs + [Gate(And, 1, l.w, r.w, Temp(r.n))], Temp(r.n), r.n + 2)
    case LogicalOr =>
      var l := OrReduce(a, lw, n);
      var r := OrReduce(b, rw, l.n);
      Lowered(l.gs + r.gs + [Gate(Or, 1, l.w, r.w, Temp(r.n))], Temp(r.n), r.n + 2)
    case _ =>
      var out := Temp(n + if op.Lt? then 0 else if op.Gt? then 1 else if op.Le? then 2 else 3);
      Lowered([CmpCell(w, a, b, Temp(n), Temp(n + 1), Temp(n + 2), Temp(n + 3))], out, n + 5)
  }

  // ---------- agreement ----------

  predicate IsLiteral(e: Expr) { e.Number? && e.width.None? }

  /** The width of the wire that carries the result. */
  function ToolWidth(e: Expr, ctx: Option<nat>, syms: Widths): nat
    requires Declared(e, syms)
  {
    if IsLiteral(e) then (if ctx.Some? then ctx.value else UNSIZED) else Infer(e, syms)
  }

  /** A wider context only adds zeros to the value. */
  predicate Exact(e: Expr) {
    match e
    case Unary(op, _) => op.LogicalNot? || op.Reduce?
    case Binary(op, x, y) => SelfSized(op) || (op.Bits2? && Exact(x) && Exact(y))
    case _ => true
  }

  /** Where an operand makes a context of its own, the tool must give it that width, or it must not
      matter. */
  predicate OwnWidth(x: Expr, ctx: Option<nat>, syms: Widths)
    requires Declared(x, syms)
  {
    SelfWidth(x, syms) == ToolWidth(x, ctx, syms) || Exact(x)
  }

  predicate FillsWidth(x: Expr, w: nat, syms: Widths)
    requires Declared(x, syms)
  {
    ToolWidth(x, Some(w), syms) == w || Exact(x)
  }

  /** The expressions the tool gets right: literals fit, and no operand loses or gains bits that could
      show. */
  predicate WellWidthed(e: Expr, ctx: Option<nat>, syms: Widths)
    requires Declared(e, syms)
    decreases e
  {
    match e
    case Number(w, value) => w.Some? || value < Pow2(Min(ToolWidth(e, ctx, syms), UNSIZED))
    case Identifier(_) => true
    case PartSelect(_, _, _) => true
    case Unary(op, x) => (
      && WellWidthed(x, ctx, syms)
      && match op
         case Invert => !IsLiteral(x)
         case Negate => !IsLiteral(x)
         case LogicalNot => OwnWidth(x, ctx, syms)
         case Reduce(r, _) => if r.RAnd? then SelfWidth(x, syms) == ToolWidth(x, ctx, syms) else OwnWidth(x, ctx, syms)
    )
    case Binary(op, x, y) =>
      var w := Max(Infer(x, syms), Infer(y, syms));
      var own := Max(SelfWidth(x, syms), SelfWidth(y, syms));
      && WellWidthed(x, Some(w), syms) && WellWidthed(y, Some(w), syms)
      && if op.LogicalAnd? || op.LogicalOr? then OwnWidth(x, Some(w), syms) && OwnWidth(y, Some(w), syms)
         else
           && FillsWidth(x, w, syms) && FillsWidth(y, w, syms)
           && (SelfSized(op) && own != w ==> Exact(x) && Exact(y))
  }

  function Min(a: nat, b: nat): nat { if a <= b then a else b }

  /** The wire has the value's low bits in every context that is wide enough; and all of its value, if
      that is exact. */
  ghost predicate Agrees(e: Expr, ctx: Option<nat>, wire: Bits, env: Signals, syms: Widths)
    requires Declared(e, syms) && Carries(env, syms)
  {
    var w := ToolWidth(e, ctx, syms);
    && |wire| == w
    && (forall u: nat :: u >= SelfWidth(e, syms) && u >= w ==> Fit(Eval(e, u, env, syms), w) == wire)
    && (Exact(e) ==> forall u: nat :: u >= SelfWidth(e, syms) ==> Eval(e, u, env, syms) == Fit(wire, u))
  }

  ghost predicate Shows(v: Valuation, env: Signals) { forall name :: name in env ==> v(Signal(name)) == env[name] }

  lemma SatisfiesParts(v: Valuation, a: seq<Entry>, b: seq<Entry>)
    requires Satisfies(v, a + b)
    ensures Satisfies(v, a) && Satisfies(v, b)
  {
    forall i | 0 <= i < |a| ensures Holds(v, a[i]) { assert (a + b)[i] == a[i]; }
    forall i | 0 <= i < |b| ensures Holds(v, b[i]) { assert (a + b)[|a| + i] == b[i]; }
  }

  /** An operand at a port of width `w`: the low bits of its value. */
  lemma OperandBits(x: Expr, w: nat, u: nat, wire: Bits, env: Signals, syms: Widths)
    requires Declared(x, syms) && Carries(env, syms) && Agrees(x, Some(w), wire, env, syms) && FillsWidth(x, w, syms)
    requires u >= w && u >= SelfWidth(x, syms)
    ensures Fit(Eval(x, u, env, syms), w) == Fit(wire, w)
  {
    hide Eval;
    if Exact(x) {
      FitFit(wire, w, u);
    } else {
      FitFit(wire, w, w);
    }
  }

  /** An operand in its own context: its value and the wire are non-zero together. */
  lemma OperandTruth(x: Expr, ctx: Option<nat>, wire: Bits, env: Signals, syms: Widths)
    requires Declared(x, syms) && Carries(env, syms) && Agrees(x, ctx, wire, env, syms) && OwnWidth(x, ctx, syms)
    requires IsLiteral(x) ==> WellWidthed(x, ctx, syms)
    ensures AnyBit(Eval(x, SelfWidth(x, syms), env, syms)) == AnyBit(wire)
    ensures Parity(Eval(x, SelfWidth(x, syms), env, syms)) == Parity(wire)
  {
    var own, w := SelfWidth(x, syms), ToolWidth(x, ctx, syms);
    OwnIsWider(x, ctx, syms);
    if w > own { LiteralAtWidth(x, ctx, env, syms); }
    hide Eval, WellWidthed, Exact;
    if own == w {
      assert Fit(Eval(x, own, env, syms), w) == Eval(x, own, env, syms);
    } else if w < own {
      AnyBitFit(wire, own);
      ParityFit(wire, own);
    } else {
      assert Fit(Eval(x, w, env, syms), w) == Eval(x, w, env, syms);
      AnyBitFit(Eval(x, own, env, syms), w);
      ParityFit(Eval(x, own, env, syms), w);
    }
  }

  /** A literal that fits its own width is only extended by a wider context. */
  lemma LiteralAtWidth(x: Expr, ctx: Option<nat>, env: Signals, syms: Widths)
    requires IsLiteral(x) && Carries(env, syms) && WellWidthed(x, ctx, syms) && ToolWidth(x, ctx, syms) > SelfWidth(x, syms)
    ensures Eval(x, ToolWidth(x, ctx, syms), env, syms) == Fit(Eval(x, SelfWidth(x, syms), env, syms), ToolWidth(x, ctx, syms))
  {
    OfNatFit(x.value, UNSIZED, ToolWidth(x, ctx, syms));
  }

  lemma OwnIsWider(x: Expr, ctx: Option<nat>, syms: Widths)
    requires Declared(x, syms)
    ensures SelfWidth(x, syms) >= Infer(x, syms)
    ensures !IsLiteral(x) ==> SelfWidth(x, syms) >= ToolWidth(x, ctx, syms)
  {
  }

  // ---------- the cases ----------

  lemma NumberAgrees(e: Expr, ctx: Option<nat>, wire: Bits, env: Signals, syms: Widths)
    requires e.Number? && Carries(env, syms) && WellWidthed(e, ctx, syms)
    requires wire == OfNat(e.value, if e.width.Some? then e.width.value else if ctx.Some? then ctx.value else UNSIZED)
    ensures Agrees(e, ctx, wire, env, syms)
  {
    var w := ToolWidth(e, ctx, syms);
    if e.width.Some? {
      forall u: nat | u >= w ensures Fit(Eval(e, u, env, syms), w) == wire { FitFit(wire, w, u); }
    } else {
      forall u: nat | u >= w && u >= UNSIZED ensures Fit(Eval(e, u, env, syms), w) == wire {
        OfNatLow(e.value, w, u);
      }
      forall u: nat | u >= UNSIZED ensures Eval(e, u, env, syms) == Fit(wire, u) {
        if u >= w {
          Pow2Order(Min(w, UNSIZED), w);
          OfNatFit(e.value, w, u);
        } else {
          OfNatLow(e.value, u, w);
        }
      }
    }
  }

  lemma {:induction false} Pow2Order(a: nat, b: nat)
    requires a <= b
    ensures Pow2(a) <= Pow2(b)
    decreases b
  {
    if a < b { Pow2Order(a, b - 1); }
  }

  lemma SignalAgrees(e: Expr, ctx: Option<nat>, wire: Bits, env: Signals, syms: Widths)
    requires e.Identifier? || e.PartSelect?
    requires Declared(e, syms) && Carries(env, syms)
    requires wire == if e.Identifier? then env[e.name] else env[e.name][e.lo..e.hi + 1]
    ensures Agrees(e, ctx, wire, env, syms)
  {
    var w := ToolWidth(e, ctx, syms);
    forall u: nat | u >= w ensures Fit(Eval(e, u, env, syms), w) == wire { FitFit(wire, w, u); }
  }

  /** A one-bit result that does not depend on the context. */
  lemma BitAgrees(e: Expr, ctx: Option<nat>, bit: bool, env: Signals, syms: Widths)
    requires Declared(e, syms) && Carries(env, syms) && !IsLiteral(e) && Infer(e, syms) == SelfWidth(e, syms) == 1
    requires forall u: nat :: u >= 1 ==> Eval(e, u, env, syms) == Fit([bit], u)
    ensures Agrees(e, ctx, [bit], env, syms)
  {
    hide Eval;
    forall u: nat | u >= 1 ensures Fit(Eval(e, u, env, syms), 1) == [bit] { FitFit([bit], 1, u); }
  }

  /** What the cells of a unary operator compute. */
  function UnaryBits(op: UnaryOp, x: Bits, w: nat): Bits {
    match op
    case Invert => Not(Fit(x, w))
    case Negate => Sub(Zeros(w), Fit(x, w))
    case LogicalNot => if w == 1 then Not(Fit(x, 1)) else [!AnyBit(x)]
    case Reduce(r, inverted) => [Reduced(r, x) != inverted]
  }

  lemma LowerUnaryBits(op: UnaryOp, a: Wire, w: nat, n: nat, v: Valuation)
    requires Satisfies(v, LowerUnary(op, a, w, n).gs)
    ensures v(LowerUnary(op, a, w, n).w) == UnaryBits(op, v(a), w)
  {
    var gs := LowerUnary(op, a, w, n).gs;
    assert Holds(v, gs[0]) && (|gs| > 1 ==> Holds(v, gs[1]));
    OfNatZero(w);
  }

  lemma UnaryAgrees(e: Expr, ctx: Option<nat>, x: Bits, env: Signals, syms: Widths)
    requires e.Unary? && Declared(e, syms) && Carries(env, syms) && WellWidthed(e, ctx, syms)
    requires Agrees(e.operand, ctx, x, env, syms)
    ensures Agrees(e, ctx, UnaryBits(e.uop, x, Infer(e.operand, syms)), env, syms)
  {
    hide Agrees, WellWidthed, Eval;
    match e.uop
    case Invert => InvertAgrees(e, ctx, x, env, syms);
    case Negate => NegateAgrees(e, ctx, x, env, syms);
    case LogicalNot => LogicalNotAgrees(e, ctx, x, env, syms);
    case Reduce(r, inverted) => ReduceAgrees(e, ctx, x, env, syms);
  }

  lemma InvertAgrees(e: Expr, ctx: Option<nat>, x: Bits, env: Signals, syms: Widths)
    requires e.Unary? && e.uop.Invert? && Declared(e, syms) && Carries(env, syms) && WellWidthed(e, ctx, syms)
    requires Agrees(e.operand, ctx, x, env, syms)
    ensures Agrees(e, ctx, Not(Fit(x, Infer(e.operand, syms))), env, syms)
  {
    var w := ToolWidth(e, ctx, syms);
    forall u: nat | u >= SelfWidth(e, syms) && u >= w ensures Fit(Eval(e, u, env, syms), w) == Not(x) {
      assert Eval(e, u, env, syms) == Not(Eval(e.operand, u, env, syms));
      hide Eval;
      assert Fit(Eval(e.operand, u, env, syms), w) == x;
    }
    assert Fit(x, w) == x;
  }

  lemma NegateAgrees(e: Expr, ctx: Option<nat>, x: Bits, env: Signals, syms: Widths)
    requires e.Unary? && e.uop.Negate? && Declared(e, syms) && Carries(env, syms) && WellWidthed(e, ctx, syms)
    requires Agrees(e.operand, ctx, x, env, syms)
    ensures var w := Infer(e.operand, syms); Agrees(e, ctx, Sub(Zeros(w), Fit(x, w)), env, syms)
  {
    var w := ToolWidth(e, ctx, syms);
    forall u: nat | u >= SelfWidth(e, syms) && u >= w ensures Fit(Eval(e, u, env, syms), w) == Sub(Zeros(w), x) {
      var y := Eval(e.operand, u, env, syms);
      assert Eval(e, u, env, syms) == Sub(Zeros(u), y);
      hide Eval;
      assert y[..w] == Fit(y, w) == x;
      SubLow(Zeros(u), y, w);
      assert Zeros(u)[..w] == Zeros(w);
    }
    assert Fit(x, w) == x;
  }

  lemma LogicalNotAgrees(e: Expr, ctx: Option<nat>, x: Bits, env: Signals, syms: Widths)
    requires e.Unary? && e.uop.LogicalNot? && Declared(e, syms) && Carries(env, syms) && WellWidthed(e, ctx, syms)
    requires Agrees(e.operand, ctx, x, env, syms)
    ensures Agrees(e, ctx, [!AnyBit(x)], env, syms)
    ensures Infer(e.operand, syms) == 1 ==> [!AnyBit(x)] == Not(Fit(x, 1))
  {
    OperandTruth(e.operand, ctx, x, env, syms);
    BitAgrees(e, ctx, !AnyBit(x), env, syms);
    if Infer(e.operand, syms) == 1 { assert x == [x[0]]; }
  }

  lemma ReduceAgrees(e: Expr, ctx: Option<nat>, x: Bits, env: Signals, syms: Widths)
    requires e.Unary? && e.uop.Reduce? && Declared(e, syms) && Carries(env, syms) && WellWidthed(e, ctx, syms)
    requires Agrees(e.operand, ctx, x, env, syms)
    ensures Agrees(e, ctx, [Reduced(e.uop.op, x) != e.uop.inverted], env, syms)
  {
    var own := SelfWidth(e.operand, syms);
    if e.uop.op.RAnd? {
      assert Fit(Eval(e.operand, own, env, syms), own) == Eval(e.operand, own, env, syms);
    } else {
      OperandTruth(e.operand, ctx, x, env, syms);
    }
    BitAgrees(e, ctx, Reduced(e.uop.op, x) != e.uop.inverted, env, syms);
  }

  // ---------- binary operators ----------

  /** What the two operands contribute at width `u`. */
  lemma OperandsAt(e: Expr, ctx: Option<nat>, a: Bits, b: Bits, u: nat, env: Signals, syms: Widths)
    requires e.Binary? && !SelfSized(e.bop) && Declared(e, syms) && Carries(env, syms) && WellWidthed(e, ctx, syms)
    requires OperandsAgree(e, a, b, env, syms) && u >= SelfWidth(e, syms) && u >= Infer(e, syms)
    ensures u >= SelfWidth(e.left, syms) && u >= SelfWidth(e.right, syms)
    ensures var w := Infer(e, syms);
            Eval(e.left, u, env, syms)[..w] == Fit(a, w) && Eval(e.right, u, env, syms)[..w] == Fit(b, w)
  {
    var w := Infer(e, syms);
    assert FillsWidth(e.left, w, syms) && FillsWidth(e.right, w, syms);
    hide Agrees, WellWidthed, Eval;
    OperandBits(e.left, w, u, a, env, syms);
    OperandBits(e.right, w, u, b, env, syms);
  }

  /** A value whose low bits the wire carries; nothing is claimed about the bits above. */
  lemma LowBitsAgree(e: Expr, ctx: Option<nat>, wire: Bits, env: Signals, syms: Widths)
    requires Declared(e, syms) && Carries(env, syms) && !Exact(e) && !IsLiteral(e) && |wire| == Infer(e, syms)
    requires forall u: nat :: u >= SelfWidth(e, syms) && u >= |wire| ==> Eval(e, u, env, syms)[..|wire|] == wire
    ensures Agrees(e, ctx, wire, env, syms)
  {
    hide Eval;
  }

  /** Both operands lowered at the common width. */
  ghost predicate OperandsAgree(e: Expr, a: Bits, b: Bits, env: Signals, syms: Widths)
    requires e.Binary? && Declared(e, syms) && Carries(env, syms)
  {
    var w := Max(Infer(e.left, syms), Infer(e.right, syms));
    Agrees(e.left, Some(w), a, env, syms) && Agrees(e.right, Some(w), b, env, syms)
  }

  lemma ArithmeticAgrees(e: Expr, ctx: Option<nat>, a: Bits, b: Bits, env: Signals, syms: Widths)
    requires e.Binary? && (e.bop.Plus? || e.bop.Minus?) && Declared(e, syms) && Carries(env, syms) && WellWidthed(e, ctx, syms)
    requires OperandsAgree(e, a, b, env, syms)
    ensures var w := Infer(e, syms);
            Agrees(e, ctx, if e.bop.Plus? then Add(Fit(a, w), Fit(b, w), false) else Sub(Fit(a, w), Fit(b, w)), env, syms)
  {
    var w := Infer(e, syms);
    var r := if e.bop.Plus? then Add(Fit(a, w), Fit(b, w), false) else Sub(Fit(a, w), Fit(b, w));
    hide Agrees, WellWidthed, OperandsAgree;
    forall u: nat | u >= SelfWidth(e, syms) && u >= w ensures Eval(e, u, env, syms)[..w] == r {
      OperandsAt(e, ctx, a, b, u, env, syms);
      var x, y := Eval(e.left, u, env, syms), Eval(e.right, u, env, syms);
      assert Eval(e, u, env, syms) == if e.bop.Plus? then Add(x, y, false) else Sub(x, y);
      hide Eval;
      AddLow(x, y, false, w);
      SubLow(x, y, w);
    }
    LowBitsAgree(e, ctx, r, env, syms);
  }

  lemma BitwiseAgrees(e: Expr, ctx: Option<nat>, a: Bits, b: Bits, env: Signals, syms: Widths)
    requires e.Binary? && e.bop.Bits2? && Declared(e, syms) && Carries(env, syms) && WellWidthed(e, ctx, syms)
    requires OperandsAgree(e, a, b, env, syms)
    ensures var w := Infer(e, syms); Agrees(e, ctx, Pointwise(e.bop.op, Fit(a, w), Fit(b, w)), env, syms)
  {
    var w := Infer(e, syms);
    var r := Pointwise(e.bop.op, Fit(a, w), Fit(b, w));
    forall u: nat | u >= SelfWidth(e, syms) && u >= w ensures Fit(Eval(e, u, env, syms), w) == r {
      BitwiseLow(e, ctx, a, b, u, env, syms);
    }
    if Exact(e) {
      forall u: nat | u >= SelfWidth(e, syms) ensures Eval(e, u, env, syms) == Fit(r, u) {
        BitwiseExact(e, a, b, u, env, syms);
      }
    }
  }

  lemma BitwiseLow(e: Expr, ctx: Option<nat>, a: Bits, b: Bits, u: nat, env: Signals, syms: Widths)
    requires e.Binary? && e.bop.Bits2? && Declared(e, syms) && Carries(env, syms) && WellWidthed(e, ctx, syms)
    requires OperandsAgree(e, a, b, env, syms) && u >= SelfWidth(e, syms) && u >= Infer(e, syms)
    ensures var w := Infer(e, syms); Fit(Eval(e, u, env, syms), w) == Pointwise(e.bop.op, Fit(a, w), Fit(b, w))
  {
    hide Agrees, WellWidthed, OperandsAgree;
    var w := Infer(e, syms);
    OperandsAt(e, ctx, a, b, u, env, syms);
    var x, y := Eval(e.left, u, env, syms), Eval(e.right, u, env, syms);
    assert Eval(e, u, env, syms) == Pointwise(e.bop.op, x, y);
    hide Eval;
    PointwiseLow(e.bop.op, x, y, w);
  }

  lemma BitwiseExact(e: Expr, a: Bits, b: Bits, u: nat, env: Signals, syms: Widths)
    requires e.Binary? && e.bop.Bits2? && Declared(e, syms) && Carries(env, syms) && Exact(e)
    requires OperandsAgree(e, a, b, env, syms) && u >= SelfWidth(e, syms)
    ensures var w := Infer(e, syms); Eval(e, u, env, syms) == Fit(Pointwise(e.bop.op, Fit(a, w), Fit(b, w)), u)
  {
    var w := Infer(e, syms);
    assert Eval(e, u, env, syms) == Pointwise(e.bop.op, Fit(a, u), Fit(b, u));
    OwnIsWider(e, None, syms);
    OperandWidths(e, a, b, env, syms);
    hide Eval, Agrees, OperandsAgree;
    FitFit(a, u, w);
    FitFit(b, u, w);
    PointwiseFit(e.bop.op, Fit(a, w), Fit(b, w), u);
  }

  /** Neither operand wire is wider than the common width. */
  lemma OperandWidths(e: Expr, a: Bits, b: Bits, env: Signals, syms: Widths)
    requires e.Binary? && Declared(e, syms) && Carries(env, syms) && OperandsAgree(e, a, b, env, syms)
    ensures var w := Max(Infer(e.left, syms), Infer(e.right, syms)); |a| <= w && |b| <= w
  {
    hide Eval;
  }

  lemma XnorAgrees(e: Expr, ctx: Option<nat>, a: Bits, b: Bits, env: Signals, syms: Widths)
    requires e.Binary? && e.bop.Xnor? && Declared(e, syms) && Carries(env, syms) && WellWidthed(e, ctx, syms)
    requires OperandsAgree(e, a, b, env, syms)
    ensures var w := Infer(e, syms); Agrees(e, ctx, Not(Pointwise(Xor, Fit(a, w), Fit(b, w))), env, syms)
  {
    var w := Infer(e, syms);
    var r := Not(Pointwise(Xor, Fit(a, w), Fit(b, w)));
    hide Agrees, WellWidthed, OperandsAgree;
    forall u: nat | u >= SelfWidth(e, syms) && u >= w ensures Eval(e, u, env, syms)[..w] == r {
      OperandsAt(e, ctx, a, b, u, env, syms);
      var x, y := Eval(e.left, u, env, syms), Eval(e.right, u, env, syms);
      assert Eval(e, u, env, syms) == Not(Pointwise(Xor, x, y));
      hide Eval;
      PointwiseLow(Xor, x, y, w);
      assert Not(Pointwise(Xor, x, y))[..w] == Not(Pointwise(Xor, x, y)[..w]);
    }
    LowBitsAgree(e, ctx, r, env, syms);
  }

  /** At any width that covers both, a comparison of the operands' wires comes out the same. */
  lemma CompareWidths(op: BinaryOp, a: Bits, b: Bits, w: nat, u: nat)
    requires |a| <= w && |b| <= w <= u
    ensures CompareBits(op, Fit(a, u), Fit(b, u)) == CompareBits(op, Fit(a, w), Fit(b, w))
  {
    FitFit(a, u, w);
    FitFit(b, u, w);
    assert Fit(Fit(a, w), u) == Fit(a, u) && Fit(Fit(b, w), u) == Fit(b, u);
    LessFit(Fit(a, w), Fit(b, w), u);
    LessFit(Fit(b, w), Fit(a, w), u);
    EqualFit(Fit(a, w), Fit(b, w), u);
  }

  lemma CompareAgrees(e: Expr, ctx: Option<nat>, a: Bits, b: Bits, env: Signals, syms: Widths)
    requires e.Binary? && Compares(e.bop) && Declared(e, syms) && Carries(env, syms) && WellWidthed(e, ctx, syms)
    requires OperandsAgree(e, a, b, env, syms)
    ensures var w := Max(Infer(e.left, syms), Infer(e.right, syms));
            Agrees(e, ctx, [CompareBits(e.bop, Fit(a, w), Fit(b, w))], env, syms)
  {
    var w := Max(Infer(e.left, syms), Infer(e.right, syms));
    var own := Max(SelfWidth(e.left, syms), SelfWidth(e.right, syms));
    var x, y := Eval(e.left, own, env, syms), Eval(e.right, own, env, syms);
    var bit := CompareBits(e.bop, Fit(a, w), Fit(b, w));
    forall u: nat | u >= 1 ensures Eval(e, u, env, syms) == Fit([CompareBits(e.bop, x, y)], u) {}
    OperandWidths(e, a, b, env, syms);
    OwnIsWider(e.left, Some(w), syms);
    OwnIsWider(e.right, Some(w), syms);
    assert CompareBits(e.bop, x, y) == bit by {
      hide Eval, CompareBits;
      if own == w {
        OperandBits(e.left, w, w, a, env, syms);
        OperandBits(e.right, w, w, b, env, syms);
        assert x == Fit(x, w) && y == Fit(y, w);
      } else {
        assert x == Fit(a, own) && y == Fit(b, own);
        CompareWidths(e.bop, a, b, w, own);
      }
    }
    hide Eval, CompareBits;
    BitAgrees(e, ctx, bit, env, syms);
  }

  lemma LogicalAgrees(e: Expr, ctx: Option<nat>, a: Bits, b: Bits, env: Signals, syms: Widths)
    requires e.Binary? && (e.bop.LogicalAnd? || e.bop.LogicalOr?) && Declared(e, syms) && Carries(env, syms) && WellWidthed(e, ctx, syms)
    requires OperandsAgree(e, a, b, env, syms)
    ensures Agrees(e, ctx, [if e.bop.LogicalAnd? then AnyBit(a) && AnyBit(b) else AnyBit(a) || AnyBit(b)], env, syms)
    ensures Infer(e.left, syms) == 1 ==> |a| == 1
    ensures Infer(e.right, syms) == 1 ==> |b| == 1
  {
    var w := Max(Infer(e.left, syms), Infer(e.right, syms));
    OperandTruth(e.left, Some(w), a, env, syms);
    OperandTruth(e.right, Some(w), b, env, syms);
    var bit := if e.bop.LogicalAnd? then AnyBit(a) && AnyBit(b) else AnyBit(a) || AnyBit(b);
    assert Infer(e.left, syms) == 1 ==> |a| == 1;
    assert Infer(e.right, syms) == 1 ==> |b| == 1;
    hide Agrees, WellWidthed, AnyBit;
    forall u: nat | u >= 1 ensures Eval(e, u, env, syms) == Fit([bit], u) {}
    BitAgrees(e, ctx, bit, env, syms);
  }

  /** What the cells of a binary operator compute. */
  function BinaryBits(op: BinaryOp, a: Bits, b: Bits, w: nat): Bits {
    match op
    case Plus => Add(Fit(a, w), Fit(b, w), false)
    case Minus => Sub(Fit(a, w), Fit(b, w))
    case Bits2(o) => Pointwise(o, Fit(a, w), Fit(b, w))
    case Xnor => Not(Pointwise(Xor, Fit(a, w), Fit(b, w)))
    case LogicalAnd => [AnyBit(a) && AnyBit(b)]
    case LogicalOr => [AnyBit(a) || AnyBit(b)]
    case _ => [CompareBits(op, Fit(a, w), Fit(b, w))]
  }

  lemma OrReduceBits(a: Wire, w: nat, n: nat, v: Valuation)
    requires Satisfies(v, OrReduce(a, w, n).gs) && (w == 1 ==> |v(a)| == 1)
    ensures Fit(v(OrReduce(a, w, n).w), 1) == [AnyBit(v(a))]
  {
    var gs := OrReduce(a, w, n).gs;
    if w != 1 { assert Holds(v, gs[0]); }
  }

  lemma LogicalBits(op: BinaryOp, a: Wire, b: Wire, lw: nat, rw: nat, n: nat, v: Valuation)
    requires (op.LogicalAnd? || op.LogicalOr?) && Satisfies(v, LowerBinary(op, a, b, lw, rw, n).gs)
    requires (lw == 1 ==> |v(a)| == 1) && (rw == 1 ==> |v(b)| == 1)
    ensures v(LowerBinary(op, a, b, lw, rw, n).w) == BinaryBits(op, v(a), v(b), Max(lw, rw))
  {
    var l := OrReduce(a, lw, n);
    var r := OrReduce(b, rw, l.n);
    var g := Gate(if op.LogicalAnd? then And else Or, 1, l.w, r.w, Temp(r.n));
    assert LowerBinary(op, a, b, lw, rw, n).gs == l.gs + r.gs + [g];
    SatisfiesParts(v, l.gs + r.gs, [g]);
    SatisfiesParts(v, l.gs, r.gs);
    assert Holds(v, [g][0]);
    OrReduceBits(a, lw, n, v);
    OrReduceBits(b, rw, l.n, v);
  }

  lemma CellBits(op: BinaryOp, a: Wire, b: Wire, lw: nat, rw: nat, n: nat, v: Valuation)
    requires !op.LogicalAnd? && !op.LogicalOr? && Satisfies(v, LowerBinary(op, a, b, lw, rw, n).gs)
    ensures v(LowerBinary(op, a, b, lw, rw, n).w) == BinaryBits(op, v(a), v(b), Max(lw, rw))
  {
    var gs := LowerBinary(op, a, b, lw, rw, n).gs;
    assert Holds(v, gs[0]) && (|gs| > 1 ==> Holds(v, gs[1]));
    hide Satisfies, Add, Sub, Less, Pointwise;
    if op.Xnor? { assert Fit(v(Temp(n)), Max(lw, rw)) == v(Temp(n)); }
  }

  lemma BinaryAgrees(e: Expr, ctx: Option<nat>, a: Bits, b: Bits, env: Signals, syms: Widths)
    requires e.Binary? && Declared(e, syms) && Carries(env, syms) && WellWidthed(e, ctx, syms)
    requires OperandsAgree(e, a, b, env, syms)
    ensures Agrees(e, ctx, BinaryBits(e.bop, a, b, Max(Infer(e.left, syms), Infer(e.right, syms))), env, syms)
  {
    hide Agrees, OperandsAgree, WellWidthed, Eval, CompareBits;
    if e.bop.Plus? || e.bop.Minus? { ArithmeticAgrees(e, ctx, a, b, env, syms); }
    else if e.bop.Bits2? { BitwiseAgrees(e, ctx, a, b, env, syms); }
    else if e.bop.Xnor? { XnorAgrees(e, ctx, a, b, env, syms); }
    else if e.bop.LogicalAnd? || e.bop.LogicalOr? { LogicalAgrees(e, ctx, a, b, env, syms); }
    else { CompareAgrees(e, ctx, a, b, env, syms); }
  }

  /** Main result of lowering: in every valuation that satisfies the emitted entries, the result wire
      agrees with the value of the expression. */
  lemma {:induction false} LoweringIsCorrect(e: Expr, ctx: Option<nat>, n: nat, v: Valuation, env: Signals, syms: Widths)
    requires Declared(e, syms) && Carries(env, syms) && WellWidthed(e, ctx, syms)
    requires Shows(v, env) && Satisfies(v, Lower(e, ctx, n, syms).gs)
    ensures Agrees(e, ctx, v(Lower(e, ctx, n, syms).w), env, syms)
    decreases e
  {
    hide Agrees, Eval, Exact;
    match e
    case Number(_, _) =>
      assert Holds(v, Lower(e, ctx, n, syms).gs[0]);
      NumberAgrees(e, ctx, v(Temp(n)), env, syms);
    case Identifier(name) => SignalAgrees(e, ctx, v(Signal(name)), env, syms);
    case PartSelect(name, hi, lo) =>
      if hi == syms[name] - 1 && lo == 0 {
        assert env[name][lo..hi + 1] == env[name];
      } else {
        assert Holds(v, Lower(e, ctx, n, syms).gs[0]);
      }
      SignalAgrees(e, ctx, env[name][lo..hi + 1], env, syms);
    case Unary(op, x) =>
      var r := Lower(x, ctx, n, syms);
      SatisfiesParts(v, r.gs, LowerUnary(op, r.w, Infer(x, syms), r.n).gs);
      LoweringIsCorrect(x, ctx, n, v, env, syms);
      LowerUnaryBits(op, r.w, Infer(x, syms), r.n, v);
      UnaryAgrees(e, ctx, v(r.w), env, syms);
    case Binary(op, x, y) => BinaryLowering(e, ctx, n, v, env, syms);
  }

  lemma {:induction false} BinaryLowering(e: Expr, ctx: Option<nat>, n: nat, v: Valuation, env: Signals, syms: Widths)
    requires e.Binary? && Declared(e, syms) && Carries(env, syms) && WellWidthed(e, ctx, syms)
    requires Shows(v, env) && Satisfies(v, Lower(e, ctx, n, syms).gs)
    ensures Agrees(e, ctx, v(Lower(e, ctx, n, syms).w), env, syms)
    decreases e, 0
  {
    hide Agrees, Eval, Exact;
    var lw, rw := Infer(e.left, syms), Infer(e.right, syms);
    var w := Max(lw, rw);
    var l := Lower(e.left, Some(w), n, syms);
    var r := Lower(e.right, Some(w), l.n, syms);
    var out := LowerBinary(e.bop, l.w, r.w, lw, rw, r.n);
    assert Lower(e, ctx, n, syms).gs == l.gs + r.gs + out.gs;
    SatisfiesParts(v, l.gs + r.gs, out.gs);
    SatisfiesParts(v, l.gs, r.gs);
    LoweringIsCorrect(e.left, Some(w), n, v, env, syms);
    LoweringIsCorrect(e.right, Some(w), l.n, v, env, syms);
    assert OperandsAgree(e, v(l.w), v(r.w), env, syms);
    if e.bop.LogicalAnd? || e.bop.LogicalOr? {
      LogicalAgrees(e, ctx, v(l.w), v(r.w), env, syms);
      LogicalBits(e.bop, l.w, r.w, lw, rw, r.n, v);
    } else {
      CellBits(e.bop, l.w, r.w, lw, rw, r.n, v);
    }
    BinaryAgrees(e, ctx, v(l.w), v(r.w), env, syms);
  }
}
