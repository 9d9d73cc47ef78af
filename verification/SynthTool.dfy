/** The register-transfer synthesiser as the program it is: a netlist and a counter for fresh names that
    every lowering step extends. */
module SynthTool {
  import opened Counting
  import opened SynthBits
  import opened SynthLowering
  import opened SynthModule
  import opened SynthRuns
  import opened Wrappers

  class Synthesiser {
    const syms: Widths
    var netlist: seq<Entry>
    var counter: nat

    constructor (syms: Widths)
      ensures this.syms == syms && netlist == [] && counter == 0
    {
      this.syms := syms;
      netlist, counter := [], 0;
    }

    /** What has been emitted since a state, and the numbers used. */
    twostate predicate Appended(r: Lowered)
      reads this
    {
      netlist == old(netlist) + r.gs && counter == r.n
    }

    method Fresh() returns (w: Wire)
      modifies this
      ensures w == Temp(old(counter)) && counter == old(counter) + 1 && netlist == old(netlist)
    {
      w := Temp(counter);
      counter := counter + 1;
    }

    method Emit(g: Entry)
      modifies this
      ensures netlist == old(netlist) + [g] && counter == old(counter)
    {
      netlist := netlist + [g];
    }

    /** A cell instance; its name takes a number as well. */
    method EmitInst(g: Entry)
      modifies this
      ensures netlist == old(netlist) + [g] && counter == old(counter) + 1
    {
      var _ := Fresh();
      Emit(g);
    }

    method EmitUnary(op: UnaryOp, a: Wire, w: nat) returns (out: Wire)
      modifies this
      ensures Appended(LowerUnary(op, a, w, old(counter))) && out == LowerUnary(op, a, w, old(counter)).w
    {
      match op
      case Invert =>
        out := Fresh();
        EmitInst(Inv(w, a, out));
      case Negate =>
        var zero := Fresh();
        Emit(Const(zero, w, 0));
        var bout := Fresh();
        out := Fresh();
        EmitInst(SubCell(w, zero, a, out, bout));
      case LogicalNot =>
        if w == 1 {
          out := Fresh();
          EmitInst(Inv(1, a, out));
        } else {
          var red := Fresh();
          var _ := Fresh();
          Emit(Reduction(ROr, red, a));
          out := Fresh();
          EmitInst(Inv(1, red, out));
        }
      case Reduce(r, inverted) =>
        var red := Fresh();
        Emit(Reduction(r, red, a));
        out := red;
        if inverted {
          out := Fresh();
          EmitInst(Inv(1, red, out));
        }
    }

    method EmitOrReduce(a: Wire, w: nat) returns (out: Wire)
      modifies this
      ensures Appended(OrReduce(a, w, old(counter))) && out == OrReduce(a, w, old(counter)).w
    {
      if w == 1 { return a; }
      out := Fresh();
      Emit(Reduction(ROr, out, a));
    }

    method EmitBinary(op: BinaryOp, a: Wire, b: Wire, lw: nat, rw: nat) returns (out: Wire)
      modifies this
      ensures Appended(LowerBinary(op, a, b, lw, rw, old(counter))) && out == LowerBinary(op, a, b, lw, rw, old(counter)).w
    {
      var w := Max(lw, rw);
      match op
      case Plus =>
        var cout := Fresh();
        out := Fresh();
        EmitInst(AddCell(w, a, b, out, cout));
      case Minus =>
        var bout := Fresh();
        out := Fresh();
        EmitInst(SubCell(w, a, b, out, bout));
      case Bits2(o) =>
        out := Fresh();
        EmitInst(Gate(o, w, a, b, out));
      case Xnor =>
        var xout := Fresh();
        EmitInst(Gate(Xor, w, a, b, xout));
        out := Fresh();
        EmitInst(Inv(w, xout, out));
      case Equal =>
        out := Fresh();
        EmitInst(EqCell(w, a, b, out));
      case NotEqual =>
        var eq := Fresh();
        EmitInst(EqCell(w, a, b, eq));
        out := Fresh();
        EmitInst(Inv(1, eq, out));
      case LogicalAnd => out := EmitLogical(op, a, b, lw, rw);
      case LogicalOr => out := EmitLogical(op, a, b, lw, rw);
      case _ =>
        var lt := Fresh();
        var gt := Fresh();
        var lte := Fresh();
        var gte := Fresh();
        EmitInst(CmpCell(w, a, b, lt, gt, lte, gte));
        out := if op.Lt? then lt else if op.Gt? then gt else if op.Le? then lte else gte;
    }

    method EmitLogical(op: BinaryOp, a: Wire, b: Wire, lw: nat, rw: nat) returns (out: Wire)
      requires op.LogicalAnd? || op.LogicalOr?
      modifies this
      ensures Appended(LowerBinary(op, a, b, lw, rw, old(counter))) && out == LowerBinary(op, a, b, lw, rw, old(counter)).w
    {
      var la := EmitOrReduce(a, lw);
      var ra := EmitOrReduce(b, rw);
      out := Fresh();
      EmitInst(Gate(if op.LogicalAnd? then And else Or, 1, la, ra, out));
    }

    /** Lowers an expression and returns the wire of its result. */
    method LowerExpr(e: Expr, ctx: Option<nat>) returns (out: Wire)
      requires Declared(e, syms)
      modifies this
      ensures Appended(Lower(e, ctx, old(counter), syms)) && out == Lower(e, ctx, old(counter), syms).w
      decreases e
    {
      hide LowerUnary, LowerBinary;
      match e
      case Identifier(name) => out := Signal(name);
      case Number(width, value) =>
        var w := if width.None? && ctx.Some? then ctx.value else if width.Some? then width.value else UNSIZED;
        out := Fresh();
        Emit(Const(out, w, value));
      case PartSelect(name, hi, lo) =>
        if hi == syms[name] - 1 && lo == 0 {
          out := Signal(name);
        } else {
          out := Fresh();
          Emit(Slice(out, Signal(name), hi, lo));
        }
      case Unary(op, x) =>
        var a := LowerExpr(x, ctx);
        out := EmitUnary(op, a, Infer(x, syms));
      case Binary(op, x, y) =>
        var lw, rw := Infer(x, syms), Infer(y, syms);
        var a := LowerExpr(x, Some(Max(lw, rw)));
        var b := LowerExpr(y, Some(Max(lw, rw)));
        out := EmitBinary(op, a, b, lw, rw);
    }

    /** One mux around what has been built so far. */
    method EmitArm(arm: MuxArm, w: nat, cur: Wire) returns (out: Wire)
      requires Declared(arm.cond, syms) && Declared(arm.rhs, syms)
      modifies this
      ensures var c := Lower(arm.cond, Some(1), old(counter), syms);
              var r := Lower(arm.rhs, Some(w), c.n, syms);
              netlist == old(netlist) + c.gs + r.gs + [Mux(w, c.w, r.w, cur, Temp(r.n))] && out == Temp(r.n) && counter == r.n + 2
    {
      hide Lower;
      var cond := LowerExpr(arm.cond, Some(1));
      var rhs := LowerExpr(arm.rhs, Some(w));
      out := Fresh();
      EmitInst(Mux(w, cond, rhs, cur, out));
    }

    /** The muxes and the register of one block. */
    method LowerFFChain(mc: MuxChain)
      requires ChainDeclared(mc, syms)
      modifies this
      ensures Appended(LowerChain(mc, old(counter), syms))
    {
      hide Lower;
      var w := syms[mc.target];
      var cur := LowerExpr(mc.default, Some(w));
      ghost var d := Lower(mc.default, Some(w), old(counter), syms);
      var i := |mc.arms|;
      while i > 0
        invariant 0 <= i <= |mc.arms|
        invariant var m := LowerArms(mc.arms[i..], w, d.w, d.n, syms);
                  netlist == old(netlist) + d.gs + m.gs && counter == m.n && cur == m.w
      {
        i := i - 1;
        assert mc.arms[i..][0] == mc.arms[i] && mc.arms[i..][1..] == mc.arms[i + 1..];
        cur := EmitArm(mc.arms[i], w, cur);
      }
      assert mc.arms[0..] == mc.arms;
      EmitInst(Reg(w, mc.clk, cur, Signal(mc.target)));
    }

    method LowerContinuous(a: Assign)
      requires AssignDeclared(a, syms)
      modifies this
      ensures Appended(LowerAssign(a, old(counter), syms))
    {
      var out := LowerExpr(a.rhs, None);
      if out != Signal(a.lhs) { Emit(Alias(Signal(a.lhs), out)); }
    }

    /** The whole translation: a block that does not assign exactly one signal is an error, found before
        any block is lowered. */
    method Translate(m: Module) returns (targets: Option<seq<string>>)
      requires netlist == [] && counter == 0
      requires forall i :: 0 <= i < |m.assigns| ==> AssignDeclared(m.assigns[i], syms)
      requires forall i :: 0 <= i < |m.ffs| ==> FFDeclared(m.ffs[i], syms)
      modifies this
      ensures targets.None? <==> exists i :: 0 <= i < |m.ffs| && |Targets(m.ffs[i])| != 1
      ensures targets.Some? ==> BlocksDeclared(m.ffs, targets.value, syms)
                                && (forall i :: 0 <= i < |m.ffs| ==> ChainDeclared(Chains(m.ffs, targets.value)[i], syms))
                                && netlist == Netlist(m.assigns, Chains(m.ffs, targets.value), syms)
      ensures targets.Some? ==> |Registers(netlist)| == |targets.value| == |m.ffs|
      ensures
        targets.Some? ==>
          forall i :: 0 <= i < |m.ffs| ==>
            var r := Registers(netlist)[i];
            && r.Reg? && r.clk == m.ffs[i].clk && r.q == Signal(targets.value[i])
            && targets.value[i] in syms && r.width == syms[targets.value[i]]
    {
      hide FFDeclared, AssignDeclared, ChainDeclared, LowerAssign, LowerChain, Targets, Flatten, Registers;
      for i := 0 to |m.assigns|
        invariant Emitted(netlist, counter) == LowerAssigns(m.assigns[..i], syms)
      {
        assert m.assigns[..i + 1][..i] == m.assigns[..i];
        assert AssignDeclared(m.assigns[i], syms);
        LowerContinuous(m.assigns[i]);
      }
      assert m.assigns[..|m.assigns|] == m.assigns;
      var ts := FindTargets(m.ffs, syms);
      if ts.None? { return None; }
      BlocksAreChains(m.ffs, ts.value, syms);
      LowerBlocks(m.ffs, ts.value, m.assigns);
      RegistersOfModule(m, ts.value, syms);
      return ts;
    }

    method LowerBlocks(ffs: seq<AlwaysFF>, targets: seq<string>, ghost assigns: seq<Assign>)
      requires |ffs| == |targets| && forall i :: 0 <= i < |ffs| ==> ChainDeclared(Chains(ffs, targets)[i], syms)
      requires forall i :: 0 <= i < |assigns| ==> AssignDeclared(assigns[i], syms)
      requires Emitted(netlist, counter) == LowerAssigns(assigns, syms)
      modifies this
      ensures netlist == Netlist(assigns, Chains(ffs, targets), syms)
    {
      hide ChainDeclared, LowerChain, LowerAssigns, Flatten;
      ghost var mcs, first := Chains(ffs, targets), LowerAssigns(assigns, syms);
      assert mcs[..0] == [];
      for i := 0 to |ffs|
        invariant Emitted(netlist, counter) == LowerChains(mcs[..i], first, syms)
      {
        assert mcs[..i + 1][..i] == mcs[..i];
        var mc := FlattenBlock(ffs[i], targets[i]);
        assert mc == mcs[i];
        LowerFFChain(mc);
      }
      assert mcs[..|ffs|] == mcs;
    }
  }

  /** The arms of a block with the right-hand side each gives to the register. */
  method FlattenBlock(ff: AlwaysFF, target: string) returns (mc: MuxChain)
    ensures mc == Flatten(ff, target) && mc.clk == ff.clk && mc.target == target
  {
    var arms: seq<MuxArm> := [];
    for i := 0 to |ff.arms|
      invariant |arms| == i && forall k :: 0 <= k < i ==> arms[k] == MuxArm(ff.arms[k].cond, RhsFor(ff.arms[k].stmts, target))
    {
      var rhs := FindRhs(ff.arms[i].stmts, target);
      arms := arms + [MuxArm(ff.arms[i].cond, rhs)];
    }
    var rhs := FindRhs(ff.otherwise, target);
    mc := MuxChain(target, ff.clk, arms, rhs);
    assert arms == Flatten(ff, target).arms;
  }

  /** The signals a list assigns, added to those seen. */
  method CollectFrom(stmts: seq<NBAssign>, seen: set<string>) returns (ts: set<string>)
    ensures ts == seen + set j | 0 <= j < |stmts| :: stmts[j].lhs
  {
    ts := seen;
    for i := 0 to |stmts|
      invariant ts == seen + set j | 0 <= j < i :: stmts[j].lhs
    {
      ts := ts + {stmts[i].lhs};
    }
  }

  method CollectTargets(ff: AlwaysFF) returns (ts: set<string>)
    ensures ts == Targets(ff)
  {
    ts := {};
    for i := 0 to |ff.arms|
      invariant ts == set k, j | 0 <= k < i && 0 <= j < |ff.arms[k].stmts| :: ff.arms[k].stmts[j].lhs
    {
      ts := CollectFrom(ff.arms[i].stmts, ts);
    }
    ts := CollectFrom(ff.otherwise, ts);
  }

  method FindTargets(ffs: seq<AlwaysFF>, ghost syms: Widths) returns (targets: Option<seq<string>>)
    ensures targets.None? <==> exists i :: 0 <= i < |ffs| && |Targets(ffs[i])| != 1
    ensures targets.Some? ==> |targets.value| == |ffs| && forall i :: 0 <= i < |ffs| ==> Targets(ffs[i]) == {targets.value[i]}
  {
    hide Targets;
    var found: seq<string> := [];
    for i := 0 to |ffs|
      invariant |found| == i && forall k :: 0 <= k < i ==> Targets(ffs[k]) == {found[k]}
    {
      var ts := CollectTargets(ffs[i]);
      if |ts| != 1 { return None; }
      var t := TheOnly(ts);
      found := found + [t];
    }
    assert forall i :: 0 <= i < |ffs| ==> |Targets(ffs[i])| == 1;
    return Some(found);
  }

  method TheOnly(ts: set<string>) returns (t: string)
    requires |ts| == 1
    ensures ts == {t}
  {
    assert ts != {};
    t :| t in ts;
    assert |ts - {t}| == 0;
  }

  lemma BlocksAreChains(ffs: seq<AlwaysFF>, targets: seq<string>, syms: Widths)
    requires |ffs| == |targets| && forall i :: 0 <= i < |ffs| ==> FFDeclared(ffs[i], syms) && Targets(ffs[i]) == {targets[i]}
    ensures BlocksDeclared(ffs, targets, syms)
    ensures forall i :: 0 <= i < |ffs| ==> ChainDeclared(Chains(ffs, targets)[i], syms)
  {
    forall i | 0 <= i < |ffs| ensures targets[i] in syms && ChainDeclared(Chains(ffs, targets)[i], syms) {
      BlockIsDeclaredChain(ffs[i], targets[i], syms);
    }
  }

  lemma BlockIsDeclaredChain(ff: AlwaysFF, target: string, syms: Widths)
    requires FFDeclared(ff, syms) && target in Targets(ff)
    ensures target in syms && ChainDeclared(Flatten(ff, target), syms)
  {
    forall i | 0 <= i < |ff.arms| ensures Declared(RhsFor(ff.arms[i].stmts, target), syms) { RhsDeclared(ff.arms[i].stmts, target, syms); }
    RhsDeclared(ff.otherwise, target, syms);
  }

  lemma {:induction false} RhsDeclared(stmts: seq<NBAssign>, target: string, syms: Widths)
    requires StmtsDeclared(stmts, syms) && target in syms
    ensures Declared(RhsFor(stmts, target), syms)
    decreases |stmts|
  {
    if stmts != [] && stmts[|stmts| - 1].lhs != target { RhsDeclared(stmts[..|stmts| - 1], target, syms); }
  }
}
