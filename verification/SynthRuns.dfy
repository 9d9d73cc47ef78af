/** Registers and runs: the mux chains the register-transfer synthesiser builds, and the whole netlist
    over any number of clock cycles. */
module SynthRuns {
  import opened Counting
  import opened SynthBits
  import opened SynthLowering
  import opened SynthModule
  import opened Wrappers

  // ---------- what the tool emits for a module ----------

  /** The muxes of a chain, from the last arm inwards to the first arm outermost. */
  function LowerArms(arms: seq<MuxArm>, w: nat, cur: Wire, n: nat, syms: Widths): Lowered
    requires forall i :: 0 <= i < |arms| ==> Declared(arms[i].cond, syms) && Declared(arms[i].rhs, syms)
    decreases |arms|
  {
    if arms == [] then Lowered([], cur, n)
    else
      var inner := LowerArms(arms[1..], w, cur, n, syms);
      var c := Lower(arms[0].cond, Some(1), inner.n, syms);
      var r := Lower(arms[0].rhs, Some(w), c.n, syms);
      Lowered(inner.gs + c.gs + r.gs + [Mux(w, c.w, r.w, inner.w, Temp(r.n))], Temp(r.n), r.n + 2)
  }

  predicate ChainDeclared(mc: MuxChain, syms: Widths) {
    && mc.target in syms && Declared(mc.default, syms)
    && forall i :: 0 <= i < |mc.arms| ==> Declared(mc.arms[i].cond, syms) && Declared(mc.arms[i].rhs, syms)
  }

  /** The muxes and the register; the wire is the register's data input. */
  function LowerChain(mc: MuxChain, n: nat, syms: Widths): Lowered
    requires ChainDeclared(mc, syms)
  {
    var w := syms[mc.target];
    var d := Lower(mc.default, Some(w), n, syms);
    var m := LowerArms(mc.arms, w, d.w, d.n, syms);
    Lowered(d.gs + m.gs + [Reg(w, mc.clk, m.w, Signal(mc.target))], m.w, m.n + 1)
  }

  function LowerAssign(a: Assign, n: nat, syms: Widths): Lowered
    requires Declared(a.rhs, syms)
  {
    var r := Lower(a.rhs, None, n, syms);
    if r.w == Signal(a.lhs) then r else Lowered(r.gs + [Alias(Signal(a.lhs), r.w)], r.w, r.n)
  }

  // ---------- what the tool gets right ----------

  predicate FillsTarget(rhs: Expr, ctx: Option<nat>, w: nat, syms: Widths)
    requires Declared(rhs, syms)
  {
    WellWidthed(rhs, ctx, syms) && (w <= ToolWidth(rhs, ctx, syms) || Exact(rhs))
  }

  predicate OneBit(cond: Expr, syms: Widths)
    requires Declared(cond, syms)
  {
    WellWidthed(cond, Some(1), syms) && ToolWidth(cond, Some(1), syms) == 1 && OwnWidth(cond, Some(1), syms)
  }

  predicate ChainOk(mc: MuxChain, syms: Widths)
    requires ChainDeclared(mc, syms)
  {
    && FillsTarget(mc.default, Some(syms[mc.target]), syms[mc.target], syms)
    && forall i :: 0 <= i < |mc.arms| ==>
         OneBit(mc.arms[i].cond, syms) && FillsTarget(mc.arms[i].rhs, Some(syms[mc.target]), syms[mc.target], syms)
  }

  // ---------- one register ----------

  lemma WireStored(rhs: Expr, ctx: Option<nat>, w: nat, wire: Bits, env: Signals, syms: Widths)
    requires Declared(rhs, syms) && Carries(env, syms) && Agrees(rhs, ctx, wire, env, syms)
    requires w <= ToolWidth(rhs, ctx, syms) || Exact(rhs)
    ensures Fit(wire, w) == Stored(rhs, w, env, syms)
  {
    var u := Max(w, SelfWidth(rhs, syms));
    if Exact(rhs) {
      assert Eval(rhs, u, env, syms) == Fit(wire, u);
      hide Eval;
      FitFit(wire, w, u);
    } else {
      StoredLow(rhs, ctx, w, wire, env, syms);
    }
  }

  lemma StoredLow(rhs: Expr, ctx: Option<nat>, w: nat, wire: Bits, env: Signals, syms: Widths)
    requires Declared(rhs, syms) && Carries(env, syms) && Agrees(rhs, ctx, wire, env, syms)
    requires w <= ToolWidth(rhs, ctx, syms) && !Exact(rhs)
    ensures Fit(wire, w) == Stored(rhs, w, env, syms)
  {
    var u := Max(w, SelfWidth(rhs, syms));
    OwnIsWider(rhs, ctx, syms);
    assert Fit(Eval(rhs, u, env, syms), ToolWidth(rhs, ctx, syms)) == wire;
    hide Eval;
    FitFit(Eval(rhs, u, env, syms), w, ToolWidth(rhs, ctx, syms));
  }

  lemma WireTrue(cond: Expr, wire: Bits, env: Signals, syms: Widths)
    requires Declared(cond, syms) && Carries(env, syms) && Agrees(cond, Some(1), wire, env, syms) && OneBit(cond, syms)
    ensures Fit(wire, 1)[0] <==> IsTrue(cond, env, syms)
  {
    OperandTruth(cond, Some(1), wire, env, syms);
    assert |wire| == 1;
    hide Eval;
    assert wire == [wire[0]];
  }

  /** What a mux chain selects: the right-hand side of the first arm whose condition holds. */
  function Selected(arms: seq<MuxArm>, default: Bits, w: nat, env: Signals, syms: Widths): Bits
    requires (forall i :: 0 <= i < |arms| ==> Declared(arms[i].cond, syms) && Declared(arms[i].rhs, syms)) && Carries(env, syms)
    decreases |arms|
  {
    if arms == [] then default
    else if IsTrue(arms[0].cond, env, syms) then Stored(arms[0].rhs, w, env, syms)
    else Selected(arms[1..], default, w, env, syms)
  }

  lemma {:induction false} ArmsSelect(arms: seq<MuxArm>, w: nat, cur: Wire, n: nat, v: Valuation, env: Signals, syms: Widths)
    requires forall i :: 0 <= i < |arms| ==> Declared(arms[i].cond, syms) && Declared(arms[i].rhs, syms)
    requires forall i :: 0 <= i < |arms| ==> OneBit(arms[i].cond, syms) && FillsTarget(arms[i].rhs, Some(w), w, syms)
    requires Carries(env, syms) && Shows(v, env) && Satisfies(v, LowerArms(arms, w, cur, n, syms).gs)
    ensures Fit(v(LowerArms(arms, w, cur, n, syms).w), w) == Selected(arms, Fit(v(cur), w), w, env, syms)
    decreases |arms|
  {
    hide Agrees, IsTrue, Stored, WellWidthed, Exact, Lower;
    if arms != [] {
      var inner := LowerArms(arms[1..], w, cur, n, syms);
      var c := Lower(arms[0].cond, Some(1), inner.n, syms);
      var r := Lower(arms[0].rhs, Some(w), c.n, syms);
      var mux := Mux(w, c.w, r.w, inner.w, Temp(r.n));
      SatisfiesParts(v, inner.gs + c.gs + r.gs, [mux]);
      SatisfiesParts(v, inner.gs + c.gs, r.gs);
      SatisfiesParts(v, inner.gs, c.gs);
      assert Holds(v, [mux][0]);
      ArmsSelect(arms[1..], w, cur, n, v, env, syms);
      LoweringIsCorrect(arms[0].cond, Some(1), inner.n, v, env, syms);
      LoweringIsCorrect(arms[0].rhs, Some(w), c.n, v, env, syms);
      WireTrue(arms[0].cond, v(c.w), env, syms);
      WireStored(arms[0].rhs, Some(w), w, v(r.w), env, syms);
      FitFit(v(r.w), w, w);
      FitFit(v(inner.w), w, w);
    }
  }

  /** The register's data input is what the chain selects. */
  lemma ChainIsCorrect(mc: MuxChain, n: nat, v: Valuation, env: Signals, syms: Widths)
    requires ChainDeclared(mc, syms) && ChainOk(mc, syms)
    requires Carries(env, syms) && Shows(v, env) && Satisfies(v, LowerChain(mc, n, syms).gs)
    ensures var w := syms[mc.target];
            Fit(v(LowerChain(mc, n, syms).w), w) == Selected(mc.arms, Stored(mc.default, w, env, syms), w, env, syms)
  {
    hide Agrees, IsTrue, Stored, WellWidthed, Exact, Lower, LowerArms;
    var w := syms[mc.target];
    var d := Lower(mc.default, Some(w), n, syms);
    var m := LowerArms(mc.arms, w, d.w, d.n, syms);
    SatisfiesParts(v, d.gs + m.gs, [Reg(w, mc.clk, m.w, Signal(mc.target))]);
    SatisfiesParts(v, d.gs, m.gs);
    LoweringIsCorrect(mc.default, Some(w), n, v, env, syms);
    WireStored(mc.default, Some(w), w, v(d.w), env, syms);
    ArmsSelect(mc.arms, w, d.w, d.n, v, env, syms);
  }

  /** Flattening keeps the meaning of a block. */
  lemma {:induction false} FlattenKeeps(arms: seq<Arm>, otherwise: seq<NBAssign>, clk: string, target: string, env: Signals, syms: Widths)
    requires FFDeclared(AlwaysFF(clk, arms, otherwise), syms) && Carries(env, syms) && target in syms
    ensures ChainDeclared(Flatten(AlwaysFF(clk, arms, otherwise), target), syms)
    ensures var mc := Flatten(AlwaysFF(clk, arms, otherwise), target);
            Selected(mc.arms, Stored(mc.default, syms[target], env, syms), syms[target], env, syms)
            == NextValue(arms, otherwise, target, env, syms)
    decreases |arms|
  {
    hide IsTrue, Stored, AfterStmts, RhsFor;
    var ff := AlwaysFF(clk, arms, otherwise);
    var mc := Flatten(ff, target);
    RhsMeans(otherwise, target, env, syms);
    forall i | 0 <= i < |arms| ensures Declared(mc.arms[i].cond, syms) && Declared(mc.arms[i].rhs, syms) {
      assert ff.arms[i] == arms[i];
      RhsMeans(arms[i].stmts, target, env, syms);
    }
    if arms != [] {
      var rest := AlwaysFF(clk, arms[1..], otherwise);
      FlattenKeeps(arms[1..], otherwise, clk, target, env, syms);
      assert Flatten(rest, target).arms == mc.arms[1..];
      RhsMeans(arms[0].stmts, target, env, syms);
    }
  }

  // ---------- the module's netlist ----------

  datatype Emitted = Emitted(gs: seq<Entry>, n: nat)

  predicate AssignDeclared(a: Assign, syms: Widths) { a.lhs in syms && Declared(a.rhs, syms) }

  function LowerAssigns(assigns: seq<Assign>, syms: Widths): Emitted
    requires forall i :: 0 <= i < |assigns| ==> AssignDeclared(assigns[i], syms)
    decreases |assigns|
  {
    if assigns == [] then Emitted([], 0)
    else
      assert AssignDeclared(assigns[|assigns| - 1], syms);
      var before := LowerAssigns(assigns[..|assigns| - 1], syms);
      var r := LowerAssign(assigns[|assigns| - 1], before.n, syms);
      Emitted(before.gs + r.gs, r.n)
  }

  function LowerChains(mcs: seq<MuxChain>, first: Emitted, syms: Widths): Emitted
    requires forall i :: 0 <= i < |mcs| ==> ChainDeclared(mcs[i], syms)
    decreases |mcs|
  {
    if mcs == [] then first
    else
      var before := LowerChains(mcs[..|mcs| - 1], first, syms);
      var r := LowerChain(mcs[|mcs| - 1], before.n, syms);
      Emitted(before.gs + r.gs, r.n)
  }

  // ---------- within a cycle and across the clock edge ----------

  predicate AssignHolds(a: Assign, env: Signals, syms: Widths)
    requires AssignDeclared(a, syms) && Carries(env, syms)
  {
    env[a.lhs] == Stored(a.rhs, syms[a.lhs], env, syms)
  }

  predicate AssignOk(a: Assign, syms: Widths)
    requires AssignDeclared(a, syms)
  {
    FillsTarget(a.rhs, None, syms[a.lhs], syms)
  }

  function ChainNext(mc: MuxChain, env: Signals, syms: Widths): Bits
    requires ChainDeclared(mc, syms) && Carries(env, syms)
  {
    Selected(mc.arms, Stored(mc.default, syms[mc.target], env, syms), syms[mc.target], env, syms)
  }

  predicate TakesNext(mc: MuxChain, edge: set<string>, env: Signals, next: Signals, syms: Widths)
    requires ChainDeclared(mc, syms) && Carries(env, syms) && Carries(next, syms)
  {
    next[mc.target] == if mc.clk in edge then ChainNext(mc, env, syms) else env[mc.target]
  }

  /** The registers of a list whose clock has an edge take over their data inputs, and the others keep their value. */
  predicate Clocked(gs: seq<Entry>, edge: set<string>, v: Valuation, next: Signals) {
    forall i :: 0 <= i < |gs| && gs[i].Reg? ==> RegTakes(gs[i], edge, v, next)
  }

  predicate RegTakes(g: Entry, edge: set<string>, v: Valuation, next: Signals)
    requires g.Reg?
  {
    g.q.Signal? && g.q.name in next && next[g.q.name] == if g.clk in edge then Fit(v(g.d), g.width) else v(g.q)
  }

  lemma ClockedConcat(a: seq<Entry>, b: seq<Entry>, edge: set<string>, v: Valuation, next: Signals)
    ensures Clocked(a + b, edge, v, next) <==> Clocked(a, edge, v, next) && Clocked(b, edge, v, next)
  {
    hide RegTakes;
    if Clocked(a + b, edge, v, next) {
      forall i | 0 <= i < |a| && a[i].Reg? ensures RegTakes(a[i], edge, v, next) { assert (a + b)[i] == a[i]; }
      forall i | 0 <= i < |b| && b[i].Reg? ensures RegTakes(b[i], edge, v, next) { assert (a + b)[|a| + i] == b[i]; }
    }
  }

  /** Lowered expressions have no aliases and no registers, and slice only within declared signals. */
  predicate Plain(g: Entry, syms: Widths) {
    !g.Alias? && !g.Reg? && (g.Slice? ==> g.src.Signal? && g.src.name in syms && g.lo <= g.hi < syms[g.src.name])
  }

  predicate AllPlain(gs: seq<Entry>, syms: Widths) { forall i :: 0 <= i < |gs| ==> Plain(gs[i], syms) }

  lemma PiecesArePlain(op: UnaryOp, bop: BinaryOp, a: Wire, b: Wire, lw: nat, rw: nat, n: nat, syms: Widths)
    ensures AllPlain(LowerUnary(op, a, lw, n).gs, syms) && AllPlain(LowerBinary(bop, a, b, lw, rw, n).gs, syms)
  {
  }

  lemma {:induction false} LoweringIsPlain(e: Expr, ctx: Option<nat>, n: nat, syms: Widths)
    requires Declared(e, syms)
    ensures AllPlain(Lower(e, ctx, n, syms).gs, syms)
    decreases e
  {
    hide LowerUnary, LowerBinary;
    match e
    case Unary(op, x) =>
      LoweringIsPlain(x, ctx, n, syms);
      var r := Lower(x, ctx, n, syms);
      PiecesArePlain(op, Plus, r.w, r.w, Infer(x, syms), 0, r.n, syms);
      hide Plain, Lower;
    case Binary(op, x, y) =>
      var lw, rw := Infer(x, syms), Infer(y, syms);
      var l := Lower(x, Some(Max(lw, rw)), n, syms);
      var r := Lower(y, Some(Max(lw, rw)), l.n, syms);
      LoweringIsPlain(x, Some(Max(lw, rw)), n, syms);
      LoweringIsPlain(y, Some(Max(lw, rw)), l.n, syms);
      PiecesArePlain(Invert, op, l.w, r.w, lw, rw, r.n, syms);
      assert Lower(e, ctx, n, syms).gs == l.gs + r.gs + LowerBinary(op, l.w, r.w, lw, rw, r.n).gs;
      hide Plain, Lower;
    case _ =>
  }

  lemma {:induction false} ArmsArePlain(arms: seq<MuxArm>, w: nat, cur: Wire, n: nat, syms: Widths)
    requires forall i :: 0 <= i < |arms| ==> Declared(arms[i].cond, syms) && Declared(arms[i].rhs, syms)
    ensures AllPlain(LowerArms(arms, w, cur, n, syms).gs, syms)
    decreases |arms|
  {
    hide Lower;
    if arms != [] {
      var inner := LowerArms(arms[1..], w, cur, n, syms);
      var c := Lower(arms[0].cond, Some(1), inner.n, syms);
      ArmsArePlain(arms[1..], w, cur, n, syms);
      LoweringIsPlain(arms[0].cond, Some(1), inner.n, syms);
      LoweringIsPlain(arms[0].rhs, Some(w), c.n, syms);
    }
  }

  /** At an edge of its clock the register of a chain, and no other, takes what the chain selects. */
  lemma ChainClocked(mc: MuxChain, n: nat, edge: set<string>, v: Valuation, env: Signals, next: Signals, syms: Widths)
    requires ChainDeclared(mc, syms) && ChainOk(mc, syms) && Carries(env, syms) && Carries(next, syms)
    requires Shows(v, env) && Satisfies(v, LowerChain(mc, n, syms).gs)
    ensures Clocked(LowerChain(mc, n, syms).gs, edge, v, next) <==> TakesNext(mc, edge, env, next, syms)
  {
    hide Lower, LowerArms, ChainOk, Selected, Stored, Holds;
    var w := syms[mc.target];
    var d := Lower(mc.default, Some(w), n, syms);
    var m := LowerArms(mc.arms, w, d.w, d.n, syms);
    var reg := Reg(w, mc.clk, m.w, Signal(mc.target));
    ChainIsCorrect(mc, n, v, env, syms);
    LoweringIsPlain(mc.default, Some(w), n, syms);
    ArmsArePlain(mc.arms, w, d.w, d.n, syms);
    ClockedConcat(d.gs + m.gs, [reg], edge, v, next);
    ClockedConcat(d.gs, m.gs, edge, v, next);
    assert Clocked([reg], edge, v, next) <==> RegTakes([reg][0], edge, v, next);
  }

  /** A continuous assignment holds in every valuation that satisfies its entries. */
  lemma AssignIsCorrect(a: Assign, n: nat, v: Valuation, env: Signals, syms: Widths)
    requires AssignDeclared(a, syms) && AssignOk(a, syms) && Carries(env, syms) && Shows(v, env)
    requires Satisfies(v, LowerAssign(a, n, syms).gs)
    ensures AssignHolds(a, env, syms)
  {
    hide Lower, Agrees, Stored, WellWidthed;
    var r := Lower(a.rhs, None, n, syms);
    if r.w == Signal(a.lhs) {
      LoweringIsCorrect(a.rhs, None, n, v, env, syms);
      WireStored(a.rhs, None, syms[a.lhs], v(r.w), env, syms);
      FitFit(env[a.lhs], syms[a.lhs], syms[a.lhs]);
    } else {
      var alias := Alias(Signal(a.lhs), r.w);
      SatisfiesParts(v, r.gs, [alias]);
      assert Holds(v, [alias][0]);
      LoweringIsCorrect(a.rhs, None, n, v, env, syms);
      WireStored(a.rhs, None, syms[a.lhs], v(r.w), env, syms);
    }
  }

  /** One step, in which the clocks of `edge` rise: assignments hold, and the registers of these clocks take the
      values of their blocks. */
  ghost predicate SourceStep(assigns: seq<Assign>, mcs: seq<MuxChain>, edge: set<string>, env: Signals, next: Signals, syms: Widths)
    requires forall i :: 0 <= i < |assigns| ==> AssignDeclared(assigns[i], syms)
    requires (forall i :: 0 <= i < |mcs| ==> ChainDeclared(mcs[i], syms)) && Carries(env, syms) && Carries(next, syms)
  {
    && (forall i :: 0 <= i < |assigns| ==> AssignHolds(assigns[i], env, syms))
    && forall i :: 0 <= i < |mcs| ==> TakesNext(mcs[i], edge, env, next, syms)
  }

  /** One step of the netlist: some valuation satisfies every entry and shows the signals, and the registers
      of the rising clocks take over their inputs. */
  ghost predicate NetStep(gs: seq<Entry>, edge: set<string>, v: Valuation, env: Signals, next: Signals) {
    Shows(v, env) && Satisfies(v, gs) && Clocked(gs, edge, v, next)
  }

  lemma {:induction false} AssignsCorrect(assigns: seq<Assign>, v: Valuation, env: Signals, syms: Widths)
    requires forall i :: 0 <= i < |assigns| ==> AssignDeclared(assigns[i], syms) && AssignOk(assigns[i], syms)
    requires Carries(env, syms) && Shows(v, env) && Satisfies(v, LowerAssigns(assigns, syms).gs)
    ensures forall i :: 0 <= i < |assigns| ==> AssignHolds(assigns[i], env, syms)
    decreases |assigns|
  {
    hide LowerAssign, AssignHolds, AssignOk, Holds;
    if assigns != [] {
      var rest, last := assigns[..|assigns| - 1], assigns[|assigns| - 1];
      var before := LowerAssigns(rest, syms);
      SatisfiesParts(v, before.gs, LowerAssign(last, before.n, syms).gs);
      AssignsCorrect(rest, v, env, syms);
      AssignIsCorrect(last, before.n, v, env, syms);
      forall i | 0 <= i < |assigns| ensures AssignHolds(assigns[i], env, syms) {
        if i < |rest| { assert assigns[i] == rest[i]; }
      }
    }
  }

  /** Given the netlist's equations, its clock edge is the clock edge of the source. */
  lemma {:induction false} ChainsClocked(mcs: seq<MuxChain>, first: Emitted, edge: set<string>, v: Valuation, env: Signals, next: Signals, syms: Widths)
    requires forall i :: 0 <= i < |mcs| ==> ChainDeclared(mcs[i], syms) && ChainOk(mcs[i], syms)
    requires Carries(env, syms) && Carries(next, syms) && Shows(v, env) && Satisfies(v, LowerChains(mcs, first, syms).gs)
    ensures Clocked(LowerChains(mcs, first, syms).gs, edge, v, next)
            <==> Clocked(first.gs, edge, v, next) && forall i :: 0 <= i < |mcs| ==> TakesNext(mcs[i], edge, env, next, syms)
    decreases |mcs|
  {
    hide LowerChain, TakesNext, ChainOk, Holds, Clocked;
    if mcs != [] {
      var rest, last := mcs[..|mcs| - 1], mcs[|mcs| - 1];
      var before := LowerChains(rest, first, syms);
      var r := LowerChain(last, before.n, syms);
      SatisfiesParts(v, before.gs, r.gs);
      ChainsClocked(rest, first, edge, v, env, next, syms);
      ChainClocked(last, before.n, edge, v, env, next, syms);
      ClockedConcat(before.gs, r.gs, edge, v, next);
      assert forall i :: 0 <= i < |rest| ==> rest[i] == mcs[i];
      assert forall i :: 0 <= i < |mcs| ==> i < |rest| || mcs[i] == last;
    }
  }

  // ---------- the netlist can always be evaluated ----------

  lemma {:induction false} ArmsOrdered(arms: seq<MuxArm>, w: nat, cur: Wire, n: nat, syms: Widths, known: set<Wire>)
    requires forall i :: 0 <= i < |arms| ==> Declared(arms[i].cond, syms) && Declared(arms[i].rhs, syms)
    requires BelowNumber(known, n) && Usable(cur, known)
    ensures GoodPiece(LowerArms(arms, w, cur, n, syms), known, n)
    decreases |arms|
  {
    hide Lower, Ordered;
    if arms == [] {
      EmptyOrdered(known, n);
    } else {
      var inner := LowerArms(arms[1..], w, cur, n, syms);
      var c := Lower(arms[0].cond, Some(1), inner.n, syms);
      var r := Lower(arms[0].rhs, Some(w), c.n, syms);
      ArmsOrdered(arms[1..], w, cur, n, syms, known);
      DrivenInRange(inner.gs, known, n, inner.n);
      LoweringIsOrdered(arms[0].cond, Some(1), inner.n, syms, known + Driven(inner.gs));
      Follow(inner, c, known, n);
      DrivenInRange(inner.gs + c.gs, known, n, c.n);
      LoweringIsOrdered(arms[0].rhs, Some(w), c.n, syms, known + Driven(inner.gs + c.gs));
      ArmOrdered(inner, c, r, w, n, known);
    }
  }

  /** The mux of one arm after the pieces it selects from. */
  lemma ArmOrdered(inner: Lowered, c: Lowered, r: Lowered, w: nat, n: nat, known: set<Wire>)
    requires GoodPiece(inner, known, n) && GoodPiece(Lowered(inner.gs + c.gs, c.w, c.n), known, n)
    requires Driven(inner.gs + c.gs) == Driven(inner.gs) + Driven(c.gs) && GoodPiece(r, known + Driven(inner.gs + c.gs), c.n)
    requires BelowNumber(known, n)
    ensures GoodPiece(Lowered(inner.gs + c.gs + r.gs + [Mux(w, c.w, r.w, inner.w, Temp(r.n))], Temp(r.n), r.n + 2), known, n)
  {
    hide Ordered, Driven;
    Follow(Lowered(inner.gs + c.gs, c.w, c.n), r, known, n);
    DrivenInRange(inner.gs + c.gs + r.gs, known, n, r.n);
    MuxOrdered(w, c.w, r.w, inner.w, known + Driven(inner.gs + c.gs + r.gs), r.n);
    Follow(Lowered(inner.gs + c.gs + r.gs, r.w, r.n), Lowered([Mux(w, c.w, r.w, inner.w, Temp(r.n))], Temp(r.n), r.n + 2), known, n);
  }

  lemma MuxOrdered(w: nat, sel: Wire, a: Wire, b: Wire, known: set<Wire>, n: nat)
    requires BelowNumber(known, n) && Usable(sel, known) && Usable(a, known) && Usable(b, known)
    ensures GoodPiece(Lowered([Mux(w, sel, a, b, Temp(n))], Temp(n), n + 2), known, n)
  {
    hide Ordered;
    OrderedOne(Mux(w, sel, a, b, Temp(n)), known, n, n + 2);
  }

  lemma ChainOrdered(mc: MuxChain, n: nat, syms: Widths, known: set<Wire>)
    requires ChainDeclared(mc, syms) && BelowNumber(known, n)
    ensures GoodPiece(LowerChain(mc, n, syms), known, n)
  {
    hide Lower, LowerArms, Ordered;
    var w := syms[mc.target];
    var d := Lower(mc.default, Some(w), n, syms);
    var m := LowerArms(mc.arms, w, d.w, d.n, syms);
    LoweringIsOrdered(mc.default, Some(w), n, syms, known);
    DrivenInRange(d.gs, known, n, d.n);
    ArmsOrdered(mc.arms, w, d.w, d.n, syms, known + Driven(d.gs));
    Follow(d, m, known, n);
    OrderedOne(Reg(w, mc.clk, m.w, Signal(mc.target)), known + Driven(d.gs + m.gs), m.n, m.n + 1);
    Follow(Lowered(d.gs + m.gs, m.w, m.n), Lowered([Reg(w, mc.clk, m.w, Signal(mc.target))], m.w, m.n + 1), known, n);
  }

  lemma AssignOrdered(a: Assign, n: nat, syms: Widths, known: set<Wire>)
    requires AssignDeclared(a, syms) && BelowNumber(known, n)
    ensures GoodPiece(LowerAssign(a, n, syms), known, n)
  {
    hide Lower, Ordered;
    var r := Lower(a.rhs, None, n, syms);
    LoweringIsOrdered(a.rhs, None, n, syms, known);
    if r.w != Signal(a.lhs) {
      OrderedOne(Alias(Signal(a.lhs), r.w), known + Driven(r.gs), r.n, r.n);
      Follow(r, Lowered([Alias(Signal(a.lhs), r.w)], r.w, r.n), known, n);
    }
  }

  lemma AppendOrdered(before: Emitted, r: Lowered)
    requires Ordered(before.gs, {}, 0, before.n) && GoodPiece(r, Driven(before.gs), before.n)
    ensures Ordered(before.gs + r.gs, {}, 0, r.n)
  {
    assert {} + Driven(before.gs) == Driven(before.gs);
    OrderedConcat(before.gs, r.gs, {}, 0, before.n, r.n);
  }

  lemma {:induction false} AssignsOrdered(assigns: seq<Assign>, syms: Widths)
    requires forall i :: 0 <= i < |assigns| ==> AssignDeclared(assigns[i], syms)
    ensures Ordered(LowerAssigns(assigns, syms).gs, {}, 0, LowerAssigns(assigns, syms).n)
    decreases |assigns|
  {
    if assigns == [] {
      EmptyOrdered({}, 0);
    } else {
      var rest, last := assigns[..|assigns| - 1], assigns[|assigns| - 1];
      assert AssignDeclared(last, syms);
      var before := LowerAssigns(rest, syms);
      AssignsOrdered(rest, syms);
      hide LowerAssign, Ordered;
      DrivenInRange(before.gs, {}, 0, before.n);
      AssignOrdered(last, before.n, syms, Driven(before.gs));
      AppendOrdered(before, LowerAssign(last, before.n, syms));
    }
  }

  lemma {:induction false} ChainsOrdered(mcs: seq<MuxChain>, first: Emitted, syms: Widths)
    requires (forall i :: 0 <= i < |mcs| ==> ChainDeclared(mcs[i], syms)) && Ordered(first.gs, {}, 0, first.n)
    ensures Ordered(LowerChains(mcs, first, syms).gs, {}, 0, LowerChains(mcs, first, syms).n)
    decreases |mcs|
  {
    if mcs != [] {
      var rest, last := mcs[..|mcs| - 1], mcs[|mcs| - 1];
      var before := LowerChains(rest, first, syms);
      ChainsOrdered(rest, first, syms);
      hide LowerChain, Ordered;
      DrivenInRange(before.gs, {}, 0, before.n);
      ChainOrdered(last, before.n, syms, Driven(before.gs));
      AppendOrdered(before, LowerChain(last, before.n, syms));
    }
  }

  // ---------- from the source back to the netlist ----------

  /** Every entry is plain, or an alias or register. */
  predicate Known(g: Entry, syms: Widths) { g.Alias? || g.Reg? || Plain(g, syms) }

  predicate AllKnown(gs: seq<Entry>, syms: Widths) { forall i :: 0 <= i < |gs| ==> Known(gs[i], syms) }

  lemma {:induction false} AssignsKnown(assigns: seq<Assign>, syms: Widths)
    requires forall i :: 0 <= i < |assigns| ==> AssignDeclared(assigns[i], syms)
    ensures AllKnown(LowerAssigns(assigns, syms).gs, syms)
    ensures forall i :: 0 <= i < |LowerAssigns(assigns, syms).gs| ==> !LowerAssigns(assigns, syms).gs[i].Reg?
    decreases |assigns|
  {
    hide Lower;
    if assigns != [] {
      var rest, last := assigns[..|assigns| - 1], assigns[|assigns| - 1];
      assert AssignDeclared(last, syms);
      AssignsKnown(rest, syms);
      LoweringIsPlain(last.rhs, None, LowerAssigns(rest, syms).n, syms);
    }
  }

  lemma {:induction false} ChainsKnown(mcs: seq<MuxChain>, first: Emitted, syms: Widths)
    requires (forall i :: 0 <= i < |mcs| ==> ChainDeclared(mcs[i], syms)) && AllKnown(first.gs, syms)
    ensures AllKnown(LowerChains(mcs, first, syms).gs, syms)
    ensures first.gs <= LowerChains(mcs, first, syms).gs
    ensures forall i :: |first.gs| <= i < |LowerChains(mcs, first, syms).gs| ==> !LowerChains(mcs, first, syms).gs[i].Alias?
    decreases |mcs|
  {
    hide Lower, LowerArms;
    if mcs != [] {
      var rest, last := mcs[..|mcs| - 1], mcs[|mcs| - 1];
      var before := LowerChains(rest, first, syms);
      ChainsKnown(rest, first, syms);
      var w := syms[last.target];
      var d := Lower(last.default, Some(w), before.n, syms);
      LoweringIsPlain(last.default, Some(w), before.n, syms);
      ArmsArePlain(last.arms, w, d.w, d.n, syms);
    }
  }

  /** Where the assignment holds, its alias does. */
  lemma AliasHolds(a: Assign, n: nat, v: Valuation, env: Signals, syms: Widths)
    requires AssignDeclared(a, syms) && AssignOk(a, syms) && Carries(env, syms) && Shows(v, env) && AssignHolds(a, env, syms)
    requires var gs := LowerAssign(a, n, syms).gs; forall i :: 0 <= i < |gs| && !gs[i].Alias? ==> Holds(v, gs[i])
    ensures Satisfies(v, LowerAssign(a, n, syms).gs)
  {
    hide Lower, Agrees, Stored, WellWidthed;
    var r, gs := Lower(a.rhs, None, n, syms), LowerAssign(a, n, syms).gs;
    LoweringIsPlain(a.rhs, None, n, syms);
    forall i | 0 <= i < |r.gs| ensures Holds(v, r.gs[i]) { assert gs[i] == r.gs[i]; }
    LoweringIsCorrect(a.rhs, None, n, v, env, syms);
    WireStored(a.rhs, None, syms[a.lhs], v(r.w), env, syms);
  }

  lemma {:induction false} AliasesHold(assigns: seq<Assign>, v: Valuation, env: Signals, syms: Widths)
    requires forall i :: 0 <= i < |assigns| ==> AssignDeclared(assigns[i], syms) && AssignOk(assigns[i], syms)
    requires Carries(env, syms) && Shows(v, env) && forall i :: 0 <= i < |assigns| ==> AssignHolds(assigns[i], env, syms)
    requires var gs := LowerAssigns(assigns, syms).gs; forall i :: 0 <= i < |gs| && !gs[i].Alias? ==> Holds(v, gs[i])
    ensures Satisfies(v, LowerAssigns(assigns, syms).gs)
    decreases |assigns|
  {
    hide LowerAssign, AssignHolds, AssignOk, Holds;
    if assigns != [] {
      var rest, last := assigns[..|assigns| - 1], assigns[|assigns| - 1];
      assert AssignDeclared(last, syms) && AssignHolds(last, env, syms);
      var before := LowerAssigns(rest, syms);
      var r := LowerAssign(last, before.n, syms);
      var gs := before.gs + r.gs;
      assert LowerAssigns(assigns, syms).gs == gs;
      forall i | 0 <= i < |before.gs| && !before.gs[i].Alias? ensures Holds(v, before.gs[i]) { assert gs[i] == before.gs[i]; }
      forall i | 0 <= i < |r.gs| && !r.gs[i].Alias? ensures Holds(v, r.gs[i]) { assert gs[|before.gs| + i] == r.gs[i]; }
      AliasesHold(rest, v, env, syms);
      AliasHolds(last, before.n, v, env, syms);
    }
  }

  function Showing(env: Signals): Valuation { (w: Wire) => if w.Signal? && w.name in env then env[w.name] else [] }

  ghost predicate ModuleOk(assigns: seq<Assign>, mcs: seq<MuxChain>, syms: Widths) {
    && (forall i :: 0 <= i < |assigns| ==> AssignDeclared(assigns[i], syms) && AssignOk(assigns[i], syms))
    && forall i :: 0 <= i < |mcs| ==> ChainDeclared(mcs[i], syms) && ChainOk(mcs[i], syms)
  }

  function Netlist(assigns: seq<Assign>, mcs: seq<MuxChain>, syms: Widths): seq<Entry>
    requires forall i :: 0 <= i < |assigns| ==> AssignDeclared(assigns[i], syms)
    requires forall i :: 0 <= i < |mcs| ==> ChainDeclared(mcs[i], syms)
  {
    LowerChains(mcs, LowerAssigns(assigns, syms), syms).gs
  }

  /** Signals for which the assignments hold extend to a valuation of the whole netlist. */
  lemma NetlistSettles(assigns: seq<Assign>, mcs: seq<MuxChain>, env: Signals, syms: Widths) returns (v: Valuation)
    requires ModuleOk(assigns, mcs, syms) && Carries(env, syms)
    requires forall i :: 0 <= i < |assigns| ==> AssignHolds(assigns[i], env, syms)
    ensures Shows(v, env) && Satisfies(v, Netlist(assigns, mcs, syms))
  {
    hide AssignOk, ChainOk, ChainDeclared, AssignHolds, LowerAssigns, LowerChains, Ordered, Holds;
    var first := LowerAssigns(assigns, syms);
    var gs, base := Netlist(assigns, mcs, syms), Showing(env);
    AssignsOrdered(assigns, syms);
    ChainsOrdered(mcs, first, syms);
    AssignsKnown(assigns, syms);
    ChainsKnown(mcs, first, syms);
    var n := LowerChains(mcs, first, syms).n;
    v := Evaluate(gs, base);
    DrivenInRange(gs, {}, 0, n);
    SettledShows(gs, env, n);
    forall i | 0 <= i < |gs| ensures SliceFits(gs[i], base) { assert Known(gs[i], syms); }
    EvaluateSatisfies(gs, base, {}, 0, n);
    forall i | 0 <= i < |first.gs| && !first.gs[i].Alias? ensures Holds(v, first.gs[i]) { assert gs[i] == first.gs[i]; }
    AliasesHold(assigns, v, env, syms);
    forall i | 0 <= i < |gs| ensures Holds(v, gs[i]) {
      if i < |first.gs| { assert gs[i] == first.gs[i]; }
    }
  }

  lemma SettledShows(gs: seq<Entry>, env: Signals, n: nat)
    requires forall w :: w in Driven(gs) ==> InRange(w, 0, n)
    ensures Shows(Evaluate(gs, Showing(env)), env)
  {
    hide Evaluate, Driven;
    forall name | name in env ensures Evaluate(gs, Showing(env))(Signal(name)) == env[name] {
      EvaluateKeeps(gs, Showing(env), Signal(name));
    }
  }

  /** One step: the source takes it exactly when the netlist can, whichever clocks rise. */
  lemma StepsAgree(assigns: seq<Assign>, mcs: seq<MuxChain>, edge: set<string>, env: Signals, next: Signals, syms: Widths)
    requires ModuleOk(assigns, mcs, syms) && Carries(env, syms) && Carries(next, syms)
    ensures SourceStep(assigns, mcs, edge, env, next, syms) <==> exists v :: NetStep(Netlist(assigns, mcs, syms), edge, v, env, next)
  {
    hide AssignOk, ChainOk, ChainDeclared, AssignHolds, TakesNext, LowerAssigns, LowerChains, Ordered, Holds, Clocked;
    var gs := Netlist(assigns, mcs, syms);
    if SourceStep(assigns, mcs, edge, env, next, syms) {
      var v := NetlistSettles(assigns, mcs, env, syms);
      NoRegisters(assigns, edge, v, next, syms);
      ChainsClocked(mcs, LowerAssigns(assigns, syms), edge, v, env, next, syms);
      assert NetStep(gs, edge, v, env, next);
    }
    if exists v :: NetStep(gs, edge, v, env, next) {
      var v :| NetStep(gs, edge, v, env, next);
      ChainsClocked(mcs, LowerAssigns(assigns, syms), edge, v, env, next, syms);
      FirstSatisfied(assigns, mcs, v, syms);
      AssignsCorrect(assigns, v, env, syms);
    }
  }

  lemma NoRegisters(assigns: seq<Assign>, edge: set<string>, v: Valuation, next: Signals, syms: Widths)
    requires forall i :: 0 <= i < |assigns| ==> AssignDeclared(assigns[i], syms)
    ensures Clocked(LowerAssigns(assigns, syms).gs, edge, v, next)
  {
    hide LowerAssigns;
    AssignsKnown(assigns, syms);
  }

  lemma FirstSatisfied(assigns: seq<Assign>, mcs: seq<MuxChain>, v: Valuation, syms: Widths)
    requires ModuleOk(assigns, mcs, syms) && Satisfies(v, Netlist(assigns, mcs, syms))
    ensures Satisfies(v, LowerAssigns(assigns, syms).gs)
  {
    hide AssignOk, ChainOk, ChainDeclared, LowerAssigns, LowerChains, Holds;
    var first, gs := LowerAssigns(assigns, syms), Netlist(assigns, mcs, syms);
    AssignsKnown(assigns, syms);
    ChainsKnown(mcs, first, syms);
    forall i | 0 <= i < |first.gs| ensures Holds(v, first.gs[i]) { assert gs[i] == first.gs[i]; }
  }

  ghost predicate SourceRun(assigns: seq<Assign>, mcs: seq<MuxChain>, edges: seq<set<string>>, envs: seq<Signals>, syms: Widths)
    requires ModuleOk(assigns, mcs, syms) && |edges| >= |envs| - 1 && forall k :: 0 <= k < |envs| ==> Carries(envs[k], syms)
  {
    forall k :: 0 <= k < |envs| - 1 ==> SourceStep(assigns, mcs, edges[k], envs[k], envs[k + 1], syms)
  }

  ghost predicate NetRun(gs: seq<Entry>, edges: seq<set<string>>, vs: seq<Valuation>, envs: seq<Signals>) {
    |vs| == |edges| == |envs| - 1 && forall k :: 0 <= k < |vs| ==> NetStep(gs, edges[k], vs[k], envs[k], envs[k + 1])
  }

  /** Main result for modules: the runs of the netlist, seen at the signals of the source, are exactly
      the runs of the source. */
  lemma {:induction false} RunsAgree(assigns: seq<Assign>, mcs: seq<MuxChain>, edges: seq<set<string>>, envs: seq<Signals>, syms: Widths)
    requires ModuleOk(assigns, mcs, syms) && |edges| == |envs| - 1 && forall k :: 0 <= k < |envs| ==> Carries(envs[k], syms)
    ensures SourceRun(assigns, mcs, edges, envs, syms) <==> exists vs :: NetRun(Netlist(assigns, mcs, syms), edges, vs, envs)
    decreases |envs|
  {
    hide AssignOk, ChainOk, AssignDeclared, ChainDeclared, SourceStep, NetStep, Netlist;
    var gs := Netlist(assigns, mcs, syms);
    if SourceRun(assigns, mcs, edges, envs, syms) {
      var vs := ValuationsFor(assigns, mcs, edges, envs, |envs| - 1, syms);
      assert NetRun(gs, edges, vs, envs);
    }
    if exists vs :: NetRun(gs, edges, vs, envs) {
      var vs :| NetRun(gs, edges, vs, envs);
      forall k | 0 <= k < |envs| - 1 ensures SourceStep(assigns, mcs, edges[k], envs[k], envs[k + 1], syms) {
        assert NetStep(gs, edges[k], vs[k], envs[k], envs[k + 1]);
        StepsAgree(assigns, mcs, edges[k], envs[k], envs[k + 1], syms);
      }
    }
  }

  lemma {:induction false} ValuationsFor(assigns: seq<Assign>, mcs: seq<MuxChain>, edges: seq<set<string>>, envs: seq<Signals>, n: nat, syms: Widths)
    returns (vs: seq<Valuation>)
    requires ModuleOk(assigns, mcs, syms) && n < |envs| && |edges| >= |envs| - 1 && forall k :: 0 <= k < |envs| ==> Carries(envs[k], syms)
    requires SourceRun(assigns, mcs, edges, envs, syms)
    ensures |vs| == n && forall k :: 0 <= k < n ==> NetStep(Netlist(assigns, mcs, syms), edges[k], vs[k], envs[k], envs[k + 1])
    decreases n
  {
    hide AssignOk, ChainOk, AssignDeclared, ChainDeclared, SourceStep, NetStep, Netlist;
    if n == 0 { return []; }
    vs := ValuationsFor(assigns, mcs, edges, envs, n - 1, syms);
    assert SourceStep(assigns, mcs, edges[n - 1], envs[n - 1], envs[n - 1 + 1], syms);
    StepsAgree(assigns, mcs, edges[n - 1], envs[n - 1], envs[n], syms);
    var v :| NetStep(Netlist(assigns, mcs, syms), edges[n - 1], v, envs[n - 1], envs[n]);
    vs := vs + [v];
  }

  // ---------- in terms of the source's blocks ----------

  function Chains(ffs: seq<AlwaysFF>, targets: seq<string>): (mcs: seq<MuxChain>)
    requires |ffs| == |targets|
    ensures |mcs| == |ffs| && forall i :: 0 <= i < |ffs| ==> mcs[i] == Flatten(ffs[i], targets[i])
  {
    seq(|ffs|, i requires 0 <= i < |ffs| => Flatten(ffs[i], targets[i]))
  }

  /** Every block is declared and assigns exactly one signal. */
  ghost predicate BlocksDeclared(ffs: seq<AlwaysFF>, targets: seq<string>, syms: Widths) {
    && |ffs| == |targets|
    && forall i :: 0 <= i < |ffs| ==> FFDeclared(ffs[i], syms) && targets[i] in syms && Targets(ffs[i]) == {targets[i]}
  }

  /** One step of the source: its assignments hold, and the register of each block whose clock rises takes the
      value that its if-chain gives it. */
  ghost predicate ModuleStep(m: Module, targets: seq<string>, edge: set<string>, env: Signals, next: Signals, syms: Widths)
    requires (forall i :: 0 <= i < |m.assigns| ==> AssignDeclared(m.assigns[i], syms)) && BlocksDeclared(m.ffs, targets, syms)
    requires Carries(env, syms) && Carries(next, syms)
  {
    && (forall i :: 0 <= i < |m.assigns| ==> AssignHolds(m.assigns[i], env, syms))
    && forall i :: 0 <= i < |m.ffs| ==> BlockTakes(m.ffs[i], targets[i], edge, env, next, syms)
  }

  predicate BlockTakes(ff: AlwaysFF, target: string, edge: set<string>, env: Signals, next: Signals, syms: Widths)
    requires FFDeclared(ff, syms) && target in syms && Carries(env, syms) && Carries(next, syms)
  {
    next[target] == if ff.clk in edge then NextValue(ff.arms, ff.otherwise, target, env, syms) else env[target]
  }

  lemma BlockIsChain(ff: AlwaysFF, target: string, edge: set<string>, env: Signals, next: Signals, syms: Widths)
    requires FFDeclared(ff, syms) && target in syms && Carries(env, syms) && Carries(next, syms)
    ensures ChainDeclared(Flatten(ff, target), syms)
    ensures TakesNext(Flatten(ff, target), edge, env, next, syms) <==> BlockTakes(ff, target, edge, env, next, syms)
  {
    hide Flatten, Selected, NextValue, Stored;
    FlattenKeeps(ff.arms, ff.otherwise, ff.clk, target, env, syms);
    assert AlwaysFF(ff.clk, ff.arms, ff.otherwise) == ff;
    FlattenTarget(ff, target);
  }

  lemma FlattenTarget(ff: AlwaysFF, target: string)
    ensures Flatten(ff, target).target == target && Flatten(ff, target).clk == ff.clk
  {
  }

  ghost predicate ModuleRun(m: Module, targets: seq<string>, edges: seq<set<string>>, envs: seq<Signals>, syms: Widths)
    requires (forall i :: 0 <= i < |m.assigns| ==> AssignDeclared(m.assigns[i], syms)) && BlocksDeclared(m.ffs, targets, syms)
    requires |edges| >= |envs| - 1 && forall k :: 0 <= k < |envs| ==> Carries(envs[k], syms)
  {
    forall k :: 0 <= k < |envs| - 1 ==> ModuleStep(m, targets, edges[k], envs[k], envs[k + 1], syms)
  }

  lemma ModuleStepIsSourceStep(m: Module, targets: seq<string>, edge: set<string>, env: Signals, next: Signals, syms: Widths)
    requires BlocksDeclared(m.ffs, targets, syms) && ModuleOk(m.assigns, Chains(m.ffs, targets), syms)
    requires Carries(env, syms) && Carries(next, syms)
    ensures ModuleStep(m, targets, edge, env, next, syms) <==> SourceStep(m.assigns, Chains(m.ffs, targets), edge, env, next, syms)
  {
    hide AssignHolds, AssignOk, ChainOk, TakesNext, BlockTakes, Flatten;
    var mcs := Chains(m.ffs, targets);
    forall i | 0 <= i < |m.ffs| ensures TakesNext(mcs[i], edge, env, next, syms) <==> BlockTakes(m.ffs[i], targets[i], edge, env, next, syms) {
      BlockIsChain(m.ffs[i], targets[i], edge, env, next, syms);
    }
  }

  /** The same result for the source as written: over any number of cycles, the signals of a run of the
      source are those of a run of the netlist, and the other way round. */
  lemma ModuleRunsAgree(m: Module, targets: seq<string>, edges: seq<set<string>>, envs: seq<Signals>, syms: Widths)
    requires BlocksDeclared(m.ffs, targets, syms) && ModuleOk(m.assigns, Chains(m.ffs, targets), syms)
    requires |edges| == |envs| - 1 && forall k :: 0 <= k < |envs| ==> Carries(envs[k], syms)
    ensures ModuleRun(m, targets, edges, envs, syms)
            <==> exists vs :: NetRun(Netlist(m.assigns, Chains(m.ffs, targets), syms), edges, vs, envs)
  {
    hide AssignOk, ChainOk, AssignDeclared, ChainDeclared, SourceStep, ModuleStep, NetRun, Netlist, Chains;
    forall k | 0 <= k < |envs| - 1
      ensures ModuleStep(m, targets, edges[k], envs[k], envs[k + 1], syms)
              <==> SourceStep(m.assigns, Chains(m.ffs, targets), edges[k], envs[k], envs[k + 1], syms)
    {
      ModuleStepIsSourceStep(m, targets, edges[k], envs[k], envs[k + 1], syms);
    }
    RunsAgree(m.assigns, Chains(m.ffs, targets), edges, envs, syms);
  }

  // ---------- the registers that are emitted ----------

  function Registers(gs: seq<Entry>): seq<Entry>
    decreases |gs|
  {
    if gs == [] then []
    else
      var last := gs[|gs| - 1];
      Registers(gs[..|gs| - 1]) + if last.Reg? then [last] else []
  }

  lemma {:induction false} RegistersConcat(a: seq<Entry>, b: seq<Entry>)
    ensures Registers(a + b) == Registers(a) + Registers(b)
    decreases |b|
  {
    if b == [] {
      assert a + b == a;
    } else {
      RegistersConcat(a, b[..|b| - 1]);
      assert (a + b)[..|a + b| - 1] == a + b[..|b| - 1];
    }
  }

  lemma {:induction false} NoneOf(gs: seq<Entry>)
    requires forall i :: 0 <= i < |gs| ==> !gs[i].Reg?
    ensures Registers(gs) == []
    decreases |gs|
  {
    if gs != [] { NoneOf(gs[..|gs| - 1]); }
  }

  lemma ChainRegister(mc: MuxChain, n: nat, syms: Widths)
    requires ChainDeclared(mc, syms)
    ensures Registers(LowerChain(mc, n, syms).gs) == [Reg(syms[mc.target], mc.clk, LowerChain(mc, n, syms).w, Signal(mc.target))]
  {
    hide Lower, LowerArms;
    var w := syms[mc.target];
    var d := Lower(mc.default, Some(w), n, syms);
    var m := LowerArms(mc.arms, w, d.w, d.n, syms);
    LoweringIsPlain(mc.default, Some(w), n, syms);
    ArmsArePlain(mc.arms, w, d.w, d.n, syms);
    NoneOf(d.gs + m.gs);
    RegistersConcat(d.gs + m.gs, [Reg(w, mc.clk, m.w, Signal(mc.target))]);
  }

  /** The entry is the register of the chain: its clock, its width and its signal. */
  predicate RegisterOf(g: Entry, mc: MuxChain, syms: Widths)
    requires mc.target in syms
  {
    g.Reg? && g.clk == mc.clk && g.width == syms[mc.target] && g.q == Signal(mc.target)
  }

  lemma {:induction false} ChainRegisters(mcs: seq<MuxChain>, first: Emitted, syms: Widths)
    requires (forall i :: 0 <= i < |mcs| ==> ChainDeclared(mcs[i], syms)) && Registers(first.gs) == []
    ensures
      var rs := Registers(LowerChains(mcs, first, syms).gs);
      |rs| == |mcs| && forall i :: 0 <= i < |mcs| ==> RegisterOf(rs[i], mcs[i], syms)
    decreases |mcs|
  {
    if mcs != [] {
      var rest, last := mcs[..|mcs| - 1], mcs[|mcs| - 1];
      var before := LowerChains(rest, first, syms);
      assert ChainDeclared(last, syms);
      ChainRegisters(rest, first, syms);
      ChainRegister(last, before.n, syms);
      hide LowerChain, ChainDeclared;
      RegistersConcat(before.gs, LowerChain(last, before.n, syms).gs);
    }
  }

  /** The registers of a module's netlist are, in order, one for each block: on its clock, with its signal and width. */
  lemma RegistersOfModule(m: Module, targets: seq<string>, syms: Widths)
    requires forall i :: 0 <= i < |m.assigns| ==> AssignDeclared(m.assigns[i], syms)
    requires |targets| == |m.ffs| && forall i :: 0 <= i < |m.ffs| ==> ChainDeclared(Chains(m.ffs, targets)[i], syms)
    ensures
      var rs := Registers(Netlist(m.assigns, Chains(m.ffs, targets), syms));
      |rs| == |m.ffs| && forall i :: 0 <= i < |m.ffs| ==>
        && rs[i].Reg? && rs[i].clk == m.ffs[i].clk
        && rs[i].q == Signal(targets[i]) && targets[i] in syms && rs[i].width == syms[targets[i]]
  {
    hide LowerAssigns, LowerChains, Registers, Flatten;
    var mcs, first := Chains(m.ffs, targets), LowerAssigns(m.assigns, syms);
    AssignsKnown(m.assigns, syms);
    NoneOf(first.gs);
    ChainRegisters(mcs, first, syms);
    forall i | 0 <= i < |m.ffs| ensures mcs[i].target == targets[i] && mcs[i].clk == m.ffs[i].clk { FlattenTarget(m.ffs[i], targets[i]); }
  }
}
