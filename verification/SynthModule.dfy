/** Whole modules through the register-transfer synthesiser: continuous assignments and clocked
    if-chains become a netlist whose runs are the runs of the source. */
module SynthModule {
  import opened Counting
  import opened SynthBits
  import opened SynthLowering
  import opened Wrappers

  // ---------- the order of the netlist ----------

  function Reads(g: Entry): set<Wire> {
    match g
    case Const(_, _, _) => {}
    case Slice(_, src, _, _) => {src}
    case Reduction(_, _, src) => {src}
    case Alias(_, src) => {src}
    case Inv(_, a, _) => {a}
    case Gate(_, _, a, b, _) => {a, b}
    case AddCell(_, a, b, _, _) => {a, b}
    case SubCell(_, a, b, _, _) => {a, b}
    case EqCell(_, a, b, _) => {a, b}
    case CmpCell(_, a, b, _, _, _, _) => {a, b}
    case Mux(_, sel, a, b, _) => {sel, a, b}
    case Reg(_, _, d, _) => {d}
  }

  /** The fresh wires an entry drives. Aliases and registers drive named signals. */
  function Drives(g: Entry): set<Wire> {
    match g
    case Const(dst, _, _) => {dst}
    case Slice(dst, _, _, _) => {dst}
    case Reduction(_, dst, _) => {dst}
    case Alias(_, _) => {}
    case Inv(_, _, y) => {y}
    case Gate(_, _, _, _, y) => {y}
    case AddCell(_, _, _, y, c) => {y, c}
    case SubCell(_, _, _, y, c) => {y, c}
    case EqCell(_, _, _, y) => {y}
    case CmpCell(_, _, _, lt, gt, lte, gte) => {lt, gt, lte, gte}
    case Mux(_, _, _, _, y) => {y}
    case Reg(_, _, _, _) => {}
  }

  function Driven(gs: seq<Entry>): set<Wire> { set i, w | 0 <= i < |gs| && w in Drives(gs[i]) :: w }

  /** Temporaries with numbers from `lo` to before `hi`. */
  predicate InRange(w: Wire, lo: nat, hi: nat) { w.Temp? && lo <= w.id < hi }

  /** The entry drives fresh wires from the range and reads signals and wires driven before. */
  ghost predicate FollowsOn(g: Entry, before: set<Wire>, lo: nat, hi: nat) {
    && (forall w :: w in Drives(g) ==> InRange(w, lo, hi) && w !in before && w !in Reads(g))
    && (forall w :: w in Reads(g) ==> w.Signal? || w in before)
    && (g.CmpCell? ==> g.lt != g.gt && g.lt != g.lte && g.gt != g.lte && g.gte !in {g.lt, g.gt, g.lte})
  }

  /** Every entry reads only signals and earlier wires, and drives new wires numbered from `lo` on. */
  ghost predicate Ordered(gs: seq<Entry>, known: set<Wire>, lo: nat, hi: nat)
    decreases |gs|
  {
    if gs == [] then true
    else
      var before := gs[..|gs| - 1];
      Ordered(before, known, lo, hi) && FollowsOn(gs[|gs| - 1], known + Driven(before), lo, hi)
  }

  lemma DrivenConcat(a: seq<Entry>, b: seq<Entry>)
    ensures Driven(a + b) == Driven(a) + Driven(b)
  {
    hide Drives;
    forall w | w in Driven(a) ensures w in Driven(a + b) {
      var i :| 0 <= i < |a| && w in Drives(a[i]);
      assert (a + b)[i] == a[i];
    }
    forall w | w in Driven(b) ensures w in Driven(a + b) {
      var i :| 0 <= i < |b| && w in Drives(b[i]);
      assert (a + b)[|a| + i] == b[i];
    }
  }

  lemma {:induction false} OrderedWiden(gs: seq<Entry>, known: set<Wire>, lo: nat, hi: nat, lo2: nat, hi2: nat)
    requires Ordered(gs, known, lo, hi) && lo2 <= lo && hi <= hi2
    ensures Ordered(gs, known, lo2, hi2)
    decreases |gs|
  {
    if gs != [] { OrderedWiden(gs[..|gs| - 1], known, lo, hi, lo2, hi2); }
  }

  lemma {:induction false} OrderedConcat(a: seq<Entry>, b: seq<Entry>, known: set<Wire>, lo: nat, mid: nat, hi: nat)
    requires Ordered(a, known, lo, mid) && Ordered(b, known + Driven(a), mid, hi) && lo <= mid <= hi
    ensures Ordered(a + b, known, lo, hi)
    decreases |b|
  {
    if b == [] {
      assert a + b == a;
      OrderedWiden(a, known, lo, mid, lo, hi);
    } else {
      var before, g := b[..|b| - 1], b[|b| - 1];
      OrderedConcat(a, before, known, lo, mid, hi);
      DrivenConcat(a, before);
      assert (a + b)[..|a + b| - 1] == a + before && (a + b)[|a + b| - 1] == g;
      assert known + Driven(a) + Driven(before) == known + Driven(a + before);
    }
  }

  /** Everything an ordered list drives is in its range. */
  lemma {:induction false} DrivenInRange(gs: seq<Entry>, known: set<Wire>, lo: nat, hi: nat)
    requires Ordered(gs, known, lo, hi)
    ensures forall w :: w in Driven(gs) ==> InRange(w, lo, hi)
    decreases |gs|
  {
    if gs != [] {
      var before, g := gs[..|gs| - 1], gs[|gs| - 1];
      DrivenInRange(before, known, lo, hi);
      assert gs == before + [g];
      DrivenConcat(before, [g]);
    }
  }

  // ---------- evaluation in order ----------

  function Computed(g: Entry, v: Valuation, w: Wire): Bits {
    match g
    case Const(_, width, value) => OfNat(value, width)
    case Slice(_, src, hi, lo) => if lo <= hi < |v(src)| then v(src)[lo..hi + 1] else []
    case Reduction(op, _, src) => [Reduced(op, v(src))]
    case Inv(n, a, _) => Not(Fit(v(a), n))
    case Gate(op, n, a, b, _) => Pointwise(op, Fit(v(a), n), Fit(v(b), n))
    case AddCell(n, a, b, _, _) => Add(Fit(v(a), n), Fit(v(b), n), false)
    case SubCell(n, a, b, _, _) => Sub(Fit(v(a), n), Fit(v(b), n))
    case EqCell(n, a, b, _) => [Fit(v(a), n) == Fit(v(b), n)]
    case CmpCell(n, a, b, lt, gt, lte, _) =>
      var x, y := Fit(v(a), n), Fit(v(b), n);
      [if w == lt then Less(x, y) else if w == gt then Less(y, x) else if w == lte then !Less(y, x) else !Less(x, y)]
    case Mux(n, sel, a, b, _) => if Fit(v(sel), 1)[0] then Fit(v(a), n) else Fit(v(b), n)
    case _ => []
  }

  /** The wires after evaluating the entries one after the other. */
  function Evaluate(gs: seq<Entry>, v: Valuation): Valuation
    decreases |gs|
  {
    if gs == [] then v
    else
      var u, g := Evaluate(gs[..|gs| - 1], v), gs[|gs| - 1];
      w => if w in Drives(g) then Computed(g, u, w) else u(w)
  }

  lemma {:induction false} EvaluateKeeps(gs: seq<Entry>, v: Valuation, w: Wire)
    requires w !in Driven(gs)
    ensures Evaluate(gs, v)(w) == v(w)
    decreases |gs|
  {
    if gs != [] {
      assert gs == gs[..|gs| - 1] + [gs[|gs| - 1]];
      DrivenConcat(gs[..|gs| - 1], [gs[|gs| - 1]]);
      assert gs[|gs| - 1] == [gs[|gs| - 1]][0];
      EvaluateKeeps(gs[..|gs| - 1], v, w);
    }
  }

  ghost predicate SliceFits(g: Entry, v: Valuation) { g.Slice? ==> g.src.Signal? && g.lo <= g.hi < |v(g.src)| }

  /** An entry's equation depends only on the wires it reads and drives. */
  lemma HoldsLocally(g: Entry, v: Valuation, u: Valuation)
    requires !g.Alias? && forall w :: w in Reads(g) || w in Drives(g) ==> u(w) == v(w)
    ensures Holds(v, g) <==> Holds(u, g)
  {
  }

  /** Evaluation in order satisfies every entry but the aliases. */
  lemma {:induction false} EvaluateSatisfies(gs: seq<Entry>, v: Valuation, known: set<Wire>, lo: nat, hi: nat)
    requires Ordered(gs, known, lo, hi) && (forall w :: w in known ==> w.Temp? && w.id < lo)
    requires forall i :: 0 <= i < |gs| ==> SliceFits(gs[i], v)
    ensures forall i :: 0 <= i < |gs| && !gs[i].Alias? ==> Holds(Evaluate(gs, v), gs[i])
    decreases |gs|
  {
    if gs != [] {
      var before, g := gs[..|gs| - 1], gs[|gs| - 1];
      EvaluateSatisfies(before, v, known, lo, hi);
      DrivenInRange(before, known, lo, hi);
      var u, r := Evaluate(before, v), Evaluate(gs, v);
      forall i | 0 <= i < |gs| && !gs[i].Alias? ensures Holds(r, gs[i]) {
        if i < |before| {
          StillHolds(before, known, lo, hi, i, g, u, r);
        } else {
          LastHolds(g, known + Driven(before), lo, hi, u, r, v, before);
        }
      }
    }
  }

  /** The last entry does not disturb an earlier one. */
  lemma StillHolds(before: seq<Entry>, known: set<Wire>, lo: nat, hi: nat, i: nat, g: Entry, u: Valuation, r: Valuation)
    requires Ordered(before, known, lo, hi) && i < |before| && !before[i].Alias? && Holds(u, before[i])
    requires FollowsOn(g, known + Driven(before), lo, hi) && forall w :: w !in Drives(g) ==> r(w) == u(w)
    ensures Holds(r, before[i])
  {
    ReadsKnown(before, known, lo, hi, i);
    hide Reads, Drives, Holds;
    forall w | w in Reads(before[i]) || w in Drives(before[i]) ensures r(w) == u(w) {
      if w in Drives(before[i]) { assert w in Driven(before); }
    }
    HoldsLocally(before[i], u, r);
  }

  lemma {:induction false} ReadsKnown(gs: seq<Entry>, known: set<Wire>, lo: nat, hi: nat, i: nat)
    requires Ordered(gs, known, lo, hi) && i < |gs|
    ensures forall w :: w in Reads(gs[i]) ==> w.Signal? || w in known + Driven(gs)
    decreases |gs|
  {
    hide Reads, Drives;
    var before, g := gs[..|gs| - 1], gs[|gs| - 1];
    assert gs == before + [g];
    DrivenConcat(before, [g]);
    if i < |before| {
      assert before[i] == gs[i];
      ReadsKnown(before, known, lo, hi, i);
    }
  }

  lemma LastHolds(g: Entry, before: set<Wire>, lo: nat, hi: nat, u: Valuation, r: Valuation, v: Valuation, gs: seq<Entry>)
    requires FollowsOn(g, before, lo, hi) && !g.Alias? && SliceFits(g, v) && u == Evaluate(gs, v)
    requires forall w :: w in Driven(gs) ==> w.Temp?
    requires forall w :: r(w) == if w in Drives(g) then Computed(g, u, w) else u(w)
    ensures Holds(r, g)
  {
    hide Add, Sub, Less, Pointwise, Fit, OfNat, Evaluate;
    if g.Slice? { EvaluateKeeps(gs, v, g.src); }
    forall w | w in Reads(g) ensures r(w) == u(w) {}
  }

  // ---------- lowering emits an ordered list ----------

  predicate Usable(w: Wire, known: set<Wire>) { w.Signal? || w in known }

  ghost predicate BelowNumber(known: set<Wire>, n: nat) { forall w :: w in known ==> w.Temp? && w.id < n }

  /** What lowering a piece yields: ordered entries, and a result that may be read from then on. */
  ghost predicate GoodPiece(r: Lowered, known: set<Wire>, n: nat) {
    Ordered(r.gs, known, n, r.n) && n <= r.n && Usable(r.w, known + Driven(r.gs))
  }

  lemma OrderedOne(g: Entry, known: set<Wire>, lo: nat, hi: nat)
    requires FollowsOn(g, known, lo, hi)
    ensures Ordered([g], known, lo, hi) && Driven([g]) == Drives(g)
  {
    assert [g][..0] == [];
    assert known + Driven([]) == known;
    assert forall w :: w in Drives([g][0]) <==> w in Drives(g);
  }

  lemma OrderedTwo(g: Entry, h: Entry, known: set<Wire>, lo: nat, mid: nat, hi: nat)
    requires FollowsOn(g, known, lo, mid) && FollowsOn(h, known + Drives(g), mid, hi) && lo <= mid <= hi
    ensures Ordered([g, h], known, lo, hi) && Driven([g, h]) == Drives(g) + Drives(h)
  {
    OrderedOne(g, known, lo, mid);
    OrderedOne(h, known + Drives(g), mid, hi);
    OrderedConcat([g], [h], known, lo, mid, hi);
    DrivenConcat([g], [h]);
    assert [g] + [h] == [g, h];
  }

  lemma Follow(a: Lowered, b: Lowered, known: set<Wire>, n: nat)
    requires GoodPiece(a, known, n) && GoodPiece(b, known + Driven(a.gs), a.n)
    ensures GoodPiece(Lowered(a.gs + b.gs, b.w, b.n), known, n)
    ensures Driven(a.gs + b.gs) == Driven(a.gs) + Driven(b.gs)
  {
    OrderedConcat(a.gs, b.gs, known, n, a.n, b.n);
    DrivenConcat(a.gs, b.gs);
    hide Ordered;
  }

  lemma UnaryOrdered(op: UnaryOp, a: Wire, w: nat, n: nat, known: set<Wire>)
    requires BelowNumber(known, n) && Usable(a, known)
    ensures GoodPiece(LowerUnary(op, a, w, n), known, n)
  {
    var r := LowerUnary(op, a, w, n);
    hide Ordered;
    if |r.gs| == 1 {
      OrderedOne(r.gs[0], known, n, r.n);
      assert r.gs == [r.gs[0]];
    } else {
      OrderedTwo(r.gs[0], r.gs[1], known, n, n + 1, r.n);
      assert r.gs == [r.gs[0], r.gs[1]];
    }
  }

  lemma OrReduceOrdered(a: Wire, w: nat, n: nat, known: set<Wire>)
    requires BelowNumber(known, n) && Usable(a, known)
    ensures GoodPiece(OrReduce(a, w, n), known, n)
  {
    if w != 1 {
      hide Ordered;
      OrderedOne(Reduction(ROr, Temp(n), a), known, n, n + 1);
    }
  }

  lemma BinaryOrdered(op: BinaryOp, a: Wire, b: Wire, lw: nat, rw: nat, n: nat, known: set<Wire>)
    requires BelowNumber(known, n) && Usable(a, known) && Usable(b, known)
    ensures GoodPiece(LowerBinary(op, a, b, lw, rw, n), known, n)
  {
    var r := LowerBinary(op, a, b, lw, rw, n);
    if op.LogicalAnd? || op.LogicalOr? {
      LogicalOrdered(op, a, b, lw, rw, n, known);
    } else if |r.gs| == 1 {
      hide Ordered;
      OrderedOne(r.gs[0], known, n, r.n);
      assert r.gs == [r.gs[0]];
    } else {
      hide Ordered;
      OrderedTwo(r.gs[0], r.gs[1], known, n, n + 1, r.n);
      assert r.gs == [r.gs[0], r.gs[1]];
    }
  }

  lemma LogicalOrdered(op: BinaryOp, a: Wire, b: Wire, lw: nat, rw: nat, n: nat, known: set<Wire>)
    requires (op.LogicalAnd? || op.LogicalOr?) && BelowNumber(known, n) && Usable(a, known) && Usable(b, known)
    ensures GoodPiece(LowerBinary(op, a, b, lw, rw, n), known, n)
  {
    var l := OrReduce(a, lw, n);
    var r := OrReduce(b, rw, l.n);
    var both := Lowered(l.gs + r.gs, r.w, r.n);
    var g := Lowered([Gate(if op.LogicalAnd? then And else Or, 1, l.w, r.w, Temp(r.n))], Temp(r.n), r.n + 2);
    assert LowerBinary(op, a, b, lw, rw, n) == Lowered(both.gs + g.gs, g.w, g.n);
    OrReduceOrdered(a, lw, n, known);
    DrivenInRange(l.gs, known, n, l.n);
    OrReduceOrdered(b, rw, l.n, known + Driven(l.gs));
    hide OrReduce, LowerBinary, Ordered;
    Follow(l, r, known, n);
    DrivenInRange(both.gs, known, n, r.n);
    GateOrdered(g, known + Driven(both.gs), r.n);
    hide GoodPiece;
    Follow(both, g, known, n);
  }

  lemma GateOrdered(g: Lowered, known: set<Wire>, n: nat)
    requires BelowNumber(known, n) && |g.gs| == 1 && g.gs[0].Gate? && g.gs[0].y == g.w == Temp(n) && g.n == n + 2
    requires Usable(g.gs[0].a, known) && Usable(g.gs[0].b, known)
    ensures GoodPiece(g, known, n)
  {
    hide Ordered;
    assert g.gs == [g.gs[0]];
    OrderedOne(g.gs[0], known, n, g.n);
  }

  /** Lowering reads only signals and wires it has driven before, and numbers its wires consecutively. */
  lemma {:induction false} LoweringIsOrdered(e: Expr, ctx: Option<nat>, n: nat, syms: Widths, known: set<Wire>)
    requires Declared(e, syms) && BelowNumber(known, n)
    ensures GoodPiece(Lower(e, ctx, n, syms), known, n)
    decreases e
  {
    hide Ordered, LowerUnary, LowerBinary;
    match e
    case Number(_, _) => OrderedOne(Lower(e, ctx, n, syms).gs[0], known, n, n + 1);
    case Identifier(_) => EmptyOrdered(known, n);
    case PartSelect(name, hi, lo) =>
      EmptyOrdered(known, n);
      OrderedOne(Slice(Temp(n), Signal(name), hi, lo), known, n, n + 1);
    case Unary(op, x) =>
      var r := Lower(x, ctx, n, syms);
      LoweringIsOrdered(x, ctx, n, syms, known);
      DrivenInRange(r.gs, known, n, r.n);
      UnaryOrdered(op, r.w, Infer(x, syms), r.n, known + Driven(r.gs));
      Follow(r, LowerUnary(op, r.w, Infer(x, syms), r.n), known, n);
    case Binary(op, x, y) =>
      var lw, rw := Infer(x, syms), Infer(y, syms);
      var l := Lower(x, Some(Max(lw, rw)), n, syms);
      var r := Lower(y, Some(Max(lw, rw)), l.n, syms);
      LoweringIsOrdered(x, Some(Max(lw, rw)), n, syms, known);
      DrivenInRange(l.gs, known, n, l.n);
      LoweringIsOrdered(y, Some(Max(lw, rw)), l.n, syms, known + Driven(l.gs));
      Follow(l, r, known, n);
      DrivenInRange(l.gs + r.gs, known, n, r.n);
      BinaryOrdered(op, l.w, r.w, lw, rw, r.n, known + Driven(l.gs + r.gs));
      Follow(Lowered(l.gs + r.gs, r.w, r.n), LowerBinary(op, l.w, r.w, lw, rw, r.n), known, n);
  }

  lemma EmptyOrdered(known: set<Wire>, n: nat)
    ensures Ordered([], known, n, n) && Driven([]) == {}
  {
  }

  // ---------- modules ----------

  datatype NBAssign = NBAssign(lhs: string, rhs: Expr)
  datatype Arm = Arm(cond: Expr, stmts: seq<NBAssign>)

  /** A clocked if / else-if / else chain; an absent else is an empty one. */
  datatype AlwaysFF = AlwaysFF(clk: string, arms: seq<Arm>, otherwise: seq<NBAssign>)

  datatype Assign = Assign(lhs: string, rhs: Expr)

  datatype Module = Module(assigns: seq<Assign>, ffs: seq<AlwaysFF>)

  /** The signals a block assigns. */
  function Targets(ff: AlwaysFF): set<string> {
    (set i, j | 0 <= i < |ff.arms| && 0 <= j < |ff.arms[i].stmts| :: ff.arms[i].stmts[j].lhs)
    + set j | 0 <= j < |ff.otherwise| :: ff.otherwise[j].lhs
  }

  // ---------- what a block means ----------

  /** A condition holds when some bit of it is set. */
  predicate IsTrue(cond: Expr, env: Signals, syms: Widths)
    requires Declared(cond, syms) && Carries(env, syms)
  {
    AnyBit(Eval(cond, SelfWidth(cond, syms), env, syms))
  }

  /** What an assignment stores into a signal of `w` bits. */
  function Stored(rhs: Expr, w: nat, env: Signals, syms: Widths): (b: Bits)
    requires Declared(rhs, syms) && Carries(env, syms)
    ensures |b| == w
  {
    Fit(Eval(rhs, Max(w, SelfWidth(rhs, syms)), env, syms), w)
  }

  predicate StmtsDeclared(stmts: seq<NBAssign>, syms: Widths) {
    forall i :: 0 <= i < |stmts| ==> stmts[i].lhs in syms && Declared(stmts[i].rhs, syms)
  }

  predicate FFDeclared(ff: AlwaysFF, syms: Widths) {
    && (forall i :: 0 <= i < |ff.arms| ==> Declared(ff.arms[i].cond, syms) && StmtsDeclared(ff.arms[i].stmts, syms))
    && StmtsDeclared(ff.otherwise, syms)
  }

  /** The value a register has after a list of non-blocking assignments: the last one to it counts. */
  function AfterStmts(stmts: seq<NBAssign>, target: string, env: Signals, syms: Widths): Bits
    requires StmtsDeclared(stmts, syms) && Carries(env, syms) && target in syms
    decreases |stmts|
  {
    if stmts == [] then env[target]
    else
      var last := stmts[|stmts| - 1];
      if last.lhs == target then Stored(last.rhs, syms[target], env, syms)
      else AfterStmts(stmts[..|stmts| - 1], target, env, syms)
  }

  /** The value a register takes at the clock edge: the first arm whose condition holds, the else
      branch, or what it had. */
  function NextValue(arms: seq<Arm>, otherwise: seq<NBAssign>, target: string, env: Signals, syms: Widths): Bits
    requires FFDeclared(AlwaysFF("", arms, otherwise), syms) && Carries(env, syms) && target in syms
    decreases |arms|
  {
    if arms == [] then AfterStmts(otherwise, target, env, syms)
    else if IsTrue(arms[0].cond, env, syms) then AfterStmts(arms[0].stmts, target, env, syms)
    else
      assert AlwaysFF("", arms, otherwise).arms == arms && AlwaysFF("", arms[1..], otherwise).arms == arms[1..];
      NextValue(arms[1..], otherwise, target, env, syms)
  }

  // ---------- flattening ----------

  datatype MuxArm = MuxArm(cond: Expr, rhs: Expr)
  datatype MuxChain = MuxChain(target: string, clk: string, arms: seq<MuxArm>, default: Expr)

  /** The right-hand side a list gives to a register: its last assignment, or the register itself. */
  function RhsFor(stmts: seq<NBAssign>, target: string): Expr
    decreases |stmts|
  {
    if stmts == [] then Identifier(target)
    else
      var last := stmts[|stmts| - 1];
      if last.lhs == target then last.rhs else RhsFor(stmts[..|stmts| - 1], target)
  }

  function Flatten(ff: AlwaysFF, target: string): MuxChain {
    MuxChain(target, ff.clk, seq(|ff.arms|, i requires 0 <= i < |ff.arms| => MuxArm(ff.arms[i].cond, RhsFor(ff.arms[i].stmts, target))),
             RhsFor(ff.otherwise, target))
  }

  /** The search of the flattening for a right-hand side, as the loop it is. */
  method FindRhs(stmts: seq<NBAssign>, target: string) returns (rhs: Expr)
    ensures rhs == RhsFor(stmts, target)
  {
    rhs := Identifier(target);
    for i := 0 to |stmts|
      invariant rhs == RhsFor(stmts[..i], target)
    {
      assert stmts[..i + 1][..i] == stmts[..i];
      if stmts[i].lhs == target { rhs := stmts[i].rhs; }
    }
    assert stmts[..|stmts|] == stmts;
  }

  lemma {:induction false} RhsMeans(stmts: seq<NBAssign>, target: string, env: Signals, syms: Widths)
    requires StmtsDeclared(stmts, syms) && Carries(env, syms) && target in syms
    ensures Declared(RhsFor(stmts, target), syms)
    ensures Stored(RhsFor(stmts, target), syms[target], env, syms) == AfterStmts(stmts, target, env, syms)
    decreases |stmts|
  {
    if stmts == [] {
      FitFit(env[target], syms[target], syms[target]);
    } else if stmts[|stmts| - 1].lhs != target {
      RhsMeans(stmts[..|stmts| - 1], target, env, syms);
    }
  }
}
