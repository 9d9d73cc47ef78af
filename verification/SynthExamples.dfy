/** Where the width rules matter: an expression whose carry shows, and the counter that comes with the
    synthesiser, to which the main result applies. */
module SynthExamples {
  import opened Counting
  import opened SynthBits
  import opened SynthLowering
  import opened SynthModule
  import opened SynthRuns
  import opened Wrappers

  // ---------- a carry that shows ----------

  /** x + c compared with d, for literals c and d that have no width. */
  function Sum(c: nat): Expr { Binary(Plus, Identifier("x"), Number(None, c)) }

  function Test(op: BinaryOp, c: nat, d: nat): Expr { Binary(op, Sum(c), Number(None, d)) }

  /** The signal has `w` bits, and both literals fit it. */
  predicate HasX(op: BinaryOp, w: nat, c: nat, d: nat, syms: Widths) {
    && Compares(op) && 0 < w < UNSIZED && "x" in syms && syms["x"] == w && Declared(Test(op, c, d), syms)
    && c < Pow2(w) && d < Pow2(w)
  }

  predicate CompareNats(op: BinaryOp, m: nat, n: nat) {
    match op
    case Equal => m == n
    case NotEqual => m != n
    case Lt => m < n
    case Gt => m > n
    case Le => m <= n
    case Ge => m >= n
    case _ => false
  }

  lemma CompareBitsMeans(op: BinaryOp, a: Bits, b: Bits)
    requires |a| == |b|
    ensures CompareBits(op, a, b) == CompareNats(op, ToNat(a), ToNat(b))
  {
    LessIsLess(a, b);
    LessIsLess(b, a);
    SameNat(a, b);
    hide Less, ToNat;
  }

  /** A sum in `w` bits loses its carry. */
  function Wrap(s: nat, w: nat): nat { if s >= Pow2(w) then s - Pow2(w) else s }

  lemma SumWraps(x: Bits, c: nat, w: nat)
    requires |x| <= w && c < Pow2(w)
    ensures ToNat(Add(Fit(x, w), OfNat(c, w), false)) == Wrap(ToNat(x) + c, w)
  {
    hide Add, ToNat, Pow2, OfNat, Fit;
    var a, b := Fit(x, w), OfNat(c, w);
    var sum := Add(a, b, false);
    FitValue(x, w);
    OfNatValue(c, w);
    AddIsAddition(a, b, false);
    ToNatBound(sum);
    ToNatBound(a);
    var p := Pow2(w);
    var carry: nat :| carry <= 1 && ToNat(a) + ToNat(b) + (if false then 1 else 0) == ToNat(sum) + carry * p;
    assert carry == 0 || carry == 1;
  }

  /** The language adds in 32 bits, where the sum does not carry out. */
  lemma LanguageKeepsCarry(op: BinaryOp, w: nat, c: nat, d: nat, env: Signals, syms: Widths)
    requires HasX(op, w, c, d, syms) && Carries(env, syms)
    ensures Eval(Test(op, c, d), 1, env, syms) == [CompareNats(op, ToNat(env["x"]) + c, d)]
  {
    hide Add, OfNat, ToNat, CompareBits, CompareNats, Pow2, Fit;
    var sum := Add(Fit(env["x"], UNSIZED), OfNat(c, UNSIZED), false);
    TestInLanguage(op, w, c, d, env, syms);
    NoCarry(env["x"], c, d, w);
    SumWraps(env["x"], c, UNSIZED);
    OfNatValue(d, UNSIZED);
    CompareBitsMeans(op, sum, OfNat(d, UNSIZED));
  }

  lemma TestInLanguage(op: BinaryOp, w: nat, c: nat, d: nat, env: Signals, syms: Widths)
    requires HasX(op, w, c, d, syms) && Carries(env, syms)
    ensures var sum := Add(Fit(env["x"], UNSIZED), OfNat(c, UNSIZED), false);
      Eval(Test(op, c, d), 1, env, syms) == [CompareBits(op, sum, OfNat(d, UNSIZED))]
  {
    hide Add, OfNat, CompareBits, Pow2;
    var sum := Add(Fit(env["x"], UNSIZED), OfNat(c, UNSIZED), false);
    assert Eval(Sum(c), UNSIZED, env, syms) == sum;
    var bit := CompareBits(op, sum, OfNat(d, UNSIZED));
    assert Fit([bit], 1) == [bit];
  }

  lemma NoCarry(x: Bits, c: nat, d: nat, w: nat)
    requires |x| == w < UNSIZED && c < Pow2(w) && d < Pow2(w)
    ensures ToNat(x) + c < Pow2(UNSIZED) && d < Pow2(UNSIZED)
  {
    ToNatBound(x);
    assert Pow2(w + 1) == 2 * Pow2(w);
    Pow2Order(w + 1, UNSIZED);
    hide Pow2, ToNat;
  }

  /** The netlist adds in the width of the signal. */
  lemma NetlistDropsCarry(op: BinaryOp, w: nat, c: nat, d: nat, n: nat, v: Valuation, env: Signals, syms: Widths)
    requires HasX(op, w, c, d, syms) && Carries(env, syms)
    requires Shows(v, env) && Satisfies(v, Lower(Test(op, c, d), None, n, syms).gs)
    ensures v(Lower(Test(op, c, d), None, n, syms).w) == [CompareNats(op, Wrap(ToNat(env["x"]) + c, w), d)]
  {
    hide OfNat, ToNat, CompareBits, CompareNats, Add, Pow2;
    SumEntries(w, c, n, syms);
    var l, r := Lower(Sum(c), Some(w), n, syms), Const(Temp(n + 4), w, d);
    var out := LowerBinary(op, l.w, Temp(n + 4), w, 0, n + 5);
    assert Lower(Test(op, c, d), None, n, syms) == Lowered(l.gs + [r] + out.gs, out.w, out.n);
    SatisfiesParts(v, l.gs + [r], out.gs);
    SatisfiesParts(v, l.gs, [r]);
    assert Holds(v, l.gs[0]) && Holds(v, l.gs[1]) && Holds(v, [r][0]);
    CellBits(op, l.w, Temp(n + 4), w, 0, n + 5, v);
    TestValue(op, env["x"], c, d, w);
    hide Satisfies, Lower, LowerBinary, Fit;
  }

  lemma SumEntries(w: nat, c: nat, n: nat, syms: Widths)
    requires "x" in syms && syms["x"] == w
    ensures Lower(Sum(c), Some(w), n, syms)
            == Lowered([Const(Temp(n), w, c), AddCell(w, Signal("x"), Temp(n), Temp(n + 2), Temp(n + 1))], Temp(n + 2), n + 4)
  {
  }

  /** What the comparison cell is given at its ports. */
  lemma TestValue(op: BinaryOp, x: Bits, c: nat, d: nat, w: nat)
    requires |x| == w && c < Pow2(w) && d < Pow2(w)
    ensures var sum := Add(Fit(x, w), Fit(OfNat(c, w), w), false);
            CompareBits(op, Fit(sum, w), Fit(OfNat(d, w), w)) == CompareNats(op, Wrap(ToNat(x) + c, w), d)
  {
    SumWraps(x, c, w);
    OfNatValue(d, w);
    hide Add, OfNat, ToNat, CompareBits, CompareNats;
    var sum := Add(Fit(x, w), OfNat(c, w), false);
    assert Fit(OfNat(c, w), w) == OfNat(c, w) && Fit(sum, w) == sum && Fit(OfNat(d, w), w) == OfNat(d, w);
    CompareBitsMeans(op, sum, OfNat(d, w));
  }

  /** So the two agree exactly when losing the carry does not change the comparison. In particular an equality
      test goes wrong for one value of the signal, and a less-than test for `d` of them, as far as these exist. */
  lemma AgreeUnlessCarry(op: BinaryOp, w: nat, c: nat, d: nat, n: nat, v: Valuation, env: Signals, syms: Widths)
    requires HasX(op, w, c, d, syms) && Carries(env, syms)
    requires Shows(v, env) && Satisfies(v, Lower(Test(op, c, d), None, n, syms).gs)
    ensures var s := ToNat(env["x"]) + c;
      var agree := v(Lower(Test(op, c, d), None, n, syms).w) == Eval(Test(op, c, d), 1, env, syms);
      && (agree <==> CompareNats(op, Wrap(s, w), d) == CompareNats(op, s, d))
      && (op.Equal? || op.NotEqual? ==> (agree <==> s != Pow2(w) + d))
      && (op.Lt? || op.Ge? ==> (agree <==> !(Pow2(w) <= s < Pow2(w) + d)))
      && (op.Le? || op.Gt? ==> (agree <==> !(Pow2(w) <= s <= Pow2(w) + d)))
    ensures !WellWidthed(Test(op, c, d), None, syms)
  {
    hide Satisfies, Lower, Eval, ToNat, Pow2, WellWidthed;
    LanguageKeepsCarry(op, w, c, d, env, syms);
    NetlistDropsCarry(op, w, c, d, n, v, env, syms);
    TestIsIllWidthed(op, w, c, d, syms);
  }

  lemma TestIsIllWidthed(op: BinaryOp, w: nat, c: nat, d: nat, syms: Widths)
    requires HasX(op, w, c, d, syms)
    ensures !WellWidthed(Test(op, c, d), None, syms)
  {
    hide Pow2;
  }

  lemma {:induction false} FitValue(x: Bits, w: nat)
    requires |x| <= w
    ensures ToNat(Fit(x, w)) == ToNat(x)
    decreases w
  {
    if w > 0 {
      if x == [] {
        FitValue(x, w - 1);
        assert Fit(x, w)[1..] == Fit(x, w - 1);
      } else {
        FitValue(x[1..], w - 1);
        assert Fit(x, w)[1..] == Fit(x[1..], w - 1);
      }
    }
  }

  // ---------- the counter ----------

  const COUNTER_WIDTHS: Widths := map["clk_i" := 1, "rst_i" := 1, "interrupt_val_i" := 10, "interrupt_clr_i" := 1,
                                      "timerVal_o" := 10, "interrupt_o" := 1, "timerVal" := 10, "interrupt_bit" := 1, "conditionMet" := 1]

  const RESET: Expr := Unary(LogicalNot, Identifier("rst_i"))
  const STEP: Expr := Binary(Plus, Identifier("timerVal"), Number(None, 1))
  const MATCH: Expr := Binary(Equal, Identifier("timerVal"), Identifier("interrupt_val_i"))

  const ASSIGNS: seq<Assign> :=
    [Assign("timerVal_o", Identifier("timerVal")), Assign("interrupt_o", Identifier("interrupt_bit")), Assign("conditionMet", MATCH)]

  const TIMER: AlwaysFF :=
    AlwaysFF("clk_i", [Arm(RESET, [NBAssign("timerVal", Number(None, 0))])], [NBAssign("timerVal", STEP)])

  const INTERRUPT: AlwaysFF :=
    AlwaysFF("clk_i", [Arm(RESET, [NBAssign("interrupt_bit", Number(None, 0))]),
                       Arm(Identifier("conditionMet"), [NBAssign("interrupt_bit", Number(None, 1))]),
                       Arm(Identifier("interrupt_clr_i"), [NBAssign("interrupt_bit", Number(None, 0))])], [])

  const COUNTER: Module := Module(ASSIGNS, [TIMER, INTERRUPT])
  const COUNTER_TARGETS: seq<string> := ["timerVal", "interrupt_bit"]

  lemma OneAssignment(t: string, e: Expr)
    ensures RhsFor([NBAssign(t, e)], t) == e
  {
  }

  /** The conditions and right-hand sides of the counter are well-widthed. */
  lemma ConditionsAreBits()
    ensures Declared(RESET, COUNTER_WIDTHS) && OneBit(RESET, COUNTER_WIDTHS)
    ensures OneBit(Identifier("conditionMet"), COUNTER_WIDTHS) && OneBit(Identifier("interrupt_clr_i"), COUNTER_WIDTHS)
  {
  }

  lemma StepFills()
    ensures Declared(STEP, COUNTER_WIDTHS) && FillsTarget(STEP, Some(10), 10, COUNTER_WIDTHS)
  {
    assert Pow2(10) == 1024;
    assert WellWidthed(Identifier("timerVal"), Some(10), COUNTER_WIDTHS) && WellWidthed(Number(None, 1), Some(10), COUNTER_WIDTHS);
  }

  lemma LiteralFills(k: nat, w: nat)
    requires k < 2 && 0 < w < UNSIZED
    ensures FillsTarget(Number(None, k), Some(w), w, COUNTER_WIDTHS)
  {
    Pow2Order(1, w);
  }

  lemma TimerIsOk()
    ensures FFDeclared(TIMER, COUNTER_WIDTHS) && Targets(TIMER) == {"timerVal"}
    ensures ChainDeclared(Flatten(TIMER, "timerVal"), COUNTER_WIDTHS) && ChainOk(Flatten(TIMER, "timerVal"), COUNTER_WIDTHS)
  {
    hide FillsTarget, OneBit, Targets, Flatten, FFDeclared;
    TimerDeclared();
    ConditionsAreBits();
    StepFills();
    LiteralFills(0, 10);
    TimerArms();
    TimerTargets();
  }

  lemma TimerDeclared()
    ensures FFDeclared(TIMER, COUNTER_WIDTHS)
  {
  }

  lemma TimerTargets()
    ensures Targets(TIMER) == {"timerVal"}
  {
    assert TIMER.arms[0].stmts[0].lhs == "timerVal";
  }

  lemma TimerArms()
    ensures var mc := Flatten(TIMER, "timerVal");
            mc.target == "timerVal" && mc.default == STEP && |mc.arms| == 1 && mc.arms[0] == MuxArm(RESET, Number(None, 0))
  {
    OneAssignment("timerVal", STEP);
    OneAssignment("timerVal", Number(None, 0));
    hide RhsFor;
  }

  lemma InterruptIsOk()
    ensures FFDeclared(INTERRUPT, COUNTER_WIDTHS) && Targets(INTERRUPT) == {"interrupt_bit"}
    ensures ChainDeclared(Flatten(INTERRUPT, "interrupt_bit"), COUNTER_WIDTHS)
    ensures ChainOk(Flatten(INTERRUPT, "interrupt_bit"), COUNTER_WIDTHS)
  {
    assert FillsTarget(Identifier("interrupt_bit"), Some(1), 1, COUNTER_WIDTHS);
    hide FillsTarget, OneBit, Targets, Flatten, FFDeclared;
    InterruptDeclared();
    ConditionsAreBits();
    InterruptTargets();
    InterruptArms();
    LiteralFills(0, 1);
    LiteralFills(1, 1);
  }

  lemma InterruptDeclared()
    ensures FFDeclared(INTERRUPT, COUNTER_WIDTHS)
  {
  }

  lemma InterruptTargets()
    ensures Targets(INTERRUPT) == {"interrupt_bit"}
  {
    assert INTERRUPT.arms[0].stmts[0].lhs == "interrupt_bit";
  }

  lemma InterruptArms()
    ensures var mc := Flatten(INTERRUPT, "interrupt_bit");
            && mc.target == "interrupt_bit" && mc.default == Identifier("interrupt_bit") && |mc.arms| == 3
            && mc.arms[0] == MuxArm(RESET, Number(None, 0))
            && mc.arms[1] == MuxArm(Identifier("conditionMet"), Number(None, 1))
            && mc.arms[2] == MuxArm(Identifier("interrupt_clr_i"), Number(None, 0))
  {
    OneAssignment("interrupt_bit", Number(None, 0));
    OneAssignment("interrupt_bit", Number(None, 1));
    assert RhsFor([], "interrupt_bit") == Identifier("interrupt_bit");
    hide RhsFor;
  }

  lemma AssignsAreOk(i: nat)
    requires i < |ASSIGNS|
    ensures AssignDeclared(ASSIGNS[i], COUNTER_WIDTHS) && AssignOk(ASSIGNS[i], COUNTER_WIDTHS)
  {
    if i == 2 {
      assert Declared(MATCH, COUNTER_WIDTHS);
      assert WellWidthed(Identifier("timerVal"), Some(10), COUNTER_WIDTHS) && WellWidthed(Identifier("interrupt_val_i"), Some(10), COUNTER_WIDTHS);
    }
  }

  /** The counter is within what the synthesiser gets right: over any number of cycles its netlist runs
      as its source says. */
  lemma CounterRunsAgree(edges: seq<set<string>>, envs: seq<Signals>)
    requires |edges| == |envs| - 1 && forall k :: 0 <= k < |envs| ==> Carries(envs[k], COUNTER_WIDTHS)
    ensures BlocksDeclared(COUNTER.ffs, COUNTER_TARGETS, COUNTER_WIDTHS)
    ensures ModuleOk(COUNTER.assigns, Chains(COUNTER.ffs, COUNTER_TARGETS), COUNTER_WIDTHS)
    ensures ModuleRun(COUNTER, COUNTER_TARGETS, edges, envs, COUNTER_WIDTHS)
            <==> exists vs :: NetRun(Netlist(COUNTER.assigns, Chains(COUNTER.ffs, COUNTER_TARGETS), COUNTER_WIDTHS), edges, vs, envs)
  {
    TimerIsOk();
    InterruptIsOk();
    hide FFDeclared, Targets, ChainDeclared, ChainOk, AssignDeclared, AssignOk, Flatten, ModuleRun, NetRun, Netlist;
    forall i | 0 <= i < |ASSIGNS| ensures AssignDeclared(ASSIGNS[i], COUNTER_WIDTHS) && AssignOk(ASSIGNS[i], COUNTER_WIDTHS) {
      AssignsAreOk(i);
    }
    ModuleRunsAgree(COUNTER, COUNTER_TARGETS, edges, envs, COUNTER_WIDTHS);
  }
}
