/** Gates for sums of products. A netlist is a set of gate equations; a valuation of the wires
    satisfies it when every gate's output is its function of the gate's inputs. */
module SopNetlist {
  import opened Counting

  /** The part of an output's logic a wire belongs to; the source spells it in the wire's name. */
  datatype UnitName = AndUnit(o: nat, t: nat) | OrUnit(o: nat)

  datatype Wire =
    | Input(i: nat)
    | Inverted(i: nat)
    | Output(o: nat)
    | TermWire(o: nat, t: nat)
    | Mid(u: UnitName)
    | Layer(u: UnitName, layer: nat, chunk: nat)

  datatype Macro = AND | OR | NAND | NOR

  datatype Gate =
    | Inv(out: Wire, input: Wire)
    | Cell(macro: Macro, out: Wire, ins: seq<Wire>)
    | Tie(out: Wire, value: bool)

  const MAX_GATE_FANIN: nat := 12
  const MAX_NAND_FANIN: nat := 4

  type Valuation = Wire -> bool

  predicate AllOf(v: Valuation, ws: seq<Wire>) { forall i :: 0 <= i < |ws| ==> v(ws[i]) }
  predicate AnyOf(v: Valuation, ws: seq<Wire>) { exists i :: 0 <= i < |ws| && v(ws[i]) }

  function Apply(m: Macro, v: Valuation, ws: seq<Wire>): bool {
    match m
    case AND => AllOf(v, ws)
    case OR => AnyOf(v, ws)
    case NAND => !AllOf(v, ws)
    case NOR => !AnyOf(v, ws)
  }

  predicate GateHolds(v: Valuation, g: Gate) {
    match g
    case Inv(out, input) => v(out) == !v(input)
    case Cell(m, out, ins) => v(out) == Apply(m, v, ins)
    case Tie(out, value) => v(out) == value
  }

  predicate Satisfies(v: Valuation, gs: seq<Gate>) { forall i :: 0 <= i < |gs| ==> GateHolds(v, gs[i]) }

  /** The macro library has AND and OR cells of 2 to 12 inputs, NAND and NOR cells of 2 to 4. */
  predicate InLibrary(g: Gate) { FanInFits(g) && !OneInput(g) }

  predicate FanInFits(g: Gate) {
    g.Cell? ==> 1 <= |g.ins| <= if g.macro.AND? || g.macro.OR? then MAX_GATE_FANIN else MAX_NAND_FANIN
  }

  /** A cell with a single input, which the library does not have. */
  predicate OneInput(g: Gate) { g.Cell? && |g.ins| == 1 }

  predicate AllFit(gs: seq<Gate>) { forall i :: 0 <= i < |gs| ==> FanInFits(gs[i]) }

  predicate AnyOneInput(gs: seq<Gate>) { exists i :: 0 <= i < |gs| && OneInput(gs[i]) }

  lemma LibraryConcat(a: seq<Gate>, b: seq<Gate>)
    ensures AllFit(a + b) <==> AllFit(a) && AllFit(b)
    ensures AnyOneInput(a + b) <==> AnyOneInput(a) || AnyOneInput(b)
  {
    assert forall i :: 0 <= i < |a| ==> (a + b)[i] == a[i];
    assert forall i :: 0 <= i < |b| ==> (a + b)[|a| + i] == b[i];
  }

  lemma LibraryAdd(gs: seq<Gate>, g: Gate)
    ensures AllFit(gs + [g]) <==> AllFit(gs) && FanInFits(g)
    ensures AnyOneInput(gs + [g]) <==> AnyOneInput(gs) || OneInput(g)
  {
    LibraryConcat(gs, [g]);
    assert [g][0] == g;
  }

  lemma OneWire(m: Macro, v: Valuation, w: Wire)
    requires m.AND? || m.OR?
    ensures Apply(m, v, [w]) == v(w)
  {
    assert [w][0] == w;
  }

  // ---------- order ----------

  function Reads(g: Gate): set<Wire> {
    match g
    case Inv(_, input) => {input}
    case Cell(_, _, ins) => set w | w in ins
    case Tie(_, _) => {}
  }

  function Driven(gs: seq<Gate>): set<Wire> { set g | g in gs :: g.out }

  /** Every gate reads wires that are known or driven by an earlier gate, and drives a new one. */
  predicate Ordered(gs: seq<Gate>, known: set<Wire>)
    decreases |gs|
  {
    if gs == [] then true
    else
      var before, g := gs[..|gs| - 1], gs[|gs| - 1];
      Ordered(before, known) && Reads(g) <= known + Driven(before) && g.out !in known + Driven(before)
  }

  lemma OrderedAdd(gs: seq<Gate>, known: set<Wire>, g: Gate)
    requires Ordered(gs, known) && Reads(g) <= known + Driven(gs) && g.out !in known + Driven(gs)
    ensures Ordered(gs + [g], known) && Driven(gs + [g]) == Driven(gs) + {g.out}
  {
    assert (gs + [g])[..|gs + [g]| - 1] == gs;
    DrivenConcat(gs, [g]);
    assert Driven([g]) == {g.out};
  }

  lemma DrivenConcat(a: seq<Gate>, b: seq<Gate>)
    ensures Driven(a + b) == Driven(a) + Driven(b)
  {
  }

  lemma {:induction false} OrderedConcat(a: seq<Gate>, b: seq<Gate>, known: set<Wire>)
    requires Ordered(a, known) && Ordered(b, known + Driven(a))
    ensures Ordered(a + b, known) && Driven(a + b) == Driven(a) + Driven(b)
    decreases |b|
  {
    hide Reads, Driven;
    DrivenConcat(a, b);
    if b == [] {
      assert a + b == a;
    } else {
      var before, g := b[..|b| - 1], b[|b| - 1];
      OrderedConcat(a, before, known);
      assert a + b == (a + before) + [g];
      hide Ordered;
      OrderedAdd(a + before, known, g);
    }
  }

  lemma {:induction false} OrderedMore(gs: seq<Gate>, known: set<Wire>, more: set<Wire>)
    requires Ordered(gs, known) && known <= more && Driven(gs) !! more
    ensures Ordered(gs, more)
    decreases |gs|
  {
    if gs != [] {
      var before, g := gs[..|gs| - 1], gs[|gs| - 1];
      assert g in gs && forall x :: x in before ==> x in gs;
      OrderedMore(before, known, more);
    }
  }

  function GateValue(v: Valuation, g: Gate): bool {
    match g
    case Inv(_, input) => !v(input)
    case Cell(m, _, ins) => Apply(m, v, ins)
    case Tie(_, value) => value
  }

  /** The circuit's valuation for given values of the wires it does not drive. */
  function Settle(v: Valuation, gs: seq<Gate>): Valuation
    decreases |gs|
  {
    if gs == [] then v
    else
      var u, g := Settle(v, gs[..|gs| - 1]), gs[|gs| - 1];
      var value := GateValue(u, g);
      (w: Wire) => if w == g.out then value else u(w)
  }

  /** An ordered netlist always settles: its equations have a solution for any input values. */
  lemma {:induction false} OrderedSettles(v: Valuation, gs: seq<Gate>, known: set<Wire>)
    requires Ordered(gs, known)
    ensures Satisfies(Settle(v, gs), gs)
    ensures forall w :: w !in Driven(gs) ==> Settle(v, gs)(w) == v(w)
    decreases |gs|
  {
    if gs != [] {
      var before, g := gs[..|gs| - 1], gs[|gs| - 1];
      OrderedSettles(v, before, known);
      assert gs == before + [g];
      DrivenConcat(before, [g]);
      assert g in gs;
      var u, t := Settle(v, before), Settle(v, gs);
      ReadsKnown(before, known);
      forall i | 0 <= i < |before| ensures GateHolds(t, before[i]) {
        assert before[i] in before && GateHolds(u, before[i]);
        SameReads(u, t, before[i]);
      }
      SameReads(u, t, g);
    }
  }

  lemma {:induction false} ReadsKnown(gs: seq<Gate>, known: set<Wire>)
    requires Ordered(gs, known)
    ensures forall g :: g in gs ==> Reads(g) <= known + Driven(gs)
    decreases |gs|
  {
    if gs != [] {
      var before, g := gs[..|gs| - 1], gs[|gs| - 1];
      ReadsKnown(before, known);
      assert gs == before + [g];
      DrivenConcat(before, [g]);
    }
  }

  lemma SameReads(u: Valuation, t: Valuation, g: Gate)
    requires forall w :: w in Reads(g) ==> u(w) == t(w)
    ensures GateValue(u, g) == GateValue(t, g)
  {
    if g.Cell? { assert forall i :: 0 <= i < |g.ins| ==> g.ins[i] in Reads(g); }
  }

  // ---------- gate trees ----------

  lemma ConcatReduces(m: Macro, v: Valuation, a: seq<Wire>, b: seq<Wire>)
    requires m.AND? || m.OR?
    ensures Apply(m, v, a + b) == if m.AND? then Apply(m, v, a) && Apply(m, v, b) else Apply(m, v, a) || Apply(m, v, b)
  {
    if m.AND? {
      if AllOf(v, a + b) {
        forall i | 0 <= i < |a| ensures v(a[i]) { assert (a + b)[i] == a[i]; }
        forall i | 0 <= i < |b| ensures v(b[i]) { assert (a + b)[|a| + i] == b[i]; }
      }
    } else {
      if AnyOf(v, a) { var i :| 0 <= i < |a| && v(a[i]); assert (a + b)[i] == a[i]; }
      if AnyOf(v, b) { var i :| 0 <= i < |b| && v(b[i]); assert (a + b)[|a| + i] == b[i]; }
    }
  }

  predicate OfUnit(w: Wire, u: UnitName) { (w.Layer? || w.Mid?) && w.u == u }

  /** A unit can be built: its inputs are known, its output and inner wires are new. */
  ghost predicate Room(u: UnitName, out: Wire, ins: seq<Wire>, known: set<Wire>) {
    && (forall i :: 0 <= i < |ins| ==> ins[i] in known)
    && out !in known && !OfUnit(out, u)
    && forall w :: OfUnit(w, u) ==> w !in known
  }

  /** What a finished unit is: library cells, in order, driving its output and inner wires only. */
  ghost predicate Built(gs: seq<Gate>, u: UnitName, out: Wire, known: set<Wire>) {
    && AllFit(gs) && Ordered(gs, known)
    && out in Driven(gs) && forall w :: w in Driven(gs) ==> w == out || OfUnit(w, u)
  }

  ghost predicate LayerInv(gates: seq<Gate>, u: UnitName, known: set<Wire>, layers: nat, chunks: nat) {
    && AllFit(gates) && Ordered(gates, known)
    && forall w :: w in Driven(gates) ==> w.Layer? && w.u == u && (w.layer < layers || (w.layer == layers && w.chunk < chunks))
  }

  lemma AddLayerGate(gates: seq<Gate>, u: UnitName, known: set<Wire>, layers: nat, chunks: nat, g: Gate)
    requires LayerInv(gates, u, known, layers, chunks) && FanInFits(g)
    requires g.out == Layer(u, layers, chunks) && g.out !in known && Reads(g) <= known + Driven(gates)
    ensures LayerInv(gates + [g], u, known, layers, chunks + 1) && Driven(gates + [g]) == Driven(gates) + {g.out}
    ensures AnyOneInput(gates + [g]) <==> AnyOneInput(gates) || OneInput(g)
  {
    LibraryAdd(gates, g);
    OrderedAdd(gates, known, g);
  }

  lemma AddCell(v: Valuation, gates: seq<Gate>, g: Gate)
    ensures Satisfies(v, gates + [g]) <==> Satisfies(v, gates) && GateHolds(v, g)
  {
    assert forall i :: 0 <= i < |gates| ==> (gates + [g])[i] == gates[i];
    assert (gates + [g])[|gates|] == g;
  }

  ghost predicate Reduces(m: Macro, gates: seq<Gate>, small: seq<Wire>, big: seq<Wire>) {
    forall v: Valuation :: Satisfies(v, gates) ==> Apply(m, v, small) == Apply(m, v, big)
  }

  lemma ExtendReduction(m: Macro, gates: seq<Gate>, more: seq<Gate>, small: seq<Wire>, big: seq<Wire>, w: Wire, chunk: seq<Wire>)
    requires (m.AND? || m.OR?) && Reduces(m, gates, small, big)
    requires forall v: Valuation :: Satisfies(v, more) ==> Satisfies(v, gates) && v(w) == Apply(m, v, chunk)
    ensures Reduces(m, more, small + [w], big + chunk)
  {
    forall v: Valuation | Satisfies(v, more) ensures Apply(m, v, small + [w]) == Apply(m, v, big + chunk) {
      ConcatReduces(m, v, small, [w]);
      ConcatReduces(m, v, big, chunk);
      OneWire(m, v, w);
    }
  }

  function CeilDiv(n: nat): nat { (n + MAX_GATE_FANIN - 1) / MAX_GATE_FANIN }

  /** Some layer of a tree over `n` wires ends in a chunk of a single wire. */
  predicate HasLoneChunk(n: nat)
    decreases n
  {
    n > MAX_GATE_FANIN && (n % MAX_GATE_FANIN == 1 || HasLoneChunk(CeilDiv(n)))
  }

  function Min(a: nat, b: nat): nat { if a <= b then a else b }

  /** One chunk of a layer becomes a cell, or, with `forward` and a single wire, that wire. */
  method ReduceChunk(forward: bool, m: Macro, u: UnitName, layerId: nat, chunkId: nat, chunk: seq<Wire>, before: seq<Gate>, ghost known: set<Wire>)
    returns (gates: seq<Gate>, w: Wire)
    requires (m.AND? || m.OR?) && 1 <= |chunk| <= MAX_GATE_FANIN
    requires LayerInv(before, u, known, layerId, chunkId)
    requires forall i :: 0 <= i < |chunk| ==> chunk[i] in known + Driven(before)
    requires forall w :: OfUnit(w, u) ==> w !in known
    ensures LayerInv(gates, u, known, layerId, chunkId + 1) && Driven(before) <= Driven(gates) && w in known + Driven(gates)
    ensures AnyOneInput(gates) <==> AnyOneInput(before) || (!forward && |chunk| == 1)
    ensures forall v: Valuation :: Satisfies(v, gates) ==> Satisfies(v, before) && v(w) == Apply(m, v, chunk)
  {
    hide Apply, GateHolds, Ordered, AnyOneInput;
    if |chunk| == 1 && forward {
      gates, w := before, chunk[0];
    } else {
      w := Layer(u, layerId, chunkId);
      var g := Cell(m, w, chunk);
      AddLayerGate(before, u, known, layerId, chunkId, g);
      gates := before + [g];
    }
    forall v: Valuation | Satisfies(v, gates) ensures Satisfies(v, before) && v(w) == Apply(m, v, chunk) {
      ChunkValue(m, v, before, gates, w, chunk);
    }
  }

  /** One layer of the tree: chunks of twelve, each through a cell. With `forward` a last chunk of a
      single wire goes to the next layer without a gate; the other copy of this code gives it one. */
  method ReduceLayer(forward: bool, m: Macro, u: UnitName, layer: seq<Wire>, layerId: nat, sofar: seq<Gate>, ghost known: set<Wire>)
    returns (gates: seq<Gate>, nextLayer: seq<Wire>)
    requires (m.AND? || m.OR?) && |layer| > MAX_GATE_FANIN
    requires LayerInv(sofar, u, known, layerId, 0)
    requires forall i :: 0 <= i < |layer| ==> layer[i] in known + Driven(sofar)
    requires forall w :: OfUnit(w, u) ==> w !in known
    ensures LayerInv(gates, u, known, layerId + 1, 0)
    ensures forall i :: 0 <= i < |nextLayer| ==> nextLayer[i] in known + Driven(gates)
    ensures 2 <= |nextLayer| < |layer|
    ensures |nextLayer| == CeilDiv(|layer|)
    ensures AnyOneInput(gates) <==> AnyOneInput(sofar) || (!forward && |layer| % MAX_GATE_FANIN == 1)
    ensures Reduces(m, gates, nextLayer, layer)
    ensures forall v: Valuation :: Satisfies(v, gates) ==> Satisfies(v, sofar)
  {
    hide Apply, GateHolds, Ordered, AnyOneInput, Satisfies, Driven;
    gates, nextLayer := sofar, [];
    var chunkId, i := 0, 0;
    ghost var done := 0;
    while i < |layer|
      invariant i == MAX_GATE_FANIN * chunkId && done == Min(i, |layer|)
      invariant |nextLayer| == chunkId && (chunkId > 0 ==> MAX_GATE_FANIN * (chunkId - 1) < |layer|)
      invariant LayerInv(gates, u, known, layerId, chunkId) && Driven(sofar) <= Driven(gates)
      invariant forall i :: 0 <= i < |nextLayer| ==> nextLayer[i] in known + Driven(gates)
      invariant Reduces(m, gates, nextLayer, layer[..done])
      invariant forall v: Valuation :: Satisfies(v, gates) ==> Satisfies(v, sofar)
      invariant AnyOneInput(gates) <==> AnyOneInput(sofar) || (!forward && i > |layer| && |layer| % MAX_GATE_FANIN == 1)
      decreases |layer| - i
    {
      var chunk := layer[i..Min(i + MAX_GATE_FANIN, |layer|)];
      if i + MAX_GATE_FANIN > |layer| { Remainder(chunkId, |layer| - i, MAX_GATE_FANIN); }
      var more, w := ReduceChunk(forward, m, u, layerId, chunkId, chunk, gates, known);
      ExtendReduction(m, gates, more, nextLayer, layer[..done], w, chunk);
      gates, nextLayer := more, nextLayer + [w];
      i := i + MAX_GATE_FANIN;
      chunkId := chunkId + 1;
      assert layer[..Min(i, |layer|)] == layer[..done] + chunk;
      done := Min(i, |layer|);
    }
    assert layer[..done] == layer;
  }

  lemma ChunkValue(m: Macro, v: Valuation, before: seq<Gate>, gates: seq<Gate>, w: Wire, chunk: seq<Wire>)
    requires m.AND? || m.OR?
    requires (gates == before && chunk == [w]) || gates == before + [Cell(m, w, chunk)]
    requires Satisfies(v, gates)
    ensures Satisfies(v, before) && v(w) == Apply(m, v, chunk)
  {
    if gates == before && chunk == [w] {
      OneWire(m, v, w);
    } else {
      AddCell(v, before, Cell(m, w, chunk));
    }
  }

  /** A balanced tree of AND or OR cells over any number of inputs. Only the copy that does not
      forward single wires ever asks for a one-input cell, and exactly when some layer has one. */
  method ReduceTree(forward: bool, m: Macro, u: UnitName, out: Wire, ins: seq<Wire>, ghost known: set<Wire>)
    returns (gates: seq<Gate>)
    requires (m.AND? || m.OR?) && |ins| >= 2 && Room(u, out, ins, known)
    ensures Built(gates, u, out, known)
    ensures AnyOneInput(gates) <==> !forward && HasLoneChunk(|ins|)
    ensures forall v: Valuation :: Satisfies(v, gates) ==> v(out) == Apply(m, v, ins)
  {
    hide Apply, GateHolds, Ordered, AnyOneInput;
    gates := [];
    var layer := ins;
    var layerId := 0;
    NothingBuilt(known);
    while |layer| > MAX_GATE_FANIN
      invariant |layer| >= 2 && LayerInv(gates, u, known, layerId, 0)
      invariant forall i :: 0 <= i < |layer| ==> layer[i] in known + Driven(gates)
      invariant Reduces(m, gates, layer, ins)
      invariant !forward && HasLoneChunk(|ins|) <==> AnyOneInput(gates) || (!forward && HasLoneChunk(|layer|))
      decreases |layer|
    {
      gates, layer := ReduceLayer(forward, m, u, layer, layerId, gates, known);
      layerId := layerId + 1;
    }
    var g := Cell(m, out, layer);
    OrderedAdd(gates, known, g);
    LibraryAdd(gates, g);
    forall v: Valuation | Satisfies(v, gates + [g]) ensures v(out) == Apply(m, v, ins) {
      ChunkValue(m, v, gates, gates + [g], out, layer);
    }
    gates := gates + [g];
  }

  lemma NothingBuilt(known: set<Wire>)
    ensures Ordered([], known) && !AnyOneInput([])
  {
  }

  /** A buffer is two inverters back to back: the library has none. */
  method EmitBuffer(u: UnitName, out: Wire, input: Wire, ghost known: set<Wire>) returns (gates: seq<Gate>)
    requires Room(u, out, [input], known)
    ensures Built(gates, u, out, known) && !AnyOneInput(gates)
    ensures forall v: Valuation :: Satisfies(v, gates) ==> v(out) == v(input)
  {
    var first, second := Inv(Mid(u), input), Inv(out, Mid(u));
    gates := [first, second];
    assert [input][0] in known;
    OneGate(known, first);
    OrderedAdd([first], known, second);
    assert gates == [first] + [second];
    forall v: Valuation | Satisfies(v, gates) ensures v(out) == v(input) {
      assert GateHolds(v, gates[0]) && GateHolds(v, gates[1]);
    }
  }

  lemma OneGate(known: set<Wire>, g: Gate)
    requires Reads(g) <= known && g.out !in known
    ensures Ordered([g], known) && Driven([g]) == {g.out}
  {
    assert [] + [g] == [g];
    NothingBuilt(known);
    OrderedAdd([], known, g);
  }

  /** A single library cell. */
  method EmitCell(m: Macro, u: UnitName, out: Wire, ins: seq<Wire>, ghost known: set<Wire>) returns (gates: seq<Gate>)
    requires 2 <= |ins| <= (if m.AND? || m.OR? then MAX_GATE_FANIN else MAX_NAND_FANIN) && Room(u, out, ins, known)
    ensures Built(gates, u, out, known) && !AnyOneInput(gates)
    ensures forall v: Valuation :: Satisfies(v, gates) ==> v(out) == Apply(m, v, ins)
  {
    var g := Cell(m, out, ins);
    gates := [g];
    OneGate(known, g);
    forall v: Valuation | Satisfies(v, gates) ensures v(out) == Apply(m, v, ins) { assert GateHolds(v, gates[0]); }
  }

  method EmitAnd(forward: bool, u: UnitName, out: Wire, ins: seq<Wire>, ghost known: set<Wire>) returns (gates: seq<Gate>)
    requires |ins| >= 1 && Room(u, out, ins, known)
    ensures Built(gates, u, out, known)
    ensures AnyOneInput(gates) <==> !forward && HasLoneChunk(|ins|)
    ensures forall v: Valuation :: Satisfies(v, gates) ==> v(out) == AllOf(v, ins)
  {
    if |ins| == 1 {
      assert ins == [ins[0]];
      gates := EmitBuffer(u, out, ins[0], known);
    } else if |ins| <= MAX_GATE_FANIN {
      gates := EmitCell(AND, u, out, ins, known);
    } else {
      gates := ReduceTree(forward, AND, u, out, ins, known);
    }
  }

  method EmitOr(forward: bool, u: UnitName, out: Wire, ins: seq<Wire>, ghost known: set<Wire>) returns (gates: seq<Gate>)
    requires |ins| >= 2 && Room(u, out, ins, known)
    ensures Built(gates, u, out, known)
    ensures AnyOneInput(gates) <==> !forward && HasLoneChunk(|ins|)
    ensures forall v: Valuation :: Satisfies(v, gates) ==> v(out) == AnyOf(v, ins)
  {
    if |ins| <= MAX_GATE_FANIN {
      gates := EmitCell(OR, u, out, ins, known);
    } else {
      gates := ReduceTree(forward, OR, u, out, ins, known);
    }
  }

  // ---------- sums of products ----------

  /** An input signal or its complement. */
  datatype Literal = Literal(i: nat, positive: bool)

  /** A product of literals; the empty product is the constant one. */
  type Term = seq<Literal>

  function LiteralWire(l: Literal): Wire { if l.positive then Input(l.i) else Inverted(l.i) }

  function TermWires(t: Term): (ws: seq<Wire>)
    ensures |ws| == |t| && forall k :: 0 <= k < |t| ==> ws[k] == LiteralWire(t[k])
  {
    seq(|t|, k requires 0 <= k < |t| => LiteralWire(t[k]))
  }

  function SourceWires(t: Term): (ws: seq<Wire>)
    ensures |ws| == |t| && forall k :: 0 <= k < |t| ==> ws[k] == Input(t[k].i)
  {
    seq(|t|, k requires 0 <= k < |t| => Input(t[k].i))
  }

  predicate TermValue(v: Valuation, t: Term) { forall k :: 0 <= k < |t| ==> v(Input(t[k].i)) == t[k].positive }

  predicate SopValue(v: Valuation, terms: seq<Term>) { exists k :: 0 <= k < |terms| && TermValue(v, terms[k]) }

  /** The inverter wires used by the terms carry the complements. */
  predicate Complements(v: Valuation, terms: seq<Term>) {
    forall i, k :: 0 <= i < |terms| && 0 <= k < |terms[i]| && !terms[i][k].positive
                   ==> v(Inverted(terms[i][k].i)) == !v(Input(terms[i][k].i))
  }

  ghost predicate SignalsKnown(terms: seq<Term>, known: set<Wire>) {
    forall i, k :: 0 <= i < |terms| && 0 <= k < |terms[i]| ==> Input(terms[i][k].i) in known && LiteralWire(terms[i][k]) in known
  }

  /** The wires that belong to output `o`. */
  predicate Owned(w: Wire, o: nat) {
    match w
    case Output(p) => p == o
    case TermWire(p, _) => p == o
    case Mid(u) => u.o == o
    case Layer(u, _, _) => u.o == o
    case _ => false
  }

  ghost predicate Untouched(o: nat, known: set<Wire>) { forall w :: Owned(w, o) ==> w !in known }

  lemma TermOfWires(v: Valuation, terms: seq<Term>, i: nat)
    requires i < |terms| && Complements(v, terms)
    ensures AllOf(v, TermWires(terms[i])) == TermValue(v, terms[i])
  {
    var t := terms[i];
    forall k | 0 <= k < |t| ensures v(TermWires(t)[k]) == (v(Input(t[k].i)) == t[k].positive) { }
  }

  lemma NegatedTerm(v: Valuation, t: Term)
    requires forall k :: 0 <= k < |t| ==> !t[k].positive
    ensures TermValue(v, t) == !AnyOf(v, SourceWires(t))
  {
    forall k | 0 <= k < |t| ensures v(SourceWires(t)[k]) == v(Input(t[k].i)) { }
  }

  /** Gates emitted so far for the terms of output `o`: term wire `i` carries term `i`, or its
      complement. */
  ghost predicate TermsEmitted(gates: seq<Gate>, o: nat, terms: seq<Term>, n: nat, inverted: bool, known: set<Wire>)
    requires n <= |terms|
  {
    && AllFit(gates) && Ordered(gates, known)
    && (forall i :: 0 <= i < n ==> TermWire(o, i) in Driven(gates))
    && (forall w :: w in Driven(gates) ==> (w.TermWire? && w.o == o && w.t < n)
                                           || ((w.Mid? || w.Layer?) && w.u.AndUnit? && w.u.o == o && w.u.t < n))
    && forall v: Valuation :: Satisfies(v, gates) && Complements(v, terms) ==>
         forall i :: 0 <= i < n ==> v(TermWire(o, i)) == (TermValue(v, terms[i]) != inverted)
  }

  lemma SatisfiesConcat(v: Valuation, a: seq<Gate>, b: seq<Gate>)
    ensures Satisfies(v, a + b) <==> Satisfies(v, a) && Satisfies(v, b)
  {
    assert forall i :: 0 <= i < |a| ==> (a + b)[i] == a[i];
    assert forall i :: 0 <= i < |b| ==> (a + b)[|a| + i] == b[i];
  }

  /** One of the first `n` products has so many literals that its tree has a chunk of a single wire. */
  predicate LoneTerm(terms: seq<Term>, n: nat)
    requires n <= |terms|
  {
    exists i :: 0 <= i < n && HasLoneChunk(|terms[i]|)
  }

  /** The trees of an output have a chunk of a single wire: in a product, or in the sum. */
  predicate LoneChunks(terms: seq<Term>) { HasLoneChunk(|terms|) || LoneTerm(terms, |terms|) }

  /** One product term on its own wire: a constant, an AND tree, or a NAND cell. */
  method EmitTerm(forward: bool, nand: bool, o: nat, terms: seq<Term>, i: nat, out: Wire, ghost known: set<Wire>) returns (gates: seq<Gate>)
    requires i < |terms| && (out == TermWire(o, i) || out == Output(o)) && out !in known
    requires SignalsKnown(terms, known) && forall w :: OfUnit(w, AndUnit(o, i)) ==> w !in known
    requires nand ==> 2 <= |terms[i]| <= MAX_NAND_FANIN
    ensures Built(gates, AndUnit(o, i), out, known)
    ensures AnyOneInput(gates) <==> !forward && HasLoneChunk(|terms[i]|)
    ensures forall v: Valuation :: Satisfies(v, gates) && Complements(v, terms) ==> v(out) == (TermValue(v, terms[i]) != nand)
  {
    hide AllOf, AnyOf, AnyOneInput, Ordered, GateHolds;
    var t := terms[i];
    var ins := TermWires(t);
    if nand {
      gates := EmitCell(NAND, AndUnit(o, i), out, ins, known);
    } else if |t| == 0 {
      var g := Tie(out, true);
      gates := [g];
      OneGate(known, g);
      TieGate(g);
    } else {
      gates := EmitAnd(forward, AndUnit(o, i), out, ins, known);
    }
    forall v: Valuation | Satisfies(v, gates) && Complements(v, terms) ensures v(out) == (TermValue(v, t) != nand) {
      TermOfWires(v, terms, i);
    }
  }

  lemma TieGate(g: Gate)
    requires g.Tie?
    ensures AllFit([g]) && !AnyOneInput([g])
    ensures forall v: Valuation :: Satisfies(v, [g]) ==> v(g.out) == g.value
  {
    forall v: Valuation | Satisfies(v, [g]) ensures v(g.out) == g.value { assert GateHolds(v, [g][0]); }
  }

  lemma AddTerm(gates: seq<Gate>, more: seq<Gate>, o: nat, terms: seq<Term>, n: nat, inverted: bool, known: set<Wire>)
    requires n < |terms| && TermsEmitted(gates, o, terms, n, inverted, known)
    requires Built(more, AndUnit(o, n), TermWire(o, n), known + Driven(gates))
    requires forall v: Valuation :: Satisfies(v, more) && Complements(v, terms) ==> v(TermWire(o, n)) == (TermValue(v, terms[n]) != inverted)
    ensures TermsEmitted(gates + more, o, terms, n + 1, inverted, known)
    ensures AnyOneInput(gates + more) <==> AnyOneInput(gates) || AnyOneInput(more)
  {
    hide Ordered, AllFit, AnyOneInput, TermValue, Complements, Driven, Satisfies;
    OrderedConcat(gates, more, known);
    LibraryConcat(gates, more);
    forall v: Valuation | Satisfies(v, gates + more) && Complements(v, terms)
      ensures forall i :: 0 <= i < n + 1 ==> v(TermWire(o, i)) == (TermValue(v, terms[i]) != inverted)
    {
      SatisfiesConcat(v, gates, more);
    }
  }

  method EmitTerms(forward: bool, nand: bool, o: nat, terms: seq<Term>, ghost known: set<Wire>) returns (gates: seq<Gate>)
    requires SignalsKnown(terms, known) && Untouched(o, known)
    requires nand ==> forall i :: 0 <= i < |terms| ==> 2 <= |terms[i]| <= MAX_NAND_FANIN
    ensures TermsEmitted(gates, o, terms, |terms|, nand, known)
    ensures AnyOneInput(gates) <==> !forward && LoneTerm(terms, |terms|)
  {
    hide Ordered, AnyOneInput, TermValue, Complements, Driven, HasLoneChunk;
    gates := [];
    StartTerms(o, terms, nand, known);
    for i := 0 to |terms|
      invariant TermsEmitted(gates, o, terms, i, nand, known)
      invariant AnyOneInput(gates) <==> !forward && LoneTerm(terms, i)
    {
      var more := EmitTerm(forward, nand, o, terms, i, TermWire(o, i), known + Driven(gates));
      AddTerm(gates, more, o, terms, i, nand, known);
      gates := gates + more;
    }
  }

  lemma StartTerms(o: nat, terms: seq<Term>, inverted: bool, known: set<Wire>)
    ensures TermsEmitted([], o, terms, 0, inverted, known) && !AnyOneInput([])
  {
  }

  function AllTermWires(o: nat, n: nat): (ws: seq<Wire>)
    ensures |ws| == n && forall i :: 0 <= i < n ==> ws[i] == TermWire(o, i)
  {
    seq(n, i requires 0 <= i < n => TermWire(o, i))
  }

  lemma SumOfTerms(v: Valuation, o: nat, terms: seq<Term>, inverted: bool)
    requires forall i :: 0 <= i < |terms| ==> v(TermWire(o, i)) == (TermValue(v, terms[i]) != inverted)
    ensures SopValue(v, terms) == if inverted then !AllOf(v, AllTermWires(o, |terms|)) else AnyOf(v, AllTermWires(o, |terms|))
  {
    var ws := AllTermWires(o, |terms|);
    assert forall i :: 0 <= i < |terms| ==> v(ws[i]) == (TermValue(v, terms[i]) != inverted);
    hide TermValue;
  }

  /** The complete logic of output `o`: ordered, on wires of its own, and carrying the sum of the
      products. */
  ghost predicate Implements(gates: seq<Gate>, o: nat, terms: seq<Term>, known: set<Wire>) {
    && AllFit(gates) && Ordered(gates, known)
    && Output(o) in Driven(gates) && (forall w :: w in Driven(gates) ==> Owned(w, o))
    && forall v: Valuation :: Satisfies(v, gates) && Complements(v, terms) ==> v(Output(o)) == SopValue(v, terms)
  }

  lemma FinishSum(gates: seq<Gate>, last: seq<Gate>, o: nat, terms: seq<Term>, inverted: bool, known: set<Wire>)
    requires TermsEmitted(gates, o, terms, |terms|, inverted, known)
    requires Built(last, OrUnit(o), Output(o), known + Driven(gates))
    requires forall v: Valuation :: Satisfies(v, last) ==>
               v(Output(o)) == if inverted then !AllOf(v, AllTermWires(o, |terms|)) else AnyOf(v, AllTermWires(o, |terms|))
    ensures Implements(gates + last, o, terms, known)
    ensures AnyOneInput(gates + last) <==> AnyOneInput(gates) || AnyOneInput(last)
  {
    hide Ordered, AllFit, AnyOneInput, TermValue, Complements, AllOf, AnyOf, Driven, Satisfies, SopValue;
    OrderedConcat(gates, last, known);
    LibraryConcat(gates, last);
    forall v: Valuation | Satisfies(v, gates + last) && Complements(v, terms) ensures v(Output(o)) == SopValue(v, terms) {
      SatisfiesConcat(v, gates, last);
      SumOfTerms(v, o, terms, inverted);
    }
  }

  predicate AllNegative(t: Term) { forall k :: 0 <= k < |t| ==> !t[k].positive }

  predicate NandSized(terms: seq<Term>) {
    2 <= |terms| <= MAX_NAND_FANIN && forall i :: 0 <= i < |terms| ==> 2 <= |terms[i]| <= MAX_NAND_FANIN
  }

  lemma SingleTerm(v: Valuation, terms: seq<Term>)
    requires |terms| == 1
    ensures SopValue(v, terms) == TermValue(v, terms[0])
  {
    hide TermValue;
    if TermValue(v, terms[0]) { assert 0 < |terms| && TermValue(v, terms[0]); }
  }

  /** The logic of one output. The combinational generator forwards single wires in its trees and
      uses AND and OR only; the FSM generator (`fast`) prefers NOR for a product of complements and
      NAND-NAND for small sums. */
  method EmitSop(fast: bool, o: nat, terms: seq<Term>, ghost known: set<Wire>) returns (gates: seq<Gate>)
    requires SignalsKnown(terms, known) && Untouched(o, known)
    ensures Implements(gates, o, terms, known)
    ensures AnyOneInput(gates) <==> fast && LoneChunks(terms)
  {
    hide Ordered, AnyOneInput, TermValue, Complements, AllOf, AnyOf;
    if |terms| == 0 {
      var g := Tie(Output(o), false);
      gates := [g];
      OneGate(known, g);
      TieGate(g);
    } else if |terms| == 1 {
      if fast && 2 <= |terms[0]| <= MAX_NAND_FANIN && AllNegative(terms[0]) {
        gates := EmitCell(NOR, AndUnit(o, 0), Output(o), SourceWires(terms[0]), known);
      } else {
        gates := EmitTerm(!fast, false, o, terms, 0, Output(o), known);
      }
      forall v: Valuation | Satisfies(v, gates) && Complements(v, terms) ensures v(Output(o)) == SopValue(v, terms) {
        SingleTerm(v, terms);
        if AllNegative(terms[0]) { NegatedTerm(v, terms[0]); }
      }
    } else {
      var nand := fast && NandSized(terms);
      gates := EmitTerms(!fast, nand, o, terms, known);
      var ws := AllTermWires(o, |terms|);
      var last;
      if nand {
        last := EmitCell(NAND, OrUnit(o), Output(o), ws, known + Driven(gates));
      } else {
        last := EmitOr(!fast, OrUnit(o), Output(o), ws, known + Driven(gates));
      }
      FinishSum(gates, last, o, terms, nand, known);
      gates := gates + last;
    }
  }

  /** Thirteen literals are enough for the FSM generator to ask for a cell that the library does not have. */
  method ThirteenLiterals() returns (gates: seq<Gate>)
    ensures AllFit(gates) && AnyOneInput(gates)
  {
    var terms: seq<Term> := [seq(13, (i: nat) => Literal(i, true))];
    gates := EmitSop(true, 0, terms, set i: nat | i < 13 :: Input(i));
    assert HasLoneChunk(|terms[0]|);
  }
}
