/** From ON and don't-care sets to gates: minimise each output, turn its cubes into products, share
    the inverters, and emit the logic. */
module SopCompiler {
  import opened QuineMcCluskey
  import opened SopNetlist

  /** An input vector as the minterm it is. */
  function MintermOf(x: seq<bool>): (m: Cube)
    ensures IsMinterm(m, |x|) && forall i :: 0 <= i < |x| ==> (m[i] == One <==> x[i])
  {
    seq(|x|, i requires 0 <= i < |x| => if x[i] then One else Zero)
  }

  /** The wires' values show the input vector. */
  predicate Shows(v: Valuation, x: seq<bool>) { forall i: nat :: i < |x| ==> v(Input(i)) == x[i] }

  function Inputs(n: nat): (ws: set<Wire>)
    ensures forall w :: w in ws <==> w.Input? && w.i < n
  {
    set i: nat | i < n :: Input(i)
  }

  // ---------- cubes to products ----------

  function TermFrom(c: Cube, k: nat): (t: Term)
    requires k <= |c|
    ensures |t| <= |c| - k && forall j :: 0 <= j < |t| ==> k <= t[j].i < |c|
    decreases |c| - k
  {
    if k == |c| then []
    else if c[k] == Dash then TermFrom(c, k + 1)
    else [Literal(k, c[k] == One)] + TermFrom(c, k + 1)
  }

  function CubeToTerm(c: Cube): (t: Term)
    ensures forall j :: 0 <= j < |t| ==> t[j].i < |c|
  {
    TermFrom(c, 0)
  }

  lemma {:induction false} TermMatchesCube(v: Valuation, x: seq<bool>, c: Cube, k: nat)
    requires k <= |c| == |x| && Shows(v, x)
    ensures TermValue(v, TermFrom(c, k)) <==> forall i :: k <= i < |c| ==> c[i] == Dash || c[i] == MintermOf(x)[i]
    decreases |c| - k
  {
    if k < |c| {
      TermMatchesCube(v, x, c, k + 1);
      if c[k] != Dash {
        var t, rest := TermFrom(c, k), TermFrom(c, k + 1);
        assert t[0] == Literal(k, c[k] == One) && t[1..] == rest;
        assert TermValue(v, t) <==> v(Input(k)) == (c[k] == One) && TermValue(v, rest) by {
          assert forall j :: 0 <= j < |rest| ==> rest[j] == t[j + 1];
          assert forall j :: 0 < j < |t| ==> t[j] == rest[j - 1];
        }
      }
    }
  }

  function TermsOf(cubes: seq<Cube>): (ts: seq<Term>)
    ensures |ts| == |cubes| && forall i :: 0 <= i < |ts| ==> ts[i] == CubeToTerm(cubes[i])
  {
    seq(|cubes|, i requires 0 <= i < |cubes| => CubeToTerm(cubes[i]))
  }

  /** The sum of the products is on exactly when a cube covers the input vector. */
  lemma SopMatchesCubes(v: Valuation, x: seq<bool>, cubes: seq<Cube>)
    requires SameLength(cubes, |x|) && Shows(v, x)
    ensures SopValue(v, TermsOf(cubes)) <==> CoveredBy(MintermOf(x), cubes)
  {
    var m, ts := MintermOf(x), TermsOf(cubes);
    forall i | 0 <= i < |cubes| ensures TermValue(v, ts[i]) <==> Covers(cubes[i], m) {
      TermMatchesCube(v, x, cubes[i], 0);
    }
    hide TermValue, Covers, TermsOf;
    if SopValue(v, ts) {
      var k :| 0 <= k < |ts| && TermValue(v, ts[k]);
      assert cubes[k] in cubes;
    }
    if CoveredBy(m, cubes) {
      var c :| c in cubes && |c| == |m| && Covers(c, m);
      var k :| 0 <= k < |cubes| && cubes[k] == c;
      assert TermValue(v, ts[k]);
    }
  }

  // ---------- inverters ----------

  predicate UsesComplement(equations: seq<seq<Term>>, i: nat) {
    exists o, t, k :: 0 <= o < |equations| && 0 <= t < |equations[o]| && 0 <= k < |equations[o][t]|
                      && equations[o][t][k] == Literal(i, false)
  }

  function Inverters(equations: seq<seq<Term>>, n: nat): seq<Gate>
    decreases n
  {
    if n == 0 then []
    else Inverters(equations, n - 1) + if UsesComplement(equations, n - 1) then [Inv(Inverted(n - 1), Input(n - 1))] else []
  }

  lemma {:induction false} InvertersDrive(equations: seq<seq<Term>>, n: nat, m: nat)
    requires n <= m
    ensures AllFit(Inverters(equations, n)) && !AnyOneInput(Inverters(equations, n))
    ensures Ordered(Inverters(equations, n), Inputs(m))
    ensures forall w :: w in Driven(Inverters(equations, n)) <==> w.Inverted? && w.i < n && UsesComplement(equations, w.i)
    decreases n
  {
    hide UsesComplement;
    if n > 0 {
      hide AllFit, AnyOneInput, Ordered, Driven;
      InvertersDrive(equations, n - 1, m);
      var before := Inverters(equations, n - 1);
      if UsesComplement(equations, n - 1) {
        InverterAdded(before, n - 1, m);
      } else {
        assert before + [] == before;
      }
    }
  }

  lemma InverterAdded(gs: seq<Gate>, i: nat, m: nat)
    requires AllFit(gs) && !AnyOneInput(gs) && Ordered(gs, Inputs(m)) && i < m && Inverted(i) !in Driven(gs)
    ensures
      var all := gs + [Inv(Inverted(i), Input(i))];
      AllFit(all) && !AnyOneInput(all) && Ordered(all, Inputs(m)) && Driven(all) == Driven(gs) + {Inverted(i)}
  {
    hide AllFit, AnyOneInput, Ordered, Driven;
    var g := Inv(Inverted(i), Input(i));
    OrderedAdd(gs, Inputs(m), g);
    LibraryAdd(gs, g);
  }

  lemma {:induction false} InvertersInvert(equations: seq<seq<Term>>, n: nat, v: Valuation)
    requires Satisfies(v, Inverters(equations, n))
    ensures forall i: nat :: i < n && UsesComplement(equations, i) ==> v(Inverted(i)) == !v(Input(i))
    decreases n
  {
    hide UsesComplement;
    if n > 0 {
      var before := Inverters(equations, n - 1);
      if UsesComplement(equations, n - 1) {
        AddCell(v, before, Inv(Inverted(n - 1), Input(n - 1)));
      } else {
        assert before + [] == before;
      }
      InvertersInvert(equations, n - 1, v);
    }
  }

  // ---------- the whole block ----------

  /** What the specification says about an output for a vector. */
  ghost predicate OutputRight(value: bool, m: Cube, on: seq<Cube>, dc: seq<Cube>) {
    (m in on ==> value) && (m !in on && m !in dc ==> !value)
  }

  predicate AreMinterms(ms: seq<Cube>, n: nat) { forall m :: m in ms ==> IsMinterm(m, n) }

  /** Minimisation gives every output cubes that decide it. */
  ghost predicate Decides(cubes: seq<Cube>, on: seq<Cube>, dc: seq<Cube>, n: nat) {
    SameLength(cubes, n) && forall m :: IsMinterm(m, n) ==> OutputRight(CoveredBy(m, cubes), m, on, dc)
  }

  method Minimise(on: seq<Cube>, dc: seq<Cube>, n: nat) returns (cubes: seq<Cube>)
    requires AreMinterms(on, n) && AreMinterms(dc, n)
    ensures Decides(cubes, on, dc, n)
  {
    hide GreedyPicks;
    if on == [] {
      cubes := [];
    } else {
      var incomplete;
      cubes, incomplete := QmMinimise(on, dc, n);
    }
    ImplicantsDecide(cubes, on, dc, n);
  }

  lemma ImplicantsDecide(cubes: seq<Cube>, on: seq<Cube>, dc: seq<Cube>, n: nat)
    requires SameLength(cubes, n) && Coverable(on, cubes)
    requires ArePrimes(cubes, n, (set m | m in on) + (set m | m in dc))
    ensures Decides(cubes, on, dc, n)
  {
    forall m | IsMinterm(m, n) && CoveredBy(m, cubes) ensures m in on || m in dc {
      var c :| c in cubes && |c| == |m| && Covers(c, m);
    }
  }

  /** The equations only name the block's inputs. */
  predicate TermsInRange(ts: seq<Term>, n: nat) {
    forall t, k :: 0 <= t < |ts| && 0 <= k < |ts[t]| ==> ts[t][k].i < n
  }

  lemma CubesInRange(cubes: seq<Cube>, n: nat)
    requires SameLength(cubes, n)
    ensures TermsInRange(TermsOf(cubes), n)
  {
  }

  /** The logic emitted for the first `n` outputs. */
  ghost predicate BlockEmitted(gates: seq<Gate>, equations: seq<seq<Term>>, n: nat, known: set<Wire>)
    requires n <= |equations|
  {
    && AllFit(gates) && Ordered(gates, known)
    && (forall w :: w in Driven(gates) ==> exists o: nat :: o < n && Owned(w, o))
    && (forall o: nat :: o < n ==> Output(o) in Driven(gates))
    && forall v: Valuation, o: nat :: o < n && Satisfies(v, gates) && Complements(v, equations[o])
                                      ==> v(Output(o)) == SopValue(v, equations[o])
  }

  lemma AddOutput(gates: seq<Gate>, more: seq<Gate>, equations: seq<seq<Term>>, n: nat, known: set<Wire>)
    requires n < |equations| && BlockEmitted(gates, equations, n, known)
    requires Implements(more, n, equations[n], known + Driven(gates))
    ensures BlockEmitted(gates + more, equations, n + 1, known)
    ensures AnyOneInput(gates + more) <==> AnyOneInput(gates) || AnyOneInput(more)
  {
    hide Ordered, AllFit, AnyOneInput, Complements, Driven, Satisfies, SopValue, Owned;
    OrderedConcat(gates, more, known);
    LibraryConcat(gates, more);
    forall v: Valuation, o: nat | o < n + 1 && Satisfies(v, gates + more) && Complements(v, equations[o])
      ensures v(Output(o)) == SopValue(v, equations[o])
    {
      SatisfiesConcat(v, gates, more);
    }
  }

  lemma OutputsAreSeparate(w: Wire, o: nat, p: nat)
    requires Owned(w, o) && Owned(w, p)
    ensures o == p
  {
  }

  /** One of the first `n` sums has a tree with a chunk of a single wire. */
  predicate LoneSums(equations: seq<seq<Term>>, n: nat)
    requires n <= |equations|
  {
    exists o :: 0 <= o < n && LoneChunks(equations[o])
  }

  method EmitBlock(fast: bool, equations: seq<seq<Term>>, ghost known: set<Wire>) returns (gates: seq<Gate>)
    requires forall o :: 0 <= o < |equations| ==> SignalsKnown(equations[o], known)
    requires forall o: nat :: o < |equations| ==> Untouched(o, known)
    ensures BlockEmitted(gates, equations, |equations|, known)
    ensures AnyOneInput(gates) <==> fast && LoneSums(equations, |equations|)
  {
    hide LoneChunks, Ordered, AnyOneInput, Driven, Owned, Satisfies, SopValue, Complements;
    gates := [];
    StartBlock(equations, known);
    for o := 0 to |equations|
      invariant BlockEmitted(gates, equations, o, known)
      invariant AnyOneInput(gates) <==> fast && LoneSums(equations, o)
    {
      assert Untouched(o, known);
      forall w | Owned(w, o) ensures w !in known + Driven(gates) {
        if p: nat :| p < o && Owned(w, p) { OutputsAreSeparate(w, o, p); }
      }
      var more := EmitSop(fast, o, equations[o], known + Driven(gates));
      AddOutput(gates, more, equations, o, known);
      gates := gates + more;
    }
  }

  lemma StartBlock(equations: seq<seq<Term>>, known: set<Wire>)
    ensures BlockEmitted([], equations, 0, known) && !AnyOneInput([])
  {
  }

  /** A finished block over `n` inputs: an ordered netlist whose outputs are right for every input
      vector in every valuation that satisfies it. */
  ghost predicate BlockCorrect(gates: seq<Gate>, ons: seq<seq<Cube>>, dcs: seq<seq<Cube>>, n: nat)
    requires |ons| == |dcs|
  {
    && AllFit(gates) && Ordered(gates, Inputs(n))
    && forall v: Valuation, x: seq<bool>, o: nat :: |x| == n && Satisfies(v, gates) && Shows(v, x) && o < |ons|
         ==> OutputRight(v(Output(o)), MintermOf(x), ons[o], dcs[o])
  }

  lemma BlockIsCorrect(inverters: seq<Gate>, logic: seq<Gate>, equations: seq<seq<Term>>, cubes: seq<seq<Cube>>,
                       ons: seq<seq<Cube>>, dcs: seq<seq<Cube>>, n: nat)
    requires |ons| == |dcs| == |cubes| == |equations| && inverters == Inverters(equations, n)
    requires forall o :: 0 <= o < |cubes| ==> Decides(cubes[o], ons[o], dcs[o], n) && equations[o] == TermsOf(cubes[o])
    requires Ordered(inverters, Inputs(n)) && AllFit(inverters)
    requires BlockEmitted(logic, equations, |equations|, Inputs(n) + Driven(inverters))
    ensures BlockCorrect(inverters + logic, ons, dcs, n)
  {
    hide Ordered, AllFit, Driven, Owned, Satisfies, SopValue, OutputRight, CoveredBy, TermsOf;
    OrderedConcat(inverters, logic, Inputs(n));
    LibraryConcat(inverters, logic);
    forall v: Valuation, x: seq<bool>, o: nat | |x| == n && Satisfies(v, inverters + logic) && Shows(v, x) && o < |ons|
      ensures OutputRight(v(Output(o)), MintermOf(x), ons[o], dcs[o])
    {
      SatisfiesConcat(v, inverters, logic);
      ComplementsHold(equations, cubes, n, v, o);
      SopMatchesCubes(v, x, cubes[o]);
    }
  }

  lemma ComplementsHold(equations: seq<seq<Term>>, cubes: seq<seq<Cube>>, n: nat, v: Valuation, o: nat)
    requires |cubes| == |equations| && o < |equations|
    requires SameLength(cubes[o], n) && equations[o] == TermsOf(cubes[o])
    requires Satisfies(v, Inverters(equations, n))
    ensures Complements(v, equations[o])
  {
    InvertersInvert(equations, n, v);
    CubesInRange(cubes[o], n);
    hide Satisfies, TermsOf;
    forall t, k | 0 <= t < |equations[o]| && 0 <= k < |equations[o][t]| && !equations[o][t][k].positive
      ensures v(Inverted(equations[o][t][k].i)) == !v(Input(equations[o][t][k].i))
    {
      assert equations[o][t][k] == Literal(equations[o][t][k].i, false);
      assert UsesComplement(equations, equations[o][t][k].i);
    }
  }

  lemma SignalsAreKnown(equations: seq<seq<Term>>, o: nat, n: nat)
    requires o < |equations| && TermsInRange(equations[o], n)
    ensures SignalsKnown(equations[o], Inputs(n) + Driven(Inverters(equations, n)))
  {
    InvertersDrive(equations, n, n);
    forall t, k | 0 <= t < |equations[o]| && 0 <= k < |equations[o][t]|
      ensures LiteralWire(equations[o][t][k]) in Inputs(n) + Driven(Inverters(equations, n))
    {
      var l := equations[o][t][k];
      if !l.positive {
        assert l == Literal(l.i, false);
        assert UsesComplement(equations, l.i);
      }
    }
  }

  /** The equation of an output, as its minimised cubes give it. */
  ghost predicate EquationOf(terms: seq<Term>, on: seq<Cube>, dc: seq<Cube>, n: nat) {
    exists cubes :: Decides(cubes, on, dc, n) && terms == TermsOf(cubes)
  }

  /** Truth-table sets in, equations and cells out. Only the FSM generator (`fast`) ever asks for a one-input
      cell, and exactly when an equation has a tree with a chunk of a single wire. */
  method CompileBlock(fast: bool, ons: seq<seq<Cube>>, dcs: seq<seq<Cube>>, n: nat) returns (gates: seq<Gate>, equations: seq<seq<Term>>)
    requires |ons| == |dcs|
    requires forall o :: 0 <= o < |ons| ==> AreMinterms(ons[o], n) && AreMinterms(dcs[o], n)
    ensures BlockCorrect(gates, ons, dcs, n)
    ensures |equations| == |ons| && forall o :: 0 <= o < |ons| ==> EquationOf(equations[o], ons[o], dcs[o], n)
    ensures AnyOneInput(gates) <==> fast && LoneSums(equations, |equations|)
  {
    hide LoneSums, Decides, TermsOf, Ordered, AnyOneInput, AllFit, BlockEmitted, BlockCorrect, TermsInRange, SignalsKnown;
    var cubes: seq<seq<Cube>> := [];
    equations := [];
    for o := 0 to |ons|
      invariant |cubes| == |equations| == o
      invariant forall p :: 0 <= p < o ==> Decides(cubes[p], ons[p], dcs[p], n) && equations[p] == TermsOf(cubes[p])
      invariant forall p :: 0 <= p < o ==> TermsInRange(equations[p], n)
    {
      var cs := Minimise(ons[o], dcs[o], n);
      DecidesLength(cs, ons[o], dcs[o], n);
      CubesInRange(cs, n);
      cubes := cubes + [cs];
      equations := equations + [TermsOf(cs)];
    }
    var inverters := Inverters(equations, n);
    InvertersDrive(equations, n, n);
    forall o: nat | o < |equations| ensures SignalsKnown(equations[o], Inputs(n) + Driven(inverters)) {
      SignalsAreKnown(equations, o, n);
    }
    var logic := EmitBlock(fast, equations, Inputs(n) + Driven(inverters));
    BlockIsCorrect(inverters, logic, equations, cubes, ons, dcs, n);
    OneInputConcat(inverters, logic);
    gates := inverters + logic;
  }

  lemma OneInputConcat(a: seq<Gate>, b: seq<Gate>)
    ensures AnyOneInput(a + b) <==> AnyOneInput(a) || AnyOneInput(b)
  {
    LibraryConcat(a, b);
  }

  lemma DecidesLength(cubes: seq<Cube>, on: seq<Cube>, dc: seq<Cube>, n: nat)
    requires Decides(cubes, on, dc, n)
    ensures SameLength(cubes, n)
  {
  }
}
