/** The combinational generator: a CSV truth table with don't-care inputs, first matching row wins,
    compiled to library cells. */
module CombCompiler {
  import opened QuineMcCluskey
  import opened SopNetlist
  import opened SopCompiler
  import opened Wrappers

  /** One CSV row. An `x` cell is a don't-care on either side. */
  datatype Row = Row(inputs: Cube, outputs: seq<Trit>)

  predicate WellFormedRows(rows: seq<Row>, ni: nat, no: nat) {
    forall i :: 0 <= i < |rows| ==> |rows[i].inputs| == ni && |rows[i].outputs| == no
  }

  // ---------- expansion ----------

  function Prefixed(t: Trit, cs: seq<Cube>): (r: seq<Cube>)
    ensures |r| == |cs| && forall i :: 0 <= i < |r| ==> r[i] == [t] + cs[i]
  {
    seq(|cs|, i requires 0 <= i < |cs| => [t] + cs[i])
  }

  /** All ways to fill the don't-care inputs of a row, in counting order. */
  function Expand(c: Cube): (r: seq<Cube>)
    decreases |c|
  {
    if c == [] then [[]]
    else
      var rest := Expand(c[1..]);
      match c[0]
      case Zero => Prefixed(Zero, rest)
      case One => Prefixed(One, rest)
      case Dash => Prefixed(Zero, rest) + Prefixed(One, rest)
  }

  lemma PrefixedHas(t: Trit, cs: seq<Cube>, m: Cube)
    ensures m in Prefixed(t, cs) <==> |m| > 0 && m[0] == t && m[1..] in cs
  {
    var r := Prefixed(t, cs);
    if m in r {
      var i :| 0 <= i < |r| && r[i] == m;
      assert m[1..] == cs[i];
    }
    if |m| > 0 && m[0] == t && m[1..] in cs {
      var i :| 0 <= i < |cs| && cs[i] == m[1..];
      assert r[i] == [t] + cs[i] == m;
    }
  }

  /** Expansion lists exactly the minterms the row covers. */
  lemma {:induction false} ExpandsToCovered(c: Cube, m: Cube)
    ensures m in Expand(c) <==> IsMinterm(m, |c|) && Covers(c, m)
    decreases |c|
  {
    if c == [] {
      assert m in [[]] <==> m == [];
    } else {
      var rest := Expand(c[1..]);
      PrefixedHas(Zero, rest, m);
      PrefixedHas(One, rest, m);
      if |m| > 0 {
        ExpandsToCovered(c[1..], m[1..]);
        HeadAndTail(c, m);
      }
    }
  }

  lemma HeadAndTail(c: Cube, m: Cube)
    requires |c| > 0 && |m| > 0
    ensures IsMinterm(m, |c|) <==> m[0] != Dash && IsMinterm(m[1..], |c| - 1)
    ensures |m| == |c| ==> (Covers(c, m) <==> (c[0] == Dash || c[0] == m[0]) && Covers(c[1..], m[1..]))
  {
    if |m| == |c| {
      assert forall i :: 0 < i < |m| ==> m[i] == m[1..][i - 1] && c[i] == c[1..][i - 1];
      assert forall i :: 0 <= i < |m| - 1 ==> m[i + 1] == m[1..][i] && c[i + 1] == c[1..][i];
    }
  }

  // ---------- the first-seen table ----------

  /** The first row, among the first `n`, that covers the vector. */
  function FirstMatch(rows: seq<Row>, m: Cube, n: nat): (r: Option<nat>)
    requires n <= |rows| && forall i :: 0 <= i < |rows| ==> |rows[i].inputs| == |m|
    ensures r.Some? ==> r.value < n && Covers(rows[r.value].inputs, m)
    ensures r.Some? ==> forall i :: 0 <= i < r.value ==> !Covers(rows[i].inputs, m)
    ensures r.None? ==> forall i :: 0 <= i < n ==> !Covers(rows[i].inputs, m)
    decreases n
  {
    if n == 0 then None
    else
      var before := FirstMatch(rows, m, n - 1);
      if before.Some? then before
      else if Covers(rows[n - 1].inputs, m) then Some(n - 1)
      else None
  }

  /** The dictionary the rows fill: vectors in the order they were first seen, and their outputs. */
  datatype Table = Table(keys: seq<Cube>, entries: map<Cube, seq<Trit>>)

  ghost predicate TableOf(t: Table, rows: seq<Row>, ni: nat, n: nat)
    requires n <= |rows| && forall i :: 0 <= i < |rows| ==> |rows[i].inputs| == ni
  {
    && (forall m :: m in t.keys <==> m in t.entries)
    && (forall m :: m in t.entries ==> IsMinterm(m, ni))
    && (forall m :: IsMinterm(m, ni) ==>
          var first := FirstMatch(rows, m, n);
          (m in t.entries <==> first.Some?) && (first.Some? ==> t.entries[m] == rows[first.value].outputs))
  }

  method BuildTable(rows: seq<Row>, ni: nat, no: nat) returns (t: Table)
    requires WellFormedRows(rows, ni, no)
    ensures TableOf(t, rows, ni, |rows|)
  {
    t := Table([], map[]);
    for r := 0 to |rows|
      invariant TableOf(t, rows, ni, r)
    {
      t := AddRow(t, rows, ni, no, r);
    }
  }

  method AddRow(t0: Table, rows: seq<Row>, ni: nat, no: nat, r: nat) returns (t: Table)
    requires WellFormedRows(rows, ni, no) && r < |rows| && TableOf(t0, rows, ni, r)
    ensures TableOf(t, rows, ni, r + 1)
  {
    hide Covers, Expand;
    t := t0;
    var expanded := Expand(rows[r].inputs);
    for k := 0 to |expanded|
      invariant forall m :: m in t.keys <==> m in t.entries
      invariant forall m :: m in t.entries <==> m in t0.entries || m in expanded[..k]
      invariant forall m :: m in t0.entries ==> t.entries[m] == t0.entries[m]
      invariant forall m :: m in t.entries && m !in t0.entries ==> t.entries[m] == rows[r].outputs
    {
      var m := expanded[k];
      assert expanded[..k + 1] == expanded[..k] + [m];
      if m !in t.entries {
        t := Table(t.keys + [m], t.entries[m := rows[r].outputs]);
      }
    }
    assert expanded[..|expanded|] == expanded;
    forall m ensures m in expanded <==> IsMinterm(m, ni) && Covers(rows[r].inputs, m) {
      ExpandsToCovered(rows[r].inputs, m);
    }
  }

  /** The ON set (`want` is One) or don't-care set (Dash) of output `o`, in table order. */
  function Select(t: Table, keys: seq<Cube>, o: nat, want: Trit): (ms: seq<Cube>)
    requires forall m :: m in keys ==> m in t.entries && o < |t.entries[m]|
    ensures forall m :: m in ms <==> m in keys && t.entries[m][o] == want
    decreases |keys|
  {
    if keys == [] then []
    else
      assert keys == [keys[0]] + keys[1..];
      (if t.entries[keys[0]][o] == want then [keys[0]] else []) + Select(t, keys[1..], o, want)
  }

  /** What the CSV asks of output `o`: the value of the first row that covers the vector, either
      value on a don't-care, and 0 where no row matches. */
  ghost predicate CsvAllows(rows: seq<Row>, m: Cube, o: nat, value: bool)
    requires forall i :: 0 <= i < |rows| ==> |rows[i].inputs| == |m| && o < |rows[i].outputs|
  {
    match FirstMatch(rows, m, |rows|)
    case None => !value
    case Some(i) => (rows[i].outputs[o] == One ==> value) && (rows[i].outputs[o] == Zero ==> !value)
  }

  /** The generator end to end: the netlist uses only cells the library has, reads only wires that
      are driven before, and for every input vector each output is what the CSV allows. */
  method Compile(rows: seq<Row>, ni: nat, no: nat) returns (gates: seq<Gate>)
    requires WellFormedRows(rows, ni, no)
    ensures Ordered(gates, Inputs(ni))
    ensures forall i :: 0 <= i < |gates| ==> InLibrary(gates[i])
    ensures forall v: Valuation, x: seq<bool>, o: nat :: |x| == ni && Satisfies(v, gates) && Shows(v, x) && o < no
              ==> CsvAllows(rows, MintermOf(x), o, v(Output(o)))
  {
    hide Ordered, Covers, Satisfies, FirstMatch, LoneSums, EquationOf;
    var t := BuildTable(rows, ni, no);
    var ons: seq<seq<Cube>>, dcs: seq<seq<Cube>> := [], [];
    TableRows(t, rows, ni, no);
    for o := 0 to no
      invariant |ons| == |dcs| == o
      invariant forall p: nat :: p < o ==> ons[p] == Select(t, t.keys, p, One) && dcs[p] == Select(t, t.keys, p, Dash)
    {
      ons := ons + [Select(t, t.keys, o, One)];
      dcs := dcs + [Select(t, t.keys, o, Dash)];
    }
    var equations;
    gates, equations := CompileBlock(false, ons, dcs, ni);
    forall v: Valuation, x: seq<bool>, o: nat | |x| == ni && Satisfies(v, gates) && Shows(v, x) && o < no
      ensures CsvAllows(rows, MintermOf(x), o, v(Output(o)))
    {
      TableDecides(t, rows, ni, no, MintermOf(x), o, v(Output(o)));
    }
  }

  lemma TableRows(t: Table, rows: seq<Row>, ni: nat, no: nat)
    requires WellFormedRows(rows, ni, no) && TableOf(t, rows, ni, |rows|)
    ensures forall m :: m in t.keys ==> m in t.entries && |t.entries[m]| == no && IsMinterm(m, ni)
  {
  }

  lemma TableDecides(t: Table, rows: seq<Row>, ni: nat, no: nat, m: Cube, o: nat, value: bool)
    requires WellFormedRows(rows, ni, no) && TableOf(t, rows, ni, |rows|) && IsMinterm(m, ni) && o < no
    requires forall m :: m in t.keys ==> m in t.entries && |t.entries[m]| == no
    requires OutputRight(value, m, Select(t, t.keys, o, One), Select(t, t.keys, o, Dash))
    ensures CsvAllows(rows, m, o, value)
  {
  }
}
