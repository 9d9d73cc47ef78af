/** The FSM generator: a transition table becomes binary-coded next-state and output logic around
    state flip-flops. Undefined transitions go to a trap state, ERROR. */
module FsmCompiler {
  import opened Counting
  import opened QuineMcCluskey
  import opened SopNetlist
  import opened SopCompiler
  import opened CombCompiler
  import opened Wrappers

  const IDLE: string := "IDLE"
  const ERROR: string := "ERROR"

  /** An output cell as written in the CSV; the three spellings of don't-care are told apart when
      rows are compared. */
  datatype Mark = M0 | M1 | Hyphen | LowerX | UpperX

  predicate DontCare(k: Mark) { k.Hyphen? || k.LowerX? || k.UpperX? }

  /** One CSV row: in `state`, on the inputs, go to `next` and put out `outs`. */
  datatype FsmRow = FsmRow(state: string, inputs: Cube, outs: seq<Mark>, next: string)

  predicate WellFormedRows(rows: seq<FsmRow>, ni: nat, no: nat) {
    forall i :: 0 <= i < |rows| ==> |rows[i].inputs| == ni && |rows[i].outs| == no
  }

  datatype Move = Move(next: string, outs: seq<Mark>)

  function Zeros(n: nat): (z: seq<Mark>)
    ensures |z| == n && forall i :: 0 <= i < n ==> z[i] == M0
  {
    seq(n, _ => M0)
  }

  function Trap(no: nat): Move { Move(ERROR, Zeros(no)) }

  // ---------- what the table means ----------

  predicate Fits(r: FsmRow, s: string, m: Cube)
    requires |r.inputs| == |m|
  {
    r.state == s && Covers(r.inputs, m)
  }

  /** The first row for state and inputs, among the first `n`. */
  function RowFor(rows: seq<FsmRow>, s: string, m: Cube, n: nat): (r: Option<nat>)
    requires n <= |rows| && forall i :: 0 <= i < |rows| ==> |rows[i].inputs| == |m|
    ensures r.Some? ==> r.value < n && Fits(rows[r.value], s, m)
    ensures r.None? ==> forall i :: 0 <= i < n ==> !Fits(rows[i], s, m)
    decreases n
  {
    if n == 0 then None
    else
      var before := RowFor(rows, s, m, n - 1);
      if before.Some? then before else if Fits(rows[n - 1], s, m) then Some(n - 1) else None
  }

  /** The machine the CSV describes: its rows, ERROR with all outputs 0 where it is silent, and
      ERROR as a trap. */
  function CsvMove(rows: seq<FsmRow>, s: string, m: Cube, no: nat): Move
    requires forall i :: 0 <= i < |rows| ==> |rows[i].inputs| == |m|
  {
    if s == ERROR then Trap(no)
    else
      match RowFor(rows, s, m, |rows|)
      case None => Trap(no)
      case Some(i) => Move(rows[i].next, rows[i].outs)
  }

  /** Two rows clash when they say different things about one state and input vector. */
  ghost predicate Clash(rows: seq<FsmRow>, i: nat, j: nat, m: Cube, ni: nat) {
    && i < j < |rows| && IsMinterm(m, ni) && |rows[i].inputs| == |rows[j].inputs| == ni
    && Fits(rows[i], rows[j].state, m) && Fits(rows[j], rows[j].state, m)
    && Move(rows[i].next, rows[i].outs) != Move(rows[j].next, rows[j].outs)
  }

  ghost predicate HasConflict(rows: seq<FsmRow>, ni: nat) {
    exists i: nat, j: nat, m: Cube :: Clash(rows, i, j, m, ni)
  }

  function States(rows: seq<FsmRow>): set<string> { (set i | 0 <= i < |rows| :: rows[i].state) + {ERROR} }

  // ---------- state codes ----------

  /** The bits of `n`, least significant first. */
  function BitsOf(n: nat, w: nat): (b: seq<bool>)
    ensures |b| == w
    decreases w
  {
    if w == 0 then [] else [n % 2 == 1] + BitsOf(n / 2, w - 1)
  }

  lemma {:induction false} BitsInjective(n: nat, m: nat, w: nat)
    requires n < Pow2(w) && m < Pow2(w) && BitsOf(n, w) == BitsOf(m, w)
    ensures n == m
    decreases w
  {
    if w > 0 {
      assert BitsOf(n, w)[0] == BitsOf(m, w)[0] && BitsOf(n, w)[1..] == BitsOf(m, w)[1..];
      assert BitsOf(n, w)[1..] == BitsOf(n / 2, w - 1) && BitsOf(m, w)[1..] == BitsOf(m / 2, w - 1);
      BitsInjective(n / 2, m / 2, w - 1);
    }
  }

  lemma {:induction false} ZeroBits(w: nat)
    ensures BitsOf(0, w) == seq(w, _ => false)
    decreases w
  {
    if w > 0 {
      ZeroBits(w - 1);
      assert [false] + seq(w - 1, _ => false) == seq(w, _ => false);
    }
  }

  /** The least number of bits for `n` codes, and at least one. */
  method BitsNeeded(n: nat) returns (b: nat)
    requires n >= 1
    ensures b >= 1 && n <= Pow2(b) && (b > 1 ==> Pow2(b - 1) < n)
  {
    b := 1;
    while Pow2(b) < n
      invariant b >= 1 && (b > 1 ==> Pow2(b - 1) < n)
      decreases n - Pow2(b)
    {
      b := b + 1;
    }
  }

  type Codes = map<string, nat>

  /** IDLE is 0, ERROR has the highest code, and the codes are 0 up to the number of states. */
  ghost predicate GoodCodes(enc: Codes, states: set<string>) {
    && enc.Keys == states && IDLE in enc && ERROR in enc
    && enc[IDLE] == 0 && enc[ERROR] == |states| - 1
    && (forall s :: s in enc ==> enc[s] < |states|)
    && (forall s, t :: s in enc && t in enc && enc[s] == enc[t] ==> s == t)
  }

  /** Distinct codes below `n`. */
  ghost predicate Distinct(enc: Codes, n: nat) {
    && (forall s :: s in enc ==> enc[s] < n)
    && (forall s, t :: s in enc && t in enc && enc[s] == enc[t] ==> s == t)
  }

  lemma AddCode(enc: Codes, n: nat, s: string)
    requires Distinct(enc, n) && s !in enc
    ensures Distinct(enc[s := n], n + 1)
  {
  }

  lemma MiddleStates(states: set<string>)
    requires IDLE in states && ERROR in states
    ensures |states - {IDLE, ERROR}| == |states| - 2 && IDLE != ERROR
  {
    assert IDLE[0] != ERROR[0];
    assert states == (states - {IDLE, ERROR}) + {IDLE, ERROR};
  }

  method Enumerate(states: set<string>) returns (enc: Codes)
    requires IDLE in states && ERROR in states
    ensures GoodCodes(enc, states)
  {
    enc := map[IDLE := 0];
    var rest := states - {IDLE, ERROR};
    var next := 1;
    MiddleStates(states);
    hide Distinct;
    assert Distinct(enc, 1) by { OnlyIdle(); }
    while rest != {}
      invariant rest <= states - {IDLE, ERROR} && enc.Keys == states - {ERROR} - rest
      invariant next + |rest| == |states| - 1 && next >= 1
      invariant IDLE in enc && enc[IDLE] == 0 && Distinct(enc, next)
      decreases |rest|
    {
      var s :| s in rest;
      AddCode(enc, next, s);
      enc := enc[s := next];
      rest := rest - {s};
      next := next + 1;
    }
    AddCode(enc, next, ERROR);
    enc := enc[ERROR := next];
    CodesAreGood(enc, states);
  }

  lemma OnlyIdle()
    ensures Distinct(map[IDLE := 0], 1)
  {
  }

  lemma CodesAreGood(enc: Codes, states: set<string>)
    requires enc.Keys == states && IDLE in enc && ERROR in enc && enc[IDLE] == 0
    requires enc[ERROR] == |states| - 1 && Distinct(enc, |states|)
    ensures GoodCodes(enc, states)
  {
  }

  // ---------- expansion, conflicts, routing to ERROR ----------

  /** One fully specified row of the expanded table. */
  datatype Entry = Entry(state: string, m: Cube, move: Move)

  type Seen = map<(string, Cube), Move>

  /** What the conflict check has recorded after `n` rows: for every state and vector, the first
      row's move. */
  ghost predicate SeenOf(seen: Seen, rows: seq<FsmRow>, ni: nat, n: nat)
    requires n <= |rows| && forall i :: 0 <= i < |rows| ==> |rows[i].inputs| == ni
  {
    && (forall k :: k in seen ==> IsMinterm(k.1, ni))
    && forall s, m :: IsMinterm(m, ni) ==>
         var r := RowFor(rows, s, m, n);
         ((s, m) in seen <==> r.Some?) && (r.Some? ==> seen[(s, m)] == Move(rows[r.value].next, rows[r.value].outs))
  }

  /** The rows so far are in the expanded table, and nothing else is. */
  ghost predicate EntriesOf(entries: seq<Entry>, seen: Seen) {
    && (forall i :: 0 <= i < |entries| ==> (entries[i].state, entries[i].m) in seen && entries[i].move == seen[(entries[i].state, entries[i].m)])
    && forall k :: k in seen ==> exists i :: 0 <= i < |entries| && (entries[i].state, entries[i].m) == k
  }

  /** One row expanded into the table; `conflict` is set when a vector already has another move. */
  method ExpandRow(rows: seq<FsmRow>, r: nat, ni: nat, seen0: Seen, entries0: seq<Entry>)
    returns (seen: Seen, entries: seq<Entry>, conflict: bool)
    requires r < |rows| && (forall i :: 0 <= i < |rows| ==> |rows[i].inputs| == ni)
    requires SeenOf(seen0, rows, ni, r) && EntriesOf(entries0, seen0)
    ensures SeenOf(seen, rows, ni, r + 1)
    ensures !conflict ==> EntriesOf(entries, seen)
    ensures conflict <==> exists m :: IsMinterm(m, ni) && Fits(rows[r], rows[r].state, m) && (rows[r].state, m) in seen0
                                      && seen0[(rows[r].state, m)] != Move(rows[r].next, rows[r].outs)
  {
    hide Covers, Expand, RowFor, EntriesOf, SeenOf;
    seen, entries, conflict := seen0, entries0, false;
    var row := rows[r];
    var move := Move(row.next, row.outs);
    var vectors := Expand(row.inputs);
    for k := 0 to |vectors|
      invariant forall s, m :: (s, m) in seen <==> (s, m) in seen0 || (s == row.state && m in vectors[..k])
      invariant forall key :: key in seen0 ==> key in seen && seen[key] == seen0[key]
      invariant forall key :: key in seen && key !in seen0 ==> seen[key] == move
      invariant !conflict ==> EntriesOf(entries, seen)
      invariant conflict <==> exists j :: 0 <= j < k && (row.state, vectors[j]) in seen0 && seen0[(row.state, vectors[j])] != move
    {
      var m := vectors[k];
      assert vectors[..k + 1] == vectors[..k] + [m];
      var key := (row.state, m);
      ghost var before := seen;
      if key in seen {
        if seen[key] != move { conflict := true; }
      } else {
        seen := seen[key := move];
      }
      if !conflict { AddEntry(entries, before, seen, Entry(row.state, m, move)); }
      entries := entries + [Entry(row.state, m, move)];
    }
    assert vectors[..|vectors|] == vectors;
    forall m ensures m in vectors <==> IsMinterm(m, ni) && Covers(row.inputs, m) { ExpandsToCovered(row.inputs, m); }
    SeenGrows(rows, r, ni, seen0, seen, vectors);
  }

  lemma AddEntry(entries: seq<Entry>, before: Seen, seen: Seen, e: Entry)
    requires EntriesOf(entries, before)
    requires (e.state, e.m) in seen && seen[(e.state, e.m)] == e.move
    requires forall k :: k in seen <==> k in before || k == (e.state, e.m)
    requires forall k :: k in before ==> k in seen && seen[k] == before[k]
    ensures EntriesOf(entries + [e], seen)
  {
    var es := entries + [e];
    forall k | k in seen ensures exists i :: 0 <= i < |es| && (es[i].state, es[i].m) == k {
      if k == (e.state, e.m) {
        assert es[|entries|] == e;
      } else {
        var i :| 0 <= i < |entries| && (entries[i].state, entries[i].m) == k;
        assert es[i] == entries[i];
      }
    }
  }

  lemma SeenGrows(rows: seq<FsmRow>, r: nat, ni: nat, seen0: Seen, seen: Seen, vectors: seq<Cube>)
    requires r < |rows| && (forall i :: 0 <= i < |rows| ==> |rows[i].inputs| == ni)
    requires SeenOf(seen0, rows, ni, r)
    requires forall m :: m in vectors <==> IsMinterm(m, ni) && Covers(rows[r].inputs, m)
    requires forall s, m :: (s, m) in seen <==> (s, m) in seen0 || (s == rows[r].state && m in vectors)
    requires forall key :: key in seen0 ==> seen[key] == seen0[key]
    requires forall key :: key in seen && key !in seen0 ==> seen[key] == Move(rows[r].next, rows[r].outs)
    ensures SeenOf(seen, rows, ni, r + 1)
  {
  }

  lemma ConflictIsClash(rows: seq<FsmRow>, r: nat, ni: nat, seen: Seen, m: Cube)
    requires r < |rows| && (forall i :: 0 <= i < |rows| ==> |rows[i].inputs| == ni) && SeenOf(seen, rows, ni, r)
    requires IsMinterm(m, ni) && Fits(rows[r], rows[r].state, m) && (rows[r].state, m) in seen
    requires seen[(rows[r].state, m)] != Move(rows[r].next, rows[r].outs)
    ensures HasConflict(rows, ni)
  {
    var f := RowFor(rows, rows[r].state, m, r).value;
    assert Clash(rows, f, r, m, ni);
  }

  /** Rows without a conflict agree wherever they overlap with what was recorded. */
  ghost predicate Agreeing(rows: seq<FsmRow>, ni: nat, n: nat)
    requires n <= |rows| && forall i :: 0 <= i < |rows| ==> |rows[i].inputs| == ni
  {
    forall r: nat, m :: r < n && IsMinterm(m, ni) && Fits(rows[r], rows[r].state, m) ==>
      var f := RowFor(rows, rows[r].state, m, r);
      f.Some? ==> Move(rows[f.value].next, rows[f.value].outs) == Move(rows[r].next, rows[r].outs)
  }

  lemma AgreeingNeverClash(rows: seq<FsmRow>, ni: nat, i: nat, j: nat, m: Cube)
    requires forall i :: 0 <= i < |rows| ==> |rows[i].inputs| == ni
    requires Agreeing(rows, ni, |rows|)
    ensures !Clash(rows, i, j, m, ni)
  {
    hide Covers, RowFor;
    if i < j < |rows| && IsMinterm(m, ni) && Fits(rows[i], rows[j].state, m) && Fits(rows[j], rows[j].state, m) {
      FirstIsEarlier(rows, rows[j].state, m, i, j);
      assert rows[i].state == rows[j].state;
    }
  }

  lemma AgreeingHasNoConflict(rows: seq<FsmRow>, ni: nat)
    requires forall i :: 0 <= i < |rows| ==> |rows[i].inputs| == ni
    requires Agreeing(rows, ni, |rows|)
    ensures !HasConflict(rows, ni)
  {
    hide Agreeing, Clash;
    forall i: nat, j: nat, m: Cube ensures !Clash(rows, i, j, m, ni) { AgreeingNeverClash(rows, ni, i, j, m); }
  }

  lemma {:induction false} FirstIsEarlier(rows: seq<FsmRow>, s: string, m: Cube, i: nat, j: nat)
    requires forall i :: 0 <= i < |rows| ==> |rows[i].inputs| == |m|
    requires i < j <= |rows| && Fits(rows[i], s, m)
    ensures RowFor(rows, s, m, j).Some? && RowFor(rows, s, m, j).value <= i
    ensures RowFor(rows, s, m, j).value < i ==> RowFor(rows, s, m, i) == RowFor(rows, s, m, j)
    decreases j
  {
    if j > i + 1 { FirstIsEarlier(rows, s, m, i, j - 1); }
  }

  /** Expansion of the whole table. It stops at the first conflict, and only at a conflict. */
  method ExpandTable(rows: seq<FsmRow>, ni: nat) returns (seen: Seen, entries: seq<Entry>, conflict: bool)
    requires forall i :: 0 <= i < |rows| ==> |rows[i].inputs| == ni
    ensures conflict <==> HasConflict(rows, ni)
    ensures !conflict ==> SeenOf(seen, rows, ni, |rows|) && EntriesOf(entries, seen)
  {
    hide RowFor, Fits, SeenOf, EntriesOf, Agreeing, HasConflict;
    seen, entries, conflict := map[], [], false;
    NothingSeen(rows, ni);
    for r := 0 to |rows|
      invariant !conflict && SeenOf(seen, rows, ni, r) && EntriesOf(entries, seen) && Agreeing(rows, ni, r)
    {
      ghost var before := seen;
      seen, entries, conflict := ExpandRow(rows, r, ni, seen, entries);
      if conflict {
        ghost var m :| IsMinterm(m, ni) && Fits(rows[r], rows[r].state, m) && (rows[r].state, m) in before
                       && before[(rows[r].state, m)] != Move(rows[r].next, rows[r].outs);
        ConflictIsClash(rows, r, ni, before, m);
        return;
      }
      AgreeingGrows(rows, ni, r, before);
    }
    AgreeingHasNoConflict(rows, ni);
  }

  lemma AgreeingGrows(rows: seq<FsmRow>, ni: nat, r: nat, seen: Seen)
    requires r < |rows| && (forall i :: 0 <= i < |rows| ==> |rows[i].inputs| == ni)
    requires SeenOf(seen, rows, ni, r) && Agreeing(rows, ni, r)
    requires forall m :: IsMinterm(m, ni) && Fits(rows[r], rows[r].state, m) && (rows[r].state, m) in seen
               ==> seen[(rows[r].state, m)] == Move(rows[r].next, rows[r].outs)
    ensures Agreeing(rows, ni, r + 1)
  {
    hide RowFor, Fits;
  }

  lemma NothingSeen(rows: seq<FsmRow>, ni: nat)
    requires forall i :: 0 <= i < |rows| ==> |rows[i].inputs| == ni
    ensures SeenOf(map[], rows, ni, 0) && EntriesOf([], map[]) && Agreeing(rows, ni, 0)
  {
  }

  function AnyInput(n: nat): (c: Cube)
    ensures |c| == n && forall m :: IsMinterm(m, n) ==> Covers(c, m)
  {
    seq(n, _ => Dash)
  }

  /** The table after routing: the CSV's move, or the trap where the CSV has none. */
  ghost predicate Routed(seen: Seen, rows: seq<FsmRow>, ni: nat, no: nat, s: string)
    requires forall i :: 0 <= i < |rows| ==> |rows[i].inputs| == ni
  {
    forall m :: IsMinterm(m, ni) ==> (s, m) in seen && seen[(s, m)] == CsvMove(rows, s, m, no)
  }

  ghost predicate Unrouted(seen: Seen, rows: seq<FsmRow>, ni: nat, s: string)
    requires forall i :: 0 <= i < |rows| ==> |rows[i].inputs| == ni
  {
    forall m :: IsMinterm(m, ni) ==>
      var r := RowFor(rows, s, m, |rows|);
      ((s, m) in seen <==> r.Some?) && (r.Some? ==> seen[(s, m)] == Move(rows[r.value].next, rows[r.value].outs))
  }

  /** Route one state's undefined vectors to ERROR with all outputs 0. */
  method RouteState(rows: seq<FsmRow>, ni: nat, no: nat, s: string, seen0: Seen, entries0: seq<Entry>)
    returns (seen: Seen, entries: seq<Entry>)
    requires forall i :: 0 <= i < |rows| ==> |rows[i].inputs| == ni
    requires s != ERROR && Unrouted(seen0, rows, ni, s) && EntriesOf(entries0, seen0)
    ensures Routed(seen, rows, ni, no, s) && EntriesOf(entries, seen)
    ensures forall k :: k in seen0 ==> k in seen && seen[k] == seen0[k]
    ensures forall k :: k in seen && k !in seen0 ==> k.0 == s && IsMinterm(k.1, ni)
  {
    hide RowFor, Covers, Expand, EntriesOf;
    seen, entries := seen0, entries0;
    var combos := Expand(AnyInput(ni));
    forall m ensures m in combos <==> IsMinterm(m, ni) { ExpandsToCovered(AnyInput(ni), m); }
    for k := 0 to |combos|
      invariant forall key :: key in seen <==> key in seen0 || (key.0 == s && key.1 in combos[..k])
      invariant forall key :: key in seen0 ==> key in seen && seen[key] == seen0[key]
      invariant forall key :: key in seen && key !in seen0 ==> seen[key] == Trap(no)
      invariant EntriesOf(entries, seen)
    {
      var m := combos[k];
      assert combos[..k + 1] == combos[..k] + [m];
      ghost var before := seen;
      if (s, m) !in seen {
        seen := seen[(s, m) := Trap(no)];
        AddEntry(entries, before, seen, Entry(s, m, Trap(no)));
        entries := entries + [Entry(s, m, Trap(no))];
      }
    }
    assert combos[..|combos|] == combos;
  }

  /** Route every user-defined state. */
  method RouteAll(rows: seq<FsmRow>, ni: nat, no: nat, states: set<string>, seen0: Seen, entries0: seq<Entry>)
    returns (seen: Seen, entries: seq<Entry>)
    requires forall i :: 0 <= i < |rows| ==> |rows[i].inputs| == ni
    requires SeenOf(seen0, rows, ni, |rows|) && EntriesOf(entries0, seen0)
    ensures forall s :: s in states && s != ERROR ==> Routed(seen, rows, ni, no, s)
    ensures EntriesOf(entries, seen)
    ensures forall k :: k in seen ==> IsMinterm(k.1, ni) && (k in seen0 || (k.0 in states && k.0 != ERROR))
    ensures forall k :: k in seen0 ==> k in seen && seen[k] == seen0[k]
  {
    hide RowFor, Covers, EntriesOf, Routed, Unrouted;
    seen, entries := seen0, entries0;
    var rest := states - {ERROR};
    forall s ensures Unrouted(seen, rows, ni, s) { SeenIsUnrouted(seen, rows, ni, s); }
    while rest != {}
      invariant rest <= states - {ERROR} && EntriesOf(entries, seen)
      invariant forall s :: s in states - {ERROR} - rest ==> Routed(seen, rows, ni, no, s)
      invariant forall s :: s in rest ==> Unrouted(seen, rows, ni, s)
      invariant forall k :: k in seen ==> IsMinterm(k.1, ni) && (k in seen0 || (k.0 in states && k.0 != ERROR))
      invariant forall k :: k in seen0 ==> k in seen && seen[k] == seen0[k]
      decreases |rest|
    {
      var s :| s in rest;
      ghost var before := seen;
      seen, entries := RouteState(rows, ni, no, s, seen, entries);
      forall t | t != s
        ensures Routed(before, rows, ni, no, t) ==> Routed(seen, rows, ni, no, t)
        ensures Unrouted(before, rows, ni, t) ==> Unrouted(seen, rows, ni, t)
      {
        OthersKeepRoute(before, seen, rows, ni, no, s, t);
      }
      rest := rest - {s};
    }
  }

  lemma SeenIsUnrouted(seen: Seen, rows: seq<FsmRow>, ni: nat, s: string)
    requires forall i :: 0 <= i < |rows| ==> |rows[i].inputs| == ni
    requires SeenOf(seen, rows, ni, |rows|)
    ensures Unrouted(seen, rows, ni, s)
  {
  }

  lemma OthersKeepRoute(before: Seen, seen: Seen, rows: seq<FsmRow>, ni: nat, no: nat, s: string, t: string)
    requires forall i :: 0 <= i < |rows| ==> |rows[i].inputs| == ni
    requires s != t
    requires forall k :: k in before ==> k in seen && seen[k] == before[k]
    requires forall k :: k in seen && k !in before ==> k.0 == s
    ensures Routed(before, rows, ni, no, t) ==> Routed(seen, rows, ni, no, t)
    ensures Unrouted(before, rows, ni, t) ==> Unrouted(seen, rows, ni, t)
  {
  }

  // ---------- the coded truth table ----------

  function BitMarks(b: seq<bool>): (r: seq<Mark>)
    ensures |r| == |b| && forall i :: 0 <= i < |b| ==> r[i] == if b[i] then M1 else M0
  {
    seq(|b|, i requires 0 <= i < |b| => if b[i] then M1 else M0)
  }

  /** State bits and inputs, as one vector. */
  function Key(enc: Codes, nb: nat, s: string, m: Cube): (k: Cube)
    requires s in enc
  {
    MintermOf(BitsOf(enc[s], nb)) + m
  }

  /** Next-state bits and outputs, as one row of the PLA. */
  function Code(enc: Codes, nb: nat, move: Move): seq<Mark>
    requires move.next in enc
  {
    BitMarks(BitsOf(enc[move.next], nb)) + move.outs
  }

  lemma KeyInjective(enc: Codes, nb: nat, states: set<string>, s: string, m: Cube, t: string, n: Cube)
    requires GoodCodes(enc, states) && |states| <= Pow2(nb) && s in enc && t in enc
    requires Key(enc, nb, s, m) == Key(enc, nb, t, n)
    ensures s == t && m == n
  {
    var a, b := BitsOf(enc[s], nb), BitsOf(enc[t], nb);
    assert MintermOf(a) == Key(enc, nb, s, m)[..nb] == Key(enc, nb, t, n)[..nb] == MintermOf(b);
    assert m == Key(enc, nb, s, m)[nb..] == Key(enc, nb, t, n)[nb..] == n;
    forall i | 0 <= i < nb ensures a[i] == b[i] {
      assert MintermOf(a)[i] == MintermOf(b)[i];
    }
    BitsInjective(enc[s], enc[t], nb);
  }

  type Pla = map<Cube, seq<Mark>>

  ghost predicate MoveIn(enc: Codes, move: Move, no: nat) { move.next in enc && |move.outs| == no }

  /** Every entry up to `n` has its row in the PLA. */
  ghost predicate PlaHas(pla: Pla, enc: Codes, nb: nat, entries: seq<Entry>, n: nat, no: nat)
    requires n <= |entries|
  {
    forall i :: 0 <= i < n ==>
      entries[i].state in enc && MoveIn(enc, entries[i].move, no)
      && Key(enc, nb, entries[i].state, entries[i].m) in pla
      && pla[Key(enc, nb, entries[i].state, entries[i].m)] == Code(enc, nb, entries[i].move)
  }

  /** The PLA holds rows of the right shape and nothing but keys of states. */
  ghost predicate PlaShape(pla: Pla, enc: Codes, nb: nat, ni: nat, no: nat) {
    forall k :: k in pla ==>
      && |pla[k]| == nb + no
      && (exists s, m :: s in enc && IsMinterm(m, ni) && k == Key(enc, nb, s, m))
  }

  ghost predicate EntriesFit(entries: seq<Entry>, enc: Codes, ni: nat, no: nat) {
    forall i :: 0 <= i < |entries| ==> entries[i].state in enc && IsMinterm(entries[i].m, ni) && MoveIn(enc, entries[i].move, no)
  }

  /** Entries of one state and vector have one move. */
  ghost predicate Functional(entries: seq<Entry>) {
    forall i, j :: 0 <= i < |entries| && 0 <= j < |entries| && entries[i].state == entries[j].state && entries[i].m == entries[j].m
      ==> entries[i].move == entries[j].move
  }

  predicate Coded(entries: seq<Entry>, enc: Codes) {
    forall i :: 0 <= i < |entries| ==> entries[i].state in enc && entries[i].move.next in enc
  }

  /** The last of the first `n` entries with the key. */
  function Latest(entries: seq<Entry>, enc: Codes, nb: nat, n: nat, k: Cube): (r: Option<nat>)
    requires n <= |entries| && Coded(entries, enc)
    ensures r.None? ==> forall i :: 0 <= i < n ==> Key(enc, nb, entries[i].state, entries[i].m) != k
    ensures r.Some? ==> r.value < n && Key(enc, nb, entries[r.value].state, entries[r.value].m) == k
    ensures r.Some? ==> forall i :: r.value < i < n ==> Key(enc, nb, entries[i].state, entries[i].m) != k
    decreases n
  {
    if n == 0 then None
    else if Key(enc, nb, entries[n - 1].state, entries[n - 1].m) == k then Some(n - 1)
    else Latest(entries, enc, nb, n - 1, k)
  }

  /** The row of the key is that of its last entry, or the one from before. */
  predicate RowOf(pla: Pla, pla0: Pla, entries: seq<Entry>, enc: Codes, nb: nat, n: nat, k: Cube)
    requires n <= |entries| && Coded(entries, enc)
  {
    match Latest(entries, enc, nb, n, k)
    case Some(i) => k in pla && pla[k] == Code(enc, nb, entries[i].move)
    case None => (k in pla <==> k in pla0) && (k in pla ==> pla[k] == pla0[k])
  }

  ghost predicate Filled(pla: Pla, pla0: Pla, entries: seq<Entry>, enc: Codes, nb: nat, n: nat)
    requires n <= |entries| && Coded(entries, enc)
  {
    forall k :: RowOf(pla, pla0, entries, enc, nb, n, k)
  }

  /** The PLA is filled row by row; a later row replaces an earlier one with the same key. */
  method FillPla(pla0: Pla, entries: seq<Entry>, enc: Codes, nb: nat) returns (pla: Pla)
    requires Coded(entries, enc)
    ensures Filled(pla, pla0, entries, enc, nb, |entries|)
  {
    hide Filled, Coded, Key, Code;
    pla := pla0;
    NothingFilled(pla0, entries, enc, nb);
    for i := 0 to |entries|
      invariant Filled(pla, pla0, entries, enc, nb, i)
    {
      var e := entries[i];
      IsCoded(entries, enc, i);
      FilledMore(pla, pla0, entries, enc, nb, i);
      pla := pla[Key(enc, nb, e.state, e.m) := Code(enc, nb, e.move)];
    }
  }

  lemma NothingFilled(pla0: Pla, entries: seq<Entry>, enc: Codes, nb: nat)
    requires Coded(entries, enc)
    ensures Filled(pla0, pla0, entries, enc, nb, 0)
  {
  }

  lemma IsCoded(entries: seq<Entry>, enc: Codes, i: nat)
    requires Coded(entries, enc) && i < |entries|
    ensures entries[i].state in enc && entries[i].move.next in enc
  {
  }

  lemma FilledMore(pla: Pla, pla0: Pla, entries: seq<Entry>, enc: Codes, nb: nat, i: nat)
    requires i < |entries| && Coded(entries, enc) && Filled(pla, pla0, entries, enc, nb, i)
    ensures var e := entries[i];
      Filled(pla[Key(enc, nb, e.state, e.m) := Code(enc, nb, e.move)], pla0, entries, enc, nb, i + 1)
  {
    hide Key, Code;
    var e := entries[i];
    var more := pla[Key(enc, nb, e.state, e.m) := Code(enc, nb, e.move)];
    forall k {:trigger RowOf(more, pla0, entries, enc, nb, i + 1, k)} ensures RowOf(more, pla0, entries, enc, nb, i + 1, k) {
      assert RowOf(pla, pla0, entries, enc, nb, i, k);
    }
  }

  /** If entries with one key have one move, the PLA holds the rows of all of them. */
  lemma FilledHas(pla: Pla, pla0: Pla, entries: seq<Entry>, enc: Codes, nb: nat, states: set<string>, ni: nat, no: nat)
    requires GoodCodes(enc, states) && |states| <= Pow2(nb)
    requires EntriesFit(entries, enc, ni, no) && Functional(entries) && PlaShape(pla0, enc, nb, ni, no)
    requires Filled(pla, pla0, entries, enc, nb, |entries|)
    ensures PlaHas(pla, enc, nb, entries, |entries|, no) && PlaShape(pla, enc, nb, ni, no)
    ensures forall k :: k in pla0 ==> k in pla
    ensures forall k :: k in pla0 && (forall i :: 0 <= i < |entries| ==> entries[i].state in enc && Key(enc, nb, entries[i].state, entries[i].m) != k)
              ==> pla[k] == pla0[k]
  {
    hide Key, Code, GoodCodes, PlaShape;
    forall k | k in pla0
      ensures k in pla
      ensures (forall i :: 0 <= i < |entries| ==> entries[i].state in enc && Key(enc, nb, entries[i].state, entries[i].m) != k) ==> pla[k] == pla0[k]
    {
      assert RowOf(pla, pla0, entries, enc, nb, |entries|, k);
    }
    forall i | 0 <= i < |entries|
      ensures Key(enc, nb, entries[i].state, entries[i].m) in pla
              && pla[Key(enc, nb, entries[i].state, entries[i].m)] == Code(enc, nb, entries[i].move)
    {
      var k := Key(enc, nb, entries[i].state, entries[i].m);
      assert RowOf(pla, pla0, entries, enc, nb, |entries|, k);
      var j := Latest(entries, enc, nb, |entries|, k).value;
      KeyInjective(enc, nb, states, entries[i].state, entries[i].m, entries[j].state, entries[j].m);
    }
    FilledShape(pla, pla0, entries, enc, nb, ni, no);
  }

  lemma FilledShape(pla: Pla, pla0: Pla, entries: seq<Entry>, enc: Codes, nb: nat, ni: nat, no: nat)
    requires EntriesFit(entries, enc, ni, no) && PlaShape(pla0, enc, nb, ni, no)
    requires Filled(pla, pla0, entries, enc, nb, |entries|)
    ensures PlaShape(pla, enc, nb, ni, no)
  {
    forall k | k in pla ensures |pla[k]| == nb + no && (exists s, m :: s in enc && IsMinterm(m, ni) && k == Key(enc, nb, s, m)) {
      var r := Latest(entries, enc, nb, |entries|, k);
      assert RowOf(pla, pla0, entries, enc, nb, |entries|, k);
      if r.Some? {
        var e := entries[r.value];
        assert e.state in enc && IsMinterm(e.m, ni) && k == Key(enc, nb, e.state, e.m);
      }
    }
  }

  /** The finished PLA: for every state and input vector, the coded move of the CSV's machine. */
  ghost predicate PlaRight(pla: Pla, rows: seq<FsmRow>, enc: Codes, nb: nat, ni: nat, no: nat)
    requires forall i :: 0 <= i < |rows| ==> |rows[i].inputs| == ni
  {
    && PlaShape(pla, enc, nb, ni, no)
    && forall s, m :: s in enc && IsMinterm(m, ni) ==>
         var move := CsvMove(rows, s, m, no);
         move.next in enc && Key(enc, nb, s, m) in pla && pla[Key(enc, nb, s, m)] == Code(enc, nb, move)
  }

  function TrapEntries(vectors: seq<Cube>, no: nat): (es: seq<Entry>)
    ensures |es| == |vectors| && forall i :: 0 <= i < |es| ==> es[i] == Entry(ERROR, vectors[i], Trap(no))
  {
    seq(|vectors|, i requires 0 <= i < |vectors| => Entry(ERROR, vectors[i], Trap(no)))
  }

  predicate NextStatesDefined(rows: seq<FsmRow>) { forall i :: 0 <= i < |rows| ==> rows[i].next in States(rows) }

  lemma MovesFit(rows: seq<FsmRow>, ni: nat, no: nat, enc: Codes, s: string, m: Cube)
    requires WellFormedRows(rows, ni, no) && NextStatesDefined(rows) && enc.Keys == States(rows) && |m| == ni
    ensures MoveIn(enc, CsvMove(rows, s, m, no), no)
  {
  }

  lemma SeenFits(rows: seq<FsmRow>, ni: nat, no: nat, enc: Codes, seen0: Seen, seen: Seen, entries: seq<Entry>)
    requires WellFormedRows(rows, ni, no) && NextStatesDefined(rows) && enc.Keys == States(rows)
    requires SeenOf(seen0, rows, ni, |rows|) && EntriesOf(entries, seen)
    requires forall s :: s in enc && s != ERROR ==> Routed(seen, rows, ni, no, s)
    requires forall k :: k in seen ==> IsMinterm(k.1, ni) && (k in seen0 || (k.0 in enc && k.0 != ERROR))
    requires forall k :: k in seen0 ==> k in seen && seen[k] == seen0[k]
    ensures EntriesFit(entries, enc, ni, no) && Functional(entries) && Coded(entries, enc)
  {
    hide Covers;
    forall k | k in seen ensures k.0 in enc && MoveIn(enc, seen[k], no) {
      var r := RowFor(rows, k.0, k.1, |rows|);
      if k in seen0 {
        assert r.Some? && rows[r.value].state == k.0;
      } else {
        MovesFit(rows, ni, no, enc, k.0, k.1);
        assert Routed(seen, rows, ni, no, k.0);
        assert k == (k.0, k.1);
      }
    }
  }

  method BuildPla(rows: seq<FsmRow>, ni: nat, no: nat, enc: Codes, nb: nat, ghost states: set<string>, seen0: Seen, entries0: seq<Entry>)
    returns (pla: Pla)
    requires WellFormedRows(rows, ni, no) && NextStatesDefined(rows) && states == States(rows)
    requires GoodCodes(enc, states) && |states| <= Pow2(nb)
    requires SeenOf(seen0, rows, ni, |rows|) && EntriesOf(entries0, seen0)
    ensures PlaRight(pla, rows, enc, nb, ni, no)
  {
    hide SeenOf, EntriesOf, PlaShape, PlaHas, Routed, RowFor, Covers, Expand, Functional, EntriesFit, Filled, Coded;
    var seen, entries := RouteAll(rows, ni, no, enc.Keys, seen0, entries0);
    SeenFits(rows, ni, no, enc, seen0, seen, entries);
    assert PlaShape(map[], enc, nb, ni, no) by { EmptyPla(enc, nb, ni, no); }
    var first := FillPla(map[], entries, enc, nb);
    FilledHas(first, map[], entries, enc, nb, states, ni, no);
    var vectors := Expand(AnyInput(ni));
    forall m ensures m in vectors <==> IsMinterm(m, ni) { ExpandsToCovered(AnyInput(ni), m); }
    var loops := TrapEntries(vectors, no);
    TrapEntriesFit(vectors, loops, enc, ni, no);
    pla := FillPla(first, loops, enc, nb);
    FilledHas(pla, first, loops, enc, nb, states, ni, no);
    forall s, m | s in enc && IsMinterm(m, ni)
      ensures var move := CsvMove(rows, s, m, no);
              move.next in enc && Key(enc, nb, s, m) in pla && pla[Key(enc, nb, s, m)] == Code(enc, nb, move)
    {
      if s == ERROR {
        TrapInPla(pla, enc, nb, vectors, loops, m, no);
      } else {
        CsvInPla(first, pla, rows, enc, nb, states, seen, entries, loops, s, m, ni, no);
      }
    }
  }

  lemma EmptyPla(enc: Codes, nb: nat, ni: nat, no: nat)
    ensures PlaShape(map[], enc, nb, ni, no)
  {
  }

  lemma TrapEntriesFit(vectors: seq<Cube>, loops: seq<Entry>, enc: Codes, ni: nat, no: nat)
    requires loops == TrapEntries(vectors, no) && ERROR in enc
    requires forall m :: m in vectors ==> IsMinterm(m, ni)
    ensures EntriesFit(loops, enc, ni, no) && Functional(loops) && Coded(loops, enc)
  {
    forall i | 0 <= i < |loops| ensures IsMinterm(loops[i].m, ni) { assert vectors[i] in vectors; }
  }

  lemma TrapInPla(pla: Pla, enc: Codes, nb: nat, vectors: seq<Cube>, loops: seq<Entry>, m: Cube, no: nat)
    requires loops == TrapEntries(vectors, no) && m in vectors && PlaHas(pla, enc, nb, loops, |loops|, no)
    ensures ERROR in enc && Key(enc, nb, ERROR, m) in pla && pla[Key(enc, nb, ERROR, m)] == Code(enc, nb, Trap(no))
  {
    var i :| 0 <= i < |vectors| && vectors[i] == m;
    assert loops[i] == Entry(ERROR, m, Trap(no));
  }

  lemma CsvInPla(first: Pla, pla: Pla, rows: seq<FsmRow>, enc: Codes, nb: nat, states: set<string>, seen: Seen,
                 entries: seq<Entry>, loops: seq<Entry>, s: string, m: Cube, ni: nat, no: nat)
    requires forall i :: 0 <= i < |rows| ==> |rows[i].inputs| == ni
    requires GoodCodes(enc, states) && |states| <= Pow2(nb) && s in enc && s != ERROR && IsMinterm(m, ni)
    requires Routed(seen, rows, ni, no, s) && EntriesOf(entries, seen) && PlaHas(first, enc, nb, entries, |entries|, no)
    requires forall i :: 0 <= i < |loops| ==> loops[i].state == ERROR
    requires forall k :: k in first ==> k in pla
    requires forall k :: k in first && (forall i :: 0 <= i < |loops| ==> loops[i].state in enc && Key(enc, nb, loops[i].state, loops[i].m) != k)
               ==> pla[k] == first[k]
    ensures var move := CsvMove(rows, s, m, no);
            move.next in enc && Key(enc, nb, s, m) in pla && pla[Key(enc, nb, s, m)] == Code(enc, nb, move)
  {
    hide CsvMove;
    assert (s, m) in seen;
    var i :| 0 <= i < |entries| && (entries[i].state, entries[i].m) == (s, m);
    var k := Key(enc, nb, s, m);
    assert k in first && first[k] == Code(enc, nb, entries[i].move);
    forall j | 0 <= j < |loops| ensures loops[j].state in enc && Key(enc, nb, loops[j].state, loops[j].m) != k {
      if Key(enc, nb, ERROR, loops[j].m) == k { KeyInjective(enc, nb, states, ERROR, loops[j].m, s, m); }
    }
  }

  // ---------- the generator ----------

  /** The vectors whose PLA row has a mark of one kind in column `c`. */
  function Marked(pla: Pla, keys: seq<Cube>, c: nat, on: bool): (ms: seq<Cube>)
    requires forall k :: k in keys ==> k in pla && c < |pla[k]|
    ensures forall m :: m in ms <==> m in keys && if on then pla[m][c] == M1 else DontCare(pla[m][c])
    decreases |keys|
  {
    if keys == [] then []
    else
      assert keys == [keys[0]] + keys[1..];
      var hit := if on then pla[keys[0]][c] == M1 else DontCare(pla[keys[0]][c]);
      (if hit then [keys[0]] else []) + Marked(pla, keys[1..], c, on)
  }

  /** The generated block: state width, state codes, equations, gates. Outputs 0..width-1 of the block are the
      next-state bits, the CSV's outputs follow. */
  datatype Fsm = Fsm(width: nat, enc: Codes, equations: seq<seq<Term>>, gates: seq<Gate>)

  datatype Outcome = NoIdle | UndefinedNext | Conflicting | Compiled(fsm: Fsm)

  predicate MarkAllows(k: Mark, value: bool) { (k == M1 ==> value) && (k == M0 ==> !value) }

  /** In every satisfying valuation that shows a state's code and an input vector, the next-state
      bits are the code of the next state and the outputs are what the row asks for. */
  ghost predicate StepCorrect(f: Fsm, rows: seq<FsmRow>, ni: nat, no: nat)
    requires forall i :: 0 <= i < |rows| ==> |rows[i].inputs| == ni
  {
    forall v: Valuation, s: string, x: seq<bool> ::
      s in f.enc && |x| == ni && Satisfies(v, f.gates) && Shows(v, BitsOf(f.enc[s], f.width) + x)
      ==> MoveShown(v, f, CsvMove(rows, s, MintermOf(x), no))
  }

  ghost predicate MoveShown(v: Valuation, f: Fsm, move: Move) {
    && move.next in f.enc
    && (forall b: nat :: b < f.width ==> v(Output(b)) == BitsOf(f.enc[move.next], f.width)[b])
    && (forall o: nat :: o < |move.outs| ==> MarkAllows(move.outs[o], v(Output(f.width + o))))
  }

  predicate HasIdle(rows: seq<FsmRow>) { exists i :: 0 <= i < |rows| && rows[i].state == IDLE }

  /** The checks in terms of the table: some row is for IDLE, and every next state is ERROR or has a row. */
  lemma ChecksMean(rows: seq<FsmRow>)
    ensures HasIdle(rows) <==> !forall i :: 0 <= i < |rows| ==> rows[i].state != IDLE
    ensures NextStatesDefined(rows) <==> forall i :: 0 <= i < |rows| ==> rows[i].next == ERROR || HasState(rows, rows[i].next)
  {
    forall i | 0 <= i < |rows| ensures rows[i].next in States(rows) <==> rows[i].next == ERROR || HasState(rows, rows[i].next) {
    }
  }

  predicate HasState(rows: seq<FsmRow>, s: string) { exists j :: 0 <= j < |rows| && rows[j].state == s }

  /** Everything after the checks: codes, PLA, and the gates for each of its columns. */
  method CompileTable(rows: seq<FsmRow>, ni: nat, no: nat, states: set<string>, seen: Seen, entries: seq<Entry>) returns (f: Fsm)
    requires WellFormedRows(rows, ni, no) && NextStatesDefined(rows)
    requires states == States(rows) && IDLE in states && ERROR in states && |states| >= 1
    requires SeenOf(seen, rows, ni, |rows|) && EntriesOf(entries, seen)
    ensures GoodCodes(f.enc, states) && |states| <= Pow2(f.width) && (f.width > 1 ==> Pow2(f.width - 1) < |states|)
    ensures AllFit(f.gates) && Ordered(f.gates, Inputs(f.width + ni)) && StepCorrect(f, rows, ni, no)
    ensures |f.equations| == f.width + no && (AnyOneInput(f.gates) <==> LoneSums(f.equations, |f.equations|))
  {
    hide SeenOf, EntriesOf, PlaRight, GoodCodes, Ordered, AllFit, StepCorrect, BlockCorrect, NextStatesDefined, States, Pow2;
    hide LoneSums, EquationOf, AnyOneInput;
    var enc := Enumerate(states);
    var width := BitsNeeded(|states|);
    var pla := BuildPla(rows, ni, no, enc, width, states, seen, entries);
    var keys := ListOf(pla.Keys);
    PlaColumns(pla, keys, rows, enc, width, ni, no);
    var ons, dcs := Columns(pla, keys, width + no);
    var gates, equations := CompileBlock(true, ons, dcs, width + ni);
    BlockShape(gates, ons, dcs, width + ni);
    f := Fsm(width, enc, equations, gates);
    BlockSteps(f, pla, keys, ons, dcs, rows, ni, no);
  }

  method Columns(pla: Pla, keys: seq<Cube>, n: nat) returns (ons: seq<seq<Cube>>, dcs: seq<seq<Cube>>)
    requires forall k :: k in keys ==> k in pla && |pla[k]| == n
    ensures |ons| == |dcs| == n
    ensures forall p: nat :: p < n ==> ons[p] == Marked(pla, keys, p, true) && dcs[p] == Marked(pla, keys, p, false)
  {
    ons, dcs := [], [];
    for c := 0 to n
      invariant |ons| == |dcs| == c
      invariant forall p: nat :: p < c ==> ons[p] == Marked(pla, keys, p, true) && dcs[p] == Marked(pla, keys, p, false)
    {
      ons := ons + [Marked(pla, keys, c, true)];
      dcs := dcs + [Marked(pla, keys, c, false)];
    }
  }

  lemma BlockShape(gates: seq<Gate>, ons: seq<seq<Cube>>, dcs: seq<seq<Cube>>, n: nat)
    requires |ons| == |dcs| && BlockCorrect(gates, ons, dcs, n)
    ensures AllFit(gates) && Ordered(gates, Inputs(n))
  {
  }

  method Compile(rows: seq<FsmRow>, ni: nat, no: nat) returns (r: Outcome)
    requires WellFormedRows(rows, ni, no)
    ensures r.NoIdle? <==> !HasIdle(rows)
    ensures r.UndefinedNext? <==> HasIdle(rows) && !NextStatesDefined(rows)
    ensures r.Conflicting? <==> HasIdle(rows) && NextStatesDefined(rows) && HasConflict(rows, ni)
    ensures r.Compiled? ==> GoodCodes(r.fsm.enc, States(rows)) && |States(rows)| <= Pow2(r.fsm.width)
                            && (r.fsm.width > 1 ==> Pow2(r.fsm.width - 1) < |States(rows)|)
    ensures r.Compiled? ==> AllFit(r.fsm.gates) && Ordered(r.fsm.gates, Inputs(r.fsm.width + ni))
    ensures r.Compiled? ==> StepCorrect(r.fsm, rows, ni, no)
    ensures r.Compiled? ==> |r.fsm.equations| == r.fsm.width + no
    ensures r.Compiled? ==> (AnyOneInput(r.fsm.gates) <==> LoneSums(r.fsm.equations, |r.fsm.equations|))
  {
    hide LoneSums, AnyOneInput, SeenOf, EntriesOf, PlaRight, PlaShape, RowFor, Covers, HasConflict, GoodCodes, Ordered, AllFit, StepCorrect, BlockCorrect;
    if !HasIdle(rows) { return NoIdle; }
    var states := States(rows);
    if !NextStatesDefined(rows) { return UndefinedNext; }
    var seen, entries, conflict := ExpandTable(rows, ni);
    if conflict { return Conflicting; }
    IdleIsState(rows);
    var f := CompileTable(rows, ni, no, states, seen, entries);
    return Compiled(f);
  }

  lemma IdleIsState(rows: seq<FsmRow>)
    requires HasIdle(rows)
    ensures IDLE in States(rows) && ERROR in States(rows) && |States(rows)| >= 1
  {
    assert States(rows) == (States(rows) - {ERROR}) + {ERROR};
  }

  lemma PlaColumns(pla: Pla, keys: seq<Cube>, rows: seq<FsmRow>, enc: Codes, nb: nat, ni: nat, no: nat)
    requires forall i :: 0 <= i < |rows| ==> |rows[i].inputs| == ni
    requires PlaRight(pla, rows, enc, nb, ni, no) && forall k :: k in keys <==> k in pla
    ensures forall k :: k in keys ==> k in pla && |pla[k]| == nb + no && IsMinterm(k, nb + ni)
  {
    forall k | k in keys ensures IsMinterm(k, nb + ni) {
      var s, m :| s in enc && IsMinterm(m, ni) && k == Key(enc, nb, s, m);
    }
  }

  lemma BlockSteps(f: Fsm, pla: Pla, keys: seq<Cube>, ons: seq<seq<Cube>>, dcs: seq<seq<Cube>>, rows: seq<FsmRow>, ni: nat, no: nat)
    requires WellFormedRows(rows, ni, no) && PlaRight(pla, rows, f.enc, f.width, ni, no)
    requires forall k :: k in keys <==> k in pla
    requires forall k :: k in keys ==> k in pla && |pla[k]| == f.width + no
    requires |ons| == |dcs| == f.width + no && BlockCorrect(f.gates, ons, dcs, f.width + ni)
    requires forall p: nat :: p < f.width + no ==> ons[p] == Marked(pla, keys, p, true) && dcs[p] == Marked(pla, keys, p, false)
    ensures StepCorrect(f, rows, ni, no)
  {
    hide CsvMove, PlaRight, Satisfies, BlockCorrect, Shows, MoveShown, MintermOf;
    forall v: Valuation, s: string, x: seq<bool>
      | s in f.enc && |x| == ni && Satisfies(v, f.gates) && Shows(v, BitsOf(f.enc[s], f.width) + x)
      ensures MoveShown(v, f, CsvMove(rows, s, MintermOf(x), no))
    {
      BlockStep(f, pla, keys, ons, dcs, rows, ni, no, v, s, x);
    }
  }

  lemma BlockStep(f: Fsm, pla: Pla, keys: seq<Cube>, ons: seq<seq<Cube>>, dcs: seq<seq<Cube>>, rows: seq<FsmRow>, ni: nat, no: nat,
                  v: Valuation, s: string, x: seq<bool>)
    requires WellFormedRows(rows, ni, no) && PlaRight(pla, rows, f.enc, f.width, ni, no)
    requires forall k :: k in keys <==> k in pla
    requires forall k :: k in keys ==> k in pla && |pla[k]| == f.width + no
    requires |ons| == |dcs| == f.width + no && BlockCorrect(f.gates, ons, dcs, f.width + ni)
    requires forall p: nat :: p < f.width + no ==> ons[p] == Marked(pla, keys, p, true) && dcs[p] == Marked(pla, keys, p, false)
    requires s in f.enc && |x| == ni && Satisfies(v, f.gates) && Shows(v, BitsOf(f.enc[s], f.width) + x)
    ensures |MintermOf(x)| == ni && MoveShown(v, f, CsvMove(rows, s, MintermOf(x), no))
  {
    hide CsvMove, PlaShape, Satisfies, Ordered, AllFit, Shows, MoveShown;
    var y := BitsOf(f.enc[s], f.width) + x;
    VectorOfKey(f.enc, f.width, s, x);
    var m := MintermOf(x);
    var k := Key(f.enc, f.width, s, m);
    assert IsMinterm(m, ni);
    var move := CsvMove(rows, s, m, no);
    assert move.next in f.enc && k in pla && pla[k] == Code(f.enc, f.width, move);
    hide PlaRight;
    forall c: nat | c < f.width + no ensures MarkAllows(pla[k][c], v(Output(c))) {
      assert OutputRight(v(Output(c)), MintermOf(y), ons[c], dcs[c]);
    }
    ColumnsShow(v, f, move, pla[k]);
  }

  lemma VectorOfKey(enc: Codes, nb: nat, s: string, x: seq<bool>)
    requires s in enc
    ensures MintermOf(BitsOf(enc[s], nb) + x) == Key(enc, nb, s, MintermOf(x))
  {
  }

  lemma ColumnsShow(v: Valuation, f: Fsm, move: Move, row: seq<Mark>)
    requires move.next in f.enc && row == Code(f.enc, f.width, move)
    requires forall c: nat :: c < |row| ==> MarkAllows(row[c], v(Output(c)))
    ensures MoveShown(v, f, move)
  {
    forall b: nat | b < f.width ensures v(Output(b)) == BitsOf(f.enc[move.next], f.width)[b] {
      assert row[b] == BitMarks(BitsOf(f.enc[move.next], f.width))[b];
    }
    forall o: nat | o < |move.outs| ensures MarkAllows(move.outs[o], v(Output(f.width + o))) {
      assert row[f.width + o] == move.outs[o];
    }
  }

  // ---------- runs ----------

  /** The CSV's machine after the first `k` input vectors, from IDLE. */
  function CsvState(rows: seq<FsmRow>, xs: seq<seq<bool>>, k: nat, no: nat): string
    requires k <= |xs| && forall i, j :: 0 <= i < |rows| && 0 <= j < |xs| ==> |rows[i].inputs| == |xs[j]|
    decreases k
  {
    if k == 0 then IDLE else CsvMove(rows, CsvState(rows, xs, k - 1, no), MintermOf(xs[k - 1]), no).next
  }

  /** A run of the hardware: reset clears the flip-flops; in each cycle the wires settle to some
      valuation that satisfies the gates, and the clock edge stores the next-state bits. */
  ghost predicate HardwareRun(f: Fsm, xs: seq<seq<bool>>, regs: seq<seq<bool>>, vs: seq<Valuation>) {
    && |regs| == |xs| + 1 && |vs| == |xs|
    && regs[0] == seq(f.width, _ => false)
    && forall k :: 0 <= k < |xs| ==> ClockEdge(f, regs[k], xs[k], vs[k], regs[k + 1])
  }

  ghost predicate ClockEdge(f: Fsm, reg: seq<bool>, x: seq<bool>, v: Valuation, next: seq<bool>) {
    && Satisfies(v, f.gates) && Shows(v, reg + x)
    && |next| == f.width && forall b: nat :: b < f.width ==> next[b] == v(Output(b))
  }

  /** From reset, after any input sequence, the flip-flops hold the code of the CSV machine's state,
      and in every cycle the outputs are what its row specifies. */
  lemma {:induction false} FsmBisimulation(rows: seq<FsmRow>, ni: nat, no: nat, f: Fsm, xs: seq<seq<bool>>, regs: seq<seq<bool>>,
                                           vs: seq<Valuation>, k: nat)
    requires WellFormedRows(rows, ni, no) && GoodCodes(f.enc, States(rows)) && StepCorrect(f, rows, ni, no)
    requires (forall j :: 0 <= j < |xs| ==> |xs[j]| == ni) && HardwareRun(f, xs, regs, vs) && k <= |xs|
    ensures var s := CsvState(rows, xs, k, no);
            && s in f.enc && regs[k] == BitsOf(f.enc[s], f.width)
            && (k < |xs| ==> MoveShown(vs[k], f, CsvMove(rows, s, MintermOf(xs[k]), no)))
    decreases k
  {
    hide CsvMove, Satisfies, Shows, MoveShown, GoodCodes;
    if k == 0 {
      ZeroBits(f.width);
      IdleCode(f, rows);
    } else {
      FsmBisimulation(rows, ni, no, f, xs, regs, vs, k - 1);
      assert ClockEdge(f, regs[k - 1], xs[k - 1], vs[k - 1], regs[k]);
      NextRegister(f, CsvMove(rows, CsvState(rows, xs, k - 1, no), MintermOf(xs[k - 1]), no), regs[k - 1], xs[k - 1], vs[k - 1], regs[k]);
    }
    if k < |xs| {
      assert ClockEdge(f, regs[k], xs[k], vs[k], regs[k + 1]);
    }
  }

  lemma IdleCode(f: Fsm, rows: seq<FsmRow>)
    requires GoodCodes(f.enc, States(rows))
    ensures IDLE in f.enc && f.enc[IDLE] == 0
  {
  }

  lemma NextRegister(f: Fsm, move: Move, reg: seq<bool>, x: seq<bool>, v: Valuation, next: seq<bool>)
    requires ClockEdge(f, reg, x, v, next) && MoveShown(v, f, move)
    ensures move.next in f.enc && next == BitsOf(f.enc[move.next], f.width)
  {
  }

  lemma ErrorIsTrap(rows: seq<FsmRow>, m: Cube, no: nat)
    requires forall i :: 0 <= i < |rows| ==> |rows[i].inputs| == |m|
    ensures CsvMove(rows, ERROR, m, no) == Trap(no)
  {
  }

  /** Reset puts the flip-flops into IDLE. */
  lemma ResetIsIdle(rows: seq<FsmRow>, f: Fsm, xs: seq<seq<bool>>, regs: seq<seq<bool>>, vs: seq<Valuation>)
    requires GoodCodes(f.enc, States(rows)) && HardwareRun(f, xs, regs, vs)
    ensures IDLE in f.enc && regs[0] == BitsOf(f.enc[IDLE], f.width)
  {
    hide GoodCodes;
    ZeroBits(f.width);
    IdleCode(f, rows);
  }

  /** The hardware is in ERROR exactly when the CSV's machine is: no other state shares the code. */
  lemma ErrorShows(rows: seq<FsmRow>, ni: nat, no: nat, f: Fsm, xs: seq<seq<bool>>, regs: seq<seq<bool>>, vs: seq<Valuation>, k: nat)
    requires WellFormedRows(rows, ni, no) && GoodCodes(f.enc, States(rows)) && |States(rows)| <= Pow2(f.width) && StepCorrect(f, rows, ni, no)
    requires (forall j :: 0 <= j < |xs| ==> |xs[j]| == ni) && HardwareRun(f, xs, regs, vs) && k <= |xs|
    ensures ERROR in f.enc && (regs[k] == BitsOf(f.enc[ERROR], f.width) <==> CsvState(rows, xs, k, no) == ERROR)
  {
    hide CsvMove, CsvState, StepCorrect, ClockEdge;
    FsmBisimulation(rows, ni, no, f, xs, regs, vs, k);
    var s := CsvState(rows, xs, k, no);
    if regs[k] == BitsOf(f.enc[ERROR], f.width) { BitsInjective(f.enc[s], f.enc[ERROR], f.width); }
  }

  /** The outputs of the CSV follow the next-state bits, and all of them are 0. */
  predicate OutputsOff(v: Valuation, f: Fsm, no: nat) { forall o: nat :: f.width <= o < f.width + no ==> !v(Output(o)) }

  /** ERROR is a trap of the hardware: from the cycle in which the flip-flops hold its code they hold it in
      every later one, and all outputs are 0. */
  lemma {:induction false} ErrorTraps(rows: seq<FsmRow>, ni: nat, no: nat, f: Fsm, xs: seq<seq<bool>>, regs: seq<seq<bool>>,
                                      vs: seq<Valuation>, k: nat, j: nat)
    requires WellFormedRows(rows, ni, no) && ERROR in f.enc && StepCorrect(f, rows, ni, no)
    requires (forall i :: 0 <= i < |xs| ==> |xs[i]| == ni) && HardwareRun(f, xs, regs, vs) && k <= j <= |xs|
    requires regs[k] == BitsOf(f.enc[ERROR], f.width)
    ensures regs[j] == BitsOf(f.enc[ERROR], f.width)
    ensures j < |xs| ==> OutputsOff(vs[j], f, no)
    decreases j
  {
    hide CsvMove, Satisfies, Shows, MoveShown;
    if k < j {
      ErrorTraps(rows, ni, no, f, xs, regs, vs, k, j - 1);
      TrapShown(rows, ni, no, f, regs[j - 1], xs[j - 1], vs[j - 1], regs[j]);
    }
    if j < |xs| { TrapShown(rows, ni, no, f, regs[j], xs[j], vs[j], regs[j + 1]); }
  }

  lemma TrapShown(rows: seq<FsmRow>, ni: nat, no: nat, f: Fsm, reg: seq<bool>, x: seq<bool>, v: Valuation, next: seq<bool>)
    requires WellFormedRows(rows, ni, no) && ERROR in f.enc && StepCorrect(f, rows, ni, no) && |x| == ni
    requires reg == BitsOf(f.enc[ERROR], f.width) && ClockEdge(f, reg, x, v, next)
    ensures next == BitsOf(f.enc[ERROR], f.width) && OutputsOff(v, f, no)
  {
    hide Satisfies, Shows;
    ErrorIsTrap(rows, MintermOf(x), no);
    NextRegister(f, Trap(no), reg, x, v, next);
    forall o: nat | f.width <= o < f.width + no ensures !v(Output(o)) {
      assert MarkAllows(Trap(no).outs[o - f.width], v(Output(f.width + (o - f.width))));
    }
  }
}
