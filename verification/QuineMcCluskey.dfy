/** Two-level minimisation: the merging loop that finds the prime implicants, and the greedy cover
    that picks from them. A cube is a row of 0, 1 and dash; a minterm is a cube without dashes. */
module QuineMcCluskey {
  import opened Counting
  import opened Wrappers

  datatype Trit = Zero | One | Dash

  type Cube = seq<Trit>

  predicate IsMinterm(m: Cube, n: nat) { |m| == n && forall i :: 0 <= i < n ==> m[i] != Dash }

  predicate Covers(c: Cube, m: Cube)
    requires |c| == |m|
  {
    forall i :: 0 <= i < |c| ==> c[i] == Dash || c[i] == m[i]
  }

  /** Every minterm of the cube is allowed: it is in the ON or the don't-care set. */
  ghost predicate Implicant(c: Cube, n: nat, allowed: set<Cube>) {
    |c| == n && forall m :: IsMinterm(m, n) && Covers(c, m) ==> m in allowed
  }

  /** An implicant that stops being one when any of its literals is dropped. */
  ghost predicate Prime(c: Cube, n: nat, allowed: set<Cube>) {
    && Implicant(c, n, allowed)
    && forall p :: 0 <= p < n && c[p] != Dash ==> !Implicant(c[p := Dash], n, allowed)
  }

  function Dashes(c: Cube): nat
    decreases |c|
  {
    if c == [] then 0 else (if c[0] == Dash then 1 else 0) + Dashes(c[1..])
  }

  lemma {:induction false} DashesUpdate(c: Cube, p: nat, t: Trit)
    requires p < |c|
    ensures Dashes(c[p := t]) == Dashes(c) - (if c[p] == Dash then 1 else 0) + (if t == Dash then 1 else 0)
    decreases |c|
  {
    if p == 0 {
      assert c[p := t][1..] == c[1..];
    } else {
      assert c[p := t][1..] == c[1..][p - 1 := t];
      DashesUpdate(c[1..], p - 1, t);
    }
  }

  lemma {:induction false} DashesBound(c: Cube)
    ensures Dashes(c) <= |c|
    ensures Dashes(c) == 0 <==> forall i :: 0 <= i < |c| ==> c[i] != Dash
    decreases |c|
  {
    if c != [] {
      DashesBound(c[1..]);
      assert forall i :: 0 < i < |c| ==> c[i] == c[1..][i - 1];
      assert (forall i :: 0 <= i < |c| ==> c[i] != Dash) ==> forall i :: 0 <= i < |c[1..]| ==> c[1..][i] != Dash by {
        assert forall i :: 0 <= i < |c[1..]| ==> c[1..][i] == c[i + 1];
      }
    }
  }

  function Flip(t: Trit): Trit {
    match t
    case Zero => One
    case One => Zero
    case Dash => Dash
  }

  // ---------- merging ----------

  /** The positions where two cubes differ. */
  function Differences(a: Cube, b: Cube): set<nat>
    requires |a| == |b|
  {
    set i: nat | i < |a| && a[i] != b[i]
  }

  /** `a` and `b` differ in exactly position `p`, and neither has a dash there. */
  predicate MergeAt(a: Cube, b: Cube, p: nat) {
    && |a| == |b| && p < |a|
    && a[p] != Dash && b == a[p := Flip(a[p])]
  }

  ghost predicate Mergeable(a: Cube, b: Cube) { exists p: nat :: MergeAt(a, b, p) }

  /** Two cubes merge exactly when they differ in one place and neither has a dash there. */
  lemma MergeIsOneDifference(a: Cube, b: Cube, p: nat)
    requires |a| == |b|
    ensures MergeAt(a, b, p) <==> Differences(a, b) == {p} && a[p] != Dash && b[p] != Dash
  {
    if Differences(a, b) == {p} && a[p] != Dash && b[p] != Dash {
      assert p in Differences(a, b);
      assert a[p] != b[p];
      forall j: nat | j < |a| && j != p ensures a[j] == b[j] { assert j !in Differences(a, b); }
      assert b == a[p := Flip(a[p])];
    }
    if MergeAt(a, b, p) {
      assert forall j :: j in Differences(a, b) <==> j == p;
    }
  }

  method CanMerge(a: Cube, b: Cube) returns (m: Option<Cube>)
    requires |a| == |b|
    ensures m.None? ==> !Mergeable(a, b)
    ensures m.Some? ==> exists p: nat :: MergeAt(a, b, p) && m.value == a[p := Dash]
  {
    hide MergeAt, Mergeable;
    var diffs: seq<nat> := [];
    for i := 0 to |a|
      invariant forall k :: 0 <= k < |diffs| ==> diffs[k] < i && a[diffs[k]] != b[diffs[k]]
      invariant |diffs| >= 2 ==> diffs[0] != diffs[1]
      invariant forall j: nat :: j < i && a[j] != b[j] ==> j in diffs
    {
      if a[i] != b[i] { diffs := diffs + [i]; }
    }
    MergeVerdict(a, b, diffs);
    if |diffs| != 1 { return None; }
    var p := diffs[0];
    if a[p] == Dash || b[p] == Dash { return None; }
    return Some(a[p := Dash]);
  }

  lemma MergeVerdict(a: Cube, b: Cube, diffs: seq<nat>)
    requires |a| == |b|
    requires forall k :: 0 <= k < |diffs| ==> diffs[k] < |a| && a[diffs[k]] != b[diffs[k]]
    requires |diffs| >= 2 ==> diffs[0] != diffs[1]
    requires forall j: nat :: j < |a| && a[j] != b[j] ==> j in diffs
    ensures |diffs| != 1 ==> !Mergeable(a, b)
    ensures |diffs| == 1 ==> (Mergeable(a, b) <==> a[diffs[0]] != Dash && b[diffs[0]] != Dash)
    ensures |diffs| == 1 ==> (Mergeable(a, b) <==> MergeAt(a, b, diffs[0]))
  {
    forall p: nat | MergeAt(a, b, p) ensures |diffs| == 1 && diffs[0] == p && b[p] != Dash {
      assert a[p] != b[p] && forall j: nat :: j < |a| && j != p ==> a[j] == b[j];
      assert p in diffs;
      forall k | 0 <= k < |diffs| ensures diffs[k] == p { assert a[diffs[k]] != b[diffs[k]]; }
    }
    if |diffs| == 1 && a[diffs[0]] != Dash && b[diffs[0]] != Dash {
      var p := diffs[0];
      forall j: nat | j < |a| && j != p ensures a[j] == b[j] { assert j !in diffs; }
      assert b == a[p := Flip(a[p])];
      assert MergeAt(a, b, p);
    }
  }

  // ---------- implicants under merging and splitting ----------

  /** Dropping a literal keeps an implicant exactly when both values of the literal are allowed. */
  lemma DropLiteral(c: Cube, p: nat, n: nat, allowed: set<Cube>)
    requires |c| == n && p < n && c[p] != Dash
    ensures Implicant(c[p := Dash], n, allowed) <==> Implicant(c, n, allowed) && Implicant(c[p := Flip(c[p])], n, allowed)
  {
    var d, f := c[p := Dash], c[p := Flip(c[p])];
    forall m | IsMinterm(m, n) ensures Covers(d, m) <==> Covers(c, m) || Covers(f, m) {
      assert forall i :: 0 <= i < n && i != p ==> d[i] == c[i] == f[i];
      assert m[p] == c[p] || m[p] == f[p];
    }
  }

  /** Fixing a dash keeps an implicant. */
  lemma FixDash(c: Cube, p: nat, t: Trit, n: nat, allowed: set<Cube>)
    requires Implicant(c, n, allowed) && p < n && c[p] == Dash && t != Dash
    ensures Implicant(c[p := t], n, allowed)
  {
    assert c[p := t][p := Dash] == c;
    DropLiteral(c[p := t], p, n, allowed);
  }

  /** Below every implicant's dashes there is room for a prime implicant on top of it. */
  lemma {:induction false} PrimeAbove(c: Cube, n: nat, allowed: set<Cube>) returns (p: Cube)
    requires Implicant(c, n, allowed)
    ensures Prime(p, n, allowed)
    ensures forall m :: IsMinterm(m, n) && Covers(c, m) ==> Covers(p, m)
    decreases n - Dashes(c)
  {
    DashesBound(c);
    if q: nat :| q < n && c[q] != Dash && Implicant(c[q := Dash], n, allowed) {
      DashesUpdate(c, q, Dash);
      DashesBound(c[q := Dash]);
      assert forall m :: IsMinterm(m, n) && Covers(c, m) ==> Covers(c[q := Dash], m);
      p := PrimeAbove(c[q := Dash], n, allowed);
    } else {
      p := c;
    }
  }

  // ---------- the merging loop ----------

  /** Round `k` of the loop: exactly the implicants with `k` dashes. */
  ghost predicate IsRound(groups: set<Cube>, k: nat, n: nat, allowed: set<Cube>) {
    forall c :: c in groups <==> Implicant(c, n, allowed) && Dashes(c) == k
  }

  ghost predicate ArePrimesBelow(primes: set<Cube>, k: nat, n: nat, allowed: set<Cube>) {
    forall c :: c in primes <==> Prime(c, n, allowed) && Dashes(c) < k
  }

  ghost predicate IsPairMerge(m: Cube, g: set<Cube>) {
    exists a, p: nat :: a in g && p < |a| && a[p] != Dash && a[p := Flip(a[p])] in g && m == a[p := Dash]
  }

  ghost predicate Merges(c: Cube, g: set<Cube>) {
    exists p: nat :: p < |c| && c[p] != Dash && c[p := Flip(c[p])] in g
  }

  /** What one round produces: all merges of two cubes of the round, and the cubes that merged. */
  ghost predicate IsMergeStep(g: set<Cube>, merged: set<Cube>, used: set<Cube>) {
    && (forall m :: m in merged <==> IsPairMerge(m, g))
    && (forall c :: c in used <==> c in g && Merges(c, g))
  }

  /** The merges of round k are exactly round k + 1. */
  lemma NextRound(g: set<Cube>, merged: set<Cube>, used: set<Cube>, k: nat, n: nat, allowed: set<Cube>)
    requires IsRound(g, k, n, allowed) && IsMergeStep(g, merged, used)
    ensures IsRound(merged, k + 1, n, allowed)
  {
    forall m ensures m in merged <==> Implicant(m, n, allowed) && Dashes(m) == k + 1 {
      if m in merged { MergeIsImplicant(g, m, k, n, allowed); }
      if Implicant(m, n, allowed) && Dashes(m) == k + 1 { ImplicantIsMerge(g, m, k, n, allowed); }
    }
  }

  lemma MergeIsImplicant(g: set<Cube>, m: Cube, k: nat, n: nat, allowed: set<Cube>)
    requires IsRound(g, k, n, allowed) && IsPairMerge(m, g)
    ensures Implicant(m, n, allowed) && Dashes(m) == k + 1
  {
    var a, p: nat :| a in g && p < |a| && a[p] != Dash && a[p := Flip(a[p])] in g && m == a[p := Dash];
    hide Implicant;
    DropLiteral(a, p, n, allowed);
    DashesUpdate(a, p, Dash);
  }

  lemma ImplicantIsMerge(g: set<Cube>, m: Cube, k: nat, n: nat, allowed: set<Cube>)
    requires IsRound(g, k, n, allowed) && Implicant(m, n, allowed) && Dashes(m) == k + 1
    ensures IsPairMerge(m, g)
  {
    DashesBound(m);
    var p: nat :| p < |m| && m[p] == Dash;
    var a := m[p := Zero];
    FixDash(m, p, Zero, n, allowed);
    FixDash(m, p, One, n, allowed);
    DashesUpdate(m, p, Zero);
    DashesUpdate(m, p, One);
    assert a[p := One] == m[p := One] && a[p := Dash] == m;
    hide Implicant;
    assert a in g && a[p := Flip(a[p])] in g;
  }

  /** The cubes of a round that did not merge are exactly its prime implicants. */
  lemma UnusedArePrime(g: set<Cube>, merged: set<Cube>, used: set<Cube>, primes: set<Cube>, k: nat, n: nat, allowed: set<Cube>)
    requires IsRound(g, k, n, allowed) && IsMergeStep(g, merged, used) && ArePrimesBelow(primes, k, n, allowed)
    ensures ArePrimesBelow(primes + (g - used), k + 1, n, allowed)
  {
    forall c | c in g ensures c !in used <==> Prime(c, n, allowed) {
      forall p: nat | p < n && c[p] != Dash ensures c[p := Flip(c[p])] in g <==> Implicant(c[p := Dash], n, allowed) {
        DropLiteral(c, p, n, allowed);
        DashesUpdate(c, p, Flip(c[p]));
      }
    }
  }

  /** A Python set turned into a list: its elements once each, in some order. */
  method ListOf(s: set<Cube>) returns (q: seq<Cube>)
    ensures forall c :: c in q <==> c in s
    ensures forall i, j :: 0 <= i < j < |q| ==> q[i] != q[j]
  {
    q := [];
    var rest := s;
    while rest != {}
      invariant rest <= s
      invariant forall c :: c in q <==> c in s && c !in rest
      invariant forall i, j :: 0 <= i < j < |q| ==> q[i] != q[j]
      decreases rest
    {
      var c :| c in rest;
      q := q + [c];
      rest := rest - {c};
    }
  }

  /** The pair (i, j) of list positions comes before position (x, y) of the double loop. */
  predicate Seen(i: nat, j: nat, x: nat, y: nat) { i < j && (i < x || (i == x && j < y)) }

  /** Cube `i` of the list merges with a later cube `j` at position `p`. */
  predicate Pair(g: seq<Cube>, i: nat, j: nat, p: nat) { i < j < |g| && MergeAt(g[i], g[j], p) }

  ghost predicate MergesOnlyPairs(g: seq<Cube>, merged: set<Cube>, used: set<nat>) {
    && (forall m :: m in merged ==> exists i: nat, j: nat, p: nat :: Pair(g, i, j, p) && m == g[i][p := Dash])
    && (forall u :: u in used ==> exists i: nat, j: nat, p: nat :: Pair(g, i, j, p) && (u == i || u == j))
  }

  ghost predicate MergedSoFar(g: seq<Cube>, merged: set<Cube>, used: set<nat>, x: nat, y: nat) {
    forall i: nat, j: nat, p: nat :: Pair(g, i, j, p) && Seen(i, j, x, y) ==> g[i][p := Dash] in merged && i in used && j in used
  }

  lemma SameMerge(a: Cube, b: Cube, p: nat, q: nat)
    requires MergeAt(a, b, p) && MergeAt(a, b, q)
    ensures p == q
  {
    assert b[p] != a[p] && b[q] != a[q];
  }

  method MergeRound(g: seq<Cube>, n: nat) returns (merged: set<Cube>, used: set<nat>)
    requires forall i :: 0 <= i < |g| ==> |g[i]| == n
    ensures MergesOnlyPairs(g, merged, used) && MergedSoFar(g, merged, used, |g|, 0)
  {
    merged, used := {}, {};
    for i := 0 to |g|
      invariant MergesOnlyPairs(g, merged, used) && MergedSoFar(g, merged, used, i, 0)
    {
      for j := i + 1 to |g|
        invariant MergesOnlyPairs(g, merged, used) && MergedSoFar(g, merged, used, i, j)
      {
        var m := CanMerge(g[i], g[j]);
        if m.Some? {
          ghost var p: nat :| MergeAt(g[i], g[j], p) && m.value == g[i][p := Dash];
          assert Pair(g, i, j, p);
          forall q: nat | MergeAt(g[i], g[j], q) ensures q == p { SameMerge(g[i], g[j], p, q); }
          merged := merged + {m.value};
          used := used + {i, j};
        }
      }
    }
  }

  lemma MergeSymmetric(a: Cube, b: Cube, p: nat)
    requires MergeAt(a, b, p)
    ensures MergeAt(b, a, p) && a[p := Dash] == b[p := Dash]
  {
  }

  lemma PairOfCubes(g: seq<Cube>, a: Cube, p: nat) returns (i: nat, j: nat)
    requires a in g && p < |a| && a[p] != Dash && a[p := Flip(a[p])] in g
    ensures Pair(g, i, j, p) && (g[i] == a || g[j] == a) && g[i][p := Dash] == a[p := Dash]
  {
    var b := a[p := Flip(a[p])];
    var x: nat :| x < |g| && g[x] == a;
    var y: nat :| y < |g| && g[y] == b;
    assert b[p] != a[p] && MergeAt(a, b, p);
    MergeSymmetric(a, b, p);
    if x < y { i, j := x, y; } else { i, j := y, x; }
  }

  lemma MergedIsPair(g: seq<Cube>, gs: set<Cube>, m: Cube)
    requires forall c :: c in g <==> c in gs
    requires exists i: nat, j: nat, p: nat :: Pair(g, i, j, p) && m == g[i][p := Dash]
    ensures IsPairMerge(m, gs)
  {
    var i: nat, j: nat, p: nat :| Pair(g, i, j, p) && m == g[i][p := Dash];
    assert g[i] in gs && g[i][p := Flip(g[i][p])] == g[j];
  }

  lemma PairIsMerged(g: seq<Cube>, gs: set<Cube>, merged: set<Cube>, used: set<nat>, m: Cube)
    requires forall c :: c in g <==> c in gs
    requires MergedSoFar(g, merged, used, |g|, 0) && IsPairMerge(m, gs)
    ensures m in merged
  {
    var a, p: nat :| a in gs && p < |a| && a[p] != Dash && a[p := Flip(a[p])] in gs && m == a[p := Dash];
    var i, j := PairOfCubes(g, a, p);
    assert Seen(i, j, |g|, 0);
  }

  lemma UsedMerges(g: seq<Cube>, gs: set<Cube>, u: nat)
    requires forall c :: c in g <==> c in gs
    requires exists i: nat, j: nat, p: nat :: Pair(g, i, j, p) && (u == i || u == j)
    ensures u < |g| && Merges(g[u], gs)
  {
    var i: nat, j: nat, p: nat :| Pair(g, i, j, p) && (u == i || u == j);
    MergeSymmetric(g[i], g[j], p);
    assert g[u][p := Flip(g[u][p])] in g;
  }

  lemma MergesIsUsed(g: seq<Cube>, gs: set<Cube>, merged: set<Cube>, used: set<nat>, u: nat)
    requires forall c :: c in g <==> c in gs
    requires forall i, j :: 0 <= i < j < |g| ==> g[i] != g[j]
    requires MergedSoFar(g, merged, used, |g|, 0) && u < |g| && Merges(g[u], gs)
    ensures u in used
  {
    var p: nat :| p < |g[u]| && g[u][p] != Dash && g[u][p := Flip(g[u][p])] in gs;
    var i, j := PairOfCubes(g, g[u], p);
    assert Seen(i, j, |g|, 0);
  }

  /** The double loop over the list computes the set-based step of the round. */
  lemma MergeRoundIsStep(g: seq<Cube>, gs: set<Cube>, merged: set<Cube>, used: set<nat>)
    requires forall c :: c in g <==> c in gs
    requires forall i, j :: 0 <= i < j < |g| ==> g[i] != g[j]
    requires MergesOnlyPairs(g, merged, used) && MergedSoFar(g, merged, used, |g|, 0)
    ensures forall m :: m in merged <==> IsPairMerge(m, gs)
    ensures forall u :: u in used ==> u < |g|
    ensures forall u: nat :: u < |g| ==> (u in used <==> Merges(g[u], gs))
  {
    hide IsPairMerge, Merges, MergedSoFar, Pair;
    forall m ensures m in merged <==> IsPairMerge(m, gs) {
      if m in merged { MergedIsPair(g, gs, m); }
      if IsPairMerge(m, gs) { PairIsMerged(g, gs, merged, used, m); }
    }
    forall u: nat | u in used ensures u < |g| && Merges(g[u], gs) { UsedMerges(g, gs, u); }
    forall u: nat | u < |g| && Merges(g[u], gs) ensures u in used { MergesIsUsed(g, gs, merged, used, u); }
  }

  lemma FirstRound(all: set<Cube>, n: nat)
    requires forall m :: m in all ==> IsMinterm(m, n)
    ensures IsRound(all, 0, n, all) && ArePrimesBelow({}, 0, n, all)
  {
    forall c ensures c in all <==> Implicant(c, n, all) && Dashes(c) == 0 {
      DashesBound(c);
      if c in all {
        forall m | IsMinterm(m, n) && Covers(c, m) ensures m in all { assert m == c; }
      }
      if Implicant(c, n, all) && Dashes(c) == 0 { assert IsMinterm(c, n) && Covers(c, c); }
    }
  }

  lemma LastRound(g: set<Cube>, k: nat, n: nat, allowed: set<Cube>)
    requires IsRound(g, k, n, allowed)
    ensures k > n ==> g == {}
  {
    forall c | c in g ensures k <= n { DashesBound(c); }
  }

  /** An empty round ends the search: no implicant has that many dashes, nor more. */
  lemma {:induction false} NothingAbove(k: nat, d: nat, n: nat, allowed: set<Cube>, c: Cube)
    requires IsRound({}, k, n, allowed) && Implicant(c, n, allowed) && Dashes(c) == d
    ensures d < k
    decreases d
  {
    if d > k {
      DashesBound(c);
      var p: nat :| p < |c| && c[p] == Dash;
      FixDash(c, p, Zero, n, allowed);
      DashesUpdate(c, p, Zero);
      NothingAbove(k, d - 1, n, allowed, c[p := Zero]);
    }
  }

  /** The merging loop terminates and finds exactly the prime implicants of the allowed minterms. */
  method PrimeImplicants(all: set<Cube>, n: nat) returns (primes: set<Cube>)
    requires forall m :: m in all ==> IsMinterm(m, n)
    ensures forall c :: c in primes <==> Prime(c, n, all)
  {
    hide IsRound, ArePrimesBelow, IsMergeStep, MergesOnlyPairs, MergedSoFar, Prime, Merges, IsPairMerge;
    var groups := all;
    primes := {};
    ghost var k: nat := 0;
    FirstRound(all, n);
    while groups != {}
      invariant IsRound(groups, k, n, all) && ArePrimesBelow(primes, k, n, all)
      decreases n + 1 - k
    {
      LastRound(groups, k, n, all);
      RoundLengths(groups, k, n, all);
      var g := ListOf(groups);
      var merged, used := MergeRound(g, n);
      MergeRoundIsStep(g, groups, merged, used);
      var i := 0;
      ghost var usedCubes := set u | u in used && u < |g| :: g[u];
      ghost var before := primes;
      while i < |g|
        invariant 0 <= i <= |g|
        invariant primes == before + set u | 0 <= u < i && u !in used :: g[u]
      {
        if i !in used { primes := primes + {g[i]}; }
        i := i + 1;
      }
      UnusedCubes(g, groups, used, usedCubes);
      MergeStepOfLists(g, groups, merged, used, usedCubes);
      UnusedArePrime(groups, merged, usedCubes, before, k, n, all);
      NextRound(groups, merged, usedCubes, k, n, all);
      groups := merged;
      k := k + 1;
    }
    AllPrimesFound(primes, k, n, all);
  }

  lemma RoundLengths(g: set<Cube>, k: nat, n: nat, allowed: set<Cube>)
    requires IsRound(g, k, n, allowed)
    ensures forall c :: c in g ==> |c| == n
  {
  }

  lemma UnusedCubes(g: seq<Cube>, gs: set<Cube>, used: set<nat>, usedCubes: set<Cube>)
    requires forall c :: c in g <==> c in gs
    requires forall i, j :: 0 <= i < j < |g| ==> g[i] != g[j]
    requires usedCubes == set u | u in used && u < |g| :: g[u]
    ensures gs - usedCubes == set u | 0 <= u < |g| && u !in used :: g[u]
  {
    var right := set u | 0 <= u < |g| && u !in used :: g[u];
    forall c ensures c in gs - usedCubes <==> c in right {
      if c in gs - usedCubes {
        var u :| 0 <= u < |g| && g[u] == c;
        assert u !in used;
      }
    }
  }

  lemma MergeStepOfLists(g: seq<Cube>, gs: set<Cube>, merged: set<Cube>, used: set<nat>, usedCubes: set<Cube>)
    requires forall c :: c in g <==> c in gs
    requires usedCubes == set u | u in used && u < |g| :: g[u]
    requires forall m :: m in merged <==> IsPairMerge(m, gs)
    requires forall u: nat :: u < |g| ==> (u in used <==> Merges(g[u], gs))
    ensures IsMergeStep(gs, merged, usedCubes)
  {
    hide IsPairMerge, Merges;
    forall c ensures c in usedCubes <==> c in gs && Merges(c, gs) {
      if c in gs && Merges(c, gs) {
        var u: nat :| u < |g| && g[u] == c;
        assert u in used;
      }
    }
  }

  lemma AllPrimesFound(primes: set<Cube>, k: nat, n: nat, allowed: set<Cube>)
    requires IsRound({}, k, n, allowed) && ArePrimesBelow(primes, k, n, allowed)
    ensures forall c :: c in primes <==> Prime(c, n, allowed)
  {
    forall c | Prime(c, n, allowed) ensures Dashes(c) < k { NothingAbove(k, Dashes(c), n, allowed, c); }
  }

  // ---------- the cover ----------

  predicate SameLength(cs: seq<Cube>, n: nat) { forall i :: 0 <= i < |cs| ==> |cs[i]| == n }

  function CoverCount(pi: Cube, ms: seq<Cube>): nat
    requires SameLength(ms, |pi|)
    decreases |ms|
  {
    if ms == [] then 0 else (if Covers(pi, ms[0]) then 1 else 0) + CoverCount(pi, ms[1..])
  }

  /** The sort key of the greedy loop, compared: minterms still to be covered, then dashes. */
  predicate KeyAtLeast(a: Cube, b: Cube, ms: seq<Cube>)
    requires SameLength(ms, |a|) && |a| == |b|
  {
    CoverCount(a, ms) > CoverCount(b, ms) || (CoverCount(a, ms) == CoverCount(b, ms) && Dashes(a) >= Dashes(b))
  }

  function Covered(pi: Cube, ms: seq<Cube>): set<nat>
    requires SameLength(ms, |pi|)
  {
    set i: nat | i < |ms| && Covers(pi, ms[i])
  }

  function DashPlaces(c: Cube): set<nat> { set i: nat | i < |c| && c[i] == Dash }

  lemma {:induction false} CoverCounted(pi: Cube, ms: seq<Cube>)
    requires SameLength(ms, |pi|)
    ensures CoverCount(pi, ms) == Trues(seq(|ms|, i requires 0 <= i < |ms| => Covers(pi, ms[i])))
    decreases |ms|
  {
    var s := seq(|ms|, i requires 0 <= i < |ms| => Covers(pi, ms[i]));
    if ms != [] {
      var rest := ms[1..];
      CoverCounted(pi, rest);
      FirstTrue(s);
      assert s[1..] == seq(|rest|, i requires 0 <= i < |rest| => Covers(pi, rest[i]));
      hide Covers;
    }
  }

  lemma {:induction false} DashesCounted(c: Cube)
    ensures Dashes(c) == Trues(seq(|c|, i requires 0 <= i < |c| => c[i] == Dash))
    decreases |c|
  {
    var s := seq(|c|, i requires 0 <= i < |c| => c[i] == Dash);
    if c != [] {
      var rest := c[1..];
      DashesCounted(rest);
      FirstTrue(s);
      assert s[1..] == seq(|rest|, i requires 0 <= i < |rest| => rest[i] == Dash);
    }
  }

  /** The key orders cubes by how many of the minterms they cover, and then by how many dashes they have. */
  lemma KeyMeans(a: Cube, b: Cube, ms: seq<Cube>)
    requires SameLength(ms, |a|) && |a| == |b|
    ensures
      var x, y := |Covered(a, ms)|, |Covered(b, ms)|;
      KeyAtLeast(a, b, ms) <==> x > y || (x == y && |DashPlaces(a)| >= |DashPlaces(b)|)
  {
    KeyParts(a, ms);
    KeyParts(b, ms);
    hide Covered, DashPlaces, CoverCount, Dashes;
  }

  lemma KeyParts(c: Cube, ms: seq<Cube>)
    requires SameLength(ms, |c|)
    ensures CoverCount(c, ms) == |Covered(c, ms)| && Dashes(c) == |DashPlaces(c)|
  {
    hide Covers, CoverCount, Dashes, Trues;
    var s, d := seq(|ms|, i requires 0 <= i < |ms| => Covers(c, ms[i])), seq(|c|, i requires 0 <= i < |c| => c[i] == Dash);
    CoverCounted(c, ms);
    DashesCounted(c);
    TruesCounted(s);
    TruesCounted(d);
    assert Where(s) == Covered(c, ms);
    assert Where(d) == DashPlaces(c);
  }

  /** Stable insertion: before the first cube with a smaller key. */
  function InsertByKey(c: Cube, cs: seq<Cube>, ms: seq<Cube>): (r: seq<Cube>)
    requires SameLength(ms, |c|) && SameLength(cs, |c|)
    ensures multiset(r) == multiset{c} + multiset(cs) && SameLength(r, |c|)
    ensures forall x :: x in r <==> x == c || x in cs
    ensures |r| == |cs| + 1 && (r[0] == c || (cs != [] && r[0] == cs[0]))
    decreases |cs|
  {
    if cs == [] || KeyAtLeast(c, cs[0], ms) then [c] + cs
    else
      assert cs == [cs[0]] + cs[1..];
      [cs[0]] + InsertByKey(c, cs[1..], ms)
  }

  /** The remaining cubes, largest key first. */
  function SortByKey(cs: seq<Cube>, ms: seq<Cube>, n: nat): (r: seq<Cube>)
    requires SameLength(ms, n) && SameLength(cs, n)
    ensures multiset(r) == multiset(cs) && SameLength(r, n) && |r| == |cs|
    ensures forall x :: x in r <==> x in cs
    decreases |cs|
  {
    if cs == [] then []
    else
      assert cs == [cs[0]] + cs[1..];
      InsertByKey(cs[0], SortByKey(cs[1..], ms, n), ms)
  }

  lemma {:induction false} BestFirst(cs: seq<Cube>, ms: seq<Cube>, n: nat)
    requires SameLength(ms, n) && SameLength(cs, n) && cs != []
    ensures forall x :: x in cs ==> |x| == n && KeyAtLeast(SortByKey(cs, ms, n)[0], x, ms)
    decreases |cs|
  {
    var rest := SortByKey(cs[1..], ms, n);
    if cs[1..] != [] { BestFirst(cs[1..], ms, n); }
    InsertedHead(cs[0], rest, ms);
    assert SortByKey(cs, ms, n) == InsertByKey(cs[0], rest, ms);
    hide SortByKey, InsertByKey, CoverCount, Dashes;
    forall x | x in cs ensures |x| == n && KeyAtLeast(SortByKey(cs, ms, n)[0], x, ms) {
      assert x == cs[0] || x in cs[1..];
    }
  }

  lemma InsertedHead(c: Cube, cs: seq<Cube>, ms: seq<Cube>)
    requires SameLength(ms, |c|) && SameLength(cs, |c|)
    ensures InsertByKey(c, cs, ms)[0] == if cs == [] || KeyAtLeast(c, cs[0], ms) then c else cs[0]
  {
    hide KeyAtLeast;
  }

  ghost predicate CoveredBy(m: Cube, cs: seq<Cube>) { exists c :: c in cs && |c| == |m| && Covers(c, m) }

  function Without(best: Cube, ms: seq<Cube>): (r: seq<Cube>)
    requires SameLength(ms, |best|)
    ensures SameLength(r, |best|)
    ensures forall m :: m in r <==> m in ms && !Covers(best, m)
    decreases |ms|
  {
    if ms == [] then []
    else
      assert ms == [ms[0]] + ms[1..];
      (if Covers(best, ms[0]) then [] else [ms[0]]) + Without(best, ms[1..])
  }

  /** What is left of the ON set after the first picks. */
  function Left(picks: seq<Cube>, onSet: seq<Cube>, n: nat): (r: seq<Cube>)
    requires SameLength(onSet, n) && SameLength(picks, n)
    ensures SameLength(r, n)
    decreases |picks|
  {
    if picks == [] then onSet else Without(picks[|picks| - 1], Left(picks[..|picks| - 1], onSet, n))
  }

  /** `c` covers as many of `ms` as any prime implicant does. */
  ghost predicate Greediest(c: Cube, ms: seq<Cube>, n: nat, allowed: set<Cube>)
    requires SameLength(ms, n) && |c| == n
  {
    forall p :: Prime(p, n, allowed) ==> |p| == n && CoverCount(c, ms) >= CoverCount(p, ms)
  }

  ghost predicate GreedyPicks(picks: seq<Cube>, onSet: seq<Cube>, n: nat, allowed: set<Cube>)
    requires SameLength(onSet, n) && SameLength(picks, n)
  {
    forall i :: 0 <= i < |picks| ==> Greediest(picks[i], Left(picks[..i], onSet, n), n, allowed)
  }

  lemma {:induction false} CountsNothing(c: Cube, ms: seq<Cube>)
    requires SameLength(ms, |c|)
    ensures CoverCount(c, ms) == 0 <==> forall m :: m in ms ==> !Covers(c, m)
    decreases |ms|
  {
    if ms != [] {
      assert ms == [ms[0]] + ms[1..];
      CountsNothing(c, ms[1..]);
    }
  }

  ghost predicate ArePrimes(cs: seq<Cube>, n: nat, all: set<Cube>) {
    forall c :: c in cs ==> |c| == n && Prime(c, n, all)
  }

  /** Primes that are no longer available cover nothing that is left. */
  ghost predicate DroppedAreIdle(remaining: seq<Cube>, uncovered: seq<Cube>, n: nat, all: set<Cube>)
    requires SameLength(uncovered, n)
  {
    forall p :: Prime(p, n, all) ==> |p| == n && (p in remaining || CoverCount(p, uncovered) == 0)
  }

  ghost predicate Coverable(ms: seq<Cube>, cs: seq<Cube>) { forall m :: m in ms ==> CoveredBy(m, cs) }

  ghost predicate Accounted(onSet: seq<Cube>, uncovered: seq<Cube>, chosen: seq<Cube>) {
    forall m :: m in onSet ==> m in uncovered || CoveredBy(m, chosen)
  }

  /** What the greedy loop keeps. */
  ghost predicate CoverInv(chosen: seq<Cube>, uncovered: seq<Cube>, remaining: seq<Cube>, onSet: seq<Cube>, n: nat, all: set<Cube>) {
    && SameLength(uncovered, n) && SameLength(remaining, n) && SameLength(chosen, n) && SameLength(onSet, n)
    && ArePrimes(chosen, n, all) && ArePrimes(remaining, n, all)
    && uncovered == Left(chosen, onSet, n)
    && Accounted(onSet, uncovered, chosen)
    && DroppedAreIdle(remaining, uncovered, n, all)
    && Coverable(uncovered, remaining)
    && GreedyPicks(chosen, onSet, n, all)
  }

  lemma PickGreedy(chosen: seq<Cube>, uncovered: seq<Cube>, remaining: seq<Cube>, onSet: seq<Cube>, n: nat, all: set<Cube>, best: Cube)
    requires SameLength(uncovered, n) && SameLength(chosen, n) && SameLength(onSet, n) && |best| == n
    requires uncovered == Left(chosen, onSet, n) && GreedyPicks(chosen, onSet, n, all)
    requires DroppedAreIdle(remaining, uncovered, n, all)
    requires forall x :: x in remaining ==> |x| == n && KeyAtLeast(best, x, uncovered)
    ensures SameLength(chosen + [best], n) && GreedyPicks(chosen + [best], onSet, n, all)
    ensures Left(chosen + [best], onSet, n) == Without(best, uncovered)
  {
    var picks := chosen + [best];
    assert picks[..|picks| - 1] == chosen;
    assert Greediest(best, uncovered, n, all);
    hide Greediest, Left, DroppedAreIdle, KeyAtLeast;
    forall i | 0 <= i < |picks| ensures Greediest(picks[i], Left(picks[..i], onSet, n), n, all) {
      if i < |chosen| { assert picks[..i] == chosen[..i] && picks[i] == chosen[i]; }
    }
  }

  lemma PickDropped(uncovered: seq<Cube>, remaining: seq<Cube>, rest: seq<Cube>, n: nat, all: set<Cube>, best: Cube)
    requires SameLength(uncovered, n) && |best| == n && DroppedAreIdle(remaining, uncovered, n, all)
    requires forall c :: c in remaining ==> c == best || c in rest
    ensures DroppedAreIdle(rest, Without(best, uncovered), n, all)
  {
    forall p | Prime(p, n, all) ensures |p| == n && (p in rest || CoverCount(p, Without(best, uncovered)) == 0) {
      CountsNothing(p, uncovered);
      CountsNothing(p, Without(best, uncovered));
    }
  }

  lemma PickCoverage(chosen: seq<Cube>, uncovered: seq<Cube>, remaining: seq<Cube>, rest: seq<Cube>, onSet: seq<Cube>, best: Cube)
    requires SameLength(uncovered, |best|) && SameLength(onSet, |best|)
    requires Accounted(onSet, uncovered, chosen) && Coverable(uncovered, remaining)
    requires forall c :: c in remaining ==> c == best || c in rest
    ensures Accounted(onSet, Without(best, uncovered), chosen + [best])
    ensures Coverable(Without(best, uncovered), rest)
  {
    forall m | m in onSet ensures m in Without(best, uncovered) || CoveredBy(m, chosen + [best]) {
      if CoveredBy(m, chosen) {
        var c :| c in chosen && |c| == |m| && Covers(c, m);
        assert c in chosen + [best];
      } else if Covers(best, m) {
        assert best in chosen + [best];
      }
    }
    forall m | m in Without(best, uncovered) ensures CoveredBy(m, rest) {
      var c :| c in remaining && |c| == |m| && Covers(c, m);
      assert c in rest;
    }
  }

  lemma SkipBest(uncovered: seq<Cube>, remaining: seq<Cube>, rest: seq<Cube>, n: nat, all: set<Cube>, best: Cube)
    requires SameLength(uncovered, n) && |best| == n
    requires DroppedAreIdle(remaining, uncovered, n, all) && Coverable(uncovered, remaining)
    requires forall c :: c in remaining ==> c == best || c in rest
    requires forall m :: m in uncovered ==> !Covers(best, m)
    ensures DroppedAreIdle(rest, uncovered, n, all) && Coverable(uncovered, rest)
  {
    CountsNothing(best, uncovered);
    forall m | m in uncovered ensures CoveredBy(m, rest) {
      var c :| c in remaining && |c| == |m| && Covers(c, m);
      assert c in rest;
    }
  }

  /** `best` heads the sorted list of the remaining cubes and `rest` follows it. */
  ghost predicate Heads(best: Cube, rest: seq<Cube>, remaining: seq<Cube>, uncovered: seq<Cube>, n: nat)
    requires SameLength(uncovered, n)
  {
    && |best| == n && SameLength(rest, n)
    && (forall c :: c in remaining <==> c == best || c in rest)
    && (forall c :: c in remaining ==> |c| == n && KeyAtLeast(best, c, uncovered))
  }

  lemma SortedHeads(remaining: seq<Cube>, uncovered: seq<Cube>, n: nat)
    requires SameLength(uncovered, n) && SameLength(remaining, n) && remaining != []
    ensures var sorted := SortByKey(remaining, uncovered, n); Heads(sorted[0], sorted[1..], remaining, uncovered, n)
  {
    var sorted := SortByKey(remaining, uncovered, n);
    assert sorted == [sorted[0]] + sorted[1..];
    BestFirst(remaining, uncovered, n);
    hide SortByKey, KeyAtLeast;
  }

  lemma TakeBest(chosen: seq<Cube>, uncovered: seq<Cube>, remaining: seq<Cube>, onSet: seq<Cube>, n: nat, all: set<Cube>,
                 best: Cube, rest: seq<Cube>)
    requires CoverInv(chosen, uncovered, remaining, onSet, n, all) && Heads(best, rest, remaining, uncovered, n)
    ensures CoverInv(chosen + [best], Without(best, uncovered), rest, onSet, n, all)
  {
    hide Prime, Covers, KeyAtLeast, Left, GreedyPicks, DroppedAreIdle, Coverable, Accounted;
    PickGreedy(chosen, uncovered, remaining, onSet, n, all, best);
    PickDropped(uncovered, remaining, rest, n, all, best);
    PickCoverage(chosen, uncovered, remaining, rest, onSet, best);
  }

  lemma DropBest(chosen: seq<Cube>, uncovered: seq<Cube>, remaining: seq<Cube>, onSet: seq<Cube>, n: nat, all: set<Cube>,
                 best: Cube, rest: seq<Cube>)
    requires CoverInv(chosen, uncovered, remaining, onSet, n, all) && Heads(best, rest, remaining, uncovered, n)
    requires forall m :: m in uncovered ==> !Covers(best, m)
    ensures CoverInv(chosen, uncovered, rest, onSet, n, all)
  {
    hide Prime, Covers, KeyAtLeast, Left, GreedyPicks, DroppedAreIdle, Coverable, Accounted;
    SkipBest(uncovered, remaining, rest, n, all, best);
  }

  lemma NothingLeftUncoverable(uncovered: seq<Cube>)
    requires Coverable(uncovered, [])
    ensures uncovered == []
  {
    hide CoveredBy;
    if uncovered != [] {
      assert CoveredBy(uncovered[0], []);
      NoCubesCoverNothing(uncovered[0]);
    }
  }

  lemma NoCubesCoverNothing(m: Cube)
    ensures !CoveredBy(m, [])
  {
  }

  lemma CoveredByPrimes(m: Cube, primes: seq<Cube>, n: nat, all: set<Cube>)
    requires m in all && IsMinterm(m, n)
    requires forall c :: c in primes <==> Prime(c, n, all)
    ensures CoveredBy(m, primes)
  {
    forall x | IsMinterm(x, n) && Covers(m, x) ensures x in all { assert x == m; }
    var p := PrimeAbove(m, n, all);
    assert Covers(p, m);
  }

  lemma CoverStarts(onSet: seq<Cube>, remaining: seq<Cube>, n: nat, all: set<Cube>)
    requires forall m :: m in onSet ==> m in all
    requires forall m :: m in all ==> IsMinterm(m, n)
    requires forall c :: c in remaining <==> Prime(c, n, all)
    ensures CoverInv([], onSet, remaining, onSet, n, all)
  {
    forall m | m in onSet ensures CoveredBy(m, remaining) { CoveredByPrimes(m, remaining, n, all); }
    forall i | 0 <= i < |onSet| ensures |onSet[i]| == n { assert onSet[i] in onSet; }
    forall i | 0 <= i < |remaining| ensures |remaining[i]| == n { assert remaining[i] in remaining; }
  }

  /** The minimiser: prime implicants only, each the greediest choice for what was left, every ON
      minterm covered, nothing outside the ON and don't-care sets covered. The warning branch for
      an incomplete cover is never taken. */
  method QmMinimise(onSet: seq<Cube>, dcSet: seq<Cube>, n: nat) returns (chosen: seq<Cube>, incomplete: bool)
    requires forall m :: m in onSet || m in dcSet ==> IsMinterm(m, n)
    ensures !incomplete
    ensures var allowed := (set m | m in onSet) + (set m | m in dcSet);
            && ArePrimes(chosen, n, allowed)
            && SameLength(onSet, n) && SameLength(chosen, n) && GreedyPicks(chosen, onSet, n, allowed)
    ensures Coverable(onSet, chosen)
    ensures onSet == [] ==> chosen == []
  {
    hide Prime, Covers, SortByKey, Left, GreedyPicks, DroppedAreIdle, CoveredBy, KeyAtLeast;
    chosen, incomplete := [], false;
    var all := (set m | m in onSet) + (set m | m in dcSet);
    var primes := PrimeImplicants(all, n);
    var remaining := ListOf(primes);
    CoverStarts(onSet, remaining, n, all);
    var uncovered := onSet;
    while uncovered != [] && remaining != []
      invariant CoverInv(chosen, uncovered, remaining, onSet, n, all)
      invariant onSet == [] ==> uncovered == chosen == []
      decreases |remaining|
    {
      var sorted := SortByKey(remaining, uncovered, n);
      var best, rest := sorted[0], sorted[1..];
      SortedHeads(remaining, uncovered, n);
      ghost var before := remaining;
      remaining := rest;
      if exists m :: m in uncovered && Covers(best, m) {
        TakeBest(chosen, uncovered, before, onSet, n, all, best, rest);
        chosen := chosen + [best];
        uncovered := Without(best, uncovered);
      } else {
        DropBest(chosen, uncovered, before, onSet, n, all, best, rest);
      }
    }
    if remaining == [] { NothingLeftUncoverable(uncovered); }
    incomplete := uncovered != [];
  }
}
