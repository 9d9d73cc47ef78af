/** Powers of two, and counting arguments shared by the hash tables and the compilers. */
module Counting {
  function Pow2(n: nat): (p: nat)
    ensures p > 0
  {
    if n == 0 then 1 else 2 * Pow2(n - 1)
  }

  predicate IsPow2(n: nat) { n == 1 || (n > 1 && n % 2 == 0 && IsPow2(n / 2)) }

  lemma DoubleIsPow2(n: nat)
    requires IsPow2(n)
    ensures IsPow2(2 * n)
  {
  }

  /** There is no other power of two below the double of one. */
  lemma {:induction false} NextIsDouble(a: nat, b: nat)
    requires IsPow2(a) && IsPow2(b) && a <= b < 2 * a
    ensures a == b
  {
    if a > 1 { NextIsDouble(a / 2, b / 2); }
  }

  lemma {:induction false} Pow2Sum(a: nat, b: nat)
    ensures Pow2(a + b) == Pow2(a) * Pow2(b)
    decreases a
  {
    if a > 0 {
      Pow2Sum(a - 1, b);
      assert Pow2(a + b) == 2 * Pow2(a - 1 + b);
    }
  }

  lemma {:induction false} SubsetSize<T>(a: set<T>, b: set<T>)
    requires a <= b
    ensures |a| <= |b|
    decreases |a|
  {
    if a != {} {
      var x :| x in a;
      SubsetSize(a - {x}, b - {x});
    }
  }

  function Below(n: nat): (s: set<nat>)
    ensures |s| == n && forall i :: i in s <==> 0 <= i < n
  {
    if n == 0 then {} else Below(n - 1) + {n - 1}
  }

  function Taken(f: seq<nat>, n: nat): (s: set<nat>)
    requires n <= |f| && forall i, j :: 0 <= i < j < |f| ==> f[i] != f[j]
    ensures |s| == n && forall x :: x in s <==> x in f[..n]
    decreases n
  {
    if n == 0 then {}
    else
      assert f[..n] == f[..n - 1] + [f[n - 1]];
      Taken(f, n - 1) + {f[n - 1]}
  }

  /** Distinct values below n, n of them: every value below n is among them. */
  lemma Pigeonhole(f: seq<nat>, n: nat, e: nat)
    requires |f| == n && e < n
    requires forall i :: 0 <= i < n ==> f[i] < n
    requires forall i, j :: 0 <= i < j < n ==> f[i] != f[j]
    ensures e in f
  {
    assert f[..n] == f;
    assert Taken(f, n) <= Below(n);
    if e !in f { SubsetSize(Taken(f, n), Below(n) - {e}); }
  }

  /** A map that sends the first n elements of a sequence to their places has at least n keys. */
  lemma {:induction false} ManyKeys<K>(keys: seq<K>, spots: map<K, nat>, n: nat)
    requires n <= |keys| && forall b :: 0 <= b < n ==> keys[b] in spots && spots[keys[b]] == b
    ensures |spots| >= n
    decreases n
  {
    if n > 0 {
      RemoveKey(spots, keys[n - 1]);
      ManyKeys(keys, spots - {keys[n - 1]}, n - 1);
    }
  }

  lemma RemoveKey<K>(m: map<K, nat>, k: K)
    requires k in m
    ensures |m - {k}| == |m| - 1
  {
    assert m == (m - {k})[k := m[k]];
  }

  lemma ReplaceValue<K>(m: map<K, nat>, k: K, x: nat)
    requires k in m
    ensures |m[k := x]| == |m|
  {
    assert m[k := x].Keys == m.Keys;
    assert |m[k := x].Keys| == |m[k := x]| && |m.Keys| == |m|;
  }

  lemma SizeOfKeys<K>(a: map<K, nat>, b: map<K, nat>)
    requires a.Keys == b.Keys
    ensures |a| == |b|
  {
    assert |a.Keys| == |a| && |b.Keys| == |b|;
  }

  function Quotient(a: nat, b: nat): nat
    requires b > 0
  {
    a / b
  }

  lemma Remainder(q: nat, r: nat, n: nat)
    requires r < n
    ensures (n * q + r) % n == r && (n * q + r) / n == q
  {
    var x := n * q + r;
    assert x == n * (x / n) + x % n;
    assert n * (q - x / n) == x % n - r;
    NoMultipleBetween(n, q - x / n);
  }

  lemma NoMultipleBetween(n: int, d: int)
    requires n > 0 && -n < n * d < n
    ensures d == 0
  {
    if d >= 1 { AtLeast(n, d); }
    if d <= -1 { AtLeast(n, -d); }
  }

  lemma AtLeast(n: int, d: int)
    requires n > 0 && d >= 1
    ensures n * d >= n
  {
  }

  // ---------- counting positions ----------

  function Trues(s: seq<bool>): nat
    decreases |s|
  {
    if s == [] then 0 else Trues(s[..|s| - 1]) + if s[|s| - 1] then 1 else 0
  }

  lemma {:induction false} FirstTrue(s: seq<bool>)
    requires s != []
    ensures Trues(s) == (if s[0] then 1 else 0) + Trues(s[1..])
    decreases |s|
  {
    if |s| > 1 {
      FirstTrue(s[..|s| - 1]);
      assert s[..|s| - 1][1..] == s[1..][..|s| - 2];
    }
  }

  function Where(s: seq<bool>): set<nat> { set i: nat | i < |s| && s[i] }

  /** The number of the positions that hold true. */
  lemma {:induction false} TruesCounted(s: seq<bool>)
    ensures Trues(s) == |Where(s)|
    decreases |s|
  {
    if s == [] {
      assert Where(s) == {};
    } else {
      var n := |s| - 1;
      TruesCounted(s[..n]);
      if s[n] {
        assert Where(s) == Where(s[..n]) + {n};
      } else {
        assert Where(s) == Where(s[..n]);
      }
    }
  }
}
