/** Quadratic probing: in a table of a power of two buckets the triangular numbers visit every bucket. */
module VerstableProbing {
  import opened Counting
  import opened VerstableChains

  /** Every probe from home bucket `h` within the displacement limit finds a key. */
  ghost predicate ProbesFull(ms: seq<Meta>, h: nat)
    requires |ms| > 0
  {
    forall d: nat :: 1 <= d < END ==> ms[Slot(h, d, |ms|)] != EMPTY
  }

  lemma TriangularStep(d: nat)
    ensures Triangular(d + 1) == Triangular(d) + d + 1
  {
    assert (d + 1) * (d + 2) == d * (d + 1) + 2 * (d + 1);
  }

  /** An odd factor does not help to make a product divisible by a power of two. */
  lemma {:induction false} OddCancels(x: nat, y: nat, n: nat, q: nat) returns (p: nat)
    requires IsPow2(n) && x % 2 == 1 && x * y == n * q
    ensures y == n * p
    decreases n
  {
    if n == 1 { return y; }
    var m := n / 2;
    assert n * q == 2 * (m * q) by { assert n == 2 * m; }
    OddTimes(x, y, m * q);
    var b := y / 2;
    assert x * y == 2 * (x * b) by { assert y == 2 * b; }
    p := OddCancels(x, b, m, q);
    assert n * p == 2 * (m * p) by { assert n == 2 * m; }
  }

  lemma OddTimes(x: nat, y: nat, z: nat)
    requires x % 2 == 1 && x * y == 2 * z
    ensures y % 2 == 0
  {
    var a := x / 2;
    assert x * y == 2 * (a * y) + y by { assert x == 2 * a + 1; }
  }

  /** Two displacements below the bucket count never lead from one home bucket to the same bucket. */
  lemma ProbesDiffer(h: nat, a: nat, b: nat, n: nat)
    requires n > 0 && IsPow2(n) && a < b < n
    ensures Slot(h, a, n) != Slot(h, b, n)
  {
    hide Slot, Triangular, IsPow2;
    if Slot(h, a, n) == Slot(h, b, n) {
      TriangularGap(a, b);
      SlotIs(h, a, n);
      SlotIs(h, b, n);
      var q := SameRemainder(h + Triangular(a), h + Triangular(b), n);
      Regroup(n, q);
      DoubleIsPow2(n);
      NoProduct(b - a, b + a + 1, 2 * n, q);
    }
  }

  lemma SlotIs(h: nat, d: nat, n: nat)
    requires n > 0
    ensures Slot(h, d, n) == (h + Triangular(d)) % n
  {
  }

  lemma SlotZero(h: nat, n: nat)
    requires h < n
    ensures Slot(h, 0, n) == h
  {
  }

  lemma Regroup(n: nat, q: nat)
    ensures 2 * (n * q) == (2 * n) * q
  {
  }

  lemma SameRemainder(x: nat, y: nat, n: nat) returns (q: nat)
    requires n > 0 && x <= y && x % n == y % n
    ensures y - x == n * q
  {
    QuotientsOrdered(x, y, n);
    q := y / n - x / n;
    assert x == n * (x / n) + x % n && y == n * (y / n) + y % n;
    Distribute(n, y / n, x / n);
  }

  lemma Distribute(n: nat, a: nat, b: nat)
    requires a >= b
    ensures n * (a - b) == n * a - n * b
  {
  }

  lemma QuotientsOrdered(x: nat, y: nat, n: nat)
    requires n > 0 && x <= y
    ensures x / n <= y / n
  {
    var a, b := x / n, y / n;
    assert x >= n * a && y < n * b + n;
    if a > b { Distribute(n, a, b); Grows(n, a - b); }
  }

  lemma Grows(n: nat, k: nat)
    requires k >= 1
    ensures n * k >= n
  {
  }

  lemma TriangularGap(a: nat, b: nat)
    requires a <= b
    ensures Triangular(a) <= Triangular(b)
    ensures 2 * (Triangular(b) - Triangular(a)) == (b - a) * (b + a + 1)
  {
    EvenProduct(a);
    EvenProduct(b);
  }

  lemma EvenProduct(d: nat)
    ensures 2 * Triangular(d) == d * (d + 1)
  {
    var k := d / 2;
    if d % 2 == 0 {
      assert d * (d + 1) == 2 * (k * (d + 1)) by { assert d == 2 * k; }
    } else {
      assert d * (d + 1) == 2 * (d * (k + 1)) by { assert d + 1 == 2 * (k + 1); }
    }
  }

  /** Of x and y one is odd and both are positive and below n: their product is no multiple of n. */
  lemma NoProduct(x: nat, y: nat, n: nat, q: nat)
    requires IsPow2(n) && 0 < x < n && 0 < y < n && (x + y) % 2 == 1
    ensures x * y != n * q
  {
    hide IsPow2;
    if x % 2 == 1 { OddNoProduct(x, y, n, q); } else { OddNoProduct(y, x, n, q); }
  }

  lemma OddNoProduct(x: nat, y: nat, n: nat, q: nat)
    requires IsPow2(n) && x % 2 == 1 && 0 < y < n
    ensures x * y != n * q
  {
    hide IsPow2;
    if x * y == n * q {
      var p := OddCancels(x, y, n, q);
      NotMultiple(y, n, p);
    }
  }

  lemma NotMultiple(y: nat, n: nat, p: nat)
    requires 0 < y < n
    ensures y != n * p
  {
  }

  /** In a table of at most 1024 buckets, or any power of two up to the displacement limit, a search
      for an empty bucket from an occupied home finds one whenever there is one. */
  lemma EmptyIsProbed(ms: seq<Meta>, h: nat, e: nat)
    requires 0 < |ms| <= END && IsPow2(|ms|) && h < |ms| && ms[h] != EMPTY
    requires e < |ms| && ms[e] == EMPTY
    ensures !ProbesFull(ms, h)
  {
    var n := |ms|;
    hide Slot, IsPow2;
    SlotZero(h, n);
    var f := Probes(h, n);
    Pigeonhole(f, n, e);
    var d :| 0 <= d < n && f[d] == e;
    assert ms[Slot(h, d, n)] == EMPTY;
  }

  function Probes(h: nat, n: nat): (f: seq<nat>)
    requires IsPow2(n)
    ensures |f| == n && forall d :: 0 <= d < n ==> f[d] == Slot(h, d, n)
    ensures forall i, j :: 0 <= i < j < n ==> f[i] != f[j]
  {
    hide Slot, IsPow2;
    var f := seq<nat>(n, d requires 0 <= d < n => Slot(h, d, n));
    assert forall i, j :: 0 <= i < j < n ==> f[i] != f[j] by {
      forall i, j | 0 <= i < j < n ensures f[i] != f[j] { ProbesDiffer(h, i, j, n); }
    }
    f
  }
}
