/** The order of a split-ordered list: hash codes are bit-reversed, so that doubling the table splits
    every bucket into two neighbouring stretches of the list. */
module SplitOrder {
  import opened Counting

  const TOP_BIT: nat := 0x8000_0000
  const WORD: nat := 0x1_0000_0000

  /** The lowest `w` bits of `k` in the opposite order. */
  function Reverse(k: nat, w: nat): nat
    decreases w
  {
    if w == 0 then 0 else (k % 2) * Pow2(w - 1) + Reverse(k / 2, w - 1)
  }

  /** The loop of `reverse_value`: bit i of k goes to bit 31 - i. */
  method ReverseValue(k: nat) returns (r: nat)
    requires k < WORD
    ensures r == Reverse(k, 32)
  {
    r := 0;
    var rest: nat := k;
    for i := 0 to 32
      invariant r + Reverse(rest, 32 - i) == Reverse(k, 32)
    {
      r := r + (rest % 2) * Pow2(31 - i);
      rest := rest / 2;
    }
  }

  lemma {:induction false} ReverseBound(k: nat, w: nat)
    ensures Reverse(k, w) < Pow2(w)
    decreases w
  {
    if w > 0 { ReverseBound(k / 2, w - 1); }
  }

  lemma {:induction false} ReverseZero(w: nat)
    ensures Reverse(0, w) == 0
    decreases w
  {
    if w > 0 { ReverseZero(w - 1); }
  }

  lemma {:induction false} ReversePositive(k: nat, w: nat)
    requires 0 < k < Pow2(w)
    ensures Reverse(k, w) > 0
    decreases w
  {
    if k % 2 == 0 { ReversePositive(k / 2, w - 1); }
  }

  /** The low bits of a number become the high bits of its reversal. */
  lemma {:induction false} ReverseSplit(q: nat, b: nat, m: nat, w: nat)
    requires b < Pow2(m)
    ensures Reverse(q * Pow2(m) + b, m + w) == Reverse(b, m) * Pow2(w) + Reverse(q, w)
    decreases m
  {
    if m == 0 {
      assert q * Pow2(0) + b == q;
    } else {
      var k, p := q * Pow2(m) + b, Pow2(m - 1);
      HalfOf(q, b, p, k);
      ReverseSplit(q, b / 2, m - 1, w);
      Pow2Sum(m - 1, w);
      assert Reverse(k, m + w) == (b % 2) * Pow2(m - 1 + w) + Reverse(k / 2, m - 1 + w);
      Regroup(b % 2, p, Pow2(w), Reverse(b / 2, m - 1));
    }
  }

  lemma HalfOf(q: nat, b: nat, p: nat, k: nat)
    requires k == q * (2 * p) + b
    ensures k % 2 == b % 2 && k / 2 == q * p + b / 2
  {
    assert k == 2 * (q * p) + b;
  }

  lemma Regroup(bit: nat, p: nat, x: nat, r: nat)
    ensures bit * (p * x) + r * x == (bit * p + r) * x
  {
  }

  // ---------- the codes of dummy and regular nodes ----------

  function SetTop(k: nat): nat { if k / TOP_BIT % 2 == 1 then k else k + TOP_BIT }
  function ClearTop(k: nat): nat { if k / TOP_BIT % 2 == 1 then k - TOP_BIT else k }

  function RegularCode(hash: nat): nat { Reverse(SetTop(hash), 32) }
  function DummyCode(bucket: nat): nat { Reverse(ClearTop(bucket), 32) }

  predicate IsDummyCode(code: nat) { code % 2 == 0 }

  lemma TopBit()
    ensures Pow2(31) == TOP_BIT && Pow2(32) == WORD
  {
    assert Pow2(4) == 16;
    Pow2Sum(4, 4);
    Pow2Sum(8, 8);
    Pow2Sum(16, 16);
    assert Pow2(32) == 2 * Pow2(31);
  }

  /** What setting and clearing the top bit of a 32-bit word do. */
  lemma TopParts(k: nat)
    requires k < WORD
    ensures TOP_BIT <= SetTop(k) < WORD && ClearTop(k) < TOP_BIT && (k < TOP_BIT ==> ClearTop(k) == k)
    ensures SetTop(k) == k || SetTop(k) == k + TOP_BIT
  {
  }

  /** Regular codes are odd and dummy codes are even. */
  lemma CodeParity(hash: nat, bucket: nat)
    requires hash < WORD && bucket < TOP_BIT
    ensures !IsDummyCode(RegularCode(hash)) && IsDummyCode(DummyCode(bucket))
  {
    TopBit();
    TopParts(hash);
    TopParts(bucket);
    assert Reverse(1, 1) == 1 && Reverse(0, 1) == 0;
    hide Reverse, Pow2, SetTop, ClearTop;
    LowestBit(SetTop(hash), 1, SetTop(hash) - TOP_BIT);
    LowestBit(ClearTop(bucket), 0, bucket);
  }

  /** The top bit of a word becomes the lowest bit of its reversal. */
  lemma LowestBit(k: nat, top: nat, rest: nat)
    requires top <= 1 && rest < TOP_BIT && k == top * TOP_BIT + rest
    ensures Reverse(k, 32) % 2 == Reverse(top, 1)
  {
    TopBit();
    assert Pow2(1) == 2 && Reverse(top, 1) <= 1;
    hide Pow2, Reverse;
    assert Pow2(31) * top == top * TOP_BIT;
    SplitAt(k, top, rest, 31);
    Even(Reverse(rest, 31), Reverse(top, 1), Reverse(k, 32));
  }

  lemma Even(a: nat, bit: nat, x: nat)
    requires bit <= 1 && x == a * 2 + bit
    ensures x % 2 == bit
  {
  }

  /** The code of a key comes after that of its bucket's dummy, in a table of any power of two. */
  lemma RegularAfterDummy(hash: nat, m: nat)
    requires hash < WORD && m <= 31
    ensures DummyCode(hash % Pow2(m)) < RegularCode(hash)
  {
    hide Reverse, SetTop, ClearTop, Pow2;
    var size, k := Pow2(m), SetTop(hash);
    TopParts(hash);
    TopKeepsBucket(hash, m);
    TopParts(hash % size);
    var q := HighPart(k, m);
    ReversePositive(q, 32 - m);
    ReverseZero(32 - m);
    SplitAt(k, q, hash % size, m);
    SplitAt(hash % size, 0, hash % size, m);
  }

  /** The bits of a word with its top bit set that are above the lowest `m`. */
  lemma HighPart(k: nat, m: nat) returns (q: nat)
    requires TOP_BIT <= k < WORD && m <= 31
    ensures k == Pow2(m) * q + k % Pow2(m) && 0 < q < Pow2(32 - m)
  {
    TopBit();
    Pow2Sum(m, 31 - m);
    assert Pow2(32 - m) == 2 * Pow2(31 - m);
    q := QuotientParts(k, Pow2(m), Pow2(31 - m));
  }

  lemma QuotientParts(k: nat, size: nat, rest: nat) returns (q: nat)
    requires size > 0 && TOP_BIT <= k < WORD && size * rest == TOP_BIT
    ensures k == size * q + k % size && 0 < q < 2 * rest
  {
    q := k / size;
    QuotientRange(k, size, rest, q);
  }

  lemma SplitAt(k: nat, q: nat, b: nat, m: nat)
    requires m <= 32 && b < Pow2(m) && k == Pow2(m) * q + b
    ensures Reverse(k, 32) == Reverse(b, m) * Pow2(32 - m) + Reverse(q, 32 - m)
  {
    hide Reverse, Pow2;
    ReverseSplit(q, b, m, 32 - m);
  }

  lemma TopKeepsBucket(hash: nat, m: nat)
    requires hash < WORD && m <= 31
    ensures SetTop(hash) % Pow2(m) == hash % Pow2(m) < TOP_BIT
  {
    TopBit();
    Pow2Sum(m, 31 - m);
    AddMultiple(hash, Pow2(31 - m), Pow2(m));
    if m < 31 { Pow2Smaller(m); }
  }

  lemma {:induction false} Pow2Smaller(m: nat)
    requires m <= 31
    ensures Pow2(m) <= TOP_BIT
    decreases 31 - m
  {
    TopBit();
    if m < 31 { Pow2Smaller(m + 1); }
  }

  lemma AddMultiple(x: nat, q: nat, n: nat)
    requires n > 0
    ensures (x + n * q) % n == x % n
  {
    var a, r := x / n, x % n;
    assert x + n * q == n * (a + q) + r;
    Remainder(a + q, r, n);
  }

  lemma QuotientRange(k: nat, size: nat, rest: nat, q: nat)
    requires size > 0 && q == k / size && TOP_BIT <= k < WORD && size * rest == TOP_BIT
    ensures 0 < q < 2 * rest
  {
    assert size * q <= k < size * q + size;
    assert rest > 0;
    if q == 0 { SizeAtMost(size, rest); }
    if q >= 2 * rest { AtLeastTimes(size, q, 2 * rest); }
  }

  lemma SizeAtMost(size: nat, rest: nat)
    requires rest >= 1
    ensures size <= size * rest
  {
  }

  lemma AtLeastTimes(n: nat, a: nat, b: nat)
    requires a >= b
    ensures n * a >= n * b
  {
  }

  // ---------- buckets and their parents ----------

  /** The bucket without its highest bit. */
  function Parent(b: nat): nat
    requires b < TOP_BIT
  {
    ParentFrom(b, 31)
  }

  lemma BitBelow(b: nat, p: nat)
    requires p > 0 && b / p % 2 == 1
    ensures b >= p
  {
  }

  function ParentFrom(b: nat, i: int): nat
    requires i < 32
    decreases i + 1
  {
    if i < 0 then 0
    else if b / Pow2(i) % 2 == 1 then (BitBelow(b, Pow2(i)); b - Pow2(i))
    else ParentFrom(b, i - 1)
  }

  /** A bucket's highest bit. */
  lemma {:induction false} HighestBit(b: nat, i: int) returns (j: nat)
    requires 0 < b && i < 32 && (i < 0 ==> b < 1) && (i >= 0 ==> b < 2 * Pow2(i))
    ensures j <= i && Pow2(j) <= b < 2 * Pow2(j) && ParentFrom(b, i) == b - Pow2(j)
    decreases i + 1
  {
    BitTest(b, Pow2(i));
    if b >= Pow2(i) { return i; }
    if i > 0 { assert Pow2(i) == 2 * Pow2(i - 1); }
    j := HighestBit(b, i - 1);
  }

  lemma BitTest(b: nat, p: nat)
    requires p > 0 && b < 2 * p
    ensures b / p % 2 == 1 <==> b >= p
  {
    if b >= p { Remainder(1, b - p, p); } else { Remainder(0, b, p); }
  }

  /** A bucket's parent has a smaller number, and its dummy comes earlier in the list. */
  lemma ParentBefore(b: nat)
    requires 0 < b < TOP_BIT
    ensures Parent(b) < b && DummyCode(Parent(b)) < DummyCode(b)
  {
    hide Pow2, Reverse, ClearTop, ParentFrom;
    TopBit();
    var j := HighestBit(b, 31);
    TopParts(b);
    TopParts(b - Pow2(j));
    OneMoreBit(b, b - Pow2(j), j);
  }

  lemma OneMoreBit(b: nat, p: nat, j: nat)
    requires j <= 31 && p < Pow2(j) && b == Pow2(j) + p
    ensures Reverse(p, 32) < Reverse(b, 32)
  {
    assert Pow2(32 - j) >= 2;
    hide Pow2, Reverse;
    ReversePositive(1, 32 - j);
    ReverseZero(32 - j);
    SplitAt(b, 1, p, j);
    SplitAt(p, 0, p, j);
  }

  /** The loop of `get_parent`. */
  method GetParent(b: nat) returns (p: nat)
    requires b < TOP_BIT
    ensures p == Parent(b)
  {
    var i := 31;
    while i >= 0
      invariant -1 <= i <= 31 && Parent(b) == ParentFrom(b, i)
    {
      if b / Pow2(i) % 2 == 1 { return b - Pow2(i); }
      i := i - 1;
    }
    p := 0;
  }
}
