/** A ring of slots, as linear probing sees it. */
module Ring {
  /** Steps from slot `a` forward to slot `b` on a ring of `n`. */
  function Dist(a: nat, b: nat, n: nat): nat
    requires a < n && b < n
  {
    if a <= b then b - a else b + n - a
  }

  /** A probe from `h` passes slot `y` before it comes to slot `x`. */
  predicate OnPath(h: nat, y: nat, x: nat, n: nat)
    requires h < n && x < n && y < n
  {
    Dist(h, y, n) < Dist(h, x, n)
  }

  function NextSlot(i: nat, n: nat): (j: nat)
    requires i < n
    ensures j < n
  {
    if i + 1 == n then 0 else i + 1
  }

  lemma PathOrder(h: nat, x: nat, i: nat, n: nat)
    requires h < n && x < n && i < n
    ensures OnPath(h, x, i, n) || x == i || OnPath(h, i, x, n)
  {
  }

  /** A probe that goes on past `i` to beyond `j` passes `j` too. */
  lemma PathThrough(h: nat, i: nat, j: nat, x: nat, n: nat)
    requires h < n && i < n && j < n && x < n
    ensures OnPath(h, i, x, n) && Dist(i, x, n) > Dist(i, j, n) ==> OnPath(h, j, x, n)
    ensures Dist(i, x, n) == Dist(i, j, n) ==> x == j
  {
  }

  /** One more step of a probe. */
  lemma PathGrows(h: nat, i: nat, e: nat, n: nat)
    requires h < n && i < n && e < n && i != e && !OnPath(h, e, i, n)
    ensures Dist(NextSlot(i, n), e, n) < Dist(i, e, n)
    ensures forall y: nat :: y < n ==> (OnPath(h, y, NextSlot(i, n), n) <==> y == i || OnPath(h, y, i, n))
  {
  }

  /** Before the free slot `e` a scan from the hole `i` has not come round. */
  lemma BeforeFree(i: nat, j: nat, e: nat, n: nat)
    requires i < n && j < n && e < n && Dist(i, j, n) < Dist(i, e, n)
    ensures NextSlot(j, n) != i && Dist(NextSlot(j, n), e, n) < Dist(j, e, n)
    ensures NextSlot(j, n) != e ==> Dist(i, NextSlot(j, n), n) < Dist(i, e, n)
    ensures NextSlot(j, n) != e ==> Dist(NextSlot(j, n), NextSlot(j, n), n) < Dist(NextSlot(j, n), e, n)
  {
  }

  /** One more step of a probe that starts in `h`: back to `h` it has passed every slot. */
  lemma ProbeOn(h: nat, i: nat, n: nat)
    requires h < n && i < n
    ensures NextSlot(i, n) != h ==> Dist(h, NextSlot(i, n), n) == Dist(h, i, n) + 1
    ensures NextSlot(i, n) != h ==> forall y: nat :: y < n ==> (OnPath(h, y, NextSlot(i, n), n) <==> y == i || OnPath(h, y, i, n))
    ensures NextSlot(i, n) == h ==> forall y: nat :: y < n ==> y == i || OnPath(h, y, i, n)
  {
  }
}
