/** The chains of the Verstable hash table, apart from keys and heap: each bucket's metadatum links
    to the next bucket of its chain by a displacement from the chain's home bucket. */
module VerstableChains {
  /** The displacement mask, which also ends a chain. */
  const END: nat := 0x7FF

  /** A 16-bit metadatum: four bits of hash, whether the key is in its home bucket, and the
      displacement of the next key in the chain. */
  datatype Meta = Meta(frag: nat, home: bool, link: nat)

  const EMPTY := Meta(0, false, 0)

  function Triangular(d: nat): nat { d * (d + 1) / 2 }

  /** Where a key at displacement `d` from home bucket `h` goes in a table of `n` buckets. */
  function Slot(h: nat, d: nat, n: nat): (b: nat)
    requires n > 0
    ensures b < n
  {
    (h + Triangular(d)) % n
  }

  /** Metadata, the home bucket of each bucket's key, and that key's own displacement. */
  datatype Rack = Rack(ms: seq<Meta>, hs: seq<nat>, ds: seq<nat>)

  predicate Sized(t: Rack) { |t.ms| == |t.hs| == |t.ds| > 0 }

  /** Bucket `b` holds a key that belongs to a chain. A `hole` is a bucket whose key has been taken
      out of its chain but is still there; -1 stands for none. */
  predicate Live(t: Rack, hole: int, b: int) { 0 <= b < |t.ms| && b != hole && t.ms[b] != EMPTY }

  /** The key in `b` is where its displacement says, and its home bucket starts its chain. */
  predicate Placed(t: Rack, hole: int, b: nat)
    requires Sized(t) && Live(t, hole, b)
  {
    && t.hs[b] < |t.ms| && t.ds[b] < END && Slot(t.hs[b], t.ds[b], |t.ms|) == b
    && (t.ms[b].home <==> t.ds[b] == 0) && (t.ds[b] == 0 <==> t.hs[b] == b)
    && Live(t, hole, t.hs[b]) && t.hs[t.hs[b]] == t.hs[b]
  }

  /** The link of `b` ends the chain or leads to a key of the same chain further on. */
  predicate Points(t: Rack, hole: int, b: nat)
    requires Sized(t) && Live(t, hole, b)
  {
    && t.ds[b] < t.ms[b].link <= END
    && (t.ms[b].link < END ==>
          var c := Slot(t.hs[b], t.ms[b].link, |t.ms|);
          Live(t, hole, c) && t.hs[c] == t.hs[b] && t.ds[c] == t.ms[b].link)
  }

  /** Key `e` is not jumped over by the link of `b`. */
  predicate Reaches(t: Rack, hole: int, b: nat, e: nat)
    requires Sized(t) && Live(t, hole, b) && Live(t, hole, e)
  {
    t.hs[e] == t.hs[b] && t.ds[e] > t.ds[b] ==> t.ds[e] >= t.ms[b].link
  }

  /** The link of `b` leads to the key of the same chain with the next larger displacement. */
  ghost predicate Linked(t: Rack, hole: int, b: nat)
    requires Sized(t) && Live(t, hole, b)
  {
    Points(t, hole, b) && forall e: nat :: Live(t, hole, e) ==> Reaches(t, hole, b, e)
  }

  /** Every chain starts in its home bucket and lists the live keys of that home by increasing
      displacement. */
  ghost predicate Chained(t: Rack, hole: int) {
    && Sized(t)
    && forall b: nat :: Live(t, hole, b) ==> Placed(t, hole, b) && Linked(t, hole, b)
  }

  lemma LinkPoints(t: Rack, hole: int, b: nat)
    requires Chained(t, hole) && Live(t, hole, b)
    ensures Points(t, hole, b)
  {
  }

  /** `p` is the key before bucket `b` in its chain. */
  predicate Precedes(t: Rack, hole: int, p: nat, b: nat)
    requires Sized(t)
  {
    && Live(t, hole, p) && Live(t, hole, b) && t.hs[p] == t.hs[b] && t.ms[p].link == t.ds[b]
  }

  // ---------- the three changes to a chain ----------

  /** A key put into empty bucket `e` at displacement `d` and linked after `p`. */
  function LinkAfter(t: Rack, p: nat, e: nat, d: nat, frag: nat): Rack
    requires Sized(t) && p < |t.ms| && e < |t.ms|
  {
    Rack(t.ms[e := Meta(frag, false, t.ms[p].link)][p := Meta(t.ms[p].frag, t.ms[p].home, d)], t.hs[e := t.hs[p]], t.ds[e := d])
  }

  lemma LinkKeepsChains(t: Rack, hole: int, p: nat, e: nat, d: nat, frag: nat)
    requires Chained(t, hole) && Live(t, hole, p) && e < |t.ms| && t.ms[e] == EMPTY && e != hole
    requires t.ds[p] < d < t.ms[p].link && Slot(t.hs[p], d, |t.ms|) == e
    ensures Chained(LinkAfter(t, p, e, d, frag), hole)
  {
    hide Slot, Reaches;
    var u := LinkAfter(t, p, e, d, frag);
    assert Placed(t, hole, p) && Points(t, hole, p);
    forall b: nat | Live(u, hole, b) ensures Placed(u, hole, b) && Linked(u, hole, b) {
      assert b != e ==> Live(t, hole, b) && Placed(t, hole, b) && Points(t, hole, b);
      forall c: nat | Live(u, hole, c) ensures Reaches(u, hole, b, c) {
        LinkReaches(t, hole, p, e, d, frag, b, c);
      }
    }
  }

  lemma LinkReaches(t: Rack, hole: int, p: nat, e: nat, d: nat, frag: nat, b: nat, c: nat)
    requires Chained(t, hole) && Live(t, hole, p) && e < |t.ms| && t.ms[e] == EMPTY && e != hole
    requires t.ds[p] < d < t.ms[p].link
    requires Live(LinkAfter(t, p, e, d, frag), hole, b) && Live(LinkAfter(t, p, e, d, frag), hole, c)
    ensures Reaches(LinkAfter(t, p, e, d, frag), hole, b, c)
  {
    hide Slot, Placed, Points;
    assert Linked(t, hole, p);
    if b != e {
      assert Live(t, hole, b) && Linked(t, hole, b) && Reaches(t, hole, b, p) && Reaches(t, hole, p, b);
      SameSpot(t, hole, b, p);
    }
    if c != e { assert Live(t, hole, c) && Reaches(t, hole, p, c); }
    if b != e && c != e { assert Reaches(t, hole, b, c); }
  }

  /** The key in `b` taken out of its chain; its metadatum stays as it is. */
  function SkipOver(t: Rack, p: nat, b: nat): Rack
    requires Sized(t) && p < |t.ms| && b < |t.ms|
  {
    Rack(t.ms[p := Meta(t.ms[p].frag, t.ms[p].home, t.ms[b].link)], t.hs, t.ds)
  }

  lemma SkipKeepsChains(t: Rack, p: nat, b: nat)
    requires Chained(t, -1) && Precedes(t, -1, p, b)
    ensures Chained(SkipOver(t, p, b), b)
  {
    hide Slot, Reaches;
    var u := SkipOver(t, p, b);
    assert Placed(t, -1, b) && Points(t, -1, b) && Points(t, -1, p);
    forall c: nat | Live(u, b, c) ensures Placed(u, b, c) && Linked(u, b, c) {
      assert Placed(t, -1, c) && Points(t, -1, c);
      if c != p && t.ms[c].link == t.ds[b] && t.hs[c] == t.hs[b] { OnlyOnePrecedes(t, p, c, b); }
      forall e: nat | Live(u, b, e) ensures Reaches(u, b, c, e) { SkipReaches(t, p, b, c, e); }
    }
  }

  /** With the key left in its bucket the chains are no longer complete. */
  lemma SkipBreaksChain(t: Rack, p: nat, b: nat)
    requires Chained(t, -1) && Precedes(t, -1, p, b)
    ensures !Chained(SkipOver(t, p, b), -1)
  {
    hide Slot;
    var u := SkipOver(t, p, b);
    assert Points(t, -1, p) && Points(t, -1, b);
    assert Live(u, -1, p) && Live(u, -1, b) && !Reaches(u, -1, p, b);
  }

  lemma OnlyOnePrecedes(t: Rack, p: nat, c: nat, b: nat)
    requires Chained(t, -1) && Precedes(t, -1, p, b) && Precedes(t, -1, c, b)
    ensures p == c
  {
    hide Slot;
    assert Linked(t, -1, p) && Linked(t, -1, c) && Reaches(t, -1, p, c) && Reaches(t, -1, c, p);
    SameSpot(t, -1, p, c);
  }

  lemma PrecedesOther(t: Rack, p: nat, b: nat)
    requires Chained(t, -1) && Precedes(t, -1, p, b)
    ensures p != b && forall c: nat :: Live(t, -1, c) ==> t.ms[c].link > 0
  {
    hide Slot, Placed;
    forall c: nat | Live(t, -1, c) ensures t.ms[c].link > 0 { assert Points(t, -1, c); }
    assert Points(t, -1, p);
  }

  /** A home bucket and a displacement name one bucket. */
  lemma SameSpot(t: Rack, hole: int, a: nat, b: nat)
    requires Chained(t, hole) && Live(t, hole, a) && Live(t, hole, b)
    ensures t.hs[a] == t.hs[b] && t.ds[a] == t.ds[b] ==> a == b
  {
    hide Slot;
    assert Placed(t, hole, a) && Placed(t, hole, b);
  }

  lemma SkipReaches(t: Rack, p: nat, b: nat, c: nat, e: nat)
    requires Chained(t, -1) && Precedes(t, -1, p, b)
    requires Live(SkipOver(t, p, b), b, c) && Live(SkipOver(t, p, b), b, e)
    ensures Reaches(SkipOver(t, p, b), b, c, e)
  {
    hide Slot, Placed, Points;
    assert Linked(t, -1, c) && Reaches(t, -1, c, e);
    if c == p {
      assert Linked(t, -1, b) && Reaches(t, -1, b, e);
      SameSpot(t, -1, b, e);
    }
  }

  /** A new chain started in its home bucket. */
  function StartChain(t: Rack, b: nat, frag: nat): Rack
    requires Sized(t) && b < |t.ms|
  {
    Rack(t.ms[b := Meta(frag, true, END)], t.hs[b := b], t.ds[b := 0])
  }

  lemma StartKeepsChains(t: Rack, b: nat, frag: nat)
    requires Chained(t, b) && b < |t.ms|
    ensures Chained(StartChain(t, b, frag), -1)
  {
    assert Slot(b, 0, |t.ms|) == b;
    hide Slot, Reaches;
    var u := StartChain(t, b, frag);
    forall c: nat | Live(u, -1, c) ensures Placed(u, -1, c) && Linked(u, -1, c) {
      assert c != b ==> Live(t, b, c) && Placed(t, b, c) && Points(t, b, c);
      forall e: nat | Live(u, -1, e) ensures Reaches(u, -1, c, e) { StartReaches(t, b, frag, c, e); }
    }
  }

  lemma StartReaches(t: Rack, b: nat, frag: nat, c: nat, e: nat)
    requires Chained(t, b) && b < |t.ms|
    requires Live(StartChain(t, b, frag), -1, c) && Live(StartChain(t, b, frag), -1, e)
    ensures Reaches(StartChain(t, b, frag), -1, c, e)
  {
    hide Slot;
    if c != b { assert Live(t, b, c) && Placed(t, b, c); }
    if e != b { assert Live(t, b, e) && Placed(t, b, e); }
    if c != b && e != b { assert Linked(t, b, c) && Reaches(t, b, c, e); }
  }

  /** The hole's metadatum cleared. */
  lemma ClearKeepsChains(t: Rack, b: nat)
    requires Chained(t, b) && b < |t.ms|
    ensures Chained(Rack(t.ms[b := EMPTY], t.hs, t.ds), -1)
  {
    hide Slot;
    var u := Rack(t.ms[b := EMPTY], t.hs, t.ds);
    forall c: nat | Live(u, -1, c) ensures Placed(u, -1, c) && Linked(u, -1, c) {
      assert Live(t, b, c) && Placed(t, b, c) && Points(t, b, c);
      forall e: nat | Live(u, -1, e) ensures Reaches(u, -1, c, e) {
        assert Live(t, b, e) && Reaches(t, b, c, e);
      }
    }
  }

  /** A chain of one key removed. */
  lemma SingletonIsAlone(t: Rack, b: nat)
    requires Chained(t, -1) && Live(t, -1, b) && t.ms[b].home && t.ms[b].link == END
    ensures Chained(t, b)
  {
    hide Slot;
    assert Placed(t, -1, b) && Linked(t, -1, b);
    forall c: nat | Live(t, b, c) ensures t.hs[c] != b {
      assert Placed(t, -1, c) && Reaches(t, -1, b, c);
    }
    forall c: nat | Live(t, b, c) ensures Placed(t, b, c) && Linked(t, b, c) {
      assert Placed(t, -1, c) && Linked(t, -1, c);
      assert Points(t, b, c);
      forall e: nat | Live(t, b, e) ensures Reaches(t, b, c, e) {
        assert Reaches(t, -1, c, e);
      }
    }
  }

  /** Chains do not depend on hash fragments. */
  lemma FragKeepsChains(t: Rack, hole: int, b: nat, frag: nat)
    requires Chained(t, hole) && Live(t, hole, b)
    ensures t.ms[b].link > 0
    ensures Chained(Rack(t.ms[b := Meta(frag, t.ms[b].home, t.ms[b].link)], t.hs, t.ds), hole)
  {
    hide Slot;
    assert Points(t, hole, b);
    var u := Rack(t.ms[b := Meta(frag, t.ms[b].home, t.ms[b].link)], t.hs, t.ds);
    forall c: nat | Live(u, hole, c) ensures Placed(u, hole, c) && Linked(u, hole, c) {
      assert Live(t, hole, c) && Placed(t, hole, c) && Points(t, hole, c);
      forall e: nat | Live(u, hole, e) ensures Reaches(u, hole, c, e) {
        assert Live(t, hole, e) && Reaches(t, hole, c, e);
      }
    }
  }
}
