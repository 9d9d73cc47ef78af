/** Robin Hood probing on a ring of buckets, apart from the map that owns them. */
module RobinHoodSlots {
  import opened Counting
  import opened Ring

  /** `dib` is the distance from the key's home bucket plus one; 0 marks an empty bucket. */
  datatype Bucket<K, V> = Bucket(hash: nat, dib: nat, key: K, val: V)

  /** The 48 bits of a hash that are kept. */
  function ClipHash(hash: nat): nat { hash % 0x1_0000_0000_0000 }

  function HomeOf(hash: nat, n: nat): (h: nat)
    requires n > 0
    ensures h < n
  {
    hash % n
  }

  predicate InPlace<K, V>(bs: seq<Bucket<K, V>>, i: nat)
    requires i < |bs|
  {
    bs[i].dib > 0 ==> bs[i].dib == Dist(HomeOf(bs[i].hash, |bs|), i, |bs|) + 1
  }

  /** From one bucket to the next the distance grows by at most one. */
  predicate Level<K, V>(bs: seq<Bucket<K, V>>, i: nat)
    requires i < |bs|
  {
    bs[NextSlot(i, |bs|)].dib <= bs[i].dib + 1
  }

  ghost predicate RobinHood<K, V>(bs: seq<Bucket<K, V>>) {
    |bs| > 0 && forall i: nat :: i < |bs| ==> InPlace(bs, i) && Level(bs, i)
  }

  /** The occupied buckets other than `hole` hold exactly the keys of `spots`, each once. */
  ghost predicate Stored<K, V>(bs: seq<Bucket<K, V>>, spots: map<K, nat>, hash: K -> nat, hole: int) {
    && (forall k :: k in spots ==> spots[k] < |bs| && spots[k] != hole && bs[spots[k]].dib > 0 && bs[spots[k]].key == k)
    && forall i: nat :: i < |bs| && i != hole && bs[i].dib > 0 ==> Owns(bs, spots, hash, i)
  }

  predicate Owns<K(==), V>(bs: seq<Bucket<K, V>>, spots: map<K, nat>, hash: K -> nat, i: nat)
    requires i < |bs|
  {
    bs[i].key in spots && spots[bs[i].key] == i && bs[i].hash == ClipHash(hash(bs[i].key))
  }

  ghost predicate Sound<K, V>(bs: seq<Bucket<K, V>>, spots: map<K, nat>, hash: K -> nat) {
    RobinHood(bs) && Stored(bs, spots, hash, -1)
  }

  ghost function ContentsOf<K, V>(bs: seq<Bucket<K, V>>, spots: map<K, nat>): map<K, V> {
    map k | k in spots && spots[k] < |bs| :: bs[spots[k]].val
  }

  // ---------- what the order means ----------

  lemma {:induction false} Falls<K, V>(bs: seq<Bucket<K, V>>, i: nat, x: nat)
    requires RobinHood(bs) && i < |bs| && x < |bs|
    ensures bs[x].dib <= bs[i].dib + Dist(i, x, |bs|)
    decreases Dist(i, x, |bs|)
  {
    hide InPlace;
    if i != x {
      assert Level(bs, i);
      Falls(bs, NextSlot(i, |bs|), x);
    }
  }

  /** Every bucket that a key's probe passes is at least as far from its home as the key would be. */
  lemma Poorer<K, V>(bs: seq<Bucket<K, V>>, y: nat, x: nat)
    requires RobinHood(bs) && x < |bs| && bs[x].dib > 0 && y < |bs|
    requires OnPath(HomeOf(bs[x].hash, |bs|), y, x, |bs|)
    ensures bs[y].dib >= Dist(HomeOf(bs[x].hash, |bs|), y, |bs|) + 1
  {
    hide HomeOf;
    assert InPlace(bs, x);
    Falls(bs, y, x);
  }

  /** The distance field never exceeds the number of keys. */
  lemma DistanceBound<K, V>(bs: seq<Bucket<K, V>>, spots: map<K, nat>, hash: K -> nat, x: nat)
    requires Sound(bs, spots, hash) && x < |bs|
    ensures bs[x].dib <= |spots|
  {
    hide HomeOf, ClipHash;
    if bs[x].dib > 0 {
      var h, n := HomeOf(bs[x].hash, |bs|), |bs|;
      assert InPlace(bs, x);
      var path := set y: nat | y < n && (y == x || OnPath(h, y, x, n));
      forall y | y in path ensures bs[y].dib > 0 && Owns(bs, spots, hash, y) {
        if y != x { Poorer(bs, y, x); }
      }
      PathLength(h, x, n);
      KeysOnPath(bs, spots, path);
    }
  }

  lemma KeysOnPath<K, V>(bs: seq<Bucket<K, V>>, spots: map<K, nat>, path: set<nat>)
    requires forall y :: y in path ==> y < |bs| && bs[y].key in spots && spots[bs[y].key] == y
    ensures |path| <= |spots|
    decreases |path|
  {
    if path != {} {
      var y :| y in path;
      RemoveKey(spots, bs[y].key);
      KeysOnPath(bs, spots - {bs[y].key}, path - {y});
    }
  }

  lemma {:induction false} PathLength(h: nat, x: nat, n: nat)
    requires h < n && x < n
    ensures |set y: nat | y < n && (y == x || OnPath(h, y, x, n))| == Dist(h, x, n) + 1
    decreases Dist(h, x, n)
  {
    var path := set y: nat | y < n && (y == x || OnPath(h, y, x, n));
    if h == x {
      assert path == {x};
    } else {
      var p := if x == 0 then n - 1 else x - 1;
      PathLength(h, p, n);
      assert path == (set y: nat | y < n && (y == p || OnPath(h, y, p, n))) + {x};
    }
  }

  /** A probe that meets an empty bucket before the key shows that the key is not there. */
  lemma StopsAtEmpty<K, V>(bs: seq<Bucket<K, V>>, spots: map<K, nat>, hash: K -> nat, key: K, i: nat)
    requires Sound(bs, spots, hash) && i < |bs| && bs[i].dib == 0
    requires NotPassed(bs, spots, ClipHash(hash(key)), key, i)
    ensures key !in spots
  {
    hide HomeOf, ClipHash;
    if key in spots {
      PathOrder(HomeOf(ClipHash(hash(key)), |bs|), spots[key], i, |bs|);
      Poorer(bs, i, spots[key]);
    }
  }

  /** The probe for `key` has not passed the bucket that holds it. */
  ghost predicate NotPassed<K, V>(bs: seq<Bucket<K, V>>, spots: map<K, nat>, hash: nat, key: K, i: nat)
    requires i < |bs|
  {
    key in spots ==> spots[key] < |bs| && !OnPath(HomeOf(hash, |bs|), spots[key], i, |bs|)
  }

  // ---------- one step of an insertion ----------

  /** The key in hand may be put into bucket `i`. */
  ghost predicate HandFits<K, V>(bs: seq<Bucket<K, V>>, hand: Bucket<K, V>, i: nat)
    requires i < |bs|
  {
    && hand.dib == Dist(HomeOf(hand.hash, |bs|), i, |bs|) + 1
    && forall p: nat :: p < |bs| && NextSlot(p, |bs|) == i ==> hand.dib <= bs[p].dib + 1
  }

  /** State of an insertion at bucket `i`: a sound map and a key in hand. */
  ghost predicate Inserting<K, V>(bs: seq<Bucket<K, V>>, spots: map<K, nat>, hash: K -> nat, hand: Bucket<K, V>, i: nat) {
    && Sound(bs, spots, hash) && i < |bs|
    && hand.hash == ClipHash(hash(hand.key)) && HandFits(bs, hand, i)
    && NotPassed(bs, spots, hand.hash, hand.key, i)
  }

  lemma InsertStarts<K, V>(bs: seq<Bucket<K, V>>, spots: map<K, nat>, hash: K -> nat, hand: Bucket<K, V>)
    requires Sound(bs, spots, hash) && hand.hash == ClipHash(hash(hand.key)) && hand.dib == 1
    ensures Inserting(bs, spots, hash, hand, HomeOf(hand.hash, |bs|))
  {
    hide HomeOf, ClipHash, InPlace, Level;
  }

  /** A key that is there already is not ahead of a bucket that would be swapped. */
  lemma NewKeyHere<K, V>(bs: seq<Bucket<K, V>>, spots: map<K, nat>, hash: K -> nat, hand: Bucket<K, V>, i: nat)
    requires Inserting(bs, spots, hash, hand, i) && bs[i].dib < hand.dib && (bs[i].dib == 0 || bs[i].key != hand.key)
    ensures hand.key !in spots
  {
    hide HomeOf, ClipHash;
    if hand.key in spots {
      PathOrder(HomeOf(hand.hash, |bs|), spots[hand.key], i, |bs|);
      Poorer(bs, i, spots[hand.key]);
    }
  }

  /** Putting the key in hand into a bucket that is empty or less far from home. */
  lemma PutKeepsOrder<K, V>(bs: seq<Bucket<K, V>>, hand: Bucket<K, V>, i: nat)
    requires RobinHood(bs) && i < |bs| && |bs| > 1 && HandFits(bs, hand, i) && bs[i].dib < hand.dib
    ensures RobinHood(bs[i := hand])
  {
    hide HomeOf;
    var to := bs[i := hand];
    forall x: nat | x < |to| ensures InPlace(to, x) && Level(to, x) {
      assert InPlace(bs, x) && Level(bs, x);
    }
  }

  lemma PutInEmpty<K, V>(bs: seq<Bucket<K, V>>, spots: map<K, nat>, hash: K -> nat, hand: Bucket<K, V>, i: nat)
    requires Inserting(bs, spots, hash, hand, i) && bs[i].dib == 0 && |bs| > 1
    ensures hand.key !in spots && Sound(bs[i := hand], spots[hand.key := i], hash)
    ensures ContentsOf(bs[i := hand], spots[hand.key := i]) == ContentsOf(bs, spots)[hand.key := hand.val]
  {
    hide HomeOf, ClipHash;
    NewKeyHere(bs, spots, hash, hand, i);
    PutKeepsOrder(bs, hand, i);
    hide RobinHood;
    var to, at := bs[i := hand], spots[hand.key := i];
    forall x: nat | x < |to| && to[x].dib > 0 ensures Owns(to, at, hash, x) {
      if x != i { assert Owns(bs, spots, hash, x); }
    }
  }

  /** Exchanging the key in hand for one that is less far from home. */
  lemma SwapHand<K, V>(bs: seq<Bucket<K, V>>, spots: map<K, nat>, hash: K -> nat, hand: Bucket<K, V>, i: nat)
    requires Inserting(bs, spots, hash, hand, i) && 0 < bs[i].dib < hand.dib && bs[i].key != hand.key && |bs| > 1
    ensures hand.key !in spots && bs[i].key in spots
    ensures var at := (spots - {bs[i].key})[hand.key := i];
            && Inserting(bs[i := hand], at, hash, bs[i], i) && bs[i].key !in at && |at| == |spots|
            && ContentsOf(bs[i := hand], at)[bs[i].key := bs[i].val] == ContentsOf(bs, spots)[hand.key := hand.val]
  {
    hide HomeOf, ClipHash;
    NewKeyHere(bs, spots, hash, hand, i);
    PutKeepsOrder(bs, hand, i);
    assert InPlace(bs, i) && Owns(bs, spots, hash, i);
    forall p: nat | p < |bs| && NextSlot(p, |bs|) == i ensures bs[i].dib <= bs[i := hand][p].dib + 1 { assert Level(bs, p); }
    hide RobinHood;
    var to, at := bs[i := hand], (spots - {bs[i].key})[hand.key := i];
    RemoveKey(spots, bs[i].key);
    forall x: nat | x < |to| && to[x].dib > 0 ensures Owns(to, at, hash, x) {
      if x != i { assert Owns(bs, spots, hash, x); }
    }
  }

  /** Moving on past a bucket that is at least as far from home. */
  lemma HandMovesOn<K, V>(bs: seq<Bucket<K, V>>, spots: map<K, nat>, hash: K -> nat, hand: Bucket<K, V>, i: nat, e: nat)
    requires Inserting(bs, spots, hash, hand, i) && bs[i].dib >= hand.dib && bs[i].key != hand.key
    requires e < |bs| && bs[e].dib == 0
    ensures Inserting(bs, spots, hash, hand.(dib := hand.dib + 1), NextSlot(i, |bs|))
    ensures Dist(NextSlot(i, |bs|), e, |bs|) < Dist(i, e, |bs|)
  {
    hide HomeOf, ClipHash;
    var h, n := HomeOf(hand.hash, |bs|), |bs|;
    NotAllUsed(bs, i, e);
    ProbeOn(h, i, n);
  }

  lemma NotAllUsed<K, V>(bs: seq<Bucket<K, V>>, i: nat, e: nat)
    requires RobinHood(bs) && i < |bs| && bs[i].dib > 0 && e < |bs| && bs[e].dib == 0
    ensures bs[i].dib < |bs|
  {
    hide HomeOf;
    assert InPlace(bs, i);
    var h := HomeOf(bs[i].hash, |bs|);
    PathOrder(h, e, i, |bs|);
    if OnPath(h, e, i, |bs|) { Poorer(bs, e, i); }
  }

  /** A new value for a key that is there. */
  lemma ReplaceValueOf<K, V>(bs: seq<Bucket<K, V>>, spots: map<K, nat>, hash: K -> nat, i: nat, val: V)
    requires Sound(bs, spots, hash) && i < |bs| && bs[i].dib > 0
    ensures var to := bs[i := bs[i].(val := val)];
            Sound(to, spots, hash) && bs[i].key in spots && ContentsOf(to, spots) == ContentsOf(bs, spots)[bs[i].key := val]
  {
    hide HomeOf, ClipHash;
    var to := bs[i := bs[i].(val := val)];
    assert Owns(bs, spots, hash, i);
    forall x: nat | x < |to| ensures InPlace(to, x) && Level(to, x) { assert InPlace(bs, x) && Level(bs, x); }
    forall x: nat | x < |to| && to[x].dib > 0 ensures Owns(to, spots, hash, x) { assert Owns(bs, spots, hash, x); }
  }

  // ---------- deletion ----------

  /** The bucket after the hole moves into it. */
  lemma ShiftIntoHole<K, V>(bs: seq<Bucket<K, V>>, spots: map<K, nat>, hash: K -> nat, hole: nat)
    requires RobinHood(bs) && hole < |bs| && |bs| > 1 && Stored(bs, spots, hash, hole) && bs[NextSlot(hole, |bs|)].dib > 1
    ensures var b := bs[NextSlot(hole, |bs|)];
            var to := bs[hole := b.(dib := b.dib - 1)];
            var at := spots[b.key := hole];
            && RobinHood(to) && Stored(to, at, hash, NextSlot(hole, |bs|)) && b.key in spots && at.Keys == spots.Keys
            && ContentsOf(to, at) == ContentsOf(bs, spots)
  {
    hide HomeOf, ClipHash;
    var j := NextSlot(hole, |bs|);
    var b := bs[j];
    var to, at := bs[hole := b.(dib := b.dib - 1)], spots[b.key := hole];
    assert Owns(bs, spots, hash, j);
    forall x: nat | x < |to| ensures InPlace(to, x) && Level(to, x) {
      assert InPlace(bs, x) && Level(bs, x) && InPlace(bs, j) && Level(bs, hole);
    }
    forall x: nat | x < |to| && x != j && to[x].dib > 0 ensures Owns(to, at, hash, x) {
      if x != hole { assert Owns(bs, spots, hash, x); }
    }
  }

  /** The hole is emptied where the next bucket is empty or in its home. */
  lemma EmptyHole<K, V>(bs: seq<Bucket<K, V>>, spots: map<K, nat>, hash: K -> nat, hole: nat, gone: Bucket<K, V>)
    requires RobinHood(bs) && hole < |bs| && |bs| > 1 && Stored(bs, spots, hash, hole) && bs[NextSlot(hole, |bs|)].dib <= 1 && gone.dib == 0
    ensures Sound(bs[hole := gone], spots, hash) && ContentsOf(bs[hole := gone], spots) == ContentsOf(bs, spots)
  {
    hide HomeOf, ClipHash;
    var to := bs[hole := gone];
    forall x: nat | x < |to| ensures InPlace(to, x) && Level(to, x) { assert InPlace(bs, x) && Level(bs, x); }
    forall x: nat | x < |to| && to[x].dib > 0 ensures Owns(to, spots, hash, x) { assert Owns(bs, spots, hash, x); }
  }

  lemma StartHole<K, V>(bs: seq<Bucket<K, V>>, spots: map<K, nat>, hash: K -> nat, i: nat)
    requires Sound(bs, spots, hash) && i < |bs| && bs[i].dib > 0
    ensures bs[i].key in spots && Stored(bs, spots - {bs[i].key}, hash, i)
    ensures ContentsOf(bs, spots - {bs[i].key}) == ContentsOf(bs, spots) - {bs[i].key}
  {
    hide RobinHood, ClipHash;
    assert Owns(bs, spots, hash, i);
    forall x: nat | x < |bs| && x != i && bs[x].dib > 0 ensures Owns(bs, spots - {bs[i].key}, hash, x) { assert Owns(bs, spots, hash, x); }
  }

  // ---------- scanning ----------

  /** What the buckets before `i` hold. */
  ghost function Before<K, V>(bs: seq<Bucket<K, V>>, spots: map<K, nat>, i: nat): map<K, V> {
    map k | k in spots && spots[k] < |bs| && spots[k] < i :: bs[spots[k]].val
  }

  lemma NextBefore<K, V>(bs: seq<Bucket<K, V>>, spots: map<K, nat>, hash: K -> nat, i: nat)
    requires Stored(bs, spots, hash, -1) && i < |bs|
    ensures bs[i].dib == 0 ==> Before(bs, spots, i + 1) == Before(bs, spots, i)
    ensures bs[i].dib > 0 ==> bs[i].key !in Before(bs, spots, i) && bs[i].hash == ClipHash(hash(bs[i].key))
                              && Before(bs, spots, i + 1) == Before(bs, spots, i)[bs[i].key := bs[i].val]
  {
    hide ClipHash;
    if bs[i].dib > 0 { assert Owns(bs, spots, hash, i); }
  }

  lemma AllBefore<K, V>(bs: seq<Bucket<K, V>>, spots: map<K, nat>, hash: K -> nat)
    requires Stored(bs, spots, hash, -1)
    ensures Before(bs, spots, |bs|) == ContentsOf(bs, spots) && ContentsOf(bs, spots).Keys == spots.Keys
    ensures Before(bs, spots, 0) == map[] && |ContentsOf(bs, spots)| == |spots|
  {
    hide ClipHash;
    assert |ContentsOf(bs, spots).Keys| == |ContentsOf(bs, spots)| && |spots.Keys| == |spots|;
  }

  lemma BeforeIsPart<K, V>(bs: seq<Bucket<K, V>>, spots: map<K, nat>, i: nat)
    ensures |Before(bs, spots, i)| <= |spots|
  {
    var b := Before(bs, spots, i);
    SubsetSize(b.Keys, spots.Keys);
    assert |b.Keys| == |b| && |spots.Keys| == |spots|;
  }
}
