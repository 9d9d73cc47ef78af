/** Linear probing on a ring of slots, apart from the heap: where keys may be, how a hole is moved
    when one is deleted, and how a table is rehashed inside its own array. */
module KhashlSlots {
  import opened Counting
  import opened Ring

  lemma ThirtyTwoBits()
    ensures Pow2(32) == 0x1_0000_0000
  {
    assert Pow2(4) == 16;
    Pow2Sum(4, 4);
    Pow2Sum(8, 8);
    Pow2Sum(16, 16);
  }

  lemma HighBits(x: nat, a: nat, b: nat)
    requires a > 0 && x < a * b
    ensures x / a < b
  {
    assert x >= a * (x / a);
    SmallerFactor(a, x / a, b);
  }

  lemma SmallerFactor(a: nat, q: nat, b: nat)
    requires a * q < a * b
    ensures q < b
  {
  }

  /** Fibonacci hashing: the highest bits of a 32-bit product. */
  function HashToSlot(hash: nat, bits: nat): (h: nat)
    requires bits <= 32
    ensures h < Pow2(bits)
  {
    hide Pow2;
    Pow2Sum(32 - bits, bits);
    ThirtyTwoBits();
    HighBits(Product(hash), Pow2(32 - bits), Pow2(bits));
    Product(hash) / Pow2(32 - bits)
  }

  function Product(hash: nat): (p: nat)
    ensures p < 0x1_0000_0000
  {
    hash * 2654435769 % 0x1_0000_0000
  }

  /** Slots with their keys, which are in use, and the slot of each key. */
  datatype Slots<K> = Slots(keys: seq<K>, used: seq<bool>, spots: map<K, nat>)

  predicate Fits<K>(s: Slots<K>, bits: nat) { bits <= 32 && |s.keys| == |s.used| == Pow2(bits) }

  /** A probe for the key in slot `x` meets only used slots, none of which is `hole`. */
  ghost predicate Reachable<K>(s: Slots<K>, hash: K -> nat, bits: nat, x: nat, hole: int)
    requires Fits(s, bits) && x < |s.keys|
  {
    forall y: nat :: y < |s.used| && OnPath(HashToSlot(hash(s.keys[x]), bits), y, x, |s.used|) ==> s.used[y] && y != hole
  }

  ghost predicate Probed<K>(s: Slots<K>, hash: K -> nat, bits: nat)
    requires Fits(s, bits)
  {
    forall x: nat :: x < |s.used| && s.used[x] ==> Reachable(s, hash, bits, x, -1)
  }

  /** The used slots other than `hole` hold exactly the keys of `spots`, each once. */
  ghost predicate Stored<K>(s: Slots<K>, hole: int)
    requires |s.keys| == |s.used|
  {
    && (forall k :: k in s.spots ==> s.spots[k] < |s.keys| && s.used[s.spots[k]] && s.spots[k] != hole && s.keys[s.spots[k]] == k)
    && forall x: nat :: x < |s.used| && s.used[x] && x != hole ==> s.keys[x] in s.spots && s.spots[s.keys[x]] == x
  }

  ghost predicate Sound<K>(s: Slots<K>, hash: K -> nat, bits: nat) {
    Fits(s, bits) && Probed(s, hash, bits) && Stored(s, -1)
  }

  /** With every slot unused a table is sound exactly if it has no keys. */
  lemma NothingUsed<K>(s: Slots<K>, hash: K -> nat, bits: nat)
    requires Fits(s, bits) && forall x :: 0 <= x < |s.used| ==> !s.used[x]
    ensures Sound(s, hash, bits) <==> s.spots == map[]
  {
  }

  // ---------- searching ----------

  /** A probe that has met only other keys on used slots has not passed the key. */
  lemma NotPassed<K>(s: Slots<K>, hash: K -> nat, bits: nat, key: K, i: nat)
    requires Sound(s, hash, bits) && i < |s.used|
    requires forall y: nat :: y < |s.used| && OnPath(HashToSlot(hash(key), bits), y, i, |s.used|) ==> s.used[y] && s.keys[y] != key
    requires !s.used[i]
    ensures key !in s.spots
  {
    hide HashToSlot;
    var x := if key in s.spots then s.spots[key] else i;
    assert key in s.spots ==> Reachable(s, hash, bits, x, -1);
    PathOrder(HashToSlot(hash(key), bits), x, i, |s.used|);
  }

  /** A key put into the first free slot of its probe. */
  lemma PutIsSound<K>(s: Slots<K>, hash: K -> nat, bits: nat, key: K, i: nat)
    requires Sound(s, hash, bits) && i < |s.used| && !s.used[i] && key !in s.spots
    requires forall y: nat :: y < |s.used| && OnPath(HashToSlot(hash(key), bits), y, i, |s.used|) ==> s.used[y]
    ensures Sound(Slots(s.keys[i := key], s.used[i := true], s.spots[key := i]), hash, bits)
  {
    hide HashToSlot, OnPath;
    var t := Slots(s.keys[i := key], s.used[i := true], s.spots[key := i]);
    forall x: nat | x < |t.used| && t.used[x] ensures Reachable(t, hash, bits, x, -1) {
      assert x != i ==> Reachable(s, hash, bits, x, -1);
    }
  }

  // ---------- deleting ----------

  /** While slot `i` is being vacated and slots up to before `j` have been looked at: the probe of a
      key before `j` does not need slot `i`. */
  ghost predicate Vacating<K>(s: Slots<K>, hash: K -> nat, bits: nat, i: nat, j: nat)
    requires Fits(s, bits)
  {
    && i < |s.used| && j < |s.used| && s.used[i]
    && forall x: nat :: x < |s.used| && s.used[x] && x != i ==>
         Reachable(s, hash, bits, x, if Dist(i, x, |s.used|) < Dist(i, j, |s.used|) then i else -1)
  }

  /** The test by which a key with home `k` is moved from slot `j` to the vacated slot `i`. */
  predicate Movable(i: nat, j: nat, k: nat) { (j > i && (k <= i || k > j)) || (j < i && k <= i && k > j) }

  /** The test holds exactly for the keys whose probe passes the vacated slot. */
  lemma MovableMeansPassing(i: nat, j: nat, k: nat, n: nat)
    requires i < n && j < n && k < n && i != j
    ensures Movable(i, j, k) <==> OnPath(k, i, j, n)
  {
  }

  lemma KeepVacating<K>(s: Slots<K>, hash: K -> nat, bits: nat, i: nat, j: nat)
    requires Fits(s, bits) && Vacating(s, hash, bits, i, j) && i != j && s.used[j]
    requires !OnPath(HashToSlot(hash(s.keys[j]), bits), i, j, |s.used|) && NextSlot(j, |s.used|) != i
    ensures Vacating(s, hash, bits, i, NextSlot(j, |s.used|))
  {
    hide HashToSlot;
    var n := |s.used|;
    forall x: nat | x < n && s.used[x] && x != i
      ensures Reachable(s, hash, bits, x, if Dist(i, x, n) < Dist(i, NextSlot(j, n), n) then i else -1)
    {
      assert Dist(i, x, n) < Dist(i, NextSlot(j, n), n) <==> x == j || Dist(i, x, n) < Dist(i, j, n);
    }
  }

  lemma MoveVacating<K>(s: Slots<K>, hash: K -> nat, bits: nat, i: nat, j: nat)
    requires Fits(s, bits) && Vacating(s, hash, bits, i, j) && i != j && s.used[j] && NextSlot(j, |s.used|) != j
    requires OnPath(HashToSlot(hash(s.keys[j]), bits), i, j, |s.used|)
    ensures Vacating(Slots(s.keys[i := s.keys[j]], s.used, s.spots[s.keys[j] := i]), hash, bits, j, NextSlot(j, |s.used|))
  {
    hide HashToSlot;
    var n, t := |s.used|, Slots(s.keys[i := s.keys[j]], s.used, s.spots[s.keys[j] := i]);
    assert Reachable(s, hash, bits, j, if Dist(i, j, n) < Dist(i, j, n) then i else -1);
    forall x: nat | x < n && t.used[x] && x != j
      ensures Reachable(t, hash, bits, x, if Dist(j, x, n) < Dist(j, NextSlot(j, n), n) then j else -1)
    {
      assert x != i ==> Reachable(s, hash, bits, x, if Dist(i, x, n) < Dist(i, j, n) then i else -1);
    }
  }

  /** The first hole is the slot of the key to delete. */
  lemma StartVacating<K>(s: Slots<K>, hash: K -> nat, bits: nat, i: nat)
    requires Sound(s, hash, bits) && i < |s.used| && s.used[i] && |s.used| > 1
    ensures Vacating(s, hash, bits, i, NextSlot(i, |s.used|))
    ensures s.keys[i] in s.spots && Stored(Slots(s.keys, s.used, s.spots - {s.keys[i]}), i)
  {
    hide HashToSlot;
  }

  /** Moving a key back moves the hole. */
  lemma MovedBack<K>(s: Slots<K>, i: nat, j: nat)
    requires |s.keys| == |s.used| && Stored(s, i) && i < |s.used| && s.used[i] && j < |s.used| && s.used[j] && i != j
    ensures Stored(Slots(s.keys[i := s.keys[j]], s.used, s.spots[s.keys[j] := i]), j) && s.keys[j] in s.spots
  {
  }

  /** At an unused slot the vacated slot may be freed. */
  lemma DoneVacating<K>(s: Slots<K>, hash: K -> nat, bits: nat, i: nat, j: nat)
    requires Fits(s, bits) && Vacating(s, hash, bits, i, j) && !s.used[j] && Stored(s, i)
    ensures Sound(Slots(s.keys, s.used[i := false], s.spots), hash, bits)
  {
    hide HashToSlot;
    var n, t := |s.used|, Slots(s.keys, s.used[i := false], s.spots);
    forall x: nat | x < n && t.used[x] ensures Reachable(t, hash, bits, x, -1) {
      assert Reachable(s, hash, bits, x, if Dist(i, x, n) < Dist(i, j, n) then i else -1);
      PathThrough(HashToSlot(hash(s.keys[x]), bits), i, j, x, n);
    }
  }

  // ---------- rehashing inside the array ----------

  /** Half-way through a rehash: `left` marks keys not yet moved, `moved` those in their new place. */
  datatype Rehash<K> = Rehash(keys: seq<K>, left: seq<bool>, moved: seq<bool>, spots: map<K, nat>)

  predicate Marked(flags: seq<bool>, x: nat) { x < |flags| && flags[x] }

  /** Every slot holds at most one key, and the slots marked one way or the other hold exactly the keys
      of `spots`, each once; probes for the moved keys meet only moved keys. */
  ghost predicate Rehashing<K>(r: Rehash<K>, hash: K -> nat, bits: nat) {
    && bits <= 32 && |r.moved| == Pow2(bits) && |r.left| <= |r.keys| && |r.moved| <= |r.keys|
    && (forall x: nat :: Marked(r.left, x) ==> !Marked(r.moved, x))
    && (forall k :: k in r.spots ==> r.spots[k] < |r.keys| && r.keys[r.spots[k]] == k && (Marked(r.left, r.spots[k]) || Marked(r.moved, r.spots[k])))
    && (forall x: nat :: x < |r.keys| && (Marked(r.left, x) || Marked(r.moved, x)) ==> r.keys[x] in r.spots && r.spots[r.keys[x]] == x)
    && forall x: nat :: Marked(r.moved, x) ==> PathMarked(r.moved, HashToSlot(hash(r.keys[x]), bits), x)
  }

  ghost predicate PathMarked(flags: seq<bool>, h: nat, i: nat)
    requires h < |flags| && i < |flags|
  {
    forall y: nat :: y < |flags| && OnPath(h, y, i, |flags|) ==> flags[y]
  }

  lemma RehashStarts<K>(s: Slots<K>, keys: seq<K>, moved: seq<bool>, hash: K -> nat, bits: nat)
    requires |s.keys| == |s.used| && Stored(s, -1) && bits <= 32 && |moved| == Pow2(bits)
    requires |s.keys| <= |keys| && |moved| <= |keys| && keys[..|s.keys|] == s.keys && forall x :: 0 <= x < |moved| ==> !moved[x]
    ensures Rehashing(Rehash(keys, s.used, moved, s.spots), hash, bits)
  {
    hide HashToSlot, Pow2;
    forall x | 0 <= x < |s.keys| ensures keys[x] == s.keys[x] { assert keys[..|s.keys|][x] == s.keys[x]; }
  }

  lemma RehashEnds<K>(r: Rehash<K>, keys: seq<K>, hash: K -> nat, bits: nat)
    requires Rehashing(r, hash, bits) && forall x: nat :: !Marked(r.left, x)
    requires |keys| == |r.moved| && keys == r.keys[..|r.moved|]
    ensures Sound(Slots(keys, r.moved, r.spots), hash, bits)
  {
    hide HashToSlot, Pow2;
    var s := Slots(keys, r.moved, r.spots);
    forall x: nat | x < |s.used| && s.used[x] ensures Reachable(s, hash, bits, x, -1) {
      assert Marked(r.moved, x) && PathMarked(r.moved, HashToSlot(hash(r.keys[x]), bits), x);
    }
    forall x: nat | x < |s.used| && s.used[x] ensures s.keys[x] in s.spots && s.spots[s.keys[x]] == x { assert Marked(r.moved, x); }
    forall k | k in s.spots ensures s.spots[k] < |s.keys| && s.used[s.spots[k]] && s.keys[s.spots[k]] == k {
      assert Marked(r.moved, s.spots[k]);
    }
  }

  /** The key of old slot `j` taken in hand. */
  function TakeUp<K>(r: Rehash<K>, j: nat): Rehash<K>
    requires j < |r.left| <= |r.keys|
  {
    Rehash(r.keys, r.left[j := false], r.moved, r.spots - {r.keys[j]})
  }

  lemma TakeUpKeeps<K>(r: Rehash<K>, hash: K -> nat, bits: nat, j: nat)
    requires Rehashing(r, hash, bits) && j < |r.left| && r.left[j]
    ensures Rehashing(TakeUp(r, j), hash, bits) && r.keys[j] in r.spots
    ensures |TakeUp(r, j).spots| == |r.spots| - 1
  {
    hide HashToSlot, Pow2, PathMarked;
    var t := TakeUp(r, j);
    assert Marked(r.left, j);
    RemoveKey(r.spots, r.keys[j]);
    forall x: nat ensures Marked(t.left, x) <==> Marked(r.left, x) && x != j {}
  }

  /** The key in hand put into slot `i`; what was there has been taken up before. */
  function PutDown<K>(r: Rehash<K>, key: K, i: nat): Rehash<K>
    requires i < |r.moved| <= |r.keys|
  {
    Rehash(r.keys[i := key], r.left, r.moved[i := true], r.spots[key := i])
  }

  lemma PutDownKeeps<K>(r: Rehash<K>, hash: K -> nat, bits: nat, key: K, i: nat)
    requires Rehashing(r, hash, bits) && key !in r.spots && i < |r.moved| && !r.moved[i] && !Marked(r.left, i)
    requires PathMarked(r.moved, HashToSlot(hash(key), bits), i)
    ensures Rehashing(PutDown(r, key, i), hash, bits) && |PutDown(r, key, i).spots| == |r.spots| + 1
  {
    hide HashToSlot, Pow2;
    var t := PutDown(r, key, i);
    forall x: nat ensures Marked(t.moved, x) <==> Marked(r.moved, x) || x == i {}
    forall x: nat | Marked(t.moved, x) ensures PathMarked(t.moved, HashToSlot(hash(t.keys[x]), bits), x) {
      if x != i { assert PathMarked(r.moved, HashToSlot(hash(r.keys[x]), bits), x); }
    }
  }

  /** With fewer keys than slots, some slot is free. */
  lemma SomeFree<K>(keys: seq<K>, flags: seq<bool>, spots: map<K, nat>) returns (e: nat)
    requires |flags| <= |keys| && |spots| < |flags|
    requires forall x: nat :: x < |flags| && flags[x] ==> keys[x] in spots && spots[keys[x]] == x
    ensures e < |flags| && !flags[e]
  {
    e := 0;
    if forall x: nat :: x < |flags| ==> flags[x] {
      ManyKeys(keys, spots, |flags|);
    } else {
      e :| e < |flags| && !flags[e];
    }
  }
}
