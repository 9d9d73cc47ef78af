/** The Robin Hood hash map: insertion that exchanges keys on the way, deletion that shifts back, and
    growing and shrinking by reinsertion. */
module RobinHood {
  import opened Counting
  import opened Ring
  import opened RobinHoodSlots
  import opened Wrappers

  /** The first empty bucket there is, when there are fewer keys than buckets. */
  lemma SomeEmpty<K, V>(bs: seq<Bucket<K, V>>, spots: map<K, nat>, hash: K -> nat) returns (e: nat)
    requires Stored(bs, spots, hash, -1) && |spots| < |bs|
    ensures e < |bs| && bs[e].dib == 0
  {
    hide ClipHash;
    e := 0;
    if forall x: nat :: x < |bs| ==> bs[x].dib > 0 {
      var keys := seq(|bs|, x requires 0 <= x < |bs| => bs[x].key);
      forall x | 0 <= x < |bs| ensures keys[x] in spots && spots[keys[x]] == x { assert Owns(bs, spots, hash, x); }
      ManyKeys(keys, spots, |bs|);
    } else {
      e :| e < |bs| && bs[e].dib == 0;
    }
  }

  /** The outcome of an insertion step: the key in hand is down, or there is another one in hand. */
  ghost predicate Continues<K, V>(bs: seq<Bucket<K, V>>, at: map<K, nat>, hash: K -> nat, hand: Bucket<K, V>, i: nat, e: nat, all: map<K, V>) {
    Inserting(bs, at, hash, hand, i) && e < |bs| && bs[e].dib == 0 && ContentsOf(bs, at)[hand.key := hand.val] == all
  }

  /** Exchanges the key in hand if the one in bucket `i` is less far from home, and moves on. */
  method Pass<K, V>(a: array<Bucket<K, V>>, hand0: Bucket<K, V>, i0: nat, ghost spots: map<K, nat>, ghost hash: K -> nat, ghost e: nat, ghost all: map<K, V>)
    returns (hand: Bucket<K, V>, i: nat, ghost at: map<K, nat>)
    requires a.Length > 1 && Continues(a[..], spots, hash, hand0, i0, e, all) && a[i0].dib > 0 && a[i0].key != hand0.key
    modifies a
    ensures Continues(a[..], at, hash, hand, i, e, all) && Dist(i, e, a.Length) < Dist(i0, e, a.Length) && |at| == |spots|
    ensures (at == spots && hand.key == hand0.key && hand.val == hand0.val && a[..] == old(a[..])) || (hand.key !in at && hand0.key !in spots)
  {
    ghost var bs := a[..];
    assert i0 < a.Length;
    hide Inserting, ContentsOf;
    if a[i0].dib < hand0.dib {
      SwapHand(bs, spots, hash, hand0, i0);
      hand := a[i0];
      a[i0] := hand0;
      at := (spots - {hand.key})[hand0.key := i0];
      assert a[..] == bs[i0 := hand0];
    } else {
      hand, at := hand0, spots;
    }
    assert i0 != e;
    HandMovesOn(a[..], at, hash, hand, i0, e);
    hand := Bucket(hand.hash, hand.dib + 1, hand.key, hand.val);
    i := NextSlot(i0, a.Length);
  }

  /** Puts the key in hand into empty bucket `i`. */
  method Settle<K, V>(a: array<Bucket<K, V>>, hand: Bucket<K, V>, i: nat, ghost spots: map<K, nat>, ghost hash: K -> nat)
    returns (ghost at: map<K, nat>)
    requires a.Length > 1 && Inserting(a[..], spots, hash, hand, i) && a[i].dib == 0
    modifies a
    ensures Sound(a[..], at, hash) && ContentsOf(a[..], at) == old(ContentsOf(a[..], spots))[hand.key := hand.val]
    ensures hand.key !in spots && at == spots[hand.key := i] && |at| == |spots| + 1
  {
    ghost var bs := a[..];
    PutInEmpty(bs, spots, hash, hand, i);
    hide Inserting, ContentsOf, Sound;
    a[i] := hand;
    at := spots[hand.key := i];
    assert a[..] == bs[i := hand];
  }

  /** The insertion loop of a resize, for a key that is not in the buckets. */
  method Reinsert<K, V>(a: array<Bucket<K, V>>, entry: Bucket<K, V>, ghost spots: map<K, nat>, ghost hash: K -> nat)
    returns (ghost at: map<K, nat>)
    requires a.Length > 1 && Sound(a[..], spots, hash) && |spots| < a.Length && entry.key !in spots
    requires entry.dib == 1 && entry.hash == ClipHash(hash(entry.key))
    modifies a
    ensures Sound(a[..], at, hash) && |at| == |spots| + 1
    ensures ContentsOf(a[..], at) == old(ContentsOf(a[..], spots))[entry.key := entry.val]
  {
    ghost var all := ContentsOf(a[..], spots)[entry.key := entry.val];
    ghost var e := SomeEmpty(a[..], spots, hash);
    InsertStarts(a[..], spots, hash, entry);
    at := spots;
    var hand, i: nat := entry, HomeOf(entry.hash, a.Length);
    hide Sound, Inserting, ContentsOf, ClipHash, HomeOf;
    while true
      invariant i < a.Length && Continues(a[..], at, hash, hand, i, e, all) && |at| == |spots| && hand.key !in at
      decreases Dist(i, e, a.Length)
    {
      if a[i].dib == 0 {
        at := Settle(a, hand, i, at, hash);
        return;
      }
      KeysDiffer(a[..], at, hash, hand, i);
      hand, i, at := Pass(a, hand, i, at, hash, e, all);
      IndexInRange(a[..], at, hash, hand, i);
    }
  }

  /** A key that is not stored differs from every stored one. */
  lemma KeysDiffer<K, V>(bs: seq<Bucket<K, V>>, at: map<K, nat>, hash: K -> nat, hand: Bucket<K, V>, i: nat)
    requires Inserting(bs, at, hash, hand, i) && bs[i].dib > 0 && hand.key !in at
    ensures bs[i].key != hand.key
  {
    hide ClipHash, HomeOf;
    assert Owns(bs, at, hash, i);
  }

  lemma IndexInRange<K, V>(bs: seq<Bucket<K, V>>, at: map<K, nat>, hash: K -> nat, hand: Bucket<K, V>, i: nat)
    requires Inserting(bs, at, hash, hand, i)
    ensures i < |bs|
  {
  }

  /** The insertion loop of `set`: an equal key on the way has its value replaced. */
  method PutOrReplace<K(==), V>(a: array<Bucket<K, V>>, entry: Bucket<K, V>, ghost spots: map<K, nat>, ghost hash: K -> nat)
    returns (replaced: Option<V>, ghost at: map<K, nat>)
    requires a.Length > 1 && Sound(a[..], spots, hash) && |spots| < a.Length
    requires entry.dib == 1 && entry.hash == ClipHash(hash(entry.key))
    modifies a
    ensures Sound(a[..], at, hash) && ContentsOf(a[..], at) == old(ContentsOf(a[..], spots))[entry.key := entry.val]
    ensures replaced == if entry.key in spots then Some(old(a[..])[spots[entry.key]].val) else None
    ensures |at| == |spots| + if entry.key in spots then 0 else 1
  {
    ghost var bs0, all := a[..], ContentsOf(a[..], spots)[entry.key := entry.val];
    ghost var e := SomeEmpty(a[..], spots, hash);
    InsertStarts(a[..], spots, hash, entry);
    at := spots;
    var hand, i: nat := entry, HomeOf(entry.hash, a.Length);
    hide Sound, Inserting, ContentsOf, ClipHash, HomeOf;
    while true
      invariant i < a.Length && Continues(a[..], at, hash, hand, i, e, all) && |at| == |spots|
      invariant if hand.key in at then at == spots && hand.key == entry.key && hand.val == entry.val && a[..] == bs0 else entry.key !in spots
      decreases Dist(i, e, a.Length)
    {
      if a[i].dib == 0 {
        at := Settle(a, hand, i, at, hash);
        return None, at;
      }
      if hand.hash == a[i].hash && hand.key == a[i].key {
        replaced := Some(a[i].val);
        ReplaceHere(a, hand, i, at, hash);
        return;
      }
      SameKeySameHash(a[..], at, hash, hand, i);
      hand, i, at := Pass(a, hand, i, at, hash, e, all);
      IndexInRange(a[..], at, hash, hand, i);
    }
  }

  method ReplaceHere<K, V>(a: array<Bucket<K, V>>, hand: Bucket<K, V>, i: nat, ghost spots: map<K, nat>, ghost hash: K -> nat)
    requires Inserting(a[..], spots, hash, hand, i) && a[i].dib > 0 && a[i].key == hand.key
    modifies a
    ensures Sound(a[..], spots, hash) && ContentsOf(a[..], spots) == old(ContentsOf(a[..], spots))[hand.key := hand.val]
    ensures hand.key in spots && spots[hand.key] == i
  {
    ghost var bs := a[..];
    ReplaceValueOf(bs, spots, hash, i, hand.val);
    assert Owns(bs, spots, hash, i);
    hide Sound, ContentsOf, Inserting;
    a[i] := Bucket(a[i].hash, a[i].dib, a[i].key, hand.val);
    assert a[..] == bs[i := bs[i].(val := hand.val)];
  }

  lemma SameKeySameHash<K, V>(bs: seq<Bucket<K, V>>, at: map<K, nat>, hash: K -> nat, hand: Bucket<K, V>, i: nat)
    requires Inserting(bs, at, hash, hand, i) && bs[i].dib > 0 && !(hand.hash == bs[i].hash && hand.key == bs[i].key)
    ensures bs[i].key != hand.key
  {
    hide ClipHash, HomeOf;
    assert Owns(bs, at, hash, i);
  }

  // ---------- looking up and deleting ----------

  /** The probe of `get` and of `delete`. */
  method Find<K(==), V>(a: array<Bucket<K, V>>, key: K, h: nat, ghost spots: map<K, nat>, ghost hash: K -> nat) returns (r: Option<nat>)
    requires a.Length > 1 && Sound(a[..], spots, hash) && |spots| < a.Length && h == ClipHash(hash(key))
    ensures r == if key in spots then Some(spots[key]) else None
    ensures r.Some? ==> r.value < a.Length && a[r.value].dib > 0 && a[r.value].key == key
  {
    ghost var e := SomeEmpty(a[..], spots, hash);
    ghost var home := HomeOf(h, a.Length);
    var i: nat := HomeOf(h, a.Length);
    hide RobinHood, ClipHash, HomeOf;
    while true
      invariant i < a.Length && NotPassed(a[..], spots, h, key, i) && !OnPath(home, e, i, a.Length)
      decreases Dist(i, e, a.Length)
    {
      if a[i].dib == 0 {
        StopsAtEmpty(a[..], spots, hash, key, i);
        return None;
      }
      assert Owns(a[..], spots, hash, i);
      if a[i].hash == h && a[i].key == key { return Some(i); }
      PathGrows(home, i, e, a.Length);
      i := NextSlot(i, a.Length);
    }
  }

  /** Removes the key of bucket `i` and moves the following ones back until one is at home. */
  method ShiftBack<K, V>(a: array<Bucket<K, V>>, i: nat, ghost spots: map<K, nat>, ghost hash: K -> nat) returns (ghost at: map<K, nat>)
    requires a.Length > 1 && Sound(a[..], spots, hash) && |spots| < a.Length && i < a.Length && a[i].dib > 0
    modifies a
    ensures Sound(a[..], at, hash) && old(a[i].key) in spots && at.Keys == spots.Keys - {old(a[i].key)}
    ensures ContentsOf(a[..], at) == old(ContentsOf(a[..], spots)) - {old(a[i].key)}
  {
    ghost var e := SomeEmpty(a[..], spots, hash);
    ghost var vs := a[..];
    StartHole(vs, spots, hash, i);
    at := spots - {a[i].key};
    a[i] := Bucket(a[i].hash, 0, a[i].key, a[i].val);
    var hole: nat := i;
    hide RobinHood, Stored, ContentsOf;
    ghost var rest, keys := ContentsOf(vs, at), at.Keys;
    while a[NextSlot(hole, a.Length)].dib > 1
      invariant hole < a.Length && SameButHole(a[..], vs, hole) && Holed(vs, at, hash, hole, e, rest) && at.Keys == keys
      decreases Dist(hole, e, a.Length)
    {
      hole, vs, at := ShiftOne(a, hole, vs, at, hash, e, rest);
    }
    a[hole] := Bucket(a[hole].hash, 0, a[hole].key, a[hole].val);
    EmptyHole(vs, at, hash, hole, a[hole]);
    assert a[..] == vs[hole := a[hole]];
  }

  method ShiftOne<K, V>(a: array<Bucket<K, V>>, hole: nat, ghost vs0: seq<Bucket<K, V>>, ghost at0: map<K, nat>,
                        ghost hash: K -> nat, ghost e: nat, ghost rest: map<K, V>)
    returns (next: nat, ghost vs: seq<Bucket<K, V>>, ghost at: map<K, nat>)
    requires hole < a.Length && SameButHole(a[..], vs0, hole) && Holed(vs0, at0, hash, hole, e, rest) && a[NextSlot(hole, a.Length)].dib > 1
    modifies a
    ensures next < a.Length && SameButHole(a[..], vs, next) && Holed(vs, at, hash, next, e, rest) && at.Keys == at0.Keys
    ensures Dist(next, e, a.Length) < Dist(hole, e, a.Length)
  {
    next := NextSlot(hole, a.Length);
    ShiftHole(vs0, at0, hash, hole, e, rest);
    hide RobinHood, Stored, ContentsOf;
    ghost var b := vs0[next];
    a[hole] := Bucket(a[next].hash, a[next].dib - 1, a[next].key, a[next].val);
    vs, at := vs0[hole := b.(dib := b.dib - 1)], at0[b.key := hole];
  }

  /** The buckets are as in `vs`, apart from the one being vacated. */
  ghost predicate SameButHole<K, V>(bs: seq<Bucket<K, V>>, vs: seq<Bucket<K, V>>, hole: nat) {
    |bs| == |vs| && forall x :: 0 <= x < |bs| && x != hole ==> bs[x] == vs[x]
  }

  ghost predicate Holed<K, V>(vs: seq<Bucket<K, V>>, at: map<K, nat>, hash: K -> nat, hole: nat, e: nat, rest: map<K, V>) {
    && RobinHood(vs) && Stored(vs, at, hash, hole) && ContentsOf(vs, at) == rest
    && hole < |vs| && e < |vs| && |vs| > 1 && vs[e].dib == 0 && vs[hole].dib > 0
  }

  lemma ShiftHole<K, V>(vs: seq<Bucket<K, V>>, at: map<K, nat>, hash: K -> nat, hole: nat, e: nat, rest: map<K, V>)
    requires Holed(vs, at, hash, hole, e, rest) && vs[NextSlot(hole, |vs|)].dib > 1
    ensures var b := vs[NextSlot(hole, |vs|)];
            && Holed(vs[hole := b.(dib := b.dib - 1)], at[b.key := hole], hash, NextSlot(hole, |vs|), e, rest)
            && at[b.key := hole].Keys == at.Keys && Dist(NextSlot(hole, |vs|), e, |vs|) < Dist(hole, e, |vs|)
  {
    hide RobinHood, Stored, ContentsOf;
    ShiftIntoHole(vs, at, hash, hole);
  }

  // ---------- the map ----------

  const GROW_AT: nat := 60
  const SHRINK_AT: nat := 10

  /** The capacity for a requested one: sixteen, doubled until it suffices. */
  method RoundUpCapacity(cap: nat) returns (ncap: nat)
    ensures ncap >= 16 && ncap >= cap && IsPow2(ncap) && (ncap > 16 ==> ncap / 2 < cap)
  {
    ncap := 16;
    while ncap < cap
      invariant ncap >= 16 && IsPow2(ncap) && (ncap > 16 ==> ncap / 2 < cap)
      decreases cap - ncap
    {
      DoubleIsPow2(ncap);
      ncap := ncap * 2;
    }
  }

  lemma FactorBounds(n: nat, factor: nat)
    requires n > 0 && 50 <= factor <= 95
    ensures n * 50 / 100 <= n * factor / 100 <= n * 95 / 100 < n
  {
    var d, e := factor - 50, 95 - factor;
    assert n * factor == n * 50 + n * d && n * 95 == n * factor + n * e;
  }

  lemma Percent(n: nat)
    requires n > 0
    ensures n * GROW_AT / 100 < n
  {
  }

  method EmptyBuckets<K(0), V(0)>(n: nat, ghost hash: K -> nat) returns (a: array<Bucket<K, V>>)
    requires n > 0
    ensures fresh(a) && a.Length == n && Sound(a[..], map[], hash) && ContentsOf(a[..], map[]) == map[]
  {
    a := new Bucket<K, V>[n];
    for i := 0 to n
      invariant forall x :: 0 <= x < i ==> a[x].dib == 0
    {
      a[i] := Bucket(0, 0, a[i].key, a[i].val);
    }
    hide HomeOf, ClipHash;
  }

  class Map<K(==, 0), V(0)> {
    const hash: K -> nat
    var buckets: array<Bucket<K, V>>
    var cap: nat
    var count: nat
    var growAt: nat
    var shrinkAt: nat
    var growPower: nat
    var oom: bool
    ghost var spots: map<K, nat>

    /** The table is never full, so that every probe ends. */
    ghost predicate Valid()
      reads this, buckets
    {
      && buckets.Length >= 16 && cap >= 16 && Sound(buckets[..], spots, hash)
      && count == |spots| && count < buckets.Length && growAt < buckets.Length && shrinkAt == buckets.Length * SHRINK_AT / 100
      && growPower >= 1
    }

    ghost function Contents(): map<K, V>
      reads this, buckets
    {
      ContentsOf(buckets[..], spots)
    }

    constructor (hash: K -> nat, requested: nat)
      ensures Valid() && Contents() == map[] && fresh(buckets) && this.hash == hash && !oom
      ensures cap == buckets.Length >= requested && growPower == 1
      ensures growAt == buckets.Length * 60 / 100 && shrinkAt == buckets.Length * 10 / 100
    {
      var n := RoundUpCapacity(requested);
      var empty: array<Bucket<K, V>> := EmptyBuckets(n, hash);
      this.hash := hash;
      buckets := empty;
      cap, count, growAt, shrinkAt, growPower, oom := n, 0, n * GROW_AT / 100, n * SHRINK_AT / 100, 1, false;
      spots := map[];
    }

    /** The tables grow by a factor of two to the clamped power. */
    method SetGrowByPower(power: nat)
      requires Valid()
      modifies this`growPower
      ensures Valid() && 1 <= growPower <= 16 && Contents() == old(Contents())
      ensures (1 <= power <= 16 ==> growPower == power) && (power > 16 ==> growPower == 16)
    {
      growPower := if power < 1 then 1 else if power > 16 then 16 else power;
    }

    /** Sets, in percent, how full this bucket array may get. */
    method SetLoadFactor(percent: nat)
      requires Valid()
      modifies this`growAt
      ensures Valid() && Contents() == old(Contents())
      ensures buckets.Length * 50 / 100 <= growAt <= buckets.Length * 95 / 100
      ensures 50 <= percent <= 95 ==> growAt == buckets.Length * percent / 100
      ensures (percent < 50 ==> growAt == buckets.Length * 50 / 100) && (percent > 95 ==> growAt == buckets.Length * 95 / 100)
    {
      hide Sound;
      var factor := if percent < 50 then 50 else if percent > 95 then 95 else percent;
      growAt := buckets.Length * factor / 100;
      FactorBounds(buckets.Length, factor);
    }

    /** Reinserts the key of bucket `i`, if any, into `a`, which has those of the buckets before. */
    method ReinsertBucket(a: array<Bucket<K, V>>, i: nat, ghost at0: map<K, nat>) returns (ghost at: map<K, nat>)
      requires Valid() && a != buckets && i < buckets.Length && count < a.Length && a.Length > 1
      requires Sound(a[..], at0, hash) && ContentsOf(a[..], at0) == Before(buckets[..], spots, i)
      modifies a
      ensures Sound(a[..], at, hash) && ContentsOf(a[..], at) == Before(buckets[..], spots, i + 1)
    {
      NextBefore(buckets[..], spots, hash, i);
      SizesBefore(buckets[..], spots, hash, i, a[..], at0);
      hide Sound, ContentsOf, Before, ClipHash;
      if buckets[i].dib == 0 { return at0; }
      at := Reinsert(a, Bucket(buckets[i].hash, 1, buckets[i].key, buckets[i].val), at0, hash);
    }

    /** Reinserts every key into a new bucket array. `ok` tells whether it can be allocated. */
    method Resize(newCap: nat, ok: bool) returns (done: bool)
      requires Valid() && (newCap > count || 16 > count)
      modifies this`buckets, this`growAt, this`shrinkAt, this`spots
      ensures done == ok && Valid() && Contents() == old(Contents())
      ensures done ==> fresh(buckets) && buckets.Length >= newCap && buckets.Length >= 16
      ensures done ==> growAt == buckets.Length * 60 / 100 && shrinkAt == buckets.Length * 10 / 100
      ensures !done ==> unchanged(this)
    {
      var n := RoundUpCapacity(newCap);
      if !ok { return false; }
      var a: array<Bucket<K, V>> := EmptyBuckets(n, hash);
      hide Sound, ContentsOf;
      ghost var at := ReinsertAll(a);
      Adopt(a, at);
      return true;
    }

    /** Takes over a bucket array that has all the keys. */
    method Adopt(a: array<Bucket<K, V>>, ghost at: map<K, nat>)
      requires Valid() && a.Length >= 16 && count < a.Length && Sound(a[..], at, hash) && |at| == count
      modifies this`buckets, this`growAt, this`shrinkAt, this`spots
      ensures Valid() && buckets == a && spots == at
      ensures growAt == a.Length * 60 / 100 && shrinkAt == a.Length * 10 / 100
    {
      hide Sound;
      Percent(a.Length);
      buckets, growAt, shrinkAt, spots := a, a.Length * GROW_AT / 100, a.Length * SHRINK_AT / 100, at;
    }

    method ReinsertAll(a: array<Bucket<K, V>>) returns (ghost at: map<K, nat>)
      requires Valid() && a != buckets && count < a.Length && a.Length > 1
      requires Sound(a[..], map[], hash) && ContentsOf(a[..], map[]) == map[]
      modifies a
      ensures Sound(a[..], at, hash) && ContentsOf(a[..], at) == Contents() && |at| == count
    {
      at := map[];
      AllBefore(buckets[..], spots, hash);
      hide Sound, ContentsOf, Before;
      for i := 0 to buckets.Length
        invariant Sound(a[..], at, hash) && ContentsOf(a[..], at) == Before(buckets[..], spots, i)
      {
        at := ReinsertBucket(a, i, at);
      }
      SameSize(buckets[..], spots, a[..], at, hash);
    }

    /** Inserts or replaces; the result is the value replaced. */
    method Set(key: K, val: V, ok: bool) returns (previous: Option<V>)
      requires Valid()
      modifies this, buckets
      ensures Valid() && oom == (old(count >= growAt) && !ok)
      ensures oom ==> previous.None? && Contents() == old(Contents())
      ensures !oom ==> Contents() == old(Contents())[key := val]
      ensures !oom ==> previous == if key in old(Contents()) then Some(old(Contents())[key]) else None
      ensures oom || old(count < growAt) ==> buckets == old(buckets)
      ensures !oom && old(count >= growAt) ==> fresh(buckets) && buckets.Length >= old(buckets.Length) * Pow2(old(growPower))
    {
      hide Sound, ContentsOf, ClipHash;
      oom := false;
      if count >= growAt {
        GrowsEnough(buckets.Length, growPower);
        var done := Resize(buckets.Length * Pow2(growPower), ok);
        if !done {
          oom := true;
          return None;
        }
      }
      previous := SetInPlace(key, val);
    }

    method SetInPlace(key: K, val: V) returns (replaced: Option<V>)
      requires Valid() && count + 1 < buckets.Length
      modifies buckets, `spots, `count
      ensures Valid() && Contents() == old(Contents())[key := val] && buckets == old(buckets)
      ensures replaced == if key in old(Contents()) then Some(old(Contents())[key]) else None
    {
      ghost var bs := buckets[..];
      ValueAt(bs, spots, hash, key);
      hide Sound, ContentsOf, ClipHash;
      replaced, spots := PutOrReplace(buckets, Bucket(ClipHash(hash(key)), 1, key, val), spots, hash);
      if replaced.None? { count := count + 1; }
    }

    method Get(key: K) returns (r: Option<V>)
      requires Valid()
      ensures r == if key in Contents() then Some(Contents()[key]) else None
    {
      ValueAt(buckets[..], spots, hash, key);
      hide Sound, ContentsOf, ClipHash;
      var i := Find(buckets, key, ClipHash(hash(key)), spots, hash);
      return if i.Some? then Some(buckets[i.value].val) else None;
    }

    /** Deletes a key and returns its value; may shrink, and is right also when that fails. */
    method Delete(key: K, ok: bool) returns (r: Option<V>)
      requires Valid()
      modifies this, buckets
      ensures Valid() && Contents() == old(Contents()) - {key} && !oom
      ensures r == if key in old(Contents()) then Some(old(Contents())[key]) else None
      ensures fresh(buckets) <==> r.Some? && ok && old(buckets.Length) > cap && 10 * old(buckets.Length) / 100 >= count
      ensures !fresh(buckets) ==> buckets == old(buckets)
    {
      ValueAt(buckets[..], spots, hash, key);
      hide Sound, ContentsOf, ClipHash;
      oom := false;
      var i := Find(buckets, key, ClipHash(hash(key)), spots, hash);
      if i.None? { return None; }
      r := Some(buckets[i.value].val);
      RemoveAt(i.value);
      if buckets.Length > cap && count <= shrinkAt {
        var _ := Resize(buckets.Length / 2, ok);
      }
    }

    method RemoveAt(i: nat)
      requires Valid() && i < buckets.Length && buckets[i].dib > 0
      modifies buckets, `spots, `count
      ensures Valid() && Contents() == old(Contents()) - {old(buckets[i].key)}
    {
      hide Sound, ContentsOf;
      ghost var key, were := buckets[i].key, spots;
      spots := ShiftBack(buckets, i, spots, hash);
      RemoveKey(were, key);
      SizeOfKeys(spots, were - {key});
      count := count - 1;
    }
  }

  lemma ValueAt<K, V>(bs: seq<Bucket<K, V>>, spots: map<K, nat>, hash: K -> nat, key: K)
    requires Sound(bs, spots, hash)
    ensures key in ContentsOf(bs, spots) <==> key in spots
    ensures key in spots ==> spots[key] < |bs| && ContentsOf(bs, spots)[key] == bs[spots[key]].val
  {
    hide RobinHood, ClipHash;
  }

  lemma GrowsEnough(n: nat, power: nat)
    requires power >= 1
    ensures n * Pow2(power) >= 2 * n
  {
    assert Pow2(power) >= 2;
  }

  /** A table that has the keys of the buckets before `i` has no more keys than the whole. */
  lemma SizesBefore<K, V>(bs: seq<Bucket<K, V>>, spots: map<K, nat>, hash: K -> nat, i: nat, to: seq<Bucket<K, V>>, at: map<K, nat>)
    requires Sound(to, at, hash) && ContentsOf(to, at) == Before(bs, spots, i)
    ensures |at| <= |spots| && forall k :: k in at <==> k in Before(bs, spots, i)
  {
    AllBefore(to, at, hash);
    BeforeIsPart(bs, spots, i);
    hide RobinHood, Before, ClipHash;
    assert forall k :: k in at <==> k in at.Keys;
  }

  lemma SameSize<K, V>(bs: seq<Bucket<K, V>>, spots: map<K, nat>, to: seq<Bucket<K, V>>, at: map<K, nat>, hash: K -> nat)
    requires Sound(bs, spots, hash) && Sound(to, at, hash) && ContentsOf(to, at) == Before(bs, spots, |bs|)
    ensures |at| == |spots| && ContentsOf(to, at) == ContentsOf(bs, spots)
  {
    hide RobinHood, ClipHash;
    AllBefore(bs, spots, hash);
    AllBefore(to, at, hash);
  }
}
