/** The Verstable hash table: open addressing with quadratic probing, where the keys of one home
    bucket are linked into a chain. The table is a map; `Contents()` is that map. */
module Verstable {
  import opened Counting
  import opened VerstableChains
  import opened VerstableImage
  import opened VerstableProbing
  import opened Wrappers

  /** An iterator: a bucket, and its key's home bucket unless the iterator came from a scan. */
  datatype Itr = Itr(bucket: nat, home: Option<nat>)

  const MIN_NONZERO_BUCKET_COUNT: nat := 8

  /** Nothing is stored strictly between buckets `p` and `q`. */
  ghost predicate Gap(ms: seq<Meta>, p: int, q: nat) { forall r :: p < r < q && 0 <= r < |ms| ==> ms[r] == EMPTY }

  class Table<K(==, 0), V(0)> {
    const hash: K -> nat
    const maxLoad: real
    var metadata: array<Meta>
    var buckets: array<Bucket<K, V>>
    var keyCount: nat
    ghost var disps: seq<nat>
    ghost var spots: map<K, nat>

    ghost function Im(): Image<K, V>
      reads this, metadata, buckets
    {
      Image(metadata[..], buckets[..], disps, spots)
    }

    /** The representation invariant, where the key in `hole` is not in its chain, and the key that
        was in `gone` has been moved away. */
    ghost predicate Holds(hole: int, gone: int)
      reads this, metadata, buckets
    {
      && Sound(Im(), hash, hole, gone) && IsPow2(metadata.Length) && keyCount == |spots|
      && (metadata.Length == 1 ==> metadata[0] == EMPTY)
      && (hole >= 0 ==> hole < metadata.Length && metadata[hole] != EMPTY && !metadata[hole].home)
    }

    ghost predicate Valid()
      reads this, metadata, buckets
    {
      Holds(-1, -1)
    }

    ghost function Contents(): map<K, V>
      reads this, metadata, buckets
    {
      ContentsOf(Im())
    }

    function Home(key: K): (h: nat)
      reads this, metadata
      requires metadata.Length > 0
      ensures h < metadata.Length
    {
      HomeOf(hash(key), metadata.Length)
    }

    /** The mask is zero for a table without buckets. */
    function BucketCount(): nat
      reads this
    {
      if metadata.Length == 1 then 0 else metadata.Length
    }

    predicate TooFull()
      reads this
    {
      (keyCount + 1) as real > BucketCount() as real * maxLoad
    }

    /** The sizes and load factors for which every probe finds an empty bucket if there is one. */
    predicate Small()
      reads this
    {
      maxLoad <= 1.0 && metadata.Length <= 1024
    }

    /** The load factor allows `n` keys in `b` buckets. */
    predicate Roomy(n: nat, b: nat) { n == 0 || n as real <= b as real * maxLoad }

    constructor (hash: K -> nat, maxLoad: real, bucketCount: nat)
      requires bucketCount > 0 && IsPow2(bucketCount)
      ensures Valid() && fresh(metadata) && fresh(buckets)
      ensures this.hash == hash && this.maxLoad == maxLoad && metadata.Length == bucketCount
      ensures keyCount == 0 && spots == map[] && Contents() == map[]
    {
      hide Sound, ContentsOf;
      this.hash := hash;
      this.maxLoad := maxLoad;
      metadata := new Meta[bucketCount](_ => EMPTY);
      buckets := new Bucket<K, V>[bucketCount];
      keyCount := 0;
      disps := seq(bucketCount, _ => 0);
      spots := map[];
      new;
      NothingStored(Im(), hash);
    }

    // ---------- walking ----------

    /** The first empty bucket among the probes from `home`, up to the displacement limit. */
    method FindFirstEmpty(home: nat) returns (found: bool, empty: nat, displacement: nat)
      requires metadata.Length > 0
      ensures found <==> !ProbesFull(metadata[..], home)
      ensures found ==> empty < metadata.Length && metadata[empty] == EMPTY && 1 <= displacement < END
      ensures found ==> empty == Slot(home, displacement, metadata.Length)
      ensures found ==> forall d: nat :: 1 <= d < displacement ==> metadata[Slot(home, d, metadata.Length)] != EMPTY
    {
      displacement := 1;
      var linear := 1;
      while true
        invariant 1 <= displacement < END && linear == Triangular(displacement)
        invariant forall d: nat :: 1 <= d < displacement ==> metadata[Slot(home, d, metadata.Length)] != EMPTY
        decreases END - displacement
      {
        empty := (home + linear) % metadata.Length;
        assert empty == Slot(home, displacement, metadata.Length);
        hide Slot, Triangular;
        if metadata[empty] == EMPTY { return true, empty, displacement; }
        displacement := displacement + 1;
        if displacement == END { return false, empty, displacement; }
        TriangularStep(displacement - 1);
        linear := linear + displacement;
      }
    }

    /** The key before `bucket` in the chain that starts in `home`. */
    method FindPrevious(home: nat, bucket: nat) returns (prev: nat)
      requires Holds(-1, -1) && bucket < metadata.Length && metadata[bucket] != EMPTY && !metadata[bucket].home
      requires home == Home(buckets[bucket].key)
      ensures Precedes(RackOf(Im(), hash), -1, prev, bucket)
    {
      ghost var t := RackOf(Im(), hash);
      hide Stored, Slot, Linked, Reaches;
      assert Placed(t, -1, bucket) && Live(t, -1, home);
      prev := home;
      assert Placed(t, -1, home);
      while true
        invariant Live(t, -1, prev) && t.hs[prev] == home && t.ds[prev] < t.ds[bucket]
        decreases END - t.ds[prev]
      {
        NextInChain(t, -1, prev, bucket);
        var next := Slot(home, metadata[prev].link, metadata.Length);
        if next == bucket { return; }
        prev := next;
      }
    }

    /** The key in the chain of `home` after which displacement `d` belongs. */
    method FindInsertLocation(home: nat, d: nat, ghost hole: int) returns (candidate: nat)
      requires metadata.Length == buckets.Length && Chained(RackOf(Im(), hash), hole)
      requires Live(RackOf(Im(), hash), hole, home) && metadata[home].home
      requires 1 <= d < END && metadata[Slot(home, d, metadata.Length)] == EMPTY
      ensures Live(RackOf(Im(), hash), hole, candidate) && Homes(buckets[..], hash)[candidate] == home
      ensures disps[candidate] < d < metadata[candidate].link
    {
      ghost var t := RackOf(Im(), hash);
      hide Slot, Linked, Reaches;
      assert Placed(t, hole, home);
      candidate := home;
      while true
        invariant Live(t, hole, candidate) && t.hs[candidate] == home && t.ds[candidate] < d
        decreases END - t.ds[candidate]
      {
        LinkPoints(t, hole, candidate);
        if metadata[candidate].link > d { return; }
        candidate := Slot(home, metadata[candidate].link, metadata.Length);
      }
    }

    /** Traverses the chain of the key's home bucket. */
    method FindInChain(key: K, ghost hole: int) returns (r: Option<nat>)
      requires Holds(hole, -1) && metadata[Home(key)].home
      ensures r.Some? ==> key in spots && spots[key] == r.value != hole
      ensures r.None? ==> key in spots ==> spots[key] == hole
    {
      var home, frag := Home(key), HashFrag(hash(key));
      ghost var t := RackOf(Im(), hash);
      ghost var goal := if key in spots && spots[key] != hole then spots[key] else home;
      hide Slot, Linked, Reaches, Homes, HomeOf, HashFrag;
      assert Live(t, hole, home) && Placed(t, hole, home);
      StoredAtHome(Im(), hash, hole, key);
      var bucket := home;
      while true
        invariant Live(t, hole, bucket) && t.hs[bucket] == home
        invariant key in spots && spots[key] != hole ==> t.ds[goal] >= t.ds[bucket]
        decreases END - t.ds[bucket]
      {
        assert Found(Im(), hash, bucket);
        if metadata[bucket].frag == frag && buckets[bucket].key == key { return Some(bucket); }
        if key in spots && spots[key] != hole { NextInChain(t, hole, bucket, goal); }
        LinkPoints(t, hole, bucket);
        var displacement := metadata[bucket].link;
        if displacement == END { return None; }
        bucket := Slot(home, displacement, metadata.Length);
      }
    }

    /** The bucket of a key, if the key is there. A key out of its chain is not found. */
    method Get(key: K, ghost hole: int) returns (r: Option<nat>)
      requires Holds(hole, -1)
      ensures r == if key in spots && spots[key] != hole then Some(spots[key]) else None
    {
      var home := Home(key);
      if !metadata[home].home {
        AbsentWithoutHead(Im(), hash, hole, key);
        return None;
      }
      r := FindInChain(key, hole);
    }

    // ---------- insertion ----------

    /** Moves the key in `bucket`, which belongs elsewhere, to an empty bucket of its own chain. When
        there is none, the key stays where it is but out of its chain. */
    method Evict(bucket: nat) returns (ok: bool)
      requires Valid() && bucket < metadata.Length && metadata[bucket] != EMPTY && !metadata[bucket].home
      modifies metadata, buckets, `disps, `spots
      ensures ok <==> !old(ProbesFull(metadata[..], Home(buckets[bucket].key)))
      ensures metadata.Length == buckets.Length && metadata[bucket] == old(metadata[bucket])
      ensures ok ==> Sound(Im(), hash, bucket, bucket) && Contents() == old(Contents()) && spots.Keys == old(spots.Keys)
      ensures !ok ==> Sound(Im(), hash, bucket, -1) && !Valid() && Contents() == old(Contents())
      ensures !ok ==> buckets[..] == old(buckets[..]) && spots == old(spots) && disps == old(disps)
      ensures !ok ==> forall b :: 0 <= b < metadata.Length ==> (metadata[b] == EMPTY <==> old(metadata[b] == EMPTY)) && metadata[b].home == old(metadata[b].home)
    {
      hide Chained, Stored, Slot, Homes, HomeOf, HashFrag, ContentsOf, IsPow2;
      ghost var im0 := Im();
      var home := Home(buckets[bucket].key);
      var prev := FindPrevious(home, bucket);
      metadata[prev] := Meta(metadata[prev].frag, metadata[prev].home, metadata[bucket].link);
      ghost var im1 := Im();
      assert im1 == Unlink(im0, prev, bucket);
      UnlinkIsSound(im0, hash, prev, bucket);
      SkipBreaksChain(RackOf(im0, hash), prev, bucket);
      var found, empty, displacement := FindFirstEmpty(home);
      SameProbes(im0.ms, im1.ms, home);
      if !found { return false; }
      HeadOfMoved(im0, im1, hash, bucket);
      prev := FindInsertLocation(home, displacement, bucket);
      Relocate(bucket, prev, empty, displacement);
      return true;
    }

    /** Moves the unlinked key of `bucket` to bucket `empty` and links it after `prev`. */
    method Relocate(bucket: nat, prev: nat, empty: nat, displacement: nat)
      requires Sound(Im(), hash, bucket, -1) && bucket < metadata.Length && metadata[bucket] != EMPTY
      requires metadata[bucket].frag == HashFrag(hash(buckets[bucket].key))
      requires Joins(Im(), hash, bucket, prev, empty, displacement, buckets[bucket].key)
      modifies metadata, buckets, `disps, `spots
      ensures Sound(Im(), hash, bucket, bucket) && Contents() == old(Contents()) && spots.Keys == old(spots.Keys)
      ensures metadata[bucket] == old(metadata[bucket])
    {
      hide Chained, Stored, Slot, Homes, HomeOf, HashFrag, ContentsOf, IsPow2;
      ghost var im1 := Im();
      ghost var x := buckets[bucket];
      hide Sound;
      RelocateIsSound(im1, hash, bucket, prev, empty, displacement);
      assert metadata.Length == buckets.Length == |disps| && empty != prev && empty < metadata.Length && prev < metadata.Length && prev != bucket && empty != bucket;
      buckets[empty] := buckets[bucket];
      metadata[empty] := Meta(metadata[bucket].frag, false, metadata[prev].link);
      metadata[prev] := Meta(metadata[prev].frag, metadata[prev].home, displacement);
      disps := disps[empty := displacement];
      spots := (spots - {x.key})[x.key := empty];
      assert Im() == PutLinked(Forget(im1, bucket), hash, prev, empty, displacement, x);
    }

    /** Puts the only key of a new chain into its home bucket, which no longer holds a key. */
    method PutInHome(home: nat, key: K, val: V)
      requires Sound(Im(), hash, home, home) && key !in spots && home < metadata.Length && home == Home(key)
      requires keyCount == |spots| && IsPow2(metadata.Length) && metadata.Length != 1
      modifies metadata, buckets, `disps, `spots, `keyCount
      ensures Valid() && Contents() == old(Contents())[key := val] && key in spots && spots[key] == home
    {
      hide Chained, Stored, Slot, Homes, HomeOf, HashFrag, ContentsOf, IsPow2;
      ghost var im := Im();
      PutHomeIsSound(im, hash, home, Bucket(key, val));
      assert metadata.Length == buckets.Length == |disps|;
      hide Sound;
      buckets[home] := Bucket(key, val);
      metadata[home] := Meta(HashFrag(hash(key)), true, END);
      keyCount := keyCount + 1;
      disps := disps[home := 0];
      spots := spots[key := home];
      assert Im() == PutHome(im, hash, home, Bucket(key, val));
    }

    /** Puts a key that is new to the table into the chain of its home bucket. */
    method PutInChain(prev: nat, empty: nat, displacement: nat, key: K, val: V)
      requires Valid() && key !in spots && Joins(Im(), hash, -1, prev, empty, displacement, key)
      modifies metadata, buckets, `disps, `spots, `keyCount
      ensures Valid() && Contents() == old(Contents())[key := val] && key in spots && spots[key] == empty
    {
      hide Chained, Stored, Slot, Homes, HomeOf, HashFrag, ContentsOf, IsPow2;
      ghost var im := Im();
      PutLinkedIsSound(im, hash, -1, -1, prev, empty, displacement, Bucket(key, val));
      assert metadata.Length == buckets.Length == |disps| && empty != prev && prev < metadata.Length;
      assert metadata.Length != 1;
      hide Sound;
      buckets[empty] := Bucket(key, val);
      metadata[empty] := Meta(HashFrag(hash(key)), false, metadata[prev].link);
      metadata[prev] := Meta(metadata[prev].frag, metadata[prev].home, displacement);
      keyCount := keyCount + 1;
      disps := disps[empty := displacement];
      spots := spots[key := empty];
      assert Im() == PutLinked(im, hash, prev, empty, displacement, Bucket(key, val));
    }

    /** The new key cannot be put in: its home bucket holds a foreign key that has nowhere to go. */
    ghost predicate Stuck(key: K)
      reads this, metadata, buckets
      requires metadata.Length == buckets.Length > 0
    {
      && !TooFull() && metadata[Home(key)] != EMPTY && !metadata[Home(key)].home
      && ProbesFull(metadata[..], Home(buckets[Home(key)].key))
    }

    /** The new key cannot be put into this bucket array. */
    ghost predicate Refuses(key: K)
      reads this, metadata, buckets
      requires metadata.Length == buckets.Length > 0
    {
      TooFull() || Stuck(key) || (metadata[Home(key)].home && ProbesFull(metadata[..], Home(key)))
    }

    /** A key whose home bucket is empty or holds a foreign key, which is evicted. */
    method StartNewChain(key: K, val: V) returns (ok: bool)
      requires Valid() && key !in spots && !metadata[Home(key)].home
      modifies metadata, buckets, `disps, `spots, `keyCount
      ensures ok <==> !old(Refuses(key))
      ensures ok ==> Valid() && Contents() == old(Contents())[key := val] && key in spots && spots[key] == Home(key)
      ensures !ok ==> Holds(if old(Stuck(key)) then Home(key) else -1, -1) && Refuses(key) && (Stuck(key) <==> old(Stuck(key)))
      ensures !ok ==> (Valid() <==> !Stuck(key)) && spots == old(spots) && Contents() == old(Contents()) && keyCount == old(keyCount)
    {
      hide Chained, Stored, Slot, Homes, HomeOf, HashFrag, ContentsOf, IsPow2, ProbesFull;
      var home := Home(key);
      if TooFull() { return false; }
      if metadata[home] != EMPTY {
        ghost var before := metadata[..];
        ok := Evict(home);
        if !ok {
          SameProbes(before, metadata[..], Home(buckets[home].key));
          return;
        }
      } else {
        EmptyIsGone(Im(), hash, home);
      }
      PutInHome(home, key, val);
      ok := true;
    }

    /** A new key whose home bucket starts a chain already. */
    method JoinChain(key: K, val: V) returns (bucket: Option<nat>)
      requires Valid() && key !in spots && metadata[Home(key)].home
      modifies metadata, buckets, `disps, `spots, `keyCount
      ensures bucket.Some? <==> !old(Refuses(key))
      ensures bucket.Some? ==> Valid() && Contents() == old(Contents())[key := val] && key in spots && spots[key] == bucket.value
      ensures bucket.None? ==> unchanged(this) && unchanged(metadata) && unchanged(buckets)
    {
      hide Chained, Stored, Slot, Homes, HomeOf, HashFrag, ContentsOf, IsPow2, ProbesFull;
      if TooFull() { return None; }
      var found, empty, displacement := FindFirstEmpty(Home(key));
      if !found { return None; }
      var prev := FindInsertLocation(Home(key), displacement, -1);
      PutInChain(prev, empty, displacement, key, val);
      return Some(empty);
    }

    /** Inserts or, if `replace`, overwrites; `unique` skips the search for the key. */
    method InsertRaw(key: K, val: V, unique: bool, replace: bool) returns (itr: Option<Itr>)
      requires Valid() && (unique ==> key !in spots)
      modifies metadata, buckets, `disps, `spots, `keyCount
      ensures itr.None? <==> key !in old(spots) && old(Refuses(key))
      ensures itr.Some? ==> Valid() && key in spots && itr.value == Itr(spots[key], Some(Home(key)))
      ensures itr.Some? ==> Contents() == if key in old(spots) && !replace then old(Contents()) else old(Contents())[key := val]
      ensures itr.None? ==> Holds(if old(Stuck(key)) then Home(key) else -1, -1) && Refuses(key) && (Stuck(key) <==> old(Stuck(key)))
      ensures itr.None? ==> (Valid() <==> !Stuck(key)) && spots == old(spots) && Contents() == old(Contents()) && keyCount == old(keyCount)
    {
      hide HomeOf, HashFrag, ContentsOf, IsPow2, Refuses, Stuck, Chained, Stored;
      assert metadata.Length == buckets.Length > 0;
      var home := Home(key);
      if !metadata[home].home {
        AbsentWithoutHead(Im(), hash, -1, key);
        var ok := StartNewChain(key, val);
        return if ok then Some(Itr(home, Some(home))) else None;
      } else {
        HeadIsNotStuck(key);
        if !unique {
          var found := FindInChain(key, -1);
          if found.Some? {
            if replace { Overwrite(found.value, key, val); }
            return Some(Itr(found.value, Some(home)));
          }
        }
        var bucket := JoinChain(key, val);
        return if bucket.Some? then Some(Itr(bucket.value, Some(home))) else None;
      }
    }

    lemma HeadIsNotStuck(key: K)
      requires metadata.Length == buckets.Length > 0 && metadata[Home(key)].home
      ensures !Stuck(key)
    {
    }

    method Overwrite(bucket: nat, key: K, val: V)
      requires Valid() && key in spots && spots[key] == bucket
      modifies buckets
      ensures Valid() && Contents() == old(Contents())[key := val]
    {
      ghost var im := Im();
      SetValIsSound(im, hash, bucket, key, val);
      assert bucket < buckets.Length;
      hide Chained, Stored, Slot, Homes, HomeOf, HashFrag, ContentsOf, IsPow2, Sound;
      buckets[bucket] := Bucket(key, val);
      assert Im() == SetVal(im, bucket, key, val);
    }

    // ---------- growing ----------

    lemma FullMeansNoRoom(key: K)
      requires metadata.Length == buckets.Length > 1
      ensures TooFull() <==> !Roomy(keyCount + 1, metadata.Length)
      ensures TooFull() ==> Refuses(key)
    {
    }

    lemma CountsContents()
      requires Valid()
      ensures keyCount == |Contents()| && Contents().Keys == spots.Keys
    {
      ContentKeys(Im(), hash, -1);
      hide Sound, ContentsOf;
    }

    /** Inserts a key that is known to be new. In a small table only the load factor can refuse it. */
    method InsertUnique(key: K, val: V) returns (ok: bool)
      requires Valid() && key !in spots && metadata.Length > 1
      modifies metadata, buckets, `disps, `spots, `keyCount
      ensures ok ==> Valid() && Contents() == old(Contents())[key := val] && Roomy(keyCount, metadata.Length)
      ensures !ok ==> Contents() == old(Contents()) && keyCount == old(keyCount)
      ensures !ok ==> metadata.Length == buckets.Length > 0 && Refuses(key)
      ensures !ok && Small() ==> !Roomy(keyCount + 1, metadata.Length)
    {
      hide HomeOf, IsPow2, Sound, ContentsOf, Stuck, Holds, Refuses, Table.TooFull, Table.Roomy;
      LengthsAgree();
      FullMeansNoRoom(key);
      if Small() { SmallTablesNeverStick(this, key); }
      CountsContents();
      ghost var n := |Contents()|;
      var itr := InsertRaw(key, val, true, false);
      ok := itr.Some?;
      if ok {
        CountsContents();
        assert |Contents()| == n + 1;
      }
    }

    /** Inserts the key of bucket `i`, if any, into table `t`, which has the keys of the buckets before. */
    method ReinsertBucket(t: Table<K, V>, i: nat, ghost hole: int) returns (ok: bool)
      requires Holds(hole, -1) && t.Valid() && i < BucketCount() && t.Contents() == Before(Im(), i)
      requires t != this && t.metadata != metadata && t.buckets != buckets && t.metadata.Length > 1
      modifies t.metadata, t.buckets, t`disps, t`spots, t`keyCount
      ensures ok ==> t.Valid() && t.Contents() == Before(Im(), i + 1)
      ensures ok ==> t.keyCount == old(t.keyCount) || t.Roomy(t.keyCount, t.metadata.Length)
      ensures !ok ==> t.keyCount < keyCount && t.Contents() == Before(Im(), i) && metadata[i] != EMPTY
      ensures !ok ==> t.metadata.Length == t.buckets.Length > 0 && t.Refuses(buckets[i].key)
      ensures !ok && t.Small() ==> !t.Roomy(t.keyCount + 1, t.metadata.Length)
    {
      assert metadata.Length == buckets.Length;
      hide HomeOf, IsPow2, Sound, ContentsOf, Before, Refuses, Stuck, Table.Roomy, Table.Small;
      NextBefore(Im(), hash, hole, i);
      if metadata[i] == EMPTY { return true; }
      ContentKeys(t.Im(), t.hash, -1);
      FewerKeys(Im(), hash, hole, t.Im(), t.hash, i);
      ok := t.InsertUnique(buckets[i].key, buckets[i].val);
    }

    /** Once the keys of all buckets are in `t`, it has the contents of this table. */
    lemma ReinsertEnds(t: Table<K, V>, hole: int)
      requires Holds(hole, -1) && t.Valid() && t.Contents() == Before(Im(), BucketCount())
      ensures t.Contents() == Contents() && t.keyCount == keyCount
    {
      hide HomeOf, IsPow2, ContentsOf, Before, Chained, Stored;
      AllBefore(Im(), hash, hole, BucketCount());
      SameSize(Im(), hash, hole, t.Im(), t.hash);
    }

    /** Table `t` has the keys of the buckets before `i`, and refuses the one in bucket `i`. */
    ghost predicate StoppedAt(t: Table<K, V>, i: nat)
      reads this, metadata, buckets, t, t.metadata, t.buckets
    {
      && i < metadata.Length == buckets.Length && metadata[i] != EMPTY && t.Contents() == Before(Im(), i)
      && t.metadata.Length == t.buckets.Length > 0 && t.Refuses(buckets[i].key)
    }

    /** Inserts every key of this table into the empty table `t`; stops at the first that is refused. In a
        small table that happens only if the load factor does not allow this many keys. */
    method ReinsertInto(t: Table<K, V>, ghost hole: int) returns (all: bool)
      requires Holds(hole, -1) && t.Valid() && t.keyCount == 0 && t.Contents() == map[]
      requires t != this && t.metadata != metadata && t.buckets != buckets && t.metadata.Length > 1
      modifies t.metadata, t.buckets, t`disps, t`spots, t`keyCount
      ensures all ==> t.Valid() && t.Contents() == Contents() && t.keyCount == keyCount && t.Roomy(keyCount, t.metadata.Length)
      ensures !all ==> t.keyCount < keyCount && exists i :: StoppedAt(t, i)
      ensures !all && t.Small() ==> !t.Roomy(keyCount, t.metadata.Length)
    {
      hide HomeOf, IsPow2, Sound, ContentsOf, Before, Holds, Refuses, Table.Roomy;
      BeforeNone(Im());
      NoneIsRoomy(t);
      assert metadata.Length == buckets.Length by { SoundLengths(hole); }
      for i := 0 to BucketCount()
        invariant t.Valid() && t.Contents() == Before(Im(), i) && t.Roomy(t.keyCount, t.metadata.Length)
      {
        all := ReinsertBucket(t, i, hole);
        if !all {
          assert StoppedAt(t, i);
          FewerAreRoomy(t, t.keyCount + 1, keyCount);
          return;
        }
      }
      ReinsertEnds(t, hole);
      return true;
    }

    lemma SoundLengths(hole: int)
      requires Holds(hole, -1)
      ensures metadata.Length == buckets.Length > 0
    {
      hide Chained, Stored;
    }

    lemma NoneIsRoomy(t: Table<K, V>)
      ensures t.Roomy(0, t.metadata.Length)
    {
    }

    lemma FewerAreRoomy(t: Table<K, V>, m: nat, n: nat)
      requires 0 < m <= n
      ensures t.Roomy(n, t.metadata.Length) ==> t.Roomy(m, t.metadata.Length)
    {
    }

    /** No power of two in the range from `lo` up to and without `hi`, among the sizes of small tables, has
        room for `n` keys. */
    ghost predicate NoRoom(n: nat, lo: nat, hi: int) {
      maxLoad <= 1.0 ==> forall b: nat :: IsPow2(b) && lo <= b < hi && b <= 1024 ==> !Roomy(n, b)
    }

    /** Moves all keys to a new bucket array of `count` buckets, or of the first doubling of that which
        takes them all. `memory` is the largest bucket array that can be allocated. For small tables the
        size is the first that the load factor allows, and it fails only if there is none. */
    method Rehash(count: nat, memory: nat, ghost hole: int) returns (ok: bool)
      requires Holds(hole, -1) && count >= 2 && IsPow2(count)
      modifies this
      ensures ok ==> Valid() && Contents() == old(Contents()) && fresh(metadata) && fresh(buckets) && count <= metadata.Length <= memory
      ensures ok ==> keyCount == old(keyCount) && Roomy(keyCount, metadata.Length) && NoRoom(keyCount, count, metadata.Length)
      ensures !ok ==> unchanged(this) && NoRoom(keyCount, count, memory + 1)
    {
      hide HomeOf, Sound, ContentsOf, Refuses, Stuck, IsPow2, NoRoom, Table.Roomy, Before;
      var bucketCount := count;
      NoRoomYet(keyCount, count);
      while true
        invariant bucketCount >= count && IsPow2(bucketCount) && unchanged(this) && NoRoom(keyCount, count, bucketCount)
        decreases memory - bucketCount
      {
        if bucketCount > memory {
          NoRoomBelow(keyCount, count, memory + 1, bucketCount);
          return false;
        }
        var t := new Table<K, V>(hash, maxLoad, bucketCount);
        var _ := ReinsertInto(t, hole);
        if t.keyCount < keyCount {
          DoubleIsPow2(bucketCount);
          NoRoomHere(t, keyCount, count, bucketCount);
          bucketCount := bucketCount * 2;
        } else {
          SameRoom(t, keyCount, bucketCount);
          metadata, buckets, keyCount := t.metadata, t.buckets, t.keyCount;
          disps, spots := t.disps, t.spots;
          assert Im() == t.Im();
          return true;
        }
      }
    }

    lemma NoRoomYet(n: nat, count: nat)
      ensures NoRoom(n, count, count)
    {
    }

    lemma NoRoomBelow(n: nat, lo: nat, hi: nat, top: nat)
      requires hi <= top && NoRoom(n, lo, top)
      ensures NoRoom(n, lo, hi)
    {
    }

    lemma SameRoom(t: Table<K, V>, n: nat, b: nat)
      requires t.maxLoad == maxLoad
      ensures t.Roomy(n, b) == Roomy(n, b)
    {
    }

    lemma NoRoomHere(t: Table<K, V>, n: nat, lo: nat, b: nat)
      requires NoRoom(n, lo, b) && IsPow2(b) && t.maxLoad == maxLoad && t.metadata.Length == b
      requires t.Small() ==> !t.Roomy(n, b)
      ensures NoRoom(n, lo, 2 * b)
    {
      hide Table.Roomy, IsPow2;
      SameRoom(t, n, b);
      forall c: nat | IsPow2(c) && lo <= c < 2 * b && c <= 1024 && maxLoad <= 1.0 ensures !Roomy(n, c) {
        if c >= b { NextIsDouble(b, c); }
      }
    }

    /** The table is intact and the iterator is at `key`. */
    ghost predicate LeadsTo(itr: Itr, key: K)
      reads this, metadata, buckets
    {
      metadata.Length > 0 && Valid() && key in spots && itr == Itr(spots[key], Some(Home(key)))
    }

    /** The table after an insert of `key` that failed for good: intact if and only if the home bucket
        did not hold a foreign key with nowhere to go, which is out of its chain otherwise. */
    ghost predicate Rejected(key: K)
      reads this, metadata, buckets
    {
      && metadata.Length == buckets.Length > 0
      && (Valid() <==> !Stuck(key)) && Holds(if Stuck(key) then Home(key) else -1, -1)
    }

    /** The next size to try after an insert that was refused. */
    function GrownCount(): (n: nat)
      reads this
      requires metadata.Length > 0 && IsPow2(metadata.Length)
      ensures n > metadata.Length && IsPow2(n)
    {
      if BucketCount() != 0 then BucketCount() * 2 else MIN_NONZERO_BUCKET_COUNT
    }

    /** The first size at which an insert can find room. */
    function FirstSize(): nat
      reads this
    {
      if BucketCount() != 0 then BucketCount() else MIN_NONZERO_BUCKET_COUNT
    }

    /** Inserts a key, with `replace` also when it is there already, and grows as often as necessary.
        The result is the end iterator only if a larger bucket array cannot be allocated: with a load factor
        of at most one, only if the memory allows no size of up to 1024 buckets that has room for the key. */
    method InsertGrowing(key: K, val: V, replace: bool, memory: nat) returns (itr: Option<Itr>)
      requires Valid()
      modifies this, metadata, buckets
      ensures itr.Some? ==> LeadsTo(itr.value, key)
      ensures itr.Some? ==> Contents() == if key in old(Contents()) && !replace then old(Contents()) else old(Contents())[key := val]
      ensures itr.None? ==> key !in old(Contents()) && Contents() == old(Contents())
      ensures itr.None? ==> Rejected(key) && NoRoom(old(keyCount) + 1, old(FirstSize()), memory + 1)
    {
      hide HomeOf, Sound, ContentsOf, Refuses, Stuck, IsPow2, Holds, NoRoom, Table.Roomy, Table.TooFull;
      NoRoomYet(keyCount + 1, FirstSize());
      while true
        invariant Valid() && Contents() == old(Contents()) && keyCount == old(keyCount)
        invariant metadata == old(metadata) || fresh(metadata)
        invariant buckets == old(buckets) || fresh(buckets)
        invariant old(FirstSize()) <= FirstSize() && NoRoom(keyCount + 1, old(FirstSize()), FirstSize())
        decreases memory - metadata.Length
      {
        LengthsAgree();
        ContentKeys(Im(), hash, -1);
        if metadata.Length > 1 && Small() {
          FullMeansNoRoom(key);
          SmallTablesNeverStick(this, key);
        }
        itr := InsertRaw(key, val, false, replace);
        if itr.Some? { return; }
        NoRoomNow(keyCount + 1, old(FirstSize()));
        ghost var hole := if Stuck(key) then Home(key) else -1;
        ghost var grown := GrownCount();
        var ok := Rehash(GrownCount(), memory, hole);
        NoRoomAfter(keyCount, old(FirstSize()), grown, if ok then metadata.Length else memory + 1);
        if !ok { return; }
      }
    }

    /** A small table that is refused for its load has no room. */
    lemma NoRoomNow(n: nat, lo: nat)
      requires metadata.Length > 0 && IsPow2(metadata.Length) && NoRoom(n, lo, FirstSize())
      requires metadata.Length > 1 && Small() ==> !Roomy(n, metadata.Length)
      ensures NoRoom(n, lo, GrownCount())
    {
      hide Table.Roomy, IsPow2;
      forall c: nat | IsPow2(c) && lo <= c < GrownCount() && c <= 1024 && maxLoad <= 1.0 ensures !Roomy(n, c) {
        if c >= FirstSize() { NextIsDouble(metadata.Length, c); }
      }
    }

    /** What has no room for the keys has none for one more. */
    lemma NoRoomAfter(n: nat, lo: nat, mid: nat, hi: int)
      requires NoRoom(n + 1, lo, mid) && NoRoom(n, mid, hi)
      ensures NoRoom(n + 1, lo, hi)
    {
      hide IsPow2;
      forall c: nat | IsPow2(c) && lo <= c < hi && c <= 1024 && maxLoad <= 1.0 ensures !Roomy(n + 1, c) {
        if c >= mid { assert !Roomy(n, c); }
      }
    }

    lemma LengthsAgree()
      requires Valid()
      ensures metadata.Length == buckets.Length > 0 && IsPow2(metadata.Length) && Sound(Im(), hash, -1, -1)
    {
      hide Chained, Stored;
    }

    method Insert(key: K, val: V, memory: nat) returns (itr: Option<Itr>)
      requires Valid()
      modifies this, metadata, buckets
      ensures itr.Some? ==> LeadsTo(itr.value, key)
      ensures itr.Some? ==> Contents() == old(Contents())[key := val]
      ensures itr.None? ==> key !in old(Contents()) && Contents() == old(Contents())
      ensures itr.None? ==> Rejected(key) && NoRoom(old(keyCount) + 1, old(FirstSize()), memory + 1)
    {
      itr := InsertGrowing(key, val, true, memory);
    }

    method GetOrInsert(key: K, val: V, memory: nat) returns (itr: Option<Itr>)
      requires Valid()
      modifies this, metadata, buckets
      ensures itr.Some? ==> LeadsTo(itr.value, key)
      ensures itr.Some? ==> Contents() == if key in old(Contents()) then old(Contents()) else old(Contents())[key := val]
      ensures itr.None? ==> key !in old(Contents()) && Contents() == old(Contents())
      ensures itr.None? ==> Rejected(key) && NoRoom(old(keyCount) + 1, old(FirstSize()), memory + 1)
    {
      itr := InsertGrowing(key, val, false, memory);
    }

    // ---------- erasing ----------

    /** Erases the key of the iterator's bucket, always from the end of its chain: a key that is not the
        last is replaced by the last. */
    method EraseItrRaw(itr: Itr) returns (advance: bool)
      requires Valid() && itr.bucket < metadata.Length == buckets.Length && metadata[itr.bucket] != EMPTY
      requires itr.home.Some? ==> itr.home.value == Home(buckets[itr.bucket].key)
      modifies metadata, buckets, `spots, `keyCount
      ensures Valid() && Contents() == old(Contents()) - {old(buckets[itr.bucket].key)}
      ensures metadata.Length == buckets.Length && Erased(old(Im()), Im(), itr.bucket, advance)
    {
      hide HomeOf, HashFrag, IsPow2, Slot, Chained, Stored, Homes, ContentsOf;
      var bucket := itr.bucket;
      if metadata[bucket].home && metadata[bucket].link == END {
        SingletonIsAlone(RackOf(Im(), hash), bucket);
        EraseUnlinked(bucket);
        return true;
      }
      var home := if itr.home.Some? then itr.home.value else if metadata[bucket].home then bucket else Home(buckets[bucket].key);
      if metadata[bucket].home { HomeOfHead(Im(), hash, bucket); }
      if metadata[bucket].link == END {
        var prev := FindPrevious(home, bucket);
        ghost var im := Im();
        UnlinkIsSound(im, hash, prev, bucket);
        metadata[prev] := Meta(metadata[prev].frag, metadata[prev].home, END);
        assert Im() == Unlink(im, prev, bucket);
        EraseUnlinked(bucket);
        return true;
      }
      advance := EraseInside(bucket, home);
    }

    /** The last key of a chain, after bucket `start`, and the one before it. */
    method FindLast(start: nat, home: nat) returns (prev: nat, last: nat)
      requires Valid() && start < metadata.Length == buckets.Length && metadata[start] != EMPTY && metadata[start].link != END
      requires home == Home(buckets[start].key)
      ensures Precedes(RackOf(Im(), hash), -1, prev, last) && metadata[last].link == END
      ensures last < buckets.Length && Homes(buckets[..], hash)[last] == home && last != start
    {
      ghost var t := RackOf(Im(), hash);
      hide Stored, Slot, Linked, Reaches;
      last := start;
      while true
        invariant Live(t, -1, last) && t.hs[last] == home && metadata[last].link != END && t.ds[last] >= t.ds[start]
        decreases END - t.ds[last]
      {
        LinkPoints(t, -1, last);
        prev := last;
        last := Slot(home, metadata[last].link, metadata.Length);
        LinkPoints(t, -1, last);
        if metadata[last].link == END { return; }
      }
    }

    /** The last key of the chain takes the place of the one in `bucket`. */
    method EraseInside(bucket: nat, home: nat) returns (advance: bool)
      requires Valid() && bucket < metadata.Length == buckets.Length && metadata[bucket] != EMPTY && metadata[bucket].link != END
      requires home == Home(buckets[bucket].key)
      modifies metadata, buckets, `spots, `keyCount
      ensures Valid() && Contents() == old(Contents()) - {old(buckets[bucket].key)}
      ensures metadata.Length == buckets.Length && Erased(old(Im()), Im(), bucket, advance)
    {
      hide HomeOf, HashFrag, IsPow2, Slot, Chained, Stored, Homes, ContentsOf, Erased;
      ghost var im := Im();
      var prev, last := FindLast(bucket, home);
      EraseInsideIsSound(im, hash, bucket, prev, last);
      assert metadata.Length != 1 && |disps| == metadata.Length && prev != last;
      EraseLastUpdates(im, bucket, prev, last);
      hide Sound, Precedes, RackOf, Live, EraseLast, Found;
      buckets[bucket] := buckets[last];
      metadata[bucket] := Meta(metadata[last].frag, metadata[bucket].home, metadata[bucket].link);
      metadata[prev] := Meta(metadata[prev].frag, metadata[prev].home, END);
      metadata[last] := EMPTY;
      keyCount := keyCount - 1;
      spots := (spots - {im.bs[bucket].key})[im.bs[last].key := bucket];
      assert Im() == EraseLast(im, bucket, prev, last);
      return last < bucket;
    }

    /** Clears `bucket`, whose key is no longer linked. */
    method EraseUnlinked(bucket: nat)
      requires Sound(Im(), hash, bucket, -1) && IsPow2(metadata.Length) && keyCount == |spots|
      requires bucket < metadata.Length == buckets.Length && metadata[bucket] != EMPTY
      requires metadata.Length == 1 ==> metadata[0] == EMPTY
      modifies metadata, `spots, `keyCount
      ensures Valid() && Contents() == old(Contents()) - {buckets[bucket].key} && metadata[bucket] == EMPTY
      ensures spots == old(spots) - {buckets[bucket].key}
    {
      hide HomeOf, HashFrag, IsPow2, Slot, Chained, Stored, Homes, ContentsOf, Sound;
      ghost var im := Im();
      ForgetIsSound(im, hash, bucket, bucket);
      ClearIsSound(Forget(im, bucket), hash, bucket);
      metadata[bucket] := EMPTY;
      keyCount := keyCount - 1;
      spots := spots - {buckets[bucket].key};
      assert Im() == Clear(Forget(im, bucket), bucket);
    }

    /** Erases a key; false if it is not there. */
    method Erase(key: K) returns (erased: bool)
      requires Valid()
      modifies metadata, buckets, `spots, `keyCount
      ensures Valid() && Contents() == old(Contents()) - {key}
      ensures erased <==> key in old(Contents())
    {
      hide HomeOf, HashFrag, IsPow2, Slot, Chained, ContentsOf, Erased;
      ContentKeys(Im(), hash, -1);
      var found := Get(key, -1);
      if found.None? { return false; }
      var _ := EraseItrRaw(Itr(found.value, Some(Home(key))));
      return true;
    }

    // ---------- scanning ----------

    /** A metadatum as a scan sees it: the one behind the last bucket is a stopper, and three zero ones
        follow that. */
    predicate Nonzero(p: nat)
      reads this, metadata
    {
      if p < metadata.Length then metadata[p] != EMPTY else p == metadata.Length
    }

    /** The first occupied bucket at or after `start`, or the end; looks at four buckets at a time. */
    method FastForward(start: nat) returns (p: nat)
      requires start <= metadata.Length
      ensures start <= p <= metadata.Length && Nonzero(p) && Gap(metadata[..], start - 1, p)
    {
      p := start;
      while !(Nonzero(p) || Nonzero(p + 1) || Nonzero(p + 2) || Nonzero(p + 3))
        invariant start <= p <= metadata.Length && forall q :: start <= q < p ==> !Nonzero(q)
        decreases metadata.Length - p
      {
        p := p + 4;
      }
      while !Nonzero(p)
        invariant start <= p <= metadata.Length && forall q :: start <= q < p ==> !Nonzero(q)
        decreases metadata.Length - p
      {
        p := p + 1;
      }
      forall r | start <= r < p && r < metadata.Length ensures metadata[r] == EMPTY { assert !Nonzero(r); }
    }

    method First() returns (p: nat)
      requires Valid()
      ensures p <= metadata.Length && Nonzero(p) && Gap(metadata[..], -1, p)
    {
      hide Chained, Stored;
      if keyCount == 0 {
        NoKeys();
        return metadata.Length;
      }
      p := FastForward(0);
    }

    lemma NoKeys()
      requires Valid() && keyCount == 0
      ensures metadata.Length > 0 && Gap(metadata[..], -1, metadata.Length)
    {
      hide Chained, HashFrag;
      assert spots == map[];
      forall q | 0 <= q < metadata.Length ensures metadata[q] == EMPTY {
        assert metadata[q] != EMPTY ==> Found(Im(), hash, q);
      }
    }

    method Next(p: nat) returns (q: nat)
      requires p < metadata.Length
      ensures p < q <= metadata.Length && Nonzero(q) && Gap(metadata[..], p, q)
    {
      q := FastForward(p + 1);
    }

    /** Erases the key of the iterator's bucket and moves on to a key not yet visited. */
    method EraseItr(itr: Itr) returns (p: nat)
      requires Valid() && itr.bucket < metadata.Length == buckets.Length && metadata[itr.bucket] != EMPTY
      requires itr.home.Some? ==> itr.home.value == Home(buckets[itr.bucket].key)
      modifies metadata, buckets, `spots, `keyCount
      ensures Valid() && Contents() == old(Contents()) - {old(buckets[itr.bucket].key)}
      ensures p <= metadata.Length == buckets.Length && Nonzero(p)
      ensures exists advance :: Erased(old(Im()), Im(), itr.bucket, advance)
                                && if advance then itr.bucket < p && Gap(metadata[..], itr.bucket, p) else p == itr.bucket
    {
      hide HomeOf, HashFrag, IsPow2, Slot, Chained, Stored, ContentsOf, Erased, Sound;
      var advance := EraseItrRaw(itr);
      if advance {
        p := Next(itr.bucket);
      } else {
        ErasedOccupied(old(Im()), Im(), itr.bucket);
        p := itr.bucket;
      }
    }
  }

  /** A key in its home bucket has that bucket as its home. */
  lemma HomeOfHead<K, V>(im: Image<K, V>, hash: K -> nat, b: nat)
    requires Sound(im, hash, -1, -1) && b < |im.ms| && im.ms[b] != EMPTY && im.ms[b].home
    ensures HomeOf(hash(im.bs[b].key), |im.bs|) == b
  {
    hide Slot, HomeOf, HashFrag, Linked;
    assert Placed(RackOf(im, hash), -1, b);
  }

  lemma SameProbes(a: seq<Meta>, b: seq<Meta>, h: nat)
    requires |a| == |b| > 0 && forall c :: 0 <= c < |a| ==> (a[c] == EMPTY <==> b[c] == EMPTY)
    ensures ProbesFull(a, h) <==> ProbesFull(b, h)
  {
    hide Slot;
  }

  lemma HeadOfMoved<K, V>(im0: Image<K, V>, im1: Image<K, V>, hash: K -> nat, bucket: nat)
    requires Sound(im0, hash, -1, -1) && bucket < |im0.ms| && im0.ms[bucket] != EMPTY && !im0.ms[bucket].home
    requires |im1.ms| == |im0.ms| && im1.bs == im0.bs && forall c :: 0 <= c < |im0.ms| ==> im1.ms[c].home == im0.ms[c].home
    requires forall c :: 0 <= c < |im0.ms| ==> (im1.ms[c] == EMPTY <==> im0.ms[c] == EMPTY)
    ensures im0.bs[bucket].key in im0.spots && im0.ms[bucket].frag == HashFrag(hash(im0.bs[bucket].key))
    ensures var home := HomeOf(hash(im0.bs[bucket].key), |im0.ms|); im1.ms[home].home && Live(RackOf(im1, hash), bucket, home)
  {
    hide Slot, HashFrag, HomeOf, Linked;
    assert Found(im0, hash, bucket);
    HeadIsHome(RackOf(im0, hash), -1, bucket);
  }

  lemma NothingStored<K, V>(im: Image<K, V>, hash: K -> nat)
    requires |im.ms| == |im.bs| == |im.ds| > 0 && im.spots == map[] && forall b :: 0 <= b < |im.ms| ==> im.ms[b] == EMPTY
    ensures Sound(im, hash, -1, -1) && ContentsOf(im) == map[]
  {
    hide Placed, Linked, Slot, HashFrag;
  }

  /** On the way to `goal`, the next key of the chain is still not beyond it. */
  lemma NextInChain(t: Rack, hole: int, c: nat, goal: nat)
    requires Chained(t, hole) && Live(t, hole, c) && Live(t, hole, goal) && t.hs[c] == t.hs[goal]
    requires c != goal && t.ds[c] <= t.ds[goal]
    ensures t.ds[c] < t.ms[c].link <= t.ds[goal] < END
    ensures var n := Slot(t.hs[c], t.ms[c].link, |t.ms|); 
            && Live(t, hole, n) && t.hs[n] == t.hs[c] && t.ds[n] == t.ms[c].link && (n != goal ==> t.ds[n] < t.ds[goal])
  {
    hide Slot;
    SameSpot(t, hole, c, goal);
    assert Linked(t, hole, c) && Reaches(t, hole, c, goal) && Points(t, hole, c) && Placed(t, hole, goal);
    SameSpot(t, hole, Slot(t.hs[c], t.ms[c].link, |t.ms|), goal);
  }

  lemma StoredAtHome<K, V>(im: Image<K, V>, hash: K -> nat, hole: int, key: K)
    requires Sound(im, hash, hole, -1)
    ensures key in im.spots && im.spots[key] != hole ==>
              Live(RackOf(im, hash), hole, im.spots[key]) && RackOf(im, hash).hs[im.spots[key]] == HomeOf(hash(key), |im.ms|)
  {
    hide Chained, HashFrag;
  }

  lemma AbsentWithoutHead<K, V>(im: Image<K, V>, hash: K -> nat, hole: int, key: K)
    requires Sound(im, hash, hole, -1) && !im.ms[HomeOf(hash(key), |im.ms|)].home
    ensures key in im.spots ==> im.spots[key] == hole
  {
    hide Slot, HomeOf, Linked;
    var t := RackOf(im, hash);
    if key in im.spots && im.spots[key] != hole {
      HeadIsHome(t, hole, im.spots[key]);
    }
  }

  lemma HeadIsHome(t: Rack, hole: int, b: nat)
    requires Chained(t, hole) && Live(t, hole, b)
    ensures t.hs[b] < |t.ms| && t.ms[t.hs[b]].home
  {
    hide Slot, Linked;
    assert Placed(t, hole, b);
    assert Placed(t, hole, t.hs[b]);
  }

  // ---------- erasing while scanning ----------

  /** A scan at bucket `p`: the keys not yet visited are those at or after `p`. */
  ghost predicate ScanAt<K, V>(im: Image<K, V>, p: nat, todo: set<K>) {
    && (forall k :: k in todo ==> k in im.spots)
    && forall k :: k in im.spots ==> (k in todo <==> im.spots[k] >= p)
  }

  lemma ScanStarts<K, V>(im: Image<K, V>, hash: K -> nat, p: nat)
    requires Sound(im, hash, -1, -1) && Gap(im.ms, -1, p)
    ensures ScanAt(im, p, im.spots.Keys) && ContentsOf(im).Keys == im.spots.Keys
  {
    hide Chained, HashFrag;
  }

  lemma ScanEnds<K, V>(im: Image<K, V>, hash: K -> nat, todo: set<K>)
    requires Sound(im, hash, -1, -1) && ScanAt(im, |im.ms|, todo)
    ensures todo == {}
  {
    hide Chained, HashFrag;
  }

  lemma VisitHere<K, V>(im: Image<K, V>, hash: K -> nat, p: nat, todo: set<K>)
    requires Sound(im, hash, -1, -1) && ScanAt(im, p, todo) && p < |im.ms| && im.ms[p] != EMPTY
    ensures im.bs[p].key in todo && im.bs[p].key in ContentsOf(im)
  {
    hide Chained, HashFrag;
    assert Found(im, hash, p);
  }

  lemma ScanMoves<K, V>(im: Image<K, V>, hash: K -> nat, p: nat, q: nat, todo: set<K>)
    requires Sound(im, hash, -1, -1) && ScanAt(im, p, todo) && p < q && p < |im.ms| && im.ms[p] != EMPTY && Gap(im.ms, p, q)
    ensures ScanAt(im, q, todo - {im.bs[p].key})
  {
    hide Chained, HashFrag;
    assert Found(im, hash, p);
  }

  lemma ScanErases<K, V>(im: Image<K, V>, to: Image<K, V>, hash: K -> nat, p: nat, q: nat, advance: bool, todo: set<K>)
    requires Sound(im, hash, -1, -1) && Sound(to, hash, -1, -1) && |im.ms| == |to.ms|
    requires ScanAt(im, p, todo) && p < |im.ms| && im.ms[p] != EMPTY && Erased(im, to, p, advance)
    requires if advance then p < q && Gap(to.ms, p, q) else p == q
    ensures ScanAt(to, q, todo - {im.bs[p].key})
  {
    assert Found(im, hash, p);
    assert to.ms[p] != EMPTY ==> Found(to, hash, p);
    SpotsOutsideGap(to, hash, p, q);
    hide Sound, Stored, Gap;
    var key := im.bs[p].key;
    forall k | k in to.spots ensures k in todo - {key} <==> to.spots[k] >= q {
      assert k in im.spots && k != key;
      assert to.spots[k] != p ==> to.spots[k] == im.spots[k];
    }
    forall k | k in todo - {key} ensures k in to.spots {}
  }

  lemma SpotsOutsideGap<K, V>(im: Image<K, V>, hash: K -> nat, p: nat, q: nat)
    requires Sound(im, hash, -1, -1) && Gap(im.ms, p, q)
    ensures forall k :: k in im.spots ==> im.spots[k] <= p || im.spots[k] >= q
    ensures p < |im.ms| && im.ms[p] == EMPTY ==> forall k :: k in im.spots ==> im.spots[k] != p
    ensures forall j, k :: j in im.spots && k in im.spots && im.spots[j] == im.spots[k] ==> j == k
  {
    hide Chained, HashFrag;
  }

  /** The pairs of `all` that are not both visited and doomed. */
  ghost function Survivors<K, V>(all: map<K, V>, visited: seq<K>, doomed: K -> bool): map<K, V> {
    map k | k in all && !(k in visited && doomed(k)) :: all[k]
  }

  lemma OneMore<K, V>(all: map<K, V>, visited: seq<K>, doomed: K -> bool, k: K)
    requires k in all
    ensures Survivors(all, visited + [k], doomed) == if doomed(k) then Survivors(all, visited, doomed) - {k} else Survivors(all, visited, doomed)
  {
  }

  /** The visited keys are distinct and, with those still to come, all keys. */
  ghost predicate Partition<K(!new), V>(visited: seq<K>, todo: set<K>, all: map<K, V>) {
    && (forall i, j :: 0 <= i < j < |visited| ==> visited[i] != visited[j])
    && (forall k :: k in todo ==> k !in visited)
    && forall k :: k in all <==> k in visited || k in todo
  }

  lemma PartitionMoves<K(!new), V>(visited: seq<K>, todo: set<K>, all: map<K, V>, k: K)
    requires Partition(visited, todo, all) && k in todo
    ensures k in all && Partition(visited + [k], todo - {k}, all)
  {
    forall x ensures x in all <==> x in visited + [k] || x in todo - {k} {
      assert x in visited + [k] <==> x in visited || x == k;
    }
  }

  /** Visits the key at the scan's position, erases it if it is doomed, and moves on. */
  method VisitOne<K(==, 0), V(0)>(t: Table<K, V>, p: nat, doomed: K -> bool, ghost todo: set<K>) returns (key: K, q: nat)
    requires t.Valid() && p < t.metadata.Length == t.buckets.Length && t.Nonzero(p) && ScanAt(t.Im(), p, todo)
    modifies t.metadata, t.buckets, t`spots, t`keyCount
    ensures key in todo && key in old(t.Contents())
    ensures t.Valid() && q <= t.metadata.Length == t.buckets.Length && t.Nonzero(q) && ScanAt(t.Im(), q, todo - {key})
    ensures t.Contents() == if doomed(key) then old(t.Contents()) - {key} else old(t.Contents())
  {
    hide Sound, ContentsOf, ScanAt, Erased, IsPow2, Gap;
    key := t.buckets[p].key;
    ghost var im := t.Im();
    VisitHere(im, t.hash, p, todo);
    if doomed(key) {
      q := t.EraseItr(Itr(p, None));
      ghost var advance :| Erased(im, t.Im(), p, advance) && if advance then p < q && Gap(t.metadata[..], p, q) else q == p;
      ScanErases(im, t.Im(), t.hash, p, q, advance, todo);
    } else {
      q := t.Next(p);
      ScanMoves(im, t.hash, p, q, todo);
    }
  }

  /** A first/next loop that erases the doomed keys on its way visits every key that was in the table
      at the start exactly once, and leaves exactly the others. */
  method VisitAndErase<K(==, !new, 0), V(0)>(t: Table<K, V>, doomed: K -> bool) returns (visited: seq<K>)
    requires t.Valid()
    modifies t.metadata, t.buckets, t`spots, t`keyCount
    ensures t.Valid() && forall k :: k in visited <==> k in old(t.Contents())
    ensures forall i, j :: 0 <= i < j < |visited| ==> visited[i] != visited[j]
    ensures t.Contents() == map k | k in old(t.Contents()) && !doomed(k) :: old(t.Contents())[k]
  {
    hide Sound, ContentsOf, ScanAt, Partition, Survivors, IsPow2, Gap;
    ghost var all := t.Contents();
    visited := [];
    t.LengthsAgree();
    var p: nat := t.First();
    ScanStarts(t.Im(), t.hash, p);
    ghost var todo := all.Keys;
    PartitionStarts(all);
    NoneErased(all, doomed);
    while p < t.metadata.Length
      invariant t.Valid() && p <= t.metadata.Length == t.buckets.Length && t.Nonzero(p)
      invariant ScanAt(t.Im(), p, todo) && Partition(visited, todo, all)
      invariant t.Contents() == Survivors(all, visited, doomed)
      decreases |todo|
    {
      var key, q := VisitOne(t, p, doomed, todo);
      PartitionMoves(visited, todo, all, key);
      OneMore(all, visited, doomed, key);
      p, visited, todo := q, visited + [key], todo - {key};
    }
    ScanEnds(t.Im(), t.hash, todo);
    AllVisited(visited, all, doomed);
  }

  lemma AllVisited<K(!new), V>(visited: seq<K>, all: map<K, V>, doomed: K -> bool)
    requires Partition(visited, {}, all)
    ensures (forall k :: k in visited <==> k in all) && (forall i, j :: 0 <= i < j < |visited| ==> visited[i] != visited[j])
    ensures Survivors(all, visited, doomed) == map k | k in all && !doomed(k) :: all[k]
  {
  }

  lemma PartitionStarts<K(!new), V>(all: map<K, V>)
    ensures Partition([], all.Keys, all)
  {
  }

  lemma NoneErased<K, V>(all: map<K, V>, doomed: K -> bool)
    ensures Survivors(all, [], doomed) == all
  {
  }

  // ---------- when an insert can lose a key ----------

  /** Below a load factor of one some bucket is empty. */
  lemma SomeEmpty<K, V>(im: Image<K, V>, hash: K -> nat) returns (e: nat)
    requires Sound(im, hash, -1, -1) && |im.spots| < |im.ms|
    ensures e < |im.ms| && im.ms[e] == EMPTY
  {
    hide Chained, HashFrag;
    e := 0;
    if forall b: nat :: b < |im.ms| ==> im.ms[b] != EMPTY {
      var keys := seq(|im.bs|, b requires 0 <= b < |im.bs| => im.bs[b].key);
      forall b | 0 <= b < |im.ms| ensures keys[b] in im.spots && im.spots[keys[b]] == b { assert Found(im, hash, b); }
      ManyKeys(keys, im.spots, |im.ms|);
    } else {
      e :| e < |im.ms| && im.ms[e] == EMPTY;
    }
  }

  /** With a load factor of at most one, an insert into a table of up to 1024 buckets is refused only
      because the table is full; so it never takes a key out of its chain. */
  lemma SmallTablesNeverStick<K(0), V(0)>(t: Table<K, V>, key: K)
    requires t.Valid() && t.Small() && t.metadata.Length == t.buckets.Length > 0
    ensures !t.Stuck(key) && (t.Refuses(key) ==> t.TooFull())
  {
    hide Chained, Stored, Slot, HomeOf, HashFrag, ProbesFull, IsPow2;
    if !t.TooFull() {
      LoadOfOne(t.keyCount, t.BucketCount(), t.maxLoad);
      var e := SomeEmpty(t.Im(), t.hash);
      var h := t.Home(key);
      if t.metadata[h] != EMPTY {
        EmptyIsProbed(t.metadata[..], h, e);
        assert !t.metadata[h].home ==> !ProbesFull(t.metadata[..], t.Home(t.buckets[h].key)) by {
          OccupantsHome(t.Im(), t.hash, h);
          EmptyIsProbed(t.metadata[..], t.Home(t.buckets[h].key), e);
        }
      }
    }
  }

  lemma LoadOfOne(keys: nat, buckets: nat, load: real)
    requires load <= 1.0 && (keys + 1) as real <= buckets as real * load
    ensures keys < buckets
  {
    assert buckets as real * load <= buckets as real;
  }

  lemma OccupantsHome<K, V>(im: Image<K, V>, hash: K -> nat, b: nat)
    requires Sound(im, hash, -1, -1) && b < |im.ms| && im.ms[b] != EMPTY
    ensures im.ms[HomeOf(hash(im.bs[b].key), |im.ms|)] != EMPTY
  {
    hide Slot, HomeOf, HashFrag, Linked;
    assert Placed(RackOf(im, hash), -1, b);
  }

  const FULL_KEYS: set<nat> := {0, 2, 3, 4, 5, 6, 7, 8}

  /** Eight full buckets, keys hashed to themselves: key 8 sits in bucket 1, the home of key 1. */
  ghost function FullTable(): (im: Image<nat, nat>)
    ensures |im.ms| == |im.bs| == |im.ds| == 8
  {
    Image(FullRack().ms, seq(8, b requires 0 <= b < 8 => Bucket(if b == 1 then 8 else b, 0)), FullRack().ds,
          map k: nat | k in FULL_KEYS :: if k == 8 then 1 else k)
  }

  function Same(k: nat): nat { k }

  ghost function FullRack(): (t: Rack)
    ensures Sized(t) && |t.ms| == 8
    ensures forall b: nat :: b < 8 ==> t.ms[b] == Meta(0, b != 1, if b == 0 then 1 else END)
    ensures forall b: nat :: b < 8 ==> t.hs[b] == (if b == 1 then 0 else b) && t.ds[b] == if b == 1 then 1 else 0
  {
    Rack(seq(8, b => Meta(0, b != 1, if b == 0 then 1 else END)),
         seq<nat>(8, b requires 0 <= b < 8 => if b == 1 then 0 else b), seq(8, b => if b == 1 then 1 else 0))
  }

  lemma FullRackIsChained()
    ensures Chained(FullRack(), -1)
  {
    hide FullRack;
    var t := FullRack();
    assert Slot(0, 1, 8) == 1;
    forall b: nat | b < 8 ensures Slot(b, 0, 8) == b { SlotZero(b, 8); }
    hide Slot;
    forall b: nat | Live(t, -1, b) ensures Placed(t, -1, b) && Linked(t, -1, b) {
      assert Placed(t, -1, b) && Points(t, -1, b);
    }
  }

  lemma SmallFrag(k: nat)
    requires k < 16
    ensures HashFrag(k) == 0
  {
  }

  lemma FullTableIsStored()
    ensures Stored(FullTable(), Same, -1)
  {
    hide FullRack, HashFrag;
    var im := FullTable();
    forall b: nat | b < 8 ensures Found(im, Same, b) { SmallFrag(im.bs[b].key); }
  }

  lemma FullTableHomes()
    ensures RackOf(FullTable(), Same) == FullRack()
  {
    hide FullRack;
    var hs := Homes(FullTable().bs, Same);
    forall b: nat | b < 8 ensures hs[b] == FullRack().hs[b] {}
    assert hs == FullRack().hs;
  }

  lemma FullTableSize()
    ensures |FullTable().spots| == 8
  {
    hide FullRack;
    var spots := FullTable().spots;
    assert spots.Keys == FULL_KEYS && |spots.Keys| == |spots|;
  }

  lemma FullTableProbes()
    ensures Sound(FullTable(), Same, -1, -1) && 1 !in FullTable().spots && HomeOf(1, 8) == 1
    ensures !FullTable().ms[1].home && FullTable().bs[1].key == 8 && ProbesFull(FullTable().ms, HomeOf(8, 8))
  {
    FullRackIsChained();
    FullTableHomes();
    FullTableIsStored();
    hide Chained, Stored, Homes, Slot, RackOf, FullRack;
    var ms := FullTable().ms;
    forall d: nat | 1 <= d < END ensures ms[Slot(HomeOf(8, 8), d, |ms|)] != EMPTY {}
  }

  /** With a load factor of two an insert can be stuck, though the load factor allows it: key 1 of the full
      table needs the bucket of key 8, and no probe of key 8 finds an empty bucket. */
  lemma AFullTableIsStuck(t: Table<nat, nat>)
    requires t.Im() == FullTable() && t.hash == Same && t.maxLoad == 2.0 && t.keyCount == 8
    ensures t.Valid() && 1 !in t.spots && t.metadata.Length == t.buckets.Length == 8
    ensures !t.TooFull() && t.Stuck(1) && t.Refuses(1)
  {
    FullTableProbes();
    FullTableSize();
    hide FullTable, Sound, ProbesFull;
    assert IsPow2(8) && IsPow2(4) && IsPow2(2);
    assert t.metadata[..] == t.Im().ms && t.buckets[..] == t.Im().bs;
    assert |t.metadata[..]| == 8 && |t.buckets[..]| == 8;
    assert t.metadata[1] == t.Im().ms[1] && t.buckets[1] == t.Im().bs[1];
    assert t.Home(1) == 1 && t.Home(8) == HomeOf(8, 8);
  }
}
