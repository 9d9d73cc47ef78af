/** The khashl hash set: linear probing, deletion by shifting back, and rehashing in place. */
module Khashl {
  import opened Counting
  import opened KhashlSlots
  import opened Ring

  function MaxCount(capacity: nat): nat { capacity / 2 + capacity / 4 }

  /** Three quarters of the slots, whose number is a multiple of four. */
  lemma MaxCountMeans(q: nat)
    ensures MaxCount(4 * q) == 3 * q
  {
    Remainder(2 * q, 0, 2);
    Remainder(q, 0, 4);
  }

  /** The bucket count for a requested one: at least four, the next power of two, as its logarithm. */
  function BitsFor(requested: nat, b: nat := 2): (bits: nat)
    requires b >= 2 && (b > 2 ==> Pow2(b - 1) < requested)
    ensures bits >= 2 && Pow2(bits) >= requested && (bits > 2 ==> Pow2(bits - 1) < requested)
    decreases requested - Pow2(b)
  {
    if Pow2(b) >= requested then b else BitsFor(requested, b + 1)
  }

  lemma {:induction false} Pow2Grows(a: nat, b: nat)
    requires a <= b
    ensures Pow2(a) <= Pow2(b)
    decreases b
  {
    if a < b { Pow2Grows(a, b - 1); }
  }

  /** The conditions on `BitsFor` have one solution. */
  lemma BitsUnique(requested: nat, b: nat)
    requires b >= 2 && Pow2(b) >= requested && (b > 2 ==> Pow2(b - 1) < requested)
    ensures b == BitsFor(requested)
  {
    var c := BitsFor(requested);
    if b < c { Pow2Grows(b, c - 1); }
    if c < b { Pow2Grows(c, b - 1); }
  }

  lemma {:induction false} PowersApart(r: nat, j: nat)
    requires Pow2(j) <= r < 2 * Pow2(j)
    ensures IsPow2(r) <==> r == Pow2(j)
    decreases j
  {
    if j > 0 && r % 2 == 0 { PowersApart(r / 2, j - 1); }
  }

  /** The logarithm loop of `resize`. */
  method RoundUp(requested: nat) returns (bits: nat)
    ensures bits == BitsFor(requested)
  {
    var j, x := 0, requested;
    while x / 2 != 0
      invariant requested > 0 ==> x >= 1 && Pow2(j) * x <= requested < Pow2(j) * (x + 1)
      invariant requested == 0 ==> x == 0 && j == 0
      decreases x
    {
      Halving(Pow2(j), x, requested);
      j, x := j + 1, x / 2;
    }
    if requested > 0 { PowersApart(requested, j); }
    if requested != 0 && !IsPow2(requested) { j := j + 1; }
    bits := if j > 2 then j else 2;
    if j <= 2 { Pow2Grows(j, 2); }
    BitsUnique(requested, bits);
  }

  lemma Halving(p: nat, x: nat, r: nat)
    requires p * x <= r < p * (x + 1)
    ensures (2 * p) * (x / 2) <= r < (2 * p) * (x / 2 + 1)
  {
    var h := x / 2;
    assert x == 2 * h || x == 2 * h + 1;
    assert (2 * p) * h == p * (2 * h) && (2 * p) * (h + 1) == p * (2 * h + 2);
  }

  class Table<K(==, 0)> {
    const hash: K -> nat
    var keys: array<K>
    var used: array<bool>
    var bits: nat
    var count: nat
    ghost var spots: map<K, nat>

    ghost function Im(): Slots<K>
      reads this, keys, used
    {
      Slots(keys[..], used[..], spots)
    }

    ghost predicate Valid()
      reads this, keys, used
    {
      && (keys as object) != used && count == |spots| && count <= MaxCount(keys.Length)
      && if keys.Length == 0 then used.Length == 0 && bits == 0 && spots == map[]
         else 2 <= bits && Sound(Im(), hash, bits)
    }

    ghost function Keys(): set<K>
      reads this
    {
      spots.Keys
    }

    constructor (hash: K -> nat)
      ensures Valid() && Keys() == {} && this.hash == hash && fresh(keys) && fresh(used)
    {
      this.hash := hash;
      keys := new K[0];
      used := new bool[0];
      bits, count, spots := 0, 0, map[];
    }

    // ---------- looking up ----------

    /** The slot of a key, or the number of slots if it is not there. */
    method Get(key: K) returns (i: nat)
      requires Valid()
      ensures i == if key in spots then spots[key] else keys.Length
    {
      if keys.Length == 0 { return 0; }
      var last := HashToSlot(hash(key), bits);
      i := last;
      hide HashToSlot, Probed, Pow2;
      while used[i] && keys[i] != key
        invariant i < keys.Length
        invariant forall y: nat :: y < keys.Length && OnPath(last, y, i, keys.Length) ==> used[y] && keys[y] != key
        decreases keys.Length - Dist(last, i, keys.Length)
      {
        ProbeOn(last, i, keys.Length);
        i := NextSlot(i, keys.Length);
        if i == last { return keys.Length; }
      }
      if !used[i] {
        NotPassed(Im(), hash, bits, key, i);
        return keys.Length;
      }
    }

    // ---------- rehashing ----------

    ghost function Half(moved: array<bool>): Rehash<K>
      reads this, keys, used, moved
    {
      Rehash(keys[..], used[..], moved[..], spots)
    }

    /** The first slot from `home` on that holds no moved key. */
    method FindFree(moved: array<bool>, home: nat, ghost newBits: nat) returns (i: nat)
      requires Rehashing(Half(moved), hash, newBits) && |spots| < moved.Length && home < moved.Length
      ensures i < moved.Length && !moved[i] && PathMarked(moved[..], home, i)
    {
      ghost var e: nat;
      hide HashToSlot, Pow2;
      assert forall x: nat :: x < moved.Length && moved[x] ==> Marked(moved[..], x);
      e := SomeFree(keys[..], moved[..], spots);
      i := home;
      while moved[i]
        invariant i < moved.Length && PathMarked(moved[..], home, i)
        decreases Dist(i, e, moved.Length)
      {
        PathGrows(home, i, e, moved.Length);
        i := NextSlot(i, moved.Length);
      }
    }

    /** Three arrays in play, none of which is another. */
    ghost predicate Apart(moved: array<bool>)
      reads this
    {
      moved != used && (keys as object) != used && (keys as object) != moved
    }

    /** Puts the key in hand into slot `i`, whose own key is next in hand. */
    method Swap(key: K, i: nat, moved: array<bool>, ghost newBits: nat) returns (kicked: K)
      requires Rehashing(Half(moved), hash, newBits) && key !in spots && Apart(moved)
      requires i < moved.Length && !moved[i] && i < used.Length && used[i] && newBits <= 32 && moved.Length == Pow2(newBits)
      requires PathMarked(moved[..], HashToSlot(hash(key), newBits), i)
      modifies keys, used, moved, `spots
      ensures Rehashing(Half(moved), hash, newBits) && kicked !in spots && spots.Keys + {kicked} == old(spots.Keys) + {key}
      ensures |spots| == old(|spots|) && used[..] == old(used[..])[i := false]
    {
      ghost var r := Half(moved);
      TakeUpKeeps(r, hash, newBits, i);
      PutDownKeeps(TakeUp(r, i), hash, newBits, key, i);
      assert keys.Length >= moved.Length;
      hide Rehashing, HashToSlot, Pow2, PathMarked;
      kicked := keys[i];
      keys[i] := key;
      moved[i] := true;
      used[i] := false;
      spots := (spots - {kicked})[key := i];
      assert Half(moved) == PutDown(TakeUp(r, i), key, i);
    }

    /** Puts the key in hand into slot `i`, where there is no other. */
    method Drop(key: K, i: nat, moved: array<bool>, ghost newBits: nat)
      requires Rehashing(Half(moved), hash, newBits) && key !in spots && Apart(moved)
      requires i < moved.Length && !moved[i] && !(i < used.Length && used[i]) && newBits <= 32 && moved.Length == Pow2(newBits)
      requires PathMarked(moved[..], HashToSlot(hash(key), newBits), i)
      modifies keys, moved, `spots
      ensures Rehashing(Half(moved), hash, newBits) && spots.Keys == old(spots.Keys) + {key}
    {
      ghost var r := Half(moved);
      PutDownKeeps(r, hash, newBits, key, i);
      assert keys.Length >= moved.Length;
      hide Rehashing, HashToSlot, Pow2, PathMarked;
      keys[i] := key;
      moved[i] := true;
      spots := spots[key := i];
      assert Half(moved) == PutDown(r, key, i);
    }

    /** Puts a key into its new place, and then the key that was there, until a place is free. */
    method KickOut(inHand: K, moved: array<bool>, newBits: nat)
      requires Rehashing(Half(moved), hash, newBits) && inHand !in spots && |spots| < moved.Length && Apart(moved)
      modifies keys, used, moved, `spots
      ensures Rehashing(Half(moved), hash, newBits) && spots.Keys == old(spots.Keys) + {inHand}
      ensures forall x :: 0 <= x < used.Length && used[x] ==> old(used[x])
    {
      assert newBits <= 32 && moved.Length == Pow2(newBits);
      hide HashToSlot, Pow2, Rehashing, PathMarked;
      var key := inHand;
      ghost var left := set x | 0 <= x < used.Length && used[x];
      while true
        invariant Rehashing(Half(moved), hash, newBits) && key !in spots && spots.Keys + {key} == old(spots.Keys) + {inHand}
        invariant |spots| == old(|spots|)
        invariant forall x :: x in left <==> 0 <= x < used.Length && used[x]
        invariant forall x :: 0 <= x < used.Length && used[x] ==> old(used[x])
        decreases |left|
      {
        var i := FindFree(moved, HashToSlot(hash(key), newBits), newBits);
        if i < used.Length && used[i] {
          key := Swap(key, i, moved, newBits);
          left := left - {i};
        } else {
          Drop(key, i, moved, newBits);
          return;
        }
      }
    }

    /** Takes up the key of slot `j`. */
    method TakeFrom(j: nat, moved: array<bool>, ghost newBits: nat) returns (key: K)
      requires Rehashing(Half(moved), hash, newBits) && Apart(moved) && j < used.Length && used[j]
      modifies used, `spots
      ensures Rehashing(Half(moved), hash, newBits) && key !in spots && spots.Keys + {key} == old(spots.Keys)
      ensures used[..] == old(used[..])[j := false] && |spots| == old(|spots|) - 1
    {
      ghost var r := Half(moved);
      TakeUpKeeps(r, hash, newBits, j);
      assert j < keys.Length;
      hide Rehashing;
      key := keys[j];
      used[j] := false;
      spots := spots - {key};
      assert Half(moved) == TakeUp(r, j);
    }

    /** Moves every key to its place for the new size, within the same array. */
    method MoveAll(moved: array<bool>, newBits: nat)
      requires Rehashing(Half(moved), hash, newBits) && Apart(moved) && |spots| <= moved.Length
      modifies keys, used, moved, `spots
      ensures Rehashing(Half(moved), hash, newBits) && spots.Keys == old(spots.Keys)
      ensures forall x :: 0 <= x < used.Length ==> !used[x]
    {
      hide Rehashing;
      for j := 0 to used.Length
        invariant Rehashing(Half(moved), hash, newBits) && spots.Keys == old(spots.Keys)
        invariant forall x :: 0 <= x < j ==> !used[x]
      {
        SizeOfKeys(spots, old(spots));
        if used[j] {
          var key := TakeFrom(j, moved, newBits);
          KickOut(key, moved, newBits);
        }
      }
    }

    /** Shrinking moves the keys first and then asks for the smaller array: when that is refused, they
        are lost. */
    predicate LosesKeys(requested: nat, usedOk: bool, keysOk: bool)
      reads this
    {
      && 0 < count <= MaxCount(Pow2(BitsFor(requested))) && usedOk && !keysOk
      && keys.Length > Pow2(BitsFor(requested))
    }

    /** An array of `n` keys that starts with the keys there are, as many as fit. */
    method Reallocated(n: nat) returns (more: array<K>)
      ensures fresh(more) && more.Length == n
      ensures n >= keys.Length ==> more[..keys.Length] == keys[..]
      ensures n <= keys.Length ==> more[..] == keys[..n]
    {
      more := new K[n];
      forall x | 0 <= x < keys.Length && x < n { more[x] := keys[x]; }
    }

    /** The rehash proper, in an array that is large enough. */
    method Rehashed(newBits: nat) returns (moved: array<bool>)
      requires newBits <= 32 && used.Length <= keys.Length && Pow2(newBits) <= keys.Length && (keys as object) != used
      requires Stored(Slots(keys[..used.Length], used[..], spots), -1) && |spots| <= Pow2(newBits)
      modifies keys, used, `spots
      ensures fresh(moved) && moved.Length == Pow2(newBits) <= keys.Length && spots.Keys == old(spots.Keys)
      ensures Sound(Slots(keys[..moved.Length], moved[..], spots), hash, newBits)
      ensures forall x :: 0 <= x < used.Length ==> !used[x]
    {
      hide HashToSlot, Pow2, Probed, Stored, Rehashing;
      moved := new bool[Pow2(newBits)](_ => false);
      RehashStarts(Slots(keys[..used.Length], used[..], spots), keys[..], moved[..], hash, newBits);
      MoveAll(moved, newBits);
      RehashEnds(Half(moved), keys[..moved.Length], hash, newBits);
    }

    /** Changes the number of slots. `usedOk` and `keysOk` tell whether the two allocations succeed. */
    method Resize(requested: nat, usedOk: bool, keysOk: bool) returns (r: int)
      requires Valid() && requested <= 0x8000_0000
      modifies this, keys, used
      ensures r == 0 || r == -1
      ensures (Valid() && Keys() == old(Keys())) <==> !old(LosesKeys(requested, usedOk, keysOk))
      ensures old(LosesKeys(requested, usedOk, keysOk)) ==> r == -1 && (forall x :: 0 <= x < used.Length ==> !used[x]) && count == old(count)
      ensures r == 0 && old(count <= MaxCount(Pow2(BitsFor(requested)))) ==> keys.Length == Pow2(BitsFor(requested))
      ensures r == -1 <==> old(count) <= MaxCount(Pow2(BitsFor(requested))) && (!usedOk || (!keysOk && old(keys.Length) != Pow2(BitsFor(requested))))
      ensures keys == old(keys) || fresh(keys)
      ensures used == old(used) || fresh(used)
    {
      hide HashToSlot, Pow2, Probed, Stored, BitsFor;
      var newBits := RoundUp(requested);
      var n := Pow2(newBits);
      if count > MaxCount(n) { return 0; }
      if !usedOk { return -1; }
      BitsSmall(requested);
      if keys.Length < n {
        if !keysOk { return -1; }
        StoredAlways();
        var more := Reallocated(n);
        keys := more;
      } else {
        StoredAlways();
        assert keys[..used.Length] == keys[..];
      }
      ghost var before := spots;
      var moved := Rehashed(newBits);
      if keys.Length > n {
        if !keysOk {
          AllUnused(before);
          return -1;
        }
        keys := Reallocated(n);
      } else {
        assert keys[..n] == keys[..];
      }
      used, bits := moved, newBits;
      SizeOfKeys(spots, before);
      assert Im() == Slots(keys[..], moved[..], spots);
      return 0;
    }

    /** With every slot unused the table is valid exactly if there were no keys. */
    lemma AllUnused(before: map<K, nat>)
      requires (keys as object) != used && keys.Length == used.Length > 0 && Fits(Im(), bits) && bits >= 2
      requires (forall x :: 0 <= x < used.Length ==> !used[x]) && spots.Keys == before.Keys && count == |before|
      ensures Valid() <==> count == 0
    {
      NothingUsed(Im(), hash, bits);
      SizeOfKeys(spots, before);
      hide Sound;
    }

    lemma StoredAlways()
      requires Valid()
      ensures used.Length == keys.Length && Stored(Im(), -1)
    {
      hide HashToSlot, Pow2, Probed;
    }

    // ---------- adding and deleting ----------

    /** The slot of a key, or the first free slot of its probe. */
    method Probe(key: K) returns (i: nat)
      requires Valid() && keys.Length > 0 && count < MaxCount(keys.Length)
      ensures i < keys.Length == used.Length
      ensures if key in spots then spots[key] == i else !used[i]
      ensures key !in spots ==> Sound(Slots(keys[..][i := key], used[..][i := true], spots[key := i]), hash, bits)
    {
      hide HashToSlot, Probed, Pow2;
      ghost var e := SomeFree(keys[..], used[..], spots);
      var last := HashToSlot(hash(key), bits);
      i := last;
      while used[i] && keys[i] != key
        invariant i < keys.Length
        invariant forall y: nat :: y < keys.Length && OnPath(last, y, i, keys.Length) ==> used[y] && keys[y] != key
        decreases Dist(i, e, keys.Length)
      {
        PathGrows(last, i, e, keys.Length);
        ProbeOn(last, i, keys.Length);
        i := NextSlot(i, keys.Length);
        if i == last { break; }
      }
      if !used[i] {
        NotPassed(Im(), hash, bits, key, i);
        PutIsSound(Im(), hash, bits, key, i);
      }
    }

    /** Puts a key in where there is room: `absent` tells whether it is new. */
    method PutIn(key: K) returns (i: nat, absent: int)
      requires Valid() && keys.Length > 0 && count < MaxCount(keys.Length)
      modifies this, keys, used
      ensures Valid() && key in spots && spots[key] == i && Keys() == old(Keys()) + {key}
      ensures absent == (if key in old(spots) then 0 else 1) && keys == old(keys) && used == old(used)
    {
      hide Sound;
      i := Probe(key);
      assert key in spots ==> used[i] by { StoredAlways(); }
      if !used[i] {
        AddNew(key, i);
        absent := 1;
      } else {
        absent := 0;
      }
    }

    method AddNew(key: K, i: nat)
      requires Valid() && i < keys.Length && count < MaxCount(keys.Length) && key !in spots && i < used.Length
      requires Sound(Slots(keys[..][i := key], used[..][i := true], spots[key := i]), hash, bits)
      modifies this, keys, used
      ensures Valid() && key in spots && spots[key] == i && Keys() == old(Keys()) + {key} && keys == old(keys) && used == old(used)
    {
      hide HashToSlot, Probed, Stored, Pow2, Sound;
      ghost var im := Im();
      keys[i] := key;
      used[i] := true;
      count := count + 1;
      spots := spots[key := i];
      assert Im() == Slots(im.keys[i := key], im.used[i := true], spots);
    }

    /** Puts a key in, growing first if the table is full. */
    method Put(key: K, usedOk: bool, keysOk: bool) returns (i: nat, absent: int)
      requires Valid() && keys.Length < 0x8000_0000
      modifies this, keys, used
      ensures Valid() && absent in {-1, 0, 1}
      ensures absent == -1 <==> old(count == MaxCount(keys.Length)) && (!usedOk || !keysOk)
      ensures absent == -1 ==> Keys() == old(Keys()) && i == keys.Length
      ensures old(count < MaxCount(keys.Length)) ==> keys == old(keys) && used == old(used)
      ensures absent >= 0 ==> Keys() == old(Keys()) + {key} && key in spots && spots[key] == i
      ensures absent >= 0 ==> absent == if key in old(Keys()) then 0 else 1
    {
      hide HashToSlot, Probed, Pow2, Stored, BitsFor;
      var n := keys.Length;
      if count >= MaxCount(n) {
        RoomAfterGrowing(n, bits);
        ghost var before := spots;
        var r := Resize(n + 1, usedOk, keysOk);
        if r < 0 { return keys.Length, -1; }
        SizeOfKeys(spots, before);
      }
      i, absent := PutIn(key);
    }

    /** One slot of the scan: the key of slot `j` moves into the hole if its probe passes the hole. */
    method ShiftOne(i: nat, j: nat) returns (hole: nat)
      requires Fits(Im(), bits) && Stored(Im(), i) && Vacating(Im(), hash, bits, i, j) && i != j && j < used.Length && used[j]
      requires (keys as object) != used && NextSlot(j, used.Length) != i && used.Length > 1
      modifies keys, `spots
      ensures hole in {i, j} && Fits(Im(), bits) && Stored(Im(), hole)
      ensures Vacating(Im(), hash, bits, hole, NextSlot(j, used.Length)) && spots.Keys == old(spots.Keys)
    {
      assert i < used.Length && used[i];
      hide HashToSlot, Pow2, Vacating, Stored;
      ghost var im := Im();
      var k := HashToSlot(hash(keys[j]), bits);
      MovableMeansPassing(i, j, k, used.Length);
      if Movable(i, j, k) {
        MovedBack(im, i, j);
        MoveVacating(im, hash, bits, i, j);
        ghost var to := Slots(im.keys[i := im.keys[j]], im.used, im.spots[im.keys[j] := i]);
        hide Fits;
        keys[i] := keys[j];
        spots := spots[keys[j] := i];
        hole := j;
        assert Im() == to;
      } else {
        KeepVacating(im, hash, bits, i, j);
        hole := i;
      }
    }

    /** Moves the hole in `slot` forward until no probe needs it. */
    method ShiftBack(slot: nat, ghost e: nat) returns (i: nat)
      requires Fits(Im(), bits) && slot < used.Length && Stored(Im(), slot) && Vacating(Im(), hash, bits, slot, NextSlot(slot, used.Length))
      requires (keys as object) != used && e < used.Length && !used[e] && used.Length > 1
      modifies keys, `spots
      ensures i < used.Length == keys.Length && spots.Keys == old(spots.Keys)
      ensures Sound(Slots(keys[..], used[..][i := false], spots), hash, bits)
    {
      assert used[slot];
      i := slot;
      var j: nat := slot;
      hide HashToSlot, Pow2, Vacating, Stored, Sound;
      while true
        invariant i < used.Length && j < used.Length && used[i] && used[j]
        invariant Fits(Im(), bits) && Stored(Im(), i) && Vacating(Im(), hash, bits, i, NextSlot(j, used.Length))
        invariant Dist(i, j, used.Length) < Dist(i, e, used.Length) && spots.Keys == old(spots.Keys)
        decreases Dist(j, e, used.Length)
      {
        BeforeFree(i, j, e, used.Length);
        j := NextSlot(j, used.Length);
        if j == i || !used[j] { break; }
        BeforeFree(i, j, e, used.Length);
        i := ShiftOne(i, j);
      }
      DoneVacating(Im(), hash, bits, i, j);
    }

    /** Deletes the key in slot `slot`, and moves back the keys whose probe would stop at the hole. */
    method Del(slot: nat) returns (r: int)
      requires Valid() && (keys.Length > 0 ==> slot < keys.Length == used.Length && used[slot])
      modifies this, keys, used
      ensures Valid() && r == if old(keys.Length) == 0 then 0 else 1
      ensures Keys() == if r == 0 then old(Keys()) else old(Keys()) - {old(keys[slot])}
    {
      if keys.Length == 0 { return 0; }
      ghost var im := Im();
      ghost var e := Spare(slot);
      var i := Vacate(slot, e);
      used[i] := false;
      count := count - 1;
      hide Sound, HashToSlot, Pow2;
      assert Im() == Slots(keys[..], im.used[i := false], spots);
      RemoveKey(im.spots, im.keys[slot]);
      SizeOfKeys(spots, im.spots - {im.keys[slot]});
      return 1;
    }

    /** A free slot, and the key of a used one. */
    lemma Spare(slot: nat) returns (e: nat)
      requires Valid() && keys.Length > 0 && slot < keys.Length == used.Length && used[slot]
      ensures e < used.Length && !used[e] && keys[slot] in spots && used.Length > 1
    {
      hide HashToSlot, Probed, Pow2;
      e := SomeFree(keys[..], used[..], spots);
    }

    /** Takes the key of `slot` out; what is left to do is to free the slot returned. */
    method Vacate(slot: nat, ghost e: nat) returns (i: nat)
      requires Valid() && slot < keys.Length == used.Length && used[slot] && e < used.Length && !used[e]
      modifies keys, `spots
      ensures i < used.Length && Sound(Slots(keys[..], used[..][i := false], spots), hash, bits)
      ensures spots.Keys == old(spots.Keys) - {old(keys[slot])}
    {
      hide HashToSlot, Probed, Pow2, Vacating;
      ghost var im := Im();
      StartVacating(im, hash, bits, slot);
      hide Sound, Stored;
      spots := spots - {keys[slot]};
      assert Im() == Slots(im.keys, im.used, im.spots - {im.keys[slot]});
      SameRing(im, Im(), hash, bits, slot);
      i := ShiftBack(slot, e);
    }

    method Clear()
      requires Valid()
      modifies this, used
      ensures Valid() && Keys() == {}
    {
      hide HashToSlot, Pow2;
      forall x | 0 <= x < used.Length { used[x] := false; }
      count, spots := 0, map[];
    }
  }

  lemma SameRing<K>(s: Slots<K>, t: Slots<K>, hash: K -> nat, bits: nat, i: nat)
    requires Fits(s, bits) && t.keys == s.keys && t.used == s.used && i < |s.used| && Vacating(s, hash, bits, i, NextSlot(i, |s.used|))
    ensures Vacating(t, hash, bits, i, NextSlot(i, |s.used|))
  {
    hide HashToSlot;
    forall x: nat | x < |t.used| && t.used[x] && x != i
      ensures Reachable(t, hash, bits, x, if Dist(i, x, |t.used|) < Dist(i, NextSlot(i, |t.used|), |t.used|) then i else -1)
    {
      assert Reachable(s, hash, bits, x, if Dist(i, x, |t.used|) < Dist(i, NextSlot(i, |t.used|), |t.used|) then i else -1);
    }
  }

  lemma RoomAfterGrowing(n: nat, bits: nat)
    requires n == 0 || (bits >= 2 && n == Pow2(bits))
    ensures Pow2(BitsFor(n + 1)) > n && MaxCount(n) < MaxCount(Pow2(BitsFor(n + 1)))
  {
    var b := BitsFor(n + 1);
    Pow2Grows(2, b);
    if n > 0 {
      Pow2Grows(2, bits);
      if b <= bits { Pow2Grows(b, bits); }
      Pow2Grows(bits + 1, b);
    }
  }

  lemma BitsSmall(requested: nat)
    requires requested <= 0x8000_0000
    ensures BitsFor(requested) <= 31
  {
    ThirtyTwoBits();
    if BitsFor(requested) > 31 { Pow2Grows(31, BitsFor(requested) - 1); }
  }

  method EightSlots() returns (t: Table<nat>)
    ensures fresh(t) && fresh(t.keys) && fresh(t.used) && t.Valid()
    ensures t.keys.Length == 8 && t.Keys() == {}
  {
    t := new Table((k: nat) => k);
    assert Pow2(3) == 8;
    BitsUnique(8, 3);
    hide HashToSlot, Sound, Pow2, BitsFor, Table.Valid;
    var r := t.Resize(8, true, true);
  }

  /** A table of eight slots with one key. */
  method OneKey() returns (t: Table<nat>)
    ensures fresh(t) && fresh(t.keys) && fresh(t.used) && t.Valid()
    ensures t.keys.Length == 8 && t.Keys() == {5} && t.count == 1
  {
    hide HashToSlot, Sound;
    t := EightSlots();
    assert t.count == 0 by { assert |t.spots.Keys| == |t.spots|; }
    var i, absent := t.Put(5, true, true);
    assert |t.spots.Keys| == |t.spots|;
  }

  /** A shrink that is refused: the key is gone, though there was room for it. */
  method RefusedShrink() returns (t: Table<nat>, ghost before: set<nat>, r: int)
    ensures fresh(t) && before == {5} && r == -1
    ensures !t.Valid() && forall x :: 0 <= x < t.used.Length ==> !t.used[x]
  {
    t := OneKey();
    before := t.Keys();
    assert Pow2(2) == 4;
    BitsUnique(4, 2);
    hide HashToSlot, Sound, Pow2, BitsFor;
    r := t.Resize(4, true, false);
  }
}
