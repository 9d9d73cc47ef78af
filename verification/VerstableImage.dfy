/** A Verstable table as a value: metadata, buckets and where each key is, and how the single updates
    of the arrays change what is stored. */
module VerstableImage {
  import opened Counting
  import opened VerstableChains

  datatype Bucket<K, V> = Bucket(key: K, val: V)

  /** The four highest bits of a 64-bit hash. */
  function HashFrag(hash: nat): nat { hash / 0x1000_0000_0000_0000 % 16 }

  function HomeOf(hash: nat, n: nat): (h: nat)
    requires n > 0
    ensures h < n
  {
    hash % n
  }

  /** `ds` and `spots` are ghost state: every key's displacement, and the bucket of every key. */
  datatype Image<K, V> = Image(ms: seq<Meta>, bs: seq<Bucket<K, V>>, ds: seq<nat>, spots: map<K, nat>)

  ghost function Homes<K, V>(bs: seq<Bucket<K, V>>, hash: K -> nat): (hs: seq<nat>)
    ensures |hs| == |bs| && forall i :: 0 <= i < |bs| ==> hs[i] == HomeOf(hash(bs[i].key), |bs|)
  {
    seq<nat>(|bs|, i requires 0 <= i < |bs| => HomeOf(hash(bs[i].key), |bs|))
  }

  ghost function RackOf<K, V>(im: Image<K, V>, hash: K -> nat): Rack { Rack(im.ms, Homes(im.bs, hash), im.ds) }

  /** What is stored: the occupied buckets, except `gone`, hold exactly the keys of `spots`, each once
      and with its hash fragment. */
  ghost predicate Stored<K, V>(im: Image<K, V>, hash: K -> nat, gone: int)
    requires |im.ms| == |im.bs|
  {
    && (forall k :: k in im.spots ==> im.spots[k] < |im.ms| && im.spots[k] != gone && im.ms[im.spots[k]] != EMPTY && im.bs[im.spots[k]].key == k)
    && forall b: nat :: b < |im.ms| && b != gone && im.ms[b] != EMPTY ==>
         Found(im, hash, b)
  }

  predicate Found<K(==), V>(im: Image<K, V>, hash: K -> nat, b: nat)
    requires b < |im.ms| == |im.bs|
  {
    im.bs[b].key in im.spots && im.spots[im.bs[b].key] == b && im.ms[b].frag == HashFrag(hash(im.bs[b].key))
  }

  ghost predicate Sound<K, V>(im: Image<K, V>, hash: K -> nat, hole: int, gone: int) {
    && |im.ms| == |im.bs| == |im.ds| > 0
    && Chained(RackOf(im, hash), hole) && Stored(im, hash, gone)
  }

  ghost function ContentsOf<K, V>(im: Image<K, V>): map<K, V> {
    map k | k in im.spots && im.spots[k] < |im.bs| :: im.bs[im.spots[k]].val
  }

  lemma HomesUpdate<K, V>(bs: seq<Bucket<K, V>>, hash: K -> nat, e: nat, x: Bucket<K, V>)
    requires e < |bs|
    ensures Homes(bs[e := x], hash) == Homes(bs, hash)[e := HomeOf(hash(x.key), |bs|)]
  {
  }

  // ---------- the updates ----------

  /** Where a key can be linked into its chain: at displacement `d`, in empty bucket `e`, after `p`. */
  ghost predicate Joins<K, V>(im: Image<K, V>, hash: K -> nat, hole: int, p: nat, e: nat, d: nat, k: K)
    requires |im.ms| == |im.bs| == |im.ds| > 0
  {
    && e < |im.ms| && im.ms[e] == EMPTY
    && Live(RackOf(im, hash), hole, p) && Homes(im.bs, hash)[p] == HomeOf(hash(k), |im.ms|)
    && im.ds[p] < d < im.ms[p].link && Slot(Homes(im.bs, hash)[p], d, |im.ms|) == e
  }

  /** `key` put into empty bucket `e` and linked after `p`. */
  ghost function PutLinked<K, V>(im: Image<K, V>, hash: K -> nat, p: nat, e: nat, d: nat, x: Bucket<K, V>): Image<K, V>
    requires |im.ms| == |im.bs| == |im.ds| > 0 && p < |im.ms| && e < |im.ms|
  {
    Image(im.ms[e := Meta(HashFrag(hash(x.key)), false, im.ms[p].link)][p := Meta(im.ms[p].frag, im.ms[p].home, d)],
          im.bs[e := x], im.ds[e := d], im.spots[x.key := e])
  }

  lemma PutLinkedIsSound<K, V>(im: Image<K, V>, hash: K -> nat, hole: int, gone: int, p: nat, e: nat, d: nat, x: Bucket<K, V>)
    requires Sound(im, hash, hole, gone) && x.key !in im.spots && Joins(im, hash, hole, p, e, d, x.key)
    requires e != hole && e != gone
    ensures Sound(PutLinked(im, hash, p, e, d, x), hash, hole, gone)
    ensures ContentsOf(PutLinked(im, hash, p, e, d, x)) == ContentsOf(im)[x.key := x.val]
  {
    var to := PutLinked(im, hash, p, e, d, x);
    assert Chained(RackOf(to, hash), hole) by {
      LinkKeepsChains(RackOf(im, hash), hole, p, e, d, HashFrag(hash(x.key)));
      HomesUpdate(im.bs, hash, e, x);
    }
    hide Chained, Slot, Homes, RackOf, HashFrag, HomeOf, ContentsOf;
    StoresOneMore(im, to, hash, gone, x, e);
    AddedContents(im, to, hash, gone, x, e);
  }

  /** A key put into a bucket that stored nothing, while the others keep their keys. */
  lemma StoresOneMore<K, V>(im: Image<K, V>, to: Image<K, V>, hash: K -> nat, gone: int, x: Bucket<K, V>, e: nat)
    requires |im.ms| == |im.bs| == |to.ms| && Stored(im, hash, gone) && e < |im.bs| && (im.ms[e] == EMPTY || e == gone)
    requires to.bs == im.bs[e := x] && to.spots == im.spots[x.key := e] && x.key !in im.spots
    requires to.ms[e] != EMPTY && to.ms[e].frag == HashFrag(hash(x.key))
    requires forall b :: 0 <= b < |im.ms| && b != e ==> (to.ms[b] == EMPTY <==> im.ms[b] == EMPTY) && to.ms[b].frag == im.ms[b].frag
    ensures Stored(to, hash, if e == gone then -1 else gone)
  {
    hide HashFrag;
    forall b: nat | b < |to.ms| && (b != gone || b == e) && to.ms[b] != EMPTY ensures Found(to, hash, b) {
      assert b != e ==> im.ms[b] != EMPTY && Found(im, hash, b);
    }
  }

  lemma AddedContents<K, V>(im: Image<K, V>, to: Image<K, V>, hash: K -> nat, gone: int, x: Bucket<K, V>, e: nat)
    requires |im.ms| == |im.bs| && Stored(im, hash, gone) && e < |im.bs| && (im.ms[e] == EMPTY || e == gone)
    requires to.bs == im.bs[e := x] && to.spots == im.spots[x.key := e] && x.key !in im.spots
    ensures ContentsOf(to) == ContentsOf(im)[x.key := x.val]
  {
    hide HashFrag;
  }

  /** `key` put into its home bucket `b`, as the only key of a new chain. */
  ghost function PutHome<K, V>(im: Image<K, V>, hash: K -> nat, b: nat, x: Bucket<K, V>): Image<K, V>
    requires |im.ms| == |im.bs| == |im.ds| > 0 && b < |im.ms|
  {
    Image(im.ms[b := Meta(HashFrag(hash(x.key)), true, END)], im.bs[b := x], im.ds[b := 0], im.spots[x.key := b])
  }

  lemma PutHomeIsSound<K, V>(im: Image<K, V>, hash: K -> nat, b: nat, x: Bucket<K, V>)
    requires Sound(im, hash, b, b) && x.key !in im.spots && b == HomeOf(hash(x.key), |im.ms|)
    ensures Sound(PutHome(im, hash, b, x), hash, -1, -1)
    ensures ContentsOf(PutHome(im, hash, b, x)) == ContentsOf(im)[x.key := x.val]
  {
    var to := PutHome(im, hash, b, x);
    assert Chained(RackOf(to, hash), -1) by {
      StartKeepsChains(RackOf(im, hash), b, HashFrag(hash(x.key)));
      HomesUpdate(im.bs, hash, b, x);
    }
    hide Chained, Slot, Homes, RackOf, HashFrag, HomeOf, ContentsOf;
    StoresOneMore(im, to, hash, b, x, b);
    AddedContents(im, to, hash, b, x, b);
  }

  /** An empty bucket may be treated as one whose key has left. */
  lemma EmptyIsGone<K, V>(im: Image<K, V>, hash: K -> nat, b: nat)
    requires Sound(im, hash, -1, -1) && b < |im.ms| && im.ms[b] == EMPTY
    ensures Sound(im, hash, b, b)
  {
    var t := RackOf(im, hash);
    assert t.ms == im.ms;
    hide Slot, RackOf, Homes;
    forall c: nat | Live(t, b, c) ensures Placed(t, b, c) && Linked(t, b, c) {
      assert Live(t, -1, c) && Placed(t, -1, c) && Linked(t, -1, c);
      assert Points(t, b, c);
      forall e: nat | Live(t, b, e) ensures Reaches(t, b, c, e) { assert Reaches(t, -1, c, e); }
    }
  }

  /** The key in `b` unlinked from its chain, where `p` precedes it. */
  ghost function Unlink<K, V>(im: Image<K, V>, p: nat, b: nat): Image<K, V>
    requires p < |im.ms| && b < |im.ms|
  {
    Image(im.ms[p := Meta(im.ms[p].frag, im.ms[p].home, im.ms[b].link)], im.bs, im.ds, im.spots)
  }

  lemma UnlinkIsSound<K, V>(im: Image<K, V>, hash: K -> nat, p: nat, b: nat)
    requires Sound(im, hash, -1, -1) && Precedes(RackOf(im, hash), -1, p, b)
    ensures Sound(Unlink(im, p, b), hash, b, -1) && ContentsOf(Unlink(im, p, b)) == ContentsOf(im)
    ensures forall c :: 0 <= c < |im.ms| ==> (Unlink(im, p, b).ms[c] == EMPTY <==> im.ms[c] == EMPTY)
  {
    var to := Unlink(im, p, b);
    assert im.ms[b].link > 0 by { assert Points(RackOf(im, hash), -1, b); }
    SkipKeepsChains(RackOf(im, hash), p, b);
    hide Chained, Slot, Homes, HashFrag, HomeOf;
    assert Stored(to, hash, -1) by {
      forall c: nat | c < |to.ms| && to.ms[c] != EMPTY ensures Found(to, hash, c) { assert Found(im, hash, c); }
    }
    assert ContentsOf(to) == ContentsOf(im);
  }

  /** A new value for the key in bucket `b`. */
  ghost function SetVal<K, V>(im: Image<K, V>, b: nat, key: K, val: V): Image<K, V>
    requires b < |im.bs|
  {
    Image(im.ms, im.bs[b := Bucket(key, val)], im.ds, im.spots)
  }

  lemma SetValIsSound<K, V>(im: Image<K, V>, hash: K -> nat, b: nat, key: K, val: V)
    requires Sound(im, hash, -1, -1) && key in im.spots && im.spots[key] == b
    ensures b < |im.bs| && Sound(SetVal(im, b, key, val), hash, -1, -1)
    ensures ContentsOf(SetVal(im, b, key, val)) == ContentsOf(im)[key := val]
  {
    hide Chained, Slot, HomeOf, HashFrag;
    var to := SetVal(im, b, key, val);
    HomesUpdate(im.bs, hash, b, Bucket(key, val));
    assert RackOf(to, hash) == RackOf(im, hash);
    hide Homes, RackOf;
    assert Stored(to, hash, -1) by {
      forall c: nat | c < |to.ms| && to.ms[c] != EMPTY ensures Found(to, hash, c) { assert Found(im, hash, c); }
    }
    assert ContentsOf(to) == ContentsOf(im)[key := val];
  }

  /** The key in bucket `b` no longer counts as stored there. */
  ghost function Forget<K, V>(im: Image<K, V>, b: nat): Image<K, V>
    requires b < |im.bs|
  {
    Image(im.ms, im.bs, im.ds, im.spots - {im.bs[b].key})
  }

  lemma ForgetIsSound<K, V>(im: Image<K, V>, hash: K -> nat, hole: int, b: nat)
    requires Sound(im, hash, hole, -1) && b < |im.ms| && im.ms[b] != EMPTY
    ensures Sound(Forget(im, b), hash, hole, b) && ContentsOf(Forget(im, b)) == ContentsOf(im) - {im.bs[b].key}
    ensures |Forget(im, b).spots| == |im.spots| - 1
  {
    hide Chained, Slot, Homes, HashFrag, HomeOf;
    var to := Forget(im, b);
    assert Found(im, hash, b);
    assert Stored(to, hash, b) by {
      forall c: nat | c < |to.ms| && c != b && to.ms[c] != EMPTY ensures Found(to, hash, c) { assert Found(im, hash, c); }
    }
    assert RackOf(to, hash) == RackOf(im, hash);
    RemoveKey(im.spots, im.bs[b].key);
    assert ContentsOf(to) == ContentsOf(im) - {im.bs[b].key};
  }

  lemma PutBack<K, V>(m: map<K, V>, k: K, v: V)
    requires k in m && m[k] == v
    ensures (m - {k})[k := v] == m
  {
  }

  lemma RelocateIsSound<K, V>(im: Image<K, V>, hash: K -> nat, b: nat, p: nat, e: nat, d: nat)
    requires Sound(im, hash, b, -1) && b < |im.ms| && im.ms[b] != EMPTY && Joins(im, hash, b, p, e, d, im.bs[b].key)
    ensures p != e && p != b && e != b && p < |im.ms| == |im.bs| == |im.ds|
    ensures var to := PutLinked(Forget(im, b), hash, p, e, d, im.bs[b]);
            && Sound(to, hash, b, b) && to.spots.Keys == im.spots.Keys && ContentsOf(to) == ContentsOf(im)
  {
    hide Chained, Slot, Homes, HomeOf, HashFrag;
    var x := im.bs[b];
    assert Found(im, hash, b);
    assert p < |im.ms| && p != e && p != b;
    hide Live;
    ForgetIsSound(im, hash, b, b);
    PutLinkedIsSound(Forget(im, b), hash, b, b, p, e, d, x);
    PutBack(ContentsOf(im), x.key, x.val);
  }

  ghost function Clear<K, V>(im: Image<K, V>, b: nat): Image<K, V>
    requires b < |im.ms|
  {
    Image(im.ms[b := EMPTY], im.bs, im.ds, im.spots)
  }

  lemma ClearIsSound<K, V>(im: Image<K, V>, hash: K -> nat, b: nat)
    requires Sound(im, hash, b, b) && b < |im.ms|
    ensures Sound(Clear(im, b), hash, -1, -1) && ContentsOf(Clear(im, b)) == ContentsOf(im)
  {
    var to := Clear(im, b);
    ClearKeepsChains(RackOf(im, hash), b);
    hide Chained, Slot, Homes, HashFrag, HomeOf;
    assert Stored(to, hash, -1) by {
      forall c: nat | c < |to.ms| && to.ms[c] != EMPTY ensures Found(to, hash, c) { assert Found(im, hash, c); }
    }
  }

  /** The key of bucket `l`, which has left its chain, replaces the one in bucket `b` of that chain. */
  ghost function MoveInto<K, V>(im: Image<K, V>, b: nat, l: nat): Image<K, V>
    requires |im.ms| == |im.bs| && b < |im.ms| && l < |im.ms|
  {
    Image(im.ms[b := Meta(im.ms[l].frag, im.ms[b].home, im.ms[b].link)], im.bs[b := im.bs[l]], im.ds,
          (im.spots - {im.bs[b].key})[im.bs[l].key := b])
  }

  lemma MoveIntoIsSound<K, V>(im: Image<K, V>, hash: K -> nat, b: nat, l: nat)
    requires Sound(im, hash, l, -1) && Live(RackOf(im, hash), l, b) && l < |im.ms| && im.ms[l] != EMPTY
    requires Homes(im.bs, hash)[b] == Homes(im.bs, hash)[l]
    ensures Sound(MoveInto(im, b, l), hash, l, l) && ContentsOf(MoveInto(im, b, l)) == ContentsOf(im) - {im.bs[b].key}
    ensures |MoveInto(im, b, l).spots| == |im.spots| - 1
  {
    hide Linked, Placed, Slot;
    var to := MoveInto(im, b, l);
    assert b != l && im.ms[b] != EMPTY;
    FragKeepsChains(RackOf(im, hash), l, b, im.ms[l].frag);
    assert RackOf(to, hash) == Rack(to.ms, Homes(im.bs, hash), im.ds) by {
      HomesUpdate(im.bs, hash, b, im.bs[l]);
      hide Chained, Slot, HashFrag, HomeOf;
    }
    hide Chained, Slot, Homes, RackOf, HashFrag, HomeOf, ContentsOf;
    MoveIntoStores(im, hash, b, l);
    MoveIntoContents(im, hash, b, l);
  }

  lemma MoveIntoStores<K, V>(im: Image<K, V>, hash: K -> nat, b: nat, l: nat)
    requires |im.ms| == |im.bs| && Stored(im, hash, -1)
    requires b != l && b < |im.ms| && l < |im.ms| && im.ms[l] != EMPTY && im.ms[b] != EMPTY && im.ms[b].link > 0
    ensures Stored(MoveInto(im, b, l), hash, l)
  {
    hide HashFrag;
    var to := MoveInto(im, b, l);
    assert Found(im, hash, b) && Found(im, hash, l);
    forall c: nat | c < |to.ms| && c != l && to.ms[c] != EMPTY ensures Found(to, hash, c) {
      if c != b { assert Found(im, hash, c); }
    }
  }

  lemma MoveIntoContents<K, V>(im: Image<K, V>, hash: K -> nat, b: nat, l: nat)
    requires |im.ms| == |im.bs| && Stored(im, hash, -1)
    requires b != l && b < |im.ms| && l < |im.ms| && im.ms[l] != EMPTY && im.ms[b] != EMPTY
    requires Stored(MoveInto(im, b, l), hash, l)
    ensures ContentsOf(MoveInto(im, b, l)) == ContentsOf(im) - {im.bs[b].key}
    ensures |MoveInto(im, b, l).spots| == |im.spots| - 1
  {
    hide HashFrag;
    var to := MoveInto(im, b, l);
    assert Found(im, hash, b) && Found(im, hash, l);
    RemoveKey(im.spots, im.bs[b].key);
    ReplaceValue(im.spots - {im.bs[b].key}, im.bs[l].key, b);
  }

  /** The key of bucket `b` erased from inside its chain, where `p` precedes the last key, in `l`. */
  ghost function EraseLast<K, V>(im: Image<K, V>, b: nat, p: nat, l: nat): Image<K, V>
    requires |im.ms| == |im.bs| && b < |im.ms| && p < |im.ms| && l < |im.ms|
  {
    Clear(MoveInto(Unlink(im, p, l), b, l), l)
  }

  /** What erasing the key of bucket `b` does to the places of the other keys: at most one, `moved`,
      changes its place, to `b`; and whether a scan must go on to the next bucket. */
  ghost predicate Erased<K, V>(im: Image<K, V>, to: Image<K, V>, b: nat, advance: bool)
    requires b < |im.bs| == |to.bs| == |to.ms|
  {
    var key, moved := im.bs[b].key, to.bs[b].key;
    if to.ms[b] == EMPTY then advance && to.spots == im.spots - {key}
    else
      && moved in im.spots && moved != key && to.spots == (im.spots - {key})[moved := b]
      && im.spots[moved] != b && (advance <==> im.spots[moved] < b)
  }

  lemma ErasedOccupied<K, V>(im: Image<K, V>, to: Image<K, V>, b: nat)
    requires b < |im.bs| == |to.bs| == |to.ms| && Erased(im, to, b, false)
    ensures to.ms[b] != EMPTY
  {
  }

  lemma EraseInsideIsSound<K, V>(im: Image<K, V>, hash: K -> nat, b: nat, p: nat, l: nat)
    requires Sound(im, hash, -1, -1) && b < |im.ms| && im.ms[b] != EMPTY && b != l
    requires Precedes(RackOf(im, hash), -1, p, l) && Homes(im.bs, hash)[b] == Homes(im.bs, hash)[l]
    ensures p < |im.ms| && l < |im.ms| && p != l
    ensures Sound(EraseLast(im, b, p, l), hash, -1, -1) && ContentsOf(EraseLast(im, b, p, l)) == ContentsOf(im) - {im.bs[b].key}
    ensures |EraseLast(im, b, p, l).spots| == |im.spots| - 1 && Erased(im, EraseLast(im, b, p, l), b, l < b)
  {
    var a := Unlink(im, p, l);
    UnlinkIsSound(im, hash, p, l);
    PrecedesOther(RackOf(im, hash), p, l);
    assert im.ms[l] != EMPTY && Live(RackOf(a, hash), l, b);
    MovedLast(im, hash, b, p, l);
    hide Chained, Stored, Slot, Homes, HashFrag, HomeOf, ContentsOf, Live, Found, Erased, RackOf;
    MoveIntoIsSound(a, hash, b, l);
    ClearIsSound(MoveInto(a, b, l), hash, l);
  }

  /** The same, update by update. */
  lemma EraseLastUpdates<K, V>(im: Image<K, V>, b: nat, p: nat, l: nat)
    requires |im.ms| == |im.bs| && b < |im.ms| && p < |im.ms| && l < |im.ms| && b != l && p != l && im.ms[l].link == END
    ensures var ms1 := im.ms[b := Meta(im.ms[l].frag, im.ms[b].home, im.ms[b].link)];
            var ms2 := ms1[p := Meta(ms1[p].frag, ms1[p].home, END)];
            EraseLast(im, b, p, l)
            == Image(ms2[l := EMPTY], im.bs[b := im.bs[l]], im.ds, (im.spots - {im.bs[b].key})[im.bs[l].key := b])
  {
  }

  lemma MovedLast<K, V>(im: Image<K, V>, hash: K -> nat, b: nat, p: nat, l: nat)
    requires |im.ms| == |im.bs| && Stored(im, hash, -1) && b < |im.ms| && p < |im.ms| && l < |im.ms| && b != l && p != l
    requires im.ms[b] != EMPTY && im.ms[l] != EMPTY && Unlink(im, p, l).ms[b] != EMPTY && im.ms[b].link > 0 && im.ms[l].link > 0
    ensures Erased(im, EraseLast(im, b, p, l), b, l < b)
  {
    hide HashFrag;
    assert Found(im, hash, b) && Found(im, hash, l);
  }

  // ---------- scanning the buckets in order ----------

  /** What the buckets before `i` hold. */
  ghost function Before<K, V>(im: Image<K, V>, i: nat): map<K, V> {
    map k | k in im.spots && im.spots[k] < |im.bs| && im.spots[k] < i :: im.bs[im.spots[k]].val
  }

  lemma BeforeNone<K, V>(im: Image<K, V>)
    ensures Before(im, 0) == map[]
  {
    hide Chained, Homes, HashFrag;
  }

  lemma NextBefore<K, V>(im: Image<K, V>, hash: K -> nat, hole: int, i: nat)
    requires Sound(im, hash, hole, -1) && i < |im.ms|
    ensures im.ms[i] == EMPTY ==> Before(im, i + 1) == Before(im, i)
    ensures im.ms[i] != EMPTY ==> im.bs[i].key !in Before(im, i) && Before(im, i + 1) == Before(im, i)[im.bs[i].key := im.bs[i].val]
  {
    hide HashFrag, Chained, Homes;
    if im.ms[i] != EMPTY { assert Found(im, hash, i); }
  }

  lemma AllBefore<K, V>(im: Image<K, V>, hash: K -> nat, hole: int, n: nat)
    requires Sound(im, hash, hole, -1) && n <= |im.ms|
    requires forall i :: n <= i < |im.ms| ==> im.ms[i] == EMPTY
    ensures Before(im, n) == ContentsOf(im)
  {
    hide Chained, Homes, HashFrag;
  }

  lemma ContentKeys<K, V>(im: Image<K, V>, hash: K -> nat, hole: int)
    requires Sound(im, hash, hole, -1)
    ensures ContentsOf(im).Keys == im.spots.Keys && |im.spots| == |ContentsOf(im)|
  {
    hide Chained, Homes, HashFrag;
    assert |im.spots.Keys| == |im.spots| && |ContentsOf(im).Keys| == |ContentsOf(im)|;
  }

  lemma SameSize<K, V>(im: Image<K, V>, hash: K -> nat, hole: int, to: Image<K, V>, tohash: K -> nat)
    requires Sound(im, hash, hole, -1) && Sound(to, tohash, -1, -1)
    requires ContentsOf(im) == ContentsOf(to)
    ensures |im.spots| == |to.spots|
  {
    ContentKeys(im, hash, hole);
    ContentKeys(to, tohash, -1);
  }

  /** A table that has taken only the keys before bucket `i`, which is not empty, has fewer keys. */
  lemma FewerKeys<K, V>(im: Image<K, V>, hash: K -> nat, hole: int, to: Image<K, V>, tohash: K -> nat, i: nat)
    requires Sound(im, hash, hole, -1) && i < |im.ms| && im.ms[i] != EMPTY
    requires Sound(to, tohash, -1, -1) && ContentsOf(to) == Before(im, i)
    ensures |to.spots| < |im.spots|
  {
    hide HashFrag, Chained, Homes;
    ContentKeys(to, tohash, -1);
    assert Found(im, hash, i);
    var k := im.bs[i].key;
    assert k !in to.spots by { assert k !in Before(im, i); }
    SubsetSize(to.spots.Keys, im.spots.Keys - {k});
    assert |to.spots.Keys| == |to.spots| && |im.spots.Keys| == |im.spots|;
  }
}
