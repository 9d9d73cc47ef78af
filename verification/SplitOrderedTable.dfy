/** The split-ordered hash table, used by one thread at a time: one sorted linked list, and a table of
    pointers to dummy nodes in it that is doubled without moving any node. */
module SplitOrderedTable {
  import opened Counting
  import opened SplitOrder
  import opened Wrappers

  /** Multiplicative hashing of a pointer-sized key to 32 bits. */
  function HashKey(key: nat): (h: nat)
    ensures h < WORD
  {
    key * 2654435761 % WORD
  }

  class Node<V> {
    var next: Node?<V>
    const code: nat
    const key: nat
    const value: Option<V>

    constructor (code: nat, key: nat, value: Option<V>)
      ensures this.code == code && this.key == key && this.value == value && next == null
    {
      this.code, this.key, this.value := code, key, value;
      next := null;
    }
  }

  /** A node is the one looked for. */
  predicate Is<V>(n: Node<V>, code: nat, key: nat) { n.code == code && n.key == key }

  lemma IsCode<V>(n: Node<V>, code: nat, key: nat)
    requires Is(n, code, key)
    ensures n.code == code && n.key == key
  {
  }

  /** Sorted by code, and no two nodes with one code and key. */
  ghost predicate Sorted<V>(spine: seq<Node<V>>) {
    && (forall i, j :: 0 <= i < j < |spine| ==> spine[i].code <= spine[j].code)
    && forall i, j :: 0 <= i < j < |spine| ==> !Is(spine[j], spine[i].code, spine[i].key)
  }

  ghost predicate Linked<V>(spine: seq<Node<V>>)
    reads spine
  {
    forall i: nat :: i < |spine| ==> LinkAt(spine, i)
  }

  ghost predicate LinkAt<V>(spine: seq<Node<V>>, i: nat)
    requires i < |spine|
    reads spine[i]
  {
    spine[i].next == NodeAt(spine, i + 1)
  }

  /** The node at a position, null behind the end. */
  ghost function NodeAt<V>(spine: seq<Node<V>>, i: nat): Node?<V> { if i < |spine| then spine[i] else null }

  predicate Regular<V>(n: Node<V>) { n.code == RegularCode(HashKey(n.key)) }

  /** Where a search for a code and key stops: every node before has a smaller code, or the same code
      and another key. */
  ghost predicate StopsAt<V>(spine: seq<Node<V>>, code: nat, key: nat, i: nat) {
    && i <= |spine|
    && (forall j :: 0 <= j < i ==> spine[j].code <= code && !Is(spine[j], code, key))
    && (i < |spine| ==> spine[i].code > code || Is(spine[i], code, key))
  }

  /** After the stop there is no node looked for. */
  lemma NotBeyond<V>(spine: seq<Node<V>>, code: nat, key: nat, i: nat)
    requires Sorted(spine) && StopsAt(spine, code, key, i)
    ensures forall n :: n in spine && Is(n, code, key) ==> i < |spine| && n == spine[i]
  {
    forall j | 0 <= j < |spine| && Is(spine[j], code, key) ensures i < |spine| && j == i {}
  }

  // ---------- the list ----------

  /** Every node before `i` has a smaller code, or the same code and another key. */
  ghost predicate Passed<V>(spine: seq<Node<V>>, code: nat, key: nat, i: nat) {
    i <= |spine| && forall j :: 0 <= j < i ==> spine[j].code <= code && !Is(spine[j], code, key)
  }

  lemma PassedStart<V>(spine: seq<Node<V>>, code: nat, key: nat, p: nat)
    requires Sorted(spine) && p < |spine| && spine[p].code < code
    ensures Passed(spine, code, key, p + 1)
  {
  }

  lemma NoDuplicates<V>(spine: seq<Node<V>>)
    requires Sorted(spine)
    ensures forall i, j :: 0 <= i < j < |spine| ==> spine[i] != spine[j]
  {
  }

  /** The search of the list from a node with a smaller code: the first node that is the one looked for
      or has a larger code, and the node before it. */
  method ListFind<V>(start: Node<V>, code: nat, key: nat, ghost spine: seq<Node<V>>, ghost p: nat)
    returns (prev: Node<V>, cur: Node?<V>, ghost i: nat)
    requires Sorted(spine) && Linked(spine) && p < |spine| && spine[p] == start && start.code < code
    ensures 0 < i && StopsAt(spine, code, key, i) && prev == spine[i - 1]
    ensures cur == NodeAt(spine, i)
  {
    PassedStart(spine, code, key, p);
    hide Sorted;
    i := p + 1;
    assert LinkAt(spine, p);
    prev, cur := start, start.next;
    while cur != null && !(cur.code > code || (cur.code == code && cur.key == key))
      invariant 0 < i <= |spine| && prev == spine[i - 1] && cur == NodeAt(spine, i)
      invariant Passed(spine, code, key, i)
      decreases |spine| - i
    {
      assert LinkAt(spine, i);
      prev, cur := cur, cur.next;
      i := i + 1;
    }
  }

  function Inserted<V>(spine: seq<Node<V>>, i: nat, node: Node<V>): seq<Node<V>>
    requires i <= |spine|
  {
    spine[..i] + [node] + spine[i..]
  }

  lemma InsertedIsSorted<V>(spine: seq<Node<V>>, node: Node<V>, i: nat)
    requires Sorted(spine) && StopsAt(spine, node.code, node.key, i) && (i < |spine| ==> !Is(spine[i], node.code, node.key))
    ensures Sorted(Inserted(spine, i, node))
  {
  }

  /** Links a node in between two neighbours. */
  method Splice<V>(prev: Node<V>, node: Node<V>, cur: Node?<V>, ghost spine: seq<Node<V>>, ghost i: nat)
    requires Sorted(spine) && Linked(spine) && 0 < i <= |spine| && prev == spine[i - 1] && node !in spine
    requires cur == NodeAt(spine, i)
    modifies node`next, prev`next
    ensures Linked(Inserted(spine, i, node))
  {
    NoDuplicates(spine);
    hide Sorted;
    assert forall k: nat :: k < |spine| ==> LinkAt(spine, k);
    node.next := cur;
    prev.next := node;
    ghost var to := Inserted(spine, i, node);
    forall k: nat | k < |to| ensures LinkAt(to, k) {
      if k < i - 1 {
        assert to[k] == spine[k] && to[k + 1] == spine[k + 1] && spine[k] != spine[i - 1] && LinkAt(spine, k);
      } else if k > i {
        assert to[k] == spine[k - 1] && spine[k - 1] != spine[i - 1] && LinkAt(spine, k - 1);
      }
    }
  }

  /** Inserts a node unless there is one with its code and key; returns the one that is there then. */
  method ListInsert<V>(start: Node<V>, node: Node<V>, ghost spine: seq<Node<V>>, ghost nodes: set<Node<V>>)
    returns (res: Node<V>, ghost i: nat, ghost to: seq<Node<V>>)
    requires Sorted(spine) && Linked(spine) && (forall n :: n in spine ==> n in nodes)
    requires start in spine && start.code < node.code && node !in spine
    modifies node, nodes
    ensures Linked(to) && InsertOutcome(spine, node, res, i, to)
  {
    ghost var p :| 0 <= p < |spine| && spine[p] == start;
    hide Sorted;
    var prev, cur, at := ListFind(start, node.code, node.key, spine, p);
    i := at;
    if cur != null && cur.code == node.code && cur.key == node.key { return cur, i, spine; }
    Splice(prev, node, cur, spine, i);
    return node, i, Inserted(spine, i, node);
  }

  /** Takes a node out of the list. */
  method Unsplice<V>(prev: Node<V>, cur: Node<V>, ghost spine: seq<Node<V>>, ghost i: nat)
    requires Sorted(spine) && Linked(spine) && 0 < i < |spine| && prev == spine[i - 1] && cur == spine[i]
    modifies prev`next
    ensures Linked(spine[..i] + spine[i + 1..])
  {
    NoDuplicates(spine);
    hide Sorted;
    assert LinkAt(spine, i);
    prev.next := cur.next;
    ghost var to := spine[..i] + spine[i + 1..];
    forall k: nat | k < |to| ensures LinkAt(to, k) {
      if k < i - 1 {
        assert to[k] == spine[k] && to[k + 1] == spine[k + 1] && spine[k] != spine[i - 1] && LinkAt(spine, k);
      } else if k >= i {
        assert to[k] == spine[k + 1] && spine[k + 1] != spine[i - 1] && LinkAt(spine, k + 1);
      }
    }
  }

  // ---------- the table ----------

  /** Node `n` is the dummy of an initialised bucket, or holds a key of the map. */
  ghost predicate Belongs<V>(n: Node<V>, tbl: seq<Node?<V>>, contents: map<nat, V>) {
    if IsDummyCode(n.code) then n.key < |tbl| && tbl[n.key] == n && n.code == DummyCode(n.key)
    else Regular(n) && n.key in contents && n.value == Some(contents[n.key])
  }

  ghost predicate EntryOk<V>(tbl: seq<Node?<V>>, spine: seq<Node<V>>, b: nat)
    requires b < |tbl| && tbl[b] != null
  {
    tbl[b] in spine && Is(tbl[b], DummyCode(b), b)
  }

  ghost predicate Present<V>(spine: seq<Node<V>>, k: nat) { exists n :: n in spine && Is(n, RegularCode(HashKey(k)), k) }

  ghost predicate TableOk<V>(tbl: seq<Node?<V>>, spine: seq<Node<V>>) {
    |spine| > 0 && |tbl| > 0 && spine[0] == tbl[0] && forall b: nat :: b < |tbl| && tbl[b] != null ==> EntryOk(tbl, spine, b)
  }

  /** One sorted list with the dummies of the initialised buckets and one node for each key. */
  ghost predicate Consistent<V>(tbl: seq<Node?<V>>, spine: seq<Node<V>>, contents: map<nat, V>, bits: nat) {
    && |tbl| == Pow2(bits) && bits <= 31 && Sorted(spine) && TableOk(tbl, spine)
    && (forall n :: n in spine ==> Belongs(n, tbl, contents))
    && forall k :: k in contents ==> Present(spine, k)
  }

  lemma InsertedHas<V>(spine: seq<Node<V>>, i: nat, node: Node<V>)
    requires i <= |spine|
    ensures forall n :: n in Inserted(spine, i, node) <==> n in spine || n == node
  {
    var to := Inserted(spine, i, node);
    assert to[i] == node;
    forall k | 0 <= k < |spine| ensures spine[k] in to {
      assert if k < i then to[k] == spine[k] else to[k + 1] == spine[k];
    }
  }

  /** A bucket without a dummy has none in the list either. */
  lemma DummyIsNew<V>(tbl: seq<Node?<V>>, spine: seq<Node<V>>, contents: map<nat, V>, bits: nat, b: nat)
    requires Consistent(tbl, spine, contents, bits) && b < |tbl| && tbl[b] == null
    ensures forall n :: n in spine ==> !Is(n, DummyCode(b), b)
  {
    Pow2Smaller(bits);
    CodeParity(0, b);
    hide DummyCode, RegularCode, HashKey, Sorted;
    forall n | n in spine ensures !Is(n, DummyCode(b), b) { assert Belongs(n, tbl, contents); }
  }

  lemma DummyKeeps<V>(tbl: seq<Node?<V>>, spine: seq<Node<V>>, contents: map<nat, V>, bits: nat, b: nat, node: Node<V>, i: nat)
    requires Consistent(tbl, spine, contents, bits) && b < |tbl| && tbl[b] == null
    requires Is(node, DummyCode(b), b) && node !in spine && 0 < i && StopsAt(spine, node.code, node.key, i)
    ensures Consistent(tbl[b := node], Inserted(spine, i, node), contents, bits)
  {
    DummyIsNew(tbl, spine, contents, bits, b);
    InsertedIsSorted(spine, node, i);
    InsertedHas(spine, i, node);
    Pow2Smaller(bits);
    CodeParity(0, b);
    hide DummyCode, RegularCode, HashKey, Sorted, Pow2;
    var to, t2 := Inserted(spine, i, node), tbl[b := node];
    assert TableOk(t2, to) by {
      forall c: nat | c < |t2| && t2[c] != null ensures EntryOk(t2, to, c) { assert c != b ==> EntryOk(tbl, spine, c); }
    }
    forall n | n in to ensures Belongs(n, t2, contents) { assert n != node ==> Belongs(n, tbl, contents); }
    forall k | k in contents ensures Present(to, k) {
      var n :| n in spine && Is(n, RegularCode(HashKey(k)), k);
      assert n in to;
    }
  }

  /** What an insertion into the list reports. */
  ghost predicate InsertOutcome<V>(spine: seq<Node<V>>, node: Node<V>, res: Node<V>, i: nat, to: seq<Node<V>>) {
    && 0 < i && StopsAt(spine, node.code, node.key, i)
    && (res == node ==> to == Inserted(spine, i, node) && (i < |spine| ==> !Is(spine[i], node.code, node.key)))
    && (res != node ==> to == spine && i < |spine| && res == spine[i] && Is(res, node.code, node.key))
  }

  lemma DummyInserted<V>(tbl: seq<Node?<V>>, spine: seq<Node<V>>, contents: map<nat, V>, bits: nat, b: nat,
                         node: Node<V>, res: Node<V>, i: nat, to: seq<Node<V>>)
    requires Consistent(tbl, spine, contents, bits) && b < |tbl| && tbl[b] == null
    requires Is(node, DummyCode(b), b) && node !in spine && InsertOutcome(spine, node, res, i, to)
    ensures res == node && Consistent(tbl[b := node], to, contents, bits) && forall n :: n in to ==> n in spine || n == node
  {
    DummyIsNew(tbl, spine, contents, bits, b);
    hide Consistent, DummyCode;
    DummyKeeps(tbl, spine, contents, bits, b, node, i);
    InsertedHas(spine, i, node);
  }

  lemma RegularKeeps<V>(tbl: seq<Node?<V>>, spine: seq<Node<V>>, contents: map<nat, V>, bits: nat, node: Node<V>, val: V, i: nat)
    requires Consistent(tbl, spine, contents, bits) && node !in spine && Regular(node) && node.value == Some(val)
    requires 0 < i && StopsAt(spine, node.code, node.key, i) && (i < |spine| ==> !Is(spine[i], node.code, node.key))
    ensures node.key !in contents && Consistent(tbl, Inserted(spine, i, node), contents[node.key := val], bits)
  {
    NotBeyond(spine, node.code, node.key, i);
    InsertedIsSorted(spine, node, i);
    InsertedHas(spine, i, node);
    CodeParity(HashKey(node.key), 0);
    hide DummyCode, RegularCode, HashKey, Sorted, Pow2;
    var to, c2 := Inserted(spine, i, node), contents[node.key := val];
    assert node.key !in contents by { assert node.key in contents ==> Present(spine, node.key); }
    assert TableOk(tbl, to) by {
      forall c: nat | c < |tbl| && tbl[c] != null ensures EntryOk(tbl, to, c) { assert EntryOk(tbl, spine, c); }
    }
    forall n | n in to ensures Belongs(n, tbl, c2) { assert n != node ==> Belongs(n, tbl, contents); }
    forall k | k in c2 ensures Present(to, k) {
      if k == node.key {
        assert node in to;
      } else {
        var n :| n in spine && Is(n, RegularCode(HashKey(k)), k);
        assert n in to;
      }
    }
  }

  lemma RegularInserted<V>(tbl: seq<Node?<V>>, spine: seq<Node<V>>, contents: map<nat, V>, bits: nat,
                           node: Node<V>, val: V, res: Node<V>, i: nat, to: seq<Node<V>>)
    requires Consistent(tbl, spine, contents, bits) && Regular(node) && node.value == Some(val)
    requires node !in spine && InsertOutcome(spine, node, res, i, to)
    ensures res == node <==> node.key !in contents
    ensures res != node ==> to == spine
    ensures res == node ==> Consistent(tbl, to, contents[node.key := val], bits) && forall n :: n in to ==> n in spine || n == node
  {
    FoundMeans(tbl, spine, contents, bits, node.key, i);
    hide Consistent, RegularCode, HashKey, DummyCode;
    if res == node {
      RegularKeeps(tbl, spine, contents, bits, node, val, i);
      InsertedHas(spine, i, node);
    }
  }

  function Removed<V>(spine: seq<Node<V>>, i: nat): seq<Node<V>>
    requires i < |spine|
  {
    spine[..i] + spine[i + 1..]
  }

  lemma RemovedHas<V>(spine: seq<Node<V>>, i: nat)
    requires Sorted(spine) && i < |spine|
    ensures Sorted(Removed(spine, i)) && forall n :: n in Removed(spine, i) <==> n in spine && n != spine[i]
  {
    NoDuplicates(spine);
    var to := Removed(spine, i);
    forall k | 0 <= k < |spine| && k != i ensures spine[k] in to {
      assert if k < i then to[k] == spine[k] else to[k - 1] == spine[k];
    }
  }

  lemma RemoveKeeps<V>(tbl: seq<Node?<V>>, spine: seq<Node<V>>, contents: map<nat, V>, bits: nat, key: nat, i: nat)
    requires Consistent(tbl, spine, contents, bits) && 0 < i < |spine| && Is(spine[i], RegularCode(HashKey(key)), key)
    ensures key in contents && spine[i].value == Some(contents[key]) && Consistent(tbl, Removed(spine, i), contents - {key}, bits)
  {
    RemovedHas(spine, i);
    CodeParity(HashKey(key), 0);
    assert Belongs(spine[i], tbl, contents);
    OnlyNode(spine, i);
    Pow2Smaller(bits);
    hide DummyCode, RegularCode, HashKey, Sorted, Pow2;
    var to, c2 := Removed(spine, i), contents - {key};
    assert TableOk(tbl, to) by {
      forall c: nat | c < |tbl| && tbl[c] != null ensures EntryOk(tbl, to, c) {
        assert EntryOk(tbl, spine, c);
        CodeParity(0, c);
      }
    }
    forall n | n in to ensures Belongs(n, tbl, c2) { assert Belongs(n, tbl, contents); }
    forall k | k in c2 ensures Present(to, k) {
      var n :| n in spine && Is(n, RegularCode(HashKey(k)), k);
      assert n in to;
    }
  }

  lemma OnlyNode<V>(spine: seq<Node<V>>, i: nat)
    requires Sorted(spine) && i < |spine|
    ensures forall n :: n in spine && Is(n, spine[i].code, spine[i].key) ==> n == spine[i]
  {
  }

  /** Doubling: the new half of the table is not initialised, and nothing else changes. */
  lemma GrowKeeps<V>(tbl: seq<Node?<V>>, more: seq<Node?<V>>, spine: seq<Node<V>>, contents: map<nat, V>, bits: nat)
    requires Consistent(tbl, spine, contents, bits) && bits < 31 && |more| == 2 * |tbl| && more[..|tbl|] == tbl
    requires forall b :: |tbl| <= b < |more| ==> more[b] == null
    ensures Consistent(more, spine, contents, bits + 1)
  {
    hide DummyCode, RegularCode, HashKey, Sorted;
    forall b | 0 <= b < |tbl| ensures more[b] == tbl[b] { assert more[..|tbl|][b] == tbl[b]; }
    forall c: nat | c < |more| && more[c] != null ensures EntryOk(more, spine, c) { assert EntryOk(tbl, spine, c); }
    forall n | n in spine ensures Belongs(n, more, contents) { assert Belongs(n, tbl, contents); }
  }

  /** What a search for a key tells. */
  lemma FoundMeans<V>(tbl: seq<Node?<V>>, spine: seq<Node<V>>, contents: map<nat, V>, bits: nat, key: nat, i: nat)
    requires Consistent(tbl, spine, contents, bits) && StopsAt(spine, RegularCode(HashKey(key)), key, i)
    ensures key in contents <==> i < |spine| && Is(spine[i], RegularCode(HashKey(key)), key)
    ensures key in contents ==> spine[i].value == Some(contents[key])
  {
    NotBeyond(spine, RegularCode(HashKey(key)), key, i);
    CodeParity(HashKey(key), 0);
    hide DummyCode, RegularCode, HashKey, Sorted;
    if i < |spine| { assert Belongs(spine[i], tbl, contents); }
    assert key in contents ==> Present(spine, key);
  }

  class HashTable<V> {
    var table: array<Node?<V>>
    var size: nat
    var count: nat
    ghost var bits: nat
    ghost var spine: seq<Node<V>>
    ghost var nodes: set<Node<V>>
    ghost var contents: map<nat, V>

    ghost predicate Valid()
      reads this, table, nodes
    {
      && table.Length == size && count == |contents| && (forall n :: n in spine ==> n in nodes)
      && Consistent(table[..], spine, contents, bits) && Linked(spine)
    }

    constructor ()
      ensures Valid() && contents == map[] && fresh(table) && size == 16 && fresh(nodes)
    {
      var root := new Node<V>(DummyCode(0), 0, None);
      table := new Node?<V>[16](i => if i == 0 then root else null);
      size, count := 16, 0;
      bits, spine, nodes, contents := 4, [root], {root}, map[];
      new;
      CodeParity(0, 0);
      assert Pow2(4) == 16;
      assert LinkAt(spine, 0) && EntryOk(table[..], spine, 0);
    }

    /** Puts a dummy that is in the list into the table. */
    method SetDummy(b: nat, node: Node<V>, ghost to: seq<Node<V>>)
      requires b < table.Length == size && count == |contents| && (forall n :: n in to ==> n in nodes || n == node)
      requires Consistent(table[..][b := node], to, contents, bits) && Linked(to)
      modifies table, `spine, `nodes
      ensures Valid() && nodes == old(nodes) + {node} && table[..] == old(table[..])[b := node]
    {
      hide Consistent, Linked;
      ghost var t := table[..];
      spine, nodes := to, nodes + {node};
      table[b] := node;
      assert table[..] == t[b := node];
    }

    /** Links the dummy of bucket `b`, searching from the dummy of its parent. */
    method LinkDummy(b: nat, start: Node<V>)
      requires Valid() && b < table.Length && table[b] == null && start in spine && start.code < DummyCode(b)
      modifies table, nodes, `spine, `nodes
      ensures table == old(table)
      ensures Valid() && fresh(nodes - old(nodes)) && table[b] != null
      ensures forall c :: 0 <= c < table.Length && c != b ==> table[c] == old(table[c])
    {
      hide Sorted, DummyCode, Consistent, Linked, InsertOutcome, Valid;
      Parts();
      var node := new Node<V>(DummyCode(b), b, None);
      var res, i, to := ListInsert(start, node, spine, nodes);
      DummyInserted(table[..], spine, contents, bits, b, node, res, i, to);
      SetDummy(b, res, to);
    }

    /** Gives a bucket its dummy node, after its parent if that has none yet. */
    method InitializeBucket(b: nat)
      requires Valid() && 0 < b < table.Length && table[b] == null
      modifies table, nodes, `spine, `nodes
      ensures table == old(table)
      ensures Valid() && fresh(nodes - old(nodes)) && table[b] != null
      ensures forall c :: b < c < table.Length ==> table[c] == old(table[c])
      decreases b, 0
    {
      hide DummyCode, Valid, Parent, Is;
      TableFacts();
      ParentBefore(b);
      var parent := GetParent(b);
      var start := BucketNode(parent);
      IsCode(start, DummyCode(parent), parent);
      LinkDummy(b, start);
    }

    /** The dummy of a bucket, made if necessary. */
    method BucketNode(b: nat) returns (d: Node<V>)
      requires Valid() && b < table.Length
      modifies table, nodes, `spine, `nodes
      ensures table == old(table)
      ensures Valid() && fresh(nodes - old(nodes)) && d in spine && Is(d, DummyCode(b), b)
      ensures forall c :: b < c < table.Length ==> table[c] == old(table[c])
      decreases b, 1
    {
      TableFacts();
      hide DummyCode, Valid;
      if table[b] == null { InitializeBucket(b); }
      EntryFacts(b);
      d := table[b];
    }

    lemma Parts()
      requires Valid()
      ensures table.Length == size && count == |contents| && (forall n :: n in spine ==> n in nodes)
      ensures Consistent(table[..], spine, contents, bits) && Sorted(spine) && Linked(spine) && table.Length == Pow2(bits)
    {
    }

    lemma TableFacts()
      requires Valid()
      ensures 0 < size == table.Length <= TOP_BIT && table[0] != null
    {
      Pow2Smaller(bits);
    }

    lemma EntryFacts(b: nat)
      requires Valid() && b < table.Length && table[b] != null
      ensures table[b] in spine && Is(table[b], DummyCode(b), b)
    {
      assert EntryOk(table[..], spine, b);
    }

    // ---------- the operations ----------

    function BucketOf(key: nat): nat
      reads this
      requires size > 0
    {
      HashKey(key) % size
    }

    /** A search for a key from its bucket's dummy starts before the key's place. */
    lemma StartsBefore(key: nat, d: Node<V>)
      requires Valid() && size > 0 && Is(d, DummyCode(BucketOf(key)), BucketOf(key))
      ensures d.code < RegularCode(HashKey(key))
    {
      hide DummyCode, RegularCode, HashKey, Consistent, Linked;
      Parts();
      BitsBound();
      RegularAfterDummy(HashKey(key), bits);
    }

    lemma BitsBound()
      requires Valid()
      ensures bits <= 31 && size > 0 && size == Pow2(bits)
    {
    }

    /** Finds the place of a key: its node, or the node it belongs before, and the node before that. */
    method Search(key: nat) returns (prev: Node<V>, cur: Node?<V>, ghost i: nat)
      requires Valid()
      modifies table, nodes, `spine, `nodes
      ensures table == old(table)
      ensures Valid() && fresh(nodes - old(nodes))
      ensures 0 < i && StopsAt(spine, RegularCode(HashKey(key)), key, i) && prev == spine[i - 1] && cur == NodeAt(spine, i)
    {
      hide DummyCode, RegularCode, HashKey, Valid, Is;
      BitsBound();
      Parts();
      var b := BucketOf(key);
      var d := BucketNode(b);
      Parts();
      BitsBound();
      StartsBefore(key, d);
      hide Sorted, Linked, Consistent;
      ghost var p :| 0 <= p < |spine| && spine[p] == d;
      prev, cur, i := ListFind(d, RegularCode(HashKey(key)), key, spine, p);
    }

    /** The value of a key. Looking up may initialise a bucket. */
    method Find(key: nat) returns (r: Option<V>)
      requires Valid()
      modifies table, nodes, `spine, `nodes
      ensures table == old(table)
      ensures Valid() && fresh(nodes - old(nodes))
      ensures r == if key in contents then Some(contents[key]) else None
    {
      hide DummyCode, RegularCode, HashKey, Valid;
      var prev, cur, i := Search(key);
      Parts();
      FoundMeans(table[..], spine, contents, bits, key, i);
      if cur != null && cur.code == RegularCode(HashKey(key)) && cur.key == key { return cur.value; }
      return None;
    }

    /** The nearest ancestor of a bucket that has a dummy. */
    method NearestBucket(b: nat) returns (a: nat)
      requires Valid() && b < table.Length
      ensures a < table.Length && table[a] != null && DummyCode(a) <= DummyCode(b)
    {
      hide DummyCode, Valid, Parent;
      TableFacts();
      a := b;
      while table[a] == null && a != 0
        invariant a < table.Length && DummyCode(a) <= DummyCode(b)
        decreases a
      {
        ParentBefore(a);
        a := GetParent(a);
      }
    }

    /** Looks a key up without initialising any bucket: the search starts further back in the list. */
    method FindSignalSafe(key: nat) returns (r: Option<V>)
      requires Valid()
      ensures r == if key in contents then Some(contents[key]) else None
    {
      hide DummyCode, RegularCode, HashKey, Valid;
      BitsBound();
      Parts();
      var a := NearestBucket(BucketOf(key));
      EntryFacts(a);
      RegularAfterDummy(HashKey(key), bits);
      hide Sorted, Linked, Consistent;
      ghost var p :| 0 <= p < |spine| && spine[p] == table[a];
      var prev, cur, i := ListFind(table[a], RegularCode(HashKey(key)), key, spine, p);
      FoundMeans(table[..], spine, contents, bits, key, i);
      if cur != null && cur.code == RegularCode(HashKey(key)) && cur.key == key { return cur.value; }
      return None;
    }

    /** Inserts a key that is not there; one that is keeps its value. Afterwards the table may double. */
    method Insert(key: nat, val: V) returns (added: bool)
      requires Valid() && size < TOP_BIT
      modifies this, table, nodes
      ensures Valid() && added == (key !in old(contents))
      ensures contents == if added then old(contents)[key := val] else old(contents)
      ensures size == if added && 4 * old(count) > 3 * old(size) then 2 * old(size) else old(size)
    {
      hide DummyCode, RegularCode, HashKey, Valid;
      added := LinkKey(key, val);
      if added && 4 * (count - 1) > 3 * size { ResizeTable(); }
    }

    method LinkKey(key: nat, val: V) returns (added: bool)
      requires Valid()
      modifies this, table, nodes
      ensures Valid() && table == old(table) && size == old(size) && added == (key !in old(contents))
      ensures contents == if added then old(contents)[key := val] else old(contents)
      ensures count == old(count) + if added then 1 else 0
    {
      hide DummyCode, RegularCode, HashKey, Valid, Is;
      BitsBound();
      Parts();
      var node := new Node<V>(RegularCode(HashKey(key)), key, Some(val));
      var b := BucketOf(key);
      var d := BucketNode(b);
      StartsBefore(key, d);
      assert Regular(node);
      added := AddNode(node, d, val);
    }

    method AddNode(node: Node<V>, d: Node<V>, val: V) returns (added: bool)
      requires Valid() && d in spine && d.code < node.code && node !in nodes && Regular(node) && node.value == Some(val)
      modifies node, nodes, `spine, `nodes, `contents, `count
      ensures Valid() && added == (node.key !in old(contents))
      ensures contents == if added then old(contents)[node.key := val] else old(contents)
      ensures count == old(count) + if added then 1 else 0
    {
      hide Sorted, Consistent, Linked, InsertOutcome, Regular;
      Parts();
      var res, i, to := ListInsert(d, node, spine, nodes);
      RegularInserted(table[..], spine, contents, bits, node, val, res, i, to);
      added := res == node;
      if added {
        spine, nodes, contents, count := to, nodes + {node}, contents[node.key := val], count + 1;
      }
    }

    /** Doubles the table; the buckets of the new half are initialised when they are first used. */
    method ResizeTable()
      requires Valid() && size < TOP_BIT
      modifies this
      ensures Valid() && contents == old(contents) && count == old(count) && size == 2 * old(size)
    {
      hide Consistent, Linked;
      FewerBits();
      var t := Doubled();
      GrowKeeps(table[..], t[..], spine, contents, bits);
      table, size, bits := t, size * 2, bits + 1;
    }

    /** The old table with an empty half behind it. */
    method Doubled() returns (t: array<Node?<V>>)
      requires table.Length == size
      ensures fresh(t) && t.Length == 2 * size && t[..size] == table[..] && forall b :: size <= b < t.Length ==> t[b] == null
    {
      t := new Node?<V>[size * 2](_ => null);
      forall b | 0 <= b < size { t[b] := table[b]; }
    }

    lemma FewerBits()
      requires Valid() && size < TOP_BIT
      ensures bits < 31
    {
      hide Pow2, Valid;
      TopBit();
      BitsBound();
    }

    /** Deletes a key and returns its value. */
    method Delete(key: nat) returns (r: Option<V>)
      requires Valid()
      modifies this, table, nodes
      ensures Valid() && contents == old(contents) - {key}
      ensures r == if key in old(contents) then Some(old(contents)[key]) else None
    {
      hide DummyCode, RegularCode, HashKey, Valid, Is;
      var prev, cur, i := Search(key);
      Parts();
      FoundMeans(table[..], spine, contents, bits, key, i);
      if cur == null || cur.code != RegularCode(HashKey(key)) || cur.key != key {
        IsNot(spine, i, RegularCode(HashKey(key)), key);
        return None;
      }
      MakeIs(cur, RegularCode(HashKey(key)), key);
      r := cur.value;
      Unlink(prev, cur, key, i);
    }

    method Unlink(prev: Node<V>, cur: Node<V>, key: nat, ghost i: nat)
      requires Valid() && 0 < i < |spine| && prev == spine[i - 1] && cur == spine[i] && Is(cur, RegularCode(HashKey(key)), key)
      modifies nodes, `spine, `contents, `count
      ensures Valid() && contents == old(contents) - {key}
    {
      hide DummyCode, RegularCode, HashKey, Sorted, Linked, Consistent;
      Parts();
      RemoveKeeps(table[..], spine, contents, bits, key, i);
      RemovedHas(spine, i);
      assert contents == (contents - {key})[key := contents[key]];
      Unsplice(prev, cur, spine, i);
      spine, contents, count := Removed(spine, i), contents - {key}, count - 1;
    }
  }

  lemma IsNot<V>(spine: seq<Node<V>>, i: nat, code: nat, key: nat)
    requires i < |spine| ==> spine[i].code != code || spine[i].key != key
    ensures !(i < |spine| && Is(spine[i], code, key))
  {
  }

  lemma MakeIs<V>(n: Node<V>, code: nat, key: nat)
    requires n.code == code && n.key == key
    ensures Is(n, code, key)
  {
  }
}
