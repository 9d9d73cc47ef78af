/** The memory of the functional x86 simulator: segment limit, segment base, TLB and 32 KB of bytes. */
module X86Memory {
  import opened Counting

  type Byte = x: int | 0 <= x < 256

  datatype Fault = BeyondLimit | NotPresent | NotInTlb | BeyondMemory
  datatype Result<T> = Ok(value: T) | Err(fault: Fault)

  datatype Entry = Entry(valid: bool, present: bool, vpn: nat, pfn: nat)
  datatype Segment = Segment(selector: nat, limit: nat)

  const PAGE: nat := 4096
  const SPACE: nat := 0x1_0000_0000

  function Linear(seg: Segment, offset: nat): (a: nat)
    ensures a < SPACE
  {
    (seg.selector % 0x1_0000 * 0x1_0000 + offset % SPACE) % SPACE
  }

  // ---------- little-endian values ----------

  function Power256(n: nat): (p: nat)
    ensures p > 0
  {
    if n == 0 then 1 else 256 * Power256(n - 1)
  }

  function ToBytes(v: nat, n: nat): (s: seq<Byte>)
    ensures |s| == n
    decreases n
  {
    if n == 0 then [] else [v % 256] + ToBytes(v / 256, n - 1)
  }

  function FromBytes(s: seq<Byte>): (v: nat)
    ensures v < Power256(|s|)
  {
    if s == [] then 0 else s[0] + 256 * FromBytes(s[1..])
  }

  lemma {:induction false} BytesOfValue(v: nat, n: nat)
    ensures FromBytes(ToBytes(v, n)) == v % Power256(n)
    decreases n
  {
    if n > 0 {
      BytesOfValue(v / 256, n - 1);
      assert ToBytes(v, n)[1..] == ToBytes(v / 256, n - 1);
      SplitMod(v / 256, v % 256, Power256(n - 1));
    }
  }

  lemma SplitMod(w: nat, d: nat, p: nat)
    requires p > 0 && d < 256
    ensures (256 * w + d) % (256 * p) == d + 256 * (w % p)
  {
    var q, r := w / p, w % p;
    assert w == p * q + r;
    Reassociate(p, q);
    Remainder(q, 256 * r + d, 256 * p);
  }

  lemma Reassociate(p: nat, q: nat)
    ensures 256 * (p * q) == (256 * p) * q
  {
  }

  lemma {:induction false} ValueOfBytes(s: seq<Byte>)
    ensures ToBytes(FromBytes(s), |s|) == s
  {
    if s != [] {
      ValueOfBytes(s[1..]);
      Remainder(FromBytes(s[1..]), s[0], 256);
    }
  }

  lemma DigitShift(v: nat, p: nat)
    requires p > 0
    ensures v / (256 * p) == v / 256 / p
  {
    var h, q, r := v / 256, v / 256 / p, v / 256 % p;
    assert v == 256 * h + v % 256;
    assert h == p * q + r;
    Reassociate(p, q);
    Remainder(q, 256 * r + v % 256, 256 * p);
  }

  /** The bytes are the digits to base 256, the least significant one first. */
  lemma {:induction false} DigitOfBytes(v: nat, n: nat, k: nat)
    requires k < n
    ensures ToBytes(v, n)[k] == v / Power256(k) % 256
    decreases n
  {
    if k > 0 {
      DigitOfBytes(v / 256, n - 1, k - 1);
      DigitShift(v, Power256(k - 1));
    }
  }

  /** So the byte at position `k` has the weight 256 to the power of k. */
  lemma DigitOfValue(s: seq<Byte>, k: nat)
    requires k < |s|
    ensures s[k] == FromBytes(s) / Power256(k) % 256
  {
    ValueOfBytes(s);
    DigitOfBytes(FromBytes(s), |s|, k);
  }

  // ---------- translation ----------

  function Vpn(linear: nat): nat { linear / PAGE % 0x10_0000 }

  /** The first valid entry decides, whatever later entries say. */
  predicate Decides(entries: seq<Entry>, i: nat, vpn: nat)
    requires i < |entries|
  {
    && entries[i].valid && entries[i].vpn == vpn
    && forall j :: 0 <= j < i ==> !(entries[j].valid && entries[j].vpn == vpn)
  }

  function Frame(e: Entry, offset: nat, size: nat): Result<nat> {
    if !e.present then Err(NotPresent)
    else if e.pfn * PAGE + offset >= size then Err(BeyondMemory)
    else Ok(e.pfn * PAGE + offset)
  }

  function Translate(entries: seq<Entry>, linear: nat, size: nat): (r: Result<nat>)
    ensures r.Ok? ==> r.value < size
    ensures r != Err(BeyondLimit)
  {
    if entries == [] then Err(NotInTlb)
    else if entries[0].valid && entries[0].vpn == Vpn(linear) then Frame(entries[0], linear % PAGE, size)
    else Translate(entries[1..], linear, size)
  }

  lemma {:induction false} FirstEntryDecides(entries: seq<Entry>, linear: nat, size: nat, i: nat)
    requires i < |entries| && Decides(entries, i, Vpn(linear))
    ensures Translate(entries, linear, size) == Frame(entries[i], linear % PAGE, size)
    decreases i
  {
    if i > 0 {
      assert !(entries[0].valid && entries[0].vpn == Vpn(linear));
      assert forall j :: 0 <= j < i - 1 ==> entries[1..][j] == entries[j + 1];
      FirstEntryDecides(entries[1..], linear, size, i - 1);
    }
  }

  /** The address of a page in numbers: its frame, and the offset in the page. */
  lemma TranslationMeans(entries: seq<Entry>, linear: nat, size: nat, i: nat)
    requires linear < SPACE && i < |entries|
    requires entries[i].valid && entries[i].vpn == linear / 4096
    requires forall j :: 0 <= j < i ==> !(entries[j].valid && entries[j].vpn == linear / 4096)
    ensures
      var r, a := Translate(entries, linear, size), 4096 * entries[i].pfn + linear % 4096;
      && (r.Ok? <==> entries[i].present && a < size)
      && (r.Ok? ==> r.value == a)
      && (r == Err(NotPresent) <==> !entries[i].present)
      && (r == Err(BeyondMemory) <==> entries[i].present && a >= size)
  {
    FirstEntryDecides(entries, linear, size, i);
  }

  lemma {:induction false} UnmappedPage(entries: seq<Entry>, linear: nat, size: nat)
    requires forall j :: 0 <= j < |entries| ==> !(entries[j].valid && entries[j].vpn == Vpn(linear))
    ensures Translate(entries, linear, size) == Err(NotInTlb)
    decreases |entries|
  {
    if entries != [] {
      assert forall j :: 0 <= j < |entries| - 1 ==> entries[1..][j] == entries[j + 1];
      UnmappedPage(entries[1..], linear, size);
    }
  }

  // ---------- data accesses ----------

  /** Where an access of `n` bytes lands: only its first byte is translated. */
  function Place(entries: seq<Entry>, seg: Segment, offset: nat, n: nat, size: nat): (r: Result<nat>)
    ensures r.Ok? ==> r.value < size && r.value + n <= size
  {
    if offset % SPACE > seg.limit then Err(BeyondLimit)
    else
      var p := Translate(entries, Linear(seg, offset), size);
      if p.Err? then p else if p.value + n > size then Err(BeyondMemory) else p
  }

  function Load(data: seq<Byte>, entries: seq<Entry>, seg: Segment, offset: nat, n: nat): Result<nat> {
    var p := Place(entries, seg, offset, n, |data|);
    if p.Err? then p else Ok(FromBytes(data[p.value..p.value + n]))
  }

  function Store(data: seq<Byte>, entries: seq<Entry>, seg: Segment, offset: nat, n: nat, v: nat): (r: Result<seq<Byte>>)
    ensures r.Ok? ==> |r.value| == |data|
  {
    var p := Place(entries, seg, offset, n, |data|);
    if p.Err? then Err(p.fault)
    else Ok(data[..p.value] + ToBytes(v, n) + data[p.value + n..])
  }

  /** A value that was stored is loaded again, cut down to its width. */
  lemma StoreThenLoad(data: seq<Byte>, entries: seq<Entry>, seg: Segment, offset: nat, n: nat, v: nat)
    requires Store(data, entries, seg, offset, n, v).Ok?
    ensures Load(Store(data, entries, seg, offset, n, v).value, entries, seg, offset, n) == Ok(v % Power256(n))
  {
    hide Translate, ToBytes, FromBytes;
    var p := Place(entries, seg, offset, n, |data|).value;
    var after := Store(data, entries, seg, offset, n, v).value;
    assert after[p..p + n] == ToBytes(v, n);
    BytesOfValue(v, n);
  }

  /** Bytes that a store does not touch keep what they held. */
  lemma StoreKeepsOthers(data: seq<Byte>, entries: seq<Entry>, seg: Segment, offset: nat, n: nat, v: nat, other: Segment, at: nat, m: nat)
    requires Store(data, entries, seg, offset, n, v).Ok? && Place(entries, other, at, m, |data|).Ok?
    requires
      var p, q := Place(entries, seg, offset, n, |data|).value, Place(entries, other, at, m, |data|).value;
      p + n <= q || q + m <= p
    ensures Load(Store(data, entries, seg, offset, n, v).value, entries, other, at, m) == Load(data, entries, other, at, m)
  {
    hide Translate, ToBytes, FromBytes;
    var p, q := Place(entries, seg, offset, n, |data|).value, Place(entries, other, at, m, |data|).value;
    var after := Store(data, entries, seg, offset, n, v).value;
    if q + m <= p {
      assert after[..p] == data[..p];
      assert after[q..q + m] == after[..p][q..q + m] == data[..p][q..q + m] == data[q..q + m];
    } else {
      assert after[p + n..] == data[p + n..];
      assert after[q..q + m] == after[p + n..][q - p - n..q + m - p - n] == data[q..q + m];
    }
  }

  // ---------- instruction fetch ----------

  /** The byte at a linear address. */
  function ByteAt(data: seq<Byte>, entries: seq<Entry>, linear: nat): Result<Byte> {
    var p := Translate(entries, linear % SPACE, |data|);
    if p.Err? then Err(p.fault) else Ok(data[p.value])
  }

  /** The fault is the one that the translation of the address raises. */
  predicate FaultAt(data: seq<Byte>, entries: seq<Entry>, linear: nat, fault: Result<()>) {
    var b := ByteAt(data, entries, linear);
    b.Err? && fault == Err(b.fault)
  }

  /** The bytes up to the first address that does not translate. Only the first one is checked against the limit. */
  function Fetched(data: seq<Byte>, entries: seq<Entry>, base: nat, n: nat): (s: seq<Byte>)
    ensures |s| <= n
    ensures forall i :: 0 <= i < |s| ==> ByteAt(data, entries, base + i) == Ok(s[i])
    ensures |s| < n ==> ByteAt(data, entries, base + |s|).Err?
    decreases n
  {
    if n == 0 then []
    else
      var s := Fetched(data, entries, base, n - 1);
      if |s| < n - 1 then s
      else
        var b := ByteAt(data, entries, base + n - 1);
        if b.Err? then s else s + [b.value]
  }

  function CodeBase(cs: Segment, eip: nat): nat { cs.selector % 0x1_0000 * 0x1_0000 + eip % SPACE }

  function Loaded(image: seq<Byte>, size: nat): (s: seq<Byte>)
    ensures |s| == size && forall i :: 0 <= i < size ==> s[i] == if i < |image| then image[i] else 0
  {
    if |image| >= size then image[..size] else image + seq(size - |image|, _ => 0)
  }

  class Memory {
    const data: array<Byte>
    var entries: seq<Entry>

    /** Loads a flat image, cut off or filled up with zeros, and the TLB. */
    constructor (size: nat, image: seq<Byte>, tlb: seq<Entry>)
      ensures fresh(data) && entries == tlb && data[..] == Loaded(image, size)
    {
      data := new Byte[size](i => if 0 <= i < |image| then image[i] else 0);
      entries := tlb;
    }

    method TranslateAddress(linear: nat) returns (r: Result<nat>)
      ensures r == Translate(entries, linear, data.Length)
    {
      var vpn, offset := linear / PAGE % 0x10_0000, linear % PAGE;
      var i := 0;
      while i < |entries|
        invariant 0 <= i <= |entries|
        invariant forall j :: 0 <= j < i ==> !(entries[j].valid && entries[j].vpn == vpn)
      {
        var e := entries[i];
        if e.valid && e.vpn == vpn {
          FirstEntryDecides(entries, linear, data.Length, i);
          if !e.present { return Err(NotPresent); }
          var paddr := e.pfn * PAGE + offset;
          if paddr >= data.Length { return Err(BeyondMemory); }
          return Ok(paddr);
        }
        i := i + 1;
      }
      UnmappedPage(entries, linear, data.Length);
      return Err(NotInTlb);
    }

    method Read(offset: nat, n: nat, seg: Segment) returns (r: Result<nat>)
      ensures r == Load(data[..], entries, seg, offset, n)
      ensures r == Err(BeyondLimit) <==> offset % SPACE > seg.limit
      ensures r.Ok? ==> r.value < Power256(n) && Translate(entries, Linear(seg, offset), data.Length).Ok?
      ensures
        r.Ok? ==>
          var p := Translate(entries, Linear(seg, offset), data.Length).value;
          p + n <= data.Length && forall k :: 0 <= k < n ==> data[p + k] == r.value / Power256(k) % 256
    {
      hide Translate, Linear, FromBytes, Power256;
      if offset % SPACE > seg.limit { return Err(BeyondLimit); }
      var p := TranslateAddress(Linear(seg, offset));
      if p.Err? { return p; }
      if p.value + n > data.Length { return Err(BeyondMemory); }
      var bytes := data[p.value..p.value + n];
      assert data[..][p.value..p.value + n] == bytes;
      forall k | 0 <= k < n ensures data[p.value + k] == FromBytes(bytes) / Power256(k) % 256 {
        assert bytes[k] == data[p.value + k];
        DigitOfValue(bytes, k);
      }
      return Ok(FromBytes(bytes));
    }

    method Write(offset: nat, n: nat, v: nat, seg: Segment) returns (r: Result<()>)
      modifies data
      ensures var after := Store(old(data[..]), entries, seg, offset, n, v);
        if after.Ok? then r == Ok(()) && data[..] == after.value else r == Err(after.fault) && data[..] == old(data[..])
      ensures r == Err(BeyondLimit) <==> offset % SPACE > seg.limit
      ensures r.Ok? ==> Translate(entries, Linear(seg, offset), data.Length).Ok?
      ensures
        r.Ok? ==>
          var p := Translate(entries, Linear(seg, offset), data.Length).value;
          && p + n <= data.Length
          && (forall k :: 0 <= k < n ==> data[p + k] == v / Power256(k) % 256)
          && forall x :: 0 <= x < data.Length && !(p <= x < p + n) ==> data[x] == old(data[x])
    {
      hide Translate, Linear, ToBytes, Power256;
      if offset % SPACE > seg.limit { return Err(BeyondLimit); }
      var p := TranslateAddress(Linear(seg, offset));
      if p.Err? { return Err(p.fault); }
      if p.value + n > data.Length { return Err(BeyondMemory); }
      var bytes := ToBytes(v, n);
      forall i | 0 <= i < n { data[p.value + i] := bytes[i]; }
      assert data[..] == old(data[..])[..p.value] + bytes + old(data[..])[p.value + n..];
      forall k | 0 <= k < n ensures data[p.value + k] == v / Power256(k) % 256 { DigitOfBytes(v, n, k); }
      return Ok(());
    }

    /** The bytes fetched, and the fault that ended the fetch early. */
    method FetchBytes(eip: nat, cs: Segment, count: nat) returns (bytes: seq<Byte>, fault: Result<()>)
      ensures eip % SPACE > cs.limit ==> bytes == [] && fault == Err(BeyondLimit)
      ensures eip % SPACE <= cs.limit ==> bytes == Fetched(data[..], entries, CodeBase(cs, eip), count)
      ensures CodeBase(cs, eip) == cs.selector % 0x1_0000 * 0x1_0000 + eip % SPACE
      ensures eip % SPACE <= cs.limit ==> (fault.Ok? <==> |bytes| == count)
      ensures eip % SPACE <= cs.limit && |bytes| < count ==> FaultAt(data[..], entries, CodeBase(cs, eip) + |bytes|, fault)
    {
      hide Translate, Fetched, ByteAt;
      NothingFetched(data[..], entries, CodeBase(cs, eip));
      bytes := [];
      if eip % SPACE > cs.limit { return bytes, Err(BeyondLimit); }
      fault := Ok(());
      var base := CodeBase(cs, eip);
      var i := 0;
      while i < count
        invariant 0 <= i <= count && |bytes| == i && fault.Ok?
        invariant bytes == Fetched(data[..], entries, base, i)
      {
        var p := TranslateAddress((base + i) % SPACE);
        ByteOrFault(data[..], entries, base + i);
        if p.Err? {
          FetchStops(data[..], entries, base, i, count);
          return bytes, Err(p.fault);
        }
        FetchesOneMore(data[..], entries, base, i);
        bytes := bytes + [data[p.value]];
        i := i + 1;
      }
    }
  }

  lemma NothingFetched(data: seq<Byte>, entries: seq<Entry>, base: nat)
    ensures Fetched(data, entries, base, 0) == []
  {
  }

  lemma ByteOrFault(data: seq<Byte>, entries: seq<Entry>, linear: nat)
    ensures var p := Translate(entries, linear % SPACE, |data|);
      ByteAt(data, entries, linear) == if p.Err? then Err(p.fault) else Ok(data[p.value])
  {
  }

  lemma FetchesOneMore(data: seq<Byte>, entries: seq<Entry>, base: nat, i: nat)
    requires |Fetched(data, entries, base, i)| == i && ByteAt(data, entries, base + i).Ok?
    ensures Fetched(data, entries, base, i + 1) == Fetched(data, entries, base, i) + [ByteAt(data, entries, base + i).value]
  {
    hide ByteAt;
  }

  lemma {:induction false} FetchStops(data: seq<Byte>, entries: seq<Entry>, base: nat, i: nat, n: nat)
    requires i < n && |Fetched(data, entries, base, i)| == i && ByteAt(data, entries, base + i).Err?
    ensures Fetched(data, entries, base, n) == Fetched(data, entries, base, i)
    decreases n
  {
    hide ByteAt;
    if n > i + 1 { FetchStops(data, entries, base, i, n - 1); }
  }
}
