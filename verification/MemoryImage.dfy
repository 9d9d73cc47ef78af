/** The memory image: assembled sections go to sparse pages, the pages to physical frames. The image is read
    back through the TLB. */
module MemoryImage {
  import opened Counting
  import opened X86Memory
  import opened Wrappers

  type Pages = map<nat, seq<Byte>>

  function PageOf(a: nat, page: nat): nat
    requires page > 0
  {
    a / page
  }

  /** The page base of an address; for a page size that is a power of two, the source masks the low bits off. */
  function PageBase(a: nat, page: nat): (b: nat)
    requires page > 0
    ensures b <= a < b + page && a - b == a % page
  {
    page * (PageOf(a, page))
  }

  ghost predicate Paged(pages: Pages, page: nat)
    requires page > 0
  {
    forall b :: b in pages ==> |pages[b]| == page
  }

  /** The byte at a linear address, if its page is there. */
  function At(pages: Pages, page: nat, a: nat): Option<Byte>
    requires page > 0 && Paged(pages, page)
  {
    var b := PageBase(a, page);
    if b in pages then Some(pages[b][a - b]) else None
  }

  lemma BaseOf(q: nat, x: nat, page: nat)
    requires page > 0 && page * q <= x < page * q + page
    ensures PageOf(x, page) == q && PageBase(x, page) == page * q
  {
    Remainder(q, x - page * q, page);
  }

  lemma SameBase(a: nat, b: nat, page: nat)
    requires page > 0
    ensures PageBase(a, page) == PageBase(b, page) <==> PageOf(a, page) == PageOf(b, page)
  {
    Remainder(PageOf(a, page), 0, page);
    Remainder(PageOf(b, page), 0, page);
  }

  // ---------- sparse writes ----------

  /** The write puts bytes on the page of `a`. */
  predicate Touches(addr: nat, n: nat, page: nat, a: nat)
    requires page > 0
  {
    n > 0 && PageOf(addr, page) <= PageOf(a, page) <= PageOf(addr + n - 1, page)
  }

  /** What is at `a` after `data` is written at `addr`: the byte written, what was there, or the zero that a
      new page starts with. */
  function Written(before: Option<Byte>, addr: nat, data: seq<Byte>, page: nat, a: nat): Option<Byte>
    requires page > 0
  {
    if addr <= a < addr + |data| then Some(data[a - addr])
    else if before.None? && Touches(addr, |data|, page, a) then Some(0)
    else before
  }

  /** One chunk: the part of the data that lies on one page. */
  function PutChunk(pages: Pages, page: nat, b: nat, off: nat, chunk: seq<Byte>): (r: Pages)
    requires page > 0 && Paged(pages, page) && off + |chunk| <= page
    ensures Paged(r, page)
  {
    var was := if b in pages then pages[b] else seq(page, _ => 0);
    pages[b := was[..off] + chunk + was[off + |chunk|..]]
  }

  lemma ChunkAt(pages: Pages, page: nat, q: nat, off: nat, chunk: seq<Byte>, a: nat)
    requires page > 0 && Paged(pages, page) && off + |chunk| <= page
    ensures At(PutChunk(pages, page, page * q, off, chunk), page, a) ==
      (if PageOf(a, page) != q then At(pages, page, a)
       else if page * q + off <= a < page * q + off + |chunk| then Some(chunk[a - page * q - off])
       else if At(pages, page, a).None? then Some(0) else At(pages, page, a))
  {
    SameBase(a, page * q, page);
    BaseOf(q, page * q, page);
  }

  /** A chunk more of the data is a longer write. */
  lemma ChunkExtends(before: Option<Byte>, addr: nat, data: seq<Byte>, page: nat, n: nat, len: nat, a: nat)
    requires page > 0 && 0 < len && n + len <= |data|
    requires n > 0 ==> (addr + n) % page == 0
    requires var x := addr + n; x % page + len <= page
    ensures var x, w := addr + n, Written(before, addr, data[..n], page, a);
      Written(before, addr, data[..n + len], page, a) ==
      (if PageOf(a, page) != PageOf(x, page) then w
       else if x <= a < x + len then Some(data[a - addr])
       else if w.None? then Some(0) else w)
  {
    hide PageOf;
    var x := addr + n;
    ChunkPages(addr, page, n, len, a);
    if addr <= a < x { assert data[..n][a - addr] == data[..n + len][a - addr]; }
  }

  /** Where the pages of a write end before and after a chunk. */
  lemma ChunkPages(addr: nat, page: nat, n: nat, len: nat, a: nat)
    requires page > 0 && 0 < len && (n > 0 ==> (addr + n) % page == 0) && (addr + n) % page + len <= page
    ensures var x := addr + n; var q := PageOf(x, page);
      && PageOf(x + len - 1, page) == q && PageOf(addr, page) <= q
      && (n > 0 ==> q > 0 && PageOf(x - 1, page) == q - 1 && PageOf(addr, page) <= q - 1)
      && (x <= a < x + len ==> PageOf(a, page) == q)
      && (addr <= a < x ==> PageOf(a, page) < q)
  {
    var x := addr + n;
    var q := PageOf(x, page);
    assert x == page * q + x % page;
    BaseOf(q, x + len - 1, page);
    if x <= a < x + len { BaseOf(q, a, page); }
    if n > 0 {
      LastPage(x, q, page);
      Monotone(addr, x - 1, page);
      if addr <= a < x { Monotone(a, x - 1, page); }
    }
    hide PageOf;
  }

  lemma LastPage(x: nat, q: nat, page: nat)
    requires page > 0 && x > 0 && x % page == 0 && q == PageOf(x, page)
    ensures q > 0 && PageOf(x - 1, page) == q - 1
  {
    assert x == page * q;
    assert q > 0;
    assert page * (q - 1) == x - page;
    BaseOf(q - 1, x - 1, page);
  }

  lemma Monotone(a: nat, b: nat, page: nat)
    requires page > 0 && a <= b
    ensures PageOf(a, page) <= PageOf(b, page)
  {
    var p, q := PageOf(a, page), PageOf(b, page);
    if p > q { AtLeast(page, p - q); }
  }

  // ---------- mapping to frames ----------

  /** A mapping of a linear address, by its page, to a physical frame. */
  datatype Mapping = Mapping(va: nat, frame: int)

  datatype Error = FrameOutOfRange | Indivisible
  datatype Outcome<T> = Built(value: T) | Failed(error: Error)

  predicate InMemory(m: Mapping, page: nat, memSize: nat)
    requires page > 0
  {
    0 <= m.frame < memSize / page
  }

  /** The image at `p`: the last mapping of its frame whose page was assembled, or the background. */
  function ImageAt(pages: Pages, mappings: seq<Mapping>, page: nat, background: seq<Byte>, p: nat): Byte
    requires page > 0 && Paged(pages, page) && p < |background|
    decreases |mappings|
  {
    if mappings == [] then background[p]
    else
      var m := mappings[|mappings| - 1];
      if m.frame == PageOf(p, page) && PageBase(m.va, page) in pages then pages[PageBase(m.va, page)][p % page]
      else ImageAt(pages, mappings[..|mappings| - 1], page, background, p)
  }

  lemma FrameFits(frame: nat, page: nat, memSize: nat)
    requires page > 0 && frame < memSize / page
    ensures frame * page + page <= memSize && frame * page == page * frame
  {
    var n := memSize / page;
    assert page * n <= memSize;
    if n - frame >= 1 { AtLeast(page, n - frame); }
  }

  function Copied(image: seq<Byte>, at: nat, bytes: seq<Byte>): (s: seq<Byte>)
    requires at + |bytes| <= |image|
    ensures |s| == |image|
  {
    image[..at] + bytes + image[at + |bytes|..]
  }

  /** Copying one page into its frame. */
  lemma FrameCopied(image: seq<Byte>, frame: nat, bytes: seq<Byte>, page: nat, p: nat)
    requires page > 0 && |bytes| == page && page * frame + page <= |image| && p < |image|
    ensures Copied(image, page * frame, bytes)[p] ==
      if PageOf(p, page) == frame then bytes[p % page] else image[p]
  {
    assert PageBase(p, page) == page * PageOf(p, page);
    if page * frame <= p < page * frame + page { BaseOf(frame, p, page); }
  }

  class SparseImage {
    const page: nat
    var pages: Pages

    ghost predicate Valid()
      reads this
    {
      page > 0 && Paged(pages, page)
    }

    constructor (page: nat)
      requires page > 0
      ensures Valid() && this.page == page && pages == map[]
    {
      this.page := page;
      pages := map[];
    }

    method SparseWrite(addr: nat, data: seq<Byte>)
      requires Valid()
      modifies this
      ensures Valid() && WrittenTo(old(pages), pages, page, addr, data)
    {
      hide WrittenTo, PageBase;
      ghost var before := pages;
      NothingWritten(before, page, addr, data);
      var offset: nat := 0;
      while offset < |data|
        invariant Valid() && offset <= |data|
        invariant 0 < offset < |data| ==> (addr + offset) % page == 0
        invariant WrittenTo(before, pages, page, addr, data[..offset])
      {
        var base := PageBase(addr + offset, page);
        var pageOff := addr + offset - base;
        var chunkLen := if |data| - offset < page - pageOff then |data| - offset else page - pageOff;
        ChunkWritten(before, pages, page, addr, data, offset, chunkLen);
        NextChunk(addr + offset, page, chunkLen);
        var was := if base in pages then pages[base] else seq(page, _ => 0);
        pages := pages[base := was[..pageOff] + data[offset..offset + chunkLen] + was[pageOff + chunkLen..]];
        offset := offset + chunkLen;
      }
      assert data[..offset] == data;
    }

    /** Writes the sections in order. */
    method WriteSections(sections: seq<Section>)
      requires Valid() && pages == map[]
      modifies this
      ensures Valid() && Assembled(pages, page, sections)
    {
      hide WrittenTo, Assembled;
      NothingAssembled(page);
      assert sections[..0] == [];
      for k := 0 to |sections|
        invariant Valid() && Assembled(pages, page, sections[..k])
      {
        ghost var before := pages;
        SparseWrite(sections[k].va, sections[k].data);
        OneMoreSection(before, pages, page, sections, k);
      }
      assert sections[..|sections|] == sections;
    }

    /** The physical image, unless a frame lies outside the memory. */
    method ApplyVmMappings(mappings: seq<Mapping>, background: seq<Byte>) returns (r: Outcome<seq<Byte>>)
      requires Valid()
      ensures r.Built? <==> forall m :: m in mappings ==> InMemory(m, page, |background|)
      ensures r.Built? ==> IsImage(r.value, pages, mappings, page, background)
    {
      hide PageBase, ImageAt;
      var image := background;
      NoMappings(pages, page, background);
      assert mappings[..0] == [];
      for k := 0 to |mappings|
        invariant forall m :: m in mappings[..k] ==> InMemory(m, page, |background|)
        invariant IsImage(image, pages, mappings[..k], page, background)
      {
        var vaPage := PageBase(mappings[k].va, page);
        if mappings[k].frame < 0 || mappings[k].frame > |background| / page - 1 {
          assert !InMemory(mappings[k], page, |background|);
          return Failed(FrameOutOfRange);
        }
        var frame: nat := mappings[k].frame;
        FrameFits(frame, page, |background|);
        OneMoreMapping(image, pages, mappings, page, background, k);
        if vaPage in pages {
          image := image[..page * frame] + pages[vaPage] + image[page * frame + page..];
        }
      }
      assert mappings[..|mappings|] == mappings;
      return Built(image);
    }
  }

  datatype Section = Section(va: nat, data: seq<Byte>)

  /** What the sections leave at `a`. */
  function LastWritten(sections: seq<Section>, page: nat, a: nat): Option<Byte>
    requires page > 0
    decreases |sections|
  {
    if sections == [] then None
    else
      var s := sections[|sections| - 1];
      Written(LastWritten(sections[..|sections| - 1], page, a), s.va, s.data, page, a)
  }

  predicate Covers(s: Section, a: nat) { s.va <= a < s.va + |s.data| }

  /** The last section that covers an address decides its byte. */
  lemma {:induction false} LastWriteWins(sections: seq<Section>, page: nat, a: nat, k: nat)
    requires page > 0 && k < |sections| && Covers(sections[k], a)
    requires forall j :: k < j < |sections| ==> !Covers(sections[j], a)
    ensures LastWritten(sections, page, a) == Some(sections[k].data[a - sections[k].va])
    decreases |sections|
  {
    hide Touches;
    if k < |sections| - 1 { LastWriteWins(sections[..|sections| - 1], page, a, k); }
  }

  ghost predicate Assembled(pages: Pages, page: nat, sections: seq<Section>)
    requires page > 0 && Paged(pages, page)
  {
    forall a: nat :: At(pages, page, a) == LastWritten(sections, page, a)
  }

  lemma NothingAssembled(page: nat)
    requires page > 0
    ensures Assembled(map[], page, [])
  {
  }

  lemma OneMoreSection(before: Pages, after: Pages, page: nat, sections: seq<Section>, k: nat)
    requires page > 0 && k < |sections| && Paged(before, page) && Paged(after, page)
    requires Assembled(before, page, sections[..k])
    requires WrittenTo(before, after, page, sections[k].va, sections[k].data)
    ensures Assembled(after, page, sections[..k + 1])
  {
    hide At, Written;
    assert sections[..k + 1][..k] == sections[..k];
  }

  ghost predicate IsImage(image: seq<Byte>, pages: Pages, mappings: seq<Mapping>, page: nat, background: seq<Byte>)
    requires page > 0 && Paged(pages, page)
  {
    |image| == |background| && forall p :: 0 <= p < |image| ==> image[p] == ImageAt(pages, mappings, page, background, p)
  }

  lemma NoMappings(pages: Pages, page: nat, background: seq<Byte>)
    requires page > 0 && Paged(pages, page)
    ensures IsImage(background, pages, [], page, background)
  {
  }

  lemma OneMoreMapping(image: seq<Byte>, pages: Pages, mappings: seq<Mapping>, page: nat, background: seq<Byte>, k: nat)
    requires page > 0 && Paged(pages, page) && k < |mappings|
    requires mappings[k].frame >= 0 && page * mappings[k].frame + page <= |background|
    requires IsImage(image, pages, mappings[..k], page, background)
    ensures var b, at := PageBase(mappings[k].va, page), page * mappings[k].frame;
      IsImage(if b in pages then Copied(image, at, pages[b]) else image, pages, mappings[..k + 1], page, background)
  {
    assert mappings[..k + 1][..k] == mappings[..k];
    var b, at := PageBase(mappings[k].va, page), page * mappings[k].frame;
    hide PageBase, PageOf;
    if b in pages {
      var copied := Copied(image, at, pages[b]);
      forall p | 0 <= p < |image| ensures copied[p] == ImageAt(pages, mappings[..k + 1], page, background, p)
      {
        FrameCopied(image, mappings[k].frame, pages[b], page, p);
      }
    }
  }

  /** Every byte is as the write leaves it. */
  ghost predicate WrittenTo(before: Pages, after: Pages, page: nat, addr: nat, data: seq<Byte>)
    requires page > 0 && Paged(before, page) && Paged(after, page)
  {
    forall a: nat :: At(after, page, a) == Written(At(before, page, a), addr, data, page, a)
  }

  lemma NothingWritten(before: Pages, page: nat, addr: nat, data: seq<Byte>)
    requires page > 0 && Paged(before, page)
    ensures WrittenTo(before, before, page, addr, data[..0])
  {
  }

  lemma ChunkWritten(before: Pages, now: Pages, page: nat, addr: nat, data: seq<Byte>, offset: nat, len: nat)
    requires page > 0 && Paged(before, page) && Paged(now, page) && 0 < len && offset + len <= |data|
    requires offset > 0 ==> (addr + offset) % page == 0
    requires (addr + offset) - PageBase(addr + offset, page) + len <= page
    requires WrittenTo(before, now, page, addr, data[..offset])
    ensures var base := PageBase(addr + offset, page);
      WrittenTo(before, PutChunk(now, page, base, addr + offset - base, data[offset..offset + len]), page, addr, data[..offset + len])
  {
    var x := addr + offset;
    var q, chunk := PageOf(x, page), data[offset..offset + len];
    assert PageBase(x, page) == page * q;
    var after := PutChunk(now, page, page * q, x - page * q, chunk);
    forall a: nat ensures At(after, page, a) == Written(At(before, page, a), addr, data[..offset + len], page, a) {
      hide At, Written, PutChunk, PageOf;
      ChunkAt(now, page, q, x - page * q, chunk, a);
      ChunkExtends(At(before, page, a), addr, data, page, offset, len, a);
    }
  }

  lemma NextChunk(x: nat, page: nat, len: nat)
    requires page > 0 && x - PageBase(x, page) + len <= page
    ensures x - PageBase(x, page) + len == page ==> (x + len) % page == 0
  {
    Remainder(x / page + 1, 0, page);
    hide PageBase;
    assert page * (x / page + 1) == page * (x / page) + page;
  }

  // ---------- reading back ----------

  /** Mapping `j` is the last of its frame among those whose page was assembled. */
  ghost predicate Undisturbed(pages: Pages, mappings: seq<Mapping>, page: nat, j: nat)
    requires page > 0 && j < |mappings|
  {
    forall k :: j < k < |mappings| ==> mappings[k].frame != mappings[j].frame || PageBase(mappings[k].va, page) !in pages
  }

  /** Entry `i` of the TLB maps the page of `a` as the mapping does. */
  ghost predicate Mirrors(entries: seq<Entry>, i: nat, m: Mapping, a: nat) {
    i < |entries| && Decides(entries, i, Vpn(a)) && entries[i].present && entries[i].pfn == m.frame
  }

  lemma {:induction false} MappedPage(pages: Pages, mappings: seq<Mapping>, page: nat, background: seq<Byte>, p: nat, j: nat)
    requires page > 0 && Paged(pages, page) && p < |background| && j < |mappings|
    requires Undisturbed(pages, mappings, page, j)
    requires mappings[j].frame == PageOf(p, page) && PageBase(mappings[j].va, page) in pages
    ensures ImageAt(pages, mappings, page, background, p) == pages[PageBase(mappings[j].va, page)][p % page]
    decreases |mappings|
  {
    hide PageBase, PageOf;
    if j < |mappings| - 1 { MappedPage(pages, mappings[..|mappings| - 1], page, background, p, j); }
  }

  /** A byte that was written to a mapped page comes back from its linear address. */
  lemma WrittenIsFetched(pages: Pages, sections: seq<Section>, mappings: seq<Mapping>, background: seq<Byte>, image: seq<Byte>, size: nat, entries: seq<Entry>, a: nat, i: nat, j: nat)
    requires Paged(pages, PAGE) && Assembled(pages, PAGE, sections)
    requires IsImage(image, pages, mappings, PAGE, background) && |image| <= size
    requires j < |mappings| && InMemory(mappings[j], PAGE, |image|) && Undisturbed(pages, mappings, PAGE, j)
    requires a < SPACE && PageOf(a, PAGE) == PageOf(mappings[j].va, PAGE) && Mirrors(entries, i, mappings[j], a)
    requires LastWritten(sections, PAGE, a).Some?
    ensures ByteAt(Loaded(image, size), entries, a) == X86Memory.Ok(LastWritten(sections, PAGE, a).value)
  {
    var p := PAGE * mappings[j].frame + a % PAGE;
    PlaceInFrame(mappings[j], a, |image|);
    TranslatesToFrame(entries, mappings[j], a, i, size);
    SameBase(a, mappings[j].va, PAGE);
    assert At(pages, PAGE, a) == LastWritten(sections, PAGE, a);
    MappedPage(pages, mappings, PAGE, background, p, j);
    hide Assembled, ImageAt, LastWritten, Translate, Mirrors, PageOf;
  }

  lemma PlaceInFrame(m: Mapping, a: nat, memSize: nat)
    requires InMemory(m, PAGE, memSize)
    ensures var p := PAGE * m.frame + a % PAGE;
      p < memSize && PageOf(p, PAGE) == m.frame && p % PAGE == a % PAGE
  {
    FrameFits(m.frame, PAGE, memSize);
    Remainder(m.frame, a % PAGE, PAGE);
  }

  lemma TranslatesToFrame(entries: seq<Entry>, m: Mapping, a: nat, i: nat, size: nat)
    requires a < SPACE && Mirrors(entries, i, m, a) && PAGE * m.frame + a % PAGE < size
    ensures Translate(entries, a % SPACE, size) == X86Memory.Ok(PAGE * m.frame + a % PAGE)
  {
    FirstEntryDecides(entries, a, size, i);
  }

  /** A fetch over written bytes of mapped pages gives just those bytes. */
  lemma FetchReadsBack(data: seq<Byte>, entries: seq<Entry>, base: nat, bytes: seq<Byte>)
    requires forall a :: base <= a < base + |bytes| ==> ByteAt(data, entries, a) == X86Memory.Ok(bytes[a - base])
    ensures Fetched(data, entries, base, |bytes|) == bytes
  {
    hide ByteAt;
    var s := Fetched(data, entries, base, |bytes|);
    assert |s| == |bytes|;
    assert forall i :: 0 <= i < |s| ==> s[i] == bytes[i];
  }

  /** From the sections to the fetch: the bytes of the sections at `base`, when their pages are mapped and the
      TLB mirrors the mappings. */
  lemma SectionsAreFetched(pages: Pages, sections: seq<Section>, mappings: seq<Mapping>, background: seq<Byte>, image: seq<Byte>, size: nat, entries: seq<Entry>, base: nat, bytes: seq<Byte>)
    requires Paged(pages, PAGE) && Assembled(pages, PAGE, sections)
    requires IsImage(image, pages, mappings, PAGE, background) && |image| <= size
    requires base + |bytes| <= SPACE
    requires forall a :: base <= a < base + |bytes| ==> LastWritten(sections, PAGE, a) == Some(bytes[a - base])
    requires forall a :: base <= a < base + |bytes| ==> Mapped(pages, mappings, entries, |image|, a)
    ensures Fetched(Loaded(image, size), entries, base, |bytes|) == bytes
  {
    var data := Loaded(image, size);
    forall a | base <= a < base + |bytes| ensures ByteAt(data, entries, a) == X86Memory.Ok(bytes[a - base]) {
      hide Assembled, IsImage, LastWritten, ByteAt, Undisturbed, Mirrors, InMemory;
      assert Mapped(pages, mappings, entries, |image|, a);
      var j: nat :| j < |mappings| && MappedBy(pages, mappings, entries, |image|, a, j);
      var i: nat :| i < |entries| && Mirrors(entries, i, mappings[j], a);
      WrittenIsFetched(pages, sections, mappings, background, image, size, entries, a, i, j);
    }
    FetchReadsBack(data, entries, base, bytes);
  }

  ghost predicate MappedBy(pages: Pages, mappings: seq<Mapping>, entries: seq<Entry>, memSize: nat, a: nat, j: nat)
    requires j < |mappings|
  {
    && InMemory(mappings[j], PAGE, memSize) && Undisturbed(pages, mappings, PAGE, j)
    && PageOf(a, PAGE) == PageOf(mappings[j].va, PAGE)
    && exists i: nat :: i < |entries| && Mirrors(entries, i, mappings[j], a)
  }

  /** Some mapping brings the page of `a` into memory, and the TLB follows it. */
  ghost predicate Mapped(pages: Pages, mappings: seq<Mapping>, entries: seq<Entry>, memSize: nat, a: nat) {
    exists j: nat :: j < |mappings| && MappedBy(pages, mappings, entries, memSize, a, j)
  }
}
