// PRP lists of the PCIe driver: building them from a scatterlist, what a
// controller reads out of them, and freeing them.
module Prp {
  import opened Arith
  import opened Options

  // nvme_enable_ctrl fixes page_shift at 12.
  const PAGE: nat := 4096
  const SLOTS: nat := 512
  const SMALL_SLOTS: nat := 32

  datatype Seg = Seg(addr: nat, len: nat)

  datatype Pool = SmallPool | PagePool

  datatype ListPage = ListPage(pool: Pool, dma: nat, entries: seq<nat>)

  datatype Status = StsOk | StsResource | StsIoErr

  // A list page given back: which one, to which pool, by which DMA address.
  datatype Free = Free(index: nat, pool: Pool, dma: nat)

  function Sum(sgl: seq<Seg>): nat {
    if sgl == [] then 0 else sgl[0].len + Sum(sgl[1..])
  }

  predicate LensOk(sgl: seq<Seg>) {
    forall s | s in sgl :: s.len > 0
  }

  // What the block layer's virt_boundary of one controller page leaves: gaps
  // between segments fall on page boundaries.
  predicate Conforming(sgl: seq<Seg>) {
    sgl == [] || ConformingFrom(sgl[0].addr + sgl[0].len, sgl[1..])
  }

  predicate ConformingFrom(end: nat, rest: seq<Seg>)
    decreases |rest|
  {
    rest == [] || (end % PAGE == 0 && rest[0].addr % PAGE == 0 && ConformingFrom(rest[0].addr + rest[0].len, rest[1..]))
  }

  // The byte addresses of a transfer, in order.
  function Bytes(addr: nat, len: nat): (b: seq<nat>)
    ensures |b| == len
  {
    seq(len, i requires 0 <= i < len => addr + i)
  }

  function Addrs(sgl: seq<Seg>): (b: seq<nat>)
    ensures |b| == Sum(sgl)
  {
    if sgl == [] then [] else Bytes(sgl[0].addr, sgl[0].len) + Addrs(sgl[1..])
  }

  // ---- The controller's reading, section 4.3 of NVM Express 1.4 ----

  function Read(pages: seq<ListPage>, ptr: nat): Option<nat> {
    if pages == [] then None
    else
      var p := pages[0];
      if p.dma <= ptr < p.dma + 8 * |p.entries| && (ptr - p.dma) % 8 == 0 then Some(p.entries[(ptr - p.dma) / 8])
      else Read(pages[1..], ptr)
  }

  // The last slot of a page links to the next list page if it is not the last
  // entry of the transfer.
  function WalkList(pages: seq<ListPage>, ptr: nat, left: nat): seq<Seg>
    decreases left, if ptr % PAGE == PAGE - 8 then 1 else 0
  {
    var e := Read(pages, ptr);
    if e.None? then []
    else if left <= PAGE then [Seg(e.value, left)]
    else if ptr % PAGE == PAGE - 8 then if e.value % PAGE == 0 then WalkList(pages, e.value, left) else []
    else [Seg(e.value, PAGE)] + WalkList(pages, ptr + 8, left - PAGE)
  }

  function Walk(pages: seq<ListPage>, prp1: nat, prp2: nat, length: nat): seq<Seg> {
    var first := PAGE - prp1 % PAGE;
    if length <= first then [Seg(prp1, length)]
    else if length - first <= PAGE then [Seg(prp1, first), Seg(prp2, length - first)]
    else [Seg(prp1, first)] + WalkList(pages, prp2, length - first)
  }

  // ---- The entries the driver emits after the first ----

  // addr and len are what is left of the current segment; None is bad_sgl.
  function Emit(addr: nat, len: int, rest: seq<Seg>, length: nat): (d: Option<seq<nat>>)
    requires length > 0 && length == len + Sum(rest)
    ensures d.Some? ==> |d.value| == CeilDiv(length, PAGE)
    decreases length
  {
    if length <= PAGE then Some([addr])
    else
      var d := if len > PAGE then Emit(addr + PAGE, len - PAGE, rest, length - PAGE)
               else if len < PAGE then None
               else Emit(rest[0].addr, rest[0].len, rest[1..], length - PAGE);
      if d.None? then None else Some([addr] + d.value)
  }

  // Every segment but the last ends on a page of the transfer or behind the start
  // of its last page; end is where the current segment ends.
  predicate PagewiseFrom(end: int, rest: seq<Seg>, lastPage: int)
    decreases |rest|
  {
    rest == [] || ((end % PAGE == 0 || end > lastPage) && PagewiseFrom(end + rest[0].len, rest[1..], lastPage))
  }

  predicate Pagewise(sgl: seq<Seg>)
    requires sgl != []
  {
    var off := sgl[0].addr % PAGE;
    PagewiseFrom(off + sgl[0].len, sgl[1..], LastStart(off + Sum(sgl)))
  }

  // Where the last page of a transfer starts.
  function LastStart(length: nat): int {
    PAGE * (CeilDiv(length, PAGE) - 1)
  }

  function PageRanges(d: seq<nat>, left: nat): seq<Seg>
    requires d != [] && left > PAGE * (|d| - 1)
    decreases |d|
  {
    if |d| == 1 then [Seg(d[0], left)]
    else [Seg(d[0], PAGE)] + PageRanges(d[1..], left - PAGE)
  }

  lemma BytesSplit(addr: nat, len: nat, n: nat)
    requires n <= len
    ensures Bytes(addr, len) == Bytes(addr, n) + Bytes(addr + n, len - n)
  {
  }

  // On a conforming list the entries are the rest of the transfer, page by page.
  lemma {:induction false} EmitCovers(addr: nat, len: nat, rest: seq<Seg>, length: nat)
    requires length > 0 && length == len + Sum(rest) && len > 0 && LensOk(rest)
    requires addr % PAGE == 0 && ConformingFrom(addr + len, rest)
    ensures
      var d := Emit(addr, len, rest, length);
      d.Some? && d.value != [] && length > PAGE * (|d.value| - 1)
      && Addrs(PageRanges(d.value, length)) == Bytes(addr, len) + Addrs(rest)
    decreases length
  {
    hide Bytes, CeilDiv, Addrs, PageRanges;
    if length <= PAGE {
      LastPage(addr, len, rest);
    } else {
      LensOkTail(rest);
      BytesSplit(addr, len, PAGE);
      var d := if len == PAGE then Emit(rest[0].addr, rest[0].len, rest[1..], length - PAGE)
               else Emit(addr + PAGE, len - PAGE, rest, length - PAGE);
      if len == PAGE {
        EmitCovers(rest[0].addr, rest[0].len, rest[1..], length - PAGE);
        AddrsHead(rest);
        assert Bytes(addr, len) == Bytes(addr, PAGE);
      } else {
        EmitCovers(addr + PAGE, len - PAGE, rest, length - PAGE);
      }
      EmitStep(addr, d.value, length);
    }
  }

  lemma AddrsHead(sgl: seq<Seg>)
    requires sgl != []
    ensures Addrs(sgl) == Bytes(sgl[0].addr, sgl[0].len) + Addrs(sgl[1..])
  {
  }

  lemma LastPage(addr: nat, len: nat, rest: seq<Seg>)
    requires len > 0 && LensOk(rest) && addr % PAGE == 0 && ConformingFrom(addr + len, rest) && len + Sum(rest) <= PAGE
    ensures rest == [] && Addrs(PageRanges([addr], len)) == Bytes(addr, len) + Addrs(rest)
  {
    SumPositive(rest);
    assert Bytes(addr, len) + [] == Bytes(addr, len);
    assert PageRanges([addr], len)[1..] == [];
  }

  lemma LensOkTail(sgl: seq<Seg>)
    requires LensOk(sgl)
    ensures sgl != [] ==> sgl[0].len > 0 && LensOk(sgl[1..])
  {
    if sgl != [] {
      assert sgl[0] in sgl && forall s | s in sgl[1..] :: s in sgl;
    }
  }

  lemma SumPositive(sgl: seq<Seg>)
    requires LensOk(sgl)
    ensures sgl != [] ==> Sum(sgl) > 0
  {
    if sgl != [] {
      assert sgl[0] in sgl;
    }
  }

  lemma EmitStep(addr: nat, d: seq<nat>, length: nat)
    requires d != [] && length > PAGE * |d|
    ensures Addrs(PageRanges([addr] + d, length)) == Bytes(addr, PAGE) + Addrs(PageRanges(d, length - PAGE))
  {
    assert ([addr] + d)[1..] == d;
  }

  // ---- List pages ----

  // List pages needed for n entries; each but the last gives a slot to its link.
  function ListPages(n: nat): nat {
    if n <= SLOTS then 1 else CeilDiv(n - 1, SLOTS - 1)
  }

  // The data entries held by a chain whose last page is filled up to i.
  ghost function Entries(pages: seq<ListPage>, i: nat): (d: seq<nat>)
    requires pages != [] && i <= |pages[|pages| - 1].entries|
    requires forall k | 0 <= k < |pages| - 1 :: |pages[k].entries| == SLOTS
    ensures |d| == (SLOTS - 1) * (|pages| - 1) + i
  {
    if |pages| == 1 then pages[0].entries[..i]
    else pages[0].entries[..SLOTS - 1] + Entries(pages[1..], i)
  }

  // What dma_pool_alloc gives: pages of their pool's size and alignment, no two
  // alike.
  ghost predicate PagesOk(pages: seq<ListPage>) {
    && (forall p | p in pages ::
          if p.pool == PagePool then |p.entries| == SLOTS && p.dma % PAGE == 0
          else |p.entries| == SMALL_SLOTS && p.dma % 256 == 0 && |pages| == 1)
    && (forall i, j | 0 <= i < j < |pages| :: pages[i].dma != pages[j].dma)
  }

  ghost predicate Linked(pages: seq<ListPage>) {
    && (forall k | 0 <= k < |pages| :: pages[k].pool == PagePool && |pages[k].entries| == SLOTS)
    && (forall k | 0 <= k < |pages| - 1 :: pages[k].entries[SLOTS - 1] == pages[k + 1].dma)
  }

  lemma PagesOkTail(pages: seq<ListPage>)
    requires PagesOk(pages) && |pages| > 1
    ensures PagesOk(pages[1..])
  {
    forall p | p in pages[1..]
      ensures p.pool == PagePool && |p.entries| == SLOTS && p.dma % PAGE == 0
    {
      assert p in pages;
    }
  }

  lemma Apart(a: nat, b: nat)
    requires a % PAGE == 0 && b % PAGE == 0 && a != b
    ensures a + PAGE <= b || b + PAGE <= a
  {
  }

  lemma SlotPointer(dma: nat, s: nat)
    requires dma % PAGE == 0 && s < SLOTS
    ensures (dma + 8 * s) % PAGE == PAGE - 8 <==> s == SLOTS - 1
  {
  }

  lemma {:induction false} ReadAt(pages: seq<ListPage>, k: nat, s: nat)
    requires PagesOk(pages) && k < |pages| && s < |pages[k].entries|
    ensures Read(pages, pages[k].dma + 8 * s) == Some(pages[k].entries[s])
    decreases k
  {
    assert pages[0] in pages && pages[k] in pages;
    if k > 0 {
      Apart(pages[0].dma, pages[k].dma);
      PagesOkTail(pages);
      ReadAt(pages[1..], k - 1, s);
    }
  }

  lemma EntriesHere(pages: seq<ListPage>, i: nat, s: nat)
    requires pages != [] && i <= |pages[|pages| - 1].entries|
    requires forall k | 0 <= k < |pages| - 1 :: |pages[k].entries| == SLOTS
    requires s < |Entries(pages, i)|
    ensures |pages| == 1 || s < SLOTS - 1 ==> s < |pages[0].entries| && Entries(pages, i)[s] == pages[0].entries[s]
    ensures |pages| > 1 ==> Entries(pages, i)[SLOTS - 1..] == Entries(pages[1..], i)
  {
  }

  // Reading on from slot s of page k of a chain gives the entries from there on.
  lemma {:induction false} WalkChain(pages: seq<ListPage>, k: nat, s: nat, i: nat, left: nat, d: seq<nat>)
    requires PagesOk(pages) && Linked(pages) && k < |pages| && i <= SLOTS && (|pages| > 1 ==> i >= 2)
    requires s < |Entries(pages[k..], i)| && s < SLOTS && d == Entries(pages[k..], i)[s..]
    requires PAGE * (|d| - 1) < left <= PAGE * |d|
    ensures WalkList(pages, pages[k].dma + 8 * s, left) == PageRanges(d, left)
    decreases |pages| - k, SLOTS - s
  {
    hide Entries, Read;
    var all := Entries(pages[k..], i);
    assert pages[k..][0] == pages[k] && pages[k..][1..] == pages[k + 1..];
    assert pages[k] in pages;
    EntriesHere(pages[k..], i, s);
    ReadAt(pages, k, s);
    SlotPointer(pages[k].dma, s);
    if s == SLOTS - 1 && k < |pages| - 1 {
      assert d[0..] == d;
      assert pages[k + 1] in pages;
      WalkChain(pages, k + 1, 0, i, left, d);
    } else if |d| > 1 {
      assert d[1..] == all[s + 1..];
      WalkChain(pages, k, s + 1, i, left - PAGE, d[1..]);
    }
  }

  // Storing entry e in slot i of the last page.
  function Put(pages: seq<ListPage>, i: nat, e: nat): seq<ListPage>
    requires pages != [] && i < |pages[|pages| - 1].entries|
  {
    var k := |pages| - 1;
    pages[k := pages[k].(entries := pages[k].entries[i := e])]
  }

  // What a full chain turns into: the last entry moves to the new page p, and its
  // slot becomes the link.
  function Extend(pages: seq<ListPage>, p: ListPage): seq<ListPage>
    requires pages != [] && |pages[|pages| - 1].entries| == SLOTS && |p.entries| == SLOTS
  {
    var last := pages[|pages| - 1].entries[SLOTS - 1];
    Put(pages, SLOTS - 1, p.dma) + [p.(entries := p.entries[0 := last])]
  }

  ghost predicate FullPages(pages: seq<ListPage>) {
    forall k | 0 <= k < |pages| - 1 :: |pages[k].entries| == SLOTS
  }

  lemma {:induction false} PutEntries(pages: seq<ListPage>, i: nat, e: nat)
    requires pages != [] && i < |pages[|pages| - 1].entries| && FullPages(pages)
    ensures FullPages(Put(pages, i, e)) && Entries(Put(pages, i, e), i + 1) == Entries(pages, i) + [e]
    decreases |pages|
  {
    if |pages| > 1 {
      PutEntries(pages[1..], i, e);
      assert Put(pages, i, e)[1..] == Put(pages[1..], i, e);
    }
  }

  lemma {:induction false} ExtendEntries(pages: seq<ListPage>, p: ListPage)
    requires pages != [] && |pages[|pages| - 1].entries| == SLOTS && |p.entries| == SLOTS && FullPages(pages)
    ensures FullPages(Extend(pages, p)) && Entries(Extend(pages, p), 1) == Entries(pages, SLOTS)
    ensures Linked(pages) && p.pool == PagePool ==> Linked(Extend(pages, p))
    decreases |pages|
  {
    if |pages| > 1 {
      ExtendEntries(pages[1..], p);
      assert Extend(pages, p)[1..] == Extend(pages[1..], p);
    } else {
      assert Extend(pages, p)[1..] == [p.(entries := p.entries[0 := pages[0].entries[SLOTS - 1]])];
    }
  }

  // The same for the one short page of the small pool, which never links on: only
  // its last slot can end on a page boundary.
  lemma {:induction false} WalkSmall(pages: seq<ListPage>, s: nat, i: nat, left: nat, d: seq<nat>)
    requires PagesOk(pages) && |pages| == 1 && pages[0].pool == SmallPool
    requires s < i <= |pages[0].entries| && d == pages[0].entries[s..i]
    requires PAGE * (|d| - 1) < left <= PAGE * |d|
    ensures WalkList(pages, pages[0].dma + 8 * s, left) == PageRanges(d, left)
    decreases i - s
  {
    hide Read;
    assert pages[0] in pages;
    ReadAt(pages, 0, s);
    if |d| > 1 {
      SmallSlot(pages[0].dma, s);
      assert d[1..] == pages[0].entries[s + 1..i];
      WalkSmall(pages, s + 1, i, left - PAGE, d[1..]);
    }
  }

  lemma SmallSlot(dma: nat, s: nat)
    requires dma % 256 == 0 && s < SMALL_SLOTS - 1
    ensures (dma + 8 * s) % PAGE != PAGE - 8
  {
  }

  // Where the transfer goes on after the part the first PRP entry covers.
  function AfterFirst(sgl: seq<Seg>): (r: (nat, int, seq<Seg>))
    requires sgl != [] && Sum(sgl) > PAGE - sgl[0].addr % PAGE
    ensures r.1 + Sum(r.2) == Sum(sgl) - (PAGE - sgl[0].addr % PAGE)
  {
    var skip := PAGE - sgl[0].addr % PAGE;
    if sgl[0].len == skip then
      assert Sum(sgl[1..]) > 0;
      (sgl[1].addr, sgl[1].len, sgl[2..])
    else
      (sgl[0].addr + skip, sgl[0].len - skip, sgl[1..])
  }

  lemma {:induction false} AfterFirstCovers(sgl: seq<Seg>)
    requires sgl != [] && LensOk(sgl) && Sum(sgl) > PAGE - sgl[0].addr % PAGE && Conforming(sgl)
    ensures
      var skip, r := PAGE - sgl[0].addr % PAGE, AfterFirst(sgl);
      && r.0 % PAGE == 0 && r.1 > 0 && LensOk(r.2) && ConformingFrom(r.0 + r.1, r.2)
      && Addrs(sgl) == Bytes(sgl[0].addr, skip) + (Bytes(r.0, r.1) + Addrs(r.2))
  {
    hide Bytes, Addrs;
    LensOkTail(sgl);
    LensOkTail(sgl[1..]);
    AddrsHead(sgl);
    var skip := PAGE - sgl[0].addr % PAGE;
    assert (sgl[0].addr + skip) % PAGE == 0;
    if sgl[0].len == skip {
      assert sgl[1..][1..] == sgl[2..];
      AddrsHead(sgl[1..]);
    } else {
      assert sgl[0].len > skip;
      BytesSplit(sgl[0].addr, sgl[0].len, skip);
      assert sgl[0].addr + sgl[0].len == sgl[0].addr + skip + (sgl[0].len - skip);
    }
  }

  // The entries d followed by those still to be emitted.
  function After(d: seq<nat>, more: Option<seq<nat>>): Option<seq<nat>> {
    if more.None? then None else Some(d + more.value)
  }

  // One turn of the loop.
  lemma EmitTurn(d: seq<nat>, addr: nat, len: int, rest: seq<Seg>, length: nat)
    requires length > 0 && length == len + Sum(rest)
    ensures
      After(d, Emit(addr, len, rest, length)) ==
      if length <= PAGE then Some(d + [addr])
      else if len > PAGE then After(d + [addr], Emit(addr + PAGE, len - PAGE, rest, length - PAGE))
      else if len < PAGE then None
      else After(d + [addr], Emit(rest[0].addr, rest[0].len, rest[1..], length - PAGE))
  {
    if length > PAGE && len >= PAGE {
      var m := if len > PAGE then Emit(addr + PAGE, len - PAGE, rest, length - PAGE)
               else Emit(rest[0].addr, rest[0].len, rest[1..], length - PAGE);
      if m.Some? {
        assert d + ([addr] + m.value) == (d + [addr]) + m.value;
      }
    }
  }

  lemma EmptyOk()
    ensures PagesOk([])
  {
  }

  lemma AfterNothing(m: Option<seq<nat>>)
    ensures After([], m) == m
  {
    if m.Some? {
      assert [] + m.value == m.value;
    }
  }

  lemma Room(pages: seq<ListPage>)
    requires PagesOk(pages) && pages != []
    ensures Linked(pages) ==> |pages[|pages| - 1].entries| == SLOTS
    ensures pages[|pages| - 1].pool == SmallPool ==> |pages[|pages| - 1].entries| == SMALL_SLOTS
  {
    assert pages[|pages| - 1] in pages;
  }

  lemma EntriesStart(pages: seq<ListPage>)
    requires |pages| == 1
    ensures Entries(pages, 0) == []
  {
  }

  lemma {:induction false} PagewiseShift(end: int, rest: seq<Seg>, lastPage: int)
    ensures PagewiseFrom(end + PAGE, rest, lastPage + PAGE) == PagewiseFrom(end, rest, lastPage)
    decreases |rest|
  {
    if rest != [] {
      PagewiseShift(end + rest[0].len, rest[1..], lastPage);
    }
  }

  lemma {:induction false} PagewiseBehind(end: int, rest: seq<Seg>, lastPage: int)
    requires end > lastPage
    ensures PagewiseFrom(end, rest, lastPage)
    decreases |rest|
  {
    if rest != [] {
      PagewiseBehind(end + rest[0].len, rest[1..], lastPage);
    }
  }

  lemma LastStartIs(length: nat)
    ensures 0 < length <= PAGE ==> LastStart(length) == 0
    ensures length > PAGE ==> LastStart(length) == LastStart(length - PAGE) + PAGE && LastStart(length) >= PAGE
  {
  }

  // What bad_sgl stands for.
  lemma {:induction false} EmitExact(addr: nat, len: int, rest: seq<Seg>, length: nat)
    requires length > 0 && length == len + Sum(rest) && LensOk(rest)
    requires len > 0 || (len < 0 && len + PAGE > 0 && length > PAGE)
    ensures Emit(addr, len, rest, length).Some? <==> PagewiseFrom(len, rest, LastStart(length))
    decreases length
  {
    hide LastStart, LensOk, CeilDiv;
    LensOkTail(rest);
    LastStartIs(length);
    if length <= PAGE {
      PagewiseBehind(len, rest, LastStart(length));
    } else if len > PAGE {
      EmitExact(addr + PAGE, len - PAGE, rest, length - PAGE);
      PagewiseShift(len - PAGE, rest, LastStart(length - PAGE));
    } else if len == PAGE {
      EmitExact(rest[0].addr, rest[0].len, rest[1..], length - PAGE);
      PagewiseShift(rest[0].len, rest[1..], LastStart(length - PAGE));
    }
  }

  // Refused as bad_sgl or not, wherever the segments lie.
  lemma AcceptedExact(sgl: seq<Seg>)
    requires sgl != [] && LensOk(sgl) && Sum(sgl) > 2 * PAGE - sgl[0].addr % PAGE
    ensures var r := AfterFirst(sgl); Emit(r.0, r.1, r.2, r.1 + Sum(r.2)).Some? <==> Pagewise(sgl)
  {
    hide LastStart, LensOk, Emit, CeilDiv;
    var r, off := AfterFirst(sgl), sgl[0].addr % PAGE;
    var length := r.1 + Sum(r.2);
    LensOkTail(sgl);
    LensOkTail(sgl[1..]);
    EmitExact(r.0, r.1, r.2, length);
    LastStartIs(length + PAGE);
    PagewiseShift(r.1, r.2, LastStart(length));
    assert off + Sum(sgl) == length + PAGE;
    if sgl[0].len == PAGE - off {
      assert sgl[1..][1..] == sgl[2..];
    }
  }

  // The driver's code refuses a list as bad_sgl only if it does not conform.
  lemma ConformingAccepted(sgl: seq<Seg>)
    requires sgl != [] && LensOk(sgl) && Sum(sgl) > PAGE - sgl[0].addr % PAGE && Conforming(sgl)
    ensures var r := AfterFirst(sgl); Emit(r.0, r.1, r.2, r.1 + Sum(r.2)).Some?
  {
    AfterFirstCovers(sgl);
    var r := AfterFirst(sgl);
    EmitCovers(r.0, r.1, r.2, r.1 + Sum(r.2));
  }

  // How a finished list stands in memory: filled up to slot i of its last page.
  ghost predicate ListOk(pages: seq<ListPage>, i: nat) {
    && pages != [] && PagesOk(pages) && FullPages(pages)
    && 0 < i <= |pages[|pages| - 1].entries| && (|pages| > 1 ==> i >= 2)
    && (Linked(pages) || (|pages| == 1 && pages[0].pool == SmallPool))
  }

  // Whatever the number of list pages, the controller reads back the scatterlist.
  lemma {:induction false} WalkMeaning(pages: seq<ListPage>, i: nat, sgl: seq<Seg>)
    requires sgl != [] && LensOk(sgl) && Sum(sgl) > 2 * PAGE - sgl[0].addr % PAGE && Conforming(sgl)
    requires ListOk(pages, i)
    requires var r := AfterFirst(sgl); Emit(r.0, r.1, r.2, r.1 + Sum(r.2)) == Some(Entries(pages, i))
    ensures Addrs(Walk(pages, sgl[0].addr, pages[0].dma, Sum(sgl))) == Addrs(sgl)
  {
    hide Bytes, Emit, Entries, PagesOk, ConformingFrom, Conforming, LensOk, Sum, WalkList, PageRanges, AfterFirst;
    var r, d := AfterFirst(sgl), Entries(pages, i);
    var first, left := PAGE - sgl[0].addr % PAGE, r.1 + Sum(r.2);
    AfterFirstCovers(sgl);
    EmitCovers(r.0, r.1, r.2, left);
    ListWalk(pages, i, left, d);
    var list := PageRanges(d, left);
    assert Walk(pages, sgl[0].addr, pages[0].dma, Sum(sgl)) == [Seg(sgl[0].addr, first)] + list;
    assert ([Seg(sgl[0].addr, first)] + list)[1..] == list;
    AddrsHead([Seg(sgl[0].addr, first)] + list);
  }

  lemma ListWalk(pages: seq<ListPage>, i: nat, left: nat, d: seq<nat>)
    requires ListOk(pages, i) && d == Entries(pages, i) && d != []
    requires PAGE * (|d| - 1) < left && |d| == CeilDiv(left, PAGE)
    ensures WalkList(pages, pages[0].dma, left) == PageRanges(d, left)
  {
    assert left <= PAGE * |d|;
    assert pages[0] in pages;
    if Linked(pages) {
      assert pages[0..] == pages && d[0..] == d;
      WalkChain(pages, 0, 0, i, left, d);
    } else {
      assert d == pages[0].entries[0..i];
      WalkSmall(pages, 0, i, left, d);
    }
  }

  // A chain filled as the driver does has just the pages its entries need.
  lemma PagesNeeded(pages: seq<ListPage>, i: nat)
    requires ListOk(pages, i)
    ensures |pages| == ListPages(|Entries(pages, i)|)
  {
  }

  // What is left for prp2 when prp1 has taken its page.
  function Left(sgl: seq<Seg>): int
    requires sgl != []
  {
    Sum(sgl) - (PAGE - sgl[0].addr % PAGE)
  }

  // Transfers of at most two pages, where prp2 is no list.
  lemma {:induction false} ShortMeaning(pages: seq<ListPage>, sgl: seq<Seg>, prp2: nat)
    requires sgl != [] && LensOk(sgl) && Conforming(sgl) && Left(sgl) <= PAGE
    requires Left(sgl) > 0 ==> prp2 == AfterFirst(sgl).0
    ensures Addrs(Walk(pages, sgl[0].addr, prp2, Sum(sgl))) == Addrs(sgl)
  {
    hide Bytes, ConformingFrom, LensOk, AfterFirst, Addrs, PageRanges;
    var addr := sgl[0].addr;
    var first := PAGE - addr % PAGE;
    if Left(sgl) <= 0 {
      OnePage(sgl);
      AddrsOne(Seg(addr, Sum(sgl)));
    } else {
      AfterFirstCovers(sgl);
      var r := AfterFirst(sgl);
      LastPage(r.0, r.1, r.2);
      PageRangesOne(r.0, r.1);
      var tail := [Seg(r.0, r.1)];
      assert ([Seg(addr, first)] + tail)[1..] == tail;
      AddrsHead([Seg(addr, first)] + tail);
      assert Walk(pages, addr, prp2, Sum(sgl)) == [Seg(addr, first)] + tail;
    }
  }

  lemma OnePage(sgl: seq<Seg>)
    requires sgl != [] && LensOk(sgl) && Conforming(sgl) && Left(sgl) <= 0
    ensures sgl == [Seg(sgl[0].addr, Sum(sgl))]
  {
    LensOkTail(sgl);
    SumPositive(sgl[1..]);
    assert (sgl[0].addr + (PAGE - sgl[0].addr % PAGE)) % PAGE == 0;
    assert sgl[1..] == [];
    assert sgl == [sgl[0]];
  }

  lemma AddrsOne(s: Seg)
    ensures Addrs([s]) == Bytes(s.addr, s.len)
  {
    assert Bytes(s.addr, s.len) + [] == Bytes(s.addr, s.len);
    assert [s][1..] == [];
  }

  lemma PageRangesOne(addr: nat, len: nat)
    requires len > 0
    ensures PageRanges([addr], len) == [Seg(addr, len)]
  {
  }

  // A transfer of one segment within two pages.
  lemma SimpleMeaning(addr: nat, len: nat, prp2: nat)
    requires addr % PAGE + len <= 2 * PAGE
    requires len > PAGE - addr % PAGE ==> prp2 == addr + (PAGE - addr % PAGE)
    ensures Addrs(Walk([], addr, prp2, len)) == Bytes(addr, len)
  {
    hide Bytes, Addrs;
    var first := PAGE - addr % PAGE;
    AddrsOne(Seg(addr, len));
    if len > first {
      BytesSplit(addr, len, first);
      var tail := [Seg(prp2, len - first)];
      assert ([Seg(addr, first)] + tail)[1..] == tail;
      AddrsHead([Seg(addr, first)] + tail);
      AddrsOne(tail[0]);
      assert Walk([], addr, prp2, len) == [Seg(addr, first)] + tail;
    }
  }

  // The frees a list calls for: every page once, to its pool, at its address.
  ghost function Frees(pages: seq<ListPage>): seq<Free> {
    seq(|pages|, i requires 0 <= i < |pages| => Free(i, pages[i].pool, pages[i].dma))
  }

  // ---- Room for the driver's pointers to its list pages ----

  function NvmeNpages(size: nat, kernelPage: nat): nat
    requires kernelPage > 8
  {
    CeilDiv(8 * CeilDiv(size + PAGE, PAGE), kernelPage - 8)
  }

  // List pages a payload of that size takes when it starts at that offset.
  function Needed(size: nat, offset: nat): nat
    requires offset < PAGE
  {
    if size <= 2 * PAGE - offset then 0 else ListPages(CeilDiv(size - (PAGE - offset), PAGE))
  }

  lemma NpagesEnough(size: nat, offset: nat)
    requires offset < PAGE
    ensures Needed(size, offset) <= NvmeNpages(size, PAGE)
  {
  }

  lemma NoneNeeded(size: nat, offset: nat)
    requires offset < PAGE && size <= 2 * PAGE - offset
    ensures Needed(size, offset) == 0
  {
  }

  // What a finished list comes to.
  lemma ListDone(pages: seq<ListPage>, i: nat, sgl: seq<Seg>)
    requires sgl != [] && LensOk(sgl) && Sum(sgl) > 2 * PAGE - sgl[0].addr % PAGE && ListOk(pages, i)
    requires var r := AfterFirst(sgl); r.1 + Sum(r.2) == Left(sgl)
    requires var r := AfterFirst(sgl); Emit(r.0, r.1, r.2, r.1 + Sum(r.2)) == Some(Entries(pages, i))
    ensures |pages| == Needed(Sum(sgl), sgl[0].addr % PAGE)
    ensures Conforming(sgl) ==> Addrs(Walk(pages, sgl[0].addr, pages[0].dma, Sum(sgl))) == Addrs(sgl)
  {
    hide Addrs, Conforming, Walk, ListOk, Entries;
    PagesNeeded(pages, i);
    if Conforming(sgl) {
      WalkMeaning(pages, i, sgl);
    }
  }

  // nvme_npages divides by the kernel's page size although list pages have the
  // controller's: it bounds every payload exactly when the two are the same. Nothing
  // depends on it, the one caller asking for the room of SGLs; see PointersFit.
  lemma NpagesBound(ratio: nat)
    requires ratio > 0
    ensures (forall size: nat, offset: nat | offset < PAGE :: Needed(size, offset) <= NvmeNpages(size, ratio * PAGE))
            <==> ratio == 1
  {
    if ratio == 1 {
      forall size: nat, offset: nat | offset < PAGE
        ensures Needed(size, offset) <= NvmeNpages(size, PAGE)
      {
        NpagesEnough(size, offset);
      }
    } else {
      var size := 514 * PAGE;
      assert Needed(size, 0) == 2;
      assert CeilDiv(size + PAGE, PAGE) == 515;
      CeilDivOne(8 * 515, ratio * PAGE - 8);
    }
  }

  // What probe sets aside for the pointers, though, is the room for descriptors of
  // NVME_MAX_SEGS segments, behind as many scatterlist entries of sg bytes; the
  // pointers start behind the entries a request uses. On 4 KiB kernel pages that
  // is one pointer and the unused entries.
  const MAX_SEGS: nat := 127
  const MAX_BYTES: nat := 4096 * 1024

  function PointerRoom(nseg: nat, sg: nat): nat
    requires nseg <= MAX_SEGS
  {
    8 * CeilDiv(16 * MAX_SEGS, PAGE) + sg * (MAX_SEGS - nseg)
  }

  lemma NeededAtMost(size: nat, offset: nat)
    requires size <= MAX_BYTES && offset < PAGE
    ensures Needed(size, offset) <= 3
  {
    if size > 2 * PAGE - offset {
      var n := CeilDiv(size - (PAGE - offset), PAGE);
      assert 1 < n <= 1024;
      ListPagesFew(n);
    }
  }

  lemma NeededOne(size: nat, offset: nat)
    requires size <= MAX_BYTES && offset < PAGE
    ensures Needed(size, offset) <= 1 <==> size <= SLOTS * PAGE + (PAGE - offset)
  {
    if size > 2 * PAGE - offset {
      var n := CeilDiv(size - (PAGE - offset), PAGE);
      assert 1 < n <= 1024 && (n <= SLOTS <==> size <= SLOTS * PAGE + (PAGE - offset));
      ListPagesFew(n);
    }
  }

  lemma ListPagesFew(n: nat)
    requires 1 < n <= 1024
    ensures ListPages(n) <= 3 && (ListPages(n) <= 1 <==> n <= SLOTS)
  {
  }

  lemma PointersFit(nseg: nat, sg: nat, size: nat, offset: nat)
    requires nseg <= MAX_SEGS && sg >= 16 && size <= MAX_BYTES && offset < PAGE
    ensures 8 * Needed(size, offset) <= PointerRoom(nseg, sg)
            <==> nseg < MAX_SEGS || size <= SLOTS * PAGE + (PAGE - offset)
  {
    hide Needed;
    assert CeilDiv(16 * MAX_SEGS, PAGE) == 1;
    NeededAtMost(size, offset);
    NeededOne(size, offset);
    if nseg < MAX_SEGS {
      MulMonotone(1, MAX_SEGS - nseg, sg);
    }
  }

  // ---- The driver's code ----

  class Iod {
    // What the pools will answer to dma_pool_alloc: a DMA address, or no memory.
    var smallAlloc: Option<nat>
    var pageAllocs: seq<Option<nat>>
    // The list pages of the request; the driver's list[] points to them in order.
    var pages: seq<ListPage>
    var npages: int
    var firstDma: nat
    var dmaLen: nat
    ghost var freed: seq<Free>

    // What the pools promise about the addresses to come.
    ghost predicate PoolsOk()
      reads this`smallAlloc, this`pageAllocs, this`pages
    {
      && (smallAlloc.Some? ==> smallAlloc.value % 256 == 0)
      && (forall i | 0 <= i < |pageAllocs| && pageAllocs[i].Some? && smallAlloc.Some? ::
            pageAllocs[i].value != smallAlloc.value)
      && (forall i | 0 <= i < |pageAllocs| && pageAllocs[i].Some? :: pageAllocs[i].value % PAGE == 0)
      && (forall i, j | 0 <= i < j < |pageAllocs| && pageAllocs[i].Some? && pageAllocs[j].Some? ::
            pageAllocs[i].value != pageAllocs[j].value)
      && (forall i, k | 0 <= i < |pageAllocs| && pageAllocs[i].Some? && 0 <= k < |pages| ::
            pageAllocs[i].value != pages[k].dma)
    }

    // The list pages can be found again: npages tells the pool and how many there
    // are, first_dma and the links their addresses.
    ghost predicate Recoverable()
      reads this
    {
      && PagesOk(pages)
      && (if npages < 0 then pages == []
          else if npages == 0 then |pages| == 1 && pages[0].pool == SmallPool && firstDma == pages[0].dma
          else npages == |pages| && Linked(pages) && firstDma == pages[0].dma)
    }

    // dma_pool_alloc; a page that is new to the list is put behind the others.
    method AllocPage() returns (ok: bool)
      requires PoolsOk() && PagesOk(pages) && forall k | 0 <= k < |pages| :: pages[k].pool == PagePool
      modifies this`pageAllocs, this`pages
      ensures PoolsOk() && PagesOk(pages)
      ensures if ok then |pages| == |old(pages)| + 1 && pages[..|old(pages)|] == old(pages)
                         && pages[|old(pages)|].pool == PagePool && |pages[|old(pages)|].entries| == SLOTS
              else pages == old(pages) && (pageAllocs == [] || pageAllocs[0].None?)
    {
      if pageAllocs == [] || pageAllocs[0].None? {
        return false;
      }
      ghost var before := pages;
      var p := ListPage(PagePool, pageAllocs[0].value, seq(SLOTS, i => 0));
      pages := pages + [p];
      pageAllocs := pageAllocs[1..];
      forall q | q in pages
        ensures q.pool == PagePool && |q.entries| == SLOTS && q.dma % PAGE == 0
      {
        assert q == p || q in before;
      }
      ok := true;
    }

    method AllocSmall() returns (ok: bool)
      requires PoolsOk() && pages == []
      modifies this`pages
      ensures PoolsOk() && PagesOk(pages) && ok == smallAlloc.Some?
      ensures if ok then |pages| == 1 && pages[0].pool == SmallPool else pages == []
    {
      ok := smallAlloc.Some?;
      if ok {
        pages := [ListPage(SmallPool, smallAlloc.value, seq(SMALL_SLOTS, i => 0))];
      }
    }

    method Write(k: nat, i: nat, e: nat)
      requires k < |pages| && i < |pages[k].entries|
      modifies this`pages
      ensures pages == old(pages)[k := old(pages)[k].(entries := old(pages)[k].entries[i := e])]
      ensures old(PagesOk(pages)) ==> PagesOk(pages)
      ensures old(PoolsOk()) ==> PoolsOk()
    {
      ghost var before := pages;
      pages := pages[k := pages[k].(entries := pages[k].entries[i := e])];
      forall q | q in pages
        ensures exists o | o in before :: o.pool == q.pool && o.dma == q.dma && |o.entries| == |q.entries|
      {
        var j :| 0 <= j < |pages| && pages[j] == q;
        assert before[j] in before;
      }
    }

    constructor (smallAlloc: Option<nat>, pageAllocs: seq<Option<nat>>)
      ensures this.smallAlloc == smallAlloc && this.pageAllocs == pageAllocs
      ensures pages == [] && npages == -1 && freed == [] && Recoverable()
    {
      this.smallAlloc, this.pageAllocs := smallAlloc, pageAllocs;
      pages, npages, firstDma, dmaLen, freed := [], -1, 0, 0, [];
    }

    // A list under construction, filled up to slot i of its last page.
    ghost predicate Filling(i: nat)
      reads this
    {
      && PoolsOk() && Recoverable() && npages >= 0 && FullPages(pages)
      && i <= |pages[|pages| - 1].entries| && (|pages| > 1 ==> i >= 1)
    }

    ghost function Filled(i: nat): seq<nat>
      requires Filling(i)
      reads this
    {
      Entries(pages, i)
    }

    // Takes another page when the last one is full and links it in.
    method ChainPage() returns (ok: bool)
      requires Filling(SLOTS) && npages > 0
      modifies this`pageAllocs, this`pages, this`npages
      ensures if ok then npages == old(npages) + 1 && Filling(1) && Filled(1) == old(Filled(SLOTS))
              else Recoverable() && pages == old(pages) && (pageAllocs == [] || pageAllocs[0].None?)
    {
      hide Entries, PagesOk, Iod.PoolsOk;
      ghost var before := pages;
      ok := AllocPage();
      if ok {
        var k := npages;
        ghost var p := pages[k];
        npages := npages + 1;
        Write(k, 0, pages[k - 1].entries[SLOTS - 1]);
        Write(k - 1, SLOTS - 1, pages[k].dma);
        assert pages == Extend(before, p);
        ExtendEntries(before, p);
      }
    }

    method Store(i: nat, e: nat)
      requires Filling(i) && i < |pages[|pages| - 1].entries|
      modifies this`pages
      ensures |pages| == |old(pages)| && Filling(i + 1) && Filled(i + 1) == old(Filled(i)) + [e]
    {
      hide Entries;
      PutEntries(pages, i, e);
      Write(if npages == 0 then 0 else npages - 1, i, e);
    }

    // The loop of nvme_pci_setup_prps, from the first list page on.
    method FillList(addr0: nat, len0: int, rest0: seq<Seg>, length0: nat) returns (status: Status, ghost filled: nat)
      requires Filling(0) && firstDma == pages[0].dma
      requires npages == if CeilDiv(length0, PAGE) <= SMALL_SLOTS then 0 else 1
      requires length0 > PAGE && length0 == len0 + Sum(rest0) && LensOk(rest0)
      modifies this`pageAllocs, this`pages, this`npages
      ensures Recoverable() && (status.StsOk? ==> (npages == 0 <==> old(npages) == 0))
      ensures status.StsResource? ==> pageAllocs == [] || pageAllocs[0].None?
      ensures status.StsIoErr? ==> Emit(addr0, len0, rest0, length0).None?
      ensures status.StsOk? ==>
        ListOk(pages, filled) && Emit(addr0, len0, rest0, length0) == Some(Entries(pages, filled))
    {
      hide Emit, Entries, PagesOk, Linked, LensOk, FullPages, Iod.PoolsOk;
      var addr: nat, len, rest, length: int := addr0, len0, rest0, length0;
      var i: nat := 0;
      filled := 0;
      EntriesStart(pages);
      AfterNothing(Emit(addr, len, rest, length));
      while true
        invariant length > 0 && length == len + Sum(rest) && LensOk(rest)
        invariant Filling(i) && (npages == 0 <==> old(npages) == 0)
        invariant |pages| > 1 ==> i >= 2
        invariant npages == 0 ==> i + CeilDiv(length, PAGE) <= SMALL_SLOTS
        invariant Emit(addr0, len0, rest0, length0) == After(Filled(i), Emit(addr, len, rest, length))
        decreases length
      {
        if i == SLOTS {
          var ok := ChainPage();
          if !ok {
            status := StsResource;
            return;
          }
          i := 1;
        }
        EmitTurn(Filled(i), addr, len, rest, length);
        Room(pages);
        Store(i, addr);
        i := i + 1;
        len, addr, length := len - PAGE, addr + PAGE, length - PAGE;
        if length <= 0 {
          break;
        }
        if len > 0 {
          continue;
        }
        if len < 0 {
          status := StsIoErr;
          return;
        }
        LensOkTail(rest);
        addr, len, rest := rest[0].addr, rest[0].len, rest[1..];
      }
      status, filled := StsOk, i;
    }

    lemma PoolTold()
      requires Recoverable() && pages != []
      ensures pages[0].pool.SmallPool? <==> npages == 0
    {
    }

    // The choice of the pool and the first page.
    method StartList(nprps: nat, dmaAddr: nat) returns (ok: bool)
      requires PoolsOk() && pages == [] && npages == -1 && dmaLen == 0
      modifies this`pageAllocs, this`pages, this`npages, this`firstDma
      ensures if ok then Filling(0) && firstDma == pages[0].dma && npages == (if nprps <= SMALL_SLOTS then 0 else 1)
              else Recoverable() && (smallAlloc.None? || pageAllocs == [] || pageAllocs[0].None?)
    {
      hide PagesOk, Iod.PoolsOk;
      if nprps <= SMALL_SLOTS {
        npages := 0;
        ok := AllocSmall();
      } else {
        npages := 1;
        ok := AllocPage();
      }
      if !ok {
        firstDma, npages := dmaAddr, -1;
        assert PagesOk([]) by { EmptyOk(); }
      } else {
        firstDma := pages[0].dma;
      }
    }

    method SetupPrps(sgl: seq<Seg>) returns (status: Status, prp1: nat, prp2: nat)
      requires PoolsOk() && pages == [] && npages == -1 && dmaLen == 0
      requires sgl != [] && LensOk(sgl)
      modifies this`pageAllocs, this`pages, this`npages, this`firstDma
      ensures Recoverable()
      ensures status.StsResource? ==> smallAlloc.None? || pageAllocs == [] || pageAllocs[0].None?
      ensures status.StsIoErr? ==> !Conforming(sgl)
      ensures Sum(sgl) <= 2 * PAGE - sgl[0].addr % PAGE ==> status.StsOk?
      ensures Sum(sgl) > 2 * PAGE - sgl[0].addr % PAGE && !status.StsResource? ==> (status.StsOk? <==> Pagewise(sgl))
      ensures status.StsOk? ==> prp1 == sgl[0].addr
      ensures status.StsOk? && Conforming(sgl) ==> Addrs(Walk(pages, prp1, prp2, Sum(sgl))) == Addrs(sgl)
      ensures status.StsOk? ==> |pages| == Needed(Sum(sgl), sgl[0].addr % PAGE)
      // As many entries as a short page holds are put into one.
      ensures status.StsOk? && pages != [] ==>
        (pages[0].pool.SmallPool? <==> Sum(sgl) <= SMALL_SLOTS * PAGE + (PAGE - sgl[0].addr % PAGE))
    {
      hide Addrs, Emit, Conforming, ConformingFrom, LensOk, Walk, PagesOk, Iod.PoolsOk, Iod.Filling;
      hide Needed, Entries, Linked, FullPages, Pagewise;
      EmptyOk();
      prp1, prp2 := 0, 0;
      var off := sgl[0].addr % PAGE;
      var length: int := Sum(sgl) - (PAGE - off);
      if length <= PAGE {
        NoneNeeded(Sum(sgl), off);
      }
      if length <= 0 {
        firstDma := 0;
        status, prp1, prp2 := StsOk, sgl[0].addr, firstDma;
        if Conforming(sgl) {
          ShortMeaning(pages, sgl, prp2);
        }
        return;
      }
      LensOkTail(sgl);
      LensOkTail(sgl[1..]);
      var dmaLen, dmaAddr, rest := sgl[0].len - (PAGE - off), sgl[0].addr, sgl[1..];
      if dmaLen != 0 {
        dmaAddr := dmaAddr + (PAGE - off);
      } else {
        SumPositive(rest);
        dmaAddr, dmaLen, rest := rest[0].addr, rest[0].len, rest[1..];
      }
      assert AfterFirst(sgl) == (dmaAddr, dmaLen, rest);
      if length <= PAGE {
        firstDma := dmaAddr;
        status, prp1, prp2 := StsOk, sgl[0].addr, firstDma;
        if Conforming(sgl) {
          ShortMeaning(pages, sgl, prp2);
        }
        return;
      }
      var ok := StartList(CeilDiv(length, PAGE), dmaAddr);
      if !ok {
        status := StsResource;
        return;
      }
      ghost var filled;
      status, filled := FillList(dmaAddr, dmaLen, rest, length);
      AcceptedExact(sgl);
      if status.StsOk? {
        prp1, prp2 := sgl[0].addr, firstDma;
        ListDone(pages, filled, sgl);
        PoolTold();
      } else if Conforming(sgl) {
        ConformingAccepted(sgl);
      }
    }

    // dma is where the mapping put the segment, or none.
    method SetupPrpSimple(dma: Option<nat>, bvOffset: nat, bvLen: nat, oldPrp2: nat)
      returns (status: Status, prp1: nat, prp2: nat)
      requires bvOffset + bvLen <= 2 * PAGE && bvLen > 0
      requires dma.Some? ==> dma.value % PAGE == bvOffset % PAGE
      modifies this`firstDma, this`dmaLen
      ensures status == if dma.None? then StsResource else StsOk
      ensures status.StsOk? ==>
        firstDma == dma.value && dmaLen == bvLen
        && Addrs(Walk([], prp1, prp2, bvLen)) == Bytes(dma.value, bvLen)
    {
      prp1, prp2 := 0, oldPrp2;
      var offset := bvOffset % PAGE;
      var firstPrpLen := PAGE - offset;
      if dma.None? {
        return StsResource, prp1, prp2;
      }
      firstDma, dmaLen := dma.value, bvLen;
      prp1 := firstDma;
      if bvLen > firstPrpLen {
        prp2 := firstDma + firstPrpLen;
      }
      SimpleMeaning(prp1, bvLen, prp2);
      status := StsOk;
    }

    // The freeing of list pages in nvme_unmap_data.
    method UnmapData()
      requires Recoverable()
      modifies this`freed
      ensures freed == old(freed) + if dmaLen != 0 then [] else Frees(pages)
    {
      var dmaAddr := firstDma;
      if dmaLen != 0 {
        return;
      }
      if npages == 0 {
        freed := freed + [Free(0, SmallPool, dmaAddr)];
        assert Frees(pages) == [Free(0, SmallPool, dmaAddr)];
      }
      var i := 0;
      while i < npages
        invariant 0 <= i && (npages > 0 ==> i <= npages)
        invariant i < npages ==> dmaAddr == pages[i].dma
        invariant npages > 0 ==> freed == old(freed) + Frees(pages)[..i]
        invariant npages <= 0 ==> freed == old(freed) + Frees(pages)
      {
        var nextDmaAddr := pages[i].entries[SLOTS - 1];
        freed := freed + [Free(i, PagePool, dmaAddr)];
        dmaAddr := nextDmaAddr;
        i := i + 1;
      }
    }

    // nvme_map_data for a request that needs a scatterlist: what a failed setup
    // allocated is freed at once.
    method MapPrps(sgl: seq<Seg>) returns (status: Status, prp1: nat, prp2: nat)
      requires PoolsOk() && pages == [] && npages == -1 && freed == []
      requires sgl != [] && LensOk(sgl)
      modifies this
      ensures Recoverable() && dmaLen == 0
      ensures freed == if status.StsOk? then [] else Frees(pages)
      ensures status.StsOk? && Conforming(sgl) ==> Addrs(Walk(pages, prp1, prp2, Sum(sgl))) == Addrs(sgl)
      ensures status.StsIoErr? ==> !Conforming(sgl)
    {
      dmaLen := 0;
      status, prp1, prp2 := SetupPrps(sgl);
      if !status.StsOk? {
        UnmapData();
      }
    }
  }
}
