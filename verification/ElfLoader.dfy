/** Mapping the segments of a shared object (Runtime/AospLinker/agr_aosp_linker.cpp). */
module ElfLoader {
  import opened Prelude
  import opened PageMap
  import opened GuestVma
  import opened GuestMmap
  import opened PageTable

  /** A program header; `flags` are the PF_X = 1, PF_W = 2, PF_R = 4 bits. */
  datatype Phdr = Phdr(load: bool, offset: uint32, vaddr: uint32, filesz: uint32, memsz: uint32, flags: nat)

  datatype Image = Image(loadStart: uint32, loadSize: uint32, loadBias: uint32, minVaddr: uint32, maxVaddr: uint32)

  const NO_IMAGE := Image(0, 0, 0, 0, 0)

  function PageStart(x: int): (r: int) { x / 4096 * 4096 }
  function PageEnd(x: int): (r: int) { PageStart(x + 4095) }
  function PageOffset(x: int): (r: int) { x % 4096 }

  predicate Writable(p: Phdr) { p.flags / 2 % 2 == 1 }

  /** PFLAGS_TO_PROT: readable, writable and executable bits in mmap's order. */
  function Prot(flags: nat): (prot: nat)
    ensures prot <= 7
  {
    (if flags / 4 % 2 == 1 then PROT_READ else 0) + (if flags / 2 % 2 == 1 then PROT_WRITE else 0) +
      (if flags % 2 == 1 then PROT_EXEC else 0)
  }

  /** What validate_headers demands of a PT_LOAD header of a file of `size` bytes. */
  predicate HeaderOk(p: Phdr, size: nat) {
    && p.filesz <= p.memsz && p.offset + p.filesz <= size && p.vaddr + p.memsz <= TWO32 - 1
    && PageOffset(p.vaddr) == PageOffset(p.offset)
  }

  predicate HeadersOk(table: seq<Phdr>, size: nat) {
    forall i :: 0 <= i < |table| && table[i].load ==> HeaderOk(table[i], size)
  }

  /** The pages of a segment, as virtual addresses. */
  predicate InPagesOf(p: Phdr, v: int) { PageStart(p.vaddr) <= v < PageEnd(p.vaddr + p.memsz) }

  /** No two loaded segments share a page. */
  ghost predicate PageDisjoint(table: seq<Phdr>) {
    forall i, j :: 0 <= i < j < |table| && table[i].load && table[j].load ==>
      PageEnd(table[i].vaddr + table[i].memsz) <= PageStart(table[j].vaddr) || PageEnd(table[j].vaddr +
        table[j].memsz) <= PageStart(table[i].vaddr)
  }

  /** The ends of the segments fit in 32 bits, as validate_headers has made sure. Their rounding up need not. */
  predicate SumsFit(table: seq<Phdr>) {
    forall i :: 0 <= i < |table| && table[i].load ==> table[i].vaddr + table[i].memsz < TWO32
  }

  /** All segments of the table lie between `minVaddr` and `maxVaddr`. */
  ghost predicate Spans(table: seq<Phdr>, minVaddr: int, maxVaddr: int) {
    forall i :: 0 <= i < |table| && table[i].load ==>
      minVaddr <= PageStart(table[i].vaddr) && PageEnd(table[i].vaddr + table[i].memsz) <= maxVaddr
  }

  predicate AnyLoad(table: seq<Phdr>) { exists i :: 0 <= i < |table| && table[i].load }

  /** The least whole pages that hold all segments. */
  ghost predicate SpanOf(table: seq<Phdr>, lo: uint32, hi: int) {
    && Spans(table, lo, hi) && lo <= hi <= TWO32
    && (exists i :: 0 <= i < |table| && table[i].load && PageStart(table[i].vaddr) == lo)
    && (exists i :: 0 <= i < |table| && table[i].load && PageEnd(table[i].vaddr + table[i].memsz) == hi)
  }

  /**
   phdr_table_get_load_size, in 32-bit arithmetic: a span that ends at the top of the 32-bit space has `maxVaddr` 0.
   */
  method LoadSize(table: seq<Phdr>) returns (size: uint32, minVaddr: uint32, maxVaddr: uint32, ghost end: int)
    requires SumsFit(table)
    ensures minVaddr % 4096 == 0 && end % 4096 == 0 && minVaddr <= end <= TWO32
    ensures maxVaddr == Wrap32(end) && size == Wrap32(end - minVaddr)
    ensures Spans(table, minVaddr, end) && if AnyLoad(table) then SpanOf(table, minVaddr, end) else size == 0
  {
    var found, low, high := Extremes(table);
    hide *;
    SpanFrom(table, found, low, high);
    if !found { low := 0; }
    end := PageEnd(high);
    minVaddr, maxVaddr := PageStart(low), Wrap32(PageEnd(high));
    WrapEnd(end, minVaddr);
    size := Wrap32(maxVaddr - minVaddr);
  }

  lemma WrapEnd(end: int, low: uint32)
    requires low <= end <= TWO32
    ensures Wrap32(Wrap32(end) - low) == Wrap32(end - low) && (low == end ==> Wrap32(end - low) == 0)
  {
  }

  /** Its loop. */
  method Extremes(table: seq<Phdr>) returns (found: bool, low: uint32, high: uint32)
    requires SumsFit(table)
    ensures Extent(table, |table|, found, low, high)
  {
    low, high, found := TWO32 - 1, 0, false;
    var i := 0;
    hide *;
    NoExtent(table);
    while i < |table|
      invariant 0 <= i <= |table| && Extent(table, i, found, low, high)
    {
      var p := table[i];
      ExtentStep(table, i, found, low, high);
      if p.load {
        found := true;
        if p.vaddr < low { low := p.vaddr; }
        if Wrap32(p.vaddr + p.memsz) > high { high := Wrap32(p.vaddr + p.memsz); }
      }
      i := i + 1;
    }
  }

  /** The least start and the greatest end among the first `n` headers. */
  ghost predicate Extent(table: seq<Phdr>, n: int, found: bool, low: uint32, high: uint32) {
    && 0 <= n <= |table| && (found <==> exists j :: 0 <= j < n && table[j].load)
    && (!found ==> low == TWO32 - 1 && high == 0)
    && (found ==> low <= high)
    && (forall j :: 0 <= j < n && table[j].load ==> low <= table[j].vaddr && table[j].vaddr + table[j].memsz <= high)
    && (found ==> exists j :: 0 <= j < n && table[j].load && low == table[j].vaddr)
    && (found ==> exists j :: 0 <= j < n && table[j].load && high == table[j].vaddr + table[j].memsz)
  }

  lemma NoExtent(table: seq<Phdr>)
    ensures Extent(table, 0, false, TWO32 - 1, 0)
  {
  }

  lemma ExtentStep(table: seq<Phdr>, i: nat, found: bool, low: uint32, high: uint32)
    requires i < |table| && SumsFit(table) && Extent(table, i, found, low, high)
    ensures var p := table[i]; var end := p.vaddr + p.memsz;
      && (p.load ==> Wrap32(end) == end)
      && if p.load then Extent(table, i + 1, true, if p.vaddr < low then p.vaddr else low, if end > high then end
        else high)
         else Extent(table, i + 1, found, low, high)
  {
    var p := table[i];
    if p.load && found {
      var j :| 0 <= j < i && table[j].load && low == table[j].vaddr;
      var k :| 0 <= k < i && table[k].load && high == table[k].vaddr + table[k].memsz;
    }
  }

  lemma SpanFrom(table: seq<Phdr>, found: bool, low: uint32, high: uint32)
    requires Extent(table, |table|, found, low, high)
    ensures var lo, hi := PageStart(if found then low else 0), PageEnd(high);
      && 0 <= lo <= hi <= TWO32 && lo % 4096 == 0 && hi % 4096 == 0 && Spans(table, lo, hi)
      && if AnyLoad(table) then SpanOf(table, lo, hi) else lo == hi
  {
    PageEndBounds(low);
    PageEndBounds(high);
    PageStartMultiple(low);
    if found {
      hide PageStart, PageEnd;
      PageStartBelow(low, high);
      forall j | 0 <= j < |table| && table[j].load
        ensures PageStart(low) <= PageStart(table[j].vaddr) && PageEnd(table[j].vaddr + table[j].memsz) <= PageEnd(high)
      {
        PageEndGrows(table[j].vaddr + table[j].memsz, high);
        PageStartGrows(low, table[j].vaddr);
      }
    }
  }

  lemma PageStartGrows(x: int, y: int)
    requires x <= y
    ensures PageStart(x) <= PageStart(y)
  {
  }

  lemma PageStartBelow(x: int, y: int)
    requires 0 <= x <= y < TWO32
    ensures 0 <= PageStart(x) <= PageEnd(y) <= TWO32
  {
  }

  lemma PageStartMultiple(x: int)
    ensures PageStart(x) % 4096 == 0 && (x >= 0 ==> PageStart(x) >= 0)
  {
  }

  /** What belongs at address `a` of a segment's pages once it is loaded: its file window, then zeros. */
  function Expected(p: Phdr, bias: int, file: seq<byte>, a: int): (r: byte)
    requires HeaderOk(p, |file|) && PageStart(p.vaddr) + bias <= a
  {
    var at := PageStart(p.offset) + (a - (PageStart(p.vaddr) + bias));
    if at < p.offset + p.filesz then file[at] else 0
  }

  /** An image byte is the file's byte below filesz and zero from there to memsz. */
  lemma ExpectedIsImage(p: Phdr, bias: int, file: seq<byte>, k: nat)
    requires HeaderOk(p, |file|) && k < p.memsz
    ensures InPagesOf(p, p.vaddr + k)
    ensures Expected(p, bias, file, p.vaddr + bias + k) == if k < p.filesz then file[p.offset + k] else 0
  {
  }

  /** Where a segment lies: `base` is the address of the image's virtual address 0. */
  ghost predicate Placed(ctx: Context, p: Phdr, bias: uint32, file: seq<byte>, base: int)
    reads ctx, ctx.vma, ctx.table.permissions
  {
    && ctx.Valid() && p.load && HeaderOk(p, |file|) && |file| < TWO32
    && bias == Wrap32(base) && base % 4096 == 0 && -TWO32 < base < TWO32
    && ctx.vma.lower <= PageStart(p.vaddr) + base && PageEnd(p.vaddr + p.memsz) + base <= ctx.vma.upper
    && PageEnd(p.vaddr + p.memsz) + base < TWO32
  }

  /** Outside the segment's pages nothing changed. */
  ghost predicate OnlyPagesOf(p: Phdr, base: int, was: seq<Region>, memoryWas: seq<byte>, now: seq<Region>,
      memory: seq<byte>) {
    && |memoryWas| == TWO32 && |memory| == TWO32
    && forall a :: 0 <= a < TWO32 && !InPagesOf(p, a - base) ==>
      memory[a] == memoryWas[a] && Look(now, a) == Look(was, a)
  }

  /** The segment's pages hold what they should. */
  ghost predicate HoldsExpected(p: Phdr, base: int, file: seq<byte>, memory: seq<byte>) {
    && HeaderOk(p, |file|) && |memory| == TWO32
    && 0 <= PageStart(p.vaddr) + base && PageEnd(p.vaddr + p.memsz) + base <= TWO32
    && forall a :: InPagesOf(p, a - base) ==> memory[a] == Expected(p, base, file, a)
  }

  ghost predicate ShowsProt(rs: seq<Region>, lo: int, hi: int, prot: nat) {
    forall a :: lo <= a < hi ==> Look(rs, a) == Some(prot)
  }

  /**
   The header's PF_R (4), PF_W (2) and PF_X (1) bits decide what may be done with every byte of the segment's pages, and
   nothing else does.
   */
  ghost predicate AsFlagged(rs: seq<Region>, p: Phdr, base: int) {
    forall a :: InPagesOf(p, a - base) ==>
      && Look(rs, a).Some?
      && (Grants(rs, a, PROT_READ) <==> p.flags / 4 % 2 == 1)
      && (Grants(rs, a, PROT_WRITE) <==> p.flags / 2 % 2 == 1)
      && (Grants(rs, a, PROT_EXEC) <==> p.flags % 2 == 1)
  }

  ghost predicate AllAsFlagged(rs: seq<Region>, table: seq<Phdr>, base: int) {
    forall i :: 0 <= i < |table| && table[i].load ==> AsFlagged(rs, table[i], base)
  }

  lemma ShownAsFlagged(rs: seq<Region>, p: Phdr, base: int)
    requires ShowsProt(rs, PageStart(p.vaddr) + base, PageEnd(p.vaddr + p.memsz) + base, Prot(p.flags))
    ensures AsFlagged(rs, p, base)
  {
    hide PageStart, PageEnd, Look;
  }

  lemma LoadedAsFlagged(table: seq<Phdr>, base: int, file: seq<byte>, rs: seq<Region>, memory: seq<byte>)
    requires Loaded(table, |table|, base, file, rs, memory)
    ensures AllAsFlagged(rs, table, base)
  {
    hide HoldsExpected, ShowsProt, AsFlagged, PageStart, PageEnd, Prot;
    forall i | 0 <= i < |table| && table[i].load ensures AsFlagged(rs, table[i], base) {
      ShownAsFlagged(rs, table[i], base);
    }
  }

  /** Bytes changed only in [lo, mid), protections only in [lo, hi). */
  ghost predicate OnlyRange(was: seq<Region>, memoryWas: seq<byte>, now: seq<Region>, memory: seq<byte>, lo: int,
      mid: int, hi: int) {
    && |memoryWas| == TWO32 && |memory| == TWO32
    && (forall a :: 0 <= a < TWO32 && !(lo <= a < mid) ==> memory[a] == memoryWas[a])
    && (forall a :: !(lo <= a < hi) ==> Look(now, a) == Look(was, a))
  }

  /** mmap2 with MAP_FIXED, seen from the loader: nothing outside the requested pages changes, even on failure. */
  method MapPages(ctx: Context, at: uint32, length: uint32, prot: nat, file: Option<seq<byte>>, pageOffset: uint32)
      returns (code: int)
    requires ctx.Valid() && length > 0 && prot <= 7 && InPages(at, length)
    requires ctx.vma.lower <= at && at + GuestMmap.RoundPage(length) <= ctx.vma.upper
    requires file.Some? ==> pageOffset * PAGE + length <= |file.value|
    modifies ctx`touched, ctx`memory, ctx`faults, ctx.vma`regions, ctx.table.permissions
    ensures ctx.Valid() && |ctx.memory| == TWO32
    ensures ctx.faults >= old(ctx.faults) && code == (if ctx.faults == old(ctx.faults) then 0 else EFAULT)
    ensures OnlyRange(old(ctx.vma.regions), old(ctx.memory), ctx.vma.regions, ctx.memory, at, at + length,
      at + GuestMmap.RoundPage(length))
    ensures code == 0 ==> ShowsProt(ctx.vma.regions, at, at + GuestMmap.RoundPage(length), prot)
    ensures code == 0 ==>
      ctx.memory[at..at + length] == if file.None? then Zeros(length)
        else file.value[pageOffset * PAGE..pageOffset * PAGE + length]
  {
    RoundPageIsRoundUp(length);
    assert ctx.vma.RangeOk(at, length);
    hide GuestMmap.RoundPage, Zeros, Look;
    var mapped;
    code, mapped := ctx.Mmap2(at, length, prot, MapFlags(false, true, true, file.None?, false), file, pageOffset);
  }

  /** An anonymous fixed mapping of whole pages. */
  method MapZeros(ctx: Context, at: uint32, length: uint32, prot: nat) returns (code: int)
    requires ctx.Valid() && length > 0 && prot <= 7 && InPages(at, length) && GuestMmap.RoundPage(length) == length
    requires ctx.vma.lower <= at && at + length <= ctx.vma.upper
    modifies ctx`touched, ctx`memory, ctx`faults, ctx.vma`regions, ctx.table.permissions
    ensures ctx.Valid() && |ctx.memory| == TWO32
    ensures ctx.faults >= old(ctx.faults) && code == (if ctx.faults == old(ctx.faults) then 0 else EFAULT)
    ensures OnlyRange(old(ctx.vma.regions), old(ctx.memory), ctx.vma.regions, ctx.memory, at, at + length, at + length)
    ensures code == 0 ==>
      ShowsProt(ctx.vma.regions, at, at + length, prot) && ctx.memory[at..at + length] == Zeros(length)
  {
    hide Context.Valid, InPages, GuestMmap.RoundPage, OnlyRange, ShowsProt, Zeros;
    code := MapPages(ctx, at, length, prot, None, 0);
  }

  /** Mapping the file window, which is not empty, at the segment's first page. */
  method MapWindow(ctx: Context, p: Phdr, file: seq<byte>, ghost base: int, at: uint32, length: uint32,
      pageOffset: uint32)
      returns (code: int)
    requires ctx.Valid() && HeaderOk(p, |file|) && |file| < TWO32 && base % 4096 == 0 && -TWO32 < base < TWO32
    requires ctx.vma.lower <= PageStart(p.vaddr) + base && PageEnd(p.vaddr + p.memsz) + base <= ctx.vma.upper
    requires PageEnd(p.vaddr + p.memsz) + base < TWO32 && at == PageStart(p.vaddr) + base
    requires length == p.offset + p.filesz - PageStart(p.offset) > 0 && pageOffset * PAGE == PageStart(p.offset)
    requires forall a :: InPagesOf(p, a - base) ==> ctx.memory[a] == 0
    modifies ctx`touched, ctx`memory, ctx`faults, ctx.vma`regions, ctx.table.permissions
    ensures ctx.Valid() && OnlyPagesOf(p, base, old(ctx.vma.regions), old(ctx.memory), ctx.vma.regions, ctx.memory)
    ensures ctx.faults >= old(ctx.faults) && code == (if ctx.faults == old(ctx.faults) then 0 else EFAULT)
    ensures code == 0 ==> HoldsExpected(p, base, file, ctx.memory)
    ensures code == 0 ==> ShowsProt(ctx.vma.regions, at, PageEnd(p.vaddr + p.filesz) + base, Prot(p.flags))
  {
    SegmentArithmetic(p, base, |file|);
    ghost var was, memoryWas := ctx.vma.regions, ctx.memory;
    assert |memoryWas| == TWO32 && InPages(at, length) && Prot(p.flags) <= 7;
    hide Context.Valid, GuestMmap.RoundPage, PageStart, PageEnd, Prot, Look, Wrap32, HoldsExpected, OnlyRange,
      OnlyPagesOf, InPagesOf, InPages, HeaderOk;
    code := MapPages(ctx, at, length, Prot(p.flags), Some(file), pageOffset);
    FilePartMapped(p, base, file, was, memoryWas, ctx.vma.regions, ctx.memory, code);
  }

  /** The file-backed pages of a segment. */
  method MapFilePart(ctx: Context, p: Phdr, bias: uint32, file: seq<byte>, ghost base: int) returns (code: int)
    requires Placed(ctx, p, bias, file, base)
    requires forall a :: InPagesOf(p, a - base) ==> ctx.memory[a] == 0
    modifies ctx`touched, ctx`memory, ctx`faults, ctx.vma`regions, ctx.table.permissions
    ensures ctx.Valid() && OnlyPagesOf(p, base, old(ctx.vma.regions), old(ctx.memory), ctx.vma.regions, ctx.memory)
    ensures ctx.faults >= old(ctx.faults) && code == (if ctx.faults == old(ctx.faults) then 0 else EFAULT)
    ensures code == 0 ==> HoldsExpected(p, base, file, ctx.memory)
    ensures code == 0 ==>
      ShowsProt(ctx.vma.regions, PageStart(p.vaddr) + base, PageEnd(p.vaddr + p.filesz) + base, Prot(p.flags))
  {
    SegmentArithmetic(p, base, |file|);
    assert |ctx.memory| == TWO32;
    hide Context.Valid, GuestMmap.RoundPage, PageStart, PageEnd, Prot, Look, Wrap32, HoldsExpected, OnlyPagesOf,
      InPagesOf;
    var segPageStart: uint32 := PageStart(Wrap32(p.vaddr + bias));
    var filePageStart: uint32 := PageStart(p.offset);
    var fileLength: uint32 := p.offset + p.filesz - filePageStart;
    if fileLength == 0 {
      NothingChanged(p, base, ctx.vma.regions, ctx.memory);
      NoFilePart(p, base, file, ctx.memory);
      return 0;
    }
    code := MapWindow(ctx, p, file, base, segPageStart, fileLength, filePageStart / 4096);
  }

  /** What mapping the file window did to the segment, whether it succeeded or not. */
  lemma FilePartMapped(p: Phdr, base: int, file: seq<byte>, was: seq<Region>, memoryWas: seq<byte>, now: seq<Region>,
      memory: seq<byte>, code: int)
    requires |memoryWas| == TWO32 && HeaderOk(p, |file|) && |file| < TWO32 && base % 4096 == 0 && -TWO32 < base < TWO32
    requires 0 <= PageStart(p.vaddr) + base && PageEnd(p.vaddr + p.memsz) + base < TWO32
    requires forall a :: InPagesOf(p, a - base) ==> memoryWas[a] == 0
    requires var lo, length := PageStart(p.vaddr) + base, p.offset + p.filesz - PageStart(p.offset);
      && OnlyRange(was, memoryWas, now, memory, lo, lo + length, PageEnd(p.vaddr + p.filesz) + base)
      && lo + length <= TWO32 && |memory| == TWO32
      && (code == 0 ==> memory[lo..lo + length] == file[PageStart(p.offset)..PageStart(p.offset) + length])
    ensures OnlyPagesOf(p, base, was, memoryWas, now, memory)
    ensures code == 0 ==> HoldsExpected(p, base, file, memory)
  {
    SegmentArithmetic(p, base, |file|);
    hide PageStart, PageEnd, Look, HoldsExpected, OnlyRange, OnlyPagesOf, InPagesOf;
    var lo, length := PageStart(p.vaddr) + base, p.offset + p.filesz - PageStart(p.offset);
    RangeUnchanged(p, base, was, memoryWas, now, memory, lo, lo + length, PageEnd(p.vaddr + p.filesz) + base);
    if code == 0 {
      FileWindowExpected(p, base, file, was, memoryWas, now, memory, PageEnd(p.vaddr + p.filesz) + base);
    }
  }

  /** A segment whose file window is empty has no file-backed page and holds only zeros. */
  lemma NoFilePart(p: Phdr, base: int, file: seq<byte>, memory: seq<byte>)
    requires |memory| == TWO32 && HeaderOk(p, |file|) && p.offset + p.filesz == PageStart(p.offset)
    requires 0 <= PageStart(p.vaddr) + base && PageEnd(p.vaddr + p.memsz) + base < TWO32
    requires forall a :: InPagesOf(p, a - base) ==> memory[a] == 0
    ensures HoldsExpected(p, base, file, memory) && PageEnd(p.vaddr + p.filesz) == PageStart(p.vaddr)
  {
  }

  /** A change confined to whole pages of the segment. */
  lemma RangeUnchanged(p: Phdr, base: int, was: seq<Region>, memoryWas: seq<byte>, now: seq<Region>, memory: seq<byte>,
      lo: int, mid: int, hi: int)
    requires OnlyRange(was, memoryWas, now, memory, lo, mid, hi)
    requires PageStart(p.vaddr) + base <= lo && mid <= hi <= PageEnd(p.vaddr + p.memsz) + base
    ensures OnlyPagesOf(p, base, was, memoryWas, now, memory)
  {
  }

  /** Writing the file window over zeros leaves what the segment should hold. */
  lemma FileWindowExpected(p: Phdr, base: int, file: seq<byte>, was: seq<Region>, memoryWas: seq<byte>,
      now: seq<Region>, memory: seq<byte>, hi: int)
    requires |memoryWas| == TWO32 && HeaderOk(p, |file|)
    requires 0 <= PageStart(p.vaddr) + base && PageEnd(p.vaddr + p.memsz) + base < TWO32
    requires forall a :: InPagesOf(p, a - base) ==> memoryWas[a] == 0
    requires var lo, length := PageStart(p.vaddr) + base, p.offset + p.filesz - PageStart(p.offset);
      && OnlyRange(was, memoryWas, now, memory, lo, lo + length, hi) && lo + length <= TWO32
      && memory[lo..lo + length] == file[PageStart(p.offset)..PageStart(p.offset) + length]
    ensures HoldsExpected(p, base, file, memory)
  {
    var lo, length := PageStart(p.vaddr) + base, p.offset + p.filesz - PageStart(p.offset);
    forall a | InPagesOf(p, a - base) ensures memory[a] == Expected(p, base, file, a) {
      if a < lo + length {
        assert memory[a] == memory[lo..lo + length][a - lo];
      }
    }
  }

  lemma SegmentArithmetic(p: Phdr, base: int, size: nat)
    requires HeaderOk(p, size) && size < TWO32 && base % 4096 == 0 && -TWO32 < base < TWO32
    requires 0 <= PageStart(p.vaddr) + base && PageEnd(p.vaddr + p.memsz) + base < TWO32
    ensures var length := p.offset + p.filesz - PageStart(p.offset);
      && Wrap32(p.vaddr + Wrap32(base)) == p.vaddr + base && PageStart(p.vaddr + base) == PageStart(p.vaddr) + base
      && PageStart(p.vaddr) + base + RoundPage(length) == PageEnd(p.vaddr + p.filesz) + base
      && PageStart(p.vaddr) + length == p.vaddr + p.filesz <= PageEnd(p.vaddr + p.filesz)
      && PageEnd(p.vaddr + p.filesz) <= PageEnd(p.vaddr + p.memsz)
      && PageStart(p.offset) / 4096 * PAGE == PageStart(p.offset)
        && 0 <= PageStart(p.offset) <= p.offset + p.filesz < TWO32
      && PageStart(p.vaddr + base) % PAGE == 0
  {
    SegmentStart(p, base, size);
    PageStartShift(p.vaddr, base);
    FileWindow(p, size);
    PageEndGrows(p.vaddr + p.filesz, p.vaddr + p.memsz);
    hide PageStart, PageEnd, Wrap32, PageOffset, GuestMmap.RoundPage;
  }

  lemma PageStartShift(x: int, base: int)
    requires base % 4096 == 0
    ensures PageStart(x + base) == PageStart(x) + base && PageStart(x + base) % 4096 == 0
  {
  }

  /** The file window starts as far into its first page as the segment does into its own. */
  lemma FileWindow(p: Phdr, size: nat)
    requires HeaderOk(p, size) && size < TWO32
    ensures var length := p.offset + p.filesz - PageStart(p.offset);
      && PageStart(p.vaddr) + RoundPage(length) == PageEnd(p.vaddr + p.filesz)
      && PageStart(p.vaddr) + length == p.vaddr + p.filesz <= PageEnd(p.vaddr + p.filesz)
      && PageStart(p.offset) / 4096 * PAGE == PageStart(p.offset)
        && 0 <= PageStart(p.offset) <= p.offset + p.filesz < TWO32
  {
  }

  /** Zeroing what is zero already keeps the expected contents. */
  lemma ZerosExpected(p: Phdr, base: int, file: seq<byte>, was: seq<Region>, memoryWas: seq<byte>, now: seq<Region>,
      memory: seq<byte>, lo: int, mid: int, hi: int)
    requires HoldsExpected(p, base, file, memoryWas) && OnlyRange(was, memoryWas, now, memory, lo, mid, hi)
    requires p.vaddr + p.filesz + base <= lo <= mid <= TWO32
    requires |memory| == TWO32 && memory[lo..mid] == Zeros(mid - lo)
    ensures HoldsExpected(p, base, file, memory)
  {
    forall a | InPagesOf(p, a - base) ensures memory[a] == Expected(p, base, file, a) {
      if lo <= a < mid {
        assert memory[a] == memory[lo..mid][a - lo];
      }
    }
  }

  /** The zero-fill of a writable segment's last file page. */
  method ZeroTail(ctx: Context, p: Phdr, bias: uint32, file: seq<byte>, ghost base: int) returns (ok: bool)
    requires Placed(ctx, p, bias, file, base) && HoldsExpected(p, base, file, ctx.memory)
    modifies ctx`memory, ctx`faults
    ensures ctx.Valid() && OnlyPagesOf(p, base, ctx.vma.regions, old(ctx.memory), ctx.vma.regions, ctx.memory)
    ensures ctx.faults >= old(ctx.faults) && (ok <==> ctx.faults == old(ctx.faults))
    ensures ok ==> HoldsExpected(p, base, file, ctx.memory)
  {
    var segFileEnd: uint32 := Wrap32(Wrap32(p.vaddr + bias) + p.filesz);
    TailPlaced(ctx, p, bias, file, base);
    ghost var rs, memoryWas := ctx.vma.regions, ctx.memory;
    NothingChanged(p, base, rs, memoryWas);
    if !Writable(p) || PageOffset(segFileEnd) == 0 { return true; }
    hide PageStart, PageEnd, PageOffset, Zeros, Look, Prot, OnlyRange, OnlyPagesOf, HoldsExpected, Context.Valid,
      Placed, Wrap32;
    var length := 4096 - PageOffset(segFileEnd);
    ok := ZeroRange(ctx, segFileEnd, length);
    ghost var end := segFileEnd + length;
    RangeUnchanged(p, base, rs, memoryWas, rs, ctx.memory, segFileEnd, end, end);
    if ok { ZerosExpected(p, base, file, rs, memoryWas, rs, ctx.memory, segFileEnd, end, end); }
  }

  /** write_zero, seen from the loader. */
  method ZeroRange(ctx: Context, at: uint32, length: nat) returns (ok: bool)
    requires ctx.Valid() && at + length <= TWO32
    modifies ctx`memory, ctx`faults
    ensures ctx.Valid()
      && OnlyRange(ctx.vma.regions, old(ctx.memory), ctx.vma.regions, ctx.memory, at, at + length, at + length)
    ensures |ctx.memory| == TWO32 && ctx.faults >= old(ctx.faults) && (ok <==> ctx.faults == old(ctx.faults))
    ensures ok ==> ctx.memory[at..at + length] == Zeros(length)
  {
    hide Zeros, Look;
    ok := ctx.WriteZero(at, length);
  }

  lemma TailPlaced(ctx: Context, p: Phdr, bias: uint32, file: seq<byte>, base: int)
    requires Placed(ctx, p, bias, file, base)
    ensures ctx.Valid() && |ctx.memory| == TWO32
    ensures var e := Wrap32(Wrap32(p.vaddr + bias) + p.filesz);
      && e == p.vaddr + p.filesz + base && PageStart(p.vaddr) + base <= e
      && 0 <= PageOffset(e) < 4096
      && (PageOffset(e) != 0 ==> e + (4096 - PageOffset(e)) <= PageEnd(p.vaddr + p.memsz) + base <= TWO32)
  {
    SegmentStart(p, base, |file|);
    PageEndBounds(p.vaddr);
    PageEndBounds(p.vaddr + p.memsz);
    InRangeSum(p.vaddr + base, p.memsz, p.filesz);
    if PageOffset(p.vaddr + p.filesz + base) != 0 { TailArithmetic(p, base, |file|); }
    hide PageStart, PageEnd, Wrap32;
  }

  lemma TailArithmetic(p: Phdr, base: int, size: nat)
    requires HeaderOk(p, size) && base % 4096 == 0 && 0 <= PageStart(p.vaddr) + base
      && PageEnd(p.vaddr + p.memsz) + base < TWO32
    requires PageOffset(p.vaddr + p.filesz + base) != 0
    ensures p.vaddr + p.filesz + base + (4096 - PageOffset(p.vaddr + p.filesz + base)) ==
      PageEnd(p.vaddr + p.filesz) + base
    ensures PageStart(p.vaddr) <= p.vaddr && PageEnd(p.vaddr + p.filesz) <= PageEnd(p.vaddr + p.memsz)
  {
  }

  /** The anonymous pages [lo, hi) of a segment whose other pages are in place. */
  method MapBssPages(ctx: Context, p: Phdr, file: seq<byte>, ghost base: int, lo: uint32, hi: uint32)
      returns (code: int)
    requires ctx.Valid() && HoldsExpected(p, base, file, ctx.memory) && Prot(p.flags) <= 7
    requires ShowsProt(ctx.vma.regions, PageStart(p.vaddr) + base, lo, Prot(p.flags))
    requires PageStart(p.vaddr) + base <= lo < hi && p.vaddr + p.filesz + base <= lo
    requires hi == PageEnd(p.vaddr + p.memsz) + base
    requires GuestMmap.RoundPage(hi - lo) == hi - lo && ctx.vma.lower <= lo && hi <= ctx.vma.upper
      && InPages(lo, hi - lo)
    modifies ctx`touched, ctx`memory, ctx`faults, ctx.vma`regions, ctx.table.permissions
    ensures ctx.Valid() && OnlyPagesOf(p, base, old(ctx.vma.regions), old(ctx.memory), ctx.vma.regions, ctx.memory)
    ensures ctx.faults >= old(ctx.faults) && code == (if ctx.faults == old(ctx.faults) then 0 else EFAULT)
    ensures code == 0 ==>
      HoldsExpected(p, base, file, ctx.memory)
        && ShowsProt(ctx.vma.regions, PageStart(p.vaddr) + base, hi, Prot(p.flags))
  {
    hide Context.Valid, PageStart, PageEnd, Prot, Look, Zeros, GuestMmap.RoundPage, HoldsExpected, OnlyPagesOf,
      ShowsProt,
      OnlyRange, InPages;
    ghost var was, memoryWas := ctx.vma.regions, ctx.memory;
    code := MapZeros(ctx, lo, hi - lo, Prot(p.flags));
    BssMapped(p, base, file, was, memoryWas, ctx.vma.regions, ctx.memory, lo, hi, code);
  }

  /** The anonymous pages between the file part and the end of the segment. */
  method MapBss(ctx: Context, p: Phdr, bias: uint32, file: seq<byte>, ghost base: int) returns (code: int)
    requires Placed(ctx, p, bias, file, base) && HoldsExpected(p, base, file, ctx.memory)
    requires ShowsProt(ctx.vma.regions, PageStart(p.vaddr) + base, PageEnd(p.vaddr + p.filesz) + base, Prot(p.flags))
    modifies ctx`touched, ctx`memory, ctx`faults, ctx.vma`regions, ctx.table.permissions
    ensures ctx.Valid() && OnlyPagesOf(p, base, old(ctx.vma.regions), old(ctx.memory), ctx.vma.regions, ctx.memory)
    ensures ctx.faults >= old(ctx.faults) && code == (if ctx.faults == old(ctx.faults) then 0 else EFAULT)
    ensures code == 0 ==> HoldsExpected(p, base, file, ctx.memory)
    ensures code == 0 ==>
      ShowsProt(ctx.vma.regions, PageStart(p.vaddr) + base, PageEnd(p.vaddr + p.memsz) + base, Prot(p.flags))
  {
    BssPlaced(ctx, p, bias, file, base);
    NothingChanged(p, base, ctx.vma.regions, ctx.memory);
    hide Context.Valid, PageStart, PageEnd, Prot, Look, GuestMmap.RoundPage, Wrap32, HoldsExpected, OnlyPagesOf,
      ShowsProt, HeaderOk, Placed, InPages;
    var segStart: uint32 := Wrap32(p.vaddr + bias);
    var segPageEnd: uint32 := PageEnd(Wrap32(segStart + p.memsz));
    var segFileEnd: uint32 := PageEnd(Wrap32(segStart + p.filesz));
    if segPageEnd <= segFileEnd { return 0; }
    code := MapBssPages(ctx, p, file, base, segFileEnd, segPageEnd);
  }

  /** The pages after the file part lie inside the segment's reservation. */
  lemma BssPlaced(ctx: Context, p: Phdr, bias: uint32, file: seq<byte>, base: int)
    requires Placed(ctx, p, bias, file, base)
    ensures ctx.Valid() && |ctx.memory| == TWO32 && Prot(p.flags) <= 7
    ensures var segStart := Wrap32(p.vaddr + bias);
      && PageEnd(Wrap32(segStart + p.memsz)) == PageEnd(p.vaddr + p.memsz) + base
      && PageEnd(Wrap32(segStart + p.filesz)) == PageEnd(p.vaddr + p.filesz) + base
    ensures var lo, hi := PageEnd(p.vaddr + p.filesz) + base, PageEnd(p.vaddr + p.memsz) + base;
      && 0 <= PageStart(p.vaddr) + base <= lo <= hi < TWO32 && p.vaddr + p.filesz + base <= lo
      && GuestMmap.RoundPage(hi - lo) == hi - lo && ctx.vma.lower <= lo && hi <= ctx.vma.upper
      && (lo < hi ==> InPages(lo, hi - lo))
  {
    BssArithmetic(p, bias, base, |file|);
    hide PageStart, PageEnd, Prot, Look, Zeros, GuestMmap.RoundPage, Wrap32, OnlyPagesOf, ShowsProt, HeaderOk,
      OnlyRange;
  }

  lemma BssMapped(p: Phdr, base: int, file: seq<byte>, was: seq<Region>, memoryWas: seq<byte>, now: seq<Region>,
      memory: seq<byte>, lo: int, hi: int, code: int)
    requires |memory| == TWO32 && HoldsExpected(p, base, file, memoryWas) && PageStart(p.vaddr) + base <= lo <= hi
    requires p.vaddr + p.filesz + base <= lo && hi == PageEnd(p.vaddr + p.memsz) + base <= TWO32
    requires ShowsProt(was, PageStart(p.vaddr) + base, lo, Prot(p.flags))
    requires OnlyRange(was, memoryWas, now, memory, lo, hi, hi)
    requires code == 0 ==> ShowsProt(now, lo, hi, Prot(p.flags)) && memory[lo..hi] == Zeros(hi - lo)
    ensures OnlyPagesOf(p, base, was, memoryWas, now, memory)
    ensures code == 0 ==>
      HoldsExpected(p, base, file, memory) && ShowsProt(now, PageStart(p.vaddr) + base, hi, Prot(p.flags))
  {
    RangeUnchanged(p, base, was, memoryWas, now, memory, lo, hi, hi);
    hide Look, Prot, PageStart, PageEnd, Zeros;
    if code == 0 {
      ZerosExpected(p, base, file, was, memoryWas, now, memory, lo, hi, hi);
      ProtJoined(was, now, PageStart(p.vaddr) + base, lo, hi, Prot(p.flags));
    }
  }

  lemma NothingChanged(p: Phdr, base: int, rs: seq<Region>, memory: seq<byte>)
    requires |memory| == TWO32
    ensures OnlyPagesOf(p, base, rs, memory, rs, memory)
  {
  }

  lemma ProtJoined(was: seq<Region>, now: seq<Region>, lo: int, mid: int, hi: int, prot: nat)
    requires ShowsProt(was, lo, mid, prot) && ShowsProt(now, mid, hi, prot)
    requires forall a :: !(mid <= a < hi) ==> Look(now, a) == Look(was, a)
    ensures ShowsProt(now, lo, hi, prot)
  {
  }

  lemma BssArithmetic(p: Phdr, bias: uint32, base: int, size: nat)
    requires HeaderOk(p, size) && base % 4096 == 0 && -TWO32 < base < TWO32 && bias == Wrap32(base)
    requires 0 <= PageStart(p.vaddr) + base && PageEnd(p.vaddr + p.memsz) + base < TWO32
    ensures var segStart := Wrap32(p.vaddr + bias);
      && PageEnd(Wrap32(segStart + p.memsz)) == PageEnd(p.vaddr + p.memsz) + base
      && PageEnd(Wrap32(segStart + p.filesz)) == PageEnd(p.vaddr + p.filesz) + base
    ensures var n := PageEnd(p.vaddr + p.memsz) - PageEnd(p.vaddr + p.filesz);
      n >= 0 && GuestMmap.RoundPage(n) == n
    ensures 0 <= p.vaddr + p.filesz <= PageEnd(p.vaddr + p.filesz) && (PageEnd(p.vaddr + p.filesz) + base) % 4096 == 0
    ensures PageStart(p.vaddr) <= PageEnd(p.vaddr + p.filesz)
  {
    hide PageEnd, PageStart, PageOffset, Wrap32, GuestMmap.RoundPage;
    SegmentStart(p, base, size);
    PageEndBounds(p.vaddr + p.memsz);
    PageEndShift(p.vaddr + p.memsz, base);
    PageEndShift(p.vaddr + p.filesz, base);
    InRangeSum(p.vaddr + base, p.memsz, p.filesz);
    EndPages(p, base);
  }

  lemma EndPages(p: Phdr, base: int)
    requires p.filesz <= p.memsz && base % 4096 == 0
    ensures var n := PageEnd(p.vaddr + p.memsz) - PageEnd(p.vaddr + p.filesz);
      n >= 0 && GuestMmap.RoundPage(n) == n
    ensures 0 <= p.vaddr + p.filesz <= PageEnd(p.vaddr + p.filesz) && (PageEnd(p.vaddr + p.filesz) + base) % 4096 == 0
    ensures PageStart(p.vaddr) <= PageEnd(p.vaddr + p.filesz)
  {
    hide PageEnd, PageStart, GuestMmap.RoundPage;
    PageEndBounds(p.vaddr + p.memsz);
    PageEndBounds(p.vaddr + p.filesz);
    PageEndBounds(p.vaddr);
    PageEndGrows(p.vaddr + p.filesz, p.vaddr + p.memsz);
    SumOfPages(PageEnd(p.vaddr + p.filesz), base);
    SumOfPages(PageEnd(p.vaddr + p.memsz), PageEnd(p.vaddr + p.filesz));
    WholePages(PageEnd(p.vaddr + p.memsz) - PageEnd(p.vaddr + p.filesz));
  }

  lemma SumOfPages(x: int, y: int)
    requires x % 4096 == 0 && y % 4096 == 0
    ensures (x + y) % 4096 == 0 && (x - y) % 4096 == 0
  {
  }

  lemma InRangeSum(start: int, memsz: int, filesz: int)
    requires 0 <= filesz <= memsz && 0 <= start && start + memsz < TWO32
    ensures Wrap32(start + memsz) == start + memsz && Wrap32(start + filesz) == start + filesz
  {
  }

  lemma SegmentStart(p: Phdr, base: int, size: nat)
    requires HeaderOk(p, size) && base % 4096 == 0 && -TWO32 < base < TWO32
    requires 0 <= PageStart(p.vaddr) + base && PageEnd(p.vaddr + p.memsz) + base < TWO32
    ensures Wrap32(p.vaddr + Wrap32(base)) == p.vaddr + base >= 0
  {
  }

  lemma PageEndGrows(x: int, y: int)
    requires x <= y
    ensures PageEnd(x) <= PageEnd(y)
  {
  }

  lemma WholePages(n: int)
    requires n % 4096 == 0
    ensures GuestMmap.RoundPage(n) == n
  {
  }

  lemma PageEndShift(x: int, base: int)
    requires base % 4096 == 0
    ensures PageEnd(x + base) == PageEnd(x) + base
  {
  }

  lemma PageEndBounds(x: int)
    ensures PageStart(x) <= x <= PageEnd(x) < x + 4096 && PageEnd(x) % 4096 == 0
  {
  }

  /** One round of LoadSegments. */
  method LoadSegment(ctx: Context, p: Phdr, bias: uint32, file: seq<byte>, ghost base: int) returns (code: int)
    requires Placed(ctx, p, bias, file, base)
    requires forall a :: InPagesOf(p, a - base) ==> ctx.memory[a] == 0
    modifies ctx`touched, ctx`memory, ctx`faults, ctx.vma`regions, ctx.table.permissions
    ensures ctx.Valid() && OnlyPagesOf(p, base, old(ctx.vma.regions), old(ctx.memory), ctx.vma.regions, ctx.memory)
    ensures ctx.faults >= old(ctx.faults) && code == (if ctx.faults == old(ctx.faults) then 0 else EFAULT)
    ensures code == 0 ==> HoldsExpected(p, base, file, ctx.memory)
    ensures code == 0 ==>
      ShowsProt(ctx.vma.regions, PageStart(p.vaddr) + base, PageEnd(p.vaddr + p.memsz) + base, Prot(p.flags))
    ensures code == 0 ==> AsFlagged(ctx.vma.regions, p, base)
  {
    hide Context.Valid, HoldsExpected, PageStart, PageEnd, Prot, Look, AsFlagged;
    code := MapFilePart(ctx, p, bias, file, base);
    if code != 0 { return; }
    var ok := ZeroTail(ctx, p, bias, file, base);
    if !ok { return EFAULT; }
    code := MapBss(ctx, p, bias, file, base);
    if code == 0 { ShownAsFlagged(ctx.vma.regions, p, base); }
  }

  // ---- Whole images ---------------------------------------------------------------------------

  /** The first `n` headers are loaded: contents and protections of all their segments are in place. */
  ghost predicate Loaded(table: seq<Phdr>, n: int, base: int, file: seq<byte>, rs: seq<Region>, memory: seq<byte>) {
    forall j :: 0 <= j < n && j < |table| && table[j].load ==>
      HoldsExpected(table[j], base, file, memory)
      && ShowsProt(rs, PageStart(table[j].vaddr) + base, PageEnd(table[j].vaddr + table[j].memsz) + base,
        Prot(table[j].flags))
  }

  ghost predicate ZeroPages(p: Phdr, base: int, memory: seq<byte>) {
    |memory| == TWO32 && forall a :: 0 <= a < TWO32 && InPagesOf(p, a - base) ==> memory[a] == 0
  }

  /** The segments from header `n` on are still all zero. */
  ghost predicate Pristine(table: seq<Phdr>, n: int, base: int, memory: seq<byte>) {
    forall j :: 0 <= n <= j < |table| && table[j].load ==> ZeroPages(table[j], base, memory)
  }

  /** Outside the reservation nothing changed. */
  ghost predicate OnlyWithin(lo: int, hi: int, was: seq<Region>, memoryWas: seq<byte>, now: seq<Region>,
      memory: seq<byte>) {
    && |memoryWas| == TWO32 && |memory| == TWO32
    && forall a :: 0 <= a < TWO32 && !(lo <= a < hi) ==> memory[a] == memoryWas[a] && Look(now, a) == Look(was, a)
  }

  /** The image's file is well formed and its pages are [loadStart, loadStart + loadSize). */
  ghost predicate ImageFits(ctx: Context, table: seq<Phdr>, file: seq<byte>, image: Image, base: int)
    reads ctx, ctx.vma, ctx.table.permissions
  {
    ctx.Valid() && ImageShape(ctx.vma, table, file, image, base)
  }

  ghost predicate ImageShape(vma: Space, table: seq<Phdr>, file: seq<byte>, image: Image, base: int) {
    && |file| < TWO32
    && HeadersOk(table, |file|) && Spans(table, image.minVaddr, image.minVaddr + image.loadSize)
    && base == image.loadStart - image.minVaddr && base % 4096 == 0 && image.loadBias == Wrap32(base)
    && vma.lower <= image.loadStart && image.loadStart + image.loadSize <= vma.upper
      && image.loadStart + image.loadSize < TWO32
  }

  /** ElfReader::LoadSegments. */
  method LoadSegments(ctx: Context, table: seq<Phdr>, file: seq<byte>, image: Image, ghost base: int)
      returns (code: int)
    requires ImageFits(ctx, table, file, image, base) && PageDisjoint(table)
    requires Pristine(table, 0, base, ctx.memory)
    modifies ctx`touched, ctx`memory, ctx`faults, ctx.vma`regions, ctx.table.permissions
    ensures ctx.Valid()
    ensures OnlyWithin(image.loadStart, image.loadStart + image.loadSize, old(ctx.vma.regions), old(ctx.memory),
      ctx.vma.regions, ctx.memory)
    ensures ctx.faults >= old(ctx.faults) && code == (if ctx.faults == old(ctx.faults) then 0 else EFAULT)
    ensures code == 0 ==> Loaded(table, |table|, base, file, ctx.vma.regions, ctx.memory)
  {
    ghost var lo, hi := image.loadStart, image.loadStart + image.loadSize;
    ghost var was, memoryWas := ctx.vma.regions, ctx.memory;
    var i := 0;
    while i < |table|
      invariant 0 <= i <= |table| && ImageFits(ctx, table, file, image, base)
      invariant OnlyWithin(lo, hi, was, memoryWas, ctx.vma.regions, ctx.memory) && ctx.faults == old(ctx.faults)
      invariant Loaded(table, i, base, file, ctx.vma.regions, ctx.memory) && Pristine(table, i, base, ctx.memory)
    {
      if table[i].load {
        ghost var rs, memory := ctx.vma.regions, ctx.memory;
        SegmentPlaced(ctx, table, file, image, base, i);
        hide Context.Valid, HoldsExpected, ShowsProt, OnlyPagesOf, OnlyWithin, Loaded, Pristine, PageStart, PageEnd,
          Prot, Look, Spans, HeadersOk;
        code := LoadSegment(ctx, table[i], image.loadBias, file, base);
        StayedWithin(table, i, base, image, was, memoryWas, rs, memory, ctx.vma.regions, ctx.memory);
        if code != 0 { return; }
        OthersKept(table, i, base, file, rs, memory, ctx.vma.regions, ctx.memory);
      } else {
        SkipHeader(table, i, base, file, ctx.vma.regions, ctx.memory);
      }
      i := i + 1;
    }
    code := 0;
  }

  lemma SegmentPlaced(ctx: Context, table: seq<Phdr>, file: seq<byte>, image: Image, base: int, i: nat)
    requires ImageFits(ctx, table, file, image, base) && i < |table| && table[i].load
      && Pristine(table, i, base, ctx.memory)
    ensures Placed(ctx, table[i], image.loadBias, file, base)
    ensures forall a :: InPagesOf(table[i], a - base) ==> ctx.memory[a] == 0
  {
    assert HeaderOk(table[i], |file|);
    assert ZeroPages(table[i], base, ctx.memory);
  }

  lemma SkipHeader(table: seq<Phdr>, i: nat, base: int, file: seq<byte>, rs: seq<Region>, memory: seq<byte>)
    requires i < |table| && !table[i].load && Loaded(table, i, base, file, rs, memory)
      && Pristine(table, i, base, memory)
    ensures Loaded(table, i + 1, base, file, rs, memory) && Pristine(table, i + 1, base, memory)
  {
  }

  lemma StayedWithin(table: seq<Phdr>, i: nat, base: int, image: Image, was: seq<Region>, memoryWas: seq<byte>,
      rs: seq<Region>, memory: seq<byte>, rs': seq<Region>, memory': seq<byte>)
    requires i < |table| && table[i].load && Spans(table, image.minVaddr, image.minVaddr + image.loadSize)
    requires base == image.loadStart - image.minVaddr
    requires OnlyWithin(image.loadStart, image.loadStart + image.loadSize, was, memoryWas, rs, memory)
    requires OnlyPagesOf(table[i], base, rs, memory, rs', memory')
    ensures OnlyWithin(image.loadStart, image.loadStart + image.loadSize, was, memoryWas, rs', memory')
  {
    forall a | 0 <= a < TWO32 && !(image.loadStart <= a < image.loadStart + image.loadSize)
      ensures memory'[a] == memoryWas[a] && Look(rs', a) == Look(was, a)
    {
      assert !InPagesOf(table[i], a - base);
    }
  }

  /** Loading one segment leaves the pages of all others alone. */
  lemma OthersKept(table: seq<Phdr>, i: nat, base: int, file: seq<byte>, rs: seq<Region>, memory: seq<byte>,
      rs': seq<Region>, memory': seq<byte>)
    requires i < |table| && table[i].load && PageDisjoint(table)
    requires Loaded(table, i, base, file, rs, memory) && Pristine(table, i, base, memory)
    requires OnlyPagesOf(table[i], base, rs, memory, rs', memory')
    requires HoldsExpected(table[i], base, file, memory')
    requires ShowsProt(rs', PageStart(table[i].vaddr) + base, PageEnd(table[i].vaddr + table[i].memsz) + base,
      Prot(table[i].flags))
    ensures Loaded(table, i + 1, base, file, rs', memory') && Pristine(table, i + 1, base, memory')
  {
    hide Prot, Expected, PageStart, PageEnd, Look;
    forall j, a | 0 <= j < |table| && j != i && table[j].load && 0 <= a < TWO32 && InPagesOf(table[j], a - base)
      ensures memory'[a] == memory[a] && Look(rs', a) == Look(rs, a)
    {
      assert !InPagesOf(table[i], a - base);
    }
    forall j | 0 <= j < i && table[j].load
      ensures HoldsExpected(table[j], base, file, memory')
      ensures ShowsProt(rs', PageStart(table[j].vaddr) + base, PageEnd(table[j].vaddr + table[j].memsz) + base,
        Prot(table[j].flags))
    {
      assert HoldsExpected(table[j], base, file, memory);
      forall a | PageStart(table[j].vaddr) + base <= a < PageEnd(table[j].vaddr + table[j].memsz) + base
        ensures Look(rs', a) == Some(Prot(table[j].flags))
      {
        assert InPagesOf(table[j], a - base);
      }
    }
    forall j | i + 1 <= j < |table| && table[j].load ensures ZeroPages(table[j], base, memory') {
      assert ZeroPages(table[j], base, memory);
    }
  }

  /** The address asked for: the preferred place, unless it does not fit in 32 bits. */
  function Hint(preferredBias: uint32, minVaddr: uint32): (r: uint32) {
    if preferredBias <= TWO32 - 1 - minVaddr then preferredBias + minVaddr else 0
  }

  /** The segments occupy at least one page, and fewer than all pages of the 4 GiB space. */
  ghost predicate LoadsPages(table: seq<Phdr>) {
    exists lo: uint32, hi :: SpanOf(table, lo, hi) && 0 < hi - lo < TWO32
  }

  /** Some segment occupies a page, and a free range for the whole span exists at or above the address asked for. */
  ghost predicate CanReserve(vma: Space, table: seq<Phdr>, preferredBias: uint32)
    requires InitOk(vma.page, vma.lower, vma.upper)
    reads vma
  {
    exists lo: uint32, hi :: SpanOf(table, lo, hi) && lo < hi
      && !vma.NoFit(if preferredBias + lo < TWO32 then preferredBias + lo else 0, hi - lo)
  }

  /** The image takes the lowest such range. */
  ghost predicate ReservedLowest(vma: Space, table: seq<Phdr>, preferredBias: uint32, image: Image)
    requires InitOk(vma.page, vma.lower, vma.upper)
    reads vma
  {
    && SpanOf(table, image.minVaddr, image.minVaddr + image.loadSize)
      && image.maxVaddr == Wrap32(image.minVaddr + image.loadSize)
    && vma.LeastFit(if preferredBias + image.minVaddr < TWO32 then preferredBias + image.minVaddr else 0,
      image.loadSize,
      image.loadStart)
  }

  /**
   The range the image would get does not end at 2^32 itself: there the 32-bit end of its last segment wraps to 0, and
   its anonymous pages would not be mapped.
   */
  ghost predicate EndsBelowTop(vma: Space, table: seq<Phdr>, preferredBias: uint32)
    requires InitOk(vma.page, vma.lower, vma.upper)
    reads vma
  {
    forall image :: ReservedLowest(vma, table, preferredBias, image) ==> image.loadStart + image.loadSize < TWO32
  }

  lemma SpanUnique(table: seq<Phdr>, lo: uint32, hi: int, lo': uint32, hi': int)
    requires SpanOf(table, lo, hi) && SpanOf(table, lo', hi')
    ensures lo == lo' && hi == hi'
  {
  }

  lemma SpanNeedsLoad(table: seq<Phdr>, lo: uint32, hi: int)
    requires SpanOf(table, lo, hi)
    ensures AnyLoad(table)
  {
  }

  /** An inaccessible anonymous mapping of whole pages, at the lowest fit. */
  method ReserveRange(ctx: Context, addr: uint32, size: uint32) returns (code: int, start: uint32)
    requires ctx.Valid() && size > 0 && size % 4096 == 0
    modifies ctx`touched, ctx`memory, ctx`faults, ctx.vma`regions, ctx.table.permissions
    ensures ctx.Valid() && |ctx.memory| == TWO32
    ensures ctx.faults >= old(ctx.faults)
    ensures code ==
      if old(ctx.vma.NoFit(addr, size)) then ENOMEM else if ctx.faults == old(ctx.faults) then 0 else EFAULT
    ensures code != 0 ==> forall a :: Look(ctx.vma.regions, a) == Look(old(ctx.vma.regions), a)
    ensures code != 0 ==> forall a :: 0 <= a < TWO32 && Look(old(ctx.vma.regions), a).Some? ==>
      ctx.memory[a] == old(ctx.memory[a])
    ensures code == 0 ==> old(ctx.vma.LeastFit(addr, size, start))
    ensures code == 0 ==> ctx.Installed(old(ctx.vma.regions), old(ctx.memory), addr, size, 0,
      MapFlags(false, true, false, true, false), None, 0, start)
  {
    WholePages(size);
    ghost var was, memoryWas := ctx.vma.regions, ctx.memory;
    assert |memoryWas| == TWO32;
    hide Context.Valid, Look, IsFree, Context.Disturbed, Context.Installed, GuestMmap.RoundPage, Space.LeastFit,
      Space.NoFit;
    code, start := ctx.Mmap2(addr, size, 0, MapFlags(false, true, false, true, false), None, 0);
    if code == EFAULT { Undisturbed(ctx, was, memoryWas, addr, size); }
  }

  /** The range for a span that is not empty. */
  method ReserveSpan(ctx: Context, table: seq<Phdr>, file: seq<byte>, preferredBias: uint32, loadSize: uint32,
      minVaddr: uint32, maxVaddr: uint32, ghost end: int) returns (code: int, image: Image, ghost base: int)
    requires ctx.Valid() && |file| < TWO32 && HeadersOk(table, |file|) && EndsBelowTop(ctx.vma, table, preferredBias)
    requires SpanOf(table, minVaddr, end) && loadSize == end - minVaddr > 0 && maxVaddr == Wrap32(end)
    requires minVaddr % 4096 == 0 && end % 4096 == 0
    modifies ctx`touched, ctx`memory, ctx`faults, ctx.vma`regions, ctx.table.permissions
    ensures ctx.Valid() && |ctx.memory| == TWO32
    ensures code != 0 ==> forall a :: Look(ctx.vma.regions, a) == Look(old(ctx.vma.regions), a)
    ensures code != 0 ==> forall a :: 0 <= a < TWO32 && Look(old(ctx.vma.regions), a).Some? ==>
      ctx.memory[a] == old(ctx.memory[a])
    ensures code == 0 ==> ImageFits(ctx, table, file, image, base) && Pristine(table, 0, base, ctx.memory)
    ensures code == 0 ==> Reserved(image, old(ctx.vma.regions), old(ctx.memory), ctx.vma.regions, ctx.memory)
    ensures ctx.faults >= old(ctx.faults)
    ensures code == if old(ctx.vma.NoFit(Hint(preferredBias, minVaddr), loadSize)) then ENOMEM
      else if ctx.faults == old(ctx.faults) then 0 else EFAULT
    ensures code == 0 ==> old(ReservedLowest(ctx.vma, table, preferredBias, image))
  {
    LowestFits(ctx.vma, table, preferredBias, loadSize, minVaddr, maxVaddr, end);
    image, base := NO_IMAGE, 0;
    var addr: uint32 := Hint(preferredBias, minVaddr);
    ghost var was, memoryWas := ctx.vma.regions, ctx.memory;
    assert |memoryWas| == TWO32 && Spans(table, minVaddr, end);
    hide Context.Valid, GuestMmap.RoundPage, Look, PageStart, PageEnd, Zeros, HeadersOk, IsFree, Spans, EndsBelowTop,
      CanReserve, ReservedLowest, Space.LeastFit, Space.NoFit, Pristine, ImageFits, Reserved, SpanOf, AnyLoad, Hint,
      Context.Installed;
    var start;
    code, start := ReserveRange(ctx, addr, loadSize);
    if code != 0 { return code, NO_IMAGE, 0; }
    var shift: int := (start as int) - (minVaddr as int);
    image := Image(start, loadSize, Wrap32(shift), minVaddr, maxVaddr);
    base := shift;
    assert old(GoesTo(ctx.vma, table, preferredBias, loadSize, minVaddr, maxVaddr, start));
    ReservationMade(ctx, table, file, image, base, was, memoryWas, addr);
  }

  /** ElfReader::ReserveAddressSpace: one inaccessible, zero-filled, previously free range for the whole image. */
  method ReserveAddressSpace(ctx: Context, table: seq<Phdr>, file: seq<byte>, preferredBias: uint32)
      returns (code: int, image: Image, ghost base: int)
    requires ctx.Valid() && |file| < TWO32 && HeadersOk(table, |file|) && EndsBelowTop(ctx.vma, table, preferredBias)
    modifies ctx`touched, ctx`memory, ctx`faults, ctx.vma`regions, ctx.table.permissions
    ensures ctx.Valid() && |ctx.memory| == TWO32
    ensures code != 0 ==> forall a :: Look(ctx.vma.regions, a) == Look(old(ctx.vma.regions), a)
    ensures code != 0 ==> forall a :: 0 <= a < TWO32 && Look(old(ctx.vma.regions), a).Some? ==>
      ctx.memory[a] == old(ctx.memory[a])
    ensures code == 0 ==> ImageFits(ctx, table, file, image, base) && Pristine(table, 0, base, ctx.memory)
    ensures code == 0 ==> Reserved(image, old(ctx.vma.regions), old(ctx.memory), ctx.vma.regions, ctx.memory)
    ensures ctx.faults >= old(ctx.faults)
    ensures code == if !LoadsPages(table) then ENOEXEC else if !old(CanReserve(ctx.vma, table, preferredBias))
      then ENOMEM
      else if ctx.faults == old(ctx.faults) then 0 else EFAULT
    ensures code == 0 ==> old(ReservedLowest(ctx.vma, table, preferredBias, image))
  {
    var loadSize, minVaddr, maxVaddr, end := LoadSize(table);
    ReserveDecided(ctx.vma, table, preferredBias, loadSize, minVaddr, end);
    if loadSize == 0 { return ENOEXEC, NO_IMAGE, 0; }
    hide Context.Valid, Look, HeadersOk, EndsBelowTop, CanReserve, ReservedLowest, Space.NoFit, Pristine, ImageFits,
      Reserved, SpanOf, Hint;
    code, image, base := ReserveSpan(ctx, table, file, preferredBias, loadSize, minVaddr, maxVaddr, end);
  }

  lemma ReserveDecided(vma: Space, table: seq<Phdr>, preferredBias: uint32, size: uint32, lo: uint32, hi: int)
    requires InitOk(vma.page, vma.lower, vma.upper) && vma.lower > 0 && lo <= hi <= TWO32 && size == Wrap32(hi - lo)
    requires if AnyLoad(table) then SpanOf(table, lo, hi) else size == 0
    ensures CanReserve(vma, table, preferredBias) <==> size > 0 && !vma.NoFit(Hint(preferredBias, lo), size)
    ensures LoadsPages(table) <==> size > 0
    ensures size > 0 ==> size == hi - lo && SpanOf(table, lo, hi)
  {
    hide SpanOf, AnyLoad;
    if hi - lo == TWO32 { assert vma.NoFit(Hint(preferredBias, lo), hi - lo); }
    hide Space.NoFit;
    forall lo': uint32, hi' | SpanOf(table, lo', hi') ensures lo' == lo && hi' == hi && AnyLoad(table) {
      SpanNeedsLoad(table, lo', hi');
      SpanUnique(table, lo, hi, lo', hi');
    }
  }

  /** If the lowest fit is at `start`, the image goes there and ends below the top. */
  ghost predicate GoesTo(vma: Space, table: seq<Phdr>, preferredBias: uint32, size: uint32, lo: uint32, max: uint32,
      start: uint32)
    requires InitOk(vma.page, vma.lower, vma.upper)
    reads vma
  {
    vma.LeastFit(Hint(preferredBias, lo), size, start) ==>
      start + size < TWO32 && forall bias: uint32 ::
        ReservedLowest(vma, table, preferredBias, Image(start, size, bias, lo, max))
  }

  lemma LowestFits(vma: Space, table: seq<Phdr>, preferredBias: uint32, size: uint32, lo: uint32, max: uint32, hi: int)
    requires InitOk(vma.page, vma.lower, vma.upper) && EndsBelowTop(vma, table, preferredBias)
    requires SpanOf(table, lo, hi) && size == hi - lo > 0 && max == Wrap32(hi)
    ensures forall start: uint32 :: GoesTo(vma, table, preferredBias, size, lo, max, start)
  {
    hide SpanOf, Space.LeastFit;
    forall start: uint32 ensures GoesTo(vma, table, preferredBias, size, lo, max, start) {
      if vma.LeastFit(Hint(preferredBias, lo), size, start) {
        assert ReservedLowest(vma, table, preferredBias, Image(start, size, 0, lo, max));
      }
    }
  }

  lemma Undisturbed(ctx: Context, was: seq<Region>, memoryWas: seq<byte>, addr: uint32, size: uint32)
    requires |ctx.memory| == TWO32 && |memoryWas| == TWO32
    requires ctx.Disturbed(was, memoryWas, addr, size, MapFlags(false, true, false, true, false))
    ensures forall a :: Look(ctx.vma.regions, a) == Look(was, a)
    ensures forall a :: 0 <= a < TWO32 && Look(was, a).Some? ==> ctx.memory[a] == memoryWas[a]
  {
    hide Look;
  }

  lemma ReservationMade(ctx: Context, table: seq<Phdr>, file: seq<byte>, image: Image, base: int, was: seq<Region>,
      memoryWas: seq<byte>, addr: uint32)
    requires ctx.Valid() && |ctx.memory| == TWO32 && |memoryWas| == TWO32 && |file| < TWO32
    requires HeadersOk(table, |file|) && Spans(table, image.minVaddr, image.minVaddr + image.loadSize)
    requires image.loadSize > 0 && image.loadStart + image.loadSize < TWO32 && image.loadSize % 4096 == 0
      && image.minVaddr % 4096 == 0
    requires base == image.loadStart - image.minVaddr && image.loadBias == Wrap32(base)
    requires ctx.Installed(was, memoryWas, addr, image.loadSize, 0, MapFlags(false, true, false, true, false), None, 0,
      image.loadStart)
    ensures ImageFits(ctx, table, file, image, base) && Pristine(table, 0, base, ctx.memory)
    ensures Reserved(image, was, memoryWas, ctx.vma.regions, ctx.memory)
  {
    InstalledRange(ctx, image.loadSize, was, memoryWas, addr, image.loadStart);
    SumOfPages(image.loadStart, image.minVaddr);
    SumOfPages(image.loadStart, image.loadSize);
    hide Wrap32, Context.Valid, Context.Installed, GuestMmap.RoundPage, Look, PageStart, PageEnd, Zeros, HeadersOk,
      IsFree, Spans, OnlyWithin, Pristine;
    ReservedZero(table, base, image, ctx.memory);
  }

  lemma InstalledRange(ctx: Context, size: uint32, was: seq<Region>, memoryWas: seq<byte>, addr: uint32, start: uint32)
    requires |ctx.memory| == TWO32 && |memoryWas| == TWO32 && size > 0 && size % 4096 == 0
    requires ctx.Installed(was, memoryWas, addr, size, 0, MapFlags(false, true, false, true, false), None, 0, start)
    ensures start % 4096 == 0 && ctx.vma.lower <= start && start + size <= ctx.vma.upper
    ensures IsFree(was, start, start + size)
      && OnlyWithin(start, start + size, was, memoryWas, ctx.vma.regions, ctx.memory)
    ensures ctx.memory[start..start + size] == Zeros(size)
  {
    WholePages(size);
    hide GuestMmap.RoundPage, Look, Zeros, IsFree;
  }

  lemma ReservedZero(table: seq<Phdr>, base: int, image: Image, memory: seq<byte>)
    requires Spans(table, image.minVaddr, image.minVaddr + image.loadSize) && |memory| == TWO32
    requires base == image.loadStart - image.minVaddr
    requires image.loadStart + image.loadSize <= TWO32
    requires memory[image.loadStart..image.loadStart + image.loadSize] == Zeros(image.loadSize)
    ensures Pristine(table, 0, base, memory)
  {
    hide PageStart, PageEnd;
    forall j, a | 0 <= j < |table| && table[j].load && 0 <= a < TWO32 && InPagesOf(table[j], a - base)
      ensures memory[a] == 0 {
      assert memory[a] == memory[image.loadStart..image.loadStart + image.loadSize][a - image.loadStart];
    }
  }

  /** agr_aosp_linker_map: reserve, load, and on failure give the reservation back. */
  method MapImage(ctx: Context, table: seq<Phdr>, file: seq<byte>, preferredBias: uint32)
      returns (code: int, image: Image)
    requires ctx.Valid() && |file| < TWO32
    requires EndsBelowTop(ctx.vma, table, preferredBias) && PageDisjoint(table)
    modifies ctx`touched, ctx`memory, ctx`faults, ctx.vma`regions, ctx.table.permissions
    ensures ctx.Valid()
    ensures ctx.faults >= old(ctx.faults)
    ensures code == if !HeadersOk(table, |file|) || !LoadsPages(table) then ENOEXEC
      else if !old(CanReserve(ctx.vma, table, preferredBias)) then ENOMEM
      else if ctx.faults == old(ctx.faults) then 0 else EFAULT
    ensures code == 0 ==> old(ReservedLowest(ctx.vma, table, preferredBias, image))
    ensures code != 0 ==> image == NO_IMAGE && ctx.vma.regions == old(ctx.vma.regions)
    ensures code != 0 ==> forall a :: 0 <= a < TWO32 && Look(old(ctx.vma.regions), a).Some? ==>
      ctx.memory[a] == old(ctx.memory[a])
    ensures code == 0 ==> ImageMapped(old(ctx.vma.regions), old(ctx.memory), ctx, table, file, image)
    ensures code == 0 ==> AllAsFlagged(ctx.vma.regions, table, image.loadStart - image.minVaddr)
  {
    var ok := ValidateHeaders(table, |file|);
    if !ok { return ENOEXEC, NO_IMAGE; }
    ghost var was, memoryWas := ctx.vma.regions, ctx.memory;
    ghost var base;
    code, image, base := ReserveAddressSpace(ctx, table, file, preferredBias);
    if code != 0 {
      SameLookSameList(ctx.vma, was);
      return code, NO_IMAGE;
    }
    hide Context.Valid, Look, OnlyWithin, PageStart, PageEnd, Pristine, Loaded, IsFree, PageDisjoint, HeadersOk, Valid,
      Coalesced, ImageMapped, AllAsFlagged, ReservedLowest, CanReserve, LoadsPages;
    code := LoadReserved(ctx, table, file, image, base, was, memoryWas);
    if code != 0 { return code, NO_IMAGE; }
    MappedAsFlagged(was, memoryWas, ctx, table, file, image);
  }

  /** The second half of agr_aosp_linker_map, on a fresh reservation. */
  method LoadReserved(ctx: Context, table: seq<Phdr>, file: seq<byte>, image: Image, ghost base: int,
      ghost was: seq<Region>, ghost memoryWas: seq<byte>) returns (code: int)
    requires ImageFits(ctx, table, file, image, base) && PageDisjoint(table) && Pristine(table, 0, base, ctx.memory)
    requires Valid(was, ctx.vma.page, ctx.vma.lower, ctx.vma.upper) && Coalesced(was)
    requires Reserved(image, was, memoryWas, ctx.vma.regions, ctx.memory)
    modifies ctx`touched, ctx`memory, ctx`faults, ctx.vma`regions, ctx.table.permissions
    ensures ctx.Valid() && ctx.faults >= old(ctx.faults)
      && code == (if ctx.faults == old(ctx.faults) then 0 else EFAULT)
    ensures code != 0 ==> ctx.vma.regions == was
    ensures code != 0 ==> forall a :: 0 <= a < TWO32 && Look(was, a).Some? ==> ctx.memory[a] == memoryWas[a]
    ensures code == 0 ==> ImageMapped(was, memoryWas, ctx, table, file, image)
  {
    ghost var lo, hi := image.loadStart, image.loadStart + image.loadSize;
    ghost var reserved, memoryReserved := ctx.vma.regions, ctx.memory;
    ReservedRange(ctx, image, was, memoryWas);
    StillFits(ctx, table, file, image, base);
    hide Context.Valid, Look, OnlyWithin, PageStart, PageEnd, Pristine, Loaded, IsFree, PageDisjoint, HeadersOk, Valid,
      Coalesced;
    code := LoadSegments(ctx, table, file, image, base);
    WithinTrans(lo, hi, was, memoryWas, reserved, memoryReserved, ctx.vma.regions, ctx.memory);
    if code != 0 {
      GiveBack(ctx, image.loadStart, image.loadSize, was, memoryWas);
      return;
    }
  }

  /** A successful reservation: whole, previously free pages, and nothing else changed. */
  ghost predicate Reserved(image: Image, was: seq<Region>, memoryWas: seq<byte>, now: seq<Region>, memory: seq<byte>) {
    var lo, hi := image.loadStart, image.loadStart + image.loadSize;
    && lo < hi && hi % 4096 == 0 && lo % 4096 == 0
    && IsFree(was, lo, hi)
    && OnlyWithin(lo, hi, was, memoryWas, now, memory)
  }

  lemma ReservedRange(ctx: Context, image: Image, was: seq<Region>, memoryWas: seq<byte>)
    requires ctx.Valid() && ctx.vma.lower <= image.loadStart && image.loadStart + image.loadSize <= ctx.vma.upper
    requires Reserved(image, was, memoryWas, ctx.vma.regions, ctx.memory)
    ensures ctx.vma.RangeOk(image.loadStart, image.loadSize) && image.loadSize % 4096 == 0
    ensures IsFree(was, image.loadStart, image.loadStart + image.loadSize)
    ensures OnlyWithin(image.loadStart, image.loadStart + image.loadSize, was, memoryWas, ctx.vma.regions, ctx.memory)
  {
    SumOfPages(image.loadStart + image.loadSize, image.loadStart);
    WholeRangeOk(ctx.vma, image.loadStart, image.loadSize);
    hide IsFree, OnlyWithin, Context.Valid;
  }

  lemma WholeRangeOk(vma: Space, start: uint32, size: uint32)
    requires InitOk(vma.page, vma.lower, vma.upper) && vma.page == PAGE
    requires start % 4096 == 0 && size % 4096 == 0 && size > 0 && vma.lower <= start && start + size <= vma.upper
    ensures vma.RangeOk(start, size)
  {
    WholePages(size);
    RoundPageIsRoundUp(size);
    hide RoundUp, GuestMmap.RoundPage;
  }

  lemma StillFits(ctx: Context, table: seq<Phdr>, file: seq<byte>, image: Image, base: int)
    requires ImageShape(ctx.vma, table, file, image, base) && ctx.Valid()
    ensures ImageFits(ctx, table, file, image, base)
  {
  }

  lemma WithinTrans(lo: int, hi: int, was: seq<Region>, memoryWas: seq<byte>, mid: seq<Region>, memoryMid: seq<byte>,
      now: seq<Region>, memory: seq<byte>)
    requires OnlyWithin(lo, hi, was, memoryWas, mid, memoryMid) && OnlyWithin(lo, hi, mid, memoryMid, now, memory)
    ensures OnlyWithin(lo, hi, was, memoryWas, now, memory)
  {
  }

  /** Unmapping a range that was free before it was reserved restores the region list. */
  method GiveBack(ctx: Context, start: uint32, size: uint32, ghost was: seq<Region>, ghost memoryWas: seq<byte>)
    requires ctx.Valid() && ctx.vma.RangeOk(start, size) && size % 4096 == 0
    requires Valid(was, ctx.vma.page, ctx.vma.lower, ctx.vma.upper) && Coalesced(was)
    requires IsFree(was, start, start + size)
    requires OnlyWithin(start, start + size, was, memoryWas, ctx.vma.regions, ctx.memory)
    modifies ctx`touched, ctx.vma`regions, ctx.table.permissions
    ensures ctx.Valid() && ctx.vma.regions == was
    ensures forall a :: 0 <= a < TWO32 && Look(was, a).Some? ==> ctx.memory[a] == memoryWas[a]
  {
    WholePages(size);
    ghost var mid := ctx.vma.regions;
    var ignored := ctx.Munmap(start, size);
    RestoredList(start, start + size, was, memoryWas, mid, ctx.memory, ctx.vma.regions, ctx.vma.page, ctx.vma.lower,
      ctx.vma.upper);
  }

  lemma OutOfBounds(rs: seq<Region>, page: int, lower: int, upper: int, a: int)
    requires page > 0 && Valid(rs, page, lower, upper) && !(lower <= a < upper)
    ensures Look(rs, a) == None
  {
    forall i | 0 <= i < |rs| ensures a < rs[i].start || rs[i].end <= a {
      assert RegionOk(rs[i], page, lower, upper);
    }
    LookNone(rs, a);
  }

  /** validate_headers' loop over the program headers. */
  method ValidateHeaders(table: seq<Phdr>, size: nat) returns (ok: bool)
    ensures ok <==> HeadersOk(table, size)
    ensures ok <==> forall i :: 0 <= i < |table| && table[i].load ==>
      && table[i].filesz <= table[i].memsz && table[i].offset + table[i].filesz <= size
      && table[i].vaddr + table[i].memsz < TWO32 && table[i].vaddr % 4096 == table[i].offset % 4096
  {
    var i := 0;
    while i < |table|
      invariant 0 <= i <= |table|
      invariant forall j :: 0 <= j < i && table[j].load ==> HeaderOk(table[j], size)
    {
      if table[i].load && !HeaderOk(table[i], size) { return false; }
      i := i + 1;
    }
    ok := true;
  }

  /** A loaded image: only a previously free range changed, and every segment is in place there. */
  ghost predicate ImageMapped(was: seq<Region>, memoryWas: seq<byte>, ctx: Context, table: seq<Phdr>, file: seq<byte>,
      image: Image)
    reads ctx, ctx.vma, ctx.table.permissions
  {
    && ImageFits(ctx, table, file, image, image.loadStart - image.minVaddr)
    && Reserved(image, was, memoryWas, ctx.vma.regions, ctx.memory)
    && Loaded(table, |table|, image.loadStart - image.minVaddr, file, ctx.vma.regions, ctx.memory)
  }

  lemma MappedAsFlagged(was: seq<Region>, memoryWas: seq<byte>, ctx: Context, table: seq<Phdr>, file: seq<byte>,
      image: Image)
    requires ImageMapped(was, memoryWas, ctx, table, file, image)
    ensures AllAsFlagged(ctx.vma.regions, table, image.loadStart - image.minVaddr)
  {
    hide ImageFits, Reserved, Loaded;
    LoadedAsFlagged(table, image.loadStart - image.minVaddr, file, ctx.vma.regions, ctx.memory);
  }

  /** Canonical region lists with the same page map are the same. */
  lemma SameLookSameList(vma: Space, was: seq<Region>)
    requires vma.Canonical() && Valid(was, vma.page, vma.lower, vma.upper) && Coalesced(was)
    requires forall a :: Look(vma.regions, a) == Look(was, a)
    ensures vma.regions == was
  {
    CanonicalUnique(vma.regions, was);
  }

  /** agr_aosp_linker_unload. */
  method UnloadImage(ctx: Context, image: Image) returns (code: int, after: Image)
    requires ctx.Valid()
    modifies ctx`touched, ctx.vma`regions, ctx.table.permissions
    ensures ctx.Valid()
    ensures image.loadSize == 0 ==> code == EINVAL
    ensures code == 0 ==>
      after == NO_IMAGE
      && Overwrites(old(ctx.vma.regions), ctx.vma.regions, image.loadStart,
      image.loadStart + GuestMmap.RoundPage(image.loadSize), None)
    ensures code != 0 ==> after == image && ctx.vma.regions == old(ctx.vma.regions)
    ensures image.loadSize > 0 && ctx.vma.RangeOk(image.loadStart, image.loadSize) ==> code == 0
  {
    if image.loadSize == 0 { return EINVAL, image; }
    code := ctx.Munmap(image.loadStart, image.loadSize);
    after := if code != 0 then image else NO_IMAGE;
  }

  /** Unloading a mapped image always succeeds, and gives back exactly the page map from before it was mapped. */
  lemma UnloadUndoesMap(was: seq<Region>, memoryWas: seq<byte>, ctx: Context, table: seq<Phdr>, file: seq<byte>,
      image: Image, now: seq<Region>)
    requires ImageMapped(was, memoryWas, ctx, table, file, image)
    requires Valid(was, ctx.vma.page, ctx.vma.lower, ctx.vma.upper) && Coalesced(was)
    requires Valid(now, ctx.vma.page, ctx.vma.lower, ctx.vma.upper) && Coalesced(now)
    requires Overwrites(ctx.vma.regions, now, image.loadStart, image.loadStart + GuestMmap.RoundPage(image.loadSize),
      None)
    ensures image.loadSize > 0 && ctx.vma.RangeOk(image.loadStart, image.loadSize)
    ensures now == was
  {
    ReservedRange(ctx, image, was, memoryWas);
    WholePages(image.loadSize);
    assert now == was by {
      RestoredList(image.loadStart, image.loadStart + image.loadSize, was, memoryWas, ctx.vma.regions, ctx.memory, now,
        ctx.vma.page, ctx.vma.lower, ctx.vma.upper);
    }
  }

  lemma RestoredList(lo: int, hi: int, was: seq<Region>, memoryWas: seq<byte>, mid: seq<Region>, memory: seq<byte>,
      now: seq<Region>, page: int, lower: int, upper: int)
    requires page > 0 && 0 <= lower && upper <= TWO32
    requires Valid(was, page, lower, upper) && Coalesced(was) && Valid(now, page, lower, upper) && Coalesced(now)
    requires IsFree(was, lo, hi) && OnlyWithin(lo, hi, was, memoryWas, mid, memory)
      && Overwrites(mid, now, lo, hi, None)
    ensures now == was
  {
    forall a ensures Look(now, a) == Look(was, a) {
      if !(0 <= a < TWO32) {
        OutOfBounds(now, page, lower, upper, a);
        OutOfBounds(was, page, lower, upper, a);
      }
    }
    CanonicalUnique(now, was);
  }

  /** A segment has a page exactly if it has a byte or starts inside one. */
  lemma HasPage(p: Phdr)
    ensures PageStart(p.vaddr) < PageEnd(p.vaddr + p.memsz) <==> p.memsz > 0 || p.vaddr % 4096 != 0
  {
  }

  /**
   phdr_table_protect_segments on a loaded image. Loading has set these protections already, so no region changes;
   it fails exactly on an empty, page-aligned segment, whose length mprotect refuses.
   */
  method ProtectSegments(ctx: Context, table: seq<Phdr>, file: seq<byte>, image: Image, ghost base: int)
      returns (code: int)
    requires ImageFits(ctx, table, file, image, base)
    requires Loaded(table, |table|, base, file, ctx.vma.regions, ctx.memory)
    modifies ctx`touched, ctx.vma`regions, ctx.table.permissions
    ensures ctx.Valid() && ctx.vma.regions == old(ctx.vma.regions)
    ensures AllAsFlagged(ctx.vma.regions, table, base)
    ensures code == if forall i :: 0 <= i < |table| && table[i].load && table[i].flags / 2 % 2 == 0 ==>
      table[i].memsz > 0 || table[i].vaddr % 4096 != 0 then 0 else EINVAL
  {
    LoadedAsFlagged(table, base, file, ctx.vma.regions, ctx.memory);
    hide AllAsFlagged;
    ghost var was := ctx.vma.regions;
    var i := 0;
    while i < |table|
      invariant 0 <= i <= |table| && ImageFits(ctx, table, file, image, base) && ctx.vma.regions == was
      invariant forall j :: 0 <= j < i && table[j].load && table[j].flags / 2 % 2 == 0 ==>
        table[j].memsz > 0 || table[j].vaddr % 4096 != 0
    {
      if table[i].load && !Writable(table[i]) {
        HasPage(table[i]);
        code := ProtectSegment(ctx, table, file, image, base, i);
        if code != 0 { return; }
      }
      i := i + 1;
    }
    code := 0;
  }

  method ProtectSegment(ctx: Context, table: seq<Phdr>, file: seq<byte>, image: Image, ghost base: int, i: nat)
      returns (code: int)
    requires i < |table| && table[i].load && ImageFits(ctx, table, file, image, base)
    requires Loaded(table, |table|, base, file, ctx.vma.regions, ctx.memory)
    modifies ctx`touched, ctx.vma`regions, ctx.table.permissions
    ensures ImageFits(ctx, table, file, image, base) && ctx.vma.regions == old(ctx.vma.regions)
    ensures code == if PageStart(table[i].vaddr) < PageEnd(table[i].vaddr + table[i].memsz) then 0 else EINVAL
  {
    hide *;
    SegmentRange(ctx, table, file, image, base, i);
    var start: uint32 := Wrap32(PageStart(table[i].vaddr) + image.loadBias);
    var end: uint32 := Wrap32(PageEnd(table[i].vaddr + table[i].memsz) + image.loadBias);
    code := ProtectAgain(ctx, start, end, Prot(table[i].flags));
    StillFits(ctx, table, file, image, base);
  }

  lemma SegmentRange(ctx: Context, table: seq<Phdr>, file: seq<byte>, image: Image, base: int, i: nat)
    requires i < |table| && table[i].load && ImageFits(ctx, table, file, image, base)
    requires Loaded(table, |table|, base, file, ctx.vma.regions, ctx.memory)
    ensures ctx.Valid() && ImageShape(ctx.vma, table, file, image, base) && Prot(table[i].flags) <= 7
    ensures InitOk(ctx.vma.page, ctx.vma.lower, ctx.vma.upper)
    ensures var lo := Wrap32(PageStart(table[i].vaddr) + image.loadBias);
      var hi := Wrap32(PageEnd(table[i].vaddr + table[i].memsz) + image.loadBias);
      && lo <= hi && GuestMmap.RoundPage(hi - lo) == hi - lo && (lo < hi ==> ctx.vma.RangeOk(lo, hi - lo))
      && ShowsProt(ctx.vma.regions, lo, hi, Prot(table[i].flags))
      && (lo < hi <==> PageStart(table[i].vaddr) < PageEnd(table[i].vaddr + table[i].memsz))
  {
    hide *;
    FitParts(ctx, table, file, image, base);
    ProtectArithmetic(ctx.vma, table, file, image, base, i);
    LoadedShows(table, base, file, ctx.vma.regions, ctx.memory, i);
  }

  lemma FitParts(ctx: Context, table: seq<Phdr>, file: seq<byte>, image: Image, base: int)
    requires ImageFits(ctx, table, file, image, base)
    ensures ctx.Valid() && ImageShape(ctx.vma, table, file, image, base)
    ensures InitOk(ctx.vma.page, ctx.vma.lower, ctx.vma.upper) && ctx.vma.page == 4096
  {
    hide ImageShape;
    CanonicalContext(ctx);
  }

  /** mprotect over pages that already have the protection. */
  method ProtectAgain(ctx: Context, lo: uint32, hi: uint32, prot: nat) returns (code: int)
    requires ctx.Valid() && prot <= 7 && lo <= hi && GuestMmap.RoundPage(hi - lo) == hi - lo
    requires ShowsProt(ctx.vma.regions, lo, hi, prot) && (lo < hi ==> ctx.vma.RangeOk(lo, hi - lo))
    modifies ctx`touched, ctx.vma`regions, ctx.table.permissions
    ensures ctx.Valid() && ctx.vma.regions == old(ctx.vma.regions)
    ensures code == if lo < hi then 0 else EINVAL
  {
    ghost var was := ctx.vma.regions;
    CanonicalContext(ctx);
    hide Context.Valid, Look, ShowsProt, IsMapped, Overwrites, GuestMmap.RoundPage, Valid, Coalesced;
    var length: uint32 := hi - lo;
    code := ctx.Mprotect(lo, length, prot);
    AfterProtect(ctx, was, lo, hi, prot, code);
  }

  lemma LoadedShows(table: seq<Phdr>, base: int, file: seq<byte>, rs: seq<Region>, memory: seq<byte>, i: nat)
    requires i < |table| && table[i].load && Loaded(table, |table|, base, file, rs, memory)
    ensures ShowsProt(rs, PageStart(table[i].vaddr) + base, PageEnd(table[i].vaddr + table[i].memsz) + base,
      Prot(table[i].flags))
  {
    hide ShowsProt, PageStart, PageEnd, Prot, HoldsExpected;
  }

  lemma CanonicalContext(ctx: Context)
    requires ctx.Valid()
    ensures Valid(ctx.vma.regions, ctx.vma.page, ctx.vma.lower, ctx.vma.upper) && Coalesced(ctx.vma.regions)
    ensures ctx.vma.page == 4096 && InitOk(ctx.vma.page, ctx.vma.lower, ctx.vma.upper)
  {
  }

  lemma AfterProtect(ctx: Context, was: seq<Region>, lo: uint32, hi: uint32, prot: nat, code: int)
    requires ctx.Valid() && Valid(was, ctx.vma.page, ctx.vma.lower, ctx.vma.upper) && Coalesced(was) && prot <= 7
      && lo <= hi
    requires GuestMmap.RoundPage(hi - lo) == hi - lo
    requires ShowsProt(was, lo, hi, prot) && (lo < hi ==> ctx.vma.RangeOk(lo, hi - lo))
    requires code == if !ctx.vma.RangeOk(lo, hi - lo) then EINVAL else if IsMapped(was, lo, hi) then 0 else ENOMEM
    requires code == 0 ==> Overwrites(was, ctx.vma.regions, lo, hi, Some(prot))
    requires code != 0 ==> ctx.vma.regions == was
    ensures ctx.vma.regions == was && code == if lo < hi then 0 else EINVAL
  {
    if code == 0 { SameLookSameList(ctx.vma, was); }
  }

  lemma ProtectArithmetic(vma: Space, table: seq<Phdr>, file: seq<byte>, image: Image, base: int, i: nat)
    requires i < |table| && table[i].load && ImageShape(vma, table, file, image, base)
      && InitOk(vma.page, vma.lower, vma.upper)
    requires vma.page == 4096
    ensures var lo, hi := PageStart(table[i].vaddr) + base, PageEnd(table[i].vaddr + table[i].memsz) + base;
      && Wrap32(PageStart(table[i].vaddr) + image.loadBias) == lo
        && Wrap32(PageEnd(table[i].vaddr + table[i].memsz) + image.loadBias) == hi
      && lo <= hi && GuestMmap.RoundPage(hi - lo) == hi - lo
      && (lo < hi ==> vma.RangeOk(lo, hi - lo))
  {
    hide PageStart, PageEnd, HeaderOk, GuestMmap.RoundPage;
    SegmentPages(table[i]);
    RangeArithmetic(vma, PageStart(table[i].vaddr), PageEnd(table[i].vaddr + table[i].memsz), base, image.loadBias);
  }

  lemma SegmentPages(p: Phdr)
    ensures PageStart(p.vaddr) % 4096 == 0 && PageEnd(p.vaddr + p.memsz) % 4096 == 0
      && PageStart(p.vaddr) <= PageEnd(p.vaddr + p.memsz)
  {
    PageEndBounds(p.vaddr);
    PageEndBounds(p.vaddr + p.memsz);
  }

  lemma RangeArithmetic(vma: Space, start: int, end: int, base: int, bias: uint32)
    requires start % 4096 == 0 && end % 4096 == 0 && base % 4096 == 0 && start <= end && bias == Wrap32(base)
    requires InitOk(vma.page, vma.lower, vma.upper) && vma.page == 4096 && end + base < TWO32
    requires vma.lower <= start + base && end + base <= vma.upper
    ensures Wrap32(start + bias) == start + base && Wrap32(end + bias) == end + base
    ensures GuestMmap.RoundPage(end - start) == end - start
    ensures start < end ==> vma.RangeOk(start + base, end - start)
  {
    SumOfPages(end, start);
    SumOfPages(start, base);
    WholePages(end - start);
    ShiftWrap(start, base);
    ShiftWrap(end, base);
  }

  lemma ShiftWrap(x: int, base: int)
    requires 0 <= x + base < TWO32
    ensures Wrap32(x + Wrap32(base)) == x + base
  {
  }
}
