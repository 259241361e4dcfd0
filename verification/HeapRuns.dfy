/** Whole runs of the heap's three system callbacks (Runtime/Bionic/agr_bionic_allocator.cpp:188-236). */
module HeapRuns {
  import opened Prelude
  import opened PageMap
  import opened GuestVma
  import opened GuestMmap
  import opened PageTable
  import opened Heap

  /** A range that agr_dl_mmap handed out. */
  datatype Block = Block(start: uint32, size: uint32) {
    function End(): (r: int) { start + size }
  }

  predicate Disjoint(b: Block, c: Block) { b.End() <= c.start || c.End() <= b.start }

  ghost predicate ReadWrite(rs: seq<Region>, b: Block) {
    forall a :: b.start <= a < b.End() ==> Look(rs, a) == Some(PROT_READ + PROT_WRITE)
  }

  /** The blocks not yet given back are readable and writable, apart from each other, and above the break. */
  ghost predicate Outstanding(rs: seq<Region>, top: int, blocks: set<Block>) {
    && (forall b :: b in blocks ==>
      top <= b.start < b.End() < TWO32 && b.start % PAGE == 0 && b.size % PAGE == 0 && ReadWrite(rs, b))
    && forall b, c :: b in blocks && c in blocks && b != c ==> Disjoint(b, c)
  }

  lemma SameMapKeeps(was: seq<Region>, now: seq<Region>, top: int, blocks: set<Block>)
    requires Outstanding(was, top, blocks) && SameMap(was, now)
    ensures Outstanding(now, top, blocks)
  {
    forall b | b in blocks ensures ReadWrite(now, b) { assert ReadWrite(was, b); }
  }

  lemma GrowKeeps(was: seq<Region>, now: seq<Region>, top: int, top': int, blocks: set<Block>)
    requires Outstanding(was, top, blocks) && top <= top' && NothingReplaced(was, now, top, top')
    ensures Outstanding(now, top', blocks)
  {
    forall b | b in blocks ensures top' <= b.start && ReadWrite(now, b) {
      assert ReadWrite(was, b);
      assert Look(was, b.start).Some?;
    }
  }

  lemma ShrinkKeeps(was: seq<Region>, now: seq<Region>, top: int, top': int, blocks: set<Block>)
    requires Outstanding(was, top, blocks) && top' <= top && Overwrites(was, now, top', top, None)
    ensures Outstanding(now, top', blocks)
  {
    forall b | b in blocks ensures ReadWrite(now, b) { assert ReadWrite(was, b); }
  }

  /** A new block meets none of the others, because those are mapped and it was free. */
  lemma TakeKeeps(was: seq<Region>, now: seq<Region>, top: int, blocks: set<Block>, taken: Block)
    requires Outstanding(was, top, blocks) && top <= taken.start < taken.End() < TWO32 && taken.start % PAGE == 0
      && taken.size % PAGE == 0 && NothingReplaced(was, now, taken.start, taken.End())
    ensures Outstanding(now, top, blocks + {taken}) && taken !in blocks
  {
    forall b | b in blocks ensures Disjoint(b, taken) && ReadWrite(now, b) {
      assert ReadWrite(was, b);
      var a := if b.start < taken.start then taken.start else b.start;
      assert a < b.End() ==> Look(was, a).Some?;
    }
    assert ReadWrite(now, taken);
  }

  lemma GiveBackKeeps(was: seq<Region>, now: seq<Region>, top: int, blocks: set<Block>, b: Block)
    requires Outstanding(was, top, blocks) && b in blocks && Overwrites(was, now, b.start, b.End(), None)
    ensures Outstanding(now, top, blocks - {b})
  {
    forall c | c in blocks && c != b ensures ReadWrite(now, c) { assert ReadWrite(was, c) && Disjoint(b, c); }
  }

  lemma WholePages(size: uint32)
    ensures RoundPage(size) >= 0 && RoundPage(size) % PAGE == 0 && (size % PAGE == 0 ==> RoundPage(size) == size)
  {
  }

  lemma BlockInside(vma: Space, top: int, blocks: set<Block>, b: Block)
    requires vma.Canonical() && vma.page == PAGE && Outstanding(vma.regions, top, blocks) && b in blocks
    ensures vma.RangeOk(b.start, b.size) && top <= b.start
  {
    assert IsMapped(vma.regions, b.start, b.End()) by { assert ReadWrite(vma.regions, b); }
    MappedInside(vma, b.start, b.End());
  }

  // ---- The callbacks, with the record of what they handed out ------------------------------------

  /** agr_dl_morecore leaves every outstanding block alone, and above the new break. */
  method MoveBreak(heap: Allocator, increment: int, ghost blocks: set<Block>) returns (result: Option<uint32>)
    requires heap.Valid() && Outstanding(heap.ctx.vma.regions, heap.mappedBrk, blocks)
      && -0x8000_0000 <= increment < 0x8000_0000
    modifies heap, heap.ctx, heap.ctx.vma, heap.ctx.table.permissions
    ensures heap.Valid() && Outstanding(heap.ctx.vma.regions, heap.mappedBrk, blocks)
    ensures result.Some? <==> heap.currentBrk == old(heap.currentBrk) + increment
  {
    hide Context.Valid, Overwrites, NothingReplaced, SameMap, IsMapped, Outstanding, Allocator.CanGrow, RoundPage;
    ghost var was, top := heap.ctx.vma.regions, heap.mappedBrk;
    result := heap.MoreCore(increment);
    if heap.mappedBrk >= top {
      GrowKeeps(was, heap.ctx.vma.regions, top, heap.mappedBrk, blocks);
    } else {
      ShrinkKeeps(was, heap.ctx.vma.regions, top, heap.mappedBrk, blocks);
    }
  }

  /** agr_dl_mmap hands out a block that meets none of the outstanding ones. */
  method Take(heap: Allocator, requested: uint32, ghost blocks: set<Block>)
      returns (place: Option<uint32>, ghost now: set<Block>)
    requires heap.Valid() && Outstanding(heap.ctx.vma.regions, heap.mappedBrk, blocks)
    modifies heap, heap.ctx, heap.ctx.vma, heap.ctx.table.permissions
    ensures heap.Valid() && Outstanding(heap.ctx.vma.regions, heap.mappedBrk, now)
    ensures place.None? ==> now == blocks
    ensures place.Some? ==>
      && RoundPage(requested) < TWO32
      && var b := Block(place.value, RoundPage(requested));
         b !in blocks && now == blocks + {b}
  {
    hide Context.Valid, Overwrites, NothingReplaced, SameMap, IsMapped, Outstanding, SearchDown;
    ghost var was := heap.ctx.vma.regions;
    place := heap.DlMmap(requested);
    if place.None? {
      SameMapKeeps(was, heap.ctx.vma.regions, heap.mappedBrk, blocks);
      return place, blocks;
    }
    WholePages(requested);
    ghost var b := Block(place.value, RoundPage(requested));
    TakeKeeps(was, heap.ctx.vma.regions, heap.mappedBrk, blocks, b);
    now := blocks + {b};
  }

  /** agr_dl_munmap on an outstanding block always succeeds, and touches no other. */
  method GiveBack(heap: Allocator, b: Block, ghost blocks: set<Block>) returns (code: int)
    requires heap.Valid() && Outstanding(heap.ctx.vma.regions, heap.mappedBrk, blocks) && b in blocks
    modifies heap, heap.ctx, heap.ctx.vma, heap.ctx.table.permissions
    ensures code == 0 && heap.Valid() && Outstanding(heap.ctx.vma.regions, heap.mappedBrk, blocks - {b})
  {
    ghost var was := heap.ctx.vma.regions;
    WholePages(b.size);
    BlockInside(heap.ctx.vma, heap.mappedBrk, blocks, b);
    hide Context.Valid, Overwrites, NothingReplaced, SameMap, IsMapped;
    code := heap.DlMunmap(b.start, b.size);
    hide Outstanding;
    GiveBackKeeps(was, heap.ctx.vma.regions, heap.mappedBrk, blocks, b);
  }
}
