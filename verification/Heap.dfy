/**
 The two page sources of the guest heap (Runtime/Bionic/agr_bionic_allocator.cpp): a program break
 that grows upward and anonymous mappings placed downward from the heap limit. Both map with
 MAP_FIXED, so it is their own checks that keep them from replacing somebody's pages.
 */
module Heap {
  import opened Prelude
  import opened PageMap
  import opened GuestVma
  import opened GuestMmap
  import opened PageTable

  /** round_page, in 32-bit arithmetic. */
  function RoundPage32(value: uint32): (r: uint32) { Wrap32(value + 4095) / 4096 * 4096 }

  /** range_is_free as a predicate: no region meets [address, address + size) and it ends inside the space. */
  ghost predicate RangeFree(rs: seq<Region>, address: int, size: int) {
    address + size <= TWO32 && IsFree(rs, address, address + size)
  }

  class Allocator {
    const ctx: Context
    const heapBase: uint32
    const heapLimit: uint32
    const stateSize: uint32
    const brkBase: uint32
    var currentBrk: uint32
    var mappedBrk: uint32

    /** mapped_brk is current_brk rounded up, and everything between brk_base and mapped_brk is mapped. */
    ghost predicate Valid()
      reads this, ctx, ctx.vma, ctx.table.permissions
    {
      && ctx.Valid()
      && heapBase % PAGE == 0 && heapLimit % PAGE == 0 && heapBase < heapLimit
      && stateSize % PAGE == 0 && stateSize > 0 && brkBase == heapBase + stateSize
      && brkBase <= currentBrk && mappedBrk == RoundPage(currentBrk)
        && (currentBrk > brkBase ==> currentBrk <= heapLimit)
      && IsMapped(ctx.vma.regions, brkBase, mappedBrk)
    }

    /** The break starts right after the allocator's own state, with nothing mapped above it. */
    constructor (ctx: Context, heapBase: uint32, heapLimit: uint32, stateSize: uint32)
      requires ctx.Valid() && heapBase % PAGE == 0 && heapLimit % PAGE == 0 && heapBase < heapLimit
      requires stateSize % PAGE == 0 && stateSize > 0 && heapBase + stateSize < TWO32
      ensures Valid() && this.ctx == ctx && this.heapBase == heapBase && this.heapLimit == heapLimit
      ensures currentBrk == mappedBrk == brkBase == heapBase + stateSize
    {
      this.ctx, this.heapBase, this.heapLimit, this.stateSize := ctx, heapBase, heapLimit, stateSize;
      brkBase, currentBrk, mappedBrk := heapBase + stateSize, heapBase + stateSize, heapBase + stateSize;
    }

    /** The heap window lies inside the guest's address space. */
    predicate InWindow() { ctx.vma.lower <= heapBase && heapLimit <= ctx.vma.upper }

    /** Growing the break to `to` meets nobody's pages and stays inside the address space. */
    ghost predicate CanGrow(to: int)
      requires ctx.Valid()
      reads this, ctx, ctx.vma, ctx.table.permissions
    {
      RangeFree(ctx.vma.regions, mappedBrk, to - mappedBrk) && 0 < to - mappedBrk
        && ctx.vma.RangeOk(mappedBrk, to - mappedBrk)
    }

    method RangeIsFree(address: uint32, size: uint32) returns (free: bool)
      requires ctx.Valid() && size > 0
      ensures free <==> RangeFree(ctx.vma.regions, address, size)
    {
      var end := address + size;
      if end > TWO32 { return false; }
      var rs := ctx.vma.regions;
      var i := 0;
      while i < |rs|
        invariant 0 <= i <= |rs|
        invariant forall j :: 0 <= j < i ==> !(address < rs[j].end && end > rs[j].start)
      {
        if address < rs[i].end && end > rs[i].start {
          LookAt(rs, i, if rs[i].start < address then address else rs[i].start);
          return false;
        }
        i := i + 1;
      }
      forall a | address <= a < end ensures Look(rs, a) == None { LookNone(rs, a); }
      free := true;
    }

    /** agr_dl_morecore: move the break by `increment`; the result is the old break, or nothing on failure. */
    method MoreCore(increment: int) returns (result: Option<uint32>)
      requires Valid() && -0x8000_0000 <= increment < 0x8000_0000
      modifies this`currentBrk, this`mappedBrk, ctx`touched, ctx`memory, ctx`faults, ctx.vma`regions,
        ctx.table.permissions
      ensures Valid()
      ensures result.Some? ==> result.value == old(currentBrk) && currentBrk == old(currentBrk) + increment
      ensures result.None? ==> currentBrk == old(currentBrk) && mappedBrk == old(mappedBrk)
      ensures result.None? ==> SameMap(old(ctx.vma.regions), ctx.vma.regions)
      ensures mappedBrk >= old(mappedBrk) ==>
        NothingReplaced(old(ctx.vma.regions), ctx.vma.regions, old(mappedBrk), mappedBrk)
      ensures mappedBrk < old(mappedBrk) ==>
        Overwrites(old(ctx.vma.regions), ctx.vma.regions, mappedBrk, old(mappedBrk), None)
      ensures result.Some? <==>
        || increment == 0
        || (&& brkBase <= old(currentBrk) + increment <= heapLimit
            && (RoundPage(old(currentBrk) + increment) <= old(mappedBrk)
                || (old(CanGrow(RoundPage(currentBrk + increment))) && ctx.faults == old(ctx.faults))))
    {
      NothingGrown(ctx.vma.regions, mappedBrk);
      SameMapSelf(ctx.vma.regions);
      hide Context.Valid, RoundPage, RoundPage32, NothingReplaced, SameMap, Overwrites, IsMapped, Allocator.CanGrow;
      var was := currentBrk;
      if increment == 0 { return Some(was); }
      var next := was + increment;
      if next < brkBase || next > heapLimit { return None; }
      var newBrk: uint32 := next;
      BreakRounds(newBrk, heapLimit);
      var needed := RoundPage32(newBrk);
      if needed > mappedBrk {
        var ok := Grow(needed);
        if !ok { return None; }
      } else if needed < mappedBrk {
        var ok := Shrink(needed);
        if !ok { return None; }
      }
      currentBrk := newBrk;
      result := Some(was);
    }

    /** Map [mapped_brk, needed) if it is free. The break itself moves later. */
    method Grow(needed: uint32) returns (ok: bool)
      requires Valid() && needed % PAGE == 0 && needed > mappedBrk
      modifies this`mappedBrk, ctx`touched, ctx`memory, ctx`faults, ctx.vma`regions, ctx.table.permissions
      ensures ctx.Valid() && IsMapped(ctx.vma.regions, brkBase, mappedBrk)
      ensures mappedBrk == if ok then needed else old(mappedBrk)
      ensures ok ==> NothingReplaced(old(ctx.vma.regions), ctx.vma.regions, old(mappedBrk), needed)
      ensures !ok ==> SameMap(old(ctx.vma.regions), ctx.vma.regions)
      ensures ok <==> old(CanGrow(needed)) && ctx.faults == old(ctx.faults)
    {
      hide Context.Valid, IsMapped, Overwrites, IsFree, Zeros, Space.RangeOk, SameMap, NothingReplaced;
      SameMapSelf(ctx.vma.regions);
      var free := RangeIsFree(mappedBrk, needed - mappedBrk);
      if !free { return false; }
      RoundPageAligned(needed - mappedBrk);
      var code, mapped := ctx.Mmap2(mappedBrk, needed - mappedBrk, PROT_READ + PROT_WRITE, ANONYMOUS_FIXED, None, 0);
      FixedOutcome(old(ctx.vma.regions), ctx.vma.regions, mappedBrk, needed, code);
      StillMapped(old(ctx.vma.regions), ctx.vma.regions, brkBase, mappedBrk, mappedBrk, needed);
      if code != 0 { return false; }
      MappedExtended(old(ctx.vma.regions), ctx.vma.regions, brkBase, mappedBrk, needed);
      mappedBrk := needed;
      ok := true;
    }

    /** Giving pages back cannot fail: they are mapped, so they lie inside the address space. */
    method Shrink(needed: uint32) returns (ok: bool)
      requires Valid() && needed % PAGE == 0 && brkBase <= needed < mappedBrk
      modifies this`mappedBrk, ctx`touched, ctx.vma`regions, ctx.table.permissions
      ensures ctx.Valid() && IsMapped(ctx.vma.regions, brkBase, mappedBrk)
      ensures ok && mappedBrk == needed
      ensures Overwrites(old(ctx.vma.regions), ctx.vma.regions, needed, old(mappedBrk), None)
    {
      ghost var was := ctx.vma.regions;
      ShrinkAllowed(needed);
      hide Context.Valid, Overwrites, IsMapped, RoundPage, Space.RangeOk, Space.Canonical, Allocator.Valid;
      var code := ctx.Munmap(needed, mappedBrk - needed);
      if code != 0 { return false; }
      MappedBelow(was, ctx.vma.regions, brkBase, needed, mappedBrk);
      mappedBrk := needed;
      ok := true;
    }

    lemma ShrinkAllowed(needed: uint32)
      requires Valid() && needed % PAGE == 0 && brkBase <= needed < mappedBrk
      ensures ctx.Valid() && IsMapped(ctx.vma.regions, brkBase, mappedBrk)
        && InitOk(ctx.vma.page, ctx.vma.lower, ctx.vma.upper)
      ensures ctx.vma.RangeOk(needed, mappedBrk - needed) && RoundPage(mappedBrk - needed) == mappedBrk - needed
    {
      hide Mirrors, PageMap.Valid, Coalesced, Space.RangeOk;
      RoundPageAligned(mappedBrk - needed);
      MappedInside(ctx.vma, needed, mappedBrk);
    }

    /** agr_dl_mmap: try places downward from the limit; the result is the place, or nothing. */
    method DlMmap(requested: uint32) returns (result: Option<uint32>)
      requires Valid()
      modifies ctx`touched, ctx`memory, ctx`faults, ctx.vma`regions, ctx.table.permissions
      ensures Valid()
      ensures result.None? ==> SameMap(old(ctx.vma.regions), ctx.vma.regions)
      ensures SearchDown(old(ctx.vma.regions), heapLimit, RoundPage(requested), brkBase, mappedBrk) == None ==>
        result.None?
      ensures ctx.faults >= old(ctx.faults)
      ensures ctx.vma.lower <= heapBase && heapLimit <= ctx.vma.upper && ctx.faults == old(ctx.faults) ==>
        result == SearchDown(old(ctx.vma.regions), heapLimit, RoundPage(requested), brkBase, mappedBrk)
      ensures result.Some? ==>
        && RoundPage(requested) > 0 && result.value % PAGE == 0 && mappedBrk <= result.value
          && result.value + RoundPage(requested) <= heapLimit
        && NothingReplaced(old(ctx.vma.regions), ctx.vma.regions, result.value, result.value + RoundPage(requested))
    {
      var size := RoundPage32(requested);
      SearchTooMuch(ctx.vma.regions, heapLimit, RoundPage(requested), brkBase, mappedBrk);
      SameMapSelf(ctx.vma.regions);
      if size == 0 || size > heapLimit - heapBase {
        return None;
      }
      assert size == RoundPage(requested) && size % PAGE == 0;
      hide RoundPage, RoundPage32, IsMapped, SearchDown, SameMap, NothingReplaced;
      result := SearchPlaces(size);
    }

    /** The loop of agr_dl_mmap: from the heap limit downward. */
    method SearchPlaces(size: uint32) returns (result: Option<uint32>)
      requires Valid() && size > 0 && size % PAGE == 0 && size <= heapLimit
      modifies ctx`touched, ctx`memory, ctx`faults, ctx.vma`regions, ctx.table.permissions
      ensures Valid()
      ensures result.None? ==> SameMap(old(ctx.vma.regions), ctx.vma.regions)
      ensures SearchDown(old(ctx.vma.regions), heapLimit, size, brkBase, mappedBrk) == None ==> result.None?
      ensures ctx.faults >= old(ctx.faults)
      ensures InWindow() && ctx.faults == old(ctx.faults) ==>
        result == SearchDown(old(ctx.vma.regions), heapLimit, size, brkBase, mappedBrk)
      ensures result.Some? ==>
        && result.value % PAGE == 0 && mappedBrk <= result.value && result.value + size <= heapLimit
        && NothingReplaced(old(ctx.vma.regions), ctx.vma.regions, result.value, result.value + size)
    {
      assert heapLimit % PAGE == 0 && brkBase <= mappedBrk && 4096 <= mappedBrk;
      ghost var was := ctx.vma.regions;
      SameMapSelf(was);
      assert size <= heapLimit && (brkBase + size < TWO32 || heapLimit - size < brkBase);
      var lowest: uint32 := Wrap32(brkBase + size);
      assert brkBase + size < TWO32 ==> lowest == brkBase + size;
      assert OnTrack(was, heapLimit, size, InWindow());
      hide Allocator.Valid, SearchDown, SameMap, NothingReplaced, RangeFree, Wrap32, Allocator.OnTrack,
        Allocator.InWindow, PlaceBelow;
      var candidate: uint32 := heapLimit;
      while candidate >= lowest
        invariant Valid() && SameMap(was, ctx.vma.regions)
        invariant candidate <= heapLimit && candidate % PAGE == 0
        invariant candidate == heapLimit || brkBase + size < TWO32
        invariant ctx.faults >= old(ctx.faults)
        invariant OnTrack(was, candidate, size, InWindow() && ctx.faults == old(ctx.faults))
        decreases candidate
      {
        var place := PlaceBelow(candidate, size);
        if place < mappedBrk {
          TrackEnd(was, candidate, size, InWindow() && ctx.faults == old(ctx.faults));
          return None;
        }
        var ok := SearchRound(place, candidate, size, was, old(ctx.faults));
        if ok { return Some(place); }
        candidate := place - 4096;
      }
      TrackEnd(was, candidate, size, InWindow() && ctx.faults == old(ctx.faults));
      result := None;
    }

    /** One place of the loop. */
    method SearchRound(place: uint32, candidate: uint32, size: uint32, ghost was: seq<Region>, ghost faultsWas: nat)
        returns (ok: bool)
      requires Valid() && SameMap(was, ctx.vma.regions) && size > 0 && size % PAGE == 0
        && size <= candidate <= heapLimit
      requires place == PlaceBelow(candidate, size) && mappedBrk <= place && 4096 <= mappedBrk
      requires ctx.faults >= faultsWas && OnTrack(was, candidate, size, InWindow() && ctx.faults == faultsWas)
      modifies ctx`touched, ctx`memory, ctx`faults, ctx.vma`regions, ctx.table.permissions
      ensures Valid() && ctx.faults >= faultsWas
      ensures if ok then NothingReplaced(was, ctx.vma.regions, place, place + size) else SameMap(was, ctx.vma.regions)
      ensures ok ==> SearchDown(was, heapLimit, size, brkBase, mappedBrk) != None
      ensures ok && InWindow() && ctx.faults == faultsWas ==>
        SearchDown(was, heapLimit, size, brkBase, mappedBrk) == Some(place)
      ensures !ok ==> OnTrack(was, place - 4096, size, InWindow() && ctx.faults == faultsWas)
      ensures (place - 4096) % PAGE == 0 && place + size <= candidate
    {
      TrackStep(was, candidate, size, InWindow() && ctx.faults == faultsWas);
      hide Allocator.Valid, SearchDown, SameMap, NothingReplaced, RangeFree, Allocator.OnTrack, Allocator.InWindow,
        PlaceBelow;
      ok := TryPlace(place, size, was);
    }

    /**
     What is left to search decides the outcome: always if nothing is to be found, and `exact`ly as long as no mapping
     failed.
     */
    ghost predicate OnTrack(was: seq<Region>, candidate: uint32, size: int, exact: bool)
      reads this
    {
      var goal := SearchDown(was, heapLimit, size, brkBase, mappedBrk);
      goal == None || exact ==> SearchDown(was, candidate, size, brkBase, mappedBrk) == goal
    }

    lemma TrackStep(was: seq<Region>, candidate: uint32, size: uint32, exact: bool)
      requires OnTrack(was, candidate, size, exact) && 0 < size <= candidate && brkBase <= mappedBrk
        && 4096 <= mappedBrk
      ensures var place := PlaceBelow(candidate, size);
        && (place >= mappedBrk && RangeFree(was, place, size) ==>
              SearchDown(was, heapLimit, size, brkBase, mappedBrk) != None
              && (exact ==> SearchDown(was, heapLimit, size, brkBase, mappedBrk) == Some(place)))
        && (place >= mappedBrk && !RangeFree(was, place, size) ==> OnTrack(was, place - 4096, size, exact))
        && (place >= mappedBrk ==> OnTrack(was, place - 4096, size, false))
    {
      SearchStep(was, candidate, size, brkBase, mappedBrk);
    }

    lemma TrackEnd(was: seq<Region>, candidate: uint32, size: uint32, exact: bool)
      requires OnTrack(was, candidate, size, exact) && 0 < size && brkBase <= mappedBrk && 4096 <= mappedBrk
      requires candidate < brkBase + size || (size <= candidate && PlaceBelow(candidate, size) < mappedBrk)
      ensures exact ==> SearchDown(was, heapLimit, size, brkBase, mappedBrk) == None
    {
      SearchTooMuch(was, candidate, size, brkBase, mappedBrk);
      if size <= candidate { SearchStep(was, candidate, size, brkBase, mappedBrk); }
    }

    /** One round of the search: map the place if nobody is there. */
    method TryPlace(place: uint32, size: uint32, ghost was: seq<Region>) returns (ok: bool)
      requires SameMap(was, ctx.vma.regions)
      requires Valid() && place % PAGE == 0 && size % PAGE == 0 && size > 0 && mappedBrk <= place
      modifies ctx`touched, ctx`memory, ctx`faults, ctx.vma`regions, ctx.table.permissions
      ensures Valid()
      ensures ok ==> RangeFree(was, place, size)
      ensures if ok then NothingReplaced(was, ctx.vma.regions, place, place + size) else SameMap(was, ctx.vma.regions)
      ensures ctx.faults >= old(ctx.faults)
      ensures InWindow() && place + size <= heapLimit && ctx.faults == old(ctx.faults) ==>
        (ok <==> RangeFree(was, place, size))
    {
      ghost var before := ctx.vma.regions;
      hide SameMap, NothingReplaced;
      ok := RangeIsFree(place, size);
      SameFree(was, before, place, size);
      if ok {
        if InWindow() && place + size <= heapLimit { PlaceInside(ctx.vma, place, size, brkBase, heapLimit); }
        hide Allocator.Valid;
        ok := MapAt(place, size);
        AfterTry(was, before, ctx.vma.regions, place, size, ok);
      }
    }

    /** One attempt at a free place. */
    method MapAt(place: uint32, size: uint32) returns (ok: bool)
      requires Valid() && place % PAGE == 0 && size % PAGE == 0 && size > 0 && mappedBrk <= place
      requires RangeFree(ctx.vma.regions, place, size)
      modifies ctx`touched, ctx`memory, ctx`faults, ctx.vma`regions, ctx.table.permissions
      ensures Valid()
      ensures if ok then NothingReplaced(old(ctx.vma.regions), ctx.vma.regions, place, place + size)
        else SameMap(old(ctx.vma.regions), ctx.vma.regions)
      ensures ctx.faults >= old(ctx.faults) && (ok <==> ctx.vma.RangeOk(place, size) && ctx.faults == old(ctx.faults))
    {
      RoundPageAligned(size);
      hide Context.Valid, IsMapped, Overwrites, IsFree, Zeros;
      var code, mapped := ctx.Mmap2(place, size, PROT_READ + PROT_WRITE, ANONYMOUS_FIXED, None, 0);
      FixedOutcome(old(ctx.vma.regions), ctx.vma.regions, place, place + size, code);
      StillMapped(old(ctx.vma.regions), ctx.vma.regions, brkBase, mappedBrk, place, place + size);
      ok := code == 0;
    }

    /**
     agr_dl_munmap clears whatever range it is given. The heap stays sound exactly if that range misses the break
     region.
     */
    method DlMunmap(address: uint32, size: uint32) returns (code: int)
      requires Valid()
      modifies ctx`touched, ctx.vma`regions, ctx.table.permissions
      ensures ctx.Valid()
      ensures code == 0 <==> address != 0 && ctx.vma.RangeOk(address, size)
      ensures code == 0 ==> Overwrites(old(ctx.vma.regions), ctx.vma.regions, address, address + RoundPage(size), None)
      ensures code != 0 ==> ctx.vma.regions == old(ctx.vma.regions)
      ensures Valid() <==> code != 0 || !Meets(address, address + RoundPage(size), brkBase, mappedBrk)
    {
      if address == 0 { return -1; }
      hide Context.Valid;
      code := ctx.Munmap(address, size);
      if code == 0 && Meets(address, address + RoundPage(size), brkBase, mappedBrk) {
        ghost var a := if address < brkBase then brkBase else address;
        assert Look(ctx.vma.regions, a).None?;
      }
    }
  }

  /** The two ranges have an address in common. */
  predicate Meets(lo: int, hi: int, lo': int, hi': int) {
    (if lo < lo' then lo' else lo) < (if hi < hi' then hi else hi')
  }

  /** `(candidate - size) & ~4095`. */
  function PlaceBelow(candidate: uint32, size: uint32): (place: uint32)
    requires size <= candidate
    ensures place % PAGE == 0 && place <= candidate - size
  {
    (candidate - size) / 4096 * 4096
  }

  ghost predicate SameMap(was: seq<Region>, now: seq<Region>) {
    forall a :: Look(now, a) == Look(was, a)
  }

  /** [lo, hi) was free and is now readable and writable; every other address is as it was. */
  ghost predicate NothingReplaced(was: seq<Region>, now: seq<Region>, lo: int, hi: int) {
    IsFree(was, lo, hi) && Overwrites(was, now, lo, hi, Some(PROT_READ + PROT_WRITE))
  }

  /** A fixed anonymous mapping of a free range either installs it or leaves the page map as it was. */
  lemma FixedOutcome(was: seq<Region>, now: seq<Region>, lo: int, hi: int, code: int)
    requires IsFree(was, lo, hi)
    requires code == 0 ==> Overwrites(was, now, lo, hi, Some(PROT_READ + PROT_WRITE))
    requires code != 0 ==> now == was || Overwrites(was, now, lo, hi, None)
    ensures if code == 0 then NothingReplaced(was, now, lo, hi) else SameMap(was, now)
  {
  }

  lemma MappedBelow(was: seq<Region>, now: seq<Region>, base: int, lo: int, hi: int)
    requires IsMapped(was, base, hi) && Overwrites(was, now, lo, hi, None) && lo <= hi
    ensures IsMapped(now, base, lo)
  {
  }

  lemma NothingGrown(rs: seq<Region>, at: int)
    ensures NothingReplaced(rs, rs, at, at)
  {
  }

  lemma BreakRounds(newBrk: uint32, limit: uint32)
    requires newBrk <= limit && limit % PAGE == 0
    ensures RoundPage32(newBrk) == RoundPage(newBrk) && newBrk <= RoundPage(newBrk) <= limit
      && RoundPage(newBrk) % PAGE == 0
  {
  }

  lemma MappedExtended(was: seq<Region>, now: seq<Region>, base: int, lo: int, hi: int)
    requires IsMapped(was, base, lo) && NothingReplaced(was, now, lo, hi)
    ensures IsMapped(now, base, hi)
  {
  }

  lemma StillMapped(was: seq<Region>, now: seq<Region>, base: int, top: int, lo: int, hi: int)
    requires IsMapped(was, base, top) && (NothingReplaced(was, now, lo, hi) || SameMap(was, now))
    ensures IsMapped(now, base, top)
  {
  }

  lemma SameMapSelf(rs: seq<Region>)
    ensures SameMap(rs, rs)
  {
  }

  lemma AfterTry(was: seq<Region>, mid: seq<Region>, now: seq<Region>, place: int, size: int, ok: bool)
    requires SameMap(was, mid) && if ok then NothingReplaced(mid, now, place, place + size) else SameMap(mid, now)
    ensures if ok then NothingReplaced(was, now, place, place + size) else SameMap(was, now)
  {
  }

  /** A mapped range of whole pages lies inside the address space. */
  lemma MappedInside(vma: Space, lo: uint32, hi: uint32)
    requires vma.Canonical() && vma.page == PAGE && lo % PAGE == 0 && hi % PAGE == 0 && lo < hi
      && IsMapped(vma.regions, lo, hi)
    ensures vma.RangeOk(lo, hi - lo)
  {
    RoundPageAligned(hi - lo);
    RoundPageIsRoundUp(hi - lo);
    assert Look(vma.regions, lo).Some? && Look(vma.regions, hi - 1).Some?;
    hide RoundPage, RoundUp, Look, IsMapped, Coalesced;
    AddressInside(vma.regions, vma.page, vma.lower, vma.upper, lo);
    AddressInside(vma.regions, vma.page, vma.lower, vma.upper, hi - 1);
  }

  lemma AddressInside(rs: seq<Region>, page: int, lower: int, upper: int, a: int)
    requires page > 0 && PageMap.Valid(rs, page, lower, upper) && Look(rs, a).Some?
    ensures lower <= a < upper
  {
    var i := LookWitness(rs, a);
    assert RegionOk(rs[i], page, lower, upper);
  }

  lemma PlaceInside(vma: Space, place: uint32, size: uint32, base: int, limit: int)
    requires vma.Canonical() && vma.page == PAGE && vma.lower <= base <= place && place + size <= limit <= vma.upper
    requires place % PAGE == 0 && size % PAGE == 0 && size > 0
    ensures vma.RangeOk(place, size)
  {
    RoundPageAligned(size);
    RoundPageIsRoundUp(size);
  }

  lemma RoundPageAligned(n: int)
    requires n % PAGE == 0
    ensures RoundPage(n) == n
  {
  }

  // ---- The downward search is safe but not complete ---------------------------------------------

  /** The places the search looks at, when no mapping attempt fails. */
  ghost function SearchDown(rs: seq<Region>, candidate: uint32, size: int, brkBase: int,
      mappedBrk: int): (r: Option<int>)
    decreases candidate
  {
    if size <= 0 || candidate < brkBase + size || candidate < size then None
    else
      var place := PlaceBelow(candidate, size);
      if place < mappedBrk then None
      else if RangeFree(rs, place, size) then Some(place)
      else if place < 4096 then None
      else SearchDown(rs, place - 4096, size, brkBase, mappedBrk)
  }

  /** One round of the search. */
  lemma SearchStep(rs: seq<Region>, candidate: uint32, size: uint32, brkBase: int, mappedBrk: int)
    requires size > 0 && size <= candidate && 0 <= brkBase <= mappedBrk && 4096 <= mappedBrk
    ensures var place := PlaceBelow(candidate, size);
      SearchDown(rs, candidate, size, brkBase, mappedBrk) ==
        if place < mappedBrk then None
        else if RangeFree(rs, place, size) then Some(place)
        else SearchDown(rs, place - 4096, size, brkBase, mappedBrk)
  {
  }

  lemma SearchTooMuch(rs: seq<Region>, candidate: uint32, size: int, brkBase: int, mappedBrk: int)
    ensures size <= 0 || candidate < brkBase + size ==> SearchDown(rs, candidate, size, brkBase, mappedBrk) == None
  {
  }

  /** The k-th place tried below `limit`: each round moves down by the size and one page more. */
  function Rung(limit: int, size: int, k: nat): (r: int)
    decreases k
  {
    if k == 0 then limit - size else Rung(limit - size - 4096, size, k - 1)
  }

  /** The k-th place is the first one free, and it lies above the break. */
  ghost predicate FirstFreeRung(rs: seq<Region>, limit: int, size: int, mappedBrk: int, k: nat) {
    && mappedBrk <= Rung(limit, size, k) && RangeFree(rs, Rung(limit, size, k), size)
    && forall j: nat :: j < k ==> !RangeFree(rs, Rung(limit, size, j), size)
  }

  predicate SearchSetup(limit: uint32, size: uint32, brkBase: int, mappedBrk: int) {
    size > 0 && size % PAGE == 0 && limit % PAGE == 0 && 0 <= brkBase <= mappedBrk && 4096 <= mappedBrk
  }

  /**
   Exactly which free ranges the search finds: the topmost free rung above the break, whatever lies free between the
   rungs.
   */
  lemma SearchFindsIff(rs: seq<Region>, limit: uint32, size: uint32, brkBase: int, mappedBrk: int, place: int)
    requires SearchSetup(limit, size, brkBase, mappedBrk)
    ensures SearchDown(rs, limit, size, brkBase, mappedBrk) == Some(place) <==>
      exists k: nat :: place == Rung(limit, size, k) && FirstFreeRung(rs, limit, size, mappedBrk, k)
  {
    hide SearchDown, FirstFreeRung, Rung;
    if SearchDown(rs, limit, size, brkBase, mappedBrk) == Some(place) {
      var k := FoundOnRung(rs, limit, size, brkBase, mappedBrk, place);
    }
    if k: nat :| place == Rung(limit, size, k) && FirstFreeRung(rs, limit, size, mappedBrk, k) {
      RungIsFound(rs, limit, size, brkBase, mappedBrk, k);
    }
  }

  lemma {:induction false} FoundOnRung(rs: seq<Region>, limit: uint32, size: uint32, brkBase: int, mappedBrk: int,
      place: int) returns (k: nat)
    requires SearchSetup(limit, size, brkBase, mappedBrk)
      && SearchDown(rs, limit, size, brkBase, mappedBrk) == Some(place)
    ensures place == Rung(limit, size, k) && FirstFreeRung(rs, limit, size, mappedBrk, k)
    decreases limit
  {
    SearchTooMuch(rs, limit, size, brkBase, mappedBrk);
    SearchStep(rs, limit, size, brkBase, mappedBrk);
    FirstRung(limit, size, mappedBrk);
    hide RangeFree, SearchDown, PlaceBelow;
    if RangeFree(rs, limit - size, size) {
      k := 0;
    } else {
      var below: uint32 := limit - size - 4096;
      k := FoundOnRung(rs, below, size, brkBase, mappedBrk, place);
      NextRung(rs, limit, size, mappedBrk, k);
      k := k + 1;
    }
  }

  lemma {:induction false} RungIsFound(rs: seq<Region>, limit: uint32, size: uint32, brkBase: int, mappedBrk: int,
      k: nat)
    requires SearchSetup(limit, size, brkBase, mappedBrk) && FirstFreeRung(rs, limit, size, mappedBrk, k)
    ensures SearchDown(rs, limit, size, brkBase, mappedBrk) == Some(Rung(limit, size, k))
    decreases k
  {
    RungBelow(limit, size, k);
    SearchStep(rs, limit, size, brkBase, mappedBrk);
    FirstRung(limit, size, mappedBrk);
    hide RangeFree, SearchDown, PlaceBelow;
    if k > 0 {
      assert !RangeFree(rs, limit - size, size);
      NextRung(rs, limit, size, mappedBrk, k - 1);
      var below: uint32 := limit - size - 4096;
      RungIsFound(rs, below, size, brkBase, mappedBrk, k - 1);
      assert Rung(below, size, k - 1) == Rung(limit, size, k);
    }
  }

  lemma FirstRung(limit: uint32, size: uint32, mappedBrk: int)
    requires size % PAGE == 0 && limit % PAGE == 0 && size <= limit && 4096 <= mappedBrk
    ensures PlaceBelow(limit, size) == limit - size == Rung(limit, size, 0) && (limit - size - 4096) % PAGE == 0
  {
  }

  lemma {:induction false} RungAt(limit: int, size: int, k: nat)
    ensures Rung(limit, size, k) == limit - size - k * (size + 4096)
    decreases k
  {
    if k > 0 {
      RungAt(limit - size - 4096, size, k - 1);
      assert (k - 1) * (size + 4096) == k * (size + 4096) - (size + 4096);
    }
  }

  lemma {:induction false} RungBelow(limit: int, size: int, k: nat)
    requires size > 0
    ensures Rung(limit, size, k) <= limit - size - k
    decreases k
  {
    if k > 0 { RungBelow(limit - size - 4096, size, k - 1); }
  }

  lemma NextRung(rs: seq<Region>, limit: int, size: int, mappedBrk: int, k: nat)
    requires !RangeFree(rs, limit - size, size)
    ensures FirstFreeRung(rs, limit, size, mappedBrk, k + 1) <==>
      FirstFreeRung(rs, limit - size - 4096, size, mappedBrk, k)
  {
    hide RangeFree;
    var below := limit - size - 4096;
    assert Rung(limit, size, 0) == limit - size;
    forall j: nat ensures Rung(limit, size, j + 1) == Rung(below, size, j) {}
    if FirstFreeRung(rs, below, size, mappedBrk, k) {
      forall j: nat | j < k + 1 ensures !RangeFree(rs, Rung(limit, size, j), size) {
        if j > 0 { assert Rung(limit, size, j) == Rung(below, size, j - 1); }
      }
    }
    if FirstFreeRung(rs, limit, size, mappedBrk, k + 1) {
      forall j: nat | j < k ensures !RangeFree(rs, Rung(below, size, j), size) {
        assert Rung(limit, size, j + 1) == Rung(below, size, j);
      }
    }
  }

  lemma SameFree(was: seq<Region>, now: seq<Region>, place: int, size: int)
    requires SameMap(was, now)
    ensures RangeFree(now, place, size) <==> RangeFree(was, place, size)
  {
  }

  /**
   A four-page heap window whose top page is taken: two free pages remain twice over, yet a two-page request finds
   nothing.
   */
  lemma SearchMissesFreeRange(base: int)
    requires base % 4096 == 0 && 0x1_0000 <= base < 0x1000_0000
    ensures var rs := [Region(base + 0x3000, base + 0x4000, 3)];
      && RangeFree(rs, base, 0x2000) && RangeFree(rs, base + 0x1000, 0x2000)
      && SearchDown(rs, base + 0x4000, 0x2000, base, base) == None
  {
    var rs := [Region(base + 0x3000, base + 0x4000, 3)];
    assert Look(rs, base + 0x3000).Some?;
    forall a | base <= a < base + 0x3000 ensures Look(rs, a) == None { LookNone(rs, a); }
    assert PlaceBelow(base + 0x4000, 0x2000) == base + 0x2000;
    assert !RangeFree(rs, base + 0x2000, 0x2000);
    assert SearchDown(rs, base + 0x1000, 0x2000, base, base) == None;
  }
}
