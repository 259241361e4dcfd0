/**
 The guest address space (Runtime/Process/agr_guest_vma.c): a sorted array of regions, changed in
 place, that must act exactly like a map from addresses to protections.
 */
module GuestVma {
  import opened Prelude
  import opened PageMap
  import opened PageMapOps

  const FIXED := 1
  const NOREPLACE := 2

  function Wrap64(x: int): (r: uint64)
    ensures 0 <= x < TWO64 ==> r == x
    ensures TWO64 <= x < 2 * TWO64 ==> r == x - TWO64
  {
    x % TWO64
  }

  /** For 32-bit values this is `v && !(v & (v - 1))`: the divisors of 2^32 are its powers of two. */
  predicate IsPowerOfTwo(v: nat) {
    0 < v < TWO32 && TWO32 % v == 0
  }

  /** agr_guest_vma_init's checks. */
  predicate InitOk(page: nat, lower: uint32, upper: nat) {
    IsPowerOfTwo(page) && page >= 4096 && Aligned(lower, page) && Aligned(upper, page) && upper <= TWO32
      && lower < upper
  }

  /** Every address of [lo, hi) is unmapped. */
  ghost predicate IsFree(rs: seq<Region>, lo: int, hi: int) {
    forall a :: lo <= a < hi ==> Look(rs, a) == None
  }

  ghost predicate IsMapped(rs: seq<Region>, lo: int, hi: int) {
    forall a :: lo <= a < hi ==> Look(rs, a).Some?
  }

  /** `now` is `was` with [lo, hi) overwritten by `value`. */
  ghost predicate Overwrites(was: seq<Region>, now: seq<Region>, lo: int, hi: int, value: Option<nat>) {
    forall a :: Look(now, a) == if lo <= a < hi then value else Look(was, a)
  }

  class Space {
    var regions: seq<Region>
    const page: nat
    const lower: uint32
    const upper: nat

    /** Every reachable array: valid and maximally coalesced. By `CanonicalUnique` the page map determines it. */
    ghost predicate Canonical()
      reads this
    {
      InitOk(page, lower, upper) && Valid(regions, page, lower, upper) && Coalesced(regions)
    }

    constructor (page: nat, lower: uint32, upper: nat)
      requires InitOk(page, lower, upper)
      ensures Canonical() && regions == []
      ensures this.page == page && this.lower == lower && this.upper == upper
    {
      this.page, this.lower, this.upper := page, lower, upper;
      regions := [];
    }

    method RoundLength(length: uint64) returns (code: int, rounded: uint64)
      requires InitOk(page, lower, upper)
      ensures code == if length == 0 then EINVAL else if length > TWO64 - 1 - (page - 1) then ENOMEM else 0
      ensures code == 0 ==> rounded == RoundUp(length, page) && rounded > 0 && Aligned(rounded, page)
    {
      rounded := 0;
      if length == 0 { return EINVAL, 0; }
      var mask := page - 1;
      if length > TWO64 - 1 - mask { return ENOMEM, 0; }
      RoundUpAligned(length, page);
      rounded := length + mask - (length + mask) % page;
      code := if rounded != 0 then 0 else ENOMEM;
    }

    /** The range [address, end) if it is aligned, nonempty and inside the bounds. */
    method RangeFor(address: uint32, length: uint64) returns (code: int, end: uint64)
      requires InitOk(page, lower, upper)
      ensures code == 0 <==> RangeOk(address, length)
      ensures code == 0 ==> end == address + RoundUp(length, page) && Aligned(end, page)
      ensures code == if length == 0 then EINVAL else if length > TWO64 - page then ENOMEM
        else if address % page == 0 && lower <= address && address + RoundUp(length, page) <= upper then 0 else EINVAL
    {
      end := 0;
      var rounded;
      code, rounded := RoundLength(length);
      if code != 0 { return code, 0; }
      var candidate := Wrap64(address + rounded);
      if address % page != 0 || address < lower || candidate > upper || candidate <= address { return EINVAL, 0; }
      AlignedSum(address, rounded, page);
      end := candidate;
    }

    /** Which ranges the space accepts. */
    predicate RangeOk(address: uint32, length: uint64)
      requires InitOk(page, lower, upper)
    {
      && 0 < length <= TWO64 - 1 - (page - 1)
      && Aligned(address, page) && lower <= address && address + RoundUp(length, page) <= upper
    }

    method Unmap(address: uint32, length: uint64) returns (code: int)
      requires Canonical()
      modifies this`regions
      ensures Canonical()
      ensures code == if RangeOk(address, length) then 0 else if length > TWO64 - page then ENOMEM else EINVAL
      ensures code == 0 ==> Overwrites(old(regions), regions, address, address + RoundUp(length, page), None)
      ensures code != 0 ==> regions == old(regions)
    {
      var end;
      code, end := RangeFor(address, length);
      if code != 0 { return; }
      ghost var was := regions;
      RoundUpAligned(length, page);
      UnmapRange(address, end);
      forall a { ClearLook(was, address, end, a); }
      ClearRegionsOk(was, address, end, page, lower, upper);
      ClearCoalesced(was, address, end);
    }

    /** The loop of agr_guest_vma_unmap. */
    method UnmapRange(address: uint32, end: uint64)
      requires Ordered(regions) && address < end
      modifies this`regions
      ensures regions == Clear(old(regions), address, end)
    {
      hide Clear, Clip, Ordered;
      assert Clear([], address, end) == [] by { ClearOutside([], address, end); }
      ghost var was := regions;
      ghost var k := 0;
      var index := 0;
      while index < |regions|
        invariant 0 <= k <= |was| && index == |Clear(was[..k], address, end)| && index <= |regions|
        invariant regions == Clear(was[..k], address, end) + was[k..]
        decreases |was| - k
      {
        ghost var done := Clear(was[..k], address, end);
        assert regions[..index] == done && regions[index + 1..] == was[k + 1..] && regions[index] == was[k];
        ClearNext(was, k, address, end);
        var more;
        index, more := UnmapOne(index, address, end);
        k := k + 1;
        if !more { break; }
      }
      RestUntouched(was, k, address, end);
    }

    /** One round of that loop: region `index` gives way to what `Clip` leaves of it; `more` says whether to go on. */
    method UnmapOne(index: nat, address: uint32, end: uint64) returns (next: nat, more: bool)
      requires index < |regions| && address < end && regions[index].start < regions[index].end
      modifies this`regions
      ensures var r := old(regions[index]);
        && regions == old(regions[..index]) + Clip(r, address, end) + old(regions[index + 1..])
        && (more ==> next == index + |Clip(r, address, end)|)
        && (!more ==> end <= r.end)
    {
      var current := regions[index];
      if current.end <= address { return index + 1, true; }
      if current.start >= end { return index, false; }
      if address <= current.start && end >= current.end {
        regions := regions[..index] + regions[index + 1..];
        return index, true;
      }
      if address > current.start && end < current.end {
        regions := regions[..index] + [current.(end := address), current.(start := end)] + regions[index + 1..];
        return index, false;
      }
      if address <= current.start {
        regions := regions[index := current.(start := end)];
        return index, false;
      }
      regions := regions[index := current.(end := address)];
      return index + 1, true;
    }

    // ---- Coalescing ---------------------------------------------------------------------------

    /** agr_guest_vma's coalesce. */
    method Coalesce()
      modifies this`regions
      ensures regions == Merge(old(regions))
    {
      hide Merge, MergeOnto;
      ghost var was := regions;
      MergeStart(was);
      ghost var k := if was == [] then 0 else 1;
      var index := 0;
      while index + 1 < |regions|
        invariant 0 <= k <= |was| && (was != [] ==> k > 0) && (Merge(was[..k]) != [] <==> was != [])
        invariant was != [] ==> index == |Merge(was[..k])| - 1
        invariant was == [] ==> index == 0
        invariant regions == Merge(was[..k]) + was[k..]
        decreases |was| - k
      {
        ghost var done := Merge(was[..k]);
        assert regions[..index + 1] == done && regions[index + 1..] == was[k..];
        MergeNext(was, k);
        var left, right := regions[index], regions[index + 1];
        assert left == done[|done| - 1] && right == was[k];
        if left.end == right.start && left.prot == right.prot {
          regions := regions[..index] + [left.(end := right.end)] + regions[index + 2..];
          assert regions == MergeOnto(done, was[k]) + was[k + 1..] by { MergeOntoJoins(done, was[k]); }
        } else {
          index := index + 1;
          assert regions == MergeOnto(done, was[k]) + was[k + 1..] by { MergeOntoApart(done, was[k]); }
        }
        MergeOntoLength(done, was[k]);
        k := k + 1;
      }
      assert was[..k] == was;
    }

    // ---- First fit ----------------------------------------------------------------------------

    /** `s` is a place where a non-fixed mapping of `length` bytes at or above `hint` could go. */
    ghost predicate Fits(hint: uint32, length: int, s: int)
      requires InitOk(page, lower, upper)
      reads this
    {
      hint <= s && lower <= s && Aligned(s, page) && s + length <= upper && IsFree(regions, s, s + length)
    }

    /** The address is the lowest that fits. */
    ghost predicate LeastFit(hint: uint32, length: int, s: int)
      requires InitOk(page, lower, upper)
      reads this
    {
      Fits(hint, length, s) && forall s' :: Fits(hint, length, s') ==> s <= s'
    }

    ghost predicate NoFit(hint: uint32, length: int)
      requires InitOk(page, lower, upper)
      reads this
    {
      forall s :: !Fits(hint, length, s)
    }

    /** The lowest fit, or ENOMEM if there is none: even when the 64-bit sum wraps. */
    method FindFirstFit(hint: uint32, length: uint64) returns (code: int, address: uint32)
      requires Canonical() && length > 0
      ensures code == 0 || code == ENOMEM
      ensures if code == 0 then LeastFit(hint, length, address) else NoFit(hint, length)
    {
      hide Aligned, RoundUp;
      address := 0;
      var base: uint64 := if hint >= lower then hint else lower;
      RoundUpAligned(base, page);
      var cursor: uint64 := RoundUp(base, page);
      forall s | Fits(hint, length, s) ensures cursor <= s { RoundUpLeast(base, s, page); }
      var index := 0;
      while index < |regions|
        invariant 0 <= index <= |regions| && base <= cursor < 3 * TWO32 && Aligned(cursor, page)
        invariant forall i :: 0 <= i < index ==> regions[i].end <= cursor
        invariant forall s :: Fits(hint, length, s) ==> cursor <= s
      {
        var region := regions[index];
        if region.end > cursor {
          if Wrap64(cursor + length) <= region.start { break; }
          NoFitBelow(hint, length, index, cursor);
          cursor := region.end;
        }
        index := index + 1;
      }
      var end := Wrap64(cursor + length);
      if cursor > TWO32 - 1 || end > upper || end <= cursor { return ENOMEM, 0; }
      forall a | cursor <= a < cursor + length ensures Look(regions, a) == None { LookNone(regions, a); }
      return 0, cursor;
    }

    /** Some byte of [s, s + length) is mapped. */
    ghost predicate Taken(s: int, length: int)
      reads this
    {
      exists a :: s <= a < s + length && Look(regions, a).Some?
    }

    /**
     The first fit is free, and below it every aligned place at or above the hint is taken; without a fit every such
     place that ends inside the bounds is taken.
     */
    lemma FirstFitIs(hint: uint32, length: int, s: int)
      requires InitOk(page, lower, upper) && length > 0
      ensures LeastFit(hint, length, s) <==>
        && hint <= s && lower <= s && s % page == 0 && s + length <= upper && !Taken(s, length)
        && forall p :: hint <= p < s && lower <= p && p % page == 0 ==> Taken(p, length)
      ensures NoFit(hint, length) <==>
        forall p :: hint <= p && lower <= p && p % page == 0 && p + length <= upper ==> Taken(p, length)
    {
      forall p
        ensures Fits(hint, length, p) <==>
          hint <= p && lower <= p && p % page == 0 && p + length <= upper && !Taken(p, length)
      {
      }
      hide Space.Fits, Space.Taken;
    }

    lemma NoFitBelow(hint: uint32, length: uint64, index: nat, cursor: uint64)
      requires Canonical() && length > 0 && index < |regions|
      requires cursor < regions[index].end && cursor + length > regions[index].start
      ensures forall s :: Fits(hint, length, s) && cursor <= s ==> regions[index].end <= s
    {
      var r := regions[index];
      forall s | Fits(hint, length, s) && cursor <= s ensures r.end <= s {
        var a := if s < r.start then r.start else s;
        if s < r.end {
          LookAt(regions, index, a);
        }
      }
    }

    // ---- Mapping ------------------------------------------------------------------------------

    /** Does any region meet [start, end)? Only the first region that ends after `start` matters. */
    method Overlaps(start: uint32, end: uint64) returns (hit: bool)
      requires Canonical() && start < end
      ensures hit <==> !IsFree(regions, start, end)
    {
      var index := 0;
      while index < |regions|
        invariant 0 <= index <= |regions|
        invariant forall i :: 0 <= i < index ==> regions[i].end <= start
      {
        var region := regions[index];
        if region.end > start {
          if region.start < end {
            LookAt(regions, index, if region.start < start then start else region.start);
          } else {
            forall a | start <= a < end ensures Look(regions, a) == None { LookNone(regions, a); }
          }
          return region.start < end;
        }
        index := index + 1;
      }
      forall a | start <= a < end ensures Look(regions, a) == None { LookNone(regions, a); }
      hit := false;
    }

    /** Insert a region into a free range and merge it with its neighbours. */
    method InsertAndCoalesce(start: uint32, end: uint64, prot: nat)
      requires Canonical() && RegionOk(Region(start, end, prot), page, lower, upper) && IsFree(regions, start, end)
      modifies this`regions
      ensures Canonical()
      ensures Overwrites(old(regions), regions, start, end, Some(prot))
    {
      ghost var was := regions;
      var index := 0;
      while index < |regions| && regions[index].start < start
        invariant 0 <= index <= |regions|
        invariant forall i :: 0 <= i < index ==> regions[i].start < start
      {
        index := index + 1;
      }
      var region := Region(start, end, prot);
      NeighboursApart(was, index, region);
      regions := regions[..index] + [region] + regions[index..];
      ghost var inserted := regions;
      Coalesce();
      MergeCanonical(inserted);
      InsertRegionsOk(was, index, region);
      MergeRegionsOk(inserted, page, lower, upper);
      forall a ensures Look(regions, a) == if start <= a < end then Some(prot) else Look(was, a) {
        assert Look(regions, a) == Look(inserted, a);
        InsertLook(was, index, region, a);
      }
    }

    lemma InsertRegionsOk(was: seq<Region>, index: nat, region: Region)
      requires page > 0 && index <= |was| && RegionOk(region, page, lower, upper)
      requires forall i :: 0 <= i < |was| ==> RegionOk(was[i], page, lower, upper)
      ensures forall i :: 0 <= i < |Insert(was, index, region)| ==>
        RegionOk(Insert(was, index, region)[i], page, lower, upper)
    {
      hide Aligned;
    }

    method Map(address: uint32, length: uint64, prot: nat, flags: nat) returns (code: int, mapped: uint32)
      requires Canonical()
      modifies this`regions
      ensures Canonical()
      ensures code != 0 ==> regions == old(regions)
      ensures code == 0 ==>
        RangeOk(mapped, length) && Overwrites(old(regions), regions, mapped, mapped + RoundUp(length, page), Some(prot))
      ensures flags > 3 || flags == NOREPLACE ==> code == EINVAL
      ensures flags <= 3 && flags != NOREPLACE && length == 0 ==> code == EINVAL
      ensures flags <= 3 && flags != NOREPLACE && length > TWO64 - page ==> code == ENOMEM
      ensures flags == FIXED && 0 < length <= TWO64 - page ==>
        code == (if RangeOk(address, length) then 0 else EINVAL) && (code == 0 ==> mapped == address)
      ensures flags == FIXED + NOREPLACE && 0 < length <= TWO64 - page ==>
        && code == (if !RangeOk(address, length) then EINVAL
                    else if old(IsFree(regions, address, address + RoundUp(length, page))) then 0 else EEXIST)
        && (code == 0 ==> mapped == address)
      ensures flags == 0 && 0 < length <= TWO64 - 1 - (page - 1) ==>
        if code == 0 then old(LeastFit(address, RoundUp(length, page), mapped))
        else code == ENOMEM && old(NoFit(address, RoundUp(length, page)))
    {
      mapped := 0;
      if flags > 3 || flags == NOREPLACE { return EINVAL, 0; }
      var rounded;
      code, rounded := RoundLength(length);
      if code != 0 { return code, 0; }
      RoundedAgain(address, length);
      hide LeastFit, NoFit;
      var start;
      if flags == 0 {
        code, start := FindFirstFit(address, rounded);
        if code == 0 { FitIsRangeOk(address, length, start); }
      } else {
        code, start := MakeRoom(address, rounded, flags);
      }
      if code != 0 { return code, 0; }
      hide RangeOk;
      InsertAndCoalesce(start, start + rounded, prot) by { RoundedRegionOk(start, length, prot); }
      return 0, start;
    }

    /** The fixed cases of a mapping: refuse to replace, or clear the range first. */
    method MakeRoom(address: uint32, rounded: uint64, flags: nat) returns (code: int, start: uint32)
      requires Canonical() && RoundUp(rounded, page) == rounded && (flags == FIXED || flags == FIXED + NOREPLACE)
        && 0 < rounded <= TWO64 - page
      modifies this`regions
      ensures Canonical() && start == address
      ensures code != 0 ==> regions == old(regions)
      ensures code == 0 ==> IsFree(regions, address, address + rounded)
      ensures code == 0 ==> forall a :: !(address <= a < address + rounded) ==>
        Look(regions, a) == old(Look(regions, a))
      ensures code == if !RangeOk(address, rounded) then EINVAL
        else if flags == FIXED || old(IsFree(regions, address, address + rounded)) then 0 else EEXIST
    {
      start := address;
      var end;
      code, end := RangeFor(address, rounded);
      if code != 0 { return; }
      if flags == FIXED + NOREPLACE {
        var hit := Overlaps(start, end);
        if hit { code := EEXIST; }
      } else {
        code := Unmap(start, rounded);
      }
    }

    lemma FitIsRangeOk(hint: uint32, length: uint64, s: uint32)
      requires InitOk(page, lower, upper) && 0 < length <= TWO64 - 1 - (page - 1)
      requires LeastFit(hint, RoundUp(length, page), s)
      ensures RangeOk(s, length) && IsFree(regions, s, s + RoundUp(length, page))
    {
      RoundUpAligned(length, page);
    }

    lemma RoundedRegionOk(start: uint32, length: uint64, prot: nat)
      requires InitOk(page, lower, upper) && RangeOk(start, length)
      ensures RegionOk(Region(start, start + RoundUp(length, page), prot), page, lower, upper)
    {
      RoundUpAligned(length, page);
      AlignedSum(start, RoundUp(length, page), page);
    }

    /** Rounding a rounded length changes nothing. */
    lemma RoundedAgain(address: uint32, length: uint64)
      requires InitOk(page, lower, upper) && 0 < length <= TWO64 - 1 - (page - 1)
      ensures RoundUp(length, page) <= TWO64 - page
      ensures RoundUp(RoundUp(length, page), page) == RoundUp(length, page)
      ensures RangeOk(address, RoundUp(length, page)) <==> RangeOk(address, length)
    {
      var r := RoundUp(length, page);
      RoundUpAligned(length, page);
      RoundUpLeast(r, r, page);
      RoundUpAligned(r, page);
      TopPageAligned(page);
      RoundUpLeast(length, TWO64 - page, page);
    }

    // ---- Protecting ---------------------------------------------------------------------------

    /** split_at: cut the region that strictly contains `point`, if any. */
    method CutAt(point: nat)
      requires Ordered(regions) && upper <= TWO32
      requires forall i :: 0 <= i < |regions| ==> regions[i].end <= upper
      modifies this`regions
      ensures regions == SplitAt(old(regions), point)
    {
      if point > TWO32 - 1 {
        SplitNowhere(regions, point);
        return;
      }
      var index := 0;
      while index < |regions|
        invariant 0 <= index <= |regions| && regions == old(regions)
        invariant forall i :: 0 <= i < index ==> regions[i].end <= point
      {
        var region := regions[index];
        if point <= region.start { break; }
        if point < region.end {
          SplitPrefix(regions, index, point);
          regions := regions[..index] + [region.(end := point), region.(start := point)] + regions[index + 1..];
          return;
        }
        index := index + 1;
      }
      SplitNowhere(regions, point);
    }

    /** Is all of [address, end) mapped? The walk keeps `covered` as the end of the mapped part. */
    method Covered(address: uint32, end: uint64) returns (all: bool)
      requires Canonical() && address < end
      ensures all <==> IsMapped(regions, address, end)
    {
      hide Look;
      var covered: uint64 := address;
      var index := 0;
      while index < |regions| && covered < end
        invariant 0 <= index <= |regions| && address <= covered <= end
        invariant covered < end ==> forall i :: 0 <= i < index ==> regions[i].end <= covered
        invariant IsMapped(regions, address, covered)
      {
        var region := regions[index];
        if region.end > covered {
          if region.start > covered {
            GapAt(regions, index, covered);
            return false;
          }
          RegionMapped(regions, index, covered);
          covered := if region.end < end then region.end else end;
        }
        index := index + 1;
      }
      if covered < end { GapAt(regions, index, covered); }
      all := covered >= end;
    }

    method Protect(address: uint32, length: uint64, prot: nat) returns (code: int)
      requires Canonical()
      modifies this`regions
      ensures Canonical()
      ensures code == 0 <==>
        RangeOk(address, length) && old(IsMapped(regions, address, address + RoundUp(length, page)))
      ensures code == 0 ==> Overwrites(old(regions), regions, address, address + RoundUp(length, page), Some(prot))
      ensures code != 0 ==> regions == old(regions)
      ensures code != 0 ==> code == if RangeOk(address, length) || length > TWO64 - page then ENOMEM else EINVAL
    {
      var end;
      code, end := RangeFor(address, length);
      if code != 0 { return; }
      RoundUpAligned(length, page);
      var all := Covered(address, end);
      if !all { return ENOMEM; }
      ghost var was := regions;
      SplitValid(was, address, page, lower, upper);
      CutAt(address);
      ghost var once := regions;
      SplitValid(once, end, page, lower, upper);
      SplitKeepsCuts(once, end, address);
      CutAt(end);
      ghost var twice := regions;
      SetProtection(address, end, prot);
      ghost var recoloured := regions;
      Coalesce();
      ProtectResult(was, once, twice, recoloured, address, end, prot);
      code := 0;
    }

    /** The loop that overwrites the protection of every region inside [address, end). */
    method SetProtection(address: uint32, end: uint64, prot: nat)
      requires Ordered(regions) && address < end
      modifies this`regions
      ensures regions == Recolour(old(regions), address, end, prot)
    {
      ghost var was := regions;
      var index := 0;
      while index < |regions|
        invariant 0 <= index <= |regions| == |was|
        invariant regions[..index] == Recolour(was, address, end, prot)[..index] && regions[index..] == was[index..]
      {
        var region := regions[index];
        assert region == was[index];
        if region.end > address {
          if region.start >= end { break; }
          regions := regions[index := region.(prot := prot)];
        }
        index := index + 1;
      }
      assert regions[index..] == Recolour(was, address, end, prot)[index..];
      assert regions == regions[..index] + regions[index..];
    }

    lemma ProtectResult(was: seq<Region>, once: seq<Region>, twice: seq<Region>, recoloured: seq<Region>, lo: int,
        hi: int, prot: nat)
      requires page > 0 && lo < hi && IsMapped(was, lo, hi)
      requires once == SplitAt(was, lo) && twice == SplitAt(once, hi) && recoloured == Recolour(twice, lo, hi, prot)
      requires Valid(twice, page, lower, upper) && NoneStraddles(twice, lo) && NoneStraddles(twice, hi)
      ensures Valid(Merge(recoloured), page, lower, upper) && Coalesced(Merge(recoloured))
      ensures Overwrites(was, Merge(recoloured), lo, hi, Some(prot))
    {
      hide Aligned, Merge;
      MergeCanonical(recoloured);
      MergeRegionsOk(recoloured, page, lower, upper);
      forall a ensures Look(Merge(recoloured), a) == if lo <= a < hi then Some(prot) else Look(was, a) {
        assert Look(Merge(recoloured), a) == Look(recoloured, a);
        RecolourLook(twice, lo, hi, prot, a);
        SplitLook(once, hi, a);
        SplitLook(was, lo, a);
      }
    }

    // ---- Queries ------------------------------------------------------------------------------

    method Find(address: uint32) returns (found: Option<Region>)
      requires Canonical()
      ensures found.None? <==> Look(regions, address) == None
      ensures found.Some? ==> found.value in regions && found.value.start <= address < found.value.end
      ensures found.Some? ==> Look(regions, address) == Some(found.value.prot)
    {
      var index := 0;
      while index < |regions|
        invariant 0 <= index <= |regions|
        invariant forall i :: 0 <= i < index ==> regions[i].end <= address
      {
        var region := regions[index];
        if address < region.start {
          LookNone(regions, address);
          return None;
        }
        if address < region.end {
          LookAt(regions, index, address);
          return Some(region);
        }
        index := index + 1;
      }
      LookNone(regions, address);
      found := None;
    }

    /** agr_guest_vma_validate decides validity of any array, reachable or not. */
    method Validate() returns (code: int)
      requires page > 0
      ensures code == 0 || code == EINVAL
      ensures code == 0 <==> IsPowerOfTwo(page) && lower < upper <= TWO32 && Valid(regions, page, lower, upper)
    {
      if !(0 < page < TWO32 && TWO32 % page == 0) || lower >= upper || upper > TWO32 { return EINVAL; }
      var previousEnd: int := lower;
      var index := 0;
      while index < |regions|
        invariant 0 <= index <= |regions|
        invariant Valid(regions[..index], page, lower, upper)
        invariant previousEnd == if index == 0 then lower else regions[index - 1].end
      {
        var region := regions[index];
        if region.start % page != 0 || region.end % page != 0 || region.start < previousEnd
           || region.start >= region.end || region.end > upper {
          assert !Valid(regions, page, lower, upper) by {
            assert region == regions[index];
            assert index > 0 ==> regions[index - 1].end == previousEnd;
          }
          return EINVAL;
        }
        assert regions[..index + 1] == regions[..index] + [region];
        previousEnd := region.end;
        index := index + 1;
      }
      assert regions[..index] == regions;
      code := 0;
    }
  }

  lemma ClearNext(was: seq<Region>, k: nat, lo: int, hi: int)
    requires Ordered(was) && k < |was|
    ensures was[k].start < was[k].end
    ensures Clear(was[..k + 1], lo, hi) == Clear(was[..k], lo, hi) + Clip(was[k], lo, hi)
  {
    assert was[..k + 1] == was[..k] + [was[k]];
    ClearAppend(was[..k], [was[k]], lo, hi);
  }

  lemma RestUntouched(was: seq<Region>, k: nat, lo: int, hi: int)
    requires Ordered(was) && k <= |was| && lo < hi
    requires k < |was| ==> k > 0 && hi <= was[k - 1].end
    ensures Clear(was, lo, hi) == Clear(was[..k], lo, hi) + was[k..]
  {
    hide Look, Clip, Clear;
    forall i | 0 <= i < |was[k..]| ensures was[k..][i].end <= lo || hi <= was[k..][i].start {
      assert was[k..][i] == was[k + i] && was[k - 1].end <= was[k + i].start;
    }
    ClearOutside(was[k..], lo, hi);
    ClearAppend(was[..k], was[k..], lo, hi);
    assert was[..k] + was[k..] == was;
  }

  lemma MergeStart(was: seq<Region>)
    ensures Merge([]) == []
    ensures was != [] ==> Merge(was[..1]) == [was[0]] && was == Merge(was[..1]) + was[1..]
  {
  }

  lemma MergeNext(was: seq<Region>, k: nat)
    requires k < |was|
    ensures Merge(was[..k + 1]) == MergeOnto(Merge(was[..k]), was[k])
  {
    assert was[..k + 1][..k] == was[..k];
  }

  lemma MergeOntoJoins(done: seq<Region>, r: Region)
    requires done != [] && Joins(done[|done| - 1], r)
    ensures MergeOnto(done, r) == done[..|done| - 1] + [done[|done| - 1].(end := r.end)]
  {
  }

  lemma MergeOntoApart(done: seq<Region>, r: Region)
    requires done != [] && !Joins(done[|done| - 1], r)
    ensures MergeOnto(done, r) == done + [r]
  {
  }

  lemma MergeOntoLength(done: seq<Region>, r: Region)
    requires done != []
    ensures |MergeOnto(done, r)| == if Joins(done[|done| - 1], r) then |done| else |done| + 1
  {
  }

  lemma GapAt(rs: seq<Region>, index: nat, a: int)
    requires Ordered(rs) && index <= |rs|
    requires (forall i :: 0 <= i < index ==> rs[i].end <= a) && (index < |rs| ==> a < rs[index].start)
    ensures Look(rs, a) == None
  {
    LookNone(rs, a);
  }

  lemma RegionMapped(rs: seq<Region>, index: nat, from: int)
    requires Ordered(rs) && index < |rs| && rs[index].start <= from
    ensures IsMapped(rs, from, rs[index].end)
  {
    forall a | from <= a < rs[index].end ensures Look(rs, a).Some? { LookAt(rs, index, a); }
  }

  lemma TopPageAligned(page: nat)
    requires IsPowerOfTwo(page)
    ensures Aligned(TWO64 - page, page)
  {
    var k := TWO32 / page;
    assert TWO64 - page == (k * TWO32 - 1) * page;
    MultipleMod(k * TWO32 - 1, page);
  }

  lemma NeighboursApart(was: seq<Region>, index: nat, region: Region)
    requires Ordered(was) && index <= |was| && region.start < region.end
    requires IsFree(was, region.start, region.end)
    requires forall i :: 0 <= i < index ==> was[i].start < region.start
    requires index < |was| ==> region.start <= was[index].start
    ensures Ordered(Insert(was, index, region))
  {
    forall i | 0 <= i < index ensures was[i].end <= region.start {
      if region.start < was[i].end { LookAt(was, i, region.start); }
    }
    forall i | index <= i < |was| ensures region.end <= was[i].start {
      assert region.start <= was[i].start;
      if was[i].start < region.end { LookAt(was, i, was[i].start); }
    }
  }

  lemma {:induction false} SplitNowhere(rs: seq<Region>, point: int)
    requires forall i :: 0 <= i < |rs| ==> rs[i].end <= point || point <= rs[i].start
    ensures SplitAt(rs, point) == rs
  {
    if rs != [] {
      SplitNowhere(rs[1..], point);
      assert rs == [rs[0]] + rs[1..];
    }
  }

  lemma {:induction false} SplitPrefix(rs: seq<Region>, index: nat, point: int)
    requires index < |rs| && rs[index].start < point < rs[index].end
    requires forall i :: 0 <= i < index ==> rs[i].end <= point
    ensures SplitAt(rs, point) == rs[..index] + [rs[index].(end := point), rs[index].(start := point)] + rs[index + 1..]
  {
    if index > 0 {
      SplitPrefix(rs[1..], index - 1, point);
      assert rs[..index] == [rs[0]] + rs[1..][..index - 1];
      assert rs[1..][index..] == rs[index + 1..];
    }
  }
}
