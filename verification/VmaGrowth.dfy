/**
 When the region array cannot grow (Runtime/Process/agr_guest_vma.c:20-54): cutting a hole into one region, or splitting
 it, shortens the region before it asks for room, and loses what lies beyond when there is none.
 */
module VmaGrowth {
  import opened Prelude
  import opened PageMap
  import opened PageMapOps
  import opened GuestVma

  const SIZE_MAX: int := TWO64 - 1

  /** The array behind a space. */
  class RegionArray {
    var items: seq<Region>
    var capacity: nat
    /** How often the array could not be made larger. */
    ghost var refused: nat

    predicate Valid()
      reads this
    {
      |items| <= capacity
    }

    constructor ()
      ensures Valid() && items == [] && capacity == 0
    {
      items, capacity, refused := [], 0, 0;
    }

    /** ensure_capacity: double until there is room; the allocation may fail. */
    method EnsureCapacity(required: nat) returns (code: int)
      modifies this`capacity, this`refused
      ensures code in {0, ENOMEM} && (code == 0 <==> refused == old(refused)) && refused >= old(refused)
      ensures code == 0 ==> required <= capacity && old(capacity) <= capacity
      ensures code != 0 ==> capacity == old(capacity) && old(capacity) < required
    {
      if required <= capacity { return 0; }
      var larger := if capacity != 0 then capacity else 8;
      while larger < required
        invariant larger > 0 && larger >= capacity
        decreases required - larger
      {
        if larger > SIZE_MAX / 2 {
          refused := refused + 1;
          return ENOMEM;
        }
        larger := larger * 2;
      }
      var grown := *;
      if !grown {
        refused := refused + 1;
        return ENOMEM;
      }
      capacity := larger;
      code := 0;
    }

    /** insert_region: it fails only if the array is full, and then changes nothing. */
    method InsertRegion(index: nat, region: Region) returns (code: int)
      requires Valid() && index <= |items|
      modifies this
      ensures Valid() && code in {0, ENOMEM} && (code == 0 <==> refused == old(refused)) && refused >= old(refused)
      ensures code == 0 ==> items == Insert(old(items), index, region)
      ensures code != 0 ==> items == old(items) && old(|items|) == old(capacity)
    {
      code := EnsureCapacity(|items| + 1);
      if code != 0 { return; }
      items := items[..index] + [region] + items[index..];
    }

    /** Cutting [lo, hi) out of the middle of region `k`, as unmap does, and split_at with `lo == hi`. */
    method CutMiddle(k: nat, lo: int, hi: int) returns (code: int)
      requires Valid() && k < |items|
      modifies this
      ensures Valid() && code in {0, ENOMEM} && (code == 0 <==> refused == old(refused))
      ensures code == 0 ==> items == WithHole(old(items), k, lo, hi)
      ensures code != 0 ==> items == Shortened(old(items), k, lo) && old(|items|) == old(capacity)
    {
      var current := items[k];
      items := items[k := current.(end := lo)];
      code := InsertRegion(k + 1, current.(start := hi));
    }
  }

  function WithHole(rs: seq<Region>, k: nat, lo: int, hi: int): (r: seq<Region>)
    requires k < |rs|
  {
    rs[..k] + [rs[k].(end := lo), rs[k].(start := hi)] + rs[k + 1..]
  }

  function Shortened(rs: seq<Region>, k: nat, lo: int): (r: seq<Region>)
    requires k < |rs|
  {
    rs[k := rs[k].(end := lo)]
  }

  /** Region `k` reaches beyond both ends of [lo, hi). */
  predicate Straddles(rs: seq<Region>, k: nat, lo: int, hi: int) {
    k < |rs| && rs[k].start < lo && hi < rs[k].end
  }

  // ---- When room is needed -----------------------------------------------------------------------

  /** Unmapping inside one region makes a hole in it and leaves the others alone. */
  lemma ClearIsHole(rs: seq<Region>, k: nat, lo: int, hi: int)
    requires Ordered(rs) && lo < hi && Straddles(rs, k, lo, hi)
    ensures Clear(rs, lo, hi) == WithHole(rs, k, lo, hi)
  {
    ClearOutside(rs[..k], lo, hi);
    ClearNext(rs, k, lo, hi);
    RestUntouched(rs, k + 1, lo, hi);
  }

  lemma {:induction false} NoHoleNoGrowth(rs: seq<Region>, lo: int, hi: int)
    requires lo < hi && forall k: nat :: !Straddles(rs, k, lo, hi)
    ensures |Clear(rs, lo, hi)| <= |rs|
  {
    if rs != [] {
      assert !Straddles(rs, 0, lo, hi);
      forall k: nat ensures !Straddles(rs[1..], k, lo, hi) { assert !Straddles(rs, k + 1, lo, hi); }
      NoHoleNoGrowth(rs[1..], lo, hi);
    }
  }

  /** Unmapping needs one more region exactly if the range lies strictly inside one, and otherwise none. */
  lemma UnmapGrowsIff(rs: seq<Region>, lo: int, hi: int)
    requires Ordered(rs) && lo < hi
    ensures |Clear(rs, lo, hi)| > |rs| <==> exists k: nat :: Straddles(rs, k, lo, hi)
    ensures |Clear(rs, lo, hi)| <= |rs| + 1
  {
    if k: nat :| Straddles(rs, k, lo, hi) {
      ClearIsHole(rs, k, lo, hi);
    } else {
      NoHoleNoGrowth(rs, lo, hi);
    }
  }

  /** Splitting needs one more exactly if the point lies strictly inside a region. */
  lemma SplitGrowsIff(rs: seq<Region>, point: int)
    requires Ordered(rs)
    ensures |SplitAt(rs, point)| > |rs| <==> exists k: nat :: Straddles(rs, k, point, point)
    ensures forall k: nat :: Straddles(rs, k, point, point) ==> SplitAt(rs, point) == WithHole(rs, k, point, point)
  {
    forall k: nat | Straddles(rs, k, point, point) ensures SplitAt(rs, point) == WithHole(rs, k, point, point) {
      SplitPrefix(rs, k, point);
    }
    if forall k: nat :: !Straddles(rs, k, point, point) {
      forall i | 0 <= i < |rs| ensures rs[i].end <= point || point <= rs[i].start {
        assert !Straddles(rs, i, point, point);
      }
      SplitNowhere(rs, point);
    }
  }

  // ---- What is lost without it ---------------------------------------------------------------------

  /** The list stays as it should be, but everything of the region from `lo` on is unmapped. */
  lemma TailIsLost(rs: seq<Region>, k: nat, lo: int, hi: int)
    requires Ordered(rs) && lo <= hi && Straddles(rs, k, lo, hi)
    ensures Ordered(Shortened(rs, k, lo)) && (Coalesced(rs) ==> Coalesced(Shortened(rs, k, lo)))
    ensures Overwrites(rs, Shortened(rs, k, lo), lo, rs[k].end, None)
  {
    var now := Shortened(rs, k, lo);
    if Coalesced(rs) {
      forall i | 0 <= i < |now| - 1 ensures !Joins(now[i], now[i + 1]) { assert !Joins(rs[i], rs[i + 1]); }
    }
    forall a ensures Look(now, a) == if lo <= a < rs[k].end then None else Look(rs, a) {
      ShortenedLook(rs, k, lo, a);
    }
  }

  lemma ShortenedLook(rs: seq<Region>, k: nat, lo: int, a: int)
    requires Ordered(rs) && k < |rs| && rs[k].start < lo < rs[k].end
    ensures Look(Shortened(rs, k, lo), a) == if lo <= a < rs[k].end then None else Look(rs, a)
  {
    var now := Shortened(rs, k, lo);
    if i :| 0 <= i < |now| && now[i].start <= a < now[i].end {
      LookAt(now, i, a);
      LookAt(rs, i, a);
    } else {
      LookNone(now, a);
      if !(lo <= a < rs[k].end) {
        forall i | 0 <= i < |rs| ensures a < rs[i].start || rs[i].end <= a {
          assert a < now[i].start || now[i].end <= a;
        }
        LookNone(rs, a);
      }
    }
  }

  /** So an unmap that reports ENOMEM has unmapped its range, and the rest of the region beyond it as well. */
  lemma FailedUnmapLoses(rs: seq<Region>, k: nat, lo: int, hi: int, a: int)
    requires Ordered(rs) && lo < hi && Straddles(rs, k, lo, hi)
    ensures Look(Shortened(rs, k, lo), a) == Look(Clear(rs, lo, hi), a) <==> !(hi <= a < rs[k].end)
  {
    ShortenedLook(rs, k, lo, a);
    ClearLook(rs, lo, hi, a);
    if hi <= a < rs[k].end { LookAt(rs, k, a); }
  }
}
