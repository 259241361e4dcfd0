/**
 Region lists and the map from addresses to protections that they stand for
 (the data of Runtime/Process/agr_guest_vma.c, without its operations).
 */
module PageMap {
  import opened Prelude

  /** [start, end) with one protection. `end` is 64-bit in the source, so 2^32 is representable. */
  datatype Region = Region(start: int, end: int, prot: nat)

  /** The protection of address `a`, if mapped. */
  function Look(rs: seq<Region>, a: int): (r: Option<nat>) {
    if rs == [] then None
    else if rs[0].start <= a < rs[0].end then Some(rs[0].prot)
    else Look(rs[1..], a)
  }

  // ---- Alignment ----------------------------------------------------------------------------

  predicate Aligned(x: int, page: int)
    requires page > 0
  {
    x % page == 0
  }

  /** `(x + page - 1) & ~(page - 1)`. */
  function RoundUp(x: int, page: int): (r: int)
    requires page > 0
  {
    x + (page - 1) - (x + (page - 1)) % page
  }

  lemma MultipleMod(k: int, p: int)
    requires p > 0
    ensures (k * p) % p == 0
  {
    var q, r := (k * p) / p, (k * p) % p;
    assert k * p == q * p + r;
    assert (k - q) * p == r;
    assert k - q >= 1 ==> (k - q) * p >= p;
    assert k - q <= -1 ==> (k - q) * p <= -p;
  }

  lemma RoundUpAligned(x: int, page: int)
    requires page > 0
    ensures Aligned(RoundUp(x, page), page) && x <= RoundUp(x, page) < x + page
  {
    var n := x + (page - 1);
    assert n - n % page == (n / page) * page;
    MultipleMod(n / page, page);
  }

  lemma AlignedQuotient(x: int, page: int)
    requires page > 0 && Aligned(x, page)
    ensures x == (x / page) * page
  {
  }

  lemma AlignedSum(x: int, y: int, page: int)
    requires page > 0 && Aligned(x, page) && Aligned(y, page)
    ensures Aligned(x + y, page) && Aligned(x - y, page)
  {
    AlignedQuotient(x, page);
    AlignedQuotient(y, page);
    assert x + y == (x / page + y / page) * page;
    assert x - y == (x / page - y / page) * page;
    MultipleMod(x / page + y / page, page);
    MultipleMod(x / page - y / page, page);
  }

  /** RoundUp is the least aligned value that is not smaller. */
  lemma RoundUpLeast(x: int, y: int, page: int)
    requires page > 0 && Aligned(y, page) && x <= y
    ensures RoundUp(x, page) <= y
  {
    RoundUpAligned(x, page);
    var d := RoundUp(x, page) - y;
    if d > 0 { SmallMod(d, page); }
    AlignedSum(RoundUp(x, page), y, page);
  }

  lemma SmallMod(d: int, page: int)
    requires 0 <= d < page
    ensures d % page == d
  {
  }

  // ---- Well-formed lists --------------------------------------------------------------------

  predicate RegionOk(r: Region, page: int, lower: int, upper: int)
    requires page > 0
  {
    Aligned(r.start, page) && Aligned(r.end, page) && lower <= r.start < r.end <= upper
  }

  /** What agr_guest_vma_validate accepts: aligned, nonempty, in bounds, ascending and disjoint. */
  ghost predicate Valid(rs: seq<Region>, page: int, lower: int, upper: int)
    requires page > 0
  {
    Ordered(rs) && forall i :: 0 <= i < |rs| ==> RegionOk(rs[i], page, lower, upper)
  }

  /** No two neighbours could be one region. */
  ghost predicate Coalesced(rs: seq<Region>) {
    forall i :: 0 <= i < |rs| - 1 ==> !Joins(rs[i], rs[i + 1])
  }

  predicate Joins(left: Region, right: Region) {
    left.end == right.start && left.prot == right.prot
  }

  /** Ascending and disjoint, alignment aside. */
  ghost predicate Ordered(rs: seq<Region>) {
    && (forall i :: 0 <= i < |rs| ==> rs[i].start < rs[i].end)
    && (forall i, j :: 0 <= i < j < |rs| ==> rs[i].end <= rs[j].start)
  }

  lemma {:induction false} LookAt(rs: seq<Region>, i: nat, a: int)
    requires Ordered(rs) && i < |rs| && rs[i].start <= a < rs[i].end
    ensures Look(rs, a) == Some(rs[i].prot)
  {
    if i > 0 {
      assert rs[0].end <= rs[i].start;
      LookAt(rs[1..], i - 1, a);
    }
  }

  /** An address is mapped iff some region contains it. */
  lemma {:induction false} LookWitness(rs: seq<Region>, a: int) returns (i: nat)
    requires Look(rs, a).Some?
    ensures i < |rs| && rs[i].start <= a < rs[i].end && Look(rs, a) == Some(rs[i].prot)
  {
    if rs[0].start <= a < rs[0].end {
      i := 0;
    } else {
      var k := LookWitness(rs[1..], a);
      i := k + 1;
    }
  }

  lemma {:induction false} LookAppend(xs: seq<Region>, ys: seq<Region>, a: int)
    ensures Look(xs + ys, a) == if Look(xs, a).Some? then Look(xs, a) else Look(ys, a)
  {
    if xs == [] {
      assert xs + ys == ys;
    } else {
      assert (xs + ys)[1..] == xs[1..] + ys;
      LookAppend(xs[1..], ys, a);
    }
  }

  lemma {:induction false} LookNone(rs: seq<Region>, a: int)
    requires forall i :: 0 <= i < |rs| ==> a < rs[i].start || rs[i].end <= a
    ensures Look(rs, a) == None
  {
    if rs != [] { LookNone(rs[1..], a); }
  }

  /** Two ordered, coalesced lists that map every address alike are the same list. */
  lemma {:induction false} CanonicalUnique(xs: seq<Region>, ys: seq<Region>)
    requires Ordered(xs) && Coalesced(xs) && Ordered(ys) && Coalesced(ys)
    requires forall a :: Look(xs, a) == Look(ys, a)
    ensures xs == ys
  {
    if xs == [] || ys == [] {
      if xs != [] { LookAt(xs, 0, xs[0].start); }
      if ys != [] { LookAt(ys, 0, ys[0].start); }
    } else {
      FirstStartsNoEarlier(xs, ys);
      FirstStartsNoEarlier(ys, xs);
      FirstEndsNoLater(xs, ys);
      FirstEndsNoLater(ys, xs);
      forall a ensures Look(xs[1..], a) == Look(ys[1..], a) {
        if xs[0].start <= a < xs[0].end {
          LookNone(xs[1..], a);
          LookNone(ys[1..], a);
        } else {
          assert Look(xs, a) == Look(ys, a);
        }
      }
      TailCanonical(xs);
      TailCanonical(ys);
      CanonicalUnique(xs[1..], ys[1..]);
      assert xs == [xs[0]] + xs[1..] && ys == [ys[0]] + ys[1..];
    }
  }

  lemma TailCanonical(xs: seq<Region>)
    requires xs != [] && Ordered(xs) && Coalesced(xs)
    ensures Ordered(xs[1..]) && Coalesced(xs[1..])
  {
    forall i | 0 <= i < |xs[1..]| - 1 ensures !Joins(xs[1..][i], xs[1..][i + 1]) {
      assert !Joins(xs[i + 1], xs[i + 1 + 1]);
    }
  }

  lemma FirstStartsNoEarlier(xs: seq<Region>, ys: seq<Region>)
    requires xs != [] && ys != [] && Ordered(xs) && Ordered(ys)
    requires forall a :: Look(xs, a) == Look(ys, a)
    ensures ys[0].start <= xs[0].start
  {
    LookAt(xs, 0, xs[0].start);
    var i := LookWitness(ys, xs[0].start);
  }

  lemma FirstEndsNoLater(xs: seq<Region>, ys: seq<Region>)
    requires xs != [] && ys != [] && Ordered(xs) && Ordered(ys) && Coalesced(ys)
    requires xs[0].start == ys[0].start
    requires forall a :: Look(xs, a) == Look(ys, a)
    ensures xs[0].prot == ys[0].prot && xs[0].end <= ys[0].end
  {
    LookAt(xs, 0, xs[0].start);
    LookAt(ys, 0, ys[0].start);
    if |ys| > 1 { assert !Joins(ys[0], ys[0 + 1]); }
    if ys[0].end < xs[0].end {
      LookAt(xs, 0, ys[0].end);
      var i := LookWitness(ys, ys[0].end);
    }
  }
}
