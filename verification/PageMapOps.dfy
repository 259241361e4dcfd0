/** The region-list transformations behind map, unmap and protect, and what they do to the page map. */
module PageMapOps {
  import opened Prelude
  import opened PageMap

  // ---- Clearing a range ---------------------------------------------------------------------

  /** What is left of `r` outside [lo, hi). */
  function Clip(r: Region, lo: int, hi: int): (res: seq<Region>) {
    if r.end <= lo || hi <= r.start then [r]
    else (if r.start < lo then [r.(end := lo)] else []) + (if hi < r.end then [r.(start := hi)] else [])
  }

  function Clear(rs: seq<Region>, lo: int, hi: int): (r: seq<Region>) {
    if rs == [] then [] else Clip(rs[0], lo, hi) + Clear(rs[1..], lo, hi)
  }

  lemma {:induction false} ClearAppend(xs: seq<Region>, ys: seq<Region>, lo: int, hi: int)
    ensures Clear(xs + ys, lo, hi) == Clear(xs, lo, hi) + Clear(ys, lo, hi)
  {
    if xs == [] {
      assert xs + ys == ys;
    } else {
      assert (xs + ys)[1..] == xs[1..] + ys;
      ClearAppend(xs[1..], ys, lo, hi);
    }
  }

  lemma {:induction false} ClearLook(rs: seq<Region>, lo: int, hi: int, a: int)
    requires Ordered(rs) && lo < hi
    ensures Look(Clear(rs, lo, hi), a) == if lo <= a < hi then None else Look(rs, a)
  {
    if rs != [] {
      var clip := Clip(rs[0], lo, hi);
      LookAppend(clip, Clear(rs[1..], lo, hi), a);
      ClearLook(rs[1..], lo, hi, a);
      if |clip| == 2 { assert clip[1..] == [clip[1]]; }
      if rs[0].start <= a < rs[0].end { LookNone(rs[1..], a); }
    }
  }

  lemma {:induction false} ClearOutside(rs: seq<Region>, lo: int, hi: int)
    requires forall i :: 0 <= i < |rs| ==> rs[i].end <= lo || hi <= rs[i].start
    ensures Clear(rs, lo, hi) == rs
  {
    if rs != [] {
      ClearOutside(rs[1..], lo, hi);
      assert rs == [rs[0]] + rs[1..];
    }
  }

  lemma {:induction false} ClearRegionsOk(rs: seq<Region>, lo: int, hi: int, page: int, lower: int, upper: int)
    requires page > 0 && lo < hi && Aligned(lo, page) && Aligned(hi, page)
    requires forall i :: 0 <= i < |rs| ==> RegionOk(rs[i], page, lower, upper)
    ensures forall i :: 0 <= i < |Clear(rs, lo, hi)| ==> RegionOk(Clear(rs, lo, hi)[i], page, lower, upper)
  {
    hide Aligned;
    if rs != [] {
      ClearRegionsOk(rs[1..], lo, hi, page, lower, upper);
    }
  }

  lemma {:induction false} ClearCoalesced(rs: seq<Region>, lo: int, hi: int)
    requires Ordered(rs) && Coalesced(rs) && lo < hi
    ensures Ordered(Clear(rs, lo, hi)) && Coalesced(Clear(rs, lo, hi))
  {
    ClearOrdered(rs, lo, hi);
    if rs != [] {
      TailCanonical(rs);
      ClearCoalesced(rs[1..], lo, hi);
      ClipApart(rs, lo, hi);
      ClipCoalesced(rs[0], lo, hi);
      assert Clear(rs, lo, hi) == Clip(rs[0], lo, hi) + Clear(rs[1..], lo, hi);
      hide Clear, Clip, Ordered, Coalesced, Joins;
      CoalescedAppend(Clip(rs[0], lo, hi), Clear(rs[1..], lo, hi));
    }
  }

  lemma ClipCoalesced(r: Region, lo: int, hi: int)
    requires r.start < r.end && lo < hi
    ensures Coalesced(Clip(r, lo, hi))
  {
  }

  lemma CoalescedAppend(xs: seq<Region>, ys: seq<Region>)
    requires Coalesced(xs) && Coalesced(ys)
    requires xs != [] && ys != [] ==> !Joins(xs[|xs| - 1], ys[0])
    ensures Coalesced(xs + ys)
  {
    forall i | 0 <= i < |xs + ys| - 1 ensures !Joins((xs + ys)[i], (xs + ys)[i + 1]) {
      if i + 1 < |xs| {
        assert !Joins(xs[i], xs[i + 1]);
      } else if i >= |xs| {
        assert !Joins(ys[i - |xs|], ys[i - |xs| + 1]);
      }
    }
  }

  /** What is left of the first region does not join what is left of the others. */
  lemma ClipApart(rs: seq<Region>, lo: int, hi: int)
    requires rs != [] && Ordered(rs) && Coalesced(rs) && lo < hi
    ensures var clip, rest := Clip(rs[0], lo, hi), Clear(rs[1..], lo, hi);
      clip != [] && rest != [] ==> !Joins(clip[|clip| - 1], rest[0])
  {
    if |rs| == 1 { return; }
    var rest := Clear(rs[1..], lo, hi);
    assert !Joins(rs[0], rs[0 + 1]);
    ClearOrdered(rs[1..], lo, hi);
    if rest != [] {
      LookAt(rest, 0, rest[0].start);
      ClearLook(rs[1..], lo, hi, rest[0].start);
      LookAt(rs[1..], 0, rs[1].start);
    }
  }

  lemma {:induction false} ClearOrdered(rs: seq<Region>, lo: int, hi: int)
    requires Ordered(rs) && lo < hi
    ensures Ordered(Clear(rs, lo, hi))
    ensures rs != [] ==> forall i :: 0 <= i < |Clear(rs, lo, hi)| ==> rs[0].start <= Clear(rs, lo, hi)[i].start
  {
    if rs != [] {
      var clip, rest := Clip(rs[0], lo, hi), Clear(rs[1..], lo, hi);
      ClearOrdered(rs[1..], lo, hi);
      assert |rs| > 1 ==> rs[0].end <= rs[1..][0].start;
      ClipOrdered(rs[0], lo, hi);
      assert Clear(rs, lo, hi) == clip + rest;
      hide Clear, Clip;
      OrderedConcat(clip, rest, rs[0].end);
    }
  }

  lemma ClipOrdered(r: Region, lo: int, hi: int)
    requires r.start < r.end && lo < hi
    ensures Ordered(Clip(r, lo, hi))
    ensures forall i :: 0 <= i < |Clip(r, lo, hi)| ==>
      r.start <= Clip(r, lo, hi)[i].start && Clip(r, lo, hi)[i].end <= r.end
  {
  }

  lemma OrderedConcat(xs: seq<Region>, ys: seq<Region>, cut: int)
    requires Ordered(xs) && Ordered(ys)
    requires forall i :: 0 <= i < |xs| ==> xs[i].end <= cut
    requires forall i :: 0 <= i < |ys| ==> cut <= ys[i].start
    ensures Ordered(xs + ys)
  {
  }

  // ---- Merging neighbours -------------------------------------------------------------------

  /** Append `r`, extending the last region instead if the two join. */
  function MergeOnto(done: seq<Region>, r: Region): (res: seq<Region>) {
    if done != [] && Joins(done[|done| - 1], r) then done[..|done| - 1] + [done[|done| - 1].(end := r.end)]
      else done + [r]
  }

  function Merge(rs: seq<Region>): (r: seq<Region>) {
    if rs == [] then [] else MergeOnto(Merge(rs[..|rs| - 1]), rs[|rs| - 1])
  }

  lemma {:induction false} MergeCanonical(rs: seq<Region>)
    requires Ordered(rs)
    ensures Ordered(Merge(rs)) && Coalesced(Merge(rs))
    ensures rs != [] ==> Merge(rs) != [] && Merge(rs)[|Merge(rs)| - 1].end == rs[|rs| - 1].end
    ensures forall a :: Look(Merge(rs), a) == Look(rs, a)
  {
    if rs != [] {
      MergeCanonical(rs[..|rs| - 1]);
      MergeStep(rs, Merge(rs[..|rs| - 1]));
    }
  }

  lemma MergeStep(rs: seq<Region>, done: seq<Region>)
    requires Ordered(rs) && rs != [] && Ordered(done) && Coalesced(done)
    requires |rs| > 1 ==> done != [] && done[|done| - 1].end == rs[|rs| - 2].end
    requires |rs| == 1 ==> done == []
    requires forall a :: Look(done, a) == Look(rs[..|rs| - 1], a)
    ensures var m := MergeOnto(done, rs[|rs| - 1]);
      && Ordered(m) && Coalesced(m) && m != [] && m[|m| - 1].end == rs[|rs| - 1].end
      && forall a :: Look(m, a) == Look(rs, a)
  {
    var n := |rs| - 1;
    assert rs[n].start < rs[n].end && (n > 0 ==> rs[n - 1].end <= rs[n].start);
    hide Ordered, Coalesced, Look, MergeOnto;
    MergeOntoCanonical(done, rs[n]);
    assert rs[..n] + [rs[n]] == rs;
    forall a ensures Look(MergeOnto(done, rs[n]), a) == Look(rs, a) {
      LookAppend(rs[..n], [rs[n]], a);
      assert Look(done, a) == Look(rs[..n], a);
    }
  }

  lemma MergeOntoCanonical(done: seq<Region>, r: Region)
    requires Ordered(done) && Coalesced(done) && r.start < r.end
    requires done != [] ==> done[|done| - 1].end <= r.start
    ensures var m := MergeOnto(done, r);
      && Ordered(m) && Coalesced(m) && m != [] && m[|m| - 1].end == r.end
      && forall a :: Look(m, a) == if Look(done, a).Some? then Look(done, a) else Look([r], a)
  {
    var m := MergeOnto(done, r);
    forall i | 0 <= i < |m| - 1 ensures !Joins(m[i], m[i + 1]) {
      if i + 1 < |done| { assert !Joins(done[i], done[i + 1]); }
    }
    forall a ensures Look(m, a) == if Look(done, a).Some? then Look(done, a) else Look([r], a) {
      MergeOntoLook(done, r, a);
    }
  }

  lemma MergeOntoLook(done: seq<Region>, r: Region, a: int)
    requires r.start < r.end && (done != [] ==> done[|done| - 1].start < done[|done| - 1].end <= r.start)
    ensures Look(MergeOnto(done, r), a) == if Look(done, a).Some? then Look(done, a) else Look([r], a)
  {
    if |MergeOnto(done, r)| == |done| {
      var n := |done| - 1;
      LookAppend(done[..n], [done[n]], a);
      LookAppend(done[..n], [done[n].(end := r.end)], a);
      assert done[..n] + [done[n]] == done;
    } else {
      LookAppend(done, [r], a);
    }
  }

  lemma {:induction false} MergeRegionsOk(rs: seq<Region>, page: int, lower: int, upper: int)
    requires page > 0 && forall i :: 0 <= i < |rs| ==> RegionOk(rs[i], page, lower, upper)
    ensures forall i :: 0 <= i < |Merge(rs)| ==> RegionOk(Merge(rs)[i], page, lower, upper)
  {
    hide Aligned;
    if rs != [] {
      MergeRegionsOk(rs[..|rs| - 1], page, lower, upper);
    }
  }

  // ---- Inserting, splitting, recolouring ----------------------------------------------------

  function Insert(rs: seq<Region>, i: nat, r: Region): (res: seq<Region>)
    requires i <= |rs|
  {
    rs[..i] + [r] + rs[i..]
  }

  lemma InsertLook(rs: seq<Region>, i: nat, r: Region, a: int)
    requires i <= |rs|
    requires r.start <= a < r.end ==> Look(rs, a) == None
    ensures Look(Insert(rs, i, r), a) == if r.start <= a < r.end then Some(r.prot) else Look(rs, a)
  {
    LookAppend(rs[..i] + [r], rs[i..], a);
    LookAppend(rs[..i], [r], a);
    LookAppend(rs[..i], rs[i..], a);
    assert rs[..i] + rs[i..] == rs;
  }

  /** Cut the region that strictly contains `point`. */
  function SplitAt(rs: seq<Region>, point: int): (r: seq<Region>) {
    if rs == [] then []
    else if rs[0].start < point < rs[0].end then [rs[0].(end := point), rs[0].(start := point)] + rs[1..]
    else [rs[0]] + SplitAt(rs[1..], point)
  }

  lemma {:induction false} SplitLook(rs: seq<Region>, point: int, a: int)
    ensures Look(SplitAt(rs, point), a) == Look(rs, a)
  {
    if rs != [] {
      if rs[0].start < point < rs[0].end {
        var cut := [rs[0].(end := point), rs[0].(start := point)];
        LookAppend(cut, rs[1..], a);
        assert cut[1..] == [rs[0].(start := point)];
      } else {
        LookAppend([rs[0]], SplitAt(rs[1..], point), a);
        SplitLook(rs[1..], point, a);
      }
    }
  }

  lemma {:induction false} SplitValid(rs: seq<Region>, point: int, page: int, lower: int, upper: int)
    requires page > 0 && Valid(rs, page, lower, upper) && Aligned(point, page)
    ensures var ps := SplitAt(rs, point);
      && Valid(ps, page, lower, upper) && NoneStraddles(ps, point)
      && (rs != [] ==> ps != [] && ps[0].start == rs[0].start)
  {
    hide Aligned;
    if rs == [] {
    } else if rs[0].start < point < rs[0].end {
      assert RegionOk(rs[0], page, lower, upper);
      SplitFirst(rs, point);
    } else {
      assert Valid(rs[1..], page, lower, upper) && RegionOk(rs[0], page, lower, upper);
      assert |rs| > 1 ==> rs[0].end <= rs[1..][0].start;
      SplitValid(rs[1..], point, page, lower, upper);
      assert SplitAt(rs, point) == [rs[0]] + SplitAt(rs[1..], point);
      hide SplitAt, RegionOk;
      ConsValid(rs[0], SplitAt(rs[1..], point), point, page, lower, upper);
    }
  }

  lemma ConsValid(r: Region, rest: seq<Region>, point: int, page: int, lower: int, upper: int)
    requires page > 0 && RegionOk(r, page, lower, upper) && r.start < r.end && Valid(rest, page, lower, upper)
    requires rest != [] ==> r.end <= rest[0].start
    requires NoneStraddles(rest, point) && (r.end <= point || point <= r.start)
    ensures Valid([r] + rest, page, lower, upper) && NoneStraddles([r] + rest, point)
  {
    hide RegionOk;
  }

  lemma SplitFirst(rs: seq<Region>, point: int)
    requires Ordered(rs) && rs != [] && rs[0].start < point < rs[0].end
    ensures Ordered(SplitAt(rs, point)) && NoneStraddles(SplitAt(rs, point), point)
  {
  }

  ghost predicate NoneStraddles(rs: seq<Region>, point: int) {
    forall i :: 0 <= i < |rs| ==> rs[i].end <= point || point <= rs[i].start
  }

  lemma {:induction false} SplitKeepsCuts(rs: seq<Region>, point: int, cut: int)
    requires NoneStraddles(rs, cut)
    ensures NoneStraddles(SplitAt(rs, point), cut)
  {
    if rs != [] && !(rs[0].start < point < rs[0].end) {
      SplitKeepsCuts(rs[1..], point, cut);
    }
  }

  /** Give every region that meets [lo, hi) the protection `prot`. */
  function Recolour(rs: seq<Region>, lo: int, hi: int, prot: nat): (r: seq<Region>) {
    seq(|rs|, i requires 0 <= i < |rs| => if rs[i].end <= lo || hi <= rs[i].start then rs[i] else rs[i].(prot := prot))
  }

  lemma {:induction false} RecolourLook(rs: seq<Region>, lo: int, hi: int, prot: nat, a: int)
    requires Ordered(rs)
    requires forall i :: 0 <= i < |rs| ==> rs[i].end <= lo || hi <= rs[i].start || lo <= rs[i].start < rs[i].end <= hi
    ensures Look(Recolour(rs, lo, hi, prot), a) == if lo <= a < hi && Look(rs, a).Some? then Some(prot) else Look(rs, a)
  {
    if rs != [] {
      assert Recolour(rs, lo, hi, prot)[1..] == Recolour(rs[1..], lo, hi, prot);
      RecolourLook(rs[1..], lo, hi, prot, a);
    }
  }
}
