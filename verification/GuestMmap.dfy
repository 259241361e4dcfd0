/**
 mmap, mprotect and munmap over the region list, guest memory and the published page table
 (Runtime/Bionic/agr_bionic_mmap.cpp).
 */
module GuestMmap {
  import opened Prelude
  import opened PageMap
  import GuestVma
  import opened PageTable

  type byte = bv8

  const PROT_READ := 1
  const PROT_WRITE := 2
  const PROT_EXEC := 4

  /** The mmap flag word; `unknown` stands for any bit outside the known ones. */
  datatype MapFlags = MapFlags(shared: bool, private_: bool, fixed: bool, anonymous: bool, unknown: bool)

  const ANONYMOUS_FIXED := MapFlags(false, true, true, true, false)

  function RoundPage(length: int): (r: int) { (length + 4095) / 4096 * 4096 }

  lemma RoundPageIsRoundUp(length: int)
    ensures RoundUp(length, PAGE) == RoundPage(length)
  {
  }

  /** The request checks that come before anything is touched. */
  predicate RequestOk(address: uint32, length: uint32, prot: nat, flags: MapFlags) {
    && length != 0 && prot <= 7 && !flags.unknown && flags.shared != flags.private_
    && (flags.fixed ==> address % PAGE == 0)
  }

  /** The file part of a request: `file` is what file_view returns for the descriptor, if anything. */
  predicate FileOk(length: uint32, flags: MapFlags, file: Option<seq<byte>>, pageOffset: uint32) {
    flags.anonymous || (file.Some? && pageOffset * PAGE + length <= |file.value|)
  }

  function Zeros(n: nat): (z: seq<byte>)
    ensures |z| == n && forall i :: 0 <= i < n ==> z[i] == 0
  {
    seq(n, _ => 0)
  }

  /** What a successful mapping writes at its start. */
  function Contents(length: uint32, flags: MapFlags, file: Option<seq<byte>>, pageOffset: uint32): (r: seq<byte>)
    requires FileOk(length, flags, file, pageOffset)
  {
    if flags.anonymous then Zeros(length) else file.value[pageOffset * PAGE..pageOffset * PAGE + length]
  }

  class Context {
    const vma: GuestVma.Space
    const table: Table
    var memory: seq<byte>
    /** The pages any call has ever mapped, protected or unmapped. */
    ghost var touched: set<int>
    /** How often the guest-write callback has failed so far. */
    ghost var faults: nat

    ghost predicate Valid()
      reads this, vma, table.permissions
    {
      && vma.Canonical() && vma.page == PAGE && vma.lower >= PAGE && table.Valid() && |memory| == TWO32
      && Mirrors(vma.regions, table.permissions[..], touched)
    }

    constructor (vma: GuestVma.Space, table: Table)
      requires vma.Canonical() && vma.page == PAGE && vma.lower >= PAGE && vma.regions == []
      requires table.Valid() && forall p :: 0 <= p < PAGES ==> table.permissions[p] == ALL_ACCESS
      ensures Valid() && this.vma == vma && this.table == table
    {
      this.vma, this.table := vma, table;
      memory := Zeros(TWO32);
      touched := {};
      faults := 0;
    }

    /** The guest-write callback may fail part way; it never writes outside its range. */
    method WriteGuest(address: int, data: seq<byte>) returns (ok: bool)
      requires |memory| == TWO32 && 0 <= address && address + |data| <= TWO32
      modifies this`memory, this`faults
      ensures |memory| == TWO32 && faults == old(faults) + if ok then 0 else 1
      ensures forall a :: 0 <= a < TWO32 && !(address <= a < address + |data|) ==> memory[a] == old(memory[a])
      ensures ok ==> memory[address..address + |data|] == data
    {
      ok := *;
      if ok {
        memory := memory[..address] + data + memory[address + |data|..];
      } else {
        faults := faults + 1;
      }
    }

    /** write_zero: page-sized chunks. */
    method WriteZero(address: int, length: int) returns (ok: bool)
      requires |memory| == TWO32 && 0 <= address && 0 <= length && address + length <= TWO32
      modifies this`memory, this`faults
      ensures |memory| == TWO32 && faults >= old(faults) && (ok <==> faults == old(faults))
      ensures forall a :: 0 <= a < TWO32 && !(address <= a < address + length) ==> memory[a] == old(memory[a])
      ensures ok ==> memory[address..address + length] == Zeros(length)
    {
      var at, left := address, length;
      while left != 0
        invariant 0 <= left && at + left == address + length && address <= at
        invariant |memory| == TWO32 && faults == old(faults)
        invariant forall a :: 0 <= a < TWO32 && !(address <= a < at) ==> memory[a] == old(memory[a])
        invariant forall a :: address <= a < at ==> memory[a] == 0
      {
        var amount := if left > PAGE then PAGE else left;
        ghost var before := memory;
        ok := WriteGuest(at, Zeros(amount));
        if !ok { return; }
        forall a | address <= a < at + amount ensures memory[a] == 0 {
          assert a >= at ==> memory[a] == memory[at..at + amount][a - at];
        }
        at, left := at + amount, left - amount;
      }
      ok := true;
    }

    /** The new mapping's contents: zeros, or the file's bytes. */
    method Fill(address: uint32, length: uint32, flags: MapFlags, file: Option<seq<byte>>, pageOffset: uint32)
        returns (ok: bool)
      requires |memory| == TWO32 && address + length <= TWO32 && FileOk(length, flags, file, pageOffset)
      modifies this`memory, this`faults
      ensures |memory| == TWO32 && faults >= old(faults) && (ok <==> faults == old(faults))
      ensures forall a :: 0 <= a < TWO32 && !(address <= a < address + length) ==> memory[a] == old(memory[a])
      ensures ok ==> memory[address..address + length] == Contents(length, flags, file, pageOffset)
      ensures ok ==> forall a :: address <= a < address + length ==>
        memory[a] == if flags.anonymous then 0 else file.value[pageOffset * PAGE + (a - address)]
    {
      if flags.anonymous {
        ok := WriteZero(address, length);
      } else {
        ok := WriteGuest(address, file.value[pageOffset * PAGE..pageOffset * PAGE + length]);
      }
      assert ok ==> forall a :: address <= a < address + length ==>
        memory[a] == memory[address..address + length][a - address];
    }

    /** publish_protection for a range inside the address space. It records the pages as touched. */
    method Publish(address: uint32, length: uint32, prot: nat) returns (ok: bool)
      requires table.Valid() && InPages(address, length) && prot <= 7
      modifies table.permissions, this`touched
      ensures ok && touched == old(touched) + PagesOf(address, length)
      ensures Painted(old(table.permissions[..]), table.permissions[..], address, length, prot)
    {
      var rounded := RoundPage(length);
      if rounded > TWO32 - 1 { return false; }
      ok := table.SetPagePermissions(address, rounded, prot);
      touched := touched + PagesOf(address, length);
    }

    method Munmap(address: uint32, length: uint32) returns (code: int)
      requires Valid()
      modifies this`touched, vma`regions, table.permissions
      ensures Valid()
      ensures code == if vma.RangeOk(address, length) then 0 else EINVAL
      ensures code == 0 ==>
        GuestVma.Overwrites(old(vma.regions), vma.regions, address, address + RoundPage(length), None)
      ensures code != 0 ==>
        vma.regions == old(vma.regions) && touched == old(touched)
        && table.permissions[..] == old(table.permissions[..])
    {
      RoundPageIsRoundUp(length);
      if length == 0 || address % PAGE != 0 { return EINVAL; }
      code := vma.Unmap(address, length);
      if code != 0 { return; }
      ghost var shown := table.permissions[..];
      var ok := Publish(address, length, 0);
      MirrorKept(old(vma.regions), shown, old(touched), vma.regions, table.permissions[..], address, length, None);
      if !ok { code := EFAULT; }
    }

    method Mprotect(address: uint32, length: uint32, prot: nat) returns (code: int)
      requires Valid()
      modifies this`touched, vma`regions, table.permissions
      ensures Valid()
      ensures code == if prot > 7 || !vma.RangeOk(address, length) then EINVAL
        else if old(GuestVma.IsMapped(vma.regions, address, address + RoundPage(length))) then 0 else ENOMEM
      ensures code == 0 ==>
        GuestVma.Overwrites(old(vma.regions), vma.regions, address, address + RoundPage(length), Some(prot))
      ensures code != 0 ==>
        vma.regions == old(vma.regions) && touched == old(touched)
        && table.permissions[..] == old(table.permissions[..])
    {
      RoundPageIsRoundUp(length);
      if length == 0 || prot > 7 || address % PAGE != 0 { return EINVAL; }
      code := vma.Protect(address, length, prot);
      if code != 0 { return; }
      ghost var shown := table.permissions[..];
      var ok := Publish(address, length, prot);
      MirrorKept(old(vma.regions), shown, old(touched), vma.regions, table.permissions[..], address, length,
        Some(prot));
      if !ok { code := EFAULT; }
    }

    method Mmap2(address: uint32, length: uint32, prot: nat, flags: MapFlags, file: Option<seq<byte>>,
        pageOffset: uint32) returns (code: int, mapped: uint32)
      requires Valid()
      modifies this`touched, this`memory, this`faults, vma`regions, table.permissions
      ensures Valid() && |memory| == TWO32 && faults >= old(faults)
      ensures !RequestOk(address, length, prot, flags) ==> code == EINVAL
      ensures RequestOk(address, length, prot, flags) && !FileOk(length, flags, file, pageOffset) ==> code == EBADF
      ensures code in {EINVAL, EBADF, ENOMEM} ==>
        && vma.regions == old(vma.regions) && memory == old(memory)
        && touched == old(touched) && table.permissions[..] == old(table.permissions[..])
      ensures code in {0, EINVAL, EBADF, ENOMEM, EFAULT}
      ensures code in {0, EFAULT} <==>
        && 0 < length && prot <= 7 && !flags.unknown && flags.shared != flags.private_
        && (flags.fixed ==> address % PAGE == 0)
        && (flags.anonymous || (file.Some? && pageOffset * PAGE + length <= |file.value|))
        && old(HasRoom(address, length, flags))
      ensures code == 0 ==>
        Installed(old(vma.regions), old(memory), address, length, prot, flags, file, pageOffset, mapped)
      ensures code == EFAULT ==> Disturbed(old(vma.regions), old(memory), address, length, flags)
      ensures code == EFAULT <==> faults > old(faults)
      ensures RequestOk(address, length, prot, flags) && FileOk(length, flags, file, pageOffset) ==>
        old(HasRoom(address, length, flags)) || code == if flags.fixed then EINVAL else ENOMEM
      ensures code == 0 && !flags.fixed ==> old(vma.LeastFit(address, RoundPage(length), mapped))
    {
      hide Painted, Mirrors, PagesOf, Contents, Look, Zeros, GuestVma.Overwrites;
      mapped := 0;
      if length == 0 || prot > 7 || flags.unknown || flags.shared == flags.private_ || (flags.fixed
        && address % PAGE != 0) {
        return EINVAL, 0;
      }
      if !flags.anonymous
        && (file.None? || pageOffset * PAGE > |file.value| || length > |file.value| - pageOffset * PAGE) {
        return EBADF, 0;
      }
      ghost var shown, before := table.permissions[..], touched;
      code, mapped := vma.Map(address, length, prot, if flags.fixed then GuestVma.FIXED else 0);
      RoundPageIsRoundUp(length);
      if code != 0 { return code, 0; }
      var ok := Fill(mapped, length, flags, file, pageOffset);
      ghost var mid := vma.regions;
      if !ok {
        code := vma.Unmap(mapped, length);
        Undone(old(vma.regions), mid, vma.regions, mapped, mapped + RoundPage(length), prot);
        ok := Publish(mapped, length, 0);
        MirrorKept(old(vma.regions), shown, before, vma.regions, table.permissions[..], mapped, length, None);
        return EFAULT, 0;
      }
      ok := Publish(mapped, length, prot);
      MirrorKept(old(vma.regions), shown, before, vma.regions, table.permissions[..], mapped, length, Some(prot));
      if !ok { code := EFAULT; }
    }

    /** On touched pages the interpreter's access check decides exactly by the regions' protections. */
    method CheckAccess(address: uint32, length: uint32, required: nat) returns (ok: bool)
      requires Valid() && 0 < required <= 7 && length > 0
      requires forall a :: address <= a < address + length ==> a / PAGE in touched
      ensures ok <==>
        && table.nullSegment <= address && address + length <= TWO32
        && forall a :: address <= a < address + length ==> Grants(vma.regions, a, required)
    {
      ok := table.Allows(address, length, required);
      forall a | address <= a < address + length && 0 <= a / PAGE < PAGES
        ensures Includes(table.permissions[a / PAGE], required) <==> Grants(vma.regions, a, required)
      {
        PageUniform(vma.regions, vma.lower, vma.upper, a);
        assert PageMirrored(vma.regions, table.permissions[..][a / PAGE], touched, a / PAGE);
      }
    }

    /** There is room for the request: the named range itself, or a free range at or above the hint. */
    ghost predicate HasRoom(address: uint32, length: uint32, flags: MapFlags)
      requires GuestVma.InitOk(vma.page, vma.lower, vma.upper)
      reads this, vma
    {
      if flags.fixed then vma.RangeOk(address, length) else !vma.NoFit(address, RoundPage(length))
    }

    /** The effect of a successful mapping at `mapped`. */
    ghost predicate Installed(was: seq<Region>, memoryWas: seq<byte>, address: uint32, length: uint32, prot: nat,
        flags: MapFlags, file: Option<seq<byte>>, pageOffset: uint32, mapped: uint32)
      requires |memory| == TWO32 && |memoryWas| == TWO32
      reads this, vma
    {
      && FileOk(length, flags, file, pageOffset)
      && InPages(mapped, length) && vma.lower <= mapped && mapped + RoundPage(length) <= vma.upper
      && GuestVma.Overwrites(was, vma.regions, mapped, mapped + RoundPage(length), Some(prot))
      && memory[mapped..mapped + length] == Contents(length, flags, file, pageOffset)
      && (forall a :: 0 <= a < TWO32 && !(mapped <= a < mapped + length) ==> memory[a] == memoryWas[a])
      && (if flags.fixed then mapped == address else GuestVma.IsFree(was, mapped, mapped + RoundPage(length)))
    }

    /**
     The effect of a mapping whose guest write failed: a fixed range ends unmapped, a free one stays so, the rest is as
     before.
     */
    ghost predicate Disturbed(was: seq<Region>, memoryWas: seq<byte>, address: uint32, length: uint32, flags: MapFlags)
      requires |memory| == TWO32 && |memoryWas| == TWO32
      reads this, vma
    {
      && (if flags.fixed then GuestVma.Overwrites(was, vma.regions, address, address + RoundPage(length), None)
          else forall a :: Look(vma.regions, a) == Look(was, a))
      && forall a :: 0 <= a < TWO32 && (if flags.fixed then !(address <= a < address + length)
        else Look(was, a).Some?) ==>
           memory[a] == memoryWas[a]
    }
  }

  lemma Undone(was: seq<Region>, mid: seq<Region>, now: seq<Region>, lo: int, hi: int, prot: nat)
    requires GuestVma.Overwrites(was, mid, lo, hi, Some(prot)) && GuestVma.Overwrites(mid, now, lo, hi, None)
    ensures GuestVma.Overwrites(was, now, lo, hi, None)
    ensures GuestVma.IsFree(was, lo, hi) ==> forall a :: Look(now, a) == Look(was, a)
  {
  }

  /** The page-rounded range lies inside the 4 GiB space and is not all of it. */
  predicate InPages(address: uint32, length: uint32) {
    length > 0 && address % PAGE == 0 && address + RoundPage(length) <= TWO32 && RoundPage(length) < TWO32
  }

  predicate PageIn(p: int, address: uint32, length: uint32) {
    address / PAGE <= p < (address + RoundPage(length)) / PAGE
  }

  ghost function PagesOf(address: uint32, length: uint32): (r: set<int>) {
    set p: int | 0 <= p < PAGES && PageIn(p, address, length)
  }

  /** `now` is the table `was` with the pages of one range set to `prot`. */
  ghost predicate Painted(was: seq<nat>, now: seq<nat>, address: uint32, length: uint32, prot: nat) {
    |was| == PAGES && |now| == PAGES
    && forall p :: 0 <= p < PAGES ==> now[p] == if PageIn(p, address, length) then prot else was[p]
  }

  /**
   The table shows each touched page its region's protection, or none; other pages keep their initial access and are
   unmapped.
   */
  ghost predicate Mirrors(rs: seq<Region>, shown: seq<nat>, touched: set<int>) {
    |shown| == PAGES && forall p :: 0 <= p < PAGES ==> PageMirrored(rs, shown[p], touched, p)
  }

  ghost predicate PageMirrored(rs: seq<Region>, shown: nat, touched: set<int>, p: int) {
    if p in touched then shown == Shown(rs, p) else shown == ALL_ACCESS && Look(rs, p * PAGE) == None
  }

  /** When the page map and the table change alike on the pages of one range, the table still mirrors the map. */
  lemma MirrorKept(was: seq<Region>, shown: seq<nat>, touched: set<int>, now: seq<Region>, shown': seq<nat>,
      address: uint32, length: uint32, value: Option<nat>)
    requires Mirrors(was, shown, touched) && InPages(address, length)
    requires GuestVma.Overwrites(was, now, address, address + RoundPage(length), value)
    requires Painted(shown, shown', address, length, value.GetOr(0))
    ensures Mirrors(now, shown', touched + PagesOf(address, length))
  {
    forall p | 0 <= p < PAGES ensures PageMirrored(now, shown'[p], touched + PagesOf(address, length), p) {
      assert PageMirrored(was, shown[p], touched, p);
      assert PageIn(p, address, length) <==> address <= p * PAGE < address + RoundPage(length);
      assert Look(now, p * PAGE) == if PageIn(p, address, length) then value else Look(was, p * PAGE);
    }
  }

  predicate Grants(rs: seq<Region>, a: int, required: nat) {
    match Look(rs, a) case Some(prot) => Includes(prot, required) case None => false
  }

  /** Regions are whole pages, so a page's first address speaks for all of it. */
  lemma PageUniform(rs: seq<Region>, lower: int, upper: int, a: int)
    requires Valid(rs, PAGE, lower, upper)
    ensures Look(rs, a) == Look(rs, a / PAGE * PAGE)
  {
    if Look(rs, a).Some? {
      var i := LookWitness(rs, a);
      assert RegionOk(rs[i], PAGE, lower, upper);
      LookAt(rs, i, a / PAGE * PAGE);
    } else if Look(rs, a / PAGE * PAGE).Some? {
      var i := LookWitness(rs, a / PAGE * PAGE);
      assert RegionOk(rs[i], PAGE, lower, upper);
      LookAt(rs, i, a);
    }
  }

  /** The access the table should show for page `p`. */
  function Shown(rs: seq<Region>, p: int): (r: nat) {
    match Look(rs, p * PAGE) case Some(prot) => prot case None => 0
  }
}
