/** The interpreter's page-permission table (Runtime/ArmInterpreter/src/mem.rs:266-282). */
module PageTable {
  import opened Prelude

  const PAGE := 4096
  const PAGES := 0x10_0000
  const ALL_ACCESS := 7

  /** `p & required == required` on the three permission bits. */
  predicate Includes(p: nat, required: nat) {
    p % 2 >= required % 2 && p / 2 % 2 >= required / 2 % 2 && p / 4 % 2 >= required / 4 % 2
  }

  /** It is the mask test on three-bit words. */
  lemma IncludesIsMask(p: bv3, required: bv3)
    ensures Includes(p as nat, required as nat) <==> p & required == required
  {
    ThreeBits(p);
    ThreeBits(required);
  }

  lemma ThreeBits(x: bv3)
    ensures (x as nat) % 2 == 1 <==> x & 1 == 1
    ensures (x as nat) / 2 % 2 == 1 <==> x & 2 == 2
    ensures (x as nat) / 4 % 2 == 1 <==> x & 4 == 4
  {
  }

  class Table {
    const permissions: array<nat>
    const nullSegment: nat

    predicate Valid() { permissions.Length == PAGES && nullSegment % PAGE == 0 }

    constructor (nullSegment: nat)
      requires nullSegment % PAGE == 0
      ensures Valid() && fresh(permissions) && this.nullSegment == nullSegment
      ensures forall p :: 0 <= p < PAGES ==> permissions[p] == ALL_ACCESS
    {
      permissions := new nat[PAGES](_ => ALL_ACCESS);
      this.nullSegment := nullSegment;
    }

    /** set_page_permissions: all pages that [address, address + length) touches, or refuse and change nothing. */
    method SetPagePermissions(address: uint32, length: uint32, protection: nat) returns (ok: bool)
      requires Valid()
      modifies permissions
      ensures ok <==> address % PAGE == 0 && length != 0 && protection <= 7 && address + length <= TWO32
      ensures forall p :: 0 <= p < PAGES ==>
        permissions[p] == if ok && address / PAGE <= p < (address + length + PAGE - 1) / PAGE then protection
          else old(permissions[p])
    {
      if address % PAGE != 0 || length == 0 || protection > 7 { return false; }
      var end := address + length;
      if end > TWO32 { return false; }
      var first, last := address / PAGE, (end + PAGE - 1) / PAGE;
      var p := first;
      while p < last
        invariant first <= p <= last <= PAGES
        invariant forall q :: 0 <= q < PAGES ==>
          permissions[q] == if first <= q < p then protection else old(permissions[q])
      {
        permissions[p] := protection;
        p := p + 1;
      }
      ok := true;
    }

    /** allows: every page that [address, address + length) touches grants `required`. */
    method Allows(address: uint32, length: uint32, required: nat) returns (ok: bool)
      requires Valid() && required <= 7
      ensures ok <==>
        address >= nullSegment && address + length <= TWO32
        && forall a :: address <= a < address + length ==>
          0 <= a / PAGE < PAGES && Includes(permissions[a / PAGE], required)
    {
      var end := address + length;
      if end > TWO32 || address < nullSegment { return false; }
      if length == 0 { return true; }
      var first, last := address / PAGE, (end - 1) / PAGE;
      var p := first;
      while p <= last
        invariant first <= p <= last + 1
        invariant forall q :: first <= q < p ==> Includes(permissions[q], required)
      {
        if !Includes(permissions[p], required) {
          assert var a := if p == first then address else p * PAGE; address <= a < end && a / PAGE == p;
          return false;
        }
        p := p + 1;
      }
      ok := true;
    }
  }
}
