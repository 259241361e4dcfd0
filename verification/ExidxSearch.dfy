/** Finding the index-table entry of a code address (Runtime/Ehabi/agr_ehabi.c:63-70,85-109). */
module ExidxSearch {
  import opened Prelude
  import opened EhabiSpec

  /** prel31: the low 31 bits of a word, sign-extended from bit 30, relative to the word's own address. */
  function Prel31(env: Env, address: uint32): (r: Option<uint32>) {
    if address !in env.words then None
    else
      var low := env.words[address] % 0x8000_0000;
      var offset := if low >= 0x4000_0000 then low + 0x8000_0000 else low;
      Some(Wrap32(offset + address))
  }

  /** The signed reading of a 31-bit field. */
  function Signed31(word: uint32): (r: int) {
    var low := word % 0x8000_0000;
    if low < 0x4000_0000 then low else low - 0x8000_0000
  }

  lemma Prel31IsSigned(env: Env, address: uint32)
    requires address in env.words
    ensures Prel31(env, address) == Some(Wrap32(address + Signed31(env.words[address])))
  {
  }

  /** Where the function of entry `n` starts. */
  function Start(env: Env, table: uint32, n: int): (r: Option<uint32>) { Prel31(env, EntryAt(table, n)) }

  function EntryAt(table: uint32, n: int): (r: uint32) { Wrap32(table + n * 8) }

  /** Entry `n` covers the address: its function starts at or before it and the next one after it. */
  predicate Covers(env: Env, table: uint32, count: int, n: int, address: uint32) {
    && 0 <= n < count && Start(env, table, n).Some? && Start(env, table, n).value <= address
    && (n == count - 1 || (Start(env, table, n + 1).Some? && address <= Wrap32(Start(env, table, n + 1).value - 1)))
  }

  /** A readable table, sorted by function start as the linker leaves it. */
  predicate Sorted(env: Env, table: uint32, count: int) {
    && (forall n :: 0 <= n < count ==> Start(env, table, n).Some?)
    && forall i, j :: 0 <= i < j < count ==> Start(env, table, i).value < Start(env, table, j).value
  }

  /**
   search_exidx. What it finds covers the address, sorted or not; and in a sorted table it finds an entry exactly if the
   address is not below the first function.
   */
  method SearchExidx(env: Env, table: uint32, count: int, address: uint32)
      returns (entry: Option<uint32>, ghost index: int)
    ensures entry.Some? ==> Covers(env, table, count, index, address) && entry.value == EntryAt(table, index)
    ensures Sorted(env, table, count) ==> (entry.Some? <==> count > 0 && Start(env, table, 0).value <= address)
  {
    hide Prel31, EntryAt;
    entry, index := None, -1;
    if count <= 0 { return; }
    var left, right := 0, count - 1;
    ghost var sorted := Sorted(env, table, count);
    while true
      invariant 0 <= left <= count && -1 <= right < count
      invariant sorted ==> left <= right
      invariant sorted && left > 0 ==> Start(env, table, left).value <= address
      invariant sorted && right < count - 1 ==> address < Start(env, table, right + 1).value
      decreases right - left + 1
    {
      if left > right { return None, -1; }
      var n := (left + right) / 2;
      var thisFn := Prel31(env, EntryAt(table, n));
      assert thisFn == Start(env, table, n);
      if thisFn.None? { return None, -1; }
      var nextFn: uint32 := 0xffff_ffff;
      if n != count - 1 {
        var follower := Prel31(env, EntryAt(table, n + 1));
        assert follower == Start(env, table, n + 1);
        if follower.None? { return None, -1; }
        nextFn := Wrap32(follower.value as int - 1);
      }
      if address < thisFn.value {
        if n == left { return None, -1; }
        right := n - 1;
      } else if address <= nextFn {
        return Some(EntryAt(table, n)), n;
      } else {
        left := n + 1;
      }
    }
  }

  /** In a sorted table only one entry covers an address. */
  lemma CoversOnce(env: Env, table: uint32, count: int, m: int, n: int, address: uint32)
    requires Sorted(env, table, count) && Covers(env, table, count, m, address) && Covers(env, table, count, n, address)
    ensures m == n
  {
    hide Prel31, EntryAt;
    if m < n { StartsGrow(env, table, count, m + 1, n); }
    if n < m { StartsGrow(env, table, count, n + 1, m); }
  }

  lemma StartsGrow(env: Env, table: uint32, count: int, i: int, j: int)
    requires Sorted(env, table, count) && 0 < i <= j < count
    ensures 0 < Start(env, table, i).value <= Start(env, table, j).value
  {
    assert Start(env, table, i - 1).value < Start(env, table, i).value;
  }
}
