/** The method table: stable handles for (class, name, signature) triples (Runtime/GuestRuntime/agr_jni_methods.c). */
module JniMethods {
  import opened Prelude
  import opened ProbeTable

  const METHOD_BASE := 0x6500_0000
  const MAX_METHODS := (0xffff_ffff - METHOD_BASE) / 4

  datatype Method = Method(handle: uint32, key: Key, native: uint32)

  function Keys(entries: seq<Method>): (keys: seq<Key>)
    ensures |keys| == |entries| && forall i :: 0 <= i < |entries| ==> keys[i] == entries[i].key
  {
    seq(|entries|, i requires 0 <= i < |entries| => entries[i].key)
  }

  /** Distinct keys, consecutive handles. */
  ghost predicate EntriesOk(entries: seq<Method>) {
    && |entries| <= MAX_METHODS && DistinctKeys(Keys(entries))
    && forall i :: 0 <= i < |entries| ==> entries[i].handle == METHOD_BASE + 4 * i
  }

  class Table {
    var entries: seq<Method>
    var buckets: array<nat>
    /** How far each entry lies from its own slot. */
    ghost var dist: seq<nat>
    /** How often an allocation has failed. */
    ghost var shortages: nat

    ghost predicate Valid()
      reads this, buckets
    {
      && EntriesOk(entries)
      && (buckets.Length == 0 ==> entries == [])
      && (buckets.Length > 0 ==>
           PowerOfTwo(buckets.Length) && |entries| < buckets.Length - buckets.Length / 4
             && Placed(buckets[..], Keys(entries), dist))
    }

    constructor ()
      ensures Valid() && entries == [] && fresh(buckets)
    {
      entries, dist, shortages := [], [], 0;
      buckets := new nat[0];
    }

    /** The probing loop: the entry with this key, or the empty slot where it would go. */
    static method Probe(buckets: array<nat>, entries: seq<Method>, key: Key, ghost dist: seq<nat>)
        returns (found: Option<nat>, slot: nat, ghost d: nat)
      requires PowerOfTwo(buckets.Length) && Placed(buckets[..], Keys(entries), dist) && DistinctKeys(Keys(entries))
      ensures found == IndexOf(Keys(entries), key)
      ensures found.None? ==>
        d < buckets.Length && slot == Slot(key, d, buckets.Length) && buckets[slot] == 0
        && FullPath(buckets[..], key, d)
    {
      hide Home, Placed, IndexOf, Misses, DistinctKeys, FullPath, PowerOfTwo, BitAnd, Hash;
      ghost var keys, view := Keys(entries), buckets[..];
      ghost var e := EmptyAhead(view, keys, dist, key);
      HomeByMask(key, buckets.Length);
      slot, d, found := BitAnd(Hash(key), buckets.Length - 1), 0, None;
      while buckets[slot] != 0
        invariant d <= e < buckets.Length && slot == Slot(key, d, buckets.Length)
        invariant AllMiss(view, keys, key, d)
        decreases e - d
      {
        TakenSlot(view, keys, dist, slot);
        var index := buckets[slot] - 1;
        if entries[index].key == key {
          OnlyOne(keys, key, index);
          found := Some(index);
          return;
        }
        MissedHere(view, keys, key, d);
        AfterByMask(slot, buckets.Length);
        slot, d := BitAnd(slot + 1, buckets.Length - 1), d + 1;
      }
      ProbeDecides(view, keys, dist, key, d);
      MissesFill(view, keys, key, d);
    }

    /** The probing loop that only looks for an empty slot. */
    static method FindEmpty(buckets: array<nat>, key: Key, ghost keys: seq<Key>, ghost dist: seq<nat>)
        returns (slot: nat, ghost d: nat)
      requires PowerOfTwo(buckets.Length) && Placed(buckets[..], keys, dist)
      ensures d < buckets.Length && slot == Slot(key, d, buckets.Length) && buckets[slot] == 0
        && FullPath(buckets[..], key, d)
    {
      hide Home, Placed, PowerOfTwo, BitAnd, Hash;
      ghost var e := EmptyAhead(buckets[..], keys, dist, key);
      ghost var view := buckets[..];
      HomeByMask(key, buckets.Length);
      slot, d := BitAnd(Hash(key), buckets.Length - 1), 0;
      while buckets[slot] != 0
        invariant d <= e < buckets.Length && slot == Slot(key, d, buckets.Length)
        invariant FullPath(view, key, d)
        decreases e - d
      {
        AfterByMask(slot, buckets.Length);
        slot, d := BitAnd(slot + 1, buckets.Length - 1), d + 1;
      }
    }

    /** rehash: place every entry again in a larger array. */
    method Rehash(count: nat) returns (ok: bool)
      requires EntriesOk(entries) && count > |entries| && PowerOfTwo(count)
      modifies this`buckets, this`dist, this`shortages
      ensures shortages == old(shortages) + if ok then 0 else 1
      ensures !ok ==> buckets == old(buckets) && dist == old(dist)
      ensures ok ==> fresh(buckets) && buckets.Length == count && Placed(buckets[..], Keys(entries), dist)
    {
      hide Placed, EntriesOk, FullPath, Home, PowerOfTwo;
      ok := *;
      if !ok {
        shortages := shortages + 1;
        return;
      }
      var grown := new nat[count](_ => 0);
      NothingPlaced(count, grown[..]);
      ghost var keys: seq<Key>, far: seq<nat> := Keys(entries), [];
      assert keys[..0] == [];
      var i: nat := 0;
      while i < |entries|
        invariant 0 <= i <= |entries| && Placed(grown[..], keys[..i], far)
        invariant grown.Length == count && shortages == old(shortages)
      {
        var key := entries[i].key;
        ghost var view := grown[..];
        var slot, d := FindEmpty(grown, key, keys[..i], far);
        PlacedSize(view, keys[..i], far);
        PlaceOne(view, keys[..i], far, key, d);
        grown[slot] := i + 1;
        assert grown[..] == view[slot := (i + 1) as nat] && keys[..i + 1] == keys[..i] + [key];
        far := far + [d];
        i := i + 1;
      }
      assert keys[..i] == keys;
      buckets, dist := grown, far;
    }

    /** Room for one more: a larger bucket array if the load limit is reached, and a fresh place to probe to. */
    method MakeRoom(key: Key, at: nat, ghost far: nat) returns (ok: bool, slot: nat, ghost d: nat)
      requires Valid() && buckets.Length > 0 && |entries| < MAX_METHODS
      requires far < buckets.Length && at == Slot(key, far, buckets.Length) && buckets[at] == 0
        && FullPath(buckets[..], key, far)
      modifies this`buckets, this`dist, this`shortages
      ensures shortages == old(shortages) + if ok then 0 else 1
      ensures Valid() && (buckets == old(buckets) || fresh(buckets))
      ensures ok ==>
        && |entries| + 1 < buckets.Length - buckets.Length / 4 && d < buckets.Length
        && slot == Slot(key, d, buckets.Length) && buckets[slot] == 0 && FullPath(buckets[..], key, d)
    {
      ok, slot, d := true, at, far;
      if |entries| + 1 >= buckets.Length - buckets.Length / 4 {
        ghost var n := buckets.Length;
        PowerDoubles(n);
        hide FullPath, PowerOfTwo, EntriesOk;
        ok := Rehash(buckets.Length * 2);
        if !ok { return; }
        slot, d := FindEmpty(buckets, key, Keys(entries), dist);
      }
    }

    /** agr_jni_method_id. It may run out of memory in several places; then no entry is added. */
    method Id(key: Key) returns (handle: Option<uint32>)
      requires Valid()
      modifies this, buckets
      ensures Valid() && (buckets == old(buckets) || fresh(buckets))
      ensures shortages >= old(shortages) && Identified(old(entries), entries, key, handle, shortages > old(shortages))
    {
      if key.cls == 0 { return None; }
      hide Placed, IndexOf, FullPath, Home, Slot, DistinctKeys, EntriesOk;
      if buckets.Length == 0 {
        NoMethods(key);
        var ok := Rehash(16);
        if !ok { return None; }
      }
      handle := IdIn(key);
    }

    /** The same once there are buckets. */
    method IdIn(key: Key) returns (handle: Option<uint32>)
      requires Valid() && buckets.Length > 0 && key.cls != 0
      modifies this, buckets
      ensures Valid() && (buckets == old(buckets) || fresh(buckets))
      ensures shortages >= old(shortages) && Identified(old(entries), entries, key, handle, shortages > old(shortages))
    {
      assert EntriesOk(entries) && DistinctKeys(Keys(entries));
      assert PowerOfTwo(buckets.Length) && Placed(buckets[..], Keys(entries), dist);
      ghost var was := entries;
      hide Placed, IndexOf, FullPath, Home, Slot, DistinctKeys, PowerOfTwo, Identified, EntriesOk, Table.Valid;
      var found, slot, d := Probe(buckets, entries, key, dist);
      if found.Some? {
        OldHandle(entries, key, found.value);
        return Some(entries[found.value].handle);
      }
      NoHandle(entries, key);
      if |entries| >= MAX_METHODS { return None; }
      var ok;
      ok, slot, d := MakeRoom(key, slot, d);
      if !ok { return None; }
      var copied := *;
      if !copied {
        shortages := shortages + 1;
        return None;
      }
      Append(key, slot, d);
      handle := Some(entries[|entries| - 1].handle);
      NewHandle(was, entries, key);
    }

    /** The new entry and its bucket. */
    method Append(key: Key, slot: nat, ghost d: nat)
      requires Valid() && |entries| + 1 < buckets.Length - buckets.Length / 4 && |entries| < MAX_METHODS
      requires d < buckets.Length && slot == Slot(key, d, buckets.Length) && buckets[slot] == 0
        && FullPath(buckets[..], key, d)
      requires IndexOf(Keys(entries), key).None?
      modifies this`entries, this`dist, buckets
      ensures Valid() && entries == old(entries) + [Method(METHOD_BASE + 4 * |old(entries)|, key, 0)]
      ensures IndexOf(Keys(entries), key) == Some(|old(entries)|)
    {
      ghost var keys, view, far := Keys(entries), buckets[..], dist;
      PlaceOne(view, keys, far, key, d);
      NewKey(entries, key);
      hide Placed, IndexOf, FullPath, Home, Slot, DistinctKeys, PowerOfTwo;
      var index := |entries|;
      entries := entries + [Method(METHOD_BASE + 4 * index, key, 0)];
      buckets[slot] := index + 1;
      dist := dist + [d];
      assert buckets[..] == view[slot := (|keys| + 1) as nat];
    }

    /** agr_jni_method_bind. */
    method Bind(key: Key, address: uint32) returns (ok: bool)
      requires Valid()
      modifies this, buckets
      ensures Valid() && (buckets == old(buckets) || fresh(buckets))
      ensures shortages >= old(shortages)
      ensures ok <==>
        && address != 0 && key.cls != 0
        && (IndexOf(Keys(old(entries)), key).Some? || (|old(entries)| < MAX_METHODS && shortages == old(shortages)))
      ensures ok ==> Bound(old(entries), entries, key, address)
      ensures !ok ==> entries == old(entries)
    {
      if address == 0 { return false; }
      hide IndexOf, Placed;
      ghost var was := entries;
      var handle := Id(key);
      assert Identified(was, entries, key, handle, shortages > old(shortages));
      if handle.None? { return false; }
      var index := (handle.value - METHOD_BASE) / 4;
      HandleIndex(was, entries, key, handle.value);
      SameKeys(entries, index, address);
      BindsIt(was, entries, key, handle.value, address);
      entries := entries[index := entries[index].(native := address)];
      ok := true;
    }

    /** agr_jni_method_native_address: a scan of the entries, without the buckets. */
    method NativeAddress(key: Key) returns (address: uint32)
      requires Valid()
      ensures address == match IndexOf(Keys(entries), key) case None => 0 case Some(i) => entries[i].native
    {
      var i := 0;
      ghost var keys := Keys(entries);
      while i < |entries|
        invariant 0 <= i <= |entries| && forall j :: 0 <= j < i ==> keys[j] != key
      {
        if entries[i].key == key {
          OnlyOne(keys, key, i);
          return entries[i].native;
        }
        i := i + 1;
      }
      address := 0;
    }

    /** agr_jni_method_lookup: the entry of a handle. */
    method Lookup(handle: uint32) returns (index: Option<nat>)
      requires Valid()
      ensures index.Some? <==> exists i :: 0 <= i < |entries| && entries[i].handle == handle
      ensures index.Some? ==> index.value < |entries| && entries[index.value].handle == handle
    {
      forall i | 0 <= i < |entries| && entries[i].handle == handle
        ensures handle >= METHOD_BASE && (handle - METHOD_BASE) % 4 == 0 && (handle - METHOD_BASE) / 4 == i
      {
        HandleParts(i);
      }
      if handle < METHOD_BASE || (handle - METHOD_BASE) % 4 != 0 { return None; }
      var i := (handle - METHOD_BASE) / 4;
      if i >= |entries| { return None; }
      assert handle == METHOD_BASE + 4 * i && entries[i].handle == handle;
      index := Some(i);
    }
  }

  lemma {:induction false} PowerDoubles(n: nat)
    requires PowerOfTwo(n)
    ensures PowerOfTwo(n * 2)
  {
  }

  lemma NewKey(entries: seq<Method>, key: Key)
    requires EntriesOk(entries) && IndexOf(Keys(entries), key).None? && |entries| < MAX_METHODS
    ensures var more := entries + [Method(METHOD_BASE + 4 * |entries|, key, 0)];
      EntriesOk(more) && Keys(more) == Keys(entries) + [key] && IndexOf(Keys(more), key) == Some(|entries|)
  {
    var more := entries + [Method(METHOD_BASE + 4 * |entries|, key, 0)];
    assert Keys(more) == Keys(entries) + [key];
    OnlyOne(Keys(more), key, |entries|);
  }

  lemma SameKeys(entries: seq<Method>, i: nat, address: uint32)
    requires EntriesOk(entries) && i < |entries|
    ensures var now := entries[i := entries[i].(native := address)]; Keys(now) == Keys(entries) && EntriesOk(now)
  {
    var now := entries[i := entries[i].(native := address)];
    assert Keys(now) == Keys(entries);
  }

  lemma HandleParts(i: nat)
    ensures (METHOD_BASE + 4 * i - METHOD_BASE) % 4 == 0 && (METHOD_BASE + 4 * i - METHOD_BASE) / 4 == i
  {
  }

  lemma NoMethods(key: Key)
    ensures IndexOf(Keys([]), key) == None
  {
  }

  /**
   A known key keeps its handle; a new one is added with the next handle, unless the table is full or an allocation
   fails.
   */
  ghost predicate Identified(was: seq<Method>, now: seq<Method>, key: Key, handle: Option<uint32>, starved: bool) {
    && (handle.Some? <==> key.cls != 0 && (IndexOf(Keys(was), key).Some? || (|was| < MAX_METHODS && !starved)))
    && match handle
       case None => now == was
       case Some(h) =>
         match IndexOf(Keys(was), key)
         case Some(i) => now == was && h == METHOD_BASE + 4 * i
         case None => now == was + [Method(METHOD_BASE + 4 * |was|, key, 0)] && h == METHOD_BASE + 4 * |was|
  }

  lemma OldHandle(entries: seq<Method>, key: Key, i: nat)
    requires EntriesOk(entries) && key.cls != 0 && IndexOf(Keys(entries), key) == Some(i) && i < |entries|
    ensures Identified(entries, entries, key, Some(entries[i].handle), false)
  {
    hide IndexOf, DistinctKeys;
  }

  lemma NoHandle(entries: seq<Method>, key: Key)
    requires IndexOf(Keys(entries), key).None?
    ensures Identified(entries, entries, key, None, true)
    ensures |entries| >= MAX_METHODS ==> Identified(entries, entries, key, None, false)
  {
    hide IndexOf;
  }

  lemma NewHandle(was: seq<Method>, now: seq<Method>, key: Key)
    requires key.cls != 0 && IndexOf(Keys(was), key).None? && |was| < MAX_METHODS
    requires now == was + [Method(METHOD_BASE + 4 * |was|, key, 0)]
    ensures Identified(was, now, key, Some(now[|now| - 1].handle), false)
  {
    hide IndexOf;
  }

  /** The method with this key, added if need be, has the address; nothing else changed. */
  ghost predicate Bound(was: seq<Method>, now: seq<Method>, key: Key, address: uint32) {
    match IndexOf(Keys(was), key)
    case Some(i) => now == was[i := was[i].(native := address)]
    case None => |was| < MAX_METHODS && now == was + [Method(METHOD_BASE + 4 * |was|, key, address)]
  }

  lemma HandleIndex(was: seq<Method>, now: seq<Method>, key: Key, h: uint32)
    requires exists starved :: Identified(was, now, key, Some(h), starved)
    ensures var i := (h - METHOD_BASE) / 4; 0 <= i < |now| && now[i].key == key && h >= METHOD_BASE
    ensures IndexOf(Keys(was), key) == if (h - METHOD_BASE) / 4 < |was| then Some((h - METHOD_BASE) / 4) else None
  {
    match IndexOf(Keys(was), key)
    case Some(i) => HandleParts(i);
    case None => HandleParts(|was|);
  }

  lemma BindsIt(was: seq<Method>, mid: seq<Method>, key: Key, h: uint32, address: uint32)
    requires exists starved :: Identified(was, mid, key, Some(h), starved)
    ensures var i := (h - METHOD_BASE) / 4;
      0 <= i < |mid| && Bound(was, mid[i := mid[i].(native := address)], key, address)
  {
    HandleIndex(was, mid, key, h);
    match IndexOf(Keys(was), key)
    case Some(i) => HandleParts(i);
    case None => HandleParts(|was|);
  }

  /** Handles name methods one to one. */
  lemma HandlesAreInjective(entries: seq<Method>, i: nat, j: nat)
    requires EntriesOk(entries) && i < |entries| && j < |entries|
    ensures entries[i].handle == entries[j].handle <==> entries[i].key == entries[j].key
  {
    if i < j { assert Keys(entries)[i] != Keys(entries)[j]; }
    if j < i { assert Keys(entries)[j] != Keys(entries)[i]; }
  }

  lemma PlacedSize(buckets: seq<nat>, keys: seq<Key>, dist: seq<nat>)
    requires Placed(buckets, keys, dist)
    ensures |keys| == |dist| < |buckets|
  {
  }

  lemma TakenSlot(buckets: seq<nat>, keys: seq<Key>, dist: seq<nat>, slot: nat)
    requires Placed(buckets, keys, dist) && slot < |buckets| && buckets[slot] != 0
    ensures buckets[slot] <= |keys|
  {
    assert SlotOk(buckets, keys, dist, slot);
  }

  lemma MissedHere(buckets: seq<nat>, keys: seq<Key>, key: Key, d: nat)
    requires |buckets| > 0
    requires var b := buckets[Slot(key, d, |buckets|)]; 0 < b <= |keys| && keys[b - 1] != key
    requires AllMiss(buckets, keys, key, d)
    ensures AllMiss(buckets, keys, key, d + 1)
  {
  }

  lemma OnlyOne(keys: seq<Key>, key: Key, i: nat)
    requires DistinctKeys(keys) && i < |keys| && keys[i] == key
    ensures IndexOf(keys, key) == Some(i)
  {
  }

  lemma MissesFill(buckets: seq<nat>, keys: seq<Key>, key: Key, d: nat)
    requires |buckets| > 0 && AllMiss(buckets, keys, key, d)
    ensures FullPath(buckets, key, d)
  {
    hide Slot;
    forall j | 0 <= j < d ensures buckets[Slot(key, j, |buckets|)] != 0 { assert Misses(buckets, keys, key, j); }
  }
}
