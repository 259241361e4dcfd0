/**
 Linear probing over an array of entry numbers, as a value (Runtime/GuestRuntime/agr_jni_methods.c:25-37,42-49,65-68).
 */
module ProbeTable {
  import opened Prelude

  type cchar = b: int | 0 < b < 256 witness 1

  /** A method as Java names it: class, name and signature. */
  datatype Key = Key(cls: uint32, name: seq<cchar>, signature: seq<cchar>)

  function HashByte(hash: bv32, b: bv32): (r: bv32) { (hash ^ b) * 16777619 }

  function HashText(hash: bv32, text: seq<cchar>): (r: bv32) {
    if text == [] then hash else HashByte(HashText(hash, text[..|text| - 1]), text[|text| - 1] as bv32)
  }

  /** method_hash: FNV-1a over the class handle's bytes, the name with its terminator, and the signature. */
  function Hash(key: Key): (r: nat) {
    var c := key.cls as bv32;
    var h := HashByte(HashByte(HashByte(HashByte(2166136261, c & 0xff), (c >> 8) & 0xff), (c >> 16) & 0xff), c >> 24);
    HashText(HashByte(HashText(h, key.name), 0), key.signature) as nat
  }

  // ---- Masks ------------------------------------------------------------------------------------

  predicate PowerOfTwo(n: nat) { n == 1 || (n > 1 && n % 2 == 0 && PowerOfTwo(n / 2)) }

  /** `a & b`. */
  function BitAnd(a: nat, b: nat): (r: nat)
    ensures r <= b
  {
    if b == 0 then 0 else (if a % 2 == 1 && b % 2 == 1 then 1 else 0) + 2 * BitAnd(a / 2, b / 2)
  }

  /** With a power of two of buckets, masking with one less is the remainder. */
  lemma {:induction false} MaskIsMod(a: nat, n: nat)
    requires PowerOfTwo(n)
    ensures BitAnd(a, n - 1) == a % n
  {
    if n > 1 {
      assert (n - 1) % 2 == 1 && (n - 1) / 2 == n / 2 - 1;
      MaskIsMod(a / 2, n / 2);
      ModHalves(a, n / 2);
      assert n == 2 * (n / 2);
    }
  }

  lemma ModHalves(a: nat, m: nat)
    requires m > 0
    ensures a % (2 * m) == a % 2 + 2 * (a / 2 % m)
  {
    var q, r := a / 2 / m, a / 2 % m;
    assert a / 2 == q * m + r;
    assert a == q * (2 * m) + (2 * r + a % 2);
    ModUnique(a, q, 2 * r + a % 2, 2 * m);
  }

  lemma ModUnique(a: nat, q: nat, r: nat, n: nat)
    requires r < n && a == q * n + r
    ensures a % n == r
  {
    var k := a / n;
    assert a == k * n + a % n;
    if q < k { TimesGrows(q + 1, k, n); } else if k < q { TimesGrows(k + 1, q, n); }
  }

  lemma TimesGrows(x: nat, y: nat, n: nat)
    requires x <= y
    ensures x * n <= y * n
  {
  }

  lemma HomeByMask(key: Key, n: nat)
    requires PowerOfTwo(n)
    ensures BitAnd(Hash(key), n - 1) == Home(key, n)
  {
    MaskIsMod(Hash(key), n);
  }

  lemma AfterByMask(slot: nat, n: nat)
    requires PowerOfTwo(n) && slot < n
    ensures BitAnd(slot + 1, n - 1) == After(slot, n)
  {
    MaskIsMod(slot + 1, n);
    hide PowerOfTwo, BitAnd;
    if slot + 1 == n { ModUnique(n, 1, 0, n); } else { ModUnique(slot + 1, 0, slot + 1, n); }
  }

  // ---- Paths ------------------------------------------------------------------------------------

  /** A key's own slot. */
  function Home(key: Key, n: nat): (slot: nat)
    requires n > 0
    ensures slot < n
  {
    Hash(key) % n
  }

  function After(slot: nat, n: nat): (r: nat) { if slot + 1 == n then 0 else slot + 1 }

  /** The slot `j` steps after the key's own one. */
  function Slot(key: Key, j: nat, n: nat): (slot: nat)
    requires n > 0
    ensures slot < n
  {
    if j == 0 then Home(key, n) else After(Slot(key, j - 1, n), n)
  }

  lemma {:induction false} SlotAt(key: Key, j: nat, n: nat)
    requires j < n
    ensures Slot(key, j, n) == if Home(key, n) + j < n then Home(key, n) + j else Home(key, n) + j - n
  {
    hide Home;
    if j > 0 { SlotAt(key, j - 1, n); }
  }

  /**
   Slots hold 0 or an entry number plus one; entry `i` is `dist[i]` steps from its own slot, and no slot on the way is
   empty.
   */
  ghost predicate Placed(buckets: seq<nat>, keys: seq<Key>, dist: seq<nat>) {
    && |buckets| > |keys| && |dist| == |keys|
    && (forall i :: 0 <= i < |keys| ==> EntryPlaced(buckets, keys, dist, i))
    && forall s :: 0 <= s < |buckets| ==> SlotOk(buckets, keys, dist, s)
  }

  ghost predicate EntryPlaced(buckets: seq<nat>, keys: seq<Key>, dist: seq<nat>, i: nat)
    requires i < |keys| == |dist| && |buckets| > 0
  {
    && dist[i] < |buckets| && buckets[Slot(keys[i], dist[i], |buckets|)] == i + 1
    && FullPath(buckets, keys[i], dist[i])
  }

  ghost predicate SlotOk(buckets: seq<nat>, keys: seq<Key>, dist: seq<nat>, s: nat)
    requires s < |buckets| && |keys| == |dist|
  {
    buckets[s] == 0 || (buckets[s] <= |keys| && s == Slot(keys[buckets[s] - 1], dist[buckets[s] - 1], |buckets|))
  }

  /** The first `d` slots on a key's way are taken. */
  ghost predicate FullPath(buckets: seq<nat>, key: Key, d: nat)
    requires |buckets| > 0
  {
    forall j :: 0 <= j < d ==> buckets[Slot(key, j, |buckets|)] != 0
  }

  /** The first entry with this key, by a scan from the start. */
  function IndexOf(keys: seq<Key>, key: Key): (r: Option<nat>)
    ensures r.Some? ==> r.value < |keys| && keys[r.value] == key
    ensures r.None? ==> forall i :: 0 <= i < |keys| ==> keys[i] != key
  {
    if keys == [] then None
    else if keys[0] == key then Some(0)
    else match IndexOf(keys[1..], key) case None => None case Some(i) => Some(i + 1)
  }

  ghost predicate DistinctKeys(keys: seq<Key>) {
    forall i, j :: 0 <= i < j < |keys| ==> keys[i] != keys[j]
  }

  // ---- There is always an empty slot ------------------------------------------------------------

  lemma {:induction false} DistinctBound(s: seq<nat>, m: nat)
    requires forall i, j :: 0 <= i < j < |s| ==> s[i] != s[j]
    requires forall i :: 0 <= i < |s| ==> s[i] < m
    ensures |s| <= m
  {
    var values := set i | 0 <= i < |s| :: s[i];
    DistinctSize(s);
    SubsetSize(values, Below(m));
  }

  lemma {:induction false} DistinctSize(s: seq<nat>)
    requires forall i, j :: 0 <= i < j < |s| ==> s[i] != s[j]
    ensures |set i | 0 <= i < |s| :: s[i]| == |s|
  {
    if s != [] {
      var n := |s| - 1;
      DistinctSize(s[..n]);
      assert (set i | 0 <= i < |s| :: s[i]) == (set i | 0 <= i < n :: s[..n][i]) + {s[n]};
    }
  }

  function Below(m: nat): (s: set<nat>)
    ensures |s| == m && forall x: nat :: x in s <==> x < m
  {
    if m == 0 then {} else Below(m - 1) + {m - 1}
  }

  /** Some slot is empty, and so a probe from any key's own slot meets one within `|buckets|` steps. */
  lemma EmptyAhead(buckets: seq<nat>, keys: seq<Key>, dist: seq<nat>, key: Key) returns (e: nat)
    requires Placed(buckets, keys, dist)
    ensures e < |buckets| && buckets[Slot(key, e, |buckets|)] == 0
  {
    var n := |buckets|;
    hide Placed, Home;
    AllTaken(buckets, keys, dist);
    var s :| 0 <= s < n && buckets[s] == 0;
    e := if s >= Home(key, n) then s - Home(key, n) else s + n - Home(key, n);
    SlotAt(key, e, n);
  }

  lemma AllTaken(buckets: seq<nat>, keys: seq<Key>, dist: seq<nat>)
    requires Placed(buckets, keys, dist)
    ensures exists s :: 0 <= s < |buckets| && buckets[s] == 0
  {
    hide Slot, FullPath, EntryPlaced;
    if forall s :: 0 <= s < |buckets| ==> buckets[s] != 0 {
      forall s, t | 0 <= s < t < |buckets| ensures buckets[s] != buckets[t] {
        assert SlotOk(buckets, keys, dist, s) && SlotOk(buckets, keys, dist, t);
      }
      forall s | 0 <= s < |buckets| ensures 0 < buckets[s] <= |keys| { assert SlotOk(buckets, keys, dist, s); }
      TooMany(buckets, |keys|);
    }
  }

  lemma TooMany(buckets: seq<nat>, m: nat)
    requires forall s :: 0 <= s < |buckets| ==> 0 < buckets[s] <= m
    requires forall s, t :: 0 <= s < t < |buckets| ==> buckets[s] != buckets[t]
    ensures |buckets| <= m
  {
    var idx := seq(|buckets|, s requires 0 <= s < |buckets| => buckets[s] - 1);
    DistinctBound(idx, m);
  }

  /** A probe that meets an empty slot after `d` full ones has passed every entry with its key. */
  lemma ProbeDecides(buckets: seq<nat>, keys: seq<Key>, dist: seq<nat>, key: Key, d: nat)
    requires Placed(buckets, keys, dist) && d < |buckets| && buckets[Slot(key, d, |buckets|)] == 0
    requires AllMiss(buckets, keys, key, d)
    ensures IndexOf(keys, key) == None
  {
    hide Slot, SlotOk, IndexOf;
    if IndexOf(keys, key).Some? {
      var i := IndexOf(keys, key).value;
      assert EntryPlaced(buckets, keys, dist, i);
      if dist[i] < d {
        PassedIt(buckets, keys, dist, key, i);
      }
    }
  }

  /** The slot is taken, by an entry with another key. */
  ghost predicate Misses(buckets: seq<nat>, keys: seq<Key>, key: Key, j: nat)
    requires |buckets| > 0
  {
    var b := buckets[Slot(key, j, |buckets|)];
    0 < b <= |keys| && keys[b - 1] != key
  }

  ghost predicate AllMiss(buckets: seq<nat>, keys: seq<Key>, key: Key, d: nat)
    requires |buckets| > 0
  {
    forall j :: 0 <= j < d ==> Misses(buckets, keys, key, j)
  }

  lemma PassedIt(buckets: seq<nat>, keys: seq<Key>, dist: seq<nat>, key: Key, i: nat)
    requires i < |keys| == |dist| && |buckets| > 0 && keys[i] == key && buckets[Slot(key, dist[i], |buckets|)] == i + 1
    ensures !Misses(buckets, keys, key, dist[i])
  {
  }

  // ---- Adding an entry --------------------------------------------------------------------------

  lemma PlaceOne(buckets: seq<nat>, keys: seq<Key>, dist: seq<nat>, key: Key, d: nat)
    requires Placed(buckets, keys, dist) && |keys| + 1 < |buckets| && d < |buckets|
    requires buckets[Slot(key, d, |buckets|)] == 0 && FullPath(buckets, key, d)
    ensures Placed(buckets[Slot(key, d, |buckets|) := |keys| + 1], keys + [key], dist + [d])
  {
    var slot := Slot(key, d, |buckets|);
    var buckets', keys', dist' := buckets[slot := |keys| + 1], keys + [key], dist + [d];
    hide Slot, FullPath, EntryPlaced, SlotOk;
    forall i | 0 <= i < |keys'| ensures EntryPlaced(buckets', keys', dist', i) {
      if i < |keys| { EntryKept(buckets, keys, dist, i, slot, key, d); }
        else { NewEntry(buckets, keys, dist, slot, key, d); }
    }
    forall s | 0 <= s < |buckets'| ensures SlotOk(buckets', keys', dist', s) {
      SlotKept(buckets, keys, dist, slot, key, d, s);
    }
  }

  lemma NewEntry(buckets: seq<nat>, keys: seq<Key>, dist: seq<nat>, slot: nat, key: Key, d: nat)
    requires |keys| == |dist| && d < |buckets| && slot == Slot(key, d, |buckets|) && FullPath(buckets, key, d)
    ensures EntryPlaced(buckets[slot := |keys| + 1], keys + [key], dist + [d], |keys|)
  {
    hide Slot, FullPath;
    PathKept(buckets, slot, |keys| + 1, key, d);
    assert (keys + [key])[|keys|] == key && (dist + [d])[|keys|] == d
      && buckets[slot := |keys| + 1][slot] == |keys| + 1;
  }

  lemma SlotKept(buckets: seq<nat>, keys: seq<Key>, dist: seq<nat>, slot: nat, key: Key, d: nat, s: nat)
    requires Placed(buckets, keys, dist) && slot < |buckets| && slot == Slot(key, d, |buckets|) && s < |buckets|
    ensures SlotOk(buckets[slot := |keys| + 1], keys + [key], dist + [d], s)
  {
    hide Slot, EntryPlaced;
    assert SlotOk(buckets, keys, dist, s);
  }

  lemma EntryKept(buckets: seq<nat>, keys: seq<Key>, dist: seq<nat>, i: nat, slot: nat, key: Key, d: nat)
    requires Placed(buckets, keys, dist) && i < |keys| && slot < |buckets| && buckets[slot] == 0
    ensures EntryPlaced(buckets[slot := |keys| + 1], keys + [key], dist + [d], i)
  {
    hide Slot;
    assert EntryPlaced(buckets, keys, dist, i);
    PathKept(buckets, slot, |keys| + 1, keys[i], dist[i]);
    hide FullPath;
  }

  /** Filling a slot only makes paths fuller. */
  lemma PathKept(buckets: seq<nat>, slot: nat, value: nat, key: Key, d: nat)
    requires slot < |buckets| && value != 0 && FullPath(buckets, key, d)
    ensures FullPath(buckets[slot := value], key, d)
  {
    hide Slot;
  }

  lemma NothingPlaced(n: nat, buckets: seq<nat>)
    requires n > 0 && |buckets| == n && forall s :: 0 <= s < n ==> buckets[s] == 0
    ensures Placed(buckets, [], [])
  {
  }
}
