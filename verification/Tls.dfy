/** Thread-specific data: keys, slots and destructors (Runtime/Bionic/agr_bionic_tls.cpp). */
module Tls {
  import opened Prelude

  const SLOTS := 140
  const FIRST_USER_SLOT := 7
  const FIRST_APP_KEY := 11

  /** The guest word at an address; guest memory that nobody wrote reads as zero. */
  function Word(words: map<int, uint32>, a: int): (r: uint32) { if a in words then words[a] else 0 }

  function Slot(base: int, key: int): (r: int) { base + key * 4 }

  predicate UserKey(key: int) { FIRST_USER_SLOT <= key < SLOTS }

  /** Two threads' blocks have no word in common. */
  predicate Apart(a: int, b: int) { a + 4 * SLOTS <= b || b + 4 * SLOTS <= a }

  ghost predicate BlocksApart(threads: map<uint32, uint32>) {
    forall t, u :: t in threads && u in threads && t != u ==> Apart(threads[t], threads[u])
  }

  /** Every slot of an unallocated key is zero in every registered thread. */
  ghost predicate Fresh(words: map<int, uint32>, threads: map<uint32, uint32>, used: seq<bool>) {
    |used| == SLOTS
    && forall t, key :: t in threads && UserKey(key) && !used[key] ==> Word(words, Slot(threads[t], key)) == 0
  }

  /** One destructor call. */
  datatype Call = Call(key: nat, destructor: uint32, value: uint32)

  function CallsOf(log: seq<Call>, key: nat): (r: nat) {
    if log == [] then 0 else CallsOf(log[..|log| - 1], key) + if log[|log| - 1].key == key then 1 else 0
  }

  /** The calls that a thread's values ask for, in the order of their keys, from `key` on. */
  function Wanted(words: map<int, uint32>, base: int, used: seq<bool>, destructors: seq<uint32>,
      key: nat): (r: seq<Call>)
    requires |used| == SLOTS && |destructors| == SLOTS && key <= SLOTS
    decreases SLOTS - key
  {
    if key == SLOTS then []
    else
      var value := Word(words, Slot(base, key));
      (if used[key] && destructors[key] != 0 && value != 0 then [Call(key, destructors[key], value)] else [])
      + Wanted(words, base, used, destructors, key + 1)
  }

  class Storage {
    const used: array<bool>
    const destructors: array<uint32>
    var threads: map<uint32, uint32>
    var words: map<int, uint32>
    /** How often a guest read, a guest write or a destructor has failed. */
    ghost var faults: nat

    ghost predicate Valid()
      reads this, used, destructors
    {
      && used.Length == SLOTS && destructors.Length == SLOTS
      && BlocksApart(threads) && Fresh(words, threads, used[..])
    }

    constructor ()
      ensures Valid() && threads == map[] && fresh(used) && fresh(destructors)
      ensures forall k :: 0 <= k < SLOTS ==> (used[k] <==> FIRST_USER_SLOT <= k < FIRST_APP_KEY)
    {
      used := new bool[SLOTS](k => FIRST_USER_SLOT <= k < FIRST_APP_KEY);
      destructors := new uint32[SLOTS](_ => 0);
      threads, words, faults := map[], map[], 0;
    }

    /** The guest-write callback, which may fail. */
    method Write(a: int, value: uint32) returns (ok: bool)
      modifies this`words, this`faults
      ensures words == if ok then old(words)[a := value] else old(words)
      ensures faults == old(faults) + if ok then 0 else 1
    {
      ok := *;
      if ok { words := words[a := value]; } else { faults := faults + 1; }
    }

    /** pthread_key_create: the lowest free key, and reading it gives NULL in every thread. */
    method KeyCreate(destructor: uint32) returns (key: Option<nat>)
      requires Valid()
      modifies used, destructors
      ensures Valid()
      ensures key == FirstFree(old(used[..]), FIRST_USER_SLOT)
      ensures key.None? ==> used[..] == old(used[..]) && destructors[..] == old(destructors[..])
      ensures key.Some? ==>
        && used[..] == old(used[..])[key.value := true]
          && destructors[..] == old(destructors[..])[key.value := destructor]
        && forall t :: t in threads ==> Word(words, Slot(threads[t], key.value)) == 0
    {
      var i := FIRST_USER_SLOT;
      while i < SLOTS
        invariant FIRST_USER_SLOT <= i <= SLOTS
        invariant FirstFree(used[..], FIRST_USER_SLOT) == FirstFree(used[..], i)
        invariant used[..] == old(used[..])
      {
        if !used[i] {
          used[i] := true;
          destructors[i] := destructor;
          return Some(i);
        }
        i := i + 1;
      }
      key := None;
    }

    /** pthread_key_delete: the key's slot is cleared in every thread before the key is free again. */
    method KeyDelete(key: uint32) returns (code: int)
      requires Valid()
      modifies used, destructors, this`words, this`faults
      ensures Valid()
      ensures code in {0, EINVAL, EFAULT} && faults >= old(faults)
      ensures code == EINVAL <==> !UserKey(key) || !old(used[key])
      ensures code == EFAULT <==> faults > old(faults)
      ensures code == 0 ==>
        && used[..] == old(used[..])[key := false] && destructors[..] == old(destructors[..])[key := 0]
        && forall t :: t in threads ==> Word(words, Slot(threads[t], key)) == 0
      ensures code != 0 ==> used[..] == old(used[..]) && destructors[..] == old(destructors[..])
      ensures code == EINVAL ==> words == old(words)
      ensures OnlyKey(old(words), words, threads, key) && LowSlotsSame(old(words), words, threads)
    {
      if !UserKey(key) || !used[key] { return EINVAL; }
      ghost var was := used[..];
      hide LowSlotsSame, OnlyKey;
      var ok := ClearEverywhere(key);
      LowSlotsKept(old(words), words, threads, key);
      if !ok { return EFAULT; }
      used[key] := false;
      destructors[key] := 0;
      assert used[..] == was[key := false];
      FreedKeyFresh(words, threads, was, key);
      code := 0;
    }

    /** The loop of pthread_key_delete over the threads, in whatever order the table yields them. */
    method ClearEverywhere(key: nat) returns (ok: bool)
      requires Valid() && UserKey(key)
      modifies this`words, this`faults
      ensures Valid() && OnlyKey(old(words), words, threads, key)
      ensures faults >= old(faults) && (ok <==> faults == old(faults))
      ensures ok ==> ZeroFor(words, threads, threads.Keys, key)
    {
      var left := threads.Keys;
      ghost var done: set<uint32> := {};
      ClearStart(words, threads, key);
      hide OnlyKey, ZeroFor, Fresh, BlocksApart;
      while left != {}
        invariant left <= threads.Keys && done + left == threads.Keys && Fresh(words, threads, used[..])
          && faults == old(faults)
        invariant OnlyKey(old(words), words, threads, key) && ZeroFor(words, threads, done, key)
        decreases |left|
      {
        var t :| t in left;
        ghost var before := words;
        ok := Write(Slot(threads[t], key), 0);
        if !ok { return; }
        ClearStep(old(words), before, threads, used[..], done, t, key);
        left, done := left - {t}, done + {t};
      }
      ok := true;
    }

    /** pthread_setspecific. */
    method SetSpecific(tid: uint32, key: uint32, value: uint32) returns (code: int)
      requires Valid()
      modifies this`words, this`faults
      ensures Valid()
      ensures code in {0, EINVAL, EFAULT} && (code == EINVAL <==> !UserKey(key) || tid !in threads || !used[key])
      ensures faults >= old(faults) && (code == EFAULT <==> faults > old(faults))
      ensures words == if code == 0 then old(words)[Slot(threads[tid], key) := value] else old(words)
      ensures LowSlotsSame(old(words), words, threads)
    {
      if !UserKey(key) || tid !in threads || !used[key] { return EINVAL; }
      SetKeepsFresh(words, threads, used[..], tid, key, value);
      LowSlotsKept(words, words[Slot(threads[tid], key) := value], threads, key);
      hide Fresh, BlocksApart;
      var ok := Write(Slot(threads[tid], key), value);
      code := if ok then 0 else EFAULT;
    }

    /** pthread_getspecific: NULL for every key that is not allocated, however it was used before. */
    method GetSpecific(tid: uint32, key: uint32) returns (code: int, value: uint32)
      requires Valid()
      modifies this`faults
      ensures code in {0, ESRCH, EFAULT} && faults >= old(faults) && (code == EFAULT <==> faults > old(faults))
      ensures !UserKey(key) ==> code == 0
      ensures code == ESRCH <==> UserKey(key) && tid !in threads
      ensures UserKey(key) && code == 0 ==> value == Word(words, Slot(threads[tid], key))
      ensures !UserKey(key) || code != 0 || !used[key] ==> value == 0
    {
      if !UserKey(key) { return 0, 0; }
      if tid !in threads { return ESRCH, 0; }
      var ok := *;
      if !ok {
        faults := faults + 1;
        return EFAULT, 0;
      }
      code, value := 0, Word(words, Slot(threads[tid], key));
    }

    /** register_thread: a zeroed block, its own address in slot 0 and the descriptor in slot 1. */
    method RegisterThread(tid: uint32, base: uint32, descriptor: uint32) returns (code: int)
      requires Valid() && forall t :: t in threads ==> Apart(base, threads[t])
      modifies this`threads, this`words, this`faults
      ensures Valid()
      ensures code in {0, EINVAL, EEXIST, EFAULT} && faults >= old(faults) && (code == EFAULT <==> faults > old(faults))
      ensures code == EINVAL <==> tid == 0 || base == 0 || base % 4 != 0 || base > 0xffff_ffff - 560
      ensures code == EEXIST <==> code != EINVAL && tid in old(threads)
      ensures threads == if code == 0 then old(threads)[tid := base] else old(threads)
      ensures code == 0 ==> Word(words, Slot(base, 0)) == base && Word(words, Slot(base, 1)) == descriptor
      ensures code == 0 ==> forall key :: 2 <= key < SLOTS ==> Word(words, Slot(base, key)) == 0
      ensures OnlyBlock(old(words), words, base)
    {
      if tid == 0 || base == 0 || base % 4 != 0 || base > 0xffff_ffff - 560 { return EINVAL; }
      if tid in threads { return EEXIST; }
      hide BlocksApart, Fresh, OnlyBlock;
      var ok := ZeroBlock(base);
      if ok { ok := Write(Slot(base, 0), base); }
      ghost var mid := words;
      if ok { ok := Write(Slot(base, 1), descriptor); }
      OutsideKeepsFresh(old(words), words, threads, used[..], base);
      if !ok { return EFAULT; }
      RegisteredFresh(words, threads, used[..], tid, base);
      threads := threads[tid := base];
      code := 0;
    }

    method ZeroBlock(base: int) returns (ok: bool)
      modifies this`words, this`faults
      ensures OnlyBlock(old(words), words, base)
      ensures faults >= old(faults) && (ok <==> faults == old(faults))
      ensures ok ==> forall key :: 0 <= key < SLOTS ==> Word(words, Slot(base, key)) == 0
    {
      var key := 0;
      while key < SLOTS
        invariant 0 <= key <= SLOTS && OnlyBlock(old(words), words, base) && faults == old(faults)
        invariant forall k :: 0 <= k < key ==> Word(words, Slot(base, k)) == 0
      {
        ok := Write(Slot(base, key), 0);
        if !ok { return; }
        key := key + 1;
      }
      ok := true;
    }

    method UnregisterThread(tid: uint32) returns (code: int)
      requires Valid()
      modifies this`threads
      ensures Valid() && threads == old(threads) - {tid} && code == if tid in old(threads) then 0 else ESRCH
    {
      code := if tid in threads then 0 else ESRCH;
      threads := threads - {tid};
    }

    // ---- Destructors --------------------------------------------------------------------------

    /** What the destructors of a thread depend on. */
    ghost function Now(): (r: Moment)
      reads this, used, destructors
    {
      Moment(words, used[..], destructors[..])
    }

    /**
     A call into this interface while a destructor runs, by its own guest code or by any other thread, as the lock is
     not held then. In a `quiet` run nobody touches the values or the registration of `tid` or the table of keys. Under
     a `watch` nobody writes to that key's slot of the block at `base`, registers a block over it or deletes the key.
     */
    method CallFromElsewhere(tid: uint32, base: uint32, quiet: bool, watch: Option<nat>)
      requires Valid() && (quiet ==> tid in threads && threads[tid] == base)
      modifies used, destructors, this`threads, this`words, this`faults
      ensures Valid() && (quiet ==> tid in threads && threads[tid] == base && SameBlock(old(words), words, base))
      ensures quiet ==> used[..] == old(used[..]) && destructors[..] == old(destructors[..])
      ensures Kept(old(Now()), Now(), base, watch)
    {
      hide BlocksApart, Fresh, OnlyBlock, OnlyKey, SameBlock;
      var op: nat, t: uint32, key: uint32, more: uint32 := *, *, *, *;
      ghost var was := words;
      if quiet { BlockUntouched(words, threads, tid, t, key, more); }
      if op == 0 && !(quiet && t == tid) && (watch.Some? ==> !Meets(base, watch.value, {t}, key)) {
        var c := SetSpecific(t, key, more);
      } else if op == 1 && FarFrom(more) && (watch.Some? ==> Apart(more, base)) {
        if quiet { assert Apart(more, threads[tid]); }
        var c := RegisterThread(t, more, key);
        if quiet { OtherBlock(was, words, base, more); }
        if watch.Some? { KeptOutside(was, words, base, used[..], destructors[..], more, watch.value); }
      } else if op == 2 && !(quiet && t == tid) {
        var c := UnregisterThread(t);
      } else if op == 3 && !quiet {
        var k := KeyCreate(more);
      } else if op == 4 && !quiet && (watch.Some? ==>
        key != watch.value && !Meets(base, watch.value, threads.Keys, key)) {
        var c := KeyDelete(key);
        if watch.Some? { OtherSlot(was, words, threads, base, key, watch.value); }
      }
    }

    predicate FarFrom(base: uint32)
      reads this
    {
      forall t :: t in threads ==> Apart(base, threads[t])
    }

    /** The slot of `other` in one of these threads' blocks is that of `key` in the block at `base`. */
    predicate Meets(base: int, key: int, some: set<uint32>, other: int)
      reads this
    {
      exists t :: t in some && t in threads && Slot(threads[t], other) == Slot(base, key)
    }

    /** Running a destructor, with any number of calls meanwhile; what fails in those is not counted here. */
    method Invoke(tid: uint32, base: uint32, quiet: bool, watch: Option<nat>) returns (code: int)
      requires Valid() && (quiet ==> tid in threads && threads[tid] == base)
      modifies used, destructors, this`threads, this`words, this`faults
      ensures Valid() && (quiet ==> tid in threads && threads[tid] == base && SameBlock(old(words), words, base))
      ensures quiet ==> used[..] == old(used[..]) && destructors[..] == old(destructors[..])
      ensures Kept(old(Now()), Now(), base, watch)
      ensures faults == old(faults) + if code == 0 then 0 else 1
    {
      code := *;
      ghost var own := faults + if code == 0 then 0 else 1;
      var n: nat := *;
      assert SameBlock(words, words, base);
      hide BlocksApart, Fresh, SameBlock, Asked;
      while n > 0
        invariant Valid() && (quiet ==> tid in threads && threads[tid] == base && SameBlock(old(words), words, base))
        invariant quiet ==> used[..] == old(used[..]) && destructors[..] == old(destructors[..])
        invariant Kept(old(Now()), Now(), base, watch)
      {
        ghost var mid := words;
        CallFromElsewhere(tid, base, quiet, watch);
        if quiet { SameBlockTrans(old(words), mid, words, base); }
        n := n - 1;
      }
      faults := own;
    }

    /**
     One key of a pass: clear the value, then call its destructor with it. The destructor is called exactly if the key
     has one and the value is not zero, whoever else is running.
     */
    method Visit(tid: uint32, base: uint32, key: nat, quiet: bool, watch: Option<nat>)
        returns (code: int, happened: bool, ghost call: Option<Call>)
      requires Valid() && UserKey(key) && (quiet ==> tid in threads && threads[tid] == base)
      modifies used, destructors, this`threads, this`words, this`faults
      ensures Valid() && happened == call.Some? && (quiet ==> tid in threads && threads[tid] == base)
      ensures code == 0 || call.Some? ==> call == Asked(old(Now()), base, key)
      ensures call.None? ==> Now() == old(Now())
      ensures watch != Some(key) ==> Kept(old(Now()), Now(), base, watch)
      ensures quiet ==> used[..] == old(used[..]) && destructors[..] == old(destructors[..])
      ensures faults >= old(faults) && (code == 0 <==> faults == old(faults))
      ensures quiet && code == 0 ==> Visited(old(words), words, base, used[..], destructors[..], key, call)
    {
      happened, call := false, None;
      if !used[key] || destructors[key] == 0 { return 0, false, None; }
      var readable := *;
      if !readable {
        faults := faults + 1;
        return EFAULT, false, None;
      }
      var value := Word(words, Slot(base, key));
      if value == 0 { return 0, false, None; }
      var destructor := destructors[key];
      ZeroKeepsFresh(words, threads, used[..], Slot(base, key));
      hide BlocksApart, Fresh;
      var ok := Write(Slot(base, key), 0);
      if !ok { return EFAULT, false, None; }
      code := Invoke(tid, base, quiet, watch);
      happened, call := true, Some(Call(key, destructor, value));
    }

    /**
     One pass of CleanAll over the keys. `moments` are the states before the first call and after each one. What the
     watched key asks for at its moment is called later in the pass or is still asked for at the end, and it is called
     if the watch began with the pass.
     */
    method Pass(tid: uint32, base: uint32, quiet: bool, watch: Watch)
        returns (code: int, called: nat, ghost made: seq<Call>, ghost moments: seq<Moment>)
      requires Valid() && (quiet ==> tid in threads && threads[tid] == base) && UserKey(watch.key)
      modifies used, destructors, this`threads, this`words, this`faults
      ensures Valid() && (code == 0 ==> called == |made|) && (quiet ==> tid in threads && threads[tid] == base)
      ensures OncePerKey(made, SLOTS)
      ensures quiet ==> used[..] == old(used[..]) && destructors[..] == old(destructors[..])
      ensures faults >= old(faults) && (code == 0 <==> faults == old(faults))
      ensures quiet && code == 0 ==> Passed(old(words), words, base, used[..], destructors[..], SLOTS, made)
      ensures code == 0 ==> Followed(base, made, moments, old(Now()), Now(), watch, SLOTS)
    {
      hide BlocksApart, Fresh, Passed, OncePerKey, Visited, With, Underway, Asked, Followed, Kept;
      hide Wants, Word, Slot, Apart;
      code, called, made, moments := 0, 0, [], [Now()];
      var key := FIRST_USER_SLOT;
      ghost var start := Now();
      UnderwayStart(quiet, base, start, watch);
      while key < SLOTS
        invariant FIRST_USER_SLOT <= key <= SLOTS && Valid() && called == |made| && faults == old(faults) && code == 0
        invariant quiet ==> tid in threads && threads[tid] == base
        invariant Underway(quiet, base, start, Now(), watch, key, made, moments)
      {
        ghost var before, call := Now(), None;
        var happened;
        code, happened, call := Visit(tid, base, key, quiet, if watch.from <= called then Some(watch.key) else None);
        UnderwayStep(quiet, base, start, before, Now(), watch, key, made, moments, code, call);
        moments := if call.Some? then moments + [Now()] else moments;
        made := With(made, call);
        if code != 0 { return; }
        if happened { called := called + 1; }
        key := key + 1;
      }
      UnderwayEnd(quiet, base, start, Now(), watch, made, moments);
    }

    /**
     cleanup_thread: at most four passes, ended by the first that calls nothing (see Cleaned, which holds whoever else
     is running). In a quiet run the first pass calls every destructor that the thread's values ask for, in the order
     of the keys, and leaves no such value.
     */
    method CleanupThread(tid: uint32, quiet: bool, watch: Watch)
        returns (code: int, ghost log: seq<Call>, ghost passes: seq<seq<Call>>, ghost moments: seq<Moment>)
      requires Valid() && UserKey(watch.key)
      modifies used, destructors, this`threads, this`words, this`faults
      ensures Valid()
      ensures tid !in old(threads) ==> code == ESRCH && log == [] && Now() == old(Now())
      ensures forall key: nat :: CallsOf(log, key) <= 4
      ensures quiet ==> used[..] == old(used[..]) && destructors[..] == old(destructors[..])
      ensures faults >= old(faults) && (tid in old(threads) ==> (code == 0 <==> faults == old(faults)))
      ensures code == 0 ==> Cleaned(old(threads)[tid], old(Now()), Now(), log, passes, moments, watch)
      ensures quiet && code == 0 ==>
        && tid in threads && threads[tid] == old(threads)[tid]
        && log == Wanted(old(words), threads[tid], used[..], destructors[..], FIRST_USER_SLOT)
        && Wanted(words, threads[tid], used[..], destructors[..], FIRST_USER_SLOT) == []
    {
      hide BlocksApart, Fresh, Passed, OncePerKey, Wanted, CallsOf, AtMost, Asked, Followed, Flat, Rounds, NoneEmpty;
      hide Wants, Trail, LastOf, Word, Slot, Apart, Cleaned;
      log, passes, moments := [], [], [Now()];
      NoCallsEver();
      if tid !in threads { return ESRCH, [], [], []; }
      var base := threads[tid];
      code := 0;
      var round := 0;
      var total := 0;
      ghost var start := Now();
      RoundsStart(quiet, base, start, watch);
      while round < 4
        invariant 0 <= round <= 4 && Valid() && code == 0 && faults == old(faults)
        invariant total == |log| && |passes| == round && NoneEmpty(passes, round)
        invariant quiet ==> used[..] == start.used && destructors[..] == start.destructors
        invariant quiet ==> tid in threads && threads[tid] == base
        invariant Rounds(quiet, base, start, Now(), watch, log, passes, moments)
      {
        ghost var before := Now();
        ghost var made, more;
        var called;
        code, called, made, more := Pass(tid, base, quiet, watch.After(total));
        if code != 0 { FaultyRound(quiet, base, start, before, watch, log, passes, moments, made); }
        if code == 0 { RoundsMore(quiet, base, start, before, Now(), watch, log, passes, moments, made, more); }
        if code == 0 { moments := moments + more[1..]; }
        NoneEmptyMore(passes, made);
        log, passes := log + made, passes + [made];
        round, total := round + 1, total + called;
        if code != 0 || called == 0 { break; }
      }
      if code == 0 { RoundsEnd(quiet, base, start, Now(), watch, log, passes, moments); }
    }
  }

  // ---- What a pass does when others interfere -----------------------------------------------------

  /** What decides which destructors are called: the guest's words and the table of keys. */
  datatype Moment = Moment(words: map<int, uint32>, used: seq<bool>, destructors: seq<uint32>)

  /** From the moment after `from` calls on, nobody else touches this key of the thread. */
  datatype Watch = Watch(from: nat, key: nat) {
    function After(calls: nat): (r: Watch) { Watch(if calls <= from then from - calls else 0, key) }
  }

  /** The call that one key of the block asks for. */
  ghost function Asked(m: Moment, base: int, key: nat): (r: Option<Call>) {
    if |m.used| == SLOTS == |m.destructors| && key < SLOTS && Wants(m.words, base, m.used, m.destructors, key) then
      Some(Call(key, m.destructors[key], Word(m.words, Slot(base, key))))
    else None
  }

  /** What the watched key asks for, it still asks for. */
  ghost predicate Kept(was: Moment, now: Moment, base: int, watch: Option<nat>) {
    watch.Some? && Asked(was, base, watch.value).Some? ==>
      Asked(now, base, watch.value) == Asked(was, base, watch.value)
  }

  lemma KeptOutside(was: map<int, uint32>, now: map<int, uint32>, base: int, used: seq<bool>, destructors: seq<uint32>,
      other: int, key: nat)
    requires Apart(other, base) && OnlyBlock(was, now, other)
    ensures Kept(Moment(was, used, destructors), Moment(now, used, destructors), base, Some(key))
  {
  }

  lemma OtherSlot(was: map<int, uint32>, now: map<int, uint32>, threads: map<uint32, uint32>, base: int, other: int,
      key: nat)
    requires OnlyKey(was, now, threads, other) && forall t :: t in threads ==>
      Slot(threads[t], other) != Slot(base, key)
    ensures Word(now, Slot(base, key)) == Word(was, Slot(base, key))
  {
  }

  /** Calls and the moments around them: each call is one that was asked for just before. */
  ghost predicate Logged(base: int, log: seq<Call>, moments: seq<Moment>, start: Moment, now: Moment) {
    && |moments| == |log| + 1 && moments[0] == start && moments[|log|] == now
    && forall i :: 0 <= i < |log| ==> Some(log[i]) == Asked(moments[i], base, log[i].key)
  }

  lemma LoggedMore(base: int, log: seq<Call>, moments: seq<Moment>, start: Moment, was: Moment, made: seq<Call>,
      more: seq<Moment>, now: Moment)
    requires Logged(base, log, moments, start, was) && Logged(base, made, more, was, now)
    ensures |moments| == |log| + 1 && |more| == |made| + 1
      && Logged(base, log + made, moments + more[1..], start, now)
    ensures forall i :: 0 <= i <= |log| ==> (moments + more[1..])[i] == moments[i]
    ensures forall i :: 0 <= i <= |made| ==> (moments + more[1..])[|log| + i] == more[i]
  {
    hide Asked;
    var log', moments' := log + made, moments + more[1..];
    forall i | 0 <= i < |log'| ensures Some(log'[i]) == Asked(moments'[i], base, log'[i].key) {
      if i >= |log| { assert log'[i] == made[i - |log|] && moments'[i] == more[i - |log|]; }
    }
  }

  /** What the watched key asked for at its moment has been called since. */
  ghost predicate Answered(base: int, log: seq<Call>, moments: seq<Moment>, watch: Watch)
    requires watch.from <= |log| && watch.from < |moments|
  {
    var asked := Asked(moments[watch.from], base, watch.key);
    asked.Some? ==> asked.value in log[watch.from..]
  }

  /** It is still asked for. */
  ghost predicate Open(base: int, moments: seq<Moment>, now: Moment, watch: Watch)
    requires watch.from < |moments|
  {
    Asked(now, base, watch.key) == Asked(moments[watch.from], base, watch.key)
  }

  lemma AnsweredMore(base: int, log: seq<Call>, moments: seq<Moment>, watch: Watch, made: seq<Call>,
      more: seq<Moment>)
    requires watch.from <= |log| && |moments| == |log| + 1 && Answered(base, log, moments, watch)
    ensures Answered(base, log + made, moments + more, watch)
  {
    hide Asked;
    assert (log + made)[watch.from..] == log[watch.from..] + made;
  }

  /** A pass that has come to `key`: a watched key that is still open is yet to come, or has been set since. */
  ghost predicate Followed(base: int, made: seq<Call>, moments: seq<Moment>, start: Moment, now: Moment, watch: Watch,
      key: nat)
  {
    && Logged(base, made, moments, start, now)
    && (made == [] ==> forall k :: FIRST_USER_SLOT <= k < key ==> Asked(now, base, k) == None)
    && (watch.from <= |made| ==>
          Answered(base, made, moments, watch)
          || (Open(base, moments, now, watch) && (watch.from == 0 ==> key <= watch.key)))
  }

  lemma FollowedStart(base: int, now: Moment, watch: Watch)
    requires UserKey(watch.key)
    ensures Followed(base, [], [now], now, now, watch, FIRST_USER_SLOT)
  {
    hide Asked;
  }

  lemma FollowedStep(base: int, made: seq<Call>, moments: seq<Moment>, start: Moment, was: Moment, now: Moment,
      watch: Watch, key: nat, call: Option<Call>)
    requires Followed(base, made, moments, start, was, watch, key) && call == Asked(was, base, key)
    requires call.None? ==> now == was
    requires watch.from <= |made| && watch.key != key ==> Kept(was, now, base, Some(watch.key))
    ensures Followed(base, With(made, call), if call.Some? then moments + [now] else moments, start, now, watch,
      key + 1)
  {
    assert call.Some? ==> call.value.key == key;
    hide Asked;
    if call.Some? {
      FollowedCall(base, made, moments, start, was, now, watch, key, call.value);
    } else {
      hide Logged;
    }
  }

  lemma FollowedCall(base: int, made: seq<Call>, moments: seq<Moment>, start: Moment, was: Moment, now: Moment,
      watch: Watch, key: nat, call: Call)
    requires Followed(base, made, moments, start, was, watch, key) && Some(call) == Asked(was, base, key)
      && call.key == key
    requires watch.from <= |made| && watch.key != key ==> Kept(was, now, base, Some(watch.key))
    ensures Followed(base, made + [call], moments + [now], start, now, watch, key + 1)
  {
    hide Asked;
    LoggedMore(base, made, moments, start, was, [call], [was, now], now);
    assert [was, now][1..] == [now];
    hide Logged;
    if watch.from <= |made| {
      assert (moments + [now])[watch.from] == moments[watch.from];
      if Answered(base, made, moments, watch) {
        AnsweredMore(base, made, moments, watch, [call], [now]);
      } else if watch.key == key {
        assert call in (made + [call])[watch.from..] by { assert (made + [call])[|made|] == call; }
      }
    }
  }

  /** The passes, one after the other. */
  ghost function Flat(passes: seq<seq<Call>>): (r: seq<Call>) {
    if passes == [] then [] else Flat(passes[..|passes| - 1]) + passes[|passes| - 1]
  }

  lemma FlatMore(passes: seq<seq<Call>>, made: seq<Call>)
    ensures Flat(passes + [made]) == Flat(passes) + made
  {
    assert (passes + [made])[..|passes|] == passes;
  }

  /** The calls of the last pass, if there has been one. */
  ghost function LastOf(passes: seq<seq<Call>>): (r: Option<seq<Call>>) {
    if passes == [] then None else Some(passes[|passes| - 1])
  }

  /** The calls of all passes so far; only what began to be watched in the last one can still be open. */
  ghost predicate Trail(base: int, log: seq<Call>, moments: seq<Moment>, start: Moment, now: Moment, watch: Watch,
      last: Option<seq<Call>>)
  {
    && Logged(base, log, moments, start, now)
    && (last == Some([]) ==> forall k :: FIRST_USER_SLOT <= k < SLOTS ==> Asked(now, base, k) == None)
    && (watch.from <= |log| ==>
          Answered(base, log, moments, watch)
          || (Open(base, moments, now, watch) && (last.Some? ==> watch.from > |log| - |last.value|)))
  }

  lemma TrailStart(base: int, now: Moment, watch: Watch)
    ensures Trail(base, [], [now], now, now, watch, LastOf([]))
  {
    hide Asked;
  }

  lemma AnsweredLater(base: int, log: seq<Call>, moments: seq<Moment>, watch: Watch, made: seq<Call>,
      more: seq<Moment>)
    requires |moments| == |log| + 1 && |more| == |made| + 1 && watch.from <= |log + made|
    requires var later := watch.After(|log|);
      later.from <= |made| && Answered(base, made, more, later)
    requires if watch.from <= |log| then Open(base, moments, more[0], watch)
      else more[watch.from - |log|] == (moments + more[1..])[watch.from]
    ensures Answered(base, log + made, moments + more[1..], watch)
  {
    hide Asked;
    if watch.from <= |log| {
      assert (log + made)[watch.from..] == log[watch.from..] + made;
    } else {
      assert (log + made)[watch.from..] == made[watch.from - |log|..];
    }
  }

  lemma TrailMore(base: int, log: seq<Call>, moments: seq<Moment>, start: Moment, was: Moment, now: Moment,
      watch: Watch, passes: seq<seq<Call>>, made: seq<Call>, more: seq<Moment>)
    requires UserKey(watch.key) && Trail(base, log, moments, start, was, watch, LastOf(passes))
    requires Followed(base, made, more, was, now, watch.After(|log|), SLOTS)
    ensures |more| > 0 && Trail(base, log + made, moments + more[1..], start, now, watch, LastOf(passes + [made]))
  {
    LoggedMore(base, log, moments, start, was, made, more, now);
    assert more[0] == was;
    assert LastOf(passes + [made]) == Some(made);
    hide Asked, Logged, Answered, LastOf;
    var later := watch.After(|log|);
    if watch.from <= |log| && Answered(base, log, moments, watch) {
      AnsweredMore(base, log, moments, watch, made, more[1..]);
    } else if watch.from <= |log + made| && Answered(base, made, more, later) {
      AnsweredLater(base, log, moments, watch, made, more);
    }
  }

  /**
   The calls are those of the passes, at most four. Each was asked for when it was made. A pass that calls something is
   followed by another unless it is the fourth; after one that calls nothing, nothing is asked for any more. Whatever
   the watched key asks for at its moment, before the last pass has begun to call, is called later.
   */
  ghost predicate Cleaned(base: int, start: Moment, now: Moment, log: seq<Call>, passes: seq<seq<Call>>,
      moments: seq<Moment>, watch: Watch)
  {
    && 1 <= |passes| <= 4 && log == Flat(passes) && Logged(base, log, moments, start, now)
    && (forall p :: 0 <= p < |passes| - 1 ==> passes[p] != [])
    && (passes[|passes| - 1] == [] ==> forall key: nat :: UserKey(key) ==> Asked(now, base, key) == None)
    && (passes[|passes| - 1] != [] ==> |passes| == 4)
    && (watch.from <= |log| - |passes[|passes| - 1]| ==> Answered(base, log, moments, watch))
  }

  ghost predicate NoneEmpty(passes: seq<seq<Call>>, n: nat) {
    forall p :: 0 <= p < n && p < |passes| ==> passes[p] != []
  }

  lemma NoneEmptyMore(passes: seq<seq<Call>>, made: seq<Call>)
    requires NoneEmpty(passes, |passes|)
    ensures NoneEmpty(passes + [made], |passes|) && (made != [] ==> NoneEmpty(passes + [made], |passes| + 1))
  {
  }

  /** The passes so far; in a quiet run the first one makes all calls. */
  ghost predicate Rounds(quiet: bool, base: int, start: Moment, now: Moment, watch: Watch, log: seq<Call>,
      passes: seq<seq<Call>>, moments: seq<Moment>)
  {
    && |start.used| == SLOTS == |start.destructors|
    && AtMost(log, |passes|) && log == Flat(passes) && Trail(base, log, moments, start, now, watch, LastOf(passes))
    && (quiet && passes == [] ==> now == start)
    && (quiet && passes != [] ==>
          && log == Wanted(start.words, base, start.used, start.destructors, FIRST_USER_SLOT)
          && Wanted(now.words, base, start.used, start.destructors, FIRST_USER_SLOT) == [])
  }

  lemma RoundsStart(quiet: bool, base: int, now: Moment, watch: Watch)
    requires |now.used| == SLOTS == |now.destructors|
    ensures Rounds(quiet, base, now, now, watch, [], [], [now]) && NoneEmpty([], 0)
  {
    NoCalls();
    TrailStart(base, now, watch);
    hide Asked, Trail, Wanted, AtMost;
  }

  lemma RoundsMore(quiet: bool, base: int, start: Moment, was: Moment, now: Moment, watch: Watch, log: seq<Call>,
      passes: seq<seq<Call>>, moments: seq<Moment>, made: seq<Call>, more: seq<Moment>)
    requires UserKey(watch.key) && Rounds(quiet, base, start, was, watch, log, passes, moments)
    requires Followed(base, made, more, was, now, watch.After(|log|), SLOTS) && OncePerKey(made, SLOTS)
    requires |now.used| == SLOTS == |now.destructors|
    requires quiet ==>
      && now.used == start.used && now.destructors == start.destructors
      && Passed(was.words, now.words, base, now.used, now.destructors, SLOTS, made)
    ensures |more| > 0 && Rounds(quiet, base, start, now, watch, log + made, passes + [made], moments + more[1..])
  {
    AtMostMore(log, made, |passes|);
    FlatMore(passes, made);
    TrailMore(base, log, moments, start, was, now, watch, passes, made, more);
    hide Asked, Trail, Followed, Wanted, AtMost, Flat, OncePerKey, LastOf;
    if quiet { PassResult(was.words, now.words, base, now.used, now.destructors, made); }
    hide Passed;
  }

  /** A failed pass has called each destructor once at most, too. */
  lemma FaultyRound(quiet: bool, base: int, start: Moment, was: Moment, watch: Watch, log: seq<Call>,
      passes: seq<seq<Call>>, moments: seq<Moment>, made: seq<Call>)
    requires Rounds(quiet, base, start, was, watch, log, passes, moments) && OncePerKey(made, SLOTS) && |passes| < 4
    ensures forall key: nat :: CallsOf(log + made, key) <= 4
  {
    AtMostMore(log, made, |passes|);
    hide Trail, Wanted, OncePerKey, CallsOf, Flat, LastOf;
  }

  lemma RoundsEnd(quiet: bool, base: int, start: Moment, now: Moment, watch: Watch, log: seq<Call>,
      passes: seq<seq<Call>>, moments: seq<Moment>)
    requires Rounds(quiet, base, start, now, watch, log, passes, moments) && 0 < |passes| <= 4
      && |now.used| == SLOTS == |now.destructors|
    requires NoneEmpty(passes, |passes| - 1) || NoneEmpty(passes, |passes|)
    ensures forall key: nat :: CallsOf(log, key) <= 4
    ensures passes[|passes| - 1] == [] || |passes| == 4 ==> Cleaned(base, start, now, log, passes, moments, watch)
    ensures quiet ==>
      && log == Wanted(start.words, base, start.used, start.destructors, FIRST_USER_SLOT)
      && Wanted(now.words, base, start.used, start.destructors, FIRST_USER_SLOT) == []
  {
    AtMostFour(log, |passes|);
    assert |Flat(passes)| >= |passes[|passes| - 1]|;
    hide Asked, Wanted, AtMost, Flat, CallsOf;
  }

  /** The two agree on one thread's block. */
  ghost predicate SameBlock(was: map<int, uint32>, now: map<int, uint32>, base: int) {
    forall a :: base <= a < base + 4 * SLOTS ==> Word(now, a) == Word(was, a)
  }

  lemma SameBlockTrans(was: map<int, uint32>, mid: map<int, uint32>, now: map<int, uint32>, base: int)
    requires SameBlock(was, mid, base) && SameBlock(mid, now, base)
    ensures SameBlock(was, now, base)
  {
  }

  lemma OtherBlock(was: map<int, uint32>, now: map<int, uint32>, base: int, other: int)
    requires Apart(other, base) && OnlyBlock(was, now, other)
    ensures SameBlock(was, now, base)
  {
  }

  /** Setting a value of another thread. */
  lemma BlockUntouched(words: map<int, uint32>, threads: map<uint32, uint32>, tid: uint32, t: uint32, key: nat,
      value: uint32)
    requires BlocksApart(threads) && tid in threads
    ensures SameBlock(words, words, threads[tid])
    ensures t != tid && t in threads && UserKey(key) ==>
      SameBlock(words, words[Slot(threads[t], key) := value], threads[tid])
  {
    if t != tid && t in threads { assert Apart(threads[t], threads[tid]); }
  }

  predicate Wants(words: map<int, uint32>, base: int, used: seq<bool>, destructors: seq<uint32>, key: nat)
    requires |used| == SLOTS == |destructors| && key < SLOTS
  {
    used[key] && destructors[key] != 0 && Word(words, Slot(base, key)) != 0
  }

  /** What a visit does when the destructor leaves the thread's data alone. */
  ghost predicate Visited(was: map<int, uint32>, now: map<int, uint32>, base: int, used: seq<bool>,
      destructors: seq<uint32>, key: nat, call: Option<Call>)
    requires |used| == SLOTS == |destructors| && key < SLOTS
  {
    if Wants(was, base, used, destructors, key) then
      call == Some(Call(key, destructors[key], Word(was, Slot(base, key))))
        && SameBlock(was[Slot(base, key) := 0], now, base)
    else call == None && SameBlock(was, now, base)
  }

  /** After the keys below `key`: exactly the calls wanted there were made, and exactly those slots cleared. */
  ghost predicate Passed(was: map<int, uint32>, now: map<int, uint32>, base: int, used: seq<bool>,
      destructors: seq<uint32>, key: nat, made: seq<Call>)
    requires |used| == SLOTS == |destructors|
  {
    && FIRST_USER_SLOT <= key <= SLOTS
    && made + Wanted(was, base, used, destructors, key) == Wanted(was, base, used, destructors, FIRST_USER_SLOT)
    && Cleared(was, now, base, used, destructors, key)
  }

  /** `a` is the slot of a key below `key` that wants its destructor. */
  ghost predicate Hit(was: map<int, uint32>, base: int, used: seq<bool>, destructors: seq<uint32>, key: nat, a: int)
    requires |used| == SLOTS == |destructors| && key <= SLOTS
  {
    exists k :: FIRST_USER_SLOT <= k < key && Wants(was, base, used, destructors, k) && a == Slot(base, k)
  }

  ghost predicate Cleared(was: map<int, uint32>, now: map<int, uint32>, base: int, used: seq<bool>,
      destructors: seq<uint32>, key: nat)
    requires |used| == SLOTS == |destructors| && key <= SLOTS
  {
    forall a :: base <= a < base + 4 * SLOTS ==>
      Word(now, a) == if Hit(was, base, used, destructors, key, a) then 0 else Word(was, a)
  }

  lemma PassStart(was: map<int, uint32>, base: int, used: seq<bool>, destructors: seq<uint32>)
    requires |used| == SLOTS == |destructors|
    ensures Passed(was, was, base, used, destructors, FIRST_USER_SLOT, []) && OncePerKey([], FIRST_USER_SLOT)
  {
  }

  /** The state of a pass; of a noisy one only that no destructor ran twice. */
  ghost predicate Passing(quiet: bool, was: map<int, uint32>, now: map<int, uint32>, base: int, u: seq<bool>,
      d: seq<uint32>, used: seq<bool>, destructors: seq<uint32>, key: nat, made: seq<Call>)
    requires |u| == SLOTS == |d|
  {
    OncePerKey(made, key) && (quiet ==> used == u && destructors == d && Passed(was, now, base, u, d, key, made))
  }

  lemma PassingStart(quiet: bool, was: map<int, uint32>, base: int, u: seq<bool>, d: seq<uint32>)
    requires |u| == SLOTS == |d|
    ensures Passing(quiet, was, was, base, u, d, u, d, FIRST_USER_SLOT, [])
  {
    PassStart(was, base, u, d);
  }

  lemma PassingStep(quiet: bool, was: map<int, uint32>, mid: map<int, uint32>, now: map<int, uint32>, base: int,
      u: seq<bool>, d: seq<uint32>, u': seq<bool>, d': seq<uint32>, used: seq<bool>, destructors: seq<uint32>, key: nat,
      made: seq<Call>, code: int, call: Option<Call>)
    requires |u| == SLOTS == |d| && |u'| == SLOTS == |d'| && |used| == SLOTS == |destructors| && UserKey(key)
    requires Passing(quiet, was, mid, base, u, d, u', d', key, made) && (call.Some? ==> call.value.key == key)
    requires quiet ==> used == u' && destructors == d' && (code == 0 ==>
      Visited(mid, now, base, used, destructors, key, call))
    ensures code == 0 ==> Passing(quiet, was, now, base, u, d, used, destructors, key + 1, With(made, call))
    ensures OncePerKey(With(made, call), SLOTS) && (quiet ==> used == u && destructors == d)
  {
    OnceStep(made, key, call);
    if quiet && code == 0 { PassStep(was, mid, now, base, u, d, key, made, call); }
  }

  /** The state of a pass that has come to `key`. */
  ghost predicate Underway(quiet: bool, base: int, start: Moment, now: Moment, watch: Watch, key: nat, made: seq<Call>,
      moments: seq<Moment>)
  {
    && |start.used| == SLOTS == |start.destructors|
    && Passing(quiet, start.words, now.words, base, start.used, start.destructors, now.used, now.destructors, key, made)
    && Followed(base, made, moments, start, now, watch, key)
  }

  lemma UnderwayStart(quiet: bool, base: int, now: Moment, watch: Watch)
    requires |now.used| == SLOTS == |now.destructors| && UserKey(watch.key)
    ensures Underway(quiet, base, now, now, watch, FIRST_USER_SLOT, [], [now])
  {
    PassingStart(quiet, now.words, base, now.used, now.destructors);
    FollowedStart(base, now, watch);
    hide Passing, Followed;
  }

  lemma UnderwayStep(quiet: bool, base: int, start: Moment, was: Moment, now: Moment, watch: Watch, key: nat,
      made: seq<Call>, moments: seq<Moment>, code: int, call: Option<Call>)
    requires |was.used| == SLOTS == |was.destructors| && |now.used| == SLOTS == |now.destructors| && UserKey(key)
    requires Underway(quiet, base, start, was, watch, key, made, moments)
    requires (code == 0 || call.Some? ==> call == Asked(was, base, key)) && (call.None? ==> now == was)
    requires watch.from <= |made| && watch.key != key ==> Kept(was, now, base, Some(watch.key))
    requires quiet ==>
      && now.used == was.used && now.destructors == was.destructors
      && (code == 0 ==> Visited(was.words, now.words, base, now.used, now.destructors, key, call))
    ensures |With(made, call)| == |made| + if call.Some? then 1 else 0
    ensures OncePerKey(With(made, call), SLOTS) && (quiet ==>
      now.used == start.used && now.destructors == start.destructors)
    ensures code == 0 ==> Underway(quiet, base, start, now, watch, key + 1, With(made, call),
      if call.Some? then moments + [now] else moments)
  {
    WithSize(made, call);
    assert call.Some? ==> call.value.key == key;
    PassingStep(quiet, start.words, was.words, now.words, base, start.used, start.destructors, was.used,
      was.destructors, now.used, now.destructors, key, made, code, call);
    hide Passing, Visited, With, Asked, Kept, Followed, OncePerKey;
    if code == 0 { FollowedStep(base, made, moments, start, was, now, watch, key, call); }
  }

  lemma UnderwayEnd(quiet: bool, base: int, start: Moment, now: Moment, watch: Watch, made: seq<Call>,
      moments: seq<Moment>)
    requires Underway(quiet, base, start, now, watch, SLOTS, made, moments)
    ensures OncePerKey(made, SLOTS) && Followed(base, made, moments, start, now, watch, SLOTS)
    ensures |start.used| == SLOTS == |start.destructors|
    ensures quiet ==>
      && now.used == start.used && now.destructors == start.destructors
      && Passed(start.words, now.words, base, now.used, now.destructors, SLOTS, made)
  {
    hide OncePerKey, Followed, Passed;
  }

  lemma HitStep(was: map<int, uint32>, base: int, used: seq<bool>, destructors: seq<uint32>, key: nat, a: int)
    requires |used| == SLOTS == |destructors| && UserKey(key)
    ensures Hit(was, base, used, destructors, key + 1, a) <==>
      Hit(was, base, used, destructors, key, a) || (Wants(was, base, used, destructors, key) && a == Slot(base, key))
    ensures !Hit(was, base, used, destructors, key, Slot(base, key))
  {
    if Hit(was, base, used, destructors, key + 1, a) {
      var k :| FIRST_USER_SLOT <= k < key + 1 && Wants(was, base, used, destructors, k) && a == Slot(base, k);
    }
    hide Wants;
  }

  lemma ClearedStep(was: map<int, uint32>, mid: map<int, uint32>, now: map<int, uint32>, base: int, used: seq<bool>,
      destructors: seq<uint32>, key: nat, call: Option<Call>)
    requires |used| == SLOTS == |destructors| && UserKey(key)
    requires Cleared(was, mid, base, used, destructors, key) && Visited(mid, now, base, used, destructors, key, call)
    ensures Cleared(was, now, base, used, destructors, key + 1)
    ensures Word(mid, Slot(base, key)) == Word(was, Slot(base, key))
  {
    HitStep(was, base, used, destructors, key, Slot(base, key));
    hide Hit;
    assert Word(mid, Slot(base, key)) == Word(was, Slot(base, key));
    forall a | base <= a < base + 4 * SLOTS
      ensures Word(now, a) == if Hit(was, base, used, destructors, key + 1, a) then 0 else Word(was, a) {
      HitStep(was, base, used, destructors, key, a);
      assert Word(mid, a) == if Hit(was, base, used, destructors, key, a) then 0 else Word(was, a);
    }
  }

  lemma PassStep(was: map<int, uint32>, mid: map<int, uint32>, now: map<int, uint32>, base: int, used: seq<bool>,
      destructors: seq<uint32>, key: nat, made: seq<Call>, call: Option<Call>)
    requires |used| == SLOTS == |destructors| && UserKey(key)
    requires Passed(was, mid, base, used, destructors, key, made)
      && Visited(mid, now, base, used, destructors, key, call)
    ensures Passed(was, now, base, used, destructors, key + 1, With(made, call))
  {
    ClearedStep(was, mid, now, base, used, destructors, key, call);
    WantedStep(was, mid, now, base, used, destructors, key, call);
    hide Cleared, Wanted, Visited, With;
    Regroup(made, call, Wanted(was, base, used, destructors, key + 1));
  }

  lemma WantedStep(was: map<int, uint32>, mid: map<int, uint32>, now: map<int, uint32>, base: int, used: seq<bool>,
      destructors: seq<uint32>, key: nat, call: Option<Call>)
    requires |used| == SLOTS == |destructors| && UserKey(key)
    requires Word(mid, Slot(base, key)) == Word(was, Slot(base, key))
      && Visited(mid, now, base, used, destructors, key, call)
    ensures Wanted(was, base, used, destructors, key) == With([], call) + Wanted(was, base, used, destructors, key + 1)
  {
    hide Word, Slot;
  }

  lemma Regroup(made: seq<Call>, call: Option<Call>, rest: seq<Call>)
    ensures With(made, call) + rest == made + (With([], call) + rest)
  {
  }

  /** A whole quiet pass: all wanted calls, and nothing is wanted any more. */
  lemma PassResult(was: map<int, uint32>, now: map<int, uint32>, base: int, used: seq<bool>, destructors: seq<uint32>,
      made: seq<Call>)
    requires |used| == SLOTS == |destructors| && Passed(was, now, base, used, destructors, SLOTS, made)
    ensures made == Wanted(was, base, used, destructors, FIRST_USER_SLOT)
      && Wanted(now, base, used, destructors, FIRST_USER_SLOT) == []
  {
    assert made + [] == made;
    forall k | FIRST_USER_SLOT <= k < SLOTS ensures !Wants(now, base, used, destructors, k) {
      ClearedWantsNot(was, now, base, used, destructors, k);
    }
    hide Wants, Passed;
    NothingWanted(now, base, used, destructors, FIRST_USER_SLOT);
  }

  lemma ClearedWantsNot(was: map<int, uint32>, now: map<int, uint32>, base: int, used: seq<bool>,
      destructors: seq<uint32>, k: nat)
    requires |used| == SLOTS == |destructors| && Cleared(was, now, base, used, destructors, SLOTS) && UserKey(k)
    ensures !Wants(now, base, used, destructors, k)
  {
    assert Word(now, Slot(base, k)) == if Hit(was, base, used, destructors, SLOTS, Slot(base, k)) then 0
      else Word(was, Slot(base, k));
  }

  lemma {:induction false} NothingWanted(words: map<int, uint32>, base: int, used: seq<bool>, destructors: seq<uint32>,
      key: nat)
    requires |used| == SLOTS == |destructors| && key <= SLOTS
    requires forall k :: key <= k < SLOTS ==> !Wants(words, base, used, destructors, k)
    ensures Wanted(words, base, used, destructors, key) == []
    decreases SLOTS - key
  {
    if key < SLOTS {
      assert !Wants(words, base, used, destructors, key);
      NothingWanted(words, base, used, destructors, key + 1);
    }
  }

  ghost function With(made: seq<Call>, call: Option<Call>): (r: seq<Call>) {
    if call.Some? then made + [call.value] else made
  }

  lemma WithSize(made: seq<Call>, call: Option<Call>)
    ensures |With(made, call)| == |made| + if call.Some? then 1 else 0
  {
  }

  ghost predicate OncePerKey(made: seq<Call>, key: nat) {
    forall k: nat :: CallsOf(made, k) <= if k < key then 1 else 0
  }

  lemma OnceStep(made: seq<Call>, key: nat, call: Option<Call>)
    requires OncePerKey(made, key) && (call.Some? ==> call.value.key == key)
    ensures OncePerKey(With(made, call), key + 1)
    ensures key < SLOTS ==> OncePerKey(With(made, call), SLOTS)
  {
    var now := With(made, call);
    forall k: nat ensures CallsOf(now, k) <= if k < key + 1 then 1 else 0 {
      assert CallsOf(made, k) <= if k < key then 1 else 0;
      if call.Some? {
        CallsAppend(made, [call.value], k);
        assert [call.value][..0] == [];
      } else {
        assert made + [] == made;
      }
    }
  }

  ghost predicate AtMost(log: seq<Call>, n: nat) {
    forall k: nat :: CallsOf(log, k) <= n
  }

  lemma NoCalls()
    ensures AtMost([], 0)
  {
  }

  lemma NoCallsEver()
    ensures forall key: nat :: CallsOf([], key) == 0
  {
  }

  lemma AtMostFour(log: seq<Call>, n: nat)
    requires AtMost(log, n) && n <= 4
    ensures forall key: nat :: CallsOf(log, key) <= 4
  {
  }

  lemma AtMostMore(log: seq<Call>, made: seq<Call>, n: nat)
    requires AtMost(log, n) && OncePerKey(made, SLOTS)
    ensures AtMost(log + made, n + 1)
  {
    forall k: nat ensures CallsOf(log + made, k) <= n + 1 {
      CallsAppend(log, made, k);
      assert CallsOf(made, k) <= 1;
    }
  }

  lemma {:induction false} CallsAppend(xs: seq<Call>, ys: seq<Call>, key: nat)
    ensures CallsOf(xs + ys, key) == CallsOf(xs, key) + CallsOf(ys, key)
  {
    if ys == [] {
      assert xs + ys == xs;
    } else {
      assert (xs + ys)[..|xs + ys| - 1] == xs + ys[..|ys| - 1];
      CallsAppend(xs, ys[..|ys| - 1], key);
    }
  }

  lemma SetKeepsFresh(words: map<int, uint32>, threads: map<uint32, uint32>, used: seq<bool>, tid: uint32, key: nat,
      value: uint32)
    requires Fresh(words, threads, used) && BlocksApart(threads) && tid in threads && UserKey(key) && used[key]
    ensures Fresh(words[Slot(threads[tid], key) := value], threads, used)
  {
  }

  lemma ZeroKeepsFresh(words: map<int, uint32>, threads: map<uint32, uint32>, used: seq<bool>, a: int)
    requires Fresh(words, threads, used)
    ensures Fresh(words[a := 0], threads, used)
  {
  }

  /** Nothing outside the block changed. */
  ghost predicate OnlyBlock(was: map<int, uint32>, now: map<int, uint32>, base: int) {
    forall a :: !(base <= a < base + 4 * SLOTS) ==> Word(now, a) == Word(was, a)
  }

  lemma OutsideKeepsFresh(was: map<int, uint32>, now: map<int, uint32>, threads: map<uint32, uint32>, used: seq<bool>,
      base: int)
    requires Fresh(was, threads, used) && OnlyBlock(was, now, base) && forall t :: t in threads ==>
      Apart(base, threads[t])
    ensures Fresh(now, threads, used)
  {
  }

  lemma RegisteredFresh(words: map<int, uint32>, threads: map<uint32, uint32>, used: seq<bool>, tid: uint32,
      base: uint32)
    requires Fresh(words, threads, used) && BlocksApart(threads)
      && (forall t :: t in threads ==> Apart(base, threads[t]))
    requires forall key :: 2 <= key < SLOTS ==> Word(words, Slot(base, key)) == 0
    ensures Fresh(words, threads[tid := base], used) && (tid !in threads ==> BlocksApart(threads[tid := base]))
  {
  }

  ghost predicate ZeroFor(words: map<int, uint32>, threads: map<uint32, uint32>, some: set<uint32>, key: int) {
    forall t :: t in some && t in threads ==> Word(words, Slot(threads[t], key)) == 0
  }

  lemma ClearStart(words: map<int, uint32>, threads: map<uint32, uint32>, key: int)
    ensures OnlyKey(words, words, threads, key) && ZeroFor(words, threads, {}, key)
  {
  }

  lemma ClearStep(was: map<int, uint32>, words: map<int, uint32>, threads: map<uint32, uint32>, used: seq<bool>,
      some: set<uint32>, t: uint32, key: int)
    requires t in threads && Fresh(words, threads, used) && OnlyKey(was, words, threads, key)
      && ZeroFor(words, threads, some, key)
    ensures var now := words[Slot(threads[t], key) := 0];
      Fresh(now, threads, used) && OnlyKey(was, now, threads, key) && ZeroFor(now, threads, some + {t}, key)
  {
  }

  lemma FreedKeyFresh(words: map<int, uint32>, threads: map<uint32, uint32>, used: seq<bool>, key: nat)
    requires Fresh(words, threads, used) && UserKey(key) && ZeroFor(words, threads, threads.Keys, key)
    ensures Fresh(words, threads, used[key := false])
  {
  }

  /** Only the slots of one key may differ. */
  ghost predicate OnlyKey(was: map<int, uint32>, now: map<int, uint32>, threads: map<uint32, uint32>, key: int) {
    forall a :: (forall t :: t in threads ==> a != Slot(threads[t], key)) ==> Word(now, a) == Word(was, a)
  }

  /**
   The slots below the first user key are not touched in any thread: its own address, the descriptor, errno and the
   others bionic uses.
   */
  ghost predicate LowSlotsSame(was: map<int, uint32>, now: map<int, uint32>, threads: map<uint32, uint32>) {
    forall t, low :: t in threads && 0 <= low < FIRST_USER_SLOT ==>
      Word(now, Slot(threads[t], low)) == Word(was, Slot(threads[t], low))
  }

  /** Changing the slots of one key leaves them alone. */
  lemma LowSlotsKept(was: map<int, uint32>, now: map<int, uint32>, threads: map<uint32, uint32>, key: int)
    requires BlocksApart(threads) && UserKey(key) && OnlyKey(was, now, threads, key)
    ensures LowSlotsSame(was, now, threads)
  {
    forall t, low | t in threads && 0 <= low < FIRST_USER_SLOT
      ensures Word(now, Slot(threads[t], low)) == Word(was, Slot(threads[t], low)) {
      forall u | u in threads ensures Slot(threads[t], low) != Slot(threads[u], key) {
        if u != t { assert Apart(threads[t], threads[u]); }
      }
    }
  }

  function FirstFree(used: seq<bool>, i: nat): (r: Option<nat>)
    requires |used| == SLOTS && i <= SLOTS
    ensures r.Some? ==> i <= r.value < SLOTS && !used[r.value] && forall k :: i <= k < r.value ==> used[k]
    ensures r.None? ==> forall k :: i <= k < SLOTS ==> used[k]
    decreases SLOTS - i
  {
    if i == SLOTS then None else if !used[i] then Some(i) else FirstFree(used, i + 1)
  }
}
