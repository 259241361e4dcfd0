/** Mutual exclusion, recursion depth and wake-ups of the bionic mutex, on every run. */
module MutexSafety {
  import opened Prelude
  import opened Futex
  import opened LockWord
  import opened MutexProtocol

  predicate IsNormal(c: Config) { c.unlocked.ty == NORMAL }

  /** A normal mutex records no owner, so only the other types need distinct owner ids. */
  ghost predicate OwnersOk(c: Config) { IsNormal(c) || DistinctOwners(c.threads) }

  /** How many levels of the lock one thread can have: only a recursive mutex counts, with 11 bits. */
  function MaxDepth(c: Config): (n: nat)
    ensures 1 <= n <= COUNTER_MAX + 1
  {
    if c.unlocked.ty == RECURSIVE then COUNTER_MAX + 1 else 1
  }

  /** The word while `t` holds the lock `depth` times; `state` is 1 (uncontended) or 2 (contended). */
  function HeldWord(c: Config, t: nat, depth: int, state: nat): (r: Word)
    requires 1 <= depth <= COUNTER_MAX + 1 && state < 4
  {
    c.unlocked.(owner := if IsNormal(c) then 0 else Self(t), counter := depth - 1, state := state)
  }

  // ---- The invariant ----------------------------------------------------------------------

  ghost predicate Free(c: Config, s: State) {
    s.word == c.unlocked && forall t :: t in s.threads ==> Depth(s.threads[t]) == 0
  }

  ghost predicate HeldBy(c: Config, s: State, h: nat) {
    && h in s.threads && 1 <= s.word.state <= 2
    && 1 <= Depth(s.threads[h]) <= MaxDepth(c)
    && s.word == HeldWord(c, h, Depth(s.threads[h]), s.word.state)
    && forall t :: t in s.threads && t != h ==> Depth(s.threads[t]) == 0
  }

  /** The word says exactly who holds the lock and how often. */
  ghost predicate WordInv(c: Config, s: State) {
    Free(c, s) || exists h :: HeldBy(c, s, h)
  }

  /** The thread's own held word, as it last read it. */
  predicate ReadOwnWord(c: Config, t: nat, th: Thread) {
    1 <= Depth(th) <= COUNTER_MAX + 1 && 1 <= th.value.state <= 2
      && th.value == HeldWord(c, t, Depth(th), th.value.state)
  }

  /** What a thread's locals remember at each step. */
  predicate LocalInv(c: Config, t: nat, th: Thread) {
    && (th.pc.Idle? || th.pc.LockLoad? || th.pc.TryLoad? || th.pc.UnlockLoad? || th.kind == c.unlocked)
    && match th.pc
       case Idle => true
       case LockLoad => true
       case TryLoad => true
       case TryCas => IsNormal(c) || Depth(th) == 0
       case UnlockWake => true
       case NormalCas => IsNormal(c)
       case NormalExchange => IsNormal(c)
       case NormalWait => IsNormal(c)
       case NormalAsleep => IsNormal(c)
       case OwnedFirstCas => !IsNormal(c) && th.value == c.unlocked && Depth(th) == 0
       case OwnedLoad => !IsNormal(c)
       case OwnedCountCas => c.unlocked.ty == RECURSIVE && Depth(th) <= COUNTER_MAX && ReadOwnWord(c, t, th)
       case OwnedTakeCas => !IsNormal(c) && th.value == c.unlocked && Depth(th) == 0
       case OwnedMarkCas => !IsNormal(c) && th.value.state == 1 && Depth(th) == 0
       case OwnedWait => !IsNormal(c) && th.value.state == 2 && Depth(th) == 0
       case OwnedAsleep => !IsNormal(c) && Depth(th) == 0
       case TryCountCas => c.unlocked.ty == RECURSIVE && Depth(th) <= COUNTER_MAX && ReadOwnWord(c, t, th)
       case TryReload => c.unlocked.ty == RECURSIVE && 1 <= Depth(th) <= COUNTER_MAX
       case UnlockLoad => IsNormal(c) ==> Depth(th) == 1
       case UnlockSubtract => IsNormal(c) && Depth(th) == 1
       case UnlockStore => IsNormal(c) && Depth(th) == 1
       case UnlockCountCas => !IsNormal(c) && Depth(th) >= 2 && ReadOwnWord(c, t, th)
       case UnlockReload => !IsNormal(c) && Depth(th) >= 2
       case UnlockExchange => !IsNormal(c) && Depth(th) == 1
  }

  ghost function AsleepSet(threads: map<nat, Thread>): (r: set<nat>) {
    set t | t in threads && IsAsleep(threads[t])
  }

  ghost predicate QueueInv(c: Config, s: State) {
    && Sound(s.host) && s.threads.Keys == c.threads
    && Waiters(s.host, c.address) == |AsleepSet(s.threads)|
  }

  ghost predicate SomeoneActs(s: State) {
    exists t :: t in s.threads && Acts(s.threads[t])
  }

  /** No lost wake-up: unless a fault has swallowed one, a sleeper without a token is owed one. */
  ghost predicate WakeInv(c: Config, s: State) {
    s.lost == 0 && Waiters(s.host, c.address) > Pending(s.host, c.address) ==>
      s.word.state == 2 || s.host.closing || Pending(s.host, c.address) > 0 || SomeoneActs(s)
  }

  ghost predicate Inv(c: Config, s: State) {
    && WordInv(c, s) && QueueInv(c, s) && WakeInv(c, s)
    && forall t :: t in s.threads ==> LocalInv(c, t, s.threads[t])
  }

  // ---- Building blocks ----------------------------------------------------------------------

  lemma AsleepAdded(threads: map<nat, Thread>, t: nat, th: Thread)
    requires t in threads && !IsAsleep(threads[t]) && IsAsleep(th)
    ensures |AsleepSet(threads[t := th])| == |AsleepSet(threads)| + 1
  {
    assert AsleepSet(threads[t := th]) == AsleepSet(threads) + {t};
  }

  lemma AsleepRemoved(threads: map<nat, Thread>, t: nat, th: Thread)
    requires t in threads && IsAsleep(threads[t]) && !IsAsleep(th)
    ensures |AsleepSet(threads[t := th])| == |AsleepSet(threads)| - 1
  {
    assert AsleepSet(threads[t := th]) == AsleepSet(threads) - {t};
  }

  lemma AsleepUnchanged(threads: map<nat, Thread>, t: nat, th: Thread)
    requires t in threads && IsAsleep(threads[t]) == IsAsleep(th)
    ensures AsleepSet(threads[t := th]) == AsleepSet(threads)
  {
  }

  /** Whoever else was about to act still is. */
  lemma ActorKept(s: State, s': State, t: nat)
    requires t in s.threads && t in s'.threads && s'.threads == s.threads[t := s'.threads[t]]
    ensures SomeoneActs(s) && !Acts(s.threads[t]) ==> SomeoneActs(s')
    ensures Acts(s'.threads[t]) ==> SomeoneActs(s')
  {
    if u :| u in s.threads && Acts(s.threads[u]) {
      assert u != t ==> u in s'.threads && s'.threads[u] == s.threads[u];
    }
  }

  lemma DepthMoveKeepsWord(c: Config, s: State, s': State, t: nat)
    requires WordInv(c, s) && t in s.threads && s'.word == s.word
    requires t in s'.threads && s'.threads == s.threads[t := s'.threads[t]]
      && Depth(s'.threads[t]) == Depth(s.threads[t])
    ensures WordInv(c, s')
  {
    if h :| HeldBy(c, s, h) {
      assert HeldBy(c, s', h);
    }
  }

  /** Steps that change neither the word nor the queue nor a depth. */
  lemma LocalMoveKeepsInv(c: Config, s: State, t: nat, th: Thread)
    requires Inv(c, s) && t in s.threads
    requires Depth(th) == Depth(s.threads[t]) && !IsAsleep(th) && !IsAsleep(s.threads[t]) && LocalInv(c, t, th)
    requires Acts(s.threads[t]) ==> Acts(th) || s.word.state == 2
    ensures Inv(c, Put(s, t, th))
  {
    var s' := Put(s, t, th);
    DepthMoveKeepsWord(c, s, s', t);
    AsleepUnchanged(s.threads, t, th);
    ActorKept(s, s', t);
  }

  /** Steps by which the only possible holder changes the word and its own depth. */
  lemma WordMoveKeepsInv(c: Config, s: State, t: nat, word: Word, th: Thread)
    requires Inv(c, s) && t in s.threads
    requires !IsAsleep(th) && !IsAsleep(s.threads[t]) && LocalInv(c, t, th)
    requires forall u :: u in s.threads && u != t ==> Depth(s.threads[u]) == 0
    requires 0 <= Depth(th) <= MaxDepth(c)
    requires
      if Depth(th) == 0 then word == c.unlocked
      else 1 <= word.state <= 2 && word == HeldWord(c, t, Depth(th), word.state)
    requires word.state == 2 || Acts(th) || (s.word.state != 2 && !Acts(s.threads[t]))
    ensures Inv(c, PutWord(s, t, word, th))
  {
    var s' := PutWord(s, t, word, th);
    if Depth(th) > 0 { assert HeldBy(c, s', t); }
    AsleepUnchanged(s.threads, t, th);
    ActorKept(s, s', t);
  }

  /** Steps that mark the word contended while somebody else may hold it. */
  lemma MarkMoveKeepsInv(c: Config, s: State, t: nat, word: Word, th: Thread)
    requires Inv(c, s) && t in s.threads
    requires !IsAsleep(th) && !IsAsleep(s.threads[t]) && LocalInv(c, t, th) && Depth(th) == Depth(s.threads[t])
    requires s.word.state != 0 && word == s.word.(state := 2)
    requires c.unlocked.state == 0
    ensures Inv(c, PutWord(s, t, word, th))
  {
    var s' := PutWord(s, t, word, th);
    var h :| HeldBy(c, s, h);
    assert HeldBy(c, s', h);
    AsleepUnchanged(s.threads, t, th);
  }

  /** What the owner field and the state tell a thread about itself. */
  lemma OwnerIsHolder(c: Config, s: State, t: nat)
    requires ValidConfig(c) && OwnersOk(c) && Inv(c, s) && t in s.threads
    ensures s.word.state == 0 <==> s.word == c.unlocked
    ensures s.word == c.unlocked <==> Free(c, s)
    ensures s.word.state <= 2 && KindOf(s.word) == c.unlocked
    ensures !IsNormal(c) ==> (s.word.owner == Self(t) <==> Depth(s.threads[t]) > 0)
    ensures Depth(s.threads[t]) > 0 ==> HeldBy(c, s, t)
    ensures c.unlocked.ty in {NORMAL, RECURSIVE, ERRORCHECK} && Depth(s.threads[t]) >= 0
  {
    if h :| HeldBy(c, s, h) {
      if h == t { assert HeldBy(c, s, t); }
    }
  }

  // ---- Each step keeps the invariant ----------------------------------------------------------

  ghost predicate At(c: Config, s: State, t: nat, pc: Pc) {
    ValidConfig(c) && OwnersOk(c) && Inv(c, s) && t in s.threads && s.threads[t].pc == pc
  }

  lemma TryLoadKeepsInv(c: Config, s: State, t: nat)
    requires At(c, s, t, TryLoad)
    ensures Inv(c, TryStep(c, s, t))
  {
    hide WordInv, QueueInv, WakeInv, OwnersOk, ValidConfig;
    OwnerIsHolder(c, s, t);
    LocalMoveKeepsInv(c, s, t, TryStep(c, s, t).threads[t]);
  }

  lemma TryCasKeepsInv(c: Config, s: State, t: nat)
    requires At(c, s, t, TryCas)
    ensures Inv(c, TryStep(c, s, t))
  {
    hide WordInv, QueueInv, WakeInv, OwnersOk, ValidConfig;
    OwnerIsHolder(c, s, t);
    var s' := TryStep(c, s, t);
    if s.word == c.unlocked {
      WordMoveKeepsInv(c, s, t, s'.word, s'.threads[t]);
    } else {
      LocalMoveKeepsInv(c, s, t, s'.threads[t]);
    }
  }

  /** The counting compare-and-swap shared by lock and trylock. */
  lemma CountUpKeepsInv(c: Config, s: State, t: nat)
    requires At(c, s, t, TryCountCas) || At(c, s, t, OwnedCountCas)
    ensures Inv(c, PutWord(s, t, CountUp(s.word), Acquired(s.threads[t])))
  {
    hide WordInv, QueueInv, WakeInv, OwnersOk, ValidConfig, CountUp;
    OwnerIsHolder(c, s, t);
    WordMoveKeepsInv(c, s, t, CountUp(s.word), Acquired(s.threads[t]));
  }

  lemma TryCountKeepsInv(c: Config, s: State, t: nat)
    requires At(c, s, t, TryCountCas)
    ensures Inv(c, TryStep(c, s, t))
  {
    hide WordInv, QueueInv, WakeInv, OwnersOk, ValidConfig, CountUp;
    if s.word == s.threads[t].value {
      CountUpKeepsInv(c, s, t);
    } else {
      LocalMoveKeepsInv(c, s, t, s.threads[t].(pc := TryReload));
    }
  }

  lemma TryReloadKeepsInv(c: Config, s: State, t: nat)
    requires At(c, s, t, TryReload)
    ensures Inv(c, TryStep(c, s, t))
  {
    hide WordInv, QueueInv, WakeInv, OwnersOk, ValidConfig;
    OwnerIsHolder(c, s, t);
    LocalMoveKeepsInv(c, s, t, s.threads[t].(value := s.word, pc := TryCountCas));
  }

  lemma LockLoadKeepsInv(c: Config, s: State, t: nat)
    requires At(c, s, t, LockLoad)
    ensures Inv(c, LockStep(c, s, t))
  {
    hide WordInv, QueueInv, WakeInv, OwnersOk, ValidConfig;
    OwnerIsHolder(c, s, t);
    LocalMoveKeepsInv(c, s, t, LockStep(c, s, t).threads[t]);
  }

  lemma NormalCasKeepsInv(c: Config, s: State, t: nat)
    requires At(c, s, t, NormalCas)
    ensures Inv(c, LockStep(c, s, t))
  {
    hide WordInv, QueueInv, WakeInv, OwnersOk, ValidConfig;
    OwnerIsHolder(c, s, t);
    if s.word == c.unlocked {
      WordMoveKeepsInv(c, s, t, c.unlocked.(state := 1), Acquired(s.threads[t]));
    } else {
      LocalMoveKeepsInv(c, s, t, s.threads[t].(pc := NormalExchange));
    }
  }

  lemma NormalExchangeKeepsInv(c: Config, s: State, t: nat)
    requires At(c, s, t, NormalExchange)
    ensures Inv(c, LockStep(c, s, t))
  {
    hide QueueInv, WakeInv, OwnersOk, ValidConfig;
    OwnerIsHolder(c, s, t);
    if s.word == c.unlocked {
      WordMoveKeepsInv(c, s, t, c.unlocked.(state := 2), Acquired(s.threads[t]));
    } else {
      MarkMoveKeepsInv(c, s, t, c.unlocked.(state := 2), s.threads[t].(pc := NormalWait));
    }
  }

  lemma OwnedFirstCasKeepsInv(c: Config, s: State, t: nat)
    requires At(c, s, t, OwnedFirstCas)
    ensures Inv(c, LockStep(c, s, t))
  {
    hide WordInv, QueueInv, WakeInv, OwnersOk, ValidConfig;
    OwnerIsHolder(c, s, t);
    if s.word == c.unlocked {
      WordMoveKeepsInv(c, s, t, WithOwner(c.unlocked, Self(t), 1), Acquired(s.threads[t]));
    } else {
      LocalMoveKeepsInv(c, s, t, s.threads[t].(pc := OwnedLoad));
    }
  }

  lemma OwnedTakeCasKeepsInv(c: Config, s: State, t: nat)
    requires At(c, s, t, OwnedTakeCas)
    ensures Inv(c, LockStep(c, s, t))
  {
    hide WordInv, QueueInv, WakeInv, OwnersOk, ValidConfig;
    OwnerIsHolder(c, s, t);
    if s.word == c.unlocked {
      WordMoveKeepsInv(c, s, t, WithOwner(c.unlocked, Self(t), 2), Acquired(s.threads[t]));
    } else {
      LocalMoveKeepsInv(c, s, t, s.threads[t].(pc := OwnedLoad));
    }
  }

  lemma OwnedLoadKeepsInv(c: Config, s: State, t: nat)
    requires At(c, s, t, OwnedLoad)
    ensures Inv(c, LockStep(c, s, t))
  {
    hide WordInv, QueueInv, WakeInv, OwnersOk, ValidConfig;
    OwnerIsHolder(c, s, t);
    LocalMoveKeepsInv(c, s, t, LockStep(c, s, t).threads[t]);
  }

  lemma OwnedCountCasKeepsInv(c: Config, s: State, t: nat)
    requires At(c, s, t, OwnedCountCas)
    ensures Inv(c, LockStep(c, s, t))
  {
    hide WordInv, QueueInv, WakeInv, OwnersOk, ValidConfig, CountUp;
    if s.word == s.threads[t].value {
      CountUpKeepsInv(c, s, t);
    } else {
      LocalMoveKeepsInv(c, s, t, s.threads[t].(pc := OwnedLoad));
    }
  }

  lemma OwnedMarkCasKeepsInv(c: Config, s: State, t: nat)
    requires At(c, s, t, OwnedMarkCas)
    ensures Inv(c, LockStep(c, s, t))
  {
    hide WordInv, QueueInv, WakeInv, OwnersOk, ValidConfig;
    OwnerIsHolder(c, s, t);
    var th := s.threads[t];
    if s.word == th.value {
      MarkMoveKeepsInv(c, s, t, FlipState(th.value), th.(value := FlipState(th.value), pc := OwnedWait));
    } else {
      LocalMoveKeepsInv(c, s, t, th.(pc := OwnedLoad));
    }
  }

  /** Steps that change the queue: `th` starts or stops sleeping. */
  lemma QueueMoveKeepsInv(c: Config, s: State, t: nat, host: Host, th: Thread)
    requires Inv(c, s) && t in s.threads && LocalInv(c, t, th) && Depth(th) == Depth(s.threads[t])
    requires Sound(host) && host.closing == s.host.closing
    requires Waiters(host, c.address) ==
      Waiters(s.host, c.address) + (if IsAsleep(th) then 1 else 0) - (if IsAsleep(s.threads[t]) then 1 else 0)
    requires s.word.state == 2 || host.closing || Acts(th)
    ensures Inv(c, s.(host := host, threads := s.threads[t := th]))
  {
    hide Sound;
    var s' := s.(host := host, threads := s.threads[t := th]);
    DepthMoveKeepsWord(c, s, s', t);
    ActorKept(s, s', t);
    if IsAsleep(th) && !IsAsleep(s.threads[t]) {
      AsleepAdded(s.threads, t, th);
    } else if IsAsleep(s.threads[t]) && !IsAsleep(th) {
      AsleepRemoved(s.threads, t, th);
    } else {
      AsleepUnchanged(s.threads, t, th);
    }
  }

  lemma ParkKeepsInv(c: Config, s: State, t: nat, th: Thread)
    requires ValidConfig(c) && Inv(c, s) && t in s.threads && LocalInv(c, t, th) && Depth(th) == Depth(s.threads[t])
    requires IsAsleep(th) && !IsAsleep(s.threads[t]) && s.word.state == 2
    ensures Inv(c, s.(host := Enter(s.host, c.address), threads := s.threads[t := th]))
  {
    hide Enter, Sound, AddressOk, WordInv, WakeInv, LocalInv;
    EnterEffect(s.host, c.address);
    QueueMoveKeepsInv(c, s, t, Enter(s.host, c.address), th);
  }

  lemma RefusedKeepsInv(c: Config, s: State, t: nat, th: Thread)
    requires Inv(c, s) && t in s.threads && LocalInv(c, t, th) && Depth(th) == Depth(s.threads[t])
    requires !IsAsleep(th) && !IsAsleep(s.threads[t]) && (s.host.closing || Acts(th))
    ensures Inv(c, s.(threads := s.threads[t := th]))
  {
    hide Sound, WordInv, WakeInv, LocalInv;
    QueueMoveKeepsInv(c, s, t, s.host, th);
  }

  /** What a thread remembers when it waits, asleep, about to try again, or giving up. */
  ghost predicate MayWait(c: Config, t: nat, th: Thread, asleep: Pc, retry: Pc) {
    && !IsAsleep(th) && IsAsleep(th.(pc := asleep)) && !IsAsleep(th.(pc := retry)) && Acts(th.(pc := retry))
    && LocalInv(c, t, th.(pc := asleep)) && LocalInv(c, t, th.(pc := retry))
      && forall code :: LocalInv(c, t, Done(th, code))
  }

  lemma WaitLocals(c: Config, t: nat, th: Thread)
    requires LocalInv(c, t, th)
    ensures th.pc.NormalWait? ==> MayWait(c, t, th, NormalAsleep, NormalExchange)
    ensures th.pc.OwnedWait? ==> MayWait(c, t, th, OwnedAsleep, OwnedLoad)
  {
    hide HeldWord;
  }

  lemma WaitMoveKeepsInv(c: Config, s: State, t: nat, expected: Word, asleep: Pc, retry: Pc)
    requires ValidConfig(c) && Inv(c, s) && t in s.threads && MayWait(c, t, s.threads[t], asleep, retry)
    requires expected.state == 2
    ensures Inv(c, BeginWait(c, s, t, expected, asleep, retry))
  {
    assert AddressOk(c.address);
    hide Encode, Enter, AddressOk, LocalInv, ValidConfig, Inv, Acts;
    EncodeInjective(expected, s.word);
    var th := BeginWait(c, s, t, expected, asleep, retry).threads[t];
    if EnterResult(s.host, c.address, Encode(expected), Some(Encode(s.word)), FOREVER).Parked? {
      ParkKeepsInv(c, s, t, th);
    } else {
      RefusedKeepsInv(c, s, t, th);
    }
  }

  /** Going to sleep: the futex compares the word with the contended value, atomically with the enqueue. */
  lemma BeginWaitKeepsInv(c: Config, s: State, t: nat, expected: Word, asleep: Pc, retry: Pc)
    requires At(c, s, t, NormalWait) || At(c, s, t, OwnedWait)
    requires expected.state == 2
    requires if s.threads[t].pc.NormalWait? then asleep == NormalAsleep && retry == NormalExchange
      else asleep == OwnedAsleep && retry == OwnedLoad
    ensures Inv(c, BeginWait(c, s, t, expected, asleep, retry))
  {
    WaitLocals(c, t, s.threads[t]);
    hide MayWait, LocalInv, WordInv, QueueInv, WakeInv, BeginWait;
    WaitMoveKeepsInv(c, s, t, expected, asleep, retry);
  }

  /** Waking up: the thread takes its token and will look at the word again. */
  lemma EndWaitKeepsInv(c: Config, s: State, t: nat)
    requires At(c, s, t, NormalAsleep) || At(c, s, t, OwnedAsleep)
    requires Ready(s.host, c.address)
    ensures Inv(c, EndWait(c, s, t, if s.threads[t].pc.NormalAsleep? then NormalExchange else OwnedLoad))
  {
    hide Leave, WordInv, WakeInv;
    assert t in AsleepSet(s.threads);
    SubsetSize(AsleepSet(s.threads), c.threads);
    LeaveEffect(s.host, c.address, true);
    var s' := EndWait(c, s, t, if s.threads[t].pc.NormalAsleep? then NormalExchange else OwnedLoad);
    QueueMoveKeepsInv(c, s, t, s'.host, s'.threads[t]);
  }

  lemma UnlockLoadKeepsInv(c: Config, s: State, t: nat)
    requires At(c, s, t, UnlockLoad)
    ensures Inv(c, UnlockStep(c, s, t))
  {
    hide WordInv, QueueInv, WakeInv, OwnersOk, ValidConfig;
    OwnerIsHolder(c, s, t);
    LocalMoveKeepsInv(c, s, t, UnlockStep(c, s, t).threads[t]);
  }

  lemma UnlockSubtractKeepsInv(c: Config, s: State, t: nat)
    requires At(c, s, t, UnlockSubtract)
    ensures Inv(c, UnlockStep(c, s, t))
  {
    hide WordInv, QueueInv, WakeInv, OwnersOk, ValidConfig, SubtractOne;
    OwnerIsHolder(c, s, t);
    var th := s.threads[t];
    WordMoveKeepsInv(c, s, t, SubtractOne(s.word), if s.word.state == 1 then Done(Released(th), 0)
      else th.(pc := UnlockStore));
  }

  lemma UnlockStoreKeepsInv(c: Config, s: State, t: nat)
    requires At(c, s, t, UnlockStore)
    ensures Inv(c, UnlockStep(c, s, t))
  {
    hide WordInv, QueueInv, WakeInv, OwnersOk, ValidConfig;
    OwnerIsHolder(c, s, t);
    WordMoveKeepsInv(c, s, t, c.unlocked, Released(s.threads[t]).(pc := UnlockWake));
  }

  lemma UnlockCountCasKeepsInv(c: Config, s: State, t: nat)
    requires At(c, s, t, UnlockCountCas)
    ensures Inv(c, UnlockStep(c, s, t))
  {
    hide WordInv, QueueInv, WakeInv, OwnersOk, ValidConfig, CountDown;
    OwnerIsHolder(c, s, t);
    var th := s.threads[t];
    if s.word == th.value {
      WordMoveKeepsInv(c, s, t, CountDown(s.word), Done(Released(th), 0));
    } else {
      LocalMoveKeepsInv(c, s, t, th.(pc := UnlockReload));
    }
  }

  lemma UnlockReloadKeepsInv(c: Config, s: State, t: nat)
    requires At(c, s, t, UnlockReload)
    ensures Inv(c, UnlockStep(c, s, t))
  {
    hide WordInv, QueueInv, WakeInv, OwnersOk, ValidConfig;
    OwnerIsHolder(c, s, t);
    LocalMoveKeepsInv(c, s, t, s.threads[t].(value := s.word, pc := UnlockCountCas));
  }

  lemma UnlockExchangeKeepsInv(c: Config, s: State, t: nat)
    requires At(c, s, t, UnlockExchange)
    ensures Inv(c, UnlockStep(c, s, t))
  {
    hide WordInv, QueueInv, WakeInv, OwnersOk, ValidConfig;
    OwnerIsHolder(c, s, t);
    var th := s.threads[t];
    WordMoveKeepsInv(c, s, t, c.unlocked, if s.word.state == 2 then Released(th).(pc := UnlockWake)
      else Done(Released(th), 0));
  }

  lemma WakeDone(c: Config, t: nat, th: Thread)
    ensures LocalInv(c, t, Done(th, 0))
  {
  }

  lemma UnlockWakeKeepsInv(c: Config, s: State, t: nat)
    requires At(c, s, t, UnlockWake)
    ensures Inv(c, UnlockStep(c, s, t))
  {
    hide Wake, Sound, WordInv, OwnersOk, LocalInv;
    var s' := UnlockStep(c, s, t);
    assert LocalInv(c, t, s'.threads[t]) by { WakeDone(c, t, s.threads[t]); }
    SubsetSize(AsleepSet(s.threads), c.threads);
    WakeEffect(s.host, c.address, 1);
    DepthMoveKeepsWord(c, s, s', t);
    AsleepUnchanged(s.threads, t, s'.threads[t]);
  }

  lemma AdvanceKeepsInv(c: Config, s: State, t: nat)
    requires ValidConfig(c) && OwnersOk(c) && Inv(c, s) && Enabled(c, s, t, Advance)
    ensures Inv(c, Step(c, s, t, Advance))
  {
    hide Inv, ValidConfig, OwnersOk;
    var th := s.threads[t];
    assert At(c, s, t, th.pc);
    assert LocalInv(c, t, th) by { LocalOf(c, s, t); }
    match th.pc {
      case LockLoad => LockLoadKeepsInv(c, s, t);
      case NormalCas => NormalCasKeepsInv(c, s, t);
      case NormalExchange => NormalExchangeKeepsInv(c, s, t);
      case NormalWait =>
        assert th.kind.(state := 2).state == 2;
        BeginWaitKeepsInv(c, s, t, th.kind.(state := 2), NormalAsleep, NormalExchange);
      case NormalAsleep => EndWaitKeepsInv(c, s, t);
      case OwnedFirstCas => OwnedFirstCasKeepsInv(c, s, t);
      case OwnedLoad => OwnedLoadKeepsInv(c, s, t);
      case OwnedCountCas => OwnedCountCasKeepsInv(c, s, t);
      case OwnedTakeCas => OwnedTakeCasKeepsInv(c, s, t);
      case OwnedMarkCas => OwnedMarkCasKeepsInv(c, s, t);
      case OwnedWait => BeginWaitKeepsInv(c, s, t, th.value, OwnedAsleep, OwnedLoad);
      case OwnedAsleep => EndWaitKeepsInv(c, s, t);
      case TryLoad => TryLoadKeepsInv(c, s, t);
      case TryCas => TryCasKeepsInv(c, s, t);
      case TryCountCas => TryCountKeepsInv(c, s, t);
      case TryReload => TryReloadKeepsInv(c, s, t);
      case UnlockLoad => UnlockLoadKeepsInv(c, s, t);
      case UnlockSubtract => UnlockSubtractKeepsInv(c, s, t);
      case UnlockStore => UnlockStoreKeepsInv(c, s, t);
      case UnlockCountCas => UnlockCountCasKeepsInv(c, s, t);
      case UnlockReload => UnlockReloadKeepsInv(c, s, t);
      case UnlockExchange => UnlockExchangeKeepsInv(c, s, t);
      case UnlockWake => UnlockWakeKeepsInv(c, s, t);
    }
  }

  /**
   A failed access keeps the word, its holder and the queue in step. A contended unlock whose store fails has not given
   the lock back: the caller still holds it, in a word that is no longer marked contended.
   */
  lemma FaultKeepsInv(c: Config, s: State, t: nat)
    requires Inv(c, s) && Enabled(c, s, t, Fault)
    ensures Inv(c, FaultStep(s, t))
  {
    var s' := FaultStep(s, t);
    DepthMoveKeepsWord(c, s, s', t);
    AsleepUnchanged(s.threads, t, s'.threads[t]);
    ActorKept(s, s', t);
    hide Acts, WordInv, Sound;
  }

  lemma LocalOf(c: Config, s: State, t: nat)
    requires Inv(c, s) && t in s.threads
    ensures LocalInv(c, t, s.threads[t])
  {
  }

  lemma BeginKeepsInv(c: Config, s: State, t: nat, call: Call)
    requires ValidConfig(c) && OwnersOk(c) && Inv(c, s) && Enabled(c, s, t, Begin(call))
    ensures Inv(c, Step(c, s, t, Begin(call)))
  {
    hide WordInv, QueueInv, WakeInv, OwnersOk, ValidConfig;
    OwnerIsHolder(c, s, t);
    LocalMoveKeepsInv(c, s, t, Step(c, s, t, Begin(call)).threads[t]);
  }
}
