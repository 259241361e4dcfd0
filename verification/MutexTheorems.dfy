/** The main results about the bionic mutex: what holds in every state of every run. */
module MutexTheorems {
  import opened Prelude
  import opened Futex
  import opened LockWord
  import opened MutexProtocol
  import opened MutexSafety

  lemma {:induction false} RunKeepsInv(c: Config, states: seq<State>, moves: seq<Move>, n: nat)
    requires ValidConfig(c) && OwnersOk(c) && IsRun(c, states, moves) && n < |states|
    ensures Inv(c, states[n])
  {
    if n == 0 {
      InitialInv(c, states[0]);
    } else {
      RunKeepsInv(c, states, moves, n - 1);
      assert Next(c, states[n - 1], moves[n - 1], states[n - 1 + 1]);
      NextKeepsInv(c, states[n - 1], moves[n - 1], states[n]);
    }
  }

  lemma InitialInv(c: Config, s: State)
    requires ValidConfig(c) && Initial(c, s)
    ensures Inv(c, s)
  {
    assert AsleepSet(s.threads) == {};
    assert Free(c, s);
  }

  lemma NextKeepsInv(c: Config, s: State, m: Move, s': State)
    requires ValidConfig(c) && OwnersOk(c) && Inv(c, s) && Next(c, s, m, s')
    ensures Inv(c, s')
  {
    match m {
      case Local(t, Begin(call)) => BeginKeepsInv(c, s, t, call);
      case Local(t, Advance) => AdvanceKeepsInv(c, s, t);
      case Local(t, Fault) => FaultKeepsInv(c, s, t);
      case Elsewhere(_) =>
        if h :| HeldBy(c, s, h) { assert HeldBy(c, s', h); }
        if SomeoneActs(s) { assert SomeoneActs(s'); }
    }
  }

  predicate Holds(s: State, t: nat) { t in s.threads && Depth(s.threads[t]) > 0 }

  /** At most one thread holds the mutex, whatever its type and whatever the interleaving. */
  lemma MutualExclusion(c: Config, states: seq<State>, moves: seq<Move>, n: nat, t: nat, u: nat)
    requires ValidConfig(c) && OwnersOk(c) && IsRun(c, states, moves) && n < |states|
    requires Holds(states[n], t) && Holds(states[n], u)
    ensures t == u
  {
    RunKeepsInv(c, states, moves, n);
    OwnerIsHolder(c, states[n], t);
  }

  /**
   While a thread holds the mutex the word names it, the recursion counter is its depth minus one, and
   the type and shared bits are the initial ones: counting never carries into the shared bit.
   */
  lemma HolderWord(c: Config, states: seq<State>, moves: seq<Move>, n: nat, t: nat)
    requires ValidConfig(c) && OwnersOk(c) && IsRun(c, states, moves) && n < |states|
    requires Holds(states[n], t)
    ensures var w := states[n].word;
      && w.counter == Depth(states[n].threads[t]) - 1 && 1 <= w.state <= 2
      && w.ty == c.unlocked.ty && w.shared == c.unlocked.shared
      && (w.ty == NORMAL || w.ty == ERRORCHECK ==> Depth(states[n].threads[t]) == 1)
      && (w.ty == NORMAL ==> w.owner == 0)
      && (w.ty != NORMAL ==> w.owner == Self(t))
  {
    RunKeepsInv(c, states, moves, n);
    OwnerIsHolder(c, states[n], t);
  }

  /** n locks are undone by exactly n unlocks: the word is the unlocked one iff every thread gave back what it took. */
  lemma UnlockedIffBalanced(c: Config, states: seq<State>, moves: seq<Move>, n: nat)
    requires ValidConfig(c) && OwnersOk(c) && IsRun(c, states, moves) && n < |states|
    ensures states[n].word == c.unlocked <==> forall t :: t in states[n].threads ==>
      states[n].threads[t].locks == states[n].threads[t].unlocks
    ensures forall t :: t in states[n].threads ==> states[n].threads[t].unlocks <= states[n].threads[t].locks
  {
    RunKeepsInv(c, states, moves, n);
    var s := states[n];
    forall t | t in s.threads ensures s.threads[t].unlocks <= s.threads[t].locks { OwnerIsHolder(c, s, t); }
    if h :| HeldBy(c, s, h) { OwnerIsHolder(c, s, h); }
  }

  /**
   No lost wake-up, as long as no fault has swallowed one. While some sleeper has no token, the word is marked
   contended (so the holder's unlock will wake), or an unlocker has yet to store or wake, or a token waits to be taken,
   or a thread that does not hold the lock is about to look at the word again.
   */
  lemma NoLostWakeup(c: Config, states: seq<State>, moves: seq<Move>, n: nat)
    requires ValidConfig(c) && OwnersOk(c) && IsRun(c, states, moves) && n < |states|
    requires |AsleepSet(states[n].threads)| > Pending(states[n].host, c.address) && !states[n].host.closing
    requires states[n].lost == 0
    ensures
      || states[n].word.state == 2 || Pending(states[n].host, c.address) > 0
      || exists t :: t in states[n].threads && (Waking(states[n].threads[t]) || Retrying(states[n].threads[t]))
  {
    RunKeepsInv(c, states, moves, n);
  }

  /** A step of this thread takes a token, wakes a sleeper or looks at the word again. */
  predicate MayRelease(th: Thread) { IsAsleep(th) || Waking(th) || Retrying(th) }

  /** On a free mutex sleepers are never stranded: somebody can still move who will look at the word or wake. */
  lemma NoSleepOnFreeLock(c: Config, states: seq<State>, moves: seq<Move>, n: nat, sleeper: nat)
    requires ValidConfig(c) && OwnersOk(c) && IsRun(c, states, moves) && n < |states|
    requires states[n].word == c.unlocked && states[n].lost == 0
    requires sleeper in states[n].threads && IsAsleep(states[n].threads[sleeper])
    ensures exists t :: Enabled(c, states[n], t, Advance) && MayRelease(states[n].threads[t])
  {
    RunKeepsInv(c, states, moves, n);
    SleeperNotStranded(c, states[n], sleeper);
  }

  lemma SleeperNotStranded(c: Config, s: State, sleeper: nat)
    requires ValidConfig(c) && OwnersOk(c) && Inv(c, s) && s.word == c.unlocked && s.lost == 0
    requires sleeper in s.threads && IsAsleep(s.threads[sleeper])
    ensures exists t :: Enabled(c, s, t, Advance) && MayRelease(s.threads[t])
  {
    hide OwnersOk, ValidConfig, WordInv, LocalInv, Sound;
    assert sleeper in AsleepSet(s.threads);
    OwnerIsHolder(c, s, sleeper);
    if Ready(s.host, c.address) {
      assert Enabled(c, s, sleeper, Advance);
    } else {
      var t :| t in s.threads && Acts(s.threads[t]);
      assert Enabled(c, s, t, Advance);
    }
  }

  // ---- Faults --------------------------------------------------------------------------------------

  /** Without a fault no wake-up is swallowed. */
  lemma {:induction false} NothingLost(c: Config, states: seq<State>, moves: seq<Move>, n: nat)
    requires IsRun(c, states, moves) && n < |states|
    requires forall k :: 0 <= k < n ==> !(moves[k].Local? && moves[k].action.Fault?)
    ensures states[n].lost == 0
  {
    if n > 0 {
      NothingLost(c, states, moves, n - 1);
      assert Next(c, states[n - 1], moves[n - 1], states[n - 1 + 1]);
      SameLost(c, states[n - 1], moves[n - 1], states[n]);
    }
  }

  lemma SameLost(c: Config, s: State, m: Move, s': State)
    requires Next(c, s, m, s') && !(m.Local? && m.action.Fault?)
    ensures s'.lost == s.lost
  {
    hide Self, EnterResult, LeaveResult, Enter, Leave, Wake, CountUp, CountDown, FlipState, SubtractOne, WithOwner,
      KindOf;
  }

  /** What a step that only moves `t` leaves alone. */
  ghost predicate OnlyMoves(s: State, s': State, t: nat) {
    t in s.threads && t in s'.threads && s'.threads == s.threads[t := s'.threads[t]]
  }

  lemma OthersStay(s: State, s': State, t: nat)
    requires OnlyMoves(s, s', t)
    ensures t in s.threads && s'.threads.Keys == s.threads.Keys
    ensures forall u :: u in s.threads && u != t ==> s'.threads[u] == s.threads[u]
  {
  }

  /** Nobody is about to move on its own: `sleepers` sleep without a token, the rest are between calls. */
  ghost predicate AllStill(c: Config, s: State, sleepers: set<nat>) {
    && Pending(s.host, c.address) == 0
    && forall t :: t in s.threads ==> if t in sleepers then IsAsleep(s.threads[t]) else s.threads[t].pc.Idle?
  }

  lemma OpenStart(c: Config) returns (s: State)
    requires ValidConfig(c)
    ensures Initial(c, s) && s.word == c.unlocked && s.threads.Keys == c.threads && AllStill(c, s, {})
      && !s.host.closing
    ensures forall t :: t in s.threads ==> Depth(s.threads[t]) == 0
  {
    hide ValidConfig;
    s := State(c.unlocked, NewHost, map x | x in c.threads :: Thread(Idle, c.unlocked, c.unlocked, 0, 0, 0), 0);
  }

  lemma ParkedStill(c: Config, s0: State, s: State, t: nat, u: nat)
    requires OnlyBusy(c, s0, s, u) && IsAsleep(s.threads[u]) && t in s.threads && t != u
    ensures AllStill(c, s, {u}) && s.threads[t] == s0.threads[t]
  {
  }

  lemma StillIdle(c: Config, s: State, t: nat, u: nat)
    requires AllStill(c, s, {u}) && t in s.threads && t != u
    ensures s.threads[t].pc.Idle?
  {
  }

  lemma StillStill(c: Config, s: State, s': State, t: nat, u: nat)
    requires AllStill(c, s, {u}) && OnlyMoves(s, s', t) && s'.host == s.host && t != u && s'.threads[t].pc.Idle?
    ensures AllStill(c, s', {u}) && s'.threads.Keys == s.threads.Keys && (u in s.threads ==> IsAsleep(s'.threads[u]))
  {
  }

  /** An undisturbed lock of a free normal mutex. */
  lemma LockNormal(c: Config, s0: State, t: nat) returns (s1: State, s2: State, s3: State)
    requires IsNormal(c) && ValidConfig(c) && s0.word == c.unlocked && t in s0.threads && AllStill(c, s0, {})
    ensures Next(c, s0, Local(t, Begin(Lock)), s1) && Next(c, s1, Local(t, Advance), s2)
    ensures Next(c, s2, Local(t, Advance), s3)
    ensures s3.word == c.unlocked.(state := 1) && s3.host == s0.host && s3.threads.Keys == s0.threads.Keys
    ensures AllStill(c, s3, {}) && Depth(s3.threads[t]) == Depth(s0.threads[t]) + 1
  {
    assert KindOf(c.unlocked) == c.unlocked by { UnlockedIsKind(c); }
    hide Self, ValidConfig;
    s1 := Step(c, s0, t, Begin(Lock));
    s2 := Step(c, s1, t, Advance);
    s3 := Step(c, s2, t, Advance);
  }

  /** All but `u` are between calls, and `u` alone has changed since `s0`. */
  ghost predicate OnlyBusy(c: Config, s0: State, s: State, u: nat) {
    && u in s.threads && s.threads.Keys == s0.threads.Keys && s.host.closing == s0.host.closing
    && Pending(s.host, c.address) == 0
    && forall t :: t in s.threads && t != u ==> s.threads[t] == s0.threads[t] && s.threads[t].pc.Idle?
  }

  /** A lock of a normal mutex that is held: the compare-and-swap fails. */
  lemma LockHeld(c: Config, s0: State, u: nat) returns (s1: State, s2: State, s3: State)
    requires IsNormal(c) && ValidConfig(c) && s0.word == c.unlocked.(state := 1) && u in s0.threads
    requires AllStill(c, s0, {})
    ensures Next(c, s0, Local(u, Begin(Lock)), s1) && Next(c, s1, Local(u, Advance), s2)
    ensures Next(c, s2, Local(u, Advance), s3)
    ensures s3.word == s0.word && OnlyBusy(c, s0, s3, u) && s3.host.closing == s0.host.closing
    ensures s3.threads.Keys == s0.threads.Keys
    ensures s3.threads[u].pc.NormalExchange? && s3.threads[u].kind == c.unlocked
  {
    assert KindOf(s0.word) == c.unlocked && c.unlocked.state == 0 by { UnlockedIsKind(c); }
    hide Self, ValidConfig;
    s1 := Step(c, s0, u, Begin(Lock));
    s2 := Step(c, s1, u, Advance);
    s3 := Step(c, s2, u, Advance);
  }

  /** Then the caller marks the word contended and falls asleep. */
  lemma MarkAndPark(c: Config, s0: State, s3: State, u: nat) returns (s4: State, s5: State)
    requires IsNormal(c) && ValidConfig(c) && s3.word == c.unlocked.(state := 1) && OnlyBusy(c, s0, s3, u)
    requires s3.threads[u].pc.NormalExchange? && s3.threads[u].kind == c.unlocked && !s3.host.closing
    ensures Next(c, s3, Local(u, Advance), s4) && Next(c, s4, Local(u, Advance), s5)
    ensures s5.word == c.unlocked.(state := 2) && OnlyBusy(c, s0, s5, u) && IsAsleep(s5.threads[u])
    ensures s5.threads.Keys == s3.threads.Keys
  {
    assert AddressOk(c.address) && c.unlocked.state == 0;
    hide Self, ValidConfig, Encode, AddressOk;
    s4 := Step(c, s3, u, Advance);
    s5 := Step(c, s4, u, Advance);
  }

  /** A contended unlock whose store fails after the fetch-and-subtract: no wake, and the word reads uncontended. */
  lemma UnlockFaults(c: Config, s0: State, t: nat) returns (s1: State, s2: State, s3: State, s4: State)
    requires IsNormal(c) && ValidConfig(c) && s0.word == c.unlocked.(state := 2)
    requires t in s0.threads && s0.threads[t].pc.Idle? && Depth(s0.threads[t]) > 0
    ensures Next(c, s0, Local(t, Begin(Unlock)), s1) && Next(c, s1, Local(t, Advance), s2)
    ensures Next(c, s2, Local(t, Advance), s3) && Next(c, s3, Local(t, Fault), s4)
    ensures s4.word == c.unlocked.(state := 1) && OnlyMoves(s0, s4, t) && s4.host == s0.host
    ensures s4.threads[t].pc.Idle? && Depth(s4.threads[t]) > 0 && s4.threads[t].result == EFAULT
  {
    assert KindOf(s0.word) == c.unlocked && c.unlocked.state == 0 by { UnlockedIsKind(c); }
    hide Self, ValidConfig;
    s1 := Step(c, s0, t, Begin(Unlock));
    s2 := Step(c, s1, t, Advance);
    s3 := Step(c, s2, t, Advance);
    s4 := Step(c, s3, t, Fault);
  }

  /**
   A fault can lose a wake-up: a run with one, at the store of a contended unlock, that ends with a thread asleep
   without a token, the word marked uncontended, and nobody who would wake it or look at the word.
   */
  lemma FaultLosesWakeup(c: Config, t: nat, u: nat) returns (states: seq<State>, moves: seq<Move>)
    requires ValidConfig(c) && IsNormal(c) && t in c.threads && u in c.threads && t != u
    ensures IsRun(c, states, moves) && |moves| == 12 && moves[11] == Local(t, Fault)
    ensures var s := states[12];
      && u in s.threads && IsAsleep(s.threads[u]) && AllStill(c, s, {u}) && s.word == c.unlocked.(state := 1)
      && Holds(s, t) && s.threads[t].result == EFAULT
  {
    hide Next, Self, ValidConfig, Initial, AllStill, OnlyBusy;
    var s0 := OpenStart(c);
    var s1, s2, s3 := LockNormal(c, s0, t);
    var s4, s5, s6 := LockHeld(c, s3, u);
    var s7, s8 := MarkAndPark(c, s3, s6, u);
    ParkedStill(c, s3, s8, t, u);
    assert s8.threads[t].pc.Idle? by { StillIdle(c, s8, t, u); }
    var s9, s10, s11, s12 := UnlockFaults(c, s8, t);
    StillStill(c, s8, s12, t, u);
    states := [s0, s1, s2, s3, s4, s5, s6, s7, s8, s9, s10, s11, s12];
    moves := [Local(t, Begin(Lock)), Local(t, Advance), Local(t, Advance), Local(u, Begin(Lock)), Local(u, Advance),
              Local(u, Advance), Local(u, Advance), Local(u, Advance), Local(t, Begin(Unlock)), Local(t, Advance),
              Local(t, Advance), Local(t, Fault)];
  }

  // ---- Owner ids are only 16 bits --------------------------------------------------------------

  /** At the `n`-th state `t` is inside: one of its calls took a level of the lock and it has given none back since. */
  ghost predicate Inside(states: seq<State>, n: nat, t: nat) {
    exists k: nat :: EnteredAt(states, n, t, k)
  }

  ghost predicate EnteredAt(states: seq<State>, n: nat, t: nat, k: nat) {
    && k < n < |states| && t in states[k].threads && t in states[k + 1].threads && t in states[n].threads
    && states[k + 1].threads[t].locks > states[k].threads[t].locks
    && states[n].threads[t].unlocks == states[k].threads[t].unlocks
  }

  /** In every run of `c` at most one thread is inside at a time. */
  ghost predicate AlwaysExclusive(c: Config) {
    forall states: seq<State>, moves: seq<Move>, n: nat, t: nat, u: nat ::
      IsRun(c, states, moves) && n < |states| && Inside(states, n, t) && Inside(states, n, u) ==> t == u
  }

  /**
   Two threads that are able to lock: pthread_mutex_lock refuses the owner id 0 for the types that record an owner.
   */
  ghost predicate TwoCanLock(c: Config) {
    exists t, u :: t in c.threads && u in c.threads && t != u && Self(t) != 0 && Self(u) != 0
  }

  predicate Grew(s: State, s': State, t: nat) {
    t in s.threads && t in s'.threads && s'.threads[t].locks >= s.threads[t].locks
  }

  lemma LockStepGrows(c: Config, s: State, t: nat, u: nat)
    requires t in s.threads && u in s.threads
    ensures Grew(s, LockStep(c, s, t), u)
  {
    hide Self, EnterResult, LeaveResult, Enter, Leave, CountUp, FlipState, WithOwner, KindOf;
  }

  lemma TryStepGrows(c: Config, s: State, t: nat, u: nat)
    requires t in s.threads && u in s.threads
    ensures Grew(s, TryStep(c, s, t), u)
  {
    hide Self, CountUp, WithOwner, KindOf;
  }

  lemma UnlockStepGrows(c: Config, s: State, t: nat, u: nat)
    requires t in s.threads && u in s.threads
    ensures Grew(s, UnlockStep(c, s, t), u)
  {
    hide Self, CountDown, SubtractOne, KindOf, Wake;
  }

  lemma CountsGrow(c: Config, s: State, m: Move, s': State, t: nat)
    requires Next(c, s, m, s') && t in s.threads
    ensures Grew(s, s', t)
  {
    if m.Local? {
      LockStepGrows(c, s, m.t, t);
      TryStepGrows(c, s, m.t, t);
      UnlockStepGrows(c, s, m.t, t);
    }
    hide LockStep, TryStep, UnlockStep;
  }

  lemma {:induction false} LocksGrow(c: Config, states: seq<State>, moves: seq<Move>, k: nat, n: nat, t: nat)
    requires IsRun(c, states, moves) && k <= n < |states| && t in states[k].threads
    ensures t in states[n].threads && states[n].threads[t].locks >= states[k].threads[t].locks
  {
    hide Initial, Next;
    if k < n {
      LocksGrow(c, states, moves, k, n - 1, t);
      assert Next(c, states[n - 1], moves[n - 1], states[n - 1 + 1]);
      CountsGrow(c, states[n - 1], moves[n - 1], states[n], t);
    }
  }

  /** Whoever is inside holds the lock. */
  lemma InsideHolds(c: Config, states: seq<State>, moves: seq<Move>, n: nat, t: nat)
    requires ValidConfig(c) && OwnersOk(c) && IsRun(c, states, moves) && n < |states| && Inside(states, n, t)
    ensures Holds(states[n], t)
  {
    hide ValidConfig, OwnersOk, IsRun;
    var k: nat :| EnteredAt(states, n, t, k);
    UnlockedIffBalanced(c, states, moves, k);
    LocksGrow(c, states, moves, k + 1, n, t);
  }

  /** Two threads whose ids agree modulo 2^16 can hold a recursive mutex at the same time. */
  lemma EqualOwnersBothEnter(c: Config, t: nat, u: nat) returns (states: seq<State>, moves: seq<Move>)
    requires ValidConfig(c) && c.unlocked.ty == RECURSIVE
    requires t in c.threads && u in c.threads && t != u && Self(t) == Self(u) != 0
    ensures IsRun(c, states, moves) && |states| == 8
    ensures Holds(states[7], t) && Holds(states[7], u)
  {
    hide Next, Self, ValidConfig;
    assert KindOf(c.unlocked) == c.unlocked by { UnlockedIsKind(c); }
    var idle := Thread(Idle, c.unlocked, c.unlocked, 0, 0, 0);
    var s0 := State(c.unlocked, NewHost, map x | x in c.threads :: idle, 0);
    var s1, s2, s3 := FirstLock(c, s0, t);
    var s4, s5, s6, s7 := LockAgain(c, s3, u);
    states := [s0, s1, s2, s3, s4, s5, s6, s7];
    moves := [Local(t, Begin(Lock)), Local(t, Advance), Local(t, Advance),
              Local(u, Begin(Lock)), Local(u, Advance), Local(u, Advance), Local(u, Advance)];
  }

  lemma UnlockedIsKind(c: Config)
    requires ValidConfig(c)
    ensures KindOf(c.unlocked) == c.unlocked
  {
  }

  /** An undisturbed first lock of a free recursive mutex. */
  lemma FirstLock(c: Config, s0: State, t: nat) returns (s1: State, s2: State, s3: State)
    requires c.unlocked.ty == RECURSIVE && KindOf(c.unlocked) == c.unlocked && s0.word == c.unlocked
    requires t in s0.threads && s0.threads[t].pc.Idle? && Self(t) != 0
    ensures Next(c, s0, Local(t, Begin(Lock)), s1) && Next(c, s1, Local(t, Advance), s2)
      && Next(c, s2, Local(t, Advance), s3)
    ensures s3.word == WithOwner(c.unlocked, Self(t), 1) && t in s3.threads
    ensures s3.threads == s0.threads[t := s3.threads[t]] && Depth(s3.threads[t]) == Depth(s0.threads[t]) + 1
  {
    hide Self;
    s1 := Step(c, s0, t, Begin(Lock));
    s2 := Step(c, s1, t, Advance);
    s3 := Step(c, s2, t, Advance);
  }

  /** A lock by a thread whose id is in the owner field counts as recursion. */
  lemma LockAgain(c: Config, s0: State, u: nat) returns (s1: State, s2: State, s3: State, s4: State)
    requires c.unlocked.ty == RECURSIVE && KindOf(s0.word) == c.unlocked
    requires s0.word.state == 1 && s0.word.owner == Self(u) != 0 && s0.word.counter == 0
    requires u in s0.threads && s0.threads[u].pc.Idle?
    ensures Next(c, s0, Local(u, Begin(Lock)), s1) && Next(c, s1, Local(u, Advance), s2)
    ensures Next(c, s2, Local(u, Advance), s3) && Next(c, s3, Local(u, Advance), s4)
    ensures u in s4.threads && s4.threads == s0.threads[u := s4.threads[u]]
      && Depth(s4.threads[u]) == Depth(s0.threads[u]) + 1
  {
    hide Self, CountUp;
    s1 := Step(c, s0, u, Begin(Lock));
    s2 := Step(c, s1, u, Advance);
    s3 := Step(c, s2, u, Advance);
    s4 := Step(c, s3, u, Advance);
  }

  // ---- Runs in which two threads are inside ----------------------------------------------------

  /** An undisturbed lock of a free owned mutex. */
  lemma LockFree(c: Config, s0: State, t: nat) returns (s1: State, s2: State, s3: State)
    requires !IsNormal(c) && ValidConfig(c) && s0.word == c.unlocked
    requires t in s0.threads && s0.threads[t].pc.Idle? && Self(t) != 0
    ensures Next(c, s0, Local(t, Begin(Lock)), s1) && Next(c, s1, Local(t, Advance), s2)
      && Next(c, s2, Local(t, Advance), s3)
    ensures OnlyMoves(s0, s1, t) && OnlyMoves(s0, s2, t) && OnlyMoves(s0, s3, t)
    ensures s3.word == WithOwner(c.unlocked, Self(t), 1) && s3.threads[t].unlocks == s0.threads[t].unlocks
    ensures s2.threads[t].unlocks == s0.threads[t].unlocks && s3.threads[t].locks > s2.threads[t].locks
  {
    assert KindOf(c.unlocked) == c.unlocked by { UnlockedIsKind(c); }
    assert c.unlocked.ty == RECURSIVE || c.unlocked.ty == ERRORCHECK;
    hide Self, ValidConfig;
    s1 := Step(c, s0, t, Begin(Lock));
    s2 := Step(c, s1, t, Advance);
    s3 := Step(c, s2, t, Advance);
  }

  /** pthread_mutex_unlock up to its owner test, passed by any thread whose id is in the owner field. */
  lemma UnlockPassesTest(c: Config, s0: State, u: nat) returns (s1: State, s2: State)
    requires !IsNormal(c) && ValidConfig(c) && u in s0.threads && s0.threads[u].pc.Idle?
    requires s0.word == c.unlocked || s0.word == WithOwner(c.unlocked, Self(u), 1)
    requires s0.word.owner == Self(u)
    ensures Next(c, s0, Local(u, Begin(Unlock)), s1) && Next(c, s1, Local(u, Advance), s2)
    ensures OnlyMoves(s0, s1, u) && OnlyMoves(s0, s2, u) && s2.word == s0.word
    ensures s2.threads[u].pc == UnlockExchange && s2.threads[u].kind == c.unlocked
  {
    assert KindOf(s0.word) == c.unlocked by { UnlockedIsKind(c); }
    assert c.unlocked.ty == RECURSIVE || c.unlocked.ty == ERRORCHECK;
    assert s0.word.counter == 0 && s0.word.ty == c.unlocked.ty;
    hide Self, ValidConfig;
    s1 := Step(c, s0, u, Begin(Unlock));
    s2 := Step(c, s1, u, Advance);
  }

  /** Its exchange then frees the mutex, whoever holds it by now. */
  lemma UnlockFrees(c: Config, s0: State, u: nat) returns (s1: State)
    requires u in s0.threads && s0.threads[u].pc == UnlockExchange && s0.threads[u].kind == c.unlocked
      && s0.word.state == 1
    ensures Next(c, s0, Local(u, Advance), s1) && OnlyMoves(s0, s1, u) && s1.word == c.unlocked
      && s1.threads[u].pc.Idle?
  {
    s1 := Step(c, s0, u, Advance);
  }

  /** `t` takes a level of the lock between `a` and `b` and has given none back at `z`. */
  predicate Took(a: State, b: State, z: State, t: nat) {
    && t in a.threads && t in b.threads && t in z.threads
    && b.threads[t].locks > a.threads[t].locks && z.threads[t].unlocks == a.threads[t].unlocks
  }

  lemma TookIsInside(states: seq<State>, k: nat, n: nat, t: nat)
    requires k < n < |states| && Took(states[k], states[k + 1], states[n], t)
    ensures Inside(states, n, t)
  {
    assert EnteredAt(states, n, t, k);
  }

  /** An initial state. */
  lemma Start(c: Config) returns (s: State)
    requires ValidConfig(c)
    ensures Initial(c, s) && s.threads.Keys == c.threads && s.word == c.unlocked
    ensures forall t :: t in c.threads ==> s.threads[t].pc.Idle?
  {
    hide ValidConfig;
    s := State(c.unlocked, NewHost, map x | x in c.threads :: Thread(Idle, c.unlocked, c.unlocked, 0, 0, 0), 0);
  }

  /** A thread unlocks what another one with the same owner id has locked, and locks it itself. */
  lemma EqualOwnersStealLock(c: Config, t: nat, u: nat) returns (states: seq<State>, moves: seq<Move>)
    requires ValidConfig(c) && !IsNormal(c)
    requires t in c.threads && u in c.threads && t != u && Self(t) == Self(u) != 0
    ensures IsRun(c, states, moves) && |states| == 10 && Inside(states, 9, t) && Inside(states, 9, u)
  {
    hide Next, Self, ValidConfig, Initial;
    var s0 := Start(c);
    var s1, s2, s3 := LockFree(c, s0, t);
    var s4, s5 := UnlockPassesTest(c, s3, u);
    var s6 := UnlockFrees(c, s5, u);
    var s7, s8, s9 := LockFree(c, s6, u);
    assert Took(s2, s3, s9, t) && Took(s8, s9, s9, u);
    hide OnlyMoves, Took, Inside;
    states := [s0, s1, s2, s3, s4, s5, s6, s7, s8, s9];
    moves := [Local(t, Begin(Lock)), Local(t, Advance), Local(t, Advance), Local(u, Begin(Unlock)), Local(u, Advance),
              Local(u, Advance), Local(u, Begin(Lock)), Local(u, Advance), Local(u, Advance)];
    TookIsInside(states, 2, 9, t);
    TookIsInside(states, 8, 9, u);
  }

  /**
   A thread with owner id 0 passes the owner test of unlock on a free mutex, and its exchange comes after another
   thread's lock.
   */
  lemma ZeroOwnerOpens(c: Config, z: nat, t: nat)
      returns (s0: State, s1: State, s2: State, s3: State, s4: State, s5: State, s6: State)
    requires ValidConfig(c) && !IsNormal(c) && z in c.threads && t in c.threads && Self(z) == 0 && Self(t) != 0
    ensures Initial(c, s0) && Next(c, s0, Local(z, Begin(Unlock)), s1) && Next(c, s1, Local(z, Advance), s2)
    ensures Next(c, s2, Local(t, Begin(Lock)), s3) && Next(c, s3, Local(t, Advance), s4)
      && Next(c, s4, Local(t, Advance), s5)
    ensures Next(c, s5, Local(z, Advance), s6)
    ensures Took(s4, s5, s6, t) && s6.word == c.unlocked && forall u :: u in c.threads && u != t ==>
      u in s6.threads && s6.threads[u].pc.Idle?
  {
    assert c.unlocked.owner == 0;
    hide Next, Self, ValidConfig, Initial, OnlyMoves, KindOf, IsNormal;
    s0 := Start(c);
    assert z != t;
    s1, s2 := UnlockPassesTest(c, s0, z);
    OthersStay(s0, s2, z);
    s3, s4, s5 := LockFree(c, s2, t);
    OthersStay(s2, s4, t);
    OthersStay(s2, s5, t);
    s6 := UnlockFrees(c, s5, z);
    OthersStay(s5, s6, z);
  }

  /** So two others get in. */
  lemma ZeroOwnerFreesLock(c: Config, z: nat, t: nat, u: nat) returns (states: seq<State>, moves: seq<Move>)
    requires ValidConfig(c) && !IsNormal(c)
    requires z in c.threads && t in c.threads && u in c.threads && t != u && Self(z) == 0 && Self(t) != 0
      && Self(u) != 0
    ensures IsRun(c, states, moves) && |states| == 10 && Inside(states, 9, t) && Inside(states, 9, u)
  {
    hide Next, Self, ValidConfig, Initial;
    var s0, s1, s2, s3, s4, s5, s6 := ZeroOwnerOpens(c, z, t);
    var s7, s8, s9 := LockFree(c, s6, u);
    assert Took(s4, s5, s9, t) && Took(s8, s9, s9, u);
    hide OnlyMoves, Took, Inside;
    states := [s0, s1, s2, s3, s4, s5, s6, s7, s8, s9];
    moves := [Local(z, Begin(Unlock)), Local(z, Advance), Local(t, Begin(Lock)), Local(t, Advance), Local(t, Advance),
              Local(z, Advance), Local(u, Begin(Lock)), Local(u, Advance), Local(u, Advance)];
    TookIsInside(states, 4, 9, t);
    TookIsInside(states, 8, 9, u);
  }

  /**
   Once two threads are able to lock, a mutex keeps them apart on all runs exactly if it is a normal one or the 16-bit
   owner ids of its threads are distinct and nonzero.
   */
  lemma ExclusiveIffOwnersDistinct(c: Config)
    requires ValidConfig(c) && TwoCanLock(c)
    ensures AlwaysExclusive(c) <==> OwnersOk(c)
  {
    hide ValidConfig, IsRun, Inside, Self;
    if OwnersOk(c) {
      forall states: seq<State>, moves: seq<Move>, n: nat, t: nat, u: nat
        | IsRun(c, states, moves) && n < |states| && Inside(states, n, t) && Inside(states, n, u)
        ensures t == u
      {
        InsideHolds(c, states, moves, n, t);
        InsideHolds(c, states, moves, n, u);
        MutualExclusion(c, states, moves, n, t, u);
      }
    } else if z :| z in c.threads && Self(z) == 0 {
      var t, u :| t in c.threads && u in c.threads && t != u && Self(t) != 0 && Self(u) != 0;
      var states, moves := ZeroOwnerFreesLock(c, z, t, u);
    } else {
      var t, u :| t in c.threads && u in c.threads && t != u && Self(t) == Self(u);
      var states, moves := EqualOwnersStealLock(c, t, u);
    }
  }
}
