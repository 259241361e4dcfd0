/** What the calls of the bionic mutex answer, on every run (Runtime/Bionic/agr_bionic_sync.cpp:113-217). */
module MutexResults {
  import opened Prelude
  import opened Futex
  import opened LockWord
  import opened MutexProtocol
  import opened MutexSafety
  import opened MutexTheorems

  /** The steps that belong to a call. */
  predicate Serves(call: Call, pc: Pc) {
    match call
    case Lock =>
      || pc.LockLoad? || pc.NormalCas? || pc.NormalExchange? || pc.NormalWait? || pc.NormalAsleep? || pc.OwnedFirstCas?
      || pc.OwnedLoad? || pc.OwnedCountCas? || pc.OwnedTakeCas? || pc.OwnedMarkCas? || pc.OwnedWait? || pc.OwnedAsleep?
    case TryLock => pc.TryLoad? || pc.TryCas? || pc.TryCountCas? || pc.TryReload?
    case Unlock =>
      || pc.UnlockLoad? || pc.UnlockSubtract? || pc.UnlockStore? || pc.UnlockCountCas? || pc.UnlockReload?
      || pc.UnlockExchange? || pc.UnlockWake?
  }

  /** `t` began this call in state `i` and is in it in every state between `i` and `n`. */
  ghost predicate Calling(states: seq<State>, moves: seq<Move>, i: nat, n: nat, t: nat, call: Call) {
    && i < n < |states| && n <= |moves| && moves[i] == Local(t, Begin(call))
    && forall k :: i < k < n ==> Busy(states[k], t)
  }

  predicate Busy(s: State, t: nat) { t in s.threads && !s.threads[t].pc.Idle? }

  /** The call is over in state `n`. */
  ghost predicate Returns(states: seq<State>, moves: seq<Move>, i: nat, n: nat, t: nat, call: Call) {
    Calling(states, moves, i, n, t, call) && t in states[i].threads && t in states[n].threads
      && states[n].threads[t].pc.Idle?
  }

  ghost predicate Unfaulted(moves: seq<Move>, i: nat, n: nat, t: nat) {
    forall k :: 0 <= i < k < n && k < |moves| ==> moves[k] != Local(t, Fault)
  }

  /**
   A call has changed nothing before its decisive step; then it has taken or given one level exactly if it returns 0.
   */
  predicate Counts(call: Call, was: Thread, now: Thread) {
    var done := if now.pc.Idle? then now.result == 0 else now.pc.UnlockWake?;
    && (!now.pc.Idle? ==> Serves(call, now.pc))
    && now.locks == was.locks + (if done && !call.Unlock? then 1 else 0)
    && now.unlocks == was.unlocks + (if done && call.Unlock? then 1 else 0)
  }

  // ---- One step -----------------------------------------------------------------------------------

  lemma LockCounts(c: Config, s: State, t: nat, was: Thread)
    requires Busy(s, t) && Counts(Lock, was, s.threads[t])
    ensures var s' := LockStep(c, s, t); t in s'.threads && Counts(Lock, was, s'.threads[t])
  {
    hide Self, Enter, Leave, CountUp, FlipState, WithOwner, KindOf, Encode;
  }

  lemma TryCounts(c: Config, s: State, t: nat, was: Thread)
    requires Busy(s, t) && Counts(TryLock, was, s.threads[t])
    ensures var s' := TryStep(c, s, t); t in s'.threads && Counts(TryLock, was, s'.threads[t])
  {
    hide Self, CountUp, WithOwner, KindOf;
  }

  lemma UnlockCounts(c: Config, s: State, t: nat, was: Thread)
    requires Busy(s, t) && Counts(Unlock, was, s.threads[t])
    ensures var s' := UnlockStep(c, s, t); t in s'.threads && Counts(Unlock, was, s'.threads[t])
  {
    hide Self, CountDown, SubtractOne, KindOf, Wake;
  }

  lemma FaultCounts(s: State, t: nat, call: Call, was: Thread)
    requires Busy(s, t) && Accesses(s.threads[t]) && Counts(call, was, s.threads[t])
    ensures var s' := FaultStep(s, t); t in s'.threads && Counts(call, was, s'.threads[t])
  {
  }

  lemma StepIs(c: Config, s: State, t: nat, call: Call)
    requires Enabled(c, s, t, Advance) && Serves(call, s.threads[t].pc)
    ensures Step(c, s, t, Advance) ==
      match call case Lock => LockStep(c, s, t) case TryLock => TryStep(c, s, t) case Unlock => UnlockStep(c, s, t)
  {
    hide LockStep, TryStep, UnlockStep;
  }

  lemma NextCounts(c: Config, s: State, m: Move, s': State, t: nat, call: Call, was: Thread)
    requires Next(c, s, m, s') && Busy(s, t) && Counts(call, was, s.threads[t])
    ensures t in s'.threads && Counts(call, was, s'.threads[t])
  {
    if m == Local(t, Advance) {
      StepIs(c, s, t, call);
      hide Counts, LockStep, TryStep, UnlockStep, Step;
      match call {
        case Lock => LockCounts(c, s, t, was);
        case TryLock => TryCounts(c, s, t, was);
        case Unlock => UnlockCounts(c, s, t, was);
      }
    } else if m == Local(t, Fault) {
      FaultCounts(s, t, call, was);
    } else {
      hide Counts;
      OthersUntouched(c, s, m, s', t);
    }
  }

  /** A step of `u` changes no other thread's locals, and does not look at the word for the first time again. */
  predicate StepsAlone(s: State, s': State, u: nat) {
    && u in s.threads && u in s'.threads && s'.threads == s.threads[u := s'.threads[u]]
    && !Looks(s'.threads[u].pc)
  }

  /** The first access of a call. */
  predicate Looks(pc: Pc) { pc.LockLoad? || pc.TryLoad? || pc.UnlockLoad? }

  lemma LockAlone(c: Config, s: State, u: nat)
    requires Busy(s, u) && Serves(Lock, s.threads[u].pc)
    ensures StepsAlone(s, LockStep(c, s, u), u)
  {
    hide Self, Enter, Leave, CountUp, FlipState, WithOwner, KindOf, Encode;
  }

  lemma TryAlone(c: Config, s: State, u: nat)
    requires Busy(s, u) && Serves(TryLock, s.threads[u].pc)
    ensures StepsAlone(s, TryStep(c, s, u), u)
  {
    hide Self, CountUp, WithOwner, KindOf;
  }

  lemma UnlockAlone(c: Config, s: State, u: nat)
    requires Busy(s, u) && Serves(Unlock, s.threads[u].pc)
    ensures StepsAlone(s, UnlockStep(c, s, u), u)
  {
    hide Self, CountDown, SubtractOne, KindOf, Wake;
  }

  lemma FaultAlone(s: State, u: nat)
    requires Busy(s, u)
    ensures StepsAlone(s, FaultStep(s, u), u)
  {
  }

  lemma OwnStepAlone(c: Config, s: State, a: Action, u: nat)
    requires Enabled(c, s, u, a) && !a.Begin?
    ensures StepsAlone(s, Step(c, s, u, a), u)
  {
    hide LockStep, TryStep, UnlockStep, FaultStep, StepsAlone;
    match a
    case Fault => FaultAlone(s, u);
    case Advance =>
      if Serves(Lock, s.threads[u].pc) {
        LockAlone(c, s, u);
      } else if Serves(TryLock, s.threads[u].pc) {
        TryAlone(c, s, u);
      } else {
        UnlockAlone(c, s, u);
      }
  }

  /** No step but its own changes a thread's locals. */
  lemma OthersUntouched(c: Config, s: State, m: Move, s': State, t: nat)
    requires Next(c, s, m, s') && t in s.threads && (m.Local? ==> m.t != t)
    ensures t in s'.threads && s'.threads[t] == s.threads[t]
  {
    if m.Local? && !m.action.Begin? {
      OwnStepAlone(c, s, m.action, m.t);
      hide Step;
    }
  }

  // ---- Whole calls --------------------------------------------------------------------------------

  lemma {:induction false} InCall(c: Config, states: seq<State>, moves: seq<Move>, i: nat, n: nat, t: nat, call: Call)
    requires IsRun(c, states, moves) && Calling(states, moves, i, n, t, call)
    ensures t in states[i].threads && states[i].threads[t].pc.Idle? && t in states[n].threads
    ensures Counts(call, states[i].threads[t], states[n].threads[t]) && (n == i + 1 ==> !states[n].threads[t].pc.Idle?)
    decreases n
  {
    assert Next(c, states[i], moves[i], states[i + 1]);
    if n > i + 1 {
      InCall(c, states, moves, i, n - 1, t, call);
      assert Busy(states[n - 1], t);
      assert Next(c, states[n - 1], moves[n - 1], states[n - 1 + 1]);
      hide Next, Counts;
      NextCounts(c, states[n - 1], moves[n - 1], states[n], t, call, states[i].threads[t]);
    }
  }

  /**
   lock and trylock return 0 exactly if they took a level, unlock exactly if it gave one back; otherwise the depth is
   as before.
   */
  lemma ZeroMeansDone(c: Config, states: seq<State>, moves: seq<Move>, i: nat, n: nat, t: nat, call: Call)
    requires IsRun(c, states, moves) && Returns(states, moves, i, n, t, call)
    ensures var was, now := states[i].threads[t], states[n].threads[t];
      && (now.result == 0 <==> now.locks + now.unlocks == was.locks + was.unlocks + 1)
      && (now.result != 0 ==> now.locks == was.locks && now.unlocks == was.unlocks)
      && Depth(now) == Depth(was) + if now.result != 0 then 0 else if call.Unlock? then -1 else 1
  {
    InCall(c, states, moves, i, n, t, call);
  }

  /** The last step of a call is its own. */
  lemma LastStep(c: Config, states: seq<State>, moves: seq<Move>, i: nat, n: nat, t: nat, call: Call)
    requires IsRun(c, states, moves) && Returns(states, moves, i, n, t, call) && Unfaulted(moves, i, n, t)
    ensures n > i + 1 && Busy(states[n - 1], t) && Enabled(c, states[n - 1], t, Advance)
    ensures states[n] == Step(c, states[n - 1], t, Advance)
    ensures Counts(call, states[i].threads[t], states[n - 1].threads[t])
  {
    InCall(c, states, moves, i, n, t, call);
    InCall(c, states, moves, i, n - 1, t, call);
    var s, s', m := states[n - 1], states[n], moves[n - 1];
    assert Busy(s, t) && Next(c, s, m, states[n - 1 + 1]);
    hide Counts, Step;
    if !(m.Local? && m.t == t) { OthersUntouched(c, s, m, s', t); }
  }

  // ---- Answers ------------------------------------------------------------------------------------

  /** What a thread that already holds a mutex of a type that records its owner gets for locking it again. */
  function RelockAnswer(c: Config, depth: int): (code: int) {
    if c.unlocked.ty == ERRORCHECK then EDEADLK else if depth == 2048 then EAGAIN else 0
  }

  lemma LockEnds(c: Config, s: State, t: nat)
    requires ValidConfig(c) && OwnersOk(c) && Inv(c, s) && Busy(s, t) && Serves(Lock, s.threads[t].pc)
    requires LockStep(c, s, t).threads[t].pc.Idle?
    ensures var d, code := Depth(s.threads[t]), LockStep(c, s, t).threads[t].result;
      && (!IsNormal(c) && d > 0 ==> code == RelockAnswer(c, d))
      && (IsNormal(c) || d == 0 ==> code == 0 || (code == ECANCELED && s.host.closing))
  {
    OwnerIsHolder(c, s, t);
    hide Enter, Leave, CountUp, FlipState, Encode, WordInv, QueueInv, WakeInv;
  }

  lemma TryEnds(c: Config, s: State, t: nat)
    requires ValidConfig(c) && OwnersOk(c) && Inv(c, s) && Busy(s, t) && Serves(TryLock, s.threads[t].pc)
    requires TryStep(c, s, t).threads[t].pc.Idle?
    ensures var d, code := Depth(s.threads[t]), TryStep(c, s, t).threads[t].result;
      && (!IsNormal(c) && d > 0 ==> code == RelockAnswer(c, d))
      && (IsNormal(c) || d == 0 ==> code == if Free(c, s) then 0 else EBUSY)
  {
    OwnerIsHolder(c, s, t);
    hide CountUp, KindOf, WordInv, QueueInv, WakeInv;
  }

  lemma UnlockEnds(c: Config, s: State, t: nat)
    requires ValidConfig(c) && OwnersOk(c) && Inv(c, s) && Busy(s, t) && Serves(Unlock, s.threads[t].pc)
    requires UnlockStep(c, s, t).threads[t].pc.Idle?
    ensures UnlockStep(c, s, t).threads[t].result ==
      if s.threads[t].pc.UnlockWake? || Depth(s.threads[t]) > 0 then 0 else EPERM
  {
    OwnerIsHolder(c, s, t);
    hide CountDown, SubtractOne, KindOf, Wake, WordInv, QueueInv, WakeInv;
  }

  /**
   pthread_mutex_lock. By a thread that holds a mutex of a type that records its owner: EDEADLK for ERRORCHECK, EAGAIN
   at 2048 levels, and else one level more. Otherwise the lock, unless the host is closing.
   */
  lemma LockAnswers(c: Config, states: seq<State>, moves: seq<Move>, i: nat, n: nat, t: nat)
    requires ValidConfig(c) && OwnersOk(c) && IsRun(c, states, moves)
    requires Returns(states, moves, i, n, t, Lock) && Unfaulted(moves, i, n, t)
    ensures var d, code := Depth(states[i].threads[t]), states[n].threads[t].result;
      && (c.unlocked.ty == ERRORCHECK && d > 0 ==> code == EDEADLK)
      && (c.unlocked.ty == RECURSIVE && d > 0 ==> code == if d == 2048 then EAGAIN else 0)
      && (c.unlocked.ty == NORMAL || d == 0 ==> code == 0 || (code == ECANCELED && states[n - 1].host.closing))
  {
    LastStep(c, states, moves, i, n, t, Lock);
    RunKeepsInv(c, states, moves, n - 1);
    OwnerIsHolder(c, states[n - 1], t);
    StepIs(c, states[n - 1], t, Lock);
    LockEnds(c, states[n - 1], t);
    hide Inv, ValidConfig, OwnersOk, LockStep, Step, IsRun;
  }

  /** pthread_mutex_trylock: the same for a holder; otherwise EBUSY exactly if anybody holds the mutex at its swap. */
  lemma TryLockAnswers(c: Config, states: seq<State>, moves: seq<Move>, i: nat, n: nat, t: nat)
    requires ValidConfig(c) && OwnersOk(c) && IsRun(c, states, moves)
    requires Returns(states, moves, i, n, t, TryLock) && Unfaulted(moves, i, n, t)
    ensures var d, code := Depth(states[i].threads[t]), states[n].threads[t].result;
      && (c.unlocked.ty == ERRORCHECK && d > 0 ==> code == EDEADLK)
      && (c.unlocked.ty == RECURSIVE && d > 0 ==> code == if d == 2048 then EAGAIN else 0)
      && (c.unlocked.ty == NORMAL || d == 0 ==>
            code == if SomeoneHolds(states[n - 1]) then EBUSY else 0)
  {
    LastStep(c, states, moves, i, n, t, TryLock);
    RunKeepsInv(c, states, moves, n - 1);
    OwnerIsHolder(c, states[n - 1], t);
    StepIs(c, states[n - 1], t, TryLock);
    TryEnds(c, states[n - 1], t);
    FreeIffUnheld(c, states[n - 1]);
    hide Inv, ValidConfig, OwnersOk, TryStep, Step, IsRun, Free, SomeoneHolds;
  }

  ghost predicate SomeoneHolds(s: State) { exists u :: Holds(s, u) }

  lemma FreeIffUnheld(c: Config, s: State)
    requires Inv(c, s)
    ensures Free(c, s) <==> !SomeoneHolds(s)
  {
    if h :| HeldBy(c, s, h) { assert Holds(s, h); }
  }

  /** pthread_mutex_unlock: 0 for a holder, and EPERM for everybody else, which for a normal mutex is undefined. */
  lemma UnlockAnswers(c: Config, states: seq<State>, moves: seq<Move>, i: nat, n: nat, t: nat)
    requires ValidConfig(c) && OwnersOk(c) && IsRun(c, states, moves)
    requires Returns(states, moves, i, n, t, Unlock) && Unfaulted(moves, i, n, t)
    ensures states[n].threads[t].result == if Depth(states[i].threads[t]) > 0 then 0 else EPERM
  {
    LastStep(c, states, moves, i, n, t, Unlock);
    RunKeepsInv(c, states, moves, n - 1);
    OwnerIsHolder(c, states[n - 1], t);
    StepIs(c, states[n - 1], t, Unlock);
    UnlockEnds(c, states[n - 1], t);
    hide Inv, ValidConfig, OwnersOk, UnlockStep, Step, IsRun;
  }

  /** A call by a holder that is refused has not touched the word. */
  lemma RelockLeavesWord(c: Config, states: seq<State>, moves: seq<Move>, i: nat, n: nat, t: nat, call: Call, k: nat)
    requires ValidConfig(c) && OwnersOk(c) && !IsNormal(c) && IsRun(c, states, moves) && !call.Unlock?
    requires Returns(states, moves, i, n, t, call) && states[n].threads[t].result != 0
    requires t in states[i].threads && Depth(states[i].threads[t]) > 0
    requires i < k < n && moves[k].Local? && moves[k].t == t
    ensures states[k + 1].word == states[k].word
  {
    assert Calling(states, moves, i, k, t, call);
    InCall(c, states, moves, i, k, t, call);
    assert Busy(states[k], t) && Next(c, states[k], moves[k], states[k + 1]);
    RunKeepsInv(c, states, moves, k);
    if moves[k] == Local(t, Advance) {
      StepIs(c, states[k], t, call);
      HolderStep(c, states[k], t, call);
    }
    hide Inv, ValidConfig, OwnersOk, LockStep, TryStep, IsRun;
  }

  lemma HolderStep(c: Config, s: State, t: nat, call: Call)
    requires ValidConfig(c) && OwnersOk(c) && !IsNormal(c) && Inv(c, s) && Busy(s, t) && Depth(s.threads[t]) > 0
    requires !call.Unlock? && Serves(call, s.threads[t].pc)
    ensures var s' := if call.Lock? then LockStep(c, s, t) else TryStep(c, s, t);
      s'.word == s.word || (s'.threads[t].pc.Idle? && s'.threads[t].result == 0)
  {
    OwnerIsHolder(c, s, t);
    hide Enter, Leave, CountUp, FlipState, KindOf, Encode, WordInv, QueueInv, WakeInv;
  }

  /** A thread with owner id 0 cannot lock a mutex of a type that records its owner. */
  lemma ZeroIdRefused(c: Config, s: State, t: nat)
    requires t in s.threads && Self(t) == 0 && s.word.ty in {RECURSIVE, ERRORCHECK}
    ensures s.threads[t].pc.LockLoad? ==>
      LockStep(c, s, t).threads[t].pc.Idle? && LockStep(c, s, t).threads[t].result == EINVAL
    ensures s.threads[t].pc.TryLoad? && s.word.state == 0 ==>
      TryStep(c, s, t).threads[t].pc.Idle? && TryStep(c, s, t).threads[t].result == EINVAL
  {
    hide Enter, Leave, KindOf;
  }

  /** Whatever the owner ids, unlock refuses a thread whose id is not in the owner field, and touches nothing. */
  lemma StrangerRefused(c: Config, s: State, t: nat)
    requires t in s.threads && s.threads[t].pc.UnlockLoad? && s.word.ty in {RECURSIVE, ERRORCHECK}
    ensures var s' := UnlockStep(c, s, t);
      && (s.word.owner != Self(t) <==> s'.threads[t].pc.Idle?)
      && (s'.threads[t].pc.Idle? ==> s'.threads[t].result == EPERM)
      && s'.word == s.word && s'.host == s.host
  {
    hide Self, KindOf;
  }

  // ---- Failed accesses ----------------------------------------------------------------------------

  ghost predicate Idled(moves: seq<Move>, i: nat, n: nat, t: nat) {
    forall k :: 0 <= i < k < n && k < |moves| ==> !(moves[k].Local? && moves[k].t == t)
  }

  lemma LooksOnce(c: Config, s: State, m: Move, s': State, t: nat)
    requires Next(c, s, m, s') && Busy(s, t) && m.Local? && m.t == t
    ensures t in s'.threads && !Looks(s'.threads[t].pc)
  {
    OwnStepAlone(c, s, m.action, t);
    hide Step;
  }

  lemma BeginsLooking(c: Config, s: State, s': State, t: nat, call: Call)
    requires Next(c, s, Local(t, Begin(call)), s')
    ensures t in s'.threads && Looks(s'.threads[t].pc)
  {
  }

  lemma RunNext(c: Config, states: seq<State>, moves: seq<Move>, k: nat)
    requires IsRun(c, states, moves) && k < |moves|
    ensures |states| == |moves| + 1 && Next(c, states[k], moves[k], states[k + 1])
  {
    hide Next, Initial;
  }

  lemma {:induction false} LooksFirst(c: Config, states: seq<State>, moves: seq<Move>, i: nat, n: nat, t: nat,
      call: Call)
    requires IsRun(c, states, moves) && Calling(states, moves, i, n, t, call)
    ensures t in states[n].threads && (Looks(states[n].threads[t].pc) <==> Idled(moves, i, n, t))
    decreases n
  {
    hide Next, Initial, Looks;
    RunNext(c, states, moves, n - 1);
    if n == i + 1 {
      BeginsLooking(c, states[i], states[n], t, call);
    } else {
      LooksFirst(c, states, moves, i, n - 1, t, call);
      assert Busy(states[n - 1], t);
      if moves[n - 1].Local? && moves[n - 1].t == t {
        LooksOnce(c, states[n - 1], moves[n - 1], states[n], t);
      } else {
        OthersUntouched(c, states[n - 1], moves[n - 1], states[n], t);
      }
    }
  }

  lemma FaultCode(c: Config, s: State, s': State, t: nat)
    requires Next(c, s, Local(t, Fault), s')
    ensures t in s.threads && t in s'.threads
    ensures s'.threads[t].result ==
      if Looks(s.threads[t].pc) then EINVAL else if s.threads[t].pc.TryReload? then EBUSY else EFAULT
  {
  }

  /**
   A call that ends with an access that fails returns EINVAL if that was its first one, EBUSY if trylock was reading the
   word again, and EFAULT otherwise.
   */
  lemma FaultAnswers(c: Config, states: seq<State>, moves: seq<Move>, i: nat, n: nat, t: nat, call: Call)
    requires IsRun(c, states, moves) && Returns(states, moves, i, n, t, call) && moves[n - 1] == Local(t, Fault)
    ensures n > i + 1 && t in states[n - 1].threads
    ensures states[n].threads[t].result == if Idled(moves, i, n - 1, t) then EINVAL
      else if states[n - 1].threads[t].pc.TryReload? then EBUSY else EFAULT
  {
    hide Initial, Idled, Next;
    LooksFirst(c, states, moves, i, n - 1, t, call);
    RunNext(c, states, moves, n - 1);
    FaultCode(c, states[n - 1], states[n], t);
  }
}
