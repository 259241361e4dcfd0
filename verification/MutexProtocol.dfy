/**
 The bionic mutex as a protocol of atomic steps (Runtime/Bionic/agr_bionic_sync.cpp).

 Every callback of the source (load, compare-and-swap, exchange, fetch-and-subtract, store, wake,
 and the two halves of a futex wait) is one step of one thread; any number of threads interleave.
 */
module MutexProtocol {
  import opened Prelude
  import opened Futex
  import opened LockWord

  /** The mutex under study and the threads (raw thread ids) that may use it. */
  datatype Config = Config(address: nat, unlocked: Word, threads: set<nat>)

  function Self(t: nat): (r: nat)
    ensures r < 0x1_0000
  {
    t % 0x1_0000
  }

  ghost predicate ValidConfig(c: Config) {
    && AddressOk(c.address)
    && |c.threads| < TWO32
    && exists attr :: InitialWord(attr) == Some(c.unlocked)
  }

  /** Owner ids are 16 bits wide: the protocol needs them distinct and nonzero. */
  ghost predicate DistinctOwners(threads: set<nat>) {
    && (forall t :: t in threads ==> Self(t) != 0)
    && (forall t, u :: t in threads && u in threads && Self(t) == Self(u) ==> t == u)
  }

  // ---- Thread-local state -----------------------------------------------------------------

  datatype Call = Lock | TryLock | Unlock

  /** The next atomic step of a thread, named after the callback it is about to make. */
  datatype Pc =
    | Idle
    | LockLoad
    | NormalCas | NormalExchange | NormalWait | NormalAsleep
    | OwnedFirstCas | OwnedLoad | OwnedCountCas | OwnedTakeCas | OwnedMarkCas | OwnedWait | OwnedAsleep
    | TryLoad | TryCas | TryCountCas | TryReload
    | UnlockLoad | UnlockSubtract | UnlockStore | UnlockCountCas | UnlockReload | UnlockExchange | UnlockWake

  /**
   `value` and `kind` are the source's locals and `result` the last return value. `locks` counts the
   calls that took a level of the lock, `unlocks` those that gave one back.
   */
  datatype Thread = Thread(pc: Pc, value: Word, kind: Word, locks: nat, unlocks: nat, result: int)

  function Depth(th: Thread): (r: int) { th.locks - th.unlocks }

  /** `lost` counts the faults of threads that were about to look at the word again, to free it or to wake somebody. */
  datatype State = State(word: Word, host: Host, threads: map<nat, Thread>, lost: nat)

  /** `Fault` is an access to the word that fails. */
  datatype Action = Begin(call: Call) | Advance | Fault

  predicate IsAsleep(th: Thread) { th.pc == NormalAsleep || th.pc == OwnedAsleep }

  predicate Accesses(th: Thread) { !th.pc.Idle? && !IsAsleep(th) && !th.pc.UnlockWake? }

  /** An unlocker that has yet to store or to wake. */
  predicate Waking(th: Thread) { th.pc.UnlockStore? || th.pc.UnlockWake? }

  /** A thread that will look at the word again, without holding the lock, before it sleeps. */
  predicate Retrying(th: Thread) {
    th.pc.NormalExchange? || (Depth(th) == 0
      && (th.pc.OwnedLoad? || th.pc.OwnedTakeCas? || th.pc.OwnedMarkCas? || th.pc.OwnedWait?))
  }

  predicate Acts(th: Thread) { Waking(th) || Retrying(th) }

  predicate Enabled(c: Config, s: State, t: nat, a: Action) {
    && t in s.threads
    && var th := s.threads[t];
       match a
       case Begin(call) =>
         // Unlocking a normal mutex that the caller does not hold is undefined; owned types report EPERM.
         th.pc == Idle && (call == Unlock && c.unlocked.ty == NORMAL ==> Depth(th) > 0)
       case Advance => th.pc != Idle && (IsAsleep(th) ==> Ready(s.host, c.address))
       case Fault => Accesses(th)
  }

  function Done(th: Thread, code: int): (r: Thread) { th.(pc := Idle, result := code) }
  function Acquired(th: Thread): (r: Thread) { th.(pc := Idle, result := 0, locks := th.locks + 1) }

  function Put(s: State, t: nat, th: Thread): (r: State) { s.(threads := s.threads[t := th]) }
  function PutWord(s: State, t: nat, word: Word, th: Thread): (r: State) {
    s.(word := word, threads := s.threads[t := th])
  }

  /** First half of `wait(a, expected, forever)`; `asleep` and `retry` are where the caller goes on. */
  function BeginWait(c: Config, s: State, t: nat, expected: Word, asleep: Pc, retry: Pc): (r: State)
    requires t in s.threads
  {
    var th := s.threads[t];
    match EnterResult(s.host, c.address, Encode(expected), Some(Encode(s.word)), FOREVER)
    case Parked => s.(host := Enter(s.host, c.address), threads := s.threads[t := th.(pc := asleep)])
    case Refused(code) => Put(s, t, if code == -EAGAIN then th.(pc := retry) else Done(th, -code))
  }

  function EndWait(c: Config, s: State, t: nat, retry: Pc): (r: State)
    requires t in s.threads
  {
    var th := s.threads[t];
    var code := LeaveResult(s.host, c.address, true);
    s.(host := Leave(s.host, c.address, true),
       threads := s.threads[t := if code == 0 then th.(pc := retry) else Done(th, -code)])
  }

  function LockStep(c: Config, s: State, t: nat): (r: State)
    requires t in s.threads
  {
    var th := s.threads[t];
    var self := Self(t);
    match th.pc
    case LockLoad =>
      var kind := KindOf(s.word);
      var th' := th.(value := s.word, kind := kind);
      if s.word.ty == NORMAL then Put(s, t, th'.(pc := NormalCas))
      else if s.word.ty != RECURSIVE && s.word.ty != ERRORCHECK then Put(s, t, Done(th', EINVAL))
      else if self == 0 then Put(s, t, Done(th', EINVAL))
      else Put(s, t, th'.(pc := if s.word == kind then OwnedFirstCas else OwnedLoad))
    case NormalCas =>
      if s.word == th.kind then PutWord(s, t, th.kind.(state := 1), Acquired(th))
        else Put(s, t, th.(pc := NormalExchange))
    case NormalExchange =>
      PutWord(s, t, th.kind.(state := 2), if s.word == th.kind then Acquired(th) else th.(pc := NormalWait))
    case NormalWait => BeginWait(c, s, t, th.kind.(state := 2), NormalAsleep, NormalExchange)
    case NormalAsleep => EndWait(c, s, t, NormalExchange)
    case OwnedFirstCas =>
      if s.word == th.value then PutWord(s, t, WithOwner(th.kind, self, 1), Acquired(th))
      else Put(s, t, th.(pc := OwnedLoad))
    case OwnedLoad =>
      var th' := th.(value := s.word);
      if s.word.state != 0 && s.word.owner == self then
        if th.kind.ty == ERRORCHECK then Put(s, t, Done(th', EDEADLK))
        else if s.word.counter == COUNTER_MAX then Put(s, t, Done(th', EAGAIN))
        else Put(s, t, th'.(pc := OwnedCountCas))
      else if s.word == th.kind then Put(s, t, th'.(pc := OwnedTakeCas))
      else if s.word.state == 1 then Put(s, t, th'.(pc := OwnedMarkCas))
      else Put(s, t, th'.(pc := OwnedWait))
    case OwnedCountCas =>
      if s.word == th.value then PutWord(s, t, CountUp(th.value), Acquired(th)) else Put(s, t, th.(pc := OwnedLoad))
    case OwnedTakeCas =>
      if s.word == th.value then PutWord(s, t, WithOwner(th.kind, self, 2), Acquired(th))
      else Put(s, t, th.(pc := OwnedLoad))
    case OwnedMarkCas =>
      if s.word == th.value then PutWord(s, t, FlipState(th.value), th.(value := FlipState(th.value), pc := OwnedWait))
      else Put(s, t, th.(pc := OwnedLoad))
    case OwnedWait => BeginWait(c, s, t, th.value, OwnedAsleep, OwnedLoad)
    case OwnedAsleep => EndWait(c, s, t, OwnedLoad)
    case _ => s
  }

  function TryStep(c: Config, s: State, t: nat): (r: State)
    requires t in s.threads
  {
    var th := s.threads[t];
    var self := Self(t);
    match th.pc
    case TryLoad =>
      var kind := KindOf(s.word);
      var th' := th.(value := s.word, kind := kind);
      if s.word.ty != NORMAL && s.word.ty != RECURSIVE && s.word.ty != ERRORCHECK then Put(s, t, Done(th', EINVAL))
      else if s.word.ty != NORMAL && s.word.state != 0 && s.word.owner == self then
        if s.word.ty == ERRORCHECK then Put(s, t, Done(th', EDEADLK))
        else if s.word.counter == COUNTER_MAX then Put(s, t, Done(th', EAGAIN))
        else Put(s, t, th'.(pc := TryCountCas))
      else if s.word.ty != NORMAL && self == 0 then Put(s, t, Done(th', EINVAL))
      else Put(s, t, th'.(pc := TryCas))
    case TryCas =>
      if s.word == th.kind then
        PutWord(s, t, WithOwner(th.kind, if th.kind.ty == NORMAL then 0 else self, 1), Acquired(th))
      else Put(s, t, Done(th, EBUSY))
    case TryCountCas =>
      if s.word == th.value then PutWord(s, t, CountUp(th.value), Acquired(th)) else Put(s, t, th.(pc := TryReload))
    case TryReload =>
      if s.word.owner == self then Put(s, t, th.(value := s.word, pc := TryCountCas))
      else Put(s, t, Done(th.(value := s.word), EBUSY))
    case _ => s
  }

  /** The caller gives up one level of the lock at the step that makes it visible. */
  function Released(th: Thread): (r: Thread) { th.(unlocks := th.unlocks + 1) }

  function UnlockStep(c: Config, s: State, t: nat): (r: State)
    requires t in s.threads
  {
    var th := s.threads[t];
    match th.pc
    case UnlockLoad =>
      var kind := KindOf(s.word);
      var th' := th.(value := s.word, kind := kind);
      if s.word.ty == NORMAL then Put(s, t, th'.(pc := UnlockSubtract))
      else if s.word.ty != RECURSIVE && s.word.ty != ERRORCHECK then Put(s, t, Done(th', EINVAL))
      else if s.word.owner != Self(t) then Put(s, t, Done(th', EPERM))
      else Put(s, t, th'.(pc := if s.word.counter != 0 then UnlockCountCas else UnlockExchange))
    case UnlockSubtract =>
      if s.word == th.kind.(state := 1) then PutWord(s, t, SubtractOne(s.word), Done(Released(th), 0))
      else PutWord(s, t, SubtractOne(s.word), th.(pc := UnlockStore))
    case UnlockStore => PutWord(s, t, th.kind, Released(th).(pc := UnlockWake))
    case UnlockCountCas =>
      if s.word == th.value then PutWord(s, t, CountDown(th.value), Done(Released(th), 0))
      else Put(s, t, th.(pc := UnlockReload))
    case UnlockReload => Put(s, t, th.(value := s.word, pc := UnlockCountCas))
    case UnlockExchange =>
      PutWord(s, t, th.kind, if s.word.state == 2 then Released(th).(pc := UnlockWake) else Done(Released(th), 0))
    case UnlockWake => s.(host := Wake(s.host, c.address, 1), threads := s.threads[t := Done(th, 0)])
    case _ => s
  }

  /** A failed access ends the call, with whatever was already done left as it is. */
  function FaultStep(s: State, t: nat): (r: State)
    requires t in s.threads
  {
    var th := s.threads[t];
    var code := match th.pc
      case LockLoad => EINVAL
      case TryLoad => EINVAL
      case UnlockLoad => EINVAL
      case TryReload => EBUSY
      case _ => EFAULT;
    Put(s, t, Done(th, code)).(lost := s.lost + if Acts(th) then 1 else 0)
  }

  function Step(c: Config, s: State, t: nat, a: Action): (r: State)
    requires Enabled(c, s, t, a)
  {
    var th := s.threads[t];
    match a
    case Begin(call) =>
      Put(s, t, th.(pc := match call case Lock => LockLoad case TryLock => TryLoad case Unlock => UnlockLoad))
    case Fault => FaultStep(s, t)
    case Advance =>
      if th.pc.UnlockLoad? || th.pc.UnlockSubtract? || th.pc.UnlockStore? || th.pc.UnlockCountCas?
         || th.pc.UnlockReload? || th.pc.UnlockExchange? || th.pc.UnlockWake? then UnlockStep(c, s, t)
      else if th.pc.TryLoad? || th.pc.TryCas? || th.pc.TryCountCas? || th.pc.TryReload? then TryStep(c, s, t)
      else LockStep(c, s, t)
  }

  // ---- Runs -------------------------------------------------------------------------------

  /** A move of a run: a thread's step, or anything else the process does to the same futex host. */
  datatype Move = Local(t: nat, action: Action) | Elsewhere(host: Host)

  ghost predicate MoveEnabled(c: Config, s: State, m: Move) {
    match m
    case Local(t, a) => Enabled(c, s, t, a)
    case Elsewhere(h) =>
      && Sound(h) && (s.host.closing ==> h.closing)
      && Waiters(h, c.address) == Waiters(s.host, c.address) && Pending(h, c.address) == Pending(s.host, c.address)
  }

  ghost predicate Next(c: Config, s: State, m: Move, s': State) {
    && MoveEnabled(c, s, m)
    && s' == match m case Local(t, a) => Step(c, s, t, a) case Elsewhere(h) => s.(host := h)
  }

  ghost predicate Initial(c: Config, s: State) {
    && s.word == c.unlocked && s.lost == 0
    && Sound(s.host) && c.address !in s.host.queues
    && s.threads.Keys == c.threads
    && forall t :: t in s.threads ==> s.threads[t] == Thread(Idle, c.unlocked, c.unlocked, 0, 0, 0)
  }

  ghost predicate IsRun(c: Config, states: seq<State>, moves: seq<Move>) {
    && |states| == |moves| + 1 && Initial(c, states[0])
    && forall i :: 0 <= i < |moves| ==> Next(c, states[i], moves[i], states[i + 1])
  }
}
