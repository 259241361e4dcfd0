/**
 pthread_once as a protocol of atomic steps (Runtime/Bionic/agr_bionic_sync.cpp:271-299).

 The control word goes 0 -> 1 (initialising) -> 2 (completed), back to 0 if the initialiser fails.
 */
module OnceProtocol {
  import opened Prelude
  import opened Futex

  datatype Config = Config(address: nat, threads: set<nat>)

  /** At most INT_MAX threads, so that one wake-all reaches every sleeper. */
  ghost predicate ValidConfig(c: Config) {
    AddressOk(c.address) && |c.threads| <= WAKE_ALL
  }

  function WithBit0(w: nat): (r: nat) { if w % 2 == 1 then w else w + 1 }
  predicate Bit0(w: nat) { w % 2 == 1 }
  predicate Bit1(w: nat) { w / 2 % 2 == 1 }

  datatype Pc = Idle | Load | Cas | Wait | Asleep | Running | StoreZero | WakeFailed | StoreTwo | WakeDone

  /** `seen` is the value last loaded, `code` what the initialiser returned, `result` what the last call returned. */
  datatype Thread = Thread(pc: Pc, seen: nat, code: int, result: Option<int>)

  /**
   `completions` counts the initialiser runs that returned 0, and `lost` the initialisers whose outcome could not be
   stored.
   */
  datatype State = State(word: nat, host: Host, threads: map<nat, Thread>, completions: nat, lost: nat)

  /** `Fault` is an access to the control word that fails. */
  datatype Move = Call(t: nat) | Advance(t: nat) | Fault(t: nat) | Finish(t: nat, code: int) | Elsewhere(host: Host)

  ghost predicate Enabled(c: Config, s: State, m: Move) {
    match m
    case Call(t) => t in s.threads && s.threads[t].pc.Idle?
    case Advance(t) => t in s.threads && !s.threads[t].pc.Idle? && !s.threads[t].pc.Running?
      && (s.threads[t].pc.Asleep? ==> Ready(s.host, c.address))
    case Fault(t) => t in s.threads && Accesses(s.threads[t].pc)
    case Finish(t, _) => t in s.threads && s.threads[t].pc.Running?
    case Elsewhere(h) =>
      && Sound(h) && (s.host.closing ==> h.closing)
      && Waiters(h, c.address) == Waiters(s.host, c.address) && Pending(h, c.address) == Pending(s.host, c.address)
  }

  predicate Accesses(pc: Pc) { pc.Load? || pc.Cas? || pc.StoreZero? || pc.StoreTwo? }

  function Put(s: State, t: nat, th: Thread): (r: State) { s.(threads := s.threads[t := th]) }
  function Done(th: Thread, code: int): (r: Thread) { th.(pc := Idle, result := Some(code)) }

  function AdvanceStep(c: Config, s: State, t: nat): (r: State)
    requires t in s.threads
  {
    var th := s.threads[t];
    match th.pc
    case Load => Put(s, t, if Bit1(s.word) then Done(th.(seen := s.word), 0) else th.(seen := s.word, pc := Cas))
    case Cas =>
      if s.word != th.seen then Put(s, t, th.(pc := Load))
      else Put(s, t, th.(pc := if Bit0(th.seen) then Wait else Running)).(word := WithBit0(th.seen))
    case Wait =>
      (match EnterResult(s.host, c.address, WithBit0(th.seen), Some(s.word), FOREVER)
       case Parked => Put(s, t, th.(pc := Asleep)).(host := Enter(s.host, c.address))
       case Refused(code) => Put(s, t, if code == -EAGAIN then th.(pc := Load) else Done(th, -code)))
    case Asleep =>
      var code := LeaveResult(s.host, c.address, true);
      Put(s, t, if code == 0 then th.(pc := Load) else Done(th, -code)).(host := Leave(s.host, c.address, true))
    case StoreZero => Put(s, t, th.(pc := WakeFailed)).(word := 0)
    case WakeFailed => Put(s, t, Done(th, th.code)).(host := Wake(s.host, c.address, WAKE_ALL))
    case StoreTwo => Put(s, t, th.(pc := WakeDone)).(word := 2)
    case WakeDone => Put(s, t, Done(th, 0)).(host := Wake(s.host, c.address, WAKE_ALL))
    case _ => s
  }

  /**
   A failed load or compare-and-swap ends the call; a failed store is not noticed after a failed initialiser, and skips
   the wake otherwise.
   */
  function FaultStep(s: State, t: nat): (r: State)
    requires t in s.threads
  {
    var th := s.threads[t];
    match th.pc
    case StoreZero => Put(s, t, th.(pc := WakeFailed)).(lost := s.lost + 1)
    case StoreTwo => Put(s, t, Done(th, EFAULT)).(lost := s.lost + 1)
    case _ => Put(s, t, Done(th, EFAULT))
  }

  ghost predicate Next(c: Config, s: State, m: Move, s': State) {
    && Enabled(c, s, m)
    && s' == match m
       case Call(t) => Put(s, t, s.threads[t].(pc := Load))
       case Advance(t) => AdvanceStep(c, s, t)
       case Fault(t) => FaultStep(s, t)
       case Finish(t, code) =>
         var th := s.threads[t].(code := code, pc := if code == 0 then StoreTwo else StoreZero);
         Put(s, t, th).(completions := s.completions + if code == 0 then 1 else 0)
       case Elsewhere(h) => s.(host := h)
  }

  ghost predicate Initial(c: Config, s: State) {
    && s.word == 0 && s.completions == 0 && s.lost == 0 && Sound(s.host) && c.address !in s.host.queues
      && s.threads.Keys == c.threads
    && forall t :: t in s.threads ==> s.threads[t] == Thread(Idle, 0, 0, None)
  }

  ghost predicate IsRun(c: Config, states: seq<State>, moves: seq<Move>) {
    && |states| == |moves| + 1 && Initial(c, states[0])
    && forall i :: 0 <= i < |moves| ==> Next(c, states[i], moves[i], states[i + 1])
  }

  // ---- The invariant ----------------------------------------------------------------------

  /** From winning the compare-and-swap to the store that publishes the outcome. */
  predicate Initialising(th: Thread) { th.pc.Running? || th.pc.StoreZero? || th.pc.StoreTwo? }
  predicate WakingAll(th: Thread) { th.pc.WakeFailed? || th.pc.WakeDone? }

  predicate LocalInv(s: State, th: Thread) {
    && ((th.pc.Cas? || th.pc.Wait?) ==> th.seen <= 1)
    && (th.pc.WakeDone? ==> s.word == 2)
    && (th.pc.StoreTwo? ==> s.completions == 1)
    && (th.pc.Running? || th.pc.StoreZero? ==> s.completions == 0)
    && (th.pc.StoreZero? || th.pc.WakeFailed? ==> th.code != 0)
    && (th.result == Some(0) ==> s.word == 2)
  }

  ghost predicate Inv(c: Config, s: State) {
    && ActiveInv(s) && QueueInv(c, s) && WakeInv(c, s)
    && forall t :: t in s.threads ==> LocalInv(s, s.threads[t])
  }

  /** The word is 1 exactly while one thread initialises or an outcome was lost, and 2 only after a successful run. */
  ghost predicate ActiveInv(s: State) {
    && s.word <= 2 && s.completions <= 1
    && (s.word == 1 <==> s.lost > 0 || exists t :: t in s.threads && Initialising(s.threads[t]))
    && (s.lost > 0 ==> forall t :: t in s.threads ==> !Initialising(s.threads[t]))
    && (forall t, u :: t in s.threads && u in s.threads && Initialising(s.threads[t]) && Initialising(s.threads[u]) ==>
      t == u)
    && (s.word == 2 ==> s.completions == 1) && (s.word == 0 ==> s.completions == 0)
  }

  ghost function AsleepSet(threads: map<nat, Thread>): (r: set<nat>) {
    set t | t in threads && threads[t].pc.Asleep?
  }

  ghost predicate QueueInv(c: Config, s: State) {
    && Sound(s.host) && s.threads.Keys == c.threads
    && Waiters(s.host, c.address) == |AsleepSet(s.threads)|
  }

  ghost predicate WakeInv(c: Config, s: State) {
    Waiters(s.host, c.address) > Pending(s.host, c.address) && !s.host.closing ==>
      s.word == 1 || exists t :: t in s.threads && WakingAll(s.threads[t])
  }

  // ---- Preservation -------------------------------------------------------------------------

  lemma AsleepMoved(threads: map<nat, Thread>, t: nat, th: Thread)
    requires t in threads
    ensures |AsleepSet(threads[t := th])| ==
      |AsleepSet(threads)| + (if th.pc.Asleep? then 1 else 0) - (if threads[t].pc.Asleep? then 1 else 0)
  {
    var before, after := AsleepSet(threads), AsleepSet(threads[t := th]);
    if th.pc.Asleep? && !threads[t].pc.Asleep? {
      assert after == before + {t};
    } else if threads[t].pc.Asleep? && !th.pc.Asleep? {
      assert after == before - {t};
    } else {
      assert after == before;
    }
  }

  /** What a step of `t` must respect; covers every step, whatever it does to word and queue. */
  lemma MoveKeepsInv(c: Config, s: State, s': State, t: nat)
    requires Inv(c, s) && t in s.threads && t in s'.threads && s'.threads == s.threads[t := s'.threads[t]]
    requires LocalInv(s', s'.threads[t]) && s'.word <= 2 && s'.completions <= 1
    requires s'.lost == s.lost || (s'.lost > s.lost && Initialising(s.threads[t]) && s'.word == 1)
    requires Initialising(s'.threads[t]) <==>
      s'.word == 1 && s'.lost == s.lost && (Initialising(s.threads[t]) || s.word != 1)
    requires s'.word == 1 || s'.word == s.word || Initialising(s.threads[t])
    requires s.word == 2 ==> s'.word == 2
    requires s'.completions != s.completions ==> s.threads[t].pc.Running?
    requires (s'.word == 2 ==> s'.completions == 1) && (s'.word == 0 ==> s'.completions == 0)
    requires Sound(s'.host) && (s.host.closing ==> s'.host.closing)
    requires Waiters(s'.host, c.address) == Waiters(s.host, c.address)
      + (if s'.threads[t].pc.Asleep? then 1 else 0) - (if s.threads[t].pc.Asleep? then 1 else 0)
    requires
      || s'.word == 1 || s'.host.closing || WakingAll(s'.threads[t])
      || Waiters(s'.host, c.address) == Pending(s'.host, c.address)
      || (s.word != 1 && !WakingAll(s.threads[t])
          && Waiters(s'.host, c.address) - Pending(s'.host, c.address) <= Waiters(s.host, c.address) - Pending(s.host,
            c.address))
    ensures Inv(c, s')
  {
    hide Sound;
    AsleepMoved(s.threads, t, s'.threads[t]);
    assert ActiveInv(s') by {
      if s'.word == 1 && s'.lost == 0 && !Initialising(s'.threads[t]) {
        var u :| u in s.threads && Initialising(s.threads[u]);
        assert u in s'.threads && Initialising(s'.threads[u]);
      }
    }
    assert WakeInv(c, s') by {
      if u :| u in s.threads && WakingAll(s.threads[u]) {
        assert u != t ==> u in s'.threads && WakingAll(s'.threads[u]);
      }
    }
  }

  lemma LoadKeepsInv(c: Config, s: State, t: nat)
    requires ValidConfig(c) && Inv(c, s) && Enabled(c, s, Advance(t)) && s.threads[t].pc.Load?
    ensures Inv(c, AdvanceStep(c, s, t))
  {
    assert Sound(s.host);
    hide Sound, QueueInv, WakeInv;
    MoveKeepsInv(c, s, AdvanceStep(c, s, t), t);
  }

  /** Winning with the bit clear makes this thread the initialiser; with the bit set it goes on to wait. */
  lemma CasKeepsInv(c: Config, s: State, t: nat)
    requires ValidConfig(c) && Inv(c, s) && Enabled(c, s, Advance(t)) && s.threads[t].pc.Cas?
    ensures Inv(c, AdvanceStep(c, s, t))
  {
    assert Sound(s.host);
    hide Sound, QueueInv, WakeInv;
    MoveKeepsInv(c, s, AdvanceStep(c, s, t), t);
  }

  lemma StoreKeepsInv(c: Config, s: State, t: nat)
    requires ValidConfig(c) && Inv(c, s) && Enabled(c, s, Advance(t))
      && (s.threads[t].pc.StoreZero? || s.threads[t].pc.StoreTwo?)
    ensures Inv(c, AdvanceStep(c, s, t))
  {
    assert Sound(s.host);
    hide Sound, QueueInv, WakeInv;
    MoveKeepsInv(c, s, AdvanceStep(c, s, t), t);
  }

  /** A failed load or swap leaves the word alone. */
  lemma LookFaultKeepsInv(c: Config, s: State, t: nat)
    requires ValidConfig(c) && Inv(c, s) && Enabled(c, s, Fault(t)) && (s.threads[t].pc.Load? || s.threads[t].pc.Cas?)
    ensures Inv(c, FaultStep(s, t))
  {
    assert Sound(s.host);
    hide Sound, QueueInv, WakeInv;
    MoveKeepsInv(c, s, FaultStep(s, t), t);
  }

  /** A failed store leaves it at 1 with nobody initialising. */
  lemma StoreFaultKeepsInv(c: Config, s: State, t: nat)
    requires ValidConfig(c) && Inv(c, s) && Enabled(c, s, Fault(t))
      && (s.threads[t].pc.StoreZero? || s.threads[t].pc.StoreTwo?)
    ensures Inv(c, FaultStep(s, t))
  {
    assert Sound(s.host);
    hide Sound, QueueInv, WakeInv;
    MoveKeepsInv(c, s, FaultStep(s, t), t);
  }

  lemma WaitKeepsInv(c: Config, s: State, t: nat)
    requires ValidConfig(c) && Inv(c, s) && Enabled(c, s, Advance(t)) && s.threads[t].pc.Wait?
    ensures Inv(c, AdvanceStep(c, s, t))
  {
    EnterEffect(s.host, c.address);
    assert WithBit0(s.threads[t].seen) == 1;
    hide Sound, Enter, AddressOk, WakeInv, WithBit0, Bit0, Bit1;
    MoveKeepsInv(c, s, AdvanceStep(c, s, t), t);
  }

  lemma AsleepKeepsInv(c: Config, s: State, t: nat)
    requires ValidConfig(c) && Inv(c, s) && Enabled(c, s, Advance(t)) && s.threads[t].pc.Asleep?
    ensures Inv(c, AdvanceStep(c, s, t))
  {
    hide Sound, Leave;
    assert t in AsleepSet(s.threads);
    SubsetSize(AsleepSet(s.threads), c.threads);
    LeaveEffect(s.host, c.address, true);
    MoveKeepsInv(c, s, AdvanceStep(c, s, t), t);
  }

  /** Waking everybody hands every sleeper a token. */
  lemma WakeAllKeepsInv(c: Config, s: State, t: nat)
    requires ValidConfig(c) && Inv(c, s) && Enabled(c, s, Advance(t)) && WakingAll(s.threads[t])
    ensures Inv(c, AdvanceStep(c, s, t))
  {
    hide Sound, Wake;
    SubsetSize(AsleepSet(s.threads), c.threads);
    WakeEffect(s.host, c.address, WAKE_ALL);
    MoveKeepsInv(c, s, AdvanceStep(c, s, t), t);
  }

  lemma NextKeepsInv(c: Config, s: State, m: Move, s': State)
    requires ValidConfig(c) && Inv(c, s) && Next(c, s, m, s')
    ensures Inv(c, s')
  {
    hide Sound;
    match m {
      case Call(t) => MoveKeepsInv(c, s, s', t);
      case Finish(t, code) => MoveKeepsInv(c, s, s', t);
      case Elsewhere(_) =>
      case Fault(t) =>
        hide Inv, ValidConfig, FaultStep;
        if s.threads[t].pc.Load? || s.threads[t].pc.Cas? { LookFaultKeepsInv(c, s, t); }
          else { StoreFaultKeepsInv(c, s, t); }
      case Advance(t) =>
        hide Inv, ValidConfig, AdvanceStep;
        match s.threads[t].pc {
          case Wait => WaitKeepsInv(c, s, t);
          case Asleep => AsleepKeepsInv(c, s, t);
          case WakeFailed => WakeAllKeepsInv(c, s, t);
          case WakeDone => WakeAllKeepsInv(c, s, t);
          case Load => LoadKeepsInv(c, s, t);
          case Cas => CasKeepsInv(c, s, t);
          case _ => StoreKeepsInv(c, s, t);
        }
    }
  }

  lemma {:induction false} RunKeepsInv(c: Config, states: seq<State>, moves: seq<Move>, n: nat)
    requires ValidConfig(c) && IsRun(c, states, moves) && n < |states|
    ensures Inv(c, states[n])
  {
    if n == 0 {
      assert AsleepSet(states[0].threads) == {};
    } else {
      RunKeepsInv(c, states, moves, n - 1);
      assert Next(c, states[n - 1], moves[n - 1], states[n - 1 + 1]);
      NextKeepsInv(c, states[n - 1], moves[n - 1], states[n]);
    }
  }

  // ---- Main results ---------------------------------------------------------------------------

  predicate RunsInitialiser(s: State, t: nat) { t in s.threads && s.threads[t].pc.Running? }

  /** At most one thread is in the initialiser, at most one run of it ever succeeds, and none starts after that. */
  lemma InitialiserRunsAlone(c: Config, states: seq<State>, moves: seq<Move>, n: nat)
    requires ValidConfig(c) && IsRun(c, states, moves) && n < |states|
    ensures states[n].completions <= 1
    ensures forall t, u :: RunsInitialiser(states[n], t) && RunsInitialiser(states[n], u) ==> t == u
    ensures states[n].completions == 1 ==> forall t :: !RunsInitialiser(states[n], t)
  {
    RunKeepsInv(c, states, moves, n);
    var s := states[n];
    forall t, u | RunsInitialiser(s, t) && RunsInitialiser(s, u) ensures t == u {
      assert Initialising(s.threads[t]) && Initialising(s.threads[u]);
    }
  }

  /** A caller told 0 is told so after the successful run was published, and the word never leaves 2 again. */
  lemma ZeroMeansCompleted(c: Config, states: seq<State>, moves: seq<Move>, m: nat, n: nat, t: nat)
    requires ValidConfig(c) && IsRun(c, states, moves) && m <= n < |states|
    requires t in states[m].threads && states[m].threads[t].result == Some(0)
    ensures states[n].completions == 1 && states[n].word == 2
    decreases n - m
  {
    RunKeepsInv(c, states, moves, m);
    CompletedForever(c, states, moves, m, n);
    RunKeepsInv(c, states, moves, n);
  }

  lemma {:induction false} CompletedForever(c: Config, states: seq<State>, moves: seq<Move>, m: nat, n: nat)
    requires ValidConfig(c) && IsRun(c, states, moves) && m <= n < |states| && states[m].word == 2
    ensures states[n].word == 2
    decreases n
  {
    hide Inv, ValidConfig;
    if m < n {
      CompletedForever(c, states, moves, m, n - 1);
      RunKeepsInv(c, states, moves, n - 1);
      assert Next(c, states[n - 1], moves[n - 1], states[n - 1 + 1]);
      hide Next;
      StaysCompleted(c, states[n - 1], moves[n - 1], states[n]);
    }
  }

  lemma StaysCompleted(c: Config, s: State, m: Move, s': State)
    requires Inv(c, s) && Next(c, s, m, s') && s.word == 2
    ensures s'.word == 2
  {
    if m.Advance? {
      assert !s.threads[m.t].pc.StoreZero?;
    }
  }

  /**
   While no outcome is lost, no caller stays asleep after a completed or failed initialiser: if somebody sleeps, either
   an initialiser is active, or a wake-all is about to happen, or every sleeper already holds a token.
   */
  lemma NobodyStranded(c: Config, states: seq<State>, moves: seq<Move>, n: nat)
    requires ValidConfig(c) && IsRun(c, states, moves) && n < |states| && !states[n].host.closing && states[n].lost == 0
    ensures
      || (exists t :: t in states[n].threads && (Initialising(states[n].threads[t]) || WakingAll(states[n].threads[t])))
      || Pending(states[n].host, c.address) == |AsleepSet(states[n].threads)|
  {
    RunKeepsInv(c, states, moves, n);
  }

  /** Once an outcome could not be stored the word stays 1: nobody initialises any more, and no call ever returns 0. */
  lemma {:induction false} LostForever(c: Config, states: seq<State>, moves: seq<Move>, m: nat, n: nat)
    requires ValidConfig(c) && IsRun(c, states, moves) && m <= n < |states| && states[m].lost > 0
    ensures states[n].lost > 0 && states[n].word == 1
    ensures forall t :: t in states[n].threads ==>
      !Initialising(states[n].threads[t]) && states[n].threads[t].result != Some(0)
    decreases n
  {
    RunKeepsInv(c, states, moves, n);
    if m < n {
      LostForever(c, states, moves, m, n - 1);
      assert Next(c, states[n - 1], moves[n - 1], states[n - 1 + 1]);
    }
  }

  /** Whoever calls or is woken from then on goes to sleep again. */
  lemma LostSleepsAgain(c: Config, s: State, t: nat)
    requires ValidConfig(c) && Inv(c, s) && s.lost > 0 && !s.host.closing && t in s.threads && s.threads[t].pc.Load?
    ensures var s1 := AdvanceStep(c, s, t); var s2 := AdvanceStep(c, s1, t); var s3 := AdvanceStep(c, s2, t);
      Next(c, s, Advance(t), s1) && Next(c, s1, Advance(t), s2) && Next(c, s2, Advance(t), s3)
        && s3.threads[t].pc.Asleep?
  {
    hide Sound, Enter;
  }
}
