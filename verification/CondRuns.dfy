/**
 Condition variables as a protocol of atomic steps (Runtime/Bionic/agr_bionic_sync.cpp:235-271): any number of threads
 wait on and pulse one condition variable. The mutex calls of a wait touch another word and are left to their own
 protocol.
 */
module CondRuns {
  import opened Prelude
  import opened Futex
  import opened CondPulse

  datatype Config = Config(address: nat, word: uint32, threads: set<nat>)

  /** At most INT_MAX threads, so that one broadcast reaches every sleeper. */
  ghost predicate ValidConfig(c: Config) { AddressOk(c.address) && |c.threads| <= WAKE_ALL }

  /**
   A waiter has read the word, sleeps, or takes the mutex again; a pulser is about to swap the word, or to wake `count`
   sleepers.
   */
  datatype Pc = Idle | HasRead | Asleep | Relock(code: int) | Swap(count: nat) | Reload(count: nat) | WakeUp(count: nat)

  /**
   `seen` is the value last read, when `readAt` pulses had been made; the waiter fell asleep when it was `parkedAt`.
   */
  datatype Thread = Thread(pc: Pc, seen: uint32, readAt: nat, parkedAt: nat, result: Option<int>)

  /** `pulses` counts the successful swaps. */
  datatype State = State(word: uint32, host: Host, threads: map<nat, Thread>, pulses: nat)

  /** `Fault` is an access to the word that fails; for an idle thread, the first one of a call. */
  datatype Move = BeginWait(t: nat) | BeginPulse(t: nat, count: nat) | Advance(t: nat, timeout: nat) | Expire(t: nat)
    | Fault(t: nat) | Elsewhere(host: Host)

  ghost predicate Enabled(c: Config, s: State, m: Move) {
    match m
    case BeginWait(t) => t in s.threads && s.threads[t].pc.Idle?
    case BeginPulse(t, count) => t in s.threads && s.threads[t].pc.Idle? && (count == 1 || count == WAKE_ALL)
    case Advance(t, _) => t in s.threads && !s.threads[t].pc.Idle?
      && (s.threads[t].pc.Asleep? ==> Ready(s.host, c.address))
    case Expire(t) => t in s.threads && s.threads[t].pc.Asleep? && !Ready(s.host, c.address)
    case Fault(t) => t in s.threads && Accesses(s.threads[t].pc)
    case Elsewhere(h) =>
      && Sound(h) && (s.host.closing ==> h.closing)
      && Waiters(h, c.address) == Waiters(s.host, c.address) && Pending(h, c.address) == Pending(s.host, c.address)
  }

  predicate Accesses(pc: Pc) { pc.Idle? || pc.HasRead? || pc.Swap? || pc.Reload? }

  ghost function Put(s: State, t: nat, th: Thread): (r: State) { s.(threads := s.threads[t := th]) }

  /** Only a timeout is reported; every other outcome of the sleep counts as a wake-up. */
  function Outcome(code: int): (r: int) { if code == -ETIMEDOUT then ETIMEDOUT else 0 }

  ghost function AdvanceStep(c: Config, s: State, t: nat, timeout: nat): (r: State)
    requires t in s.threads
  {
    var th := s.threads[t];
    match th.pc
    case HasRead =>
      (match EnterResult(s.host, c.address, th.seen, Some(s.word), timeout)
       case Parked => Put(s, t, th.(pc := Asleep, parkedAt := s.pulses)).(host := Enter(s.host, c.address))
       case Refused(code) => Put(s, t, th.(pc := Relock(code))))
    case Asleep =>
      Put(s, t, th.(pc := Relock(LeaveResult(s.host, c.address, true)))).(host := Leave(s.host, c.address, true))
    case Relock(code) => Put(s, t, th.(pc := Idle, result := Some(Outcome(code))))
    case Swap(count) =>
      if s.word == th.seen then Put(s, t, th.(pc := WakeUp(count))).(word := Pulse(th.seen), pulses := s.pulses + 1)
      else Put(s, t, th.(pc := Reload(count)))
    case Reload(count) => Put(s, t, th.(pc := Swap(count), seen := s.word))
    case WakeUp(count) => Put(s, t, th.(pc := Idle, result := Some(0))).(host := Wake(s.host, c.address, count))
    case Idle => s
  }

  /** A wait that cannot read the word again goes back to the mutex and counts as woken; every other call ends. */
  function Faulted(th: Thread): (r: Thread) {
    if th.pc.HasRead? then th.(pc := Relock(-EFAULT))
    else th.(pc := Idle, result := Some(if th.pc.Idle? then EINVAL else EFAULT))
  }

  ghost predicate Next(c: Config, s: State, m: Move, s': State) {
    && Enabled(c, s, m)
    && s' == match m
       case BeginWait(t) => Put(s, t, s.threads[t].(pc := HasRead, seen := s.word, readAt := s.pulses))
       case BeginPulse(t, count) => Put(s, t, s.threads[t].(pc := Swap(count), seen := s.word))
       case Advance(t, timeout) => AdvanceStep(c, s, t, timeout)
       case Expire(t) =>
         Put(s, t, s.threads[t].(pc := Relock(LeaveResult(s.host, c.address, false)))).(host := Leave(s.host, c.address,
           false))
       case Fault(t) => Put(s, t, Faulted(s.threads[t]))
       case Elsewhere(h) => s.(host := h)
  }

  ghost predicate Initial(c: Config, s: State) {
    && s.word == c.word && s.pulses == 0 && Sound(s.host) && c.address !in s.host.queues && s.threads.Keys == c.threads
    && forall t :: t in s.threads ==> s.threads[t].pc.Idle?
  }

  ghost predicate IsRun(c: Config, states: seq<State>, moves: seq<Move>) {
    && |states| == |moves| + 1 && Initial(c, states[0])
    && forall i :: 0 <= i < |moves| ==> Next(c, states[i], moves[i], states[i + 1])
  }

  // ---- The invariant ----------------------------------------------------------------------

  ghost function AsleepSet(threads: map<nat, Thread>): (r: set<nat>) {
    set t | t in threads && threads[t].pc.Asleep?
  }

  /** A waiter remembers the word as it was; it fell asleep only if the word was the same then. */
  ghost predicate LocalInv(c: Config, s: State, th: Thread) {
    && ((th.pc.HasRead? || th.pc.Asleep?) ==> th.readAt <= s.pulses && th.seen == PulseTimes(c.word, th.readAt))
    && (th.pc.Asleep? ==> th.readAt <= th.parkedAt <= s.pulses && (th.parkedAt - th.readAt) % PULSES == 0)
  }

  ghost predicate QueueInv(c: Config, s: State) {
    && Sound(s.host) && s.threads.Keys == c.threads && Waiters(s.host, c.address) == |AsleepSet(s.threads)|
  }

  ghost predicate Inv(c: Config, s: State) {
    && QueueInv(c, s) && s.word == PulseTimes(c.word, s.pulses)
    && forall t :: t in s.threads ==> LocalInv(c, s, s.threads[t])
  }

  lemma AsleepMoved(threads: map<nat, Thread>, t: nat, th: Thread)
    requires t in threads
    ensures |AsleepSet(threads[t := th])| ==
      |AsleepSet(threads)| + (if th.pc.Asleep? then 1 else 0) - (if threads[t].pc.Asleep? then 1 else 0)
  {
    var before, after := AsleepSet(threads), AsleepSet(threads[t := th]);
    if th.pc.Asleep? && !threads[t].pc.Asleep? {
      assert after == before + {t};
    } else if threads[t].pc.Asleep? && !th.pc.Asleep? {
      assert after == before - {t};
    } else {
      assert after == before;
    }
  }

  lemma {:induction false} PulseMore(word: uint32, n: nat, m: nat)
    ensures PulseTimes(PulseTimes(word, n), m) == PulseTimes(word, n + m)
  {
    if m > 0 { PulseMore(word, n, m - 1); }
  }

  /** The word is what a waiter read exactly after a multiple of 2^31 further pulses. */
  lemma SameAfter(c: Config, n: nat, m: nat)
    requires n <= m
    ensures PulseTimes(c.word, m) == PulseTimes(c.word, n) <==> (m - n) % PULSES == 0
  {
    PulseMore(c.word, n, m - n);
    SameWordIff(PulseTimes(c.word, n), m - n);
  }

  /** What a step of `t` must respect. */
  lemma MoveKeepsInv(c: Config, s: State, s': State, t: nat)
    requires Inv(c, s) && t in s.threads && t in s'.threads && s'.threads == s.threads[t := s'.threads[t]]
    requires LocalInv(c, s', s'.threads[t]) && s.pulses <= s'.pulses && s'.word == PulseTimes(c.word, s'.pulses)
      && Sound(s'.host)
    requires Waiters(s'.host, c.address) == Waiters(s.host, c.address)
      + (if s'.threads[t].pc.Asleep? then 1 else 0) - (if s.threads[t].pc.Asleep? then 1 else 0)
    ensures Inv(c, s')
  {
    hide Sound;
    AsleepMoved(s.threads, t, s'.threads[t]);
  }

  lemma ReadKeepsInv(c: Config, s: State, t: nat, timeout: nat)
    requires ValidConfig(c) && Inv(c, s) && t in s.threads && s.threads[t].pc.HasRead?
    ensures Inv(c, AdvanceStep(c, s, t, timeout))
  {
    EnterEffect(s.host, c.address);
    SameAfter(c, s.threads[t].readAt, s.pulses);
    hide Sound, Enter, PulseTimes;
    MoveKeepsInv(c, s, AdvanceStep(c, s, t, timeout), t);
  }

  lemma LeaveKeepsInv(c: Config, s: State, t: nat, awoken: bool)
    requires ValidConfig(c) && Inv(c, s) && t in s.threads && s.threads[t].pc.Asleep?
      && (!awoken ==> !Ready(s.host, c.address))
    ensures Inv(c,
      Put(s, t, s.threads[t].(pc := Relock(LeaveResult(s.host, c.address, awoken)))).(host := Leave(s.host, c.address,
      awoken)))
  {
    assert t in AsleepSet(s.threads);
    SubsetSize(AsleepSet(s.threads), c.threads);
    LeaveEffect(s.host, c.address, awoken);
    hide Sound, Leave, LeaveResult, PulseTimes;
    MoveKeepsInv(c, s,
      Put(s, t, s.threads[t].(pc := Relock(LeaveResult(s.host, c.address, awoken)))).(host := Leave(s.host, c.address,
      awoken)), t);
  }

  /** The successful swap is one pulse. */
  lemma SwapKeepsInv(c: Config, s: State, t: nat, timeout: nat)
    requires Inv(c, s) && t in s.threads
      && (s.threads[t].pc.Swap? || s.threads[t].pc.Reload? || s.threads[t].pc.Relock?)
    ensures Inv(c, AdvanceStep(c, s, t, timeout))
  {
    assert PulseTimes(c.word, s.pulses + 1) == Pulse(PulseTimes(c.word, s.pulses));
    hide Sound, Pulse, PulseTimes;
    MoveKeepsInv(c, s, AdvanceStep(c, s, t, timeout), t);
  }

  lemma WakeKeepsInv(c: Config, s: State, t: nat, timeout: nat)
    requires ValidConfig(c) && Inv(c, s) && t in s.threads && s.threads[t].pc.WakeUp?
    ensures Inv(c, AdvanceStep(c, s, t, timeout))
  {
    SubsetSize(AsleepSet(s.threads), c.threads);
    WakeEffect(s.host, c.address, s.threads[t].pc.count);
    hide Sound, Wake, PulseTimes;
    MoveKeepsInv(c, s, AdvanceStep(c, s, t, timeout), t);
  }

  lemma BeginKeepsInv(c: Config, s: State, t: nat, th: Thread)
    requires Inv(c, s) && t in s.threads && !s.threads[t].pc.Asleep? && !th.pc.Asleep?
    requires th.pc.HasRead? ==> th.readAt == s.pulses && th.seen == s.word
    ensures Inv(c, Put(s, t, th))
  {
    hide Sound, PulseTimes;
    MoveKeepsInv(c, s, Put(s, t, th), t);
  }

  lemma NextKeepsInv(c: Config, s: State, m: Move, s': State)
    requires ValidConfig(c) && Inv(c, s) && Next(c, s, m, s')
    ensures Inv(c, s')
  {
    match m {
      case Elsewhere(_) =>
      case BeginWait(t) => BeginKeepsInv(c, s, t, s'.threads[t]);
      case BeginPulse(t, _) => BeginKeepsInv(c, s, t, s'.threads[t]);
      case Fault(t) => BeginKeepsInv(c, s, t, s'.threads[t]);
      case Expire(t) => LeaveKeepsInv(c, s, t, false);
      case Advance(t, timeout) =>
        if s.threads[t].pc.Asleep? {
          LeaveKeepsInv(c, s, t, true);
        } else {
          hide AdvanceStep, Inv, ValidConfig;
          match s.threads[t].pc {
            case HasRead => ReadKeepsInv(c, s, t, timeout);
            case WakeUp(_) => WakeKeepsInv(c, s, t, timeout);
            case _ => SwapKeepsInv(c, s, t, timeout);
          }
        }
    }
  }

  lemma {:induction false} RunKeepsInv(c: Config, states: seq<State>, moves: seq<Move>, n: nat)
    requires ValidConfig(c) && IsRun(c, states, moves) && n < |states|
    ensures Inv(c, states[n])
  {
    if n == 0 {
      assert AsleepSet(states[0].threads) == {};
    } else {
      RunKeepsInv(c, states, moves, n - 1);
      assert Next(c, states[n - 1], moves[n - 1], states[n - 1 + 1]);
      NextKeepsInv(c, states[n - 1], moves[n - 1], states[n]);
    }
  }

  // ---- Main results ---------------------------------------------------------------------------

  /**
   No thread falls asleep after a pulse it did not see: between its reading and its sleep there were none, or a
   multiple of 2^31.
   */
  lemma SleptOnLatest(c: Config, states: seq<State>, moves: seq<Move>, n: nat, t: nat)
    requires ValidConfig(c) && IsRun(c, states, moves) && n < |states|
    requires t in states[n].threads && states[n].threads[t].pc.Asleep?
    ensures var th := states[n].threads[t];
      th.readAt <= th.parkedAt <= states[n].pulses && (th.parkedAt - th.readAt) % PULSES == 0
  {
    RunKeepsInv(c, states, moves, n);
  }

  /**
   A waiter that has read the word can fall asleep exactly if no pulses came since, up to a multiple of 2^31, and it
   may wait at all.
   */
  lemma ParksIff(c: Config, states: seq<State>, moves: seq<Move>, n: nat, t: nat, timeout: nat)
    requires ValidConfig(c) && IsRun(c, states, moves) && n < |states|
    requires t in states[n].threads && states[n].threads[t].pc.HasRead?
    ensures var s := states[n];
      AdvanceStep(c, s, t, timeout).threads[t].pc.Asleep? <==>
        !s.host.closing && timeout != 0 && s.pulses >= s.threads[t].readAt
          && (s.pulses - s.threads[t].readAt) % PULSES == 0
  {
    RunKeepsInv(c, states, moves, n);
    SameAfter(c, states[n].threads[t].readAt, states[n].pulses);
  }

  /**
   After the wake of a broadcast every thread that sleeps may return, and every thread that read the word before a
   pulse, less than 2^31 pulses ago, will not fall asleep on what it read.
   */
  lemma BroadcastReachesAll(c: Config, states: seq<State>, moves: seq<Move>, n: nat, u: nat, timeout: nat)
    requires ValidConfig(c) && IsRun(c, states, moves) && n < |moves|
    requires moves[n] == Advance(u, timeout) && u in states[n].threads && states[n].threads[u].pc == WakeUp(WAKE_ALL)
    ensures var s := states[n + 1];
      forall t :: t in s.threads ==>
        && (s.threads[t].pc.Asleep? ==> Enabled(c, s, Advance(t, timeout)))
        && (s.threads[t].pc.HasRead? && 0 < s.pulses - s.threads[t].readAt < PULSES ==>
              !AdvanceStep(c, s, t, timeout).threads[t].pc.Asleep?)
  {
    RunKeepsInv(c, states, moves, n);
    RunKeepsInv(c, states, moves, n + 1);
    var s0, s := states[n], states[n + 1];
    assert Next(c, s0, moves[n], s);
    SubsetSize(AsleepSet(s0.threads), c.threads);
    WakeEffect(s0.host, c.address, WAKE_ALL);
    hide Wake, Sound, PulseTimes, IsRun;
    forall t | t in s.threads && s.threads[t].pc.Asleep? ensures Pending(s.host, c.address) > 0 {
      assert t in AsleepSet(s.threads);
    }
    forall t | t in s.threads && s.threads[t].pc.HasRead? && 0 < s.pulses - s.threads[t].readAt < PULSES
      ensures !AdvanceStep(c, s, t, timeout).threads[t].pc.Asleep?
    {
      ParksIff(c, states, moves, n + 1, t, timeout);
    }
  }

  /** A signal gives a token whenever a sleeper lacks one. */
  lemma SignalReachesOne(c: Config, states: seq<State>, moves: seq<Move>, n: nat, u: nat, timeout: nat)
    requires ValidConfig(c) && IsRun(c, states, moves) && n < |moves|
    requires moves[n] == Advance(u, timeout) && u in states[n].threads && states[n].threads[u].pc == WakeUp(1)
    ensures Pending(states[n + 1].host, c.address) == Pending(states[n].host, c.address)
      + if Pending(states[n].host, c.address) < |AsleepSet(states[n].threads)| then 1 else 0
  {
    RunKeepsInv(c, states, moves, n);
    assert Next(c, states[n], moves[n], states[n + 1]);
    SubsetSize(AsleepSet(states[n].threads), c.threads);
    WakeEffect(states[n].host, c.address, 1);
  }
}
