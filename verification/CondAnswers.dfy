/** What the calls of a condition variable answer, on every run (Runtime/Bionic/agr_bionic_sync.cpp:235-271). */
module CondAnswers {
  import opened Prelude
  import opened Futex
  import opened CondPulse
  import opened CondRuns

  predicate Busy(s: State, t: nat) { t in s.threads && !s.threads[t].pc.Idle? }

  /** `t` began a call with move `i` and is in it in every state between `i` and `n`. */
  ghost predicate InCall(states: seq<State>, moves: seq<Move>, i: nat, n: nat, t: nat) {
    i < n < |states| && n <= |moves| && forall k :: i < k < n ==> Busy(states[k], t)
  }

  /** That call is over in state `n`. */
  ghost predicate Returns(states: seq<State>, moves: seq<Move>, i: nat, n: nat, t: nat) {
    InCall(states, moves, i, n, t) && t in states[n].threads && states[n].threads[t].pc.Idle?
  }

  lemma RunNext(c: Config, states: seq<State>, moves: seq<Move>, k: nat)
    requires IsRun(c, states, moves) && k < |moves|
    ensures |states| == |moves| + 1 && Next(c, states[k], moves[k], states[k + 1])
  {
    hide Next, Initial;
  }

  /** A call on a word that cannot be read ends at once. */
  lemma FirstFault(c: Config, states: seq<State>, moves: seq<Move>, i: nat, t: nat)
    requires IsRun(c, states, moves) && i < |moves| && moves[i] == Fault(t)
      && t in states[i].threads && states[i].threads[t].pc.Idle?
    ensures t in states[i + 1].threads && states[i + 1].threads[t].pc.Idle?
      && states[i + 1].threads[t].result == Some(EINVAL)
    ensures states[i + 1].word == states[i].word && states[i + 1].host == states[i].host
  {
    RunNext(c, states, moves, i);
  }

  // ---- Waiting --------------------------------------------------------------------------------

  /**
   The time of a wait is over: it expired asleep, or its time was zero when the futex found the word as it had been
   read.
   */
  predicate RunsOut(s: State, m: Move, t: nat) {
    || m == Expire(t)
    || (m == Advance(t, 0) && t in s.threads && s.threads[t].pc.HasRead? && !s.host.closing
        && s.word == s.threads[t].seen)
  }

  ghost predicate RanOut(states: seq<State>, moves: seq<Move>, i: nat, n: nat, t: nat) {
    exists k :: i < k < n && k < |moves| && k < |states| && RunsOut(states[k], moves[k], t)
  }

  lemma RanOutMore(states: seq<State>, moves: seq<Move>, i: nat, n: nat, t: nat)
    requires i < n < |moves| && n < |states|
    ensures RanOut(states, moves, i, n + 1, t) <==> RanOut(states, moves, i, n, t) || RunsOut(states[n], moves[n], t)
  {
    hide RunsOut;
  }

  predicate WaitStage(th: Thread, ranOut: bool) {
    match th.pc
    case HasRead => !ranOut
    case Asleep => !ranOut
    case Relock(code) => code == -ETIMEDOUT <==> ranOut
    case Idle => th.result == Some(if ranOut then ETIMEDOUT else 0)
    case _ => false
  }

  lemma WaitMoves(c: Config, s: State, m: Move, s': State, t: nat, ranOut: bool)
    requires ValidConfig(c) && Next(c, s, m, s') && Busy(s, t) && WaitStage(s.threads[t], ranOut)
    ensures t in s'.threads && WaitStage(s'.threads[t], ranOut || RunsOut(s, m, t))
  {
    hide Enter, Leave, Wake, Sound, Pulse;
  }

  lemma WaitStarts(c: Config, s: State, s': State, t: nat)
    requires Next(c, s, BeginWait(t), s')
    ensures t in s'.threads && WaitStage(s'.threads[t], false)
  {
  }

  lemma {:induction false} WaitInCall(c: Config, states: seq<State>, moves: seq<Move>, i: nat, n: nat, t: nat)
    requires ValidConfig(c) && IsRun(c, states, moves) && InCall(states, moves, i, n, t) && moves[i] == BeginWait(t)
    ensures t in states[n].threads && WaitStage(states[n].threads[t], RanOut(states, moves, i, n, t))
    decreases n
  {
    hide Next, Initial, ValidConfig, RunsOut, WaitStage;
    RunNext(c, states, moves, n - 1);
    if n == i + 1 {
      WaitStarts(c, states[i], states[n], t);
    } else {
      assert Busy(states[n - 1], t);
      WaitInCall(c, states, moves, i, n - 1, t);
      RanOutMore(states, moves, i, n - 1, t);
      WaitMoves(c, states[n - 1], moves[n - 1], states[n], t, RanOut(states, moves, i, n - 1, t));
    }
  }

  /** A wait that has begun returns ETIMEDOUT exactly if its time was over; woken, refused or faulting it returns 0. */
  lemma WaitAnswers(c: Config, states: seq<State>, moves: seq<Move>, i: nat, n: nat, t: nat)
    requires ValidConfig(c) && IsRun(c, states, moves) && Returns(states, moves, i, n, t) && moves[i] == BeginWait(t)
    ensures states[n].threads[t].result == Some(if RanOut(states, moves, i, n, t) then ETIMEDOUT else 0)
  {
    hide Next, Initial, ValidConfig, RunsOut;
    WaitInCall(c, states, moves, i, n, t);
  }

  // ---- Pulsing --------------------------------------------------------------------------------

  /** The swap of thread `t` succeeds: one pulse more. */
  predicate Swaps(s: State, m: Move, s': State, t: nat) {
    m.Advance? && m.t == t && s'.pulses == s.pulses + 1 && s'.word == Pulse(s.word)
  }

  ghost predicate SwappedAt(states: seq<State>, moves: seq<Move>, k: nat, t: nat) {
    k < |moves| && k + 1 < |states| && Swaps(states[k], moves[k], states[k + 1], t)
  }

  /** How often `t` has pulsed between `i` and `n`. */
  ghost function OwnSwaps(states: seq<State>, moves: seq<Move>, i: nat, n: nat, t: nat): (r: nat)
    requires i < n
    decreases n
  {
    if n == i + 1 then 0
    else OwnSwaps(states, moves, i, n - 1, t) + if SwappedAt(states, moves, n - 1, t) then 1 else 0
  }

  /** A call of pulse keeps its count; it has pulsed once when it comes to its wake-up, and not before. */
  predicate PulseStage(th: Thread, count: nat, swaps: nat) {
    match th.pc
    case Swap(n) => n == count && swaps == 0
    case Reload(n) => n == count && swaps == 0
    case WakeUp(n) => n == count && swaps == 1
    case _ => false
  }

  /** Its last step: the wake-up, after one pulse, or a fault, after none. */
  ghost predicate PulseEnds(c: Config, s: State, m: Move, s': State, t: nat, count: nat, swaps: nat) {
    && t in s'.threads && s'.word == s.word && s'.pulses == s.pulses
    && (s'.threads[t].result == Some(0) ==>
          swaps == 1 && m.Advance? && m.t == t && s'.host == Wake(s.host, c.address, count))
    && (s'.threads[t].result == Some(EFAULT) ==> swaps == 0 && m == Fault(t) && s'.host == s.host)
    && s'.threads[t].result in {Some(0), Some(EFAULT)}
  }

  lemma PulseMoves(c: Config, s: State, m: Move, s': State, t: nat, count: nat, swaps: nat)
    requires Next(c, s, m, s') && Busy(s, t) && PulseStage(s.threads[t], count, swaps)
    ensures t in s'.threads
    ensures if s'.threads[t].pc.Idle? then PulseEnds(c, s, m, s', t, count, swaps)
      else PulseStage(s'.threads[t], count, swaps + if Swaps(s, m, s', t) then 1 else 0)
  {
    hide Enter, Leave, Wake, Sound, Pulse, EnterResult, LeaveResult;
  }

  lemma PulseStarts(c: Config, s: State, s': State, t: nat, count: nat)
    requires Next(c, s, BeginPulse(t, count), s')
    ensures t in s'.threads && !s'.threads[t].pc.Idle? && PulseStage(s'.threads[t], count, 0)
  {
  }

  lemma {:induction false} PulseInCall(c: Config, states: seq<State>, moves: seq<Move>, i: nat, n: nat, t: nat,
      count: nat)
    requires IsRun(c, states, moves) && InCall(states, moves, i, n, t) && moves[i] == BeginPulse(t, count)
    ensures t in states[n].threads
    ensures if states[n].threads[t].pc.Idle? then
        n > i + 1
        && PulseEnds(c, states[n - 1], moves[n - 1], states[n], t, count, OwnSwaps(states, moves, i, n - 1, t))
      else PulseStage(states[n].threads[t], count, OwnSwaps(states, moves, i, n, t))
    decreases n
  {
    hide Next, Initial, Swaps, PulseStage, PulseEnds;
    RunNext(c, states, moves, n - 1);
    if n == i + 1 {
      PulseStarts(c, states[i], states[n], t, count);
    } else {
      assert Busy(states[n - 1], t);
      PulseInCall(c, states, moves, i, n - 1, t, count);
      PulseMoves(c, states[n - 1], moves[n - 1], states[n], t, count, OwnSwaps(states, moves, i, n - 1, t));
    }
  }

  /**
   signal and broadcast return 0 exactly after one pulse of their own, with the wake-up of as many sleepers as they were
   begun for as their last step, and EFAULT exactly without a pulse, at an access that failed.
   */
  lemma PulseAnswers(c: Config, states: seq<State>, moves: seq<Move>, i: nat, n: nat, t: nat, count: nat)
    requires IsRun(c, states, moves) && Returns(states, moves, i, n, t) && moves[i] == BeginPulse(t, count)
    ensures n > i + 1
    ensures var s, s', swaps := states[n - 1], states[n], OwnSwaps(states, moves, i, n, t);
      && s'.threads[t].result in {Some(0), Some(EFAULT)}
      && (s'.threads[t].result == Some(0) <==> swaps == 1)
      && (s'.threads[t].result == Some(EFAULT) <==> swaps == 0)
      && (swaps == 1 ==> s'.host == Wake(s.host, c.address, count))
      && (swaps == 0 ==> moves[n - 1] == Fault(t) && s'.host == s.host)
  {
    hide Next, Initial;
    PulseInCall(c, states, moves, i, n, t, count);
  }

  /** Every pulse of the word is the swap of some thread, and nothing else counts as one. */
  lemma SwapIsOwnStep(c: Config, states: seq<State>, moves: seq<Move>, k: nat)
    requires IsRun(c, states, moves) && k < |moves|
    ensures states[k + 1].pulses == states[k].pulses + 1 <==> exists t :: SwappedAt(states, moves, k, t)
    ensures states[k + 1].pulses == states[k].pulses || states[k + 1].pulses == states[k].pulses + 1
  {
    RunNext(c, states, moves, k);
    hide Enter, Leave, Wake, Sound, Pulse, EnterResult, LeaveResult;
    if states[k + 1].pulses == states[k].pulses + 1 {
      assert SwappedAt(states, moves, k, moves[k].t);
    }
  }
}
