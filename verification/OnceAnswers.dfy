/** What a call of pthread_once answers, on every run (Runtime/Bionic/agr_bionic_sync.cpp:273-300). */
module OnceAnswers {
  import opened Prelude
  import opened Futex
  import opened OnceProtocol

  predicate Busy(s: State, t: nat) { t in s.threads && !s.threads[t].pc.Idle? }

  /** `t` began a call with move `i` and is in it in every state between `i` and `n`. */
  ghost predicate InCall(states: seq<State>, moves: seq<Move>, i: nat, n: nat, t: nat) {
    && i < n < |states| && n <= |moves| && moves[i] == Call(t)
    && forall k :: i < k < n ==> Busy(states[k], t)
  }

  /** That call is over in state `n`. */
  ghost predicate Returns(states: seq<State>, moves: seq<Move>, i: nat, n: nat, t: nat) {
    InCall(states, moves, i, n, t) && t in states[n].threads && states[n].threads[t].pc.Idle?
  }

  lemma RunNext(c: Config, states: seq<State>, moves: seq<Move>, k: nat)
    requires IsRun(c, states, moves) && k < |moves|
    ensures |states| == |moves| + 1 && Next(c, states[k], moves[k], states[k + 1])
  {
    hide Next, Initial;
  }

  /** What the initialiser that this call ran returned, if it has run one to its end. */
  ghost function Ran(moves: seq<Move>, i: nat, n: nat, t: nat): (r: Option<int>)
    requires i < n <= |moves|
    decreases n
  {
    if n == i + 1 then None
    else if moves[n - 1].Finish? && moves[n - 1].t == t then Some(moves[n - 1].code)
    else Ran(moves, i, n - 1, t)
  }

  /** Where a call is, given what its initialiser has returned. */
  predicate Stage(th: Thread, ran: Option<int>) {
    match th.pc
    case Idle => false
    case StoreZero => ran == Some(th.code) && th.code != 0
    case WakeFailed => ran == Some(th.code) && th.code != 0
    case StoreTwo => ran == Some(0)
    case WakeDone => ran == Some(0)
    case _ => ran == None
  }

  /**
   Its last step. Without an initialiser run: 0 exactly if it reads the completed word, EFAULT exactly if an access
   fails, and otherwise ECANCELED from a futex that is closing. After a failed one: its code. After a successful one: 0,
   or EFAULT if that could not be stored.
   */
  predicate Ends(s: State, m: Move, s': State, t: nat, ran: Option<int>) {
    && t in s'.threads && s'.threads[t].result.Some?
    && var code := s'.threads[t].result.value;
    match ran
    case None =>
      && (code == 0 <==> m == Advance(t) && s.word == 2 && t in s.threads && s.threads[t].pc.Load?)
      && (code == EFAULT <==> m == Fault(t))
      && (code != 0 && code != EFAULT ==> code == ECANCELED && s.host.closing)
    case Some(got) => code == if got == 0 && m == Fault(t) then EFAULT else got
  }

  lemma LooksOn(c: Config, s: State, t: nat, ran: Option<int>)
    requires ValidConfig(c) && Enabled(c, s, Advance(t)) && s.word <= 2 && LocalInv(s, s.threads[t])
    requires Stage(s.threads[t], ran)
    ensures var s' := AdvanceStep(c, s, t);
      if s'.threads[t].pc.Idle? then Ends(s, Advance(t), s', t, ran) else Stage(s'.threads[t], ran)
  {
    hide Enter, Leave, Wake, Sound, Waiters;
  }

  lemma LookFails(s: State, t: nat, ran: Option<int>)
    requires t in s.threads && Accesses(s.threads[t].pc) && Stage(s.threads[t], ran)
    ensures var s' := FaultStep(s, t);
      if s'.threads[t].pc.Idle? then Ends(s, Fault(t), s', t, ran) else Stage(s'.threads[t], ran)
  {
  }

  /** Nobody else moves a call, and its own initialiser only returns. */
  lemma Unmoved(c: Config, s: State, m: Move, s': State, t: nat)
    requires Next(c, s, m, s') && Busy(s, t) && m != Advance(t) && m != Fault(t) && m != Call(t)
    ensures t in s'.threads
    ensures m.Finish? && m.t == t ==>
      s.threads[t].pc.Running?
      && s'.threads[t] == s.threads[t].(code := m.code, pc := if m.code == 0 then StoreTwo else StoreZero)
    ensures !(m.Finish? && m.t == t) ==> s'.threads[t] == s.threads[t]
  {
    hide Enter, Leave, Wake, Sound, EnterResult, LeaveResult, Waiters, Pending, WithBit0, Bit0, Bit1;
  }

  lemma Moves(c: Config, s: State, m: Move, s': State, t: nat, ran: Option<int>)
    requires ValidConfig(c) && Inv(c, s) && Next(c, s, m, s') && Busy(s, t) && Stage(s.threads[t], ran)
    ensures t in s'.threads
    ensures if s'.threads[t].pc.Idle? then Ends(s, m, s', t, ran) && !(m.Finish? && m.t == t)
      else Stage(s'.threads[t], if m.Finish? && m.t == t then Some(m.code) else ran)
  {
    assert s.word <= 2 && LocalInv(s, s.threads[t]);
    hide Inv, AdvanceStep, FaultStep, LocalInv, Ends;
    if m == Advance(t) {
      LooksOn(c, s, t, ran);
      hide Stage;
    } else if m == Fault(t) {
      LookFails(s, t, ran);
      hide Stage;
    } else {
      Unmoved(c, s, m, s', t);
      hide Next;
    }
  }

  lemma Starts(c: Config, s: State, s': State, t: nat)
    requires Next(c, s, Call(t), s')
    ensures t in s'.threads && !s'.threads[t].pc.Idle? && Stage(s'.threads[t], None)
  {
  }

  lemma {:induction false} InCallStage(c: Config, states: seq<State>, moves: seq<Move>, i: nat, n: nat, t: nat)
    requires ValidConfig(c) && IsRun(c, states, moves) && InCall(states, moves, i, n, t)
    ensures t in states[n].threads
    ensures if states[n].threads[t].pc.Idle? then
        n > i + 1 && Ends(states[n - 1], moves[n - 1], states[n], t, Ran(moves, i, n - 1, t))
        && Ran(moves, i, n, t) == Ran(moves, i, n - 1, t)
      else Stage(states[n].threads[t], Ran(moves, i, n, t))
    decreases n
  {
    hide Next, Initial, Stage, Ends, Inv, ValidConfig;
    RunNext(c, states, moves, n - 1);
    if n == i + 1 {
      Starts(c, states[i], states[n], t);
    } else {
      assert Busy(states[n - 1], t);
      InCallStage(c, states, moves, i, n - 1, t);
      RunKeepsInv(c, states, moves, n - 1);
      Moves(c, states[n - 1], moves[n - 1], states[n], t, Ran(moves, i, n - 1, t));
    }
  }

  /** What a call of pthread_once returns, in every case. */
  lemma OnceReturns(c: Config, states: seq<State>, moves: seq<Move>, i: nat, n: nat, t: nat)
    requires ValidConfig(c) && IsRun(c, states, moves) && Returns(states, moves, i, n, t)
    ensures n > i + 1 && Ends(states[n - 1], moves[n - 1], states[n], t, Ran(moves, i, n, t))
  {
    hide Next, Initial, Ends, Inv, ValidConfig;
    InCallStage(c, states, moves, i, n, t);
  }

  // ---- Main results ---------------------------------------------------------------------------

  /** A call reports 0 exactly if it ran the initialiser successfully and said so, or found that done. */
  lemma ZeroIff(c: Config, states: seq<State>, moves: seq<Move>, i: nat, n: nat, t: nat)
    requires ValidConfig(c) && IsRun(c, states, moves) && Returns(states, moves, i, n, t)
    ensures states[n].threads[t].result == Some(0) <==>
      match Ran(moves, i, n, t)
      case None => moves[n - 1] == Advance(t) && states[n - 1].word == 2 && states[n - 1].threads[t].pc.Load?
      case Some(code) => code == 0 && moves[n - 1] != Fault(t)
  {
    hide Next, Initial, Inv, ValidConfig;
    OnceReturns(c, states, moves, i, n, t);
    assert Busy(states[n - 1], t);
  }

  /** The code of a failed initialiser reaches the caller that ran it, whether or not the word could be reset. */
  lemma FailureReported(c: Config, states: seq<State>, moves: seq<Move>, i: nat, k: nat, n: nat, t: nat, code: int)
    requires ValidConfig(c) && IsRun(c, states, moves) && Returns(states, moves, i, n, t)
    requires i < k < n && moves[k] == Finish(t, code) && code != 0
    ensures states[n].threads[t].result == Some(code)
  {
    hide Next, Initial, Inv, ValidConfig;
    OnceReturns(c, states, moves, i, n, t);
    RanOnce(c, states, moves, i, k, n, t, code);
  }

  /** One call runs the initialiser once at most. */
  lemma {:induction false} RanOnce(c: Config, states: seq<State>, moves: seq<Move>, i: nat, k: nat, n: nat, t: nat,
      code: int)
    requires ValidConfig(c) && IsRun(c, states, moves) && InCall(states, moves, i, n, t)
    requires i < k < n && moves[k] == Finish(t, code)
    ensures Ran(moves, i, n, t) == Some(code)
    decreases n
  {
    hide Next, Initial, Inv, ValidConfig, Stage;
    if k < n - 1 {
      RanOnce(c, states, moves, i, k, n - 1, t, code);
      InCallStage(c, states, moves, i, n - 1, t);
      assert Busy(states[n - 1], t);
      RunNext(c, states, moves, n - 1);
      NotTwice(c, states[n - 1], moves[n - 1], states[n], t, Ran(moves, i, n - 1, t));
    }
  }

  lemma NotTwice(c: Config, s: State, m: Move, s': State, t: nat, ran: Option<int>)
    requires Next(c, s, m, s') && Busy(s, t) && Stage(s.threads[t], ran) && ran.Some?
    ensures !(m.Finish? && m.t == t)
  {
  }

  /** A call on a completed word looks at it once: it returns 0, or EFAULT if it cannot read it. */
  lemma CompletedCall(c: Config, states: seq<State>, moves: seq<Move>, i: nat, n: nat, t: nat)
    requires ValidConfig(c) && IsRun(c, states, moves) && Returns(states, moves, i, n, t) && states[i].word == 2
    ensures Ran(moves, i, n, t) == None
    ensures states[n].threads[t].result == Some(if moves[n - 1] == Fault(t) then EFAULT else 0)
  {
    hide Next, Initial, Inv, ValidConfig;
    OnceReturns(c, states, moves, i, n, t);
    RunNext(c, states, moves, n - 1);
    OnlyLooks(c, states, moves, i, n - 1, t);
    CompletedForever(c, states, moves, i, n - 1);
    assert Busy(states[n - 1], t);
    LookEnds(c, states[n - 1], moves[n - 1], states[n], t);
  }

  lemma LookEnds(c: Config, s: State, m: Move, s': State, t: nat)
    requires Next(c, s, m, s') && Busy(s, t) && s.threads[t].pc.Load? && s.word == 2
    ensures t in s'.threads && !(m.Finish? && m.t == t)
    ensures if s'.threads[t].pc.Idle? then m == Advance(t) || m == Fault(t) else s'.threads[t].pc.Load?
  {
  }

  lemma {:induction false} OnlyLooks(c: Config, states: seq<State>, moves: seq<Move>, i: nat, n: nat, t: nat)
    requires ValidConfig(c) && IsRun(c, states, moves) && InCall(states, moves, i, n, t) && states[i].word == 2
    requires Busy(states[n], t)
    ensures states[n].threads[t].pc.Load? && Ran(moves, i, n, t) == None
    decreases n
  {
    hide Next, Initial, Inv, ValidConfig;
    RunNext(c, states, moves, n - 1);
    if n == i + 1 {
      LoadsFirst(c, states[i], states[n], t);
    } else {
      OnlyLooks(c, states, moves, i, n - 1, t);
      CompletedForever(c, states, moves, i, n - 1);
      LookEnds(c, states[n - 1], moves[n - 1], states[n], t);
    }
  }

  lemma LoadsFirst(c: Config, s: State, s': State, t: nat)
    requires Next(c, s, Call(t), s')
    ensures t in s'.threads && s'.threads[t].pc.Load?
  {
  }
}
