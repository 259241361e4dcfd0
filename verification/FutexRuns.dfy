/** Whole runs of the futex host: any number of threads, any addresses, any interleaving. */
module FutexRuns {
  import opened Prelude
  import opened Futex

  /** Where a sleeping thread waits, and whether it waits without a timeout. */
  datatype Sleep = Sleep(address: nat, forever: bool)

  /**
   The host, the sleeping threads, per address how many tokens were published and taken, and what each thread's last
   wait answered.
   */
  datatype System = System(host: Host, asleep: map<nat, Sleep>, published: map<nat, nat>, taken: map<nat, nat>,
    answers: map<nat, int>)

  const Start := System(NewHost, map[], map[], map[], map[])

  datatype Event =
    | Wait(thread: nat, address: nat, expected: nat, actual: Option<nat>, timeout: nat)
    | Return(thread: nat)
    | Timeout(thread: nat)
    | WakeEvent(address: nat, maximum: nat)
    | Cancelled

  function Count(m: map<nat, nat>, a: nat): (r: nat) { if a in m then m[a] else 0 }

  predicate Enabled(s: System, e: Event) {
    match e
    case Wait(t, _, _, _, _) => t !in s.asleep
    case Return(t) => t in s.asleep && Ready(s.host, s.asleep[t].address)
    case Timeout(t) => t in s.asleep && !s.asleep[t].forever && !Ready(s.host, s.asleep[t].address)
    case WakeEvent(_, _) => true
    case Cancelled => true
  }

  ghost function Sleepers(asleep: map<nat, Sleep>, a: nat): (r: set<nat>) {
    set t | t in asleep && asleep[t].address == a
  }

  function Step(s: System, e: Event): (r: System)
    requires Enabled(s, e)
  {
    match e
    case Wait(t, a, expected, actual, timeout) =>
      (match EnterResult(s.host, a, expected, actual, timeout)
       case Parked => s.(host := Enter(s.host, a), asleep := s.asleep[t := Sleep(a, timeout == FOREVER)])
       case Refused(code) => s.(answers := s.answers[t := code]))
    case Return(t) =>
      var a := s.asleep[t].address;
      s.(host := Leave(s.host, a, true), asleep := s.asleep - {t},
         taken := s.taken[a := Count(s.taken, a) + if Pending(s.host, a) != 0 then 1 else 0],
         answers := s.answers[t := LeaveResult(s.host, a, true)])
    case Timeout(t) =>
      var a := s.asleep[t].address;
      s.(host := Leave(s.host, a, false), asleep := s.asleep - {t},
         answers := s.answers[t := LeaveResult(s.host, a, false)])
    case WakeEvent(a, maximum) =>
      s.(host := Wake(s.host, a, maximum),
         published := s.published[a := Count(s.published, a) + WakeCount(s.host, a, maximum)])
    case Cancelled => s.(host := CancelAll(s.host))
  }

  /** A queue's waiter count is the number of threads asleep on it; tokens are conserved. */
  ghost predicate Inv(s: System) {
    && Sound(s.host)
    && (forall a :: Waiters(s.host, a) == |Sleepers(s.asleep, a)|)
    && (forall a :: Count(s.published, a) == Count(s.taken, a) + Pending(s.host, a))
  }

  lemma SleeperCounted(s: System, t: nat)
    requires Inv(s) && t in s.asleep && |s.asleep| < TWO32
    ensures s.asleep[t].address in s.host.queues
    ensures 0 < Waiters(s.host, s.asleep[t].address) < TWO32
  {
    assert t in Sleepers(s.asleep, s.asleep[t].address);
    WaitersBounded(s, s.asleep[t].address);
  }

  lemma WaitersBounded(s: System, a: nat)
    requires Inv(s) && |s.asleep| < TWO32
    ensures Waiters(s.host, a) < TWO32
  {
    SubsetSize(Sleepers(s.asleep, a), s.asleep.Keys);
  }

  lemma SleepersAdded(asleep: map<nat, Sleep>, t: nat, sleep: Sleep, a: nat)
    requires t !in asleep
    ensures |Sleepers(asleep[t := sleep], a)| == |Sleepers(asleep, a)| + if a == sleep.address then 1 else 0
  {
    assert Sleepers(asleep[t := sleep], a) == Sleepers(asleep, a) + if a == sleep.address then {t} else {};
  }

  lemma SleepersRemoved(asleep: map<nat, Sleep>, t: nat, a: nat)
    requires t in asleep
    ensures |Sleepers(asleep - {t}, a)| == |Sleepers(asleep, a)| - if a == asleep[t].address then 1 else 0
  {
    assert Sleepers(asleep - {t}, a) == Sleepers(asleep, a) - {t};
  }

  lemma WaitKeepsInv(s: System, e: Event)
    requires Inv(s) && Enabled(s, e) && e.Wait?
    ensures Inv(Step(s, e))
  {
    var s' := Step(s, e);
    if s'.host != s.host {
      assert Sound(s'.host);
      forall b ensures Waiters(s'.host, b) == |Sleepers(s'.asleep, b)| {
        SleepersAdded(s.asleep, e.thread, Sleep(e.address, e.timeout == FOREVER), b);
      }
    }
  }

  lemma LeavingKeepsInv(s: System, e: Event)
    requires Inv(s) && Enabled(s, e) && (e.Return? || e.Timeout?) && |s.asleep| < TWO32
    ensures Inv(Step(s, e))
  {
    var s' := Step(s, e);
    SleeperCounted(s, e.thread);
    LeaveEffect(s.host, s.asleep[e.thread].address, e.Return?);
    forall b ensures Waiters(s'.host, b) == |Sleepers(s'.asleep, b)| {
      SleepersRemoved(s.asleep, e.thread, b);
    }
  }

  lemma StepKeepsInv(s: System, e: Event)
    requires Inv(s) && Enabled(s, e) && |s.asleep| < TWO32
    ensures Inv(Step(s, e))
  {
    match e {
      case Wait(_, _, _, _, _) => WaitKeepsInv(s, e);
      case Return(_) => LeavingKeepsInv(s, e);
      case Timeout(_) => LeavingKeepsInv(s, e);
      case WakeEvent(a, maximum) =>
        WaitersBounded(s, a);
        WakeEffect(s.host, a, maximum);
      case Cancelled =>
    }
  }

  /** `states` is a run: it starts empty and every move is one enabled event. */
  ghost predicate IsRun(states: seq<System>, events: seq<Event>) {
    && |states| == |events| + 1 && states[0] == Start
    && forall i :: 0 <= i < |events| ==> Enabled(states[i], events[i]) && states[i + 1] == Step(states[i], events[i])
  }

  /** Fewer than 2^32 threads sleep at once, so the source's counters do not wrap. */
  ghost predicate CountersFit(states: seq<System>) {
    forall i :: 0 <= i < |states| ==> |states[i].asleep| < TWO32
  }

  lemma {:induction false} RunKeepsInv(states: seq<System>, events: seq<Event>, n: nat)
    requires IsRun(states, events) && CountersFit(states) && n < |states|
    ensures Inv(states[n])
  {
    if n == 0 {
      forall b ensures Waiters(Start.host, b) == |Sleepers(Start.asleep, b)| {
        assert Sleepers(Start.asleep, b) == {};
      }
    } else {
      RunKeepsInv(states, events, n - 1);
      assert states[n - 1 + 1] == Step(states[n - 1], events[n - 1]);
      StepKeepsInv(states[n - 1], events[n - 1]);
    }
  }

  /** Token conservation on every run, and what a queue's two counters mean. */
  lemma TokensConserved(states: seq<System>, events: seq<Event>, n: nat, a: nat)
    requires IsRun(states, events) && CountersFit(states) && n < |states|
    ensures var s := states[n];
      && Count(s.published, a) == Count(s.taken, a) + Pending(s.host, a)
      && Pending(s.host, a) <= Waiters(s.host, a) == |Sleepers(s.asleep, a)|
      && (a in s.host.queues <==> exists t :: t in s.asleep && s.asleep[t].address == a)
  {
    RunKeepsInv(states, events, n);
    var s := states[n];
    if a in s.host.queues {
      var t :| t in Sleepers(s.asleep, a);
      assert t in s.asleep;
    }
    forall t | t in s.asleep && s.asleep[t].address == a ensures a in s.host.queues {
      SleeperCounted(s, t);
    }
  }

  /**
   What `wake` returns: never more than the sleepers that hold no token yet, and no fewer than asked for if there are
   enough.
   */
  lemma WakeNeverOverfills(states: seq<System>, events: seq<Event>, n: nat, a: nat, maximum: nat)
    requires IsRun(states, events) && CountersFit(states) && n < |states|
    ensures var s := states[n]; var idle := |Sleepers(s.asleep, a)| - Pending(s.host, a);
      WakeCount(s.host, a, maximum) == if maximum < idle then maximum else idle
  {
    RunKeepsInv(states, events, n);
    WaitersBounded(states[n], a);
  }

  /**
   A token is not addressed to the thread that was asleep when it was published: thread 2 starts
   waiting after the wake and takes the only token, so thread 1 stays asleep without one.
   */
  lemma LateWaiterTakesTheToken(a: nat, word: nat) returns (states: seq<System>, events: seq<Event>)
    requires AddressOk(a)
    ensures IsRun(states, events) && |events| == 4
    ensures Sleepers(states[1].asleep, a) == {1} && Pending(states[1].host, a) == 0
    ensures events[1] == WakeEvent(a, 1) && Pending(states[2].host, a) == 1
    ensures events[2].Wait? && events[2].thread == 2 && events[3] == Return(2)
    ensures 1 in states[4].asleep && !Ready(states[4].host, a)
  {
    events := [Wait(1, a, word, Some(word), FOREVER), WakeEvent(a, 1), Wait(2, a, word, Some(word), FOREVER),
      Return(2)];
    var s1 := Step(Start, events[0]);
    var s2 := Step(s1, events[1]);
    var s3 := Step(s2, events[2]);
    var s4 := Step(s3, events[3]);
    states := [Start, s1, s2, s3, s4];
  }

  // ---- What a wait answers ------------------------------------------------------------------------

  /** A wait is refused at once for one of these reasons, tried in this order, or sleeps. */
  lemma WaitBegins(states: seq<System>, events: seq<Event>, i: nat, t: nat, a: nat, expected: nat, actual: Option<nat>,
      timeout: nat)
    requires IsRun(states, events) && i < |events| && events[i] == Wait(t, a, expected, actual, timeout)
    ensures var s, s' := states[i], states[i + 1];
      var aligned := a != 0 && a % 4 == 0;
      var same := actual == Some(expected);
      && (t in s'.asleep <==> aligned && !s.host.closing && same && timeout > 0)
      && (t in s'.asleep ==> s'.asleep[t] == Sleep(a, timeout == FOREVER) && s'.answers == s.answers)
      && (t !in s'.asleep ==> s'.host == s.host && s'.asleep == s.asleep && t in s'.answers)
      && (!aligned ==> s'.answers[t] == -EINVAL)
      && (aligned && s.host.closing ==> s'.answers[t] == -ECANCELED)
      && (aligned && !s.host.closing && actual.None? ==> s'.answers[t] == -EFAULT)
      && (aligned && !s.host.closing && actual.Some? && !same ==> s'.answers[t] == -EAGAIN)
      && (aligned && !s.host.closing && same && timeout == 0 ==> s'.answers[t] == -ETIMEDOUT)
  {
    assert states[i + 1] == Step(states[i], events[i]);
  }

  /**
   A sleeper that goes on answers -ECANCELED exactly if the host is closing; otherwise 0 exactly if it took a token, and
   -ETIMEDOUT exactly if there was none, which a wait without a timeout never answers.
   */
  lemma WaitEnds(states: seq<System>, events: seq<Event>, n: nat, t: nat)
    requires IsRun(states, events) && n < |events| && t in states[n].asleep && t !in states[n + 1].asleep
    ensures var s, s' := states[n], states[n + 1];
      var a := s.asleep[t].address;
      var tookOne := Count(s'.taken, a) == Count(s.taken, a) + 1;
      && t in s'.answers
      && (s'.answers[t] == -ECANCELED <==> s.host.closing)
      && (s'.answers[t] == 0 <==> tookOne && !s.host.closing)
      && (s'.answers[t] == -ETIMEDOUT <==> Pending(s.host, a) == 0 && !s.host.closing)
      && (s'.answers[t] == -ETIMEDOUT ==> !s.asleep[t].forever && s'.taken == s.taken)
  {
    assert states[n + 1] == Step(states[n], events[n]);
  }

  /** Nobody else changes what a thread's wait has answered. */
  lemma {:induction false} AnswerStays(states: seq<System>, events: seq<Event>, i: nat, n: nat, t: nat)
    requires IsRun(states, events) && i <= n < |states| && t in states[i].answers && t !in states[i].asleep
    requires forall k :: i <= k < n ==> !(events[k].Wait? && events[k].thread == t)
    ensures t !in states[n].asleep && t in states[n].answers && states[n].answers[t] == states[i].answers[t]
    decreases n
  {
    if i < n {
      AnswerStays(states, events, i, n - 1, t);
      assert states[n - 1 + 1] == Step(states[n - 1], events[n - 1]);
      hide EnterResult, Enter, Leave, LeaveResult, Wake, WakeCount;
    }
  }

  // ---- Whom a wake reaches ----------------------------------------------------------------------

  /** Steps from any state. */
  ghost predicate IsPath(states: seq<System>, events: seq<Event>) {
    && |states| == |events| + 1
    && forall i :: 0 <= i < |events| ==> Enabled(states[i], events[i]) && states[i + 1] == Step(states[i], events[i])
  }

  /** The event puts a thread to sleep on `a`. */
  predicate Parks(s: System, e: Event, a: nat) {
    e.Wait? && e.address == a && EnterResult(s.host, a, e.expected, e.actual, e.timeout).Parked?
  }

  ghost predicate NoParks(states: seq<System>, events: seq<Event>, a: nat)
    requires |states| == |events| + 1
  {
    forall i :: 0 <= i < |events| ==> !Parks(states[i], events[i], a)
  }

  predicate AsleepOn(s: System, t: nat, a: nat) { t in s.asleep && s.asleep[t].address == a }

  /** Every sleeper on `a` has a token of its own. */
  predicate AllServed(s: System, a: nat) { Pending(s.host, a) == Waiters(s.host, a) }

  lemma ServedStep(s: System, e: Event, a: nat)
    requires Inv(s) && Enabled(s, e) && |s.asleep| < TWO32 && AllServed(s, a) && !Parks(s, e, a)
    ensures AllServed(Step(s, e), a)
  {
    match e {
      case Wait(_, _, _, _, _) =>
      case Return(t) =>
        SleeperCounted(s, t);
        LeaveEffect(s.host, s.asleep[t].address, true);
      case Timeout(t) =>
        SleeperCounted(s, t);
        LeaveEffect(s.host, s.asleep[t].address, false);
      case WakeEvent(b, maximum) =>
        WaitersBounded(s, b);
        WakeEffect(s.host, b, maximum);
      case Cancelled =>
    }
  }

  /** As long as nobody parks there, every sleeper keeps a token. */
  lemma {:induction false} ServedStays(states: seq<System>, events: seq<Event>, n: nat, a: nat)
    requires IsPath(states, events) && CountersFit(states) && n < |states| && NoParks(states, events, a)
    requires Inv(states[0]) && AllServed(states[0], a)
    ensures Inv(states[n]) && AllServed(states[n], a)
    ensures forall t :: AsleepOn(states[n], t, a) ==> Ready(states[n].host, a)
  {
    if n > 0 {
      ServedStays(states, events, n - 1, a);
      assert states[n - 1 + 1] == Step(states[n - 1], events[n - 1]);
      StepKeepsInv(states[n - 1], events[n - 1]);
      ServedStep(states[n - 1], events[n - 1], a);
    }
    forall t | AsleepOn(states[n], t, a) ensures Ready(states[n].host, a) { SleeperCounted(states[n], t); }
  }

  /** A wake for at least the sleepers that hold no token serves all, until somebody else parks there. */
  lemma WakeServesAll(states: seq<System>, events: seq<Event>, i: nat, a: nat, maximum: nat)
    requires IsRun(states, events) && CountersFit(states) && i < |events| && events[i] == WakeEvent(a, maximum)
    requires maximum >= |Sleepers(states[i].asleep, a)| - Pending(states[i].host, a)
    ensures AllServed(states[i + 1], a)
  {
    RunKeepsInv(states, events, i);
    WaitersBounded(states[i], a);
    assert states[i + 1] == Step(states[i], events[i]);
    WakeEffect(states[i].host, a, maximum);
  }

  /** With fewer tokens than sleepers, the others can return first and leave `t` without one. */
  lemma {:induction false} OthersReturnFirst(s: System, t: nat, a: nat)
      returns (states: seq<System>, events: seq<Event>)
    requires Inv(s) && |s.asleep| < TWO32 && AsleepOn(s, t, a) && !s.host.closing && !AllServed(s, a)
    ensures IsPath(states, events) && CountersFit(states) && states[0] == s && NoParks(states, events, a)
    ensures AsleepOn(states[|events|], t, a) && !Ready(states[|events|].host, a)
    decreases Pending(s.host, a)
  {
    SleeperCounted(s, t);
    if Pending(s.host, a) == 0 {
      states, events := [s], [];
    } else {
      var u := AnotherSleeper(s, t, a);
      SleeperCounted(s, u);
      LeaveEffect(s.host, a, true);
      var s' := Step(s, Return(u));
      LeavingKeepsInv(s, Return(u));
      SubsetSize(s'.asleep.Keys, s.asleep.Keys);
      var more, rest := OthersReturnFirst(s', t, a);
      states, events := [s] + more, [Return(u)] + rest;
      forall i | 0 <= i < |events|
        ensures Enabled(states[i], events[i]) && states[i + 1] == Step(states[i], events[i])
          && !Parks(states[i], events[i], a)
      {
        if i > 0 { assert states[i] == more[i - 1] && states[i + 1] == more[i - 1 + 1] && events[i] == rest[i - 1]; }
      }
    }
  }

  lemma AnotherSleeper(s: System, t: nat, a: nat) returns (u: nat)
    requires Inv(s) && AsleepOn(s, t, a) && 0 < Pending(s.host, a) < Waiters(s.host, a)
    ensures u != t && AsleepOn(s, u, a)
  {
    var sleepers := Sleepers(s.asleep, a);
    assert sleepers - {t} != {} by {
      if sleepers - {t} == {} { SubsetSize(sleepers, {t}); }
    }
    u :| u in sleepers - {t};
  }

  /** However the run goes on, as long as nobody else parks on `a`, the sleeper `t` can return. */
  ghost predicate WillBeServed(s: System, t: nat, a: nat) {
    forall states: seq<System>, events: seq<Event>, n: nat ::
      (&& IsPath(states, events) && CountersFit(states) && states[0] == s && NoParks(states, events, a)
       && n < |states| && AsleepOn(states[n], t, a))
      ==> Ready(states[n].host, a)
  }

  /**
   A wake reaches the threads asleep at that moment, whatever happens but a new sleeper, exactly if it leaves as many
   tokens as sleepers.
   */
  lemma ServedIff(states: seq<System>, events: seq<Event>, i: nat, t: nat, a: nat)
    requires IsRun(states, events) && CountersFit(states) && i < |states|
    requires AsleepOn(states[i], t, a) && !states[i].host.closing
    ensures WillBeServed(states[i], t, a) <==> AllServed(states[i], a)
  {
    RunKeepsInv(states, events, i);
    if AllServed(states[i], a) {
      forall more: seq<System>, rest: seq<Event>, n: nat
        | IsPath(more, rest) && CountersFit(more) && more[0] == states[i] && NoParks(more, rest, a) && n < |more|
          && AsleepOn(more[n], t, a)
        ensures Ready(more[n].host, a)
      {
        ServedStays(more, rest, n, a);
      }
    } else {
      var more, rest := OthersReturnFirst(states[i], t, a);
    }
  }

  /**
   And every later sleeper ends the guarantee: from there some continuation leaves the earlier one asleep without a
   token.
   */
  lemma LateParkEndsIt(states: seq<System>, events: seq<Event>, i: nat, t: nat, a: nat)
    requires IsRun(states, events) && CountersFit(states) && i < |events|
    requires AsleepOn(states[i], t, a) && Parks(states[i], events[i], a)
    ensures AsleepOn(states[i + 1], t, a) && !WillBeServed(states[i + 1], t, a)
  {
    RunKeepsInv(states, events, i);
    RunKeepsInv(states, events, i + 1);
    assert states[i + 1] == Step(states[i], events[i]);
    assert !AllServed(states[i + 1], a);
    ServedIff(states, events, i + 1, t, a);
  }

  /** After a cancellation nobody starts sleeping and everybody asleep may return. */
  lemma {:induction false} CancelReleasesEveryone(states: seq<System>, events: seq<Event>, m: nat, n: nat)
    requires IsRun(states, events) && m < n < |states| && events[m].Cancelled?
    ensures states[n].host.closing && states[n].asleep.Keys <= states[m].asleep.Keys
    ensures forall t :: t in states[n].asleep ==> Enabled(states[n], Return(t))
    decreases n
  {
    assert Enabled(states[n - 1], events[n - 1]) && states[n - 1 + 1] == Step(states[n - 1], events[n - 1]);
    hide Step, Enabled;
    if n > m + 1 { CancelReleasesEveryone(states, events, m, n - 1); }
    StaysReleased(states[n - 1], events[n - 1]);
    AllReleased(states[n]);
  }

  lemma StaysReleased(s: System, e: Event)
    requires Enabled(s, e) && (s.host.closing || e.Cancelled?)
    ensures Step(s, e).host.closing && Step(s, e).asleep.Keys <= s.asleep.Keys
  {
  }

  lemma AllReleased(s: System)
    requires s.host.closing
    ensures forall t :: t in s.asleep ==> Enabled(s, Return(t))
  {
  }
}
