/**
 When shutdown returns (Runtime/Bionic/agr_bionic_thread_lifecycle.cpp:111-141): never while a record is left that was
 registered for a guest id other than 1, and otherwise always possible.
 */
module ThreadShutdown {
  import opened Prelude
  import opened ThreadLifecycle

  /** A record of register_current for a thread that is not the entry thread: no host thread will ever end it. */
  predicate Stray(r: Record) { r.thread == None && r.guest != 1 }

  predicate HasStray(s: State) { exists h :: h in s.records && Stray(s.records[h]) }

  /**
   Something will still wake a shutdown that sleeps on `h`: a thread that runs for it, or a join that has not returned.
   */
  ghost predicate StillMoves(s: State, h: Handle) {
    || (exists x :: x in s.hosts && s.hosts[x].running && s.hosts[x].handle == h)
    || (exists c :: c in s.calls && OnHandle(s.calls[c], h))
  }

  /** Steps from any state. */
  ghost predicate IsPath(states: seq<State>, actions: seq<Action>) {
    && |states| == |actions| + 1
    && forall i :: 0 <= i < |actions| ==> Enabled(states[i], actions[i]) && states[i + 1] == Step(states[i], actions[i])
  }

  /**
   The state of a run in which shutdown sleeps on a record: the sleep is justified exactly if a host thread was started
   for it.
   */
  lemma SleepJustifiedIff(states: seq<State>, actions: seq<Action>, i: nat)
    requires IsRun(states, actions) && i < |states| && states[i].shutdown.Sleeping?
    ensures var s, h := states[i], states[i].shutdown.handle;
      && h in s.records && !IsEntry(s.records[h]) && (s.records[h].joined.Some? || !s.records[h].zombie)
      && (StillMoves(s, h) <==> !Stray(s.records[h]))
  {
    RunKeepsInv(states, actions, i);
    var s, h := states[i], states[i].shutdown.handle;
    assert RecordOk(s, h);
    var r := s.records[h];
    if Stray(r) {
      forall x | x in s.hosts ensures !(s.hosts[x].running && s.hosts[x].handle == h) { assert HostOk(s, x); }
      forall c | c in s.calls ensures !OnHandle(s.calls[c], h) { assert CallOk(s, c); }
    } else if r.joined.Some? {
      assert r.joined.value in s.calls && OnHandle(s.calls[r.joined.value], h);
    } else {
      assert r.thread.Some? && s.hosts[r.thread.value].running;
    }
  }

  /** A stray record stays, whatever happens. */
  lemma StrayStays(s: State, a: Action, h: Handle)
    requires Inv(s) && Enabled(s, a) && h in s.records && Stray(s.records[h])
    ensures var s' := Step(s, a); h in s'.records && Stray(s'.records[h])
  {
    hide Inv, Enabled, Step, Stray;
    if a.JoinBegin? || a.JoinWake? || a.HostJoin? || a.JoinEnd? {
      JoinKeepsStray(s, a, h);
    } else {
      OtherKeepsStray(s, a, h);
    }
  }

  lemma JoinKeepsStray(s: State, a: Action, h: Handle)
    requires Inv(s) && Enabled(s, a) && h in s.records && Stray(s.records[h])
    requires a.JoinBegin? || a.JoinWake? || a.HostJoin? || a.JoinEnd?
    ensures var s' := Step(s, a); h in s'.records && Stray(s'.records[h])
  {
    hide Consume, NotifyExited, NotifyAll, HostEnded;
    assert RecordOk(s, h);
    match a
    case JoinWake(c) => assert CallOk(s, c);
    case JoinEnd(c) => assert CallOk(s, c);
    case _ =>
  }

  lemma OtherKeepsStray(s: State, a: Action, h: Handle)
    requires Inv(s) && Enabled(s, a) && h in s.records && Stray(s.records[h])
    requires !(a.JoinBegin? || a.JoinWake? || a.HostJoin? || a.JoinEnd?)
    ensures var s' := Step(s, a); h in s'.records && Stray(s'.records[h])
  {
    hide Consume, NotifyExited, NotifyAll, HostEnded;
    assert RecordOk(s, h);
    match a
    case Exit(x, _) => assert HostOk(s, x);
    case _ =>
  }

  /** With a stray record shutdown never returns. */
  lemma {:induction false} StrayBlocksShutdown(states: seq<State>, actions: seq<Action>, i: nat, j: nat)
    requires IsRun(states, actions) && i <= j < |states| && HasStray(states[i])
    ensures HasStray(states[j]) && (j < |actions| ==> actions[j] != ShutdownDone)
    decreases j
  {
    hide Inv, Step, Stray;
    if i < j {
      StrayBlocksShutdown(states, actions, i, j - 1);
      RunKeepsInv(states, actions, j - 1);
      StraysStay(states[j - 1], actions[j - 1]);
      assert states[j - 1 + 1] == Step(states[j - 1], actions[j - 1]);
    }
    NotDone(states[j]);
  }

  lemma StraysStay(s: State, a: Action)
    requires Inv(s) && Enabled(s, a) && HasStray(s)
    ensures HasStray(Step(s, a))
  {
    hide Inv, Step, Stray;
    var h :| h in s.records && Stray(s.records[h]);
    StrayStays(s, a, h);
  }

  lemma NotDone(s: State)
    requires HasStray(s)
    ensures !Enabled(s, ShutdownDone)
  {
    var h :| h in s.records && Stray(s.records[h]);
    assert !IsEntry(s.records[h]);
  }

  /**
   A guest that registers as thread 2 before shutdown: shutdown goes to sleep on its record, and nothing will wake it.
   */
  lemma ShutdownSleepsForever(handle: Handle, context: nat) returns (states: seq<State>, actions: seq<Action>)
    requires handle != 0 && context != 0
    ensures IsRun(states, actions) && actions == [Register(2, handle, context), ShutdownBegin, ShutdownLook(handle)]
    ensures states[3].shutdown == Sleeping(handle) && HasStray(states[3]) && !StillMoves(states[3], handle)
  {
    var s0 := State(false, map[], 1, map[], map[], NotStarted, {}, 0);
    actions := [Register(2, handle, context), ShutdownBegin, ShutdownLook(handle)];
    var s1 := Step(s0, actions[0]);
    var s2 := Step(s1, actions[1]);
    var s3 := Step(s2, actions[2]);
    states := [s0, s1, s2, s3];
    assert handle in s3.records && Stray(s3.records[handle]);
  }

  /** No stray record arises if every registration names guest 1. */
  lemma {:induction false} EntryOnlyHasNoStray(states: seq<State>, actions: seq<Action>, i: nat)
    requires IsRun(states, actions) && i < |states|
    requires forall k :: 0 <= k < |actions| && actions[k].Register? ==> actions[k].guest == 1
    ensures !HasStray(states[i])
  {
    hide Inv, Step, Enabled, Stray;
    if i > 0 {
      EntryOnlyHasNoStray(states, actions, i - 1);
      assert states[i - 1 + 1] == Step(states[i - 1], actions[i - 1]);
      RunKeepsInv(states, actions, i - 1);
      NoneBecomesStray(states[i - 1], actions[i - 1]);
    }
  }

  lemma StartsNoStray(s: State, a: Action)
    requires Inv(s) && Enabled(s, a) && !HasStray(s) && (a.Register? ==> a.guest == 1)
    requires a.Create? || a.Register? || a.Bind? || a.Exit?
    ensures !HasStray(Step(s, a))
  {
    var s' := Step(s, a);
    forall h | h in s'.records ensures !Stray(s'.records[h]) {
      if h in s.records { assert !Stray(s.records[h]); }
    }
  }

  lemma JoinsNoStray(s: State, a: Action)
    requires Inv(s) && Enabled(s, a) && !HasStray(s) && (a.Register? ==> a.guest == 1)
    requires a.JoinBegin? || a.JoinWake? || a.HostJoin? || a.JoinEnd? || a.Detach?
    ensures !HasStray(Step(s, a))
  {
    var s' := Step(s, a);
    forall h | h in s'.records ensures !Stray(s'.records[h]) {
      if h in s.records { assert !Stray(s.records[h]); }
    }
  }

  lemma ShutdownNoStray(s: State, a: Action)
    requires Inv(s) && Enabled(s, a) && !HasStray(s) && (a.Register? ==> a.guest == 1)
    requires a.ShutdownBegin? || a.ShutdownLook? || a.ShutdownDone? || a.ShutdownWake? || a.ShutdownHostJoin?
      || a.ShutdownErase?
    ensures !HasStray(Step(s, a))
  {
    var s' := Step(s, a);
    forall h | h in s'.records ensures !Stray(s'.records[h]) {
      if h in s.records { assert !Stray(s.records[h]); }
    }
  }

  lemma NoneBecomesStray(s: State, a: Action)
    requires Inv(s) && Enabled(s, a) && !HasStray(s) && (a.Register? ==> a.guest == 1)
    ensures !HasStray(Step(s, a))
  {
    hide Inv, Enabled, Step, HasStray;
    if a.Create? || a.Register? || a.Bind? || a.Exit? {
      StartsNoStray(s, a);
    } else if a.JoinBegin? || a.JoinWake? || a.HostJoin? || a.JoinEnd? || a.Detach? {
      JoinsNoStray(s, a);
    } else {
      ShutdownNoStray(s, a);
    }
  }

  // ---- Without a stray record shutdown can return -------------------------------------------------

  function Running(s: State): (r: set<HostId>) { set x | x in s.hosts && s.hosts[x].running }
  function Live(s: State): (r: set<CallId>) { set c | c in s.calls && !s.calls[c].Returned? }
  function Unjoined(s: State): (r: set<CallId>) { set c | c in s.calls && !s.calls[c].Returned? && !s.calls[c].Back? }
  function Left(s: State): (r: set<Handle>) { set h | h in s.records && !IsEntry(s.records[h]) }

  function Phase(p: Shutdown): (r: nat) {
    match p
    case NotStarted => 5
    case Sleeping(_) => 4
    case Looking => 3
    case JoiningLast(_, _) => 2
    case Erasing(_) => 1
    case Finished => 0
  }

  /** How far shutdown is from returning, threads and joins first. */
  ghost predicate Nearer(s: State, s': State) {
    var r, r', l, l', u, u', f, f' := |Running(s)|, |Running(s')|, |Live(s)|, |Live(s')|, |Unjoined(s)|, |Unjoined(s')|,
      |Left(s)|, |Left(s')|;
    || r' < r || (r' == r && l' < l) || (r' == r && l' == l && u' < u)
    || (r' == r && l' == l && u' == u && f' < f)
    || (r' == r && l' == l && u' == u && f' == f && Phase(s'.shutdown) < Phase(s.shutdown))
  }

  lemma Fewer<T>(smaller: set<T>, larger: set<T>, x: T)
    requires smaller <= larger && x in larger && x !in smaller
    ensures |smaller| < |larger|
  {
    SubsetSize(smaller, larger - {x});
  }

  /** A running thread can end. */
  lemma ThreadEnds(s: State, x: HostId)
    requires Inv(s) && x in Running(s)
    ensures Enabled(s, Exit(x, 0)) && Nearer(s, Step(s, Exit(x, 0)))
  {
    Fewer(Running(Step(s, Exit(x, 0))), Running(s), x);
  }

  /** Once no thread runs, a join can go on until it has returned. */
  lemma JoinGoesOn(s: State, c: CallId) returns (a: Action)
    requires Inv(s) && s.closing && Running(s) == {} && c in Live(s)
    ensures Enabled(s, a) && !a.Register? && Nearer(s, Step(s, a))
  {
    assert CallOk(s, c);
    match s.calls[c]
    case Woken(h) =>
      a := JoinWake(c);
      Fewer(Live(Step(s, a)), Live(s), c);
      assert Running(Step(s, a)) == Running(s);
    case Joining(h, x, _) =>
      assert RecordOk(s, h);
      assert x in s.hosts && x !in Running(s);
      a := HostJoin(c, 0);
      Fewer(Unjoined(Step(s, a)), Unjoined(s), c);
      assert Running(Step(s, a)) == Running(s) && Live(Step(s, a)) == Live(s);
    case Back(h, _, _, _) =>
      a := JoinEnd(c);
      Fewer(Live(Step(s, a)), Live(s), c);
      assert Running(Step(s, a)) == Running(s);
  }

  /** The state once no thread runs and no join is left: shutdown is on its own. */
  ghost predicate Alone(s: State) {
    Inv(s) && s.closing && !HasStray(s) && Running(s) == {} && Live(s) == {}
  }

  /** Every record that is left has ended. */
  lemma LeftHaveEnded(s: State, h: Handle)
    requires Alone(s) && h in s.records && !IsEntry(s.records[h])
    ensures s.records[h].zombie && s.records[h].joined == None
  {
    assert RecordOk(s, h) && !Stray(s.records[h]);
    var r := s.records[h];
    assert r.thread.Some? && r.thread.value !in Running(s);
    JoinedIsLive(s, h);
  }

  /** Shutdown takes the next one, or returns. */
  lemma LookGoesOn(s: State) returns (a: Action)
    requires Alone(s) && s.shutdown.Looking?
    ensures Enabled(s, a) && !a.Register? && Nearer(s, Step(s, a))
  {
    if h :| h in Left(s) {
      LeftHaveEnded(s, h);
      a := ShutdownLook(h);
    } else {
      forall h | h in s.records ensures IsEntry(s.records[h]) { assert h !in Left(s); }
      a := ShutdownDone;
    }
    hide Alone;
    assert Left(Step(s, a)) == Left(s);
  }

  lemma LastJoinGoesOn(s: State) returns (a: Action)
    requires Alone(s) && s.shutdown.JoiningLast?
    ensures Enabled(s, a) && !a.Register? && Nearer(s, Step(s, a))
  {
    var h, x := s.shutdown.handle, s.shutdown.host;
    assert RecordOk(s, h) && x.Some? && x.value in s.hosts;
    assert x.value !in Running(s);
    hide Alone;
    a := ShutdownHostJoin(0);
    var t := Step(s, a);
    assert Left(t) == Left(s) && Live(t) == Live(s) && Unjoined(t) == Unjoined(s) && Running(t) == Running(s);
  }

  lemma EraseGoesOn(s: State) returns (a: Action)
    requires Alone(s) && s.shutdown.Erasing?
    ensures Enabled(s, a) && !a.Register? && Nearer(s, Step(s, a))
  {
    var h := s.shutdown.handle;
    assert RecordOk(s, h) && h in Left(s);
    hide Alone;
    a := ShutdownErase;
    Fewer(Left(Step(s, a)), Left(s), h);
  }

  lemma NotAsleepAlone(s: State)
    requires Alone(s)
    ensures !s.shutdown.NotStarted? && !s.shutdown.Sleeping?
  {
    if s.shutdown.Sleeping? { LeftHaveEnded(s, s.shutdown.handle); }
  }

  /** Once no join is left either, every record that is left has ended, and shutdown takes it. */
  lemma ShutdownGoesOn(s: State) returns (a: Action)
    requires Alone(s) && !s.shutdown.Finished?
    ensures Enabled(s, a) && !a.Register? && Nearer(s, Step(s, a))
  {
    NotAsleepAlone(s);
    hide Alone, Enabled, Step, Nearer;
    match s.shutdown
    case Looking => a := LookGoesOn(s);
    case JoiningLast(_, _) => a := LastJoinGoesOn(s);
    case Erasing(_) => a := EraseGoesOn(s);
  }

  lemma JoinedIsLive(s: State, h: Handle)
    requires h in s.records && RecordOk(s, h)
    ensures s.records[h].joined.Some? ==> exists c :: c in Live(s)
  {
    if s.records[h].joined.Some? { assert s.records[h].joined.value in Live(s); }
  }

  lemma GoesOn(s: State) returns (a: Action)
    requires Inv(s) && s.closing && !HasStray(s) && !s.shutdown.Finished?
    ensures Enabled(s, a) && !a.Register? && Nearer(s, Step(s, a))
  {
    hide Inv, HasStray, Nearer, Enabled, Step;
    if x :| x in Running(s) {
      ThreadEnds(s, x);
      a := Exit(x, 0);
    } else if c :| c in Live(s) {
      a := JoinGoesOn(s, c);
    } else {
      assert Running(s) == {} && Live(s) == {};
      a := ShutdownGoesOn(s);
    }
  }

  /** From any state without a stray record, once shutdown has begun, there is a way for it to return. */
  lemma {:induction false} CanReturn(s: State) returns (states: seq<State>, actions: seq<Action>)
    requires Inv(s) && s.closing && !HasStray(s)
    ensures IsPath(states, actions) && states[0] == s && states[|states| - 1].shutdown.Finished?
    decreases |Running(s)|, |Live(s)|, |Unjoined(s)|, |Left(s)|, Phase(s.shutdown)
  {
    if s.shutdown.Finished? {
      states, actions := [s], [];
    } else {
      var a := GoesOn(s);
      StepKeeps(s, a);
      NoneBecomesStray(s, a);
      StaysClosing(s, a);
      var more, rest := CanReturn(Step(s, a));
      states, actions := [s] + more, [a] + rest;
      forall i | 0 <= i < |actions| ensures Enabled(states[i], actions[i])
        && states[i + 1] == Step(states[i], actions[i]) {
        if i > 0 { assert states[i] == more[i - 1] && states[i + 1] == more[i - 1 + 1] && actions[i] == rest[i - 1]; }
      }
    }
  }

  lemma StaysClosing(s: State, a: Action)
    requires Enabled(s, a) && s.closing
    ensures Step(s, a).closing
  {
    hide Consume, NotifyExited, NotifyAll, HostEnded, OnHandle, IsEntry;
  }

  /** Some continuation of `s` lets shutdown return. */
  ghost predicate MayReturn(s: State) {
    exists states: seq<State>, actions: seq<Action> :: IsPath(states, actions) && states[0] == s
      && states[|states| - 1].shutdown.Finished?
  }

  lemma {:induction false} StrayOnPath(states: seq<State>, actions: seq<Action>, i: nat)
    requires IsPath(states, actions) && i < |states| && Inv(states[0]) && HasStray(states[0])
    ensures Inv(states[i]) && HasStray(states[i])
  {
    hide Inv, HasStray, Step, Enabled;
    if i > 0 {
      StrayOnPath(states, actions, i - 1);
      StepKeeps(states[i - 1], actions[i - 1]);
      StraysStay(states[i - 1], actions[i - 1]);
      assert states[i - 1 + 1] == Step(states[i - 1], actions[i - 1]);
    }
  }

  /** Shutdown, once begun, can return exactly if no record is left that was registered for a guest id other than 1. */
  lemma ReturnsIffNoStray(states: seq<State>, actions: seq<Action>, i: nat)
    requires IsRun(states, actions) && i < |states| && states[i].closing && !states[i].shutdown.Finished?
    ensures MayReturn(states[i]) <==> !HasStray(states[i])
  {
    RunKeepsInv(states, actions, i);
    if HasStray(states[i]) {
      if more: seq<State>, rest: seq<Action> :|
        IsPath(more, rest) && more[0] == states[i] && more[|more| - 1].shutdown.Finished? {
        NeverFinished(more, rest, |more| - 1);
      }
    } else {
      var more, rest := CanReturn(states[i]);
    }
  }

  lemma {:induction false} NeverFinished(states: seq<State>, actions: seq<Action>, i: nat)
    requires IsPath(states, actions) && i < |states| && Inv(states[0]) && HasStray(states[0])
      && !states[0].shutdown.Finished?
    ensures !states[i].shutdown.Finished?
  {
    hide Inv, HasStray, Step, Enabled;
    if i > 0 {
      NeverFinished(states, actions, i - 1);
      StrayOnPath(states, actions, i - 1);
      NotDone(states[i - 1]);
      assert states[i - 1 + 1] == Step(states[i - 1], actions[i - 1]);
      OnlyDoneFinishes(states[i - 1], actions[i - 1]);
    }
  }

  lemma OnlyDoneFinishes(s: State, a: Action)
    requires Enabled(s, a) && a != ShutdownDone && !s.shutdown.Finished?
    ensures !Step(s, a).shutdown.Finished?
  {
    hide Consume, NotifyExited, NotifyAll, HostEnded, OnHandle, IsEntry, CreateStep, DetachStep;
    if a.Create? || a.Detach? { StartsKeepShutdown(s, a); }
  }

  lemma StartsKeepShutdown(s: State, a: Action)
    requires Enabled(s, a) && (a.Create? || a.Detach?)
    ensures Step(s, a).shutdown == s.shutdown
  {
    hide Consume, HostEnded, IsEntry;
  }
}
