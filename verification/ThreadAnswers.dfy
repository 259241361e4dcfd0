/**
 What the calls of the thread lifecycle answer, on every run (Runtime/Bionic/agr_bionic_thread_lifecycle.cpp:143-282).
 */
module ThreadAnswers {
  import opened Prelude
  import opened ThreadLifecycle

  /** The caller's guest binding is the record's own: a thread that would wait for itself. */
  predicate JoinsItself(s: State, h: Handle, binding: nat) {
    h in s.records && s.records[h].context != 0 && binding == s.records[h].context
  }

  predicate Refused(s: State, call: CallId, code: int) {
    call in s.calls && s.calls[call].Returned? && s.calls[call].code == code
  }

  // ---- Join -------------------------------------------------------------------------------------

  /**
   Which refusal a join gets at once, in the order of the source; any other join waits for its thread or takes its
   handle.
   */
  lemma JoinBegins(states: seq<State>, actions: seq<Action>, i: nat, call: CallId, h: Handle, binding: nat)
    requires IsRun(states, actions) && i < |actions| && actions[i] == JoinBegin(call, h, binding)
    ensures var s, s' := states[i], states[i + 1];
      && call in s'.calls
      && (Refused(s', call, ESRCH) <==> h != 0 && h !in s.records)
      && (Refused(s', call, ECANCELED) <==> h != 0 && h in s.records && s.closing)
      && (Refused(s', call, EDEADLK) <==> h != 0 && h in s.records && !s.closing && JoinsItself(s, h, binding))
      && (Refused(s', call, EINVAL) <==>
            h == 0 || (h in s.records && !s.closing && !JoinsItself(s, h, binding)
                       && (s.records[h].detached || s.records[h].joined.Some?)))
      && (s'.calls[call].Returned? ==> s' == s.(calls := s'.calls) && s'.calls[call].thread == None)
      && (!s'.calls[call].Returned? ==>
            h in s.records
            && (s'.calls[call] == Asleep(h) <==> !s.records[h].zombie)
            && (s'.calls[call].Joining? <==> s.records[h].zombie) && h in s'.records
              && s'.records[h].joined == Some(call))
  {
    RunKeepsInv(states, actions, i);
    var s := states[i];
    if h in s.records { assert RecordOk(s, h); }
    hide Inv, RecordOk;
  }

  lemma RunStep(states: seq<State>, actions: seq<Action>, k: nat)
    requires IsRun(states, actions) && k < |actions|
    ensures |states| == |actions| + 1 && Enabled(states[k], actions[k]) && states[k + 1] == Step(states[k], actions[k])
  {
    hide Step, Enabled;
  }

  /** What a call has returned it has returned for good. */
  lemma {:induction false} ReturnedStays(states: seq<State>, actions: seq<Action>, i: nat, n: nat, call: CallId)
    requires IsRun(states, actions) && i <= n < |states| && call in states[i].calls && states[i].calls[call].Returned?
    ensures call in states[n].calls && states[n].calls[call] == states[i].calls[call]
    decreases n
  {
    hide Step, Enabled, Initial;
    if i < n {
      RunStep(states, actions, n - 1);
      ReturnedStays(states, actions, i, n - 1, call);
      StepKeepsReturned(states[n - 1], actions[n - 1], call);
    }
  }

  lemma StepKeepsReturned(s: State, a: Action, call: CallId)
    requires Enabled(s, a) && call in s.calls && s.calls[call].Returned?
    ensures call in Step(s, a).calls && Step(s, a).calls[call] == s.calls[call]
  {
  }

  /** A thread that joins itself never waits and never takes a handle: it has an error for good. */
  lemma NobodyJoinsItself(states: seq<State>, actions: seq<Action>, i: nat, n: nat, call: CallId, h: Handle,
      binding: nat)
    requires IsRun(states, actions) && i < n < |states| && i < |actions| && actions[i] == JoinBegin(call, h, binding)
    requires JoinsItself(states[i], h, binding)
    ensures call in states[n].calls && states[n].calls[call].Returned?
    ensures states[n].calls[call].code == if h == 0 then EINVAL else if states[i].closing then ECANCELED else EDEADLK
  {
    hide Step, Enabled, JoinsItself;
    JoinBegins(states, actions, i, call, h, binding);
    assert h in states[i].records by { SelfIsThere(states[i], h, binding); }
    ReturnedStays(states, actions, i + 1, n, call);
  }

  lemma SelfIsThere(s: State, h: Handle, binding: nat)
    requires JoinsItself(s, h, binding)
    ensures h in s.records
  {
  }

  /** The host was asked to join for this call, and answered `code`. */
  ghost predicate HostSaid(actions: seq<Action>, i: nat, n: nat, call: CallId, code: int) {
    exists k :: i < k < n && k < |actions| && actions[k] == HostJoin(call, code)
  }

  /** A join that was not refused, from then on. */
  ghost predicate InJoin(states: seq<State>, actions: seq<Action>, i: nat, n: nat, call: CallId, h: Handle) {
    && n < |states| && call in states[n].calls
    && match states[n].calls[call]
       case Asleep(handle) => handle == h
       case Woken(handle) => handle == h
       case Joining(handle, _, _) => handle == h
       case Back(handle, _, _, code) => handle == h && HostSaid(actions, i, n, call, code)
       case Returned(code, thread, _) =>
         if thread.Some? then HostSaid(actions, i, n, call, code) else code == ECANCELED && states[n].closing
  }

  lemma HostSaidMore(actions: seq<Action>, i: nat, n: nat, call: CallId, code: int)
    requires HostSaid(actions, i, n, call, code)
    ensures HostSaid(actions, i, n + 1, call, code)
  {
  }

  /** It ends with ECANCELED once shutdown has begun, or with what the host answered, 0 included. */
  lemma {:induction false} JoinEnds(states: seq<State>, actions: seq<Action>, i: nat, n: nat, call: CallId, h: Handle,
      binding: nat)
    requires IsRun(states, actions) && i < n < |states| && i < |actions| && actions[i] == JoinBegin(call, h, binding)
    requires call in states[i + 1].calls && !states[i + 1].calls[call].Returned?
    ensures InJoin(states, actions, i, n, call, h)
    decreases n
  {
    hide Inv, Step, Enabled, InJoin, Initial;
    RunStep(states, actions, n - 1);
    if n == i + 1 {
      JoinWaits(states, actions, i, call, h, binding);
    } else {
      JoinEnds(states, actions, i, n - 1, call, h, binding);
      RunKeepsInv(states, actions, n - 1);
      InJoinStep(states, actions, i, n - 1, call, h);
    }
  }

  lemma JoinWaits(states: seq<State>, actions: seq<Action>, i: nat, call: CallId, h: Handle, binding: nat)
    requires IsRun(states, actions) && i < |actions| && actions[i] == JoinBegin(call, h, binding)
    requires i + 1 < |states| && call in states[i + 1].calls && !states[i + 1].calls[call].Returned?
    ensures InJoin(states, actions, i, i + 1, call, h)
  {
    RunKeepsInv(states, actions, i);
    var s := states[i];
    if h in s.records { assert RecordOk(s, h); }
    assert states[i + 1] == JoinBeginStep(s, call, h, binding);
    hide Inv, RecordOk, IsRun;
  }

  lemma InJoinStep(states: seq<State>, actions: seq<Action>, i: nat, n: nat, call: CallId, h: Handle)
    requires i < n < |actions| && n + 1 < |states| && InJoin(states, actions, i, n, call, h) && Inv(states[n])
    requires Enabled(states[n], actions[n]) && states[n + 1] == Step(states[n], actions[n])
    ensures InJoin(states, actions, i, n + 1, call, h)
  {
    var s, a, c := states[n], actions[n], states[n].calls[call];
    if c.Back? { HostSaidMore(actions, i, n, call, c.code); }
    if c.Returned? && c.thread.Some? { HostSaidMore(actions, i, n, call, c.code); }
    CallMoves(s, a, call);
    if a.HostJoin? && a.call == call { assert HostSaid(actions, i, n + 1, call, a.code); }
    hide HostSaid, Step, Enabled, Inv;
  }

  /** A call is unchanged, or made the next move of a join. */
  predicate CallMoved(s: State, a: Action, s': State, call: CallId)
    requires call in s.calls && call in s'.calls
  {
    var c, c' := s.calls[call], s'.calls[call];
    || c' == c
    || (c.Asleep? && c' == Woken(c.handle))
    || ((c.Asleep? || c.Woken?) &&
        (c' == Asleep(c.handle) || (c'.Joining? && c'.handle == c.handle)
         || (s'.closing && c' == Returned(ECANCELED, None, 0))))
    || (c.Joining? && a.HostJoin? && a.call == call && c' == Back(c.handle, c.host, c.value, a.code))
    || (c.Back? && c' == Returned(c.code, Some(c.host), c.value))
  }

  /** How one step moves one call. */
  lemma CallMoves(s: State, a: Action, call: CallId)
    requires Enabled(s, a) && Inv(s) && call in s.calls
    ensures var s' := Step(s, a);
      (s.closing ==> s'.closing) && call in s'.calls && CallMoved(s, a, s', call)
  {
    hide Consume, HostEnded, IsEntry, NotifyChanged;
    if a.JoinBegin? || a.JoinWake? || a.HostJoin? || a.JoinEnd? {
      JoinMoves(s, a, call);
      hide Step;
    }
  }

  lemma JoinMoves(s: State, a: Action, call: CallId)
    requires Enabled(s, a) && Inv(s) && call in s.calls
    requires a.JoinBegin? || a.JoinWake? || a.HostJoin? || a.JoinEnd?
    ensures var s' := Step(s, a);
      (s.closing ==> s'.closing) && call in s'.calls && CallMoved(s, a, s', call)
  {
    hide Consume, HostEnded, IsEntry, NotifyChanged, NotifyAll, NotifyExited;
  }

  // ---- The other calls --------------------------------------------------------------------------

  /** The same threads and records as before. */
  predicate Untouched(s: State, s': State) { s'.records == s.records && s'.hosts == s.hosts && s'.calls == s.calls }

  /** detach, with its refusals in the order of the source; a thread that somebody joins is left to the joiner. */
  lemma DetachAnswers(states: seq<State>, actions: seq<Action>, i: nat, h: Handle, code: int)
    requires IsRun(states, actions) && i < |actions| && actions[i] == Detach(h, code)
    ensures var s, s' := states[i], states[i + 1];
      && (h == 0 ==> s'.answer == EINVAL && Untouched(s, s'))
      && (h != 0 && h !in s.records ==> s'.answer == ESRCH && Untouched(s, s'))
      && (h != 0 && h in s.records && s.closing ==> s'.answer == ECANCELED && Untouched(s, s'))
      && (h != 0 && h in s.records && !s.closing && s.records[h].detached ==> s'.answer == EINVAL && Untouched(s, s'))
      && (h != 0 && h in s.records && !s.closing && s.records[h].joined.Some? ==> s'.answer == 0 && Untouched(s, s'))
      && (h != 0 && h in s.records && !s.closing && !s.records[h].detached && s.records[h].joined.None? ==>
            && s'.answer == code
            && s.records[h].host.Some? && s.records[h].host.value in s.hosts
            && (code != 0 ==> Untouched(s, s'))
            && (code == 0 ==>
                  && s'.hosts == s.hosts[s.records[h].host.value := s'.hosts[s.records[h].host.value]]
                  && s'.hosts[s.records[h].host.value].users == [ByDetach]
                  && (h in s'.records <==> !s.records[h].zombie) && (h in s'.records ==> s'.records[h].detached)))
  {
    RunKeepsInv(states, actions, i);
    var s := states[i];
    if h in s.records { assert RecordOk(s, h) && UnusedOk(s, h); }
    assert states[i + 1] == DetachStep(s, h, code);
    hide Inv, RecordOk, IsRun, JoinedAlready;
  }

  /** create: nothing happens to a call that is refused; a thread that cannot be detached stays joinable. */
  lemma CreateAnswers(states: seq<State>, actions: seq<Action>, i: nat, guest: nat, start: nat, detached: bool,
      x: HostId, createCode: int, detachCode: int)
    requires IsRun(states, actions) && i < |actions|
    requires actions[i] == Create(guest, start, detached, x, createCode, detachCode)
    ensures var s, s' := states[i], states[i + 1];
      && (guest == 0 || start == 0 ==> s'.answer == EINVAL && Untouched(s, s'))
      && (guest != 0 && start != 0 && s.closing ==> s'.answer == EAGAIN && Untouched(s, s'))
      && (guest != 0 && start != 0 && !s.closing && createCode != 0 ==> s'.answer == createCode && Untouched(s, s'))
      && (guest != 0 && start != 0 && !s.closing ==> s'.nextHandle == s.nextHandle + 1)
      && (guest != 0 && start != 0 && !s.closing && createCode == 0 ==>
            && s'.answer == (if detached then detachCode else 0)
            && s.nextHandle !in s.records && s'.records.Keys == s.records.Keys + {s.nextHandle}
            && x in s'.hosts && s'.hosts[x].handle == s.nextHandle && s'.hosts[x].running
            && var r := s'.records[s.nextHandle];
               && r.guest == guest && r.start == start && r.thread == Some(x) && !r.zombie && r.joined == None
               && (r.detached <==> detached && detachCode == 0)
               && (s'.hosts[x].users == [ByDetach] <==> detached && detachCode == 0))
  {
    RunKeepsInv(states, actions, i);
    var s := states[i];
    forall h | h in s.records ensures h < s.nextHandle { assert RecordOk(s, h); }
    hide Inv, RecordOk;
  }

  /** So no two calls of create get the same handle, whatever happens between them. */
  lemma HandlesDiffer(states: seq<State>, actions: seq<Action>, i: nat, j: nat)
    requires IsRun(states, actions) && i < j < |actions| && actions[i].Create? && actions[j].Create?
    requires actions[i].guest != 0 && actions[i].start != 0 && !states[i].closing
    ensures states[i].nextHandle < states[j].nextHandle
  {
    hide Step, Enabled, Initial;
    RunStep(states, actions, i);
    var a := actions[i];
    CreateAnswers(states, actions, i, a.guest, a.start, a.detached, a.thread, a.createCode, a.detachCode);
    HandlesGrow(states, actions, i + 1, j);
  }

  lemma {:induction false} HandlesGrow(states: seq<State>, actions: seq<Action>, i: nat, j: nat)
    requires IsRun(states, actions) && i <= j < |states|
    ensures states[i].nextHandle <= states[j].nextHandle
    decreases j
  {
    hide Step, Enabled, Initial;
    if i < j {
      HandlesGrow(states, actions, i, j - 1);
      RunStep(states, actions, j - 1);
      NextHandleKept(states[j - 1], actions[j - 1]);
    }
  }

  lemma NextHandleKept(s: State, a: Action)
    requires Enabled(s, a)
    ensures s.nextHandle <= Step(s, a).nextHandle
  {
    hide Consume, NotifyExited, NotifyAll, NotifyChanged, HostEnded, IsEntry;
  }

  /** register_current and bind_current. */
  lemma RegisterAnswers(states: seq<State>, actions: seq<Action>, i: nat, guest: nat, h: Handle, context: nat)
    requires IsRun(states, actions) && i < |actions| && actions[i] == Register(guest, h, context)
    ensures var s, s' := states[i], states[i + 1];
      && (guest == 0 || h == 0 || context == 0 ==> s'.answer == EINVAL && Untouched(s, s'))
      && (guest != 0 && h != 0 && context != 0 && h in s.records ==> s'.answer == EEXIST && Untouched(s, s'))
      && (guest != 0 && h != 0 && context != 0 && h !in s.records ==>
            && s'.answer == 0 && s'.records.Keys == s.records.Keys + {h} && s'.hosts == s.hosts
            && s'.records[h].guest == guest && s'.records[h].context == context && s'.records[h].detached)
  {
    hide IsEntry;
  }

  lemma BindAnswers(states: seq<State>, actions: seq<Action>, i: nat, guest: nat, h: Handle, context: nat)
    requires IsRun(states, actions) && i < |actions| && actions[i] == Bind(guest, h, context)
    ensures var s, s' := states[i], states[i + 1];
      && (guest == 0 || context == 0 ==> s'.answer == EINVAL && Untouched(s, s'))
      && (guest != 0 && context != 0 && !Known(s, guest) ==> s'.answer == ESRCH && Untouched(s, s'))
      && (guest != 0 && context != 0 && Known(s, guest) ==>
            && s'.answer == 0 && h in s.records && s.records[h].guest == guest
            && s'.records == s.records[h := s.records[h].(context := context)] && s'.hosts == s.hosts)
  {
  }

  predicate Known(s: State, guest: nat) { exists h :: h in s.records && s.records[h].guest == guest }
}
