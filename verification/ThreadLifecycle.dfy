/**
 Creating, exiting, joining, detaching and shutting down guest threads (Runtime/Bionic/agr_bionic_thread_lifecycle.cpp)
 as atomic steps: one step is what runs between taking and releasing the lifecycle lock, or one call of the host
 outside it.
 */
module ThreadLifecycle {
  import opened Prelude

  type Handle = nat
  type HostId = nat
  type CallId = nat

  /** Who successfully joined or detached a host thread. */
  datatype User = ByJoin(call: CallId) | ByDetach | ByShutdown

  /**
   A host thread: the record it was started for, whether thread_entry still has work to do, its result, and its users.
   */
  datatype HostThread = HostThread(handle: Handle, running: bool, value: uint32, users: seq<User>)

  /**
   A lifecycle record. `thread` is the host thread started for it, `host` the host_handle field, `joined` the kJoined
   flag with the call that set it.
   */
  datatype Record = Record(guest: nat, start: nat, context: nat, detached: bool, joined: Option<CallId>, zombie: bool,
                           value: uint32, host: Option<HostId>, thread: Option<HostId>)

  /**
   A pthread_join call: waiting on the record's condition, woken, inside the host's join, back from it, or returned.
   */
  datatype Call =
    | Asleep(handle: Handle)
    | Woken(handle: Handle)
    | Joining(handle: Handle, host: HostId, value: uint32)
    | Back(handle: Handle, host: HostId, value: uint32, code: int)
    | Returned(code: int, thread: Option<HostId>, value: uint32)

  /** The shutdown call. */
  datatype Shutdown =
    | NotStarted
    | Looking
    | Sleeping(handle: Handle)
    | JoiningLast(handle: Handle, host: Option<HostId>)
    | Erasing(handle: Handle)
    | Finished

  /**
   `lost` are the host threads whose join by shutdown failed; the code does not look at that result. `answer` is what
   the last call of create, register, bind or detach returned.
   */
  datatype State = State(closing: bool, records: map<Handle, Record>, nextHandle: Handle,
                         hosts: map<HostId, HostThread>, calls: map<CallId, Call>, shutdown: Shutdown,
                         lost: set<HostId>, answer: int)

  datatype Action =
    | Create(guest: nat, start: nat, detached: bool, thread: HostId, createCode: int, detachCode: int)
    | Register(guest: nat, handle: Handle, context: nat)
    | Bind(guest: nat, handle: Handle, context: nat)
    | Exit(thread: HostId, value: uint32)
    | JoinBegin(call: CallId, handle: Handle, binding: nat)
    | JoinWake(call: CallId)
    | HostJoin(call: CallId, code: int)
    | JoinEnd(call: CallId)
    | Detach(handle: Handle, code: int)
    | ShutdownBegin
    | ShutdownLook(handle: Handle)
    | ShutdownDone
    | ShutdownWake
    | ShutdownHostJoin(code: int)
    | ShutdownErase

  predicate IsEntry(r: Record) { r.guest == 1 && r.start == 0 && r.host == None }

  function Roused(c: Call, handle: Handle): (r: Call) {
    if c == Asleep(handle) then Woken(handle) else c
  }

  /** exited.notify_all() on one record. */
  function NotifyExited(calls: map<CallId, Call>, handle: Handle): (r: map<CallId, Call>) {
    map c | c in calls :: Roused(calls[c], handle)
  }

  function NotifyAll(calls: map<CallId, Call>): (r: map<CallId, Call>) {
    map c | c in calls :: if calls[c].Asleep? then Woken(calls[c].handle) else calls[c]
  }

  /** changed.notify_all(). */
  function NotifyChanged(p: Shutdown): (r: Shutdown) {
    if p.Sleeping? then Looking else p
  }

  function Consume(hosts: map<HostId, HostThread>, x: HostId, u: User): (r: map<HostId, HostThread>)
    requires x in hosts
  {
    hosts[x := hosts[x].(users := hosts[x].users + [u])]
  }

  predicate Enabled(s: State, a: Action) {
    match a
    case Create(_, _, _, thread, _, _) => thread !in s.hosts
    case Register(_, _, _) => true
    case Bind(guest, handle, _) =>
      // The table is searched for some record of this guest thread.
      (exists h :: h in s.records && s.records[h].guest == guest) ==>
        handle in s.records && s.records[handle].guest == guest
    case Exit(thread, _) => thread in s.hosts && s.hosts[thread].running
    case JoinBegin(call, _, _) => call !in s.calls
    case JoinWake(call) => call in s.calls && (s.calls[call].Asleep? || s.calls[call].Woken?)
    case HostJoin(call, code) => call in s.calls && s.calls[call].Joining?
      && (code == 0 ==> HostEnded(s, s.calls[call].host))
    case JoinEnd(call) => call in s.calls && s.calls[call].Back?
    case Detach(_, _) => true
    case ShutdownBegin => s.shutdown.NotStarted?
    case ShutdownLook(handle) => s.shutdown.Looking? && handle in s.records && !IsEntry(s.records[handle])
    case ShutdownDone => s.shutdown.Looking? && forall h :: h in s.records ==> IsEntry(s.records[h])
    case ShutdownWake => s.shutdown.Sleeping?
    case ShutdownHostJoin(code) =>
      s.shutdown.JoiningLast? && (code == 0 && s.shutdown.host.Some? ==> HostEnded(s, s.shutdown.host.value))
    case ShutdownErase => s.shutdown.Erasing?
  }

  predicate HostEnded(s: State, x: HostId) { x in s.hosts && !s.hosts[x].running }

  /** A thread that the host has started, and detached if `detached`. */
  function Started(s: State, guest: nat, start: nat, detached: bool, thread: HostId): (r: State) {
    var handle := s.nextHandle;
    var record := Record(guest, start, 0, detached, None, false, 0, if detached then None else Some(thread),
      Some(thread));
    s.(nextHandle := handle + 1, records := s.records[handle := record],
       hosts := s.hosts[thread := HostThread(handle, true, 0, if detached then [ByDetach] else [])])
  }

  /** create_thread. A detached thread that the host cannot detach stays behind as a joinable one. */
  function CreateStep(s: State, guest: nat, start: nat, detached: bool, thread: HostId, createCode: int,
      detachCode: int): (r: State) {
    if guest == 0 || start == 0 then s.(answer := EINVAL)
    else if s.closing then s.(answer := EAGAIN)
    else if createCode != 0 then s.(nextHandle := s.nextHandle + 1, answer := createCode)
    else Started(s.(answer := if detached then detachCode else 0), guest, start, detached && detachCode == 0, thread)
  }

  /** register_current: the thread that entered the process has no host handle. */
  function Registered(s: State, guest: nat, handle: Handle, context: nat): (r: State) {
    s.(records := s.records[handle := Record(guest, 0, context, true, None, false, 0, None, None)],
       nextHandle := if handle >= s.nextHandle then handle + 1 else s.nextHandle)
  }

  function RegisterStep(s: State, guest: nat, handle: Handle, context: nat): (r: State) {
    if guest == 0 || handle == 0 || context == 0 then s.(answer := EINVAL)
    else if handle in s.records then s.(answer := EEXIST)
    else Registered(s.(answer := 0), guest, handle, context)
  }

  /** bind_current. */
  function Bound(s: State, handle: Handle, context: nat): (r: State)
    requires handle in s.records
  {
    s.(records := s.records[handle := s.records[handle].(context := context)])
  }

  function BindStep(s: State, guest: nat, handle: Handle, context: nat): (r: State) {
    if guest == 0 || context == 0 then s.(answer := EINVAL)
    else if handle !in s.records || s.records[handle].guest != guest then s.(answer := ESRCH)
    else Bound(s.(answer := 0), handle, context)
  }

  /** The end of thread_entry. */
  function ExitStep(s: State, x: HostId, value: uint32): (r: State)
    requires x in s.hosts
  {
    var hosts := s.hosts[x := s.hosts[x].(running := false, value := value)];
    var handle := s.hosts[x].handle;
    if handle !in s.records then s.(hosts := hosts)
    else
      var r := s.records[handle].(zombie := true, value := value);
      s.(hosts := hosts, records := if r.detached then s.records - {handle} else s.records[handle := r],
         calls := NotifyExited(s.calls, handle), shutdown := NotifyChanged(s.shutdown))
  }

  function Return(s: State, call: CallId, code: int): (r: State) {
    s.(calls := s.calls[call := Returned(code, None, 0)])
  }

  /** The wait loop of join, from each time it holds the lock to the next time it gives it up. */
  function Settle(s: State, call: CallId, handle: Handle): (r: State)
    requires handle in s.records
  {
    var r := s.records[handle];
    if !r.zombie && !s.closing then s.(calls := s.calls[call := Asleep(handle)])
    else if s.closing then
      Return(s, call, ECANCELED).(records := s.records[handle := r.(joined := None)],
        shutdown := NotifyChanged(s.shutdown))
    else if r.host.None? then s
    else s.(calls := s.calls[call := Joining(handle, r.host.value, r.value)])
  }

  function JoinBeginStep(s: State, call: CallId, handle: Handle, binding: nat): (r: State) {
    if handle == 0 then Return(s, call, EINVAL)
    else if handle !in s.records then Return(s, call, ESRCH)
    else
      var r := s.records[handle];
      if s.closing then Return(s, call, ECANCELED)
      else if r.context != 0 && binding == r.context then Return(s, call, EDEADLK)
      else if r.detached || r.joined.Some? then Return(s, call, EINVAL)
      else Settle(s.(records := s.records[handle := r.(joined := Some(call))]), call, handle)
  }

  /** thread_join returns, outside the lock. */
  function HostJoinStep(s: State, call: CallId, code: int): (r: State)
    requires call in s.calls && s.calls[call].Joining? && s.calls[call].host in s.hosts
  {
    var c := s.calls[call];
    s.(calls := s.calls[call := Back(c.handle, c.host, c.value, code)],
       hosts := if code == 0 then Consume(s.hosts, c.host, ByJoin(call)) else s.hosts)
  }

  function JoinEndStep(s: State, call: CallId): (r: State)
    requires call in s.calls && s.calls[call].Back?
  {
    var c := s.calls[call];
    var t := s.(calls := s.calls[call := Returned(c.code, Some(c.host), c.value)],
      shutdown := NotifyChanged(s.shutdown));
    if c.handle !in s.records then t
    else if c.code != 0 then t.(records := s.records[c.handle := s.records[c.handle].(joined := None)])
    else t.(records := s.records - {c.handle})
  }

  /** The host has detached the record's thread. */
  function Detached(s: State, handle: Handle): (r: State)
    requires handle in s.records && s.records[handle].host.Some? && s.records[handle].host.value in s.hosts
  {
    var r := s.records[handle];
    s.(hosts := Consume(s.hosts, r.host.value, ByDetach),
       records := if r.zombie then s.records - {handle}
         else s.records[handle := r.(host := None, detached := true)])
  }

  function DetachStep(s: State, handle: Handle, code: int): (r: State) {
    if handle == 0 then s.(answer := EINVAL)
    else if handle !in s.records then s.(answer := ESRCH)
    else if s.closing then s.(answer := ECANCELED)
    else
      var r := s.records[handle];
      if r.detached then s.(answer := EINVAL)
      else if r.joined.Some? then s.(answer := 0)
      else if code != 0 || r.host.None? || r.host.value !in s.hosts then s.(answer := code)
      else Detached(s.(answer := 0), handle)
  }

  function LookStep(s: State, handle: Handle): (r: State)
    requires handle in s.records
  {
    var r := s.records[handle];
    if r.joined.Some? || !r.zombie then s.(shutdown := Sleeping(handle))
    else s.(shutdown := JoiningLast(handle, r.host))
  }

  function LastJoinStep(s: State, code: int): (r: State)
    requires s.shutdown.JoiningLast?
  {
    var p := s.shutdown;
    var t := s.(shutdown := Erasing(p.handle));
    if p.host.None? || p.host.value !in s.hosts then t
    else if code == 0 then t.(hosts := Consume(s.hosts, p.host.value, ByShutdown))
    else t.(lost := s.lost + {p.host.value})
  }

  function Step(s: State, a: Action): (r: State)
    requires Enabled(s, a)
  {
    match a
    case Create(guest, start, detached, thread, createCode, detachCode) => CreateStep(s, guest, start, detached, thread,
      createCode, detachCode)
    case Register(guest, handle, context) => RegisterStep(s, guest, handle, context)
    case Bind(guest, handle, context) => BindStep(s, guest, handle, context)
    case Exit(thread, value) => ExitStep(s, thread, value)
    case JoinBegin(call, handle, binding) => JoinBeginStep(s, call, handle, binding)
    case JoinWake(call) => if s.calls[call].handle in s.records then Settle(s, call, s.calls[call].handle) else s
    case HostJoin(call, code) => if s.calls[call].host in s.hosts then HostJoinStep(s, call, code) else s
    case JoinEnd(call) => JoinEndStep(s, call)
    case Detach(handle, code) => DetachStep(s, handle, code)
    case ShutdownBegin => s.(closing := true, calls := NotifyAll(s.calls), shutdown := Looking)
    case ShutdownLook(handle) => LookStep(s, handle)
    case ShutdownDone => s.(shutdown := Finished)
    case ShutdownWake => s.(shutdown := Looking)
    case ShutdownHostJoin(code) => LastJoinStep(s, code)
    case ShutdownErase => s.(records := s.records - {s.shutdown.handle}, shutdown := Looking)
  }

  predicate Initial(s: State) {
    s == State(false, map[], 1, map[], map[], NotStarted, {}, 0)
  }

  ghost predicate IsRun(states: seq<State>, actions: seq<Action>) {
    && |states| == |actions| + 1 && Initial(states[0])
    && forall i :: 0 <= i < |actions| ==> Enabled(states[i], actions[i]) && states[i + 1] == Step(states[i], actions[i])
  }

  // ---- The invariant --------------------------------------------------------------------------

  predicate OnHandle(c: Call, h: Handle) { !c.Returned? && c.handle == h }

  /** The host thread that a join or the shutdown has joined but whose record is still there. */
  predicate JoinedAlready(s: State, h: Handle, r: Record) {
    || (r.joined.Some? && r.joined.value in s.calls && s.calls[r.joined.value].Back?
      && s.calls[r.joined.value].code == 0)
    || s.shutdown == Erasing(h)
  }

  predicate RecordOk(s: State, h: Handle)
    requires h in s.records
  {
    var r := s.records[h];
    && h < s.nextHandle && (r.host == None <==> r.detached) && (r.detached ==> r.joined == None && !r.zombie)
    && (r.joined.Some? ==> r.joined.value in s.calls && OnHandle(s.calls[r.joined.value], h))
    && match r.thread
       case None => r.start == 0 && r.detached
       case Some(x) =>
         && r.start != 0 && x in s.hosts && s.hosts[x].handle == h && (r.host.Some? ==> r.host == r.thread)
         && (r.zombie <==> !s.hosts[x].running) && (r.zombie ==> r.value == s.hosts[x].value)
  }

  /** How often the host thread of a record was used up so far: not at all unless detached or just joined. */
  predicate UnusedOk(s: State, h: Handle)
    requires h in s.records
  {
    var r := s.records[h];
    r.thread.Some? && r.thread.value in s.hosts ==>
      var users := s.hosts[r.thread.value].users;
      if r.detached then users == [ByDetach] && r.thread.value !in s.lost
      else if JoinedAlready(s, h, r) then if r.thread.value in s.lost then users == [] else |users| == 1
      else users == [] && r.thread.value !in s.lost
  }

  /** A host thread either still has its record, or it has ended and was used up exactly once. */
  predicate HostOk(s: State, x: HostId)
    requires x in s.hosts
  {
    var t := s.hosts[x];
    || (t.handle in s.records && s.records[t.handle].thread == Some(x))
    || (!t.running && if x in s.lost then t.users == [] else |t.users| == 1)
  }

  predicate CallOk(s: State, c: CallId)
    requires c in s.calls
  {
    match s.calls[c]
    case Asleep(h) => h in s.records && s.records[h].joined == Some(c) && !s.records[h].zombie && !s.closing
    case Woken(h) => h in s.records && s.records[h].joined == Some(c)
    case Joining(h, x, v) => h in s.records && s.records[h].joined == Some(c) && s.records[h].zombie
      && s.records[h].host == Some(x) && s.records[h].value == v
    case Back(h, x, v, code) =>
      && h in s.records && s.records[h].joined == Some(c) && s.records[h].zombie && s.records[h].host == Some(x)
        && s.records[h].value == v
      && (code == 0 ==> x in s.hosts && s.hosts[x].users == [ByJoin(c)])
    case Returned(code, thread, v) =>
      code == 0 ==> thread.Some? && thread.value in s.hosts && !s.hosts[thread.value].running
                    && s.hosts[thread.value].value == v && s.hosts[thread.value].users == [ByJoin(c)]
  }

  predicate ShutdownOk(s: State) {
    && (s.closing <==> !s.shutdown.NotStarted?)
    && (forall x :: x in s.lost ==> x in s.hosts)
    && match s.shutdown
       case NotStarted => true
       case Looking => true
       case Sleeping(h) => h in s.records && !IsEntry(s.records[h])
         && (s.records[h].joined.Some? || !s.records[h].zombie)
       case JoiningLast(h, host) =>
         h in s.records && s.records[h].joined == None && s.records[h].zombie && s.records[h].host == host
           && s.records[h].thread == host && host.Some?
       case Erasing(h) => h in s.records && s.records[h].joined == None && s.records[h].zombie
         && s.records[h].thread.Some?
       case Finished => forall h :: h in s.records ==> s.records[h].thread == None
  }

  ghost predicate RecordsOk(s: State) { forall h :: h in s.records ==> RecordOk(s, h) && UnusedOk(s, h) }
  ghost predicate HostsOk(s: State) { forall x :: x in s.hosts ==> HostOk(s, x) }
  ghost predicate CallsOk(s: State) { forall c :: c in s.calls ==> CallOk(s, c) }

  ghost predicate Inv(s: State) { RecordsOk(s) && HostsOk(s) && CallsOk(s) && ShutdownOk(s) }

  // ---- Every step keeps it --------------------------------------------------------------------

  lemma AnswerKeeps(s: State, answer: int)
    requires Inv(s)
    ensures Inv(s.(answer := answer)) && Inv(s.(nextHandle := s.nextHandle + 1, answer := answer))
  {
    var t := s.(nextHandle := s.nextHandle + 1, answer := answer);
    forall h | h in t.records ensures RecordOk(t, h) && UnusedOk(t, h) { assert RecordOk(s, h) && UnusedOk(s, h); }
    forall x | x in t.hosts ensures HostOk(t, x) { assert HostOk(s, x); }
    forall c | c in t.calls ensures CallOk(t, c) { assert CallOk(s, c); }
    var u := s.(answer := answer);
    forall h | h in u.records ensures RecordOk(u, h) && UnusedOk(u, h) { assert RecordOk(s, h) && UnusedOk(s, h); }
    forall x | x in u.hosts ensures HostOk(u, x) { assert HostOk(s, x); }
    forall c | c in u.calls ensures CallOk(u, c) { assert CallOk(s, c); }
  }

  lemma StartedRecords(s: State, guest: nat, start: nat, detached: bool, thread: HostId)
    requires Inv(s) && thread !in s.hosts && start != 0 && !s.closing
    ensures RecordsOk(Started(s, guest, start, detached, thread))
  {
    var t := Started(s, guest, start, detached, thread);
    forall h | h in t.records ensures RecordOk(t, h) && UnusedOk(t, h) {
      if h in s.records { assert RecordOk(s, h) && UnusedOk(s, h); }
    }
  }

  lemma StartedHosts(s: State, guest: nat, start: nat, detached: bool, thread: HostId)
    requires Inv(s) && thread !in s.hosts && start != 0 && !s.closing
    ensures HostsOk(Started(s, guest, start, detached, thread))
  {
    var t := Started(s, guest, start, detached, thread);
    forall x | x in t.hosts ensures HostOk(t, x) {
      if x in s.hosts { assert HostOk(s, x); }
    }
  }

  lemma StartedCalls(s: State, guest: nat, start: nat, detached: bool, thread: HostId)
    requires Inv(s) && thread !in s.hosts && start != 0 && !s.closing
    ensures CallsOk(Started(s, guest, start, detached, thread))
      && ShutdownOk(Started(s, guest, start, detached, thread))
  {
    var t := Started(s, guest, start, detached, thread);
    forall c | c in t.calls ensures CallOk(t, c) { assert CallOk(s, c); }
  }

  lemma CreateKeeps(s: State, guest: nat, start: nat, detached: bool, thread: HostId, createCode: int, detachCode: int)
    requires Inv(s) && thread !in s.hosts
    ensures Inv(CreateStep(s, guest, start, detached, thread, createCode, detachCode))
  {
    var answer := CreateStep(s, guest, start, detached, thread, createCode, detachCode).answer;
    AnswerKeeps(s, answer);
    if guest != 0 && start != 0 && !s.closing && createCode == 0 {
      var t, alone := s.(answer := if detached then detachCode else 0), detached && detachCode == 0;
      StartedRecords(t, guest, start, alone, thread);
      StartedHosts(t, guest, start, alone, thread);
      StartedCalls(t, guest, start, alone, thread);
    }
    hide RecordsOk, HostsOk, CallsOk, ShutdownOk, Started;
  }

  lemma RegisteredRecords(s: State, guest: nat, handle: Handle, context: nat)
    requires Inv(s) && handle !in s.records
    ensures RecordsOk(Registered(s, guest, handle, context))
  {
    var t := Registered(s, guest, handle, context);
    forall h | h in t.records ensures RecordOk(t, h) && UnusedOk(t, h) {
      if h in s.records { assert RecordOk(s, h) && UnusedOk(s, h); }
    }
  }

  lemma RegisteredHosts(s: State, guest: nat, handle: Handle, context: nat)
    requires Inv(s) && handle !in s.records
    ensures HostsOk(Registered(s, guest, handle, context))
  {
    var t := Registered(s, guest, handle, context);
    forall x | x in t.hosts ensures HostOk(t, x) { assert HostOk(s, x); }
  }

  lemma RegisteredCalls(s: State, guest: nat, handle: Handle, context: nat)
    requires Inv(s) && handle !in s.records
    ensures CallsOk(Registered(s, guest, handle, context)) && ShutdownOk(Registered(s, guest, handle, context))
  {
    var t := Registered(s, guest, handle, context);
    forall c | c in t.calls ensures CallOk(t, c) { assert CallOk(s, c); }
  }

  lemma RegisterKeeps(s: State, guest: nat, handle: Handle, context: nat)
    requires Inv(s)
    ensures Inv(RegisterStep(s, guest, handle, context))
  {
    AnswerKeeps(s, RegisterStep(s, guest, handle, context).answer);
    if guest != 0 && handle != 0 && context != 0 && handle !in s.records {
      var t := s.(answer := 0);
      RegisteredRecords(t, guest, handle, context);
      RegisteredHosts(t, guest, handle, context);
      RegisteredCalls(t, guest, handle, context);
    }
    hide RecordsOk, HostsOk, CallsOk, ShutdownOk, Registered;
  }

  lemma BoundRecords(s: State, handle: Handle, context: nat)
    requires Inv(s) && handle in s.records
    ensures RecordsOk(Bound(s, handle, context))
  {
    var t := Bound(s, handle, context);
    forall h | h in t.records ensures RecordOk(t, h) && UnusedOk(t, h) {
      if h in s.records { assert RecordOk(s, h) && UnusedOk(s, h); }
    }
  }

  lemma BoundHosts(s: State, handle: Handle, context: nat)
    requires Inv(s) && handle in s.records
    ensures HostsOk(Bound(s, handle, context))
  {
    var t := Bound(s, handle, context);
    forall x | x in t.hosts ensures HostOk(t, x) { assert HostOk(s, x); }
  }

  lemma BoundCalls(s: State, handle: Handle, context: nat)
    requires Inv(s) && handle in s.records
    ensures CallsOk(Bound(s, handle, context)) && ShutdownOk(Bound(s, handle, context))
  {
    var t := Bound(s, handle, context);
    forall c | c in t.calls ensures CallOk(t, c) { assert CallOk(s, c); }
  }

  lemma BindKeeps(s: State, guest: nat, handle: Handle, context: nat)
    requires Inv(s)
    ensures Inv(BindStep(s, guest, handle, context))
  {
    AnswerKeeps(s, BindStep(s, guest, handle, context).answer);
    if handle in s.records {
      AnswerKeeps(s, 0);
      BoundRecords(s.(answer := 0), handle, context);
      BoundHosts(s.(answer := 0), handle, context);
      BoundCalls(s.(answer := 0), handle, context);
    }
    hide RecordsOk, HostsOk, CallsOk, ShutdownOk, Bound;
  }

  lemma ExitRecords(s: State, thread: HostId, value: uint32)
    requires Inv(s) && thread in s.hosts && s.hosts[thread].running
    ensures RecordsOk(ExitStep(s, thread, value))
  {
    var t := ExitStep(s, thread, value);
    forall h | h in t.records ensures RecordOk(t, h) && UnusedOk(t, h) {
      if h in s.records { assert RecordOk(s, h) && UnusedOk(s, h); }
    }
  }

  lemma ExitHosts(s: State, thread: HostId, value: uint32)
    requires Inv(s) && thread in s.hosts && s.hosts[thread].running
    ensures HostsOk(ExitStep(s, thread, value))
  {
    var t := ExitStep(s, thread, value);
    forall x | x in t.hosts ensures HostOk(t, x) {
      if x in s.hosts { assert HostOk(s, x); }
      assert HostOk(s, thread) && RecordOk(s, s.hosts[thread].handle) && UnusedOk(s, s.hosts[thread].handle);
    }
  }

  lemma ExitCalls(s: State, thread: HostId, value: uint32)
    requires Inv(s) && thread in s.hosts && s.hosts[thread].running
    ensures CallsOk(ExitStep(s, thread, value)) && ShutdownOk(ExitStep(s, thread, value))
  {
    var t := ExitStep(s, thread, value);
    forall c | c in t.calls ensures CallOk(t, c) {
      if c in s.calls { assert CallOk(s, c); }
    }
  }

  lemma ExitKeeps(s: State, thread: HostId, value: uint32)
    requires Inv(s) && thread in s.hosts && s.hosts[thread].running
    ensures Inv(ExitStep(s, thread, value))
  {
    ExitRecords(s, thread, value);
    ExitHosts(s, thread, value);
    ExitCalls(s, thread, value);
    hide RecordsOk, HostsOk, CallsOk, ShutdownOk, ExitStep;
  }

  lemma SettleRecords(s: State, call: CallId, handle: Handle)
    requires Inv(s) && handle in s.records && s.records[handle].joined == Some(call) && call in s.calls
      && s.calls[call] == Woken(handle)
    ensures RecordsOk(Settle(s, call, handle))
  {
    var t := Settle(s, call, handle);
    forall h | h in t.records ensures RecordOk(t, h) && UnusedOk(t, h) {
      if h in s.records { assert RecordOk(s, h) && UnusedOk(s, h); }
    }
  }

  lemma SettleHosts(s: State, call: CallId, handle: Handle)
    requires Inv(s) && handle in s.records && s.records[handle].joined == Some(call) && call in s.calls
      && s.calls[call] == Woken(handle)
    ensures HostsOk(Settle(s, call, handle))
  {
    var t := Settle(s, call, handle);
    forall x | x in t.hosts ensures HostOk(t, x) {
      if x in s.hosts { assert HostOk(s, x); }
    }
  }

  lemma SettleCalls(s: State, call: CallId, handle: Handle)
    requires Inv(s) && handle in s.records && s.records[handle].joined == Some(call) && call in s.calls
      && s.calls[call] == Woken(handle)
    ensures CallsOk(Settle(s, call, handle)) && ShutdownOk(Settle(s, call, handle))
  {
    var t := Settle(s, call, handle);
    forall c | c in t.calls ensures CallOk(t, c) {
      if c in s.calls { assert CallOk(s, c); }
    }
  }

  lemma SettleKeeps(s: State, call: CallId, handle: Handle)
    requires Inv(s) && handle in s.records && s.records[handle].joined == Some(call) && call in s.calls
      && s.calls[call] == Woken(handle)
    ensures Inv(Settle(s, call, handle))
  {
    SettleRecords(s, call, handle);
    SettleHosts(s, call, handle);
    SettleCalls(s, call, handle);
    hide RecordsOk, HostsOk, CallsOk, ShutdownOk, Settle;
  }

  lemma HostJoinKeeps(s: State, call: CallId, code: int)
    requires Inv(s) && call in s.calls && s.calls[call].Joining? && (code == 0 ==> HostEnded(s, s.calls[call].host))
      && s.calls[call].host in s.hosts
    ensures Inv(HostJoinStep(s, call, code))
  {
    var t := HostJoinStep(s, call, code);
    assert CallOk(s, call);
    forall h | h in t.records ensures RecordOk(t, h) && UnusedOk(t, h) {
      assert RecordOk(s, h) && UnusedOk(s, h);
    }
    forall x | x in t.hosts ensures HostOk(t, x) {
      assert HostOk(s, x);
    }
    forall c | c in t.calls ensures CallOk(t, c) {
      assert CallOk(s, c);
    }
  }

  lemma JoinFailedRecords(s: State, call: CallId)
    requires Inv(s) && call in s.calls && s.calls[call].Back? && s.calls[call].code != 0
    ensures RecordsOk(JoinEndStep(s, call))
  {
    assert CallOk(s, call);
    var t := JoinEndStep(s, call);
    forall h | h in t.records ensures RecordOk(t, h) && UnusedOk(t, h) {
      assert RecordOk(s, h) && UnusedOk(s, h);
    }
  }

  lemma JoinFailedHosts(s: State, call: CallId)
    requires Inv(s) && call in s.calls && s.calls[call].Back? && s.calls[call].code != 0
    ensures HostsOk(JoinEndStep(s, call))
  {
    assert CallOk(s, call);
    var t := JoinEndStep(s, call);
    assert RecordOk(s, s.calls[call].handle) && UnusedOk(s, s.calls[call].handle);
    forall x | x in t.hosts ensures HostOk(t, x) { assert HostOk(s, x); }
  }

  lemma JoinFailedCalls(s: State, call: CallId)
    requires Inv(s) && call in s.calls && s.calls[call].Back? && s.calls[call].code != 0
    ensures CallsOk(JoinEndStep(s, call)) && ShutdownOk(JoinEndStep(s, call))
  {
    assert CallOk(s, call);
    var t := JoinEndStep(s, call);
    assert RecordOk(s, s.calls[call].handle);
    forall c | c in t.calls ensures CallOk(t, c) { assert CallOk(s, c); }
  }

  lemma JoinDoneRecords(s: State, call: CallId)
    requires Inv(s) && call in s.calls && s.calls[call].Back? && s.calls[call].code == 0
    ensures RecordsOk(JoinEndStep(s, call))
  {
    assert CallOk(s, call);
    var t := JoinEndStep(s, call);
    forall h | h in t.records ensures RecordOk(t, h) && UnusedOk(t, h) {
      assert RecordOk(s, h) && UnusedOk(s, h);
    }
  }

  lemma JoinDoneHosts(s: State, call: CallId)
    requires Inv(s) && call in s.calls && s.calls[call].Back? && s.calls[call].code == 0
    ensures HostsOk(JoinEndStep(s, call))
  {
    assert CallOk(s, call);
    var t := JoinEndStep(s, call);
    assert RecordOk(s, s.calls[call].handle) && UnusedOk(s, s.calls[call].handle);
    forall x | x in t.hosts ensures HostOk(t, x) { assert HostOk(s, x); }
  }

  lemma JoinDoneCalls(s: State, call: CallId)
    requires Inv(s) && call in s.calls && s.calls[call].Back? && s.calls[call].code == 0
    ensures CallsOk(JoinEndStep(s, call)) && ShutdownOk(JoinEndStep(s, call))
  {
    assert CallOk(s, call);
    var t := JoinEndStep(s, call);
    assert RecordOk(s, s.calls[call].handle);
    forall c | c in t.calls ensures CallOk(t, c) { assert CallOk(s, c); }
  }

  lemma JoinEndKeeps(s: State, call: CallId)
    requires Inv(s) && call in s.calls && s.calls[call].Back?
    ensures Inv(JoinEndStep(s, call))
  {
    if s.calls[call].code == 0 {
      JoinDoneRecords(s, call);
      JoinDoneHosts(s, call);
      JoinDoneCalls(s, call);
    } else {
      JoinFailedRecords(s, call);
      JoinFailedHosts(s, call);
      JoinFailedCalls(s, call);
    }
    hide RecordsOk, HostsOk, CallsOk, ShutdownOk, JoinEndStep;
  }

  lemma DetachedRecords(s: State, handle: Handle)
    requires Inv(s) && handle in s.records && !s.records[handle].detached && s.records[handle].joined == None
      && !s.closing && s.records[handle].host.Some? && s.records[handle].host.value in s.hosts
    ensures RecordsOk(Detached(s, handle))
  {
    var t := Detached(s, handle);
    assert RecordOk(s, handle) && UnusedOk(s, handle);
    forall h | h in t.records ensures RecordOk(t, h) && UnusedOk(t, h) { assert RecordOk(s, h) && UnusedOk(s, h); }
  }

  lemma DetachedHosts(s: State, handle: Handle)
    requires Inv(s) && handle in s.records && !s.records[handle].detached && s.records[handle].joined == None
      && !s.closing && s.records[handle].host.Some? && s.records[handle].host.value in s.hosts
    ensures HostsOk(Detached(s, handle))
  {
    var t := Detached(s, handle);
    assert RecordOk(s, handle) && UnusedOk(s, handle);
    forall x | x in t.hosts ensures HostOk(t, x) { assert HostOk(s, x); }
  }

  lemma DetachedCalls(s: State, handle: Handle)
    requires Inv(s) && handle in s.records && !s.records[handle].detached && s.records[handle].joined == None
      && !s.closing && s.records[handle].host.Some? && s.records[handle].host.value in s.hosts
    ensures CallsOk(Detached(s, handle)) && ShutdownOk(Detached(s, handle))
  {
    var t := Detached(s, handle);
    assert RecordOk(s, handle) && UnusedOk(s, handle);
    forall c | c in t.calls ensures CallOk(t, c) { assert CallOk(s, c); }
  }

  lemma DetachKeeps(s: State, handle: Handle, code: int)
    requires Inv(s)
    ensures Inv(DetachStep(s, handle, code))
  {
    AnswerKeeps(s, DetachStep(s, handle, code).answer);
    if handle in s.records && !s.closing && !s.records[handle].detached && s.records[handle].joined.None?
      && s.records[handle].host.Some? && s.records[handle].host.value in s.hosts {
      var t := s.(answer := 0);
      AnswerKeeps(s, 0);
      DetachedRecords(t, handle);
      DetachedHosts(t, handle);
      DetachedCalls(t, handle);
    }
    hide RecordsOk, HostsOk, CallsOk, ShutdownOk, Detached;
  }

  lemma ShutdownBeginKeeps(s: State)
    requires Inv(s) && s.shutdown.NotStarted?
    ensures Inv(s.(closing := true, calls := NotifyAll(s.calls), shutdown := Looking))
  {
  }

  lemma LookKeeps(s: State, handle: Handle)
    requires Inv(s) && s.shutdown.Looking? && handle in s.records && !IsEntry(s.records[handle])
    ensures Inv(LookStep(s, handle))
  {
  }

  lemma LastJoinRecords(s: State, code: int)
    requires Inv(s) && s.shutdown.JoiningLast?
    ensures RecordsOk(LastJoinStep(s, code))
  {
    var t := LastJoinStep(s, code);
    forall h | h in t.records ensures RecordOk(t, h) && UnusedOk(t, h) {
      if h in s.records { assert RecordOk(s, h) && UnusedOk(s, h); }
    }
  }

  lemma LastJoinHosts(s: State, code: int)
    requires Inv(s) && s.shutdown.JoiningLast?
    ensures HostsOk(LastJoinStep(s, code))
  {
    var t := LastJoinStep(s, code);
    forall x | x in t.hosts ensures HostOk(t, x) {
      if x in s.hosts { assert HostOk(s, x); }
    }
  }

  lemma LastJoinCalls(s: State, code: int)
    requires Inv(s) && s.shutdown.JoiningLast?
    ensures CallsOk(LastJoinStep(s, code)) && ShutdownOk(LastJoinStep(s, code))
  {
    var t := LastJoinStep(s, code);
    forall c | c in t.calls ensures CallOk(t, c) {
      if c in s.calls { assert CallOk(s, c); }
    }
  }

  lemma LastJoinKeeps(s: State, code: int)
    requires Inv(s) && s.shutdown.JoiningLast?
    ensures Inv(LastJoinStep(s, code))
  {
    LastJoinRecords(s, code);
    LastJoinHosts(s, code);
    LastJoinCalls(s, code);
    hide RecordsOk, HostsOk, CallsOk, ShutdownOk, LastJoinStep;
  }

  lemma EraseKeeps(s: State)
    requires Inv(s) && s.shutdown.Erasing?
    ensures Inv(s.(records := s.records - {s.shutdown.handle}, shutdown := Looking))
  {
    var t := s.(records := s.records - {s.shutdown.handle}, shutdown := Looking);
    forall h | h in t.records ensures RecordOk(t, h) && UnusedOk(t, h) {
      if h in s.records { assert RecordOk(s, h) && UnusedOk(s, h); }
    }
    forall x | x in t.hosts ensures HostOk(t, x) {
      if x in s.hosts { assert HostOk(s, x); }
      assert RecordOk(s, s.shutdown.handle) && UnusedOk(s, s.shutdown.handle);
    }
    forall c | c in t.calls ensures CallOk(t, c) { if c in s.calls { assert CallOk(s, c); } }
  }

  lemma JoinBeginKeeps(s: State, call: CallId, handle: Handle, binding: nat)
    requires Inv(s) && call !in s.calls
    ensures Inv(JoinBeginStep(s, call, handle, binding))
  {
    var t := JoinBeginStep(s, call, handle, binding);
    if handle == 0 || handle !in s.records || s.closing || t == Return(s, call, EDEADLK) || t ==
      Return(s, call, EINVAL) {
      hide Settle;
      ReturnKeeps(s, call, t.calls[call].code);
    } else {
      MarkKeeps(s, call, handle);
      SettleMarked(s, call, handle);
      hide Settle;
    }
  }

  lemma SettleMarked(s: State, call: CallId, handle: Handle)
    requires Inv(s) && handle in s.records && call !in s.calls
    requires Inv(Marked(s, call, handle)) && s.records[handle].host.Some?
    ensures Inv(Settle(s.(records := Marked(s, call, handle).records), call, handle))
  {
    hide RecordOk, UnusedOk, HostOk, CallOk, ShutdownOk;
    SettleKeeps(Marked(s, call, handle), call, handle);
    SameSettle(s.(records := Marked(s, call, handle).records), call, handle);
    hide Inv;
  }

  function Marked(s: State, call: CallId, handle: Handle): (r: State)
    requires handle in s.records
  {
    s.(records := s.records[handle := s.records[handle].(joined := Some(call))],
      calls := s.calls[call := Woken(handle)])
  }

  /** What the wait loop does next does not depend on how the call got there. */
  lemma SameSettle(s: State, call: CallId, handle: Handle)
    requires handle in s.records && s.records[handle].host.Some?
    ensures Settle(s.(calls := s.calls[call := Woken(handle)]), call, handle) == Settle(s, call, handle)
  {
    var c := Settle(s, call, handle).calls[call];
    assert s.calls[call := Woken(handle)][call := c] == s.calls[call := c];
  }

  /** A call that fails its checks changes nothing but its own result. */
  lemma ReturnKeeps(s: State, call: CallId, code: int)
    requires Inv(s) && call !in s.calls && code != 0
    ensures Inv(Return(s, call, code))
  {
  }

  /** flags |= kJoined. */
  lemma MarkKeeps(s: State, call: CallId, handle: Handle)
    requires Inv(s) && call !in s.calls && handle in s.records && !s.records[handle].detached
      && s.records[handle].joined.None? && !s.closing
    ensures Inv(Marked(s, call, handle)) && s.records[handle].host.Some?
  {
  }

  lemma StepKeeps(s: State, a: Action)
    requires Inv(s) && Enabled(s, a)
    ensures Inv(Step(s, a))
  {
    hide CreateStep, Started, Detached, RegisterStep, Registered, BindStep, Bound, ExitStep, Settle, JoinBeginStep,
      HostJoinStep, JoinEndStep, DetachStep, LookStep,
      LastJoinStep, NotifyAll;
    match a
    case Create(guest, start, detached, thread, createCode, detachCode) => CreateKeeps(s, guest, start, detached,
      thread, createCode, detachCode);
    case Register(guest, handle, context) => RegisterKeeps(s, guest, handle, context);
    case Bind(guest, handle, context) => BindKeeps(s, guest, handle, context);
    case Exit(thread, value) => ExitKeeps(s, thread, value);
    case JoinBegin(call, handle, binding) => JoinBeginKeeps(s, call, handle, binding);
    case JoinWake(call) => WakeKeeps(s, call);
    case HostJoin(call, code) =>
      JoiningHost(s, call);
      HostJoinKeeps(s, call, code);
    case JoinEnd(call) => JoinEndKeeps(s, call);
    case Detach(handle, code) => DetachKeeps(s, handle, code);
    case ShutdownBegin => ShutdownBeginKeeps(s);
    case ShutdownLook(handle) => LookKeeps(s, handle);
    case ShutdownDone => DoneKeeps(s);
    case ShutdownWake =>
    case ShutdownHostJoin(code) => LastJoinKeeps(s, code);
    case ShutdownErase => EraseKeeps(s);
  }

  lemma WakeKeeps(s: State, call: CallId)
    requires Inv(s) && call in s.calls && (s.calls[call].Asleep? || s.calls[call].Woken?)
    ensures s.calls[call].handle in s.records && Inv(Settle(s, call, s.calls[call].handle))
  {
    var handle := s.calls[call].handle;
    assert CallOk(s, call);
    assert RecordOk(s, handle);
    WokenKeeps(s, call, handle);
    SettleKeeps(s.(calls := s.calls[call := Woken(handle)]), call, handle);
    SameSettle(s, call, handle);
    hide Settle;
  }

  /** Condition variables may wake a sleeper at any time. */
  lemma WokenKeeps(s: State, call: CallId, handle: Handle)
    requires Inv(s) && call in s.calls && (s.calls[call] == Asleep(handle) || s.calls[call] == Woken(handle))
    ensures Inv(s.(calls := s.calls[call := Woken(handle)]))
  {
    var t := s.(calls := s.calls[call := Woken(handle)]);
    forall h | h in t.records ensures RecordOk(t, h) && UnusedOk(t, h) { assert RecordOk(s, h) && UnusedOk(s, h); }
    forall x | x in t.hosts ensures HostOk(t, x) { assert HostOk(s, x); }
    forall c | c in t.calls ensures CallOk(t, c) { assert CallOk(s, c) && CallOk(s, call); }
  }

  lemma JoiningHost(s: State, call: CallId)
    requires Inv(s) && call in s.calls && s.calls[call].Joining?
    ensures s.calls[call].host in s.hosts
  {
    assert CallOk(s, call);
    assert RecordOk(s, s.calls[call].handle);
  }

  lemma DoneKeeps(s: State)
    requires Inv(s) && s.shutdown.Looking? && forall h :: h in s.records ==> IsEntry(s.records[h])
    ensures Inv(s.(shutdown := Finished))
  {
    forall h | h in s.records ensures s.records[h].thread == None { assert RecordOk(s, h); }
  }

  lemma {:induction false} RunKeepsInv(states: seq<State>, actions: seq<Action>, i: nat)
    requires IsRun(states, actions) && i < |states|
    ensures Inv(states[i])
  {
    if i > 0 {
      hide Inv, Step, Enabled;
      RunKeepsInv(states, actions, i - 1);
      StepKeeps(states[i - 1], actions[i - 1]);
      assert states[i - 1 + 1] == Step(states[i - 1], actions[i - 1]);
    }
  }

  // ---- Theorems -------------------------------------------------------------------------------

  /** On every run a host thread is joined or detached successfully at most once. */
  lemma UsedAtMostOnce(states: seq<State>, actions: seq<Action>, i: nat, x: HostId)
    requires IsRun(states, actions) && i < |states| && x in states[i].hosts
    ensures |states[i].hosts[x].users| <= 1
  {
    RunKeepsInv(states, actions, i);
    var s := states[i];
    assert HostOk(s, x);
    if s.hosts[x].handle in s.records { assert RecordOk(s, s.hosts[x].handle) && UnusedOk(s, s.hosts[x].handle); }
  }

  /** Whenever the code hands a host thread to the host for joining or detaching, nobody has used it up before. */
  lemma HandsOverUnused(states: seq<State>, actions: seq<Action>, i: nat)
    requires IsRun(states, actions) && i < |actions|
    ensures var s := states[i]; match actions[i]
      case HostJoin(call, _) => s.calls[call].host in s.hosts && s.hosts[s.calls[call].host].users == []
      case ShutdownHostJoin(_) => s.shutdown.host.Some? && s.shutdown.host.value in s.hosts
        && s.hosts[s.shutdown.host.value].users == []
      case Detach(h, _) =>
        !s.closing && h in s.records && !s.records[h].detached && s.records[h].joined == None ==>
          s.records[h].host.Some? && s.records[h].host.value in s.hosts && s.hosts[s.records[h].host.value].users == []
      case _ => true
  {
    RunKeepsInv(states, actions, i);
    var s := states[i];
    match actions[i]
    case HostJoin(call, _) =>
      assert CallOk(s, call);
      assert RecordOk(s, s.calls[call].handle) && UnusedOk(s, s.calls[call].handle);
    case ShutdownHostJoin(_) => assert RecordOk(s, s.shutdown.handle) && UnusedOk(s, s.shutdown.handle);
    case Detach(h, _) => if h in s.records { assert RecordOk(s, h) && UnusedOk(s, h); }
    case _ =>
  }

  /**
   A join that returns 0 has joined its thread, which has ended, and yields the value that thread ended with; no other
   call joined it.
   */
  lemma JoinYieldsTheValue(states: seq<State>, actions: seq<Action>, i: nat, call: CallId, other: CallId)
    requires IsRun(states, actions) && i < |states| && call in states[i].calls && other in states[i].calls
    requires states[i].calls[call].Returned? && states[i].calls[call].code == 0
    ensures var s, c := states[i], states[i].calls[call];
      && c.thread.Some? && c.thread.value in s.hosts && !s.hosts[c.thread.value].running
      && c.value == s.hosts[c.thread.value].value
      && (other != call && s.calls[other].Returned? && s.calls[other].code == 0 ==> s.calls[other].thread != c.thread)
  {
    RunKeepsInv(states, actions, i);
    assert CallOk(states[i], call) && CallOk(states[i], other);
  }

  /** A thread that has not ended still has the record that it will write its result to. */
  lemma RunningThreadHasRecord(states: seq<State>, actions: seq<Action>, i: nat, x: HostId)
    requires IsRun(states, actions) && i < |states| && x in states[i].hosts && states[i].hosts[x].running
    ensures states[i].hosts[x].handle in states[i].records
      && states[i].records[states[i].hosts[x].handle].thread == Some(x)
  {
    RunKeepsInv(states, actions, i);
    assert HostOk(states[i], x);
  }

  /**
   When shutdown returns, every record left is one that was registered, no host thread runs any more, and each has been
   joined or detached successfully exactly once, unless it is one that shutdown itself failed to join.
   */
  lemma AfterShutdown(states: seq<State>, actions: seq<Action>, i: nat)
    requires IsRun(states, actions) && i < |actions| && actions[i] == ShutdownDone
    ensures var s := states[i + 1]; forall h :: h in s.records ==> IsEntry(s.records[h])
    ensures var s := states[i + 1]; forall x :: x in s.hosts ==>
      !s.hosts[x].running && |s.hosts[x].users| == if x in s.lost then 0 else 1
  {
    RunKeepsInv(states, actions, i);
    RunKeepsInv(states, actions, i + 1);
    var s := states[i + 1];
    assert s == Step(states[i], ShutdownDone);
    forall x | x in s.hosts ensures !s.hosts[x].running && |s.hosts[x].users| == if x in s.lost then 0 else 1 {
      assert HostOk(s, x);
    }
  }

  /** No joiner sleeps on a thread that has ended, or once shutdown has begun. */
  lemma NoJoinerSleepsInVain(states: seq<State>, actions: seq<Action>, i: nat, call: CallId)
    requires IsRun(states, actions) && i < |states| && call in states[i].calls && states[i].calls[call].Asleep?
    ensures !states[i].closing
    ensures exists x ::
      x in states[i].hosts && states[i].hosts[x].running && states[i].hosts[x].handle == states[i].calls[call].handle
  {
    RunKeepsInv(states, actions, i);
    var s := states[i];
    assert CallOk(s, call);
    var h := s.calls[call].handle;
    assert RecordOk(s, h);
    assert s.records[h].thread.Some? && s.hosts[s.records[h].thread.value].running;
  }
}
