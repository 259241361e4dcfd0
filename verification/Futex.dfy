/**
 The wait/wake host behind every bionic lock (Runtime/Bionic/agr_futex_host.cpp).

 A blocked call to `wait` spans two critical sections of the host lock: one that checks the
 guest word and enqueues, one that dequeues once the wait predicate holds. Each section is one
 atomic step here. The specification functions act on the value `Host`; class `FutexHost` is the
 object that the source updates in place.
 */
module Futex {
  import opened Prelude

  const FOREVER: nat := 0xFFFF_FFFF_FFFF_FFFF
  const WAKE_ALL: nat := 0x7FFF_FFFF

  datatype Queue = Queue(waiters: nat, pending: nat)
  datatype Host = Host(queues: map<nat, Queue>, closing: bool)

  const NewHost := Host(map[], false)

  function Waiters(h: Host, address: nat): (r: nat) {
    if address in h.queues then h.queues[address].waiters else 0
  }

  function Pending(h: Host, address: nat): (r: nat) {
    if address in h.queues then h.queues[address].pending else 0
  }

  predicate AddressOk(address: nat) {
    address != 0 && address % 4 == 0
  }

  /** How the first critical section of a wait ends: asleep, or refused with a negative code. */
  datatype Entry = Parked | Refused(code: int)

  function EnterResult(h: Host, address: nat, expected: nat, actual: Option<nat>, timeout: nat): (r: Entry) {
    if !AddressOk(address) then Refused(-EINVAL)
    else if h.closing then Refused(-ECANCELED)
    else if actual.None? then Refused(-EFAULT)
    else if actual.value != expected then Refused(-EAGAIN)
    else if timeout == 0 then Refused(-ETIMEDOUT)
    else Parked
  }

  function Enter(h: Host, address: nat): (h': Host)
    ensures h'.closing == h.closing && h'.queues.Keys == h.queues.Keys + {address}
    ensures forall b :: Waiters(h', b) == Waiters(h, b) + (if b == address then 1 else 0)
    ensures forall b :: Pending(h', b) == Pending(h, b)
  {
    h.(queues := h.queues[address := Queue(Waiters(h, address) + 1, Pending(h, address))])
  }

  /** The condition variable's predicate: a token is available or the host is closing. */
  predicate Ready(h: Host, address: nat) {
    Pending(h, address) != 0 || h.closing
  }

  function LeaveResult(h: Host, address: nat, awoken: bool): (r: int) {
    if h.closing then -ECANCELED else if awoken then 0 else -ETIMEDOUT
  }

  /** Take a token if the wait was satisfied and one is there; stop being a waiter; drop an empty queue. */
  function Leave(h: Host, address: nat, awoken: bool): (r: Host) {
    var pending := Pending(h, address) - (if awoken && Pending(h, address) != 0 then 1 else 0);
    var waiters := Wrap32(Waiters(h, address) - 1);
    h.(queues := if waiters == 0 then h.queues - {address} else h.queues[address := Queue(waiters, pending)])
  }

  /** `min(maximum, waiters - pending)` in unsigned arithmetic. */
  function WakeCount(h: Host, address: nat, maximum: nat): (r: nat) {
    if maximum == 0 || address !in h.queues then 0
    else
      var idle := Wrap32(Waiters(h, address) - Pending(h, address));
      if maximum < idle then maximum else idle
  }

  function Wake(h: Host, address: nat, maximum: nat): (r: Host) {
    if address !in h.queues then h
    else
      var q := h.queues[address];
      h.(queues := h.queues[address := Queue(q.waiters, q.pending + WakeCount(h, address, maximum))])
  }

  function CancelAll(h: Host): (r: Host) {
    h.(closing := true)
  }

  /** No queue has more published tokens than sleepers, and an empty queue is not kept. */
  ghost predicate Sound(h: Host) {
    forall a :: a in h.queues ==> AddressOk(a) && 0 < h.queues[a].waiters && h.queues[a].pending <= h.queues[a].waiters
  }

  lemma EnterEffect(h: Host, address: nat)
    requires Sound(h) && AddressOk(address)
    ensures Sound(Enter(h, address))
  {
  }

  lemma LeaveEffect(h: Host, address: nat, awoken: bool)
    requires Sound(h) && address in h.queues && (!awoken ==> Pending(h, address) == 0)
    requires Waiters(h, address) < TWO32
    ensures var h' := Leave(h, address, awoken);
      && Sound(h') && h'.closing == h.closing
      && (forall b :: Waiters(h', b) == Waiters(h, b) - (if b == address then 1 else 0))
      && (forall b :: Pending(h', b) == Pending(h, b) - (if b == address && Pending(h, b) != 0 then 1 else 0))
  {
  }

  lemma WakeEffect(h: Host, address: nat, maximum: nat)
    requires Sound(h) && Waiters(h, address) < TWO32
    ensures var h' := Wake(h, address, maximum);
      && Sound(h') && h'.closing == h.closing && h'.queues.Keys == h.queues.Keys
      && (forall b :: Waiters(h', b) == Waiters(h, b))
      && (forall b :: Pending(h', b) == Pending(h, b) + (if b == address then WakeCount(h, b, maximum) else 0))
      && (maximum > 0 && Waiters(h, address) > 0 ==> Pending(h', address) > 0)
      && (maximum >= Waiters(h, address) ==> Pending(h', address) == Waiters(h', address))
  {
  }

  class FutexHost {
    var queues: map<nat, Queue>
    var closing: bool

    ghost function View(): (r: Host)
      reads this
    {
      Host(queues, closing)
    }

    constructor ()
      ensures View() == NewHost
    {
      queues := map[];
      closing := false;
    }

    /** Up to and including `++q->waiters`. */
    method BeginWait(address: nat, expected: nat, actual: Option<nat>, timeout: nat) returns (entry: Entry)
      modifies this
      ensures entry == EnterResult(old(View()), address, expected, actual, timeout)
      ensures View() == if entry.Parked? then Enter(old(View()), address) else old(View())
    {
      if address == 0 || address % 4 != 0 { return Refused(-EINVAL); }
      if closing { return Refused(-ECANCELED); }
      match actual {
        case None => return Refused(-EFAULT);
        case Some(word) => if word != expected { return Refused(-EAGAIN); }
      }
      if timeout == 0 { return Refused(-ETIMEDOUT); }
      if address !in queues { queues := queues[address := Queue(0, 0)]; }
      var q := queues[address];
      queues := queues[address := q.(waiters := q.waiters + 1)];
      entry := Parked;
    }

    /** From the return of the condition variable to the end of the call. */
    method EndWait(address: nat, awoken: bool) returns (code: int)
      requires Sound(View()) && address in queues && queues[address].waiters < TWO32
      requires awoken == Ready(View(), address)
      modifies this
      ensures Sound(View())
      ensures code == LeaveResult(old(View()), address, awoken)
      ensures View() == Leave(old(View()), address, awoken)
    {
      var q := queues[address];
      if awoken && q.pending != 0 { q := q.(pending := q.pending - 1); }
      q := q.(waiters := q.waiters - 1);
      if q.waiters == 0 {
        queues := queues - {address};
      } else {
        queues := queues[address := q];
      }
      if closing { return -ECANCELED; }
      code := if awoken then 0 else -ETIMEDOUT;
    }

    method WakeUp(address: nat, maximum: nat) returns (count: int)
      requires Sound(View()) && Waiters(View(), address) < TWO32
      modifies this
      ensures Sound(View())
      ensures !AddressOk(address) ==> count == -EINVAL && View() == old(View())
      ensures AddressOk(address) ==> count == WakeCount(old(View()), address, maximum)
      ensures AddressOk(address) ==> View() == Wake(old(View()), address, maximum)
    {
      if address == 0 || address % 4 != 0 { return -EINVAL; }
      if maximum == 0 {
        assert Wake(View(), address, 0).queues == queues;
        return 0;
      }
      if address !in queues { return 0; }
      var q := queues[address];
      count := if maximum < q.waiters - q.pending then maximum else q.waiters - q.pending;
      queues := queues[address := q.(pending := q.pending + count)];
    }

    method Cancel()
      modifies this
      ensures View() == CancelAll(old(View()))
    {
      closing := true;
    }
  }
}
