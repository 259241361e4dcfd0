/**
 Condition variables (Runtime/Bionic/agr_bionic_sync.cpp:225-271): the word counts pulses above its shared bit, so that
 a waiter that read it before a pulse does not fall asleep after it.
 */
module CondPulse {
  import opened Prelude
  import opened Futex

  const PULSES := 0x8000_0000

  /** The word after one successful compare-and-swap of pulse: `((old - 2) & ~1) | (old & 1)`. */
  function Pulse(word: uint32): (r: uint32) { Wrap32(word - 2) / 2 * 2 + word % 2 }

  function PulseTimes(word: uint32, n: nat): (r: uint32) { if n == 0 then word else Pulse(PulseTimes(word, n - 1)) }

  /** A pulse lowers the upper 31 bits by one, modulo their range, and keeps the shared bit. */
  lemma {:induction false} PulseCounts(word: uint32, n: nat)
    ensures PulseTimes(word, n) % 2 == word % 2
    ensures PulseTimes(word, n) / 2 == (word / 2 - n) % PULSES
  {
    if n > 0 {
      PulseCounts(word, n - 1);
      assert PulseTimes(word, n) == Pulse(PulseTimes(word, n - 1));
      hide Pulse, PulseTimes;
      PulseOnce(PulseTimes(word, n - 1));
      ModStep(word / 2, n);
    }
  }

  lemma PulseOnce(word: uint32)
    ensures Pulse(word) % 2 == word % 2 && Pulse(word) / 2 == (word / 2 - 1) % PULSES
  {
  }

  lemma ModStep(h: int, n: nat)
    requires n > 0
    ensures ((h - (n - 1)) % PULSES - 1) % PULSES == (h - n) % PULSES
  {
  }

  /** The word is back at what a waiter read exactly after a multiple of 2^31 pulses. */
  lemma SameWordIff(word: uint32, n: nat)
    ensures PulseTimes(word, n) == word <==> n % PULSES == 0
  {
    PulseCounts(word, n);
    var h := word / 2;
    assert word == h * 2 + word % 2 && 0 <= h < PULSES;
    BackIff(h, n);
  }

  lemma BackIff(h: nat, n: nat)
    requires h < PULSES
    ensures (h - n) % PULSES == h <==> n % PULSES == 0
  {
    var q, rem := n / PULSES, n % PULSES;
    assert n == q * PULSES + rem;
    if rem <= h {
      assert h - n == -q * PULSES + (h - rem);
    } else {
      assert h - n == (-q - 1) * PULSES + (h - rem + PULSES);
    }
  }

  /**
   cond_wait reads the word, releases the mutex and then asks the futex to sleep on what it read. If `n` pulses came in
   between, it is refused and the caller returns, unless they are a multiple of 2^31: only then can it fall asleep.
   */
  lemma PulsedWaiterIsRefused(h: Host, address: nat, word: uint32, n: nat, timeout: nat)
    requires AddressOk(address) && !h.closing && timeout != 0
    ensures EnterResult(h, address, word, Some(PulseTimes(word, n)), timeout) ==
      if n % PULSES == 0 then Parked else Refused(-EAGAIN)
  {
    SameWordIff(word, n);
  }

  /** A broadcast leaves a token for every thread asleep at that moment; a signal for one, if any lacks one. */
  lemma BroadcastWakesSleepers(h: Host, address: nat)
    requires Sound(h) && Waiters(h, address) <= WAKE_ALL
    ensures Pending(Wake(h, address, WAKE_ALL), address) == Waiters(h, address)
    ensures Pending(Wake(h, address, 1), address) ==
      Pending(h, address) + if Pending(h, address) < Waiters(h, address) then 1 else 0
  {
    WakeEffect(h, address, WAKE_ALL);
    WakeEffect(h, address, 1);
  }
}
