/**
 What the ARM EHABI unwinder computes (Runtime/Ehabi/agr_ehabi.c): the meaning of a frame descriptor's
 bytes, after the frame unwinding instructions of the ARM exception handling ABI (IHI 0038, section 9.3).
 */
module EhabiSpec {
  import opened Prelude

  type byte = b: int | 0 <= b < 256
  type reg = i: int | 0 <= i < 16

  const SP := 13
  const LR := 14
  const PC := 15

  /** Guest words by address, and the bounds of the stack; size 0 means unknown. */
  datatype Env = Env(words: map<int, uint32>, stackBase: uint32, stackSize: uint32)

  datatype Regs = Regs(r: seq<uint32>, d: seq<uint64>, thumb: bool)

  predicate RegsOk(st: Regs) { |st.r| == 16 && |st.d| == 32 }

  datatype Stop = Failure | Unsupported | Diverges

  datatype Result = Done(st: Regs) | Stopped(stop: Stop)

  /** stack_ok for one word. */
  predicate StackOk(env: Env, address: uint32) {
    env.stackSize == 0
    || (address >= env.stackBase && address <= Wrap32(env.stackBase + env.stackSize)
      && 4 <= Wrap32(env.stackBase + env.stackSize) - address)
  }

  /** A word the unwinder may pop. */
  predicate CanPop(env: Env, address: uint32) { StackOk(env, address) && address in env.words }

  // ---- Instructions ---------------------------------------------------------------------------

  /** A register mask: one flag for each of r0 to r15. */
  type Mask = m: seq<bool> | |m| == 16 witness seq(16, _ => false)

  datatype Op =
    | Finish
    | Adjust(delta: int)
    | PopCore(mask: Mask)
    | SetVsp(from: reg)
    | PopVfp(start: nat, count: nat, x: bool)
    | Bad(stop: Stop)

  predicate NatBit(n: nat, k: nat) { if k == 0 then n % 2 == 1 else NatBit(n / 2, k - 1) }

  /** The registers of an integer mask, bit i for ri. */
  function MaskOf(bits: nat): (r: Mask) { seq(16, i requires 0 <= i < 16 => NatBit(bits, i)) }

  /** r4 to r[4 + last], and lr if asked. */
  function RangeMask(last: nat, lr: bool): (r: Mask) {
    seq(16, i requires 0 <= i < 16 => 4 <= i <= 4 + last || (lr && i == LR))
  }

  /**
   One ULEB128 number from `shift` on, and what follows it. A shift of 32 or more, undefined in C, adds nothing here.
   */
  function Uleb(bytes: seq<byte>, shift: nat): (r: Option<(int, seq<byte>)>) {
    if bytes == [] then None
    else
      var part := ShiftLeft(bytes[0] % 128, shift);
      if bytes[0] < 128 then Some((part, bytes[1..]))
      else
        match Uleb(bytes[1..], shift + 7)
        case None => None
        case Some(more) => Some((part + more.0, more.1))
  }

  function Pow2(n: nat): (p: nat)
    ensures p > 0
  {
    if n == 0 then 1 else 2 * Pow2(n - 1)
  }

  function ShiftLeft(x: nat, shift: nat): (r: nat) { if shift >= 32 then 0 else x * Pow2(shift) }

  /**
   The first instruction of `bytes` and the bytes after it. Past the end come 0xb0 bytes without end, or,
   if `broken`, a word of the descriptor that cannot be read.
   */
  function Decode(bytes: seq<byte>, broken: bool): (r: (Op, seq<byte>)) {
    if bytes == [] then (if broken then Bad(Failure) else Finish, [])
    else
      var op, rest := bytes[0], bytes[1..];
      if op == 0xb0 then (Finish, rest)
      else if op < 0x40 then (Adjust(op * 4 + 4), rest)
      else if op < 0x80 then (Adjust(-((op - 0x40) * 4 + 4)), rest)
      else if op < 0x90 then
        if rest == [] && broken then (Bad(Failure), [])
        else
          var next := Second(rest);
          if op == 0x80 && next == 0 then (Bad(Failure), Tail(rest))
          else (PopCore(MaskOf(((op - 0x80) * 256 + next) * 16)), Tail(rest))
      else if op < 0xa0 then
        if op == 0x9d || op == 0x9f then (Bad(Unsupported), rest) else (SetVsp(op - 0x90), rest)
      else if op < 0xb0 then (PopCore(RangeMask(op % 8, op >= 0xa8)), rest)
      else if op < 0xc0 then DecodeB(op, rest, broken)
      else if op == 0xc8 || op == 0xc9 then
        if rest == [] && broken then (Bad(Failure), [])
        else (PopVfp(Second(rest) / 16 + if op == 0xc8 then 16 else 0, Second(rest) % 16 + 1, false), Tail(rest))
      else if 0xd0 <= op < 0xd8 then (PopVfp(8, op % 8 + 1, false), rest)
      else (Bad(Unsupported), rest)
  }

  function DecodeB(op: byte, rest: seq<byte>, broken: bool): (r: (Op, seq<byte>))
    requires 0xb1 <= op < 0xc0
  {
    if op == 0xb1 then
      if (rest == [] && broken) || Second(rest) == 0 || Second(rest) >= 16 then (Bad(Unsupported), Tail(rest))
      else (PopCore(MaskOf(Second(rest))), Tail(rest))
    else if op == 0xb2 then
      match Uleb(rest, 2)
      case None => (Bad(if broken then Failure else Diverges), [])
      case Some(n) => (Adjust(n.0 + 0x204), n.1)
    else if op == 0xb3 then
      if rest == [] && broken then (Bad(Failure), [])
        else (PopVfp(Second(rest) / 16, Second(rest) % 16 + 1, true), Tail(rest))
    else if op < 0xb8 then (Bad(Unsupported), rest)
    else (PopVfp(8, op % 8 + 1, true), rest)
  }

  function Second(rest: seq<byte>): (r: byte) { if rest == [] then 0xb0 else rest[0] }
  function Tail(rest: seq<byte>): (r: seq<byte>) { if rest == [] then [] else rest[1..] }

  // ---- Effects --------------------------------------------------------------------------------

  /** pop_core from register `i` on: the loaded registers and the final pointer. */
  function LoadCore(env: Env, r: seq<uint32>, mask: Mask, i: nat, ptr: uint32): (l: Option<(seq<uint32>, uint32)>)
    requires |r| == 16 && i <= 16
    ensures l.Some? ==> |l.value.0| == 16
    decreases 16 - i
  {
    if i == 16 then Some((r, ptr))
    else if !mask[i] then LoadCore(env, r, mask, i + 1, ptr)
    else if !CanPop(env, ptr) then None
    else LoadCore(env, r[i := env.words[ptr]], mask, i + 1, Wrap32(ptr + 4))
  }

  function LoadWords(env: Env, ptr: uint32, n: nat): (l: Option<seq<uint32>>)
    ensures l.Some? ==> |l.value| == n
    decreases n
  {
    if n == 0 then Some([])
    else if !CanPop(env, ptr) then None
    else
      match LoadWords(env, Wrap32(ptr + 4), n - 1)
      case None => None
      case Some(ws) => Some([env.words[ptr]] + ws)
  }

  function Pair(lo: uint32, hi: uint32): (r: uint64) { hi * TWO32 + lo }

  /** VFP register `i` after start to start + count took the word pairs. */
  function VfpAt(d: seq<uint64>, start: nat, count: nat, ws: seq<uint32>, i: nat): (r: uint64)
    requires |d| == 32 && start + count <= 32 && 2 * count <= |ws| && i < 32
  {
    if start <= i < start + count then Pair(ws[2 * (i - start)], ws[2 * (i - start) + 1]) else d[i]
  }

  function SetVfp(d: seq<uint64>, start: nat, count: nat, ws: seq<uint32>): (d': seq<uint64>)
    requires |d| == 32 && start + count <= 32 && 2 * count <= |ws|
    ensures |d'| == 32
  {
    seq(32, i requires 0 <= i < 32 => VfpAt(d, start, count, ws, i))
  }

  function VfpWords(count: nat, x: bool): (r: nat) { 2 * count + if x then 1 else 0 }

  /** One instruction other than Finish. */
  function Apply(env: Env, st: Regs, op: Op): (res: Result)
    requires RegsOk(st)
    ensures res.Done? ==> RegsOk(res.st)
  {
    match op
    case Finish => Done(st)
    case Adjust(delta) => Done(st.(r := st.r[SP := Wrap32(st.r[SP] + delta)]))
    case SetVsp(from) => Done(st.(r := st.r[SP := st.r[from]]))
    case PopCore(mask) =>
      (match LoadCore(env, st.r, mask, 0, st.r[SP])
       case None => Stopped(Failure)
       case Some(l) => Done(st.(r := if mask[SP] then l.0 else l.0[SP := l.1])))
    case PopVfp(start, count, x) =>
      if start + count > 32 then Stopped(Failure)
      else
        (match LoadWords(env, st.r[SP], VfpWords(count, x))
         case None => Stopped(Failure)
         case Some(ws) => Done(st.(r := st.r[SP := Wrap32(st.r[SP] + 4 * VfpWords(count, x))],
           d := SetVfp(st.d, start, count, ws))))
    case Bad(stop) => Stopped(stop)
  }

  predicate SetsPc(op: Op) { op.PopCore? && op.mask[PC] }

  /** At the end the pc is the one popped, or else the lr; its lowest bit selects Thumb. */
  function Finished(st: Regs, setPc: bool): (r: Regs)
    requires RegsOk(st)
  {
    var r := if setPc then st.r else st.r[PC := st.r[LR]];
    st.(r := r, thumb := r[PC] % 2 == 1)
  }

  /** The meaning of a descriptor. */
  function Run(env: Env, st: Regs, setPc: bool, bytes: seq<byte>, broken: bool): (res: Result)
    requires RegsOk(st)
    ensures res.Done? ==> RegsOk(res.st)
    decreases |bytes|
  {
    var (op, rest) := Decode(bytes, broken);
    if op.Finish? then Done(Finished(st, setPc))
    else
      match Apply(env, st, op)
      case Stopped(stop) => Stopped(stop)
      case Done(next) => if |rest| < |bytes| then Run(env, next, setPc || SetsPc(op), rest, broken)
        else Stopped(Failure)
  }

  // ---- Properties of decoding -----------------------------------------------------------------

  lemma {:induction false} UlebShorter(bytes: seq<byte>, shift: nat)
    ensures Uleb(bytes, shift).Some? ==> |Uleb(bytes, shift).value.1| < |bytes|
  {
    if bytes != [] { UlebShorter(bytes[1..], shift + 7); }
  }

  /** An instruction always takes at least one byte, so execution ends with the descriptor. */
  lemma DecodeShorter(bytes: seq<byte>, broken: bool)
    requires bytes != []
    ensures |Decode(bytes, broken).1| < |bytes|
  {
    UlebShorter(bytes[1..], 2);
  }

  /** Opcode 0xb2 runs on for ever exactly if no byte that follows it in the descriptor ends the number. */
  lemma {:induction false} UlebEndsIff(bytes: seq<byte>, shift: nat)
    ensures Uleb(bytes, shift).None? <==> forall i :: 0 <= i < |bytes| ==> bytes[i] >= 128
  {
    if bytes != [] {
      UlebEndsIff(bytes[1..], shift + 7);
      assert forall i :: 0 <= i < |bytes[1..]| ==> bytes[1..][i] == bytes[i + 1];
      if Uleb(bytes, shift).None? {
        assert bytes[0] >= 128;
        forall i | 0 <= i < |bytes| ensures bytes[i] >= 128 {
          if i > 0 { assert bytes[i] == bytes[1..][i - 1]; }
        }
      }
    }
  }
}
