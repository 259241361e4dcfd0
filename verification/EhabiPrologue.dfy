/**
 A function prologue and the frame descriptor that a compiler writes for it: unwinding undoes the prologue
 (Runtime/Ehabi/agr_ehabi.c, after section 9.3 of IHI 0038).
 */
module EhabiPrologue {
  import opened Prelude
  import opened EhabiSpec

  /**
   The steps of a prologue, one for each way the descriptor can undo it: pushes of core registers by mask or of r4 to
   r[4 + last], pushes of VFP registers (`x`: in the FSTMX layout, `short`: from d8 on), and moves of the stack pointer.
   */
  datatype Instr =
    | Push(mask: Mask)
    | PushRange(last: nat, lr: bool)
    | PushVfp(start: nat, count: nat, x: bool, short: bool)
    | Down(count: nat)
    | DownFar(count: nat)
    | Up(count: nat)

  predicate LowMask(m: Mask) { forall i :: 4 <= i < 16 ==> !m[i] }
  predicate HighMask(m: Mask) { forall i :: 0 <= i < 4 ==> !m[i] }

  /** What the descriptor can express. */
  predicate InstrOk(ins: Instr) {
    match ins
    case Push(mask) => (exists i :: 0 <= i < 16 && mask[i]) && !mask[SP] && (LowMask(mask) || HighMask(mask))
    case PushRange(last, _) => last < 8
    case PushVfp(start, count, x, short) =>
      1 <= count <= 16 && start + count <= 32 && (short ==> start == 8 && count <= 8) && (x ==> start < 16)
    case Down(count) => 1 <= count <= 64
    case DownFar(count) => 129 <= count < 0x4000_0000
    case Up(count) => 1 <= count <= 64
  }

  function CoreMask(ins: Instr): (r: Mask) {
    match ins
    case Push(mask) => mask
    case PushRange(last, lr) => RangeMask(last, lr)
    case _ => seq(16, _ => false)
  }

  /** The values of the registers of a mask, lowest register first. */
  function CoreWords(r: seq<uint32>, mask: Mask, i: nat): (res: seq<uint32>)
    requires |r| == 16 && i <= 16
    decreases 16 - i
  {
    if i == 16 then [] else (if mask[i] then [r[i]] else []) + CoreWords(r, mask, i + 1)
  }

  function VfpPairs(d: seq<uint64>, start: nat, count: nat): (r: seq<uint32>)
    requires |d| == 32 && start + count <= 32
    decreases count
  {
    if count == 0 then []
    else VfpPairs(d, start, count - 1) + [d[start + count - 1] % TWO32, d[start + count - 1] / TWO32]
  }

  /** The words a step stores, lowest address first; FSTMX adds one of no meaning. */
  function Words(ins: Instr, r: seq<uint32>, d: seq<uint64>): (res: seq<uint32>)
    requires |r| == 16 && |d| == 32 && InstrOk(ins)
  {
    match ins
    case PushVfp(start, count, x, _) => VfpPairs(d, start, count) + if x then [0] else []
    case _ => CoreWords(r, CoreMask(ins), 0)
  }

  // ---- The descriptor -------------------------------------------------------------------------

  function BitsValue(bits: seq<bool>): (r: nat) {
    if bits == [] then 0 else (if bits[0] then 1 else 0) + 2 * BitsValue(bits[1..])
  }

  function EncodeUleb(n: nat): (r: seq<byte>) { if n < 128 then [n] else [128 + n % 128] + EncodeUleb(n / 128) }

  lemma {:induction false} BitsBound(bits: seq<bool>)
    ensures BitsValue(bits) < Pow2(|bits|)
  {
    if bits != [] { BitsBound(bits[1..]); }
  }

  lemma SmallPow2()
    ensures Pow2(2) == 4 && Pow2(4) == 16 && Pow2(7) == 128 && Pow2(8) == 256 && Pow2(12) == 4096
      && Pow2(30) == 0x4000_0000
  {
    PowSplit(1);
    PowSplit(2);
    PowSplit(9);
    PowSplit(16);
    PowSplit(23);
  }

  /** The opcode bytes that undo one step. */
  function Encode(ins: Instr): (r: seq<byte>)
    requires InstrOk(ins)
  {
    match ins
    case Push(mask) =>
      if LowMask(mask) then
        BitsBound(mask[..4]); SmallPow2();
        [0xb1, BitsValue(mask[..4])]
      else
        BitsBound(mask[4..]); SmallPow2();
        [0x80 + BitsValue(mask[4..]) / 256, BitsValue(mask[4..]) % 256]
    case PushRange(last, lr) => [0xa0 + last + if lr then 8 else 0]
    case PushVfp(start, count, x, short) =>
      if short then [(if x then 0xb8 else 0xd0) + count - 1]
      else if x then [0xb3, start * 16 + count - 1]
      else if start < 16 then [0xc9, start * 16 + count - 1]
      else [0xc8, (start - 16) * 16 + count - 1]
    case Down(count) => [count - 1]
    case Up(count) => [0x40 + count - 1]
    case DownFar(count) => [0xb2] + EncodeUleb(count - 129)
  }

  function OpOf(ins: Instr): (r: Op) {
    match ins
    case Push(mask) => PopCore(mask)
    case PushRange(last, lr) => PopCore(RangeMask(last, lr))
    case PushVfp(start, count, x, _) => PopVfp(start, count, x)
    case Down(count) => Adjust(4 * count)
    case DownFar(count) => Adjust(4 * count)
    case Up(count) => Adjust(-4 * count)
  }

  lemma {:induction false} NatBitOfBits(bits: seq<bool>, k: nat)
    ensures NatBit(BitsValue(bits), k) <==> k < |bits| && bits[k]
    decreases k, |bits|
  {
    if bits == [] {
      NatBitZero(k);
    } else if k > 0 {
      assert BitsValue(bits) / 2 == BitsValue(bits[1..]);
      NatBitOfBits(bits[1..], k - 1);
    }
  }

  lemma {:induction false} NatBitZero(k: nat)
    ensures !NatBit(0, k)
  {
    if k > 0 { NatBitZero(k - 1); }
  }

  lemma {:induction false} UlebInverse(n: nat, rest: seq<byte>, shift: nat)
    requires shift < 32 && n < Pow2(32 - shift)
    ensures Uleb(EncodeUleb(n) + rest, shift) == Some((n * Pow2(shift), rest))
  {
    var bytes := EncodeUleb(n) + rest;
    if n < 128 {
      assert bytes[1..] == rest;
    } else {
      PowBounds(n, shift);
      UlebInverse(n / 128, rest, shift + 7);
      assert bytes[1..] == EncodeUleb(n / 128) + rest;
      UlebStep(bytes, n, shift, rest);
    }
  }

  lemma UlebStep(bytes: seq<byte>, n: nat, shift: nat, rest: seq<byte>)
    requires bytes != [] && bytes[0] == 128 + n % 128 && shift < 32
    requires Uleb(bytes[1..], shift + 7) == Some((n / 128 * Pow2(shift + 7), rest))
    ensures Uleb(bytes, shift) == Some((n * Pow2(shift), rest))
  {
    PowSplit(shift);
    Regroup(n, Pow2(shift));
    LowSeven(n);
    hide Pow2;
  }

  lemma LowSeven(n: nat)
    ensures (128 + n % 128) % 128 == n % 128
  {
  }

  lemma PowSplit(shift: nat)
    ensures Pow2(shift + 7) == 128 * Pow2(shift)
  {
    assert Pow2(shift + 1) == 2 * Pow2(shift);
    assert Pow2(shift + 2) == 2 * Pow2(shift + 1);
    assert Pow2(shift + 3) == 2 * Pow2(shift + 2);
    assert Pow2(shift + 4) == 2 * Pow2(shift + 3);
    assert Pow2(shift + 5) == 2 * Pow2(shift + 4);
    assert Pow2(shift + 6) == 2 * Pow2(shift + 5);
    assert Pow2(shift + 7) == 2 * Pow2(shift + 6);
  }

  lemma Regroup(n: nat, p: nat)
    ensures n % 128 * p + n / 128 * (128 * p) == n * p
  {
    assert n == n % 128 + 128 * (n / 128);
    assert n * p == (n % 128) * p + (128 * (n / 128)) * p;
  }

  lemma PowBounds(n: nat, shift: nat)
    requires shift < 32 && 128 <= n < Pow2(32 - shift)
    ensures shift + 7 < 32 && n / 128 < Pow2(32 - (shift + 7))
  {
    if shift + 7 >= 32 {
      PowMono(32 - shift, 7);
      SmallPow2();
    } else {
      PowSplit(32 - shift - 7);
    }
  }

  lemma {:induction false} PowMono(a: nat, b: nat)
    requires a <= b
    ensures Pow2(a) <= Pow2(b)
  {
    if a < b { PowMono(a, b - 1); }
  }

  /** Decoding inverts encoding. */
  lemma DecodeEncode(ins: Instr, rest: seq<byte>)
    requires InstrOk(ins)
    ensures Decode(Encode(ins) + rest, false) == (OpOf(ins), rest) && OpOf(ins) != Finish
  {
    match ins
    case Push(mask) => PushDecodes(mask, rest);
    case PushRange(last, lr) =>
      assert (Encode(ins) + rest)[1..] == rest;
    case PushVfp(start, count, x, short) => VfpDecodes(start, count, x, short, rest);
    case Down(count) => assert (Encode(ins) + rest)[1..] == rest;
    case Up(count) => assert (Encode(ins) + rest)[1..] == rest;
    case DownFar(count) => FarDecodes(count, rest);
  }

  lemma VfpDecodes(start: nat, count: nat, x: bool, short: bool, rest: seq<byte>)
    requires InstrOk(PushVfp(start, count, x, short))
    ensures Decode(Encode(PushVfp(start, count, x, short)) + rest, false) == (PopVfp(start, count, x), rest)
  {
    var bytes := Encode(PushVfp(start, count, x, short)) + rest;
    if short {
      assert bytes[1..] == rest;
    } else {
      assert bytes[1..][1..] == rest;
    }
  }

  lemma FarDecodes(count: nat, rest: seq<byte>)
    requires InstrOk(DownFar(count))
    ensures Decode(Encode(DownFar(count)) + rest, false) == (Adjust(4 * count), rest)
  {
    var bytes := Encode(DownFar(count)) + rest;
    SmallPow2();
    UlebInverse(count - 129, rest, 2);
    assert bytes[1..] == EncodeUleb(count - 129) + rest;
    hide Uleb, EncodeUleb, Pow2;
  }

  lemma PushDecodes(mask: Mask, rest: seq<byte>)
    requires InstrOk(Push(mask))
    ensures Decode(Encode(Push(mask)) + rest, false) == (PopCore(mask), rest)
  {
    var bytes := Encode(Push(mask)) + rest;
    assert bytes[1..][1..] == rest;
    if LowMask(mask) {
      var v := BitsValue(mask[..4]);
      BitsBound(mask[..4]);
      SmallPow2();
      forall i | 0 <= i < 16 ensures NatBit(v, i) == mask[i] { NatBitOfBits(mask[..4], i); }
      assert MaskOf(v) == mask;
      assert v != 0 by { if v == 0 { MaskIsEmpty(mask); } }
    } else {
      var v := BitsValue(mask[4..]);
      BitsBound(mask[4..]);
      SmallPow2();
      forall i | 0 <= i < 16 ensures NatBit(v * 16, i) == mask[i] {
        ShiftedBit(v, i);
        if i >= 4 { NatBitOfBits(mask[4..], i - 4); }
      }
      assert MaskOf(v * 16) == mask;
      assert v != 0 by { if v == 0 { MaskIsEmpty(mask); } }
      assert (bytes[0] as int - 0x80) * 256 + bytes[1] as int == v;
    }
  }

  lemma MaskIsEmpty(mask: Mask)
    requires MaskOf(0) == mask
    ensures forall i :: 0 <= i < 16 ==> !mask[i]
  {
    forall i | 0 <= i < 16 ensures !mask[i] {
      NatBitZero(i);
      assert MaskOf(0)[i] == NatBit(0, i);
    }
  }

  lemma ShiftedBit(v: nat, i: nat)
    ensures NatBit(v * 16, i) <==> i >= 4 && NatBit(v, i - 4)
  {
    DoubledBit(v * 8, i);
    if i >= 1 { DoubledBit(v * 4, i - 1); }
    if i >= 2 { DoubledBit(v * 2, i - 2); }
    if i >= 3 { DoubledBit(v, i - 3); }
  }

  lemma DoubledBit(v: nat, i: nat)
    ensures NatBit(v * 2, i) <==> i >= 1 && NatBit(v, i - 1)
  {
  }

  // ---- Executing a prologue -------------------------------------------------------------------

  datatype Machine = Machine(r: seq<uint32>, d: seq<uint64>, words: map<int, uint32>)

  predicate MachineOk(m: Machine) { |m.r| == 16 && |m.d| == 32 }

  /** How many words the stack pointer moves down. */
  function Moved(ins: Instr): (r: int)
    requires InstrOk(ins)
  {
    match ins
    case Push(mask) => Ones(mask, 0)
    case PushRange(last, lr) => Ones(RangeMask(last, lr), 0)
    case PushVfp(_, count, x, _) => VfpWords(count, x)
    case Down(count) => count
    case DownFar(count) => count
    case Up(count) => -(count as int)
  }

  function Ones(mask: Mask, i: nat): (r: nat)
    requires i <= 16
    decreases 16 - i
  {
    if i == 16 then 0 else (if mask[i] then 1 else 0) + Ones(mask, i + 1)
  }

  predicate Pushes(ins: Instr) { ins.Push? || ins.PushRange? || ins.PushVfp? }

  function StoreWords(words: map<int, uint32>, at: uint32, ws: seq<uint32>): (r: map<int, uint32>)
    decreases |ws|
  {
    if ws == [] then words else StoreWords(words[at := ws[0]], Wrap32(at + 4), ws[1..])
  }

  function Exec(ins: Instr, m: Machine): (r: Machine)
    requires InstrOk(ins) && MachineOk(m)
  {
    var sp := Wrap32(m.r[SP] - 4 * Moved(ins));
    Machine(m.r[SP := sp], m.d, StoreWords(m.words, sp, Words(ins, m.r, m.d)))
  }

  function ExecAll(steps: seq<Instr>, m: Machine): (res: Machine)
    requires Sane(steps) && MachineOk(m)
    ensures MachineOk(res)
  {
    if steps == [] then m else Exec(steps[|steps| - 1], ExecAll(steps[..|steps| - 1], m))
  }

  predicate AllOk(steps: seq<Instr>) { forall i :: 0 <= i < |steps| ==> InstrOk(steps[i]) }

  /** How many words below its start the stack pointer ends. */
  function Depth(steps: seq<Instr>): (r: int)
    requires AllOk(steps)
  {
    if steps == [] then 0 else Depth(steps[..|steps| - 1]) + Moved(steps[|steps| - 1])
  }

  /** The deepest saved word. */
  function Floor(steps: seq<Instr>): (r: int)
    requires AllOk(steps)
  {
    if steps == [] then 0 else if Pushes(steps[|steps| - 1]) then Depth(steps) else Floor(steps[..|steps| - 1])
  }

  /**
   Steps the descriptor can express, which never release a saved word and never use more than the whole address space.
   */
  predicate Sane(steps: seq<Instr>) {
    && AllOk(steps)
    && (steps != [] ==> Sane(steps[..|steps| - 1]) && Floor(steps[..|steps| - 1]) <= Depth(steps) <= 0x4000_0000)
  }

  /** The descriptor: the opcodes of the steps, last step first. */
  function Descriptor(steps: seq<Instr>): (r: seq<byte>)
    requires Sane(steps)
  {
    if steps == [] then [] else Encode(steps[|steps| - 1]) + Descriptor(steps[..|steps| - 1])
  }

  /** The word `k` words below `sp`. */
  function Cell(sp: uint32, k: int): (r: uint32) { Wrap32(sp - 4 * k) }

  lemma CellsDiffer(sp: uint32, j: int, k: int)
    requires 0 < j <= 0x4000_0000 && 0 < k <= 0x4000_0000 && j != k
    ensures Cell(sp, j) != Cell(sp, k)
  {
  }

  lemma CellMove(sp: uint32, k: int, n: int)
    ensures Wrap32(Cell(sp, k) + 4 * n) == Cell(sp, k - n)
  {
  }

  lemma {:induction false} StoreAt(words: map<int, uint32>, sp: uint32, depth: int, ws: seq<uint32>)
    requires |ws| <= depth <= 0x4000_0000
    ensures var now := StoreWords(words, Cell(sp, depth), ws);
      && (forall j :: 0 <= j < |ws| ==> Holds(now, sp, depth - j, ws[j]))
      && forall k :: 0 < k <= depth - |ws| ==> SameAt(words, now, sp, k)
    decreases |ws|
  {
    if ws != [] {
      var mid := words[Cell(sp, depth) := ws[0]];
      CellMove(sp, depth, 1);
      StoreAt(mid, sp, depth - 1, ws[1..]);
      var now := StoreWords(words, Cell(sp, depth), ws);
      assert now == StoreWords(mid, Cell(sp, depth - 1), ws[1..]);
      StoreFirst(mid, sp, depth, ws[0], ws[1..]);
      forall j | 0 <= j < |ws| ensures Holds(now, sp, depth - j, ws[j]) {
        if j > 0 { assert Holds(now, sp, depth - 1 - (j - 1), ws[1..][j - 1]); }
      }
      forall k | 0 < k <= depth - |ws| ensures SameAt(words, now, sp, k) {
        assert SameAt(mid, now, sp, k);
        CellsDiffer(sp, k, depth);
      }
    }
  }

  predicate Holds(words: map<int, uint32>, sp: uint32, k: int, value: uint32) {
    Cell(sp, k) in words && words[Cell(sp, k)] == value
  }

  predicate SameAt(words: map<int, uint32>, now: map<int, uint32>, sp: uint32, k: int) {
    Cell(sp, k) in words ==> Cell(sp, k) in now && now[Cell(sp, k)] == words[Cell(sp, k)]
  }

  /** What was stored first stays when the rest is stored above it. */
  lemma {:induction false} StoreFirst(words: map<int, uint32>, sp: uint32, depth: int, value: uint32, ws: seq<uint32>)
    requires |ws| < depth <= 0x4000_0000 && Holds(words, sp, depth, value)
    ensures Holds(StoreWords(words, Cell(sp, depth - 1), ws), sp, depth, value)
  {
    StoreBelow(words, sp, depth, depth - 1, ws);
  }

  lemma {:induction false} StoreBelow(words: map<int, uint32>, sp: uint32, deep: int, depth: int, ws: seq<uint32>)
    requires |ws| <= depth < deep <= 0x4000_0000
    ensures SameAt(words, StoreWords(words, Cell(sp, depth), ws), sp, deep)
    decreases |ws|
  {
    if ws != [] {
      CellsDiffer(sp, deep, depth);
      CellMove(sp, depth, 1);
      StoreBelow(words[Cell(sp, depth) := ws[0]], sp, deep, depth - 1, ws[1..]);
    }
  }

  // ---- What a prologue leaves on the stack ----------------------------------------------------

  lemma {:induction false} CoreWordsCount(r: seq<uint32>, mask: Mask, i: nat)
    requires |r| == 16 && i <= 16
    ensures |CoreWords(r, mask, i)| == Ones(mask, i)
    decreases 16 - i
  {
    if i < 16 { CoreWordsCount(r, mask, i + 1); }
  }

  lemma {:induction false} VfpPairsAt(d: seq<uint64>, start: nat, count: nat)
    requires |d| == 32 && start + count <= 32
    ensures |VfpPairs(d, start, count)| == 2 * count
    ensures forall k :: 0 <= k < count ==> PairIs(d, start, VfpPairs(d, start, count), k)
  {
    if count > 0 {
      VfpPairsAt(d, start, count - 1);
      var n, ws := count - 1, VfpPairs(d, start, count - 1);
      var last := [d[start + n] % TWO32, d[start + n] / TWO32];
      assert VfpPairs(d, start, count) == ws + last;
      hide VfpPairs;
      forall k | 0 <= k < count ensures PairIs(d, start, ws + last, k) {
        if k < n { MorePairs(d, start, ws, last, k); }
      }
    }
  }

  /** The words `2 * k` and `2 * k + 1` are the halves of a register. */
  predicate PairIs(d: seq<uint64>, start: nat, ws: seq<uint32>, k: nat) {
    start + k < |d| && 2 * k + 1 < |ws| && ws[2 * k] == d[start + k] % TWO32 && ws[2 * k + 1] == d[start + k] / TWO32
  }

  lemma MorePairs(d: seq<uint64>, start: nat, ws: seq<uint32>, more: seq<uint32>, k: nat)
    requires PairIs(d, start, ws, k)
    ensures PairIs(d, start, ws + more, k)
  {
    assert (ws + more)[2 * k] == ws[2 * k] && (ws + more)[2 * k + 1] == ws[2 * k + 1];
  }

  lemma WordsCount(ins: Instr, r: seq<uint32>, d: seq<uint64>)
    requires |r| == 16 && |d| == 32 && InstrOk(ins)
    ensures |Words(ins, r, d)| == if Pushes(ins) then Moved(ins) else 0
  {
    match ins
    case Push(mask) => CoreWordsCount(r, mask, 0);
    case PushRange(last, lr) => CoreWordsCount(r, RangeMask(last, lr), 0);
    case PushVfp(start, count, x, _) => VfpPairsAt(d, start, count);
    case _ =>
      CoreWordsCount(r, CoreMask(ins), 0);
      NoOnes(CoreMask(ins), 0);
  }

  lemma {:induction false} NoOnes(mask: Mask, i: nat)
    requires i <= 16 && forall j :: 0 <= j < 16 ==> !mask[j]
    ensures Ones(mask, i) == 0
    decreases 16 - i
  {
    if i < 16 { NoOnes(mask, i + 1); }
  }

  /** Prologues do not save the stack pointer, so moving it changes none of the words to save. */
  lemma {:induction false} CoreWordsSame(r: seq<uint32>, mask: Mask, i: nat, sp: uint32)
    requires |r| == 16 && i <= 16 && !mask[SP]
    ensures CoreWords(r[SP := sp], mask, i) == CoreWords(r, mask, i)
    decreases 16 - i
  {
    if i < 16 { CoreWordsSame(r, mask, i + 1, sp); }
  }

  lemma WordsSame(ins: Instr, r: seq<uint32>, d: seq<uint64>, sp: uint32)
    requires |r| == 16 && |d| == 32 && InstrOk(ins)
    ensures Words(ins, r[SP := sp], d) == Words(ins, r, d)
  {
    if !ins.PushVfp? { CoreWordsSame(r, CoreMask(ins), 0, sp); }
  }

  /** Every word that a step pushed is in its place, with the register's value at the start of the prologue. */
  predicate Saved(words: map<int, uint32>, steps: seq<Instr>, r: seq<uint32>, d: seq<uint64>)
    requires Sane(steps) && |r| == 16 && |d| == 32
  {
    steps == []
    || (Saved(words, steps[..|steps| - 1], r, d) && Stored(words, r[SP], Depth(steps), Words(steps[|steps| - 1], r, d)))
  }

  /** The words `ws` lie upward from `depth` words below `sp`. */
  predicate Stored(words: map<int, uint32>, sp: uint32, depth: int, ws: seq<uint32>) {
    forall j :: 0 <= j < |ws| ==> Holds(words, sp, depth - j, ws[j])
  }

  lemma {:induction false} FloorBounds(steps: seq<Instr>)
    requires Sane(steps)
    ensures 0 <= Floor(steps) <= Depth(steps) <= 0x4000_0000
  {
    if steps != [] { FloorBounds(steps[..|steps| - 1]); }
  }

  /** Only the words down to the floor matter. */
  lemma {:induction false} SavedFrame(words: map<int, uint32>, now: map<int, uint32>, steps: seq<Instr>, r: seq<uint32>,
      d: seq<uint64>)
    requires Sane(steps) && |r| == 16 && |d| == 32 && Saved(words, steps, r, d)
    requires forall k :: 0 < k <= Floor(steps) ==> SameAt(words, now, r[SP], k)
    ensures Saved(now, steps, r, d)
  {
    if steps != [] {
      var n := |steps| - 1;
      FloorBounds(steps[..n]);
      FloorBounds(steps);
      FloorStep(steps);
      SavedFrame(words, now, steps[..n], r, d);
      WordsCount(steps[n], r, d);
      hide Words, Sane, Holds, SameAt;
      StoredFrame(words, now, r[SP], Depth(steps), Words(steps[n], r, d), Floor(steps));
    }
  }

  lemma StoredFrame(words: map<int, uint32>, now: map<int, uint32>, sp: uint32, depth: int, ws: seq<uint32>, floor: int)
    requires Stored(words, sp, depth, ws) && (ws != [] ==> |ws| <= depth <= floor)
    requires forall k :: 0 < k <= floor ==> SameAt(words, now, sp, k)
    ensures Stored(now, sp, depth, ws)
  {
    forall j | 0 <= j < |ws| ensures Holds(now, sp, depth - j, ws[j]) {
      assert SameAt(words, now, sp, depth - j);
    }
  }

  lemma FloorStep(steps: seq<Instr>)
    requires Sane(steps) && steps != []
    ensures Floor(steps[..|steps| - 1]) <= Floor(steps)
    ensures Pushes(steps[|steps| - 1]) ==> Floor(steps) == Depth(steps) && Moved(steps[|steps| - 1]) <= Depth(steps)
  {
    FloorBounds(steps[..|steps| - 1]);
  }

  /** Executing a prologue moves the stack pointer, keeps all other registers and saves what it should. */
  lemma {:induction false} PrologueSaves(steps: seq<Instr>, m: Machine)
    requires Sane(steps) && MachineOk(m)
    ensures var after := ExecAll(steps, m);
      after.r == m.r[SP := Cell(m.r[SP], Depth(steps))] && after.d == m.d && Saved(after.words, steps, m.r, m.d)
  {
    if steps == [] {
      assert m.r[SP := m.r[SP]] == m.r;
    } else {
      var n := |steps| - 1;
      PrologueSaves(steps[..n], m);
      FloorBounds(steps[..n]);
      StepSaves(steps, m, ExecAll(steps[..n], m));
    }
  }

  lemma StepSaves(steps: seq<Instr>, m: Machine, mid: Machine)
    requires steps != [] && Sane(steps) && MachineOk(m) && mid == ExecAll(steps[..|steps| - 1], m)
    requires mid.r == m.r[SP := Cell(m.r[SP], Depth(steps[..|steps| - 1]))] && mid.d == m.d
    requires Saved(mid.words, steps[..|steps| - 1], m.r, m.d)
      && 0 <= Floor(steps[..|steps| - 1]) <= Depth(steps[..|steps| - 1])
    ensures var after := ExecAll(steps, m);
      after.r == m.r[SP := Cell(m.r[SP], Depth(steps))] && after.d == m.d && Saved(after.words, steps, m.r, m.d)
  {
    hide *;
    LastStep(steps, m);
    ExecIs(steps[|steps| - 1], m, mid, Depth(steps[..|steps| - 1]));
    SavedStep(mid.words, steps, m.r, m.d);
  }

  lemma LastStep(steps: seq<Instr>, m: Machine)
    requires steps != [] && Sane(steps) && MachineOk(m)
    ensures var n := |steps| - 1;
      && AllOk(steps) && AllOk(steps[..n]) && InstrOk(steps[n]) && |m.r| == 16 && |m.d| == 32
      && Depth(steps) == Depth(steps[..n]) + Moved(steps[n])
        && ExecAll(steps, m) == Exec(steps[n], ExecAll(steps[..n], m))
  {
  }

  lemma SavedStep(words: map<int, uint32>, steps: seq<Instr>, r: seq<uint32>, d: seq<uint64>)
    requires Sane(steps) && steps != [] && |r| == 16 && |d| == 32 && Saved(words, steps[..|steps| - 1], r, d)
    ensures Saved(StoreWords(words, Cell(r[SP], Depth(steps)), Words(steps[|steps| - 1], r, d)), steps, r, d)
  {
    var n := |steps| - 1;
    var ws := Words(steps[n], r, d);
    SaneStep(steps);
    FloorStep(steps);
    WordsCount(steps[n], r, d);
    hide Words, Cell, StoreWords, Stored, SameAt, Sane, Floor, Depth, Moved;
    StoredOnTop(words, r[SP], Depth(steps), ws, Floor(steps[..n]));
    SavedFrame(words, StoreWords(words, Cell(r[SP], Depth(steps)), ws), steps[..n], r, d);
  }

  lemma SaneStep(steps: seq<Instr>)
    requires Sane(steps) && steps != []
    ensures Sane(steps[..|steps| - 1]) && Depth(steps) == Depth(steps[..|steps| - 1]) + Moved(steps[|steps| - 1])
      && Depth(steps) <= 0x4000_0000
    ensures Floor(steps[..|steps| - 1]) <= Depth(steps[..|steps| - 1])
  {
    FloorBounds(steps[..|steps| - 1]);
  }

  lemma ExecIs(ins: Instr, m: Machine, mid: Machine, k: int)
    requires InstrOk(ins) && MachineOk(m) && mid.r == m.r[SP := Cell(m.r[SP], k)] && mid.d == m.d
    ensures var sp := Cell(m.r[SP], k + Moved(ins));
      Exec(ins, mid) == Machine(m.r[SP := sp], m.d, StoreWords(mid.words, sp, Words(ins, m.r, m.d)))
  {
    hide Words, Moved, StoreWords, Cell, Wrap32;
    CellMove(m.r[SP], k, -Moved(ins));
    WordsSame(ins, m.r, m.d, Cell(m.r[SP], k));
    var sp := Cell(m.r[SP], k + Moved(ins));
    assert Wrap32(mid.r[SP] - 4 * Moved(ins)) == sp;
    assert mid.r[SP := sp] == m.r[SP := sp];
  }

  /** Storing on top of the saved words. */
  lemma StoredOnTop(words: map<int, uint32>, sp: uint32, depth: int, ws: seq<uint32>, floor: int)
    requires ws != [] ==> |ws| <= depth <= 0x4000_0000 && floor <= depth - |ws|
    ensures var now := StoreWords(words, Cell(sp, depth), ws);
      Stored(now, sp, depth, ws) && forall k :: 0 < k <= floor ==> SameAt(words, now, sp, k)
  {
    if ws != [] { StoreAt(words, sp, depth, ws); }
  }
}
