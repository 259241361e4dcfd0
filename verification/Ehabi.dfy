/** The unwinder as it runs: a byte stream and a register array changed in place (Runtime/Ehabi/agr_ehabi.c). */
module Ehabi {
  import opened Prelude
  import opened EhabiSpec
  import opened EhabiPrologue

  // ---- The byte stream --------------------------------------------------------------------------

  /** The top `n` bytes of a word, highest first. */
  function TopBytes(data: uint32, n: nat): (bytes: seq<byte>)
    ensures |bytes| == n
    decreases n
  {
    if n == 0 then [] else [data / 0x100_0000] + TopBytes(data * 0x100 % TWO32, n - 1)
  }

  /** The bytes of `n` words from `next` on, and whether one of them cannot be read. */
  function WordBytes(env: Env, next: uint32, n: nat): (r: (seq<byte>, bool))
    decreases n
  {
    if n == 0 then ([], false)
    else if next !in env.words then ([], true)
    else
      var more := WordBytes(env, Wrap32(next + 4), n - 1);
      (TopBytes(env.words[next], 4) + more.0, more.1)
  }

  /** The integer mask of opcode 0xa0 + n: `(0xff0 >> (7 - n)) & 0xff0`, and bit 14. */
  function RangeBits(last: nat, lr: bool): (r: nat)
    requires last < 8
  {
    ShiftRight(0xff0, 7 - last) / 16 * 16 + if lr then 0x4000 else 0
  }

  function ShiftRight(x: nat, n: nat): (r: nat) { if n == 0 then x else ShiftRight(x / 2, n - 1) }

  lemma RangeBitsMask(last: nat, lr: bool)
    requires last < 8
    ensures MaskOf(RangeBits(last, lr)) == RangeMask(last, lr)
  {
    RangeValue(last, lr);
    hide RangeBits, NatBit;
    forall i | 0 <= i < 16 ensures NatBit(RangeBits(last, lr), i) == RangeMask(last, lr)[i] {
      var ones := Pow2(last + 1) - 1;
      ShiftedBit(ones + if lr then 0x400 else 0, i);
      if i >= 4 {
        OnesBit(last + 1, i - 4);
        PowMono(last + 1, 10);
        if lr { AddBit(ones, 10, i - 4); }
      }
    }
  }

  lemma RangeValue(last: nat, lr: bool)
    requires last < 8
    ensures RangeBits(last, lr) == (Pow2(last + 1) - 1 + if lr then 0x400 else 0) * 16 && Pow2(10) == 0x400
  {
    assert Pow2(0) == 1 && Pow2(1) == 2 && Pow2(2) == 4 && Pow2(3) == 8 && Pow2(4) == 16;
    assert Pow2(5) == 32 && Pow2(6) == 64 && Pow2(7) == 128 && Pow2(8) == 256 && Pow2(9) == 512 && Pow2(10) == 1024;
    assert ShiftRight(0xff0, 0) == 0xff0 && ShiftRight(0xff0, 1) == 0x7f8 && ShiftRight(0xff0, 2) == 0x3fc
      && ShiftRight(0xff0, 3) == 0x1fe;
    assert ShiftRight(0xff0, 4) == 0xff && ShiftRight(0xff0, 5) == 0x7f && ShiftRight(0xff0, 6) == 0x3f
      && ShiftRight(0xff0, 7) == 0x1f;
    assert last == 0 || last == 1 || last == 2 || last == 3 || last == 4 || last == 5 || last == 6 || last == 7;
  }

  lemma {:induction false} OnesBit(n: nat, i: nat)
    ensures Pow2(n) >= 1 && (NatBit(Pow2(n) - 1, i) <==> i < n)
    decreases n, i
  {
    if n == 0 {
      NatBitZero(i);
    } else {
      OnesBit(n - 1, if i == 0 then 0 else i - 1);
      assert (Pow2(n) - 1) / 2 == Pow2(n - 1) - 1 && (Pow2(n) - 1) % 2 == 1;
    }
  }

  lemma {:induction false} AddBit(a: nat, k: nat, i: nat)
    requires a < Pow2(k)
    ensures NatBit(a + Pow2(k), i) <==> NatBit(a, i) || i == k
    decreases k, i
  {
    if k == 0 {
      assert a == 0;
      NatBitZero(i);
      if i > 0 { NatBitZero(i - 1); }
    } else {
      assert (a + Pow2(k)) / 2 == a / 2 + Pow2(k - 1) && (a + Pow2(k)) % 2 == a % 2;
      if i > 0 { AddBit(a / 2, k - 1, i - 1); }
    }
  }

  datatype StepResult = Ended | Going(setsPc: bool) | Halted(stop: Stop)

  class Unwinder {
    const env: Env
    const r: array<uint32>
    const d: array<uint64>
    var thumb: bool
    // unwind_state
    var data: uint32
    var next: uint32
    var bytesLeft: nat
    var wordsLeft: nat

    predicate Shape()
      reads this
    {
      r.Length == 16 && d.Length == 32
    }

    function St(): (res: Regs)
      reads this, r, d
    {
      Regs(r[..], d[..], thumb)
    }

    /** The descriptor bytes still to come. */
    function Bytes(): (res: seq<byte>)
      reads this
    {
      TopBytes(data, bytesLeft) + WordBytes(env, next, wordsLeft).0
    }

    /** Whether they end at a word that cannot be read. */
    predicate Broken()
      reads this
    {
      WordBytes(env, next, wordsLeft).1
    }

    /** agr_ehabi_context_init, and the unwind_state that unwind_step makes of the first descriptor word. */
    constructor (env: Env, regs: seq<uint32>, vfp: seq<uint64>, eht: uint32, header: uint32)
      requires |regs| == 16 && |vfp| == 32
      ensures Shape() && fresh(r) && fresh(d) && r[..] == regs && d[..] == vfp && this.env == env && !thumb
      ensures bytesLeft == (if Personality(header) == 0 then 3 else 2)
      ensures Bytes() == FirstBytes(header) + WordBytes(env, Wrap32(eht + 4), MoreWords(header)).0
      ensures Broken() == WordBytes(env, Wrap32(eht + 4), MoreWords(header)).1
    {
      this.env := env;
      r := new uint32[16](i requires 0 <= i < 16 => regs[i]);
      d := new uint64[32](i requires 0 <= i < 32 => vfp[i]);
      thumb := false;
      next := Wrap32(eht + 4);
      if Personality(header) == 0 {
        data := header * 0x100 % TWO32;
        wordsLeft := 0;
        bytesLeft := 3;
      } else {
        wordsLeft := header / 0x1_0000 % 0x100;
        data := header * 0x1_0000 % TWO32;
        bytesLeft := 2;
      }
      new;
      HeaderBytes(header);
    }

    /** next_unwind_byte. */
    method NextByte() returns (b: byte, failed: bool)
      modifies this`data, this`next, this`bytesLeft, this`wordsLeft
      ensures old(Bytes()) != [] ==>
        !failed && b == old(Bytes())[0] && Bytes() == old(Bytes())[1..] && Broken() == old(Broken())
      ensures old(Bytes()) == [] ==> b == 0xb0 && failed == old(Broken())
      ensures old(Bytes()) == [] && !old(Broken()) ==> Bytes() == [] && !Broken()
    {
      failed := false;
      if bytesLeft == 0 {
        if wordsLeft == 0 { return 0xb0, false; }
        wordsLeft := wordsLeft - 1;
        if next !in env.words { return 0xb0, true; }
        data := env.words[next];
        next := Wrap32(next + 4);
        bytesLeft := 3;
      } else {
        bytesLeft := bytesLeft - 1;
      }
      b := data / 0x100_0000;
      data := data * 0x100 % TWO32;
    }

    /** pop_core. */
    method PopCore(mask: nat) returns (ok: bool)
      requires Shape()
      modifies r
      ensures var res := Apply(env, old(St()), Op.PopCore(MaskOf(mask)));
        (ok <==> res.Done?) && (ok ==> St() == res.st)
    {
      ghost var before, m := r[..], MaskOf(mask);
      var ptr: uint32 := r[SP];
      var i := 0;
      while i < 16
        invariant 0 <= i <= 16
        invariant LoadCore(env, before, m, 0, before[SP]) == LoadCore(env, r[..], m, i, ptr)
      {
        if NatBit(mask, i) {
          if !StackOk(env, ptr) || ptr !in env.words { return false; }
          ghost var was := r[..];
          r[i] := env.words[ptr];
          assert r[..] == was[i := env.words[ptr]];
          ptr := Wrap32(ptr + 4);
        }
        i := i + 1;
      }
      if !NatBit(mask, SP) {
        ghost var was := r[..];
        r[SP] := ptr;
        assert r[..] == was[SP := ptr];
      }
      ok := true;
    }

    /** pop_words, into a buffer of the caller. */
    method PopWords(n: nat, words: array<uint32>) returns (ok: bool)
      requires Shape() && n <= words.Length && words != r
      modifies r, words
      ensures var res := LoadWords(env, old(r[SP]), n);
        (ok <==> res.Some?) && (ok ==> words[..n] == res.value && r[..] == old(r[..])[SP := Wrap32(old(r[SP]) + 4 * n)])
      ensures !ok ==> r[..] == old(r[..])
    {
      var ptr: uint32 := r[SP];
      var i := 0;
      WordsStart(env, ptr, n);
      assert words[..0] == [];
      while i < n
        invariant 0 <= i <= n && ptr == Wrap32(old(r[SP]) + 4 * i) && r[..] == old(r[..])
        invariant WordsSoFar(env, old(r[SP]), n, words[..i], ptr)
      {
        WordsNext(env, old(r[SP]), n, words[..i], ptr);
        if !StackOk(env, ptr) || ptr !in env.words { return false; }
        words[i] := env.words[ptr];
        assert words[..i + 1] == words[..i] + [env.words[ptr]];
        ptr := Wrap32(ptr + 4);
        i := i + 1;
      }
      r[SP] := ptr;
      ok := true;
    }

    /** pop_vfp. */
    method PopVfp(start: nat, count: nat, x: bool) returns (ok: bool)
      requires Shape() && count <= 16
      modifies r, d
      ensures var res := Apply(env, old(St()), Op.PopVfp(start, count, x));
        (ok <==> res.Done?) && (ok ==> St() == res.st)
    {
      var n := 2 * count + if x then 1 else 0;
      if start + count > 32 { return false; }
      hide LoadWords, Wrap32;
      var words := new uint32[66];
      ok := PopWords(n, words);
      if !ok { return; }
      ghost var ws := words[..n];
      FillVfp(start, count, words, ws);
    }

    /** Two words make one VFP register. */
    method FillVfp(start: nat, count: nat, words: array<uint32>, ghost ws: seq<uint32>)
      requires Shape() && start + count <= 32 && 2 * count <= |ws| <= words.Length && words[..|ws|] == ws
      modifies d
      ensures d[..] == SetVfp(old(d[..]), start, count, ws)
    {
      ghost var before := d[..];
      var i := 0;
      while i < count
        invariant 0 <= i <= count && words[..|ws|] == ws
        invariant forall k :: 0 <= k < 32 ==>
          d[k] == if start <= k < start + i then VfpAt(before, start, count, ws, k) else before[k]
      {
        var lo, hi := words[2 * i], words[2 * i + 1];
        assert lo == ws[2 * i] && hi == ws[2 * i + 1];
        d[start + i] := Pair(lo, hi);
        i := i + 1;
      }
      assert d[..] == SetVfp(before, start, count, ws);
    }

    // ---- The interpreter ----------------------------------------------------------------------

    /** The rest of an instruction that pops core registers, given its integer mask. */
    method PopMasked(mask: nat, ghost bytes: seq<byte>, ghost broken: bool) returns (res: StepResult)
      requires Shape() && Decode(bytes, broken) == (Op.PopCore(MaskOf(mask)), Bytes()) && Broken() == broken
      modifies r
      ensures Stepped(env, old(St()), bytes, broken, St(), Bytes(), Broken(), res)
    {
      var ok := PopCore(mask);
      res := if ok then Going(NatBit(mask, PC)) else Halted(Failure);
    }

    method PopDouble(start: nat, count: nat, x: bool, ghost bytes: seq<byte>, ghost broken: bool)
        returns (res: StepResult)
      requires Shape() && count <= 16 && Decode(bytes, broken) == (Op.PopVfp(start, count, x), Bytes())
        && Broken() == broken
      modifies r, d
      ensures Stepped(env, old(St()), bytes, broken, St(), Bytes(), Broken(), res)
    {
      var ok := PopVfp(start, count, x);
      res := if ok then Going(false) else Halted(Failure);
    }

    method SetSp(value: uint32, ghost bytes: seq<byte>, ghost broken: bool) returns (res: StepResult)
      requires Shape() && Broken() == broken && Decode(bytes, broken).1 == Bytes()
      requires var op := Decode(bytes, broken).0;
        (op.Adjust? || op.SetVsp?) && Apply(env, St(), op) == Done(St().(r := r[..][SP := value]))
      modifies r
      ensures Stepped(env, old(St()), bytes, broken, St(), Bytes(), Broken(), res)
    {
      ghost var was := r[..];
      r[SP] := value;
      assert r[..] == was[SP := value];
      res := Going(false);
    }

    /** Opcode 0x80: the second half of a twelve-bit mask. */
    method StepMask(op: byte, ghost bytes: seq<byte>, ghost broken: bool) returns (res: StepResult)
      requires Shape() && 0x80 <= op < 0x90 && bytes == [op] + Bytes() && Broken() == broken
      modifies this`data, this`next, this`bytesLeft, this`wordsLeft, r
      ensures Stepped(env, old(St()), bytes, broken, St(), Bytes(), Broken(), res)
    {
      assert bytes[1..] == Bytes();
      var more, failed := NextByte();
      if failed || (op == 0x80 && more == 0) { return Halted(Failure); }
      res := PopMasked(((op - 0x80) * 256 + more) * 16, bytes, broken);
    }

    /** Opcodes 0xc8, 0xc9 and 0xb3: VFP registers named by a second byte. */
    method StepDouble(op: byte, ghost bytes: seq<byte>, ghost broken: bool) returns (res: StepResult)
      requires Shape() && (op == 0xc8 || op == 0xc9 || op == 0xb3) && bytes == [op] + Bytes() && Broken() == broken
      modifies this`data, this`next, this`bytesLeft, this`wordsLeft, r, d
      ensures Stepped(env, old(St()), bytes, broken, St(), Bytes(), Broken(), res)
    {
      ghost var rest := Bytes();
      hide TopBytes, WordBytes, LoadWords, SetVfp, Decode, Unwinder.Bytes, Unwinder.Broken;
      var extra, failed := NextByte();
      if failed {
        DoubleBroken(op, rest);
        return Halted(Failure);
      }
      DoubleDecodes(op, rest, broken, extra);
      hide Apply, Unwinder.St;
      res := PopDouble(extra / 16 + if op == 0xc8 then 16 else 0, extra % 16 + 1, op == 0xb3, bytes, broken);
    }

    /** Opcodes 0xb1 to 0xbf. */
    method StepB(op: byte, ghost bytes: seq<byte>, ghost broken: bool) returns (res: StepResult)
      requires Shape() && 0xb1 <= op < 0xc0 && bytes == [op] + Bytes() && Broken() == broken
      modifies this`data, this`next, this`bytesLeft, this`wordsLeft, r, d
      ensures Stepped(env, old(St()), bytes, broken, St(), Bytes(), Broken(), res)
    {
      hide TopBytes, WordBytes, Uleb, LoadCore, LoadWords, SetVfp, MaskOf, RangeMask, StackOk;
      assert bytes[1..] == Bytes();
      if op == 0xb1 {
        var mask, failed := NextByte();
        if failed || mask == 0 || mask >= 16 { return Halted(Unsupported); }
        res := PopMasked(mask, bytes, broken);
      } else if op == 0xb2 {
        res := StepUleb(bytes, broken);
      } else if op == 0xb3 {
        res := StepDouble(op, bytes, broken);
      } else if op < 0xb8 {
        res := Halted(Unsupported);
      } else {
        res := PopDouble(8, op % 8 + 1, true, bytes, broken);
      }
    }

    /**
     Opcode 0xb2: the stack pointer moves by a ULEB128 number of words and 0x204. The source has no way out of this
     loop once the descriptor is used up, since every byte from there on is 0xb0: that case is reported as `Diverges`.
     */
    method StepUleb(ghost bytes: seq<byte>, ghost broken: bool) returns (res: StepResult)
      requires Shape() && bytes == [0xb2] + Bytes() && Broken() == broken
      modifies this`data, this`next, this`bytesLeft, this`wordsLeft, r
      ensures Stepped(env, old(St()), bytes, broken, St(), Bytes(), Broken(), res)
    {
      ghost var rest := Bytes();
      assert bytes[1..] == rest;
      hide Uleb, Stepped, Wrap32, Unwinder.Bytes, Unwinder.Broken;
      var stop, sum := TakeUleb();
      if stop.Some? {
        UlebStopped(env, old(St()), bytes, broken, St(), Bytes(), Broken(), stop.value);
        return Halted(stop.value);
      }
      SpMovedTwice(old(r[..]), r[..], sum, 0x204);
      r[SP] := Wrap32(r[SP] as int + 0x204);
      UlebMoved(env, old(St()), bytes, broken, sum, Bytes(), St());
      res := Going(false);
    }

    /** The number itself: the stack pointer moves with every byte. */
    method TakeUleb() returns (stop: Option<Stop>, ghost sum: int)
      requires Shape()
      modifies this`data, this`next, this`bytesLeft, this`wordsLeft, r
      ensures stop.Some? ==> Uleb(old(Bytes()), 2) == None && stop.value == if old(Broken()) then Failure else Diverges
      ensures stop.None? ==>
        Uleb(old(Bytes()), 2) == Some((sum, Bytes())) && Broken() == old(Broken()) && SpMoved(old(r[..]), r[..], sum)
    {
      ghost var before, rest, broken := r[..], Bytes(), Broken();
      var shift := 2;
      sum := 0;
      NothingTaken(Uleb(rest, 2));
      NotMoved(before);
      hide Uleb, Wrap32, Unwinder.Bytes, Unwinder.Broken, ShiftLeft, SpMoved, Plus;
      while true
        invariant SpMoved(before, r[..], sum) && Broken() == broken
        invariant Uleb(rest, 2) == Plus(Uleb(Bytes(), shift), sum)
        decreases |Bytes()|
      {
        ghost var here, was := Bytes(), r[..];
        UlebUnfold(here, shift);
        var more, part;
        more, stop, part := UlebRound(shift);
        PlusMore(here, shift, sum);
        if stop.Some? { return; }
        SpMovedMore(before, was, r[..], sum, part);
        sum := sum + part;
        if !more { return; }
        shift := shift + 7;
      }
    }

    /** One byte of the number. */
    method UlebRound(shift: nat) returns (more: bool, stop: Option<Stop>, part: int)
      requires Shape()
      modifies this`data, this`next, this`bytesLeft, this`wordsLeft, r
      ensures stop.Some? <==> old(Bytes()) == []
      ensures stop.Some? ==> stop.value == (if old(Broken()) then Failure else Diverges) && r[..] == old(r[..])
      ensures stop.None? ==> Bytes() == old(Bytes())[1..] && Broken() == old(Broken())
      ensures stop.None? ==> part == ShiftLeft(old(Bytes())[0] % 128, shift) && (more <==> old(Bytes())[0] >= 128)
      ensures stop.None? ==> r[..] == old(r[..])[SP := Wrap32(old(r[SP]) + part)]
    {
      more, stop, part := true, None, 0;
      var exhausted := bytesLeft == 0 && wordsLeft == 0;
      var op, failed := NextByte();
      if failed { return true, Some(Failure), 0; }
      if exhausted { return true, Some(Diverges), 0; }
      part := ShiftLeft(op % 128, shift);
      r[SP] := Wrap32(r[SP] as int + part);
      more := op >= 128;
    }

    /** One round of execute_opcodes. */
    method Step() returns (res: StepResult)
      requires Shape()
      modifies this`data, this`next, this`bytesLeft, this`wordsLeft, r, d
      ensures Stepped(env, old(St()), old(Bytes()), old(Broken()), St(), Bytes(), Broken(), res)
    {
      hide TopBytes, WordBytes, Uleb, LoadCore, LoadWords, SetVfp, MaskOf, RangeMask, StackOk;
      ghost var bytes, broken := Bytes(), Broken();
      var op, failed := NextByte();
      if failed { return Halted(Failure); }
      if op == 0xb0 { return Ended; }
      assert bytes == [op] + Bytes() && bytes[1..] == Bytes();
      if op < 0xb0 {
        res := StepLow(op, bytes, broken);
      } else if op < 0xc0 {
        res := StepB(op, bytes, broken);
      } else if op == 0xc8 || op == 0xc9 {
        res := StepDouble(op, bytes, broken);
      } else if 0xd0 <= op < 0xd8 {
        res := PopDouble(8, op % 8 + 1, false, bytes, broken);
      } else {
        res := Halted(Unsupported);
      }
    }

    /** Opcodes below 0xb0. */
    method StepLow(op: byte, ghost bytes: seq<byte>, ghost broken: bool) returns (res: StepResult)
      requires Shape() && op < 0xb0 && bytes == [op] + Bytes() && Broken() == broken
      modifies this`data, this`next, this`bytesLeft, this`wordsLeft, r
      ensures Stepped(env, old(St()), bytes, broken, St(), Bytes(), Broken(), res)
    {
      hide TopBytes, WordBytes, Uleb, LoadCore, LoadWords, SetVfp, StackOk;
      assert bytes[1..] == Bytes();
      if op < 0x80 {
        var offset := op % 0x40 * 4 + 4;
        res := SetSp(if op >= 0x40 then Wrap32(r[SP] as int - offset) else Wrap32(r[SP] as int + offset), bytes,
          broken);
      } else if op < 0x90 {
        res := StepMask(op, bytes, broken);
      } else if op < 0xa0 {
        var from := op % 16;
        if from == 13 || from == 15 { return Halted(Unsupported); }
        res := SetSp(r[from], bytes, broken);
      } else {
        RangeBitsMask(op % 8, op >= 0xa8);
        res := PopMasked(RangeBits(op % 8, op >= 0xa8), bytes, broken);
      }
    }

    /** execute_opcodes: the meaning of the remaining bytes. */
    method ExecuteOpcodes() returns (stop: Option<Stop>)
      requires Shape()
      modifies this`data, this`next, this`bytesLeft, this`wordsLeft, this`thumb, r, d
      ensures match old(Run(env, St(), false, Bytes(), Broken()))
        case Done(st) => stop == None && St() == st
        case Stopped(s) => stop == Some(s)
    {
      var setPc := false;
      ghost var goal := Run(env, St(), false, Bytes(), Broken());
      hide Run, Unwinder.Bytes, Unwinder.Broken, Stepped, Unwinder.St, Finished;
      while true
        invariant Shape() && Run(env, St(), setPc, Bytes(), Broken()) == goal
        decreases |Bytes()|
      {
        ghost var st, bytes, broken := St(), Bytes(), Broken();
        var res := Step();
        RunUnfold(env, st, setPc, bytes, broken, St(), Bytes(), Broken(), res);
        match res
        case Halted(s) => return Some(s);
        case Ended => break;
        case Going(setsPc) => setPc := setPc || setsPc;
      }
      Finish(setPc);
      stop := None;
    }

    /** The end of the descriptor: choose the pc, then the instruction set. */
    method Finish(setPc: bool)
      requires Shape()
      modifies this`thumb, r
      ensures RegsOk(old(St())) && St() == Finished(old(St()), setPc)
    {
      if !setPc {
        ghost var was := r[..];
        r[PC] := r[LR];
        assert r[..] == was[PC := was[LR]];
      }
      thumb := r[PC] % 2 == 1;
    }
  }

  /** What one round of the interpreter does, in terms of the instruction it decodes. */
  ghost predicate Stepped(env: Env, st: Regs, bytes: seq<byte>, broken: bool, st': Regs, bytes': seq<byte>,
      broken': bool, res: StepResult)
    requires RegsOk(st)
  {
    var (op, rest) := Decode(bytes, broken);
    match res
    case Ended => op.Finish? && st' == st
    case Going(setsPc) => !op.Finish? && Apply(env, st, op) == Done(st') && bytes' == rest && broken' == broken
      && setsPc == SetsPc(op)
    case Halted(stop) => !op.Finish? && Apply(env, st, op) == Stopped(stop)
  }

  /** Popping `n` words from `at`: `done` have been taken and `ptr` is next. */
  ghost predicate WordsSoFar(env: Env, at: uint32, n: nat, done: seq<uint32>, ptr: uint32) {
    |done| <= n
    && match LoadWords(env, ptr, n - |done|)
       case None => LoadWords(env, at, n) == None
       case Some(more) => LoadWords(env, at, n) == Some(done + more)
  }

  lemma WordsStart(env: Env, at: uint32, n: nat)
    ensures WordsSoFar(env, at, n, [], at)
  {
    var more := LoadWords(env, at, n);
    if more.Some? { assert [] + more.value == more.value; }
  }

  lemma WordsNext(env: Env, at: uint32, n: nat, done: seq<uint32>, ptr: uint32)
    requires WordsSoFar(env, at, n, done, ptr) && |done| < n
    ensures if CanPop(env, ptr) then WordsSoFar(env, at, n, done + [env.words[ptr]], Wrap32(ptr + 4))
      else LoadWords(env, at, n) == None
  {
    if CanPop(env, ptr) {
      var more := LoadWords(env, Wrap32(ptr + 4), n - |done| - 1);
      if more.Some? { assert done + ([env.words[ptr]] + more.value) == done + [env.words[ptr]] + more.value; }
    }
  }

  // ---- The first word of a descriptor -----------------------------------------------------------

  function Personality(header: uint32): (r: nat) { header / 0x100_0000 % 16 }

  /** The opcode bytes in the first word: three for personality routine 0, two for 1 and 2. */
  function FirstBytes(header: uint32): (r: seq<byte>) {
    if Personality(header) == 0 then [header / 0x1_0000 % 0x100, header / 0x100 % 0x100, header % 0x100]
    else [header / 0x100 % 0x100, header % 0x100]
  }

  /** How many more words follow. */
  function MoreWords(header: uint32): (r: nat) { if Personality(header) == 0 then 0 else header / 0x1_0000 % 0x100 }

  lemma HeaderBytes(header: uint32)
    ensures TopBytes(header * 0x100 % TWO32, 3) == [header / 0x1_0000 % 0x100, header / 0x100 % 0x100, header % 0x100]
    ensures TopBytes(header * 0x1_0000 % TWO32, 2) == [header / 0x100 % 0x100, header % 0x100]
  {
    var a, b, c, e := FourBytes(header);
    ByteParts(a, b, c, e);
    var half: nat := c as int * 0x100 + e as int;
    DropTop(a, b as int * 0x1_0000 + half);
    DropTwo(a, b, half);
    ThreeTop(b, c, e);
    TwoTop(c, e);
    hide TopBytes;
  }

  lemma FourBytes(word: uint32) returns (a: byte, b: byte, c: byte, e: byte)
    ensures word == a * 0x100_0000 + b * 0x1_0000 + c * 0x100 + e
  {
    a := word / 0x100_0000;
    var low := word % 0x100_0000;
    b := low / 0x1_0000;
    var half := low % 0x1_0000;
    c, e := half / 0x100, half % 0x100;
  }

  lemma ByteParts(a: byte, b: byte, c: byte, e: byte)
    ensures var word := a * 0x100_0000 + b * 0x1_0000 + c * 0x100 + e;
      word / 0x1_0000 % 0x100 == b && word / 0x100 % 0x100 == c && word % 0x100 == e
  {
    var word := a * 0x100_0000 + b * 0x1_0000 + c * 0x100 + e;
    assert word / 0x1_0000 == a * 0x100 + b;
    assert word / 0x100 == a * 0x1_0000 + b * 0x100 + c;
  }

  lemma ThreeTop(b: byte, c: byte, e: byte)
    ensures TopBytes(b * 0x100_0000 + c * 0x1_0000 + e * 0x100, 3) == [b, c, e]
  {
    hide TopBytes;
    TopOf(b, c * 0x1_0000 + e * 0x100, 2);
    assert (c * 0x1_0000 + e * 0x100) * 0x100 == c * 0x100_0000 + e * 0x1_0000;
    TwoTop(c, e);
  }

  lemma TwoTop(c: byte, e: byte)
    ensures TopBytes(c * 0x100_0000 + e * 0x1_0000, 2) == [c, e]
  {
    hide TopBytes;
    TopOf(c, e * 0x1_0000, 1);
    assert e * 0x1_0000 * 0x100 == e * 0x100_0000;
    TopOf(e, 0, 0);
    TopNone(0);
  }

  lemma TopNone(rest: uint32)
    ensures TopBytes(rest, 0) == []
  {
  }

  lemma TopOf(b: byte, rest: nat, n: nat)
    requires rest < 0x100_0000
    ensures TopBytes(b * 0x100_0000 + rest, n + 1) == [b] + TopBytes(rest * 0x100, n)
  {
    DropTop(b, rest);
    assert (b * 0x100_0000 + rest) / 0x100_0000 == b;
    assert TopBytes(b * 0x100_0000 + rest, n + 1) ==
      [(b * 0x100_0000 + rest) / 0x100_0000] + TopBytes((b * 0x100_0000 + rest) * 0x100 % TWO32, n);
  }

  lemma DropTop(a: byte, rest: nat)
    requires rest < 0x100_0000
    ensures (a * 0x100_0000 + rest) * 0x100 % TWO32 == rest * 0x100
  {
    assert (a * 0x100_0000 + rest) * 0x100 == a * TWO32 + rest * 0x100;
  }

  lemma DropTwo(a: byte, b: byte, rest: nat)
    requires rest < 0x1_0000
    ensures (a * 0x100_0000 + b * 0x1_0000 + rest) * 0x1_0000 % TWO32 == rest * 0x1_0000
  {
    assert (a * 0x100_0000 + b * 0x1_0000 + rest) * 0x1_0000 == (a * 0x100 + b) * TWO32 + rest * 0x1_0000;
  }

  /** A partly read number: what is still to come, and `sum` already taken. */
  function Plus(n: Option<(int, seq<byte>)>, sum: int): (r: Option<(int, seq<byte>)>) {
    match n case None => None case Some(p) => Some((p.0 + sum, p.1))
  }

  lemma WrapSum(x: int, a: int, b: int)
    ensures Wrap32(Wrap32(x + a) + b) == Wrap32(x + (a + b))
  {
  }

  lemma NothingTaken(n: Option<(int, seq<byte>)>)
    ensures n == Plus(n, 0)
  {
  }

  lemma UlebUnfold(bytes: seq<byte>, shift: nat)
    ensures bytes == [] ==> Uleb(bytes, shift) == None
    ensures bytes != [] && bytes[0] < 128 ==> Uleb(bytes, shift) == Some((ShiftLeft(bytes[0] % 128, shift), bytes[1..]))
    ensures bytes != [] && bytes[0] >= 128 ==>
      Uleb(bytes, shift) == Plus(Uleb(bytes[1..], shift + 7), ShiftLeft(bytes[0] % 128, shift))
  {
  }

  lemma UlebStopped(env: Env, st: Regs, bytes: seq<byte>, broken: bool, st': Regs, bytes': seq<byte>, broken': bool,
      stop: Stop)
    requires RegsOk(st) && bytes != [] && bytes[0] == 0xb2 && Uleb(bytes[1..], 2) == None
      && stop == if broken then Failure else Diverges
    ensures Stepped(env, st, bytes, broken, st', bytes', broken', Halted(stop))
  {
  }

  lemma UlebMoved(env: Env, st: Regs, bytes: seq<byte>, broken: bool, sum: int, rest: seq<byte>, st': Regs)
    requires RegsOk(st) && bytes != [] && bytes[0] == 0xb2 && Uleb(bytes[1..], 2) == Some((sum, rest))
    requires st' == st.(r := st.r[SP := Wrap32(st.r[SP] + (sum + 0x204))])
    ensures Stepped(env, st, bytes, broken, st', rest, broken, Going(false))
  {
  }

  /** Running on from one round of the interpreter. */
  lemma RunUnfold(env: Env, st: Regs, setPc: bool, bytes: seq<byte>, broken: bool, st': Regs, bytes': seq<byte>,
      broken': bool, res: StepResult)
    requires RegsOk(st) && Stepped(env, st, bytes, broken, st', bytes', broken', res)
    ensures match res
      case Ended => st' == st && Run(env, st, setPc, bytes, broken) == Done(Finished(st, setPc))
      case Halted(s) => Run(env, st, setPc, bytes, broken) == Stopped(s)
      case Going(setsPc) =>
        RegsOk(st') && |bytes'| < |bytes|
          && Run(env, st, setPc, bytes, broken) == Run(env, st', setPc || setsPc, bytes', broken')
  {
    if bytes != [] { DecodeShorter(bytes, broken); }
  }

  ghost predicate SpMoved(before: seq<uint32>, now: seq<uint32>, sum: int) {
    |before| == 16 && now == before[SP := Wrap32(before[SP] + sum)]
  }

  lemma NotMoved(r: seq<uint32>)
    requires |r| == 16
    ensures SpMoved(r, r, 0)
  {
  }

  lemma SpMovedMore(before: seq<uint32>, mid: seq<uint32>, now: seq<uint32>, sum: int, part: int)
    requires SpMoved(before, mid, sum) && now == mid[SP := Wrap32(mid[SP] + part)]
    ensures SpMoved(before, now, sum + part)
  {
    WrapSum(before[SP], sum, part);
  }

  lemma SpMovedTwice(before: seq<uint32>, mid: seq<uint32>, sum: int, more: int)
    requires SpMoved(before, mid, sum)
    ensures mid[SP := Wrap32(mid[SP] + more)] == before[SP := Wrap32(before[SP] + (sum + more))]
  {
    WrapSum(before[SP], sum, more);
  }

  /** How taking one more byte changes what is still to come. */
  lemma PlusMore(bytes: seq<byte>, shift: nat, sum: int)
    ensures bytes == [] ==> Plus(Uleb(bytes, shift), sum) == None
    ensures bytes != [] && bytes[0] < 128 ==>
      Plus(Uleb(bytes, shift), sum) == Some((sum + ShiftLeft(bytes[0] % 128, shift), bytes[1..]))
    ensures bytes != [] && bytes[0] >= 128 ==>
      Plus(Uleb(bytes, shift), sum) == Plus(Uleb(bytes[1..], shift + 7), sum + ShiftLeft(bytes[0] % 128, shift))
  {
    UlebUnfold(bytes, shift);
    hide Uleb, ShiftLeft;
  }

  lemma DoubleDecodes(op: byte, rest: seq<byte>, broken: bool, extra: byte)
    requires op == 0xc8 || op == 0xc9 || op == 0xb3
    requires if rest == [] then !broken && extra == 0xb0 else extra == rest[0]
    ensures Decode([op] + rest, broken)
      == (Op.PopVfp(extra / 16 + (if op == 0xc8 then 16 else 0), extra % 16 + 1, op == 0xb3), if rest == [] then []
        else rest[1..])
  {
    assert ([op] + rest)[1..] == rest;
  }

  lemma DoubleBroken(op: byte, rest: seq<byte>)
    requires (op == 0xc8 || op == 0xc9 || op == 0xb3) && rest == []
    ensures Decode([op] + rest, true) == (Bad(Failure), [])
  {
    assert ([op] + rest)[1..] == rest;
  }
}
