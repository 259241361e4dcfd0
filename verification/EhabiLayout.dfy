/**
 The bytes of a descriptor and the opcodes that stop an unwinding (Runtime/Ehabi/agr_ehabi.c:193-286, 380-402, after
 sections 9.3 and 10.3 of IHI 0038).
 */
module EhabiLayout {
  import opened Prelude
  import opened EhabiSpec
  import opened Ehabi
  import opened EhabiPrologue

  /** Four bytes as a word, first byte on top. */
  function Packed(a: byte, b: byte, c: byte, e: byte): (word: uint32) { a * 0x100_0000 + b * 0x1_0000 + c * 0x100 + e }

  lemma Parts(a: byte, b: byte, c: byte, e: byte)
    ensures var word := Packed(a, b, c, e);
      && word / 0x100_0000 == a && word / 0x1_0000 % 0x100 == b && word / 0x100 % 0x100 == c && word % 0x100 == e
  {
    ByteParts(a, b, c, e);
  }

  /** Personality routine 0: three opcode bytes in the word and no further words. */
  lemma ShortForm(a: byte, b: byte, c: byte)
    ensures var header := Packed(0x80, a, b, c);
      Personality(header) == 0 && FirstBytes(header) == [a, b, c] && MoreWords(header) == 0
  {
    Parts(0x80, a, b, c);
    hide Packed;
  }

  /** Routines 1 and 2: a count of further words, and two opcode bytes. */
  lemma LongForm(routine: nat, more: byte, a: byte, b: byte)
    requires 1 <= routine <= 2
    ensures var header := Packed(0x80 + routine, more, a, b);
      Personality(header) == routine && FirstBytes(header) == [a, b] && MoreWords(header) == more
  {
    Parts(0x80 + routine, more, a, b);
    hide Packed;
  }

  lemma FourTop(a: byte, b: byte, c: byte, e: byte)
    ensures TopBytes(Packed(a, b, c, e), 4) == [a, b, c, e]
  {
    hide TopBytes;
    TopOf(a, b * 0x1_0000 + c * 0x100 + e, 3);
    assert (b * 0x1_0000 + c * 0x100 + e) * 0x100 == b * 0x100_0000 + c * 0x1_0000 + e * 0x100;
    ThreeTop(b, c, e);
  }

  /** The `i`-th word from `at` on holds the `i`-th four bytes, top byte first. */
  predicate Holds(env: Env, at: uint32, code: seq<byte>, i: nat) {
    && 4 * i + 3 < |code|
    && WordAt(env, at, i) == Some(Packed(code[4 * i], code[4 * i + 1], code[4 * i + 2], code[4 * i + 3]))
  }

  /** The further words give all their bytes in this order. */
  lemma {:induction false} FurtherWords(env: Env, at: uint32, code: seq<byte>, n: nat)
    requires |code| == 4 * n && forall i :: 0 <= i < n ==> Holds(env, at, code, i)
    ensures WordBytes(env, at, n) == (code, false)
    decreases n
  {
    if n > 0 {
      assert Holds(env, at, code, 0);
      FirstWord(env, at, code);
      var next, rest := Wrap32(at + 4), code[4..];
      forall i | 0 <= i < n - 1 ensures Holds(env, next, rest, i) {
        assert Holds(env, at, code, i + 1);
        HoldsNext(env, at, code, i);
      }
      hide Holds, TopBytes;
      FurtherWords(env, next, rest, n - 1);
      assert code[..4] + code[4..] == code;
    }
  }

  lemma FirstWord(env: Env, at: uint32, code: seq<byte>)
    requires Holds(env, at, code, 0)
    ensures at in env.words && TopBytes(env.words[at], 4) == code[..4]
  {
    assert Wrap32(at + 4 * 0) == at;
    FourTop(code[0], code[1], code[2], code[3]);
    hide Packed, TopBytes;
  }

  lemma HoldsNext(env: Env, at: uint32, code: seq<byte>, i: nat)
    requires Holds(env, at, code, i + 1)
    ensures Holds(env, Wrap32(at + 4), code[4..], i)
  {
    WordAtNext(env, at, i);
    hide Packed, WordAt;
  }

  lemma WordAtNext(env: Env, at: uint32, i: nat)
    ensures WordAt(env, Wrap32(at + 4), i) == WordAt(env, at, i + 1)
  {
    assert Wrap32(Wrap32(at + 4) + 4 * i) == Wrap32(at + 4 * (i + 1));
  }

  function WordAt(env: Env, at: uint32, i: nat): (word: Option<uint32>) {
    var a := Wrap32(at + 4 * i);
    if a in env.words then Some(env.words[a]) else None
  }

  /** The byte after an opcode; past the end of the descriptor it is 0xb0. */
  function After(bytes: seq<byte>): (b: byte) { if |bytes| > 1 then bytes[1] else 0xb0 }

  /** Reserved, obsolete and iWMMXt opcodes are refused, and so is 0xb1 with no register or with a high nibble. */
  lemma UnsupportedIff(bytes: seq<byte>)
    requires bytes != []
    ensures Decode(bytes, false).0 == Bad(Unsupported) <==>
      || bytes[0] in {0x9d, 0x9f, 0xb4, 0xb5, 0xb6, 0xb7} || 0xc0 <= bytes[0] <= 0xc7 || 0xca <= bytes[0] <= 0xcf
      || 0xd8 <= bytes[0]
      || (bytes[0] == 0xb1 && (After(bytes) == 0 || After(bytes) > 0x0f))
  {
    hide Uleb, MaskOf, RangeMask;
  }

  /** 0x80 0x00 refuses to unwind. */
  lemma RefusesIff(bytes: seq<byte>)
    requires bytes != []
    ensures Decode(bytes, false).0 == Bad(Failure) <==> bytes[0] == 0x80 && After(bytes) == 0
  {
    hide Uleb, MaskOf, RangeMask;
  }

  /** VFP registers beyond d31 cannot be popped. */
  lemma TooManyDoubles(env: Env, st: Regs, start: nat, count: nat, x: bool)
    requires RegsOk(st) && start + count > 32
    ensures Apply(env, st, Op.PopVfp(start, count, x)) == Stopped(Failure)
  {
  }

  // ---- Nothing is left that no prologue needs ------------------------------------------------------

  lemma {:induction false} SomeBit(v: nat, n: nat) returns (k: nat)
    requires 0 < v < Pow2(n)
    ensures k < n && NatBit(v, k)
    decreases n
  {
    k := 0;
    if v % 2 == 0 {
      k := SomeBit(v / 2, n - 1);
      k := k + 1;
    }
  }

  lemma {:induction false} HighBitsClear(v: nat, n: nat, k: nat)
    requires v < Pow2(n) && n <= k
    ensures !NatBit(v, k)
    decreases k
  {
    if n == 0 {
      NatBitZero(k);
    } else {
      HighBitsClear(v / 2, n - 1, k - 1);
    }
  }

  lemma FourTimes(x: nat, p: nat)
    ensures x * (4 * p) % 4 == 0 && x * (4 * p) >= 0
  {
    assert x * (4 * p) == 4 * (x * p);
  }

  lemma ShiftInWords(x: nat, shift: nat)
    requires shift >= 2
    ensures ShiftLeft(x, shift) % 4 == 0
  {
    assert Pow2(shift) == 2 * Pow2(shift - 1) && Pow2(shift - 1) == 2 * Pow2(shift - 2);
    FourTimes(x, Pow2(shift - 2));
    hide Pow2;
  }

  lemma {:induction false} UlebInWords(bytes: seq<byte>, shift: nat)
    requires shift >= 2
    ensures Uleb(bytes, shift).Some? ==> Uleb(bytes, shift).value.0 >= 0 && Uleb(bytes, shift).value.0 % 4 == 0
  {
    hide ShiftLeft;
    if bytes != [] {
      ShiftInWords(bytes[0] % 128, shift);
      UlebInWords(bytes[1..], shift + 7);
    }
  }

  /** The masks of opcodes 0x80 to 0x8f and 0xb1. */
  lemma MaskShape(v: nat, low: bool)
    requires 0 < v < if low then 16 else 4096
    ensures var mask := MaskOf(if low then v else v * 16);
      (exists i :: 0 <= i < 16 && mask[i]) && if low then LowMask(mask) else HighMask(mask)
  {
    SmallPow2();
    hide NatBit, Pow2;
    if low {
      var k := SomeBit(v, 4);
      assert MaskOf(v)[k];
      forall i | 4 <= i < 16 ensures !MaskOf(v)[i] { HighBitsClear(v, 4, i); }
    } else {
      var k := SomeBit(v, 12);
      ShiftedBit(v, k + 4);
      assert MaskOf(v * 16)[k + 4];
      forall i | 0 <= i < 4 ensures !MaskOf(v * 16)[i] { ShiftedBit(v, i); }
    }
  }

  /** Operations that undo a step: all but frame registers, pops of sp itself, and what cannot be done. */
  predicate Undoes(op: Op) {
    match op
    case Adjust(delta) => delta < TWO32
    case PopCore(mask) => !mask[SP]
    case PopVfp(start, count, _) => start + count <= 32
    case _ => false
  }

  /** Whatever such operation a descriptor names, some prologue step is undone by it. */
  lemma EveryOpUndoes(bytes: seq<byte>) returns (ins: Instr)
    requires bytes != [] && Undoes(Decode(bytes, false).0)
    ensures InstrOk(ins) && OpOf(ins) == Decode(bytes, false).0
  {
    var op, rest := bytes[0], bytes[1..];
    hide Uleb, MaskOf, RangeMask;
    if op < 0x40 {
      ins := Down(op + 1);
    } else if op < 0x80 {
      ins := Up(op - 0x40 + 1);
    } else if op < 0x90 {
      var v := (op - 0x80) * 256 + Second(rest);
      MaskShape(v, false);
      ins := Push(MaskOf(v * 16));
    } else if op < 0xb0 {
      ins := PushRange(op % 8, op >= 0xa8);
    } else if op == 0xb1 {
      MaskShape(Second(rest), true);
      ins := Push(MaskOf(Second(rest)));
    } else if op == 0xb2 {
      UlebInWords(rest, 2);
      ins := DownFar(Uleb(rest, 2).value.0 / 4 + 129);
    } else if op < 0xc0 {
      ins := if op == 0xb3 then PushVfp(Second(rest) / 16, Second(rest) % 16 + 1, true, false)
        else PushVfp(8, op % 8 + 1, true, true);
    } else if op < 0xd0 {
      ins := PushVfp(Second(rest) / 16 + if op == 0xc8 then 16 else 0, Second(rest) % 16 + 1, false, false);
    } else {
      ins := PushVfp(8, op % 8 + 1, false, true);
    }
  }
}
