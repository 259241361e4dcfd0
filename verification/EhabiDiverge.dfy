/**
 When executing a descriptor never ends (Runtime/Ehabi/agr_ehabi.c:118-132,236-247): past its end next_unwind_byte
 yields 0xb0 for ever, and bit 7 of 0xb0 tells the ULEB128 loop of opcode 0xb2 to go on.
 */
module EhabiDiverge {
  import opened Prelude
  import opened EhabiSpec
  import opened Ehabi

  const FILLER: byte := 0xb0

  /** What next_unwind_byte yields at the i-th call, for a descriptor that can be read. */
  function StreamByte(bytes: seq<byte>, i: nat): (r: byte) {
    if i < |bytes| then bytes[i] else FILLER
  }

  /** The first `n` bytes past the end are filler. */
  function Padded(bytes: seq<byte>, n: nat): (r: seq<byte>) { bytes + seq(n, _ => FILLER) }

  /** The loop reads on after each of the stream's bytes exactly if the number does not end inside the descriptor. */
  lemma LoopNeverEndsIff(bytes: seq<byte>, shift: nat)
    ensures (forall i: nat :: StreamByte(bytes, i) >= 128) <==> Uleb(bytes, shift).None?
  {
    UlebEndsIff(bytes, shift);
    if forall i: nat :: StreamByte(bytes, i) >= 128 {
      forall i | 0 <= i < |bytes| ensures bytes[i] >= 128 { assert StreamByte(bytes, i) >= 128; }
    }
  }

  /** However much of the filler is read, the number does not end: exactly if no byte of the descriptor ends it. */
  lemma PaddingNeverEndsIff(bytes: seq<byte>, shift: nat)
    ensures (forall n: nat :: Uleb(Padded(bytes, n), shift).None?) <==> forall i :: 0 <= i < |bytes| ==> bytes[i] >= 128
  {
    if forall n: nat :: Uleb(Padded(bytes, n), shift).None? {
      assert Padded(bytes, 0) == bytes;
      UlebEndsIff(bytes, shift);
    }
    if forall i :: 0 <= i < |bytes| ==> bytes[i] >= 128 {
      forall n: nat ensures Uleb(Padded(bytes, n), shift).None? { UlebEndsIff(Padded(bytes, n), shift); }
    }
  }

  /** The state and the bytes left after `k` instructions, if none of them stops or finishes. */
  function After(env: Env, st: Regs, bytes: seq<byte>, broken: bool, k: nat): (res: Option<(Regs, seq<byte>)>)
    requires RegsOk(st)
    ensures res.Some? ==> RegsOk(res.value.0)
    decreases k
  {
    if k == 0 then Some((st, bytes))
    else
      var (op, rest) := Decode(bytes, broken);
      if op.Finish? || Apply(env, st, op).Stopped? then None else After(env, Apply(env, st, op).st, rest, broken, k - 1)
  }

  /** Next comes opcode 0xb2, and no byte that is left ends its number. */
  predicate AtEndlessUleb(bytes: seq<byte>) {
    bytes != [] && bytes[0] == 0xb2 && forall i :: 1 <= i < |bytes| ==> bytes[i] >= 128
  }

  ghost predicate ReachesEndlessUleb(env: Env, st: Regs, bytes: seq<byte>, broken: bool)
    requires RegsOk(st)
  {
    exists k: nat :: After(env, st, bytes, broken, k).Some? && AtEndlessUleb(After(env, st, bytes, broken, k).value.1)
  }

  lemma DecodeDivergesIff(bytes: seq<byte>, broken: bool)
    ensures Decode(bytes, broken).0 == Bad(Diverges) <==> !broken && AtEndlessUleb(bytes)
  {
    if bytes != [] && bytes[0] == 0xb2 {
      UlebEndsIff(bytes[1..], 2);
      assert (forall i :: 0 <= i < |bytes[1..]| ==> bytes[1..][i] >= 128) <==> forall i :: 1 <= i < |bytes| ==>
        bytes[i] >= 128 by {
        if forall i :: 0 <= i < |bytes[1..]| ==> bytes[1..][i] >= 128 {
          forall i | 1 <= i < |bytes| ensures bytes[i] >= 128 { assert bytes[i] == bytes[1..][i - 1]; }
        }
      }
    }
  }

  /** One instruction more or less. */
  lemma AfterStep(env: Env, st: Regs, bytes: seq<byte>, broken: bool)
    requires RegsOk(st)
    ensures var (op, rest) := Decode(bytes, broken);
      ReachesEndlessUleb(env, st, bytes, broken) <==>
        || AtEndlessUleb(bytes)
        || (!op.Finish? && Apply(env, st, op).Done? && ReachesEndlessUleb(env, Apply(env, st, op).st, rest, broken))
  {
    var (op, rest) := Decode(bytes, broken);
    hide Apply, Decode, AtEndlessUleb;
    if AtEndlessUleb(bytes) { assert After(env, st, bytes, broken, 0) == Some((st, bytes)); }
    if k: nat :| After(env, st, bytes, broken, k).Some? && AtEndlessUleb(After(env, st, bytes, broken, k).value.1) {
      if k > 0 { assert After(env, Apply(env, st, op).st, rest, broken, k - 1) == After(env, st, bytes, broken, k); }
    }
    if !op.Finish? && Apply(env, st, op).Done? && ReachesEndlessUleb(env, Apply(env, st, op).st, rest, broken) {
      var next := Apply(env, st, op).st;
      var k: nat :| After(env, next, rest, broken, k).Some? && AtEndlessUleb(After(env, next, rest, broken, k).value.1);
      assert After(env, st, bytes, broken, k + 1) == After(env, next, rest, broken, k);
    }
  }

  /** Executing a descriptor runs on for ever exactly if it is readable and comes to an 0xb2 whose number never ends. */
  lemma {:induction false} DivergesIff(env: Env, st: Regs, setPc: bool, bytes: seq<byte>, broken: bool)
    requires RegsOk(st)
    ensures Run(env, st, setPc, bytes, broken) == Stopped(Diverges) <==>
      !broken && ReachesEndlessUleb(env, st, bytes, broken)
    decreases |bytes|
  {
    var (op, rest) := Decode(bytes, broken);
    DecodeDivergesIff(bytes, broken);
    AfterStep(env, st, bytes, broken);
    OnlyBadDiverges(env, st, op);
    NothingAtTheEnd(env, st, broken);
    if bytes != [] {
      DecodeShorter(bytes, broken);
      hide Apply, Decode, AtEndlessUleb, ReachesEndlessUleb;
      if !op.Finish? && Apply(env, st, op).Done? {
        DivergesIff(env, Apply(env, st, op).st, setPc || SetsPc(op), rest, broken);
      }
    }
  }

  lemma OnlyBadDiverges(env: Env, st: Regs, op: Op)
    requires RegsOk(st)
    ensures Apply(env, st, op) == Stopped(Diverges) <==> op == Bad(Diverges)
  {
  }

  lemma NothingAtTheEnd(env: Env, st: Regs, broken: bool)
    requires RegsOk(st)
    ensures !ReachesEndlessUleb(env, st, [], broken)
  {
    AfterStep(env, st, [], broken);
  }

  /** A descriptor word that does it: personality 0 with the bytes b2 80 80. */
  lemma EndlessWord(env: Env, st: Regs)
    requires RegsOk(st)
    ensures Personality(0x80b2_8080) == 0 && MoreWords(0x80b2_8080) == 0
      && FirstBytes(0x80b2_8080) == [0xb2, 0x80, 0x80]
    ensures Run(env, st, false, FirstBytes(0x80b2_8080), false) == Stopped(Diverges)
  {
    assert AtEndlessUleb([0xb2, 0x80, 0x80]);
    AfterStep(env, st, [0xb2, 0x80, 0x80], false);
    DivergesIff(env, st, false, [0xb2, 0x80, 0x80], false);
  }
}
