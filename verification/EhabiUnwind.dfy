/** Unwinding undoes a prologue (Runtime/Ehabi/agr_ehabi.c:140-287). */
module EhabiUnwind {
  import opened Prelude
  import opened EhabiSpec
  import opened EhabiPrologue
  import opened EhabiStack

  /** Core register `i` was pushed. */
  predicate SavedCore(steps: seq<Instr>, i: int) {
    0 <= i < 16 && exists k :: 0 <= k < |steps| && CoreMask(steps[k])[i]
  }

  predicate CoversVfp(ins: Instr, i: int) { ins.PushVfp? && ins.start <= i < ins.start + ins.count }

  predicate SavedVfp(steps: seq<Instr>, i: int) {
    exists k :: 0 <= k < |steps| && CoversVfp(steps[k], i)
  }

  /** The registers after unwinding: `st` with everything the prologue saved, and the stack pointer, as they were. */
  ghost predicate Back(steps: seq<Instr>, r: seq<uint32>, d: seq<uint64>, st: Regs, st': Regs)
    requires |r| == 16 && |d| == 32 && RegsOk(st)
  {
    && RegsOk(st') && st'.thumb == st.thumb && st'.r[SP] == r[SP]
    && (forall i :: 0 <= i < 16 && i != SP ==> st'.r[i] == if SavedCore(steps, i) then r[i] else st.r[i])
    && forall i :: 0 <= i < 32 ==> st'.d[i] == if SavedVfp(steps, i) then d[i] else st.d[i]
  }

  /** Words upward from `depth` words below `sp` can be popped and are `ws`. */
  predicate Poppable(env: Env, sp: uint32, depth: int, ws: seq<uint32>) {
    Stored(env.words, sp, depth, ws) && forall k :: depth - |ws| < k <= depth ==> CellOk(env, sp, k)
  }

  /** The word `k` words below `sp` lies between the bounds of the stack, if they are known. */
  predicate CellOk(env: Env, sp: uint32, k: int) { Readable(env, Cell(sp, k)) }

  lemma PoppableFirst(env: Env, sp: uint32, depth: int, ws: seq<uint32>)
    requires Poppable(env, sp, depth, ws) && ws != []
    ensures CanPop(env, Cell(sp, depth)) && env.words[Cell(sp, depth)] == ws[0]
    ensures Poppable(env, sp, depth - 1, ws[1..])
    ensures Wrap32(Cell(sp, depth) + 4) == Cell(sp, depth - 1)
  {
    CellMove(sp, depth, 1);
    assert Holds(env.words, sp, depth - 0, ws[0]);
    assert CellOk(env, sp, depth);
    StackOkIff(env, Cell(sp, depth));
    forall j | 0 <= j < |ws[1..]| ensures Holds(env.words, sp, depth - 1 - j, ws[1..][j]) {
      assert Holds(env.words, sp, depth - (j + 1), ws[j + 1]);
    }
  }

  /** Popping what was pushed loads the saved values into the registers of the mask, and nothing else. */
  lemma {:induction false} LoadsCore(env: Env, now: seq<uint32>, r: seq<uint32>, mask: Mask, i: nat, sp: uint32,
      depth: int)
    requires |now| == 16 && |r| == 16 && i <= 16 && Poppable(env, sp, depth, CoreWords(r, mask, i))
    ensures LoadCore(env, now, mask, i, Cell(sp, depth)) ==
      Some((Overlay(now, r, mask, i), Cell(sp, depth - Ones(mask, i))))
    decreases 16 - i
  {
    if i == 16 {
      assert Overlay(now, r, mask, i) == now;
    } else if !mask[i] {
      assert CoreWords(r, mask, i) == CoreWords(r, mask, i + 1);
      OverlayNext(now, r, mask, i);
      hide Overlay, Poppable, Cell;
      LoadsCore(env, now, r, mask, i + 1, sp, depth);
    } else {
      PoppableFirst(env, sp, depth, CoreWords(r, mask, i));
      assert CoreWords(r, mask, i)[1..] == CoreWords(r, mask, i + 1);
      OverlayNext(now, r, mask, i);
      hide Overlay;
      LoadsCore(env, now[i := r[i]], r, mask, i + 1, sp, depth - 1);
    }
  }

  lemma OverlayNext(now: seq<uint32>, r: seq<uint32>, mask: Mask, i: nat)
    requires |now| == 16 && |r| == 16 && i < 16
    ensures Overlay(now, r, mask, i) == Overlay(if mask[i] then now[i := r[i]] else now, r, mask, i + 1)
  {
  }

  /** `now` with the registers of the mask, from `i` on, taken from `r`. */
  function Overlay(now: seq<uint32>, r: seq<uint32>, mask: Mask, i: nat): (o: seq<uint32>)
    requires |now| == 16 && |r| == 16
    ensures |o| == 16
  {
    seq(16, k requires 0 <= k < 16 => OverlayAt(now, r, mask, i, k))
  }

  function OverlayAt(now: seq<uint32>, r: seq<uint32>, mask: Mask, i: nat, k: nat): (res: uint32)
    requires |now| == 16 && |r| == 16 && k < 16
  {
    if k >= i && mask[k] then r[k] else now[k]
  }

  lemma {:induction false} LoadsWords(env: Env, ws: seq<uint32>, sp: uint32, depth: int)
    requires Poppable(env, sp, depth, ws)
    ensures LoadWords(env, Cell(sp, depth), |ws|) == Some(ws)
    decreases |ws|
  {
    if ws != [] {
      PoppableFirst(env, sp, depth, ws);
      LoadsWords(env, ws[1..], sp, depth - 1);
      assert [ws[0]] + ws[1..] == ws;
    }
  }

  /** One opcode undoes one step. */
  lemma UndoesStep(env: Env, ins: Instr, r: seq<uint32>, d: seq<uint64>, st: Regs, depth: int)
    requires InstrOk(ins) && |r| == 16 && |d| == 32 && RegsOk(st) && st.r[SP] == Cell(r[SP], depth)
    requires Poppable(env, r[SP], depth, Words(ins, r, d))
    ensures var res := Apply(env, st, OpOf(ins));
      res.Done? && StepBack(ins, r, d, st, res.st) && res.st.r[SP] == Cell(r[SP], depth - Moved(ins))
  {
    hide Poppable, CoreWords, Ones, Cell, Overlay, Wrap32, StepBack, Apply;
    match ins
    case PushVfp(start, count, x, short) => UndoesVfp(env, start, count, x, short, r, d, st, depth);
    case Down(count) => UndoesMove(env, ins, 4 * count, r, d, st, depth);
    case DownFar(count) => UndoesMove(env, ins, 4 * count, r, d, st, depth);
    case Up(count) => UndoesMove(env, ins, -4 * count, r, d, st, depth);
    case _ =>
      CoreOp(ins);
      hide CoreMask, OpOf, Moved;
      UndoesCore(env, CoreMask(ins), r, st, depth);
      CoreStepBack(ins, r, d, st, Cell(r[SP], depth - Moved(ins)));
  }

  lemma CoreOp(ins: Instr)
    requires InstrOk(ins) && (ins.Push? || ins.PushRange?)
    ensures OpOf(ins) == PopCore(CoreMask(ins)) && Moved(ins) == Ones(CoreMask(ins), 0) && !CoreMask(ins)[SP]
  {
  }

  lemma UndoesMove(env: Env, ins: Instr, delta: int, r: seq<uint32>, d: seq<uint64>, st: Regs, depth: int)
    requires InstrOk(ins) && !Pushes(ins) && delta == 4 * Moved(ins)
    requires |r| == 16 && |d| == 32 && RegsOk(st) && st.r[SP] == Cell(r[SP], depth)
    ensures var res := Apply(env, st, Adjust(delta));
      res.Done? && StepBack(ins, r, d, st, res.st) && res.st.r[SP] == Cell(r[SP], depth - Moved(ins))
  {
    CellMove(r[SP], depth, Moved(ins));
    hide Cell, Wrap32;
  }

  lemma CoreStepBack(ins: Instr, r: seq<uint32>, d: seq<uint64>, st: Regs, sp: uint32)
    requires |r| == 16 && |d| == 32 && RegsOk(st) && !ins.PushVfp?
    ensures StepBack(ins, r, d, st, st.(r := Overlay(st.r, r, CoreMask(ins), 0)[SP := sp]))
  {
  }

  lemma UndoesCore(env: Env, mask: Mask, r: seq<uint32>, st: Regs, depth: int)
    requires |r| == 16 && RegsOk(st) && st.r[SP] == Cell(r[SP], depth) && !mask[SP]
      && Poppable(env, r[SP], depth, CoreWords(r, mask, 0))
    ensures var res := Apply(env, st, PopCore(mask));
      res.Done? && res.st == st.(r := Overlay(st.r, r, mask, 0)[SP := Cell(r[SP], depth - Ones(mask, 0))])
  {
    hide LoadCore, Poppable, CoreWords, Ones, Cell, Overlay, Wrap32;
    LoadsCore(env, st.r, r, mask, 0, r[SP], depth);
  }

  /** What undoing one step does to the registers other than the stack pointer. */
  ghost predicate StepBack(ins: Instr, r: seq<uint32>, d: seq<uint64>, st: Regs, st': Regs)
    requires |r| == 16 && |d| == 32 && RegsOk(st)
  {
    && RegsOk(st') && st'.thumb == st.thumb
    && (forall i :: 0 <= i < 16 && i != SP ==> st'.r[i] == if CoreMask(ins)[i] then r[i] else st.r[i])
    && forall i :: 0 <= i < 32 ==> st'.d[i] == if CoversVfp(ins, i) then d[i] else st.d[i]
  }

  lemma UndoesVfp(env: Env, start: nat, count: nat, x: bool, short: bool, r: seq<uint32>, d: seq<uint64>, st: Regs,
      depth: int)
    requires var ins := PushVfp(start, count, x, short);
      InstrOk(ins) && |r| == 16 && |d| == 32 && RegsOk(st) && st.r[SP] == Cell(r[SP], depth)
        && Poppable(env, r[SP], depth, Words(ins, r, d))
    ensures var ins := PushVfp(start, count, x, short); var res := Apply(env, st, PopVfp(start, count, x));
      res.Done? && StepBack(ins, r, d, st, res.st) && res.st.r[SP] == Cell(r[SP], depth - Moved(ins))
  {
    var ws := Words(PushVfp(start, count, x, short), r, d);
    VfpWordsAre(start, count, x, short, r, d);
    hide Poppable, Words, Cell, Wrap32, LoadWords, StepBack, SetVfp, PairIs, Apply;
    PopsVfp(env, start, count, x, ws, r[SP], st, depth);
    VfpStepBack(PushVfp(start, count, x, short), r, d, st, ws, Cell(r[SP], depth - VfpWords(count, x)));
  }

  lemma PopsVfp(env: Env, start: nat, count: nat, x: bool, ws: seq<uint32>, sp: uint32, st: Regs, depth: int)
    requires start + count <= 32 && |ws| == VfpWords(count, x) && RegsOk(st) && st.r[SP] == Cell(sp, depth)
      && Poppable(env, sp, depth, ws)
    ensures Apply(env, st, PopVfp(start, count, x)) ==
      Done(st.(r := st.r[SP := Cell(sp, depth - VfpWords(count, x))], d := SetVfp(st.d, start, count, ws)))
  {
    hide Poppable, Cell, Wrap32, LoadWords, SetVfp;
    LoadsWords(env, ws, sp, depth);
    CellMove(sp, depth, VfpWords(count, x));
  }

  lemma VfpWordsAre(start: nat, count: nat, x: bool, short: bool, r: seq<uint32>, d: seq<uint64>)
    requires InstrOk(PushVfp(start, count, x, short)) && |r| == 16 && |d| == 32
    ensures var ws := Words(PushVfp(start, count, x, short), r, d);
      |ws| == VfpWords(count, x) && forall k :: 0 <= k < count ==> PairIs(d, start, ws, k)
  {
    VfpPairsAt(d, start, count);
    var ws := VfpPairs(d, start, count);
    hide VfpPairs, PairIs;
    forall k | 0 <= k < count ensures PairIs(d, start, Words(PushVfp(start, count, x, short), r, d), k) {
      MorePairs(d, start, ws, if x then [0] else [], k);
    }
  }

  lemma VfpStepBack(ins: Instr, r: seq<uint32>, d: seq<uint64>, st: Regs, ws: seq<uint32>, sp: uint32)
    requires InstrOk(ins) && ins.PushVfp? && |r| == 16 && |d| == 32 && RegsOk(st) && 2 * ins.count <= |ws|
    requires forall k :: 0 <= k < ins.count ==> PairIs(d, ins.start, ws, k)
    ensures StepBack(ins, r, d, st, st.(r := st.r[SP := sp], d := SetVfp(st.d, ins.start, ins.count, ws)))
  {
    var now := SetVfp(st.d, ins.start, ins.count, ws);
    forall i | 0 <= i < 32 ensures now[i] == if CoversVfp(ins, i) then d[i] else st.d[i] {
      if CoversVfp(ins, i) {
        assert PairIs(d, ins.start, ws, i - ins.start);
        PairBack(d, ins.start, ins.count, ws, i - ins.start);
      }
    }
  }

  lemma PairBack(d: seq<uint64>, start: nat, count: nat, ws: seq<uint32>, k: nat)
    requires |d| == 32 && start + count <= 32 && 2 * count <= |ws| && k < count
    requires ws[2 * k] == d[start + k] % TWO32 && ws[2 * k + 1] == d[start + k] / TWO32
    ensures Pair(ws[2 * k], ws[2 * k + 1]) == d[start + k]
  {
  }

  // ---- The whole descriptor -------------------------------------------------------------------

  predicate SavesPc(steps: seq<Instr>) { exists k :: 0 <= k < |steps| && SetsPc(OpOf(steps[k])) }

  /** Executing the descriptor of a prologue, from any state whose stack holds what the prologue saved, undoes it. */
  lemma {:induction false} Unwinds(env: Env, steps: seq<Instr>, r: seq<uint32>, d: seq<uint64>, st: Regs, setPc: bool)
      returns (st': Regs)
    requires Sane(steps) && |r| == 16 && |d| == 32 && RegsOk(st) && st.r[SP] == Cell(r[SP], Depth(steps))
    requires Saved(env.words, steps, r, d) && forall k :: 0 < k <= Floor(steps) ==> CellOk(env, r[SP], k)
    ensures Back(steps, r, d, st, st')
    ensures Run(env, st, setPc, Descriptor(steps), false) == Done(Finished(st', setPc || SavesPc(steps)))
  {
    hide *;
    if steps == [] {
      st' := st;
      UnwindsNothing(env, r, d, st, setPc);
    } else {
      var n := |steps| - 1;
      var mid := UnwindsLast(env, steps, r, d, st, setPc);
      st' := Unwinds(env, steps[..n], r, d, mid, setPc || SetsPc(OpOf(steps[n])));
      SavesPcStep(steps);
      BackStep(steps, r, d, st, mid, st');
    }
  }

  lemma UnwindsNothing(env: Env, r: seq<uint32>, d: seq<uint64>, st: Regs, setPc: bool)
    requires |r| == 16 && |d| == 32 && RegsOk(st) && st.r[SP] == Cell(r[SP], Depth([]))
    ensures Back([], r, d, st, st) && Sane([])
      && Run(env, st, setPc, Descriptor([]), false) == Done(Finished(st, setPc || SavesPc([])))
  {
    assert Cell(r[SP], 0) == r[SP];
  }

  /** The first opcode of the descriptor undoes the last step of the prologue. */
  lemma UnwindsLast(env: Env, steps: seq<Instr>, r: seq<uint32>, d: seq<uint64>, st: Regs, setPc: bool)
      returns (mid: Regs)
    requires Sane(steps) && steps != [] && |r| == 16 && |d| == 32 && RegsOk(st) && st.r[SP] == Cell(r[SP], Depth(steps))
    requires Saved(env.words, steps, r, d) && forall k :: 0 < k <= Floor(steps) ==> CellOk(env, r[SP], k)
    ensures var n := |steps| - 1;
      && Sane(steps[..n]) && RegsOk(mid) && mid.r[SP] == Cell(r[SP], Depth(steps[..n]))
        && StepBack(steps[n], r, d, st, mid)
      && Saved(env.words, steps[..n], r, d) && (forall k :: 0 < k <= Floor(steps[..n]) ==> CellOk(env, r[SP], k))
      && Run(env, st, setPc, Descriptor(steps), false)
         == Run(env, mid, setPc || SetsPc(OpOf(steps[n])), Descriptor(steps[..n]), false)
  {
    var n := |steps| - 1;
    hide *;
    LastParts(env, steps, r, d);
    UndoesStep(env, steps[n], r, d, st, Depth(steps));
    mid := Apply(env, st, OpOf(steps[n])).st;
    StepBackOk(steps[n], r, d, st, mid);
    RunOne(env, st, setPc, steps[n], Descriptor(steps[..n]));
  }

  lemma StepBackOk(ins: Instr, r: seq<uint32>, d: seq<uint64>, st: Regs, st': Regs)
    requires |r| == 16 && |d| == 32 && RegsOk(st) && StepBack(ins, r, d, st, st')
    ensures RegsOk(st')
  {
  }

  lemma LastParts(env: Env, steps: seq<Instr>, r: seq<uint32>, d: seq<uint64>)
    requires Sane(steps) && steps != [] && |r| == 16 && |d| == 32
    requires Saved(env.words, steps, r, d) && forall k :: 0 < k <= Floor(steps) ==> CellOk(env, r[SP], k)
    ensures var n := |steps| - 1;
      && Sane(steps[..n]) && AllOk(steps) && AllOk(steps[..n]) && InstrOk(steps[n])
      && Depth(steps) == Depth(steps[..n]) + Moved(steps[n])
      && Saved(env.words, steps[..n], r, d) && (forall k :: 0 < k <= Floor(steps[..n]) ==> CellOk(env, r[SP], k))
      && Poppable(env, r[SP], Depth(steps), Words(steps[n], r, d))
      && Descriptor(steps) == Encode(steps[n]) + Descriptor(steps[..n])
  {
    SaneStep(steps);
    FloorStep(steps);
    LastPoppable(env, steps, r, d);
  }

  lemma LastPoppable(env: Env, steps: seq<Instr>, r: seq<uint32>, d: seq<uint64>)
    requires Sane(steps) && steps != [] && |r| == 16 && |d| == 32
    requires Saved(env.words, steps, r, d) && forall k :: 0 < k <= Floor(steps) ==> CellOk(env, r[SP], k)
    ensures Poppable(env, r[SP], Depth(steps), Words(steps[|steps| - 1], r, d))
  {
    FloorStep(steps);
    WordsCount(steps[|steps| - 1], r, d);
  }

  /** Running a descriptor starts with its first instruction. */
  lemma RunOne(env: Env, st: Regs, setPc: bool, ins: Instr, rest: seq<byte>)
    requires RegsOk(st) && InstrOk(ins) && Apply(env, st, OpOf(ins)).Done?
    ensures Run(env, st, setPc, Encode(ins) + rest, false)
      == Run(env, Apply(env, st, OpOf(ins)).st, setPc || SetsPc(OpOf(ins)), rest, false)
  {
    DecodeEncode(ins, rest);
    assert |Encode(ins)| > 0;
    hide Decode, Encode, Apply;
  }

  lemma SavesPcStep(steps: seq<Instr>)
    requires steps != []
    ensures SavesPc(steps) <==> SavesPc(steps[..|steps| - 1]) || SetsPc(OpOf(steps[|steps| - 1]))
  {
    var n := |steps| - 1;
    if SavesPc(steps[..n]) {
      var k :| 0 <= k < |steps[..n]| && SetsPc(OpOf(steps[..n][k]));
      assert SetsPc(OpOf(steps[k]));
    }
    if SavesPc(steps) && !SetsPc(OpOf(steps[n])) {
      var k :| 0 <= k < |steps| && SetsPc(OpOf(steps[k]));
      assert SetsPc(OpOf(steps[..n][k]));
    }
  }

  lemma SavedCoreSplit(steps: seq<Instr>)
    requires steps != []
    ensures var n := |steps| - 1;
      forall i :: 0 <= i < 16 ==> (SavedCore(steps, i) <==> SavedCore(steps[..n], i) || CoreMask(steps[n])[i])
  {
    var n := |steps| - 1;
    forall i | 0 <= i < 16 ensures SavedCore(steps, i) <==> SavedCore(steps[..n], i) || CoreMask(steps[n])[i] {
      if SavedCore(steps[..n], i) {
        var k :| 0 <= k < |steps[..n]| && CoreMask(steps[..n][k])[i];
        assert CoreMask(steps[k])[i];
      }
      if SavedCore(steps, i) && !CoreMask(steps[n])[i] {
        var k :| 0 <= k < |steps| && CoreMask(steps[k])[i];
        assert CoreMask(steps[..n][k])[i];
      }
    }
  }

  lemma SavedVfpSplit(steps: seq<Instr>)
    requires steps != []
    ensures var n := |steps| - 1;
      forall i :: 0 <= i < 32 ==> (SavedVfp(steps, i) <==> SavedVfp(steps[..n], i) || CoversVfp(steps[n], i))
  {
    var n := |steps| - 1;
    forall i | 0 <= i < 32 ensures SavedVfp(steps, i) <==> SavedVfp(steps[..n], i) || CoversVfp(steps[n], i) {
      if SavedVfp(steps[..n], i) {
        var k :| 0 <= k < |steps[..n]| && CoversVfp(steps[..n][k], i);
        assert CoversVfp(steps[k], i);
      }
      if SavedVfp(steps, i) && !CoversVfp(steps[n], i) {
        var k :| 0 <= k < |steps| && CoversVfp(steps[k], i);
        assert CoversVfp(steps[..n][k], i);
      }
    }
  }

  lemma BackStep(steps: seq<Instr>, r: seq<uint32>, d: seq<uint64>, st: Regs, mid: Regs, st': Regs)
    requires steps != [] && |r| == 16 && |d| == 32 && RegsOk(st)
    requires StepBack(steps[|steps| - 1], r, d, st, mid) && Back(steps[..|steps| - 1], r, d, mid, st')
    ensures Back(steps, r, d, st, st')
  {
    SavedCoreSplit(steps);
    SavedVfpSplit(steps);
    hide SavedCore, SavedVfp, CoreMask, CoversVfp;
  }

  /**
   A function runs its prologue in machine state `m`, then anything that leaves the saved words and, in the end, the
   stack pointer alone. Unwinding from there restores every saved register, the stack pointer and the pc: the saved pc
   if there is one, else the lr, which is the saved lr if there is one. Registers that were not saved are left as they
   are.
   */
  lemma PrologueUndone(steps: seq<Instr>, m: Machine, env: Env, st: Regs) returns (res: Regs)
    requires Sane(steps) && MachineOk(m) && RegsOk(st)
    requires st.r[SP] == ExecAll(steps, m).r[SP]
    requires forall k :: 0 < k <= Floor(steps) ==>
      SameAt(ExecAll(steps, m).words, env.words, m.r[SP], k) && CellOk(env, m.r[SP], k)
    ensures Run(env, st, false, Descriptor(steps), false) == Done(res) && RegsOk(res)
    ensures res.r[SP] == m.r[SP]
    ensures forall i :: 0 <= i < 16 && i != SP && i != PC ==>
      res.r[i] == if SavedCore(steps, i) then m.r[i] else st.r[i]
    ensures forall i :: 0 <= i < 32 ==> res.d[i] == if SavedVfp(steps, i) then m.d[i] else st.d[i]
    ensures res.r[PC] == if SavesPc(steps) then m.r[PC] else res.r[LR]
    ensures res.thumb == (res.r[PC] % 2 == 1)
  {
    hide Sane, Saved, Floor, Depth, Run, Descriptor, ExecAll, CellOk, Cell, SameAt;
    PrologueSaves(steps, m);
    FloorBounds(steps);
    SavedFrame(ExecAll(steps, m).words, env.words, steps, m.r, m.d);
    var back := Unwinds(env, steps, m.r, m.d, st, false);
    res := Finished(back, SavesPc(steps));
    if SavesPc(steps) { PcSaved(steps); }
  }

  lemma PcSaved(steps: seq<Instr>)
    requires SavesPc(steps)
    ensures SavedCore(steps, PC)
  {
    var k :| 0 <= k < |steps| && SetsPc(OpOf(steps[k]));
    assert CoreMask(steps[k])[PC];
  }
}
