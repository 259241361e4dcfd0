/**
 Functions with a frame pointer (Runtime/Ehabi/agr_ehabi.c:207-216): the descriptor starts from a saved register, so
 that the stack pointer may have been moved in any way.
 */
module EhabiFrame {
  import opened Prelude
  import opened EhabiSpec
  import opened EhabiPrologue
  import opened EhabiStack
  import opened EhabiUnwind

  /** Registers that opcode 0x90 to 0x9f accepts. */
  predicate FrameReg(i: nat) { i < 16 && i != SP && i != PC }

  /** Steps that only move the stack pointer. */
  predicate MovesOk(moves: seq<Instr>) { AllOk(moves) && forall i :: 0 <= i < |moves| ==> !Pushes(moves[i]) }

  /** The value of the frame register: the stack pointer, with an offset made of moves (`add fp, sp, #k`). */
  function FrameValue(sp: uint32, moves: seq<Instr>): (r: uint32)
    requires MovesOk(moves)
  {
    Cell(sp, Depth(moves))
  }

  /** The opcodes that undo the moves, last one first. */
  function MoveBytes(moves: seq<Instr>): (r: seq<byte>)
    requires MovesOk(moves)
  {
    if moves == [] then [] else Encode(moves[|moves| - 1]) + MoveBytes(moves[..|moves| - 1])
  }

  /** Start from the frame register, undo the offset, then undo the prologue. */
  function FrameDescriptor(frame: nat, moves: seq<Instr>, steps: seq<Instr>): (r: seq<byte>)
    requires FrameReg(frame) && MovesOk(moves) && Sane(steps)
  {
    [0x90 + frame] + (MoveBytes(moves) + Descriptor(steps))
  }

  /** Opcode 0x90 + frame. */
  lemma StartsFromFrame(env: Env, st: Regs, frame: nat, rest: seq<byte>)
    requires FrameReg(frame) && RegsOk(st)
    ensures Run(env, st, false, [0x90 + frame] + rest, false) ==
      Run(env, st.(r := st.r[SP := st.r[frame]]), false, rest, false)
  {
    assert ([0x90 + frame] + rest)[1..] == rest;
  }

  lemma LastMove(moves: seq<Instr>, rest: seq<byte>)
    requires MovesOk(moves) && moves != []
    ensures var n := |moves| - 1;
      && AllOk(moves[..n]) && MovesOk(moves[..n]) && InstrOk(moves[n]) && !Pushes(moves[n])
      && Depth(moves) == Depth(moves[..n]) + Moved(moves[n])
      && MoveBytes(moves) + rest == Encode(moves[n]) + (MoveBytes(moves[..n]) + rest)
  {
    hide Encode, Moved;
  }

  /** The moves are undone one by one, and nothing but the stack pointer changes. */
  lemma {:induction false} MovesUndone(env: Env, st: Regs, sp: uint32, moves: seq<Instr>, rest: seq<byte>)
    requires MovesOk(moves) && RegsOk(st) && st.r[SP] == FrameValue(sp, moves)
    ensures Run(env, st, false, MoveBytes(moves) + rest, false) ==
      Run(env, st.(r := st.r[SP := sp]), false, rest, false)
    decreases |moves|
  {
    hide Encode, Moved, Run, Apply, MoveBytes, Cell, MovesOk, InstrOk, Pushes, Depth, OpOf;
    if moves == [] {
      NoMoves(sp, rest);
      assert st.r[SP := sp] == st.r;
    } else {
      var n := |moves| - 1;
      LastMove(moves, rest);
      var mid := st.(r := st.r[SP := FrameValue(sp, moves[..n])]);
      assert mid.r[SP := sp] == st.r[SP := sp];
      LastUndone(env, st, sp, moves[n], Depth(moves[..n]), MoveBytes(moves[..n]) + rest);
      MovesUndone(env, mid, sp, moves[..n], rest);
    }
  }

  lemma NoMoves(sp: uint32, rest: seq<byte>)
    ensures MovesOk([]) && MoveBytes([]) + rest == rest && FrameValue(sp, []) == sp
  {
  }

  lemma LastUndone(env: Env, st: Regs, sp: uint32, move: Instr, depth: int, rest: seq<byte>)
    requires InstrOk(move) && !Pushes(move) && RegsOk(st) && st.r[SP] == Cell(sp, depth + Moved(move))
    ensures Run(env, st, false, Encode(move) + rest, false) ==
      Run(env, st.(r := st.r[SP := Cell(sp, depth)]), false, rest, false)
  {
    MoveUndone(env, st, sp, move, depth);
    hide Encode, Moved, Run, Apply, Cell, InstrOk, Pushes, OpOf;
    RunOne(env, st, false, move, rest);
  }

  lemma MoveUndone(env: Env, st: Regs, sp: uint32, move: Instr, depth: int)
    requires InstrOk(move) && !Pushes(move) && RegsOk(st) && st.r[SP] == Cell(sp, depth + Moved(move))
    ensures Apply(env, st, OpOf(move)) == Done(st.(r := st.r[SP := Cell(sp, depth)])) && !SetsPc(OpOf(move))
  {
    CellMove(sp, depth + Moved(move), Moved(move));
    hide Cell, Wrap32;
  }

  /**
   A function runs its prologue, sets its frame register, and then does anything that leaves the saved words and the
   frame register alone: wherever the stack pointer is, unwinding restores what the prologue saved.
   */
  lemma FrameUndone(steps: seq<Instr>, moves: seq<Instr>, frame: nat, m: Machine, env: Env, st: Regs)
      returns (res: Regs)
    requires Sane(steps) && MovesOk(moves) && FrameReg(frame) && MachineOk(m) && RegsOk(st)
    requires st.r[frame] == FrameValue(ExecAll(steps, m).r[SP], moves)
    requires forall k :: 0 < k <= Floor(steps) ==>
      SameAt(ExecAll(steps, m).words, env.words, m.r[SP], k) && CellOk(env, m.r[SP], k)
    ensures Run(env, st, false, FrameDescriptor(frame, moves, steps), false) == Done(res) && RegsOk(res)
    ensures res.r[SP] == m.r[SP]
    ensures forall i :: 0 <= i < 16 && i != SP && i != PC ==>
      res.r[i] == if SavedCore(steps, i) then m.r[i] else st.r[i]
    ensures forall i :: 0 <= i < 32 ==> res.d[i] == if SavedVfp(steps, i) then m.d[i] else st.d[i]
    ensures res.r[PC] == if SavesPc(steps) then m.r[PC] else res.r[LR]
    ensures res.thumb == (res.r[PC] % 2 == 1)
  {
    var sp := ExecAll(steps, m).r[SP];
    var at, back := st.(r := st.r[SP := st.r[frame]]), st.(r := st.r[SP := sp]);
    hide Sane, Floor, Run, Descriptor, ExecAll, CellOk, SameAt, MoveBytes, Depth, Cell;
    StartsFromFrame(env, st, frame, MoveBytes(moves) + Descriptor(steps));
    MovesUndone(env, at, sp, moves, Descriptor(steps));
    assert at.r[SP := sp] == back.r;
    res := PrologueUndone(steps, m, env, back);
  }
}
