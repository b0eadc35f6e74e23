/** The leaves of the case tree end in REVERT: what an execution that follows one does at its end. */
module LeafReverts {
  import opened Options
  import opened Words
  import opened Bytecode
  import opened Machine
  import opened Dispatcher
  import opened DispatchSound
  import opened ForkTree
  import Opcodes
  import OpcodeSummaries

  /** Every instruction of the pieces is the one in the running code. */
  ghost predicate AllLoaded(pieces: Pieces, env: Env) {
    forall pc, i :: pc in pieces && 0 <= i < |pieces[pc]| ==> Loaded(pieces[pc][i], env)
  }

  ghost predicate PieceLoaded(piece: seq<Instruction>, env: Env) {
    IsPiece(piece) && forall i :: 0 <= i < |piece| ==> Loaded(piece[i], env)
  }

  lemma {:induction false} FollowedPieces(pieces: Pieces, a: AEnv, pc: nat, stack: seq<AVal>, pending: Decisions,
                                          fuel: nat, env: Env)
    requires PieceTable(pieces) && AllLoaded(pieces, env)
    requires Follow(pieces, a, pc, stack, pending, None, fuel).Finished?
    ensures forall s :: s in Follow(pieces, a, pc, stack, pending, None, fuel).steps ==> PieceLoaded(s.piece, env)
    decreases fuel
  {
    hide ExecuteFrom, Loaded, IsPiece;
    var piece := pieces[pc];
    var x := ExecuteFrom(piece, 0, stack, a);
    if x.fork.Some? {
      FollowedPieces(pieces, a, if pending[0].1 then x.fork.value.dest else EndPc(piece), x.stack, pending[1..],
              fuel - 1, env);
    } else if x.next.Some? {
      FollowedPieces(pieces, a, x.next.value, x.stack, pending, fuel - 1, env);
    }
  }

  /** A piece that ends in REVERT reverts, unless a fault or want of gas comes first. */
  lemma {:induction false} PieceReverts(piece: seq<Instruction>, k: nat, st: State, env: Env)
    requires k < |piece| && PieceLoaded(piece, env) && st.pc == piece[k].pc && piece[|piece| - 1].opcode == 0xFD
    ensures CutShort(Run(st, |piece| - k, env)) || Run(st, |piece| - k, env) == Halted(Reverted)
    decreases |piece| - k
  {
    hide Step, Run, IsTerminator, InstructionAt;
    InstructionPc(env.code, st.pc);
    DispatchSound.RunOne(st, |piece| - k, env);
    if k == |piece| - 1 {
      RevertsHere(st, env);
    } else {
      OpcodeSummaries.StepOn(st, env);
      Opcodes.SizeAt(st, env);
      if Step(st, env).Next? {
        PieceReverts(piece, k + 1, Step(st, env).state, env);
      }
    }
  }

  lemma {:induction false} RevertsHere(st: State, env: Env)
    requires Opcodes.At(st, env, 0xFD)
    ensures CutShort(Step(st, env)) || Step(st, env) == Halted(Reverted)
  {
    hide Step;
    if |st.stack| < 2 {
      Opcodes.TooFewOperands(st, env, 0xFD);
    } else {
      Opcodes.RevertSteps(st, env);
    }
  }

  lemma {:induction false} StepsRevert(steps: seq<PathStep>, st: State, env: Env)
    requires EndsInRevert(steps) && Takes(steps, st, env)
    requires forall s :: s in steps ==> PieceLoaded(s.piece, env)
    ensures CutShort(After(steps, st, env)) || After(steps, st, env) == Halted(Reverted)
    decreases |steps|
  {
    hide Run, ConcreteBranch, PieceLoaded;
    var r := Run(st, |steps[0].piece|, env);
    if |steps| == 1 {
      PieceReverts(steps[0].piece, 0, st, env);
    } else if r.Next? {
      assert steps[1..][|steps| - 2] == steps[|steps| - 1];
      StepsRevert(steps[1..], r.state, env);
    }
  }

  /** An execution that follows a leaf of the case tree to its end reverts there. */
  lemma {:induction false} LeafReverts(pieces: Pieces, a: AEnv, decisions: Decisions, t: Tree,
                                       l: (Decisions, seq<PathStep>), st: State, env: Env)
    requires PieceTable(pieces) && AllLoaded(pieces, env) && Settled(pieces, a, decisions)
    requires TreeFrom(pieces, a, decisions) == Some(t) && l in Leaves(t) && Takes(l.1, st, env)
    ensures CutShort(After(l.1, st, env)) || After(l.1, st, env) == Halted(Reverted)
  {
    hide Follow, Settled, TreeFrom, AllLoaded, IsPiece, EndsInRevert, Takes, After, PieceLoaded;
    LeavesReplay(pieces, a, decisions, t);
    FollowedPieces(pieces, a, 0, [], l.0, MAX_REPLAY, env);
    StepsRevert(l.1, st, env);
  }
}
