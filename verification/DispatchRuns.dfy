/** The dispatcher analysis from end to end: the test for a selector, followed and then run. */
module DispatchRuns {
  import opened Options
  import opened Words
  import opened WordArith
  import opened Bytecode
  import opened StackShapes
  import opened Machine
  import opened Symbolic
  import opened Dispatcher
  import opened DispatchSound
  import Complete = DispatchComplete

  /** The claim that the analysis relies on for a listed selector: only that it is the call's. */
  const SELECTOR_ONLY := Claims(false, false, true)

  /** Instructions that rely on nothing else. */
  predicate Modest(ins: Instruction, stack: seq<AVal>) {
    || 0x5F <= ins.opcode <= 0x7F
    || ins.opcode in {0x35, 0x1C, 0x5B, 0x00}
    || (ins.opcode == 0x14 && |stack| >= 2 && stack[0].Num? && stack[1].Num?)
    || (ins.opcode == 0x57 && |stack| >= 2 && stack[1].Num?)
  }

  lemma {:induction false} ModestOk(ins: Instruction, stack: seq<AVal>, a: AEnv, table: set<nat>, env: Env)
    requires Modest(ins, stack) && Loaded(ins, env)
    ensures InstructionOk(ins, stack, a, SELECTOR_ONLY, table, env)
  {
    hide Loaded;
    if |stack| >= 2 {
      assert stack[..2][0] == stack[0] && stack[..2][1] == stack[1];
    }
  }

  /** Every instruction that execution from here reaches is one of them. */
  predicate AllModest(piece: seq<Instruction>, k: nat, stack: seq<AVal>, a: AEnv)
    requires k <= |piece|
    decreases |piece| - k
  {
    k < |piece| ==>
      && Modest(piece[k], stack)
      && var step := StepAbstract(piece[k], stack, a);
         step.Continue? ==> AllModest(piece, k + 1, step.stack, a)
  }

  lemma {:induction false} AllModestOk(piece: seq<Instruction>, k: nat, stack: seq<AVal>, a: AEnv, table: set<nat>,
                                       env: Env)
    requires k <= |piece| && AllModest(piece, k, stack, a)
    requires forall i :: 0 <= i < |piece| ==> Loaded(piece[i], env)
    ensures PieceOk(piece, k, stack, a, SELECTOR_ONLY, table, env)
    decreases |piece| - k
  {
    hide StepAbstract, Modest, Loaded, InstructionOk;
    if k < |piece| {
      ModestOk(piece[k], stack, a, table, env);
      if StepAbstract(piece[k], stack, a).Continue? {
        AllModestOk(piece, k + 1, StepAbstract(piece[k], stack, a).stack, a, table, env);
      }
    }
  }

  lemma {:induction false} ModestStep(piece: seq<Instruction>, k: nat, stack: seq<AVal>, next: seq<AVal>, a: AEnv)
    requires k < |piece| && Modest(piece[k], stack)
    requires StepAbstract(piece[k], stack, a) == Continue(next) && AllModest(piece, k + 1, next, a)
    ensures AllModest(piece, k, stack, a)
  {
    hide StepAbstract, Modest;
  }

  lemma {:induction false} TestIsModest(piece: seq<Instruction>, selector: nat, dest: nat, a: AEnv)
    requires Complete.TestsSelector(piece, selector, dest) && a.selector.Some?
    ensures AllModest(piece, 0, [], a)
  {
    hide StepAbstract, AllModest, Compare;
    var sel := Num(a.selector.value);
    var answer := Num(if selector == a.selector.value then 1 else 0);
    var (s5, s6, s7) := ([Num(selector), sel], [answer], [Num(dest), answer]);
    Complete.JumpSteps(piece[7], s7, a);
    LastModest(piece, 7, s7, a);
    Complete.PushSteps(piece[6], s6, a);
    ModestStep(piece, 6, s6, s7, a);
    Complete.TestSteps(piece[5], s5, a);
    Complete.KnownCompared(selector, a.selector.value);
    ModestStep(piece, 5, s5, s6, a);
    Complete.PushSteps(piece[4], [sel], a);
    ModestStep(piece, 4, [sel], s5, a);
    Complete.SelectorSteps(piece[3], [Num(224), Cdw], a);
    ModestStep(piece, 3, [Num(224), Cdw], [sel], a);
    Complete.PushSteps(piece[2], [Cdw], a);
    ModestStep(piece, 2, [Cdw], [Num(224), Cdw], a);
    Complete.CallSteps(piece[1], [Num(0)], a);
    ModestStep(piece, 1, [Num(0)], [Cdw], a);
    Complete.PushSteps(piece[0], [], a);
    ModestStep(piece, 0, [], [Num(0)], a);
  }

  lemma {:induction false} LastModest(piece: seq<Instruction>, k: nat, stack: seq<AVal>, a: AEnv)
    requires k < |piece| && Modest(piece[k], stack) && !StepAbstract(piece[k], stack, a).Continue?
    ensures AllModest(piece, k, stack, a)
  {
    hide StepAbstract, Modest;
  }

  lemma {:induction false} StopIsModest(piece: seq<Instruction>, a: AEnv)
    requires Complete.Stops(piece)
    ensures AllModest(piece, 0, [], a)
  {
    hide StepAbstract, AllModest;
    Complete.PushSteps(piece[0], [], a);
    Complete.HaltSteps(piece[1], [], a);
    LastModest(piece, 1, [], a);
    ModestStep(piece, 0, [], [], a);
  }

  lemma {:induction false} TwoPiecesOk(pieces: Pieces, selector: nat, dest: nat, a: AEnv, table: set<nat>, env: Env,
                                       fuel: nat)
    requires PieceTable(pieces) && 0 in pieces && dest in pieces
    requires Complete.TestsSelector(pieces[0], selector, dest) && Complete.Stops(pieces[dest])
    requires a.selector == Some(selector)
    requires forall i :: 0 <= i < |pieces[0]| ==> Loaded(pieces[0][i], env)
    requires forall i :: 0 <= i < |pieces[dest]| ==> Loaded(pieces[dest][i], env)
    ensures PathOk(pieces, a, SELECTOR_ONLY, table, env, 0, [], [], None, fuel)
  {
    hide ExecuteFrom, PieceOk, Loaded, IsPiece, AllModest;
    TestIsModest(pieces[0], selector, dest, a);
    AllModestOk(pieces[0], 0, [], a, table, env);
    StopIsModest(pieces[dest], a);
    AllModestOk(pieces[dest], 0, [], a, table, env);
    Complete.SelectorTested(pieces[0], selector, dest, a);
    Complete.StopExecuted(pieces[dest], a);
    assert fuel > 0 ==> PathOk(pieces, a, SELECTOR_ONLY, table, env, dest, [], [], None, fuel - 1);
  }

  /**
   A call of the selector a dispatcher tests for: whatever else is in the call, the machine takes the jump to
   the function and stops at its end, unless it faults or runs out of gas.
   */
  lemma {:induction false} ListedSelectorRuns(pieces: Pieces, selector: nat, dest: nat, env: Env, st: State)
    requires PieceTable(pieces) && 0 in pieces && dest in pieces && dest != 0
    requires Complete.TestsSelector(pieces[0], selector, dest) && Complete.Stops(pieces[dest])
    requires forall i :: 0 <= i < |pieces[0]| ==> Loaded(pieces[0][i], env)
    requires forall i :: 0 <= i < |pieces[dest]| ==> Loaded(pieces[dest][i], env)
    requires CallDataWord(env.calldata, 0) / SELECTOR_UNIT == selector && st.pc == 0 && st.stack == []
    ensures var steps := [PathStep(pieces[0], Taken), PathStep(pieces[dest], NoBranch)];
            Takes(steps, st, env) && (CutShort(After(steps, st, env)) || After(steps, st, env).Halted?)
  {
    hide PathOk, Loaded, IsPiece, Takes, After, CallDataWord, Follow;
    var a := AEnv(true, true, Some(selector));
    TwoPiecesOk(pieces, selector, dest, a, {}, env, MAX_PATH);
    Complete.ListedSelectorFollowed(pieces, selector, dest, a);
    DispatcherSound(pieces, a, SELECTOR_ONLY, {}, env, None, st);
  }
}
