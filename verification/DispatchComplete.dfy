/**
 Completeness of the dispatcher analysis: what it does at every opcode, exactly where it gives up, and that
 a path on which it never gives up and which is short enough is found.
 */
module DispatchComplete {
  import opened Options
  import opened Words
  import opened WordArith
  import opened Bytecode
  import opened StackShapes
  import opened Machine
  import opened Symbolic
  import opened Dispatcher

  // ----- comparisons -----

  /** Two known numbers are always compared, and rightly. */
  lemma {:induction false} KnownCompared(a: nat, b: nat)
    ensures Compare(0x14, Num(a), Num(b)) == Some(Num(if a == b then 1 else 0))
    ensures Compare(0x10, Num(a), Num(b)) == Some(Num(if a < b then 1 else 0))
    ensures Compare(0x11, Num(a), Num(b)) == Some(Num(if a > b then 1 else 0))
  {
  }

  /** The size of a call with a selector against constants up to 4. */
  lemma {:induction false} BigCompared(n: nat)
    requires n <= 4
    ensures Compare(0x10, Big, Num(n)) == Some(Num(0)) && Compare(0x10, Num(n), Big) == Some(Num(1))
    ensures Compare(0x11, Big, Num(n)) == Some(Num(1)) && Compare(0x11, Num(n), Big) == Some(Num(0))
    ensures n < 4 ==> Compare(0x14, Big, Num(n)) == Some(Num(0)) && Compare(0x14, Num(n), Big) == Some(Num(0))
    ensures n == 4 ==> Compare(0x14, Big, Num(n)) == None && Compare(0x14, Num(n), Big) == None
  {
  }

  /** The size of a call without a selector against 4. */
  lemma {:induction false} SmallCompared()
    ensures Compare(0x10, Small, Num(4)) == Some(Num(1)) && Compare(0x10, Num(4), Small) == Some(Num(0))
    ensures Compare(0x11, Small, Num(4)) == Some(Num(0)) && Compare(0x11, Num(4), Small) == Some(Num(1))
    ensures Compare(0x14, Small, Num(4)) == Some(Num(0)) && Compare(0x14, Num(4), Small) == Some(Num(0))
  {
  }

  /** An unmatched selector differs from every constant, and where it stands among them is left open. */
  lemma {:induction false} UnmatchedCompared(n: nat, op: Byte)
    ensures Compare(0x14, NoMatch, Num(n)) == Some(Num(0)) && Compare(0x14, Num(n), NoMatch) == Some(Num(0))
    ensures op == 0x10 || op == 0x11 ==>
              Compare(op, NoMatch, Num(n)) == Some(Pivot) && Compare(op, Num(n), NoMatch) == Some(Pivot)
  {
  }

  /** A value that can be compared with the constant. */
  predicate ComparesWith(op: Byte, v: AVal, n: nat) {
    match v
    case Num(_) => true
    case Big => n < 4 || (n == 4 && op != 0x14)
    case Small => n == 4
    case NoMatch => true
    case CvNz => false
    case Cdw => false
    case Unk => false
    case Pivot => false
  }

  /** One of the two is a constant the other can be compared with. */
  predicate Comparable(op: Byte, a: AVal, b: AVal) {
    (a.Num? && ComparesWith(op, b, a.n)) || (b.Num? && ComparesWith(op, a, b.n))
  }

  /** The comparisons the analysis answers are exactly these. */
  lemma {:induction false} ComparedExactly(op: Byte, a: AVal, b: AVal)
    requires op == 0x14 || op == 0x10 || op == 0x11
    ensures Compare(op, a, b).Some? <==> Comparable(op, a, b)
  {
  }

  // ----- one instruction -----

  predicate Supported(op: Byte) {
    StackShape(op).Some?
  }

  /** Words the opcode needs on the stack. */
  function Depth(op: Byte): nat
    requires Supported(op)
  {
    StackShape(op).value.need
  }

  lemma {:induction false} OpOf(op: Byte)
    ensures Classify(op).Some? <==> Supported(op)
    ensures Supported(op) ==> Need(Classify(op).value) == Depth(op)
    ensures Supported(op) ==> StackShape(op).value.pushes - StackShape(op).value.pops
                              == Pushes(Classify(op).value) - Need(Classify(op).value)
  {
    hide Classify, StackShape, Need, Pushes;
    ClassifyMatchesShapes(op);
  }

  /** Pushes, POP and JUMPDEST. */
  lemma {:induction false} PushSteps(ins: Instruction, stack: seq<AVal>, env: AEnv)
    ensures 0x5F <= ins.opcode <= 0x7F ==>
              StepAbstract(ins, stack, env) == Continue([Num(ins.argument.GetOr(0))] + stack)
    ensures ins.opcode == 0x50 && 1 <= |stack| ==> StepAbstract(ins, stack, env) == Continue(stack[1..])
    ensures ins.opcode == 0x5B ==> StepAbstract(ins, stack, env) == Continue(stack)
  {
    hide StepAbstract, Classify;
    PushesAre(ins.opcode);
    if 0x5F <= ins.opcode <= 0x7F {
      PushStep(ins, stack, env);
    } else if ins.opcode == 0x5B || (ins.opcode == 0x50 && 1 <= |stack|) {
      DropStep(ins, stack, env);
    }
  }

  lemma {:induction false} PushesAre(op: Byte)
    ensures 0x5F <= op <= 0x7F ==> Classify(op) == Some(PushOp)
    ensures op == 0x50 ==> Classify(op) == Some(PopOp)
    ensures op == 0x5B ==> Classify(op) == Some(JumpDestOp)
  {
  }

  lemma {:induction false} PushStep(ins: Instruction, stack: seq<AVal>, env: AEnv)
    requires Classify(ins.opcode) == Some(PushOp)
    ensures StepAbstract(ins, stack, env) == Continue([Num(ins.argument.GetOr(0))] + stack)
  {
    hide Classify, Swapped, Compare, And;
    assert stack[0..] == stack;
  }

  lemma {:induction false} DropStep(ins: Instruction, stack: seq<AVal>, env: AEnv)
    requires Classify(ins.opcode) == Some(JumpDestOp) || (Classify(ins.opcode) == Some(PopOp) && 1 <= |stack|)
    ensures StepAbstract(ins, stack, env) == Continue(if Classify(ins.opcode) == Some(PopOp) then stack[1..] else stack)
  {
    hide Classify, Swapped, Produce;
    assert stack[0..] == stack;
  }

  /** Copies. */
  lemma {:induction false} DupStep(ins: Instruction, stack: seq<AVal>, env: AEnv, n: nat)
    requires 1 <= n <= 16 && ins.opcode == 0x7F + n && n <= |stack|
    ensures StepAbstract(ins, stack, env) == Continue([stack[n - 1]] + stack)
  {
  }

  /** Exchanges. */
  lemma {:induction false} SwapStep(ins: Instruction, stack: seq<AVal>, env: AEnv, n: nat)
    requires 1 <= n <= 16 && ins.opcode == 0x8F + n && n < |stack|
    ensures StepAbstract(ins, stack, env) == Continue(stack[0 := stack[n]][n := stack[0]])
  {
    assert Swapped(stack[..n + 1]) + stack[n + 1..] == stack[0 := stack[n]][n := stack[0]];
  }

  /** What is known of the call: its value, the size of its data, and its selector. */
  lemma {:induction false} CallSteps(ins: Instruction, stack: seq<AVal>, env: AEnv)
    ensures ins.opcode == 0x34 ==>
              StepAbstract(ins, stack, env) == Continue([if env.valueZero then Num(0) else CvNz] + stack)
    ensures ins.opcode == 0x36 ==>
              StepAbstract(ins, stack, env) == Continue([if env.big then Big else Small] + stack)
    ensures ins.opcode == 0x35 && 1 <= |stack| ==>
              StepAbstract(ins, stack, env) == Continue([if stack[0] == Num(0) then Cdw else Unk] + stack[1..])
  {
    assert stack[0..] == stack;
  }

  /** The selector is the first word of the calldata shifted right by 224 or divided by 2^224, masked or not. */
  lemma {:induction false} SelectorSteps(ins: Instruction, stack: seq<AVal>, env: AEnv)
    requires 2 <= |stack|
    ensures var sel := if env.selector.Some? then Num(env.selector.value) else NoMatch;
            && (ins.opcode == 0x1C ==>
                  StepAbstract(ins, stack, env) ==
                  Continue([if stack[0] == Num(224) && stack[1] == Cdw then sel else Unk] + stack[2..]))
            && (ins.opcode == 0x04 ==>
                  StepAbstract(ins, stack, env) ==
                  Continue([if stack[0] == Cdw && stack[1] == Num(SELECTOR_UNIT) then sel else Unk] + stack[2..]))
            && (ins.opcode == 0x16 ==>
                  StepAbstract(ins, stack, env) ==
                  Continue([if stack[0] == sel && stack[1] == Num(0xFFFF_FFFF) then sel
                            else if stack[1] == sel && stack[0] == Num(0xFFFF_FFFF) then sel
                            else if stack[0].Num? && stack[1].Num? then Num(AndBits(stack[0].n, stack[1].n))
                            else Unk] + stack[2..]))
  {
    hide AndBits;
    var args := stack[..2];
    assert args[0] == stack[0] && args[1] == stack[1];
  }

  /** ISZERO decides known numbers and a nonzero call value; comparisons answer or give up. */
  lemma {:induction false} TestSteps(ins: Instruction, stack: seq<AVal>, env: AEnv)
    ensures ins.opcode == 0x15 && 1 <= |stack| ==>
              StepAbstract(ins, stack, env) ==
              Continue([if stack[0].Num? then Num(if stack[0].n == 0 then 1 else 0)
                        else if stack[0] == CvNz then Num(0) else Unk] + stack[1..])
    ensures ins.opcode in {0x14, 0x10, 0x11} && 2 <= |stack| ==>
              StepAbstract(ins, stack, env) ==
              var v := Compare(ins.opcode, stack[0], stack[1]);
              if v.None? then Stuck else Continue([v.value] + stack[2..])
  {
    hide Compare;
    if ins.opcode in {0x14, 0x10, 0x11} && 2 <= |stack| {
      var args := stack[..2];
      assert args[0] == stack[0] && args[1] == stack[1];
    }
  }

  /** Jumps go to known destinations; a JUMPI also needs a known condition, or splits at a pivot. */
  lemma {:induction false} JumpSteps(ins: Instruction, stack: seq<AVal>, env: AEnv)
    ensures ins.opcode == 0x56 && 1 <= |stack| ==>
              StepAbstract(ins, stack, env) == if stack[0].Num? then Jump(stack[0].n, stack[1..]) else Stuck
    ensures ins.opcode == 0x57 && 2 <= |stack| ==>
              StepAbstract(ins, stack, env) ==
              if !stack[0].Num? then Stuck
              else if stack[1] == Pivot then Split(stack[0].n, stack[2..])
              else if stack[1] == CvNz then Decided(true, stack[0].n, stack[2..])
              else if stack[1].Num? then Decided(stack[1].n != 0, stack[0].n, stack[2..])
              else Stuck
  {
    hide StepAbstract, Classify;
    JumpsAre();
    if ins.opcode == 0x56 && 1 <= |stack| {
      JumpStep(ins, stack, env);
    } else if ins.opcode == 0x57 && 2 <= |stack| {
      JumpIfStep(ins, stack, env);
    }
  }

  lemma {:induction false} JumpsAre()
    ensures Classify(0x56) == Some(JumpOp) && Classify(0x57) == Some(JumpIOp)
  {
  }

  lemma {:induction false} JumpStep(ins: Instruction, stack: seq<AVal>, env: AEnv)
    requires Classify(ins.opcode) == Some(JumpOp) && 1 <= |stack|
    ensures StepAbstract(ins, stack, env) == if stack[0].Num? then Jump(stack[0].n, stack[1..]) else Stuck
  {
    hide Classify, Produce, Swapped;
  }

  lemma {:induction false} JumpIfStep(ins: Instruction, stack: seq<AVal>, env: AEnv)
    requires Classify(ins.opcode) == Some(JumpIOp) && 2 <= |stack|
    ensures StepAbstract(ins, stack, env) ==
            if !stack[0].Num? then Stuck
            else if stack[1] == Pivot then Split(stack[0].n, stack[2..])
            else if stack[1] == CvNz then Decided(true, stack[0].n, stack[2..])
            else if stack[1].Num? then Decided(stack[1].n != 0, stack[0].n, stack[2..])
            else Stuck
  {
    hide Classify, Produce, Swapped;
    var args := stack[..2];
    assert args[0] == stack[0] && args[1] == stack[1];
  }

  /** STOP, RETURN, REVERT and INVALID end the path. */
  lemma {:induction false} HaltSteps(ins: Instruction, stack: seq<AVal>, env: AEnv)
    requires ins.opcode in {0x00, 0xF3, 0xFD, 0xFE}
    ensures StepAbstract(ins, stack, env) == Stop
  {
  }

  /** The opcodes of the lemmas above. */
  predicate Followed(op: Byte) {
    || 0x5F <= op <= 0x9F
    || op in {0x50, 0x5B, 0x34, 0x36, 0x35, 0x1C, 0x04, 0x16, 0x15, 0x14, 0x10, 0x11, 0x56, 0x57}
    || op in {0x00, 0xF3, 0xFD, 0xFE}
  }

  /** Every other supported opcode takes what it takes and leaves an unknown word where it leaves one. */
  lemma {:induction false} OtherSteps(ins: Instruction, stack: seq<AVal>, env: AEnv)
    requires Supported(ins.opcode) && !Followed(ins.opcode) && Depth(ins.opcode) <= |stack|
    ensures var s := StackShape(ins.opcode).value;
            && s.pushes <= 1 && s.pops <= |stack|
            && StepAbstract(ins, stack, env) == Continue((if s.pushes == 1 then [Unk] else []) + stack[s.pops..])
  {
    hide Classify, StackShape, Swapped;
    OpOf(ins.opcode);
    OtherOps(ins.opcode);
  }

  /** None of them is treated specially. */
  predicate Plain(op: Byte) {
    var (c, s) := (Classify(op), StackShape(op));
    && c.Some? && s.Some?
    && var o := c.value;
       && !Halting(o) && !o.PushOp? && !o.DupOp? && !o.SwapOp? && !o.JumpOp? && !o.JumpIOp? && !o.CallDataLoadOp?
       && o != EnvOp(0x34) && o != EnvOp(0x36) && o != Unary(0x15)
       && (o.Binary? ==> o.op !in {0x1C, 0x04, 0x16, 0x14, 0x10, 0x11})
       && s.value.pops == Need(o) && s.value.pushes == Pushes(o) && s.value.pushes <= 1
  }

  lemma {:induction false} OtherOps(op: Byte)
    requires Supported(op) && !Followed(op)
    ensures Plain(op)
  {
    hide Plain;
    if op < 0x20 {
      LowIsPlain(op);
    } else if op < 0x36 {
      MiddleIsPlain(op);
    } else if op < 0x42 {
      CopiesArePlain(op);
    } else if op < 0x55 {
      HighIsPlain(op);
    } else if op < 0xA0 {
      HigherIsPlain(op);
    } else {
      HighestIsPlain(op);
    }
  }

  lemma {:induction false} LowIsPlain(op: Byte)
    requires op < 0x20 && Supported(op) && !Followed(op)
    ensures Plain(op)
  {
  }

  lemma {:induction false} MiddleIsPlain(op: Byte)
    requires 0x20 <= op < 0x36 && Supported(op) && !Followed(op)
    ensures Plain(op)
  {
  }

  lemma {:induction false} CopiesArePlain(op: Byte)
    requires 0x36 <= op < 0x42 && Supported(op) && !Followed(op)
    ensures Plain(op)
  {
  }

  lemma {:induction false} HighIsPlain(op: Byte)
    requires 0x42 <= op < 0x55 && Supported(op) && !Followed(op)
    ensures Plain(op)
  {
  }

  lemma {:induction false} HigherIsPlain(op: Byte)
    requires 0x55 <= op < 0xA0 && Supported(op) && !Followed(op)
    ensures Plain(op)
  {
  }

  lemma {:induction false} HighestIsPlain(op: Byte)
    requires 0xA0 <= op && Supported(op) && !Followed(op)
    ensures Plain(op)
  {
  }

  /** The operands do not decide where the instruction leads or what it answers. */
  predicate Unknown(op: Byte, stack: seq<AVal>) {
    || (op == 0x56 && |stack| >= 1 && !stack[0].Num?)
    || (op == 0x57 && |stack| >= 2 && !(stack[0].Num? && (stack[1].Num? || stack[1].CvNz? || stack[1].Pivot?)))
    || (op in {0x14, 0x10, 0x11} && |stack| >= 2 && !Comparable(op, stack[0], stack[1]))
  }

  /** The analysis gives up at this instruction. */
  predicate Obstructed(ins: Instruction, stack: seq<AVal>) {
    var op := ins.opcode;
    !Supported(op) || (op !in {0x00, 0xF3, 0xFD, 0xFE} && (|stack| < Depth(op) || Unknown(op, stack)))
  }

  /**
   The analysis gives up exactly at an unsupported opcode, where operands are missing, at a jump whose
   destination or condition is not known, and at a comparison that the class of calls does not decide.
   */
  lemma {:induction false} StuckExactly(ins: Instruction, stack: seq<AVal>, env: AEnv)
    ensures StepAbstract(ins, stack, env).Stuck? <==> Obstructed(ins, stack)
  {
    hide StepAbstract, Compare, Comparable, StackShape, Classify;
    var op := ins.opcode;
    if !Supported(op) || (op !in {0x00, 0xF3, 0xFD, 0xFE} && |stack| < Depth(op)) {
      NotExecuted(ins, stack, env);
    } else if op in {0x00, 0xF3, 0xFD, 0xFE} {
      HaltSteps(ins, stack, env);
    } else {
      Depths(op);
      if op == 0x56 || op == 0x57 {
        JumpSteps(ins, stack, env);
      } else if op in {0x14, 0x10, 0x11} {
        TestSteps(ins, stack, env);
        ComparedExactly(op, stack[0], stack[1]);
      } else {
        NeverStuck(ins, stack, env);
      }
    }
  }

  lemma {:induction false} NotExecuted(ins: Instruction, stack: seq<AVal>, env: AEnv)
    requires Supported(ins.opcode) ==> ins.opcode !in {0x00, 0xF3, 0xFD, 0xFE} && |stack| < Depth(ins.opcode)
    ensures StepAbstract(ins, stack, env) == Stuck
  {
    hide Classify, StackShape, Need;
    OpOf(ins.opcode);
    HaltsAre(ins.opcode);
  }

  lemma {:induction false} HaltsAre(op: Byte)
    ensures Classify(op).Some? && Halting(Classify(op).value) ==> op in {0x00, 0xF3, 0xFD, 0xFE}
  {
  }

  lemma {:induction false} Depths(op: Byte)
    ensures op in {0x15, 0x35, 0x50, 0x56} ==> Supported(op) && Depth(op) == 1
    ensures op in {0x04, 0x10, 0x11, 0x14, 0x16, 0x1C, 0x57} ==> Supported(op) && Depth(op) == 2
    ensures 0x80 <= op <= 0x8F ==> Supported(op) && Depth(op) == op - 0x7F
    ensures 0x90 <= op <= 0x9F ==> Supported(op) && Depth(op) == op - 0x8F + 1
  {
  }

  lemma {:induction false} NeverStuck(ins: Instruction, stack: seq<AVal>, env: AEnv)
    requires Supported(ins.opcode) && Depth(ins.opcode) <= |stack|
    requires ins.opcode !in {0x00, 0xF3, 0xFD, 0xFE, 0x56, 0x57, 0x14, 0x10, 0x11}
    ensures StepAbstract(ins, stack, env).Continue?
  {
    hide StepAbstract, StackShape;
    var op := ins.opcode;
    Depths(op);
    if !Followed(op) {
      OtherSteps(ins, stack, env);
    } else if op in {0x34, 0x36, 0x35} {
      CallSteps(ins, stack, env);
    } else if op in {0x1C, 0x04, 0x16} {
      SelectorSteps(ins, stack, env);
    } else if op == 0x15 {
      TestSteps(ins, stack, env);
    } else if 0x80 <= op <= 0x8F {
      DupStep(ins, stack, env, op - 0x7F);
    } else if 0x90 <= op <= 0x9F {
      SwapStep(ins, stack, env, op - 0x8F);
    } else {
      PushSteps(ins, stack, env);
    }
  }

  // ----- one piece -----

  /** The stacks before the first instructions of a piece, each left by the one before. */
  predicate Walks(piece: seq<Instruction>, stacks: seq<seq<AVal>>, env: AEnv) {
    && 0 < |stacks| <= |piece| + 1
    && forall i :: 0 <= i < |stacks| - 1 ==> StepAbstract(piece[i], stacks[i], env) == Continue(stacks[i + 1])
  }

  /** The walk leads to an instruction at which the analysis gives up. */
  predicate EndsObstructed(piece: seq<Instruction>, stacks: seq<seq<AVal>>, env: AEnv) {
    && Walks(piece, stacks, env) && |stacks| <= |piece|
    && Obstructed(piece[|stacks| - 1], stacks[|stacks| - 1])
  }

  /** A piece has no execution if and only if the analysis gives up at an instruction it reaches. */
  lemma {:induction false} PathErrorExactly(piece: seq<Instruction>, stack: seq<AVal>, env: AEnv)
    requires piece != []
    ensures ExecuteFrom(piece, 0, stack, env).PathError?
            <==> exists stacks :: EndsObstructed(piece, stacks, env) && stacks[0] == stack
  {
    hide StepAbstract, Obstructed, ExecuteFrom;
    if ExecuteFrom(piece, 0, stack, env).PathError? {
      var stacks := ObstructionReached(piece, 0, [stack], env);
      assert EndsObstructed(piece, stacks, env);
    }
    forall stacks | EndsObstructed(piece, stacks, env) && stacks[0] == stack
      ensures ExecuteFrom(piece, 0, stack, env).PathError?
    {
      WalkExecutes(piece, stacks, |stacks| - 1, env);
      StuckExactly(piece[|stacks| - 1], stacks[|stacks| - 1], env);
      OneInstruction(piece, |stacks| - 1, stacks[|stacks| - 1], env);
    }
  }

  lemma {:induction false} OneInstruction(piece: seq<Instruction>, k: nat, stack: seq<AVal>, env: AEnv)
    requires piece != [] && k < |piece|
    ensures var (step, x) := (StepAbstract(piece[k], stack, env), ExecuteFrom(piece, k, stack, env));
            && (step.Stuck? ==> x.PathError?)
            && (step.Continue? ==> x == ExecuteFrom(piece, k + 1, step.stack, env))
            && (!step.Stuck? && !step.Continue? ==> x.Executed?)
  {
    hide StepAbstract;
  }

  lemma {:induction false} NoInstruction(piece: seq<Instruction>, stack: seq<AVal>, env: AEnv)
    requires piece != []
    ensures ExecuteFrom(piece, |piece|, stack, env).Executed?
  {
  }

  lemma {:induction false} WalkExecutes(piece: seq<Instruction>, stacks: seq<seq<AVal>>, k: nat, env: AEnv)
    requires piece != [] && Walks(piece, stacks, env) && k < |stacks|
    ensures ExecuteFrom(piece, 0, stacks[0], env) == ExecuteFrom(piece, k, stacks[k], env)
    decreases k
  {
    hide StepAbstract, ExecuteFrom;
    if k > 0 {
      WalkExecutes(piece, stacks, k - 1, env);
      OneInstruction(piece, k - 1, stacks[k - 1], env);
    }
  }

  lemma {:induction false} ObstructionReached(piece: seq<Instruction>, k: nat, before: seq<seq<AVal>>, env: AEnv)
    returns (stacks: seq<seq<AVal>>)
    requires piece != [] && k <= |piece| && |before| == k + 1 && Walks(piece, before, env)
    requires ExecuteFrom(piece, k, before[k], env).PathError?
    ensures EndsObstructed(piece, stacks, env) && stacks[0] == before[0]
    decreases |piece| - k
  {
    hide StepAbstract, Obstructed, ExecuteFrom;
    if k == |piece| {
      NoInstruction(piece, before[k], env);
      assert false;
    } else {
      OneInstruction(piece, k, before[k], env);
      StuckExactly(piece[k], before[k], env);
      var step := StepAbstract(piece[k], before[k], env);
      if step.Stuck? {
        stacks := before;
      } else {
        stacks := ObstructionReached(piece, k + 1, before + [step.stack], env);
      }
    }
  }

  // ----- whole paths -----

  /** Where the analysis is: the pc of a piece, the stack there, and the decisions not used yet. */
  datatype Place = Place(pc: nat, stack: seq<AVal>, pending: Decisions)

  /** The fork of a piece is one the next decision is about. */
  predicate Resolved(x: Execution, p: Place)
    requires x.Executed?
  {
    x.fork.Some? && p.pending != [] && p.pending[0].0 == x.fork.value.jumpiPc
  }

  /** The analysis goes from one piece to the next, along its own branch or a decision. */
  predicate GoesOn(pieces: Pieces, env: AEnv, stop: Option<nat>, p: Place, q: Place)
    requires IndexedByPc(pieces)
  {
    && stop != Some(p.pc) && p.pc in pieces
    && var piece := pieces[p.pc];
       var x := ExecuteFrom(piece, 0, p.stack, env);
       && x.Executed?
       && if x.fork.Some? then
            && Resolved(x, p)
            && q == Place(if p.pending[0].1 then x.fork.value.dest else EndPc(piece), x.stack, p.pending[1..])
          else x.next.Some? && q == Place(x.next.value, x.stack, p.pending)
  }

  predicate Trace(pieces: Pieces, env: AEnv, stop: Option<nat>, places: seq<Place>)
    requires IndexedByPc(pieces)
  {
    && places != []
    && forall i :: 0 <= i < |places| - 1 ==> GoesOn(pieces, env, stop, places[i], places[i + 1])
  }

  /** No piece starts here, or the analysis gives up in it. */
  predicate Lost(pieces: Pieces, env: AEnv, stop: Option<nat>, p: Place)
    requires IndexedByPc(pieces)
  {
    stop != Some(p.pc) && (p.pc !in pieces || ExecuteFrom(pieces[p.pc], 0, p.stack, env).PathError?)
  }

  /** The analysis visits more pieces than its bound, or comes to where it is lost before. */
  predicate Fails(pieces: Pieces, env: AEnv, stop: Option<nat>, places: seq<Place>, fuel: nat)
    requires IndexedByPc(pieces)
  {
    && Trace(pieces, env, stop, places)
    && (|places| == fuel + 1 || (|places| <= fuel && Lost(pieces, env, stop, places[|places| - 1])))
  }

  /** There is no path if and only if the analysis exceeds its bound or is lost at a place it comes to. */
  lemma {:induction false} NoPathExactly(pieces: Pieces, env: AEnv, p: Place, stop: Option<nat>, fuel: nat)
    requires IndexedByPc(pieces)
    ensures Follow(pieces, env, p.pc, p.stack, p.pending, stop, fuel).NoPath?
            <==> exists places :: Fails(pieces, env, stop, places, fuel) && places[0] == p
  {
    hide Follow, ExecuteFrom, GoesOn, Lost;
    if Follow(pieces, env, p.pc, p.stack, p.pending, stop, fuel).NoPath? {
      var places := FailureReached(pieces, env, p, stop, fuel);
      assert Fails(pieces, env, stop, places, fuel);
    }
    forall places | Fails(pieces, env, stop, places, fuel) && places[0] == p
      ensures Follow(pieces, env, p.pc, p.stack, p.pending, stop, fuel).NoPath?
    {
      FailureFollowed(pieces, env, places, stop, fuel);
    }
  }

  /** One piece of a path: on to the next, lost, or at an end. */
  lemma {:induction false} OnePiece(pieces: Pieces, env: AEnv, p: Place, stop: Option<nat>, fuel: nat)
    requires IndexedByPc(pieces) && fuel > 0
    ensures Lost(pieces, env, stop, p) ==> Follow(pieces, env, p.pc, p.stack, p.pending, stop, fuel).NoPath?
    ensures forall q :: GoesOn(pieces, env, stop, p, q) ==>
              (Follow(pieces, env, p.pc, p.stack, p.pending, stop, fuel).NoPath?
               <==> Follow(pieces, env, q.pc, q.stack, q.pending, stop, fuel - 1).NoPath?)
    ensures Follow(pieces, env, p.pc, p.stack, p.pending, stop, fuel).NoPath? ==>
              Lost(pieces, env, stop, p) || exists q :: GoesOn(pieces, env, stop, p, q)
  {
    hide ExecuteFrom;
    var none := Follow(pieces, env, p.pc, p.stack, p.pending, stop, fuel).NoPath?;
    if none && !Lost(pieces, env, stop, p) {
      var piece := pieces[p.pc];
      var x := ExecuteFrom(piece, 0, p.stack, env);
      var q := if x.fork.Some? then Place(if p.pending[0].1 then x.fork.value.dest else EndPc(piece), x.stack,
              p.pending[1..])
               else Place(x.next.value, x.stack, p.pending);
      assert GoesOn(pieces, env, stop, p, q);
    }
  }

  lemma {:induction false} NoFuel(pieces: Pieces, env: AEnv, p: Place, stop: Option<nat>)
    requires IndexedByPc(pieces)
    ensures Follow(pieces, env, p.pc, p.stack, p.pending, stop, 0).NoPath?
  {
  }

  lemma {:induction false} FailureReached(pieces: Pieces, env: AEnv, p: Place, stop: Option<nat>, fuel: nat)
    returns (places: seq<Place>)
    requires IndexedByPc(pieces) && Follow(pieces, env, p.pc, p.stack, p.pending, stop, fuel).NoPath?
    ensures Fails(pieces, env, stop, places, fuel) && places[0] == p
    decreases fuel
  {
    hide Follow, ExecuteFrom, GoesOn, Lost;
    if fuel == 0 {
      places := [p];
    } else {
      OnePiece(pieces, env, p, stop, fuel);
      if Lost(pieces, env, stop, p) {
        places := [p];
      } else {
        var q :| GoesOn(pieces, env, stop, p, q);
        var rest := FailureReached(pieces, env, q, stop, fuel - 1);
        places := [p] + rest;
        forall i | 0 <= i < |places| - 1 ensures GoesOn(pieces, env, stop, places[i], places[i + 1]) {
          if i > 0 {
            assert places[i] == rest[i - 1] && places[i + 1] == rest[i];
          }
        }
      }
    }
  }

  lemma {:induction false} FailureFollowed(pieces: Pieces, env: AEnv, places: seq<Place>, stop: Option<nat>, fuel: nat)
    requires IndexedByPc(pieces) && Fails(pieces, env, stop, places, fuel)
    ensures Follow(pieces, env, places[0].pc, places[0].stack, places[0].pending, stop, fuel).NoPath?
    decreases fuel
  {
    hide Follow, ExecuteFrom, GoesOn, Lost;
    if fuel == 0 {
      NoFuel(pieces, env, places[0], stop);
    } else {
      OnePiece(pieces, env, places[0], stop, fuel);
      if |places| > 1 {
        var rest := places[1..];
        forall i | 0 <= i < |rest| - 1 ensures GoesOn(pieces, env, stop, rest[i], rest[i + 1]) {
          assert places[i + 1] == rest[i] && places[i + 2] == rest[i + 1];
        }
        FailureFollowed(pieces, env, rest, stop, fuel - 1);
        assert GoesOn(pieces, env, stop, places[0], rest[0]);
      }
    }
  }

  /** The analysis ends here: at the stop, at a terminator, or at a pivot no decision is about. */
  predicate Arrives(pieces: Pieces, env: AEnv, stop: Option<nat>, p: Place)
    requires IndexedByPc(pieces)
  {
    || stop == Some(p.pc)
    || (&& p.pc in pieces
        && var x := ExecuteFrom(pieces[p.pc], 0, p.stack, env);
           x.Executed? && (if x.fork.Some? then !Resolved(x, p) else x.next.None?))
  }

  /** A path of at most `fuel` pieces that arrives somewhere is found. */
  lemma {:induction false} ArrivalFound(pieces: Pieces, env: AEnv, places: seq<Place>, stop: Option<nat>, fuel: nat)
    requires IndexedByPc(pieces) && Trace(pieces, env, stop, places) && |places| <= fuel
    requires Arrives(pieces, env, stop, places[|places| - 1])
    ensures !Follow(pieces, env, places[0].pc, places[0].stack, places[0].pending, stop, fuel).NoPath?
    decreases fuel
  {
    hide Follow, ExecuteFrom, GoesOn, Lost, Arrives;
    OnePiece(pieces, env, places[0], stop, fuel);
    if |places| == 1 {
      ArrivalIsEnd(pieces, env, places[0], stop);
    } else {
      var rest := places[1..];
      forall i | 0 <= i < |rest| - 1 ensures GoesOn(pieces, env, stop, rest[i], rest[i + 1]) {
        assert places[i + 1] == rest[i] && places[i + 2] == rest[i + 1];
      }
      ArrivalFound(pieces, env, rest, stop, fuel - 1);
      assert GoesOn(pieces, env, stop, places[0], rest[0]);
    }
  }

  lemma {:induction false} ArrivalIsEnd(pieces: Pieces, env: AEnv, p: Place, stop: Option<nat>)
    requires IndexedByPc(pieces) && Arrives(pieces, env, stop, p)
    ensures !Lost(pieces, env, stop, p) && forall q :: !GoesOn(pieces, env, stop, p, q)
  {
    hide ExecuteFrom;
  }

  /** Paths are followed for 200 pieces and replayed for 300. */
  lemma {:induction false} PathBounds(pieces: Pieces, env: AEnv, places: seq<Place>, stop: Option<nat>,
                                      decisions: Decisions)
    requires IndexedByPc(pieces)
    ensures Trace(pieces, env, stop, places) && places[0] == Place(0, [], []) ==>
              && (|places| <= 200 && Arrives(pieces, env, stop, places[|places| - 1]) ==>
                    !PathOf(pieces, env, stop).NoPath?)
              && (|places| == 201 ==> PathOf(pieces, env, stop).NoPath?)
    ensures Trace(pieces, env, None, places) && places[0] == Place(0, [], decisions) ==>
              && (|places| <= 300 && Arrives(pieces, env, None, places[|places| - 1]) ==>
                    !ReplayOf(pieces, env, decisions).NoPath?)
              && (|places| == 301 ==> ReplayOf(pieces, env, decisions).NoPath?)
  {
    hide Follow, ExecuteFrom, GoesOn, Arrives, Lost;
    if Trace(pieces, env, stop, places) && places[0] == Place(0, [], []) {
      if |places| <= 200 && Arrives(pieces, env, stop, places[|places| - 1]) {
        ArrivalFound(pieces, env, places, stop, MAX_PATH);
      } else if |places| == 201 {
        FailureFollowed(pieces, env, places, stop, MAX_PATH);
      }
    }
    if Trace(pieces, env, None, places) && places[0] == Place(0, [], decisions) {
      if |places| <= 300 && Arrives(pieces, env, None, places[|places| - 1]) {
        ArrivalFound(pieces, env, places, None, MAX_REPLAY);
      } else if |places| == 301 {
        FailureFollowed(pieces, env, places, None, MAX_REPLAY);
      }
    }
  }

  // ----- a selector and its function -----

  /** PUSH0 CALLDATALOAD PUSH1 224 SHR PUSH4 selector EQ PUSH dest JUMPI: the test for one selector. */
  predicate TestsSelector(piece: seq<Instruction>, selector: nat, dest: nat) {
    && |piece| == 8
    && piece[0].opcode == 0x5F && piece[0].argument == None
    && piece[1].opcode == 0x35
    && piece[2].opcode == 0x60 && piece[2].argument == Some(224)
    && piece[3].opcode == 0x1C
    && piece[4].opcode == 0x63 && piece[4].argument == Some(selector)
    && piece[5].opcode == 0x14
    && 0x60 <= piece[6].opcode <= 0x7F && piece[6].argument == Some(dest)
    && piece[7].opcode == 0x57
  }

  /** In the class of a listed selector exactly the test for that selector jumps; in that of none, no test does. */
  lemma {:induction false} SelectorTested(piece: seq<Instruction>, selector: nat, dest: nat, env: AEnv)
    requires TestsSelector(piece, selector, dest)
    ensures ExecuteFrom(piece, 0, [], env) ==
            if env.selector == Some(selector) then Executed(Taken, Some(dest), [], None)
            else Executed(FallThrough, Some(EndPc(piece)), [], None)
  {
    hide StepAbstract, ExecuteFrom, Compare;
    var sel := if env.selector.Some? then Num(env.selector.value) else NoMatch;
    var answer := Num(if env.selector == Some(selector) then 1 else 0);
    SelectorRead(piece, selector, dest, env);
    StepTo(piece, 4, [sel], [Num(selector), sel], env) by { PushSteps(piece[4], [sel], env); }
    if env.selector.Some? {
      KnownCompared(selector, env.selector.value);
    } else {
      UnmatchedCompared(selector, 0x14);
    }
    StepTo(piece, 5, [Num(selector), sel], [answer], env) by { TestSteps(piece[5], [Num(selector), sel], env); }
    StepTo(piece, 6, [answer], [Num(dest), answer], env) by { PushSteps(piece[6], [answer], env); }
    JumpSteps(piece[7], [Num(dest), answer], env);
    assert [Num(dest), answer][2..] == [];
    LastDecides(piece, 7, [Num(dest), answer], env);
  }

  lemma {:induction false} SelectorRead(piece: seq<Instruction>, selector: nat, dest: nat, env: AEnv)
    requires TestsSelector(piece, selector, dest)
    ensures var sel := if env.selector.Some? then Num(env.selector.value) else NoMatch;
            ExecuteFrom(piece, 0, [], env) == ExecuteFrom(piece, 4, [sel], env)
  {
    hide StepAbstract, ExecuteFrom;
    var sel := if env.selector.Some? then Num(env.selector.value) else NoMatch;
    StepTo(piece, 0, [], [Num(0)], env) by { PushSteps(piece[0], [], env); }
    StepTo(piece, 1, [Num(0)], [Cdw], env) by { CallSteps(piece[1], [Num(0)], env); }
    StepTo(piece, 2, [Cdw], [Num(224), Cdw], env) by { PushSteps(piece[2], [Cdw], env); }
    StepTo(piece, 3, [Num(224), Cdw], [sel], env) by { SelectorSteps(piece[3], [Num(224), Cdw], env); }
  }

  lemma {:induction false} StepTo(piece: seq<Instruction>, k: nat, stack: seq<AVal>, next: seq<AVal>, env: AEnv)
    requires piece != [] && k < |piece| && StepAbstract(piece[k], stack, env) == Continue(next)
    ensures ExecuteFrom(piece, k, stack, env) == ExecuteFrom(piece, k + 1, next, env)
  {
    hide StepAbstract, ExecuteFrom;
    OneInstruction(piece, k, stack, env);
  }

  lemma {:induction false} LastDecides(piece: seq<Instruction>, k: nat, stack: seq<AVal>, env: AEnv)
    requires piece != [] && k < |piece| && StepAbstract(piece[k], stack, env).Decided?
    ensures var d := StepAbstract(piece[k], stack, env);
            ExecuteFrom(piece, k, stack, env) ==
            Executed(if d.taken then Taken else FallThrough, Some(if d.taken then d.dest else EndPc(piece)), d.stack,
                     None)
  {
    hide StepAbstract;
  }

  /** JUMPDEST STOP. */
  predicate Stops(piece: seq<Instruction>) {
    |piece| == 2 && piece[0].opcode == 0x5B && piece[1].opcode == 0x00
  }

  lemma {:induction false} StopExecuted(piece: seq<Instruction>, env: AEnv)
    requires Stops(piece)
    ensures ExecuteFrom(piece, 0, [], env) == Executed(NoBranch, None, [], None)
  {
    hide StepAbstract;
    PushSteps(piece[0], [], env);
    HaltSteps(piece[1], [], env);
  }

  /** A dispatcher of one test: the call of the listed selector is followed into its function, to its end. */
  lemma {:induction false} ListedSelectorFollowed(pieces: Pieces, selector: nat, dest: nat, env: AEnv)
    requires IndexedByPc(pieces) && 0 in pieces && dest in pieces && dest != 0
    requires TestsSelector(pieces[0], selector, dest) && Stops(pieces[dest]) && env.selector == Some(selector)
    ensures PathOf(pieces, env, None) ==
            Finished([PathStep(pieces[0], Taken), PathStep(pieces[dest], NoBranch)])
  {
    hide ExecuteFrom, Follow;
    SelectorTested(pieces[0], selector, dest, env);
    StopExecuted(pieces[dest], env);
    TwoPieces(pieces, env, dest, MAX_PATH);
    assert [PathStep(pieces[0], Taken)] + [PathStep(pieces[dest], NoBranch)]
        == [PathStep(pieces[0], Taken), PathStep(pieces[dest], NoBranch)];
  }

  lemma {:induction false} TwoPieces(pieces: Pieces, env: AEnv, dest: nat, fuel: nat)
    requires IndexedByPc(pieces) && 0 in pieces && dest in pieces && fuel >= 2
    requires ExecuteFrom(pieces[0], 0, [], env) == Executed(Taken, Some(dest), [], None)
    requires ExecuteFrom(pieces[dest], 0, [], env) == Executed(NoBranch, None, [], None)
    ensures Follow(pieces, env, 0, [], [], None, fuel) ==
            Finished([PathStep(pieces[0], Taken)] + [PathStep(pieces[dest], NoBranch)])
  {
    hide ExecuteFrom;
    assert Follow(pieces, env, dest, [], [], None, fuel - 1) == Finished([PathStep(pieces[dest], NoBranch)]);
  }
}
