/**
 Soundness and exactness of summaries: a concrete run from a state that instantiates a summary's entry
 ends in the state the summary evaluates to exactly when the summary's side conditions hold.
 */
module SymSound {
  import opened Options
  import opened Words
  import opened WordArith
  import opened Bytecode
  import opened StackShapes
  import opened Machine
  import opened Symbolic

  // ----- each symbolic piece denotes the concrete one -----

  lemma {:induction false} FnDenotes(op: Byte, x: Word, y: Word)
    ensures BinaryWord(op, x, y) ==
            if op == 0x1B || op == 0x1C then Apply(LibraryFn(op), y, x) else Apply(LibraryFn(op), x, y)
  {
    hide Div, SDiv, Mod, SignExtend, Flag, Power, AndBits, OrBits, XorBits, ByteAt, Sar, Pow2, Wrap, AddWord, SubWord,
         Signed;
  }

  lemma {:induction false} BinaryDenotes(op: Byte, a: Term, b: Term, env: Env, e: Entry)
    ensures Eval(BinaryTerm(op, a, b), env, e) == BinaryWord(op, Eval(a, env, e), Eval(b, env, e))
  {
    hide Apply, BinaryWord, LibraryFn;
    FnDenotes(op, Eval(a, env, e), Eval(b, env, e));
  }

  /** The symbolic and the concrete state agree on everything a step reads. */
  predicate SameData(s: Sym, st: State, env: Env, e: Entry) {
    && st.mem == EvalMem(s.mem, env, e)
    && st.aw == EvalAw(s.aw, env, e)
    && st.world == EvalWorld(s.world, env, e)
    && (!s.existential ==> st.spent == e.spent + EvalCosts(s.costs, env, e))
  }

  /** The word GAS pushes in a concrete state. */
  function GasPushed(st: State, env: Env): Word {
    Wrap(Saturating(env.gas, st.spent + 2))
  }

  /** The next hidden gas word of the entry is the one GAS pushes now. */
  predicate GasKnown(s: Sym, st: State, env: Env, e: Entry) {
    s.existential ==> s.gasWords < |e.gasWords| && e.gasWords[s.gasWords] == GasPushed(st, env)
  }

  lemma {:induction false} ResultDenotes(o: Op, ins: Instruction, imm: Word, args: seq<Term>, s: Sym, st: State,
          sites: Sites,
                      env: Env, e: Entry)
    requires |args| == Need(o) && HasResult(o) && SameData(s, st, env, e)
    requires o.PushOp? ==> imm == Eval(PushTerm(ins, sites), env, e)
    requires o.GasOp? ==> GasKnown(s, st, env, e)
    ensures Result(o, imm, EvalStack(args, env, e), st, env) == Eval(ResultTerm(o, ins, args, s, sites), env, e)
  {
    hide Apply, BinaryWord, BinaryTerm, LibraryFn, PushTerm, ReadPadded, EnvironmentWord, CallDataWord, AddMod, MulMod,
         Wrap, LoadWord, Lookup, EvalMem, EvalAw, EvalWorld, EvalCosts, Classify, IsZero, Not;
    if o.Binary? {
      BinaryDenotes(o.op, args[0], args[1], env, e);
    } else if o.SLoadOp? || o.TLoadOp? || o.AccountOp? || o.MLoadOp? || o.KeccakOp? || o.GasOp? {
      StateResultDenotes(o, ins, imm, args, s, st, sites, env, e);
    }
  }

  /** Results that read the memory, the account map or the gas counter. */
  lemma {:induction false} StateResultDenotes(o: Op, ins: Instruction, imm: Word, args: seq<Term>, s: Sym, st: State,
          sites: Sites, env: Env, e: Entry)
    requires |args| == Need(o) && HasResult(o) && SameData(s, st, env, e)
    requires o.SLoadOp? || o.TLoadOp? || o.AccountOp? || o.MLoadOp? || o.KeccakOp? || o.GasOp?
    requires o.GasOp? ==> GasKnown(s, st, env, e)
    ensures Result(o, imm, EvalStack(args, env, e), st, env) == Eval(ResultTerm(o, ins, args, s, sites), env, e)
  {
    hide ReadPadded, Wrap, LoadWord, Lookup, EvalMem, EvalAw, EvalWorld, EvalCosts;
  }

  lemma {:induction false} OutDenotes(o: Op, ins: Instruction, imm: Word, args: seq<Term>, s: Sym, st: State,
          sites: Sites,
                   env: Env, e: Entry)
    requires |args| == Need(o) && SameData(s, st, env, e)
    requires o.PushOp? ==> imm == Eval(PushTerm(ins, sites), env, e)
    requires o.GasOp? ==> GasKnown(s, st, env, e)
    ensures Out(o, imm, EvalStack(args, env, e), st, env) == EvalStack(OutTerms(o, ins, args, s, sites), env, e)
  {
    hide Eval, ResultTerm, Result, SameData, GasKnown;
    if HasResult(o) {
      ResultDenotes(o, ins, imm, args, s, st, sites, env, e);
    } else if o.DupOp? {
      LitZero(env, e);
    }
  }

  lemma {:induction false} LitZero(env: Env, e: Entry)
    ensures Eval(Lit(0), env, e) == 0
  {
  }

  lemma {:induction false} MemDenotes(o: Op, args: seq<Term>, mem: MemTerm, env: Env, e: Entry)
    requires |args| == Need(o)
    ensures EvalMem(MemTermAfter(o, args, mem), env, e) ==
            MemAfter(o, EvalStack(args, env, e), EvalMem(mem, env, e), env)
  {
    hide Eval, WriteBytes, WordBytes;
  }

  lemma {:induction false} AwDenotes(o: Op, args: seq<Term>, aw: AwTerm, env: Env, e: Entry)
    requires |args| == Need(o) && !Halting(o)
    ensures EvalAw(AwTermAfter(o, args, aw), env, e) == AwAfter(o, EvalStack(args, env, e), EvalAw(aw, env, e))
  {
    hide Touch, Machine.Max;
    LitLengths(env, e);
  }

  lemma {:induction false} WorldDenotes(o: Op, args: seq<Term>, world: WorldTerm, env: Env, e: Entry)
    requires |args| == Need(o)
    ensures EvalWorld(WorldTermAfter(o, args, world), env, e) ==
            WorldAfter(o, EvalStack(args, env, e), EvalWorld(world, env, e))
  {
    hide Eval;
  }

  lemma {:induction false} CostsAppend(a: seq<CostTerm>, b: seq<CostTerm>, env: Env, e: Entry)
    ensures EvalCosts(a + b, env, e) == EvalCosts(a, env, e) + EvalCosts(b, env, e)
    decreases |b|
  {
    hide EvalCost;
    if b == [] {
      assert a + b == a;
    } else {
      var n := |b| - 1;
      assert (a + b)[..|a + b| - 1] == a + b[..n];
      CostsAppend(a, b[..n], env, e);
    }
  }

  /** Outside warm and cold operations the appended costs are the price. */
  lemma {:induction false} CostDenotes(o: Op, op: Byte, args: seq<Term>, s: Sym, st: State, env: Env, e: Entry)
    requires |args| == Need(o) && !Halting(o) && !WarmCold(o) && SameData(s, st, env, e)
    ensures EvalCosts(CostTerms(o, op, args, s.aw), env, e) == Cost(o, op, EvalStack(args, env, e), st, env)
  {
    hide Eval, EvalCosts, EvalCost, StaticCost, ExpCost, WordCount, ExpansionCost, Touch, Machine.Max, EvalAw;
    var costs := CostTerms(o, op, args, s.aw);
    if |costs| == 1 {
      OneCostDenotes(o, op, args, s, st, env, e);
    } else {
      TwoCosts(costs[0], costs[1], env, e);
      CostTermDenotes(costs[0], env, e);
      CostTermDenotes(costs[1], env, e);
      LitLengths(env, e);
    }
  }

  lemma {:induction false} OneCostDenotes(o: Op, op: Byte, args: seq<Term>, s: Sym, st: State, env: Env, e: Entry)
    requires |args| == Need(o) && !Halting(o) && !WarmCold(o) && SameData(s, st, env, e)
    requires |CostTerms(o, op, args, s.aw)| == 1
    ensures EvalCosts(CostTerms(o, op, args, s.aw), env, e) == Cost(o, op, EvalStack(args, env, e), st, env)
  {
    hide Eval, EvalCosts, EvalCost, StaticCost, ExpCost, WordCount, ExpansionCost, Touch, Machine.Max, EvalAw;
    var costs := CostTerms(o, op, args, s.aw);
    OneCost(costs[0], env, e);
    CostTermDenotes(costs[0], env, e);
  }

  lemma {:induction false} LitLengths(env: Env, e: Entry)
    ensures Eval(Lit(32), env, e) == 32 && Eval(Lit(1), env, e) == 1
  {
  }

  lemma {:induction false} OneCost(c: CostTerm, env: Env, e: Entry)
    ensures EvalCosts([c], env, e) == EvalCost(c, env, e)
  {
    assert [c][..0] == [];
  }

  lemma {:induction false} TwoCosts(c: CostTerm, d: CostTerm, env: Env, e: Entry)
    ensures EvalCosts([c, d], env, e) == EvalCost(c, env, e) + EvalCost(d, env, e)
  {
    assert [c, d][..1] == [c];
    OneCost(c, env, e);
  }

  /** One level of the meaning of a cost. */
  lemma {:induction false} CostTermDenotes(c: CostTerm, env: Env, e: Entry)
    ensures EvalCost(c, env, e) ==
      match c
      case Gas(n) => n
      case Growth(aw, at, len) =>
        ExpansionCost(EvalAw(aw, env, e), Touch(EvalAw(aw, env, e), Eval(at, env, e), Eval(len, env, e)))
      case MoveGrowth(aw, at, from, len) =>
        ExpansionCost(EvalAw(aw, env, e),
                      Touch(EvalAw(aw, env, e), Machine.Max(Eval(at, env, e), Eval(from, env, e)), Eval(len, env, e)))
      case PerWord(base, rate, len) => base + rate * WordCount(Eval(len, env, e))
      case LogData(len, topics) => 375 + 8 * Eval(len, env, e) + topics * 375
      case ExpGas(exponent) => ExpCost(Eval(exponent, env, e))
  {
    hide ExpansionCost, Touch, Machine.Max, WordCount, ExpCost;
  }

  // ----- one step -----

  /** The branch a summary follows is the one the condition selects. */
  predicate Follows(o: Op, args: seq<Word>, branch: Branch)
    requires |args| == Need(o)
  {
    o.JumpIOp? ==> (args[1] != 0 <==> branch.Taken?)
  }

  /** The conditions an operation adds say that it does not fault and goes where the summary goes. */
  lemma {:induction false} HypsDenote(o: Op, args: seq<Term>, branch: Branch, fullCopy: bool, env: Env, e: Entry)
    requires |args| == Need(o)
    requires o.ReturnDataCopyOp? && fullCopy ==> Guard(o, EvalStack(args, env, e), env)
    ensures AllHold(NewHyps(o, args, branch, fullCopy), env, e) <==>
            Guard(o, EvalStack(args, env, e), env) && Follows(o, EvalStack(args, env, e), branch)
  {
    hide Eval, JumpDests;
    var hyps := NewHyps(o, args, branch, fullCopy);
    assert |hyps| > 0 ==> hyps[0] in hyps;
    assert |hyps| > 1 ==> hyps[1] in hyps;
  }

  lemma {:induction false} AddedHyps(hyps: seq<Hyp>, added: seq<Hyp>, h: Hyp)
    ensures h in AddHyps(hyps, added) <==> h in hyps || h in added
    decreases |added|
  {
    if added != [] {
      AddedHyps(if added[0] in hyps && !added[0].CopyInBounds? then hyps else hyps + [added[0]], added[1..], h);
      assert added == [added[0]] + added[1..];
    }
  }

  lemma {:induction false} AllHoldAdded(hyps: seq<Hyp>, added: seq<Hyp>, env: Env, e: Entry)
    ensures AllHold(AddHyps(hyps, added), env, e) <==> AllHold(hyps, env, e) && AllHold(added, env, e)
  {
    hide Holds, AddHyps;
    forall h ensures h in AddHyps(hyps, added) <==> h in hyps || h in added {
      AddedHyps(hyps, added, h);
    }
  }

  /** The concrete state is the summary's, evaluated, on top of an untouched rest of the stack. */
  predicate Rel(s: Sym, st: State, rest: seq<Word>, env: Env, e: Entry) {
    && SameData(s, st, env, e)
    && st.stack == EvalStack(s.stack, env, e) + rest
    && st.pc == Eval(s.pc, env, e)
    && s.terminal.None?
    && |s.stack| <= s.maxPrefix
  }

  /** The instruction is decoded, up to site words, from the running code. */
  predicate Placed(ins: Instruction, sites: Sites, env: Env, words: string -> Word) {
    && ins.pc + ins.Size() <= |env.code| < WORD_MODULUS
    && var here := InstructionAt(env.code, ins.pc);
       && here.opcode == ins.opcode
       && here.width == ins.width
       && (Classify(ins.opcode) == Some(PushOp) ==> Immediate(here) == SiteOrArgument(ins, sites, words))
  }

  /** The word a push of the block pushes once its site is filled in. */
  function SiteOrArgument(ins: Instruction, sites: Sites, words: string -> Word): Word {
    if 0x60 <= ins.opcode && ins.pc + 1 in sites then Wrap(words(sites[ins.pc + 1].1) % Pow256(ins.width))
    else Wrap(ins.argument.GetOr(0))
  }

  /** The code at the state's pc is the block's instruction, up to the word written into a site. */
  predicate Decodes(ins: Instruction, st: State, sites: Sites, env: Env, e: Entry) {
    && st.pc == ins.pc
    && Placed(ins, sites, env, e.words)
  }

  lemma {:induction false} PushTermDenotes(ins: Instruction, sites: Sites, env: Env, e: Entry)
    ensures Eval(PushTerm(ins, sites), env, e) == SiteOrArgument(ins, sites, e.words)
  {
  }

  function EvalTerminal(t: Terminal, env: Env, e: Entry): Halt {
    match t
    case StopsWith(world) => Returned(EvalWorld(world, env, e), [])
    case ReturnsWith(world, mem, off, len) =>
      Returned(EvalWorld(world, env, e), ReadPadded(EvalMem(mem, env, e), Eval(off, env, e), Eval(len, env, e)))
    case RevertsWith => Reverted
    case InvalidWith => Failed
  }

  /** A stack of terms above a concrete rest, split at an operation's operands. */
  lemma {:induction false} SplitStack(stack: seq<Term>, n: nat, st: seq<Word>, rest: seq<Word>, env: Env, e: Entry)
    requires n <= |stack| && st == EvalStack(stack, env, e) + rest
    ensures n <= |st|
    ensures st[..n] == EvalStack(stack[..n], env, e)
    ensures st[n..] == EvalStack(stack[n..], env, e) + rest
  {
    hide Eval;
  }

  lemma {:induction false} JoinStack(a: seq<Term>, b: seq<Term>, env: Env, e: Entry)
    ensures EvalStack(a + b, env, e) == EvalStack(a, env, e) + EvalStack(b, env, e)
  {
    hide Eval;
  }

  lemma {:induction false} PcDenotes(o: Op, args: seq<Term>, ins: Instruction, branch: Branch, env: Env, e: Entry)
    requires |args| == Need(o) && ins.pc + ins.Size() < WORD_MODULUS && Follows(o, EvalStack(args, env, e), branch)
    ensures PcAfter(o, EvalStack(args, env, e), ins.pc, ins.Size()) ==
            Eval(PcTermAfter(o, args, ins, branch), env, e)
  {
  }

  lemma {:induction false} TerminalDenotes(o: Op, args: seq<Term>, s: Sym, st: State, env: Env, e: Entry)
    requires |args| == Need(o) && Halting(o) && SameData(s, st, env, e)
    ensures HaltOf(o, EvalStack(args, env, e), st) == EvalTerminal(TerminalOf(o, args, s), env, e)
  {
    hide Eval, EvalMem, EvalWorld, EvalAw, EvalCosts, ReadPadded;
  }

  /**
   What one concrete step does beside one symbolic step.  The new conditions hold exactly when the step
   does not fault and follows the branch; then it runs out of gas, halts as the summary says, or keeps
   the relation.
   */
  predicate StepMatches(s: Sym, s': Sym, st: State, rest: seq<Word>, o: Op, branch: Branch, fullCopy: bool, env: Env,
          e: Entry)
    requires Need(o) <= |s.stack|
  {
    var r := Step(st, env);
    var args := EvalStack(s.stack[..Need(o)], env, e);
    && (AllHold(NewHyps(o, s.stack[..Need(o)], branch, fullCopy), env, e) <==> Guard(o, args, env) && Follows(o, args, branch))
    && (Guard(o, args, env) <==> !r.Fault?)
    && (Halting(o) ==> r.OutOfGas? || r == Halted(EvalTerminal(TerminalOf(o, s.stack[..Need(o)], s), env, e)))
    && (!Halting(o) && Guard(o, args, env) && Follows(o, args, branch) ==>
          r.OutOfGas? || (r.Next? && Rel(s', r.state, rest, env, e)))
    && (!Halting(o) ==> !r.Halted?)
  }

  predicate StepReady(s: Sym, st: State, rest: seq<Word>, o: Op, ins: Instruction, fullCopy: bool, sites: Sites,
                      env: Env, e: Entry) {
    && Rel(s, st, rest, env, e) && Decodes(ins, st, sites, env, e)
    && Classify(ins.opcode) == Some(o) && Need(o) <= |s.stack|
    && (o.InvalidOp? || |rest| + |s.stack| - Need(o) + Pushes(o) <= 1024)
    && (o.GasOp? ==> GasKnown(s, st, env, e))
    && (o.ReturnDataCopyOp? && fullCopy ==> Guard(o, EvalStack(s.stack[..Need(o)], env, e), env))
  }

  /** The step executes the operation on the evaluated operands. */
  lemma {:induction false} StepExecutes(s: Sym, st: State, rest: seq<Word>, o: Op, ins: Instruction, fullCopy: bool,
          sites: Sites,
                     env: Env, e: Entry)
    requires StepReady(s, st, rest, o, ins, fullCopy, sites, env, e)
    ensures |st.stack| == |s.stack| + |rest|
    ensures st.stack[..Need(o)] == EvalStack(s.stack[..Need(o)], env, e)
    ensures st.stack[Need(o)..] == EvalStack(s.stack[Need(o)..], env, e) + rest
    ensures st.pc < |env.code| && Step(st, env) == Execute(o, InstructionAt(env.code, st.pc), st, env)
  {
    hide Eval, EvalStack, SameData, Classify, InstructionAt, Need, Pushes, Guard, GasKnown, SiteOrArgument, Execute;
    SplitStack(s.stack, Need(o), st.stack, rest, env, e);
  }

  /** What executing an operation with enough operands and room gives. */
  lemma {:induction false} ExecuteOutcome(o: Op, ins: Instruction, st: State, env: Env)
    requires Need(o) <= |st.stack| && (o.InvalidOp? || |st.stack| - Need(o) + Pushes(o) <= 1024)
    ensures var (r, args) := (Machine.Execute(o, ins, st, env), st.stack[..Need(o)]);
            && (o.InvalidOp? ==> r == Halted(Failed))
            && (!o.InvalidOp? && !Guard(o, args, env) ==> r == Fault)
            && (!o.InvalidOp? && Guard(o, args, env) ==>
                  || r.OutOfGas?
                  || r == if Halting(o) then Halted(HaltOf(o, args, st)) else Next(Advance(o, ins, args, st, env)))
  {
    hide Need, Pushes, Guard, Cost, HaltOf, Advance, Halting;
  }

  lemma {:induction false} StepSound(s: Sym, st: State, rest: seq<Word>, o: Op, ins: Instruction, branch: Branch,
          fullCopy: bool,
                  sites: Sites, env: Env, e: Entry)
    requires StepReady(s, st, rest, o, ins, fullCopy, sites, env, e)
    ensures StepMatches(s, SymExecute(o, s, ins, branch, fullCopy, sites), st, rest, o, branch, fullCopy, env, e)
  {
    hide Eval, EvalStack, SameData, Classify, InstructionAt, Need, Pushes, NewHyps, AllHold, Guard, Follows, Cost,
         Advance, HaltOf, TerminalOf, EvalTerminal, Step, Rel, Decodes, GasKnown, SymExecute, Machine.Execute;
    var args := s.stack[..Need(o)];
    StepExecutes(s, st, rest, o, ins, fullCopy, sites, env, e);
    ExecuteOutcome(o, InstructionAt(env.code, st.pc), st, env);
    HypsDenote(o, args, branch, fullCopy, env, e);
    if Halting(o) {
      RelData(s, st, rest, env, e);
      TerminalDenotes(o, args, s, st, env, e);
      HaltNeverGuarded(o, EvalStack(args, env, e), st, env);
    } else if Guard(o, EvalStack(args, env, e), env) && Follows(o, EvalStack(args, env, e), branch) {
      AdvanceSound(s, st, rest, o, ins, branch, fullCopy, sites, env, e);
    }
  }

  lemma {:induction false} RelData(s: Sym, st: State, rest: seq<Word>, env: Env, e: Entry)
    requires Rel(s, st, rest, env, e)
    ensures SameData(s, st, env, e)
  {
  }

  /** As long as no warm or cold operation was executed, the accumulated cost is the gas spent. */
  lemma {:induction false} SpentDenotes(o: Op, op: Byte, args: seq<Term>, s: Sym, st: State, env: Env, e: Entry)
    requires |args| == Need(o) && !Halting(o) && SameData(s, st, env, e)
    ensures !(s.existential || WarmCold(o)) ==>
              st.spent + Cost(o, op, EvalStack(args, env, e), st, env)
              == e.spent + EvalCosts(s.costs + CostTerms(o, op, args, s.aw), env, e)
  {
    hide Cost, CostTerms, EvalCosts, EvalStack, EvalMem, EvalAw, EvalWorld;
    CostsAppend(s.costs, CostTerms(o, op, args, s.aw), env, e);
    if !WarmCold(o) {
      CostDenotes(o, op, args, s, st, env, e);
    }
  }

  lemma {:induction false} PlacedHere(ins: Instruction, sites: Sites, env: Env, words: string -> Word)
    requires Placed(ins, sites, env, words)
    ensures ins.pc < |env.code| && ins.pc + ins.Size() < WORD_MODULUS
    ensures var here := InstructionAt(env.code, ins.pc);
            && here.opcode == ins.opcode && here.Size() == ins.Size()
            && (Classify(ins.opcode) == Some(PushOp) ==> Immediate(here) == SiteOrArgument(ins, sites, words))
  {
    hide InstructionAt, Classify, Immediate, SiteOrArgument;
  }

  lemma {:induction false} AdvanceSound(s: Sym, st: State, rest: seq<Word>, o: Op, ins: Instruction, branch: Branch,
          fullCopy: bool,
                     sites: Sites, env: Env, e: Entry)
    requires StepReady(s, st, rest, o, ins, fullCopy, sites, env, e) && !Halting(o)
    requires Follows(o, EvalStack(s.stack[..Need(o)], env, e), branch)
    requires |st.stack| == |s.stack| + |rest| && st.pc < |env.code|
    requires st.stack[..Need(o)] == EvalStack(s.stack[..Need(o)], env, e)
    requires st.stack[Need(o)..] == EvalStack(s.stack[Need(o)..], env, e) + rest
    ensures Rel(SymExecute(o, s, ins, branch, fullCopy, sites),
                Advance(o, InstructionAt(env.code, st.pc), EvalStack(s.stack[..Need(o)], env, e), st, env), rest, env,
                        e)
  {
    hide Eval, EvalStack, EvalMem, EvalAw, EvalWorld, EvalCosts, Classify, InstructionAt, Need, Pushes, Out, Halting,
         OutTerms, MemAfter, AwAfter, WorldAfter, MemTermAfter, AwTermAfter, WorldTermAfter, Cost, CostTerms, Guard,
         AddHyps, NewHyps, PcAfter, PcTermAfter, Follows, PushTerm, SiteOrArgument, GasKnown, WarmCold, Immediate,
                 Placed;
    var args, below := s.stack[..Need(o)], s.stack[Need(o)..];
    var here := InstructionAt(env.code, st.pc);
    AdvanceStack(s, st, rest, o, ins, sites, env, e);
    MemDenotes(o, args, s.mem, env, e);
    AwDenotes(o, args, s.aw, env, e);
    WorldDenotes(o, args, s.world, env, e);
    PlacedHere(ins, sites, env, e.words);
    PcDenotes(o, args, ins, branch, env, e);
    SpentDenotes(o, ins.opcode, args, s, st, env, e);
  }

  /** The stack after one operation. */
  lemma {:induction false} AdvanceStack(s: Sym, st: State, rest: seq<Word>, o: Op, ins: Instruction, sites: Sites,
          env: Env, e: Entry)
    requires Need(o) <= |s.stack| && SameData(s, st, env, e) && Placed(ins, sites, env, e.words) && st.pc == ins.pc
    requires o.GasOp? ==> GasKnown(s, st, env, e)
    requires Classify(ins.opcode) == Some(o)
    requires Need(o) <= |st.stack| && st.stack[..Need(o)] == EvalStack(s.stack[..Need(o)], env, e)
    requires st.stack[Need(o)..] == EvalStack(s.stack[Need(o)..], env, e) + rest
    ensures st.pc < |env.code|
    ensures Out(o, Immediate(InstructionAt(env.code, st.pc)), EvalStack(s.stack[..Need(o)], env, e), st, env)
            + st.stack[Need(o)..]
            == EvalStack(OutTerms(o, ins, s.stack[..Need(o)], s, sites) + s.stack[Need(o)..], env, e) + rest
  {
    hide Eval, EvalStack, Need, Pushes, Out, OutTerms, InstructionAt, Immediate, SiteOrArgument, PushTerm, Placed,
         GasKnown, SameData, Classify;
    var args, below := s.stack[..Need(o)], s.stack[Need(o)..];
    PlacedHere(ins, sites, env, e.words);
    PushTermDenotes(ins, sites, env, e);
    OutDenotes(o, ins, Immediate(InstructionAt(env.code, st.pc)), args, s, st, sites, env, e);
    JoinStack(OutTerms(o, ins, args, s, sites), below, env, e);
  }

  lemma {:induction false} HaltNeverGuarded(o: Op, args: seq<Word>, st: State, env: Env)
    requires Halting(o) && |args| == Need(o)
    ensures Guard(o, args, env) && Pushes(o) == 0
    ensures forall branch :: Follows(o, args, branch)
    ensures o.InvalidOp? ==> HaltOf(o, args, st) == Failed
  {
  }

  // ----- full return-data copies -----

  /** Matched as a push of zero, and still one once its site, if it is one, is filled in. */
  predicate RealZero(ins: Instruction, sites: Sites, words: string -> Word) {
    ZeroPush(ins) && SiteOrArgument(ins, sites, words) == 0
  }

  predicate Top1(s: Sym, a: Word, env: Env, e: Entry) {
    |s.stack| >= 1 && Eval(s.stack[0], env, e) == a
  }

  predicate Top2(s: Sym, a: Word, b: Word, env: Env, e: Entry) {
    |s.stack| >= 2 && Eval(s.stack[0], env, e) == a && Eval(s.stack[1], env, e) == b
  }

  predicate Below2(s: Sym, a: Word, b: Word, env: Env, e: Entry) {
    |s.stack| >= 3 && Eval(s.stack[1], env, e) == a && Eval(s.stack[2], env, e) == b
  }

  /** How much of a full copy has been executed before instruction i. */
  predicate CopyStage(block: seq<Instruction>, i: nat, stage: nat, sites: Sites, words: string -> Word)
    requires i <= |block|
  {
    && 1 <= stage <= 3 && stage <= i
    && block[i - stage].opcode == 0x3D
    && (stage >= 2 ==> RealZero(block[i - stage + 1], sites, words))
    && (stage >= 3 ==> ZeroPush(block[i - 1]) || block[i - 1].opcode == 0x80)
  }

  /** What the executed part of a full copy left on the stack. */
  predicate CopyFacts(block: seq<Instruction>, i: nat, s: Sym, sites: Sites, env: Env, e: Entry)
    requires i <= |block|
  {
    var size := Wrap(|env.returndata|);
    && (CopyStage(block, i, 1, sites, e.words) ==> Top1(s, size, env, e))
    && (CopyStage(block, i, 2, sites, e.words) ==> Top2(s, 0, size, env, e))
    && (CopyStage(block, i, 3, sites, e.words) ==> Below2(s, 0, size, env, e))
  }

  lemma {:induction false} CopyFactsStep(block: seq<Instruction>, i: nat, s: Sym, o: Op, branch: Branch,
          fullCopy: bool, sites: Sites,
                      env: Env, e: Entry)
    requires i < |block| && CopyFacts(block, i, s, sites, env, e)
    requires Classify(block[i].opcode) == Some(o) && Need(o) <= |s.stack|
    ensures CopyFacts(block, i + 1, SymExecute(o, s, block[i], branch, fullCopy, sites), sites, env, e)
  {
    hide AddHyps, NewHyps, MemTermAfter, AwTermAfter, WorldTermAfter, CostTerms, PcTermAfter, TerminalOf, Eval,
         PushTerm,
         Classify, SiteOrArgument;
    CopyOps(block[i].opcode);
    var s' := SymExecute(o, s, block[i], branch, fullCopy, sites);
    PushTermDenotes(block[i], sites, env, e);
    if CopyStage(block, i + 1, 1, sites, e.words) {
      assert s'.stack == [EnvTerm(0x3D)] + s.stack;
      SizeTerm(env, e);
    }
    if CopyStage(block, i + 1, 2, sites, e.words) {
      assert CopyStage(block, i, 1, sites, e.words);
      assert s'.stack == [PushTerm(block[i], sites)] + s.stack;
    }
    if CopyStage(block, i + 1, 3, sites, e.words) {
      assert CopyStage(block, i, 2, sites, e.words);
      if block[i].opcode == 0x80 {
        assert s'.stack == [s.stack[0]] + s.stack;
      } else {
        assert s'.stack == [PushTerm(block[i], sites)] + s.stack;
      }
    }
  }

  lemma {:induction false} CopyOps(op: Byte)
    ensures op == 0x3D ==> Classify(op) == Some(EnvOp(0x3D))
    ensures op == 0x5F || 0x60 <= op <= 0x7F ==> Classify(op) == Some(PushOp)
    ensures op == 0x80 ==> Classify(op) == Some(DupOp(1))
    ensures op == 0x3E ==> Classify(op) == Some(ReturnDataCopyOp)
  {
  }

  lemma {:induction false} SizeTerm(env: Env, e: Entry)
    ensures Eval(EnvTerm(0x3D), env, e) == Wrap(|env.returndata|)
  {
  }

  /** After the three instructions that lead to it, a full copy stays in bounds. */
  lemma {:induction false} CopyGuard(block: seq<Instruction>, i: nat, s: Sym, sites: Sites, env: Env, e: Entry)
    requires 3 <= i < |block| && CopyFacts(block, i, s, sites, env, e) && CopyStage(block, i, 3, sites, e.words)
    ensures |s.stack| >= 3 && Guard(ReturnDataCopyOp, EvalStack(s.stack[..3], env, e), env)
  {
    hide Eval;
    assert Wrap(|env.returndata|) <= |env.returndata|;
  }

  // ----- whole blocks -----

  /** A block of the code: consecutive instructions, terminators only at the end. */
  ghost predicate PlacedBlock(block: seq<Instruction>, sites: Sites, env: Env, words: string -> Word) {
    && (forall i :: 0 <= i < |block| ==> Placed(block[i], sites, env, words))
    && (forall i :: 0 < i < |block| ==> block[i].pc == block[i - 1].pc + block[i - 1].Size())
    && (forall i :: 0 <= i < |block| - 1 ==> !IsTerminator(block[i].opcode))
  }

  /** Every full return-data copy of the block really starts at offset zero; always so without sites. */
  ghost predicate CopiesFromZero(block: seq<Instruction>, sites: Sites, words: string -> Word) {
    forall j :: MatchFullCopy(block, j) ==> RealZero(block[j + 1], sites, words)
  }

  /** The words GAS pushes after a warm or cold operation, in a concrete run of a block. */
  function GasTrace(block: seq<Instruction>, st: State, existential: bool, env: Env): seq<Word>
    decreases |block|
  {
    if block == [] then []
    else
      var o := Classify(block[0].opcode);
      var r := Step(st, env);
      if o.None? then []
      else
        (if o.value.GasOp? && existential then [GasPushed(st, env)] else [])
        + (if r.Next? then GasTrace(block[1..], r.state, existential || WarmCold(o.value), env) else [])
  }

  lemma {:induction false} PcsIncrease(block: seq<Instruction>, i: nat, j: nat)
    requires i < j < |block|
    requires forall k :: 0 < k < |block| ==> block[k].pc == block[k - 1].pc + block[k - 1].Size()
    ensures block[i].pc < block[j].pc
  {
    if i + 1 < j {
      PcsIncrease(block, i, j - 1);
    }
  }

  /** The pc set marks exactly the last instructions of full copies. */
  lemma {:induction false} MarkedCopy(block: seq<Instruction>, pcs: set<nat>, i: nat)
    requires pcs == CopyPcs(block) && i < |block| && block[i].pc in pcs
    requires forall k :: 0 < k < |block| ==> block[k].pc == block[k - 1].pc + block[k - 1].Size()
    ensures i >= 3 && MatchFullCopy(block, i - 3)
  {
    var j :| 0 <= j < |block| && MatchFullCopy(block, j) && block[j + 3].pc == block[i].pc;
    if j + 3 < i {
      PcsIncrease(block, j + 3, i);
    } else if i < j + 3 {
      PcsIncrease(block, i, j + 3);
    }
  }

  /** What a summary keeps of an earlier symbolic state. */
  lemma {:induction false} RunGrows(s: Sym, block: seq<Instruction>, branch: Branch, pcs: set<nat>, sites: Sites,
          f: Sym,
                                    env: Env, e: Entry)
    requires SymRun(s, block, branch, pcs, sites) == Some(f)
    ensures s.maxPrefix <= f.maxPrefix
    ensures AllHold(f.hyps, env, e) ==> AllHold(s.hyps, env, e)
    ensures s.terminal.Some? ==> f == s
    decreases |block|
  {
    hide SymExecute, AllHold, Classify, Need;
    if block != [] {
      var next := SymStep(s, block[0], branch, pcs, sites).value;
      if s.terminal.None? {
        ExecuteGrows(Classify(block[0].opcode).value, s, block[0], branch, block[0].pc in pcs, sites, env, e);
      }
      RunGrows(next, block[1..], branch, pcs, sites, f, env, e);
    }
  }

  lemma {:induction false} ExecuteGrows(o: Op, s: Sym, ins: Instruction, branch: Branch, fullCopy: bool, sites: Sites,
          env: Env, e: Entry)
    requires Need(o) <= |s.stack|
    ensures var s' := SymExecute(o, s, ins, branch, fullCopy, sites);
            && s.maxPrefix <= s'.maxPrefix
            && (Halting(o) ==> s'.hyps == s.hyps && s'.terminal == Some(TerminalOf(o, s.stack[..Need(o)], s)))
            && (!Halting(o) ==>
                  && s'.terminal.None? && |s'.stack| <= s'.maxPrefix
                  && |s'.stack| == |s.stack| - Need(o) + Pushes(o)
                  && s'.hyps == AddHyps(s.hyps, NewHyps(o, s.stack[..Need(o)], branch, fullCopy)))
            && (AllHold(s'.hyps, env, e) ==> AllHold(s.hyps, env, e))
  {
    hide AddHyps, NewHyps, AllHold, OutTerms, MemTermAfter, AwTermAfter, WorldTermAfter, CostTerms, PcTermAfter,
         TerminalOf, Halting, Need, Pushes, WarmCold;
    AllHoldAdded(s.hyps, NewHyps(o, s.stack[..Need(o)], branch, fullCopy), env, e);
  }

  predicate IsBranchCondition(h: Hyp) {
    h.IsTrue? || h.IsFalse?
  }

  predicate FailsBranch(f: Sym, env: Env, e: Entry) {
    exists h :: h in f.hyps && IsBranchCondition(h) && !Holds(h, env, e)
  }

  /** The outcome a summary promises, unless gas runs out. */
  predicate Promised(f: Sym, r: Outcome, rest: seq<Word>, env: Env, e: Entry) {
    || r.OutOfGas?
    || (f.terminal.Some? && r == Halted(EvalTerminal(f.terminal.value, env, e)))
    || (f.terminal.None? && r.Next? && Rel(f, r.state, rest, env, e))
  }

  /**
   Side conditions and outcome of a run correspond: with the conditions the run ends as promised, and a
   run that neither faults nor runs out of gas meets every condition, or left by the other branch.
   */
  predicate RunMatches(f: Sym, r: Outcome, rest: seq<Word>, env: Env, e: Entry) {
    && (AllHold(f.hyps, env, e) ==> Promised(f, r, rest, env, e))
    && (!r.Fault? && !r.OutOfGas? ==> AllHold(f.hyps, env, e) || FailsBranch(f, env, e))
  }

  /** The invariant between instructions of a block. */
  ghost predicate AtInstruction(block: seq<Instruction>, i: nat, s: Sym, st: State, rest: seq<Word>, sites: Sites,
                                env: Env, e: Entry)
    requires i <= |block|
  {
    && Rel(s, st, rest, env, e)
    && (i < |block| ==> st.pc == block[i].pc)
    && CopyFacts(block, i, s, sites, env, e)
    && AllHold(s.hyps, env, e)
    && s.gasWords <= |e.gasWords|
    && e.gasWords[s.gasWords..] == GasTrace(block[i..], st, s.existential, env)
  }

  lemma {:induction false} RunSound(block: seq<Instruction>, i: nat, s: Sym, st: State, rest: seq<Word>, f: Sym,
                                    branch: Branch, pcs: set<nat>, sites: Sites, env: Env, e: Entry)
    requires i <= |block| && PlacedBlock(block, sites, env, e.words)
    requires pcs == CopyPcs(block) && CopiesFromZero(block, sites, e.words)
    requires SymRun(s, block[i..], branch, pcs, sites) == Some(f)
    requires AtInstruction(block, i, s, st, rest, sites, env, e)
    requires |rest| + f.maxPrefix <= 1024 || (i < |block| && block[i].opcode == 0xFE)
    ensures RunMatches(f, Run(st, |block| - i, env), rest, env, e)
    decreases |block| - i
  {
    hide AllHold, Rel, Classify, Need, Pushes, SymExecute, StepReady, AtInstruction, GasTrace, Run, RunMatches,
         SymRun, CopyFacts, CopyStage, Step, Placed,
         CopyPcs, CopiesFromZero, Guard, Follows, NewHyps, Halting, TerminalOf, MatchFullCopy, IsTerminator, GasPushed;
    if i == |block| {
      OpenRel(block, i, s, st, rest, sites, env, e);
      NothingLeft(s, st, rest, f, block[i..], branch, pcs, sites, env, e);
    } else {
      var ins := block[i];
      OpenInstruction(block, i, s, st, rest, sites, env, e);
      SymRunUnfolds(s, block, i, branch, pcs, sites);
      var o := Classify(ins.opcode).value;
      var fullCopy := ins.pc in pcs;
      var s' := SymExecute(o, s, ins, branch, fullCopy, sites);
      InvalidIs(ins.opcode);
      HaltPushesNothing(o);
      ExecuteGrows(o, s, ins, branch, fullCopy, sites, env, e);
      RunGrows(s', block[i + 1..], branch, pcs, sites, f, env, e);
      ReadyAt(block, i, s, st, rest, o, pcs, sites, env, e);
      StepSound(s, st, rest, o, ins, branch, fullCopy, sites, env, e);
      AllHoldAdded(s.hyps, NewHyps(o, s.stack[..Need(o)], branch, fullCopy), env, e);
      var args := EvalStack(s.stack[..Need(o)], env, e);
      var r := Step(st, env);
      RunUnfolds(st, |block| - i, env);
      if Halting(o) || !Guard(o, args, env) || r.OutOfGas? {
        StoppedMatches(s', f, r, rest, env, e);
      } else if !Follows(o, args, branch) {
        OtherBranch(block, i, s, s', f, st, rest, o, branch, pcs, sites, env, e);
      } else {
        NextInstruction(block, i, s, st, rest, o, branch, fullCopy, sites, env, e);
        RunSound(block, i + 1, s', r.state, rest, f, branch, pcs, sites, env, e);
      }
    }
  }

  lemma {:induction false} HaltPushesNothing(o: Op)
    ensures Halting(o) ==> Pushes(o) == 0
    ensures o.InvalidOp? ==> Halting(o)
  {
  }

  lemma {:induction false} OpenRel(block: seq<Instruction>, i: nat, s: Sym, st: State, rest: seq<Word>, sites: Sites,
          env: Env, e: Entry)
    requires i <= |block| && AtInstruction(block, i, s, st, rest, sites, env, e)
    ensures Rel(s, st, rest, env, e) && AllHold(s.hyps, env, e)
  {
    hide SameData, CopyFacts, GasTrace, AllHold, Rel;
  }

  lemma {:induction false} NothingLeft(s: Sym, st: State, rest: seq<Word>, f: Sym, block: seq<Instruction>,
          branch: Branch, pcs: set<nat>,
                    sites: Sites, env: Env, e: Entry)
    requires SymRun(s, block, branch, pcs, sites) == Some(f) && block == []
    requires Rel(s, st, rest, env, e) && AllHold(s.hyps, env, e)
    ensures RunMatches(f, Run(st, 0, env), rest, env, e)
  {
    hide SameData, AllHold;
  }

  lemma {:induction false} OpenInstruction(block: seq<Instruction>, i: nat, s: Sym, st: State, rest: seq<Word>,
          sites: Sites,
                        env: Env, e: Entry)
    requires i < |block| && AtInstruction(block, i, s, st, rest, sites, env, e)
    ensures s.terminal.None? && |s.stack| <= s.maxPrefix && AllHold(s.hyps, env, e)
  {
    hide SameData, CopyFacts, GasTrace, AllHold;
  }

  lemma {:induction false} SymRunUnfolds(s: Sym, block: seq<Instruction>, i: nat, branch: Branch, pcs: set<nat>,
          sites: Sites)
    requires i < |block| && s.terminal.None? && SymRun(s, block[i..], branch, pcs, sites).Some?
    ensures Classify(block[i].opcode).Some?
    ensures var o := Classify(block[i].opcode).value;
            Need(o) <= |s.stack| && SymRun(SymExecute(o, s, block[i], branch, block[i].pc in pcs, sites),
                    block[i + 1..], branch, pcs, sites)
            == SymRun(s, block[i..], branch, pcs, sites)
  {
    hide Classify, Need, SymExecute;
    assert block[i..][0] == block[i] && block[i..][1..] == block[i + 1..];
  }

  lemma {:induction false} InvalidIs(op: Byte)
    ensures op == 0xFE ==> Classify(op) == Some(InvalidOp)
  {
  }

  /** Everything a step needs holds at an instruction of a placed block. */
  lemma {:induction false} ReadyAt(block: seq<Instruction>, i: nat, s: Sym, st: State, rest: seq<Word>, o: Op,
          pcs: set<nat>, sites: Sites,
                env: Env, e: Entry)
    requires i < |block| && PlacedBlock(block, sites, env, e.words) && AtInstruction(block, i, s, st, rest, sites,
            env, e)
    requires pcs == CopyPcs(block) && CopiesFromZero(block, sites, e.words)
    requires Classify(block[i].opcode) == Some(o) && Need(o) <= |s.stack|
    requires o.InvalidOp? || |rest| + |s.stack| - Need(o) + Pushes(o) <= 1024
    ensures StepReady(s, st, rest, o, block[i], block[i].pc in pcs, sites, env, e)
  {
    hide AllHold, Rel, Classify, Pushes, CopyFacts, CopyStage, Step, Placed, CopyPcs, Guard, MatchFullCopy,
         IsTerminator, GasPushed, Eval, EvalStack;
    if o.GasOp? && s.existential {
      assert block[i..][0] == block[i];
      assert GasTrace(block[i..], st, s.existential, env)[0] == GasPushed(st, env);
      assert e.gasWords[s.gasWords] == e.gasWords[s.gasWords..][0];
    }
    if o.ReturnDataCopyOp? && block[i].pc in pcs {
      MarkedCopy(block, pcs, i);
      MatchedStage(block, i, sites, e.words);
      CopyGuard(block, i, s, sites, env, e);
    }
  }

  lemma {:induction false} MatchedStage(block: seq<Instruction>, i: nat, sites: Sites, words: string -> Word)
    requires 3 <= i < |block| && MatchFullCopy(block, i - 3) && CopiesFromZero(block, sites, words)
    ensures CopyStage(block, i, 3, sites, words)
  {
    hide ZeroPush, SiteOrArgument;
  }

  lemma {:induction false} StoppedMatches(s': Sym, f: Sym, r: Outcome, rest: seq<Word>, env: Env, e: Entry)
    requires r.Fault? || r.OutOfGas? || (s' == f && f.terminal.Some? && AllHold(f.hyps, env, e)
                                         && r == Halted(EvalTerminal(f.terminal.value, env, e)))
    requires r.Fault? ==> !AllHold(f.hyps, env, e)
    ensures RunMatches(f, r, rest, env, e)
  {
    hide AllHold, EvalTerminal, Rel, FailsBranch;
  }

  /** A run that leaves by the other branch fails the branch condition and nothing is claimed of it. */
  lemma {:induction false} OtherBranch(block: seq<Instruction>, i: nat, s: Sym, s': Sym, f: Sym, st: State,
          rest: seq<Word>, o: Op,
                    branch: Branch, pcs: set<nat>, sites: Sites, env: Env, e: Entry)
    requires i < |block| && PlacedBlock(block, sites, env, e.words)
    requires Classify(block[i].opcode) == Some(o) && Need(o) <= |s.stack|
    requires s'.hyps == AddHyps(s.hyps, NewHyps(o, s.stack[..Need(o)], branch, block[i].pc in pcs))
    requires SymRun(s', block[i + 1..], branch, pcs, sites) == Some(f)
    requires !Follows(o, EvalStack(s.stack[..Need(o)], env, e), branch)
    requires !AllHold(f.hyps, env, e)
    ensures forall r :: RunMatches(f, r, rest, env, e)
  {
    hide AllHold, EvalTerminal, Rel, Eval, AddHyps, Promised, EvalStack, Placed;
    JumpIsLast(block, i);
    assert block[i + 1..] == [];
    var h := NewHyps(o, s.stack[..Need(o)], branch, block[i].pc in pcs)[0];
    AddedHyps(s.hyps, NewHyps(o, s.stack[..Need(o)], branch, block[i].pc in pcs), h);
    assert IsBranchCondition(h) && !Holds(h, env, e);
  }

  lemma {:induction false} JumpIsLast(block: seq<Instruction>, i: nat)
    requires i < |block| && forall k :: 0 <= k < |block| - 1 ==> !IsTerminator(block[k].opcode)
    ensures Classify(block[i].opcode) in {Some(JumpOp), Some(JumpIOp)} ==> i == |block| - 1
  {
    JumpTerminates(block[i].opcode);
    hide Classify, IsTerminator;
  }

  lemma {:induction false} JumpTerminates(op: Byte)
    ensures Classify(op) in {Some(JumpOp), Some(JumpIOp)} ==> IsTerminator(op)
  {
  }

  /** The invariant moves on to the next instruction. */
  lemma {:induction false} NextInstruction(block: seq<Instruction>, i: nat, s: Sym, st: State, rest: seq<Word>, o: Op,
          branch: Branch,
                        fullCopy: bool, sites: Sites, env: Env, e: Entry)
    requires i < |block| && PlacedBlock(block, sites, env, e.words) && AtInstruction(block, i, s, st, rest, sites,
            env, e)
    requires Classify(block[i].opcode) == Some(o) && Need(o) <= |s.stack| && !Halting(o) && Step(st, env).Next?
    requires Rel(SymExecute(o, s, block[i], branch, fullCopy, sites), Step(st, env).state, rest, env, e)
    requires AllHold(SymExecute(o, s, block[i], branch, fullCopy, sites).hyps, env, e)
    ensures AtInstruction(block, i + 1, SymExecute(o, s, block[i], branch, fullCopy, sites), Step(st, env).state, rest,
                          sites, env, e)
  {
    hide AllHold, Classify, Need, CopyFacts, CopyStage, Step, Placed, Guard, MatchFullCopy, IsTerminator,
         GasPushed, Eval, EvalStack, SymExecute, SameData;
    var s' := SymExecute(o, s, block[i], branch, fullCopy, sites);
    var next := Step(st, env).state;
    JumpIsLast(block, i);
    if i + 1 < |block| {
      NextPc(o, s, block[i], branch, fullCopy, sites, env, e);
    }
    CopyFactsStep(block, i, s, o, branch, fullCopy, sites, env, e);
    GasWordsStep(o, s, block[i], branch, fullCopy, sites);
    assert block[i..][0] == block[i] && block[i..][1..] == block[i + 1..];
    var trace := GasTrace(block[i..], st, s.existential, env);
    if o.GasOp? && s.existential {
      assert trace == [GasPushed(st, env)] + GasTrace(block[i + 1..], next, s'.existential, env);
      assert e.gasWords[s.gasWords..][1..] == e.gasWords[s.gasWords + 1..];
    } else {
      assert trace == GasTrace(block[i + 1..], next, s'.existential, env);
    }
  }

  lemma {:induction false} NextPc(o: Op, s: Sym, ins: Instruction, branch: Branch, fullCopy: bool, sites: Sites,
          env: Env, e: Entry)
    requires Need(o) <= |s.stack| && !o.JumpOp? && !o.JumpIOp? && !Halting(o)
    requires Placed(ins, sites, env, e.words)
    ensures Eval(SymExecute(o, s, ins, branch, fullCopy, sites).pc, env, e) == ins.pc + ins.Size()
  {
    hide Need, OutTerms, MemTermAfter, AwTermAfter, WorldTermAfter, CostTerms, AddHyps, NewHyps;
  }

  lemma {:induction false} GasWordsStep(o: Op, s: Sym, ins: Instruction, branch: Branch, fullCopy: bool, sites: Sites)
    requires Need(o) <= |s.stack| && !Halting(o)
    ensures var s' := SymExecute(o, s, ins, branch, fullCopy, sites);
            && s'.existential == (s.existential || WarmCold(o))
            && s'.gasWords == if o.GasOp? && s.existential then s.gasWords + 1 else s.gasWords
  {
    hide Need, OutTerms, MemTermAfter, AwTermAfter, WorldTermAfter, CostTerms, AddHyps, NewHyps, PcTermAfter;
  }

  lemma {:induction false} RunUnfolds(st: State, n: nat, env: Env)
    requires n > 0
    ensures Run(st, n, env) == if Step(st, env).Next? then Run(Step(st, env).state, n - 1, env) else Step(st, env)
  {
    hide Step;
  }

  // ----- main results -----

  /** The entry a concrete state gives a summary. */
  function EntryOf(block: seq<Instruction>, st: State, xs: seq<Word>, words: string -> Word, env: Env): Entry {
    Entry(xs, st.mem, st.aw, st.world, st.spent, GasTrace(block, st, false, env), words)
  }

  lemma {:induction false} InitialAt(block: seq<Instruction>, st: State, xs: seq<Word>, rest: seq<Word>, sites: Sites,
          words: string -> Word,
                  env: Env)
    requires block != [] && st.stack == xs + rest && st.pc == block[0].pc < WORD_MODULUS
    ensures AtInstruction(block, 0, InitialSym(|xs|, st.pc), st, rest, sites, env, EntryOf(block, st, xs, words, env))
  {
    hide Classify, GasTrace;
    var e := EntryOf(block, st, xs, words, env);
    var s := InitialSym(|xs|, st.pc);
    assert EvalStack(s.stack, env, e) == xs;
    assert block[0..] == block;
    assert e.gasWords[0..] == e.gasWords;
    assert EvalCosts([], env, e) == 0;
  }

  /**
   Soundness and exactness of a block's summary on every concrete state at the block's start: if the
   side conditions hold, the block runs out of gas or ends exactly as the summary evaluates; and a run
   that neither faults nor runs out of gas meets the conditions or left by the other branch.
   */
  lemma {:induction false} SummarySound(block: seq<Instruction>, branch: Branch, sites: Sites, f: Sym, st: State,
          xs: seq<Word>,
                     rest: seq<Word>, words: string -> Word, env: Env)
    requires block != [] && AllSupported(block) && Summary(block, branch, sites) == Some(f)
    requires PlacedBlock(block, sites, env, words) && CopiesFromZero(block, sites, words)
    requires |xs| == RequiredDepth(block) && st.stack == xs + rest && st.pc == block[0].pc
    requires |rest| + f.maxPrefix <= 1024 || block[0].opcode == 0xFE
    ensures RunMatches(f, Run(st, |block|, env), rest, env, EntryOf(block, st, xs, words, env))
  {
    hide CopiesFromZero, CopyPcs, Run, RunMatches, AtInstruction, InitialSym, SymRun, EntryOf, Placed, PlacedBlock,
         AllSupported, RequiredDepth;
    var pcs := CopyPcs(block);
    StartFits(block, sites, env, words);
    EntryWords(block, st, xs, words, env);
    InitialAt(block, st, xs, rest, sites, words, env);
    assert block[0..] == block;
    RunSound(block, 0, InitialSym(|xs|, st.pc), st, rest, f, branch, pcs, sites, env, EntryOf(block, st, xs, words,
            env));
  }

  lemma {:induction false} StartFits(block: seq<Instruction>, sites: Sites, env: Env, words: string -> Word)
    requires block != [] && PlacedBlock(block, sites, env, words)
    ensures block[0].pc < WORD_MODULUS
  {
    hide Placed;
    PlacedHere(block[0], sites, env, words);
  }

  lemma {:induction false} EntryWords(block: seq<Instruction>, st: State, xs: seq<Word>, words: string -> Word,
          env: Env)
    ensures EntryOf(block, st, xs, words, env).words == words
  {
    hide GasTrace;
  }

  // ----- the two branches of a conditional jump -----

  /** A conditional jump ends the block and nothing before it ends one. */
  ghost predicate EndsInJumpI(block: seq<Instruction>) {
    && block != [] && block[|block| - 1].opcode == 0x57
    && forall i :: 0 <= i < |block| - 1 ==> !IsTerminator(block[i].opcode)
  }

  predicate NoCondition(hyps: seq<Hyp>) {
    forall h :: h in hyps ==> !IsBranchCondition(h)
  }

  /** The conditions of the two summaries say that one and the same term is nonzero or is zero. */
  predicate Complementary(taken: Sym, through: Sym, cond: Term) {
    && IsTrue(cond) in taken.hyps && IsFalse(cond) in through.hyps
    && (forall h :: h in taken.hyps && IsBranchCondition(h) ==> h == IsTrue(cond))
    && (forall h :: h in through.hyps && IsBranchCondition(h) ==> h == IsFalse(cond))
    && taken.stack == through.stack && taken.mem == through.mem && taken.aw == through.aw
    && taken.world == through.world && taken.costs == through.costs && taken.existential == through.existential
    && taken.maxPrefix == through.maxPrefix && taken.terminal.None? && through.terminal.None?
  }

  lemma {:induction false} BranchesComplement(s: Sym, block: seq<Instruction>, pcs: set<nat>, sites: Sites,
          taken: Sym, through: Sym)
    returns (cond: Term)
    requires EndsInJumpI(block) && s.terminal.None? && NoCondition(s.hyps)
    requires SymRun(s, block, Taken, pcs, sites) == Some(taken)
    requires SymRun(s, block, FallThrough, pcs, sites) == Some(through)
    ensures Complementary(taken, through, cond)
    decreases |block|
  {
    hide IsTerminator, Complementary, Classify, Need, SymExecute, EndsInJumpI, NoCondition;
    OpenEnd(block);
    assert block[0..] == block;
    SymRunUnfolds(s, block, 0, Taken, pcs, sites);
    SymRunUnfolds(s, block, 0, FallThrough, pcs, sites);
    var o := Classify(block[0].opcode).value;
    var fullCopy := block[0].pc in pcs;
    if |block| == 1 {
      assert block[1..] == [];
      cond := JumpICondition(s, block[0], o, fullCopy, sites);
    } else {
      SameBeforeBranch(s, block[0], o, fullCopy, sites);
      cond := BranchesComplement(SymExecute(o, s, block[0], Taken, fullCopy, sites), block[1..], pcs, sites, taken,
              through);
    }
  }

  lemma {:induction false} OpenEnd(block: seq<Instruction>)
    requires EndsInJumpI(block)
    ensures block != []
    ensures |block| == 1 ==> block[0].opcode == 0x57
    ensures |block| > 1 ==> EndsInJumpI(block[1..]) && !IsTerminator(block[0].opcode)
  {
    hide IsTerminator;
  }

  lemma {:induction false} JumpICondition(s: Sym, ins: Instruction, o: Op, fullCopy: bool,
          sites: Sites) returns (cond: Term)
    requires ins.opcode == 0x57 && Classify(ins.opcode) == Some(o) && Need(o) <= |s.stack| && NoCondition(s.hyps)
    ensures Complementary(SymExecute(o, s, ins, Taken, fullCopy, sites), SymExecute(o, s, ins, FallThrough, fullCopy,
            sites), cond)
  {
    hide AddHyps, Classify, MemTermAfter, AwTermAfter, WorldTermAfter, CostTerms;
    JumpIIs(ins.opcode);
    cond := s.stack[1];
    forall h ensures h in AddHyps(s.hyps, [IsTrue(cond), ValidJump(s.stack[0])]) <==>
                     h in s.hyps || h == IsTrue(cond) || h == ValidJump(s.stack[0]) {
      AddedHyps(s.hyps, [IsTrue(cond), ValidJump(s.stack[0])], h);
    }
    forall h ensures h in AddHyps(s.hyps, [IsFalse(cond)]) <==> h in s.hyps || h == IsFalse(cond) {
      AddedHyps(s.hyps, [IsFalse(cond)], h);
    }
  }

  lemma {:induction false} JumpIIs(op: Byte)
    ensures op == 0x57 ==> Classify(op) == Some(JumpIOp)
  {
  }

  lemma {:induction false} SameBeforeBranch(s: Sym, ins: Instruction, o: Op, fullCopy: bool, sites: Sites)
    requires Classify(ins.opcode) == Some(o) && !IsTerminator(ins.opcode) && Need(o) <= |s.stack|
    requires s.terminal.None? && NoCondition(s.hyps)
    ensures var s' := SymExecute(o, s, ins, Taken, fullCopy, sites);
            s' == SymExecute(o, s, ins, FallThrough, fullCopy, sites) && s'.terminal.None? && NoCondition(s'.hyps)
  {
    hide AddHyps, Need, Pushes, OutTerms, MemTermAfter, AwTermAfter, WorldTermAfter, CostTerms, IsTerminator, Classify;
    JumpTerminates(ins.opcode);
    HaltTerminates(ins.opcode);
    var added := NewHyps(o, s.stack[..Need(o)], Taken, fullCopy);
    assert added == NewHyps(o, s.stack[..Need(o)], FallThrough, fullCopy);
    forall h ensures h in AddHyps(s.hyps, added) <==> h in s.hyps || h in added {
      AddedHyps(s.hyps, added, h);
    }
  }

  lemma {:induction false} HaltTerminates(op: Byte)
    ensures Classify(op).Some? && Halting(Classify(op).value) ==> IsTerminator(op)
  {
  }

  /**
   Exactly one of the two summaries applies to a run that neither faults nor runs out of gas: their
   conditions exclude each other, and every such run meets all conditions of one of them.
   */
  lemma {:induction false} OneBranchApplies(block: seq<Instruction>, sites: Sites, taken: Sym, through: Sym,
          st: State, xs: seq<Word>,
                         rest: seq<Word>, words: string -> Word, env: Env)
    requires EndsInJumpI(block) && AllSupported(block)
    requires Summary(block, Taken, sites) == Some(taken) && Summary(block, FallThrough, sites) == Some(through)
    requires PlacedBlock(block, sites, env, words) && CopiesFromZero(block, sites, words)
    requires |xs| == RequiredDepth(block) && st.stack == xs + rest && st.pc == block[0].pc
    requires |rest| + taken.maxPrefix <= 1024
    ensures var e := EntryOf(block, st, xs, words, env);
            && !(AllHold(taken.hyps, env, e) && AllHold(through.hyps, env, e))
            && (!Run(st, |block|, env).Fault? && !Run(st, |block|, env).OutOfGas? ==>
                  AllHold(taken.hyps, env, e) || AllHold(through.hyps, env, e))
  {
    hide CopiesFromZero, CopyPcs, Run, InitialSym, SymRun, EntryOf, PlacedBlock, RequiredDepth, Eval;
    var pcs := CopyPcs(block);
    InitialClean(RequiredDepth(block), block[0].pc);
    var cond := BranchesComplement(InitialSym(RequiredDepth(block), block[0].pc), block, pcs, sites, taken, through);
    SummarySound(block, Taken, sites, taken, st, xs, rest, words, env);
    SummarySound(block, FallThrough, sites, through, st, xs, rest, words, env);
    var e := EntryOf(block, st, xs, words, env);
    assert Holds(IsTrue(cond), env, e) <==> !Holds(IsFalse(cond), env, e);
  }

  lemma {:induction false} InitialClean(depth: nat, pc: nat)
    ensures InitialSym(depth, pc).terminal.None? && NoCondition(InitialSym(depth, pc).hyps)
  {
  }
}
