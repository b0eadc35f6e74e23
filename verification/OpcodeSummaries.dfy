/**
 The executor, opcode by opcode: the term, the cost, the condition or the ending that each literal opcode
 adds to a summary, and what the summary of a block therefore says about how the block ends.
 */
module OpcodeSummaries {
  import opened Options
  import opened Words
  import opened WordArith
  import opened Bytecode
  import opened StackShapes
  import opened Machine
  import opened Symbolic
  import opened SymSound
  import Opcodes

  /** The parameters of an execution that no instruction changes. */
  datatype Setting = Setting(branch: Branch, copyPcs: set<nat>, sites: Sites)

  function ExecuteOne(s: Sym, ins: Instruction, c: Setting): Option<Sym> {
    SymStep(s, ins, c.branch, c.copyPcs, c.sites)
  }

  /** Execution of one instruction gives `next` at the following pc, its stack counted in the bound. */
  predicate Becomes(s: Sym, ins: Instruction, c: Setting, next: Sym) {
    ExecuteOne(s, ins, c) ==
    Some(next.(pc := Lit(Wrap(ins.pc + ins.Size())), maxPrefix := Machine.Max(s.maxPrefix, |next.stack|)))
  }

  /** `out` in the place of the topmost n terms, at a price. */
  function Adds(s: Sym, n: nat, out: seq<Term>, costs: seq<CostTerm>): Sym
    requires n <= |s.stack|
  {
    s.(stack := out + s.stack[n..], costs := s.costs + costs)
  }

  predicate Has(s: Sym, ins: Instruction, op: Byte, n: nat) {
    s.terminal.None? && ins.opcode == op && n <= |s.stack|
  }

  lemma {:induction false} OpExecutes(s: Sym, ins: Instruction, c: Setting, o: Op)
    requires s.terminal.None? && Classify(ins.opcode) == Some(o) && Need(o) <= |s.stack|
    requires o.JumpIOp? ==> !c.branch.NoBranch?
    ensures ExecuteOne(s, ins, c) == Some(SymExecute(o, s, ins, c.branch, ins.pc in c.copyPcs, c.sites))
  {
    hide Classify, SymExecute, Need;
  }

  /** The conditions are kept where none is added. */
  lemma {:induction false} NothingAdded(hyps: seq<Hyp>)
    ensures AddHyps(hyps, []) == hyps
  {
  }

  /** An operation that pushes one word and touches nothing but the stack. */
  lemma {:induction false} ComputeExecutes(s: Sym, ins: Instruction, c: Setting, o: Op, t: Term, cost: CostTerm)
    requires s.terminal.None? && Classify(ins.opcode) == Some(o) && Need(o) <= |s.stack|
    requires HasResult(o) && !o.MLoadOp? && !o.KeccakOp? && !o.GasOp? && !WarmCold(o)
    requires t == ResultTerm(o, ins, s.stack[..Need(o)], s, c.sites)
    requires [cost] == CostTerms(o, ins.opcode, s.stack[..Need(o)], s.aw)
    ensures Becomes(s, ins, c, Adds(s, Need(o), [t], [cost]))
  {
    hide Classify, CostTerms, ResultTerm, AddHyps, Wrap;
    NothingAdded(s.hyps);
    OpExecutes(s, ins, c, o);
  }

  // ----- the stack -----

  /** PUSH0 and constants push themselves; the push of an immutable site pushes its word. */
  lemma {:induction false} PushAdds(s: Sym, ins: Instruction, c: Setting)
    requires s.terminal.None? && 0x5F <= ins.opcode <= 0x7F
    ensures var t := if ins.opcode >= 0x60 && ins.pc + 1 in c.sites then SiteWord(c.sites[ins.pc + 1].1, ins.width)
                     else Lit(Wrap(ins.argument.GetOr(0)));
            Becomes(s, ins, c, Adds(s, 0, [t], [Gas(if ins.opcode == 0x5F then 2 else 3)]))
  {
    hide Becomes, Wrap;
    ComputeExecutes(s, ins, c, PushOp, PushTerm(ins, c.sites), Gas(if ins.opcode == 0x5F then 2 else 3));
  }

  lemma {:induction false} DupAdds(s: Sym, ins: Instruction, c: Setting, n: nat)
    requires 1 <= n <= 16 && Has(s, ins, 0x7F + n, n)
    ensures Becomes(s, ins, c, Adds(s, 0, [s.stack[n - 1]], [Gas(3)]))
  {
    hide Wrap, SymStep, ExecuteOne;
    NothingAdded(s.hyps);
    OpExecutes(s, ins, c, DupOp(n));
    assert [s.stack[n - 1]] + s.stack[..n] + s.stack[n..] == [s.stack[n - 1]] + s.stack[0..];
  }

  lemma {:induction false} SwapAdds(s: Sym, ins: Instruction, c: Setting, n: nat)
    requires 1 <= n <= 16 && Has(s, ins, 0x8F + n, n + 1)
    ensures Becomes(s, ins, c, s.(stack := s.stack[0 := s.stack[n]][n := s.stack[0]], costs := s.costs + [Gas(3)]))
  {
    hide Wrap, SymStep, ExecuteOne;
    NothingAdded(s.hyps);
    OpExecutes(s, ins, c, SwapOp(n));
    assert Swapped(s.stack[..n + 1]) + s.stack[n + 1..] == s.stack[0 := s.stack[n]][n := s.stack[0]];
  }

  lemma {:induction false} PopAdds(s: Sym, ins: Instruction, c: Setting)
    requires Has(s, ins, 0x50, 1)
    ensures Becomes(s, ins, c, Adds(s, 1, [], [Gas(2)]))
  {
    hide Wrap, SymStep, ExecuteOne;
    NothingAdded(s.hyps);
    OpExecutes(s, ins, c, PopOp);
  }

  lemma {:induction false} JumpDestAdds(s: Sym, ins: Instruction, c: Setting)
    requires Has(s, ins, 0x5B, 0)
    ensures Becomes(s, ins, c, s.(costs := s.costs + [Gas(1)]))
  {
    hide Wrap, SymStep, ExecuteOne;
    NothingAdded(s.hyps);
    OpExecutes(s, ins, c, JumpDestOp);
    assert [] + s.stack[0..] == s.stack;
  }

  // ----- words -----

  lemma {:induction false} BinaryAdds(s: Sym, ins: Instruction, c: Setting)
    requires s.terminal.None? && IsBinary(ins.opcode) && 2 <= |s.stack|
    ensures Becomes(s, ins, c, Adds(s, 2, [BinaryTerm(ins.opcode, s.stack[0], s.stack[1])],
                    [if ins.opcode == 0x0A then ExpGas(s.stack[1]) else Gas(StaticCost(ins.opcode))]))
  {
    hide Becomes, BinaryTerm, StaticCost;
    Opcodes.BinaryIs(ins.opcode);
    ComputeExecutes(s, ins, c, Binary(ins.opcode), BinaryTerm(ins.opcode, s.stack[0], s.stack[1]),
                    if ins.opcode == 0x0A then ExpGas(s.stack[1]) else Gas(StaticCost(ins.opcode)));
  }

  /** The library's name of each operation, its operands from the top down. */
  lemma {:induction false} ArithmeticAdds(s: Sym, ins: Instruction, c: Setting)
    requires s.terminal.None? && 2 <= |s.stack|
    ensures ins.opcode == 0x01 ==>
              Becomes(s, ins, c, Adds(s, 2, [Alu2(AddFn, s.stack[0], s.stack[1])], [Gas(3)]))
    ensures ins.opcode == 0x02 ==>
              Becomes(s, ins, c, Adds(s, 2, [Alu2(MulFn, s.stack[0], s.stack[1])], [Gas(5)]))
    ensures ins.opcode == 0x03 ==>
              Becomes(s, ins, c, Adds(s, 2, [Alu2(SubFn, s.stack[0], s.stack[1])], [Gas(3)]))
    ensures ins.opcode == 0x04 ==>
              Becomes(s, ins, c, Adds(s, 2, [Alu2(DivFn, s.stack[0], s.stack[1])], [Gas(5)]))
    ensures ins.opcode == 0x05 ==>
              Becomes(s, ins, c, Adds(s, 2, [Alu2(SDivFn, s.stack[0], s.stack[1])], [Gas(5)]))
    ensures ins.opcode == 0x06 ==>
              Becomes(s, ins, c, Adds(s, 2, [Alu2(ModFn, s.stack[0], s.stack[1])], [Gas(5)]))
    ensures ins.opcode == 0x0A ==>
              Becomes(s, ins, c, Adds(s, 2, [Alu2(ExpFn, s.stack[0], s.stack[1])], [ExpGas(s.stack[1])]))
    ensures ins.opcode == 0x0B ==>
              Becomes(s, ins, c, Adds(s, 2, [Alu2(SignExtendFn, s.stack[0], s.stack[1])], [Gas(5)]))
  {
    hide Becomes;
    if IsBinary(ins.opcode) {
      BinaryAdds(s, ins, c);
    }
  }

  lemma {:induction false} ComparisonAdds(s: Sym, ins: Instruction, c: Setting)
    requires s.terminal.None? && 2 <= |s.stack|
    ensures ins.opcode == 0x10 ==>
              Becomes(s, ins, c, Adds(s, 2, [Alu2(LtFn, s.stack[0], s.stack[1])], [Gas(3)]))
    ensures ins.opcode == 0x11 ==>
              Becomes(s, ins, c, Adds(s, 2, [Alu2(GtFn, s.stack[0], s.stack[1])], [Gas(3)]))
    ensures ins.opcode == 0x12 ==>
              Becomes(s, ins, c, Adds(s, 2, [Alu2(SltFn, s.stack[0], s.stack[1])], [Gas(3)]))
    ensures ins.opcode == 0x13 ==>
              Becomes(s, ins, c, Adds(s, 2, [Alu2(SgtFn, s.stack[0], s.stack[1])], [Gas(3)]))
    ensures ins.opcode == 0x14 ==>
              Becomes(s, ins, c, Adds(s, 2, [Alu2(EqFn, s.stack[0], s.stack[1])], [Gas(3)]))
  {
    hide Becomes;
    if IsBinary(ins.opcode) {
      BinaryAdds(s, ins, c);
    }
  }

  /** The shifts of the library take the value before the distance. */
  lemma {:induction false} BitAdds(s: Sym, ins: Instruction, c: Setting)
    requires s.terminal.None? && 2 <= |s.stack|
    ensures ins.opcode == 0x16 ==>
              Becomes(s, ins, c, Adds(s, 2, [Alu2(AndFn, s.stack[0], s.stack[1])], [Gas(3)]))
    ensures ins.opcode == 0x17 ==>
              Becomes(s, ins, c, Adds(s, 2, [Alu2(OrFn, s.stack[0], s.stack[1])], [Gas(3)]))
    ensures ins.opcode == 0x18 ==>
              Becomes(s, ins, c, Adds(s, 2, [Alu2(XorFn, s.stack[0], s.stack[1])], [Gas(3)]))
    ensures ins.opcode == 0x1A ==>
              Becomes(s, ins, c, Adds(s, 2, [Alu2(ByteFn, s.stack[0], s.stack[1])], [Gas(3)]))
    ensures ins.opcode == 0x1B ==>
              Becomes(s, ins, c, Adds(s, 2, [Alu2(ShiftLeftFn, s.stack[1], s.stack[0])], [Gas(3)]))
    ensures ins.opcode == 0x1C ==>
              Becomes(s, ins, c, Adds(s, 2, [Alu2(ShiftRightFn, s.stack[1], s.stack[0])], [Gas(3)]))
    ensures ins.opcode == 0x1D ==>
              Becomes(s, ins, c, Adds(s, 2, [Alu2(SarFn, s.stack[0], s.stack[1])], [Gas(3)]))
  {
    hide Becomes;
    if IsBinary(ins.opcode) {
      BinaryAdds(s, ins, c);
    }
  }

  lemma {:induction false} UnaryAdds(s: Sym, ins: Instruction, c: Setting)
    requires s.terminal.None? && 1 <= |s.stack|
    ensures ins.opcode == 0x15 ==> Becomes(s, ins, c, Adds(s, 1, [Alu1(0x15, s.stack[0])], [Gas(3)]))
    ensures ins.opcode == 0x19 ==> Becomes(s, ins, c, Adds(s, 1, [Alu1(0x19, s.stack[0])], [Gas(3)]))
    ensures ins.opcode == 0x35 ==> Becomes(s, ins, c, Adds(s, 1, [CallDataAt(s.stack[0])], [Gas(3)]))
    ensures ins.opcode == 0x40 ==> Becomes(s, ins, c, Adds(s, 1, [BlockHashAt(s.stack[0])], [Gas(20)]))
  {
    hide Becomes;
    if ins.opcode == 0x15 || ins.opcode == 0x19 {
      ComputeExecutes(s, ins, c, Unary(ins.opcode), Alu1(ins.opcode, s.stack[0]), Gas(3));
    } else if ins.opcode == 0x35 {
      ComputeExecutes(s, ins, c, CallDataLoadOp, CallDataAt(s.stack[0]), Gas(3));
    } else if ins.opcode == 0x40 {
      ComputeExecutes(s, ins, c, BlockHashOp, BlockHashAt(s.stack[0]), Gas(20));
    }
  }

  lemma {:induction false} TernaryAdds(s: Sym, ins: Instruction, c: Setting)
    requires s.terminal.None? && 3 <= |s.stack| && (ins.opcode == 0x08 || ins.opcode == 0x09)
    ensures Becomes(s, ins, c, Adds(s, 3, [Alu3(ins.opcode, s.stack[0], s.stack[1], s.stack[2])], [Gas(8)]))
  {
    hide Becomes;
    ComputeExecutes(s, ins, c, Ternary(ins.opcode), Alu3(ins.opcode, s.stack[0], s.stack[1], s.stack[2]), Gas(8));
  }

  lemma {:induction false} EnvironmentAdds(s: Sym, ins: Instruction, c: Setting)
    requires s.terminal.None? && ins.opcode in {0x30, 0x33, 0x34, 0x36, 0x38, 0x3D, 0x42, 0x43, 0x44, 0x45, 0x46, 0x48}
    ensures Becomes(s, ins, c, Adds(s, 0, [EnvTerm(ins.opcode)], [Gas(2)]))
  {
    hide Becomes;
    ComputeExecutes(s, ins, c, EnvOp(ins.opcode), EnvTerm(ins.opcode), Gas(2));
  }

  /** GAS: the accumulated cost as long as it is known, a fresh word afterwards. */
  lemma {:induction false} GasAdds(s: Sym, ins: Instruction, c: Setting)
    requires Has(s, ins, 0x5A, 0)
    ensures s.existential ==> Becomes(s, ins, c, Adds(s, 0, [GasWord(s.gasWords)], [Gas(2)]).(
                                     gasWords := s.gasWords + 1))
    ensures !s.existential ==> Becomes(s, ins, c, Adds(s, 0, [GasLeft(s.costs)], [Gas(2)]))
  {
    hide Wrap, SymStep, ExecuteOne;
    NothingAdded(s.hyps);
    OpExecutes(s, ins, c, GasOp);
  }

  // ----- memory -----

  lemma {:induction false} LoadAdds(s: Sym, ins: Instruction, c: Setting)
    requires Has(s, ins, 0x51, 1)
    ensures Becomes(s, ins, c, Adds(s, 1, [Load(s.stack[0], s.mem)], [Growth(s.aw, s.stack[0], Lit(32)), Gas(3)]).(
                       aw := Grown(s.aw, s.stack[0], Lit(32))))
  {
    hide Wrap, SymStep, ExecuteOne;
    NothingAdded(s.hyps);
    OpExecutes(s, ins, c, MLoadOp);
  }

  lemma {:induction false} StoreAdds(s: Sym, ins: Instruction, c: Setting)
    requires Has(s, ins, 0x52, 2)
    ensures Becomes(s, ins, c, Adds(s, 2, [], [Growth(s.aw, s.stack[0], Lit(32)), Gas(3)]).(
                       aw := Grown(s.aw, s.stack[0], Lit(32)), mem := WordWritten(s.stack[1], s.mem, s.stack[0])))
  {
    hide Wrap, SymStep, ExecuteOne;
    NothingAdded(s.hyps);
    OpExecutes(s, ins, c, MStoreOp);
  }

  lemma {:induction false} StoreByteAdds(s: Sym, ins: Instruction, c: Setting)
    requires Has(s, ins, 0x53, 2)
    ensures Becomes(s, ins, c, Adds(s, 2, [], [Growth(s.aw, s.stack[0], Lit(1)), Gas(3)]).(
                       aw := Grown(s.aw, s.stack[0], Lit(1)), mem := ByteWritten(s.stack[1], s.mem, s.stack[0])))
  {
    hide Wrap, SymStep, ExecuteOne;
    NothingAdded(s.hyps);
    OpExecutes(s, ins, c, MStore8Op);
  }

  lemma {:induction false} KeccakAdds(s: Sym, ins: Instruction, c: Setting)
    requires Has(s, ins, 0x20, 2)
    ensures Becomes(s, ins, c, Adds(s, 2, [Hash(s.stack[0], s.stack[1], s.mem)],
                                 [Growth(s.aw, s.stack[0], s.stack[1]), PerWord(30, 6, s.stack[1])]).(
                       aw := Grown(s.aw, s.stack[0], s.stack[1])))
  {
    hide Wrap, SymStep, ExecuteOne;
    NothingAdded(s.hyps);
    OpExecutes(s, ins, c, KeccakOp);
  }

  lemma {:induction false} CallDataCopyAdds(s: Sym, ins: Instruction, c: Setting)
    requires Has(s, ins, 0x37, 3)
    ensures Becomes(s, ins, c, Adds(s, 3, [], [Growth(s.aw, s.stack[0], s.stack[2]), PerWord(3, 3, s.stack[2])]).(
                       aw := Grown(s.aw, s.stack[0], s.stack[2]),
                       mem := Copied(CallDataSource, s.stack[1], s.mem, s.stack[0], s.stack[2])))
  {
    hide Wrap, SymStep, ExecuteOne;
    NothingAdded(s.hyps);
    OpExecutes(s, ins, c, CallDataCopyOp);
  }

  lemma {:induction false} CodeCopyAdds(s: Sym, ins: Instruction, c: Setting)
    requires Has(s, ins, 0x39, 3)
    ensures Becomes(s, ins, c, Adds(s, 3, [], [Growth(s.aw, s.stack[0], s.stack[2]), PerWord(3, 3, s.stack[2])]).(
                       aw := Grown(s.aw, s.stack[0], s.stack[2]),
                       mem := Copied(CodeSource, s.stack[1], s.mem, s.stack[0], s.stack[2])))
  {
    hide Wrap, SymStep, ExecuteOne;
    NothingAdded(s.hyps);
    OpExecutes(s, ins, c, CodeCopyOp);
  }

  lemma {:induction false} MemoryCopyAdds(s: Sym, ins: Instruction, c: Setting)
    requires Has(s, ins, 0x5E, 3)
    ensures Becomes(s, ins, c, Adds(s, 3, [], [MoveGrowth(s.aw, s.stack[0], s.stack[1], s.stack[2]),
                                          PerWord(3, 3, s.stack[2])]).(
                       aw := GrownForMove(s.aw, s.stack[0], s.stack[1], s.stack[2]),
                       mem := Moved(s.stack[1], s.mem, s.stack[0], s.stack[2])))
  {
    hide Wrap, SymStep, ExecuteOne;
    NothingAdded(s.hyps);
    OpExecutes(s, ins, c, MCopyOp);
  }

  // ----- conditions -----

  /** A condition is added once; the bounds of every copy are added anew. */
  function Added(hyps: seq<Hyp>, h: Hyp): seq<Hyp> {
    if h in hyps && !h.CopyInBounds? then hyps else hyps + [h]
  }

  lemma {:induction false} OneAdded(hyps: seq<Hyp>, h: Hyp)
    ensures AddHyps(hyps, [h]) == Added(hyps, h)
  {
    assert [h][1..] == [];
    NothingAdded(Added(hyps, h));
  }

  lemma {:induction false} TwoAdded(hyps: seq<Hyp>, h: Hyp, g: Hyp)
    ensures AddHyps(hyps, [h, g]) == Added(Added(hyps, h), g)
  {
    hide AddHyps;
    assert [h, g] == [h] + [g];
    FirstAdded(hyps, h, [g]);
    OneAdded(Added(hyps, h), g);
  }

  lemma {:induction false} FirstAdded(hyps: seq<Hyp>, h: Hyp, rest: seq<Hyp>)
    ensures AddHyps(hyps, [h] + rest) == AddHyps(Added(hyps, h), rest)
  {
    assert ([h] + rest)[1..] == rest;
  }

  /** A copy of return data must stay in bounds, unless it is a recognised full copy. */
  lemma {:induction false} ReturnDataCopyAdds(s: Sym, ins: Instruction, c: Setting)
    requires Has(s, ins, 0x3E, 3)
    ensures Becomes(s, ins, c, Adds(s, 3, [], [Growth(s.aw, s.stack[0], s.stack[2]), PerWord(3, 3, s.stack[2])]).(
                       aw := Grown(s.aw, s.stack[0], s.stack[2]),
                       mem := Copied(ReturnDataSource, s.stack[1], s.mem, s.stack[0], s.stack[2]),
                       hyps := if ins.pc in c.copyPcs then s.hyps
                               else Added(s.hyps, CopyInBounds(s.stack[1], s.stack[2]))))
  {
    hide Wrap, SymStep, ExecuteOne, AddHyps;
    OneAdded(s.hyps, CopyInBounds(s.stack[1], s.stack[2]));
    NothingAdded(s.hyps);
    OpExecutes(s, ins, c, ReturnDataCopyOp);
  }

  /** A store hides the gas spent, and needs a call that may write. */
  lemma {:induction false} StorageStoreAdds(s: Sym, ins: Instruction, c: Setting)
    requires Has(s, ins, 0x55, 2)
    ensures Becomes(s, ins, c, Adds(s, 2, [], []).(
                       world := SStored(s.world, s.stack[0], s.stack[1]), existential := true,
                                                 hyps := Added(s.hyps, Writable)))
  {
    hide Wrap, SymStep, ExecuteOne, AddHyps;
    OneAdded(s.hyps, Writable);
    NothingAdded(s.hyps);
    OpExecutes(s, ins, c, SStoreOp);
  }

  lemma {:induction false} TransientStoreAdds(s: Sym, ins: Instruction, c: Setting)
    requires Has(s, ins, 0x5D, 2)
    ensures Becomes(s, ins, c, Adds(s, 2, [], [Gas(100)]).(world := TStored(s.world, s.stack[0], s.stack[1]),
                                                 hyps := Added(s.hyps, Writable)))
  {
    hide Wrap, SymStep, ExecuteOne, AddHyps;
    OneAdded(s.hyps, Writable);
    NothingAdded(s.hyps);
    OpExecutes(s, ins, c, TStoreOp);
  }

  lemma {:induction false} StorageLoadAdds(s: Sym, ins: Instruction, c: Setting)
    requires Has(s, ins, 0x54, 1)
    ensures Becomes(s, ins, c, Adds(s, 1, [Stored(s.world, s.stack[0])], []).(existential := true))
  {
    hide Wrap, SymStep, ExecuteOne;
    NothingAdded(s.hyps);
    OpExecutes(s, ins, c, SLoadOp);
  }

  lemma {:induction false} TransientLoadAdds(s: Sym, ins: Instruction, c: Setting)
    requires Has(s, ins, 0x5C, 1)
    ensures Becomes(s, ins, c, Adds(s, 1, [TransientStored(s.world, s.stack[0])], [Gas(100)]))
  {
    hide Wrap, SymStep, ExecuteOne;
    NothingAdded(s.hyps);
    OpExecutes(s, ins, c, TLoadOp);
  }

  lemma {:induction false} AccountAdds(s: Sym, ins: Instruction, c: Setting)
    requires s.terminal.None? && 1 <= |s.stack| && (ins.opcode == 0x31 || ins.opcode == 0x3B || ins.opcode == 0x3F)
    ensures Becomes(s, ins, c, Adds(s, 1, [AccountTerm(ins.opcode, s.world, s.stack[0])], []).(existential := true))
  {
    hide Wrap, SymStep, ExecuteOne;
    NothingAdded(s.hyps);
    OpExecutes(s, ins, c, AccountOp(ins.opcode));
  }

  lemma {:induction false} LogAdds(s: Sym, ins: Instruction, c: Setting, n: nat)
    requires n <= 4 && Has(s, ins, 0xA0 + n, n + 2)
    ensures Becomes(s, ins, c, Adds(s, n + 2, [], [Growth(s.aw, s.stack[0], s.stack[1]), LogData(s.stack[1], n)]).(
                       aw := Grown(s.aw, s.stack[0], s.stack[1]), hyps := Added(s.hyps, Writable)))
  {
    hide Wrap, SymStep, ExecuteOne, AddHyps;
    OneAdded(s.hyps, Writable);
    OpExecutes(s, ins, c, LogOp(n));
  }

  /** A push of zero: PUSH0, or a wider push of a zero argument. */
  predicate PushesZero(ins: Instruction) {
    ins.opcode == 0x5F || (0x60 <= ins.opcode <= 0x7F && ins.argument == Some(0))
  }

  /** RETURNDATASIZE, zero, zero or DUP1, RETURNDATACOPY is recognised wherever it stands: no bound is asked of it. */
  lemma {:induction false} FullCopyRecognised(block: seq<Instruction>, i: nat, s: Sym, branch: Branch, sites: Sites)
    requires i + 4 <= |block| && block[i].opcode == 0x3D && PushesZero(block[i + 1])
    requires PushesZero(block[i + 2]) || block[i + 2].opcode == 0x80
    requires Has(s, block[i + 3], 0x3E, 3)
    ensures var next := ExecuteOne(s, block[i + 3], Setting(branch, CopyPcs(block), sites));
            next.Some? && next.value.hyps == s.hyps
  {
    hide Becomes, ExecuteOne;
    assert MatchFullCopy(block, i);
    var c := Setting(branch, CopyPcs(block), sites);
    assert block[i + 3].pc in c.copyPcs;
    ReturnDataCopyAdds(s, block[i + 3], c);
    BecomesKeeps(s, block[i + 3], c);
  }

  lemma {:induction false} BecomesKeeps(s: Sym, ins: Instruction, c: Setting)
    requires 3 <= |s.stack| && ins.pc in c.copyPcs
    requires Becomes(s, ins, c, Adds(s, 3, [], [Growth(s.aw, s.stack[0], s.stack[2]), PerWord(3, 3, s.stack[2])]).(
                     aw := Grown(s.aw, s.stack[0], s.stack[2]),
                     mem := Copied(ReturnDataSource, s.stack[1], s.mem, s.stack[0], s.stack[2]),
                     hyps := s.hyps))
    ensures ExecuteOne(s, ins, c).Some? && ExecuteOne(s, ins, c).value.hyps == s.hyps
  {
    hide ExecuteOne;
  }

  // ----- control -----

  /** Execution of one instruction gives `next`, its stack counted in the bound. */
  predicate JumpsTo(s: Sym, ins: Instruction, c: Setting, next: Sym) {
    ExecuteOne(s, ins, c) == Some(next.(maxPrefix := Machine.Max(s.maxPrefix, |next.stack|)))
  }

  /** JUMP goes to its operand, which must be a jump destination. */
  lemma {:induction false} JumpAdds(s: Sym, ins: Instruction, c: Setting)
    requires Has(s, ins, 0x56, 1)
    ensures JumpsTo(s, ins, c, Adds(s, 1, [], [Gas(8)]).(
                       pc := s.stack[0], hyps := Added(s.hyps, ValidJump(s.stack[0]))))
  {
    hide Wrap, SymStep, ExecuteOne, AddHyps;
    OneAdded(s.hyps, ValidJump(s.stack[0]));
    OpExecutes(s, ins, c, JumpOp);
  }

  /** JUMPI is executed along the branch given, on the condition that it is the one taken. */
  lemma {:induction false} JumpIfTaken(s: Sym, ins: Instruction, c: Setting)
    requires Has(s, ins, 0x57, 2) && c.branch.Taken?
    ensures JumpsTo(s, ins, c, Adds(s, 2, [], [Gas(10)]).(
                    pc := s.stack[0], hyps := Added(Added(s.hyps, IsTrue(s.stack[1])), ValidJump(s.stack[0]))))
  {
    hide Wrap, SymStep, ExecuteOne, AddHyps;
    TwoAdded(s.hyps, IsTrue(s.stack[1]), ValidJump(s.stack[0]));
    OpExecutes(s, ins, c, JumpIOp);
  }

  lemma {:induction false} JumpIfNotTaken(s: Sym, ins: Instruction, c: Setting)
    requires Has(s, ins, 0x57, 2) && c.branch.FallThrough?
    ensures Becomes(s, ins, c, Adds(s, 2, [], [Gas(10)]).(hyps := Added(s.hyps, IsFalse(s.stack[1]))))
  {
    hide Wrap, SymStep, ExecuteOne, AddHyps;
    OneAdded(s.hyps, IsFalse(s.stack[1]));
    OpExecutes(s, ins, c, JumpIOp);
  }

  /** An instruction that ends the execution. */
  predicate Ends(s: Sym, ins: Instruction, c: Setting, n: nat, t: Terminal)
    requires n <= |s.stack|
  {
    ExecuteOne(s, ins, c) == Some(s.(stack := s.stack[n..], terminal := Some(t)))
  }

  /** RETURN and REVERT end it, each in its own way. */
  lemma {:induction false} ReturnEnds(s: Sym, ins: Instruction, c: Setting)
    requires s.terminal.None? && 2 <= |s.stack|
    ensures ins.opcode == 0xF3 ==> Ends(s, ins, c, 2, ReturnsWith(s.world, s.mem, s.stack[0], s.stack[1]))
    ensures ins.opcode == 0xFD ==> Ends(s, ins, c, 2, RevertsWith)
  {
    hide SymStep, ExecuteOne;
    if ins.opcode == 0xF3 {
      OpExecutes(s, ins, c, ReturnOp);
    } else if ins.opcode == 0xFD {
      OpExecutes(s, ins, c, RevertOp);
    }
  }

  /** So do STOP and INVALID. */
  lemma {:induction false} StopEnds(s: Sym, ins: Instruction, c: Setting)
    requires s.terminal.None?
    ensures ins.opcode == 0x00 ==> Ends(s, ins, c, 0, StopsWith(s.world))
    ensures ins.opcode == 0xFE ==> Ends(s, ins, c, 0, InvalidWith)
  {
    hide SymStep, ExecuteOne;
    if ins.opcode == 0x00 {
      OpExecutes(s, ins, c, StopOp);
    } else if ins.opcode == 0xFE {
      OpExecutes(s, ins, c, InvalidOp);
    }
  }

  // ----- how a block ends, by its last opcode -----

  /** Nothing but the last instruction ends the block. */
  ghost predicate EndsOnlyLast(block: seq<Instruction>) {
    forall i :: 0 <= i < |block| - 1 ==> !IsTerminator(block[i].opcode)
  }

  /** The ending a summary names is that of its block's last opcode, and there is none for any other. */
  predicate EndingIs(op: Byte, t: Option<Terminal>) {
    && (op == 0x00 ==> t.Some? && t.value.StopsWith?)
    && (op == 0xF3 ==> t.Some? && t.value.ReturnsWith?)
    && (op == 0xFD ==> t == Some(RevertsWith))
    && (op == 0xFE ==> t == Some(InvalidWith))
    && (op !in {0x00, 0xF3, 0xFD, 0xFE} ==> t.None?)
  }

  lemma {:induction false} StepEnding(s: Sym, ins: Instruction, c: Setting)
    requires s.terminal.None? && ExecuteOne(s, ins, c).Some?
    ensures EndingIs(ins.opcode, ExecuteOne(s, ins, c).value.terminal)
    ensures !IsTerminator(ins.opcode) ==> ExecuteOne(s, ins, c).value.terminal.None?
  {
    hide Classify, Need, OutTerms, MemTermAfter, AwTermAfter, WorldTermAfter, CostTerms, AddHyps, NewHyps, PcTermAfter,
         WarmCold, Wrap;
    HaltingOps(ins.opcode);
  }

  lemma {:induction false} HaltingOps(op: Byte)
    ensures Classify(op) == Some(StopOp) <==> op == 0x00
    ensures Classify(op) == Some(ReturnOp) <==> op == 0xF3
    ensures Classify(op) == Some(RevertOp) <==> op == 0xFD
    ensures Classify(op) == Some(InvalidOp) <==> op == 0xFE
  {
  }

  lemma {:induction false} RunEnding(s: Sym, block: seq<Instruction>, c: Setting, f: Sym)
    requires s.terminal.None? && block != [] && EndsOnlyLast(block)
    requires SymRun(s, block, c.branch, c.copyPcs, c.sites) == Some(f)
    ensures EndingIs(block[|block| - 1].opcode, f.terminal)
    decreases |block|
  {
    hide SymStep, IsTerminator, EndingIs;
    StepEnding(s, block[0], c);
    var s' := SymStep(s, block[0], c.branch, c.copyPcs, c.sites).value;
    if |block| == 1 {
      assert block[1..] == [];
    } else {
      assert !IsTerminator(block[0].opcode);
      RunEnding(s', block[1..], c, f);
    }
  }

  /** A summary ends as the last opcode of its block does. */
  lemma {:induction false} TerminalOfSummary(block: seq<Instruction>, branch: Branch, sites: Sites, f: Sym)
    requires block != [] && AllSupported(block) && EndsOnlyLast(block)
    requires Summary(block, branch, sites) == Some(f)
    ensures EndingIs(block[|block| - 1].opcode, f.terminal)
  {
    hide SymRun, EndingIs, RequiredDepth, CopyPcs, IsTerminator, AllSupported;
    RunEnding(InitialSym(RequiredDepth(block), block[0].pc), block, Setting(branch, CopyPcs(block), sites), f);
  }

  /** PUSH0 PUSH0 RETURN returns no bytes. */
  lemma {:induction false} EmptyReturn(first: Instruction, second: Instruction, last: Instruction, branch: Branch,
                                       sites: Sites)
    requires first.opcode == 0x5F && second.opcode == 0x5F && last.opcode == 0xF3
    requires first.argument == None && second.argument == None
    ensures AllSupported([first, second, last])
    ensures Summary([first, second, last], branch, sites).Some?
    ensures Summary([first, second, last], branch, sites).value.terminal ==
            Some(ReturnsWith(EntryWorld, EntryMem, Lit(0), Lit(0)))
  {
    hide SymStep, CopyPcs, Becomes, Ends, RequiredDepth, SymRun;
    var block := [first, second, last];
    var c := Setting(branch, CopyPcs(block), sites);
    NeedsNothing(first, second, last);
    var s := InitialSym(0, first.pc);
    PushAdds(s, first, c);
    var s1 := AfterPush(s, first, c);
    PushAdds(s1, second, c);
    var s2 := AfterPush(s1, second, c);
    ReturnEnds(s2, last, c);
    EndsWith(s2, last, c);
    ThreeSteps(s, first, second, last, c);
  }

  lemma {:induction false} NeedsNothing(first: Instruction, second: Instruction, last: Instruction)
    requires first.opcode == 0x5F && second.opcode == 0x5F && last.opcode == 0xF3
    ensures AllSupported([first, second, last]) && RequiredDepth([first, second, last]) == 0
  {
    var (one, two, three) := ([first], [first, second], [first, second, last]);
    assert one[..0] == [] && two[..1] == one && three[..2] == two;
    assert Delta(one) == 1;
    assert Delta(two) == 2;
    assert RequiredDepth(one) == 0;
    assert RequiredDepth(two) == 0;
  }

  lemma {:induction false} AfterPush(s: Sym, ins: Instruction, c: Setting) returns (next: Sym)
    requires ins.opcode == 0x5F && ins.argument == None && s.terminal.None?
    requires Becomes(s, ins, c, Adds(s, 0, [Lit(0)], [Gas(2)]))
    ensures ExecuteOne(s, ins, c) == Some(next) && next.terminal.None?
    ensures next.stack == [Lit(0)] + s.stack && next.mem == s.mem && next.world == s.world
  {
    hide ExecuteOne;
    next := ExecuteOne(s, ins, c).value;
    assert s.stack[0..] == s.stack;
  }

  lemma {:induction false} EndsWith(s: Sym, ins: Instruction, c: Setting)
    requires 2 <= |s.stack| && Ends(s, ins, c, 2, ReturnsWith(s.world, s.mem, s.stack[0], s.stack[1]))
    ensures ExecuteOne(s, ins, c).Some?
    ensures ExecuteOne(s, ins, c).value.terminal == Some(ReturnsWith(s.world, s.mem, s.stack[0], s.stack[1]))
  {
    hide ExecuteOne;
  }

  lemma {:induction false} ThreeSteps(s: Sym, first: Instruction, second: Instruction, last: Instruction, c: Setting)
    requires ExecuteOne(s, first, c).Some? && ExecuteOne(ExecuteOne(s, first, c).value, second, c).Some?
    ensures SymRun(s, [first, second, last], c.branch, c.copyPcs, c.sites) ==
            ExecuteOne(ExecuteOne(ExecuteOne(s, first, c).value, second, c).value, last, c)
  {
    hide ExecuteOne, SymRun;
    assert [first, second, last] == [first] + [second, last] && [second, last] == [second] + [last];
    assert [last] == [last] + [];
    FirstStep(s, first, [second, last], c);
    var s1 := ExecuteOne(s, first, c).value;
    FirstStep(s1, second, [last], c);
    FirstStep(ExecuteOne(s1, second, c).value, last, [], c);
  }

  lemma {:induction false} FirstStep(s: Sym, ins: Instruction, rest: seq<Instruction>, c: Setting)
    ensures ExecuteOne(s, ins, c).None? ==> SymRun(s, [ins] + rest, c.branch, c.copyPcs, c.sites) == None
    ensures ExecuteOne(s, ins, c).Some? ==>
              SymRun(s, [ins] + rest, c.branch, c.copyPcs, c.sites) ==
              if rest == [] then ExecuteOne(s, ins, c)
              else SymRun(ExecuteOne(s, ins, c).value, rest, c.branch, c.copyPcs, c.sites)
  {
    hide SymStep;
    assert ([ins] + rest)[1..] == rest;
  }

  // ----- the ending of a concrete run -----

  /** A step that neither ends a block nor faults goes to the following instruction. */
  lemma {:induction false} StepOn(st: State, env: Env)
    requires st.pc < |env.code| && !IsTerminator(env.code[st.pc])
    ensures !Step(st, env).Halted?
    ensures Step(st, env).Next? ==> Step(st, env).state.pc == st.pc + 1 + PushWidth(env.code[st.pc])
  {
    hide Classify, Need, Pushes, Guard, Cost, Out, MemAfter, AwAfter, WorldAfter, InstructionAt, PushWidth, Immediate,
         WarmCold, IsTerminator;
    InstructionPc(env.code, st.pc);
    Opcodes.SizeAt(st, env);
    JumpTerminates(env.code[st.pc]);
    HaltTerminates(env.code[st.pc]);
  }

  /** A run through a placed block reaches its last instruction, or stops for want of gas or by a fault. */
  lemma {:induction false} RunToLast(block: seq<Instruction>, i: nat, st: State, sites: Sites, words: string -> Word,
                                     env: Env)
    requires i < |block| && PlacedBlock(block, sites, env, words) && st.pc == block[i].pc
    ensures var r := Run(st, |block| - 1 - i, env);
            && !r.Halted?
            && (r.Next? ==> Opcodes.At(r.state, env, block[|block| - 1].opcode))
            && Run(st, |block| - i, env) == if r.Next? then Step(r.state, env) else r
    decreases |block| - i
  {
    hide Step, Run, IsTerminator, InstructionAt, Placed;
    PlacedPc(block[i], sites, env, words);
    RunOne(st, |block| - 1 - i, env);
    RunOne(st, |block| - i, env);
    if i + 1 < |block| {
      StepOn(st, env);
      if Step(st, env).Next? {
        RunToLast(block, i + 1, Step(st, env).state, sites, words, env);
      }
    }
  }

  lemma {:induction false} PlacedPc(ins: Instruction, sites: Sites, env: Env, words: string -> Word)
    requires Placed(ins, sites, env, words)
    ensures ins.pc < |env.code| && env.code[ins.pc] == ins.opcode && ins.Size() == 1 + PushWidth(ins.opcode)
  {
    hide Classify, PushData, PushWidth, Immediate, SiteOrArgument, BytesToNat;
    InstructionPc(env.code, ins.pc);
  }

  lemma {:induction false} RunOne(st: State, n: nat, env: Env)
    ensures n == 0 ==> Run(st, n, env) == Next(st)
    ensures n == 1 ==> Run(st, n, env) == Step(st, env)
    ensures n > 0 ==>
              Run(st, n, env) == if Step(st, env).Next? then Run(Step(st, env).state, n - 1, env) else Step(st, env)
  {
    hide Step;
    if n == 1 && Step(st, env).Next? {
      assert Run(Step(st, env).state, 0, env) == Next(Step(st, env).state);
    }
  }

  /** What the last opcode of a block says of its run: the halt, from the state before the last step. */
  predicate HaltsAs(op: Byte, before: State, halt: Halt) {
    && (op == 0x00 ==> halt == Returned(before.world, []))
    && (op == 0xF3 ==> |before.stack| >= 2 &&
                       halt == Returned(before.world, ReadPadded(before.mem, before.stack[0], before.stack[1])))
    && (op == 0xFD ==> halt == Reverted)
    && (op == 0xFE ==> halt == Failed)
  }

  /**
   A run whose state meets a summary's conditions, gas permitting: if the block ends in STOP, RETURN,
   REVERT or INVALID, the summary's ending is the halt of that opcode in the state before it, and
   otherwise the summary has no ending.
   */
  lemma {:induction false} SummaryHalts(block: seq<Instruction>, branch: Branch, sites: Sites, f: Sym, st: State,
          xs: seq<Word>, rest: seq<Word>, words: string -> Word, env: Env)
    requires block != [] && AllSupported(block) && Summary(block, branch, sites) == Some(f)
    requires PlacedBlock(block, sites, env, words) && CopiesFromZero(block, sites, words)
    requires |xs| == RequiredDepth(block) && st.stack == xs + rest && st.pc == block[0].pc
    requires |rest| + f.maxPrefix <= 1024 || block[0].opcode == 0xFE
    requires AllHold(f.hyps, env, EntryOf(block, st, xs, words, env)) && !Run(st, |block|, env).OutOfGas?
    ensures var (op, e) := (block[|block| - 1].opcode, EntryOf(block, st, xs, words, env));
            if op in {0x00, 0xF3, 0xFD, 0xFE} then
              var before := Run(st, |block| - 1, env);
              && f.terminal.Some? && before.Next?
              && Run(st, |block|, env) == Halted(EvalTerminal(f.terminal.value, env, e))
              && HaltsAs(op, before.state, EvalTerminal(f.terminal.value, env, e))
            else f.terminal.None? && Run(st, |block|, env).Next?
  {
    hide CopiesFromZero, Run, AllHold, Rel, EntryOf, Placed, AllSupported, RequiredDepth, Summary, FailsBranch, Step,
         EvalTerminal, IsTerminator, HaltsAs;
    SummarySound(block, branch, sites, f, st, xs, rest, words, env);
    TerminalOfSummary(block, branch, sites, f);
    RunToLast(block, 0, st, sites, words, env);
    var op := block[|block| - 1].opcode;
    if op in {0x00, 0xF3, 0xFD, 0xFE} {
      LastHalts(Run(st, |block| - 1, env).state, env, op);
    }
  }

  /** A halt by one of the four opcodes. */
  lemma {:induction false} LastHalts(st: State, env: Env, op: Byte)
    requires Opcodes.At(st, env, op) && op in {0x00, 0xF3, 0xFD, 0xFE} && Step(st, env).Halted?
    ensures HaltsAs(op, st, Step(st, env).halt)
  {
    hide Step, ReadPadded;
    Opcodes.StopSteps(st, env);
    if (op == 0xF3 || op == 0xFD) && |st.stack| < 2 {
      Opcodes.TooFewOperands(st, env, op);
    } else if op == 0xF3 {
      Opcodes.ReturnSteps(st, env);
    } else if op == 0xFD {
      Opcodes.RevertSteps(st, env);
    }
  }
}
