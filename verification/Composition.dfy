/**
 Composition of block summaries by substitution.  Execution from a symbolic state is substitution of
 that state, account map and cost included; composition substitutes only the stack, the memory and the
 active words, and this says exactly when that is enough.
 */
module Composition {
  import opened Options
  import opened Words
  import opened WordArith
  import opened Bytecode
  import opened StackShapes
  import opened Machine
  import opened Symbolic
  import opened SymSound
  import opened SymBlocks
  import opened Blocks
  import opened Substitution

  /** The part of a symbolic state that composition carries along. */
  datatype RDState = RDState(stack: seq<Term>, mem: MemTerm, aw: AwTerm)

  function BaseOf(state: RDState, depth: nat): Base
    requires depth <= |state.stack|
  {
    Base(state.stack[..depth], state.mem, state.aw, EntryWorld, [])
  }

  /** None: too few words for the summary's entry stack. */
  function ApplySummary(state: RDState, depth: nat, f: Sym): Option<RDState> {
    if |state.stack| < depth then None
    else
      var base := BaseOf(state, depth);
      Some(RDState(SubstAll(f.stack, base) + state.stack[depth..], SubstMem(f.mem, base), SubstAw(f.aw, base)))
  }

  // ----- substitution is execution -----

  /** Summaries that halt are never composed. */
  predicate HaltingOpcode(op: Byte) {
    op == 0x00 || op == 0xF3 || op == 0xFD || op == 0xFE
  }

  predicate Continues(block: seq<Instruction>) {
    AllSupported(block) && forall i :: 0 <= i < |block| ==> !HaltingOpcode(block[i].opcode)
  }

  lemma {:induction false} ContinuesSupported(block: seq<Instruction>)
    requires Continues(block)
    ensures AllSupported(block)
  {
  }

  lemma {:induction false} ContinuingOps(op: Byte)
    requires !HaltingOpcode(op) && Classify(op).Some?
    ensures !Halting(Classify(op).value)
    ensures Classify(op).value.GasOp? <==> op == 0x5A
    ensures Classify(op).value.SStoreOp? || Classify(op).value.TStoreOp? <==> op == 0x55 || op == 0x5D
  {
  }

  /** The second state is the first with the substitution carried out, above a rest of the stack. */
  predicate Lifts(f: Sym, s: Sym, base: Base, rest: seq<Term>) {
    && s.stack == SubstAll(f.stack, base) + rest
    && s.mem == SubstMem(f.mem, base)
    && s.aw == SubstAw(f.aw, base)
    && s.world == SubstWorld(f.world, base)
    && s.costs == base.costs + SubstCosts(f.costs, base)
    && f.terminal.None? && s.terminal.None?
  }

  /** Both know the gas counter, or both have hidden it and read it equally often since. */
  predicate SameCounter(f: Sym, s: Sym) {
    s.existential == f.existential && s.gasWords == f.gasWords
  }

  lemma {:induction false} ResultLifts(o: Op, ins: Instruction, args: seq<Term>, f: Sym, s: Sym, sites: Sites,
          base: Base, rest: seq<Term>)
    requires |args| == Need(o) && HasResult(o) && Lifts(f, s, base, rest) && (o.GasOp? ==> SameCounter(f, s))
    ensures ResultTerm(o, ins, SubstAll(args, base), s, sites) == Subst(ResultTerm(o, ins, args, f, sites), base)
  {
    hide SubstMem, SubstAw, SubstCosts, SubstWorld, LibraryFn, PushTerm, SubstAll;
    if o.PushOp? {
      PushLifts(ins, sites, base);
    } else if o.Binary? {
      BinaryLifts(o.op, args, base);
    } else if o.GasOp? {
      GasLifts(f, s, base, rest);
    } else {
      forall i | 0 <= i < |args| ensures SubstAll(args, base)[i] == Subst(args[i], base) {
      }
    }
  }

  lemma {:induction false} BinaryLifts(op: Byte, args: seq<Term>, base: Base)
    requires |args| == 2
    ensures BinaryTerm(op, SubstAll(args, base)[0], SubstAll(args, base)[1])
            == Subst(BinaryTerm(op, args[0], args[1]), base)
  {
    hide LibraryFn;
  }

  lemma {:induction false} GasLifts(f: Sym, s: Sym, base: Base, rest: seq<Term>)
    requires Lifts(f, s, base, rest) && SameCounter(f, s)
    ensures (if s.existential then GasWord(s.gasWords) else GasLeft(s.costs))
            == Subst(if f.existential then GasWord(f.gasWords) else GasLeft(f.costs), base)
  {
    hide SubstAll, SubstMem, SubstAw, SubstWorld, SubstCosts;
  }

  lemma {:induction false} PushLifts(ins: Instruction, sites: Sites, base: Base)
    ensures Subst(PushTerm(ins, sites), base) == PushTerm(ins, sites)
  {
  }

  lemma {:induction false} OutLifts(o: Op, ins: Instruction, args: seq<Term>, f: Sym, s: Sym, sites: Sites,
          base: Base, rest: seq<Term>)
    requires |args| == Need(o) && Lifts(f, s, base, rest) && (o.GasOp? ==> SameCounter(f, s))
    ensures OutTerms(o, ins, SubstAll(args, base), s, sites) == SubstAll(OutTerms(o, ins, args, f, sites), base)
  {
    hide Subst, ResultTerm, Lifts, SubstMem, SubstAw, SubstWorld;
    if HasResult(o) {
      ResultLifts(o, ins, args, f, s, sites, base, rest);
    } else if o.DupOp? {
      SubstLiterals(base);
    }
  }

  lemma {:induction false} SubstLiterals(base: Base)
    ensures Subst(Lit(0), base) == Lit(0) && Subst(Lit(1), base) == Lit(1) && Subst(Lit(32), base) == Lit(32)
  {
  }

  lemma {:induction false} MemLifts(o: Op, args: seq<Term>, mem: MemTerm, base: Base)
    requires |args| == Need(o)
    ensures MemTermAfter(o, SubstAll(args, base), SubstMem(mem, base)) == SubstMem(MemTermAfter(o, args, mem), base)
  {
    hide Subst, SubstAw;
  }

  lemma {:induction false} AwLifts(o: Op, args: seq<Term>, aw: AwTerm, base: Base)
    requires |args| == Need(o)
    ensures AwTermAfter(o, SubstAll(args, base), SubstAw(aw, base)) == SubstAw(AwTermAfter(o, args, aw), base)
  {
    hide Subst, SubstMem;
    SubstLiterals(base);
  }

  lemma {:induction false} WorldLifts(o: Op, args: seq<Term>, world: WorldTerm, base: Base)
    requires |args| == Need(o)
    ensures WorldTermAfter(o, SubstAll(args, base), SubstWorld(world, base))
            == SubstWorld(WorldTermAfter(o, args, world), base)
  {
    hide Subst, SubstMem;
  }

  lemma {:induction false} OneCostLifts(c: CostTerm, base: Base)
    ensures SubstCosts([c], base) == [SubstCost(c, base)]
  {
    hide SubstCost;
    assert [c][..0] == [];
  }

  lemma {:induction false} CostsLiftAppend(a: seq<CostTerm>, b: seq<CostTerm>, base: Base)
    ensures SubstCosts(a + b, base) == SubstCosts(a, base) + SubstCosts(b, base)
    decreases |b|
  {
    hide SubstCost;
    if b == [] {
      assert a + b == a;
    } else {
      assert (a + b)[..|a + b| - 1] == a + b[..|b| - 1];
      CostsLiftAppend(a, b[..|b| - 1], base);
    }
  }

  lemma {:induction false} CostsLift(o: Op, op: Byte, args: seq<Term>, aw: AwTerm, base: Base)
    requires |args| == Need(o)
    ensures CostTerms(o, op, SubstAll(args, base), SubstAw(aw, base)) == SubstCosts(CostTerms(o, op, args, aw), base)
  {
    hide Subst, SubstAw, SubstCosts, StaticCost, SubstCost;
    var costs := CostTerms(o, op, args, aw);
    EachCostLifts(o, op, args, aw, base);
    if |costs| == 1 {
      OneCostLifts(costs[0], base);
    } else if |costs| == 2 {
      assert costs == [costs[0]] + [costs[1]];
      CostsLiftAppend([costs[0]], [costs[1]], base);
      OneCostLifts(costs[0], base);
      OneCostLifts(costs[1], base);
    }
  }

  lemma {:induction false} EachCostLifts(o: Op, op: Byte, args: seq<Term>, aw: AwTerm, base: Base)
    requires |args| == Need(o)
    ensures var (a, b) := (CostTerms(o, op, args, aw), CostTerms(o, op, SubstAll(args, base), SubstAw(aw, base)));
            |a| == |b| <= 2 && forall i :: 0 <= i < |a| ==> b[i] == SubstCost(a[i], base)
  {
    hide Subst, SubstAw, StaticCost;
    SubstLiterals(base);
  }

  lemma {:induction false} SplitTerms(stack: seq<Term>, n: nat, all: seq<Term>, base: Base, rest: seq<Term>)
    requires n <= |stack| && all == SubstAll(stack, base) + rest
    ensures n <= |all| && all[..n] == SubstAll(stack[..n], base) && all[n..] == SubstAll(stack[n..], base) + rest
  {
    hide Subst;
  }

  lemma {:induction false} JoinTerms(a: seq<Term>, b: seq<Term>, base: Base)
    ensures SubstAll(a + b, base) == SubstAll(a, base) + SubstAll(b, base)
  {
    hide Subst;
  }

  /** One instruction: executing it on the substituted state is substituting into its result. */
  lemma {:induction false} StepLifts(o: Op, ins: Instruction, f: Sym, s: Sym, branch: Branch, fullCopy: bool,
          fullCopy': bool, sites: Sites, base: Base, rest: seq<Term>)
    requires Need(o) <= |f.stack| && !Halting(o) && Lifts(f, s, base, rest) && (o.GasOp? ==> SameCounter(f, s))
    ensures Need(o) <= |s.stack|
    ensures Lifts(SymExecute(o, f, ins, branch, fullCopy, sites), SymExecute(o, s, ins, branch, fullCopy', sites), base,
                  rest)
    ensures SameCounter(f, s) ==> SameCounter(SymExecute(o, f, ins, branch, fullCopy, sites),
                                              SymExecute(o, s, ins, branch, fullCopy', sites))
  {
    hide Subst, SubstMem, SubstAw, SubstWorld, SubstCosts, SubstAll, OutTerms, MemTermAfter, AwTermAfter,
         WorldTermAfter, CostTerms, PcTermAfter, AddHyps, NewHyps, Need, Pushes, Machine.Max, WarmCold;
    var n := Need(o);
    var args := f.stack[..n];
    SplitTerms(f.stack, n, s.stack, base, rest);
    OutLifts(o, ins, args, f, s, sites, base, rest);
    JoinTerms(OutTerms(o, ins, args, f, sites), f.stack[n..], base);
    MemLifts(o, args, f.mem, base);
    AwLifts(o, args, f.aw, base);
    WorldLifts(o, args, f.world, base);
    CostsLift(o, ins.opcode, args, f.aw, base);
    CostsLiftAppend(f.costs, CostTerms(o, ins.opcode, args, f.aw), base);
  }

  predicate ReadsCounter(block: seq<Instruction>) {
    exists i :: 0 <= i < |block| && block[i].opcode == 0x5A
  }

  /** A whole block: whatever bounds checks its copies may omit. */
  lemma {:induction false} RunLifts(block: seq<Instruction>, f: Sym, s: Sym, g: Sym, branch: Branch, pcs: set<nat>,
                                    pcs': set<nat>, sites: Sites, base: Base, rest: seq<Term>)
    requires Continues(block) && Lifts(f, s, base, rest) && (ReadsCounter(block) ==> SameCounter(f, s))
    requires SymRun(f, block, branch, pcs, sites) == Some(g)
    ensures SymRun(s, block, branch, pcs', sites).Some?
    ensures Lifts(g, SymRun(s, block, branch, pcs', sites).value, base, rest)
    decreases |block|
  {
    hide Lifts, Classify, Need, SymExecute, HaltingOpcode, StackShape, Halting, SameCounter;
    if block != [] {
      var ins := block[0];
      LiftsTerminal(f, s, base, rest);
      var o := Classify(ins.opcode).value;
      ContinuingOps(ins.opcode);
      StepLifts(o, ins, f, s, branch, ins.pc in pcs, ins.pc in pcs', sites, base, rest);
      assert ReadsCounter(block[1..]) ==> ReadsCounter(block) by {
        if i :| 0 <= i < |block[1..]| && block[1..][i].opcode == 0x5A {
          assert block[i + 1].opcode == 0x5A;
        }
      }
      RunLifts(block[1..], SymExecute(o, f, ins, branch, ins.pc in pcs, sites),
               SymExecute(o, s, ins, branch, ins.pc in pcs', sites), g, branch, pcs, pcs', sites, base, rest);
    }
  }

  lemma {:induction false} LiftsTerminal(f: Sym, s: Sym, base: Base, rest: seq<Term>)
    requires Lifts(f, s, base, rest)
    ensures f.terminal.None? && s.terminal.None?
  {
  }

  // ----- a summary applied, against the block executed -----

  /** Composition carries the state along: its stack, memory and active words. */
  predicate Carries(s: Sym, state: RDState) {
    s.stack == state.stack && s.mem == state.mem && s.aw == state.aw && s.terminal.None?
  }

  /** No warm or cold operation has hidden the gas counter yet. */
  predicate CounterVisible(s: Sym) {
    !s.existential && s.gasWords == 0
  }

  function Instantiated(s: Sym, depth: nat): Base
    requires depth <= |s.stack|
  {
    Base(s.stack[..depth], s.mem, s.aw, s.world, s.costs)
  }

  lemma {:induction false} InitialLifts(depth: nat, pc: nat, s: Sym)
    requires depth <= |s.stack| && s.terminal.None?
    ensures Lifts(InitialSym(depth, pc), s, Instantiated(s, depth), s.stack[depth..])
    ensures SameCounter(InitialSym(depth, pc), s) <==> CounterVisible(s)
  {
    hide Subst;
    var base := Instantiated(s, depth);
    forall i | 0 <= i < depth ensures Subst(Input(i), base) == s.stack[i] {
      InputLifts(i, base);
    }
    assert s.stack == SubstAll(InitialSym(depth, pc).stack, base) + s.stack[depth..];
    assert SubstCosts([], base) == [];
  }

  lemma {:induction false} InputLifts(i: nat, base: Base)
    requires i < |base.xs|
    ensures Subst(Input(i), base) == base.xs[i]
  {
  }

  /** The stack, the memory or the active words of a summary read the account map or the gas counter. */
  predicate SummaryReads(f: Sym, store: bool, gas: bool) {
    || (exists i :: 0 <= i < |f.stack| && Reads(f.stack[i], store, gas))
    || ReadsInMem(f.mem, store, gas)
    || ReadsInAw(f.aw, store, gas)
  }

  lemma {:induction false} SameStackExactly(ts: seq<Term>, base: Base, rest: seq<Term>)
    ensures SubstAll(ts, base) + rest == SubstAll(ts, Composed(base)) + rest
            <==> forall i :: 0 <= i < |ts| ==> !Reads(ts[i], base.world != EntryWorld, base.costs != [])
  {
    hide Subst, Reads, Composed;
    var (a, b) := (SubstAll(ts, base), SubstAll(ts, Composed(base)));
    forall i | 0 <= i < |ts| ensures a[i] == b[i] <==> !Reads(ts[i], base.world != EntryWorld, base.costs != []) {
      SameExactly(ts[i], base);
    }
    if a + rest == b + rest {
      assert (a + rest)[..|ts|] == a && (b + rest)[..|ts|] == b;
    } else {
      assert a != b;
    }
  }

  /** Applying a summary uses the substitution without the account map and the cost. */
  lemma {:induction false} AppliedBase(s: Sym, state: RDState, depth: nat)
    requires Carries(s, state) && depth <= |s.stack|
    ensures Composed(Instantiated(s, depth)) == BaseOf(state, depth)
  {
  }

  /**
   Applying a block's summary to a state gives the stack, the memory and the active words of executing
   the block from it if and only if they read neither the account map, unless no store came before, nor
   the gas counter, unless nothing was spent before.
   */
  lemma {:induction false} ApplyIsRun(block: seq<Instruction>, branch: Branch, sites: Sites, f: Sym, s: Sym,
          state: RDState, pcs: set<nat>)
    requires block != [] && Continues(block) && Summary(block, branch, sites) == Some(f) && Carries(s, state)
    requires RequiredDepth(block) <= |state.stack|
    requires ReadsCounter(block) ==> CounterVisible(s)
    ensures SymRun(s, block, branch, pcs, sites).Some?
    ensures ApplySummary(state, RequiredDepth(block), f).Some?
    ensures Carries(SymRun(s, block, branch, pcs, sites).value, ApplySummary(state, RequiredDepth(block), f).value)
            <==> !SummaryReads(f, s.world != EntryWorld, s.costs != [])
  {
    hide InitialSym, SymRun, Subst, SubstAll, SubstMem, SubstAw, RequiredDepth, HaltingOpcode, ReadsCounter, Reads,
         ReadsInMem, ReadsInAw, Instantiated, Composed;
    var depth := RequiredDepth(block);
    var (base, rest) := (Instantiated(s, depth), s.stack[depth..]);
    BaseMeans(s, depth);
    InitialLifts(depth, block[0].pc, s);
    RunLifts(block, InitialSym(depth, block[0].pc), s, f, branch, CopyPcs(block), pcs, sites, base, rest);
    AppliedBase(s, state, depth);
    SameStackExactly(f.stack, base, rest);
    SameMemExactly(f.mem, base);
    SameAwExactly(f.aw, base);
  }

  lemma {:induction false} BaseMeans(s: Sym, depth: nat)
    requires depth <= |s.stack|
    ensures Instantiated(s, depth).world == s.world && Instantiated(s, depth).costs == s.costs
  {
  }

  lemma {:induction false} RunAppend(s: Sym, a: seq<Instruction>, b: seq<Instruction>, branch: Branch, pcs: set<nat>,
          sites: Sites)
    ensures SymRun(s, a + b, branch, pcs, sites) ==
            match SymRun(s, a, branch, pcs, sites) case None => None case Some(t) => SymRun(t, b, branch, pcs, sites)
    decreases |a|
  {
    hide SymStep;
    if a == [] {
      assert a + b == b;
    } else {
      assert (a + b)[1..] == a[1..] + b;
      if SymStep(s, a[0], branch, pcs, sites).Some? {
        RunAppend(SymStep(s, a[0], branch, pcs, sites).value, a[1..], b, branch, pcs, sites);
      }
    }
  }

  // ----- what execution leaves for the next summary -----

  predicate IsStore(op: Byte) {
    op == 0x55 || op == 0x5D
  }

  predicate Stores(block: seq<Instruction>) {
    exists i :: 0 <= i < |block| && IsStore(block[i].opcode)
  }

  /** Some instruction has a known price. */
  predicate Spends(block: seq<Instruction>) {
    exists i :: 0 <= i < |block| && !IsWarmCold(block[i])
  }

  /** The flags of a state that tell what composition may have lost. */
  predicate LeavesBehind(s: Sym, block: seq<Instruction>, t: Sym) {
    && t.terminal.None?
    && (t.world == EntryWorld <==> s.world == EntryWorld && !Stores(block))
    && (t.costs == [] <==> s.costs == [] && !Spends(block))
    && t.existential == (s.existential || HasWarmCold(block))
    && (t.gasWords == 0 || t.existential || !CounterVisible(s))
  }

  lemma {:induction false} StepLeaves(o: Op, s: Sym, ins: Instruction, branch: Branch, fullCopy: bool, sites: Sites)
    requires Need(o) <= |s.stack| && Classify(ins.opcode) == Some(o) && s.terminal.None? && !HaltingOpcode(ins.opcode)
    ensures LeavesBehind(s, [ins], SymExecute(o, s, ins, branch, fullCopy, sites))
  {
    hide MemTermAfter, AwTermAfter, AddHyps, NewHyps, PcTermAfter, OutTerms, Need, Classify, CostTerms, Halting;
    ContinuingOps(ins.opcode);
    var n := Need(o);
    PricedExactly(o, ins.opcode, s.stack[..n], s.aw);
    assert [ins][0] == ins;
    assert IsWarmCold(ins) <==> WarmCold(o);
    assert HasWarmCold([ins]) <==> WarmCold(o);
    assert Spends([ins]) <==> !WarmCold(o);
    assert Stores([ins]) <==> IsStore(ins.opcode);
  }

  lemma {:induction false} PricedExactly(o: Op, op: Byte, args: seq<Term>, aw: AwTerm)
    requires |args| == Need(o)
    ensures CostTerms(o, op, args, aw) == [] <==> WarmCold(o)
  {
    hide StaticCost;
  }

  lemma {:induction false} LeavesTwice(s: Sym, a: seq<Instruction>, t: Sym, b: seq<Instruction>, u: Sym)
    requires LeavesBehind(s, a, t) && LeavesBehind(t, b, u)
    ensures LeavesBehind(s, a + b, u)
  {
    hide IsWarmCold, IsStore;
    var all := a + b;
    assert Stores(all) <==> Stores(a) || Stores(b) by {
      if i :| 0 <= i < |a| && IsStore(a[i].opcode) { assert all[i] == a[i]; }
      if i :| 0 <= i < |b| && IsStore(b[i].opcode) { assert all[|a| + i] == b[i]; }
    }
    assert Spends(all) <==> Spends(a) || Spends(b) by {
      if i :| 0 <= i < |a| && !IsWarmCold(a[i]) { assert all[i] == a[i]; }
      if i :| 0 <= i < |b| && !IsWarmCold(b[i]) { assert all[|a| + i] == b[i]; }
    }
    assert HasWarmCold(all) <==> HasWarmCold(a) || HasWarmCold(b) by {
      if i :| 0 <= i < |a| && IsWarmCold(a[i]) { assert all[i] == a[i]; }
      if i :| 0 <= i < |b| && IsWarmCold(b[i]) { assert all[|a| + i] == b[i]; }
    }
  }

  lemma {:induction false} RunLeaves(s: Sym, block: seq<Instruction>, branch: Branch, pcs: set<nat>, sites: Sites,
          t: Sym)
    requires Continues(block) && s.terminal.None? && SymRun(s, block, branch, pcs, sites) == Some(t)
    ensures LeavesBehind(s, block, t)
    ensures RequiredDepth(block) <= |s.stack|
    decreases |block|
  {
    hide Classify, Need, SymExecute, HaltingOpcode, LeavesBehind, NoUnderflow, StackShape, RequiredDepth;
    if block == [] {
      NothingLeaves(s);
      NothingUnderflows(|s.stack|);
    } else {
      var ins := block[0];
      ClassifyMatchesShapes(ins.opcode);
      var o := Classify(ins.opcode).value;
      var next := SymExecute(o, s, ins, branch, ins.pc in pcs, sites);
      StepLeaves(o, s, ins, branch, ins.pc in pcs, sites);
      LeavesTerminal(s, [ins], next);
      RunLeaves(next, block[1..], branch, pcs, sites, t);
      assert block == [ins] + block[1..];
      LeavesTwice(s, [ins], next, block[1..], t);
      ContinuingOps(ins.opcode);
      ExecuteHeights(o, s, ins, branch, ins.pc in pcs, sites);
      RequiredDepthIsLeast(block[1..], |next.stack|);
      OneMoreFits(ins, block[1..], |s.stack|, |next.stack|);
    }
    RequiredDepthIsLeast(block, |s.stack|);
  }

  lemma {:induction false} NothingLeaves(s: Sym)
    requires s.terminal.None?
    ensures LeavesBehind(s, [], s)
  {
  }

  lemma {:induction false} LeavesTerminal(s: Sym, block: seq<Instruction>, t: Sym)
    requires LeavesBehind(s, block, t)
    ensures t.terminal.None?
  {
  }

  lemma {:induction false} OneMoreFits(ins: Instruction, rest: seq<Instruction>, d: nat, d': nat)
    requires AllSupported([ins] + rest) && AllSupported(rest) && NoUnderflow(rest, d')
    requires StackShape(ins.opcode).Some? && StackShape(ins.opcode).value.need <= d
    requires d' == d + StackShape(ins.opcode).value.pushes - StackShape(ins.opcode).value.pops
    ensures NoUnderflow([ins] + rest, d)
  {
    hide StackShape, Delta;
    var all := [ins] + rest;
    forall i | 0 <= i < |all| ensures StackShape(all[i].opcode).value.need <= d + Delta(all[..i]) {
      if i == 0 {
        assert all[..0] == [];
        NoDelta();
      } else {
        assert all[i] == rest[i - 1] && all[..i] == [ins] + rest[..i - 1];
        assert AllSupported([ins]);
        DeltaAppend([ins], rest[..i - 1]);
        OneDelta(ins);
      }
    }
  }

  lemma {:induction false} DeltaAppend(a: seq<Instruction>, b: seq<Instruction>)
    requires AllSupported(a) && AllSupported(b)
    ensures Delta(a + b) == Delta(a) + Delta(b)
    decreases |b|
  {
    hide StackShape;
    if b == [] {
      assert a + b == a;
    } else {
      assert (a + b)[..|a + b| - 1] == a + b[..|b| - 1];
      DeltaAppend(a, b[..|b| - 1]);
    }
  }

  lemma {:induction false} NoDelta()
    ensures Delta([]) == 0
  {
  }

  lemma {:induction false} OneDelta(ins: Instruction)
    requires StackShape(ins.opcode).Some?
    ensures AllSupported([ins])
    ensures Delta([ins]) == StackShape(ins.opcode).value.pushes - StackShape(ins.opcode).value.pops
  {
    hide StackShape;
    assert [ins][..0] == [];
    NoDelta();
  }

  // ----- paths of pieces -----

  /** A piece and the way it is left. */
  datatype Step = Step(block: seq<Instruction>, branch: Branch)

  ghost predicate StepOk(step: Step) {
    && step.block != [] && Continues(step.block) && BranchGiven(step.block, step.branch)
    && forall i :: 0 <= i < |step.block| - 1 ==> !IsTerminator(step.block[i].opcode)
  }

  ghost predicate StepsOk(steps: seq<Step>) {
    forall k :: 0 <= k < |steps| ==> StepOk(steps[k])
  }

  /** The summaries of the pieces applied one after another. */
  ghost function ApplyAll(state: RDState, steps: seq<Step>, sites: Sites): Option<RDState>
    requires StepsOk(steps)
    decreases |steps|
  {
    if steps == [] then Some(state)
    else
      var last := steps[|steps| - 1];
      assert StepOk(last);
      var before :- ApplyAll(state, steps[..|steps| - 1], sites);
      var f :- Summary(last.block, last.branch, sites);
      ApplySummary(before, RequiredDepth(last.block), f)
  }

  /** The pieces executed one after another. */
  function RunAll(s: Sym, steps: seq<Step>, sites: Sites): Option<Sym>
    decreases |steps|
  {
    if steps == [] then Some(s)
    else
      var last := steps[|steps| - 1];
      var before :- RunAll(s, steps[..|steps| - 1], sites);
      SymRun(before, last.block, last.branch, {}, sites)
  }

  function Code(steps: seq<Step>): seq<Instruction>
    decreases |steps|
  {
    if steps == [] then [] else Code(steps[..|steps| - 1]) + steps[|steps| - 1].block
  }

  /** Where a path starts: nothing stored and nothing spent. */
  function Start(state: RDState): Sym {
    Sym(state.stack, state.mem, state.aw, EntryWorld, Lit(0), [], false, 0, [], None, 0)
  }

  /** The summary of piece k reads nothing that the pieces before it have changed. */
  ghost predicate Joins(steps: seq<Step>, k: nat, sites: Sites)
    requires k < |steps| && StepsOk(steps)
  {
    assert StepOk(steps[k]);
    var f := Summary(steps[k].block, steps[k].branch, sites);
    f.Some? ==> !SummaryReads(f.value, Stores(Code(steps[..k])), Spends(Code(steps[..k])))
  }

  /** A piece that reads the gas counter comes before all warm and cold operations of earlier pieces. */
  ghost predicate CountersVisible(steps: seq<Step>) {
    forall k :: 0 <= k < |steps| && ReadsCounter(steps[k].block) ==> !HasWarmCold(Code(steps[..k]))
  }

  /** What composition computes for the path is what execution leaves. */
  ghost predicate Right(state: RDState, steps: seq<Step>, sites: Sites)
    requires StepsOk(steps)
  {
    var (run, applied) := (RunAll(Start(state), steps, sites), ApplyAll(state, steps, sites));
    run.Some? && applied.Some? && Carries(run.value, applied.value)
  }

  lemma {:induction false} PathLeaves(state: RDState, steps: seq<Step>, sites: Sites)
    requires StepsOk(steps) && RunAll(Start(state), steps, sites).Some?
    ensures LeavesBehind(Start(state), Code(steps), RunAll(Start(state), steps, sites).value)
    decreases |steps|
  {
    hide LeavesBehind, SymRun, RequiredDepth, Continues;
    if steps == [] {
      NothingLeaves(Start(state));
    } else {
      var (front, last) := (steps[..|steps| - 1], steps[|steps| - 1]);
      assert StepOk(last);
      PathLeaves(state, front, sites);
      var t := RunAll(Start(state), front, sites).value;
      var u := RunAll(Start(state), steps, sites).value;
      LeavesTerminal(Start(state), Code(front), t);
      RunLeaves(t, last.block, last.branch, {}, sites, u);
      LeavesTwice(Start(state), Code(front), t, last.block, u);
    }
  }

  /** One more piece after code that left state t behind: composition stays right exactly if its summary joins. */
  lemma {:induction false} OneMoreStep(start: Sym, code: seq<Instruction>, t: Sym, before: RDState, last: Step,
          sites: Sites)
    requires StepOk(last) && LeavesBehind(start, code, t) && Carries(t, before) && AtStart(start)
    requires RequiredDepth(last.block) <= |before.stack| && (ReadsCounter(last.block) ==> !HasWarmCold(code))
    ensures Summary(last.block, last.branch, sites).Some? && SymRun(t, last.block, last.branch, {}, sites).Some?
    ensures var f := Summary(last.block, last.branch, sites).value;
            var applied := ApplySummary(before, RequiredDepth(last.block), f);
            && applied.Some?
            && (Carries(SymRun(t, last.block, last.branch, {}, sites).value, applied.value)
                <==> !SummaryReads(f, Stores(code), Spends(code)))
  {
    hide SymRun, RequiredDepth, Continues, Summary, ReadsCounter, HasWarmCold, SummaryReads, Stores, Spends, Carries,
         ApplySummary, CounterVisible, IsTerminator, LeavesBehind;
    ContinuesSupported(last.block);
    SummaryExists(last.block, last.branch, sites);
    LeftBehind(start, code, t);
    ApplyIsRun(last.block, last.branch, sites, Summary(last.block, last.branch, sites).value, t, before, {});
  }

  predicate AtStart(s: Sym) {
    s.world == EntryWorld && s.costs == [] && CounterVisible(s) && s.terminal.None?
  }

  lemma {:induction false} CarriesStack(s: Sym, state: RDState)
    requires Carries(s, state)
    ensures s.stack == state.stack
  {
  }

  lemma {:induction false} LeftBehind(start: Sym, code: seq<Instruction>, t: Sym)
    requires LeavesBehind(start, code, t) && AtStart(start)
    ensures t.terminal.None?
    ensures t.world != EntryWorld <==> Stores(code)
    ensures t.costs != [] <==> Spends(code)
    ensures !HasWarmCold(code) ==> CounterVisible(t)
  {
    hide Stores, Spends, HasWarmCold;
  }

  lemma {:induction false} PrefixRuns(state: RDState, steps: seq<Step>, sites: Sites, n: nat)
    requires n <= |steps| && RunAll(Start(state), steps, sites).Some?
    ensures RunAll(Start(state), steps[..n], sites).Some?
    decreases |steps|
  {
    hide SymRun;
    if n == |steps| {
      assert steps[..n] == steps;
    } else {
      assert steps[..|steps| - 1][..n] == steps[..n];
      PrefixRuns(state, steps[..|steps| - 1], sites, n);
    }
  }

  /** Composition is right after every piece. */
  ghost predicate RightThroughout(state: RDState, steps: seq<Step>, sites: Sites)
    requires StepsOk(steps)
  {
    forall n :: 0 <= n <= |steps| ==> Right(state, steps[..n], sites)
  }

  ghost predicate AllJoin(steps: seq<Step>, sites: Sites)
    requires StepsOk(steps)
  {
    forall k :: 0 <= k < |steps| ==> Joins(steps, k, sites)
  }

  /**
   Along a path of pieces that execution can follow, composition is right after every piece if and only
   if no piece's summary reads an account map that an earlier piece stored to, or a gas counter that an
   earlier piece spent from.
   */
  lemma {:induction false} PathIsRight(state: RDState, steps: seq<Step>, sites: Sites)
    requires StepsOk(steps) && RunAll(Start(state), steps, sites).Some? && CountersVisible(steps)
    ensures RightThroughout(state, steps, sites) <==> AllJoin(steps, sites)
    decreases |steps|
  {
    hide Right, Joins, CountersVisible, RunAll, StepOk, Start, RightThroughout, AllJoin;
    if steps == [] {
      NothingRight(state, sites);
    } else {
      var n := |steps| - 1;
      PrefixRuns(state, steps, sites, n);
      VisibleFront(steps);
      PathIsRight(state, steps[..n], sites);
      RightSplit(state, steps, sites);
      JoinSplit(steps, sites);
      if Right(state, steps[..n], sites) {
        RightStep(state, steps, sites);
      }
    }
  }

  /** Right after all pieces but the last, composition is right after the last exactly if that joins. */
  lemma {:induction false} RightStep(state: RDState, steps: seq<Step>, sites: Sites)
    requires steps != [] && StepsOk(steps) && CountersVisible(steps)
    ensures var front := steps[..|steps| - 1];
            RunAll(Start(state), steps, sites).Some? && Right(state, front, sites) ==>
              (Right(state, steps, sites) <==> Joins(steps, |steps| - 1, sites))
  {
    hide LeavesBehind, SymRun, RequiredDepth, Continues, Summary, ReadsCounter, HasWarmCold, SummaryReads, Stores, Spends,
         Carries, ApplySummary, Code, CounterVisible, IsTerminator, AtStart, BranchGiven;
    var n := |steps| - 1;
    var (front, last) := (steps[..n], steps[n]);
    assert StepOk(last);
    if RunAll(Start(state), steps, sites).Some? && Right(state, front, sites) {
      PathLeaves(state, front, sites);
      var t := RunAll(Start(state), front, sites).value;
      var before := ApplyAll(state, front, sites).value;
      StartIsStart(state);
      LeavesTerminal(Start(state), Code(front), t);
      RunLeaves(t, last.block, last.branch, {}, sites, RunAll(Start(state), steps, sites).value);
      CarriesStack(t, before);
      OneMoreStep(Start(state), Code(front), t, before, last, sites);
    }
  }

  lemma {:induction false} StartIsStart(state: RDState)
    ensures AtStart(Start(state))
  {
  }

  lemma {:induction false} NothingRight(state: RDState, sites: Sites)
    ensures RightThroughout(state, [], sites) && AllJoin([], sites)
  {
    var none: seq<Step> := [];
    assert none[..0] == none;
    assert Right(state, [], sites);
  }

  lemma {:induction false} RightSplit(state: RDState, steps: seq<Step>, sites: Sites)
    requires steps != [] && StepsOk(steps)
    ensures RightThroughout(state, steps[..|steps| - 1], sites) ==> Right(state, steps[..|steps| - 1], sites)
    ensures RightThroughout(state, steps, sites)
            <==> RightThroughout(state, steps[..|steps| - 1], sites) && Right(state, steps, sites)
  {
    hide Right, StepOk;
    var front := steps[..|steps| - 1];
    assert front[..|front|] == front && steps[..|steps|] == steps;
    assert forall m :: 0 <= m <= |front| ==> front[..m] == steps[..m];
    if RightThroughout(state, steps, sites) {
      forall m | 0 <= m <= |front| ensures Right(state, front[..m], sites) {
        assert Right(state, steps[..m], sites);
      }
    }
    if RightThroughout(state, front, sites) && Right(state, steps, sites) {
      forall m | 0 <= m <= |steps| ensures Right(state, steps[..m], sites) {
        assert m <= |front| ==> Right(state, front[..m], sites);
      }
    }
  }

  lemma {:induction false} JoinSplit(steps: seq<Step>, sites: Sites)
    requires steps != [] && StepsOk(steps)
    ensures AllJoin(steps, sites) <==> AllJoin(steps[..|steps| - 1], sites) && Joins(steps, |steps| - 1, sites)
  {
    hide Code, SummaryReads, Stores, Spends, Summary, StepOk;
    var front := steps[..|steps| - 1];
    forall k | 0 <= k < |front| ensures Joins(front, k, sites) <==> Joins(steps, k, sites) {
      assert front[k] == steps[k] && front[..k] == steps[..k];
    }
  }

  lemma {:induction false} VisibleFront(steps: seq<Step>)
    requires steps != [] && CountersVisible(steps)
    ensures CountersVisible(steps[..|steps| - 1])
  {
    hide Code, ReadsCounter, HasWarmCold;
    var front := steps[..|steps| - 1];
    forall k | 0 <= k < |front| && ReadsCounter(front[k].block) ensures !HasWarmCold(Code(front[..k])) {
      assert front[k] == steps[k] && front[..k] == steps[..k];
    }
  }

  // ----- cutting a block into pieces -----

  function StepsOf(parts: seq<seq<Instruction>>, branch: Branch): (r: seq<Step>)
    ensures |r| == |parts|
  {
    seq(|parts|, i requires 0 <= i < |parts| => Step(parts[i], branch))
  }

  lemma {:induction false} StepsCode(parts: seq<seq<Instruction>>, branch: Branch)
    ensures Code(StepsOf(parts, branch)) == Flatten(parts)
    decreases |parts|
  {
    if parts != [] {
      var front := parts[..|parts| - 1];
      StepsCode(front, branch);
      assert StepsOf(parts, branch)[..|parts| - 1] == StepsOf(front, branch);
      FlattenAppend(front, parts[|parts| - 1]);
      assert parts == front + [parts[|parts| - 1]];
    }
  }

  /** Executing pieces one after another, all left the same way, is executing their concatenation. */
  lemma {:induction false} PiecesRun(s: Sym, steps: seq<Step>, branch: Branch, sites: Sites)
    requires forall k :: 0 <= k < |steps| ==> steps[k].branch == branch
    ensures RunAll(s, steps, sites) == SymRun(s, Code(steps), branch, {}, sites)
    decreases |steps|
  {
    hide SymStep;
    if steps != [] {
      var (front, last) := (steps[..|steps| - 1], steps[|steps| - 1]);
      PiecesRun(s, front, branch, sites);
      RunAppend(s, Code(front), last.block, branch, {}, sites);
    }
  }

  /**
   Cutting a block does not change what composition computes, as long as every piece joins: the pieces'
   summaries applied in turn give the stack, the memory and the active words that the summary of the
   whole block gives at once.
   */
  lemma {:induction false} CuttingKeepsResult(parts: seq<seq<Instruction>>, state: RDState, branch: Branch,
          sites: Sites)
    requires StepsOk(StepsOf(parts, branch)) && CountersVisible(StepsOf(parts, branch)) && parts != []
    requires StepOk(Step(Flatten(parts), branch)) && RequiredDepth(Flatten(parts)) <= |state.stack|
    requires AllJoin(StepsOf(parts, branch), sites)
    ensures Summary(Flatten(parts), branch, sites).Some?
    ensures ApplyAll(state, StepsOf(parts, branch), sites)
            == ApplySummary(state, RequiredDepth(Flatten(parts)), Summary(Flatten(parts), branch, sites).value)
    ensures ApplyAll(state, StepsOf(parts, branch), sites).Some?
  {
    hide SymRun, Summary, ApplySummary, RequiredDepth, IsTerminator, BranchGiven, Flatten, ApplyAll, RunAll, Continues,
         AllJoin, CountersVisible, Code, SummaryReads, Right;
    var block := Flatten(parts);
    var steps := StepsOf(parts, branch);
    ContinuesSupported(block);
    SummaryExists(block, branch, sites);
    var f := Summary(block, branch, sites).value;
    ApplyIsRun(block, branch, sites, f, Start(state), state, {});
    NothingChanged(f);
    StepsCode(parts, branch);
    PiecesRun(Start(state), steps, branch, sites);
    PathIsRight(state, steps, sites);
    RightSplit(state, steps, sites);
    RightMeans(state, steps, sites);
  }

  lemma {:induction false} RightMeans(state: RDState, steps: seq<Step>, sites: Sites)
    requires StepsOk(steps) && Right(state, steps, sites)
    ensures RunAll(Start(state), steps, sites).Some? && ApplyAll(state, steps, sites).Some?
    ensures Carries(RunAll(Start(state), steps, sites).value, ApplyAll(state, steps, sites).value)
  {
    hide RunAll, ApplyAll, Carries;
  }

  /** Asked for neither, a summary reads nothing. */
  lemma {:induction false} NothingChanged(f: Sym)
    ensures !SummaryReads(f, false, false)
  {
    hide Reads, ReadsInMem, ReadsInAw;
    var base := Base([], EntryMem, EntryAw, EntryWorld, []);
    assert Composed(base) == base;
    forall i | 0 <= i < |f.stack| ensures !Reads(f.stack[i], false, false) {
      SameExactly(f.stack[i], base);
    }
    SameMemExactly(f.mem, base);
    SameAwExactly(f.aw, base);
  }

  // ----- a load after a store -----

  lemma {:induction false} LoadSummary(ins: Instruction, branch: Branch, sites: Sites)
    requires ins.opcode == 0x54
    ensures AllSupported([ins]) && RequiredDepth([ins]) == 1
    ensures Summary([ins], branch, sites).Some?
    ensures Summary([ins], branch, sites).value.stack == [Stored(EntryWorld, Input(0))]
  {
    hide CostTerms, AddHyps, NewHyps, MemTermAfter, AwTermAfter, PcTermAfter;
    assert [ins][..0] == [];
    NoDelta();
    LoadIs(ins.opcode);
    var s := InitialSym(1, ins.pc);
    LastStep(s, ins, branch, CopyPcs([ins]), sites);
    assert SymStep(s, ins, branch, CopyPcs([ins]), sites).value.stack == [Stored(EntryWorld,
            s.stack[0])] + s.stack[1..];
  }

  lemma {:induction false} LoadIs(op: Byte)
    ensures op == 0x54 ==> Classify(op) == Some(SLoadOp) && StackShape(op) == Some(Shape(1, 1, 1))
  {
  }

  /** A load executed in a state, and its summary applied to the state. */
  lemma {:induction false} LoadTerms(ins: Instruction, s: Sym, branch: Branch, pcs: set<nat>, sites: Sites)
    requires ins.opcode == 0x54 && s.terminal.None? && s.stack != []
    ensures AllSupported([ins]) && RequiredDepth([ins]) == 1 && Summary([ins], branch, sites).Some?
    ensures SymRun(s, [ins], branch, pcs, sites).Some?
    ensures SymRun(s, [ins], branch, pcs, sites).value.stack == [Stored(s.world, s.stack[0])] + s.stack[1..]
    ensures ApplySummary(RDState(s.stack, s.mem, s.aw), 1, Summary([ins], branch, sites).value).Some?
    ensures ApplySummary(RDState(s.stack, s.mem, s.aw), 1, Summary([ins], branch, sites).value).value.stack
            == [Stored(EntryWorld, s.stack[0])] + s.stack[1..]
  {
    hide Summary, CostTerms, AddHyps, NewHyps, MemTermAfter, AwTermAfter, PcTermAfter, Classify, StackShape, SubstMem,
         SubstAw, RequiredDepth, Subst;
    LoadSummary(ins, branch, sites);
    LoadIs(ins.opcode);
    LastStep(s, ins, branch, pcs, sites);
    LoadSubst(BaseOf(RDState(s.stack, s.mem, s.aw), 1));
  }

  lemma {:induction false} LoadSubst(base: Base)
    requires |base.xs| == 1 && base.world == EntryWorld
    ensures Subst(Stored(EntryWorld, Input(0)), base) == Stored(EntryWorld, base.xs[0])
  {
  }

  /**
   Composition does not see a store made by an earlier piece: a later load gives the entry word.  At an
   entry state this is the word execution loads if and only if the slots are different there, or the
   stored word was in the slot before.
   */
  lemma {:induction false} LoadAfterStore(ins: Instruction, s: Sym, slot: Term, value: Term, branch: Branch,
          pcs: set<nat>, sites: Sites, env: Env, e: Entry)
    requires ins.opcode == 0x54 && s.terminal.None? && s.stack != [] && s.world == SStored(EntryWorld, slot, value)
    ensures AllSupported([ins]) && RequiredDepth([ins]) == 1 && Summary([ins], branch, sites).Some?
    ensures SymRun(s, [ins], branch, pcs, sites).Some?
    ensures var run := SymRun(s, [ins], branch, pcs, sites).value;
            var composed := ApplySummary(RDState(s.stack, s.mem, s.aw), 1, Summary([ins], branch, sites).value).value;
            var at := Eval(s.stack[0], env, e);
            && |run.stack| == |composed.stack| == |s.stack|
            && Eval(composed.stack[0], env, e) == Lookup(e.world.storage, at)
            && (Eval(composed.stack[0], env, e) == Eval(run.stack[0], env, e)
                <==> at != Eval(slot, env, e) || Lookup(e.world.storage, at) == Eval(value, env, e))
  {
    hide Summary, Subst, SymRun, RequiredDepth, Eval, ApplySummary, Lookup;
    LoadTerms(ins, s, branch, pcs, sites);
    LoadMeans(EntryWorld, s.stack[0], env, e);
    LoadMeans(s.world, s.stack[0], env, e);
    StoreMeans(slot, value, env, e);
    UpdatedAt(e.world.storage, Eval(slot, env, e), Eval(value, env, e), Eval(s.stack[0], env, e));
  }

  lemma {:induction false} LoadMeans(world: WorldTerm, slot: Term, env: Env, e: Entry)
    ensures Eval(Stored(world, slot), env, e) == Lookup(EvalWorld(world, env, e).storage, Eval(slot, env, e))
    ensures EvalWorld(EntryWorld, env, e) == e.world
  {
    hide Lookup;
  }

  lemma {:induction false} StoreMeans(slot: Term, value: Term, env: Env, e: Entry)
    ensures EvalWorld(SStored(EntryWorld, slot, value), env, e).storage
            == e.world.storage[Eval(slot, env, e) := Eval(value, env, e)]
  {
    hide Eval;
    assert EvalWorld(EntryWorld, env, e) == e.world;
  }

  lemma {:induction false} UpdatedAt(m: map<Word, Word>, k: Word, v: Word, x: Word)
    ensures Lookup(m[k := v], x) == if x == k then v else Lookup(m, x)
  {
  }
}
