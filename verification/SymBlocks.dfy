/**
 Where summaries come from and apply: every supported block has one, its stack bound is the block's
 exact bound, and blocks of a template are placed in the patched code that runs.
 */
module SymBlocks {
  import opened Options
  import opened Words
  import opened Bytecode
  import opened StackShapes
  import opened Machine
  import opened Symbolic
  import opened SymSound
  import Stability

  // ----- every supported block has a summary, with the exact stack bound -----

  predicate BranchGiven(block: seq<Instruction>, branch: Branch) {
    forall i :: 0 <= i < |block| && block[i].opcode == 0x57 ==> branch != NoBranch
  }

  /** Height and greatest height before instruction i. */
  predicate HeightsAt(block: seq<Instruction>, i: nat, depth: nat, s: Sym)
    requires i <= |block| && AllSupported(block)
  {
    s.terminal.None? && |s.stack| == depth + Delta(block[..i]) && s.maxPrefix == MaxPrefix(block[..i], depth)
  }

  lemma {:induction false} RunExists(block: seq<Instruction>, i: nat, depth: nat, s: Sym, branch: Branch, pcs: set<nat>,
                                     sites: Sites)
    requires i <= |block| && AllSupported(block) && NoUnderflow(block, depth) && BranchGiven(block, branch)
    requires forall k :: 0 <= k < |block| - 1 ==> !IsTerminator(block[k].opcode)
    requires HeightsAt(block, i, depth, s)
    ensures SymRun(s, block[i..], branch, pcs, sites).Some?
    ensures SymRun(s, block[i..], branch, pcs, sites).value.maxPrefix == MaxPrefix(block, depth)
    decreases |block| - i
  {
    hide StackShape, Classify, Need, Pushes, SymExecute, IsTerminator, Halting, Delta, MaxPrefix;
    if i == |block| {
      assert block[..i] == block;
    } else {
      var ins := block[i];
      var shape := StackShape(ins.opcode).value;
      ClassifyMatchesShapes(ins.opcode);
      HaltTerminates(ins.opcode);
      JumpIOpcode(ins.opcode);
      var o := Classify(ins.opcode).value;
      assert Need(o) <= |s.stack|;
      var s' := SymExecute(o, s, ins, branch, ins.pc in pcs, sites);
      assert block[i..][0] == ins && block[i..][1..] == block[i + 1..];
      assert SymStep(s, ins, branch, pcs, sites) == Some(s');
      HeightsStep(block, i, depth);
      ExecuteHeights(o, s, ins, branch, ins.pc in pcs, sites);
      if Halting(o) {
        assert block[..i + 1] == block;
        assert block[i + 1..] == [];
      } else {
        RunExists(block, i + 1, depth, s', branch, pcs, sites);
      }
    }
  }

  lemma {:induction false} JumpIOpcode(op: Byte)
    ensures Classify(op) == Some(JumpIOp) ==> op == 0x57
  {
  }

  lemma {:induction false} HeightsStep(block: seq<Instruction>, i: nat, depth: nat)
    requires i < |block| && AllSupported(block)
    ensures var shape := StackShape(block[i].opcode).value;
            && Delta(block[..i + 1]) == Delta(block[..i]) + shape.pushes - shape.pops
            && MaxPrefix(block[..i + 1], depth) ==
               (if depth + Delta(block[..i + 1]) > MaxPrefix(block[..i], depth) then depth + Delta(block[..i + 1])
                else MaxPrefix(block[..i], depth))
            && depth + Delta(block[..i]) <= MaxPrefix(block[..i], depth)
  {
    hide StackShape;
    assert block[..i + 1][..i] == block[..i];
  }

  lemma {:induction false} ExecuteHeights(o: Op, s: Sym, ins: Instruction, branch: Branch, fullCopy: bool, sites: Sites)
    requires Need(o) <= |s.stack| && s.terminal.None?
    ensures var s' := SymExecute(o, s, ins, branch, fullCopy, sites);
            && (Halting(o) ==> s'.maxPrefix == s.maxPrefix && Pushes(o) == 0)
            && (!Halting(o) ==>
                  && s'.terminal.None? && |s'.stack| == |s.stack| - Need(o) + Pushes(o)
                  && s'.maxPrefix == Machine.Max(s.maxPrefix, |s'.stack|))
  {
    hide MemTermAfter, AwTermAfter, WorldTermAfter, CostTerms, AddHyps, NewHyps, PcTermAfter, TerminalOf, OutTerms,
         Need;
  }

  /** The executor never fails on a supported block, and its stack bound is the block's exact one. */
  lemma {:induction false} SummaryExists(block: seq<Instruction>, branch: Branch, sites: Sites)
    requires block != [] && AllSupported(block) && BranchGiven(block, branch)
    requires forall k :: 0 <= k < |block| - 1 ==> !IsTerminator(block[k].opcode)
    ensures Summary(block, branch, sites).Some?
    ensures Summary(block, branch, sites).value.maxPrefix == MaxPrefix(block, RequiredDepth(block))
  {
    hide CopyPcs, IsTerminator, NoUnderflow, SymRun;
    var depth := RequiredDepth(block);
    var pcs := CopyPcs(block);
    RequiredDepthIsLeast(block, depth);
    assert block[..0] == [] && block[0..] == block;
    assert HeightsAt(block, 0, depth, InitialSym(depth, block[0].pc));
    RunExists(block, 0, depth, InitialSym(depth, block[0].pc), branch, pcs, sites);
  }

  predicate HasWarmCold(block: seq<Instruction>) {
    exists i :: 0 <= i < |block| && IsWarmCold(block[i])
  }

  predicate IsWarmCold(ins: Instruction) {
    Classify(ins.opcode).Some? && WarmCold(Classify(ins.opcode).value)
  }

  lemma {:induction false} WarmColdNeverHalts(o: Op)
    ensures WarmCold(o) ==> !Halting(o)
  {
  }

  lemma {:induction false} ExecuteExistential(o: Op, s: Sym, ins: Instruction, branch: Branch, fullCopy: bool, sites: Sites)
    requires Need(o) <= |s.stack|
    ensures SymExecute(o, s, ins, branch, fullCopy, sites).existential == (s.existential || WarmCold(o))
  {
    hide MemTermAfter, AwTermAfter, WorldTermAfter, CostTerms, AddHyps, NewHyps, PcTermAfter, TerminalOf, OutTerms, Need;
    WarmColdNeverHalts(o);
  }

  lemma {:induction false} RunExistential(s: Sym, block: seq<Instruction>, branch: Branch, pcs: set<nat>, sites: Sites, f: Sym)
    requires SymRun(s, block, branch, pcs, sites) == Some(f) && s.terminal.None?
    requires forall k :: 0 <= k < |block| - 1 ==> !IsTerminator(block[k].opcode)
    ensures f.existential == (s.existential || HasWarmCold(block))
    decreases |block|
  {
    hide Classify, Need, SymExecute, IsTerminator, Halting, WarmCold;
    if block != [] {
      assert block[0..] == block;
      SymRunUnfolds(s, block, 0, branch, pcs, sites);
      var o := Classify(block[0].opcode).value;
      var next := SymExecute(o, s, block[0], branch, block[0].pc in pcs, sites);
      ExecuteExistential(o, s, block[0], branch, block[0].pc in pcs, sites);
      HaltTerminates(block[0].opcode);
      HasWarmColdCons(block);
      if |block| == 1 {
        assert block[1..] == [];
      } else {
        ExecuteHeights(o, s, block[0], branch, block[0].pc in pcs, sites);
        RunExistential(next, block[1..], branch, pcs, sites, f);
      }
    }
  }

  lemma {:induction false} HasWarmColdCons(block: seq<Instruction>)
    requires block != []
    ensures HasWarmCold(block) <==> IsWarmCold(block[0]) || HasWarmCold(block[1..])
  {
    hide IsWarmCold;
    if HasWarmCold(block[1..]) {
      var i :| 0 <= i < |block[1..]| && IsWarmCold(block[1..][i]);
      assert IsWarmCold(block[i + 1]);
    }
    if HasWarmCold(block) && !IsWarmCold(block[0]) {
      var i :| 0 <= i < |block| && IsWarmCold(block[i]);
      assert block[1..][i - 1] == block[i];
    }
  }

  /** A summary hides its gas exactly if the block has a warm or cold operation. */
  lemma {:induction false} ExistentialExactly(block: seq<Instruction>, branch: Branch, sites: Sites, f: Sym)
    requires block != [] && AllSupported(block) && Summary(block, branch, sites) == Some(f)
    requires forall k :: 0 <= k < |block| - 1 ==> !IsTerminator(block[k].opcode)
    ensures f.existential <==> HasWarmCold(block)
  {
    hide SymRun, RequiredDepth, CopyPcs, IsTerminator, HasWarmCold;
    InitialClean(RequiredDepth(block), block[0].pc);
    RunExistential(InitialSym(RequiredDepth(block), block[0].pc), block, branch, CopyPcs(block), sites, f);
  }

  // ----- blocks of a template in the code that runs -----

  ghost predicate SitesOf(raw: seq<Stability.Site>, sites: Sites) {
    forall off, length, key ::
      off in sites && sites[off] == (length, key) <==> Stability.Site(off, length, key) in raw
  }

  /** Complete instructions of a template, at consecutive positions of its stream. */
  ghost predicate InStream(template: seq<Byte>, at: nat, block: seq<Instruction>) {
    && at + |block| <= |Stream(template, 0)| && block == Stream(template, 0)[at..at + |block|]
    && forall i :: 0 <= i < |block| ==> block[i].complete
  }

  /**
   A template's instruction is placed in the code that runs: the template with any words patched into
   an accepted layout, followed by any suffix.
   */
  lemma {:induction false} PatchedPlaced(template: seq<Byte>, raw: seq<Stability.Site>, sites: Sites,
          words: string -> Word,
                      suffix: seq<Byte>, env: Env, i: nat)
    requires Stability.GoodLayout(template, raw) && SitesOf(raw, sites)
    requires env.code == Stability.Patch(template, raw, words) + suffix && |env.code| < WORD_MODULUS
    requires i < |Stream(template, 0)| && Stream(template, 0)[i].complete
    ensures Placed(Stream(template, 0)[i], sites, env, words)
  {
    hide Stability.Patch, Stability.GoodLayout, Stream, Classify, BytesToNat, SitesOf;
    var ins := Stream(template, 0)[i];
    var patched := Stability.Patch(template, raw, words);
    StreamTiles(template, 0);
    StreamTiles(patched, 0);
    StreamTiles(env.code, 0);
    Stability.PatchKeepsStream(template, raw, words);
    Stability.AppendKeepsStream(patched, suffix, 0);
    var here := Stream(env.code, 0)[i];
    assert here == Stream(patched, 0)[i];
    assert here == InstructionAt(env.code, ins.pc);
    CompleteFits(template, ins);
    PatchedWord(template, raw, sites, words, i);
  }

  lemma {:induction false} CompleteFits(code: seq<Byte>, ins: Instruction)
    requires ins.pc < |code| && ins == InstructionAt(code, ins.pc) && ins.complete
    ensures ins.pc + ins.Size() <= |code|
  {
    hide BytesToNat;
  }

  lemma {:induction false} PatchedWord(template: seq<Byte>, raw: seq<Stability.Site>, sites: Sites,
          words: string -> Word, i: nat)
    requires Stability.GoodLayout(template, raw) && SitesOf(raw, sites) && i < |Stream(template, 0)|
    ensures |Stream(Stability.Patch(template, raw, words), 0)| == |Stream(template, 0)|
    ensures Immediate(Stream(Stability.Patch(template, raw, words), 0)[i])
            == SiteOrArgument(Stream(template, 0)[i], sites, words)
  {
    hide Stability.Patch, Stability.GoodLayout, Stream, Wrap, Pow256;
    var ins := Stream(template, 0)[i];
    Stability.PatchedArgument(template, raw, words, i);
    StreamTiles(template, 0);
    if ins.pc + 1 in sites {
      var (length, key) := sites[ins.pc + 1];
      assert Stability.Site(ins.pc + 1, length, key) in raw;
      SiteIsPush(template, raw, ins.pc + 1, length, key, i);
    } else {
      forall s | s in raw ensures s.offset != ins.pc + 1 {
        assert Stability.Site(s.offset, s.length, s.key) in raw;
      }
    }
  }

  lemma {:induction false} SiteIsPush(template: seq<Byte>, raw: seq<Stability.Site>, off: int, length: int,
          key: string, i: nat)
    requires Stability.GoodLayout(template, raw) && Stability.Site(off, length, key) in raw
    requires i < |Stream(template, 0)| && Stream(template, 0)[i].pc + 1 == off
    ensures Stream(template, 0)[i].width == length >= 20 && 0x60 <= Stream(template, 0)[i].opcode
  {
    hide Stream;
    StreamTiles(template, 0);
    var j :| 0 <= j < |raw| && raw[j] == Stability.Site(off, length, key);
    assert Stability.GoodSite(template, raw[j]);
    Stability.SitePayload(template, raw[j], i);
  }

  /** A basic block of the template is a placed block of the patched, extended code. */
  lemma {:induction false} BlockPlaced(template: seq<Byte>, raw: seq<Stability.Site>, sites: Sites,
          words: string -> Word,
                    suffix: seq<Byte>, env: Env, at: nat, block: seq<Instruction>)
    requires Stability.GoodLayout(template, raw) && SitesOf(raw, sites)
    requires env.code == Stability.Patch(template, raw, words) + suffix && |env.code| < WORD_MODULUS
    requires InStream(template, at, block)
    requires forall i :: 0 <= i < |block| - 1 ==> !IsTerminator(block[i].opcode)
    ensures PlacedBlock(block, sites, env, words)
  {
    hide Stability.Patch, Stability.GoodLayout, Stream, SitesOf, IsTerminator, Placed;
    StreamTiles(template, 0);
    var all := Stream(template, 0);
    forall i | 0 <= i < |block| ensures block[i] == all[at + i] {
      assert all[at..at + |block|][i] == all[at + i];
    }
    forall i | 0 <= i < |block| ensures Placed(block[i], sites, env, words) {
      PatchedPlaced(template, raw, sites, words, suffix, env, at + i);
    }
    forall i | 0 < i < |block| ensures block[i].pc == block[i - 1].pc + block[i - 1].Size() {
      assert all[at + i].pc == all[at + i - 1].pc + all[at + i - 1].Size();
    }
  }

  // ----- the omitted bounds check -----

  /** Without an immutable site in its zeros, a full copy starts at offset zero. */
  lemma {:induction false} NoSiteFromZero(block: seq<Instruction>, sites: Sites, words: string -> Word)
    requires forall j :: MatchFullCopy(block, j) ==> block[j + 1].pc + 1 !in sites
    requires forall i :: 0 <= i < |block| && block[i].opcode == 0x5F ==> block[i].argument.None?
    ensures CopiesFromZero(block, sites, words)
  {
  }

  /** What one of the three instructions before a full copy pushes. */
  predicate PushesOne(ins: Instruction, t: Term, s: Sym, s': Sym) {
    s'.stack == [t] + s.stack && s'.hyps == s.hyps && s'.terminal.None?
  }

  lemma {:induction false} LeadStep(ins: Instruction, s: Sym, pcs: set<nat>, sites: Sites)
    requires s.terminal.None? && (ins.opcode == 0x3D || ZeroPush(ins) || (ins.opcode == 0x80 && s.stack != []))
    ensures SymStep(s, ins, NoBranch, pcs, sites).Some?
    ensures PushesOne(ins, if ins.opcode == 0x3D then EnvTerm(0x3D) else if ins.opcode == 0x80 then s.stack[0]
                           else PushTerm(ins, sites),
                      s, SymStep(s, ins, NoBranch, pcs, sites).value)
  {
    hide AddHyps, MemTermAfter, AwTermAfter, WorldTermAfter, CostTerms, PcTermAfter, TerminalOf, PushTerm, Classify,
         Machine.Max;
    CopyOps(ins.opcode);
    NothingAdded(s.hyps);
  }

  lemma {:induction false} CopyStep(ins: Instruction, s: Sym, pcs: set<nat>, sites: Sites)
    requires ins.opcode == 0x3E && ins.pc in pcs && s.terminal.None? && |s.stack| >= 3
    ensures SymStep(s, ins, NoBranch, pcs, sites).Some? && SymStep(s, ins, NoBranch, pcs, sites).value.hyps == s.hyps
  {
    hide AddHyps, MemTermAfter, AwTermAfter, WorldTermAfter, CostTerms, PcTermAfter, Classify, Machine.Max, OutTerms;
    CopyOps(ins.opcode);
    NothingAdded(s.hyps);
  }

  /**
   The check a recognised copy omits, on the state its first three instructions lead to: it holds exactly
   if the word pushed as the copy's offset is zero, which a site's word need not be.
   */
  lemma {:induction false} OmittedCheckIsExact(block: seq<Instruction>, s: Sym, pcs: set<nat>, sites: Sites, env: Env,
          e: Entry)
    requires |block| == 4 && MatchFullCopy(block, 0) && |env.returndata| < WORD_MODULUS && s.terminal.None?
    ensures SymRun(s, block[..3], NoBranch, pcs, sites).Some?
    ensures var s3 := SymRun(s, block[..3], NoBranch, pcs, sites).value;
            && |s3.stack| >= 3
            && (Guard(ReturnDataCopyOp, EvalStack(s3.stack[..3], env, e), env)
                <==> SiteOrArgument(block[1], sites, e.words) == 0)
            && (block[3].pc in pcs ==>
                  SymStep(s3, block[3], NoBranch, pcs, sites).Some?
                  && SymStep(s3, block[3], NoBranch, pcs, sites).value.hyps == s.hyps)
  {
    hide SymStep, Eval, PushTerm, SiteOrArgument, Wrap;
    SizeTerm(env, e);
    PushTermDenotes(block[1], sites, env, e);
    WrapSmall(|env.returndata|);
    LeadStep(block[0], s, pcs, sites);
    var s1 := SymStep(s, block[0], NoBranch, pcs, sites).value;
    LeadStep(block[1], s1, pcs, sites);
    var s2 := SymStep(s1, block[1], NoBranch, pcs, sites).value;
    LeadStep(block[2], s2, pcs, sites);
    var s3 := SymStep(s2, block[2], NoBranch, pcs, sites).value;
    assert block[..3] == [block[0], block[1], block[2]];
    ThreeSteps(block[0], block[1], block[2], s, s1, s2, s3, pcs, sites);
    if block[3].pc in pcs {
      CopyStep(block[3], s3, pcs, sites);
    }
  }

  lemma {:induction false} WrapSmall(n: nat)
    requires n < WORD_MODULUS
    ensures Wrap(n) == n
  {
  }

  lemma {:induction false} ThreeSteps(a: Instruction, b: Instruction, c: Instruction, s: Sym, s1: Sym, s2: Sym,
          s3: Sym, pcs: set<nat>, sites: Sites)
    requires SymStep(s, a, NoBranch, pcs, sites) == Some(s1) && SymStep(s1, b, NoBranch, pcs, sites) == Some(s2)
    requires SymStep(s2, c, NoBranch, pcs, sites) == Some(s3)
    ensures SymRun(s, [a, b, c], NoBranch, pcs, sites) == Some(s3)
  {
    hide SymStep;
    assert [a, b, c][1..] == [b, c];
    assert [b, c][1..] == [c];
    LastStep(s2, c, NoBranch, pcs, sites);
    assert SymRun(s1, [b, c], NoBranch, pcs, sites) == SymRun(s2, [c], NoBranch, pcs, sites);
  }

  lemma {:induction false} LastStep(s: Sym, ins: Instruction, branch: Branch, pcs: set<nat>, sites: Sites)
    ensures SymRun(s, [ins], branch, pcs, sites) == SymStep(s, ins, branch, pcs, sites)
  {
    hide SymStep;
    assert [ins][1..] == [];
  }

  lemma {:induction false} NothingAdded(hyps: seq<Hyp>)
    ensures AddHyps(hyps, []) == hyps
  {
  }
}
