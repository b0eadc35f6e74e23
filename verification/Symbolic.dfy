/**
 The symbolic executor: blocks are summarised by terms over an arbitrary entry state.  A summary holds
 the final stack, memory, active words, account map and program counter, the accumulated cost, and the
 side conditions under which all of this is what the machine does.
 */
module Symbolic {
  import opened Options
  import opened Words
  import opened WordArith
  import opened Bytecode
  import opened StackShapes
  import opened Machine

  datatype Term =
    | Lit(w: Word)
    | Input(i: nat)
    | SiteWord(key: string, width: nat)
    | Alu1(op: Byte, a: Term)
    | Alu2(f: WordFn, a: Term, b: Term)
    | Alu3(op: Byte, a: Term, b: Term, c: Term)
    | EnvTerm(op: Byte)
    | CallDataAt(a: Term)
    | Load(a: Term, mem: MemTerm)
    | Hash(a: Term, b: Term, mem: MemTerm)
    | Stored(world: WorldTerm, slot: Term)
    | TransientStored(world: WorldTerm, slot: Term)
    | AccountTerm(op: Byte, world: WorldTerm, a: Term)
    | BlockHashAt(a: Term)
    | GasLeft(costs: seq<CostTerm>)
    | GasWord(i: nat)

  datatype Source = CallDataSource | CodeSource | ReturnDataSource

  datatype MemTerm =
    | EntryMem
    | WordWritten(value: Term, mem: MemTerm, at: Term)
    | ByteWritten(value: Term, mem: MemTerm, at: Term)
    | Copied(source: Source, from: Term, mem: MemTerm, at: Term, len: Term)
    | Moved(from: Term, mem: MemTerm, at: Term, len: Term)

  datatype AwTerm =
    | EntryAw
    | Grown(aw: AwTerm, at: Term, len: Term)
    | GrownForMove(aw: AwTerm, at: Term, from: Term, len: Term)

  datatype WorldTerm =
    | EntryWorld
    | SStored(world: WorldTerm, slot: Term, value: Term)
    | TStored(world: WorldTerm, slot: Term, value: Term)

  datatype CostTerm =
    | Gas(n: nat)
    | Growth(aw: AwTerm, at: Term, len: Term)
    | MoveGrowth(aw: AwTerm, at: Term, from: Term, len: Term)
    | PerWord(base: nat, rate: nat, len: Term)
    | LogData(len: Term, topics: nat)
    | ExpGas(exponent: Term)

  /** The side conditions a summary collects. */
  datatype Hyp =
    | ValidJump(dest: Term)
    | IsTrue(cond: Term)
    | IsFalse(cond: Term)
    | Writable
    | CopyInBounds(from: Term, len: Term)

  datatype Terminal = StopsWith(world: WorldTerm) | ReturnsWith(world: WorldTerm, mem: MemTerm, off: Term, len: Term)
                    | RevertsWith | InvalidWith

  datatype Branch = Taken | FallThrough | NoBranch

  datatype Sym = Sym(stack: seq<Term>, mem: MemTerm, aw: AwTerm, world: WorldTerm, pc: Term, costs: seq<CostTerm>,
                     existential: bool, gasWords: nat, hyps: seq<Hyp>, terminal: Option<Terminal>, maxPrefix: nat)

  /** The immutable sites of the code: first payload byte, payload width and key. */
  type Sites = map<int, (int, string)>

  // ----- terms denote words -----

  /** The entry state a summary is instantiated with, and the words hidden gas counters produced. */
  datatype Entry = Entry(xs: seq<Word>, mem: seq<Byte>, aw: Word, world: World, spent: nat, gasWords: seq<Word>,
                         words: string -> Word)

  function Eval(t: Term, env: Env, e: Entry): Word
    decreases t
  {
    match t
    case Lit(w) => w
    case Input(i) => if i < |e.xs| then e.xs[i] else 0
    case SiteWord(key, width) => Wrap(e.words(key) % Pow256(width))
    case Alu1(op, a) => if op == 0x15 then IsZero(Eval(a, env, e)) else Not(Eval(a, env, e))
    case Alu2(f, a, b) => Apply(f, Eval(a, env, e), Eval(b, env, e))
    case Alu3(op, a, b, c) =>
      if op == 0x08 then AddMod(Eval(a, env, e), Eval(b, env, e), Eval(c, env, e))
      else MulMod(Eval(a, env, e), Eval(b, env, e), Eval(c, env, e))
    case EnvTerm(op) => EnvironmentWord(op, env)
    case CallDataAt(a) => CallDataWord(env.calldata, Eval(a, env, e))
    case Load(a, mem) => LoadWord(EvalMem(mem, env, e), Eval(a, env, e))
    case Hash(a, b, mem) => env.keccak(ReadPadded(EvalMem(mem, env, e), Eval(a, env, e), Eval(b, env, e)))
    case Stored(world, slot) => Lookup(EvalWorld(world, env, e).storage, Eval(slot, env, e))
    case TransientStored(world, slot) => Lookup(EvalWorld(world, env, e).transient, Eval(slot, env, e))
    case AccountTerm(op, world, a) => env.account(op, EvalWorld(world, env, e), Eval(a, env, e))
    case BlockHashAt(a) => env.blockHash(Eval(a, env, e))
    case GasLeft(costs) => Wrap(Saturating(env.gas, e.spent + EvalCosts(costs, env, e) + 2))
    case GasWord(i) => if i < |e.gasWords| then e.gasWords[i] else 0
  }

  function SourceBytes(s: Source, env: Env): seq<Byte> {
    match s
    case CallDataSource => env.calldata
    case CodeSource => env.code
    case ReturnDataSource => env.returndata
  }

  function EvalMem(m: MemTerm, env: Env, e: Entry): seq<Byte>
    decreases m
  {
    match m
    case EntryMem => e.mem
    case WordWritten(value, mem, at) =>
      WriteBytes(WordBytes(Eval(value, env, e)), 0, EvalMem(mem, env, e), Eval(at, env, e), 32)
    case ByteWritten(value, mem, at) =>
      WriteBytes([Eval(value, env, e) % 256], 0, EvalMem(mem, env, e), Eval(at, env, e), 1)
    case Copied(source, from, mem, at, len) =>
      WriteBytes(SourceBytes(source, env), Eval(from, env, e), EvalMem(mem, env, e), Eval(at, env, e), Eval(len, env,
              e))
    case Moved(from, mem, at, len) =>
      WriteBytes(EvalMem(mem, env, e), Eval(from, env, e), EvalMem(mem, env, e), Eval(at, env, e), Eval(len, env, e))
  }

  function EvalAw(a: AwTerm, env: Env, e: Entry): Word
    decreases a
  {
    match a
    case EntryAw => e.aw
    case Grown(aw, at, len) => Touch(EvalAw(aw, env, e), Eval(at, env, e), Eval(len, env, e))
    case GrownForMove(aw, at, from, len) =>
      Touch(EvalAw(aw, env, e), Machine.Max(Eval(at, env, e), Eval(from, env, e)), Eval(len, env, e))
  }

  function EvalWorld(w: WorldTerm, env: Env, e: Entry): World
    decreases w
  {
    match w
    case EntryWorld => e.world
    case SStored(world, slot, value) =>
      var before := EvalWorld(world, env, e);
      before.(storage := before.storage[Eval(slot, env, e) := Eval(value, env, e)])
    case TStored(world, slot, value) =>
      var before := EvalWorld(world, env, e);
      before.(transient := before.transient[Eval(slot, env, e) := Eval(value, env, e)])
  }

  function EvalCost(c: CostTerm, env: Env, e: Entry): nat
    decreases c
  {
    match c
    case Gas(n) => n
    case Growth(aw, at, len) =>
      var before := EvalAw(aw, env, e);
      ExpansionCost(before, Touch(before, Eval(at, env, e), Eval(len, env, e)))
    case MoveGrowth(aw, at, from, len) =>
      var before := EvalAw(aw, env, e);
      ExpansionCost(before, Touch(before, Machine.Max(Eval(at, env, e), Eval(from, env, e)), Eval(len, env, e)))
    case PerWord(base, rate, len) => base + rate * WordCount(Eval(len, env, e))
    case LogData(len, topics) => 375 + 8 * Eval(len, env, e) + topics * 375
    case ExpGas(exponent) => ExpCost(Eval(exponent, env, e))
  }

  function EvalCosts(costs: seq<CostTerm>, env: Env, e: Entry): nat
    decreases costs
  {
    if costs == [] then 0
    else EvalCosts(costs[..|costs| - 1], env, e) + EvalCost(costs[|costs| - 1], env, e)
  }

  function EvalStack(ts: seq<Term>, env: Env, e: Entry): (r: seq<Word>)
    ensures |r| == |ts|
    ensures forall i :: 0 <= i < |ts| ==> r[i] == Eval(ts[i], env, e)
  {
    seq(|ts|, i requires 0 <= i < |ts| => Eval(ts[i], env, e))
  }

  predicate Holds(h: Hyp, env: Env, e: Entry) {
    match h
    case ValidJump(dest) => Eval(dest, env, e) in JumpDests(env.code)
    case IsTrue(cond) => Eval(cond, env, e) != 0
    case IsFalse(cond) => Eval(cond, env, e) == 0
    case Writable => env.writable
    case CopyInBounds(from, len) => Eval(from, env, e) + Eval(len, env, e) <= |env.returndata|
  }

  predicate AllHold(hyps: seq<Hyp>, env: Env, e: Entry) {
    forall h :: h in hyps ==> Holds(h, env, e)
  }

  // ----- one symbolic step -----

  function LibraryFn(op: Byte): WordFn {
    if op == 0x01 then AddFn
    else if op == 0x02 then MulFn
    else if op == 0x03 then SubFn
    else if op == 0x04 then DivFn
    else if op == 0x05 then SDivFn
    else if op == 0x06 then ModFn
    else if op == 0x0A then ExpFn
    else if op == 0x0B then SignExtendFn
    else if op == 0x10 then LtFn
    else if op == 0x11 then GtFn
    else if op == 0x12 then SltFn
    else if op == 0x13 then SgtFn
    else if op == 0x14 then EqFn
    else if op == 0x16 then AndFn
    else if op == 0x17 then OrFn
    else if op == 0x18 then XorFn
    else if op == 0x1A then ByteFn
    else if op == 0x1B then ShiftLeftFn
    else if op == 0x1C then ShiftRightFn
    else SarFn
  }

  /** The library's shifts take the value before the distance. */
  function BinaryTerm(op: Byte, a: Term, b: Term): Term {
    if op == 0x1B || op == 0x1C then Alu2(LibraryFn(op), b, a) else Alu2(LibraryFn(op), a, b)
  }

  function PushTerm(ins: Instruction, sites: Sites): Term {
    if 0x60 <= ins.opcode && ins.pc + 1 in sites
    then SiteWord(sites[ins.pc + 1].1, ins.width)
    else Lit(Wrap(ins.argument.GetOr(0)))
  }

  function ResultTerm(o: Op, ins: Instruction, args: seq<Term>, s: Sym, sites: Sites): Term
    requires |args| == Need(o) && HasResult(o)
  {
    match o
    case PushOp => PushTerm(ins, sites)
    case Unary(op) => Alu1(op, args[0])
    case Binary(op) => BinaryTerm(op, args[0], args[1])
    case Ternary(op) => Alu3(op, args[0], args[1], args[2])
    case EnvOp(op) => EnvTerm(op)
    case CallDataLoadOp => CallDataAt(args[0])
    case MLoadOp => Load(args[0], s.mem)
    case KeccakOp => Hash(args[0], args[1], s.mem)
    case SLoadOp => Stored(s.world, args[0])
    case TLoadOp => TransientStored(s.world, args[0])
    case AccountOp(op) => AccountTerm(op, s.world, args[0])
    case BlockHashOp => BlockHashAt(args[0])
    case GasOp => if s.existential then GasWord(s.gasWords) else GasLeft(s.costs)
  }

  function OutTerms(o: Op, ins: Instruction, args: seq<Term>, s: Sym, sites: Sites): (r: seq<Term>)
    requires |args| == Need(o)
    ensures |r| == Pushes(o)
  {
    if o.DupOp? then [if o.n > 0 then args[o.n - 1] else Lit(0)] + args
    else if o.SwapOp? then Swapped(args)
    else if HasResult(o) then [ResultTerm(o, ins, args, s, sites)]
    else []
  }

  function MemTermAfter(o: Op, args: seq<Term>, mem: MemTerm): MemTerm
    requires |args| == Need(o)
  {
    match o
    case MStoreOp => WordWritten(args[1], mem, args[0])
    case MStore8Op => ByteWritten(args[1], mem, args[0])
    case CallDataCopyOp => Copied(CallDataSource, args[1], mem, args[0], args[2])
    case CodeCopyOp => Copied(CodeSource, args[1], mem, args[0], args[2])
    case ReturnDataCopyOp => Copied(ReturnDataSource, args[1], mem, args[0], args[2])
    case MCopyOp => Moved(args[1], mem, args[0], args[2])
    case _ => mem
  }

  function AwTermAfter(o: Op, args: seq<Term>, aw: AwTerm): AwTerm
    requires |args| == Need(o)
  {
    match o
    case MLoadOp => Grown(aw, args[0], Lit(32))
    case MStoreOp => Grown(aw, args[0], Lit(32))
    case MStore8Op => Grown(aw, args[0], Lit(1))
    case KeccakOp => Grown(aw, args[0], args[1])
    case CallDataCopyOp => Grown(aw, args[0], args[2])
    case CodeCopyOp => Grown(aw, args[0], args[2])
    case ReturnDataCopyOp => Grown(aw, args[0], args[2])
    case MCopyOp => GrownForMove(aw, args[0], args[1], args[2])
    case LogOp(_) => Grown(aw, args[0], args[1])
    case _ => aw
  }

  function WorldTermAfter(o: Op, args: seq<Term>, world: WorldTerm): WorldTerm
    requires |args| == Need(o)
  {
    match o
    case SStoreOp => SStored(world, args[0], args[1])
    case TStoreOp => TStored(world, args[0], args[1])
    case _ => world
  }

  /** The costs an operation appends; warm/cold operations append none. */
  function CostTerms(o: Op, op: Byte, args: seq<Term>, aw: AwTerm): seq<CostTerm>
    requires |args| == Need(o)
  {
    match o
    case MLoadOp => [Growth(aw, args[0], Lit(32)), Gas(3)]
    case MStoreOp => [Growth(aw, args[0], Lit(32)), Gas(3)]
    case MStore8Op => [Growth(aw, args[0], Lit(1)), Gas(3)]
    case KeccakOp => [Growth(aw, args[0], args[1]), PerWord(30, 6, args[1])]
    case CallDataCopyOp => [Growth(aw, args[0], args[2]), PerWord(3, 3, args[2])]
    case CodeCopyOp => [Growth(aw, args[0], args[2]), PerWord(3, 3, args[2])]
    case ReturnDataCopyOp => [Growth(aw, args[0], args[2]), PerWord(3, 3, args[2])]
    case MCopyOp => [MoveGrowth(aw, args[0], args[1], args[2]), PerWord(3, 3, args[2])]
    case LogOp(topics) => [Growth(aw, args[0], args[1]), LogData(args[1], topics)]
    case SLoadOp => []
    case SStoreOp => []
    case AccountOp(_) => []
    case TLoadOp => [Gas(TRANSIENT_COST)]
    case TStoreOp => [Gas(TRANSIENT_COST)]
    case Binary(b) => if b == 0x0A then [ExpGas(args[1])] else [Gas(StaticCost(op))]
    case _ => [Gas(StaticCost(op))]
  }

  /** Conditions an operation adds; a recognised full copy needs none. */
  function NewHyps(o: Op, args: seq<Term>, branch: Branch, fullCopy: bool): seq<Hyp>
    requires |args| == Need(o)
  {
    match o
    case ReturnDataCopyOp => if fullCopy then [] else [CopyInBounds(args[1], args[2])]
    case SStoreOp => [Writable]
    case TStoreOp => [Writable]
    case LogOp(_) => [Writable]
    case JumpOp => [ValidJump(args[0])]
    case JumpIOp => if branch.Taken? then [IsTrue(args[1]), ValidJump(args[0])] else [IsFalse(args[1])]
    case _ => []
  }

  /** Conditions are named by their kind, and the guards of copies are numbered. */
  function AddHyps(hyps: seq<Hyp>, added: seq<Hyp>): seq<Hyp>
    decreases |added|
  {
    if added == [] then hyps
    else AddHyps(if added[0] in hyps && !added[0].CopyInBounds? then hyps else hyps + [added[0]], added[1..])
  }

  function PcTermAfter(o: Op, args: seq<Term>, ins: Instruction, branch: Branch): Term
    requires |args| == Need(o)
  {
    if o.JumpOp? || (o.JumpIOp? && branch.Taken?) then args[0] else Lit(Wrap(ins.pc + ins.Size()))
  }

  function TerminalOf(o: Op, args: seq<Term>, s: Sym): Terminal
    requires |args| == Need(o)
  {
    match o
    case StopOp => StopsWith(s.world)
    case ReturnOp => ReturnsWith(s.world, s.mem, args[0], args[1])
    case RevertOp => RevertsWith
    case _ => InvalidWith
  }

  /** One iteration of the executor; None where it raises an error. */
  function SymStep(s: Sym, ins: Instruction, branch: Branch, copyPcs: set<nat>, sites: Sites): Option<Sym> {
    if s.terminal.Some? then Some(s)
    else
      var o := Classify(ins.opcode);
      if o.None? || |s.stack| < Need(o.value) || (o.value.JumpIOp? && branch.NoBranch?) then None
      else Some(SymExecute(o.value, s, ins, branch, ins.pc in copyPcs, sites))
  }

  function SymExecute(o: Op, s: Sym, ins: Instruction, branch: Branch, fullCopy: bool, sites: Sites): Sym
    requires Need(o) <= |s.stack|
  {
    var args := s.stack[..Need(o)];
    var rest := s.stack[Need(o)..];
    if Halting(o) then s.(stack := rest, terminal := Some(TerminalOf(o, args, s)))
    else
      var stack := OutTerms(o, ins, args, s, sites) + rest;
      Sym(stack, MemTermAfter(o, args, s.mem), AwTermAfter(o, args, s.aw), WorldTermAfter(o, args, s.world),
          PcTermAfter(o, args, ins, branch), s.costs + CostTerms(o, ins.opcode, args, s.aw),
          s.existential || WarmCold(o), if o.GasOp? && s.existential then s.gasWords + 1 else s.gasWords,
          AddHyps(s.hyps, NewHyps(o, args, branch, fullCopy)), None, Machine.Max(s.maxPrefix, |stack|))
  }

  /** Execution of the rest of a block. */
  function SymRun(s: Sym, block: seq<Instruction>, branch: Branch, copyPcs: set<nat>, sites: Sites): Option<Sym>
    decreases |block|
  {
    if block == [] then Some(s)
    else
      var next :- SymStep(s, block[0], branch, copyPcs, sites);
      SymRun(next, block[1..], branch, copyPcs, sites)
  }

  /** The pcs of the copies whose bounds check needs no condition. */
  function CopyPcs(block: seq<Instruction>): set<nat> {
    set i | 0 <= i < |block| && MatchFullCopy(block, i) :: block[i + 3].pc
  }

  method FullCopyPcs(block: seq<Instruction>) returns (pcs: set<nat>)
    ensures pcs == CopyPcs(block)
  {
    hide ZeroPush;
    pcs := {};
    var i := 0;
    while i + 3 < |block|
      invariant 0 <= i
      invariant pcs == set j | 0 <= j < i && j < |block| && MatchFullCopy(block, j) :: block[j + 3].pc
    {
      if MatchFullCopy(block, i) {
        pcs := pcs + {block[i + 3].pc};
      }
      i := i + 1;
    }
  }

  function Inputs(from: nat, n: nat): (r: seq<Term>)
    ensures |r| == n
  {
    seq(n, i requires 0 <= i < n => Input(from + i))
  }

  function InitialSym(depth: nat, pc: nat): Sym {
    Sym(Inputs(0, depth), EntryMem, EntryAw, EntryWorld, Lit(Wrap(pc)), [], false, 0, [], None, depth)
  }

  /** The summary of a block: symbolic execution from a fresh entry state of the required depth. */
  function Summary(block: seq<Instruction>, branch: Branch, sites: Sites): Option<Sym>
    requires AllSupported(block) && block != []
  {
    SymRun(InitialSym(RequiredDepth(block), block[0].pc), block, branch, CopyPcs(block), sites)
  }

  method Simulate(block: seq<Instruction>, branch: Branch, sites: Sites) returns (r: Option<Sym>)
    requires AllSupported(block) && block != []
    ensures r == Summary(block, branch, sites)
  {
    var depth := RequiredInputDepth(block);
    var pcs := FullCopyPcs(block);
    var s := InitialSym(depth, block[0].pc);
    ghost var start := s;
    var index := 0;
    while index < |block|
      invariant 0 <= index <= |block|
      invariant SymRun(start, block, branch, pcs, sites) == SymRun(s, block[index..], branch, pcs, sites)
    {
      hide SymStep;
      var next := SymStep(s, block[index], branch, pcs, sites);
      assert block[index..][1..] == block[index + 1..];
      if next.None? {
        return None;
      }
      s := next.value;
      index := index + 1;
    }
    return Some(s);
  }
}
