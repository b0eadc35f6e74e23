/**
 The concrete machine: one step of the supported part of the EVM on a state of stack, memory, active
 words, account map and spent gas.  Hashes, block hashes, other accounts and the warm/cold prices are
 uninterpreted functions of the environment.
 */
module Machine {
  import opened Options
  import opened Words
  import opened WordArith
  import opened Bytecode
  import opened StackShapes

  /** The executing account's storage; other accounts are seen only through the environment. */
  datatype World = World(storage: map<Word, Word>, transient: map<Word, Word>)

  datatype Env = Env(
    code: seq<Byte>, calldata: seq<Byte>, returndata: seq<Byte>, owner: Word, caller: Word, callValue: Word,
    timestamp: nat, number: nat, prevRandao: Word, gasLimit: nat, chainId: nat, baseFee: nat,
    writable: bool, gas: nat,
    keccak: seq<Byte> -> Word, blockHash: Word -> Word,
    account: (Byte, World, Word) -> Word,
    accessCost: (Byte, World, seq<Word>, seq<(Byte, Word)>) -> nat)

  datatype State = State(pc: nat, stack: seq<Word>, mem: seq<Byte>, aw: Word, world: World, spent: nat,
                         accessed: seq<(Byte, Word)>)

  datatype Halt = Returned(world: World, output: seq<Byte>) | Reverted | Failed

  /** Fault: an exceptional halt other than running out of gas. */
  datatype Outcome = Next(state: State) | Halted(halt: Halt) | OutOfGas | Fault

  datatype Op =
    | PushOp | DupOp(n: nat) | SwapOp(n: nat) | PopOp
    | Unary(op: Byte) | Binary(op: Byte) | Ternary(op: Byte) | EnvOp(op: Byte)
    | CallDataLoadOp | MLoadOp | MStoreOp | MStore8Op | KeccakOp
    | CallDataCopyOp | CodeCopyOp | ReturnDataCopyOp | MCopyOp
    | SLoadOp | SStoreOp | TLoadOp | TStoreOp | AccountOp(op: Byte)
    | BlockHashOp | GasOp | JumpDestOp | JumpOp | JumpIOp | LogOp(topics: nat)
    | StopOp | InvalidOp | ReturnOp | RevertOp

  function Classify(op: Byte): Option<Op> {
    if op == 0x5F || 0x60 <= op <= 0x7F then Some(PushOp)
    else if 0x80 <= op <= 0x8F then Some(DupOp(op - 0x7F))
    else if 0x90 <= op <= 0x9F then Some(SwapOp(op - 0x8F))
    else if op == 0x50 then Some(PopOp)
    else if op == 0x15 || op == 0x19 then Some(Unary(op))
    else if IsBinary(op) then Some(Binary(op))
    else if op == 0x08 || op == 0x09 then Some(Ternary(op))
    else if IsEnvironment(op) then Some(EnvOp(op))
    else if op == 0x35 then Some(CallDataLoadOp)
    else if op == 0x51 then Some(MLoadOp)
    else if op == 0x52 then Some(MStoreOp)
    else if op == 0x53 then Some(MStore8Op)
    else if op == 0x20 then Some(KeccakOp)
    else if op == 0x37 then Some(CallDataCopyOp)
    else if op == 0x39 then Some(CodeCopyOp)
    else if op == 0x3E then Some(ReturnDataCopyOp)
    else if op == 0x5E then Some(MCopyOp)
    else if op == 0x54 then Some(SLoadOp)
    else if op == 0x55 then Some(SStoreOp)
    else if op == 0x5C then Some(TLoadOp)
    else if op == 0x5D then Some(TStoreOp)
    else if op == 0x31 || op == 0x3B || op == 0x3F then Some(AccountOp(op))
    else if op == 0x40 then Some(BlockHashOp)
    else if op == 0x5A then Some(GasOp)
    else if op == 0x5B then Some(JumpDestOp)
    else if op == 0x56 then Some(JumpOp)
    else if op == 0x57 then Some(JumpIOp)
    else if 0xA0 <= op <= 0xA4 then Some(LogOp(op - 0xA0))
    else if op == 0x00 then Some(StopOp)
    else if op == 0xFE then Some(InvalidOp)
    else if op == 0xF3 then Some(ReturnOp)
    else if op == 0xFD then Some(RevertOp)
    else None
  }

  /** Operands an operation reads from the top of the stack. */
  function Need(o: Op): nat {
    match o
    case PushOp => 0
    case DupOp(n) => n
    case SwapOp(n) => n + 1
    case PopOp => 1
    case Unary(_) => 1
    case Binary(_) => 2
    case Ternary(_) => 3
    case EnvOp(_) => 0
    case CallDataLoadOp => 1
    case MLoadOp => 1
    case MStoreOp => 2
    case MStore8Op => 2
    case KeccakOp => 2
    case CallDataCopyOp => 3
    case CodeCopyOp => 3
    case ReturnDataCopyOp => 3
    case MCopyOp => 3
    case SLoadOp => 1
    case SStoreOp => 2
    case TLoadOp => 1
    case TStoreOp => 2
    case AccountOp(_) => 1
    case BlockHashOp => 1
    case GasOp => 0
    case JumpDestOp => 0
    case JumpOp => 1
    case JumpIOp => 2
    case LogOp(topics) => topics + 2
    case StopOp => 0
    case InvalidOp => 0
    case ReturnOp => 2
    case RevertOp => 2
  }

  /** Words that stand where the operands were. */
  function Pushes(o: Op): nat {
    match o
    case PushOp => 1
    case DupOp(n) => n + 1
    case SwapOp(n) => n + 1
    case Unary(_) => 1
    case Binary(_) => 1
    case Ternary(_) => 1
    case EnvOp(_) => 1
    case CallDataLoadOp => 1
    case MLoadOp => 1
    case KeccakOp => 1
    case SLoadOp => 1
    case TLoadOp => 1
    case AccountOp(_) => 1
    case BlockHashOp => 1
    case GasOp => 1
    case _ => 0
  }

  /** The operation and the stack table agree on an opcode. */
  predicate ShapesAgree(op: Byte) {
    && (Classify(op).Some? <==> StackShape(op).Some?)
    && (Classify(op).Some? ==>
          var (o, s) := (Classify(op).value, StackShape(op).value);
          s.need == Need(o) && s.pushes - s.pops == Pushes(o) - Need(o))
  }

  /** The classification is the stack table: the same opcodes, depths and changes of height. */
  lemma {:induction false} ClassifyMatchesShapes(op: Byte)
    ensures ShapesAgree(op)
  {
    hide ShapesAgree;
    if op < 0x20 {
      LowMatchShapes(op);
    } else if op < 0x37 {
      EnvironmentMatchShapes(op);
    } else if op < 0x40 {
      CopyMatchShapes(op);
    } else if op < 0x54 {
      MemoryMatchShapes(op);
    } else if op < 0x59 {
      StorageMatchShapes(op);
    } else if op < 0x60 {
      CounterMatchShapes(op);
    } else {
      HighMatchShapes(op);
    }
  }

  lemma {:induction false} LowMatchShapes(op: Byte)
    requires op < 0x20
    ensures ShapesAgree(op)
  {
  }

  lemma {:induction false} EnvironmentMatchShapes(op: Byte)
    requires 0x20 <= op < 0x37
    ensures ShapesAgree(op)
  {
  }

  lemma {:induction false} CopyMatchShapes(op: Byte)
    requires 0x37 <= op < 0x40
    ensures ShapesAgree(op)
  {
  }

  lemma {:induction false} MemoryMatchShapes(op: Byte)
    requires 0x40 <= op < 0x54
    ensures ShapesAgree(op)
  {
  }

  lemma {:induction false} StorageMatchShapes(op: Byte)
    requires 0x54 <= op < 0x59
    ensures ShapesAgree(op)
  {
  }

  lemma {:induction false} CounterMatchShapes(op: Byte)
    requires 0x59 <= op < 0x60
    ensures ShapesAgree(op)
  {
  }

  lemma {:induction false} HighMatchShapes(op: Byte)
    requires 0x60 <= op
    ensures ShapesAgree(op)
  {
  }

  // ----- memory -----

  function ReadPadded(mem: seq<Byte>, off: nat, len: nat): (r: seq<Byte>)
    ensures |r| == len
  {
    if off + len <= |mem| then mem[off..off + len]
    else if off <= |mem| then mem[off..] + Zeros(len - (|mem| - off))
    else Zeros(len)
  }

  /** `len` bytes of `src` from `from`, zero-filled, written over `mem` at `at`. */
  function WriteBytes(src: seq<Byte>, from: nat, mem: seq<Byte>, at: nat, len: nat): seq<Byte> {
    if len == 0 then mem
    else ReadPadded(mem, 0, at) + ReadPadded(src, from, len) + (if at + len <= |mem| then mem[at + len..] else [])
  }

  function LoadWord(mem: seq<Byte>, a: nat): Word {
    if a >= |mem| then 0 else Wrap(BytesToNat(ReadPadded(mem, a, 32)))
  }

  function Max(a: nat, b: nat): nat {
    if a < b then b else a
  }

  /** Active words after touching `len` bytes from `off`. */
  function Touch(aw: Word, off: nat, len: nat): Word {
    if len == 0 then aw else Wrap(Max(aw, (off + len + 31) / 32))
  }

  function MemoryCost(aw: Word): nat {
    3 * aw + aw * aw / 512
  }

  function Saturating(a: nat, b: nat): nat {
    if a < b then 0 else a - b
  }

  function ExpansionCost(aw: Word, aw': Word): nat {
    Saturating(MemoryCost(aw'), MemoryCost(aw))
  }

  function WordCount(len: nat): nat {
    (len + 31) / 32
  }

  // ----- what an operation computes -----

  function UnaryWord(op: Byte, a: Word): Word {
    if op == 0x15 then IsZero(a) else Not(a)
  }

  /** Operands as the EVM has them: a on top of b. */
  function BinaryWord(op: Byte, a: Word, b: Word): Word {
    if op == 0x01 then AddWord(a, b)
    else if op == 0x02 then Wrap(a * b)
    else if op == 0x03 then SubWord(a, b)
    else if op == 0x04 then Div(a, b)
    else if op == 0x05 then SDiv(a, b)
    else if op == 0x06 then Mod(a, b)
    else if op == 0x0A then Wrap(Power(a, b))
    else if op == 0x0B then SignExtend(a, b)
    else if op == 0x10 then Flag(a < b)
    else if op == 0x11 then Flag(a > b)
    else if op == 0x12 then Flag(Signed(a) < Signed(b))
    else if op == 0x13 then Flag(Signed(a) > Signed(b))
    else if op == 0x14 then Flag(a == b)
    else if op == 0x16 then Wrap(AndBits(a, b))
    else if op == 0x17 then Wrap(OrBits(a, b))
    else if op == 0x18 then Wrap(XorBits(a, b))
    else if op == 0x1A then ByteAt(a, b)
    else if op == 0x1B then (if a < 256 then Wrap(b * Pow2(a)) else 0)
    else if op == 0x1C then (if a < 256 then Wrap(Quotient(b, Pow2(a))) else 0)
    else Sar(a, b)
  }

  function TernaryWord(op: Byte, a: Word, b: Word, c: Word): Word {
    if op == 0x08 then AddMod(a, b, c) else MulMod(a, b, c)
  }

  function EnvironmentWord(op: Byte, env: Env): Word {
    if op == 0x30 then env.owner
    else if op == 0x33 then env.caller
    else if op == 0x34 then env.callValue
    else if op == 0x36 then Wrap(|env.calldata|)
    else if op == 0x38 then Wrap(|env.code|)
    else if op == 0x3D then Wrap(|env.returndata|)
    else if op == 0x42 then Wrap(env.timestamp)
    else if op == 0x43 then Wrap(env.number)
    else if op == 0x44 then env.prevRandao
    else if op == 0x45 then Wrap(env.gasLimit)
    else if op == 0x46 then Wrap(env.chainId)
    else Wrap(env.baseFee)
  }

  function CallDataWord(calldata: seq<Byte>, off: nat): Word {
    Wrap(BytesToNat(ReadPadded(calldata, off, 32)))
  }

  function Lookup(m: map<Word, Word>, k: Word): Word {
    if k in m then m[k] else 0
  }

  /** The first and the last exchanged. */
  function Swapped<T>(args: seq<T>): (r: seq<T>)
    requires args != []
    ensures |r| == |args|
  {
    args[0 := args[|args| - 1]][|args| - 1 := args[0]]
  }

  /** Operations that push one computed word. */
  predicate HasResult(o: Op) {
    Pushes(o) == 1 && !o.DupOp? && !o.SwapOp?
  }

  function Result(o: Op, immediate: Word, args: seq<Word>, st: State, env: Env): Word
    requires |args| == Need(o) && HasResult(o)
  {
    match o
    case PushOp => immediate
    case Unary(op) => UnaryWord(op, args[0])
    case Binary(op) => BinaryWord(op, args[0], args[1])
    case Ternary(op) => TernaryWord(op, args[0], args[1], args[2])
    case EnvOp(op) => EnvironmentWord(op, env)
    case CallDataLoadOp => CallDataWord(env.calldata, args[0])
    case MLoadOp => LoadWord(st.mem, args[0])
    case KeccakOp => env.keccak(ReadPadded(st.mem, args[0], args[1]))
    case SLoadOp => Lookup(st.world.storage, args[0])
    case TLoadOp => Lookup(st.world.transient, args[0])
    case AccountOp(op) => env.account(op, st.world, args[0])
    case BlockHashOp => env.blockHash(args[0])
    case GasOp => Wrap(Saturating(env.gas, st.spent + 2))
  }

  /** The words an operation leaves in place of its operands. */
  function Out(o: Op, immediate: Word, args: seq<Word>, st: State, env: Env): (r: seq<Word>)
    requires |args| == Need(o)
    ensures |r| == Pushes(o)
  {
    if o.DupOp? then [if o.n > 0 then args[o.n - 1] else 0] + args
    else if o.SwapOp? then Swapped(args)
    else if HasResult(o) then [Result(o, immediate, args, st, env)]
    else []
  }

  function MemAfter(o: Op, args: seq<Word>, mem: seq<Byte>, env: Env): seq<Byte>
    requires |args| == Need(o)
  {
    match o
    case MStoreOp => WriteBytes(WordBytes(args[1]), 0, mem, args[0], 32)
    case MStore8Op => WriteBytes([args[1] % 256], 0, mem, args[0], 1)
    case CallDataCopyOp => WriteBytes(env.calldata, args[1], mem, args[0], args[2])
    case CodeCopyOp => WriteBytes(env.code, args[1], mem, args[0], args[2])
    case ReturnDataCopyOp => WriteBytes(env.returndata, args[1], mem, args[0], args[2])
    case MCopyOp => WriteBytes(mem, args[1], mem, args[0], args[2])
    case _ => mem
  }

  /** Active words: every memory operation touches its range, a copy within memory the farther one. */
  function AwAfter(o: Op, args: seq<Word>, aw: Word): Word
    requires |args| == Need(o)
  {
    match o
    case MLoadOp => Touch(aw, args[0], 32)
    case MStoreOp => Touch(aw, args[0], 32)
    case MStore8Op => Touch(aw, args[0], 1)
    case KeccakOp => Touch(aw, args[0], args[1])
    case CallDataCopyOp => Touch(aw, args[0], args[2])
    case CodeCopyOp => Touch(aw, args[0], args[2])
    case ReturnDataCopyOp => Touch(aw, args[0], args[2])
    case MCopyOp => Touch(aw, Max(args[0], args[1]), args[2])
    case LogOp(_) => Touch(aw, args[0], args[1])
    case ReturnOp => Touch(aw, args[0], args[1])
    case RevertOp => Touch(aw, args[0], args[1])
    case _ => aw
  }

  function WorldAfter(o: Op, args: seq<Word>, world: World): World
    requires |args| == Need(o)
  {
    match o
    case SStoreOp => world.(storage := world.storage[args[0] := args[1]])
    case TStoreOp => world.(transient := world.transient[args[0] := args[1]])
    case _ => world
  }

  /** Operations whose price depends on what was accessed before. */
  predicate WarmCold(o: Op) {
    o.SLoadOp? || o.SStoreOp? || o.AccountOp?
  }

  const TRANSIENT_COST: nat := 100

  function StaticCost(op: Byte): nat {
    if 0x60 <= op <= 0x9F then 3
    else if op == 0x01 || op == 0x03 || 0x10 <= op <= 0x1D || op == 0x35 then 3
    else if op == 0x02 || 0x04 <= op <= 0x06 || op == 0x0B then 5
    else if op == 0x08 || op == 0x09 then 8
    else if IsEnvironment(op) || op == 0x50 || op == 0x5A || op == 0x5F then 2
    else if op == 0x56 then 8
    else if op == 0x57 then 10
    else if op == 0x5B then 1
    else if op == 0x40 then 20
    else 0
  }

  function ByteLength(n: nat): nat {
    if n == 0 then 0 else 1 + ByteLength(n / 256)
  }

  function ExpCost(exponent: Word): nat {
    10 + 50 * ByteLength(exponent)
  }

  function Cost(o: Op, op: Byte, args: seq<Word>, st: State, env: Env): nat
    requires |args| == Need(o)
  {
    var growth := ExpansionCost(st.aw, AwAfter(o, args, st.aw));
    match o
    case MLoadOp => growth + 3
    case MStoreOp => growth + 3
    case MStore8Op => growth + 3
    case KeccakOp => growth + (30 + 6 * WordCount(args[1]))
    case CallDataCopyOp => growth + (3 + 3 * WordCount(args[2]))
    case CodeCopyOp => growth + (3 + 3 * WordCount(args[2]))
    case ReturnDataCopyOp => growth + (3 + 3 * WordCount(args[2]))
    case MCopyOp => growth + (3 + 3 * WordCount(args[2]))
    case LogOp(topics) => growth + (375 + 8 * args[1] + topics * 375)
    case ReturnOp => growth
    case RevertOp => growth
    case SLoadOp => env.accessCost(op, st.world, args, st.accessed)
    case SStoreOp => env.accessCost(op, st.world, args, st.accessed)
    case AccountOp(_) => env.accessCost(op, st.world, args, st.accessed)
    case TLoadOp => TRANSIENT_COST
    case TStoreOp => TRANSIENT_COST
    case Binary(b) => if b == 0x0A then ExpCost(args[1]) else StaticCost(op)
    case _ => StaticCost(op)
  }

  /** Conditions under which an operation does not fault, besides those on the stack. */
  predicate Guard(o: Op, args: seq<Word>, env: Env)
    requires |args| == Need(o)
  {
    match o
    case ReturnDataCopyOp => args[1] + args[2] <= |env.returndata|
    case SStoreOp => env.writable
    case TStoreOp => env.writable
    case LogOp(_) => env.writable
    case JumpOp => args[0] in JumpDests(env.code)
    case JumpIOp => args[1] != 0 ==> args[0] in JumpDests(env.code)
    case _ => true
  }

  function PcAfter(o: Op, args: seq<Word>, pc: nat, size: nat): nat
    requires |args| == Need(o)
  {
    match o
    case JumpOp => args[0]
    case JumpIOp => if args[1] != 0 then args[0] else pc + size
    case _ => pc + size
  }

  predicate Halting(o: Op) {
    o.StopOp? || o.InvalidOp? || o.ReturnOp? || o.RevertOp?
  }

  function HaltOf(o: Op, args: seq<Word>, st: State): Halt
    requires |args| == Need(o)
  {
    match o
    case StopOp => Returned(st.world, [])
    case ReturnOp => Returned(st.world, ReadPadded(st.mem, args[0], args[1]))
    case RevertOp => Reverted
    case _ => Failed
  }

  function Step(st: State, env: Env): Outcome {
    if st.pc >= |env.code| then Halted(Returned(st.world, []))
    else
      var ins := InstructionAt(env.code, st.pc);
      var o := Classify(ins.opcode);
      if o.None? || |st.stack| < Need(o.value) then Fault
      else Execute(o.value, ins, st, env)
  }

  function Execute(o: Op, ins: Instruction, st: State, env: Env): Outcome
    requires Need(o) <= |st.stack|
  {
    var args := st.stack[..Need(o)];
    if o.InvalidOp? then Halted(Failed)
    else if |st.stack| - Need(o) + Pushes(o) > 1024 || !Guard(o, args, env) then Fault
    else if st.spent + Cost(o, ins.opcode, args, st, env) > env.gas then OutOfGas
    else if Halting(o) then Halted(HaltOf(o, args, st))
    else Next(Advance(o, ins, args, st, env))
  }

  function Immediate(ins: Instruction): Word {
    Wrap(ins.argument.GetOr(0))
  }

  function Advance(o: Op, ins: Instruction, args: seq<Word>, st: State, env: Env): State
    requires |args| == Need(o) <= |st.stack|
  {
    State(PcAfter(o, args, st.pc, ins.Size()),
          Out(o, Immediate(ins), args, st, env) + st.stack[Need(o)..],
          MemAfter(o, args, st.mem, env),
          AwAfter(o, args, st.aw),
          WorldAfter(o, args, st.world),
          st.spent + Cost(o, ins.opcode, args, st, env),
          if WarmCold(o) then st.accessed + [(ins.opcode, args[0])] else st.accessed)
  }

  /** n steps. */
  function Run(st: State, n: nat, env: Env): Outcome
    decreases n
  {
    if n == 0 then Next(st)
    else
      var r := Step(st, env);
      if r.Next? then Run(r.state, n - 1, env) else r
  }

  lemma {:induction false} RunSplit(st: State, m: nat, n: nat, env: Env)
    ensures Run(st, m + n, env) == var r := Run(st, m, env); if r.Next? then Run(r.state, n, env) else r
    decreases m
  {
    hide Step;
    if m > 0 && Step(st, env).Next? {
      RunSplit(Step(st, env).state, m - 1, n, env);
    }
  }
}
