/**
 What one step of the machine does, opcode by opcode: the code is said to hold a literal byte at the
 program counter, and the outcome is written out, so that no two opcodes can be exchanged.
 */
module Opcodes {
  import opened Options
  import opened Words
  import opened WordArith
  import opened Bytecode
  import opened StackShapes
  import opened Machine

  /** The byte at the state's program counter is this opcode. */
  predicate At(st: State, env: Env, op: Byte) {
    st.pc < |env.code| && env.code[st.pc] == op
  }

  /**
   The step faults where the stack would exceed 1024 words or the operation is not allowed, runs out of
   gas, or goes on to `next` with its price paid.
   */
  predicate GoesTo(st: State, env: Env, allowed: bool, cost: nat, next: State) {
    Step(st, env) ==
    if |next.stack| > 1024 || !allowed then Fault
    else if st.spent + cost > env.gas then OutOfGas
    else Next(next.(spent := st.spent + cost))
  }

  /** The next instruction, with `out` in the place of the topmost n words. */
  function Leaves(st: State, n: nat, out: seq<Word>): State
    requires n <= |st.stack|
  {
    st.(pc := st.pc + 1, stack := out + st.stack[n..])
  }

  // ----- from the operation of an opcode to its step -----

  lemma {:induction false} OpSteps(st: State, env: Env, o: Op)
    requires st.pc < |env.code| && Classify(env.code[st.pc]) == Some(o) && Need(o) <= |st.stack| && !Halting(o)
    ensures var args := st.stack[..Need(o)];
            GoesTo(st, env, Guard(o, args, env), Cost(o, env.code[st.pc], args, st, env),
                   Advance(o, InstructionAt(env.code, st.pc), args, st, env))
  {
    hide Classify, Guard, Cost, Out, MemAfter, AwAfter, WorldAfter, PcAfter, Need, Pushes, Immediate, InstructionAt,
         WarmCold;
    InstructionPc(env.code, st.pc);
  }

  lemma {:induction false} OpFaults(st: State, env: Env, o: Op)
    requires st.pc < |env.code| && Classify(env.code[st.pc]) == Some(o) && |st.stack| < Need(o)
    ensures Step(st, env) == Fault
  {
    hide Classify, Need, Machine.Execute, InstructionAt;
    InstructionPc(env.code, st.pc);
  }

  lemma {:induction false} SizeAt(st: State, env: Env)
    requires st.pc < |env.code|
    ensures InstructionAt(env.code, st.pc).Size() == PushWidth(env.code[st.pc]) + 1
  {
    hide PushWidth, PushData;
  }

  /** An operation that only computes a word from its operands. */
  lemma {:induction false} ComputeSteps(st: State, env: Env, o: Op, w: Word, cost: nat)
    requires st.pc < |env.code| && Classify(env.code[st.pc]) == Some(o) && Need(o) <= |st.stack|
    requires HasResult(o) && !o.PushOp? && !o.MLoadOp? && !o.KeccakOp? && !WarmCold(o)
    requires PushWidth(env.code[st.pc]) == 0
    requires w == Result(o, 0, st.stack[..Need(o)], st, env)
    requires cost == Cost(o, env.code[st.pc], st.stack[..Need(o)], st, env)
    ensures GoesTo(st, env, true, cost, Leaves(st, Need(o), [w]))
  {
    hide Classify, Cost, InstructionAt, PushWidth, GoesTo, BinaryWord, UnaryWord, TernaryWord, EnvironmentWord,
         CallDataWord, Lookup, Wrap, Immediate;
    OpSteps(st, env, o);
    SizeAt(st, env);
    InstructionPc(env.code, st.pc);
    var next := Advance(o, InstructionAt(env.code, st.pc), st.stack[..Need(o)], st, env);
    assert next == Leaves(st, Need(o), [w]).(spent := st.spent + cost);
    OnlySpent(st, env, true, cost, next, Leaves(st, Need(o), [w]));
  }

  lemma {:induction false} OnlySpent(st: State, env: Env, allowed: bool, cost: nat, next: State, next': State)
    requires GoesTo(st, env, allowed, cost, next) && next == next'.(spent := st.spent + cost)
    ensures GoesTo(st, env, allowed, cost, next')
  {
    hide Step;
  }

  // ----- the stack -----

  /** PUSH0, and PUSHn with the n bytes that follow it, zeros past the end of the code. */
  lemma {:induction false} PushSteps(st: State, env: Env, n: nat)
    requires n <= 32 && At(st, env, 0x5F + n)
    ensures GoesTo(st, env, true, if n == 0 then 2 else 3,
                   st.(pc := st.pc + 1 + n,
                       stack := [Wrap(BytesToNat(ReadPadded(env.code, st.pc + 1, n)))] + st.stack))
  {
    hide GoesTo, BytesToNat, Wrap, PushData;
    OpSteps(st, env, PushOp);
    PushedBytes(env.code, st.pc);
    PushSize(env.code, st.pc, n);
    var next := Advance(PushOp, InstructionAt(env.code, st.pc), st.stack[..0], st, env);
    OnlySpent(st, env, true, if n == 0 then 2 else 3, next,
              st.(pc := st.pc + 1 + n,
                  stack := [Wrap(BytesToNat(ReadPadded(env.code, st.pc + 1, n)))] + st.stack));
  }

  lemma {:induction false} PushSize(code: seq<Byte>, pc: nat, n: nat)
    requires n <= 32 && pc < |code| && code[pc] == 0x5F + n
    ensures PushWidth(code[pc]) == n
    ensures InstructionAt(code, pc).Size() == n + 1 && InstructionAt(code, pc).opcode == code[pc]
  {
    hide PushData, BytesToNat;
  }

  lemma {:induction false} PushedBytes(code: seq<Byte>, pc: nat)
    requires pc < |code|
    ensures Immediate(InstructionAt(code, pc)) == Wrap(BytesToNat(ReadPadded(code, pc + 1, PushWidth(code[pc]))))
  {
    hide PushWidth, Wrap, BytesToNat;
    var (data, width) := (PushData(code, pc), PushWidth(code[pc]));
    assert data + Zeros(width - |data|) == ReadPadded(code, pc + 1, width);
    if width == 0 {
      NoBytes();
    }
  }

  lemma {:induction false} NoBytes()
    ensures BytesToNat([]) == 0
  {
  }

  lemma {:induction false} CountedOps(n: nat)
    ensures 1 <= n <= 16 ==> Classify(0x7F + n) == Some(DupOp(n)) && PushWidth(0x7F + n) == 0
    ensures 1 <= n <= 16 ==> Classify(0x8F + n) == Some(SwapOp(n)) && PushWidth(0x8F + n) == 0
    ensures n <= 4 ==> Classify(0xA0 + n) == Some(LogOp(n)) && PushWidth(0xA0 + n) == 0
  {
  }

  /** DUPn copies the n-th word, counted from 1 at the top. */
  lemma {:induction false} DupSteps(st: State, env: Env, n: nat)
    requires 1 <= n <= 16 && n <= |st.stack| && At(st, env, 0x7F + n)
    ensures GoesTo(st, env, true, 3, st.(pc := st.pc + 1, stack := [st.stack[n - 1]] + st.stack))
  {
    hide GoesTo, Classify, PushWidth, Step, Machine.Execute, InstructionAt, BytesToNat;
    CountedOps(n);
    OpSteps(st, env, DupOp(n));
    SizeAt(st, env);
    InstructionPc(env.code, st.pc);
    var next := Advance(DupOp(n), InstructionAt(env.code, st.pc), st.stack[..n], st, env);
    assert next.stack == [st.stack[n - 1]] + st.stack;
    OnlySpent(st, env, true, 3, next, st.(pc := st.pc + 1, stack := [st.stack[n - 1]] + st.stack));
  }

  /** SWAPn exchanges the top with the n-th word below it. */
  lemma {:induction false} SwapSteps(st: State, env: Env, n: nat)
    requires 1 <= n <= 16 && n < |st.stack| && At(st, env, 0x8F + n)
    ensures GoesTo(st, env, true, 3, st.(pc := st.pc + 1, stack := st.stack[0 := st.stack[n]][n := st.stack[0]]))
  {
    hide GoesTo, Classify, PushWidth, Step, Machine.Execute, InstructionAt, BytesToNat;
    CountedOps(n);
    OpSteps(st, env, SwapOp(n));
    SizeAt(st, env);
    InstructionPc(env.code, st.pc);
    var next := Advance(SwapOp(n), InstructionAt(env.code, st.pc), st.stack[..n + 1], st, env);
    assert next.stack == st.stack[0 := st.stack[n]][n := st.stack[0]];
    OnlySpent(st, env, true, 3, next, st.(pc := st.pc + 1, stack := st.stack[0 := st.stack[n]][n := st.stack[0]]));
  }

  /** POP drops a word. */
  lemma {:induction false} PopSteps(st: State, env: Env)
    requires At(st, env, 0x50) && st.stack != []
    ensures GoesTo(st, env, true, 2, Leaves(st, 1, []))
  {
    hide GoesTo, Step, Machine.Execute, InstructionAt, BytesToNat;
    OpSteps(st, env, PopOp);
    SizeAt(st, env);
    InstructionPc(env.code, st.pc);
    OnlySpent(st, env, true, 2,
              Advance(PopOp, InstructionAt(env.code, st.pc), st.stack[..1], st, env),
              Leaves(st, 1, []));
  }

  /** JUMPDEST does nothing. */
  lemma {:induction false} JumpDestSteps(st: State, env: Env)
    requires At(st, env, 0x5B)
    ensures GoesTo(st, env, true, 1, st.(pc := st.pc + 1))
  {
    hide GoesTo, Step, Machine.Execute, InstructionAt, BytesToNat;
    OpSteps(st, env, JumpDestOp);
    SizeAt(st, env);
    InstructionPc(env.code, st.pc);
    var next := Advance(JumpDestOp, InstructionAt(env.code, st.pc), st.stack[..0], st, env);
    assert next.stack == st.stack;
    OnlySpent(st, env, true, 1, next, st.(pc := st.pc + 1));
  }

  // ----- words -----

  /** One operation on two words, a on top of b. */
  lemma {:induction false} BinaryStep(st: State, env: Env, op: Byte)
    requires At(st, env, op) && IsBinary(op) && |st.stack| >= 2
    ensures var (a, b) := (st.stack[0], st.stack[1]);
            GoesTo(st, env, true, if op == 0x0A then ExpCost(b) else StaticCost(op),
                   Leaves(st, 2, [BinaryWord(op, a, b)]))
  {
    hide GoesTo, BinaryWord, StaticCost, ExpCost;
    BinaryIs(op);
    ComputeSteps(st, env, Binary(op), BinaryWord(op, st.stack[0], st.stack[1]),
                 if op == 0x0A then ExpCost(st.stack[1]) else StaticCost(op));
  }

  lemma {:induction false} BinaryIs(op: Byte)
    requires IsBinary(op)
    ensures Classify(op) == Some(Binary(op)) && PushWidth(op) == 0
  {
  }

  lemma {:induction false} ArithmeticSteps(st: State, env: Env)
    requires |st.stack| >= 2
    ensures var (a, b) := (st.stack[0], st.stack[1]);
            && (At(st, env, 0x01) ==> GoesTo(st, env, true, 3, Leaves(st, 2, [AddWord(a, b)])))
            && (At(st, env, 0x02) ==> GoesTo(st, env, true, 5, Leaves(st, 2, [Wrap(a as int * b)])))
            && (At(st, env, 0x03) ==> GoesTo(st, env, true, 3, Leaves(st, 2, [SubWord(a, b)])))
            && (At(st, env, 0x04) ==> GoesTo(st, env, true, 5, Leaves(st, 2, [Div(a, b)])))
            && (At(st, env, 0x05) ==> GoesTo(st, env, true, 5, Leaves(st, 2, [SDiv(a, b)])))
            && (At(st, env, 0x06) ==> GoesTo(st, env, true, 5, Leaves(st, 2, [Mod(a, b)])))
            && (At(st, env, 0x0A) ==>
                  GoesTo(st, env, true, 10 + 50 * ByteLength(b), Leaves(st, 2, [Wrap(Power(a, b))])))
            && (At(st, env, 0x0B) ==> GoesTo(st, env, true, 5, Leaves(st, 2, [SignExtend(a, b)])))
  {
    hide GoesTo, AddWord, Wrap, SubWord, Div, SDiv, Mod, Power, SignExtend, ByteLength, Flag, AndBits, OrBits, XorBits,
         ByteAt, Sar, Signed, Pow2;
    if st.pc < |env.code| && IsBinary(env.code[st.pc]) {
      BinaryStep(st, env, env.code[st.pc]);
    }
  }

  lemma {:induction false} ComparisonSteps(st: State, env: Env)
    requires |st.stack| >= 2
    ensures var (a, b) := (st.stack[0], st.stack[1]);
            && (At(st, env, 0x10) ==> GoesTo(st, env, true, 3, Leaves(st, 2, [if a < b then 1 else 0])))
            && (At(st, env, 0x11) ==> GoesTo(st, env, true, 3, Leaves(st, 2, [if a > b then 1 else 0])))
            && (At(st, env, 0x12) ==> GoesTo(st, env, true, 3, Leaves(st, 2, [if Signed(a) < Signed(b) then 1 else 0])))
            && (At(st, env, 0x13) ==> GoesTo(st, env, true, 3, Leaves(st, 2, [if Signed(a) > Signed(b) then 1 else 0])))
            && (At(st, env, 0x14) ==> GoesTo(st, env, true, 3, Leaves(st, 2, [if a == b then 1 else 0])))
  {
    hide GoesTo, AddWord, Wrap, SubWord, Div, SDiv, Mod, Power, SignExtend, ByteLength, AndBits, OrBits, XorBits,
         ByteAt, Sar, Signed, Pow2;
    if st.pc < |env.code| && IsBinary(env.code[st.pc]) {
      BinaryStep(st, env, env.code[st.pc]);
    }
  }

  lemma {:induction false} BitSteps(st: State, env: Env)
    requires |st.stack| >= 2
    ensures var (a, b) := (st.stack[0], st.stack[1]);
            && (At(st, env, 0x16) ==> GoesTo(st, env, true, 3, Leaves(st, 2, [Wrap(AndBits(a, b))])))
            && (At(st, env, 0x17) ==> GoesTo(st, env, true, 3, Leaves(st, 2, [Wrap(OrBits(a, b))])))
            && (At(st, env, 0x18) ==> GoesTo(st, env, true, 3, Leaves(st, 2, [Wrap(XorBits(a, b))])))
            && (At(st, env, 0x1A) ==> GoesTo(st, env, true, 3, Leaves(st, 2, [ByteAt(a, b)])))
            && (At(st, env, 0x1B) ==> GoesTo(st, env, true, 3, Leaves(st, 2, [ShiftLeft(b, a)])))
            && (At(st, env, 0x1C) ==> GoesTo(st, env, true, 3, Leaves(st, 2, [ShiftRight(b, a)])))
            && (At(st, env, 0x1D) ==> GoesTo(st, env, true, 3, Leaves(st, 2, [Sar(a, b)])))
  {
    hide GoesTo, AddWord, Wrap, SubWord, Div, SDiv, Mod, Power, SignExtend, ByteLength, Flag, AndBits, OrBits, XorBits,
         ByteAt, Sar, Signed, Pow2;
    if st.pc < |env.code| && IsBinary(env.code[st.pc]) {
      BinaryStep(st, env, env.code[st.pc]);
    }
  }

  lemma {:induction false} UnarySteps(st: State, env: Env)
    requires |st.stack| >= 1
    ensures var a := st.stack[0];
            && (At(st, env, 0x15) ==> GoesTo(st, env, true, 3, Leaves(st, 1, [if a == 0 then 1 else 0])))
            && (At(st, env, 0x19) ==> GoesTo(st, env, true, 3, Leaves(st, 1, [WORD_MODULUS - 1 - a])))
            && (At(st, env, 0x35) ==>
                  GoesTo(st, env, true, 3, Leaves(st, 1, [Wrap(BytesToNat(ReadPadded(env.calldata, a, 32)))])))
            && (At(st, env, 0x40) ==> GoesTo(st, env, true, 20, Leaves(st, 1, [env.blockHash(a)])))
  {
    hide GoesTo, Wrap, BytesToNat, ReadPadded;
    var a := st.stack[0];
    if At(st, env, 0x15) || At(st, env, 0x19) {
      ComputeSteps(st, env, Unary(env.code[st.pc]), UnaryWord(env.code[st.pc], a), 3);
    } else if At(st, env, 0x35) {
      ComputeSteps(st, env, CallDataLoadOp, CallDataWord(env.calldata, a), 3);
    } else if At(st, env, 0x40) {
      ComputeSteps(st, env, BlockHashOp, env.blockHash(a), 20);
    }
  }

  lemma {:induction false} TernarySteps(st: State, env: Env)
    requires |st.stack| >= 3
    ensures var (a, b, c) := (st.stack[0], st.stack[1], st.stack[2]);
            && (At(st, env, 0x08) ==> GoesTo(st, env, true, 8, Leaves(st, 3, [AddMod(a, b, c)])))
            && (At(st, env, 0x09) ==> GoesTo(st, env, true, 8, Leaves(st, 3, [MulMod(a, b, c)])))
  {
    hide GoesTo, AddMod, MulMod;
    if At(st, env, 0x08) || At(st, env, 0x09) {
      var op := env.code[st.pc];
      ComputeSteps(st, env, Ternary(op), TernaryWord(op, st.stack[0], st.stack[1], st.stack[2]), 8);
    }
  }

  // ----- the environment -----

  /** The word an environment opcode pushes. */
  lemma {:induction false} EnvironmentStep(st: State, env: Env, op: Byte)
    requires At(st, env, op) && IsEnvironment(op)
    ensures GoesTo(st, env, true, 2, Leaves(st, 0, [EnvironmentWord(op, env)]))
  {
    hide GoesTo, EnvironmentWord;
    ComputeSteps(st, env, EnvOp(op), EnvironmentWord(op, env), 2);
  }

  lemma {:induction false} CallerSteps(st: State, env: Env)
    ensures At(st, env, 0x30) ==> GoesTo(st, env, true, 2, Leaves(st, 0, [env.owner]))
    ensures At(st, env, 0x33) ==> GoesTo(st, env, true, 2, Leaves(st, 0, [env.caller]))
    ensures At(st, env, 0x34) ==> GoesTo(st, env, true, 2, Leaves(st, 0, [env.callValue]))
    ensures At(st, env, 0x36) ==> GoesTo(st, env, true, 2, Leaves(st, 0, [Wrap(|env.calldata|)]))
    ensures At(st, env, 0x38) ==> GoesTo(st, env, true, 2, Leaves(st, 0, [Wrap(|env.code|)]))
    ensures At(st, env, 0x3D) ==> GoesTo(st, env, true, 2, Leaves(st, 0, [Wrap(|env.returndata|)]))
  {
    hide GoesTo, Wrap;
    if st.pc < |env.code| && IsEnvironment(env.code[st.pc]) {
      EnvironmentStep(st, env, env.code[st.pc]);
    }
  }

  lemma {:induction false} HeaderSteps(st: State, env: Env)
    ensures At(st, env, 0x42) ==> GoesTo(st, env, true, 2, Leaves(st, 0, [Wrap(env.timestamp)]))
    ensures At(st, env, 0x43) ==> GoesTo(st, env, true, 2, Leaves(st, 0, [Wrap(env.number)]))
    ensures At(st, env, 0x44) ==> GoesTo(st, env, true, 2, Leaves(st, 0, [env.prevRandao]))
    ensures At(st, env, 0x45) ==> GoesTo(st, env, true, 2, Leaves(st, 0, [Wrap(env.gasLimit)]))
    ensures At(st, env, 0x46) ==> GoesTo(st, env, true, 2, Leaves(st, 0, [Wrap(env.chainId)]))
    ensures At(st, env, 0x48) ==> GoesTo(st, env, true, 2, Leaves(st, 0, [Wrap(env.baseFee)]))
  {
    hide GoesTo, Wrap;
    if st.pc < |env.code| && IsEnvironment(env.code[st.pc]) {
      EnvironmentStep(st, env, env.code[st.pc]);
    }
  }

  /** GAS pushes what is left once its own price is paid. */
  lemma {:induction false} GasSteps(st: State, env: Env)
    requires At(st, env, 0x5A)
    ensures GoesTo(st, env, true, 2,
                   Leaves(st, 0, [Wrap(if env.gas < st.spent + 2 then 0 else env.gas - (st.spent + 2))]))
  {
    hide GoesTo, Wrap;
    ComputeSteps(st, env, GasOp, Wrap(Saturating(env.gas, st.spent + 2)), 2);
  }

  // ----- memory -----

  /** Words that `len` bytes fill, the last one perhaps in part. */
  function FullWords(len: nat): nat {
    (len + 31) / 32
  }

  /** The price of an expansion of the active words from aw to aw'. */
  function Grows(aw: Word, aw': Word): nat {
    var (before, after) := (3 * aw + aw * aw / 512, 3 * aw' + aw' * aw' / 512);
    if after < before then 0 else after - before
  }

  lemma {:induction false} LoadSteps(st: State, env: Env)
    requires At(st, env, 0x51) && |st.stack| >= 1
    ensures var aw := Touch(st.aw, st.stack[0], 32);
            GoesTo(st, env, true, Grows(st.aw, aw) + 3, Leaves(st, 1, [LoadWord(st.mem, st.stack[0])]).(aw := aw))
  {
    hide GoesTo, Touch, LoadWord, Step, Machine.Execute, InstructionAt, BytesToNat;
    OpSteps(st, env, MLoadOp);
    SizeAt(st, env);
    InstructionPc(env.code, st.pc);
    var aw := Touch(st.aw, st.stack[0], 32);
    OnlySpent(st, env, true, Grows(st.aw, aw) + 3, Advance(MLoadOp, InstructionAt(env.code, st.pc), st.stack[..1],
            st, env), Leaves(st, 1, [LoadWord(st.mem, st.stack[0])]).(aw := aw));
  }

  /** KECCAK256 hashes a window of memory. */
  lemma {:induction false} KeccakSteps(st: State, env: Env)
    requires At(st, env, 0x20) && |st.stack| >= 2
    ensures var aw := Touch(st.aw, st.stack[0], st.stack[1]);
            GoesTo(st, env, true, Grows(st.aw, aw) + 30 + 6 * FullWords(st.stack[1]),
                   Leaves(st, 2, [env.keccak(ReadPadded(st.mem, st.stack[0], st.stack[1]))]).(aw := aw))
  {
    hide GoesTo, Touch, ReadPadded, Step, Machine.Execute, InstructionAt, BytesToNat;
    OpSteps(st, env, KeccakOp);
    SizeAt(st, env);
    InstructionPc(env.code, st.pc);
    var aw := Touch(st.aw, st.stack[0], st.stack[1]);
    OnlySpent(st, env, true, Grows(st.aw, aw) + 30 + 6 * FullWords(st.stack[1]),
              Advance(KeccakOp, InstructionAt(env.code, st.pc), st.stack[..2], st, env),
              Leaves(st, 2, [env.keccak(ReadPadded(st.mem, st.stack[0], st.stack[1]))]).(aw := aw));
  }

  /** MSTORE writes the 32 bytes of a word. */
  lemma {:induction false} StoreSteps(st: State, env: Env)
    requires At(st, env, 0x52) && |st.stack| >= 2
    ensures var aw := Touch(st.aw, st.stack[0], 32);
            GoesTo(st, env, true, Grows(st.aw, aw) + 3,
                   Leaves(st, 2, []).(aw := aw, mem := WriteBytes(WordBytes(st.stack[1]), 0, st.mem, st.stack[0], 32)))
  {
    hide GoesTo, Touch, WriteBytes, WordBytes, Step, Machine.Execute, InstructionAt, BytesToNat;
    OpSteps(st, env, MStoreOp);
    SizeAt(st, env);
    InstructionPc(env.code, st.pc);
    var aw := Touch(st.aw, st.stack[0], 32);
    OnlySpent(st, env, true, Grows(st.aw, aw) + 3,
              Advance(MStoreOp, InstructionAt(env.code, st.pc), st.stack[..2], st, env),
              Leaves(st, 2, []).(aw := aw, mem := WriteBytes(WordBytes(st.stack[1]), 0, st.mem, st.stack[0], 32)));
  }

  /** MSTORE8 writes its last byte. */
  lemma {:induction false} StoreByteSteps(st: State, env: Env)
    requires At(st, env, 0x53) && |st.stack| >= 2
    ensures var aw := Touch(st.aw, st.stack[0], 1);
            GoesTo(st, env, true, Grows(st.aw, aw) + 3,
                   Leaves(st, 2, []).(aw := aw, mem := WriteBytes([st.stack[1] % 256], 0, st.mem, st.stack[0], 1)))
  {
    hide GoesTo, Touch, WriteBytes, WordBytes, Step, Machine.Execute, InstructionAt, BytesToNat;
    OpSteps(st, env, MStore8Op);
    SizeAt(st, env);
    InstructionPc(env.code, st.pc);
    var aw := Touch(st.aw, st.stack[0], 1);
    OnlySpent(st, env, true, Grows(st.aw, aw) + 3,
              Advance(MStore8Op, InstructionAt(env.code, st.pc), st.stack[..2], st, env),
              Leaves(st, 2, []).(aw := aw, mem := WriteBytes([st.stack[1] % 256], 0, st.mem, st.stack[0], 1)));
  }

  /** A copy of `len` bytes of `src` from `from` to memory at `at`, which touches memory from `reach` on. */
  predicate CopiesTo(st: State, env: Env, allowed: bool, src: seq<Byte>, reach: nat)
    requires |st.stack| >= 3
  {
    var (at, from, len) := (st.stack[0], st.stack[1], st.stack[2]);
    var aw := Touch(st.aw, reach, len);
    GoesTo(st, env, allowed, Grows(st.aw, aw) + 3 + 3 * FullWords(len),
           Leaves(st, 3, []).(aw := aw, mem := WriteBytes(src, from, st.mem, at, len)))
  }

  lemma {:induction false} CopyPrice(o: Op, op: Byte, args: seq<Word>, st: State, env: Env)
    requires o.CallDataCopyOp? || o.CodeCopyOp? || o.ReturnDataCopyOp? || o.MCopyOp?
    requires |args| == 3
    ensures var reach := if o.MCopyOp? then Machine.Max(args[0], args[1]) else args[0];
            Cost(o, op, args, st, env) == Grows(st.aw, Touch(st.aw, reach, args[2])) + 3 + 3 * FullWords(args[2])
  {
    hide Touch, Machine.Max;
  }

  lemma {:induction false} CallDataCopySteps(st: State, env: Env)
    requires At(st, env, 0x37) && |st.stack| >= 3
    ensures CopiesTo(st, env, true, env.calldata, st.stack[0])
  {
    hide GoesTo, Touch, WriteBytes, ReadPadded, Step, Machine.Execute, InstructionAt, BytesToNat, Cost, Grows,
         FullWords;
    OpSteps(st, env, CallDataCopyOp);
    CopyPrice(CallDataCopyOp, env.code[st.pc], st.stack[..3], st, env);
    SizeAt(st, env);
    InstructionPc(env.code, st.pc);
    var (at, from, len) := (st.stack[0], st.stack[1], st.stack[2]);
    var aw := Touch(st.aw, at, len);
    OnlySpent(st, env, true, Grows(st.aw, aw) + 3 + 3 * FullWords(len),
              Advance(CallDataCopyOp, InstructionAt(env.code, st.pc), st.stack[..3], st, env),
              Leaves(st, 3, []).(aw := aw, mem := WriteBytes(env.calldata, from, st.mem, at, len)));
  }

  lemma {:induction false} CodeCopySteps(st: State, env: Env)
    requires At(st, env, 0x39) && |st.stack| >= 3
    ensures CopiesTo(st, env, true, env.code, st.stack[0])
  {
    hide GoesTo, Touch, WriteBytes, ReadPadded, Step, Machine.Execute, InstructionAt, BytesToNat, Cost, Grows,
         FullWords;
    OpSteps(st, env, CodeCopyOp);
    CopyPrice(CodeCopyOp, env.code[st.pc], st.stack[..3], st, env);
    SizeAt(st, env);
    InstructionPc(env.code, st.pc);
    var (at, from, len) := (st.stack[0], st.stack[1], st.stack[2]);
    var aw := Touch(st.aw, at, len);
    OnlySpent(st, env, true, Grows(st.aw, aw) + 3 + 3 * FullWords(len),
              Advance(CodeCopyOp, InstructionAt(env.code, st.pc), st.stack[..3], st, env),
              Leaves(st, 3, []).(aw := aw, mem := WriteBytes(env.code, from, st.mem, at, len)));
  }

  /** A copy of return data may not read past its end. */
  lemma {:induction false} ReturnDataCopySteps(st: State, env: Env)
    requires At(st, env, 0x3E) && |st.stack| >= 3
    ensures CopiesTo(st, env, st.stack[1] + st.stack[2] <= |env.returndata|, env.returndata, st.stack[0])
  {
    hide GoesTo, Touch, WriteBytes, ReadPadded, Step, Machine.Execute, InstructionAt, BytesToNat, Cost, Grows,
         FullWords;
    OpSteps(st, env, ReturnDataCopyOp);
    CopyPrice(ReturnDataCopyOp, env.code[st.pc], st.stack[..3], st, env);
    SizeAt(st, env);
    InstructionPc(env.code, st.pc);
    var (at, from, len) := (st.stack[0], st.stack[1], st.stack[2]);
    var aw := Touch(st.aw, at, len);
    OnlySpent(st, env, st.stack[1] + st.stack[2] <= |env.returndata|, Grows(st.aw, aw) + 3 + 3 * FullWords(len),
              Advance(ReturnDataCopyOp, InstructionAt(env.code, st.pc), st.stack[..3], st, env),
              Leaves(st, 3, []).(aw := aw, mem := WriteBytes(env.returndata, from, st.mem, at, len)));
  }

  /** A copy within memory touches the farther of its two ranges. */
  lemma {:induction false} MemoryCopySteps(st: State, env: Env)
    requires At(st, env, 0x5E) && |st.stack| >= 3
    ensures CopiesTo(st, env, true, st.mem, if st.stack[0] < st.stack[1] then st.stack[1] else st.stack[0])
  {
    hide GoesTo, Touch, WriteBytes, ReadPadded, Step, Machine.Execute, InstructionAt, BytesToNat, Cost, Grows,
         FullWords;
    OpSteps(st, env, MCopyOp);
    CopyPrice(MCopyOp, env.code[st.pc], st.stack[..3], st, env);
    SizeAt(st, env);
    InstructionPc(env.code, st.pc);
    var (at, from, len) := (st.stack[0], st.stack[1], st.stack[2]);
    var aw := Touch(st.aw, if at < from then from else at, len);
    OnlySpent(st, env, true, Grows(st.aw, aw) + 3 + 3 * FullWords(len),
              Advance(MCopyOp, InstructionAt(env.code, st.pc), st.stack[..3], st, env),
              Leaves(st, 3, []).(aw := aw, mem := WriteBytes(st.mem, from, st.mem, at, len)));
  }

  /** LOGn needs a call that may write, and pays for its data and its topics. */
  lemma {:induction false} LogSteps(st: State, env: Env, n: nat)
    requires n <= 4 && |st.stack| >= n + 2 && At(st, env, 0xA0 + n)
    ensures var aw := Touch(st.aw, st.stack[0], st.stack[1]);
            GoesTo(st, env, env.writable, Grows(st.aw, aw) + 375 + 8 * (st.stack[1] as int) + n * 375,
                   Leaves(st, n + 2, []).(aw := aw))
  {
    hide GoesTo, Classify, PushWidth, Touch, Step, Machine.Execute, InstructionAt, BytesToNat;
    CountedOps(n);
    OpSteps(st, env, LogOp(n));
    SizeAt(st, env);
    InstructionPc(env.code, st.pc);
    var aw := Touch(st.aw, st.stack[0], st.stack[1]);
    OnlySpent(st, env, env.writable, Grows(st.aw, aw) + 375 + 8 * (st.stack[1] as int) + n * 375,
              Advance(LogOp(n), InstructionAt(env.code, st.pc), st.stack[..n + 2], st, env),
              Leaves(st, n + 2, []).(aw := aw));
  }

  // ----- the account map -----

  /** The word of a slot never written is 0. */
  function Slot(m: map<Word, Word>, k: Word): Word {
    if k in m then m[k] else 0
  }

  lemma {:induction false} StorageLoadSteps(st: State, env: Env)
    requires At(st, env, 0x54) && |st.stack| >= 1
    ensures GoesTo(st, env, true, env.accessCost(0x54, st.world, st.stack[..1], st.accessed),
                   Leaves(st, 1, [Slot(st.world.storage, st.stack[0])]).(
                   accessed := st.accessed + [(0x54, st.stack[0])]))
  {
    hide GoesTo, Step, Machine.Execute, InstructionAt, BytesToNat;
    OpSteps(st, env, SLoadOp);
    SizeAt(st, env);
    InstructionPc(env.code, st.pc);
    OnlySpent(st, env, true, env.accessCost(0x54, st.world, st.stack[..1], st.accessed),
              Advance(SLoadOp, InstructionAt(env.code, st.pc), st.stack[..1], st, env),
              Leaves(st, 1, [Slot(st.world.storage, st.stack[0])]).(accessed := st.accessed + [(0x54, st.stack[0])]));
  }

  lemma {:induction false} StorageStoreSteps(st: State, env: Env)
    requires At(st, env, 0x55) && |st.stack| >= 2
    ensures GoesTo(st, env, env.writable, env.accessCost(0x55, st.world, st.stack[..2], st.accessed),
                   Leaves(st, 2, []).(world := World(st.world.storage[st.stack[0] := st.stack[1]], st.world.transient),
                                      accessed := st.accessed + [(0x55, st.stack[0])]))
  {
    hide GoesTo, Step, Machine.Execute, InstructionAt, BytesToNat;
    OpSteps(st, env, SStoreOp);
    SizeAt(st, env);
    InstructionPc(env.code, st.pc);
    OnlySpent(st, env, env.writable, env.accessCost(0x55, st.world, st.stack[..2], st.accessed),
              Advance(SStoreOp, InstructionAt(env.code, st.pc), st.stack[..2], st, env),
              Leaves(st, 2, []).(world := World(st.world.storage[st.stack[0] := st.stack[1]], st.world.transient),
                                      accessed := st.accessed + [(0x55, st.stack[0])]));
  }

  lemma {:induction false} TransientLoadSteps(st: State, env: Env)
    requires At(st, env, 0x5C) && |st.stack| >= 1
    ensures GoesTo(st, env, true, 100,
                   Leaves(st, 1, [Slot(st.world.transient, st.stack[0])]))
  {
    hide GoesTo, Step, Machine.Execute, InstructionAt, BytesToNat;
    OpSteps(st, env, TLoadOp);
    SizeAt(st, env);
    InstructionPc(env.code, st.pc);
    OnlySpent(st, env, true, 100,
              Advance(TLoadOp, InstructionAt(env.code, st.pc), st.stack[..1], st, env),
              Leaves(st, 1, [Slot(st.world.transient, st.stack[0])]));
  }

  lemma {:induction false} TransientStoreSteps(st: State, env: Env)
    requires At(st, env, 0x5D) && |st.stack| >= 2
    ensures GoesTo(st, env, env.writable, 100,
                   Leaves(st, 2, []).(world := World(st.world.storage, st.world.transient[st.stack[0] := st.stack[1]])))
  {
    hide GoesTo, Step, Machine.Execute, InstructionAt, BytesToNat;
    OpSteps(st, env, TStoreOp);
    SizeAt(st, env);
    InstructionPc(env.code, st.pc);
    OnlySpent(st, env, env.writable, 100,
              Advance(TStoreOp, InstructionAt(env.code, st.pc), st.stack[..2], st, env),
              Leaves(st, 2, []).(world := World(st.world.storage, st.world.transient[st.stack[0] := st.stack[1]])));
  }

  /** BALANCE, EXTCODESIZE and EXTCODEHASH each ask the environment under their own opcode. */
  lemma {:induction false} AccountSteps(st: State, env: Env, op: Byte)
    requires op == 0x31 || op == 0x3B || op == 0x3F
    requires |st.stack| >= 1 && At(st, env, op)
    ensures GoesTo(st, env, true, env.accessCost(op, st.world, st.stack[..1], st.accessed),
                   Leaves(st, 1, [env.account(op, st.world, st.stack[0])]).(
                   accessed := st.accessed + [(op, st.stack[0])]))
  {
    hide GoesTo, Step, Machine.Execute, InstructionAt, BytesToNat;
    OpSteps(st, env, AccountOp(op));
    SizeAt(st, env);
    InstructionPc(env.code, st.pc);
    OnlySpent(st, env, true, env.accessCost(op, st.world, st.stack[..1], st.accessed),
              Advance(AccountOp(op), InstructionAt(env.code, st.pc), st.stack[..1], st, env),
              Leaves(st, 1, [env.account(op, st.world, st.stack[0])]).(accessed := st.accessed + [(op, st.stack[0])]));
  }

  // ----- control -----

  /** JUMP goes to a jump destination. */
  lemma {:induction false} JumpSteps(st: State, env: Env)
    requires At(st, env, 0x56) && |st.stack| >= 1
    ensures GoesTo(st, env, st.stack[0] in JumpDests(env.code), 8, Leaves(st, 1, []).(pc := st.stack[0]))
  {
    hide GoesTo, JumpDests, Step, Machine.Execute, InstructionAt, BytesToNat;
    OpSteps(st, env, JumpOp);
    SizeAt(st, env);
    InstructionPc(env.code, st.pc);
    OnlySpent(st, env, st.stack[0] in JumpDests(env.code), 8,
              Advance(JumpOp, InstructionAt(env.code, st.pc), st.stack[..1], st, env),
              Leaves(st, 1, []).(pc := st.stack[0]));
  }

  /** JUMPI goes to one if its condition is not zero. */
  lemma {:induction false} JumpIfSteps(st: State, env: Env)
    requires At(st, env, 0x57) && |st.stack| >= 2
    ensures var (dest, cond) := (st.stack[0], st.stack[1]);
            GoesTo(st, env, cond != 0 ==> dest in JumpDests(env.code), 10,
                   Leaves(st, 2, []).(pc := if cond != 0 then dest else st.pc + 1))
  {
    hide GoesTo, JumpDests, Step, Machine.Execute, InstructionAt, BytesToNat;
    OpSteps(st, env, JumpIOp);
    SizeAt(st, env);
    InstructionPc(env.code, st.pc);
    OnlySpent(st, env, st.stack[1] != 0 ==> st.stack[0] in JumpDests(env.code), 10,
              Advance(JumpIOp, InstructionAt(env.code, st.pc), st.stack[..2], st, env),
              Leaves(st, 2, []).(pc := if st.stack[1] != 0 then st.stack[0] else st.pc + 1));
  }

  /** A halt, for which gas has to suffice. */
  predicate HaltsWith(st: State, env: Env, n: nat, cost: nat, halt: Halt) {
    Step(st, env) ==
    if |st.stack| < n || |st.stack| - n > 1024 then Fault
    else if st.spent + cost > env.gas then OutOfGas
    else Halted(halt)
  }

  lemma {:induction false} OpHalts(st: State, env: Env, o: Op)
    requires st.pc < |env.code| && Classify(env.code[st.pc]) == Some(o) && Need(o) <= |st.stack|
    requires Halting(o) && !o.InvalidOp?
    ensures HaltsWith(st, env, Need(o), Cost(o, env.code[st.pc], st.stack[..Need(o)], st, env),
                      HaltOf(o, st.stack[..Need(o)], st))
  {
    hide Classify, Guard, Cost, Need, HaltOf, InstructionAt;
    InstructionPc(env.code, st.pc);
    HaltNeedsNothing(o, st.stack[..Need(o)], env);
  }

  lemma {:induction false} HaltNeedsNothing(o: Op, args: seq<Word>, env: Env)
    requires Halting(o) && |args| == Need(o)
    ensures Pushes(o) == 0 && Guard(o, args, env)
  {
  }

  /** STOP returns nothing, INVALID fails, and running off the end of the code is stopping. */
  lemma {:induction false} StopSteps(st: State, env: Env)
    ensures At(st, env, 0x00) ==> HaltsWith(st, env, 0, 0, Returned(st.world, []))
    ensures At(st, env, 0xFE) ==> Step(st, env) == Halted(Failed)
    ensures st.pc >= |env.code| ==> Step(st, env) == Halted(Returned(st.world, []))
  {
    hide InstructionAt, BytesToNat, HaltsWith;
    if At(st, env, 0x00) {
      OpHalts(st, env, StopOp);
    } else if st.pc < |env.code| {
      InstructionPc(env.code, st.pc);
    }
  }

  /** RETURN returns its window of memory. */
  lemma {:induction false} ReturnSteps(st: State, env: Env)
    requires At(st, env, 0xF3) && |st.stack| >= 2
    ensures HaltsWith(st, env, 2, Grows(st.aw, Touch(st.aw, st.stack[0], st.stack[1])),
                      Returned(st.world, ReadPadded(st.mem, st.stack[0], st.stack[1])))
  {
    hide Touch, ReadPadded, Step, HaltsWith;
    OpHalts(st, env, ReturnOp);
  }

  /** REVERT takes back the account map. */
  lemma {:induction false} RevertSteps(st: State, env: Env)
    requires At(st, env, 0xFD) && |st.stack| >= 2
    ensures HaltsWith(st, env, 2, Grows(st.aw, Touch(st.aw, st.stack[0], st.stack[1])), Reverted)
  {
    hide Touch, ReadPadded, Step, HaltsWith;
    OpHalts(st, env, RevertOp);
  }

  // ----- everything else faults -----

  /** Opcodes of one operand. */
  lemma {:induction false} NoOperand(st: State, env: Env, op: Byte)
    requires At(st, env, op) && |st.stack| < 1
    requires op in {0x15, 0x19, 0x31, 0x35, 0x3B, 0x3F, 0x40, 0x50, 0x51, 0x54, 0x56, 0x5C}
    ensures Step(st, env) == Fault
  {
    hide Step;
    OpFaults(st, env, Classify(op).value);
  }

  /** Opcodes of two operands: arithmetic, and the others. */
  lemma {:induction false} TooFewWords(st: State, env: Env, op: Byte)
    requires At(st, env, op) && |st.stack| < 2
    requires op in {0x01, 0x02, 0x03, 0x04, 0x05, 0x06, 0x0A, 0x0B, 0x10, 0x11, 0x12, 0x13, 0x14, 0x16, 0x17, 0x18,
                    0x1A, 0x1B, 0x1C, 0x1D}
    ensures Step(st, env) == Fault
  {
    hide Step, StackShape, Classify;
    BinaryIs(op);
    OpFaults(st, env, Binary(op));
  }

  lemma {:induction false} TooFewOperands(st: State, env: Env, op: Byte)
    requires At(st, env, op) && |st.stack| < 2 && op in {0x20, 0x52, 0x53, 0x55, 0x57, 0x5D, 0xF3, 0xFD}
    ensures Step(st, env) == Fault
  {
    hide Step;
    OpFaults(st, env, Classify(op).value);
  }

  /** Opcodes of three operands. */
  lemma {:induction false} TooFewForThree(st: State, env: Env, op: Byte)
    requires At(st, env, op) && |st.stack| < 3 && op in {0x08, 0x09, 0x37, 0x39, 0x3E, 0x5E}
    ensures Step(st, env) == Fault
  {
    hide Step;
    OpFaults(st, env, Classify(op).value);
  }

  /** DUPn needs n words, SWAPn n + 1, LOGn n + 2. */
  lemma {:induction false} TooFewCounted(st: State, env: Env, n: nat)
    requires n <= 16
    requires (At(st, env, 0x7F + n) && 1 <= n && |st.stack| < n)
          || (At(st, env, 0x8F + n) && 1 <= n && |st.stack| < n + 1)
          || (n <= 4 && At(st, env, 0xA0 + n) && |st.stack| < n + 2)
    ensures Step(st, env) == Fault
  {
    hide Step;
    OpFaults(st, env, Classify(env.code[st.pc]).value);
  }

  /** The opcodes of the lemmas above are all the machine knows. */
  lemma {:induction false} OtherOpcodesFault(st: State, env: Env, op: Byte)
    requires At(st, env, op)
    requires op !in {0x00, 0x01, 0x02, 0x03, 0x04, 0x05, 0x06, 0x08, 0x09, 0x0A, 0x0B, 0x10, 0x11, 0x12, 0x13, 0x14,
                     0x15, 0x16, 0x17, 0x18, 0x19, 0x1A, 0x1B, 0x1C, 0x1D, 0x20, 0x30, 0x31, 0x33, 0x34, 0x35, 0x36,
                     0x37, 0x38, 0x39, 0x3B, 0x3D, 0x3E, 0x3F, 0x40, 0x42, 0x43, 0x44, 0x45, 0x46, 0x48, 0x50, 0x51,
                     0x52, 0x53, 0x54, 0x55, 0x56, 0x57, 0x5A, 0x5B, 0x5C, 0x5D, 0x5E, 0xF3, 0xFD, 0xFE}
    requires !(0x5F <= op <= 0x9F) && !(0xA0 <= op <= 0xA4)
    ensures Step(st, env) == Fault
  {
    hide Machine.Execute, InstructionAt;
    InstructionPc(env.code, st.pc);
    NotClassified(op);
  }

  lemma {:induction false} NotClassified(op: Byte)
    requires op !in {0x00, 0x01, 0x02, 0x03, 0x04, 0x05, 0x06, 0x08, 0x09, 0x0A, 0x0B, 0x10, 0x11, 0x12, 0x13, 0x14,
                     0x15, 0x16, 0x17, 0x18, 0x19, 0x1A, 0x1B, 0x1C, 0x1D, 0x20, 0x30, 0x31, 0x33, 0x34, 0x35, 0x36,
                     0x37, 0x38, 0x39, 0x3B, 0x3D, 0x3E, 0x3F, 0x40, 0x42, 0x43, 0x44, 0x45, 0x46, 0x48, 0x50, 0x51,
                     0x52, 0x53, 0x54, 0x55, 0x56, 0x57, 0x5A, 0x5B, 0x5C, 0x5D, 0x5E, 0xF3, 0xFD, 0xFE}
    requires !(0x5F <= op <= 0x9F) && !(0xA0 <= op <= 0xA4)
    ensures Classify(op).None?
  {
  }
}
