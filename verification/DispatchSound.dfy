/**
 Soundness of the dispatcher analysis: every concrete execution of a call in the analysed class visits
 the pieces the analysis lists, taking the branches it lists.
 */
module DispatchSound {
  import opened Options
  import opened Arith
  import opened Words
  import opened WordArith
  import opened Bytecode
  import opened StackShapes
  import opened Machine
  import opened Symbolic
  import opened Dispatcher

  /** The first four bytes of the calldata, as a number; missing bytes are zero. */
  function SelectorWord(env: Env): Word {
    CallDataWord(env.calldata, 0) / SELECTOR_UNIT
  }

  /** Which facts about the call the class really promises. */
  datatype Claims = Claims(value: bool, size: bool, selector: bool)

  ghost predicate ClaimsHold(claims: Claims, a: AEnv, table: set<nat>, env: Env) {
    && (claims.value ==> (a.valueZero <==> env.callValue == 0))
    && (claims.size ==> |env.calldata| < WORD_MODULUS && (a.big <==> 4 <= |env.calldata|))
    && (claims.selector ==>
          if a.selector.Some? then SelectorWord(env) == a.selector.value else SelectorWord(env) !in table)
  }

  /** The concrete words an abstract value stands for. */
  predicate Means(v: AVal, w: Word, a: AEnv, env: Env) {
    match v
    case Num(n) => w == n
    case CvNz => !a.valueZero && w == env.callValue
    case Big => a.big && w == Wrap(|env.calldata|)
    case Small => !a.big && w == Wrap(|env.calldata|)
    case Cdw => w == CallDataWord(env.calldata, 0)
    case NoMatch => a.selector.None? && w == SelectorWord(env)
    case Unk => true
    case Pivot => true
  }

  predicate MeansAll(vs: seq<AVal>, ws: seq<Word>, a: AEnv, env: Env) {
    |vs| == |ws| && forall i :: 0 <= i < |vs| ==> Means(vs[i], ws[i], a, env)
  }

  // ----- when an answer of the analysis is right -----

  /** The two comparisons of the size answered wrongly for a size of exactly 4. */
  predicate StrictlyAboveFour(op: Byte, x: AVal, y: AVal) {
    (op == 0x11 && x == Big && y == Num(4)) || (op == 0x10 && x == Num(4) && y == Big)
  }

  /** What a comparison's answer relies on. */
  predicate CompareOk(op: Byte, x: AVal, y: AVal, claims: Claims, table: set<nat>) {
    && (x.Big? || x.Small? || y.Big? || y.Small? ==> claims.size)
    && !StrictlyAboveFour(op, x, y)
    && (op == 0x14 && x.NoMatch? && y.Num? ==> claims.selector && (y.n in table || y.n > SELECTOR_MASK))
    && (op == 0x14 && y.NoMatch? && x.Num? ==> claims.selector && (x.n in table || x.n > SELECTOR_MASK))
  }

  lemma {:induction false} CompareSound(op: Byte, x: AVal, y: AVal, wx: Word, wy: Word, v: AVal, a: AEnv,
          claims: Claims, table: set<nat>,
                     env: Env)
    requires op == 0x14 || op == 0x10 || op == 0x11
    requires Compare(op, x, y) == Some(v) && CompareOk(op, x, y, claims, table)
    requires Means(x, wx, a, env) && Means(y, wy, a, env) && ClaimsHold(claims, a, table, env)
    ensures Means(v, BinaryWord(op, wx, wy), a, env)
  {
    hide SelectorWord, CallDataWord, Pow2;
    SelectorBound(env);
    assert BinaryWord(op, wx, wy) == CompareNumbers(op, wx, wy);
  }

  lemma {:induction false} SelectorBound(env: Env)
    ensures SelectorWord(env) <= SELECTOR_MASK
  {
    QuotientLess(CallDataWord(env.calldata, 0), SELECTOR_UNIT, SELECTOR_MASK + 1);
  }

  lemma {:induction false} SelectorSizes()
    ensures Pow2(SELECTOR_BITS) == SELECTOR_MASK + 1
    ensures Pow2(SELECTOR_SHIFT) == SELECTOR_UNIT
  {
    WordSizes();
    assert Pow2(8) == 0x100;
    Pow2Square(8, 0x100);
    Pow2Square(16, 0x1_0000);
    Pow2Add(SELECTOR_SHIFT, SELECTOR_BITS);
    var p: nat := Pow2(SELECTOR_SHIFT);
    assert p * 0x1_0000_0000 == SELECTOR_UNIT * 0x1_0000_0000;
  }

  /** A comparison of a concrete size with a constant, on either side. */
  function SizeCompared(op: Byte, size: nat, y: nat, swapped: bool): nat {
    if swapped then CompareNumbers(op, y, size) else CompareNumbers(op, size, y)
  }

  /** The answers for a size of at least 4 are right for every such size, except strictly above four. */
  lemma {:induction false} BigAnswersExact(op: Byte, y: nat, swapped: bool, v: nat)
    requires op == 0x14 || op == 0x10 || op == 0x11
    requires CompareSize(op, Big, Num(y), swapped) == Says(v)
    ensures (forall size: nat :: 4 <= size ==> SizeCompared(op, size, y, swapped) == v)
            <==> !(if swapped then StrictlyAboveFour(op, Num(y), Big) else StrictlyAboveFour(op, Big, Num(y)))
  {
    if swapped && StrictlyAboveFour(op, Num(y), Big) {
      assert SizeCompared(op, 4, y, swapped) != v;
    } else if !swapped && StrictlyAboveFour(op, Big, Num(y)) {
      assert SizeCompared(op, 4, y, swapped) != v;
    }
  }

  /** For a constant up to 4 the analysis gives up only where sizes of at least 4 compare differently. */
  lemma {:induction false} BigUndecidedRightly(op: Byte, y: nat, swapped: bool)
    requires (op == 0x14 || op == 0x10 || op == 0x11) && y <= 4 && !CompareSize(op, Big, Num(y), swapped).Says?
    ensures exists size: nat, size': nat :: 4 <= size && 4 <= size'
              && SizeCompared(op, size, y, swapped) != SizeCompared(op, size', y, swapped)
  {
    assert SizeCompared(op, 4, y, swapped) != SizeCompared(op, 5, y, swapped);
  }

  /** The comparison EQ of a call's selector with a constant, on either side. */
  function SelectorEquals(env: Env, c: Word, swapped: bool): Word {
    if swapped then BinaryWord(0x14, c, SelectorWord(env)) else BinaryWord(0x14, SelectorWord(env), c)
  }

  lemma {:induction false} EverySelector(c: nat, env: Env)
    requires c <= SELECTOR_MASK
    ensures SelectorWord(env.(calldata := WordBytes(c * SELECTOR_UNIT))) == c
  {
    hide WordBytes, BytesToNat, Wrap;
    var w := c * SELECTOR_UNIT;
    assert w < WORD_MODULUS;
    WordBytesToNat(w);
    var data := WordBytes(w);
    assert data[0..32] == data;
    WrapSmall(w);
  }

  lemma {:induction false} WrapSmall(n: nat)
    requires n < WORD_MODULUS
    ensures Wrap(n) == n
  {
  }

  /**
   The analysis answers that an unmatched selector differs from a constant.  This is what the comparison
   gives for every call whose selector is not in the table if and only if the constant is in the table or
   no selector at all.
   */
  lemma {:induction false} NoMatchAnswerExact(c: Word, swapped: bool, table: set<nat>, env: Env)
    ensures var answer := if swapped then Compare(0x14, Num(c), NoMatch) else Compare(0x14, NoMatch, Num(c));
            answer.Some?
            && ((forall data :: SelectorWord(env.(calldata := data)) !in table ==>
                   answer.value == Num(SelectorEquals(env.(calldata := data), c, swapped)))
                <==> c in table || c > SELECTOR_MASK)
  {
    hide SelectorWord;
    forall data ensures SelectorEquals(env.(calldata := data), c, swapped)
                        == if SelectorWord(env.(calldata := data)) == c then 1 else 0
    {
    }
    forall data ensures SelectorWord(env.(calldata := data)) <= SELECTOR_MASK {
      SelectorBound(env.(calldata := data));
    }
    if c !in table && c <= SELECTOR_MASK {
      EverySelector(c, env);
      assert SelectorWord(env.(calldata := WordBytes(c * SELECTOR_UNIT))) !in table;
    }
  }

  // ----- the selector word -----

  lemma {:induction false} MaskKeeps(x: nat, k: nat)
    requires x < Pow2(k)
    ensures AndBits(x, Pow2(k) - 1) == x && AndBits(Pow2(k) - 1, x) == x
    decreases k
  {
    if k > 0 {
      var m := Pow2(k) - 1;
      assert m == 2 * (Pow2(k - 1) - 1) + 1;
      assert m / 2 == Pow2(k - 1) - 1 && m % 2 == 1;
      MaskKeeps(x / 2, k - 1);
    }
  }

  lemma {:induction false} AndBitsBound(x: nat, y: nat)
    ensures AndBits(x, y) <= x
    decreases x
  {
    if x != 0 && y != 0 {
      AndBitsBound(x / 2, y / 2);
    }
  }

  lemma {:induction false} AndSound(x: AVal, y: AVal, wx: Word, wy: Word, a: AEnv, env: Env)
    requires Means(x, wx, a, env) && Means(y, wy, a, env)
    requires a.selector.Some? ==> a.selector.value <= SELECTOR_MASK
    ensures Means(And(x, y, a), BinaryWord(0x16, wx, wy), a, env)
  {
    hide SelectorWord, CallDataWord, Pow2, AndBits;
    SelectorBound(env);
    SelectorSizes();
    AndBitsBound(wx, wy);
    if wx <= SELECTOR_MASK {
      MaskKeeps(wx, SELECTOR_BITS);
    }
    if wy <= SELECTOR_MASK {
      MaskKeeps(wy, SELECTOR_BITS);
    }
  }

  /** Shifting right by 224 and dividing by 2^224 both give the selector. */
  lemma {:induction false} SelectorTaken(env: Env)
    ensures BinaryWord(0x1C, SELECTOR_SHIFT, CallDataWord(env.calldata, 0)) == SelectorWord(env)
    ensures BinaryWord(0x04, CallDataWord(env.calldata, 0), SELECTOR_UNIT) == SelectorWord(env)
  {
    hide CallDataWord, Pow2;
    SelectorSizes();
    SelectorBound(env);
  }

  // ----- one instruction -----

  /** What an operation's abstract result or branch relies on, besides what comparisons do. */
  predicate OpOk(o: Op, args: seq<AVal>, a: AEnv, claims: Claims, table: set<nat>)
    requires |args| == Need(o)
  {
    && (o == EnvOp(0x34) && a.valueZero ==> claims.value)
    && ((o == Binary(0x1C) || o == Binary(0x04)) && a.selector.Some? ==> claims.selector)
    && (o == Binary(0x16) && a.selector.Some? ==> a.selector.value <= SELECTOR_MASK)
    && (o == Unary(0x15) && args[0].CvNz? ==> claims.value)
    && (o.JumpIOp? && args[1].CvNz? ==> claims.value)
    && (o == Binary(0x14) || o == Binary(0x10) || o == Binary(0x11) ==> CompareOk(o.op, args[0], args[1], claims, table))
  }

  lemma {:induction false} ProduceSound(o: Op, ins: Instruction, args: seq<AVal>, ws: seq<Word>, st: State, v: AVal,
          a: AEnv, claims: Claims,
                     table: set<nat>, env: Env)
    requires |args| == Need(o) && HasResult(o) && Produce(o, ins, args, a) == Some(v) && OpOk(o, args, a, claims, table)
    requires MeansAll(args, ws, a, env) && ClaimsHold(claims, a, table, env)
    requires ins.argument.GetOr(0) < WORD_MODULUS
    ensures Means(v, Result(o, Immediate(ins), ws, st, env), a, env)
  {
    hide BinaryWord, SelectorWord, CallDataWord, Compare, CompareOk, And, LoadWord, ReadPadded, Lookup, ClaimsHold;
    if o == EnvOp(0x34) || o == EnvOp(0x36) || o.PushOp? || o == Unary(0x15) || o.CallDataLoadOp? {
      ValueClaim(claims, a, table, env);
    } else if o == Binary(0x1C) || o == Binary(0x04) {
      SelectorTaken(env);
      SelectorClaim(claims, a, table, env);
    } else if o == Binary(0x16) {
      AndSound(args[0], args[1], ws[0], ws[1], a, env);
    } else if o == Binary(0x14) || o == Binary(0x10) || o == Binary(0x11) {
      CompareSound(o.op, args[0], args[1], ws[0], ws[1], v, a, claims, table, env);
    }
  }

  lemma {:induction false} ValueClaim(claims: Claims, a: AEnv, table: set<nat>, env: Env)
    requires ClaimsHold(claims, a, table, env)
    ensures claims.value ==> (a.valueZero <==> env.callValue == 0)
  {
  }

  lemma {:induction false} SelectorClaim(claims: Claims, a: AEnv, table: set<nat>, env: Env)
    requires ClaimsHold(claims, a, table, env)
    ensures claims.selector && a.selector.Some? ==> SelectorWord(env) == a.selector.value
  {
  }

  /** The instruction as it is in the running code: no immutable site changed it. */
  predicate Loaded(ins: Instruction, env: Env) {
    ins.pc < |env.code| && ins == InstructionAt(env.code, ins.pc)
  }

  lemma {:induction false} ArgumentFits(ins: Instruction, env: Env)
    requires Loaded(ins, env)
    ensures ins.argument.GetOr(0) < WORD_MODULUS
  {
    var width := PushWidth(env.code[ins.pc]);
    var data := PushData(env.code, ins.pc);
    var bytes := data + Zeros(width - |data|);
    BytesToNatBound(bytes);
    PowerFits(width);
  }

  lemma {:induction false} PowerFits(n: nat)
    requires n <= WORD_BYTES
    ensures Pow256(n) <= WORD_MODULUS
  {
    WordSizes();
    Pow256IsPow2(n);
    Pow256IsPow2(WORD_BYTES);
    Pow2Monotone(8 * n, 8 * WORD_BYTES);
  }

  /** What a concrete step does beside an abstract one, when it neither faults nor runs out of gas. */
  predicate StepFollows(step: AStep, ins: Instruction, st: State, r: Outcome, a: AEnv, env: Env) {
    match step
    case Stuck => true
    case Continue(stack) => r.Next? && r.state.pc == ins.pc + ins.Size() && MeansAll(stack, r.state.stack, a, env)
    case Jump(dest, stack) => r.Next? && r.state.pc == dest && MeansAll(stack, r.state.stack, a, env)
    case Decided(taken, dest, stack) =>
      && |st.stack| >= 2 && (taken <==> st.stack[1] != 0)
      && r.Next? && r.state.pc == (if taken then dest else ins.pc + ins.Size()) && MeansAll(stack, r.state.stack, a,
              env)
    case Split(dest, stack) =>
      && |st.stack| >= 2
      && r.Next? && r.state.pc == (if st.stack[1] != 0 then dest else ins.pc + ins.Size())
      && MeansAll(stack, r.state.stack, a, env)
    case Stop => r.Halted?
  }

  predicate InstructionOk(ins: Instruction, stack: seq<AVal>, a: AEnv, claims: Claims, table: set<nat>, env: Env) {
    && Loaded(ins, env)
    && (Classify(ins.opcode).Some? && Need(Classify(ins.opcode).value) <= |stack| ==>
          OpOk(Classify(ins.opcode).value, stack[..Need(Classify(ins.opcode).value)], a, claims, table))
  }

  lemma {:induction false} StepIsExecute(ins: Instruction, o: Op, st: State, env: Env)
    requires Loaded(ins, env) && st.pc == ins.pc && Classify(ins.opcode) == Some(o)
    ensures Need(o) <= |st.stack| ==> Step(st, env) == Machine.Execute(o, ins, st, env)
    ensures |st.stack| < Need(o) ==> Step(st, env) == Fault
  {
    hide Classify, Machine.Execute, InstructionAt;
  }

  lemma {:induction false} StepSound(ins: Instruction, stack: seq<AVal>, st: State, a: AEnv, claims: Claims,
          table: set<nat>, env: Env)
    requires InstructionOk(ins, stack, a, claims, table, env) && st.pc == ins.pc
    requires MeansAll(stack, st.stack, a, env) && ClaimsHold(claims, a, table, env)
    requires !Step(st, env).OutOfGas? && !Step(st, env).Fault?
    ensures StepFollows(StepAbstract(ins, stack, a), ins, st, Step(st, env), a, env)
  {
    hide Classify, Step, Produce, Result, Means, OpOk, ClaimsHold, Loaded, Cost, MemAfter, AwAfter, WorldAfter, Guard,
         HaltOf;
    var c := Classify(ins.opcode);
    if c.Some? {
      var o := c.value;
      StepIsExecute(ins, o, st, env);
      if !Halting(o) && Need(o) <= |stack| {
        var n := Need(o);
        ArgumentFits(ins, env);
        if o.JumpOp? || o.JumpIOp? {
          JumpSound(o, ins, stack, st, a, claims, table, env);
        } else {
          ContinueSound(o, ins, stack, st, a, claims, table, env);
        }
      }
    }
  }

  lemma {:induction false} ContinueSound(o: Op, ins: Instruction, stack: seq<AVal>, st: State, a: AEnv,
          claims: Claims, table: set<nat>, env: Env)
    requires !o.JumpOp? && !o.JumpIOp? && !Halting(o) && Classify(ins.opcode) == Some(o) && Need(o) <= |stack|
    requires OpOk(o, stack[..Need(o)], a, claims, table) && ClaimsHold(claims, a, table, env)
    requires MeansAll(stack, st.stack, a, env) && st.pc == ins.pc && ins.argument.GetOr(0) < WORD_MODULUS
    requires Step(st, env) == Machine.Execute(o, ins, st, env) && !Step(st, env).OutOfGas? && !Step(st, env).Fault?
    ensures StepFollows(StepAbstract(ins, stack, a), ins, st, Step(st, env), a, env)
  {
    hide Classify, Step, Produce, Result, MeansAll, OpOk, ClaimsHold, Machine.Execute, Need, Pushes, Immediate, Swapped;
    var n := Need(o);
    SameHeight(stack, st.stack, a, env);
    var (args, ws) := (stack[..n], st.stack[..n]);
    SplitMeans(stack, st.stack, n, a, env);
    PlainStep(o, ins, st, env);
    SwapNeeds(o);
    if o.DupOp? {
      DupSound(o, ins, stack, st, a, env);
    } else if o.SwapOp? {
      SwapMeans(args, ws, a, env);
      JoinMeans(Swapped(args), Swapped(ws), stack[n..], st.stack[n..], a, env);
    } else if HasResult(o) && Produce(o, ins, args, a).Some? {
      var v := Produce(o, ins, args, a).value;
      ProduceSound(o, ins, args, ws, st, v, a, claims, table, env);
      PushMeans(v, Result(o, Immediate(ins), ws, st, env), stack[n..], st.stack[n..], a, env);
    } else if !HasResult(o) {
      assert [] + st.stack[n..] == st.stack[n..];
    }
  }

  /** Duplicating keeps the meaning. */
  lemma {:induction false} DupSound(o: Op, ins: Instruction, stack: seq<AVal>, st: State, a: AEnv, env: Env)
    requires o.DupOp? && Need(o) == o.n <= |stack| == |st.stack| && MeansAll(stack, st.stack, a, env)
    ensures MeansAll([if o.n > 0 then stack[..o.n][o.n - 1] else Num(0)] + stack,
                     Out(o, Immediate(ins), st.stack[..o.n], st, env) + st.stack[o.n..], a, env)
  {
    hide MeansAll;
    var n := o.n;
    var ws := st.stack[..n];
    assert ws + st.stack[n..] == st.stack;
    var w := if n > 0 then ws[n - 1] else 0;
    assert Out(o, Immediate(ins), ws, st, env) + st.stack[n..] == [w] + st.stack;
    if n > 0 {
      MeansAt(stack, st.stack, n - 1, a, env);
    }
    PushMeans(if n > 0 then stack[..n][n - 1] else Num(0), w, stack, st.stack, a, env);
  }

  lemma {:induction false} SameHeight(vs: seq<AVal>, ws: seq<Word>, a: AEnv, env: Env)
    requires MeansAll(vs, ws, a, env)
    ensures |vs| == |ws|
  {
  }

  lemma {:induction false} MeansAt(vs: seq<AVal>, ws: seq<Word>, i: nat, a: AEnv, env: Env)
    requires MeansAll(vs, ws, a, env) && i < |vs|
    ensures i < |ws| && Means(vs[i], ws[i], a, env)
  {
    hide Means;
  }

  lemma {:induction false} SplitMeans(vs: seq<AVal>, ws: seq<Word>, n: nat, a: AEnv, env: Env)
    requires MeansAll(vs, ws, a, env) && n <= |vs|
    ensures n <= |ws| && MeansAll(vs[..n], ws[..n], a, env) && MeansAll(vs[n..], ws[n..], a, env)
  {
    hide Means;
  }

  lemma {:induction false} JoinMeans(vs: seq<AVal>, ws: seq<Word>, vs': seq<AVal>, ws': seq<Word>, a: AEnv, env: Env)
    requires MeansAll(vs, ws, a, env) && MeansAll(vs', ws', a, env)
    ensures MeansAll(vs + vs', ws + ws', a, env)
  {
    hide Means;
  }

  lemma {:induction false} PushMeans(v: AVal, w: Word, vs: seq<AVal>, ws: seq<Word>, a: AEnv, env: Env)
    requires Means(v, w, a, env) && MeansAll(vs, ws, a, env)
    ensures MeansAll([v] + vs, [w] + ws, a, env)
  {
    hide Means;
  }

  lemma {:induction false} SwapMeans(vs: seq<AVal>, ws: seq<Word>, a: AEnv, env: Env)
    requires MeansAll(vs, ws, a, env) && vs != []
    ensures ws != [] && MeansAll(Swapped(vs), Swapped(ws), a, env)
  {
    hide Means;
  }

  lemma {:induction false} PlainStep(o: Op, ins: Instruction, st: State, env: Env)
    requires Need(o) <= |st.stack| && !o.JumpOp? && !o.JumpIOp? && !Halting(o)
    requires !Machine.Execute(o, ins, st, env).OutOfGas? && !Machine.Execute(o, ins, st, env).Fault?
    ensures var r := Machine.Execute(o, ins, st, env);
            && r.Next? && r.state.pc == st.pc + ins.Size()
            && r.state.stack == Out(o, Immediate(ins), st.stack[..Need(o)], st, env) + st.stack[Need(o)..]
  {
    hide Need, Cost, MemAfter, AwAfter, WorldAfter, Guard, Out, Immediate;
  }

  lemma {:induction false} SwapNeeds(o: Op)
    ensures o.SwapOp? ==> Need(o) > 0
    ensures o.DupOp? ==> Need(o) == o.n
  {
  }

  lemma {:induction false} JumpSound(o: Op, ins: Instruction, stack: seq<AVal>, st: State, a: AEnv, claims: Claims,
          table: set<nat>, env: Env)
    requires (o.JumpOp? || o.JumpIOp?) && Classify(ins.opcode) == Some(o) && Need(o) <= |stack|
    requires OpOk(o, stack[..Need(o)], a, claims, table) && ClaimsHold(claims, a, table, env)
    requires MeansAll(stack, st.stack, a, env) && st.pc == ins.pc
    requires Step(st, env) == Machine.Execute(o, ins, st, env) && !Step(st, env).OutOfGas? && !Step(st, env).Fault?
    ensures StepFollows(StepAbstract(ins, stack, a), ins, st, Step(st, env), a, env)
  {
    hide Classify, Step, Produce, Result, Cost, SelectorWord, CallDataWord, JumpDests, MeansAll, ClaimsHold,
         Machine.Execute, OpOk;
    var n := Need(o);
    SameHeight(stack, st.stack, a, env);
    SplitMeans(stack, st.stack, n, a, env);
    JumpMeans(o, stack[..n], st.stack[..n], a, claims, table, env);
    assert stack[..n][0] == stack[0] && st.stack[..n][0] == st.stack[0];
    JumpStep(o, ins, st, env);
  }

  /** The destination and the condition of a jump. */
  lemma {:induction false} JumpMeans(o: Op, args: seq<AVal>, ws: seq<Word>, a: AEnv, claims: Claims, table: set<nat>,
          env: Env)
    requires (o.JumpOp? || o.JumpIOp?) && |args| == Need(o) && OpOk(o, args, a, claims, table)
    requires MeansAll(args, ws, a, env) && ClaimsHold(claims, a, table, env)
    ensures |ws| == Need(o) && (args[0].Num? ==> ws[0] == args[0].n)
    ensures o.JumpIOp? && args[1].Num? ==> ws[1] == args[1].n
    ensures o.JumpIOp? && args[1].CvNz? ==> ws[1] != 0
  {
    hide SelectorWord, CallDataWord;
  }

  /** A concrete jump that neither faults nor runs out of gas. */
  lemma {:induction false} JumpStep(o: Op, ins: Instruction, st: State, env: Env)
    requires (o.JumpOp? || o.JumpIOp?) && Need(o) <= |st.stack|
    requires !Machine.Execute(o, ins, st, env).OutOfGas? && !Machine.Execute(o, ins, st, env).Fault?
    ensures var r := Machine.Execute(o, ins, st, env);
            && r.Next? && r.state.stack == st.stack[Need(o)..]
            && r.state.pc == if o.JumpOp? || st.stack[1] != 0 then st.stack[0] else st.pc + ins.Size()
  {
    hide Cost, Guard, MemAfter, AwAfter, WorldAfter, Out, Immediate;
    var args := st.stack[..Need(o)];
    NoOut(o, Immediate(ins), args, st, env);
    assert [] + st.stack[Need(o)..] == st.stack[Need(o)..];
    assert args[0] == st.stack[0] && (o.JumpIOp? ==> args[1] == st.stack[1]);
  }

  lemma {:induction false} NoOut(o: Op, immediate: Word, args: seq<Word>, st: State, env: Env)
    requires (o.JumpOp? || o.JumpIOp?) && |args| == Need(o)
    ensures Out(o, immediate, args, st, env) == []
  {
  }

  // ----- one piece -----

  /** Consecutive instructions with a terminator at most at the end: what block splitting produces. */
  ghost predicate IsPiece(piece: seq<Instruction>) {
    && piece != []
    && (forall i :: 0 < i < |piece| ==> piece[i].pc == piece[i - 1].pc + piece[i - 1].Size())
    && (forall i :: 0 <= i < |piece| - 1 ==> !IsTerminator(piece[i].opcode))
  }

  ghost predicate PieceTable(pieces: Pieces) {
    IndexedByPc(pieces) && forall pc :: pc in pieces ==> IsPiece(pieces[pc])
  }

  /** Every instruction the abstract execution of the piece reaches is loaded and its answers are right. */
  predicate PieceOk(piece: seq<Instruction>, k: nat, stack: seq<AVal>, a: AEnv, claims: Claims, table: set<nat>,
          env: Env)
    requires k <= |piece|
    decreases |piece| - k
  {
    k < |piece| ==>
      && InstructionOk(piece[k], stack, a, claims, table, env)
      && (StepAbstract(piece[k], stack, a).Continue? ==>
            PieceOk(piece, k + 1, StepAbstract(piece[k], stack, a).stack, a, claims, table, env))
  }

  /** The branch a concrete execution takes at the end of a piece. */
  function ConcreteBranch(piece: seq<Instruction>, k: nat, st: State, env: Env): Branch
    requires k < |piece|
    decreases |piece| - k
  {
    if k == |piece| - 1 then
      if piece[k].opcode == 0x57 && |st.stack| >= 2 then Side(st.stack[1] != 0) else NoBranch
    else
      var r := Step(st, env);
      if r.Next? then ConcreteBranch(piece, k + 1, r.state, env) else NoBranch
  }

  /** Ended by a fault or by running out of gas. */
  predicate CutShort(r: Outcome) {
    r.OutOfGas? || r.Fault?
  }

  /** A concrete execution of the rest of a piece does what its abstract execution says. */
  predicate PieceFollows(x: Execution, piece: seq<Instruction>, k: nat, st: State, r: Outcome, a: AEnv, env: Env)
    requires k < |piece|
  {
    x.Executed? ==>
      var branch := ConcreteBranch(piece, k, st, env);
      if x.fork.Some? then
        && r.Next? && !branch.NoBranch? && MeansAll(x.stack, r.state.stack, a, env)
        && x.fork.value.piece == piece
        && r.state.pc == (if branch.Taken? then x.fork.value.dest else EndPc(piece))
      else
        && branch == x.branch
        && (if x.next.None? then r.Halted?
            else r.Next? && r.state.pc == x.next.value && MeansAll(x.stack, r.state.stack, a, env))
  }

  lemma {:induction false} PieceSound(piece: seq<Instruction>, k: nat, stack: seq<AVal>, st: State, a: AEnv,
          claims: Claims,
                                      table: set<nat>, env: Env)
    requires IsPiece(piece) && k < |piece| && PieceOk(piece, k, stack, a, claims, table, env)
    requires st.pc == piece[k].pc && MeansAll(stack, st.stack, a, env) && ClaimsHold(claims, a, table, env)
    requires !CutShort(Run(st, |piece| - k, env))
    ensures PieceFollows(ExecuteFrom(piece, k, stack, a), piece, k, st, Run(st, |piece| - k, env), a, env)
    decreases |piece| - k
  {
    hide StepAbstract, Step, MeansAll, ClaimsHold, InstructionOk, IsTerminator, Run, ConcreteBranch, ExecuteFrom;
    var ins := piece[k];
    var r := Step(st, env);
    RunOne(st, |piece| - k, env);
    StepSound(ins, stack, st, a, claims, table, env);
    ExecuteUnfolds(piece, k, stack, a);
    BranchUnfolds(piece, k, st, env);
    var step := StepAbstract(ins, stack, a);
    KindOfStep(ins, stack, a);
    match step {
      case Stuck =>
      case Continue(next) =>
        if k + 1 < |piece| {
          PieceSound(piece, k + 1, next, r.state, a, claims, table, env);
        } else {
          ExecuteEnds(piece, next, a);
        }
      case Jump(_, _) =>
      case Decided(_, _, _) =>
      case Split(_, _) =>
      case Stop =>
    }
  }

  lemma {:induction false} RunOne(st: State, n: nat, env: Env)
    requires n > 0
    ensures Run(st, n, env) == if Step(st, env).Next? then Run(Step(st, env).state, n - 1, env) else Step(st, env)
    ensures forall s :: Run(s, 0, env) == Next(s)
  {
    hide Step;
  }

  lemma {:induction false} ExecuteUnfolds(piece: seq<Instruction>, k: nat, stack: seq<AVal>, a: AEnv)
    requires piece != [] && k < |piece|
    ensures ExecuteFrom(piece, k, stack, a) ==
      match StepAbstract(piece[k], stack, a)
      case Stuck => PathError
      case Continue(stack') => ExecuteFrom(piece, k + 1, stack', a)
      case Jump(dest, stack') => Executed(NoBranch, Some(dest), stack', None)
      case Decided(taken, dest, stack') =>
        Executed(Side(taken), Some(if taken then dest else EndPc(piece)), stack', None)
      case Split(dest, stack') => Executed(NoBranch, None, stack', Some(Fork(piece, dest, piece[k].pc)))
      case Stop => Executed(NoBranch, None, stack, None)
  {
    hide StepAbstract;
  }

  lemma {:induction false} ExecuteEnds(piece: seq<Instruction>, stack: seq<AVal>, a: AEnv)
    requires piece != []
    ensures ExecuteFrom(piece, |piece|, stack, a) == Executed(NoBranch, Some(EndPc(piece)), stack, None)
  {
  }

  lemma {:induction false} BranchUnfolds(piece: seq<Instruction>, k: nat, st: State, env: Env)
    requires k < |piece|
    ensures k == |piece| - 1 ==>
      ConcreteBranch(piece, k, st, env)
      == if piece[k].opcode == 0x57 && |st.stack| >= 2 then Side(st.stack[1] != 0) else NoBranch
    ensures k < |piece| - 1 && Step(st, env).Next? ==>
      ConcreteBranch(piece, k, st, env) == ConcreteBranch(piece, k + 1, Step(st, env).state, env)
  {
    hide Step;
  }

  /** Only a terminator jumps or stops, and only JUMPI decides or splits. */
  lemma {:induction false} KindOfStep(ins: Instruction, stack: seq<AVal>, a: AEnv)
    ensures var step := StepAbstract(ins, stack, a);
            && (step.Continue? ==> ins.opcode != 0x57)
            && (step.Jump? || step.Stop? ==> ins.opcode != 0x57 && IsTerminator(ins.opcode))
            && (step.Decided? || step.Split? ==> ins.opcode == 0x57 && IsTerminator(ins.opcode))
  {
    hide Produce, Classify, StepAbstract, IsTerminator, Halting;
    OperationOfStep(ins, stack, a);
    OpcodeOfOperation(ins.opcode);
  }

  lemma {:induction false} OperationOfStep(ins: Instruction, stack: seq<AVal>, a: AEnv)
    ensures var (step, c) := (StepAbstract(ins, stack, a), Classify(ins.opcode));
            && (!step.Stuck? ==> c.Some?)
            && (step.Continue? ==> !c.value.JumpIOp?)
            && (step.Jump? || step.Stop? ==> !c.value.JumpIOp? && (c.value.JumpOp? || Halting(c.value)))
            && (step.Decided? || step.Split? ==> c.value.JumpIOp?)
  {
    hide Produce, Classify, Need, HasResult, Swapped;
  }

  lemma {:induction false} OpcodeOfOperation(op: Byte)
    ensures Classify(op).Some? ==>
              && (Classify(op).value.JumpIOp? <==> op == 0x57)
              && (Classify(op).value.JumpOp? || Classify(op).value.JumpIOp? || Halting(Classify(op).value) ==> IsTerminator(op))
  {
  }

  // ----- paths -----

  /** Every piece the analysis visits is loaded and answered rightly. */
  predicate PathOk(pieces: Pieces, a: AEnv, claims: Claims, table: set<nat>, env: Env, pc: nat, stack: seq<AVal>,
                   pending: Decisions, stop: Option<nat>, fuel: nat)
    requires IndexedByPc(pieces)
    decreases fuel, pieces
  {
    fuel != 0 && stop != Some(pc) && pc in pieces ==>
      var piece := pieces[pc];
      var x := ExecuteFrom(piece, 0, stack, a);
      && PieceOk(piece, 0, stack, a, claims, table, env)
      && (x.Executed? ==>
            if x.fork.Some? then
              pending != [] && pending[0].0 == x.fork.value.jumpiPc ==>
                PathOk(pieces, a, claims, table, env, if pending[0].1 then x.fork.value.dest else EndPc(piece), x.stack,
                       pending[1..], stop, fuel - 1)
            else x.next.Some? ==> PathOk(pieces, a, claims, table, env, x.next.value, x.stack, pending, stop, fuel - 1))
  }

  /**
   The concrete execution visits the pieces of the steps in this order and takes their branches, as long
   as it is not cut short; only the last piece may halt.
   */
  predicate Takes(steps: seq<PathStep>, st: State, env: Env)
    decreases |steps|
  {
    steps != [] ==>
      var piece := steps[0].piece;
      && piece != [] && st.pc == piece[0].pc
      && var r := Run(st, |piece|, env);
         || CutShort(r)
         || (steps[0].branch == ConcreteBranch(piece, 0, st, env)
             && if r.Next? then Takes(steps[1..], r.state, env) else |steps| == 1)
  }

  /** Where the concrete execution is after the steps. */
  function After(steps: seq<PathStep>, st: State, env: Env): Outcome
    decreases |steps|
  {
    if steps == [] then Next(st)
    else
      var r := Run(st, |steps[0].piece|, env);
      if r.Next? then After(steps[1..], r.state, env) else r
  }

  /** At an unresolved fork: the concrete execution enters its piece and takes one of its two sides. */
  predicate AtFork(fork: Fork, stack: seq<AVal>, st: State, a: AEnv, env: Env) {
    && fork.piece != [] && st.pc == fork.piece[0].pc
    && var r := Run(st, |fork.piece|, env);
       var branch := ConcreteBranch(fork.piece, 0, st, env);
       CutShort(r) || (r.Next? && !branch.NoBranch? && MeansAll(stack, r.state.stack, a, env)
                       && r.state.pc == (if branch.Taken? then fork.dest else EndPc(fork.piece)))
  }

  predicate PathFollows(p: Path, stop: Option<nat>, st: State, a: AEnv, env: Env) {
    match p
    case NoPath => true
    case Finished(steps) =>
      && Takes(steps, st, env)
      && var r := After(steps, st, env);
         CutShort(r) || r.Halted? || (stop.Some? && r.Next? && r.state.pc == stop.value)
    case Forked(steps, fork, stack, _) =>
      && Takes(steps, st, env)
      && var r := After(steps, st, env);
         CutShort(r) || (r.Next? && AtFork(fork, stack, r.state, a, env))
  }

  /**
   Soundness of the path analysis without recorded decisions: every concrete execution of the class takes
   exactly the listed pieces and branches, and then halts, reaches the stop, or is at the listed fork.
   */
  lemma {:induction false} PathSound(pieces: Pieces, a: AEnv, claims: Claims, table: set<nat>, env: Env, pc: nat,
                                     stack: seq<AVal>, stop: Option<nat>, fuel: nat, st: State)
    requires PieceTable(pieces) && PathOk(pieces, a, claims, table, env, pc, stack, [], stop, fuel)
    requires ClaimsHold(claims, a, table, env) && st.pc == pc && MeansAll(stack, st.stack, a, env)
    ensures PathFollows(Follow(pieces, a, pc, stack, [], stop, fuel), stop, st, a, env)
    decreases fuel
  {
    hide ExecuteFrom, Run, MeansAll, ClaimsHold, PieceOk, IsPiece, ConcreteBranch, PathFollows, Takes, After;
    if fuel == 0 {
      NoPathFollows(stop, st, a, env);
    } else if stop == Some(pc) {
      StoppedFollows(stop, st, a, env);
    } else if pc !in pieces {
      NoPathFollows(stop, st, a, env);
    } else {
      var piece := pieces[pc];
      var x := ExecuteFrom(piece, 0, stack, a);
      var r := Run(st, |piece|, env);
      PieceIndexed(pieces, pc);
      if x.PathError? {
        NoPathFollows(stop, st, a, env);
      } else {
        if !CutShort(r) {
          PieceSound(piece, 0, stack, st, a, claims, table, env);
        }
        var rest := if x.fork.Some? then Forked([], x.fork.value, x.stack, []) else if x.next.None? then Finished([])
                    else Follow(pieces, a, x.next.value, x.stack, [], stop, fuel - 1);
        if x.fork.Some? {
          ForkFollows(x.fork.value, x.stack, piece, st, stop, a, env) by {
            ForkOfPiece(piece, 0, stack, a);
          }
        } else {
          if r.Next? && x.next.Some? {
            PathSound(pieces, a, claims, table, env, x.next.value, x.stack, stop, fuel - 1, r.state);
          }
          assert [PathStep(piece, x.branch)] + [] == [PathStep(piece, x.branch)];
          StepTaken(PathStep(piece, x.branch), rest, stop, st, a, env, x.next.None?);
        }
      }
    }
  }

  lemma {:induction false} NoPathFollows(stop: Option<nat>, st: State, a: AEnv, env: Env)
    ensures PathFollows(NoPath, stop, st, a, env)
  {
  }

  lemma {:induction false} StoppedFollows(stop: Option<nat>, st: State, a: AEnv, env: Env)
    requires stop == Some(st.pc)
    ensures PathFollows(Finished([]), stop, st, a, env)
  {
  }

  lemma {:induction false} PieceIndexed(pieces: Pieces, pc: nat)
    requires PieceTable(pieces) && pc in pieces
    ensures pieces[pc] != [] && pieces[pc][0].pc == pc && IsPiece(pieces[pc])
  {
    hide IsPiece;
  }

  lemma {:induction false} ForkOfPiece(piece: seq<Instruction>, k: nat, stack: seq<AVal>, a: AEnv)
    requires piece != [] && k <= |piece| && ExecuteFrom(piece, k, stack, a).Executed?
    ensures var x := ExecuteFrom(piece, k, stack, a); x.fork.Some? ==> x.fork.value.piece == piece
    decreases |piece| - k
  {
    hide StepAbstract;
    if k < |piece| && StepAbstract(piece[k], stack, a).Continue? {
      ForkOfPiece(piece, k + 1, StepAbstract(piece[k], stack, a).stack, a);
    }
  }

  lemma {:induction false} ForkFollows(fork: Fork, stack: seq<AVal>, piece: seq<Instruction>, st: State,
          stop: Option<nat>, a: AEnv, env: Env)
    requires fork.piece == piece != [] && st.pc == piece[0].pc
    requires var r := Run(st, |piece|, env);
             var branch := ConcreteBranch(piece, 0, st, env);
             CutShort(r) || (r.Next? && !branch.NoBranch? && MeansAll(stack, r.state.stack, a, env)
                             && r.state.pc == (if branch.Taken? then fork.dest else EndPc(piece)))
    ensures PathFollows(Forked([], fork, stack, []), stop, st, a, env)
  {
    hide Run, ConcreteBranch, MeansAll;
  }

  /** One more step in front of a followed path. */
  lemma {:induction false} StepTaken(first: PathStep, rest: Path, stop: Option<nat>, st: State, a: AEnv, env: Env,
          last: bool)
    requires first.piece != [] && st.pc == first.piece[0].pc
    requires var r := Run(st, |first.piece|, env);
             || CutShort(r)
             || (first.branch == ConcreteBranch(first.piece, 0, st, env)
                 && if last then r.Halted? && rest == Finished([])
                    else r.Next? && PathFollows(rest, stop, r.state, a, env))
    ensures PathFollows(rest.After([first]), stop, st, a, env)
  {
    hide Run, ConcreteBranch, AtFork;
    if !rest.NoPath? {
      assert ([first] + rest.steps)[0] == first && ([first] + rest.steps)[1..] == rest.steps;
    }
  }

  /** The analysis of a class of calls from their start, with its own bound on the path. */
  lemma {:induction false} DispatcherSound(pieces: Pieces, a: AEnv, claims: Claims, table: set<nat>, env: Env,
          stop: Option<nat>, st: State)
    requires PieceTable(pieces) && PathOk(pieces, a, claims, table, env, 0, [], [], stop, MAX_PATH)
    requires ClaimsHold(claims, a, table, env) && st.pc == 0 && st.stack == []
    ensures PathFollows(PathOf(pieces, a, stop), stop, st, a, env)
  {
    hide Follow, PathOk, PathFollows, ClaimsHold;
    PathSound(pieces, a, claims, table, env, 0, [], stop, MAX_PATH, st);
  }
}
