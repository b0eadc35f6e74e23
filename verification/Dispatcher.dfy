/**
 The dispatcher path analysis: an abstract interpreter that follows the compiled dispatcher for a class
 of calls, splits where an unmatched selector is compared with a pivot, and replays recorded decisions.
 */
module Dispatcher {
  import opened Options
  import opened Words
  import opened WordArith
  import opened Bytecode
  import opened StackShapes
  import opened Machine
  import opened Symbolic

  /** Abstract stack values; CvNz is a nonzero call value, Big and Small are calldata sizes at least and below 4. */
  datatype AVal = Num(n: nat) | CvNz | Big | Small | Cdw | Unk | NoMatch | Pivot

  /** A class of calls: call value zero or not, calldata size at least 4 or not, a selector or none of the table's. */
  datatype AEnv = AEnv(valueZero: bool, big: bool, selector: Option<nat>) {
    function CallValue(): AVal {
      if valueZero then Num(0) else CvNz
    }

    function CallDataSize(): AVal {
      if big then Big else Small
    }

    function Selector(): AVal {
      if selector.Some? then Num(selector.value) else NoMatch
    }
  }

  const SELECTOR_SHIFT: nat := 224
  const SELECTOR_UNIT: nat := 0x1_00000000_00000000_00000000_00000000_00000000_00000000_00000000
  const SELECTOR_BITS: nat := 32
  const SELECTOR_MASK: nat := 0xFFFF_FFFF

  // ----- comparisons -----

  datatype Answer = Says(value: nat) | Undecided | Elsewhere

  function CompareNumbers(op: Byte, a: nat, b: nat): nat {
    if op == 0x14 then Flag(a == b) else if op == 0x10 then Flag(a < b) else Flag(a > b)
  }

  /** The calldata size against a constant y; `swapped`: the size is the second operand. */
  function CompareSize(op: Byte, x: AVal, y: AVal, swapped: bool): Answer {
    if x == Big && y.Num? && y.n <= 4 then
      if op == 0x14 then (if y.n < 4 then Says(0) else Undecided)
      else if op == 0x10 then Says(Flag(swapped))
      else Says(Flag(!swapped))
    else if x == Small && y == Num(4) then
      if op == 0x10 then Says(Flag(!swapped))
      else if op == 0x11 then Says(Flag(swapped))
      else Says(0)
    else Elsewhere
  }

  predicate Opaque(v: AVal) {
    v.Cdw? || v.Unk? || v.CvNz?
  }

  /** None: the comparison cannot be decided.  Other symbolic operands end here too. */
  function Compare(op: Byte, a: AVal, b: AVal): Option<AVal> {
    if a.Num? && b.Num? then Some(Num(CompareNumbers(op, a.n, b.n)))
    else if Opaque(a) || Opaque(b) then None
    else
      var first := CompareSize(op, a, b, false);
      var answer := if first.Elsewhere? then CompareSize(op, b, a, true) else first;
      if answer.Says? then Some(Num(answer.value))
      else if answer.Undecided? then None
      else if a.NoMatch? || b.NoMatch? then
        if !(if a.NoMatch? then b else a).Num? then None
        else if op == 0x14 then Some(Num(0))
        else Some(Pivot)
      else None
  }

  // ----- one instruction -----

  function And(a: AVal, b: AVal, env: AEnv): AVal {
    var sel := env.Selector();
    if (a == sel && b == Num(SELECTOR_MASK)) || (b == sel && a == Num(SELECTOR_MASK)) then sel
    else if a.Num? && b.Num? then Num(AndBits(a.n, b.n))
    else Unk
  }

  /** The value an operation pushes; None where the analysis gives up. */
  function Produce(o: Op, ins: Instruction, args: seq<AVal>, env: AEnv): Option<AVal>
    requires |args| == Need(o)
  {
    if o.PushOp? then Some(Num(ins.argument.GetOr(0)))
    else if o == EnvOp(0x34) then Some(env.CallValue())
    else if o == EnvOp(0x36) then Some(env.CallDataSize())
    else if o.CallDataLoadOp? then Some(if args[0] == Num(0) then Cdw else Unk)
    else if o == Binary(0x1C) then Some(if args[0] == Num(SELECTOR_SHIFT) && args[1] == Cdw then env.Selector() else Unk)
    else if o == Binary(0x04) then Some(if args[0] == Cdw && args[1] == Num(SELECTOR_UNIT) then env.Selector() else Unk)
    else if o == Binary(0x16) then Some(And(args[0], args[1], env))
    else if o == Unary(0x15) then
      Some(if args[0].Num? then Num(Flag(args[0].n == 0)) else if args[0].CvNz? then Num(0) else Unk)
    else if o == Binary(0x14) || o == Binary(0x10) || o == Binary(0x11) then Compare(o.op, args[0], args[1])
    else Some(Unk)
  }

  datatype AStep =
    | Stuck
    | Continue(stack: seq<AVal>)
    | Jump(dest: nat, stack: seq<AVal>)
    | Decided(taken: bool, dest: nat, stack: seq<AVal>)
    | Split(dest: nat, stack: seq<AVal>)
    | Stop

  function StepAbstract(ins: Instruction, stack: seq<AVal>, env: AEnv): AStep {
    var c := Classify(ins.opcode);
    if c.None? then Stuck
    else if Halting(c.value) then Stop
    else if |stack| < Need(c.value) then Stuck
    else
      var o := c.value;
      var args := stack[..Need(o)];
      var rest := stack[Need(o)..];
      if o.JumpOp? then (if args[0].Num? then Jump(args[0].n, rest) else Stuck)
      else if o.JumpIOp? then
        if !args[0].Num? then Stuck
        else if args[1].Pivot? then Split(args[0].n, rest)
        else if args[1].CvNz? then Decided(true, args[0].n, rest)
        else if args[1].Num? then Decided(args[1].n != 0, args[0].n, rest)
        else Stuck
      else if o.DupOp? then Continue([if o.n > 0 then args[o.n - 1] else Num(0)] + stack)
      else if o.SwapOp? then Continue(Swapped(args) + rest)
      else if HasResult(o) then
        var v := Produce(o, ins, args, env);
        if v.None? then Stuck else Continue([v.value] + rest)
      else Continue(rest)
  }

  // ----- one piece -----

  datatype Fork = Fork(piece: seq<Instruction>, dest: nat, jumpiPc: nat)

  /** The branch taken, the pc after it (None at a terminator), the stack and, at a pivot, the fork. */
  datatype Execution = PathError | Executed(branch: Branch, next: Option<nat>, stack: seq<AVal>, fork: Option<Fork>)

  function EndPc(piece: seq<Instruction>): nat
    requires piece != []
  {
    piece[|piece| - 1].pc + piece[|piece| - 1].Size()
  }

  function ExecuteFrom(piece: seq<Instruction>, k: nat, stack: seq<AVal>, env: AEnv): Execution
    requires piece != [] && k <= |piece|
    decreases |piece| - k
  {
    if k == |piece| then Executed(NoBranch, Some(EndPc(piece)), stack, None)
    else
      match StepAbstract(piece[k], stack, env)
      case Stuck => PathError
      case Continue(stack') => ExecuteFrom(piece, k + 1, stack', env)
      case Jump(dest, stack') => Executed(NoBranch, Some(dest), stack', None)
      case Decided(taken, dest, stack') =>
        Executed(if taken then Taken else FallThrough, Some(if taken then dest else EndPc(piece)), stack', None)
      case Split(dest, stack') => Executed(NoBranch, None, stack', Some(Fork(piece, dest, piece[k].pc)))
      case Stop => Executed(NoBranch, None, stack, None)
  }

  method Execute(piece: seq<Instruction>, stack: seq<AVal>, env: AEnv) returns (r: Execution)
    requires piece != []
    ensures r == ExecuteFrom(piece, 0, stack, env)
  {
    hide StepAbstract;
    var stack' := stack;
    for k := 0 to |piece|
      invariant ExecuteFrom(piece, 0, stack, env) == ExecuteFrom(piece, k, stack', env)
    {
      match StepAbstract(piece[k], stack', env) {
        case Stuck => return PathError;
        case Continue(next) => stack' := next;
        case Jump(dest, next) => return Executed(NoBranch, Some(dest), next, None);
        case Decided(taken, dest, next) =>
          if taken {
            return Executed(Taken, Some(dest), next, None);
          } else {
            return Executed(FallThrough, Some(EndPc(piece)), next, None);
          }
        case Split(dest, next) => return Executed(NoBranch, None, next, Some(Fork(piece, dest, piece[k].pc)));
        case Stop => return Executed(NoBranch, None, stack', None);
      }
    }
    return Executed(NoBranch, Some(EndPc(piece)), stack', None);
  }

  // ----- paths -----

  datatype PathStep = PathStep(piece: seq<Instruction>, branch: Branch)

  type Decisions = seq<(nat, bool)>

  /** Forked: an unresolved pivot after the steps, with the stack there and the decisions not used. */
  datatype Path =
    | NoPath
    | Finished(steps: seq<PathStep>)
    | Forked(steps: seq<PathStep>, fork: Fork, stack: seq<AVal>, unused: Decisions)
  {
    function After(before: seq<PathStep>): Path {
      match this
      case NoPath => NoPath
      case Finished(steps) => Finished(before + steps)
      case Forked(steps, fork, stack, unused) => Forked(before + steps, fork, stack, unused)
    }
  }

  type Pieces = map<nat, seq<Instruction>>

  predicate IndexedByPc(pieces: Pieces) {
    forall pc :: pc in pieces ==> pieces[pc] != [] && pieces[pc][0].pc == pc
  }

  function Side(taken: bool): Branch {
    if taken then Taken else FallThrough
  }

  /** The path from `pc`, at most `fuel` pieces long, ending at `stop`, at a terminator or at a fork. */
  function Follow(pieces: Pieces, env: AEnv, pc: nat, stack: seq<AVal>, pending: Decisions, stop: Option<nat>,
          fuel: nat): Path
    requires IndexedByPc(pieces)
    decreases fuel, pieces
  {
    if fuel == 0 then NoPath
    else if stop == Some(pc) then Finished([])
    else if pc !in pieces then NoPath
    else
      var piece := pieces[pc];
      var x := ExecuteFrom(piece, 0, stack, env);
      if x.PathError? then NoPath
      else if x.fork.Some? then
        if pending != [] && pending[0].0 == x.fork.value.jumpiPc then
          var taken := pending[0].1;
          Follow(pieces, env, if taken then x.fork.value.dest else EndPc(piece), x.stack, pending[1..], stop, fuel - 1)
            .After([PathStep(piece, Side(taken))])
        else Forked([], x.fork.value, x.stack, pending)
      else if x.next.None? then Finished([PathStep(piece, x.branch)])
      else Follow(pieces, env, x.next.value, x.stack, pending, stop, fuel - 1).After([PathStep(piece, x.branch)])
  }

  const MAX_PATH: nat := 200
  const MAX_REPLAY: nat := 300

  function PathOf(pieces: Pieces, env: AEnv, stop: Option<nat>): Path
    requires IndexedByPc(pieces)
  {
    Follow(pieces, env, 0, [], [], stop, MAX_PATH)
  }

  function ReplayOf(pieces: Pieces, env: AEnv, decisions: Decisions): Path
    requires IndexedByPc(pieces)
  {
    Follow(pieces, env, 0, [], decisions, None, MAX_REPLAY)
  }

  /** Steps from pc 0 until `stop`, a terminator or a fork. */
  method RunPath(pieces: Pieces, env: AEnv, stop: Option<nat>) returns (r: Path)
    requires IndexedByPc(pieces)
    ensures r == PathOf(pieces, env, stop)
  {
    hide ExecuteFrom;
    var steps: seq<PathStep> := [];
    var stack: seq<AVal> := [];
    var pc: nat := 0;
    var visited := 0;
    while true
      invariant visited <= MAX_PATH
      invariant PathOf(pieces, env, stop) == Follow(pieces, env, pc, stack, [], stop, MAX_PATH - visited).After(steps)
      decreases MAX_PATH - visited
    {
      visited := visited + 1;
      if visited > MAX_PATH {
        return NoPath;
      }
      if stop == Some(pc) {
        return Finished(steps);
      }
      if pc !in pieces {
        return NoPath;
      }
      var piece := pieces[pc];
      var x := Execute(piece, stack, env);
      if x.PathError? {
        return NoPath;
      }
      if x.fork.Some? {
        return Forked(steps, x.fork.value, x.stack, []);
      }
      ghost var rest := if x.next.None? then Finished([])
                        else Follow(pieces, env, x.next.value, x.stack, [], stop, MAX_PATH - visited);
      AfterAfter(rest, steps, [PathStep(piece, x.branch)]);
      steps := steps + [PathStep(piece, x.branch)];
      if x.next.None? {
        return Finished(steps);
      }
      pc := x.next.value;
      stack := x.stack;
    }
  }

  /** Like RunPath, resolving pivots with the recorded decisions. */
  method RunWithDecisions(pieces: Pieces, env: AEnv, decisions: Decisions) returns (r: Path)
    requires IndexedByPc(pieces)
    ensures r == ReplayOf(pieces, env, decisions)
  {
    hide ExecuteFrom;
    var steps: seq<PathStep> := [];
    var stack: seq<AVal> := [];
    var pc: nat := 0;
    var pending := decisions;
    for n := 0 to MAX_REPLAY
      invariant ReplayOf(pieces, env, decisions) == Follow(pieces, env, pc, stack, pending, None,
              MAX_REPLAY - n).After(steps)
    {
      if pc !in pieces {
        return NoPath;
      }
      var piece := pieces[pc];
      var x := Execute(piece, stack, env);
      if x.PathError? {
        return NoPath;
      }
      var branch, next := x.branch, x.next;
      if x.fork.Some? {
        if pending != [] && pending[0].0 == x.fork.value.jumpiPc {
          var taken := pending[0].1;
          pending := pending[1..];
          branch := Side(taken);
          next := Some(if taken then x.fork.value.dest else EndPc(piece));
        } else {
          return Forked(steps, x.fork.value, x.stack, pending);
        }
      }
      ghost var rest := if next.None? then Finished([])
                        else Follow(pieces, env, next.value, x.stack, pending, None, MAX_REPLAY - n - 1);
      AfterAfter(rest, steps, [PathStep(piece, branch)]);
      steps := steps + [PathStep(piece, branch)];
      if next.None? {
        return Finished(steps);
      }
      pc := next.value;
      stack := x.stack;
    }
    return NoPath;
  }

  lemma {:induction false} AfterAfter(p: Path, a: seq<PathStep>, b: seq<PathStep>)
    ensures p.After(b).After(a) == p.After(a + b)
  {
    if p.Finished? || p.Forked? {
      assert a + (b + p.steps) == a + b + p.steps;
    }
  }
}
