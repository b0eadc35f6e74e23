/**
 Bytecode as an instruction stream: the linear disassembler, and the jump destinations found by the
 separate scan that the EVM's own definition of jump validity uses (Ethereum Yellow Paper, 9.4.3).
 */
module Bytecode {
  import opened Options
  import opened Words

  datatype Instruction = Instruction(pc: nat, opcode: Byte, width: nat, argument: Option<nat>, complete: bool)
  {
    function Size(): nat {
      width + 1
    }
  }

  const JUMPDEST: Byte := 0x5B

  predicate IsTerminator(op: Byte) {
    op == 0x00 || op == 0x56 || op == 0x57 || op == 0xF3 || op == 0xFD || op == 0xFE || op == 0xFF
  }

  /** Bytes of immediate data after the opcode. */
  function PushWidth(op: Byte): nat {
    if 0x60 <= op <= 0x7F then op - 0x5F else 0
  }

  /** The immediate data of a push at `pc`, as far as the code goes. */
  function PushData(code: seq<Byte>, pc: nat): seq<Byte>
    requires pc < |code|
  {
    var end := pc + 1 + PushWidth(code[pc]);
    code[pc + 1..if end <= |code| then end else |code|]
  }

  function InstructionAt(code: seq<Byte>, pc: nat): Instruction
    requires pc < |code|
  {
    var op := code[pc];
    var width := PushWidth(op);
    var data := PushData(code, pc);
    Instruction(pc, op, width,
                if width > 0 then Some(BytesToNat(data + Zeros(width - |data|))) else None,
                |data| == width)
  }

  /** The instructions from `pc` on. */
  function Stream(code: seq<Byte>, pc: nat): seq<Instruction>
    decreases |code| - pc
  {
    if pc >= |code| then []
    else [InstructionAt(code, pc)] + Stream(code, pc + 1 + PushWidth(code[pc]))
  }

  lemma {:induction false} StreamStep(code: seq<Byte>, pc: nat)
    ensures pc >= |code| ==> Stream(code, pc) == []
    ensures pc < |code| ==> Stream(code, pc) == [InstructionAt(code, pc)] + Stream(code, pc + 1 + PushWidth(code[pc]))
  {
    hide InstructionAt, PushWidth;
  }

  method Disassemble(code: seq<Byte>) returns (out: seq<Instruction>)
    ensures out == Stream(code, 0)
  {
    hide BytesToNat, PushWidth, Stream;
    out := [];
    var pc := 0;
    while pc < |code|
      invariant out + Stream(code, pc) == Stream(code, 0)
      decreases |code| - pc
    {
      var op := code[pc];
      var width := if 0x60 <= op <= 0x7F then op - 0x5F else 0;
      var end := if pc + 1 + width <= |code| then pc + 1 + width else |code|;
      var data := code[pc + 1..end];
      var complete := |data| == width;
      if !complete {
        data := data + Zeros(width - |data|);
      }
      WidthOf(op);
      var ins := Instruction(pc, op, width, if width > 0 then Some(BytesToNat(data)) else None, complete);
      assert data == PushData(code, pc) + Zeros(width - |PushData(code, pc)|);
      assert ins == InstructionAt(code, pc);
      StreamStep(code, pc);
      out := out + [ins];
      pc := pc + 1 + width;
    }
    StreamStep(code, pc);
  }

  /** Jump destinations from `pc` on: JUMPDEST bytes that are not push data. */
  function JumpDestsFrom(code: seq<Byte>, pc: nat): seq<nat>
    decreases |code| - pc
  {
    if pc >= |code| then []
    else
      (if code[pc] == JUMPDEST then [pc] else []) + JumpDestsFrom(code, pc + 1 + PushWidth(code[pc]))
  }

  function JumpDests(code: seq<Byte>): seq<nat> {
    JumpDestsFrom(code, 0)
  }

  method ScanJumpDests(code: seq<Byte>) returns (out: seq<nat>)
    ensures out == JumpDests(code)
  {
    hide JumpDests, PushWidth;
    JumpDestsStart(code);
    out := [];
    var pc := 0;
    while pc < |code|
      invariant out + JumpDestsFrom(code, pc) == JumpDests(code)
      decreases |code| - pc
    {
      var op := code[pc];
      ghost var next := pc + 1 + PushWidth(op);
      assert JumpDestsFrom(code, pc) == (if op == JUMPDEST then [pc] else []) + JumpDestsFrom(code, next);
      WidthOf(op);
      if op == JUMPDEST {
        out := out + [pc];
      }
      if 0x60 <= op <= 0x7F {
        pc := pc + (op - 0x5F);
      }
      pc := pc + 1;
    }
  }

  lemma {:induction false} JumpDestsStart(code: seq<Byte>)
    ensures JumpDests(code) == JumpDestsFrom(code, 0)
  {
  }

  lemma {:induction false} WidthOf(op: Byte)
    ensures PushWidth(op) == if 0x60 <= op <= 0x7F then op - 0x5F else 0
  {
  }

  // ----- the two scans agree, and the stream tiles the code -----

  predicate IsJumpDest(ins: seq<Instruction>, pc: nat) {
    exists i :: 0 <= i < |ins| && ins[i].pc == pc && ins[i].opcode == JUMPDEST
  }

  lemma {:induction false} InstructionPc(code: seq<Byte>, pc: nat)
    ensures pc < |code| ==> InstructionAt(code, pc).pc == pc && InstructionAt(code, pc).opcode == code[pc]
  {
  }

  lemma {:induction false} IsJumpDestCons(first: Instruction, rest: seq<Instruction>, pc: nat)
    ensures IsJumpDest([first] + rest, pc) <==> (first.pc == pc && first.opcode == JUMPDEST) || IsJumpDest(rest, pc)
  {
    var all := [first] + rest;
    assert all[0] == first && forall i :: 0 <= i < |rest| ==> all[i + 1] == rest[i];
  }

  /** Where the instruction at `pc`, if any, is one of a jump scan's destinations. */
  lemma {:induction false} JumpDestsAreInstructions(code: seq<Byte>, from: nat, pc: nat)
    ensures pc in JumpDestsFrom(code, from) <==> IsJumpDest(Stream(code, from), pc)
    decreases |code| - from
  {
    hide PushWidth, InstructionAt, IsJumpDest, Stream;
    StreamStep(code, from);
    if from < |code| {
      var next := from + 1 + PushWidth(code[from]);
      InstructionPc(code, from);
      JumpDestsAreInstructions(code, next, pc);
      IsJumpDestCons(InstructionAt(code, from), Stream(code, next), pc);
    } else {
      NoJumpDest(pc);
    }
  }

  lemma {:induction false} NoJumpDest(pc: nat)
    ensures !IsJumpDest([], pc)
  {
  }

  /** Consecutive instructions tile the code, each decoded from its own bytes. */
  ghost predicate Tiles(code: seq<Byte>, from: nat, ins: seq<Instruction>) {
    forall i :: 0 <= i < |ins| ==>
      && from <= ins[i].pc < |code|
      && ins[i] == InstructionAt(code, ins[i].pc)
      && ins[i].pc == (if i == 0 then from else ins[i - 1].pc + ins[i - 1].Size())
  }

  lemma {:induction false} StreamTiles(code: seq<Byte>, from: nat)
    ensures Tiles(code, from, Stream(code, from))
    ensures forall i, j :: 0 <= i < j < |Stream(code, from)| ==> Stream(code, from)[i].pc < Stream(code, from)[j].pc
    decreases |code| - from
  {
    if from < |code| {
      var next := from + 1 + PushWidth(code[from]);
      StreamTiles(code, next);
      var rest := Stream(code, next);
      var all := Stream(code, from);
      assert all == [InstructionAt(code, from)] + rest;
      forall i | 0 < i < |all| ensures all[i] == rest[i - 1] {}
    }
  }

  // ----- full return-data copies -----

  predicate ZeroPush(ins: Instruction) {
    ins.opcode == 0x5F || (0x60 <= ins.opcode <= 0x7F && ins.argument == Some(0))
  }

  /** RETURNDATASIZE, a zero, a zero or a copy of it, RETURNDATACOPY. */
  predicate MatchFullCopy(run: seq<Instruction>, start: int) {
    && 0 <= start && start + 4 <= |run|
    && run[start].opcode == 0x3D && run[start + 3].opcode == 0x3E
    && ZeroPush(run[start + 1]) && (ZeroPush(run[start + 2]) || run[start + 2].opcode == 0x80)
  }
}
