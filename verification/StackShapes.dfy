/** The stack effect of every supported opcode, and the stack depths a block needs and reaches. */
module StackShapes {
  import opened Options
  import opened Words
  import opened Bytecode

  /** Depth an opcode needs, words it pops, words it pushes. */
  datatype Shape = Shape(need: nat, pops: nat, pushes: nat)

  /** Words taken from the environment: addresses, sizes and block data. */
  predicate IsEnvironment(op: Byte) {
    op == 0x30 || op == 0x33 || op == 0x34 || op == 0x36 || op == 0x38 || op == 0x3D || 0x42 <= op <= 0x46 || op == 0x48
  }

  /** Arithmetic, comparison and bit operations of two words. */
  predicate IsBinary(op: Byte) {
    0x01 <= op <= 0x06 || op == 0x0A || op == 0x0B || 0x10 <= op <= 0x14 || 0x16 <= op <= 0x18 || 0x1A <= op <= 0x1D
  }

  function StackShape(op: Byte): Option<Shape> {
    if op == 0x00 || op == 0x5B || op == 0xFE then Some(Shape(0, 0, 0))
    else if 0x5F <= op <= 0x7F || IsEnvironment(op) || op == 0x5A then Some(Shape(0, 0, 1))
    else if 0x80 <= op <= 0x8F then Some(Shape(op - 0x7F, 0, 1))
    else if 0x90 <= op <= 0x9F then Some(Shape(op - 0x8F + 1, 0, 0))
    else if op == 0x15 || op == 0x19 || op == 0x31 || op == 0x35 || op == 0x3B || op == 0x3F || op == 0x40
         || op == 0x51 || op == 0x54 || op == 0x5C then Some(Shape(1, 1, 1))
    else if op == 0x50 || op == 0x56 then Some(Shape(1, 1, 0))
    else if IsBinary(op) || op == 0x20 then Some(Shape(2, 2, 1))
    else if op == 0x08 || op == 0x09 then Some(Shape(3, 3, 1))
    else if op == 0x52 || op == 0x53 || op == 0x55 || op == 0x57 || op == 0x5D || op == 0xA0 || op == 0xF3 || op == 0xFD
    then Some(Shape(2, 2, 0))
    else if op == 0x37 || op == 0x39 || op == 0x3E || op == 0x5E then Some(Shape(3, 3, 0))
    else if 0xA1 <= op <= 0xA4 then Some(Shape(op - 0x9E, op - 0x9E, 0))
    else None
  }

  predicate IsSupported(ins: Instruction) {
    ins.complete && StackShape(ins.opcode).Some?
  }

  predicate AllSupported(block: seq<Instruction>) {
    forall i :: 0 <= i < |block| ==> StackShape(block[i].opcode).Some?
  }

  /** Change of stack height over a block. */
  function Delta(block: seq<Instruction>): int
    requires AllSupported(block)
  {
    if block == [] then 0
    else
      var s := StackShape(block[|block| - 1].opcode).value;
      Delta(block[..|block| - 1]) + s.pushes - s.pops
  }

  /** Started at depth d, every instruction of the block finds the depth it needs. */
  ghost predicate NoUnderflow(block: seq<Instruction>, d: int)
    requires AllSupported(block)
  {
    forall i :: 0 <= i < |block| ==> StackShape(block[i].opcode).value.need <= d + Delta(block[..i])
  }

  /** The loop that computes the depth: the result is the least depth without underflow. */
  method RequiredInputDepth(block: seq<Instruction>) returns (required: nat)
    requires AllSupported(block)
    ensures required == RequiredDepth(block)
    ensures forall d: nat :: NoUnderflow(block, d) <==> required <= d
  {
    var height := 0;
    required := 0;
    for n := 0 to |block|
      invariant height == Delta(block[..n])
      invariant required == RequiredDepth(block[..n])
    {
      var shape := StackShape(block[n].opcode).value;
      assert block[..n + 1][..n] == block[..n];
      required := if shape.need - height > required then shape.need - height else required;
      height := height + shape.pushes - shape.pops;
    }
    assert block[..|block|] == block;
    forall d: nat ensures NoUnderflow(block, d) <==> required <= d {
      RequiredDepthIsLeast(block, d);
    }
  }

  function RequiredDepth(block: seq<Instruction>): nat
    requires AllSupported(block)
  {
    if block == [] then 0
    else
      var front := block[..|block| - 1];
      var here := StackShape(block[|block| - 1].opcode).value.need - Delta(front);
      if here > RequiredDepth(front) then here else RequiredDepth(front)
  }

  /** The required depth is exact: enough at every instruction, and no smaller depth is. */
  lemma {:induction false} RequiredDepthIsLeast(block: seq<Instruction>, d: nat)
    requires AllSupported(block)
    ensures NoUnderflow(block, d) <==> RequiredDepth(block) <= d
  {
    hide StackShape, NoUnderflow, Delta;
    if block == [] {
      NothingUnderflows(d);
    } else {
      RequiredDepthIsLeast(block[..|block| - 1], d);
      LastUnderflows(block, d);
    }
  }

  lemma {:induction false} NothingUnderflows(d: nat)
    ensures NoUnderflow([], d)
  {
  }

  /** No underflow: none before the last instruction, and none there. */
  lemma {:induction false} LastUnderflows(block: seq<Instruction>, d: nat)
    requires block != [] && AllSupported(block)
    ensures AllSupported(block[..|block| - 1])
    ensures NoUnderflow(block, d)
            <==> NoUnderflow(block[..|block| - 1], d)
                 && StackShape(block[|block| - 1].opcode).value.need <= d + Delta(block[..|block| - 1])
  {
    hide StackShape, Delta;
    var n := |block| - 1;
    var front := block[..n];
    forall i | 0 <= i < n ensures front[i] == block[i] && front[..i] == block[..i] {
    }
    if NoUnderflow(block, d) {
      forall i | 0 <= i < n ensures StackShape(front[i].opcode).value.need <= d + Delta(front[..i]) {
        assert StackShape(block[i].opcode).value.need <= d + Delta(block[..i]);
      }
    }
  }

  /** The greatest height above the untouched rest of the stack, the entry included. */
  function MaxPrefix(block: seq<Instruction>, depth: nat): int
    requires AllSupported(block)
  {
    if block == [] then depth
    else
      var before := MaxPrefix(block[..|block| - 1], depth);
      var here := depth + Delta(block);
      if here > before then here else before
  }

  /** Every height along a block, from h on, is at most 1024. */
  predicate HeightsFit(block: seq<Instruction>, h: nat)
    requires AllSupported(block)
  {
    forall i :: 0 <= i <= |block| ==> h + Delta(block[..i]) <= 1024
  }

  /** Exactly the rests of at most 1024 - MaxPrefix words keep every stack of the block within 1024. */
  lemma {:induction false} MaxPrefixIsExact(block: seq<Instruction>, depth: nat, rest: nat)
    requires AllSupported(block)
    ensures rest + MaxPrefix(block, depth) <= 1024 <==> HeightsFit(block, rest + depth)
  {
    hide StackShape, HeightsFit;
    if block == [] {
      NoHeights(rest + depth);
    } else {
      MaxPrefixIsExact(block[..|block| - 1], depth, rest);
      HeightsSplit(block, rest + depth);
    }
  }

  lemma {:induction false} NoHeights(h: nat)
    ensures HeightsFit([], h) <==> h <= 1024
  {
    var none: seq<Instruction> := [];
    assert none[..0] == none;
  }

  /** The heights along a block: those before its last instruction, and the one at its end. */
  lemma {:induction false} HeightsSplit(block: seq<Instruction>, h: nat)
    requires block != [] && AllSupported(block)
    ensures AllSupported(block[..|block| - 1])
    ensures HeightsFit(block, h) <==> HeightsFit(block[..|block| - 1], h) && h + Delta(block) <= 1024
  {
    hide StackShape, Delta;
    var front := block[..|block| - 1];
    assert block[..|block|] == block;
    forall i | 0 <= i < |block| ensures front[..i] == block[..i] {
    }
    if HeightsFit(block, h) {
      forall i | 0 <= i <= |front| ensures h + Delta(front[..i]) <= 1024 {
        assert h + Delta(block[..i]) <= 1024;
      }
    }
  }
}
