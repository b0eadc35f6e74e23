/**
 Cutting an instruction stream into basic blocks, into supported runs, and into runs of bounded length
 that never separate the instructions of a full return-data copy.
 */
module Blocks {
  import opened Options
  import opened Words
  import opened Bytecode
  import opened StackShapes

  function Flatten<T>(parts: seq<seq<T>>): seq<T> {
    if parts == [] then [] else parts[0] + Flatten(parts[1..])
  }

  lemma {:induction false} FlattenAppend<T>(parts: seq<seq<T>>, last: seq<T>)
    ensures Flatten(parts + [last]) == Flatten(parts) + last
  {
    if parts == [] {
      assert [last][1..] == [];
      assert parts + [last] == [last];
    } else {
      assert (parts + [last])[1..] == parts[1..] + [last];
      FlattenAppend(parts[1..], last);
    }
  }

  /** A block may be entered only at its start and left only at its end. */
  predicate IsBasicBlock(b: seq<Instruction>) {
    && b != []
    && (forall i :: 0 < i < |b| ==> b[i].opcode != JUMPDEST)
    && (forall i :: 0 <= i < |b| - 1 ==> !IsTerminator(b[i].opcode))
  }

  /** Blocks are as long as possible: each boundary is forced by a terminator or a JUMPDEST. */
  predicate ForcedBoundaries(parts: seq<seq<Instruction>>) {
    forall k :: 0 < k < |parts| && parts[k - 1] != [] && parts[k] != [] ==>
      IsTerminator(parts[k - 1][|parts[k - 1]| - 1].opcode) || parts[k][0].opcode == JUMPDEST
  }

  predicate IncreasingPcs(ins: seq<Instruction>) {
    forall i, j :: 0 <= i < j < |ins| ==> ins[i].pc < ins[j].pc
  }

  /** A block must start at instruction i, on account of the first n instructions. */
  predicate MustStart(ins: seq<Instruction>, n: nat, i: nat)
    requires i < |ins|
  {
    i == 0 || (i < n && ins[i].opcode == JUMPDEST) || (i <= n && IsTerminator(ins[i - 1].opcode))
  }

  /** STOP, JUMP, JUMPI, RETURN, REVERT, INVALID and SELFDESTRUCT. */
  predicate EndsBlock(op: Byte) {
    op in {0x00, 0x56, 0x57, 0xF3, 0xFD, 0xFE, 0xFF}
  }

  lemma {:induction false} TerminatorsEnd(op: Byte)
    ensures EndsBlock(op) <==> IsTerminator(op)
  {
  }

  /** The pcs at which a block must start. */
  method BlockStarts(ins: seq<Instruction>) returns (starts: set<nat>)
    requires ins != [] && IncreasingPcs(ins)
    ensures forall i :: 0 <= i < |ins| ==>
      (ins[i].pc in starts <==> i == 0 || ins[i].opcode == 0x5B || EndsBlock(ins[i - 1].opcode))
  {
    hide IsTerminator, EndsBlock;
    forall op: Byte ensures EndsBlock(op) <==> IsTerminator(op) { TerminatorsEnd(op); }
    starts := {ins[0].pc};
    for n := 0 to |ins|
      invariant forall i :: 0 <= i < |ins| ==> (ins[i].pc in starts <==> MustStart(ins, n, i))
    {
      ghost var before := starts;
      if ins[n].opcode == JUMPDEST {
        starts := starts + {ins[n].pc};
      }
      if IsTerminator(ins[n].opcode) && n + 1 < |ins| {
        starts := starts + {ins[n + 1].pc};
      }
      forall i | 0 <= i < |ins| ensures ins[i].pc in starts <==> MustStart(ins, n + 1, i) {
        assert ins[i].pc in before <==> MustStart(ins, n, i);
        assert ins[i].pc == ins[n].pc <==> i == n;
        assert n + 1 < |ins| ==> (ins[i].pc == ins[n + 1].pc <==> i == n + 1);
      }
    }
  }

  /** What the cutting loop has done: finished blocks, the block being built, the instructions read. */
  ghost predicate Cut(result: seq<seq<Instruction>>, current: seq<Instruction>, read: seq<Instruction>) {
    && Flatten(result) + current == read
    && (forall k :: 0 <= k < |result| ==> IsBasicBlock(result[k]))
    && ForcedBoundaries(result)
    && (current != [] ==> IsBasicBlock(current) && !IsTerminator(current[|current| - 1].opcode))
    && (result != [] ==>
          || IsTerminator(result[|result| - 1][|result[|result| - 1]| - 1].opcode)
          || (current != [] && current[0].opcode == JUMPDEST))
  }

  lemma {:induction false} AppendBoundary(parts: seq<seq<Instruction>>, b: seq<Instruction>)
    requires ForcedBoundaries(parts) && b != []
    requires parts != [] && parts[|parts| - 1] != [] ==>
               IsTerminator(parts[|parts| - 1][|parts[|parts| - 1]| - 1].opcode) || b[0].opcode == JUMPDEST
    ensures ForcedBoundaries(parts + [b])
  {
    hide IsTerminator;
  }

  lemma {:induction false} JumpDestIsNoTerminator()
    ensures !IsTerminator(JUMPDEST)
  {
  }

  lemma {:induction false} AppendToBlock(b: seq<Instruction>, ins: Instruction)
    requires b != [] ==> IsBasicBlock(b) && !IsTerminator(b[|b| - 1].opcode) && ins.opcode != JUMPDEST
    ensures IsBasicBlock(b + [ins])
  {
    hide IsTerminator;
  }

  lemma {:induction false} CloseBeforeJumpDest(result: seq<seq<Instruction>>, current: seq<Instruction>,
          read: seq<Instruction>, ins: Instruction)
    requires Cut(result, current, read) && current != [] && ins.opcode == JUMPDEST
    ensures Cut(result + [current], [ins], read + [ins])
  {
    hide IsTerminator, IsBasicBlock, ForcedBoundaries, Flatten;
    JumpDestIsNoTerminator();
    FlattenAppend(result, current);
    AppendBoundary(result, current);
    AppendToBlock([], ins);
    assert [] + [ins] == [ins];
  }

  lemma {:induction false} ExtendBlock(result: seq<seq<Instruction>>, current: seq<Instruction>,
          read: seq<Instruction>, ins: Instruction)
    requires Cut(result, current, read) && !IsTerminator(ins.opcode) && (current != [] ==> ins.opcode != JUMPDEST)
    ensures Cut(result, current + [ins], read + [ins])
  {
    assert Flatten(result) + (current + [ins]) == read + [ins];
  }

  lemma {:induction false} CloseAfterTerminator(result: seq<seq<Instruction>>, current: seq<Instruction>,
          read: seq<Instruction>, ins: Instruction)
    requires Cut(result, current, read) && IsTerminator(ins.opcode)
    ensures Cut(result + [current + [ins]], [], read + [ins])
  {
    hide IsTerminator, IsBasicBlock, ForcedBoundaries, Flatten;
    JumpDestIsNoTerminator();
    FlattenAppend(result, current + [ins]);
    assert Flatten(result) + (current + [ins]) == read + [ins];
    AppendToBlock(current, ins);
    AppendBoundary(result, current + [ins]);
  }

  /**
   Basic blocks: they concatenate back to the instructions, are entered only at the first and left only
   at the last instruction, and are as long as that allows.
   */
  method BasicBlocks(ins: seq<Instruction>) returns (result: seq<seq<Instruction>>)
    requires IncreasingPcs(ins)
    ensures Flatten(result) == ins
    ensures forall k :: 0 <= k < |result| ==> IsBasicBlock(result[k])
    ensures ForcedBoundaries(result)
  {
    hide Cut, IsBasicBlock, ForcedBoundaries, Flatten, IsTerminator, MustStart, EndsBlock;
    NothingCut();
    JumpDestIsNoTerminator();
    if ins == [] {
      FinishBlocks([], [], []);
      return [];
    }
    var starts := BlockStarts(ins);
    forall op: Byte ensures EndsBlock(op) <==> IsTerminator(op) { TerminatorsEnd(op); }
    result := [];
    var current: seq<Instruction> := [];
    for n := 0 to |ins|
      invariant Cut(result, current, ins[..n])
      invariant current == [] ==> n == 0 || IsTerminator(ins[n - 1].opcode)
      invariant current != [] ==> n > 0 && current[|current| - 1] == ins[n - 1]
    {
      ghost var before, building := result, current;
      assert ins[..n + 1] == ins[..n] + [ins[n]];
      BuildingIsOpen(result, current, ins[..n]);
      if current != [] && ins[n].pc in starts {
        CloseBeforeJumpDest(result, current, ins[..n], ins[n]);
        result := result + [current];
        current := [];
      }
      current := current + [ins[n]];
      assert [] + [ins[n]] == [ins[n]];
      if IsTerminator(ins[n].opcode) {
        CloseAfterTerminator(before, building, ins[..n], ins[n]);
        result := result + [current];
        current := [];
      } else if current == building + [ins[n]] {
        ExtendBlock(before, building, ins[..n], ins[n]);
      }
    }
    assert ins[..|ins|] == ins;
    FinishBlocks(result, current, ins);
    if current != [] {
      result := result + [current];
    }
  }

  lemma {:induction false} NothingCut()
    ensures Cut([], [], [])
  {
  }

  lemma {:induction false} BuildingIsOpen(result: seq<seq<Instruction>>, current: seq<Instruction>,
          read: seq<Instruction>)
    requires Cut(result, current, read)
    ensures current != [] ==> !IsTerminator(current[|current| - 1].opcode)
  {
  }

  lemma {:induction false} FinishBlocks(result: seq<seq<Instruction>>, current: seq<Instruction>,
          read: seq<Instruction>)
    requires Cut(result, current, read)
    ensures var final := if current != [] then result + [current] else result;
            && Flatten(final) == read && ForcedBoundaries(final)
            && forall k :: 0 <= k < |final| ==> IsBasicBlock(final[k])
  {
    hide IsTerminator, IsBasicBlock, ForcedBoundaries, Flatten;
    FlattenAppend(result, current);
    if current != [] {
      AppendBoundary(result, current);
    }
  }

  // ----- supported runs -----

  /** A run of supported instructions, or one unsupported instruction. */
  datatype Piece = Run(run: seq<Instruction>) | Boundary(ins: Instruction) {
    function Contents(): seq<Instruction> {
      if Run? then run else [ins]
    }

    predicate Valid() {
      if Run? then run != [] && forall i :: 0 <= i < |run| ==> IsSupported(run[i])
      else !IsSupported(ins)
    }
  }

  function Contents(pieces: seq<Piece>): seq<Instruction> {
    if pieces == [] then [] else pieces[0].Contents() + Contents(pieces[1..])
  }

  lemma {:induction false} ContentsAppend(a: seq<Piece>, b: seq<Piece>)
    ensures Contents(a + b) == Contents(a) + Contents(b)
  {
    if a == [] {
      assert a + b == b;
    } else {
      assert (a + b)[1..] == a[1..] + b;
      ContentsAppend(a[1..], b);
    }
  }

  /** A full copy of supported instructions starts at i. */
  predicate SupportedCopy(block: seq<Instruction>, i: int) {
    MatchFullCopy(block, i) && forall j :: i <= j < i + 4 ==> IsSupported(block[j])
  }

  /** Cutting before instruction p separates no full copy. */
  ghost predicate SafeCut(block: seq<Instruction>, p: int) {
    forall i :: SupportedCopy(block, i) ==> !(i < p < i + 4)
  }

  lemma {:induction false} UnsupportedCut(block: seq<Instruction>, p: int)
    requires 0 <= p <= |block|
    requires p == 0 || p == |block| || !IsSupported(block[p]) || !IsSupported(block[p - 1])
    ensures SafeCut(block, p)
  {
    hide IsSupported;
  }

  /** Two full copies never share an instruction. */
  lemma {:induction false} CopiesAreDisjoint(run: seq<Instruction>, i: int, j: int)
    requires MatchFullCopy(run, i) && MatchFullCopy(run, j) && i < j
    ensures i + 4 <= j
  {
  }

  /** Every cut between the pieces is safe, and pieces of a kind are as long as possible. */
  ghost predicate SafePieces(block: seq<Instruction>, pieces: seq<Piece>) {
    && (forall k :: 0 <= k < |pieces| ==> pieces[k].Valid())
    && (forall k :: 0 <= k <= |pieces| ==> SafeCut(block, |Contents(pieces[..k])|))
  }

  lemma {:induction false} AppendPiece(block: seq<Instruction>, pieces: seq<Piece>, p: Piece)
    requires SafePieces(block, pieces) && p.Valid()
    requires SafeCut(block, |Contents(pieces)| + |p.Contents()|)
    ensures SafePieces(block, pieces + [p]) && Contents(pieces + [p]) == Contents(pieces) + p.Contents()
  {
    hide SafeCut, IsSupported, Contents;
    ContentsAppend(pieces, [p]);
    SingleContents(p);
    forall k | 0 <= k <= |pieces| + 1 ensures SafeCut(block, |Contents((pieces + [p])[..k])|) {
      if k <= |pieces| {
        assert (pieces + [p])[..k] == pieces[..k];
      } else {
        assert (pieces + [p])[..k] == pieces + [p];
      }
    }
  }

  lemma {:induction false} SingleContents(p: Piece)
    ensures Contents([p]) == p.Contents()
  {
    assert [p][1..] == [];
    assert p.Contents() + [] == p.Contents();
  }

  lemma {:induction false} NoPieces(block: seq<Instruction>)
    ensures SafePieces(block, []) && Contents([]) == [] && SafeCut(block, 0)
  {
    UnsupportedCut(block, 0);
    var none: seq<Piece> := [];
    assert none[..0] == none;
  }

  /** No two runs follow each other. */
  predicate RunsApart(pieces: seq<Piece>) {
    forall k :: 0 < k < |pieces| ==> !(pieces[k - 1].Run? && pieces[k].Run?)
  }

  lemma {:induction false} ApartAppend(pieces: seq<Piece>, p: Piece)
    requires RunsApart(pieces) && (pieces != [] && p.Run? ==> pieces[|pieces| - 1].Boundary?)
    ensures RunsApart(pieces + [p])
  {
  }

  /** Maximal supported runs and the unsupported instructions between them. */
  method SupportedSegments(block: seq<Instruction>) returns (result: seq<Piece>)
    ensures Contents(result) == block && SafePieces(block, result) && RunsApart(result)
  {
    hide SafePieces, IsSupported, Contents, SafeCut, RunsApart;
    NoPieces(block);
    assert RunsApart([]) by { NoneApart(); }
    result := [];
    var current: seq<Instruction> := [];
    for n := 0 to |block|
      invariant Contents(result) + current == block[..n]
      invariant forall i :: 0 <= i < |current| ==> IsSupported(current[i])
      invariant SafePieces(block, result) && RunsApart(result)
      invariant result != [] ==> result[|result| - 1].Boundary?
    {
      assert block[..n + 1] == block[..n] + [block[n]];
      if IsSupported(block[n]) {
        current := current + [block[n]];
      } else {
        UnsupportedCut(block, n);
        UnsupportedCut(block, n + 1);
        if current != [] {
          AppendPiece(block, result, Run(current));
          ApartAppend(result, Run(current));
          result := result + [Run(current)];
          current := [];
        }
        AppendPiece(block, result, Boundary(block[n]));
        ApartAppend(result, Boundary(block[n]));
        result := result + [Boundary(block[n])];
      }
    }
    assert block[..|block|] == block;
    if current != [] {
      UnsupportedCut(block, |block|);
      AppendPiece(block, result, Run(current));
      ApartAppend(result, Run(current));
      result := result + [Run(current)];
    }
  }

  lemma {:induction false} NoneApart()
    ensures RunsApart([])
  {
  }

  // ----- bounded runs -----

  ghost predicate SafeInRun(run: seq<Instruction>, p: int) {
    forall i :: MatchFullCopy(run, i) ==> !(i < p < i + 4)
  }

  lemma {:induction false} LiftCut(block: seq<Instruction>, o: nat, run: seq<Instruction>, q: nat)
    requires o + |run| <= |block| && block[o..o + |run|] == run && q <= |run|
    requires SafeCut(block, o) && SafeCut(block, o + |run|) && SafeInRun(run, q)
    ensures SafeCut(block, o + q)
  {
    hide IsSupported, ZeroPush;
    forall i | SupportedCopy(block, i) ensures !(i < o + q < i + 4) {
      if o <= i && i + 4 <= o + |run| {
        var k := i - o;
        assert run[k] == block[i] && run[k + 1] == block[i + 1] && run[k + 2] == block[i + 2] && run[k + 3] == block[i + 3];
        assert MatchFullCopy(run, k);
      }
    }
  }

  /** The first full copy that starts before `end` and goes on beyond it. */
  method FirstCrossing(run: seq<Instruction>, start: nat, end: nat) returns (r: Option<nat>)
    requires start <= end <= |run|
    ensures r.Some? ==> start <= r.value < end && MatchFullCopy(run, r.value) && r.value + 4 > end
    ensures forall i :: start <= i < (if r.Some? then r.value else end) && MatchFullCopy(run, i) ==> i + 4 <= end
  {
    hide MatchFullCopy;
    for i := start to end
      invariant forall j :: start <= j < i && MatchFullCopy(run, j) ==> j + 4 <= end
    {
      if IsFullCopy(run, i) && i + 4 > end {
        return Some(i);
      }
    }
    return None;
  }

  predicate IsFullCopy(run: seq<Instruction>, i: int) {
    MatchFullCopy(run, i)
  }

  function AtLeastFour(n: nat): nat {
    if n < 4 then 4 else n
  }

  /**
   No part from `start` may be longer: every later end within the bound would cut a full copy.  A part is
   longer than the bound only if every end within the bound would.
   */
  ghost predicate Longest(run: seq<Instruction>, start: nat, length: nat, bound: nat) {
    && (forall q :: start + length < q <= start + bound && q <= |run| ==> !SafeInRun(run, q))
    && (length > bound ==> forall q :: start < q <= start + bound && q <= |run| ==> !SafeInRun(run, q))
  }

  /** Runs of at most `bound` instructions, or 4 where a full copy needs them, as long as no full copy is cut. */
  method BoundRun(run: seq<Instruction>, bound: nat) returns (parts: seq<seq<Instruction>>)
    requires bound > 0
    ensures Flatten(parts) == run
    ensures forall k :: 0 <= k < |parts| ==> 0 < |parts[k]| <= AtLeastFour(bound)
    ensures forall k :: 0 <= k <= |parts| ==> SafeInRun(run, |Flatten(parts[..k])|)
    ensures forall k :: 0 <= k < |parts| ==> Longest(run, |Flatten(parts[..k])|, |parts[k]|, bound)
  {
    parts := [];
    var start := 0;
    while start < |run|
      invariant start <= |run| && Flatten(parts) == run[..start] && SafeInRun(run, start)
      invariant forall k :: 0 <= k < |parts| ==> 0 < |parts[k]| <= AtLeastFour(bound)
      invariant forall k :: 0 <= k <= |parts| ==> SafeInRun(run, |Flatten(parts[..k])|)
      invariant forall k :: 0 <= k < |parts| ==> Longest(run, |Flatten(parts[..k])|, |parts[k]|, bound)
    {
      hide MatchFullCopy, Flatten, Longest;
      var end := if start + bound < |run| then start + bound else |run|;
      if end < |run| {
        var crossing := FirstCrossing(run, start, end);
        if crossing.Some? {
          end := crossing.value;
        }
        SafeEnd(run, start, end, crossing);
      }
      if end == start {
        end := if IsFullCopy(run, start) then start + 4 else start + bound;
      }
      CopyFits(run, start);
      EndsLate(run, start, end, bound);
      LongestAppend(run, parts, start, end, bound);
      AppendPart(run, parts, start, end);
      parts := parts + [run[start..end]];
      start := end;
    }
    assert run[..|run|] == run;
  }

  /** The end the loop chooses: at the bound, at the end of the run, at a copy the bound cuts, or after it. */
  lemma {:induction false} EndsLate(run: seq<Instruction>, start: nat, end: nat, bound: nat)
    requires start < end <= |run|
    requires || end == start + bound
             || (end == |run| && end <= start + bound)
             || (end < start + bound < end + 4 && MatchFullCopy(run, end))
             || (end == start + 4 && start + bound < end && MatchFullCopy(run, start))
    ensures Longest(run, start, end - start, bound)
  {
    hide MatchFullCopy;
  }

  lemma {:induction false} LongestAppend(run: seq<Instruction>, parts: seq<seq<Instruction>>, start: nat, end: nat,
                                         bound: nat)
    requires start <= end <= |run| && Flatten(parts) == run[..start] && Longest(run, start, end - start, bound)
    requires forall k :: 0 <= k < |parts| ==> Longest(run, |Flatten(parts[..k])|, |parts[k]|, bound)
    ensures var parts' := parts + [run[start..end]];
            forall k :: 0 <= k < |parts'| ==> Longest(run, |Flatten(parts'[..k])|, |parts'[k]|, bound)
  {
    hide Flatten, Longest;
    var parts' := parts + [run[start..end]];
    forall k | 0 <= k < |parts'| ensures Longest(run, |Flatten(parts'[..k])|, |parts'[k]|, bound) {
      if k < |parts| {
        assert parts'[..k] == parts[..k];
      } else {
        assert parts'[..k] == parts;
      }
    }
  }

  lemma {:induction false} CopyFits(run: seq<Instruction>, start: nat)
    ensures MatchFullCopy(run, start) ==> start + 4 <= |run|
  {
  }

  /** Where the loop may end a part: at the crossing copy, after it if it comes first, or at the bound. */
  lemma {:induction false} SafeEnd(run: seq<Instruction>, start: nat, end: nat, crossing: Option<nat>)
    requires start <= end < |run| && SafeInRun(run, start)
    requires crossing.None? ==> forall i :: start <= i < end && MatchFullCopy(run, i) ==> i + 4 <= end
    requires crossing.Some? ==> crossing.value == end && MatchFullCopy(run, end)
    ensures crossing.None? || start < end ==> SafeInRun(run, end)
    ensures crossing.Some? && start == end ==> SafeInRun(run, end + 4)
  {
    hide MatchFullCopy;
    forall i | MatchFullCopy(run, i)
      ensures crossing.Some? && i < end ==> i + 4 <= end
      ensures crossing.Some? && end < i ==> end + 4 <= i
    {
      if crossing.Some? && i < end {
        CopiesAreDisjoint(run, i, end);
      } else if crossing.Some? && end < i {
        CopiesAreDisjoint(run, end, i);
      }
    }
  }

  lemma {:induction false} AppendPart(run: seq<Instruction>, parts: seq<seq<Instruction>>, start: nat, end: nat)
    requires start <= end <= |run| && Flatten(parts) == run[..start] && SafeInRun(run, end)
    requires forall k :: 0 <= k <= |parts| ==> SafeInRun(run, |Flatten(parts[..k])|)
    ensures var parts' := parts + [run[start..end]];
            && Flatten(parts') == run[..end]
            && forall k :: 0 <= k <= |parts'| ==> SafeInRun(run, |Flatten(parts'[..k])|)
  {
    hide SafeInRun, Flatten;
    var parts' := parts + [run[start..end]];
    FlattenAppend(parts, run[start..end]);
    assert run[..start] + run[start..end] == run[..end];
    forall k | 0 <= k <= |parts'| ensures SafeInRun(run, |Flatten(parts'[..k])|) {
      if k <= |parts| {
        assert parts'[..k] == parts[..k];
      } else {
        assert parts'[..k] == parts';
      }
    }
  }

  /** As Longest, of a run of a block. */
  ghost predicate LongestIn(block: seq<Instruction>, start: nat, length: nat, bound: nat) {
    && (forall q :: start + length < q <= start + bound && q <= |block| ==> !SafeCut(block, q))
    && (length > bound ==> forall q :: start < q <= start + bound && q <= |block| ==> !SafeCut(block, q))
  }

  /** A run that another run follows is as long as the bound and the full copies allow. */
  ghost predicate RunsLongest(block: seq<Instruction>, pieces: seq<Piece>, bound: nat) {
    forall k :: 0 <= k < |pieces| - 1 && pieces[k].Run? && pieces[k + 1].Run? ==>
      LongestIn(block, |Contents(pieces[..k])|, |pieces[k].run|, bound)
  }

  lemma {:induction false} CutsCopy(block: seq<Instruction>, o: nat, run: seq<Instruction>, q: nat)
    requires o + |run| <= |block| && block[o..o + |run|] == run
    requires forall i :: 0 <= i < |run| ==> IsSupported(run[i])
    requires !SafeInRun(run, q)
    ensures !SafeCut(block, o + q)
  {
    hide IsSupported, ZeroPush;
    var i :| MatchFullCopy(run, i) && i < q < i + 4;
    assert run[i] == block[o + i] && run[i + 1] == block[o + i + 1] && run[i + 2] == block[o + i + 2]
        && run[i + 3] == block[o + i + 3];
    assert SupportedCopy(block, o + i);
  }

  lemma {:induction false} LiftLongest(block: seq<Instruction>, o: nat, run: seq<Instruction>, start: nat, length: nat,
                                       bound: nat)
    requires o + |run| <= |block| && block[o..o + |run|] == run
    requires forall i :: 0 <= i < |run| ==> IsSupported(run[i])
    requires start + length < |run| && Longest(run, start, length, bound)
    ensures LongestIn(block, o + start, length, bound)
  {
    hide IsSupported, SafeCut, SafeInRun;
    EndIsSafe(run);
    forall q | o + start < q <= o + start + bound && q <= |block|
      ensures o + start + length < q || length > bound ==> !SafeCut(block, q)
    {
      if q - o <= |run| && !SafeInRun(run, q - o) {
        CutsCopy(block, o, run, q - o);
      }
    }
  }

  lemma {:induction false} EndIsSafe(run: seq<Instruction>)
    ensures SafeInRun(run, |run|)
  {
    forall i | MatchFullCopy(run, i) ensures !(i < |run| < i + 4) {
      assert i + 4 <= |run|;
    }
  }

  lemma {:induction false} LongestPiece(block: seq<Instruction>, pieces: seq<Piece>, p: Piece, bound: nat)
    requires RunsLongest(block, pieces, bound)
    requires pieces != [] && pieces[|pieces| - 1].Run? && p.Run? ==>
               LongestIn(block, |Contents(pieces[..|pieces| - 1])|, |pieces[|pieces| - 1].run|, bound)
    ensures RunsLongest(block, pieces + [p], bound)
  {
    hide LongestIn, Contents;
    var all := pieces + [p];
    forall k | 0 <= k < |all| - 1 && all[k].Run? && all[k + 1].Run?
      ensures LongestIn(block, |Contents(all[..k])|, |all[k].run|, bound)
    {
      assert all[..k] == pieces[..k];
    }
  }

  /**
   Bounded segments: they concatenate back to the block, runs have at most max(bound, 4) instructions, no
   cut separates the instructions of a full return-data copy, and runs are as long as this allows.  A bound
   of zero is refused.
   */
  method BoundedSupportedSegments(block: seq<Instruction>, bound: int) returns (r: Option<seq<Piece>>)
    ensures r.Some? <==> bound > 0
    ensures r.Some? ==> Contents(r.value) == block && SafePieces(block, r.value) && RunsLongest(block, r.value, bound)
    ensures r.Some? ==> forall k :: 0 <= k < |r.value| && r.value[k].Run? ==> |r.value[k].run| <= AtLeastFour(bound)
  {
    hide SafePieces, IsSupported, Contents, Flatten, SafeCut, SafeInRun, AtLeastFour, RunsLongest, RunsApart;
    if bound <= 0 {
      return None;
    }
    var pieces := SupportedSegments(block);
    var result: seq<Piece> := [];
    NoPieces(block);
    assert pieces[..0] == [];
    assert RunsLongest(block, result, bound) by { NoneLongest(block, bound); }
    for n := 0 to |pieces|
      invariant Contents(result) == Contents(pieces[..n]) && SafePieces(block, result)
      invariant RunsLongest(block, result, bound)
      invariant result != [] && result[|result| - 1].Run? ==> n > 0 && pieces[n - 1].Run?
      invariant forall k :: 0 <= k < |result| && result[k].Run? ==> |result[k].run| <= AtLeastFour(bound)
    {
      ContentsStep(block, pieces, n);
      ApartAt(pieces, n);
      if pieces[n].Boundary? {
        AppendPiece(block, result, pieces[n]);
        LongestPiece(block, result, pieces[n], bound);
        result := result + [pieces[n]];
      } else {
        var parts := BoundRun(pieces[n].run, bound);
        result := AppendParts(block, result, pieces[n].run, parts, bound);
      }
    }
    assert pieces[..|pieces|] == pieces;
    return Some(result);
  }

  lemma {:induction false} NoneLongest(block: seq<Instruction>, bound: nat)
    ensures RunsLongest(block, [], bound)
  {
  }

  lemma {:induction false} ApartAt(pieces: seq<Piece>, n: nat)
    requires RunsApart(pieces) && n < |pieces|
    ensures n > 0 ==> !(pieces[n - 1].Run? && pieces[n].Run?)
  {
  }

  lemma {:induction false} ContentsStep(block: seq<Instruction>, pieces: seq<Piece>, n: nat)
    requires n < |pieces| && Contents(pieces) == block && SafePieces(block, pieces)
    ensures Contents(pieces[..n + 1]) == Contents(pieces[..n]) + pieces[n].Contents()
    ensures var o := |Contents(pieces[..n])|;
            && o + |pieces[n].Contents()| <= |block|
            && block[o..o + |pieces[n].Contents()|] == pieces[n].Contents()
            && SafeCut(block, o) && SafeCut(block, o + |pieces[n].Contents()|)
    ensures pieces[n].Valid()
  {
    hide SafeCut, IsSupported, Contents;
    assert pieces[..n + 1] == pieces[..n] + [pieces[n]];
    assert pieces == pieces[..n] + ([pieces[n]] + pieces[n + 1..]);
    ContentsAppend(pieces[..n], [pieces[n]]);
    ContentsAppend(pieces[..n], [pieces[n]] + pieces[n + 1..]);
    ContentsAppend([pieces[n]], pieces[n + 1..]);
    SingleContents(pieces[n]);
  }

  /** The parts of one run, added to the result one by one. */
  method AppendParts(ghost block: seq<Instruction>, pieces: seq<Piece>, ghost run: seq<Instruction>,
                     parts: seq<seq<Instruction>>, ghost bound: nat) returns (result: seq<Piece>)
    requires bound > 0 && Flatten(parts) == run && (forall i :: 0 <= i < |run| ==> IsSupported(run[i]))
    requires forall k :: 0 <= k < |parts| ==> 0 < |parts[k]| <= AtLeastFour(bound)
    requires forall k :: 0 <= k <= |parts| ==> SafeInRun(run, |Flatten(parts[..k])|)
    requires forall k :: 0 <= k < |parts| ==> Longest(run, |Flatten(parts[..k])|, |parts[k]|, bound)
    requires SafePieces(block, pieces) && RunsLongest(block, pieces, bound)
    requires pieces != [] ==> pieces[|pieces| - 1].Boundary?
    requires forall k :: 0 <= k < |pieces| && pieces[k].Run? ==> |pieces[k].run| <= AtLeastFour(bound)
    requires var o := |Contents(pieces)|;
             && o + |run| <= |block| && block[o..o + |run|] == run && SafeCut(block, o) && SafeCut(block, o + |run|)
    ensures Contents(result) == Contents(pieces) + run && SafePieces(block, result) && RunsLongest(block, result, bound)
    ensures forall k :: 0 <= k < |result| && result[k].Run? ==> |result[k].run| <= AtLeastFour(bound)
  {
    hide SafePieces, IsSupported, Contents, Flatten, SafeCut, SafeInRun, AtLeastFour, RunsLongest, Longest, LongestIn;
    result := pieces;
    FlattenNothing(parts);
    ghost var o := |Contents(pieces)|;
    for k := 0 to |parts|
      invariant Contents(result) == Contents(pieces) + Flatten(parts[..k]) && SafePieces(block, result)
      invariant RunsLongest(block, result, bound)
      invariant if k == 0 then result == pieces
                else result != [] && result[|result| - 1] == Run(parts[k - 1])
                     && |Contents(result[..|result| - 1])| == o + |Flatten(parts[..k - 1])|
      invariant forall k :: 0 <= k < |result| && result[k].Run? ==> |result[k].run| <= AtLeastFour(bound)
    {
      FlattenPart(parts, k);
      var sofar := |Flatten(parts[..k + 1])|;
      LiftCut(block, o, run, sofar);
      assert parts[k] == run[sofar - |parts[k]|..sofar];
      if k > 0 {
        FlattenPart(parts, k - 1);
        LiftLongest(block, o, run, |Flatten(parts[..k - 1])|, |parts[k - 1]|, bound);
      }
      AppendPiece(block, result, Run(parts[k]));
      LongestPiece(block, result, Run(parts[k]), bound);
      assert (result + [Run(parts[k])])[..|result|] == result;
      result := result + [Run(parts[k])];
    }
    assert parts[..|parts|] == parts;
  }

  lemma {:induction false} FlattenNothing(parts: seq<seq<Instruction>>)
    ensures Flatten(parts[..0]) == []
  {
  }

  lemma {:induction false} FlattenPart(parts: seq<seq<Instruction>>, k: nat)
    requires k < |parts|
    ensures Flatten(parts[..k + 1]) == Flatten(parts[..k]) + parts[k]
    ensures |Flatten(parts[..k + 1])| <= |Flatten(parts)|
    ensures Flatten(parts)[..|Flatten(parts[..k + 1])|] == Flatten(parts[..k + 1])
  {
    hide Flatten;
    assert parts[..k + 1] == parts[..k] + [parts[k]];
    FlattenAppend(parts[..k], parts[k]);
    FlattenPrefix(parts, k + 1);
  }

  lemma {:induction false} FlattenPrefix(parts: seq<seq<Instruction>>, k: nat)
    requires k <= |parts|
    ensures |Flatten(parts[..k])| <= |Flatten(parts)|
    ensures Flatten(parts)[..|Flatten(parts[..k])|] == Flatten(parts[..k])
    decreases |parts|
  {
    if k < |parts| {
      var n := |parts| - 1;
      assert parts == parts[..n] + [parts[n]] && parts[..n][..k] == parts[..k];
      FlattenPrefix(parts[..n], k);
      FlattenAppend(parts[..n], parts[n]);
    } else {
      assert parts[..k] == parts;
    }
  }
}
