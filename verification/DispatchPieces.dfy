/**
 The pieces the dispatcher analysis works on: the bounded, supported segments of the code's basic blocks,
 indexed by the pc they start at.
 */
module DispatchPieces {
  import opened Options
  import opened Words
  import opened Bytecode
  import opened StackShapes
  import opened Blocks
  import opened Dispatcher
  import opened DispatchSound
  import Machine

  const MAX_SUMMARY_INSTRUCTIONS: int := 64

  /** A nonempty run of consecutive instructions of the code, with a terminator at most at its end. */
  ghost predicate IsSegment(code: seq<Byte>, run: seq<Instruction>) {
    && run != []
    && (exists at: nat :: SliceAt(Stream(code, 0), at, run))
    && (forall i :: 0 <= i < |run| - 1 ==> !IsTerminator(run[i].opcode))
  }

  ghost predicate SliceAt<T>(all: seq<T>, at: nat, part: seq<T>) {
    at + |part| <= |all| && all[at..at + |part|] == part
  }

  lemma {:induction false} SliceOfSlice<T>(all: seq<T>, at: nat, part: seq<T>, o: nat, inner: seq<T>)
    requires SliceAt(all, at, part) && SliceAt(part, o, inner)
    ensures SliceAt(all, at + o, inner)
  {
    forall i | 0 <= i < |inner| ensures all[at + o..at + o + |inner|][i] == inner[i] {
      assert part[o + i] == all[at..at + |part|][o + i];
      assert part[o..o + |inner|][i] == part[o + i];
    }
  }

  lemma {:induction false} SegmentIsPiece(code: seq<Byte>, run: seq<Instruction>)
    requires IsSegment(code, run)
    ensures IsPiece(run)
    ensures forall i :: 0 <= i < |run| ==> Loadable(code, run[i])
  {
    hide Stream, IsTerminator, InstructionAt;
    var all := Stream(code, 0);
    var at: nat :| SliceAt(all, at, run);
    StreamTiles(code, 0);
    assert forall i :: 0 <= i < |run| ==> run[i] == all[at + i];
    forall i | 0 < i < |run| ensures run[i].pc == run[i - 1].pc + run[i - 1].Size() {
      assert run[i] == all[at + i] && run[i - 1] == all[at + i - 1];
    }
  }

  /** The instruction is the one decoded at its pc. */
  predicate Loadable(code: seq<Byte>, ins: Instruction) {
    ins.pc < |code| && ins == InstructionAt(code, ins.pc)
  }

  ghost predicate AllSegments(code: seq<Byte>, pieces: Pieces) {
    forall pc :: pc in pieces ==> IsSegment(code, pieces[pc]) && pieces[pc][0].pc == pc
  }

  /** Every supported instruction among the first n is in one of the pieces, which all start before the next. */
  ghost predicate Covers(pieces: Pieces, all: seq<Instruction>, n: nat)
    requires n <= |all|
  {
    && (forall pc :: pc in pieces ==> exists i :: 0 <= i < n && all[i].pc == pc)
    && (forall i :: 0 <= i < n && IsSupported(all[i]) ==> exists pc :: pc in pieces && all[i] in pieces[pc])
  }

  lemma {:induction false} CoversBoundary(pieces: Pieces, all: seq<Instruction>, n: nat)
    requires n < |all| && Covers(pieces, all, n) && !IsSupported(all[n])
    ensures Covers(pieces, all, n + 1)
  {
    hide IsSupported;
    forall pc | pc in pieces ensures exists i :: 0 <= i < n + 1 && all[i].pc == pc {
      var i :| 0 <= i < n && all[i].pc == pc;
      assert all[i].pc == pc && i < n + 1;
    }
  }

  lemma {:induction false} CoversRun(pieces: Pieces, all: seq<Instruction>, n: nat, run: seq<Instruction>)
    requires n <= |all| && Covers(pieces, all, n) && run != [] && SliceAt(all, n, run)
    requires forall i, j :: 0 <= i < j < |all| ==> all[i].pc < all[j].pc
    ensures Covers(pieces[run[0].pc := run], all, n + |run|)
  {
    hide IsSupported;
    var pieces' := pieces[run[0].pc := run];
    assert forall i :: 0 <= i < |run| ==> run[i] == all[n..n + |run|][i];
    assert run[0] == all[n];
    forall pc | pc in pieces ensures pc != run[0].pc {
      var i :| 0 <= i < n && all[i].pc == pc;
    }
    forall pc | pc in pieces' ensures exists i :: 0 <= i < n + |run| && all[i].pc == pc {
      if pc != run[0].pc {
        var i :| 0 <= i < n && all[i].pc == pc;
        assert all[i].pc == pc && i < n + |run|;
      }
    }
    forall i | 0 <= i < n + |run| && IsSupported(all[i]) ensures exists pc :: pc in pieces' && all[i] in pieces'[pc] {
      if i < n {
        var pc :| pc in pieces && all[i] in pieces[pc];
        assert pc in pieces' && all[i] in pieces'[pc];
      } else {
        assert run[i - n] == all[i];
        assert run[0].pc in pieces' && all[i] in pieces'[run[0].pc];
      }
    }
  }

  /** Nothing could be added after `last` at the end of a piece: the code, its block or the supported run ends. */
  predicate MustEnd(all: seq<Instruction>, end: nat, last: Instruction) {
    end >= |all| || EndsBlock(last.opcode) || all[end].opcode == 0x5B || !IsSupported(all[end])
  }

  /** The piece ends where it must, or where the bound and the full copies demand it. */
  ghost predicate AsLong(all: seq<Instruction>, piece: seq<Instruction>) {
    && piece != []
    && exists at: nat :: SliceAt(all, at, piece)
         && (MustEnd(all, at + |piece|, piece[|piece| - 1]) || LongestIn(all, at, |piece|, 64))
  }

  /** What is longest in a block is longest in the code. */
  lemma {:induction false} LongestInCode(all: seq<Instruction>, at: nat, block: seq<Instruction>, start: nat,
                                         length: nat, bound: nat)
    requires SliceAt(all, at, block) && start + length < |block| && LongestIn(block, start, length, bound)
    ensures LongestIn(all, at + start, length, bound)
  {
    hide IsSupported, SafeCut;
    UnsupportedCut(block, |block|);
    forall q | at + start < q <= at + start + bound && q <= |all|
      ensures at + start + length < q || length > bound ==> !SafeCut(all, q)
    {
      if q - at <= |block| && !SafeCut(block, q - at) {
        CutInCode(all, at, block, q - at);
      }
    }
  }

  lemma {:induction false} CutInCode(all: seq<Instruction>, at: nat, block: seq<Instruction>, q: nat)
    requires SliceAt(all, at, block) && !SafeCut(block, q)
    ensures !SafeCut(all, at + q)
  {
    hide IsSupported, ZeroPush;
    var i :| SupportedCopy(block, i) && i < q < i + 4;
    forall j | 0 <= j < |block| ensures block[j] == all[at + j] {
      assert block[j] == all[at..at + |block|][j];
    }
    assert SupportedCopy(all, at + i);
  }

  /** A block ends where the code does, at a terminator, or before a JUMPDEST. */
  predicate BlockEnds(all: seq<Instruction>, at: nat, block: seq<Instruction>) {
    block != [] ==>
      at + |block| >= |all| || EndsBlock(block[|block| - 1].opcode) || all[at + |block|].opcode == 0x5B
  }

  lemma {:induction false} BlocksEnd(parts: seq<seq<Instruction>>, b: nat, all: seq<Instruction>)
    requires b < |parts| && Flatten(parts) == all && ForcedBoundaries(parts)
    requires forall k :: 0 <= k < |parts| ==> IsBasicBlock(parts[k])
    ensures BlockEnds(all, |Flatten(parts[..b])|, parts[b])
  {
    hide Flatten, EndsBlock, IsTerminator;
    FlattenPart(parts, b);
    TerminatorsEnd(parts[b][|parts[b]| - 1].opcode);
    if b + 1 < |parts| {
      FlattenPart(parts, b + 1);
      var at := |Flatten(parts[..b + 1])|;
      var front := all[..at + |parts[b + 1]|];
      assert front == Flatten(parts[..b + 1]) + parts[b + 1];
      assert all[at] == front[at] == parts[b + 1][0];
    } else {
      assert parts[..b + 1] == parts;
    }
  }

  /** A run among the segments of a block is as long as it can be. */
  lemma {:induction false} SegmentAsLong(all: seq<Instruction>, at: nat, block: seq<Instruction>, segments: seq<Piece>,
                                         k: nat)
    requires SliceAt(all, at, block) && BlockEnds(all, at, block) && k < |segments| && segments[k].Run?
    requires Contents(segments) == block && SafePieces(block, segments) && RunsLongest(block, segments, 64)
    ensures AsLong(all, segments[k].run)
  {
    hide IsSupported, EndsBlock, SafePieces, Contents, LongestIn, RunsLongest, SliceAt, MustEnd, BlockEnds;
    ContentsStep(block, segments, k);
    var o := |Contents(segments[..k])|;
    var run := segments[k].run;
    SliceHere(block, o, run);
    SliceOfSlice(all, at, block, o, run);
    if k + 1 == |segments| {
      assert segments[..k + 1] == segments;
      LastSegment(all, at, block, o, run);
    } else {
      ContentsStep(block, segments, k + 1);
      NextSegment(all, at, block, segments, k, o);
    }
  }

  lemma {:induction false} SliceHere<T>(all: seq<T>, at: nat, part: seq<T>)
    requires at + |part| <= |all| && all[at..at + |part|] == part
    ensures SliceAt(all, at, part)
  {
  }

  lemma {:induction false} LastSegment(all: seq<Instruction>, at: nat, block: seq<Instruction>, o: nat,
                                       run: seq<Instruction>)
    requires SliceAt(block, o, run) && o + |run| == |block| && run != [] && BlockEnds(all, at, block)
    ensures MustEnd(all, at + o + |run|, run[|run| - 1])
  {
    hide IsSupported, EndsBlock;
    assert run[|run| - 1] == block[o..o + |run|][|run| - 1];
  }

  lemma {:induction false} NextSegment(all: seq<Instruction>, at: nat, block: seq<Instruction>, segments: seq<Piece>,
                                       k: nat, o: nat)
    requires SliceAt(all, at, block) && k + 1 < |segments| && segments[k].Run? && o == |Contents(segments[..k])|
    requires o + |segments[k].run| == |Contents(segments[..k + 1])| && segments[k + 1].Valid()
    requires |Contents(segments[..k + 1])| + |segments[k + 1].Contents()| <= |block|
    requires block[|Contents(segments[..k + 1])|..|Contents(segments[..k + 1])| + |segments[k + 1].Contents()|]
             == segments[k + 1].Contents()
    requires RunsLongest(block, segments, 64) && segments[k].run != []
    ensures MustEnd(all, at + o + |segments[k].run|, segments[k].run[|segments[k].run| - 1])
            || LongestIn(all, at + o, |segments[k].run|, 64)
  {
    hide IsSupported, EndsBlock, Contents, LongestIn;
    var n := |Contents(segments[..k + 1])|;
    if segments[k + 1].Run? {
      LongestInCode(all, at, block, o, |segments[k].run|, 64);
    } else {
      var next := segments[k + 1].Contents();
      assert block[n..n + |next|][0] == block[n] == all[at..at + |block|][n];
    }
  }

  /** What the loops over the blocks and their segments keep, when n instructions have been dealt with. */
  ghost predicate Built(code: seq<Byte>, all: seq<Instruction>, pieces: Pieces, n: nat)
    requires n <= |all|
  {
    && AllSegments(code, pieces) && Covers(pieces, all, n)
    && forall pc :: pc in pieces ==> |pieces[pc]| <= 64 && AsLong(all, pieces[pc])
  }

  lemma {:induction false} OneSegment(code: seq<Byte>, all: seq<Instruction>, pieces: Pieces, n: nat,
                                      run: seq<Instruction>)
    requires n <= |all| && Built(code, all, pieces, n) && SliceAt(all, n, run) && IsSegment(code, run)
    requires |run| <= 64 && AsLong(all, run)
    requires forall i, j :: 0 <= i < j < |all| ==> all[i].pc < all[j].pc
    ensures run != [] && Built(code, all, pieces[run[0].pc := run], n + |run|)
  {
    hide Covers, AsLong;
    CoversRun(pieces, all, n, run);
  }

  lemma {:induction false} OneBoundary(code: seq<Byte>, all: seq<Instruction>, pieces: Pieces, n: nat, ins: Instruction)
    requires n <= |all| && Built(code, all, pieces, n) && SliceAt(all, n, [ins]) && !IsSupported(ins)
    ensures Built(code, all, pieces, n + 1)
  {
    hide Covers, AsLong, AllSegments, IsSupported;
    SliceFirst(all, n, [ins]);
    CoversBoundary(pieces, all, n);
  }

  /** The pieces of one block. */
  method AddPieces(ghost code: seq<Byte>, ghost all: seq<Instruction>, ghost at: nat, block: seq<Instruction>,
                   pieces: Pieces) returns (r: Pieces)
    requires all == Stream(code, 0) && SliceAt(all, at, block) && IsBasicBlock(block) && BlockEnds(all, at, block)
    requires Built(code, all, pieces, at)
    requires forall i, j :: 0 <= i < j < |all| ==> all[i].pc < all[j].pc
    ensures Built(code, all, r, at + |block|)
  {
    hide IsSegment, Stream, Contents, SafePieces, IsBasicBlock, RunsLongest, IsSupported, Built, BlockEnds, AsLong;
    r := pieces;
    var segments := BoundedSupportedSegments(block, MAX_SUMMARY_INSTRUCTIONS);
    NoContents(segments.value);
    for k := 0 to |segments.value|
      invariant at + |Contents(segments.value[..k])| <= |all|
      invariant Built(code, all, r, at + |Contents(segments.value[..k])|)
    {
      ContentsStep(block, segments.value, k);
      ghost var o := |Contents(segments.value[..k])|;
      assert SliceAt(block, o, segments.value[k].Contents());
      SliceOfSlice(all, at, block, o, segments.value[k].Contents());
      if segments.value[k].Run? {
        RunIsSegment(code, block, at, o, segments.value[k].run);
        SegmentAsLong(all, at, block, segments.value, k);
        OneSegment(code, all, r, at + o, segments.value[k].run);
        r := r[segments.value[k].run[0].pc := segments.value[k].run];
      } else {
        OneBoundary(code, all, r, at + o, segments.value[k].ins);
      }
    }
    assert segments.value[..|segments.value|] == segments.value;
  }

  /**
   What splitting the code yields meets everything the analysis asks of its pieces: each instruction is the
   one the code has at its pc, every supported instruction is in a piece, and pieces have at most 64
   instructions and as many as that allows.
   */
  method BuildPieces(code: seq<Byte>) returns (pieces: Pieces)
    ensures PieceTable(pieces)
    ensures forall pc, i :: pc in pieces && 0 <= i < |pieces[pc]| ==> Loadable(code, pieces[pc][i])
    ensures forall ins :: ins in Stream(code, 0) && IsSupported(ins) ==> exists pc :: pc in pieces && ins in pieces[pc]
    ensures forall pc :: pc in pieces ==> |pieces[pc]| <= 64 && AsLong(Stream(code, 0), pieces[pc])
  {
    hide IsSegment, Stream, Contents, SafePieces, IsBasicBlock, Flatten, ForcedBoundaries, IsPiece, Loadable, Covers,
         RunsLongest, IsSupported, Built, AsLong, BlockEnds;
    var ins := Disassemble(code);
    StreamTiles(code, 0);
    var parts := BasicBlocks(ins);
    pieces := map[];
    NothingBuilt(code, ins);
    FlattenNothing(parts);
    for b := 0 to |parts|
      invariant |Flatten(parts[..b])| <= |ins| && Built(code, ins, pieces, |Flatten(parts[..b])|)
    {
      FlattenPart(parts, b);
      assert SliceAt(ins, |Flatten(parts[..b])|, parts[b]);
      BlocksEnd(parts, b, ins);
      pieces := AddPieces(code, ins, |Flatten(parts[..b])|, parts[b], pieces);
    }
    assert parts[..|parts|] == parts;
    AllBuilt(code, ins, pieces);
    forall pc | pc in pieces
      ensures pieces[pc] != [] && IsPiece(pieces[pc])
      ensures forall i :: 0 <= i < |pieces[pc]| ==> Loadable(code, pieces[pc][i])
    {
      SegmentIsPiece(code, pieces[pc]);
      PieceNonempty(pieces[pc]);
    }
  }

  lemma {:induction false} NothingBuilt(code: seq<Byte>, all: seq<Instruction>)
    ensures Built(code, all, map[], 0)
  {
  }

  lemma {:induction false} AllBuilt(code: seq<Byte>, all: seq<Instruction>, pieces: Pieces)
    requires Built(code, all, pieces, |all|)
    ensures AllSegments(code, pieces)
    ensures forall ins :: ins in all && IsSupported(ins) ==> exists pc :: pc in pieces && ins in pieces[pc]
    ensures forall pc :: pc in pieces ==> |pieces[pc]| <= 64 && AsLong(all, pieces[pc])
  {
    hide IsSupported, IsSegment, AsLong;
  }

  lemma {:induction false} NoContents(segments: seq<Piece>)
    ensures Contents(segments[..0]) == []
  {
  }

  lemma {:induction false} SliceFirst<T>(all: seq<T>, at: nat, part: seq<T>)
    requires SliceAt(all, at, part) && part != []
    ensures at < |all| && all[at] == part[0]
  {
  }

  lemma {:induction false} PieceNonempty(piece: seq<Instruction>)
    requires IsPiece(piece)
    ensures piece != []
  {
  }

  lemma {:induction false} RunIsSegment(code: seq<Byte>, block: seq<Instruction>, at: nat, o: nat,
          run: seq<Instruction>)
    requires SliceAt(Stream(code, 0), at, block) && IsBasicBlock(block) && SliceAt(block, o, run) && run != []
    ensures IsSegment(code, run)
  {
    hide Stream, IsTerminator;
    SliceOfSlice(Stream(code, 0), at, block, o, run);
    forall i | 0 <= i < |run| - 1 ensures !IsTerminator(run[i].opcode) {
      assert run[i] == block[o + i];
    }
  }

  // ----- the deployed code -----

  /** A complete instruction of the body is loaded in the body followed by its metadata. */
  lemma {:induction false} LoadedWithMetadata(body: seq<Byte>, metadata: seq<Byte>, ins: Instruction, env: Machine.Env)
    requires Loadable(body, ins) && ins.complete && env.code == body + metadata
    ensures Loaded(ins, env)
  {
    hide BytesToNat;
    var end := ins.pc + 1 + PushWidth(body[ins.pc]);
    assert PushData(env.code, ins.pc) == PushData(body, ins.pc) by {
      assert end <= |body| ==> env.code[ins.pc + 1..end] == body[ins.pc + 1..end];
    }
  }

  /** A table of pieces of the code, none of whose pushes the code's end cuts off. */
  ghost predicate PiecesOf(code: seq<Byte>, pieces: Pieces) {
    && PieceTable(pieces)
    && forall pc, i :: pc in pieces && 0 <= i < |pieces[pc]| ==> Loadable(code, pieces[pc][i]) && pieces[pc][i].complete
  }

  /** What is checked of a piece in the body alone holds of it in the deployed code. */
  lemma {:induction false} PieceDeployed(body: seq<Byte>, metadata: seq<Byte>, piece: seq<Instruction>, k: nat,
          stack: seq<AVal>, a: AEnv, claims: Claims, table: set<nat>, home: Machine.Env, env: Machine.Env)
    requires k <= |piece| && env.code == body + metadata
    requires forall i :: 0 <= i < |piece| ==> Loadable(body, piece[i]) && piece[i].complete
    requires PieceOk(piece, k, stack, a, claims, table, home)
    ensures PieceOk(piece, k, stack, a, claims, table, env)
    decreases |piece| - k
  {
    hide StepAbstract, Loadable, Loaded, OpOk;
    if k < |piece| {
      LoadedWithMetadata(body, metadata, piece[k], env);
      if StepAbstract(piece[k], stack, a).Continue? {
        PieceDeployed(body, metadata, piece, k + 1, StepAbstract(piece[k], stack, a).stack, a, claims, table, home, env);
      }
    }
  }

  lemma {:induction false} PathDeployed(body: seq<Byte>, metadata: seq<Byte>, pieces: Pieces, a: AEnv, claims: Claims,
          table: set<nat>, home: Machine.Env, env: Machine.Env, pc: nat, stack: seq<AVal>, pending: Decisions,
          stop: Option<nat>, fuel: nat)
    requires PiecesOf(body, pieces) && env.code == body + metadata
    requires PathOk(pieces, a, claims, table, home, pc, stack, pending, stop, fuel)
    ensures PathOk(pieces, a, claims, table, env, pc, stack, pending, stop, fuel)
    decreases fuel
  {
    hide ExecuteFrom, PieceOk, Loadable, IsPiece;
    if fuel != 0 && stop != Some(pc) && pc in pieces {
      var piece := pieces[pc];
      var x := ExecuteFrom(piece, 0, stack, a);
      PieceDeployed(body, metadata, piece, 0, stack, a, claims, table, home, env);
      if x.Executed? {
        if x.fork.Some? {
          if pending != [] && pending[0].0 == x.fork.value.jumpiPc {
            PathDeployed(body, metadata, pieces, a, claims, table, home, env,
                    if pending[0].1 then x.fork.value.dest else EndPc(piece), x.stack, pending[1..], stop, fuel - 1);
          }
        } else if x.next.Some? {
          PathDeployed(body, metadata, pieces, a, claims, table, home, env, x.next.value, x.stack, pending, stop,
                  fuel - 1);
        }
      }
    }
  }

  /**
   The analysis of the pieces of a code without its metadata, checked once against that code alone, is
   right for every call of the class to the code with its metadata.
   */
  lemma {:induction false} DeployedDispatcherSound(body: seq<Byte>, metadata: seq<Byte>, pieces: Pieces, a: AEnv,
          claims: Claims, table: set<nat>, home: Machine.Env, env: Machine.Env, stop: Option<nat>, st: Machine.State)
    requires PiecesOf(body, pieces) && env.code == body + metadata
    requires PathOk(pieces, a, claims, table, home, 0, [], [], stop, MAX_PATH)
    requires ClaimsHold(claims, a, table, env) && st.pc == 0 && st.stack == []
    ensures PathFollows(PathOf(pieces, a, stop), stop, st, a, env)
  {
    hide PathOk, PathFollows, ClaimsHold, Follow;
    PathDeployed(body, metadata, pieces, a, claims, table, home, env, 0, [], [], stop, MAX_PATH);
    DispatcherSound(pieces, a, claims, table, env, stop, st);
  }
}
