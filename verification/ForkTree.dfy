/**
 The case tree over the pivots of a binary-search dispatcher: it is finite, replaying recorded decisions
 reproduces the path they were recorded on, and every unmatched call follows exactly one of its leaves.
 */
module ForkTree {
  import opened Options
  import opened Words
  import opened Bytecode
  import opened Machine
  import opened Symbolic
  import opened Dispatcher
  import opened DispatchSound

  // ----- replaying decisions -----

  /** Every used decision consumed one visited piece, and the unused ones are the last ones. */
  lemma {:induction false} FollowConsumes(pieces: Pieces, env: AEnv, pc: nat, stack: seq<AVal>, pending: Decisions,
          fuel: nat)
    requires IndexedByPc(pieces)
    ensures var p := Follow(pieces, env, pc, stack, pending, None, fuel);
            p.Forked? ==>
              && |p.unused| <= |pending| && p.unused == pending[|pending| - |p.unused|..]
              && |pending| - |p.unused| <= |p.steps| < fuel
              && p.fork.piece != []
    decreases fuel
  {
    hide ExecuteFrom;
    if fuel > 0 && pc in pieces {
      var piece := pieces[pc];
      var x := ExecuteFrom(piece, 0, stack, env);
      if x.Executed? {
        ForkOfPiece(piece, 0, stack, env);
        if x.fork.Some? {
          if pending != [] && pending[0].0 == x.fork.value.jumpiPc {
            FollowConsumes(pieces, env, if pending[0].1 then x.fork.value.dest else EndPc(piece), x.stack,
                    pending[1..], fuel - 1);
          }
        } else if x.next.Some? {
          FollowConsumes(pieces, env, x.next.value, x.stack, pending, fuel - 1);
        }
      }
    }
  }

  /** The path with one more decision: the recorded path, the decided side, and then on from there. */
  function Resumed(pieces: Pieces, env: AEnv, p: Path, taken: bool, fuel: nat): Path
    requires IndexedByPc(pieces) && p.Forked? && p.fork.piece != [] && |p.steps| < fuel
  {
    Follow(pieces, env, if taken then p.fork.dest else EndPc(p.fork.piece), p.stack, [], None, fuel - |p.steps| - 1)
      .After(p.steps + [PathStep(p.fork.piece, Side(taken))])
  }

  /** The piece at a pc and what executing it gives lead to an open fork here. */
  predicate OpenHere(pieces: Pieces, env: AEnv, pc: nat, stack: seq<AVal>, pending: Decisions)
    requires IndexedByPc(pieces) && pc in pieces
  {
    var x := ExecuteFrom(pieces[pc], 0, stack, env);
    x.Executed? && x.fork.Some? && !(pending != [] && pending[0].0 == x.fork.value.jumpiPc)
  }

  /** Where a forked path goes on after its first piece. */
  datatype Onward = Onward(branch: Branch, pc: nat, stack: seq<AVal>, pending: Decisions)

  function OnwardOf(pieces: Pieces, env: AEnv, pc: nat, stack: seq<AVal>, pending: Decisions): Onward
    requires IndexedByPc(pieces) && pc in pieces && !OpenHere(pieces, env, pc, stack, pending)
    requires var x := ExecuteFrom(pieces[pc], 0, stack, env); x.Executed? && (x.fork.Some? || x.next.Some?)
  {
    var x := ExecuteFrom(pieces[pc], 0, stack, env);
    if x.fork.Some? then
      Onward(Side(pending[0].1), if pending[0].1 then x.fork.value.dest else EndPc(pieces[pc]), x.stack, pending[1..])
    else Onward(x.branch, x.next.value, x.stack, pending)
  }

  lemma {:induction false} FollowUnfolds(pieces: Pieces, env: AEnv, pc: nat, stack: seq<AVal>, pending: Decisions,
          fuel: nat)
    requires IndexedByPc(pieces) && Follow(pieces, env, pc, stack, pending, None, fuel).Forked?
    ensures fuel > 0 && pc in pieces
    ensures var x := ExecuteFrom(pieces[pc], 0, stack, env);
            && x.Executed?
            && if OpenHere(pieces, env, pc, stack, pending) then
                 x.fork.Some? && Follow(pieces, env, pc, stack, pending, None, fuel) == Forked([], x.fork.value,
                         x.stack, pending)
               else
                 && (x.fork.Some? || x.next.Some?)
                 && var on := OnwardOf(pieces, env, pc, stack, pending);
                    Follow(pieces, env, pc, stack, pending, None, fuel)
                    == Follow(pieces, env, on.pc, on.stack, on.pending, None, fuel - 1).After([PathStep(pieces[pc],
                            on.branch)])
  {
    hide ExecuteFrom;
  }

  /** The same with one more decision at the end. */
  lemma {:induction false} FollowLonger(pieces: Pieces, env: AEnv, pc: nat, stack: seq<AVal>, pending: Decisions,
          fuel: nat, d: (nat, bool))
    requires IndexedByPc(pieces) && fuel > 0 && pc in pieces && ExecuteFrom(pieces[pc], 0, stack, env).Executed?
    ensures var x := ExecuteFrom(pieces[pc], 0, stack, env);
            if OpenHere(pieces, env, pc, stack, pending) then
              pending == [] && x.fork.Some? && x.fork.value.jumpiPc == d.0 ==>
                Follow(pieces, env, pc, stack, pending + [d], None, fuel)
                == Follow(pieces, env, if d.1 then x.fork.value.dest else EndPc(pieces[pc]), x.stack, [], None,
                        fuel - 1)
                   .After([PathStep(pieces[pc], Side(d.1))])
            else (x.fork.Some? || x.next.Some?) ==>
              var on := OnwardOf(pieces, env, pc, stack, pending);
              Follow(pieces, env, pc, stack, pending + [d], None, fuel)
              == Follow(pieces, env, on.pc, on.stack, on.pending + [d], None, fuel - 1).After([PathStep(pieces[pc],
                      on.branch)])
  {
    hide ExecuteFrom;
    if pending == [] {
      assert (pending + [d])[0] == d && (pending + [d])[1..] == pending;
    } else {
      assert (pending + [d])[0] == pending[0] && (pending + [d])[1..] == pending[1..] + [d];
    }
  }

  /** Replaying a path's decisions followed by one for its open fork repeats the path and resumes it. */
  lemma {:induction false} FollowResumes(pieces: Pieces, env: AEnv, pc: nat, stack: seq<AVal>, pending: Decisions,
          fuel: nat,
                                         taken: bool)
    requires IndexedByPc(pieces)
    requires Follow(pieces, env, pc, stack, pending, None, fuel).Forked?
    requires Follow(pieces, env, pc, stack, pending, None, fuel).unused == []
    ensures var p := Follow(pieces, env, pc, stack, pending, None, fuel);
            && p.fork.piece != [] && |p.steps| < fuel
            && Follow(pieces, env, pc, stack, pending + [(p.fork.jumpiPc, taken)], None, fuel)
               == Resumed(pieces, env, p, taken, fuel)
    decreases fuel
  {
    hide ExecuteFrom, Follow, OpenHere, OnwardOf;
    FollowConsumes(pieces, env, pc, stack, pending, fuel);
    FollowUnfolds(pieces, env, pc, stack, pending, fuel);
    var p := Follow(pieces, env, pc, stack, pending, None, fuel);
    var d := (p.fork.jumpiPc, taken);
    var (piece, x) := (pieces[pc], ExecuteFrom(pieces[pc], 0, stack, env));
    ForkOfPiece(piece, 0, stack, env);
    FollowLonger(pieces, env, pc, stack, pending, fuel, d);
    if OpenHere(pieces, env, pc, stack, pending) {
      assert p.steps + [PathStep(piece, Side(taken))] == [PathStep(piece, Side(taken))];
    } else {
      var on := OnwardOf(pieces, env, pc, stack, pending);
      FollowResumes(pieces, env, on.pc, on.stack, on.pending, fuel - 1, taken);
      var q := Follow(pieces, env, on.pc, on.stack, on.pending, None, fuel - 1);
      var after := Follow(pieces, env, if taken then q.fork.dest else EndPc(q.fork.piece), q.stack, [], None,
              fuel - 1 - |q.steps| - 1);
      AfterAfter(after, [PathStep(piece, on.branch)], q.steps + [PathStep(q.fork.piece, Side(taken))]);
      assert [PathStep(piece, on.branch)] + (q.steps + [PathStep(q.fork.piece, Side(taken))])
             == p.steps + [PathStep(p.fork.piece, Side(taken))];
    }
  }

  // ----- the tree -----

  datatype Tree =
    | Leaf(decisions: Decisions, steps: seq<PathStep>)
    | Node(before: seq<PathStep>, fork: Fork, notTaken: Tree, taken: Tree)

  /** Replay uses up the decisions: true of all decisions the tree records. */
  predicate Settled(pieces: Pieces, env: AEnv, decisions: Decisions)
    requires IndexedByPc(pieces)
  {
    |decisions| <= MAX_REPLAY
    && (ReplayOf(pieces, env, decisions).Forked? ==> ReplayOf(pieces, env, decisions).unused == [])
  }

  lemma {:induction false} SettledNext(pieces: Pieces, env: AEnv, decisions: Decisions, taken: bool)
    requires IndexedByPc(pieces) && Settled(pieces, env, decisions) && ReplayOf(pieces, env, decisions).Forked?
    ensures |decisions| < MAX_REPLAY
    ensures Settled(pieces, env, decisions + [(ReplayOf(pieces, env, decisions).fork.jumpiPc, taken)])
  {
    hide Follow;
    FollowConsumes(pieces, env, 0, [], decisions, MAX_REPLAY);
    FollowResumes(pieces, env, 0, [], decisions, MAX_REPLAY, taken);
    var p := ReplayOf(pieces, env, decisions);
    FollowConsumes(pieces, env, if taken then p.fork.dest else EndPc(p.fork.piece), p.stack, [],
            MAX_REPLAY - |p.steps| - 1);
  }

  lemma {:induction false} SettledStart(pieces: Pieces, env: AEnv)
    requires IndexedByPc(pieces)
    ensures Settled(pieces, env, [])
  {
    hide Follow;
    FollowConsumes(pieces, env, 0, [], [], MAX_REPLAY);
  }

  predicate EndsInRevert(steps: seq<PathStep>) {
    steps != [] && var piece := steps[|steps| - 1].piece; piece != [] && piece[|piece| - 1].opcode == 0xFD
  }

  /** The recursion ends: each decision uses up one of the boundedly many visited pieces. */
  function TreeFrom(pieces: Pieces, env: AEnv, decisions: Decisions): Option<Tree>
    requires IndexedByPc(pieces) && Settled(pieces, env, decisions)
    decreases MAX_REPLAY - |decisions|
  {
    match ReplayOf(pieces, env, decisions)
    case NoPath => None
    case Finished(steps) => if EndsInRevert(steps) then Some(Leaf(decisions, steps)) else None
    case Forked(steps, fork, _, _) =>
      SettledNext(pieces, env, decisions, false);
      SettledNext(pieces, env, decisions, true);
      var notTaken :- TreeFrom(pieces, env, decisions + [(fork.jumpiPc, false)]);
      var taken :- TreeFrom(pieces, env, decisions + [(fork.jumpiPc, true)]);
      Some(Node(steps, fork, notTaken, taken))
  }

  /** The case tree of a class of calls: no decision is recorded at its root. */
  function CaseTree(pieces: Pieces, env: AEnv): Option<Tree>
    requires IndexedByPc(pieces)
  {
    SettledStart(pieces, env);
    TreeFrom(pieces, env, [])
  }

  method BuildTree(pieces: Pieces, env: AEnv, decisions: Decisions) returns (r: Option<Tree>)
    requires IndexedByPc(pieces) && Settled(pieces, env, decisions)
    ensures r == TreeFrom(pieces, env, decisions)
    decreases MAX_REPLAY - |decisions|
  {
    hide ReplayOf, Settled;
    var p := RunWithDecisions(pieces, env, decisions);
    match p {
      case NoPath => return None;
      case Finished(steps) => return if EndsInRevert(steps) then Some(Leaf(decisions, steps)) else None;
      case Forked(steps, fork, _, _) =>
        SettledNext(pieces, env, decisions, false);
        SettledNext(pieces, env, decisions, true);
        var notTaken := BuildTree(pieces, env, decisions + [(fork.jumpiPc, false)]);
        if notTaken.None? {
          return None;
        }
        var taken := BuildTree(pieces, env, decisions + [(fork.jumpiPc, true)]);
        if taken.None? {
          return None;
        }
        return Some(Node(steps, fork, notTaken.value, taken.value));
    }
  }

  /** A replay that is no case: no path, or one that does not end in REVERT. */
  predicate NoCase(p: Path) {
    match p
    case NoPath => true
    case Finished(steps) =>
      steps == [] || steps[|steps| - 1].piece == []
      || steps[|steps| - 1].piece[|steps[|steps| - 1].piece| - 1].opcode != 0xFD
    case Forked(_, _, _, _) => false
  }

  /** Decisions recorded one after another, each for the fork at which the replay of those before it ends. */
  ghost predicate Recorded(pieces: Pieces, env: AEnv, ds: seq<Decisions>)
    requires IndexedByPc(pieces)
  {
    ds != [] && forall i :: 0 <= i < |ds| - 1 ==> NextDecision(pieces, env, ds[i], ds[i + 1])
  }

  ghost predicate NextDecision(pieces: Pieces, env: AEnv, d: Decisions, d': Decisions)
    requires IndexedByPc(pieces)
  {
    var p := ReplayOf(pieces, env, d);
    p.Forked? && (d' == d + [(p.fork.jumpiPc, false)] || d' == d + [(p.fork.jumpiPc, true)])
  }

  /** The decisions lead to a replay that is no case. */
  ghost predicate LeadsAstray(pieces: Pieces, env: AEnv, ds: seq<Decisions>)
    requires IndexedByPc(pieces)
  {
    Recorded(pieces, env, ds) && NoCase(ReplayOf(pieces, env, ds[|ds| - 1]))
  }

  /** There is no case tree if and only if some decisions at its forks lead to no case. */
  lemma {:induction false} NoTreeExactly(pieces: Pieces, env: AEnv, decisions: Decisions)
    requires IndexedByPc(pieces) && Settled(pieces, env, decisions)
    ensures TreeFrom(pieces, env, decisions).None?
            <==> exists ds :: LeadsAstray(pieces, env, ds) && ds[0] == decisions
  {
    hide ReplayOf, TreeFrom, Settled;
    if TreeFrom(pieces, env, decisions).None? {
      var ds := Astray(pieces, env, decisions);
      assert LeadsAstray(pieces, env, ds);
    }
    forall ds | LeadsAstray(pieces, env, ds) && ds[0] == decisions ensures TreeFrom(pieces, env, decisions).None? {
      NoTreeAstray(pieces, env, ds);
    }
  }

  /** One level of the tree. */
  lemma {:induction false} TreeLevel(pieces: Pieces, env: AEnv, decisions: Decisions)
    requires IndexedByPc(pieces) && Settled(pieces, env, decisions)
    ensures var (t, p) := (TreeFrom(pieces, env, decisions), ReplayOf(pieces, env, decisions));
            && (!p.Forked? ==> (t.None? <==> NoCase(p)))
            && (p.Forked? ==>
                  var (d, d') := (decisions + [(p.fork.jumpiPc, false)], decisions + [(p.fork.jumpiPc, true)]);
                  && |decisions| < MAX_REPLAY && Settled(pieces, env, d) && Settled(pieces, env, d')
                  && (t.None? <==> TreeFrom(pieces, env, d).None? || TreeFrom(pieces, env, d').None?))
  {
    hide ReplayOf, Settled;
    var p := ReplayOf(pieces, env, decisions);
    if p.Forked? {
      SettledNext(pieces, env, decisions, false);
      SettledNext(pieces, env, decisions, true);
    }
  }

  lemma {:induction false} Astray(pieces: Pieces, env: AEnv, decisions: Decisions) returns (ds: seq<Decisions>)
    requires IndexedByPc(pieces) && Settled(pieces, env, decisions) && TreeFrom(pieces, env, decisions).None?
    ensures LeadsAstray(pieces, env, ds) && ds[0] == decisions
    decreases MAX_REPLAY - |decisions|
  {
    hide ReplayOf, TreeFrom, Settled, NoCase;
    TreeLevel(pieces, env, decisions);
    var p := ReplayOf(pieces, env, decisions);
    if !p.Forked? {
      ds := [decisions];
    } else {
      var (d, d') := (decisions + [(p.fork.jumpiPc, false)], decisions + [(p.fork.jumpiPc, true)]);
      var next := if TreeFrom(pieces, env, d).None? then d else d';
      var rest := Astray(pieces, env, next);
      ds := [decisions] + rest;
      forall i | 0 <= i < |ds| - 1 ensures NextDecision(pieces, env, ds[i], ds[i + 1]) {
        if i > 0 {
          assert ds[i] == rest[i - 1] && ds[i + 1] == rest[i];
        }
      }
    }
  }

  lemma {:induction false} NoTreeAstray(pieces: Pieces, env: AEnv, ds: seq<Decisions>)
    requires IndexedByPc(pieces) && LeadsAstray(pieces, env, ds) && Settled(pieces, env, ds[0])
    ensures TreeFrom(pieces, env, ds[0]).None?
    decreases |ds|
  {
    hide ReplayOf, TreeFrom, Settled;
    TreeLevel(pieces, env, ds[0]);
    if |ds| > 1 {
      var rest := ds[1..];
      assert NextDecision(pieces, env, ds[0], ds[1]);
      forall i | 0 <= i < |rest| - 1 ensures NextDecision(pieces, env, rest[i], rest[i + 1]) {
        assert ds[i + 1] == rest[i] && ds[i + 2] == rest[i + 1];
      }
      NoTreeAstray(pieces, env, rest);
    }
  }

  // ----- concrete executions and leaves -----

  function Leaves(t: Tree): seq<(Decisions, seq<PathStep>)> {
    match t
    case Leaf(decisions, steps) => [(decisions, steps)]
    case Node(_, _, notTaken, taken) => Leaves(notTaken) + Leaves(taken)
  }

  /** A leaf's decisions replay to the leaf's path. */
  lemma {:induction false} LeavesReplay(pieces: Pieces, env: AEnv, decisions: Decisions, t: Tree)
    requires IndexedByPc(pieces) && Settled(pieces, env, decisions) && TreeFrom(pieces, env, decisions) == Some(t)
    ensures forall l :: l in Leaves(t) ==> ReplayOf(pieces, env, l.0) == Finished(l.1) && EndsInRevert(l.1)
    decreases t
  {
    hide Follow, EndsInRevert;
    var p := ReplayOf(pieces, env, decisions);
    if p.Forked? {
      SettledNext(pieces, env, decisions, false);
      SettledNext(pieces, env, decisions, true);
      LeavesReplay(pieces, env, decisions + [(p.fork.jumpiPc, false)], t.notTaken);
      LeavesReplay(pieces, env, decisions + [(p.fork.jumpiPc, true)], t.taken);
    }
  }

  lemma {:induction false} TakesAppend(a: seq<PathStep>, b: seq<PathStep>, st: State, env: Env)
    ensures Takes(a + b, st, env) <==>
            Takes(a, st, env) && var r := After(a, st, env);
                                 CutShort(r) || (if r.Next? then Takes(b, r.state, env) else b == [])
    ensures After(a + b, st, env) == var r := After(a, st, env); if r.Next? then After(b, r.state, env) else r
    decreases |a|
  {
    hide Run, ConcreteBranch;
    if a == [] {
      assert a + b == b;
    } else {
      assert (a + b)[0] == a[0] && (a + b)[1..] == a[1..] + b;
      var r := Run(st, |a[0].piece|, env);
      if r.Next? {
        TakesAppend(a[1..], b, r.state, env);
      }
    }
  }

  /** One more decision leaves the visited pieces of its continuation right. */
  lemma {:induction false} PathOkResumes(pieces: Pieces, a: AEnv, claims: Claims, table: set<nat>, env: Env, pc: nat,
                                         stack: seq<AVal>, pending: Decisions, fuel: nat, taken: bool)
    requires IndexedByPc(pieces)
    requires var p := Follow(pieces, a, pc, stack, pending, None, fuel);
             p.Forked? && p.unused == []
             && PathOk(pieces, a, claims, table, env, pc, stack, pending + [(p.fork.jumpiPc, taken)], None, fuel)
    ensures var p := Follow(pieces, a, pc, stack, pending, None, fuel);
            && p.fork.piece != [] && |p.steps| < fuel
            && PathOk(pieces, a, claims, table, env, if taken then p.fork.dest else EndPc(p.fork.piece), p.stack, [],
                    None,
                      fuel - |p.steps| - 1)
    decreases fuel
  {
    hide ExecuteFrom, PieceOk;
    FollowConsumes(pieces, a, pc, stack, pending, fuel);
    var p := Follow(pieces, a, pc, stack, pending, None, fuel);
    var d := (p.fork.jumpiPc, taken);
    var piece := pieces[pc];
    var x := ExecuteFrom(piece, 0, stack, a);
    ForkOfPiece(piece, 0, stack, a);
    if x.fork.Some? && !(pending != [] && pending[0].0 == x.fork.value.jumpiPc) {
      assert (pending + [d])[0] == d && (pending + [d])[1..] == pending;
    } else {
      var next := if x.fork.Some? then (if pending[0].1 then x.fork.value.dest else EndPc(piece)) else x.next.value;
      var rest := if x.fork.Some? then pending[1..] else pending;
      if x.fork.Some? {
        assert (pending + [d])[0] == pending[0] && (pending + [d])[1..] == pending[1..] + [d];
      }
      PathOkResumes(pieces, a, claims, table, env, next, x.stack, rest, fuel - 1, taken);
    }
  }

  /** The analysis is right on every replay of the tree. */
  predicate TreeOk(pieces: Pieces, a: AEnv, claims: Claims, table: set<nat>, env: Env, decisions: Decisions)
    requires IndexedByPc(pieces) && Settled(pieces, a, decisions)
    decreases MAX_REPLAY - |decisions|
  {
    && PathOk(pieces, a, claims, table, env, 0, [], decisions, None, MAX_REPLAY)
    && var p := ReplayOf(pieces, a, decisions);
       p.Forked? ==>
         (SettledNext(pieces, a, decisions, false);
          TreeOk(pieces, a, claims, table, env, decisions + [(p.fork.jumpiPc, false)]))
         && (SettledNext(pieces, a, decisions, true);
             TreeOk(pieces, a, claims, table, env, decisions + [(p.fork.jumpiPc, true)]))
  }

  /** Where a replay stands once its decisions are used up: pieces visited, pc, stack and steps left. */
  datatype Position = Position(before: seq<PathStep>, pc: nat, stack: seq<AVal>, fuel: nat)

  predicate ReplayStands(pieces: Pieces, a: AEnv, decisions: Decisions, at: Position)
    requires IndexedByPc(pieces)
  {
    ReplayOf(pieces, a, decisions) == Follow(pieces, a, at.pc, at.stack, [], None, at.fuel).After(at.before)
  }

  /** The execution has followed the replay so far and is where the replay stands, or was cut short. */
  predicate Stands(at: Position, st: State, a: AEnv, env: Env) {
    && Takes(at.before, st, env)
    && var r := After(at.before, st, env);
       CutShort(r) || (r.Next? && r.state.pc == at.pc && MeansAll(at.stack, r.state.stack, a, env))
  }

  /** The side of an open fork that the execution takes. */
  lemma {:induction false} TakeSide(pieces: Pieces, a: AEnv, claims: Claims, table: set<nat>, env: Env,
          decisions: Decisions, at: Position,
                 st: State) returns (taken: bool, next: Position)
    requires PieceTable(pieces) && Settled(pieces, a, decisions) && TreeOk(pieces, a, claims, table, env, decisions)
    requires ReplayStands(pieces, a, decisions, at) && Stands(at, st, a, env)
    requires PathOk(pieces, a, claims, table, env, at.pc, at.stack, [], None, at.fuel)
    requires ClaimsHold(claims, a, table, env) && ReplayOf(pieces, a, decisions).Forked?
    ensures var decisions' := decisions + [(ReplayOf(pieces, a, decisions).fork.jumpiPc, taken)];
            && Settled(pieces, a, decisions') && TreeOk(pieces, a, claims, table, env, decisions')
            && ReplayStands(pieces, a, decisions', next) && Stands(next, st, a, env)
            && PathOk(pieces, a, claims, table, env, next.pc, next.stack, [], None, next.fuel)
  {
    hide Follow, PathOk, ClaimsHold, Run, ConcreteBranch, MeansAll, PieceTable, Takes, After;
    Indexed(pieces);
    var p := ReplayOf(pieces, a, decisions);
    var q := Follow(pieces, a, at.pc, at.stack, [], None, at.fuel);
    var r := After(at.before, st, env);
    taken := true;
    if r.Next? {
      PathSound(pieces, a, claims, table, env, at.pc, at.stack, None, at.fuel, r.state);
      var r' := After(q.steps, r.state, env);
      if r'.Next? {
        taken := ConcreteBranch(p.fork.piece, 0, r'.state, env).Taken?;
      }
    }
    SettledNext(pieces, a, decisions, false);
    SettledNext(pieces, a, decisions, true);
    FollowResumes(pieces, a, 0, [], decisions, MAX_REPLAY, taken);
    TreeOkNext(pieces, a, claims, table, env, decisions, taken);
    PathOkResumes(pieces, a, claims, table, env, 0, [], decisions, MAX_REPLAY, taken);
    var step := PathStep(p.fork.piece, Side(taken));
    next := Position(p.steps + [step], if taken then p.fork.dest else EndPc(p.fork.piece), p.stack,
            MAX_REPLAY - |p.steps| - 1);
    TakesAppend(at.before, q.steps, st, env);
    TakesAppend(p.steps, [step], st, env);
    if After(p.steps, st, env).Next? {
      OneStep(step, After(p.steps, st, env).state, env);
    }
  }

  lemma {:induction false} Indexed(pieces: Pieces)
    requires PieceTable(pieces)
    ensures IndexedByPc(pieces)
  {
  }

  lemma {:induction false} TreeOkNext(pieces: Pieces, a: AEnv, claims: Claims, table: set<nat>, env: Env,
          decisions: Decisions, taken: bool)
    requires IndexedByPc(pieces) && Settled(pieces, a, decisions) && TreeOk(pieces, a, claims, table, env, decisions)
    requires ReplayOf(pieces, a, decisions).Forked?
    ensures var decisions' := decisions + [(ReplayOf(pieces, a, decisions).fork.jumpiPc, taken)];
            && Settled(pieces, a, decisions') && TreeOk(pieces, a, claims, table, env, decisions')
            && PathOk(pieces, a, claims, table, env, 0, [], decisions', None, MAX_REPLAY)
  {
    hide Follow, PathOk;
    SettledNext(pieces, a, decisions, taken);
  }

  lemma {:induction false} OneStep(step: PathStep, st: State, env: Env)
    ensures Takes([step], st, env) <==>
            step.piece != [] && st.pc == step.piece[0].pc
            && (CutShort(Run(st, |step.piece|, env)) || step.branch == ConcreteBranch(step.piece, 0, st, env))
    ensures After([step], st, env) == Run(st, |step.piece|, env)
  {
    hide Run, ConcreteBranch;
    assert [step][1..] == [];
  }

  /** Completeness: every unmatched call follows some leaf. */
  lemma {:induction false} SomeLeaf(pieces: Pieces, a: AEnv, claims: Claims, table: set<nat>, env: Env,
                                    decisions: Decisions, t: Tree, at: Position, st: State)
    requires PieceTable(pieces) && Settled(pieces, a, decisions) && TreeOk(pieces, a, claims, table, env, decisions)
    requires TreeFrom(pieces, a, decisions) == Some(t)
    requires ReplayStands(pieces, a, decisions, at) && Stands(at, st, a, env)
    requires PathOk(pieces, a, claims, table, env, at.pc, at.stack, [], None, at.fuel)
    requires ClaimsHold(claims, a, table, env)
    ensures exists l :: l in Leaves(t) && Takes(l.1, st, env)
    decreases t
  {
    hide Follow, PathOk, ClaimsHold, MeansAll, PieceTable, Takes, After, TreeOk, EndsInRevert, ReplayStands, Stands,
         ReplayOf,
         Settled;
    Indexed(pieces);
    var p := ReplayOf(pieces, a, decisions);
    if p.Forked? {
      var taken, next := TakeSide(pieces, a, claims, table, env, decisions, at, st);
      var decisions' := decisions + [(p.fork.jumpiPc, taken)];
      var child := if taken then t.taken else t.notTaken;
      SomeLeaf(pieces, a, claims, table, env, decisions', child, next, st);
      var l :| l in Leaves(child) && Takes(l.1, st, env);
      assert l in Leaves(t);
    } else {
      FinishedTaken(pieces, a, claims, table, env, decisions, at, st);
      assert (decisions, p.steps) in Leaves(t);
    }
  }

  lemma {:induction false} FinishedTaken(pieces: Pieces, a: AEnv, claims: Claims, table: set<nat>, env: Env,
          decisions: Decisions, at: Position,
                      st: State)
    requires PieceTable(pieces) && ReplayStands(pieces, a, decisions, at) && Stands(at, st, a, env)
    requires PathOk(pieces, a, claims, table, env, at.pc, at.stack, [], None, at.fuel)
    requires ClaimsHold(claims, a, table, env) && ReplayOf(pieces, a, decisions).Finished?
    ensures Takes(ReplayOf(pieces, a, decisions).steps, st, env)
  {
    hide Follow, PathOk, ClaimsHold, MeansAll, PieceTable, Takes, After;
    Indexed(pieces);
    var q := Follow(pieces, a, at.pc, at.stack, [], None, at.fuel);
    var r := After(at.before, st, env);
    if r.Next? {
      PathSound(pieces, a, claims, table, env, at.pc, at.stack, None, at.fuel, r.state);
    }
    TakesAppend(at.before, q.steps, st, env);
  }

  // ----- leaves exclude each other -----

  predicate StartsWith(steps: seq<PathStep>, before: seq<PathStep>) {
    |before| <= |steps| && steps[..|before|] == before
  }

  /** All leaves of a subtree share the path to it. */
  lemma {:induction false} LeavesShare(pieces: Pieces, a: AEnv, decisions: Decisions, t: Tree, at: Position)
    requires IndexedByPc(pieces) && Settled(pieces, a, decisions) && TreeFrom(pieces, a, decisions) == Some(t)
    requires ReplayStands(pieces, a, decisions, at)
    ensures forall l :: l in Leaves(t) ==> StartsWith(l.1, at.before)
    decreases t
  {
    hide Follow, EndsInRevert;
    var p := ReplayOf(pieces, a, decisions);
    if p.Forked? {
      var left := Child(pieces, a, decisions, t, false);
      var right := Child(pieces, a, decisions, t, true);
      forall l | l in Leaves(t) ensures StartsWith(l.1, at.before) {
        assert StartsWith(l.1, left.before) || StartsWith(l.1, right.before);
        assert p.steps[..|at.before|] == at.before;
      }
    }
  }

  /** The leaves on one side of a node take that side. */
  lemma {:induction false} Child(pieces: Pieces, a: AEnv, decisions: Decisions, t: Tree,
          taken: bool) returns (at: Position)
    requires IndexedByPc(pieces) && Settled(pieces, a, decisions) && TreeFrom(pieces, a, decisions) == Some(t)
    requires ReplayOf(pieces, a, decisions).Forked?
    ensures at.before == t.before + [PathStep(t.fork.piece, Side(taken))]
    ensures forall l :: l in Leaves(if taken then t.taken else t.notTaken) ==> StartsWith(l.1, at.before)
    decreases t, 0
  {
    hide Follow, EndsInRevert;
    var p := ReplayOf(pieces, a, decisions);
    SettledNext(pieces, a, decisions, taken);
    FollowResumes(pieces, a, 0, [], decisions, MAX_REPLAY, taken);
    at := Position(p.steps + [PathStep(p.fork.piece, Side(taken))],
            if taken then p.fork.dest else EndPc(p.fork.piece), p.stack,
                   MAX_REPLAY - |p.steps| - 1);
    LeavesShare(pieces, a, decisions + [(p.fork.jumpiPc, taken)], if taken then t.taken else t.notTaken, at);
  }

  /** The whole path is taken, not cut short. */
  predicate Completes(steps: seq<PathStep>, st: State, env: Env) {
    Takes(steps, st, env) && !CutShort(After(steps, st, env))
  }

  lemma {:induction false} OneLeaf(pieces: Pieces, a: AEnv, decisions: Decisions, t: Tree, st: State, env: Env,
          i: nat, j: nat)
    requires IndexedByPc(pieces) && Settled(pieces, a, decisions) && TreeFrom(pieces, a, decisions) == Some(t)
    requires i < |Leaves(t)| && j < |Leaves(t)|
    requires Completes(Leaves(t)[i].1, st, env) && Completes(Leaves(t)[j].1, st, env)
    ensures i == j
    decreases t
  {
    hide Follow, EndsInRevert, Completes, ReplayOf;
    if t.Node? {
      var p := ReplayOf(pieces, a, decisions);
      SettledNext(pieces, a, decisions, false);
      SettledNext(pieces, a, decisions, true);
      var n := |Leaves(t.notTaken)|;
      if i < n && j < n {
        OneLeaf(pieces, a, decisions + [(p.fork.jumpiPc, false)], t.notTaken, st, env, i, j);
      } else if i >= n && j >= n {
        OneLeaf(pieces, a, decisions + [(p.fork.jumpiPc, true)], t.taken, st, env, i - n, j - n);
      } else {
        var left := Child(pieces, a, decisions, t, false);
        var right := Child(pieces, a, decisions, t, true);
        var (x, y) := if i < n then (Leaves(t)[i].1, Leaves(t)[j].1) else (Leaves(t)[j].1, Leaves(t)[i].1);
        SidesDiffer(x, y, t.before, t.fork.piece, st, env);
      }
    }
  }

  lemma {:induction false} SidesDiffer(x: seq<PathStep>, y: seq<PathStep>, before: seq<PathStep>,
          piece: seq<Instruction>, st: State, env: Env)
    requires StartsWith(x, before + [PathStep(piece, FallThrough)]) && StartsWith(y, before + [PathStep(piece, Taken)])
    ensures !(Completes(x, st, env) && Completes(y, st, env))
  {
    hide Takes, After;
    var (f, t) := ([PathStep(piece, FallThrough)], [PathStep(piece, Taken)]);
    var (x', y') := (x[|before| + 1..], y[|before| + 1..]);
    assert x == before + (f + x') && y == before + (t + y');
    TakesAppend(before, f + x', st, env);
    TakesAppend(before, t + y', st, env);
    var r := After(before, st, env);
    if r.Next? {
      TakesAppend(f, x', r.state, env);
      TakesAppend(t, y', r.state, env);
      OneStep(f[0], r.state, env);
      OneStep(t[0], r.state, env);
    }
  }

  // ----- main result -----

  lemma {:induction false} AfterIsRun(steps: seq<PathStep>, st: State, env: Env) returns (n: nat)
    ensures After(steps, st, env) == Run(st, n, env)
    decreases |steps|
  {
    hide Step;
    n := 0;
    if steps != [] {
      var k := |steps[0].piece|;
      var r := Run(st, k, env);
      n := k;
      if r.Next? {
        var m := AfterIsRun(steps[1..], r.state, env);
        RunSplit(st, k, m, env);
        n := k + m;
      }
    }
  }

  /** The execution neither faults nor runs out of gas. */
  ghost predicate NeverCutShort(st: State, env: Env) {
    forall n: nat :: !CutShort(Run(st, n, env))
  }

  /** A call starts at pc 0 with an empty stack. */
  predicate CallStart(st: State) {
    st.pc == 0 && st.stack == []
  }

  /** Every path of the case tree is loaded and answered rightly. */
  predicate RootOk(pieces: Pieces, a: AEnv, claims: Claims, table: set<nat>, env: Env)
    requires IndexedByPc(pieces)
  {
    SettledStart(pieces, a);
    TreeOk(pieces, a, claims, table, env, [])
  }

  /**
   Completeness of the case tree: an unmatched call follows a leaf as far as it gets, and if it neither
   faults nor runs out of gas it follows exactly one leaf, through the leaf's last piece.
   */
  lemma {:induction false} UnmatchedFollowsOneLeaf(pieces: Pieces, a: AEnv, claims: Claims, table: set<nat>, env: Env,
          t: Tree, st: State)
    requires PieceTable(pieces) && CaseTree(pieces, a) == Some(t)
    requires RootOk(pieces, a, claims, table, env) && ClaimsHold(claims, a, table, env) && CallStart(st)
    ensures exists i :: 0 <= i < |Leaves(t)| && Takes(Leaves(t)[i].1, st, env)
    ensures NeverCutShort(st, env) ==> exists i :: 0 <= i < |Leaves(t)| && Completes(Leaves(t)[i].1, st, env)
    ensures forall i, j | 0 <= i < |Leaves(t)| && 0 <= j < |Leaves(t)| ::
              Completes(Leaves(t)[i].1, st, env) && Completes(Leaves(t)[j].1, st, env) ==> i == j
  {
    hide Follow, ClaimsHold, Takes, After, EndsInRevert, TreeFrom, Settled, Completes, Run, Leaves;
    Indexed(pieces);
    SettledStart(pieces, a);
    var at := Position([], 0, [], MAX_REPLAY);
    AtStart(pieces, a, claims, table, env, at, st);
    SomeLeaf(pieces, a, claims, table, env, [], t, at, st);
    var l :| l in Leaves(t) && Takes(l.1, st, env);
    var i :| 0 <= i < |Leaves(t)| && Leaves(t)[i] == l;
    if NeverCutShort(st, env) {
      NeverCutCompletes(l.1, st, env);
      assert Completes(Leaves(t)[i].1, st, env);
    }
    forall i, j | 0 <= i < |Leaves(t)| && 0 <= j < |Leaves(t)|
                  && Completes(Leaves(t)[i].1, st, env) && Completes(Leaves(t)[j].1, st, env)
      ensures i == j
    {
      OneLeaf(pieces, a, [], t, st, env, i, j);
    }
  }

  lemma {:induction false} NeverCutCompletes(steps: seq<PathStep>, st: State, env: Env)
    requires Takes(steps, st, env) && NeverCutShort(st, env)
    ensures Completes(steps, st, env)
  {
    hide Takes, After, Run;
    var n := AfterIsRun(steps, st, env);
  }

  lemma {:induction false} AtStart(pieces: Pieces, a: AEnv, claims: Claims, table: set<nat>, env: Env, at: Position,
          st: State)
    requires at == Position([], 0, [], MAX_REPLAY) && IndexedByPc(pieces) && CallStart(st) && Settled(pieces, a, [])
    requires TreeOk(pieces, a, claims, table, env, [])
    ensures ReplayStands(pieces, a, [], at) && Stands(at, st, a, env)
    ensures PathOk(pieces, a, claims, table, env, at.pc, at.stack, [], None, at.fuel)
  {
    hide Follow, PathOk;
    var p := ReplayOf(pieces, a, []);
    assert p.After([]) == p by {
      if !p.NoPath? {
        assert [] + p.steps == p.steps;
      }
    }
  }
}
