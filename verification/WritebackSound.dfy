/**
 Writing back preserves meaning: a program whose written memory objects have one name each runs the same by
 reference as its translation runs by copy.
 */
module WritebackSound {
  import opened Options
  import opened MemoryLang
  import opened MemoryCopy
  import opened WritebackFrames
  import opened WritebackReturns

  // ----- simulation -----

  /** The two runs end alike. */
  ghost predicate SameRun(r: RefOutcome, c: CopyOutcome) {
    match r
    case Wrong => true
    case Diverges => c.CDiverges?
    case Reverts => c.CReverts?
    case Runs(h, env) => c.CRuns? && c.st == View(h, env)
    case Breaks(h, env) => c.CBreaks? && c.st == View(h, env)
    case Continues(h, env) => c.CContinues? && c.st == View(h, env)
    case Returns(h, _, locs) => c.CReturns? && c.vals == Values(h, locs)
  }

  /** The outcome by reference and the outcome by copy agree, and the activation's invariant holds. */
  ghost predicate Agree(F: Frame, r: RefOutcome, c: CopyOutcome) {
    match r
    case Wrong => true
    case Diverges => c.CDiverges?
    case Reverts => c.CReverts?
    case Runs(h, env) => c.CRuns? && Inv(F, h, env) && c.st == View(h, env)
    case Breaks(h, env) => c.CBreaks? && Inv(F, h, env) && c.st == View(h, env)
    case Continues(h, env) => c.CContinues? && Inv(F, h, env) && c.st == View(h, env)
    case Returns(h, env, locs) =>
      && c.CReturns? && Inv(F, h, env) && ResultsKept(F, h, locs)
      && c.vals == Values(h, locs) + FinalValues(F.locs, F.w, |F.locs|, h)
  }

  /** A statement of the activation's body, with what the analysis says of it. */
  ghost predicate Admissible(p: Program, wb: Writebacks, notes: Notes, F: Frame, s: Stmt) {
    && StmtOk(p, wb, notes, F.fn.params, F.note, s)
    && InPlace(s, wb) <= F.loud
    && (forall i :: i in F.w ==> i < |F.fn.params| && F.fn.params[i].name !in Rebound(s))
  }

  lemma {:induction false} AdmissibleParts(p: Program, wb: Writebacks, notes: Notes, F: Frame, s: Stmt)
    requires Admissible(p, wb, notes, F, s)
    ensures s.Seq? ==> Admissible(p, wb, notes, F, s.first) && Admissible(p, wb, notes, F, s.second)
    ensures s.Hoisted? ==> Admissible(p, wb, notes, F, s.pre) && Admissible(p, wb, notes, F, s.call) && HoistOk(wb, s, map[])
    ensures s.If? ==> Admissible(p, wb, notes, F, s.onTrue) && Admissible(p, wb, notes, F, s.onFalse)
    ensures s.While? ==> Admissible(p, wb, notes, F, s.body)
    ensures s.Return? ==> ReturnOk(F.fn.params, F.note, s.es)
    ensures s.Alias? ==> Follows(F.note.may, s.x, s.y)
  {
    hide CallOk, ResultsOk, HoistOk, ReturnOk, Follows;
  }

  ghost function CalleeFrame(p: Program, wb: Writebacks, notes: Notes, f: string, args: seq<Arg>, h: Heap, env: Bindings,
          ops: Ops): Frame
    requires f in p && |args| == |p[f].params|
  {
    var w := WritebackOf(wb, f);
    Frame(p[f], w, Bind(p[f].params, args, h, env, ops).1, h, Loud(p[f], w, wb), NoteOf(notes, f))
  }

  lemma {:induction false} CalleeFits(p: Program, wb: Writebacks, notes: Notes, f: string, args: seq<Arg>, h: Heap,
          env: Bindings, ops: Ops)
    requires ProgramOk(p, wb, notes) && f in p && |args| == |p[f].params|
    ensures var G := CalleeFrame(p, wb, notes, f, args, h, env, ops);
            CalleeOk(G) && Admissible(p, wb, notes, G, p[f].body)
  {
    hide StmtOk, InPlace, Rebound, WritebackOf, Bind, ReturnOk, MayOk, ParamsMay, DistinctNames;
    Checked(p, wb, notes, f);
    LoudCallee(p, wb, notes, f);
  }

  lemma {:induction false} Checked(p: Program, wb: Writebacks, notes: Notes, f: string)
    requires ProgramOk(p, wb, notes) && f in p
    ensures FnOk(p, wb, notes, f) && DistinctNames(p[f])
    ensures forall i :: i in WritebackOf(wb, f) ==> i < |p[f].params| && p[f].params[i].mem
  {
    hide Modified, NoteOk, Rebound;
  }

  /** Of a checked function's memory parameters exactly those written back may be written. */
  lemma {:induction false} LoudCallee(p: Program, wb: Writebacks, notes: Notes, f: string)
    requires f in p && FnOk(p, wb, notes, f)
    ensures CalleeLoud(p[f], WritebackOf(wb, f), Loud(p[f], WritebackOf(wb, f), wb))
  {
    hide NoteOk, InPlace, Rebound, WritebackOf;
    var (g, w) := (p[f], WritebackOf(wb, f));
    forall i | 0 <= i < |g.params| && g.params[i].mem ensures g.params[i].name in Loud(g, w, wb) <==> i in w {
      if g.params[i].name in InPlace(g.body, wb) {
        assert i in Modified(g, wb);
      }
    }
  }

  lemma {:induction false} EndsNeverRuns(p: Program, ops: Ops, fn: Fn, s: Stmt, h: Heap, env: Bindings, fuel: nat)
    requires EndsWithReturn(s)
    ensures !ExecRef(p, ops, fn, s, h, env, fuel).Runs?
    decreases s
  {
    hide View, EvalAll, ReturnRef;
    if s.Seq? {
      var r := ExecRef(p, ops, fn, s.first, h, env, fuel);
      if r.Runs? {
        EndsNeverRuns(p, ops, fn, s.second, r.h, r.env, fuel);
      }
    }
  }

  /** Every statement ends by reference as its translation ends by copy, and keeps the activation's invariant. */
  lemma {:induction false} Simulates(p: Program, wb: Writebacks, notes: Notes, ops: Ops, F: Frame, s: Stmt, h: Heap,
          env: Bindings, tmp: Packed, fuel: nat)
    requires ProgramOk(p, wb, notes) && FrameOk(F) && Admissible(p, wb, notes, F, s) && Inv(F, h, env)
    ensures Agree(F, ExecRef(p, ops, F.fn, s, h, env, fuel),
                  ExecCopy(TranslateProgram(wb, p), ops, Translate(wb, F.fn, F.w, s), View(h, env), tmp, fuel))
    decreases fuel, 1, s, 1
  {
    hide Inv, View, Agree, Eval, EvalAll, EvalPath, Set, WriteLoc, ProgramOk, Admissible, FrameOk, CallRef, HoistOk,
         TranslateCall, TranslateProgram, FinalValues, ReturnedNames, WritebackReads, ReturnRef, ReturnNames, AddHoist,
         ReturnOk, Follows, TranslateHoisted;
    var tp := TranslateProgram(wb, p);
    AdmissibleParts(p, wb, notes, F, s);
    match s {
      case Skip => AgreeRuns(F, h, env, tmp);
      case Assign(x, path, e) => AssignSimulates(p, wb, notes, ops, F, s, h, env, tmp, fuel);
      case Alias(_, _, _, _) => AliasSimulates(p, wb, notes, ops, F, s, h, env, tmp, fuel);
      case Call(_, _, _) =>
        NoHoistsRepeat(tp, ops, WritebackOf(wb, s.f), s.args, View(h, env), fuel);
        CallSimulates(p, wb, notes, ops, F, s, map[], h, env, tmp, fuel);
      case Hoisted(_, _, _) => HoistSimulates(p, wb, notes, ops, F, s, map[], map[], h, env, tmp, fuel);
      case Return(es) => ReturnSimulates(p, wb, ops, F, s, h, env, tmp, fuel);
      case ReturnNamed => ReturnSimulates(p, wb, ops, F, s, h, env, tmp, fuel);
      case Seq(first, second) =>
        Simulates(p, wb, notes, ops, F, first, h, env, tmp, fuel);
        var r := ExecRef(p, ops, F.fn, first, h, env, fuel);
        var c := ExecCopy(tp, ops, Translate(wb, F.fn, F.w, first), View(h, env), tmp, fuel);
        AgreeOpen(F, r, c);
        AgreeWrong(F);
        if r.Runs? {
          Simulates(p, wb, notes, ops, F, second, r.h, r.env, c.tmp, fuel);
        }
      case If(cond, onTrue, onFalse) =>
        Simulates(p, wb, notes, ops, F, if Scalar(Eval(cond, View(h, env), ops)) != 0 then onTrue else onFalse, h, env,
                  tmp, fuel);
      case While(_, _) => LoopSimulates(p, wb, notes, ops, F, s, h, env, tmp, fuel);
      case Break => AgreeRuns(F, h, env, tmp);
      case Continue => AgreeRuns(F, h, env, tmp);
      case Require(cond) =>
        AgreeRuns(F, h, env, tmp);
        AgreeDiverges(F);
    }
  }

  lemma {:induction false} LoopSimulates(p: Program, wb: Writebacks, notes: Notes, ops: Ops, F: Frame, s: Stmt, h: Heap,
          env: Bindings, tmp: Packed, fuel: nat)
    requires ProgramOk(p, wb, notes) && FrameOk(F) && Admissible(p, wb, notes, F, s) && Inv(F, h, env) && s.While?
    ensures Agree(F, ExecRef(p, ops, F.fn, s, h, env, fuel),
                  ExecCopy(TranslateProgram(wb, p), ops, Translate(wb, F.fn, F.w, s), View(h, env), tmp, fuel))
    decreases fuel, 1, s, 0
  {
    hide Inv, View, Agree, Eval, ProgramOk, Admissible, FrameOk, TranslateProgram;
    var tp := TranslateProgram(wb, p);
    AdmissibleParts(p, wb, notes, F, s);
    AgreeRuns(F, h, env, tmp);
    AgreeDiverges(F);
    if Scalar(Eval(s.cond, View(h, env), ops)) != 0 && fuel > 0 {
      Simulates(p, wb, notes, ops, F, s.body, h, env, tmp, fuel);
      var r := ExecRef(p, ops, F.fn, s.body, h, env, fuel);
      var c := ExecCopy(tp, ops, Translate(wb, F.fn, F.w, s.body), View(h, env), tmp, fuel);
      AgreeOpen(F, r, c);
      AgreeWrong(F);
      if r.Runs? || r.Continues? {
        Simulates(p, wb, notes, ops, F, s, r.h, r.env, c.tmp, fuel - 1);
      } else if r.Breaks? {
        AgreeRuns(F, r.h, r.env, c.tmp);
      }
    }
  }

  /** A call hoisted out of an argument, then the call itself. */
  lemma {:induction false} HoistSimulates(p: Program, wb: Writebacks, notes: Notes, ops: Ops, F: Frame, s: Stmt,
          again: Hoists, used: map<nat, set<string>>, h: Heap, env: Bindings, tmp: Packed, fuel: nat)
    requires ProgramOk(p, wb, notes) && FrameOk(F) && Admissible(p, wb, notes, F, s) && Inv(F, h, env)
    requires s.Hoisted? && HoistOk(wb, s, used) && AllRepeat(TranslateProgram(wb, p), ops, again, used, View(h, env), fuel)
    ensures var t := Translate(wb, F.fn, F.w, s.pre);
            var c := CSeq(t, TranslateHoisted(wb, F.fn, F.w, s.call, AddHoist(again, s.at, t)));
            Agree(F, ExecRef(p, ops, F.fn, s, h, env, fuel),
                  ExecCopy(TranslateProgram(wb, p), ops, c, View(h, env), tmp, fuel))
    decreases fuel, 1, s, 0
  {
    hide Inv, View, Agree, ProgramOk, Admissible, FrameOk, TranslateProgram, TranslateHoisted, AllRepeat, AddHoist,
         TranslateCall, CallRef, AllNames, ArgExprs;
    var tp := TranslateProgram(wb, p);
    var t := Translate(wb, F.fn, F.w, s.pre);
    AdmissibleParts(p, wb, notes, F, s);
    Simulates(p, wb, notes, ops, F, s.pre, h, env, tmp, fuel);
    var r := ExecRef(p, ops, F.fn, s.pre, h, env, fuel);
    var c := ExecCopy(tp, ops, t, View(h, env), tmp, fuel);
    AgreeOpen(F, r, c);
    AgreeWrong(F);
    if r.Runs? {
      var x := s.pre.rs[0];
      ResultDeclared(p, ops, F.fn, s.pre, h, env, fuel);
      OneMoreRepeats(tp, ops, wb, again, used, s.at, s.pre, View(h, env), tmp, fuel);
      var used' := used[s.at := NamesAt(used, s.at) + AllNames(ArgExprs(s.pre.args)) + {x}];
      CallOfHoisted(p, wb, notes, ops, F, s.call, AddHoist(again, s.at, t), used', r.h, r.env, c.tmp, fuel);
    }
  }

  lemma {:induction false} ResultDeclared(p: Program, ops: Ops, fn: Fn, s: Stmt, h: Heap, env: Bindings, fuel: nat)
    requires s.Call? && |s.rs| == 1 && ExecRef(p, ops, fn, s, h, env, fuel).Runs?
    ensures s.rs[0] in View(h, env)
  {
    hide CallRef, View;
  }

  lemma {:induction false} CallOfHoisted(p: Program, wb: Writebacks, notes: Notes, ops: Ops, F: Frame, s: Stmt,
          again: Hoists, used: map<nat, set<string>>, h: Heap, env: Bindings, tmp: Packed, fuel: nat)
    requires ProgramOk(p, wb, notes) && FrameOk(F) && Admissible(p, wb, notes, F, s) && Inv(F, h, env)
    requires HoistOk(wb, s, used) && AllRepeat(TranslateProgram(wb, p), ops, again, used, View(h, env), fuel)
    ensures Agree(F, ExecRef(p, ops, F.fn, s, h, env, fuel),
                  ExecCopy(TranslateProgram(wb, p), ops, TranslateHoisted(wb, F.fn, F.w, s, again), View(h, env), tmp,
                           fuel))
    decreases fuel, 1, s, 2
  {
    hide Inv, View, Agree, ProgramOk, Admissible, FrameOk, TranslateProgram, AllRepeat, AddHoist, HoistOk, HoistsRepeat,
         TranslateCall, ExecRef, ExecCopy;
    if s.Call? {
      CallRepeats(TranslateProgram(wb, p), ops, wb, s, again, used, View(h, env), fuel);
      CallSimulates(p, wb, notes, ops, F, s, again, h, env, tmp, fuel);
    } else if s.Hoisted? {
      HoistSimulates(p, wb, notes, ops, F, s, again, used, h, env, tmp, fuel);
    } else {
      Simulates(p, wb, notes, ops, F, s, h, env, tmp, fuel);
    }
  }

  lemma {:induction false} AgreeRuns(F: Frame, h: Heap, env: Bindings, tmp: Packed)
    requires Inv(F, h, env)
    ensures Agree(F, Runs(h, env), CRuns(View(h, env), tmp))
    ensures Agree(F, Breaks(h, env), CBreaks(View(h, env), tmp))
    ensures Agree(F, Continues(h, env), CContinues(View(h, env), tmp))
  {
    hide Inv, View, ResultsKept, FinalValues, Values;
  }

  lemma {:induction false} AgreeDiverges(F: Frame)
    ensures Agree(F, Diverges, CDiverges) && Agree(F, Reverts, CReverts)
  {
  }

  lemma {:induction false} AgreeWrong(F: Frame)
    ensures forall c :: Agree(F, Wrong, c)
  {
  }

  lemma {:induction false} AgreeOpen(F: Frame, r: RefOutcome, c: CopyOutcome)
    requires Agree(F, r, c)
    ensures r.Diverges? ==> c.CDiverges?
    ensures r.Reverts? ==> c.CReverts?
    ensures r.Runs? ==> c.CRuns? && Inv(F, r.h, r.env) && c.st == View(r.h, r.env)
    ensures r.Breaks? ==> c.CBreaks? && Inv(F, r.h, r.env) && c.st == View(r.h, r.env)
    ensures r.Continues? ==> c.CContinues? && Inv(F, r.h, r.env) && c.st == View(r.h, r.env)
    ensures r.Returns? ==> c.CReturns?
  {
    hide Inv, View, ResultsKept, FinalValues, Values;
  }

  /** A name for an object that may be shared, or for another part of the object under the same name. */
  lemma {:induction false} AliasSimulates(p: Program, wb: Writebacks, notes: Notes, ops: Ops, F: Frame, s: Stmt, h: Heap,
          env: Bindings, tmp: Packed, fuel: nat)
    requires FrameOk(F) && Admissible(p, wb, notes, F, s) && Inv(F, h, env) && s.Alias?
    ensures Agree(F, ExecRef(p, ops, F.fn, s, h, env, fuel),
                  ExecCopy(TranslateProgram(wb, p), ops, Translate(wb, F.fn, F.w, s), View(h, env), tmp, fuel))
  {
    hide Inv, View, EvalPath, Get, Set, FrameOk, Follows, ResultsKept;
    var st := View(h, env);
    if s.x in env && s.y in env {
      var q := EvalPath(s.path, st, ops);
      AliasKeeps(F, h, env, s.x, s.y, q);
      SetAll(st[s.x], Get(st[s.y], q));
      assert EvalPath([], st, ops) == [] by { NoKeys(st, ops); }
    }
  }

  lemma {:induction false} AliasKeeps(F: Frame, h: Heap, env: Bindings, x: string, y: string, q: Path)
    requires Inv(F, h, env) && FrameOk(F) && x in env && y in env && Follows(F.note.may, x, y)
    requires forall i :: i in F.w ==> i < |F.fn.params| && F.fn.params[i].name != x
    ensures var env' := env[x := env[y].Down(q)];
            Inv(F, h, env') && View(h, env') == View(h, env)[x := Get(View(h, env)[y], q)]
  {
    hide Get, Framed, Separate, View, WrittenBack, FrameOk, Follows, Traced, Owned;
    FollowsQuiet(F, x, y);
    AliasSeparate(F, env, x, y, q);
    AliasTraced(F, env, x, y, q);
    AliasOwned(F, env, x, y, q);
    AliasView(h, env, x, y, q);
  }

  lemma {:induction false} FollowsQuiet(F: Frame, x: string, y: string)
    requires FrameOk(F) && Follows(F.note.may, x, y)
    ensures x != y ==> (x, y) in F.note.may && (y, x) in F.note.may && x !in F.loud && y !in F.loud
  {
    hide ReturnOk;
  }

  lemma {:induction false} AliasOwned(F: Frame, env: Bindings, x: string, y: string, q: Path)
    requires Owned(F, env) && x in env && y in env && (x == y || x !in F.loud)
    ensures Owned(F, env[x := env[y].Down(q)])
  {
    hide WrittenBack;
  }

  lemma {:induction false} AliasTraced(F: Frame, env: Bindings, x: string, y: string, q: Path)
    requires Traced(F, env) && x in env && y in env && Follows(F.note.may, x, y)
    ensures Traced(F, env[x := env[y].Down(q)])
  {
    hide PartOf;
    var env' := env[x := env[y].Down(q)];
    forall z | z in env' && env'[z].oid < |F.h0| ensures exists i :: TracedTo(F, z, env'[z], i) {
      var i: nat :| TracedTo(F, if z == x then y else z, env[if z == x then y else z], i);
      if z == x {
        PartDown(env[y], F.locs[i], q);
      }
      assert TracedTo(F, z, env'[z], i);
    }
  }

  lemma {:induction false} AliasSeparate(F: Frame, env: Bindings, x: string, y: string, q: Path)
    requires Separate(F, env) && FrameOk(F) && x in env && y in env && Follows(F.note.may, x, y)
    ensures Separate(F, env[x := env[y].Down(q)])
  {
    hide Sep, Follows, FrameOk;
    var env' := env[x := env[y].Down(q)];
    forall a, b | a in env' && b in env' && a != b ensures Sep(env'[a], env'[b]) || (a, b) in F.note.may {
      AliasApart(F, env, x, y, q, a, b);
    }
  }

  lemma {:induction false} AliasApart(F: Frame, env: Bindings, x: string, y: string, q: Path, a: string, b: string)
    requires Separate(F, env) && FrameOk(F) && x in env && y in env && Follows(F.note.may, x, y)
    requires a in env && b in env && a != b
    ensures var env' := env[x := env[y].Down(q)];
            Sep(env'[a], env'[b]) || (a, b) in F.note.may
  {
    hide Sep, ReturnOk;
    var other := if a == x then b else a;
    if (a == x || b == x) && other != y && Sep(env[y], env[other]) {
      SepDown(env[y], env[other], q);
    }
  }

  lemma {:induction false} AliasView(h: Heap, env: Bindings, x: string, y: string, q: Path)
    requires x in env && y in env && env[y].oid < |h|
    ensures View(h, env[x := env[y].Down(q)]) == View(h, env)[x := Get(View(h, env)[y], q)]
  {
    hide Get;
    GetGet(h[env[y].oid], env[y].path, q);
  }

  lemma {:induction false} AssignSimulates(p: Program, wb: Writebacks, notes: Notes, ops: Ops, F: Frame, s: Stmt,
          h: Heap, env: Bindings, tmp: Packed, fuel: nat)
    requires FrameOk(F) && Admissible(p, wb, notes, F, s) && Inv(F, h, env) && s.Assign?
    ensures Agree(F, ExecRef(p, ops, F.fn, s, h, env, fuel),
                  ExecCopy(TranslateProgram(wb, p), ops, Translate(wb, F.fn, F.w, s), View(h, env), tmp, fuel))
  {
    hide Inv, View, Eval, EvalPath, Set, WriteLoc, FrameOk, ResultsKept;
    var st := View(h, env);
    var v := Eval(s.e, st, ops);
    if s.x in env {
      if s.path == [] {
        RebindKeeps(F, h, env, s.x, v);
        SetAll(st[s.x], v);
        NoKeys(st, ops);
      } else {
        WriteKeeps(F, h, env, s.x, EvalPath(s.path, st, ops), v);
      }
    }
  }

  lemma {:induction false} InvKept(F: Frame, h: Heap, env: Bindings)
    requires Inv(F, h, env)
    ensures Kept(F, env) && |F.locs| == |F.fn.params|
  {
  }

  /** Returning the listed results and the final values. */
  lemma {:induction false} ReturnedSimulates(F: Frame, h: Heap, env: Bindings, es: seq<Arg>, ops: Ops)
    requires Inv(F, h, env) && |es| == |F.fn.results| && ReturnOk(F.fn.params, F.note, es)
    ensures var vals := EvalAll(ArgExprs(es) + WritebackReads(F.fn.params, F.w, |F.fn.params|), View(h, env), ops);
            Agree(F, ReturnRef(F.fn, es, h, env, ops), CReturns(vals))
  {
    hide Inv, View, EvalAll, FinalValues, WritebackReads, Kept, ArgExprs, Bind, ResultsKept, Values, ReturnOk;
    var st := View(h, env);
    if RootsDeclared(es, env) {
      var (h', locs) := Bind(AllMemory(|es|), es, h, env, ops);
      ResultsHanded(F, h, env, es, ops);
      InvKept(F, h', env);
      FinalReads(F, h', env, |F.locs|, ops);
      EvalAllAppend(ArgExprs(es), WritebackReads(F.fn.params, F.w, |F.fn.params|), st, ops);
    }
  }

  lemma {:induction false} ReturnSimulates(p: Program, wb: Writebacks, ops: Ops, F: Frame, s: Stmt, h: Heap,
          env: Bindings, tmp: Packed, fuel: nat)
    requires Inv(F, h, env) && FrameOk(F) && (s.ReturnNamed? || (s.Return? && ReturnOk(F.fn.params, F.note, s.es)))
    ensures Agree(F, ExecRef(p, ops, F.fn, s, h, env, fuel),
                  ExecCopy(TranslateProgram(wb, p), ops, Translate(wb, F.fn, F.w, s), View(h, env), tmp, fuel))
  {
    hide Inv, View, EvalAll, Agree, WritebackReads, ReturnRef, ArgExprs, ReturnOk, FrameOk;
    AgreeWrong(F);
    if s.ReturnNamed? {
      NamesSimulate(F, h, env, ops);
    } else if |s.es| == |F.fn.results| {
      ReturnedSimulates(F, h, env, s.es, ops);
    } else {
      WrongCount(F, h, env, s.es, ops);
    }
  }

  lemma {:induction false} WrongCount(F: Frame, h: Heap, env: Bindings, es: seq<Arg>, ops: Ops)
    requires |es| != |F.fn.results|
    ensures ReturnRef(F.fn, es, h, env, ops) == Wrong
  {
  }

  /** A bare return, and the return that closes a body. */
  lemma {:induction false} NamesSimulate(F: Frame, h: Heap, env: Bindings, ops: Ops)
    requires Inv(F, h, env) && FrameOk(F)
    ensures ReturnedNames(F.fn, F.w).CReturn?
    ensures Agree(F, ReturnNames(F.fn, h, env, ops), CReturns(EvalAll(ReturnedNames(F.fn, F.w).es, View(h, env), ops)))
  {
    hide Inv, View, EvalAll, Agree, WritebackReads, ReturnRef, ReturnOk, MayOk;
    AgreeWrong(F);
    var es := NamedRefs(F.fn.results);
    if F.fn.named || F.fn.results == [] {
      NoneReturned(F);
      ReturnedSimulates(F, h, env, es, ops);
      assert (if F.fn.named then ArgExprs(es) else []) == ArgExprs(es);
    }
  }

  lemma {:induction false} NoneReturned(F: Frame)
    requires FrameOk(F) && (F.fn.named || F.fn.results == [])
    ensures ReturnOk(F.fn.params, F.note, NamedRefs(F.fn.results))
  {
  }

  // ----- calls -----

  /** The caller's names after a call, when the callee's results are `locs`. */
  ghost predicate BoundTo(note: Note, rs: seq<string>, args: seq<Arg>, h: Heap, env: Bindings, h': Heap, env': Bindings) {
    exists locs :: |locs| == |rs| && Received(note, args, h, env, h', locs) && env' == BindResults(rs, locs, env)
  }

  lemma {:induction false} CallSimulates(p: Program, wb: Writebacks, notes: Notes, ops: Ops, F: Frame, s: Stmt,
          again: Hoists, h: Heap, env: Bindings, tmp: Packed, fuel: nat)
    requires ProgramOk(p, wb, notes) && FrameOk(F) && Admissible(p, wb, notes, F, s) && Inv(F, h, env) && s.Call?
    requires HoistsRepeat(TranslateProgram(wb, p), ops, again, WritebackOf(wb, s.f), s.args, View(h, env), fuel)
    ensures Agree(F, ExecRef(p, ops, F.fn, s, h, env, fuel),
                  ExecCopy(TranslateProgram(wb, p), ops, TranslateCall(wb, s.rs, s.f, s.args, again), View(h, env), tmp,
                           fuel))
    decreases fuel, 1, s, 0
  {
    hide Inv, View, FrameOk, Admissible, ProgramOk, TranslateFn, CallReady, CallRef, TranslateCall, HoistsRepeat,
         TranslateProgram, ResultsKept, BindResults, Received, ResultsOk;
    var (rs, f, args) := (s.rs, s.f, s.args);
    AgreeWrong(F);
    if f in p && |args| == |p[f].params| && |rs| == |p[f].results| && Declared(rs, env) && RootsDeclared(args, env) {
      Ready(p, wb, notes, F, f, s, h, env, ops);
      ResultNames(p, wb, notes, F, s);
      CallRuns(p, wb, notes, ops, F, rs, f, args, again, h, env, tmp, fuel);
      var r := ExecRef(p, ops, F.fn, s, h, env, fuel);
      CallNeverReturns(p, ops, F.fn, s, h, env, fuel);
      if r.Runs? {
        var locs :| |locs| == |rs| && Received(NoteOf(notes, f), args, h, env, r.h, locs)
          && r.env == BindResults(rs, locs, env);
        ResultsKeep(F, NoteOf(notes, f), rs, args, h, env, r.h, locs);
      }
    }
  }

  lemma {:induction false} CallNeverReturns(p: Program, ops: Ops, fn: Fn, s: Stmt, h: Heap, env: Bindings, fuel: nat)
    requires s.Call?
    ensures var r := ExecRef(p, ops, fn, s, h, env, fuel); !r.Returns? && !r.Breaks? && !r.Continues?
  {
    hide CallRef;
  }

  /** A translated call, given how the callee ends. */
  lemma {:induction false} CallCopied(tp: CopyProgram, wb: Writebacks, ops: Ops, rs: seq<string>, f: string,
          args: seq<Arg>, again: Hoists, st: Store, tmp: Packed, fuel: nat, c: CopyOutcome)
    requires f in tp && |args| == |tp[f].params| && fuel > 0
    requires c == Closed(ExecCopy(tp, ops, tp[f].body, EnterCopy(tp[f], EvalAll(ArgExprs(args), st, ops)), Tuple([]),
                                  fuel - 1))
    ensures var w := WritebackOf(wb, f);
            var total := |rs| + |Indices(w, |args|)|;
            var o := ExecCopy(tp, ops, TranslateCall(wb, rs, f, args, again), st, tmp, fuel);
            && (c.CDiverges? || c.CReverts? ==> o == c)
            && (c.CReturns? ==>
                  o == ExecCopy(tp, ops,
                                CSeq(BackAssigns(args, w, |args|, |rs|, total, again), ResultAssigns(rs, |rs|, total)), st,
                                Pack(c.vals), fuel))
  {
    hide BackAssigns, ResultAssigns, Indices, EvalAll, ArgExprs, EnterCopy, WritebackOf;
    var call := ExecCopy(tp, ops, CCall(f, ArgExprs(args)), st, tmp, fuel);
    assert c.CReturns? ==> call == CRuns(st, Pack(c.vals));
  }

  /** A call by reference, given how the callee's body ends. */
  lemma {:induction false} CallReferred(p: Program, ops: Ops, fn: Fn, rs: seq<string>, f: string, args: seq<Arg>, h: Heap,
          env: Bindings, fuel: nat)
    requires f in p && |args| == |p[f].params| && |rs| == |p[f].results| && Declared(rs, env) && RootsDeclared(args, env)
    ensures var o := ExecRef(p, ops, fn, Call(rs, f, args), h, env, fuel);
            if fuel == 0 then o == Diverges
            else
              var r := BodyRef(p, ops, p[f], args, h, env, fuel);
              o == if r.Returns? then Runs(r.h, BindResults(rs, r.locs, env)) else r
  {
    hide BodyRef, View;
  }

  /** Without fuel a translated call diverges. */
  lemma {:induction false} CallOutOfFuel(tp: CopyProgram, wb: Writebacks, ops: Ops, rs: seq<string>, f: string,
          args: seq<Arg>, again: Hoists, st: Store, tmp: Packed)
    requires f in tp && |args| == |tp[f].params|
    ensures ExecCopy(tp, ops, TranslateCall(wb, rs, f, args, again), st, tmp, 0) == CDiverges
  {
    hide BackAssigns, ResultAssigns, Indices, EvalAll, ArgExprs, WritebackOf;
    assert ExecCopy(tp, ops, CCall(f, ArgExprs(args)), st, tmp, 0) == CDiverges;
  }

  /**
   A call whose arguments are apart at this state and whose hoisted calls can be repeated, whatever its text:
   the caller's copies become what its objects have become, and its names are bound to the callee's results.
   */
  lemma {:induction false} CallRuns(p: Program, wb: Writebacks, notes: Notes, ops: Ops, F: Frame, rs: seq<string>,
          f: string, args: seq<Arg>, again: Hoists, h: Heap, env: Bindings, tmp: Packed, fuel: nat)
    requires ProgramOk(p, wb, notes) && f in p && CallReady(F, p[f], WritebackOf(wb, f), args, h, env, ops)
    requires |rs| == |p[f].results| && Declared(rs, env)
    requires HoistsRepeat(TranslateProgram(wb, p), ops, again, WritebackOf(wb, f), args, View(h, env), fuel)
    ensures var r := ExecRef(p, ops, F.fn, Call(rs, f, args), h, env, fuel);
            && SameRun(r, ExecCopy(TranslateProgram(wb, p), ops, TranslateCall(wb, rs, f, args, again), View(h, env), tmp,
                                   fuel))
            && (r.Runs? ==> Inv(F, r.h, env) && BoundTo(NoteOf(notes, f), rs, args, h, env, r.h, r.env))
    decreases fuel, 0
  {
    hide Inv, View, EvalAll, FinalValues, ProgramOk, BodyRef, TranslateFn, Enter, Bind, EnterCopy, CallReady, BackAssigns,
         ResultAssigns, ArgExprs, CalleeOk, Admissible, HoistsRepeat, ResultsKept, BindResults, Agree, BoundTo, ExecRef,
         ExecCopy, TranslateCall, Closed;
    var tp := TranslateProgram(wb, p);
    var tg := TranslateFn(wb, f, p[f]);
    TranslatedFn(wb, f, p[f]);
    assert f in tp && tp[f] == tg;
    ReadyOpen(F, p[f], WritebackOf(wb, f), args, h, env, ops);
    CallReferred(p, ops, F.fn, rs, f, args, h, env, fuel);
    if fuel == 0 {
      CallOutOfFuel(tp, wb, ops, rs, f, args, again, View(h, env), tmp);
    } else {
      var G := CalleeFrame(p, wb, notes, f, args, h, env, ops);
      CalleeFits(p, wb, notes, f, args, h, env, ops);
      EnterKeeps(F, G, args, h, env, ops, tg);
      BodySimulates(p, wb, notes, ops, f, G, args, h, env, fuel);
      var (h', env') := Enter(p[f], args, h, env, ops);
      var r := BodyRef(p, ops, p[f], args, h, env, fuel);
      var c := Closed(ExecCopy(tp, ops, tg.body, View(h', env'), Tuple([]), fuel - 1));
      AgreeOpen(G, r, c);
      CallCopied(tp, wb, ops, rs, f, args, again, View(h, env), tmp, fuel, c);
      if r.Returns? {
        ReturnsToCaller(p, wb, ops, F, G, rs, args, again, h, env, r, c, fuel);
      }
    }
  }

  lemma {:induction false} ReadyOpen(F: Frame, g: Fn, wg: set<nat>, args: seq<Arg>, h: Heap, env: Bindings, ops: Ops)
    requires CallReady(F, g, wg, args, h, env, ops)
    ensures |args| == |g.params| && RootsDeclared(args, env)
  {
    hide Inv, Disjoint, ArgumentsSpared, View;
  }

  /** A void function's body that runs to its end returns nothing. */
  function Closed(c: CopyOutcome): CopyOutcome {
    if c.CRuns? then CReturns([]) else c
  }

  lemma {:induction false} TranslatedFn(wb: Writebacks, f: string, g: Fn)
    ensures TranslateFn(wb, f, g).params == ParamNames(g.params) && TranslateFn(wb, f, g).locals == g.locals
  {
  }

  lemma {:induction false} Ready(p: Program, wb: Writebacks, notes: Notes, F: Frame, f: string, s: Stmt, h: Heap,
          env: Bindings, ops: Ops)
    requires ProgramOk(p, wb, notes) && FrameOk(F) && Admissible(p, wb, notes, F, s) && Inv(F, h, env)
    requires s.Call? && s.f == f && f in p && |s.args| == |p[f].params| && RootsDeclared(s.args, env)
    ensures CallReady(F, p[f], WritebackOf(wb, f), s.args, h, env, ops)
    ensures ResultsOk(F.note.may, NoteOf(notes, f), s.rs, s.args)
  {
    hide Inv, ArgumentsApart, Disjoint, Steady, FrameOk, ProgramOk, WritebackOf, Rebound, View, ResultsOk, ArgumentsSpared,
         DistinctNames, FnOk;
    Checked(p, wb, notes, f);
    var w := WritebackOf(wb, f);
    assert CallOk(p[f], w, s.args);
    ApartDisjoint(p[f].params, w, s.args, View(h, env), ops);
    SteadySpared(w, s.args, View(h, env), ops);
    forall i | i in w && s.args[i].Ref? ensures s.args[i].x in F.loud {
      assert s.args[i].x in InPlace(s, wb);
    }
  }

  lemma {:induction false} ResultNames(p: Program, wb: Writebacks, notes: Notes, F: Frame, s: Stmt)
    requires Admissible(p, wb, notes, F, s) && s.Call?
    ensures Avoids(F.fn, F.w, s.rs)
  {
    hide CallOk, ResultsOk;
    forall x | x in s.rs ensures x in Rebound(s) {
      var j :| 0 <= j < |s.rs| && s.rs[j] == x;
    }
  }

  lemma {:induction false} BodySimulates(p: Program, wb: Writebacks, notes: Notes, ops: Ops, f: string, G: Frame,
          args: seq<Arg>, h: Heap, env: Bindings, fuel: nat)
    requires ProgramOk(p, wb, notes) && f in p && G.fn == p[f] && G.w == WritebackOf(wb, f) && fuel > 0
    requires |args| == |G.fn.params| && CalleeOk(G) && Admissible(p, wb, notes, G, p[f].body)
    requires var (h', env') := Enter(G.fn, args, h, env, ops); Inv(G, h', env')
    ensures var (h', env') := Enter(G.fn, args, h, env, ops);
            Agree(G, BodyRef(p, ops, G.fn, args, h, env, fuel),
                  Closed(ExecCopy(TranslateProgram(wb, p), ops, TranslateFn(wb, f, G.fn).body, View(h', env'),
                          Tuple([]), fuel - 1)))
    decreases fuel - 1, 1, p[f].body, 2
  {
    hide Inv, View, Admissible, ProgramOk, Enter, Translate, Agree, TranslateFn, TranslateProgram, ReturnNames, FrameOk;
    var g := G.fn;
    var (h', env') := Enter(g, args, h, env, ops);
    var tp := TranslateProgram(wb, p);
    Simulates(p, wb, notes, ops, G, g.body, h', env', Tuple([]), fuel - 1);
    var r := ExecRef(p, ops, g, g.body, h', env', fuel - 1);
    if r.Runs? && EndsWithReturn(g.body) {
      EndsNeverRuns(p, ops, g, g.body, h', env', fuel - 1);
    }
    BodyEnds(wb, f, G, r, tp, ops, View(h', env'), fuel - 1);
    EndingIs(g, r, p, ops, args, h, env, fuel);
  }

  lemma {:induction false} EndingIs(g: Fn, r: RefOutcome, p: Program, ops: Ops, args: seq<Arg>, h: Heap, env: Bindings,
          fuel: nat)
    requires fuel > 0 && |args| == |g.params|
    requires var (h', env') := Enter(g, args, h, env, ops); r == ExecRef(p, ops, g, g.body, h', env', fuel - 1)
    ensures BodyRef(p, ops, g, args, h, env, fuel) == EndRef(g, r, ops)
  {
    hide Enter, ExecRef, ReturnNames, View;
  }

  /** The translated function ends as the body does, with the return that closes it. */
  lemma {:induction false} BodyEnds(wb: Writebacks, f: string, G: Frame, r: RefOutcome, tp: CopyProgram, ops: Ops,
          st: Store, fuel: nat)
    requires G.w == WritebackOf(wb, f) && FrameOk(G) && (r.Runs? ==> !EndsWithReturn(G.fn.body))
    requires Agree(G, r, ExecCopy(tp, ops, Translate(wb, G.fn, G.w, G.fn.body), st, Tuple([]), fuel))
    ensures Agree(G, EndRef(G.fn, r, ops), Closed(ExecCopy(tp, ops, TranslateFn(wb, f, G.fn).body, st, Tuple([]), fuel)))
  {
    hide Inv, View, EvalAll, Agree, Translate, ReturnedNames, ReturnNames, FrameOk, Indices;
    var g := G.fn;
    var body := Translate(wb, g, G.w, g.body);
    var c := ExecCopy(tp, ops, body, st, Tuple([]), fuel);
    AgreeOpen(G, r, c);
    AgreeWrong(G);
    var closed := ExecCopy(tp, ops, CSeq(body, ReturnedNames(g, G.w)), st, Tuple([]), fuel);
    if r.Runs? {
      NamesSimulate(G, r.h, r.env, ops);
      var vals := EvalAll(ReturnedNames(g, G.w).es, c.st, ops);
      assert ExecCopy(tp, ops, ReturnedNames(g, G.w), c.st, c.tmp, fuel) == CReturns(vals);
      assert closed == CReturns(vals);
      UnnamedWrong(G, r.h, r.env, ops);
      if g.results == [] && Indices(G.w, |g.params|) == [] {
        NothingReturned(G, r.h, r.env, ops);
      }
    } else {
      assert r.Diverges? || r.Reverts? || r.Returns? ==> closed == c == Closed(c) && Closed(closed) == c;
    }
  }

  /** Without named results only a void function may run to its end. */
  lemma {:induction false} UnnamedWrong(G: Frame, h: Heap, env: Bindings, ops: Ops)
    ensures !G.fn.named && G.fn.results != [] ==> forall c :: Agree(G, ReturnNames(G.fn, h, env, ops), c)
  {
  }

  lemma {:induction false} NothingReturned(G: Frame, h: Heap, env: Bindings, ops: Ops)
    requires G.fn.results == [] && Indices(G.w, |G.fn.params|) == []
    ensures EvalAll(ReturnedNames(G.fn, G.w).es, View(h, env), ops) == []
  {
    hide View;
    NoWritebackReads(G.fn.params, G.w, |G.fn.params|);
    assert ArgExprs(NamedRefs([])) == [];
  }

  lemma {:induction false} NoWritebackReads(params: seq<Param>, w: set<nat>, n: nat)
    requires n <= |params| && Indices(w, n) == []
    ensures WritebackReads(params, w, n) == []
  {
    if n > 0 {
      NoWritebackReads(params, w, n - 1);
    }
  }

  /** Back in the caller: final values assigned back, results bound. */
  lemma {:induction false} ReturnsToCaller(p: Program, wb: Writebacks, ops: Ops, F: Frame, G: Frame, rs: seq<string>,
          args: seq<Arg>, again: Hoists, h: Heap, env: Bindings, r: RefOutcome, c: CopyOutcome, fuel: nat)
    requires CallReady(F, G.fn, G.w, args, h, env, ops) && |args| == |G.fn.params| && G.h0 == h
    requires G.locs == Bind(G.fn.params, args, h, env, ops).1
    requires HoistsRepeat(TranslateProgram(wb, p), ops, again, G.w, args, View(h, env), fuel)
    requires r.Returns? && |r.locs| == |rs| && Agree(G, r, c) && Declared(rs, env)
    ensures c.CReturns?
    ensures var total := |rs| + |Indices(G.w, |args|)|;
            && Inv(F, r.h, env) && BoundTo(G.note, rs, args, h, env, r.h, BindResults(rs, r.locs, env))
            && SameRun(Runs(r.h, BindResults(rs, r.locs, env)),
                       ExecCopy(TranslateProgram(wb, p), ops,
                                CSeq(BackAssigns(args, G.w, |args|, |rs|, total, again), ResultAssigns(rs, |rs|, total)),
                                View(h, env), Pack(c.vals), fuel))
  {
    hide Inv, View, FinalValues, Bind, BackAssigns, ResultAssigns, Patched, TranslateProgram, Pack, CallReady, Indices,
         HoistsRepeat, ResultsKept, BindResults, Received, Values, BoundTo, AssignAll;
    var tp := TranslateProgram(wb, p);
    InvFramed(G, r.h, r.env);
    var vals := Values(r.h, r.locs);
    var all := vals + FinalValues(G.locs, G.w, |args|, r.h);
    assert c.vals == all;
    BacksRun(F, G.fn, G.w, args, h, env, ops, tp, again, r.h, |args|, vals, fuel);
    var back := Patched(h, G.locs, G.w, |args|, r.h);
    assert r.h == back + r.h[|h|..];
    InvExtended(F, back, env, r.h[|h|..]);
    ResultsRun(tp, ops, rs, |rs|, View(r.h, env), all, fuel);
    assert rs[..|rs|] == rs && all[..|rs|] == vals;
    ResultsView(rs, r.locs, r.h, env);
    ResultsReceived(G, args, h, env, ops, r.h, r.locs);
    BoundToResults(G.note, rs, args, h, env, r.h, r.locs);
    var backs := BackAssigns(args, G.w, |args|, |rs|, |all|, again);
    assert ExecCopy(tp, ops, backs, View(h, env), Pack(all), fuel) == CRuns(View(r.h, env), Pack(all));
  }

  lemma {:induction false} BoundToResults(note: Note, rs: seq<string>, args: seq<Arg>, h: Heap, env: Bindings, h': Heap,
          locs: seq<Loc>)
    requires |locs| == |rs| && Received(note, args, h, env, h', locs)
    ensures BoundTo(note, rs, args, h, env, h', BindResults(rs, locs, env))
  {
    hide Received, BindResults;
  }

  lemma {:induction false} InvFramed(G: Frame, h: Heap, env: Bindings)
    requires Inv(G, h, env)
    ensures |G.locs| == |G.fn.params| && |G.h0| <= |h| && h[..|G.h0|] == Patched(G.h0, G.locs, G.w, |G.locs|, h)
  {
  }

  // ----- main result -----

  /** Values passed as arguments: every parameter gets an object of its own. */
  ghost function Literals(vals: seq<Val>): (args: seq<Arg>)
    ensures |args| == |vals|
  {
    seq(|vals|, i requires 0 <= i < |vals| => Fresh(Lit(vals[i])))
  }

  ghost function RunByReference(p: Program, ops: Ops, g: Fn, vals: seq<Val>, fuel: nat): RefOutcome
    requires fuel > 0 && |vals| == |g.params|
  {
    BodyRef(p, ops, g, Literals(vals), [], map[], fuel)
  }

  ghost function RunByCopy(tp: CopyProgram, ops: Ops, g: CopyFn, vals: seq<Val>, fuel: nat): CopyOutcome
    requires fuel > 0 && |vals| == |g.params|
  {
    Closed(ExecCopy(tp, ops, g.body, EnterCopy(g, vals), Tuple([]), fuel - 1))
  }

  /** The objects the written-back parameters of a call end with. */
  ghost function FinalObjects(g: Fn, w: set<nat>, vals: seq<Val>, ops: Ops, h: Heap): seq<Val>
    requires |vals| == |g.params|
  {
    FinalValues(Bind(g.params, Literals(vals), [], map[], ops).1, w, |g.params|, h)
  }

  /** Code outside of every function. */
  function Outside(): Fn {
    Fn([], [], true, [], Skip)
  }

  /** Outside of every function, with the names that may be written or may share objects. */
  function OutsideFrame(loud: set<string>, may: set<(string, string)>): Frame {
    Frame(Outside(), {}, [], [], loud, Note(may, {}, {}))
  }

  /**
   Calling a function by reference and its translation by copy, on any arguments: they diverge together,
   and if the first returns, the second returns the same results followed by the final values of the
   objects the function may modify.
   */
  lemma {:induction false} WritebackPreserves(p: Program, wb: Writebacks, notes: Notes, ops: Ops, f: string,
          vals: seq<Val>, fuel: nat)
    requires ProgramOk(p, wb, notes) && f in p && |vals| == |p[f].params| && fuel > 0
    ensures var r := RunByReference(p, ops, p[f], vals, fuel);
            var c := RunByCopy(TranslateProgram(wb, p), ops, TranslateFn(wb, f, p[f]), vals, fuel);
            && (r.Diverges? ==> c.CDiverges?) && (r.Reverts? ==> c.CReverts?)
            && (r.Returns? ==>
                  c == CReturns(Values(r.h, r.locs) + FinalObjects(p[f], WritebackOf(wb, f), vals, ops, r.h)))
  {
    hide Inv, View, Bind, Enter, EnterCopy, BodyRef, ProgramOk, FinalValues, TranslateFn, CalleeOk, Admissible,
         ResultsKept, CallReady, Literals;
    var args := Literals(vals);
    var tg := TranslateFn(wb, f, p[f]);
    TranslatedFn(wb, f, p[f]);
    var F := OutsideFrame({}, {});
    LiteralArguments(vals, View([], map[]), ops);
    OutsideReady(p, wb, notes, f, args, ops);
    var G := CalleeFrame(p, wb, notes, f, args, [], map[], ops);
    CalleeFits(p, wb, notes, f, args, [], map[], ops);
    EnterKeeps(F, G, args, [], map[], ops, tg);
    BodySimulates(p, wb, notes, ops, f, G, args, [], map[], fuel);
    var r := BodyRef(p, ops, p[f], args, [], map[], fuel);
    if r.Returns? {
      InvKept(G, r.h, r.env);
    }
  }

  lemma {:induction false} OutsideReady(p: Program, wb: Writebacks, notes: Notes, f: string, args: seq<Arg>, ops: Ops)
    requires ProgramOk(p, wb, notes) && f in p && |args| == |p[f].params|
    requires forall i :: 0 <= i < |args| ==> args[i].Fresh?
    ensures CallReady(OutsideFrame({}, {}), p[f], WritebackOf(wb, f), args, [], map[], ops)
  {
    hide ProgramOk, WritebackOf, FnOk;
    Checked(p, wb, notes, f);
    assert Inv(OutsideFrame({}, {}), [], map[]);
  }

  lemma {:induction false} LiteralArguments(vals: seq<Val>, st: Store, ops: Ops)
    ensures forall i :: 0 <= i < |vals| ==> Literals(vals)[i].Fresh?
    ensures EvalAll(ArgExprs(Literals(vals)), st, ops) == vals
  {
    hide EvalAll;
    var args := Literals(vals);
    forall i | 0 <= i < |args| ensures EvalAll(ArgExprs(args), st, ops)[i] == vals[i] {
      EvalAllAt(ArgExprs(args), st, ops, i);
    }
  }
}
