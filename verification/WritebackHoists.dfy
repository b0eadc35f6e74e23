/**
 An internal call in the path of a written-back argument is hoisted twice: before the call and again when
 the argument is assigned back.  This preserves meaning exactly if making the call again changes neither the
 path nor anything outside the part that is assigned.
 */
module WritebackHoists {
  import opened Options
  import opened MemoryLang
  import opened MemoryCopy
  import opened WritebackFrames
  import opened WritebackReturns
  import opened WritebackSound
  import opened WritebackAnalysis
  import opened WritebackGap
  import opened WritebackExtend

  // ----- the call -----

  /** f(x.path), after the call hoisted out of the path. */
  function HoistedCall(pre: Stmt, rs: seq<string>, f: string, x: string, path: seq<Seg>): Stmt {
    Hoisted(0, pre, Call(rs, f, [Ref(x, path)]))
  }

  /** In every larger program and for every such function the call is translated right. */
  ghost predicate HoistPreserved(p0: Program, wb0: Writebacks, pre: Stmt, x: string, path: seq<Seg>, h: Heap,
          env: Bindings, ops: Ops)
  {
    forall p, wb, notes, f, rs, tmp, fuel: nat :: Extends(p, wb, p0, wb0) && Single(p, wb, notes, f) ==>
      StatementPreservedFor(p, wb, HoistedCall(pre, rs, f, x, path), h, env, ops, tmp, fuel)
  }

  function CopyOf(p0: Program, wb0: Writebacks, pre: Stmt): CopyStmt
    requires pre.Call?
  {
    TranslateCall(wb0, pre.rs, pre.f, pre.args, map[])
  }

  /** Made again right away, the hoisted call leaves the path and everything outside the part at it. */
  ghost predicate LeavesAgain(p0: Program, wb0: Writebacks, pre: Stmt, x: string, path: seq<Seg>, st: Store, ops: Ops,
          tmp: Packed, fuel: nat)
    requires pre.Call?
  {
    LeavesPart(ExecCopy(TranslateProgram(wb0, p0), ops, CKeep(CopyOf(p0, wb0, pre)), st, tmp, fuel), st, tmp, x, path, ops)
  }

  const NO_TMP := Tuple([])

  /** The same of every run in which the hoisted call returns. */
  ghost predicate HoistLeaves(p0: Program, wb0: Writebacks, pre: Stmt, x: string, path: seq<Seg>, h: Heap, env: Bindings,
          ops: Ops)
    requires pre.Call?
  {
    forall fuel: nat :: fuel > 0 ==>
      var r := ExecRef(p0, ops, Outside(), pre, h, env, fuel);
      r.Runs? ==> LeavesAgain(p0, wb0, pre, x, path, View(r.h, r.env), ops, NO_TMP, fuel)
  }

  /** A site for the call: objects with one name each, and a hoisted call that gives no object a second name. */
  ghost predicate HoistSite(p0: Program, wb0: Writebacks, notes0: Notes, pre: Stmt, x: string, h: Heap, env: Bindings) {
    && ProgramOk(p0, wb0, notes0) && Complete(p0) && pre.Call? && pre.f in p0
    && StmtOk(p0, wb0, notes0, [], Note({}, {}, {}), pre)
    && OneObjectEach(h, env) && x in env
  }

  ghost function SiteFrame(wb0: Writebacks, pre: Stmt, env: Bindings): Frame {
    OutsideFrame(env.Keys + InPlace(pre, wb0), {})
  }

  lemma {:induction false} SiteAdmissible(p0: Program, wb0: Writebacks, notes0: Notes, pre: Stmt, x: string, h: Heap,
          env: Bindings)
    requires HoistSite(p0, wb0, notes0, pre, x, h, env)
    ensures var F := SiteFrame(wb0, pre, env);
            Inv(F, h, env) && FrameOk(F) && Admissible(p0, wb0, notes0, F, pre) && x in F.loud
    ensures Calls(pre) <= p0.Keys && Complete(p0) && ProgramOk(p0, wb0, notes0)
  {
    hide Inv, FrameOk, OneObjectEach, StmtOk, ProgramOk, Complete;
    OutsideInvariant(h, env, env.Keys + InPlace(pre, wb0), {});
  }

  /** The hoisted call, by reference and by copy, in the smaller program and in any larger one. */
  lemma {:induction false} HoistedOnce(p: Program, wb: Writebacks, p0: Program, wb0: Writebacks, notes0: Notes,
          pre: Stmt, x: string, h: Heap, env: Bindings, ops: Ops, tmp: Packed, fuel: nat)
    requires HoistSite(p0, wb0, notes0, pre, x, h, env) && Extends(p, wb, p0, wb0)
    ensures var r := ExecRef(p0, ops, Outside(), pre, h, env, fuel);
            && ExecRef(p, ops, Outside(), pre, h, env, fuel) == r
            && SameRun(r, ExecCopy(TranslateProgram(wb, p), ops, CopyOf(p0, wb0, pre), View(h, env), tmp, fuel))
            && (r.Runs? ==> Inv(SiteFrame(wb0, pre, env), r.h, r.env) && x in r.env)
    ensures Translate(wb, Outside(), {}, pre) == CopyOf(p0, wb0, pre)
  {
    hide Inv, View, FrameOk, Admissible, ExecRef, ExecCopy, TranslateProgram, TranslateCall, HoistSite, ProgramOk, Complete,
         Extends, SiteFrame, ResultsKept;
    SiteCall(p0, wb0, notes0, pre, x, h, env);
    SiteAdmissible(p0, wb0, notes0, pre, x, h, env);
    var F := SiteFrame(wb0, pre, env);
    SiteOutside(wb0, pre, env);
    Simulates(p0, wb0, notes0, ops, F, pre, h, env, tmp, fuel);
    SameRef(p, wb, p0, wb0, ops, Outside(), pre, h, env, fuel);
    SameTranslation(p, wb, p0, wb0, Outside(), {}, pre);
    TranslationCalls(wb0, Outside(), {}, pre, p0.Keys);
    SameCopy(p, wb, p0, wb0, ops, CopyOf(p0, wb0, pre), View(h, env), tmp, fuel);
    var r := ExecRef(p0, ops, Outside(), pre, h, env, fuel);
    CallNeverReturns(p0, ops, Outside(), pre, h, env, fuel);
    if r.Runs? {
      NamesStay(p0, ops, Outside(), pre, h, env, fuel);
    }
  }

  lemma {:induction false} SiteCall(p0: Program, wb0: Writebacks, notes0: Notes, pre: Stmt, x: string, h: Heap,
          env: Bindings)
    requires HoistSite(p0, wb0, notes0, pre, x, h, env)
    ensures pre.Call? && x in env
  {
  }

  lemma {:induction false} SiteOutside(wb0: Writebacks, pre: Stmt, env: Bindings)
    ensures var F := SiteFrame(wb0, pre, env); F.fn == Outside() && F.w == {} && F.locs == []
  {
  }

  lemma {:induction false} NamesStay(p: Program, ops: Ops, fn: Fn, s: Stmt, h: Heap, env: Bindings, fuel: nat)
    requires s.Call? && ExecRef(p, ops, fn, s, h, env, fuel).Runs?
    ensures env.Keys <= ExecRef(p, ops, fn, s, h, env, fuel).env.Keys
  {
    hide CallRef;
  }

  // ----- translated right where the hoisted call can be made again -----

  /** The temporary makes no difference to a call. */
  lemma {:induction false} AnyTmp(p0: Program, wb0: Writebacks, pre: Stmt, x: string, path: seq<Seg>, st: Store,
          ops: Ops, tmp: Packed, fuel: nat)
    requires pre.Call? && LeavesAgain(p0, wb0, pre, x, path, st, ops, NO_TMP, fuel)
    ensures LeavesAgain(p0, wb0, pre, x, path, st, ops, tmp, fuel)
  {
    hide EvalPath, Set, TranslateCall;
    AgainTmp(p0, wb0, pre, st, ops, NO_TMP, tmp, fuel);
  }

  lemma {:induction false} AgainTmp(p0: Program, wb0: Writebacks, pre: Stmt, st: Store, ops: Ops, tmp: Packed,
          tmp': Packed, fuel: nat)
    requires pre.Call?
    ensures var (tp, c) := (TranslateProgram(wb0, p0), CopyOf(p0, wb0, pre));
            ExecCopy(tp, ops, c, st, tmp, fuel) == ExecCopy(tp, ops, c, st, tmp', fuel)
  {
    hide EvalAll, BackAssigns, ResultAssigns, TranslateProgram, EnterCopy, ArgExprs;
    var tp := TranslateProgram(wb0, p0);
    var (call, rest) := (CopyOf(p0, wb0, pre).first, CopyOf(p0, wb0, pre).second);
    assert ExecCopy(tp, ops, call, st, tmp, fuel) == ExecCopy(tp, ops, call, st, tmp', fuel);
  }

  lemma {:induction false} LeavesRepeats(p: Program, wb: Writebacks, p0: Program, wb0: Writebacks, pre: Stmt, x: string,
          path: seq<Seg>, st: Store, ops: Ops, fuel: nat)
    requires Extends(p, wb, p0, wb0) && Complete(p0) && pre.Call? && pre.f in p0
    requires LeavesAgain(p0, wb0, pre, x, path, st, ops, NO_TMP, fuel)
    ensures HoistsRepeat(TranslateProgram(wb, p), ops, AddHoist(map[], 0, CopyOf(p0, wb0, pre)), {0}, [Ref(x, path)], st,
                         fuel)
  {
    hide TranslateProgram, TranslateCall, EvalPath, Set, LeavesPart, Complete, Extends, ExecCopy;
    var c := CopyOf(p0, wb0, pre);
    var again := AddHoist(map[], 0, c);
    forall k, st': Store, tmp | k in {0} && k < 1 && Touched([Ref(x, path)], {0}, k, st, st')
      ensures LeavesPart(ExecCopy(TranslateProgram(wb, p), ops, HoistAgain(again, k), st', tmp, fuel), st', tmp, x, path, ops)
    {
      SameStore(st', st);
      AnyTmp(p0, wb0, pre, x, path, st, ops, tmp, fuel);
      CallCalls(wb0, pre.rs, pre.f, pre.args, map[], p0.Keys);
      SameCopy(p, wb, p0, wb0, ops, CKeep(c), st, tmp, fuel);
      AgainRuns(TranslateProgram(wb, p), ops, c, st, tmp, fuel);
    }
  }

  lemma {:induction false} AgainRuns(tp: CopyProgram, ops: Ops, c: CopyStmt, st: Store, tmp: Packed, fuel: nat)
    ensures ExecCopy(tp, ops, HoistAgain(AddHoist(map[], 0, c), 0), st, tmp, fuel)
            == ExecCopy(tp, ops, CKeep(c), st, tmp, fuel)
  {
    assert HoistAgain(AddHoist(map[], 0, c), 0) == CSeq(CSkip, CKeep(c));
    assert ExecCopy(tp, ops, CSkip, st, tmp, fuel) == CRuns(st, tmp);
  }

  lemma {:induction false} SingleReady(F: Frame, p: Program, wb: Writebacks, notes: Notes, f: string, x: string,
          path: seq<Seg>, h: Heap, env: Bindings, ops: Ops)
    requires Inv(F, h, env) && FrameOk(F) && x in env && x in F.loud && Single(p, wb, notes, f)
    ensures CallReady(F, p[f], {0}, [Ref(x, path)], h, env, ops)
  {
    hide Inv, FrameOk, ProgramOk, View, EvalPath, PathSpares, Modified, FnOk;
    Checked(p, wb, notes, f);
    var args := [Ref(x, path)];
    assert ArgumentsSpared({0}, args, View(h, env), ops);
  }

  /** The statement and its translation after the hoisted call. */
  lemma {:induction false} HoistedOpen(p: Program, wb: Writebacks, p0: Program, wb0: Writebacks, pre: Stmt,
          rs: seq<string>, f: string, x: string, path: seq<Seg>, h: Heap, env: Bindings, ops: Ops, tmp: Packed, fuel: nat)
    requires pre.Call? && Translate(wb, Outside(), {}, pre) == CopyOf(p0, wb0, pre)
    ensures var r := ExecRef(p, ops, Outside(), pre, h, env, fuel);
            ExecRef(p, ops, Outside(), HoistedCall(pre, rs, f, x, path), h, env, fuel)
            == if r.Runs? then ExecRef(p, ops, Outside(), Call(rs, f, [Ref(x, path)]), r.h, r.env, fuel) else r
    ensures var tp := TranslateProgram(wb, p);
            var t := CopyOf(p0, wb0, pre);
            var c := ExecCopy(tp, ops, t, View(h, env), tmp, fuel);
            ExecCopy(tp, ops, Translate(wb, Outside(), {}, HoistedCall(pre, rs, f, x, path)), View(h, env), tmp, fuel)
            == if c.CRuns?
               then ExecCopy(tp, ops, TranslateCall(wb, rs, f, [Ref(x, path)], AddHoist(map[], 0, t)), c.st, c.tmp, fuel)
               else c
  {
    hide View, TranslateCall, TranslateProgram, AddHoist, CallRef;
    var t := CopyOf(p0, wb0, pre);
    assert Translate(wb, Outside(), {}, HoistedCall(pre, rs, f, x, path))
        == CSeq(t, TranslateCall(wb, rs, f, [Ref(x, path)], AddHoist(map[], 0, t)));
  }

  lemma {:induction false} LeavesPreserved(p: Program, wb: Writebacks, notes: Notes, p0: Program, wb0: Writebacks,
          notes0: Notes, pre: Stmt, rs: seq<string>, f: string, x: string, path: seq<Seg>, h: Heap, env: Bindings,
          ops: Ops, tmp: Packed, fuel: nat)
    requires HoistSite(p0, wb0, notes0, pre, x, h, env) && Extends(p, wb, p0, wb0) && Single(p, wb, notes, f)
    requires HoistLeaves(p0, wb0, pre, x, path, h, env, ops)
    ensures StatementPreservedFor(p, wb, HoistedCall(pre, rs, f, x, path), h, env, ops, tmp, fuel)
  {
    hide View, ExecRef, ExecCopy, TranslateCall, TranslateProgram, HoistSite, Extends, Single, Inv, FrameOk, Translate,
         CallReady, HoistsRepeat, BoundTo, LeavesAgain, SameRun, HoistedCall, SiteFrame;
    SiteCall(p0, wb0, notes0, pre, x, h, env);
    HoistedOnce(p, wb, p0, wb0, notes0, pre, x, h, env, ops, tmp, fuel);
    HoistedOpen(p, wb, p0, wb0, pre, rs, f, x, path, h, env, ops, tmp, fuel);
    var r := ExecRef(p0, ops, Outside(), pre, h, env, fuel);
    var c := ExecCopy(TranslateProgram(wb, p), ops, CopyOf(p0, wb0, pre), View(h, env), tmp, fuel);
    SameRunOpen(r, c);
    CallNeverReturns(p0, ops, Outside(), pre, h, env, fuel);
    assert r.Diverges? || r.Reverts? ==> !c.CRuns?;
    if r.Runs? {
      SecondHoist(p, wb, notes, p0, wb0, notes0, pre, rs, f, x, path, h, env, r, ops, c.tmp, fuel);
    }
  }

  lemma {:induction false} SameRunOpen(r: RefOutcome, c: CopyOutcome)
    requires SameRun(r, c)
    ensures r.Runs? ==> c.CRuns? && c.st == View(r.h, r.env)
    ensures (r.Diverges? ==> c.CDiverges?) && (r.Reverts? ==> c.CReverts?)
    ensures r.Wrong? ==> forall c' :: SameRun(r, c')
  {
    hide View;
  }

  lemma {:induction false} SecondHoist(p: Program, wb: Writebacks, notes: Notes, p0: Program, wb0: Writebacks,
          notes0: Notes, pre: Stmt, rs: seq<string>, f: string, x: string, path: seq<Seg>, h: Heap, env: Bindings,
          r: RefOutcome, ops: Ops, tmp: Packed, fuel: nat)
    requires HoistSite(p0, wb0, notes0, pre, x, h, env) && Extends(p, wb, p0, wb0) && Single(p, wb, notes, f)
    requires pre.Call? && HoistLeaves(p0, wb0, pre, x, path, h, env, ops)
    requires r == ExecRef(p0, ops, Outside(), pre, h, env, fuel) && r.Runs?
    requires Inv(SiteFrame(wb0, pre, env), r.h, r.env) && x in r.env
    ensures SameRun(ExecRef(p, ops, Outside(), Call(rs, f, [Ref(x, path)]), r.h, r.env, fuel),
                    ExecCopy(TranslateProgram(wb, p), ops,
                             TranslateCall(wb, rs, f, [Ref(x, path)], AddHoist(map[], 0, CopyOf(p0, wb0, pre))),
                             View(r.h, r.env), tmp, fuel))
  {
    hide View, ExecRef, ExecCopy, TranslateCall, TranslateProgram, HoistSite, Extends, Inv, FrameOk, SameRun,
         CallReady, HoistsRepeat, BoundTo, LeavesAgain, ProgramOk, Complete, Modified, StmtOk, AddHoist;
    SiteAdmissible(p0, wb0, notes0, pre, x, h, env);
    SiteCalls(p0, wb0, notes0, pre, x, h, env);
    var F := SiteFrame(wb0, pre, env);
    var tp := TranslateProgram(wb, p);
    if fuel == 0 {
      NoFuel(p0, ops, Outside(), pre, h, env);
    } else {
      LeavesRepeats(p, wb, p0, wb0, pre, x, path, View(r.h, r.env), ops, fuel);
      SingleReady(F, p, wb, notes, f, x, path, r.h, r.env, ops);
      if |rs| == |p[f].results| && Declared(rs, r.env) {
        CallRuns(p, wb, notes, ops, F, rs, f, [Ref(x, path)], AddHoist(map[], 0, CopyOf(p0, wb0, pre)), r.h, r.env, tmp, fuel);
      } else {
        WrongCall(p, ops, rs, f, [Ref(x, path)], r.h, r.env, fuel);
        WrongIsSame(ExecCopy(tp, ops, TranslateCall(wb, rs, f, [Ref(x, path)], AddHoist(map[], 0, CopyOf(p0, wb0, pre))),
                             View(r.h, r.env), tmp, fuel));
      }
    }
  }

  lemma {:induction false} SiteCalls(p0: Program, wb0: Writebacks, notes0: Notes, pre: Stmt, x: string, h: Heap,
          env: Bindings)
    requires HoistSite(p0, wb0, notes0, pre, x, h, env)
    ensures pre.Call? && pre.f in p0 && Complete(p0)
  {
  }

  lemma {:induction false} NoFuel(p: Program, ops: Ops, fn: Fn, s: Stmt, h: Heap, env: Bindings)
    requires s.Call?
    ensures !ExecRef(p, ops, fn, s, h, env, 0).Runs?
  {
  }

  lemma {:induction false} WrongCall(p: Program, ops: Ops, rs: seq<string>, f: string, args: seq<Arg>, h: Heap,
          env: Bindings, fuel: nat)
    requires f in p && (|rs| != |p[f].results| || !Declared(rs, env))
    ensures ExecRef(p, ops, Outside(), Call(rs, f, args), h, env, fuel) == Wrong
  {
  }

  // ----- a function that shows what making the call again changes -----

  /** By reference the part at the path gets the value. */
  lemma {:induction false} SetterByReference(p: Program, ops: Ops, fn: Fn, f: string, value: Val, x: string,
          path: seq<Seg>, h: Heap, env: Bindings, fuel: nat)
    requires f in p && p[f] == Setter(value) && x in env && fuel > 0
    ensures var l := env[x].Down(EvalPath(path, View(h, env), ops));
            ExecRef(p, ops, fn, Call([], f, [Ref(x, path)]), h, env, fuel)
            == Runs(WriteLoc(h, l.Down([Member("x")]), value), env)
  {
    hide View, EvalPath, WriteLoc, ArgValue, Bind, ReturnNames, EvalSeg;
    var (g, a) := (Setter(value), Param("a", true));
    var l := env[x].Down(EvalPath(path, View(h, env), ops));
    OneArgument(a, Ref(x, path), h, env, ops);
    var env' := map["a" := l];
    assert Named([a], [l]) == env' by {
      assert [a][..0] == [] && [l][..0] == [];
    }
    assert Rebind([], MemoryLang.Zeros(0), h, env') == (h, env');
    assert Enter(g, [Ref(x, path)], h, env, ops) == (h, env');
    FieldPath("x", View(h, env'), ops);
    var h' := WriteLoc(h, l.Down([Member("x")]), value);
    assert ExecRef(p, ops, g, g.body, h, env', fuel - 1) == Runs(h', env');
    NoneNamed(g, h', env', ops);
    assert BodyRef(p, ops, g, [Ref(x, path)], h, env, fuel) == Returns(h', env', []);
    assert BindResults([], [], env) == env;
    assert CallRef(p, ops, [], g, [Ref(x, path)], h, env, fuel) == Runs(h', env);
  }

  /** By reference the caller's object has the value in the part. */
  lemma {:induction false} SetterView(F: Frame, p: Program, ops: Ops, f: string, value: Val, x: string, path: seq<Seg>,
          h: Heap, env: Bindings, fuel: nat)
    requires f in p && p[f] == Setter(value) && x in env && x in F.loud && fuel > 0 && Inv(F, h, env) && FrameOk(F)
    ensures var r := ExecRef(p, ops, F.fn, Call([], f, [Ref(x, path)]), h, env, fuel);
            var (st, q) := (View(h, env), EvalPath(path, View(h, env), ops) + [Member("x")]);
            r.Runs? && View(r.h, r.env) == st[x := Set(st[x], q, value)]
  {
    hide View, EvalPath, WriteLoc, Inv, FrameOk, ExecRef, Set;
    var p0 := EvalPath(path, View(h, env), ops);
    SetterByReference(p, ops, F.fn, f, value, x, path, h, env, fuel);
    assert (env[x].path + p0) + [Member("x")] == env[x].path + (p0 + [Member("x")]);
    WriteKeeps(F, h, env, x, p0 + [Member("x")], value);
  }

  lemma {:induction false} SetterTranslated(wb: Writebacks, f: string, value: Val)
    requires WritebackOf(wb, f) == {0}
    ensures TranslateFn(wb, f, Setter(value))
            == CopyFn(["a"], [], CSeq(CAssign("a", [Field("x")], Plain(Lit(value))), CReturn([Read("a", [])])))
  {
    var g := Setter(value);
    assert ParamNames(g.params) == ["a"];
    assert Indices({0}, 1) == Indices({0}, 0) + [0];
    assert WritebackReads(g.params, {0}, 1) == WritebackReads(g.params, {0}, 0) + [Read("a", [])];
    assert WritebackReads(g.params, {0}, 1) == [Read("a", [])];
    assert ArgExprs(NamedRefs([])) == [];
    assert [] + [Read("a", [])] == [Read("a", [])];
    assert ReturnedNames(g, {0}) == CReturn([Read("a", [])]);
  }

  /** By copy the temporary holds the part with the value in it. */
  lemma {:induction false} SetterCalled(p: Program, wb: Writebacks, ops: Ops, f: string, value: Val, x: string,
          path: seq<Seg>, st: Store, tmp: Packed, fuel: nat)
    requires f in p && p[f] == Setter(value) && WritebackOf(wb, f) == {0} && x in st && fuel > 0
    ensures var v := Set(Get(st[x], EvalPath(path, st, ops)), [Member("x")], value);
            ExecCopy(TranslateProgram(wb, p), ops, CCall(f, ArgExprs([Ref(x, path)])), st, tmp, fuel) == CRuns(st, One(v))
  {
    hide Get, Set, EvalPath, ArgExprs, EvalAll, TranslateFn, EnterCopy;
    var tp := TranslateProgram(wb, p);
    var u := Get(st[x], EvalPath(path, st, ops));
    ArgumentValue([Ref(x, path)], st, ops, 0);
    assert EvalAll(ArgExprs([Ref(x, path)]), st, ops) == [u];
    SetterTranslated(wb, f, value);
    SetterReturns(value, u, tp, ops, Tuple([]), fuel - 1);
  }

  lemma {:induction false} SetterReturns(value: Val, u: Val, tp: CopyProgram, ops: Ops, tmp: Packed, fuel: nat)
    ensures var tg := CopyFn(["a"], [], CSeq(CAssign("a", [Field("x")], Plain(Lit(value))), CReturn([Read("a", [])])));
            ExecCopy(tp, ops, tg.body, EnterCopy(tg, [u]), tmp, fuel) == CReturns([Set(u, [Member("x")], value)])
  {
    hide Get, Set, EvalPath, EvalAll;
    assert ["a"][..0] == [] && [u][..0] == [];
    assert AssignAll(["a"], [u], map[]) == map["a" := u];
    var st := map["a" := u];
    assert AssignAll([], MemoryLang.Zeros(0), st) == st;
    FieldPath("x", st, ops);
    var st1 := st["a" := Set(u, [Member("x")], value)];
    assert ExecCopy(tp, ops, CAssign("a", [Field("x")], Plain(Lit(value))), st, tmp, fuel) == CRuns(st1, tmp);
    ReadsName("a", st1, ops);
  }

  lemma {:induction false} SetterForm(wb: Writebacks, f: string, x: string, path: seq<Seg>, again: Hoists)
    requires WritebackOf(wb, f) == {0}
    ensures TranslateCall(wb, [], f, [Ref(x, path)], again)
            == CSeq(CCall(f, ArgExprs([Ref(x, path)])),
                    CSeq(CSeq(CSeq(CSkip, HoistAgain(again, 0)), CAssign(x, path, CopyExpr.Component(0, 1))), CSkip))
  {
    hide ArgExprs, HoistAgain;
    assert Indices({0}, 0) == [];
    assert Indices({0}, 1) == Indices({0}, 0) + [0];
    assert BackAssigns([Ref(x, path)], {0}, 0, 0, 1, again) == CSkip;
    assert BackAssigns([Ref(x, path)], {0}, 1, 0, 1, again)
        == CSeq(CSeq(CSkip, HoistAgain(again, 0)), CAssign(x, path, CopyExpr.Component(0, 1)));
    assert ResultAssigns([], 0, 1) == CSkip;
  }

  /** By copy the part is assigned where the path leads after the hoisted call has been made again. */
  lemma {:induction false} SetterByCopy(p: Program, wb: Writebacks, ops: Ops, f: string, value: Val, x: string,
          path: seq<Seg>, again: Hoists, st: Store, tmp: Packed, fuel: nat)
    requires f in p && p[f] == Setter(value) && WritebackOf(wb, f) == {0} && x in st && fuel > 0
    requires forall tmp' :: var o := ExecCopy(TranslateProgram(wb, p), ops, HoistAgain(again, 0), st, tmp', fuel);
                            o.CRuns? ==> o.tmp == tmp'
    ensures var v := Set(Get(st[x], EvalPath(path, st, ops)), [Member("x")], value);
            var o := ExecCopy(TranslateProgram(wb, p), ops, HoistAgain(again, 0), st, One(v), fuel);
            var c := ExecCopy(TranslateProgram(wb, p), ops, TranslateCall(wb, [], f, [Ref(x, path)], again), st, tmp, fuel);
            && (c.CRuns? ==> o.CRuns? && x in o.st)
            && (o.CRuns? && x in o.st ==> c.CRuns? && c.st == o.st[x := Set(o.st[x], EvalPath(path, o.st, ops), v)])
  {
    hide Get, Set, EvalPath, ArgExprs, HoistAgain, TranslateProgram, TranslateCall;
    var tp := TranslateProgram(wb, p);
    var v := Set(Get(st[x], EvalPath(path, st, ops)), [Member("x")], value);
    SetterCalled(p, wb, ops, f, value, x, path, st, tmp, fuel);
    SetterForm(wb, f, x, path, again);
    var o := ExecCopy(tp, ops, HoistAgain(again, 0), st, One(v), fuel);
    var assign := CAssign(x, path, CopyExpr.Component(0, 1));
    assert ExecCopy(tp, ops, CSeq(CSkip, HoistAgain(again, 0)), st, One(v), fuel) == o;
    var back := CSeq(CSeq(CSkip, HoistAgain(again, 0)), assign);
    var b := ExecCopy(tp, ops, back, st, One(v), fuel);
    assert o.CRuns? ==> b == ExecCopy(tp, ops, assign, o.st, One(v), fuel);
    assert b.CRuns? ==> ExecCopy(tp, ops, CSkip, b.st, b.tmp, fuel) == b;
    assert ExecCopy(tp, ops, CSeq(back, CSkip), st, One(v), fuel) == b;
  }

  /** The value to set: one that the part does not have at its place after the call has been made again. */
  ghost function Telling(o: CopyOutcome, x: string, p: Path): Val {
    if o.CRuns? && x in o.st then Other(Get(o.st[x], p + [Member("x")])) else Zero()
  }

  /** If both assignments leave the same store, making the call again has left the path and the rest of the store. */
  lemma {:induction false} SameLeaves(o: CopyOutcome, st: Store, tmp: Packed, x: string, path: seq<Seg>, ops: Ops)
    requires x in st && o.CRuns? && x in o.st && o.tmp == tmp
    requires var p := EvalPath(path, st, ops);
             var value := Telling(o, x, p);
             var v := Set(Get(st[x], p), [Member("x")], value);
             o.st[x := Set(o.st[x], EvalPath(path, o.st, ops), v)] == st[x := Set(st[x], p + [Member("x")], value)]
    ensures LeavesPart(o, st, tmp, x, path, ops)
  {
    hide Get, Set, EvalPath, Diverge;
    var (p, p') := (EvalPath(path, st, ops), EvalPath(path, o.st, ops));
    var value := Telling(o, x, p);
    var v := Set(Get(st[x], p), [Member("x")], value);
    var (after, after') := (st[x := Set(st[x], p + [Member("x")], value)], o.st[x := Set(o.st[x], p', v)]);
    assert after'.Keys == o.st.Keys && after.Keys == st.Keys;
    forall y | y in st && y in o.st && y != x ensures o.st[y] == st[y] {
      assert after'[y] == after[y];
    }
    assert Set(o.st[x], p', v) == Set(st[x], p + [Member("x")], value);
    SamePart(o.st[x], st[x], p', p, v, value);
  }

  lemma {:induction false} SamePart(a: Val, b: Val, q: Path, p: Path, v: Val, value: Val)
    requires |p| == |q| && Set(a, q, v) == Set(b, p + [Member("x")], value)
    requires value != Get(a, p + [Member("x")])
    ensures p == q && Set(a, p, Zero()) == Set(b, p, Zero())
  {
    hide Get, Set;
    var m := [Member("x")];
    PartSet(b, p + m, value);
    if p != q {
      ApartBelow(q, p, m);
      GetApart(a, q, p + m, v);
      assert false;
    }
    SetOver(a, p, [], v);
    SetOver(b, p, m, value);
    assert p + [] == p;
  }

  lemma {:induction false} ApartBelow(q: Path, p: Path, m: Path)
    requires |p| == |q| && p != q
    ensures Diverge(q, p + m)
  {
    var k :| 0 <= k < |p| && p[k] != q[k];
    assert (p + m)[k] == p[k];
  }

  /** Writing a part makes up for what was written inside it. */
  lemma {:induction false} SetOver(a: Val, p: Path, q: Path, w: Val)
    ensures Set(Set(a, p + q, w), p, Zero()) == Set(a, p, Zero())
  {
    forall r: Path ensures Set(Set(a, p + q, w), p, Zero())[r] == Set(a, p, Zero())[r] {
      if p + q <= r {
        Front(p, q, r);
      }
    }
  }

  /** A larger program in which the call is translated wrongly, if making the hoisted call again changes too much. */
  lemma {:induction false} ChangesSeen(p0: Program, wb0: Writebacks, notes0: Notes, pre: Stmt, f: string, x: string,
          path: seq<Seg>, h: Heap, env: Bindings, ops: Ops, fuel: nat)
    requires HoistSite(p0, wb0, notes0, pre, x, h, env) && f !in p0 && pre.Call? && fuel > 0
    requires ExecRef(p0, ops, Outside(), pre, h, env, fuel).Runs?
    requires var r := ExecRef(p0, ops, Outside(), pre, h, env, fuel);
             !LeavesAgain(p0, wb0, pre, x, path, View(r.h, r.env), ops, NO_TMP, fuel)
    ensures !HoistPreserved(p0, wb0, pre, x, path, h, env, ops)
  {
    hide View, ExecRef, ExecCopy, TranslateCall, TranslateProgram, HoistSite, Extends, Single, ProgramOk, Complete, EvalPath,
         Inv, FrameOk, LeavesAgain, Setter, Translate, SiteFrame, HoistedCall;
    SiteAdmissible(p0, wb0, notes0, pre, x, h, env);
    var r := ExecRef(p0, ops, Outside(), pre, h, env, fuel);
    HoistedOnce(p0, wb0, p0, wb0, notes0, pre, x, h, env, ops, NO_TMP, fuel) by { ExtendsItself(p0, wb0); }
    var st := View(r.h, r.env);
    var o := ExecCopy(TranslateProgram(wb0, p0), ops, CKeep(CopyOf(p0, wb0, pre)), st, NO_TMP, fuel);
    var value := Telling(o, x, EvalPath(path, st, ops));
    OneMoreFunction(p0, wb0, notes0, f, value);
    var (p, wb, notes) := (p0[f := Setter(value)], wb0[f := {0}], notes0[f := Note({}, {}, {})]);
    if StatementPreservedFor(p, wb, HoistedCall(pre, [], f, x, path), h, env, ops, NO_TMP, fuel) {
      SetterTells(p, wb, p0, wb0, notes0, pre, f, value, x, path, h, env, r, ops, fuel);
      assert false;
    }
  }

  lemma {:induction false} ExtendsItself(p0: Program, wb0: Writebacks)
    ensures Extends(p0, wb0, p0, wb0)
  {
  }

  /** If the call of the setter is translated right, making the hoisted call again has changed nothing else. */
  lemma {:induction false} SetterTells(p: Program, wb: Writebacks, p0: Program, wb0: Writebacks, notes0: Notes, pre: Stmt,
          f: string, value: Val, x: string, path: seq<Seg>, h: Heap, env: Bindings, r: RefOutcome, ops: Ops, fuel: nat)
    requires HoistSite(p0, wb0, notes0, pre, x, h, env) && Extends(p, wb, p0, wb0) && pre.Call? && fuel > 0
    requires f in p && p[f] == Setter(value) && WritebackOf(wb, f) == {0}
    requires r == ExecRef(p0, ops, Outside(), pre, h, env, fuel) && r.Runs?
    requires var st := View(r.h, r.env);
             value == Telling(ExecCopy(TranslateProgram(wb0, p0), ops, CKeep(CopyOf(p0, wb0, pre)), st, NO_TMP, fuel), x,
                              EvalPath(path, st, ops))
    requires StatementPreservedFor(p, wb, HoistedCall(pre, [], f, x, path), h, env, ops, NO_TMP, fuel)
    ensures LeavesAgain(p0, wb0, pre, x, path, View(r.h, r.env), ops, NO_TMP, fuel)
  {
    hide View, ExecRef, ExecCopy, TranslateCall, TranslateProgram, HoistSite, Extends, ProgramOk, Complete, EvalPath, Get, Set,
         Inv, FrameOk, LeavesPart, Setter, Translate, SiteFrame, HoistedCall, AddHoist, Telling;
    SiteAdmissible(p0, wb0, notes0, pre, x, h, env);
    SiteCalls(p0, wb0, notes0, pre, x, h, env);
    HoistedOnce(p, wb, p0, wb0, notes0, pre, x, h, env, ops, NO_TMP, fuel);
    HoistedOpen(p, wb, p0, wb0, pre, [], f, x, path, h, env, ops, NO_TMP, fuel);
    var (F, st, t) := (SiteFrame(wb0, pre, env), View(r.h, r.env), CopyOf(p0, wb0, pre));
    SiteOutside(wb0, pre, env);
    SetterView(F, p, ops, f, value, x, path, r.h, r.env, fuel);
    var tp := TranslateProgram(wb, p);
    var c := ExecCopy(tp, ops, t, View(h, env), NO_TMP, fuel);
    SameRunOpen(r, c);
    var again := AddHoist(map[], 0, t);
    AgainKeeps(p, wb, p0, wb0, pre, ops, st, fuel);
    ViewAt(r.h, r.env, x);
    SetterByCopy(p, wb, ops, f, value, x, path, again, st, c.tmp, fuel);
    var p1 := EvalPath(path, st, ops);
    var v := Set(Get(st[x], p1), [Member("x")], value);
    var o := ExecCopy(tp, ops, HoistAgain(again, 0), st, One(v), fuel);
    assert o.CRuns? && x in o.st;
    var o0 := ExecCopy(TranslateProgram(wb0, p0), ops, CKeep(t), st, NO_TMP, fuel);
    assert o0.CRuns? && o0.st == o.st && o0.tmp == NO_TMP;
    SameLeaves(o0, st, NO_TMP, x, path, ops);
  }

  /** Made again in a larger program and with another temporary. */
  lemma {:induction false} AgainKeeps(p: Program, wb: Writebacks, p0: Program, wb0: Writebacks, pre: Stmt, ops: Ops,
          st: Store, fuel: nat)
    requires Extends(p, wb, p0, wb0) && Complete(p0) && pre.Call? && pre.f in p0
    ensures var t := CopyOf(p0, wb0, pre);
            var o0 := ExecCopy(TranslateProgram(wb0, p0), ops, CKeep(t), st, NO_TMP, fuel);
            && (o0.CRuns? ==> o0.tmp == NO_TMP)
            && forall tmp ::
                 var o := ExecCopy(TranslateProgram(wb, p), ops, HoistAgain(AddHoist(map[], 0, t), 0), st, tmp, fuel);
                 o.CRuns? ==> o.tmp == tmp && o0.CRuns? && o.st == o0.st
  {
    hide TranslateCall, TranslateProgram, Complete, Extends, AddHoist;
    var t := CopyOf(p0, wb0, pre);
    forall tmp
      ensures var o0 := ExecCopy(TranslateProgram(wb0, p0), ops, CKeep(t), st, NO_TMP, fuel);
              var o := ExecCopy(TranslateProgram(wb, p), ops, HoistAgain(AddHoist(map[], 0, t), 0), st, tmp, fuel);
              o.CRuns? ==> o.tmp == tmp && o0.CRuns? && o.st == o0.st
    {
      AgainRuns(TranslateProgram(wb, p), ops, t, st, tmp, fuel);
      CallCalls(wb0, pre.rs, pre.f, pre.args, map[], p0.Keys);
      SameCopy(p, wb, p0, wb0, ops, CKeep(t), st, tmp, fuel);
      AgainTmp(p0, wb0, pre, st, ops, tmp, NO_TMP, fuel);
    }
  }

  /**
   A call whose written-back argument has an internal call in its path is translated right, in every larger
   program and for every function of one memory parameter it may modify, if and only if, whenever the hoisted
   call returns, making it again leaves the path and everything outside the part at the path as they are.
   */
  lemma {:induction false} HoistedExactly(p0: Program, wb0: Writebacks, notes0: Notes, pre: Stmt, f: string, x: string,
          path: seq<Seg>, h: Heap, env: Bindings, ops: Ops)
    requires HoistSite(p0, wb0, notes0, pre, x, h, env) && pre.Call? && f !in p0
    ensures HoistPreserved(p0, wb0, pre, x, path, h, env, ops) <==> HoistLeaves(p0, wb0, pre, x, path, h, env, ops)
  {
    hide View, ExecRef, HoistSite, Extends, Single, LeavesAgain, StatementPreservedFor, HoistedCall;
    if HoistLeaves(p0, wb0, pre, x, path, h, env, ops) {
      forall p, wb, notes, f, rs, tmp, fuel: nat | Extends(p, wb, p0, wb0) && Single(p, wb, notes, f)
        ensures StatementPreservedFor(p, wb, HoistedCall(pre, rs, f, x, path), h, env, ops, tmp, fuel)
      {
        LeavesPreserved(p, wb, notes, p0, wb0, notes0, pre, rs, f, x, path, h, env, ops, tmp, fuel);
      }
    } else {
      var fuel: nat :| fuel > 0 && ExecRef(p0, ops, Outside(), pre, h, env, fuel).Runs?
        && !LeavesAgain(p0, wb0, pre, x, path, View(ExecRef(p0, ops, Outside(), pre, h, env, fuel).h,
                                                     ExecRef(p0, ops, Outside(), pre, h, env, fuel).env), ops, NO_TMP, fuel);
      ChangesSeen(p0, wb0, notes0, pre, f, x, path, h, env, ops, fuel);
    }
  }
}
