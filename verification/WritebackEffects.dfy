/**
 Calls with effects in expressions: one in the path of a written-back argument, which is made twice; one that
 need not be evaluated, which is made all the same; and one on the object another call has returned.
 */
module WritebackEffects {
  import opened Options
  import opened MemoryLang
  import opened MemoryCopy
  import opened WritebackFrames
  import opened WritebackReturns
  import opened WritebackSound
  import opened WritebackAnalysis
  import opened WritebackGap
  import opened WritebackExtend
  import opened WritebackHoists
  import opened WritebackNames

  // ----- f(q[next(p)]) -----

  /** The operator next applies to its counter. */
  ghost function Step(ops: Ops, v: Val): Val {
    ops(0, [v])
  }

  /** next(S memory a) returns (uint r): a.n = step(a.n); r = a.n; */
  function Next(): Fn {
    Fn([Param("a", true)], ["r"], true, ["r"],
       Seq(Assign("a", [Field("n")], Op(0, [Read("a", [Field("n")])])), Assign("r", [], Read("a", [Field("n")]))))
  }

  const NEXT: Program := map["next" := Next()]

  /** What the analysis computes: next may modify its parameter. */
  const NEXT_BACK: Writebacks := map["next" := {0}]

  const NEXT_NOTES: Notes := map["next" := Note({}, {}, {})]

  /** t = next(p), hoisted out of q[next(p)]. */
  const NEXT_CALL: Stmt := Call(["t"], "next", [Ref("p", [])])

  const AT_NEXT: seq<Seg> := [At(Read("t", []))]

  lemma {:induction false} NextComputed()
    ensures NEXT_BACK["next"] == Modified(Next(), NEXT_BACK)
    ensures Rebound(Next().body) == {"r"} && InPlace(Next().body, NEXT_BACK) == {"a"}
  {
    assert InPlace(Next().body, NEXT_BACK) == {"a"};
  }

  lemma {:induction false} NextSite(h: Heap, env: Bindings)
    requires "p" in env && "q" in env && "t" in env && OneObjectEach(h, env)
    ensures HoistSite(NEXT, NEXT_BACK, NEXT_NOTES, NEXT_CALL, "q", h, env)
  {
    hide OneObjectEach, InPlace, Rebound, Modified;
    NextComputed();
    NextFits();
    assert ProgramOk(NEXT, NEXT_BACK, NEXT_NOTES);
    assert Complete(NEXT) by {
      assert Calls(Next().body) == {};
    }
  }

  lemma {:induction false} NextFits()
    ensures FnOk(NEXT, NEXT_BACK, NEXT_NOTES, "next")
  {
    hide InPlace, Rebound;
    NextComputed();
    assert NEXT["next"] == Next() && WritebackOf(NEXT_BACK, "next") == {0};
    assert NoteOf(NEXT_NOTES, "next") == Note({}, {}, {});
  }

  // ----- next by copy -----

  /** The counter stepped, and its new value as the result. */
  ghost function Stepped(st: Store, ops: Ops): Store
    requires "p" in st
  {
    var n := Step(ops, Get(st["p"], [Member("n")]));
    st["p" := Set(st["p"], [Member("n")], n)]["t" := n]
  }

  lemma {:induction false} NextTranslated()
    ensures TranslateFn(NEXT_BACK, "next", Next())
            == CopyFn(["a"], ["r"],
                      CSeq(CSeq(CAssign("a", [Field("n")], Plain(Op(0, [Read("a", [Field("n")])]))),
                                CAssign("r", [], Plain(Read("a", [Field("n")])))),
                           CReturn([Read("r", []), Read("a", [])])))
  {
    var g := Next();
    assert ParamNames(g.params) == ["a"];
    assert WritebackReads(g.params, {0}, 1) == WritebackReads(g.params, {0}, 0) + [Read("a", [])];
    assert WritebackReads(g.params, {0}, 1) == [Read("a", [])];
    assert ArgExprs(NamedRefs(["r"])) == [Read("r", [])];
    assert [Read("r", [])] + [Read("a", [])] == [Read("r", []), Read("a", [])];
    assert ReturnedNames(g, {0}) == CReturn([Read("r", []), Read("a", [])]);
  }

  lemma {:induction false} ReadsMember(st: Store, ops: Ops)
    requires "a" in st
    ensures Eval(Read("a", [Field("n")]), st, ops) == Get(st["a"], [Member("n")])
    ensures Eval(Op(0, [Read("a", [Field("n")])]), st, ops) == Step(ops, Get(st["a"], [Member("n")]))
  {
    hide Get, EvalPath;
    FieldPath("n", st, ops);
    var es := [Read("a", [Field("n")])];
    assert es[..0] == [] && es[0] == Read("a", [Field("n")]);
    assert EvalAll(es[..0], st, ops) == [];
    assert EvalAll(es, st, ops) == [] + [Eval(es[0], st, ops)];
    assert EvalAll(es, st, ops) == [Get(st["a"], [Member("n")])];
  }

  lemma {:induction false} NextReturns(u: Val, tp: CopyProgram, ops: Ops, tmp: Packed, fuel: nat)
    ensures var n := Step(ops, Get(u, [Member("n")]));
            var body := TranslateFn(NEXT_BACK, "next", Next()).body;
            ExecCopy(tp, ops, body, map["a" := u, "r" := Zero()], tmp, fuel)
            == CReturns([n, Set(u, [Member("n")], n)])
  {
    hide Get, Set, EvalPath, EvalAll, Eval, TranslateFn, Step;
    NextTranslated();
    var n := Step(ops, Get(u, [Member("n")]));
    var st := map["a" := u, "r" := Zero()];
    ReadsMember(st, ops);
    FieldPath("n", st, ops);
    var st1 := st["a" := Set(u, [Member("n")], n)];
    var (first, second) := (CAssign("a", [Field("n")], Plain(Op(0, [Read("a", [Field("n")])]))),
                            CAssign("r", [], Plain(Read("a", [Field("n")]))));
    assert ExecCopy(tp, ops, first, st, tmp, fuel) == CRuns(st1, tmp);
    ReadsMember(st1, ops);
    PartSet(u, [Member("n")], n);
    NoPath(st1, ops);
    SetAll(st1["r"], n);
    var st2 := st1["r" := n];
    assert ExecCopy(tp, ops, second, st1, tmp, fuel) == CRuns(st2, tmp);
    var both := CSeq(first, second);
    assert ExecCopy(tp, ops, both, st, tmp, fuel) == CRuns(st2, tmp);
    var es := [Read("r", []), Read("a", [])];
    ReadsName("r", st2, ops);
    ReadsName("a", st2, ops);
    EvalAllAt(es, st2, ops, 0);
    EvalAllAt(es, st2, ops, 1);
    assert EvalAll(es, st2, ops) == [n, Set(u, [Member("n")], n)];
    assert ExecCopy(tp, ops, CReturn(es), st2, tmp, fuel) == CReturns([n, Set(u, [Member("n")], n)]);
  }

  lemma {:induction false} NextStore(u: Val)
    ensures var tg := TranslateFn(NEXT_BACK, "next", Next());
            |tg.params| == 1 && EnterCopy(tg, [u]) == map["a" := u, "r" := Zero()]
  {
    hide TranslateFn;
    NextTranslated();
    assert ["a"][..0] == [] && [u][..0] == [] && ["r"][..0] == [] && MemoryLang.Zeros(1)[..0] == [];
    assert AssignAll(["a"], [u], map[]) == map["a" := u];
    assert AssignAll(["r"], MemoryLang.Zeros(1), map["a" := u]) == map["a" := u]["r" := Zero()];
  }

  lemma {:induction false} NextForm()
    ensures CopyOf(NEXT, NEXT_BACK, NEXT_CALL)
            == CSeq(CCall("next", ArgExprs([Ref("p", [])])),
                    CSeq(CSeq(CSeq(CSkip, CSkip), CAssign("p", [], CopyExpr.Component(1, 2))),
                         CSeq(CSkip, CAssign("t", [], CopyExpr.Component(0, 2)))))
  {
    hide ArgExprs;
    assert Indices({0}, 0) == [];
    assert Indices({0}, 1) == Indices({0}, 0) + [0];
    assert BackAssigns([Ref("p", [])], {0}, 0, 1, 2, map[]) == CSkip;
    assert BackAssigns([Ref("p", [])], {0}, 1, 1, 2, map[])
        == CSeq(CSeq(CSkip, CSkip), CAssign("p", [], CopyExpr.Component(1, 2)));
    assert ResultAssigns(["t"], 0, 2) == CSkip;
    assert ResultAssigns(["t"], 1, 2) == CSeq(CSkip, CAssign("t", [], CopyExpr.Component(0, 2)));
  }

  lemma {:induction false} NextByCopy(st: Store, ops: Ops, tmp: Packed, fuel: nat)
    requires "p" in st && "t" in st && fuel > 0
    ensures var c := ExecCopy(TranslateProgram(NEXT_BACK, NEXT), ops, CopyOf(NEXT, NEXT_BACK, NEXT_CALL), st, tmp, fuel);
            c.CRuns? && c.st == Stepped(st, ops)
  {
    hide Get, Set, EvalPath, EvalAll, TranslateFn, EnterCopy, Step, ArgExprs, TranslateCall;
    var tp := TranslateProgram(NEXT_BACK, NEXT);
    var u := st["p"];
    var n := Step(ops, Get(u, [Member("n")]));
    var all := [n, Set(u, [Member("n")], n)];
    ArgumentValue([Ref("p", [])], st, ops, 0);
    ReadsName("p", st, ops);
    assert EvalAll(ArgExprs([Ref("p", [])]), st, ops) == [u];
    NextStore(u);
    NextReturns(u, tp, ops, Tuple([]), fuel - 1);
    assert tp["next"] == TranslateFn(NEXT_BACK, "next", Next());
    NextForm();
    var call := CCall("next", ArgExprs([Ref("p", [])]));
    assert ExecCopy(tp, ops, call, st, tmp, fuel) == CRuns(st, Pack(all));
    NextBacks(st, all, tp, ops, fuel);
  }

  lemma {:induction false} NextBacks(st: Store, all: seq<Val>, tp: CopyProgram, ops: Ops, fuel: nat)
    requires "p" in st && "t" in st && |all| == 2
    ensures var rest := CSeq(CSeq(CSeq(CSkip, CSkip), CAssign("p", [], CopyExpr.Component(1, 2))),
                             CSeq(CSkip, CAssign("t", [], CopyExpr.Component(0, 2))));
            ExecCopy(tp, ops, rest, st, Pack(all), fuel) == CRuns(st["p" := all[1]]["t" := all[0]], Pack(all))
  {
    hide Set, EvalPath, Pack, EvalCopy;
    var (first, second) := (CAssign("p", [], CopyExpr.Component(1, 2)), CAssign("t", [], CopyExpr.Component(0, 2)));
    ComponentOfPack(all, 1, st, ops);
    NoPath(st, ops);
    SetAll(st["p"], all[1]);
    var st1 := st["p" := all[1]];
    assert ExecCopy(tp, ops, first, st, Pack(all), fuel) == CRuns(st1, Pack(all));
    assert ExecCopy(tp, ops, CSeq(CSkip, CSkip), st, Pack(all), fuel) == CRuns(st, Pack(all));
    assert ExecCopy(tp, ops, CSeq(CSeq(CSkip, CSkip), first), st, Pack(all), fuel) == CRuns(st1, Pack(all));
    ComponentOfPack(all, 0, st1, ops);
    NoPath(st1, ops);
    SetAll(st1["t"], all[0]);
    var st2 := st1["t" := all[0]];
    assert ExecCopy(tp, ops, second, st1, Pack(all), fuel) == CRuns(st2, Pack(all));
    assert ExecCopy(tp, ops, CSeq(CSkip, second), st1, Pack(all), fuel) == CRuns(st2, Pack(all));
  }

  // ----- next by reference -----

  /** The hoisted call returns. */
  lemma {:induction false} NextRuns(h: Heap, env: Bindings, ops: Ops, fuel: nat)
    requires "p" in env && "t" in env && fuel > 0
    ensures ExecRef(NEXT, ops, Outside(), NEXT_CALL, h, env, fuel).Runs?
  {
    hide View, BodyRef;
    NextBodyReturns(h, env, ops, fuel);
  }

  lemma {:induction false} NextBodyReturns(h: Heap, env: Bindings, ops: Ops, fuel: nat)
    requires "p" in env && fuel > 0
    ensures BodyRef(NEXT, ops, Next(), [Ref("p", [])], h, env, fuel).Returns?
  {
    hide View, EvalPath, Eval, WriteLoc, Bind, Named, Rebind, ArgValue;
    var g := Next();
    NextEntered(h, env, ops);
    var (h1, env1) := Enter(g, [Ref("p", [])], h, env, ops);
    var r := ExecRef(NEXT, ops, g, g.body, h1, env1, fuel - 1);
    NextBodyRuns(g, h1, env1, ops, fuel - 1);
    OneNamed(g, "r", r.h, r.env, ops);
  }

  lemma {:induction false} NextBodyRuns(g: Fn, h: Heap, env: Bindings, ops: Ops, fuel: nat)
    requires "a" in env && "r" in env
    ensures var r := ExecRef(NEXT, ops, g, Next().body, h, env, fuel);
            r.Runs? && "r" in r.env
  {
    hide View, EvalPath, Eval, WriteLoc;
  }

  lemma {:induction false} NextEntered(h: Heap, env: Bindings, ops: Ops)
    requires "p" in env
    ensures var env1 := Enter(Next(), [Ref("p", [])], h, env, ops).1;
            "a" in env1 && "r" in env1
  {
    hide View, EvalPath, ArgValue, Bind;
    OneArgument(Param("a", true), Ref("p", []), h, env, ops);
    var l := env["p"].Down(EvalPath([], View(h, env), ops));
    assert Named([Param("a", true)], [l]) == map["a" := l] by {
      assert [Param("a", true)][..0] == [] && [l][..0] == [];
    }
    OneRebound("r", Zero(), h, map["a" := l]);
  }

  // ----- where the two hoists agree -----

  lemma {:induction false} NextAgain(st: Store, ops: Ops, fuel: nat)
    requires "p" in st && "q" in st && "t" in st && fuel > 0
    ensures var n := Step(ops, Get(st["p"], [Member("n")]));
            LeavesAgain(NEXT, NEXT_BACK, NEXT_CALL, "q", AT_NEXT, Stepped(st, ops), ops, NO_TMP, fuel)
            <==> Step(ops, n) == n
  {
    hide Get, Set, EvalPath, TranslateProgram, TranslateCall, Step;
    var st1 := Stepped(st, ops);
    var n := Step(ops, Get(st["p"], [Member("n")]));
    NextByCopy(st1, ops, NO_TMP, fuel);
    PartSet(st["p"], [Member("n")], n);
    var st2 := Stepped(st1, ops);
    assert st2["t"] == Step(ops, n) && st1["t"] == n;
    if Step(ops, n) == n {
      SetGet(st1["p"], [Member("n")]);
      SameStore(st2, st1);
    }
  }

  /**
   f(q[next(p)]) is translated right, in every program with next and for every function f of one memory
   parameter it may modify, if and only if stepping the counter twice leaves what stepping it once leaves.
   */
  lemma {:induction false} HoistedNext(h: Heap, env: Bindings, ops: Ops)
    requires "p" in env && "q" in env && "t" in env && OneObjectEach(h, env)
    ensures NEXT_BACK["next"] == Modified(Next(), NEXT_BACK)
    ensures var n := Step(ops, Get(View(h, env)["p"], [Member("n")]));
            HoistPreserved(NEXT, NEXT_BACK, NEXT_CALL, "q", AT_NEXT, h, env, ops) <==> Step(ops, n) == n
  {
    hide Get, Set, View, ExecRef, HoistPreserved, HoistSite, LeavesAgain, Stepped, Step, Modified, OneObjectEach;
    NextComputed();
    NextSite(h, env);
    HoistedExactly(NEXT, NEXT_BACK, NEXT_NOTES, NEXT_CALL, "f", "q", AT_NEXT, h, env, ops);
    var st := View(h, env);
    var n := Step(ops, Get(st["p"], [Member("n")]));
    forall fuel: nat | fuel > 0
      ensures var r := ExecRef(NEXT, ops, Outside(), NEXT_CALL, h, env, fuel);
              && r.Runs?
              && (LeavesAgain(NEXT, NEXT_BACK, NEXT_CALL, "q", AT_NEXT, View(r.h, r.env), ops, NO_TMP, fuel)
                  <==> Step(ops, n) == n)
    {
      NextStepped(h, env, ops, fuel);
      NextAgain(st, ops, fuel);
    }
    if HoistLeaves(NEXT, NEXT_BACK, NEXT_CALL, "q", AT_NEXT, h, env, ops) {
      assert ExecRef(NEXT, ops, Outside(), NEXT_CALL, h, env, 1).Runs?;
    }
  }

  lemma {:induction false} NextStepped(h: Heap, env: Bindings, ops: Ops, fuel: nat)
    requires "p" in env && "q" in env && "t" in env && OneObjectEach(h, env) && fuel > 0
    ensures var r := ExecRef(NEXT, ops, Outside(), NEXT_CALL, h, env, fuel);
            r.Runs? && View(r.h, r.env) == Stepped(View(h, env), ops)
  {
    hide View, ExecRef, ExecCopy, HoistSite, Stepped, OneObjectEach, TranslateProgram, TranslateCall, Inv, SiteFrame, Translate;
    NextSite(h, env);
    NextRuns(h, env, ops, fuel);
    ExtendsItself(NEXT, NEXT_BACK);
    HoistedOnce(NEXT, NEXT_BACK, NEXT, NEXT_BACK, NEXT_NOTES, NEXT_CALL, "q", h, env, ops, NO_TMP, fuel);
    NextByCopy(View(h, env), ops, NO_TMP, fuel);
  }

  /** With a counter that counts it is never translated right. */
  lemma {:induction false} CountedTwice(h: Heap, env: Bindings, ops: Ops)
    requires "p" in env && "q" in env && "t" in env && OneObjectEach(h, env)
    requires forall v :: Step(ops, v) == Number(Scalar(v) + 1)
    ensures CheckedArguments({0}, [Ref("q", AT_NEXT)])
    ensures !HoistPreserved(NEXT, NEXT_BACK, NEXT_CALL, "q", AT_NEXT, h, env, ops)
  {
    hide Get, View, HoistPreserved, Number, OneObjectEach, Modified;
    HoistedNext(h, env, ops);
    var n := Step(ops, Get(View(h, env)["p"], [Member("n")]));
    NumberHolds(Scalar(n) + 1);
  }

  lemma {:induction false} NumberHolds(k: int)
    ensures Scalar(Number(k)) == k
  {
  }

  // ----- calls that are not always evaluated -----

  /** The two runs end alike except for one name. */
  ghost predicate AgreeBut(t: string, r: RefOutcome, c: CopyOutcome) {
    match r
    case Wrong => true
    case Diverges => c.CDiverges?
    case Reverts => c.CReverts?
    case Runs(h, env) => c.CRuns? && forall y :: y in env && y != t ==> y in c.st && c.st[y] == View(h, env)[y]
    case _ => false
  }

  /** By reference the call returns and changes nothing but one name. */
  ghost predicate LeavesBut(t: string, r: RefOutcome, h: Heap, env: Bindings) {
    r.Runs? && forall y :: y in env && y != t ==> y in r.env && View(r.h, r.env)[y] == View(h, env)[y]
  }

  lemma {:induction false} SameButOne(t: string, r: RefOutcome, c: CopyOutcome)
    requires SameRun(r, c) && !r.Breaks? && !r.Continues? && !r.Returns?
    ensures AgreeBut(t, r, c)
  {
    hide View;
  }

  lemma {:induction false} SkippedAgrees(t: string, r: RefOutcome, c: CopyOutcome, h: Heap, env: Bindings)
    requires SameRun(r, c) && !r.Wrong? && !r.Breaks? && !r.Continues? && !r.Returns?
    ensures AgreeBut(t, Runs(h, env), c) <==> LeavesBut(t, r, h, env)
  {
    hide View;
  }

  /**
   t stands for an internal call in an operand of && or || or in a branch of a conditional, which is evaluated
   only if cond holds; the translation makes the call in any case.  They agree on every other name if and
   only if cond holds, or the call would return and change nothing.
   */
  lemma {:induction false} GuardedExactly(p: Program, wb: Writebacks, notes: Notes, f: string, params: seq<Param>,
          w: set<nat>, cond: Expr, t: string, args: seq<Arg>, h: Heap, env: Bindings, ops: Ops, tmp: Packed, fuel: nat)
    requires CallSite(params, w, args, h, env) && Callee(p, wb, notes, f, params, w)
    requires Disjoint(params, w, args, View(h, env), ops) && ArgumentsSpared(w, args, View(h, env), ops)
    requires !ExecRef(p, ops, Outside(), Call([t], f, args), h, env, fuel).Wrong?
    ensures var call := Call([t], f, args);
            AgreeBut(t, ExecRef(p, ops, Outside(), If(cond, call, Skip), h, env, fuel),
                     ExecCopy(TranslateProgram(wb, p), ops, TranslateCall(wb, [t], f, args, map[]), View(h, env), tmp, fuel))
            <==> Scalar(Eval(cond, View(h, env), ops)) != 0
                 || LeavesBut(t, ExecRef(p, ops, Outside(), call, h, env, fuel), h, env)
  {
    hide View, Eval, ExecCopy, TranslateProgram, TranslateCall, CallSite, Callee, Disjoint, ArgumentsSpared, AgreeBut, SameRun,
         LeavesBut, CallRef;
    var call := Call([t], f, args);
    var r := ExecRef(p, ops, Outside(), call, h, env, fuel);
    var c := ExecCopy(TranslateProgram(wb, p), ops, TranslateCall(wb, [t], f, args, map[]), View(h, env), tmp, fuel);
    DisjointPreserved(p, wb, notes, f, [t], params, w, args, h, env, ops, tmp, fuel);
    CallNeverReturns(p, ops, Outside(), call, h, env, fuel);
    var guarded := ExecRef(p, ops, Outside(), If(cond, call, Skip), h, env, fuel);
    if Scalar(Eval(cond, View(h, env), ops)) != 0 {
      assert guarded == r;
      SameButOne(t, r, c);
    } else {
      assert ExecRef(p, ops, Outside(), Skip, h, env, fuel) == Runs(h, env);
      assert guarded == Runs(h, env);
      SkippedAgrees(t, r, c, h, env);
    }
  }

  lemma {:induction false} NextCallee()
    ensures Callee(NEXT, NEXT_BACK, NEXT_NOTES, "next", [Param("a", true)], {0})
  {
    hide Modified, FnOk;
    NextComputed();
    NextFits();
    assert ProgramOk(NEXT, NEXT_BACK, NEXT_NOTES);
  }

  lemma {:induction false} NextCallSite(h: Heap, env: Bindings, ops: Ops)
    requires "p" in env && OneObjectEach(h, env)
    ensures var (params, args) := ([Param("a", true)], [Ref("p", [])]);
            && CallSite(params, {0}, args, h, env) && Disjoint(params, {0}, args, View(h, env), ops)
            && ArgumentsSpared({0}, args, View(h, env), ops)
  {
    hide OneObjectEach, View, EvalPath, PathSpares;
  }

  /** c && next(p) > 0 with a false c: it is translated right exactly if stepping leaves the counter as it is. */
  lemma {:induction false} GuardedNext(cond: Expr, h: Heap, env: Bindings, ops: Ops, tmp: Packed, fuel: nat)
    requires "p" in env && "q" in env && "t" in env && OneObjectEach(h, env) && fuel > 0
    requires Scalar(Eval(cond, View(h, env), ops)) == 0
    ensures var n := Get(View(h, env)["p"], [Member("n")]);
            AgreeBut("t", ExecRef(NEXT, ops, Outside(), If(cond, NEXT_CALL, Skip), h, env, fuel),
                     ExecCopy(TranslateProgram(NEXT_BACK, NEXT), ops, CopyOf(NEXT, NEXT_BACK, NEXT_CALL), View(h, env), tmp,
                              fuel))
            <==> Step(ops, n) == n
  {
    hide View, Eval, ExecRef, ExecCopy, TranslateProgram, TranslateCall, CallSite, Callee, Disjoint, ArgumentsSpared, AgreeBut,
         OneObjectEach, Step, Get, Stepped;
    NextCallee();
    NextCallSite(h, env, ops);
    NextStepped(h, env, ops, fuel);
    GuardedExactly(NEXT, NEXT_BACK, NEXT_NOTES, "next", [Param("a", true)], {0}, cond, "t", [Ref("p", [])], h, env, ops, tmp,
                   fuel);
    var r := ExecRef(NEXT, ops, Outside(), NEXT_CALL, h, env, fuel);
    NextLeaves(r, h, env, ops);
  }

  lemma {:induction false} NextLeaves(r: RefOutcome, h: Heap, env: Bindings, ops: Ops)
    requires "p" in env && r.Runs? && View(r.h, r.env) == Stepped(View(h, env), ops)
    ensures LeavesBut("t", r, h, env)
            <==> Step(ops, Get(View(h, env)["p"], [Member("n")])) == Get(View(h, env)["p"], [Member("n")])
  {
    hide View, Get, Set, Step;
    var st := View(h, env);
    var (v, n) := (st["p"], [Member("n")]);
    var after := Step(ops, Get(v, n));
    PartSet(v, n, after);
    SetGet(v, n);
    assert View(r.h, r.env)["p"] == Set(v, n, after);
    assert View(r.h, r.env).Keys == r.env.Keys && st.Keys == env.Keys;
    forall y | y in env && y != "t" && y != "p" ensures y in r.env && View(r.h, r.env)[y] == st[y] {
      assert y in View(r.h, r.env);
    }
  }

  // ----- calls on returned objects -----

  /** id(p).set(): t stands for the object id returns. */
  const CHAIN: Stmt := Seq(Call(["t"], "id", [Ref("p", [])]), Call([], "set", [Ref("t", [])]))

  ghost function ChainProgram(value: Val): Program {
    map["id" := Identity(), "set" := Setter(value)]
  }

  /** What the analysis computes: set may modify its parameter. */
  const CHAIN_BACK: Writebacks := map["id" := {}, "set" := {0}]

  lemma {:induction false} ChainComputed(value: Val)
    ensures var p := ChainProgram(value);
            && "id" in p && p["id"] == Identity() && "set" in p && p["set"] == Setter(value)
            && forall g :: g in p ==> CHAIN_BACK[g] == Modified(p[g], CHAIN_BACK)
    ensures WritebackOf(CHAIN_BACK, "id") == {} && WritebackOf(CHAIN_BACK, "set") == {0}
  {
    var g := Setter(value);
    assert InPlace(g.body, CHAIN_BACK) == {"a"};
    assert Modified(g, CHAIN_BACK) == {0};
    assert InPlace(Identity().body, CHAIN_BACK) == {};
    assert Modified(Identity(), CHAIN_BACK) == {};
  }

  lemma {:induction false} ChainByReference(value: Val, h: Heap, env: Bindings, ops: Ops, fuel: nat)
    requires "p" in env && "t" in env && Allocated(h, env) && fuel > 0
    ensures var r := ExecRef(ChainProgram(value), ops, Outside(), CHAIN, h, env, fuel);
            r.Runs? && "p" in r.env && View(r.h, r.env)["p"] == Set(View(h, env)["p"], [Member("x")], value)
  {
    hide View, Set, WriteLoc, ReadLoc, EvalPath, CallRef, ChainProgram;
    ChainComputed(value);
    var p := ChainProgram(value);
    IdentityByReference(p, ops, Outside(), "id", "t", "p", [], h, env, fuel);
    NoPath(View(h, env), ops);
    var env1 := env["t" := env["p"].Down([])];
    assert env["p"].Down([]) == env["p"];
    SetterByReference(p, ops, Outside(), "set", value, "t", [], h, env1, fuel);
    NoPath(View(h, env1), ops);
    var h1 := WriteLoc(h, env["p"].Down([Member("x")]), value);
    ReadWritten(h, env["p"], [Member("x")], value);
    ViewAt(h1, env1, "p");
    ViewAt(h, env, "p");
  }

  lemma {:induction false} ChainByCopy(value: Val, st: Store, ops: Ops, tmp: Packed, fuel: nat)
    requires "p" in st && "t" in st && fuel > 0
    ensures var p := ChainProgram(value);
            var c := ExecCopy(TranslateProgram(CHAIN_BACK, p), ops, Translate(CHAIN_BACK, Outside(), {}, CHAIN), st, tmp, fuel);
            c.CRuns? && "p" in c.st && c.st["p"] == st["p"]
  {
    hide Get, Set, EvalPath, TranslateCall, TranslateProgram, ChainProgram;
    ChainComputed(value);
    var (p, wb) := (ChainProgram(value), CHAIN_BACK);
    var tp := TranslateProgram(wb, p);
    var (first, second) := (TranslateCall(wb, ["t"], "id", [Ref("p", [])], map[]),
                            TranslateCall(wb, [], "set", [Ref("t", [])], map[]));
    IdentityByCopy(p, wb, ops, "id", "t", "p", [], st, tmp, fuel);
    var v := Get(st["p"], EvalPath([], st, ops));
    var st1 := st["t" := v];
    forall tmp' ensures ExecCopy(tp, ops, HoistAgain(map[], 0), st1, tmp', fuel) == CRuns(st1, tmp') {
    }
    SetterByCopy(p, wb, ops, "set", value, "t", [], map[], st1, One(v), fuel);
    assert ExecCopy(tp, ops, CSeq(first, second), st, tmp, fuel) == ExecCopy(tp, ops, second, st1, One(v), fuel);
  }

  /**
   By reference set writes the object of p that id returns; the translation writes a copy and leaves p as it
   was, so the two agree only if the member had the value before.
   */
  lemma {:induction false} ChainMissed(value: Val, h: Heap, env: Bindings, ops: Ops, tmp: Packed, fuel: nat)
    requires "p" in env && "t" in env && Allocated(h, env) && fuel > 0
    ensures var p := ChainProgram(value);
            var r := ExecRef(p, ops, Outside(), CHAIN, h, env, fuel);
            var c := ExecCopy(TranslateProgram(CHAIN_BACK, p), ops, Translate(CHAIN_BACK, Outside(), {}, CHAIN),
                              View(h, env), tmp, fuel);
            && (forall g :: g in p ==> CHAIN_BACK[g] == Modified(p[g], CHAIN_BACK))
            && r.Runs? && "p" in r.env && c.CRuns? && "p" in c.st
            && (View(r.h, r.env)["p"] == c.st["p"] <==> Get(View(h, env)["p"], [Member("x")]) == value)
  {
    hide View, Get, Set, ExecRef, ExecCopy, TranslateProgram, Translate, ChainProgram, Modified;
    ChainComputed(value);
    ChainByReference(value, h, env, ops, fuel);
    ChainByCopy(value, View(h, env), ops, tmp, fuel);
    PartSet(View(h, env)["p"], [Member("x")], value);
    SetGet(View(h, env)["p"], [Member("x")]);
  }
}
