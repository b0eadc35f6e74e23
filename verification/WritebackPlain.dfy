/**
 Programs whose text alone shows that the translation is right: at most one memory parameter to a function,
 no second names, and no references returned.  No notes about their functions are needed.
 */
module WritebackPlain {
  import opened Options
  import opened MemoryLang
  import opened MemoryCopy
  import opened WritebackFrames
  import opened WritebackAnalysis
  import opened WritebackSound

  /** A statement that names no existing object anew. */
  predicate NamesNothing(t: Stmt) {
    && !t.Alias? && !t.Hoisted?
    && (t.Return? ==> forall i :: 0 <= i < |t.es| ==> t.es[i].Fresh?)
  }

  predicate OneMemoryParam(params: seq<Param>) {
    forall i, j :: 0 <= i < j < |params| ==> !(params[i].mem && params[j].mem)
  }

  /** Named results are variables of their own. */
  predicate ResultsApart(g: Fn) {
    && (forall k, l :: 0 <= k < l < |g.results| ==> g.results[k] != g.results[l])
    && (forall k, i :: 0 <= k < |g.results| && 0 <= i < |g.params| && g.params[i].mem ==>
          g.results[k] != g.params[i].name)
  }

  ghost predicate PlainFn(g: Fn) {
    && DistinctNames(g) && OneMemoryParam(g.params) && (g.named ==> ResultsApart(g))
    && (forall t :: Occurs(t, g.body) ==> NamesNothing(t))
    && (forall i :: 0 <= i < |g.params| && g.params[i].mem ==> !Binds(g.body, g.params[i].name))
  }

  ghost predicate PlainProgram(p: Program) {
    forall f :: f in p ==> PlainFn(p[f])
  }

  /** What the iteration over the functions ends with. */
  ghost predicate Solves(p: Program, wb: Writebacks) {
    wb.Keys == p.Keys && forall f :: f in p ==> wb[f] == Modified(p[f], wb)
  }

  const NO_NOTE := Note({}, {}, {})

  /** A written-back parameter is the one memory parameter, so its argument meets no other. */
  lemma {:induction false} OneArgument(p: Program, wb: Writebacks, f: string, args: seq<Arg>)
    requires PlainProgram(p) && Solves(p, wb) && f in p
    ensures CallOk(p[f], WritebackOf(wb, f), args)
  {
    hide InPlace, Occurs, NamesNothing, Binds;
    var g := p[f];
    assert PlainFn(g) && WritebackOf(wb, f) == Modified(g, wb);
    forall i, j | i in WritebackOf(wb, f) && 0 <= j < |g.params| && g.params[j].mem ensures i == j {
      assert i < |g.params| && g.params[i].mem;
    }
  }

  lemma {:induction false} PlainStmt(p: Program, wb: Writebacks, params: seq<Param>, s: Stmt)
    requires PlainProgram(p) && Solves(p, wb) && forall t :: Occurs(t, s) ==> NamesNothing(t)
    ensures StmtOk(p, wb, map[], params, NO_NOTE, s)
    decreases s
  {
    hide PlainProgram, Solves, CallOk, WritebackOf;
    assert Occurs(s, s);
    match s
    case Call(_, f, args) =>
      if f in p {
        OneArgument(p, wb, f, args);
      }
    case Seq(first, second) =>
      PlainStmt(p, wb, params, first);
      PlainStmt(p, wb, params, second);
    case If(_, onTrue, onFalse) =>
      PlainStmt(p, wb, params, onTrue);
      PlainStmt(p, wb, params, onFalse);
    case While(_, body) => PlainStmt(p, wb, params, body);
    case _ =>
  }

  lemma {:induction false} PlainNote(p: Program, wb: Writebacks, f: string)
    requires PlainProgram(p) && Solves(p, wb) && f in p
    ensures OneNamePerObject(p, wb, map[], f)
  {
    hide StmtOk, Occurs, NamesNothing, Binds, InPlace, Modified;
    var g := p[f];
    assert PlainFn(g);
    PlainStmt(p, wb, g.params, g.body);
  }

  lemma {:induction false} NothingRebound(p: Program, wb: Writebacks, f: string)
    requires PlainProgram(p) && Solves(p, wb) && f in p
    ensures MemoryIndices(p[f], Rebound(p[f].body)) * wb[f] == {}
  {
    hide Occurs, NamesNothing, Binds, InPlace, Rebound, DistinctNames;
    var g := p[f];
    assert PlainFn(g);
    forall i | i in MemoryIndices(g, Rebound(g.body)) ensures false {
      ReboundExactly(g.body, g.params[i].name);
      assert false;
    }
  }

  /**
   For such programs the analysis and the translation together are right: a call by reference and its
   translation diverge and revert together, and return the same results followed by the final values.
   */
  lemma {:induction false} PlainPreserved(p: Program, wb: Writebacks, ops: Ops, f: string, vals: seq<Val>, fuel: nat)
    requires PlainProgram(p) && Solves(p, wb) && f in p && |vals| == |p[f].params| && fuel > 0
    ensures var r := RunByReference(p, ops, p[f], vals, fuel);
            var c := RunByCopy(TranslateProgram(wb, p), ops, TranslateFn(wb, f, p[f]), vals, fuel);
            && (r.Diverges? ==> c.CDiverges?) && (r.Reverts? ==> c.CReverts?)
            && (r.Returns? ==>
                  c == CReturns(Values(r.h, r.locs) + FinalObjects(p[f], WritebackOf(wb, f), vals, ops, r.h)))
  {
    hide PlainProgram, OneNamePerObject, ProgramOk, Modified, MemoryIndices, TranslateFn, RunByReference, RunByCopy,
         FinalObjects;
    forall g | g in p
      ensures OneNamePerObject(p, wb, map[], g)
      ensures MemoryIndices(p[g], Rebound(p[g].body)) * wb[g] == {}
    {
      PlainNote(p, wb, g);
      NothingRebound(p, wb, g);
    }
    AnalysisFits(p, wb, map[]);
    WritebackPreserves(p, wb, map[], ops, f, vals, fuel);
  }

  /** setFirst(S memory p) { p.x = e; } is such a function, and a caller may pass any object to it. */
  lemma {:induction false} SetterIsPlain(x: string, member: string, e: Expr)
    ensures PlainFn(Fn([Param(x, true)], [], false, [], Assign(x, [Field(member)], e)))
  {
    hide DistinctNames;
    var g := Fn([Param(x, true)], [], false, [], Assign(x, [Field(member)], e));
    assert DistinctNames(g) by { NamesDistinct(g); }
  }

  lemma {:induction false} NamesDistinct(g: Fn)
    requires |g.params| == 1 && g.locals == []
    ensures DistinctNames(g)
  {
  }
}
