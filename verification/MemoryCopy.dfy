/**
 The translated language, in which every argument and result is a copy, and the translation into it:
 functions return the final values of the memory parameters they may modify after their results, and
 callers assign them back to the arguments' paths.
 */
module MemoryCopy {
  import opened Options
  import opened MemoryLang

  // ----- the language of copies -----

  /** The temporary that receives a call's results: one result is bound as it is, several as a tuple. */
  datatype Packed = One(v: Val) | Tuple(vs: seq<Val>)

  function Pack(vs: seq<Val>): Packed {
    if |vs| == 1 then One(vs[0]) else Tuple(vs)
  }

  /** Component: result j of n in the temporary. */
  datatype CopyExpr = Plain(e: Expr) | Component(j: nat, n: nat)

  /** CKeep: the calls inside have a temporary of their own. */
  datatype CopyStmt =
    | CSkip
    | CAssign(x: string, path: seq<Seg>, e: CopyExpr)
    | CCall(f: string, args: seq<Expr>)
    | CReturn(es: seq<Expr>)
    | CSeq(first: CopyStmt, second: CopyStmt)
    | CIf(cond: Expr, onTrue: CopyStmt, onFalse: CopyStmt)
    | CWhile(cond: Expr, body: CopyStmt)
    | CBreak
    | CContinue
    | CRequire(cond: Expr)
    | CKeep(s: CopyStmt)

  datatype CopyFn = CopyFn(params: seq<string>, locals: seq<string>, body: CopyStmt)

  type CopyProgram = map<string, CopyFn>

  datatype CopyOutcome =
    | CDiverges
    | CWrong
    | CReverts
    | CRuns(st: Store, tmp: Packed)
    | CBreaks(st: Store, tmp: Packed)
    | CContinues(st: Store, tmp: Packed)
    | CReturns(vals: seq<Val>)

  ghost function EvalCopy(e: CopyExpr, st: Store, tmp: Packed, ops: Ops): Val {
    match e
    case Plain(e) => Eval(e, st, ops)
    case Component(j, n) =>
      if n == 1 then (if tmp.One? then tmp.v else Zero())
      else if tmp.Tuple? && j < |tmp.vs| then tmp.vs[j] else Zero()
  }

  /** A component of a packed result is the result. */
  lemma {:induction false} ComponentOfPack(vs: seq<Val>, j: nat, st: Store, ops: Ops)
    requires j < |vs|
    ensures EvalCopy(Component(j, |vs|), st, Pack(vs), ops) == vs[j]
  {
  }

  function AssignAll(xs: seq<string>, vs: seq<Val>, st: Store): Store
    requires |xs| == |vs|
  {
    if xs == [] then st
    else AssignAll(xs[..|xs| - 1], vs[..|xs| - 1], st)[xs[|xs| - 1] := vs[|xs| - 1]]
  }

  ghost function ExecCopy(p: CopyProgram, ops: Ops, s: CopyStmt, st: Store, tmp: Packed, fuel: nat): CopyOutcome
    decreases fuel, s
  {
    match s
    case CSkip => CRuns(st, tmp)
    case CAssign(x, path, e) =>
      if x !in st then CWrong
      else CRuns(st[x := Set(st[x], EvalPath(path, st, ops), EvalCopy(e, st, tmp, ops))], tmp)
    case CCall(f, args) =>
      if f !in p || |args| != |p[f].params| then CWrong
      else if fuel == 0 then CDiverges
      else
        var g := p[f];
        var r := ExecCopy(p, ops, g.body, EnterCopy(g, EvalAll(args, st, ops)), Tuple([]), fuel - 1);
        if r.CRuns? then CRuns(st, Pack([]))
        else if r.CReturns? then CRuns(st, Pack(r.vals))
        else if r.CBreaks? || r.CContinues? then CWrong
        else r
    case CReturn(es) => CReturns(EvalAll(es, st, ops))
    case CSeq(first, second) =>
      var r := ExecCopy(p, ops, first, st, tmp, fuel);
      if r.CRuns? then ExecCopy(p, ops, second, r.st, r.tmp, fuel) else r
    case CIf(cond, onTrue, onFalse) =>
      ExecCopy(p, ops, if Scalar(Eval(cond, st, ops)) != 0 then onTrue else onFalse, st, tmp, fuel)
    case CWhile(cond, body) =>
      if Scalar(Eval(cond, st, ops)) == 0 then CRuns(st, tmp)
      else if fuel == 0 then CDiverges
      else
        var r := ExecCopy(p, ops, body, st, tmp, fuel);
        if r.CRuns? || r.CContinues? then ExecCopy(p, ops, s, r.st, r.tmp, fuel - 1)
        else if r.CBreaks? then CRuns(r.st, r.tmp)
        else r
    case CBreak => CBreaks(st, tmp)
    case CContinue => CContinues(st, tmp)
    case CRequire(cond) => if Scalar(Eval(cond, st, ops)) != 0 then CRuns(st, tmp) else CReverts
    case CKeep(s) =>
      var r := ExecCopy(p, ops, s, st, tmp, fuel);
      if r.CRuns? then CRuns(r.st, tmp) else r
  }

  ghost function EnterCopy(g: CopyFn, vals: seq<Val>): Store
    requires |vals| == |g.params|
  {
    AssignAll(g.locals, MemoryLang.Zeros(|g.locals|), AssignAll(g.params, vals, map[]))
  }

  /** A condition is its number: zero is false. */
  lemma {:induction false} CopyConditions(p: CopyProgram, ops: Ops, st: Store, tmp: Packed, fuel: nat, cond: Expr,
                                          onTrue: CopyStmt, onFalse: CopyStmt)
    ensures var holds := Eval(cond, st, ops)[[]] != 0;
            && ExecCopy(p, ops, CIf(cond, onTrue, onFalse), st, tmp, fuel)
               == ExecCopy(p, ops, if holds then onTrue else onFalse, st, tmp, fuel)
            && ExecCopy(p, ops, CRequire(cond), st, tmp, fuel) == (if holds then CRuns(st, tmp) else CReverts)
            && (!holds ==> ExecCopy(p, ops, CWhile(cond, onTrue), st, tmp, fuel) == CRuns(st, tmp))
  {
    hide Eval;
  }

  // ----- the translation -----

  /** The parameters each function writes back. */
  type Writebacks = map<string, set<nat>>

  function WritebackOf(wb: Writebacks, f: string): set<nat> {
    if f in wb then wb[f] else {}
  }

  /** In ascending order, as far as parameter n. */
  function Indices(w: set<nat>, n: nat): (r: seq<nat>)
    ensures forall i :: i in r <==> i in w && i < n
    ensures forall j, k :: 0 <= j < k < |r| ==> r[j] < r[k]
  {
    if n == 0 then []
    else
      var before := Indices(w, n - 1);
      assert forall j :: 0 <= j < |before| ==> before[j] in before;
      before + (if n - 1 in w then [n - 1] else [])
  }

  function WritebackReads(params: seq<Param>, w: set<nat>, n: nat): seq<Expr>
    requires n <= |params|
  {
    if n == 0 then []
    else WritebackReads(params, w, n - 1) + (if n - 1 in w then [Read(params[n - 1].name, [])] else [])
  }

  function ArgExprs(args: seq<Arg>): (r: seq<Expr>)
    ensures |r| == |args|
  {
    seq(|args|, i requires 0 <= i < |args| => if args[i].Ref? then Read(args[i].x, args[i].path) else args[i].e)
  }

  function ReturnedNames(g: Fn, w: set<nat>): CopyStmt {
    CReturn((if g.named then ArgExprs(NamedRefs(g.results)) else []) + WritebackReads(g.params, w, |g.params|))
  }

  /** The calls hoisted out of the path of each argument. */
  type Hoists = map<nat, CopyStmt>

  /** Translating an argument's path once more hoists its calls once more. */
  function HoistAgain(again: Hoists, k: nat): CopyStmt {
    if k in again then again[k] else CSkip
  }

  function AddHoist(again: Hoists, k: nat, s: CopyStmt): Hoists {
    again[k := CSeq(HoistAgain(again, k), CKeep(s))]
  }

  /** The assignments of the final values of the first n parameters back to the arguments' paths. */
  function BackAssigns(args: seq<Arg>, w: set<nat>, n: nat, first: nat, total: nat, again: Hoists): CopyStmt
    requires n <= |args|
  {
    if n == 0 then CSkip
    else
      var before := BackAssigns(args, w, n - 1, first, total, again);
      if n - 1 in w && args[n - 1].Ref? then
        CSeq(CSeq(before, HoistAgain(again, n - 1)),
             CAssign(args[n - 1].x, args[n - 1].path, Component(first + |Indices(w, n - 1)|, total)))
      else before
  }

  function ResultAssigns(rs: seq<string>, n: nat, total: nat): CopyStmt
    requires n <= |rs|
  {
    if n == 0 then CSkip
    else CSeq(ResultAssigns(rs, n - 1, total), CAssign(rs[n - 1], [], Component(n - 1, total)))
  }

  function TranslateCall(wb: Writebacks, rs: seq<string>, f: string, args: seq<Arg>, again: Hoists): CopyStmt {
    var w := WritebackOf(wb, f);
    var total := |rs| + |Indices(w, |args|)|;
    CSeq(CCall(f, ArgExprs(args)),
         CSeq(BackAssigns(args, w, |args|, |rs|, total, again), ResultAssigns(rs, |rs|, total)))
  }

  function Translate(wb: Writebacks, fn: Fn, w: set<nat>, s: Stmt): CopyStmt
    decreases s, 0
  {
    match s
    case Skip => CSkip
    case Assign(x, path, e) => CAssign(x, path, Plain(e))
    case Alias(x, y, path, _) => CAssign(x, [], Plain(Read(y, path)))
    case Call(rs, f, args) => TranslateCall(wb, rs, f, args, map[])
    case Hoisted(at, pre, call) =>
      var hoisted := Translate(wb, fn, w, pre);
      CSeq(hoisted, TranslateHoisted(wb, fn, w, call, AddHoist(map[], at, hoisted)))
    case Return(es) => CReturn(ArgExprs(es) + WritebackReads(fn.params, w, |fn.params|))
    case ReturnNamed => ReturnedNames(fn, w)
    case Seq(first, second) => CSeq(Translate(wb, fn, w, first), Translate(wb, fn, w, second))
    case If(cond, onTrue, onFalse) => CIf(cond, Translate(wb, fn, w, onTrue), Translate(wb, fn, w, onFalse))
    case While(cond, body) => CWhile(cond, Translate(wb, fn, w, body))
    case Break => CBreak
    case Continue => CContinue
    case Require(cond) => CRequire(cond)
  }

  /** A call after the calls in its arguments have been hoisted. */
  function TranslateHoisted(wb: Writebacks, fn: Fn, w: set<nat>, s: Stmt, again: Hoists): CopyStmt
    decreases s, 1
  {
    match s
    case Call(rs, f, args) => TranslateCall(wb, rs, f, args, again)
    case Hoisted(at, pre, call) =>
      var hoisted := Translate(wb, fn, w, pre);
      CSeq(hoisted, TranslateHoisted(wb, fn, w, call, AddHoist(again, at, hoisted)))
    case _ => Translate(wb, fn, w, s)
  }

  predicate EndsWithReturn(s: Stmt) {
    match s
    case Return(_) => true
    case ReturnNamed => true
    case Seq(_, second) => EndsWithReturn(second)
    case _ => false
  }

  function TranslateFn(wb: Writebacks, f: string, g: Fn): CopyFn {
    var w := WritebackOf(wb, f);
    var body := Translate(wb, g, w, g.body);
    var closes := (if g.results != [] then g.named else Indices(w, |g.params|) != []) && !EndsWithReturn(g.body);
    CopyFn(ParamNames(g.params), g.locals, if closes then CSeq(body, ReturnedNames(g, w)) else body)
  }

  function ParamNames(params: seq<Param>): (r: seq<string>)
    ensures |r| == |params|
  {
    seq(|params|, i requires 0 <= i < |params| => params[i].name)
  }

  function TranslateProgram(wb: Writebacks, p: Program): CopyProgram {
    map f | f in p :: TranslateFn(wb, f, p[f])
  }
}
