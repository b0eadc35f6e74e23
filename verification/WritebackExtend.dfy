/**
 Programs with more functions: what a statement means and what is checked of it depends only on the functions
 it can reach.
 */
module WritebackExtend {
  import opened Options
  import opened MemoryLang
  import opened MemoryCopy
  import opened WritebackFrames
  import opened WritebackReturns
  import opened WritebackSound
  import opened WritebackAnalysis
  import opened WritebackGap

  // ----- programs with more functions -----

  /** The functions a statement calls. */
  function Calls(s: Stmt): set<string> {
    match s
    case Call(_, f, _) => {f}
    case Hoisted(_, pre, call) => Calls(pre) + Calls(call)
    case Seq(first, second) => Calls(first) + Calls(second)
    case If(_, onTrue, onFalse) => Calls(onTrue) + Calls(onFalse)
    case While(_, body) => Calls(body)
    case _ => {}
  }

  /** Every function that is called is there. */
  ghost predicate Complete(p: Program) {
    forall f :: f in p ==> Calls(p[f].body) <= p.Keys
  }

  /** The smaller program's functions, with the same parameters written back. */
  ghost predicate Extends(p: Program, wb: Writebacks, p0: Program, wb0: Writebacks) {
    forall f :: f in p0 ==> f in p && p[f] == p0[f] && WritebackOf(wb, f) == WritebackOf(wb0, f)
  }

  lemma {:induction false} SameTranslation(p: Program, wb: Writebacks, p0: Program, wb0: Writebacks, fn: Fn, w: set<nat>,
          s: Stmt)
    requires Extends(p, wb, p0, wb0) && Calls(s) <= p0.Keys
    ensures Translate(wb, fn, w, s) == Translate(wb0, fn, w, s)
    ensures forall again :: TranslateHoisted(wb, fn, w, s, again) == TranslateHoisted(wb0, fn, w, s, again)
    decreases s
  {
    hide WritebackOf, AddHoist, ReturnedNames, WritebackReads, ArgExprs, BackAssigns, ResultAssigns, Indices;
    match s
    case Hoisted(_, pre, call) =>
      SameTranslation(p, wb, p0, wb0, fn, w, pre);
      SameTranslation(p, wb, p0, wb0, fn, w, call);
    case Seq(first, second) =>
      SameTranslation(p, wb, p0, wb0, fn, w, first);
      SameTranslation(p, wb, p0, wb0, fn, w, second);
    case If(_, onTrue, onFalse) =>
      SameTranslation(p, wb, p0, wb0, fn, w, onTrue);
      SameTranslation(p, wb, p0, wb0, fn, w, onFalse);
    case While(_, body) => SameTranslation(p, wb, p0, wb0, fn, w, body);
    case _ =>
  }

  lemma {:induction false} SameFunction(p: Program, wb: Writebacks, p0: Program, wb0: Writebacks, f: string)
    requires Extends(p, wb, p0, wb0) && Complete(p0) && f in p0
    ensures TranslateFn(wb, f, p[f]) == TranslateFn(wb0, f, p0[f])
  {
    hide WritebackOf, Translate, ReturnedNames, Indices;
    SameTranslation(p, wb, p0, wb0, p0[f], WritebackOf(wb, f), p0[f].body);
  }

  /** What a statement does does not depend on functions it does not reach. */
  lemma {:induction false} SameRef(p: Program, wb: Writebacks, p0: Program, wb0: Writebacks, ops: Ops, fn: Fn, s: Stmt,
          h: Heap, env: Bindings, fuel: nat)
    requires Extends(p, wb, p0, wb0) && Complete(p0) && Calls(s) <= p0.Keys
    ensures ExecRef(p, ops, fn, s, h, env, fuel) == ExecRef(p0, ops, fn, s, h, env, fuel)
    decreases fuel, 1, s
  {
    hide View, Eval, EvalPath, WriteLoc, CallRef, Complete, ReturnRef, ReturnNames;
    match s
    case Call(rs, f, args) =>
      if fuel > 0 && |args| == |p0[f].params| && |rs| == |p0[f].results| {
        SameCallRef(p, wb, p0, wb0, ops, f, rs, args, h, env, fuel);
      }
    case Hoisted(_, pre, call) =>
      SameRef(p, wb, p0, wb0, ops, fn, pre, h, env, fuel);
      var r := ExecRef(p0, ops, fn, pre, h, env, fuel);
      if r.Runs? {
        SameRef(p, wb, p0, wb0, ops, fn, call, r.h, r.env, fuel);
      }
    case Seq(first, second) =>
      SameRef(p, wb, p0, wb0, ops, fn, first, h, env, fuel);
      var r := ExecRef(p0, ops, fn, first, h, env, fuel);
      if r.Runs? {
        SameRef(p, wb, p0, wb0, ops, fn, second, r.h, r.env, fuel);
      }
    case If(cond, onTrue, onFalse) =>
      SameRef(p, wb, p0, wb0, ops, fn, if Scalar(Eval(cond, View(h, env), ops)) != 0 then onTrue else onFalse, h, env, fuel);
    case While(cond, body) =>
      if fuel > 0 {
        SameRef(p, wb, p0, wb0, ops, fn, body, h, env, fuel);
        var r := ExecRef(p0, ops, fn, body, h, env, fuel);
        if r.Runs? || r.Continues? {
          SameRef(p, wb, p0, wb0, ops, fn, s, r.h, r.env, fuel - 1);
        }
      }
    case _ =>
  }

  lemma {:induction false} SameCallRef(p: Program, wb: Writebacks, p0: Program, wb0: Writebacks, ops: Ops, f: string,
          rs: seq<string>, args: seq<Arg>, h: Heap, env: Bindings, fuel: nat)
    requires Extends(p, wb, p0, wb0) && Complete(p0) && f in p0
    requires fuel > 0 && |args| == |p0[f].params| && |rs| == |p0[f].results|
    ensures CallRef(p, ops, rs, p0[f], args, h, env, fuel) == CallRef(p0, ops, rs, p0[f], args, h, env, fuel)
    decreases fuel, 0
  {
    hide Enter, ExecRef, ReturnNames, BindResults;
    var (h', env') := Enter(p0[f], args, h, env, ops);
    SameRef(p, wb, p0, wb0, ops, p0[f], p0[f].body, h', env', fuel - 1);
  }

  function CopyCalls(c: CopyStmt): set<string> {
    match c
    case CCall(f, _) => {f}
    case CSeq(first, second) => CopyCalls(first) + CopyCalls(second)
    case CIf(_, onTrue, onFalse) => CopyCalls(onTrue) + CopyCalls(onFalse)
    case CWhile(_, body) => CopyCalls(body)
    case CKeep(s) => CopyCalls(s)
    case _ => {}
  }

  lemma {:induction false} BacksCall(args: seq<Arg>, w: set<nat>, n: nat, first: nat, total: nat, again: Hoists,
          names: set<string>)
    requires n <= |args| && forall k :: k in again ==> CopyCalls(again[k]) <= names
    ensures CopyCalls(BackAssigns(args, w, n, first, total, again)) <= names
    decreases n
  {
    hide Indices;
    if n > 0 {
      BacksCall(args, w, n - 1, first, total, again, names);
      var before := BackAssigns(args, w, n - 1, first, total, again);
      assert CopyCalls(HoistAgain(again, n - 1)) <= names;
      assert CopyCalls(CSeq(before, HoistAgain(again, n - 1))) == CopyCalls(before) + CopyCalls(HoistAgain(again, n - 1));
    }
  }

  lemma {:induction false} ResultsCall(rs: seq<string>, n: nat, total: nat)
    requires n <= |rs|
    ensures CopyCalls(ResultAssigns(rs, n, total)) == {}
    decreases n
  {
    if n > 0 {
      ResultsCall(rs, n - 1, total);
    }
  }

  lemma {:induction false} CallCalls(wb: Writebacks, rs: seq<string>, f: string, args: seq<Arg>, again: Hoists,
          names: set<string>)
    requires f in names && forall k :: k in again ==> CopyCalls(again[k]) <= names
    ensures CopyCalls(TranslateCall(wb, rs, f, args, again)) <= names
  {
    hide BackAssigns, ResultAssigns, WritebackOf, Indices, ArgExprs;
    var total := |rs| + |Indices(WritebackOf(wb, f), |args|)|;
    BacksCall(args, WritebackOf(wb, f), |args|, |rs|, total, again, names);
    ResultsCall(rs, |rs|, total);
  }

  /** A translation calls what the statement calls. */
  lemma {:induction false} TranslationCalls(wb: Writebacks, fn: Fn, w: set<nat>, s: Stmt, names: set<string>)
    requires Calls(s) <= names
    ensures CopyCalls(Translate(wb, fn, w, s)) <= names
    decreases s, 0
  {
    hide TranslateCall, TranslateHoisted, WritebackReads, ArgExprs;
    match s
    case Call(rs, f, args) => CallCalls(wb, rs, f, args, map[], names);
    case Hoisted(at, pre, call) =>
      TranslationCalls(wb, fn, w, pre, names);
      var t := Translate(wb, fn, w, pre);
      assert AddHoist(map[], at, t)[at] == CSeq(CSkip, CKeep(t));
      HoistedCalls(wb, fn, w, call, AddHoist(map[], at, t), names);
    case Seq(first, second) =>
      TranslationCalls(wb, fn, w, first, names);
      TranslationCalls(wb, fn, w, second, names);
    case If(_, onTrue, onFalse) =>
      TranslationCalls(wb, fn, w, onTrue, names);
      TranslationCalls(wb, fn, w, onFalse, names);
    case While(_, body) => TranslationCalls(wb, fn, w, body, names);
    case _ =>
  }

  lemma {:induction false} HoistedCalls(wb: Writebacks, fn: Fn, w: set<nat>, s: Stmt, again: Hoists, names: set<string>)
    requires Calls(s) <= names && forall k :: k in again ==> CopyCalls(again[k]) <= names
    ensures CopyCalls(TranslateHoisted(wb, fn, w, s, again)) <= names
    decreases s, 1
  {
    hide TranslateCall, Translate, AddHoist;
    match s
    case Call(rs, f, args) => CallCalls(wb, rs, f, args, again, names);
    case Hoisted(at, pre, call) =>
      TranslationCalls(wb, fn, w, pre, names);
      AddedCalls(again, at, Translate(wb, fn, w, pre), names);
      HoistedCalls(wb, fn, w, call, AddHoist(again, at, Translate(wb, fn, w, pre)), names);
    case _ => TranslationCalls(wb, fn, w, s, names);
  }

  lemma {:induction false} AddedCalls(again: Hoists, at: nat, t: CopyStmt, names: set<string>)
    requires CopyCalls(t) <= names && forall k :: k in again ==> CopyCalls(again[k]) <= names
    ensures forall k :: k in AddHoist(again, at, t) ==> CopyCalls(AddHoist(again, at, t)[k]) <= names
  {
    assert CopyCalls(HoistAgain(again, at)) <= names;
    assert CopyCalls(CSeq(HoistAgain(again, at), CKeep(t))) == CopyCalls(HoistAgain(again, at)) + CopyCalls(CKeep(t));
  }

  lemma {:induction false} FunctionCalls(wb: Writebacks, f: string, g: Fn, names: set<string>)
    requires Calls(g.body) <= names
    ensures CopyCalls(TranslateFn(wb, f, g).body) <= names
  {
    hide Translate, WritebackOf, Indices, WritebackReads, ArgExprs;
    TranslationCalls(wb, g, WritebackOf(wb, f), g.body, names);
  }

  /** The translated functions of the smaller program. */
  lemma {:induction false} TranslationExtends(p: Program, wb: Writebacks, p0: Program, wb0: Writebacks, f: string)
    requires Extends(p, wb, p0, wb0) && Complete(p0) && f in p0
    ensures var (tp, tp0) := (TranslateProgram(wb, p), TranslateProgram(wb0, p0));
            f in tp && f in tp0 && tp[f] == tp0[f] && CopyCalls(tp0[f].body) <= p0.Keys
  {
    hide TranslateFn;
    SameFunction(p, wb, p0, wb0, f);
    FunctionCalls(wb0, f, p0[f], p0.Keys);
  }

  lemma {:induction false} SameCopy(p: Program, wb: Writebacks, p0: Program, wb0: Writebacks, ops: Ops, c: CopyStmt,
          st: Store, tmp: Packed, fuel: nat)
    requires Extends(p, wb, p0, wb0) && Complete(p0) && CopyCalls(c) <= p0.Keys
    ensures ExecCopy(TranslateProgram(wb, p), ops, c, st, tmp, fuel)
            == ExecCopy(TranslateProgram(wb0, p0), ops, c, st, tmp, fuel)
    decreases fuel, c
  {
    hide TranslateProgram, EvalCopy, Eval, EvalPath, EvalAll, EnterCopy, Set, Complete, Extends;
    var tp0 := TranslateProgram(wb0, p0);
    match c
    case CCall(f, args) =>
      TranslationExtends(p, wb, p0, wb0, f);
      if |args| == |tp0[f].params| && fuel > 0 {
        SameCopy(p, wb, p0, wb0, ops, tp0[f].body, EnterCopy(tp0[f], EvalAll(args, st, ops)), Tuple([]), fuel - 1);
      }
    case CSeq(first, second) =>
      SameCopy(p, wb, p0, wb0, ops, first, st, tmp, fuel);
      var r := ExecCopy(tp0, ops, first, st, tmp, fuel);
      if r.CRuns? {
        SameCopy(p, wb, p0, wb0, ops, second, r.st, r.tmp, fuel);
      }
    case CIf(cond, onTrue, onFalse) =>
      SameCopy(p, wb, p0, wb0, ops, if Scalar(Eval(cond, st, ops)) != 0 then onTrue else onFalse, st, tmp, fuel);
    case CWhile(cond, body) =>
      if fuel > 0 {
        SameCopy(p, wb, p0, wb0, ops, body, st, tmp, fuel);
        var r := ExecCopy(tp0, ops, body, st, tmp, fuel);
        if r.CRuns? || r.CContinues? {
          SameCopy(p, wb, p0, wb0, ops, c, r.st, r.tmp, fuel - 1);
        }
      }
    case CKeep(s) => SameCopy(p, wb, p0, wb0, ops, s, st, tmp, fuel);
    case _ =>
  }

  // ----- one more function -----

  /** The effects of a statement on its names, and what is checked of it, do not depend on other functions. */
  lemma {:induction false} SameEffects(p: Program, wb: Writebacks, p0: Program, wb0: Writebacks, s: Stmt)
    requires Extends(p, wb, p0, wb0) && Calls(s) <= p0.Keys
    ensures InPlace(s, wb) == InPlace(s, wb0)
    ensures forall used :: HoistOk(wb, s, used) <==> HoistOk(wb0, s, used)
    decreases s
  {
    hide WritebackOf, AllNames, ArgExprs;
    match s
    case Hoisted(_, pre, call) =>
      SameEffects(p, wb, p0, wb0, pre);
      SameEffects(p, wb, p0, wb0, call);
    case Seq(first, second) =>
      SameEffects(p, wb, p0, wb0, first);
      SameEffects(p, wb, p0, wb0, second);
    case If(_, onTrue, onFalse) =>
      SameEffects(p, wb, p0, wb0, onTrue);
      SameEffects(p, wb, p0, wb0, onFalse);
    case While(_, body) => SameEffects(p, wb, p0, wb0, body);
    case _ =>
  }

  ghost predicate SameNotes(notes: Notes, notes0: Notes, p0: Program) {
    forall f :: f in p0 ==> NoteOf(notes, f) == NoteOf(notes0, f)
  }

  lemma {:induction false} StillOk(p: Program, wb: Writebacks, notes: Notes, p0: Program, wb0: Writebacks, notes0: Notes,
          params: seq<Param>, note: Note, s: Stmt)
    requires Extends(p, wb, p0, wb0) && SameNotes(notes, notes0, p0) && Calls(s) <= p0.Keys
    requires StmtOk(p0, wb0, notes0, params, note, s)
    ensures StmtOk(p, wb, notes, params, note, s)
    decreases s
  {
    hide WritebackOf, NoteOf, CallOk, ResultsOk, ReturnOk, Follows, HoistOk;
    match s
    case Hoisted(_, pre, call) =>
      SameEffects(p, wb, p0, wb0, s);
      StillOk(p, wb, notes, p0, wb0, notes0, params, note, pre);
      StillOk(p, wb, notes, p0, wb0, notes0, params, note, call);
    case Seq(first, second) =>
      StillOk(p, wb, notes, p0, wb0, notes0, params, note, first);
      StillOk(p, wb, notes, p0, wb0, notes0, params, note, second);
    case If(_, onTrue, onFalse) =>
      StillOk(p, wb, notes, p0, wb0, notes0, params, note, onTrue);
      StillOk(p, wb, notes, p0, wb0, notes0, params, note, onFalse);
    case While(_, body) => StillOk(p, wb, notes, p0, wb0, notes0, params, note, body);
    case _ =>
  }

  lemma {:induction false} FunctionStillOk(p: Program, wb: Writebacks, notes: Notes, p0: Program, wb0: Writebacks,
          notes0: Notes, f: string)
    requires Extends(p, wb, p0, wb0) && SameNotes(notes, notes0, p0) && Complete(p0) && f in p0
    requires FnOk(p0, wb0, notes0, f)
    ensures FnOk(p, wb, notes, f)
  {
    hide WritebackOf, NoteOf, StmtOk, InPlace, Rebound, ReturnOk, MayOk, ParamsMay;
    var g := p0[f];
    SameEffects(p, wb, p0, wb0, g.body);
    StillOk(p, wb, notes, p0, wb0, notes0, g.params, NoteOf(notes0, f), g.body);
    assert Modified(g, wb) == Modified(g, wb0);
    assert Loud(g, WritebackOf(wb, f), wb) == Loud(g, WritebackOf(wb0, f), wb0);
  }

  /** f(S memory a): a.x = value; */
  ghost function Setter(value: Val): Fn {
    Fn([Param("a", true)], [], true, [], Assign("a", [Field("x")], Lit(value)))
  }

  lemma {:induction false} SetterFits(p: Program, wb: Writebacks, notes: Notes, f: string, value: Val)
    requires f in p && p[f] == Setter(value) && WritebackOf(wb, f) == {0} && NoteOf(notes, f) == Note({}, {}, {})
    ensures FnOk(p, wb, notes, f) && Modified(p[f], wb) == {0}
  {
    hide WritebackOf, NoteOf;
    var g := Setter(value);
    assert InPlace(g.body, wb) == {"a"} && Rebound(g.body) == {};
    assert Modified(g, wb) == {0};
  }

  /** A function of one memory parameter, which it may modify. */
  ghost predicate Single(p: Program, wb: Writebacks, notes: Notes, f: string) {
    && ProgramOk(p, wb, notes) && f in p
    && |p[f].params| == 1 && p[f].params[0].mem && WritebackOf(wb, f) == {0} && Modified(p[f], wb) == {0}
  }

  /** A program with one more function. */
  lemma {:induction false} OneMoreFunction(p0: Program, wb0: Writebacks, notes0: Notes, f: string, value: Val)
    requires ProgramOk(p0, wb0, notes0) && Complete(p0) && f !in p0
    ensures var (p, wb, notes) := (p0[f := Setter(value)], wb0[f := {0}], notes0[f := Note({}, {}, {})]);
            && ProgramOk(p, wb, notes) && Extends(p, wb, p0, wb0) && Single(p, wb, notes, f)
  {
    hide FnOk, Complete, Setter;
    var (p, wb, notes) := (p0[f := Setter(value)], wb0[f := {0}], notes0[f := Note({}, {}, {})]);
    forall g | g in p ensures FnOk(p, wb, notes, g) {
      if g == f {
        SetterFits(p, wb, notes, f, value);
      } else {
        FunctionStillOk(p, wb, notes, p0, wb0, notes0, g);
      }
    }
    SetterFits(p, wb, notes, f, value);
    SetterShape(value);
  }

  lemma {:induction false} SetterShape(value: Val)
    ensures |Setter(value).params| == 1 && Setter(value).params[0].mem
  {
  }
}
