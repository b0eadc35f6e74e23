/**
 Where a second name for a memory object stops preserving meaning: exactly where the object may be written
 under one of its names, whether the name comes from an assignment or from a function that returns a
 reference.  The analysis reports only some of these.
 */
module WritebackNames {
  import opened Options
  import opened MemoryLang
  import opened MemoryCopy
  import opened WritebackFrames
  import opened WritebackReturns
  import opened WritebackSound
  import opened WritebackAnalysis
  import opened WritebackGap

  // ----- second names -----

  ghost predicate StatementPreserved(p: Program, wb: Writebacks, s: Stmt, h: Heap, env: Bindings, ops: Ops) {
    forall tmp, fuel: nat :: StatementPreservedFor(p, wb, s, h, env, ops, tmp, fuel)
  }

  /** Of all names, those that are not written may share objects. */
  function QuietPairs(all: set<string>, names: set<string>): set<(string, string)> {
    set x, y | x in all && y in all && x !in names && y !in names :: (x, y)
  }

  lemma {:induction false} QuietPairsOk(all: set<string>, names: set<string>)
    ensures MayOk(QuietPairs(all, names), names)
  {
  }

  /** Code for the translation that writes in place at most under the given names. */
  ghost predicate Continuation(p: Program, wb: Writebacks, notes: Notes, rest: Stmt, all: set<string>,
          names: set<string>)
  {
    InPlace(rest, wb) <= names && StmtOk(p, wb, notes, [], Note(QuietPairs(all, names), {}, {}), rest)
  }

  ghost predicate NamePreserved(p: Program, wb: Writebacks, notes: Notes, naming: Stmt, names: set<string>, h: Heap,
          env: Bindings, ops: Ops)
  {
    forall rest :: Continuation(p, wb, notes, rest, env.Keys, names) ==>
      StatementPreserved(p, wb, Seq(naming, rest), h, env, ops)
  }

  lemma {:induction false} QuietAliasPreserved(p: Program, wb: Writebacks, notes: Notes, naming: Stmt, rest: Stmt,
          names: set<string>, h: Heap, env: Bindings, ops: Ops, tmp: Packed, fuel: nat)
    requires ProgramOk(p, wb, notes) && OneObjectEach(h, env) && naming.Alias? && naming.x in env && naming.y in env
    requires naming.x !in names && naming.y !in names && Continuation(p, wb, notes, rest, env.Keys, names)
    ensures StatementPreservedFor(p, wb, Seq(naming, rest), h, env, ops, tmp, fuel)
  {
    hide Inv, View, ExecRef, ExecCopy, TranslateProgram, Agree, SameRun, ProgramOk, OneObjectEach, FrameOk;
    var may := QuietPairs(env.Keys, names);
    var F := OutsideFrame(names, may);
    var s := Seq(naming, rest);
    QuietPairsOk(env.Keys, names);
    OutsideInvariant(h, env, names, may);
    assert Admissible(p, wb, notes, F, s) by {
      assert InPlace(s, wb) == InPlace(rest, wb);
      assert StmtOk(p, wb, notes, [], F.note, naming);
      assert StmtOk(p, wb, notes, [], F.note, s);
    }
    Simulates(p, wb, notes, ops, F, s, h, env, tmp, fuel);
    OutsideAgrees(names, may, ExecRef(p, ops, Outside(), s, h, env, fuel),
                  ExecCopy(TranslateProgram(wb, p), ops, Translate(wb, Outside(), {}, s), View(h, env), tmp, fuel));
  }

  /** Writing under the new name and reading under the old one, or the other way round. */
  ghost function AliasProbe(x: string, y: string, q: Path, value: Val, s: string, throughNew: bool): Stmt {
    var below := [Member("x")];
    if throughNew then Probe(x, below, value, s, y, q + below) else Probe(y, q + below, value, s, x, below)
  }

  lemma {:induction false} AliasByReference(p: Program, x: string, y: string, path: seq<Seg>, form: AliasForm, value: Val, s: string,
          throughNew: bool, h: Heap, env: Bindings, ops: Ops, fuel: nat)
    requires x in env && y in env && s in env && x != y && Allocated(h, env)
    ensures var q := EvalPath(path, View(h, env), ops);
            var body := Seq(Alias(x, y, path, form), AliasProbe(x, y, q, value, s, throughNew));
            var r := ExecRef(p, ops, Outside(), body, h, env, fuel);
            r.Runs? && s in r.env && View(r.h, r.env)[s] == value
  {
    hide Get, Set, View, Probe, EvalPath, WriteLoc;
    var q := EvalPath(path, View(h, env), ops);
    var below := [Member("x")];
    var env1 := env[x := env[y].Down(q)];
    assert env1[x].Down(below) == env1[y].Down(q + below);
    var (a, write, b, read) := if throughNew then (x, below, y, q + below) else (y, q + below, x, below);
    ProbeByReference(p, ops, Outside(), a, write, value, s, b, read, h, env1, fuel);
    LastObject(WriteLoc(h, env1[a].Down(write), value) + [value], env1[s := Loc(|h|, [])], s, value);
  }

  lemma {:induction false} AliasByCopy(p: CopyProgram, wb: Writebacks, x: string, y: string, path: seq<Seg>,
          form: AliasForm, value: Val, s: string, throughNew: bool, st: Store, ops: Ops, tmp: Packed, fuel: nat)
    requires x in st && y in st && s in st && x != y
    ensures var q := EvalPath(path, st, ops);
            var body := Seq(Alias(x, y, path, form), AliasProbe(x, y, q, value, s, throughNew));
            var c := ExecCopy(p, ops, Translate(wb, Outside(), {}, body), st, tmp, fuel);
            c.CRuns? && s in c.st && c.st[s] == Get(st[y], q + [Member("x")])
  {
    hide Get, Set, Probe, EvalPath, Translate;
    var q := EvalPath(path, st, ops);
    var below := [Member("x")];
    var (a, write, b, read) := if throughNew then (x, below, y, q + below) else (y, q + below, x, below);
    AliasCopied(p, wb, x, y, path, form, ops, st, tmp, fuel);
    var st1 := st[x := Get(st[y], q)];
    ProbeByCopy(p, ops, wb, Outside(), {}, a, write, value, s, b, read, st1, tmp, fuel);
    GetGet(st[y], q, below);
    TranslateSeq(wb, Outside(), {}, Alias(x, y, path, form), AliasProbe(x, y, q, value, s, throughNew));
  }

  /**
   With a second name for its object, execution sees a write under the other name and the translation
   does not.
   */
  lemma {:induction false} AliasIsLost(p: Program, wb: Writebacks, x: string, y: string, path: seq<Seg>, form: AliasForm,
          value: Val, s: string, throughNew: bool, h: Heap, env: Bindings, ops: Ops, tmp: Packed, fuel: nat)
    requires x in env && y in env && s in env && x != y && Allocated(h, env)
    ensures var st := View(h, env);
            var q := EvalPath(path, st, ops);
            var body := Seq(Alias(x, y, path, form), AliasProbe(x, y, q, value, s, throughNew));
            var r := ExecRef(p, ops, Outside(), body, h, env, fuel);
            var c := ExecCopy(TranslateProgram(wb, p), ops, Translate(wb, Outside(), {}, body), st, tmp, fuel);
            && r.Runs? && s in r.env && View(r.h, r.env)[s] == value
            && c.CRuns? && s in c.st && c.st[s] == Get(st[y], q + [Member("x")])
  {
    hide Get, View, EvalPath, Translate, ExecRef, ExecCopy, AliasProbe, TranslateProgram;
    AliasByReference(p, x, y, path, form, value, s, throughNew, h, env, ops, fuel);
    AliasByCopy(TranslateProgram(wb, p), wb, x, y, path, form, value, s, throughNew, View(h, env), ops, tmp, fuel);
  }

  lemma {:induction false} AliasCopied(p: CopyProgram, wb: Writebacks, x: string, y: string, path: seq<Seg>,
          form: AliasForm, ops: Ops, st: Store, tmp: Packed, fuel: nat)
    requires x in st && y in st
    ensures ExecCopy(p, ops, Translate(wb, Outside(), {}, Alias(x, y, path, form)), st, tmp, fuel)
            == CRuns(st[x := Get(st[y], EvalPath(path, st, ops))], tmp)
  {
    hide Get, Set, EvalPath;
    NoPath(st, ops);
    SetAll(st[x], Get(st[y], EvalPath(path, st, ops)));
  }

  lemma {:induction false} AliasProbeFits(p: Program, wb: Writebacks, notes: Notes, x: string, y: string, q: Path,
          value: Val, s: string, throughNew: bool, all: set<string>, names: set<string>)
    requires if throughNew then x in names else y in names
    ensures Continuation(p, wb, notes, AliasProbe(x, y, q, value, s, throughNew), all, names)
  {
    hide Probe;
    ProbeEffects(x, [Member("x")], value, s, y, q + [Member("x")]);
    ProbeEffects(y, q + [Member("x")], value, s, x, [Member("x")]);
  }

  /**
   A second name x for the object of y, or a part of it, is translated right for all code that writes in
   place at most under the given names if and only if x and y are not among them.
   */
  lemma {:induction false} AliasesExactly(p: Program, wb: Writebacks, notes: Notes, x: string, y: string,
          path: seq<Seg>, form: AliasForm, names: set<string>, s: string, h: Heap, env: Bindings, ops: Ops)
    requires ProgramOk(p, wb, notes) && OneObjectEach(h, env) && x in env && y in env && s in env && x != y
    ensures NamePreserved(p, wb, notes, Alias(x, y, path, form), names, h, env, ops) <==> x !in names && y !in names
  {
    hide View, ExecRef, ExecCopy, TranslateProgram, Translate, Continuation, ProgramOk, AliasProbe, Get, Sep, EvalPath;
    var naming := Alias(x, y, path, form);
    if x !in names && y !in names {
      forall rest, tmp, fuel: nat | Continuation(p, wb, notes, rest, env.Keys, names)
        ensures StatementPreservedFor(p, wb, Seq(naming, rest), h, env, ops, tmp, fuel)
      {
        QuietAliasPreserved(p, wb, notes, naming, rest, names, h, env, ops, tmp, fuel);
      }
    } else {
      var st := View(h, env);
      var q := EvalPath(path, st, ops);
      var was := Get(st[y], q + [Member("x")]);
      var rest := AliasProbe(x, y, q, Other(was), s, x in names);
      AliasProbeFits(p, wb, notes, x, y, q, Other(was), s, x in names, env.Keys, names);
      AliasIsLost(p, wb, x, y, path, form, Other(was), s, x in names, h, env, ops, Tuple([]), 0);
      assert !StatementPreservedFor(p, wb, Seq(naming, rest), h, env, ops, Tuple([]), 0);
      assert !StatementPreserved(p, wb, Seq(naming, rest), h, env, ops);
    }
  }

  /**
   The analysis reports the second name exactly if it is bound alone and by a path, is a local variable's, the
   object is a memory parameter's, and the write is under the local variable.
   */
  lemma {:induction false} AliasReportedExactly(fn: Fn, wb: Writebacks, x: string, y: string, path: seq<Seg>,
          form: AliasForm, q: Path, value: Val, s: string, throughNew: bool)
    requires fn.body == Seq(Alias(x, y, path, form), AliasProbe(x, y, q, value, s, throughNew)) && x != y
    ensures Aliases(fn.body, fn) * LocalWrites(fn, InPlace(fn.body, wb)) != {}
            <==> form.Direct? && throughNew && MemoryParam(fn, y) && !MemoryParam(fn, x)
  {
    hide Probe, MemoryParam;
    ProbeEffects(x, [Member("x")], value, s, y, q + [Member("x")]);
    ProbeEffects(y, q + [Member("x")], value, s, x, [Member("x")]);
    assert InPlace(fn.body, wb) == {if throughNew then x else y};
    assert Aliases(fn.body, fn) == if form.Direct? && MemoryParam(fn, y) then {x} else {};
    if form.Direct? && throughNew && MemoryParam(fn, y) && !MemoryParam(fn, x) {
      assert x in Aliases(fn.body, fn) * LocalWrites(fn, InPlace(fn.body, wb));
    }
  }

  /** S memory b = a; b.x = value; r = a.x; with a a local variable. */
  ghost function LocalAlias(value: Val): Fn {
    Fn([], ["r"], true, ["a", "b", "r"], Seq(Alias("b", "a", [], Direct), AliasProbe("b", "a", [], value, "r", true)))
  }

  /** The analysis finds nothing it cannot write back. */
  ghost predicate NothingReported(fn: Fn, wb: Writebacks) {
    && Aliases(fn.body, fn) * LocalWrites(fn, InPlace(fn.body, wb)) == {}
    && MemoryIndices(fn, Rebound(fn.body)) * Modified(fn, wb) == {}
  }

  /** By reference r ends with the given value, by copy with the value the part of a had before. */
  ghost predicate WriteLost(p: Program, wb: Writebacks, body: Stmt, a: string, part: Path, r: string, value: Val, h: Heap,
          env: Bindings, ops: Ops, tmp: Packed, fuel: nat)
    requires a in env
  {
    var o := ExecRef(p, ops, Outside(), body, h, env, fuel);
    var c := ExecCopy(TranslateProgram(wb, p), ops, Translate(wb, Outside(), {}, body), View(h, env), tmp, fuel);
    && o.Runs? && r in o.env && View(o.h, o.env)[r] == value
    && c.CRuns? && r in c.st && c.st[r] == Get(View(h, env)[a], part)
  }

  /** Nothing is reported of a second name for a local variable's object, and its meaning is lost. */
  lemma {:induction false} LocalAliasMissed(value: Val, wb: Writebacks, p: Program, ops: Ops, h: Heap, env: Bindings,
          tmp: Packed, fuel: nat)
    requires "a" in env && "b" in env && "r" in env && Allocated(h, env)
    ensures NothingReported(LocalAlias(value), wb)
    ensures WriteLost(p, wb, LocalAlias(value).body, "a", [Member("x")], "r", value, h, env, ops, tmp, fuel)
  {
    hide ExecRef, ExecCopy, View, Get, AliasProbe, EvalPath, TranslateProgram, Translate;
    var fn := LocalAlias(value);
    AliasReportedExactly(fn, wb, "b", "a", [], Direct, [], value, "r", true);
    NoPath(View(h, env), ops);
    AliasIsLost(p, wb, "b", "a", [], Direct, value, "r", true, h, env, ops, tmp, fuel);
    assert [] + [Member("x")] == [Member("x")];
  }

  /** (S memory y, S memory x) = (b, a); x.x = value; r = a.x; with a and b memory parameters. */
  ghost function TupleAlias(value: Val): Fn {
    Fn([Param("a", true), Param("b", true)], ["r"], true, ["x", "y", "r"],
       Seq(Alias("y", "b", [], InTuple), Seq(Alias("x", "a", [], InTuple), AliasProbe("x", "a", [], value, "r", true))))
  }

  lemma {:induction false} TupleNotReported(value: Val, wb: Writebacks)
    ensures NothingReported(TupleAlias(value), wb)
  {
    hide AliasProbe;
    var fn := TupleAlias(value);
    ProbeOfAlias("x", "a", value, "r");
    var (first, second, probe) := (Alias("y", "b", [], InTuple), Alias("x", "a", [], InTuple),
                                   AliasProbe("x", "a", [], value, "r", true));
    SeqEffects(second, probe, wb, fn);
    SeqEffects(first, Seq(second, probe), wb, fn);
    assert Aliases(fn.body, fn) == {};
    assert InPlace(fn.body, wb) == {"x"};
    assert Modified(fn, wb) == {};
  }

  lemma {:induction false} SeqEffects(a: Stmt, b: Stmt, wb: Writebacks, fn: Fn)
    ensures InPlace(Seq(a, b), wb) == InPlace(a, wb) + InPlace(b, wb)
    ensures Aliases(Seq(a, b), fn) == Aliases(a, fn) + Aliases(b, fn)
  {
  }

  lemma {:induction false} ProbeOfAlias(x: string, a: string, value: Val, r: string)
    ensures var s := AliasProbe(x, a, [], value, r, true);
            (forall wb :: InPlace(s, wb) == {x}) && Rebound(s) == {r} && forall fn :: Aliases(s, fn) == {}
  {
    hide Probe;
    ProbeEffects(x, [Member("x")], value, r, a, [] + [Member("x")]);
  }

  /** Nothing is reported of names bound by a tuple, and their meaning is lost. */
  lemma {:induction false} TupleAliasMissed(value: Val, wb: Writebacks, p: Program, ops: Ops, h: Heap, env: Bindings,
          tmp: Packed, fuel: nat)
    requires "a" in env && "b" in env && "x" in env && "y" in env && "r" in env && Allocated(h, env)
    ensures NothingReported(TupleAlias(value), wb)
    ensures WriteLost(p, wb, TupleAlias(value).body, "a", [Member("x")], "r", value, h, env, ops, tmp, fuel)
  {
    hide View, Get, AliasProbe, EvalPath, TranslateProgram, NothingReported, ExecRef, ExecCopy, Translate;
    TupleNotReported(value, wb);
    var rest := Seq(Alias("x", "a", [], InTuple), AliasProbe("x", "a", [], value, "r", true));
    OneAlias(p, wb, "y", "b", InTuple, rest, h, env, ops, tmp, fuel);
    var env1 := env["y" := env["b"]];
    AliasIsLost(p, wb, "x", "a", [], InTuple, value, "r", true, h, env1, ops, tmp, fuel);
    NoPath(View(h, env1), ops);
    assert [] + [Member("x")] == [Member("x")];
    ViewAt(h, env, "a");
    ViewAt(h, env1, "a");
  }

  /** Naming a whole object, by reference and by copy. */
  lemma {:induction false} OneAlias(p: Program, wb: Writebacks, x: string, y: string, form: AliasForm, rest: Stmt,
          h: Heap, env: Bindings, ops: Ops, tmp: Packed, fuel: nat)
    requires x in env && y in env && Allocated(h, env)
    ensures var s := Seq(Alias(x, y, [], form), rest);
            var env1 := env[x := env[y]];
            && ExecRef(p, ops, Outside(), s, h, env, fuel) == ExecRef(p, ops, Outside(), rest, h, env1, fuel)
            && ExecCopy(TranslateProgram(wb, p), ops, Translate(wb, Outside(), {}, s), View(h, env), tmp, fuel)
               == ExecCopy(TranslateProgram(wb, p), ops, Translate(wb, Outside(), {}, rest), View(h, env1), tmp, fuel)
  {
    hide Get, View, EvalPath, Eval, TranslateProgram;
    NoPath(View(h, env), ops);
    assert env[y].Down([]) == env[y];
    AliasView(h, env, x, y, []);
    AliasCopied(TranslateProgram(wb, p), wb, x, y, [], form, ops, View(h, env), tmp, fuel);
    TranslateSeq(wb, Outside(), {}, Alias(x, y, [], form), rest);
  }

  /** S memory x = c ? a : b; x.x = value; r = a.x; with a and b memory parameters. */
  ghost function ConditionalAlias(value: Val): Fn {
    Fn([Param("a", true), Param("b", true), Param("c", false)], ["r"], true, ["x", "r"],
       Seq(If(Read("c", []), Alias("x", "a", [], Conditional), Alias("x", "b", [], Conditional)),
           AliasProbe("x", "a", [], value, "r", true)))
  }

  lemma {:induction false} ConditionalNotReported(value: Val, wb: Writebacks)
    ensures NothingReported(ConditionalAlias(value), wb)
  {
    hide AliasProbe;
    var fn := ConditionalAlias(value);
    ProbeOfAlias("x", "a", value, "r");
    var (a, b) := (Alias("x", "a", [], Conditional), Alias("x", "b", [], Conditional));
    SeqEffects(If(Read("c", []), a, b), AliasProbe("x", "a", [], value, "r", true), wb, fn);
    assert InPlace(If(Read("c", []), a, b), wb) == {} && Aliases(If(Read("c", []), a, b), fn) == {};
    assert Aliases(fn.body, fn) == {};
    assert InPlace(fn.body, wb) == {"x"};
    assert Modified(fn, wb) == {};
  }

  /** Nothing is reported of a name bound by a conditional, and its meaning is lost. */
  lemma {:induction false} ConditionalAliasMissed(value: Val, wb: Writebacks, p: Program, ops: Ops, h: Heap,
          env: Bindings, tmp: Packed, fuel: nat)
    requires "a" in env && "b" in env && "c" in env && "x" in env && "r" in env && Allocated(h, env)
    requires Scalar(View(h, env)["c"]) != 0
    ensures NothingReported(ConditionalAlias(value), wb)
    ensures WriteLost(p, wb, ConditionalAlias(value).body, "a", [Member("x")], "r", value, h, env, ops, tmp, fuel)
  {
    hide View, Get, AliasProbe, EvalPath, TranslateProgram, NothingReported, ExecRef, ExecCopy, Translate;
    ConditionalNotReported(value, wb);
    ConditionTaken(p, wb, AliasProbe("x", "a", [], value, "r", true), h, env, ops, tmp, fuel);
    AliasIsLost(p, wb, "x", "a", [], Conditional, value, "r", true, h, env, ops, tmp, fuel);
    NoPath(View(h, env), ops);
    assert [] + [Member("x")] == [Member("x")];
  }

  lemma {:induction false} ConditionTaken(p: Program, wb: Writebacks, rest: Stmt, h: Heap, env: Bindings, ops: Ops,
          tmp: Packed, fuel: nat)
    requires "c" in env && Scalar(View(h, env)["c"]) != 0
    ensures var (a, b) := (Alias("x", "a", [], Conditional), Alias("x", "b", [], Conditional));
            var (s, t) := (Seq(If(Read("c", []), a, b), rest), Seq(a, rest));
            && ExecRef(p, ops, Outside(), s, h, env, fuel) == ExecRef(p, ops, Outside(), t, h, env, fuel)
            && ExecCopy(TranslateProgram(wb, p), ops, Translate(wb, Outside(), {}, s), View(h, env), tmp, fuel)
               == ExecCopy(TranslateProgram(wb, p), ops, Translate(wb, Outside(), {}, t), View(h, env), tmp, fuel)
  {
    hide Get, View, EvalPath, TranslateProgram;
    var (a, b) := (Alias("x", "a", [], Conditional), Alias("x", "b", [], Conditional));
    ReadsName("c", View(h, env), ops);
    TranslateSeq(wb, Outside(), {}, If(Read("c", []), a, b), rest);
    TranslateSeq(wb, Outside(), {}, a, rest);
  }

  // ----- returned references -----

  /** function id(S memory s) internal returns (S memory) { return s; } */
  function Identity(): Fn {
    Fn([Param("s", true)], ["out"], false, [], Return([Ref("s", [])]))
  }

  /** By reference x becomes a name of the part. */
  lemma {:induction false} IdentityByReference(p: Program, ops: Ops, fn: Fn, f: string, x: string, y: string,
          path: seq<Seg>, h: Heap, env: Bindings, fuel: nat)
    requires f in p && p[f] == Identity() && x in env && y in env && fuel > 0
    ensures ExecRef(p, ops, fn, Call([x], f, [Ref(y, path)]), h, env, fuel)
            == Runs(h, env[x := env[y].Down(EvalPath(path, View(h, env), ops))])
  {
    hide View, EvalPath, ArgValue, BodyRef;
    IdentityBody(p, ops, y, path, h, env, fuel);
    OneResultBound(x, [env[y].Down(EvalPath(path, View(h, env), ops))], env);
  }

  lemma {:induction false} IdentityBody(p: Program, ops: Ops, y: string, path: seq<Seg>, h: Heap, env: Bindings,
          fuel: nat)
    requires y in env && fuel > 0
    ensures var l := env[y].Down(EvalPath(path, View(h, env), ops));
            exists env' :: BodyRef(p, ops, Identity(), [Ref(y, path)], h, env, fuel) == Returns(h, env', [l])
  {
    hide View, EvalPath, ArgValue, Bind;
    var (g, s) := (Identity(), Param("s", true));
    var l := env[y].Down(EvalPath(path, View(h, env), ops));
    OneArgument(s, Ref(y, path), h, env, ops);
    var env' := map["s" := l];
    assert Named([s], [l]) == env' by {
      assert [s][..0] == [] && [l][..0] == [];
    }
    assert Rebind([], MemoryLang.Zeros(0), h, env') == (h, env');
    assert Enter(g, [Ref(y, path)], h, env, ops) == (h, env');
    var es := [Ref("s", [])];
    assert AllMemory(1) == [AllMemory(1)[0]];
    OneArgument(AllMemory(1)[0], es[0], h, env', ops);
    NoPath(View(h, env'), ops);
    assert l.Down([]) == l;
    assert ReturnRef(g, es, h, env', ops) == Returns(h, env', [l]);
    assert ExecRef(p, ops, g, g.body, h, env', fuel - 1) == Returns(h, env', [l]);
  }

  /** By copy x becomes a copy of the part. */
  lemma {:induction false} IdentityByCopy(p: Program, wb: Writebacks, ops: Ops, f: string, x: string, y: string,
          path: seq<Seg>, st: Store, tmp: Packed, fuel: nat)
    requires f in p && p[f] == Identity() && WritebackOf(wb, f) == {} && x in st && y in st && fuel > 0
    ensures var v := Get(st[y], EvalPath(path, st, ops));
            ExecCopy(TranslateProgram(wb, p), ops, TranslateCall(wb, [x], f, [Ref(y, path)], map[]), st, tmp, fuel)
            == CRuns(st[x := v], One(v))
  {
    hide Get, EvalPath, TranslateCall, TranslateFn, ArgExprs, EvalAll, EnterCopy;
    var tp := TranslateProgram(wb, p);
    var v := Get(st[y], EvalPath(path, st, ops));
    var es := ArgExprs([Ref(y, path)]);
    ArgumentValue([Ref(y, path)], st, ops, 0);
    assert EvalAll(es, st, ops) == [v];
    IdentityTranslated(wb, f);
    IdentityReturns(v, tp, ops, Tuple([]), fuel - 1);
    assert ExecCopy(tp, ops, CCall(f, es), st, tmp, fuel) == CRuns(st, One(v));
    SimpleCall(tp, ops, wb, Call([x], f, [Ref(y, path)]), st, tmp, fuel);
  }

  lemma {:induction false} IdentityTranslated(wb: Writebacks, f: string)
    requires WritebackOf(wb, f) == {}
    ensures TranslateFn(wb, f, Identity()) == CopyFn(["s"], [], CReturn([Read("s", [])]))
  {
    var g := Identity();
    assert ParamNames(g.params) == ["s"];
    NoIndices(1);
    NoWritebackReads(g.params, {}, 1);
    assert ArgExprs([Ref("s", [])]) == [Read("s", [])];
    assert Translate(wb, g, {}, g.body) == CReturn([Read("s", [])] + []);
    assert [Read("s", [])] + [] == [Read("s", [])];
  }

  lemma {:induction false} IdentityReturns(v: Val, tp: CopyProgram, ops: Ops, tmp: Packed, fuel: nat)
    ensures var tg := CopyFn(["s"], [], CReturn([Read("s", [])]));
            ExecCopy(tp, ops, tg.body, EnterCopy(tg, [v]), tmp, fuel) == CReturns([v])
  {
    hide EvalAll, EnterCopy, Get, EvalPath;
    IdentityStore(v);
    ReadsName("s", map["s" := v], ops);
  }

  lemma {:induction false} IdentityStore(v: Val)
    ensures EnterCopy(CopyFn(["s"], [], CReturn([Read("s", [])])), [v]) == map["s" := v]
  {
    assert ["s"][..0] == [] && [v][..0] == [];
    assert AssignAll(["s"], [v], map[]) == map["s" := v];
    assert AssignAll([], MemoryLang.Zeros(0), map["s" := v]) == map["s" := v];
  }

  /** A call of the identity is a second name, once there is fuel for it. */
  lemma {:induction false} ReturnedIsAlias(p: Program, wb: Writebacks, f: string, x: string, y: string, path: seq<Seg>,
          rest: Stmt, h: Heap, env: Bindings, ops: Ops, tmp: Packed, fuel: nat)
    requires f in p && p[f] == Identity() && WritebackOf(wb, f) == {} && x in env && y in env
    ensures var s := Seq(Call([x], f, [Ref(y, path)]), rest);
            StatementPreservedFor(p, wb, s, h, env, ops, tmp, fuel)
            <==> fuel == 0 || StatementPreservedFor(p, wb, Seq(Alias(x, y, path, Direct), rest), h, env, ops,
                                                    One(Get(View(h, env)[y], EvalPath(path, View(h, env), ops))), fuel)
  {
    hide Get, View, EvalPath, SameRun, TranslateProgram, TranslateCall, CallRef;
    var st := View(h, env);
    var call := Call([x], f, [Ref(y, path)]);
    TranslateSeq(wb, Outside(), {}, call, rest);
    TranslateSeq(wb, Outside(), {}, Alias(x, y, path, Direct), rest);
    if fuel == 0 {
      CallDiverges(p, wb, f, x, y, path, h, env, ops, tmp);
      BothDiverge();
    } else {
      var v := Get(st[y], EvalPath(path, st, ops));
      IdentityByReference(p, ops, Outside(), f, x, y, path, h, env, fuel);
      IdentityByCopy(p, wb, ops, f, x, y, path, st, tmp, fuel);
      AliasCopied(TranslateProgram(wb, p), wb, x, y, path, Direct, ops, st, One(v), fuel);
      var (a, b) := (Translate(wb, Outside(), {}, call), Translate(wb, Outside(), {}, Alias(x, y, path, Direct)));
      var t := Translate(wb, Outside(), {}, rest);
      assert ExecCopy(TranslateProgram(wb, p), ops, a, st, tmp, fuel)
          == ExecCopy(TranslateProgram(wb, p), ops, b, st, One(v), fuel);
      assert ExecCopy(TranslateProgram(wb, p), ops, CSeq(a, t), st, tmp, fuel)
          == ExecCopy(TranslateProgram(wb, p), ops, CSeq(b, t), st, One(v), fuel);
      var naming := Alias(x, y, path, Direct);
      assert ExecRef(p, ops, Outside(), naming, h, env, fuel) == ExecRef(p, ops, Outside(), call, h, env, fuel);
      assert ExecRef(p, ops, Outside(), Seq(naming, rest), h, env, fuel)
          == ExecRef(p, ops, Outside(), Seq(call, rest), h, env, fuel);
    }
  }

  lemma {:induction false} BothDiverge()
    ensures SameRun(Diverges, CDiverges)
  {
  }

  lemma {:induction false} CallDiverges(p: Program, wb: Writebacks, f: string, x: string, y: string, path: seq<Seg>,
          h: Heap, env: Bindings, ops: Ops, tmp: Packed)
    requires f in p && p[f] == Identity() && WritebackOf(wb, f) == {} && x in env && y in env
    ensures ExecRef(p, ops, Outside(), Call([x], f, [Ref(y, path)]), h, env, 0) == Diverges
    ensures ExecCopy(TranslateProgram(wb, p), ops, TranslateCall(wb, [x], f, [Ref(y, path)], map[]), View(h, env), tmp, 0)
            == CDiverges
  {
    hide View;
    IdentityTranslated(wb, f);
    assert ExecCopy(TranslateProgram(wb, p), ops, CCall(f, ArgExprs([Ref(y, path)])), View(h, env), tmp, 0) == CDiverges;
  }

  /**
   A reference that a function returns to its caller's object is translated right for all code that writes in
   place at most under the given names if and only if neither the result's name nor the argument's is among
   them.
   */
  lemma {:induction false} ReturnedExactly(p: Program, wb: Writebacks, notes: Notes, f: string, x: string, y: string,
          path: seq<Seg>, names: set<string>, s: string, h: Heap, env: Bindings, ops: Ops)
    requires ProgramOk(p, wb, notes) && OneObjectEach(h, env) && x in env && y in env && s in env && x != y
    requires f in p && p[f] == Identity() && WritebackOf(wb, f) == {}
    ensures NamePreserved(p, wb, notes, Call([x], f, [Ref(y, path)]), names, h, env, ops)
            <==> x !in names && y !in names
  {
    hide View, ExecRef, ExecCopy, TranslateProgram, Translate, Continuation, ProgramOk, AliasProbe, Get, Sep, EvalPath,
         StatementPreservedFor;
    var st := View(h, env);
    var q := EvalPath(path, st, ops);
    var (call, naming) := (Call([x], f, [Ref(y, path)]), Alias(x, y, path, Direct));
    if x !in names && y !in names {
      forall rest, tmp, fuel: nat | Continuation(p, wb, notes, rest, env.Keys, names)
        ensures StatementPreservedFor(p, wb, Seq(call, rest), h, env, ops, tmp, fuel)
      {
        QuietAliasPreserved(p, wb, notes, naming, rest, names, h, env, ops, One(Get(st[y], q)), fuel);
        ReturnedIsAlias(p, wb, f, x, y, path, rest, h, env, ops, tmp, fuel);
      }
    } else {
      var value := Other(Get(st[y], q + [Member("x")]));
      var rest := AliasProbe(x, y, q, value, s, x in names);
      AliasProbeFits(p, wb, notes, x, y, q, value, s, x in names, env.Keys, names);
      LostIsNotPreserved(p, wb, x, y, path, s, x in names, h, env, ops, One(Get(st[y], q)), 1);
      ReturnedIsAlias(p, wb, f, x, y, path, rest, h, env, ops, Tuple([]), 1);
      assert !StatementPreserved(p, wb, Seq(call, rest), h, env, ops);
    }
  }

  lemma {:induction false} LostIsNotPreserved(p: Program, wb: Writebacks, x: string, y: string, path: seq<Seg>, s: string,
          throughNew: bool, h: Heap, env: Bindings, ops: Ops, tmp: Packed, fuel: nat)
    requires x in env && y in env && s in env && x != y && Allocated(h, env)
    ensures var st := View(h, env);
            var q := EvalPath(path, st, ops);
            var rest := AliasProbe(x, y, q, Other(Get(st[y], q + [Member("x")])), s, throughNew);
            !StatementPreservedFor(p, wb, Seq(Alias(x, y, path, Direct), rest), h, env, ops, tmp, fuel)
  {
    hide View, ExecRef, ExecCopy, TranslateProgram, Translate, AliasProbe, Get, EvalPath;
    var st := View(h, env);
    var value := Other(Get(st[y], EvalPath(path, st, ops) + [Member("x")]));
    AliasIsLost(p, wb, x, y, path, Direct, value, s, throughNew, h, env, ops, tmp, fuel);
  }

  /** f(S memory a): S memory b = id(a); b.x = value; r = a.x; */
  ghost function UsesIdentity(value: Val): Fn {
    Fn([Param("a", true)], ["r"], true, ["b", "r"],
       Seq(Call(["b"], "id", [Ref("a", [])]), AliasProbe("b", "a", [], value, "r", true)))
  }

  ghost function IdentityProgram(value: Val): Program {
    map["id" := Identity(), "f" := UsesIdentity(value)]
  }

  /** What the analysis computes: nothing is written back. */
  const NOTHING_BACK: Writebacks := map["id" := {}, "f" := {}]

  lemma {:induction false} IdentityComputed(value: Val)
    ensures var p := IdentityProgram(value);
            && (forall g :: g in p ==> NOTHING_BACK[g] == Modified(p[g], NOTHING_BACK))
            && NothingReported(UsesIdentity(value), NOTHING_BACK)
  {
    hide AliasProbe;
    ProbeOfAlias("b", "a", value, "r");
    var fn := UsesIdentity(value);
    assert InPlace(fn.body, NOTHING_BACK) == {"b"};
    assert Modified(fn, NOTHING_BACK) == {};
    assert InPlace(Identity().body, NOTHING_BACK) == {};
    assert Modified(Identity(), NOTHING_BACK) == {};
    assert Aliases(fn.body, fn) == {};
  }

  /**
   Nothing is reported of a reference a function returns, and a write under it is lost: by reference the
   function's result is the written value, by copy the value the member had before.
   */
  lemma {:induction false} ReturnedAliasMissed(value: Val, v: Val, ops: Ops, fuel: nat)
    requires fuel > 1
    ensures var p := IdentityProgram(value);
            && (forall g :: g in p ==> NOTHING_BACK[g] == Modified(p[g], NOTHING_BACK))
            && NothingReported(UsesIdentity(value), NOTHING_BACK)
    ensures var p := IdentityProgram(value);
            var r := RunByReference(p, ops, p["f"], [v], fuel);
            var c := RunByCopy(TranslateProgram(NOTHING_BACK, p), ops, TranslateFn(NOTHING_BACK, "f", p["f"]), [v], fuel);
            && r.Returns? && Values(r.h, r.locs) == [value]
            && c == CReturns([Get(v, [Member("x")])])
  {
    hide IdentityProgram, NothingReported, Modified, RunByReference, RunByCopy, TranslateFn, TranslateProgram, Get;
    IdentityComputed(value);
    IdentityKnown(value);
    UsesByReference(value, v, ops, fuel);
    UsesByCopy(value, v, ops, fuel);
  }

  lemma {:induction false} IdentityKnown(value: Val)
    ensures var p := IdentityProgram(value);
            && "id" in p && p["id"] == Identity() && "f" in p && p["f"] == UsesIdentity(value)
    ensures WritebackOf(NOTHING_BACK, "id") == {} && WritebackOf(NOTHING_BACK, "f") == {}
  {
  }

  /** Entering the function: its parameter is the first object, its locals the next two. */
  lemma {:induction false} UsesEntered(value: Val, v: Val, ops: Ops)
    ensures Enter(UsesIdentity(value), Literals([v]), [], map[], ops)
            == ([v, Zero(), Zero()], map["a" := Loc(0, []), "b" := Loc(1, []), "r" := Loc(2, [])])
  {
    hide AliasProbe, View;
    var (params, args) := ([Param("a", true)], [Fresh(Lit(v))]);
    assert Literals([v]) == args;
    assert params[..0] == [] && args[..0] == [];
    assert Bind([], [], [], map[], ops) == ([], []);
    assert ArgValue(args[0], View([], map[]), ops) == v;
    var l := Loc(0, []);
    assert args[0].Fresh? && |params| == |args| == 1;
    assert [] + [v] == [v] && [] + [l] == [l];
    assert Bind(params, args, [], map[], ops) == ([v], [l]);
    assert Named(params, [l]) == map["a" := l] by {
      assert [l][..0] == [];
    }
    var (xs, zs) := (["b", "r"], MemoryLang.Zeros(2));
    assert xs[..1] == ["b"] && zs[..1] == [Zero()];
    OneRebound("b", Zero(), [v], map["a" := l]);
    assert Rebind(xs[..1], zs[..1], [v], map["a" := l]) == ([v] + [Zero()], map["a" := l]["b" := Loc(1, [])]);
    assert [v] + [Zero()] + [Zero()] == [v, Zero(), Zero()];
  }

  lemma {:induction false} UsesByReference(value: Val, v: Val, ops: Ops, fuel: nat)
    requires fuel > 1
    ensures var p := IdentityProgram(value);
            var r := RunByReference(p, ops, UsesIdentity(value), [v], fuel);
            r.Returns? && Values(r.h, r.locs) == [value]
  {
    hide AliasProbe, View, Get, Set, WriteLoc, Literals, Enter, ReturnNames, Bind, IdentityProgram;
    IdentityKnown(value);
    var (p, g) := (IdentityProgram(value), UsesIdentity(value));
    UsesEntered(value, v, ops);
    var (h, env) := Enter(g, Literals([v]), [], map[], ops);
    IdentityByReference(p, ops, g, "id", "b", "a", [], h, env, fuel - 1);
    NoPath(View(h, env), ops);
    var env1 := env["b" := env["a"].Down([])];
    ProbeRuns(p, ops, g, value, h, env1, fuel - 1);
    var (h2, env2) := (WriteLoc(h, env1["b"].Down([Member("x")]), value) + [value], env1["r" := Loc(|h|, [])]);
    assert ExecRef(p, ops, g, g.body, h, env, fuel - 1) == Runs(h2, env2);
    OneNamed(g, "r", h2, env2, ops);
    LastObject(h2, env2, "r", value);
    ViewAt(h2, env2, "r");
    assert Values(h2, [env2["r"]]) == [ReadLoc(h2, env2["r"])];
  }

  lemma {:induction false} ProbeRuns(p: Program, ops: Ops, fn: Fn, value: Val, h: Heap, env: Bindings, fuel: nat)
    requires "a" in env && "b" in env && "r" in env && env["b"].oid < |h| && env["b"] == env["a"]
    ensures ExecRef(p, ops, fn, AliasProbe("b", "a", [], value, "r", true), h, env, fuel)
            == Runs(WriteLoc(h, env["b"].Down([Member("x")]), value) + [value], env["r" := Loc(|h|, [])])
  {
    hide View, Get, Set, WriteLoc, Probe;
    assert [] + [Member("x")] == [Member("x")];
    ProbeByReference(p, ops, fn, "b", [Member("x")], value, "r", "a", [Member("x")], h, env, fuel);
  }

  lemma {:induction false} UsesByCopy(value: Val, v: Val, ops: Ops, fuel: nat)
    requires fuel > 1
    ensures var p := IdentityProgram(value);
            var tg := TranslateFn(NOTHING_BACK, "f", UsesIdentity(value));
            |tg.params| == 1
            && RunByCopy(TranslateProgram(NOTHING_BACK, p), ops, tg, [v], fuel) == CReturns([Get(v, [Member("x")])])
  {
    hide AliasProbe, Get, Set, IdentityProgram, TranslateProgram, Translate, EnterCopy, EvalPath, TranslateCall, EvalAll,
         TranslateFn;
    IdentityKnown(value);
    var (p, g, wb) := (IdentityProgram(value), UsesIdentity(value), NOTHING_BACK);
    var tp := TranslateProgram(wb, p);
    UsesTranslated(value);
    var st := map["a" := v, "b" := Zero(), "r" := Zero()];
    UsesStore(v);
    IdentityByCopy(p, wb, ops, "id", "b", "a", [], st, Tuple([]), fuel - 1);
    NoPath(st, ops);
    GetAll(v);
    var st1 := st["b" := v];
    var probe := AliasProbe("b", "a", [], value, "r", true);
    ProbeCopied(tp, ops, g, value, st1, One(v), fuel - 1);
    var c := ExecCopy(tp, ops, Translate(wb, g, {}, probe), st1, One(v), fuel - 1);
    var call := TranslateCall(wb, ["b"], "id", [Ref("a", [])], map[]);
    var body := CSeq(call, Translate(wb, g, {}, probe));
    assert ExecCopy(tp, ops, body, st, Tuple([]), fuel - 1) == c;
    ReadsName("r", c.st, ops);
    var last := CReturn([Read("r", [])]);
    assert ExecCopy(tp, ops, last, c.st, c.tmp, fuel - 1) == CReturns([Get(v, [Member("x")])]);
    assert ExecCopy(tp, ops, CSeq(body, last), st, Tuple([]), fuel - 1) == CReturns([Get(v, [Member("x")])]);
    assert EnterCopy(TranslateFn(wb, "f", g), [v]) == st by { UsesEnteredCopy(value, v); }
  }

  lemma {:induction false} ProbeCopied(tp: CopyProgram, ops: Ops, g: Fn, value: Val, st: Store, tmp: Packed, fuel: nat)
    requires "a" in st && "b" in st && "r" in st
    ensures var c := ExecCopy(tp, ops, Translate(NOTHING_BACK, g, {}, AliasProbe("b", "a", [], value, "r", true)), st, tmp,
                              fuel);
            c.CRuns? && "r" in c.st && c.st["r"] == Get(st["a"], [Member("x")])
  {
    hide Get, Set, Probe, Translate;
    assert [] + [Member("x")] == [Member("x")];
    ProbeByCopy(tp, ops, NOTHING_BACK, g, {}, "b", [Member("x")], value, "r", "a", [Member("x")], st, tmp, fuel);
  }

  lemma {:induction false} UsesEnteredCopy(value: Val, v: Val)
    ensures var tg := TranslateFn(NOTHING_BACK, "f", UsesIdentity(value));
            |tg.params| == 1 && EnterCopy(tg, [v]) == map["a" := v, "b" := Zero(), "r" := Zero()]
  {
    hide TranslateFn, AssignAll, MemoryLang.Zeros, UsesIdentity;
    UsesTranslated(value);
    UsesStore(v);
  }

  lemma {:induction false} UsesStore(v: Val)
    ensures AssignAll(["b", "r"], MemoryLang.Zeros(2), AssignAll(["a"], [v], map[]))
            == map["a" := v, "b" := Zero(), "r" := Zero()]
  {
    var (xs, zs) := (["b", "r"], MemoryLang.Zeros(2));
    assert xs[..1] == ["b"] && zs[..1] == [Zero()];
    assert ["b"][..0] == [] && [Zero()][..0] == [] && ["a"][..0] == [] && [v][..0] == [];
    assert AssignAll(["a"], [v], map[]) == map["a" := v];
    assert AssignAll(["b"], [Zero()], map["a" := v]) == map["a" := v]["b" := Zero()];
  }

  lemma {:induction false} UsesTranslated(value: Val)
    ensures var (g, wb) := (UsesIdentity(value), NOTHING_BACK);
            TranslateFn(wb, "f", g)
            == CopyFn(["a"], ["b", "r"],
                      CSeq(CSeq(TranslateCall(wb, ["b"], "id", [Ref("a", [])], map[]),
                                Translate(wb, g, {}, AliasProbe("b", "a", [], value, "r", true))),
                           CReturn([Read("r", [])])))
  {
    hide AliasProbe, TranslateCall;
    var (g, wb) := (UsesIdentity(value), NOTHING_BACK);
    IdentityKnown(value);
    assert ParamNames(g.params) == ["a"];
    NoIndices(1);
    NoWritebackReads(g.params, {}, 1);
    assert ArgExprs(NamedRefs(["r"])) == [Read("r", [])];
    assert [Read("r", [])] + [] == [Read("r", [])];
    ProbeGoesOn(value);
    TranslateSeq(wb, g, {}, Call(["b"], "id", [Ref("a", [])]), AliasProbe("b", "a", [], value, "r", true));
  }

  lemma {:induction false} ProbeGoesOn(value: Val)
    ensures !EndsWithReturn(AliasProbe("b", "a", [], value, "r", true))
  {
    hide Probe;
    ProbeEffects("b", [Member("x")], value, "r", "a", [] + [Member("x")]);
  }

  lemma {:induction false} IdentityShares(p: Program, notes: Notes)
    requires "id" in p && p["id"] == Identity() && FnOk(p, NOTHING_BACK, notes, "id")
    ensures (0, 0) in NoteOf(notes, "id").shares
  {
    hide DistinctNames, KeepsWrittenBack, Modified, ParamsMay, MayOk, Loud;
    var note := NoteOf(notes, "id");
    assert ReturnOk(Identity().params, note, [Ref("s", [])]);
  }

  /** The function writes b in place. */
  lemma {:induction false} UsesWrites(value: Val)
    ensures "b" in Loud(UsesIdentity(value), {}, NOTHING_BACK)
  {
    hide AliasProbe;
    ProbeOfAlias("b", "a", value, "r");
    assert "b" in InPlace(UsesIdentity(value).body, NOTHING_BACK);
  }

  lemma {:induction false} UsesFollows(value: Val, p: Program, notes: Notes)
    requires "id" in p && "f" in p && p["f"] == UsesIdentity(value) && FnOk(p, NOTHING_BACK, notes, "f")
    requires (0, 0) in NoteOf(notes, "id").shares
    ensures Follows(NoteOf(notes, "f").may, "b", "a")
    ensures MayOk(NoteOf(notes, "f").may, Loud(UsesIdentity(value), {}, NOTHING_BACK))
  {
    hide AliasProbe, DistinctNames, KeepsWrittenBack, Modified, ParamsMay, Loud, MayOk, Follows, CallOk, ReturnOk;
    var f := NoteOf(notes, "f");
    assert StmtOk(p, NOTHING_BACK, notes, [Param("a", true)], f, Call(["b"], "id", [Ref("a", [])]));
    assert ResultsOk(f.may, NoteOf(notes, "id"), ["b"], [Ref("a", [])]);
    assert (0, 0) in NoteOf(notes, "id").shares && [Ref("a", [])][0].Ref?;
  }

  /** The condition on programs excludes it, whatever is noted of its functions. */
  lemma {:induction false} ReturnedAliasExcluded(value: Val, notes: Notes)
    ensures !ProgramOk(IdentityProgram(value), NOTHING_BACK, notes)
  {
    hide IdentityProgram, Loud, NoteOf, UsesIdentity, FnOk;
    IdentityKnown(value);
    UsesWrites(value);
    var p := IdentityProgram(value);
    if ProgramOk(p, NOTHING_BACK, notes) {
      IdentityShares(p, notes);
      UsesFollows(value, p, notes);
      assert false;
    }
  }
}
