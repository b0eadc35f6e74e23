/**
 Where writing back a call's arguments stops preserving meaning: exactly where a written-back argument
 overlaps another memory argument.  The translation's check sees only some of these.
 */
module WritebackGap {
  import opened Options
  import opened MemoryLang
  import opened MemoryCopy
  import opened WritebackFrames
  import opened WritebackReturns
  import opened WritebackSound
  import opened WritebackAnalysis

  // ----- paths as segments -----

  function OnlyAtRoot(p: Path, k: int): int {
    if p == [] then k else 0
  }

  /** An object that holds only a number. */
  ghost function Number(k: int): Val {
    imap p: Path | true :: OnlyAtRoot(p, k)
  }

  ghost function SegOf(key: Key): Seg {
    match key
    case Member(name) => Field(name)
    case Element(index) => At(Lit(Number(index)))
  }

  ghost function SegsOf(p: Path): (r: seq<Seg>)
    ensures |r| == |p|
  {
    seq(|p|, i requires 0 <= i < |p| => SegOf(p[i]))
  }

  lemma {:induction false} SegsMean(p: Path, st: Store, ops: Ops)
    ensures EvalPath(SegsOf(p), st, ops) == p
  {
    hide EvalPath;
    var path := SegsOf(p);
    forall i | 0 <= i < |p| ensures EvalPath(path, st, ops)[i] == p[i] {
      EvalPathAt(path, st, ops, i);
    }
  }

  // ----- writing under one name, reading under another -----

  /** a.write = value; r = b.read; */
  ghost function Probe(a: string, write: Path, value: Val, r: string, b: string, read: Path): Stmt {
    Seq(Assign(a, SegsOf(write), Lit(value)), Assign(r, [], Read(b, SegsOf(read))))
  }

  lemma {:induction false} ProbeEffects(a: string, write: Path, value: Val, r: string, b: string, read: Path)
    requires write != []
    ensures var s := Probe(a, write, value, r, b, read);
            && (forall wb :: InPlace(s, wb) == {a}) && Rebound(s) == {r} && !EndsWithReturn(s)
            && (forall p, wb, notes, params, note :: StmtOk(p, wb, notes, params, note, s))
            && (forall fn :: Aliases(s, fn) == {})
  {
    assert SegsOf(write) != [];
  }

  lemma {:induction false} ReadDown(h: Heap, l: Loc, q: Path)
    ensures ReadLoc(h, l.Down(q)) == Get(ReadLoc(h, l), q)
  {
    hide Get;
    if l.oid < |h| {
      GetGet(h[l.oid], l.path, q);
    } else {
      ZeroPart(q);
    }
  }

  lemma {:induction false} ZeroPart(q: Path)
    ensures Get(Zero(), q) == Zero()
  {
  }

  lemma {:induction false} ReadBack(h: Heap, l: Loc, v: Val)
    requires l.oid < |h|
    ensures ReadLoc(WriteLoc(h, l, v), l) == v
  {
    hide Get, Set;
    assert l.Down([]) == l;
    ReadWritten(h, l, [], v);
    SetAll(ReadLoc(h, l), v);
  }

  /** By reference the read sees the write. */
  lemma {:induction false} ProbeByReference(p: Program, ops: Ops, fn: Fn, a: string, write: Path, value: Val,
          r: string, b: string, read: Path, h: Heap, env: Bindings, fuel: nat)
    requires a in env && b in env && r in env && env[a].oid < |h| && write != []
    requires env[a].Down(write) == env[b].Down(read)
    ensures ExecRef(p, ops, fn, Probe(a, write, value, r, b, read), h, env, fuel)
            == Runs(WriteLoc(h, env[a].Down(write), value) + [value], env[r := Loc(|h|, [])])
  {
    hide Get, Set, View, WriteLoc, ReadLoc, SegsOf, EvalPath;
    SegsMean(write, View(h, env), ops);
    var h' := WriteLoc(h, env[a].Down(write), value);
    SegsMean(read, View(h', env), ops);
    ViewAt(h', env, b);
    ReadDown(h', env[b], read);
    ReadBack(h, env[a].Down(write), value);
  }

  /** By copy it does not. */
  lemma {:induction false} ProbeByCopy(p: CopyProgram, ops: Ops, wb: Writebacks, fn: Fn, w: set<nat>, a: string,
          write: Path, value: Val, r: string, b: string, read: Path, st: Store, tmp: Packed, fuel: nat)
    requires a in st && b in st && r in st && a != b
    ensures var c := ExecCopy(p, ops, Translate(wb, fn, w, Probe(a, write, value, r, b, read)), st, tmp, fuel);
            && c.CRuns? && c.tmp == tmp && c.st.Keys == st.Keys && c.st[r] == Get(st[b], read)
  {
    hide Get, Set, SegsOf, EvalPath, Eval;
    var st' := st[a := Set(st[a], EvalPath(SegsOf(write), st, ops), Eval(Lit(value), st, ops))];
    ReadsPart(b, read, st', ops);
    NoPath(st', ops);
    SetAll(st'[r], Get(st[b], read));
    var (first, second) := (CAssign(a, SegsOf(write), Plain(Lit(value))), CAssign(r, [], Plain(Read(b, SegsOf(read)))));
    assert ExecCopy(p, ops, first, st, tmp, fuel) == CRuns(st', tmp);
    assert ExecCopy(p, ops, second, st', tmp, fuel) == CRuns(st'[r := Get(st[b], read)], tmp);
  }

  lemma {:induction false} ReadsPart(b: string, read: Path, st: Store, ops: Ops)
    requires b in st
    ensures Eval(Read(b, SegsOf(read)), st, ops) == Get(st[b], read)
  {
    hide Get, SegsOf, EvalPath;
    SegsMean(read, st, ops);
  }

  lemma {:induction false} NoPath(st: Store, ops: Ops)
    ensures EvalPath([], st, ops) == []
  {
  }

  /** Any value but the given one. */
  ghost function Other(v: Val): (r: Val)
    ensures r != v
  {
    var r := Number(v[[]] + 1);
    assert r[[]] != v[[]];
    r
  }

  /** Every name has an object of its own. */
  ghost predicate OneObjectEach(h: Heap, env: Bindings) {
    Allocated(h, env) && forall x, y :: x in env && y in env && x != y ==> Sep(env[x], env[y])
  }

  lemma {:induction false} OutsideInvariant(h: Heap, env: Bindings, loud: set<string>, may: set<(string, string)>)
    requires OneObjectEach(h, env) && MayOk(may, loud)
    ensures Inv(OutsideFrame(loud, may), h, env) && FrameOk(OutsideFrame(loud, may))
  {
    hide Sep;
  }

  lemma {:induction false} OutsideAgrees(loud: set<string>, may: set<(string, string)>, r: RefOutcome, c: CopyOutcome)
    requires Agree(OutsideFrame(loud, may), r, c)
    ensures SameRun(r, c)
  {
    hide Inv, View, ResultsKept;
    if r.Returns? {
      assert FinalValues([], {}, 0, r.h) == [];
    }
  }

  // ----- a callee for every overlap -----

  /** A name that is no parameter's. */
  function Unused(params: seq<Param>): string {
    if params == [] then "r" else Unused(params[..|params| - 1]) + params[|params| - 1].name
  }

  lemma {:induction false} UnusedLonger(params: seq<Param>)
    ensures |Unused(params)| > 0 && forall i :: 0 <= i < |params| ==> |params[i].name| < |Unused(params)|
    decreases |params|
  {
    if params != [] {
      UnusedLonger(params[..|params| - 1]);
    }
  }

  /** a.x = a.x for every listed parameter among the first n. */
  function Touches(params: seq<Param>, w: set<nat>, n: nat): Stmt
    requires n <= |params|
  {
    if n == 0 then Skip
    else
      var x := params[n - 1].name;
      Seq(Touches(params, w, n - 1),
          if n - 1 in w then Assign(x, [Field("x")], Read(x, [Field("x")])) else Skip)
  }

  /** Writes through parameter i and then reads through parameter j; may modify the parameters listed. */
  ghost function Witness(params: seq<Param>, w: set<nat>, i: nat, write: Path, value: Val, j: nat, read: Path): Fn
    requires i < |params| && j < |params|
  {
    var r := Unused(params);
    Fn(params, [r], true, [r],
       Seq(Touches(params, w, |params|), Probe(params[i].name, write, value, r, params[j].name, read)))
  }

  predicate MemoryAt(params: seq<Param>, w: set<nat>) {
    forall i :: i in w ==> i < |params| && params[i].mem
  }

  lemma {:induction false} TouchesWrite(params: seq<Param>, w: set<nat>, n: nat, wb: Writebacks, x: string)
    requires n <= |params|
    ensures x in InPlace(Touches(params, w, n), wb) <==> exists k :: 0 <= k < n && k in w && params[k].name == x
    ensures Rebound(Touches(params, w, n)) == {}
    ensures forall p, notes, all, note :: StmtOk(p, wb, notes, all, note, Touches(params, w, n))
    ensures !EndsWithReturn(Touches(params, w, n))
  {
    if n > 0 {
      TouchesWrite(params, w, n - 1, wb, x);
      if k :| 0 <= k < n && k in w && params[k].name == x && k == n - 1 {
        assert x in InPlace(Touches(params, w, n), wb);
      }
    }
  }

  /** A function of a program for the translation, with these parameters, of which it may modify those listed. */
  ghost predicate Callee(p: Program, wb: Writebacks, notes: Notes, f: string, params: seq<Param>, w: set<nat>) {
    && ProgramOk(p, wb, notes) && f in p
    && p[f].params == params && WritebackOf(wb, f) == w && Modified(p[f], wb) == w
  }

  /** Its memory parameters that are only read may share objects. */
  function WitnessNote(params: seq<Param>, w: set<nat>): Note {
    Note(set i, j | 0 <= i < |params| && 0 <= j < |params| && i != j && params[i].mem && params[j].mem
                    && i !in w && j !in w :: (params[i].name, params[j].name), {}, {})
  }

  lemma {:induction false} WitnessWrites(params: seq<Param>, w: set<nat>, i: nat, write: Path, value: Val, j: nat,
          read: Path, wb: Writebacks, x: string)
    requires i in w && i < |params| && j < |params| && write != []
    ensures x in InPlace(Witness(params, w, i, write, value, j, read).body, wb)
            <==> exists k :: 0 <= k < |params| && k in w && params[k].name == x
  {
    hide Probe, Touches;
    TouchesWrite(params, w, |params|, wb, x);
    ProbeEffects(params[i].name, write, value, Unused(params), params[j].name, read);
    var g := Witness(params, w, i, write, value, j, read);
    assert InPlace(g.body, wb) == InPlace(Touches(params, w, |params|), wb) + {params[i].name};
  }

  lemma {:induction false} WitnessNoteOk(params: seq<Param>, w: set<nat>, i: nat, write: Path, value: Val, j: nat,
          read: Path, wb: Writebacks)
    requires i in w && i < |params| && j < |params| && write != [] && Distinct(params)
    ensures var (g, note) := (Witness(params, w, i, write, value, j, read), WitnessNote(params, w));
            && MayOk(note.may, Loud(g, w, wb)) && ParamsMay(params, w, note.may)
            && ReturnOk(params, note, NamedRefs(g.results))
  {
    hide InPlace, Touches, Probe;
    var (g, note) := (Witness(params, w, i, write, value, j, read), WitnessNote(params, w));
    forall x, y | (x, y) in note.may ensures (y, x) in note.may && x !in Loud(g, w, wb) && y !in Loud(g, w, wb) {
      WitnessWrites(params, w, i, write, value, j, read, wb, x);
      WitnessWrites(params, w, i, write, value, j, read, wb, y);
    }
    UnusedLonger(params);
  }

  lemma {:induction false} WitnessFits(params: seq<Param>, w: set<nat>, i: nat, write: Path, value: Val, j: nat,
          read: Path)
    requires i in w && i < |params| && j < |params| && write != [] && Distinct(params) && MemoryAt(params, w)
    ensures var g := Witness(params, w, i, write, value, j, read);
            Callee(map["f" := g], map["f" := w], map["f" := WitnessNote(params, w)], "f", params, w)
  {
    hide SegsOf, Touches, InPlace, StmtOk, MayOk, ParamsMay, ReturnOk, WitnessNote, Loud;
    var g := Witness(params, w, i, write, value, j, read);
    var (p, wb, notes) := (map["f" := g], map["f" := w], map["f" := WitnessNote(params, w)]);
    forall k: nat | k < |params| ensures k in Modified(g, wb) <==> k in w {
      WitnessWrites(params, w, i, write, value, j, read, wb, params[k].name);
    }
    assert Modified(g, wb) == w;
    UnusedLonger(params);
    WitnessStatements(params, w, i, write, value, j, read, p, wb, notes, WitnessNote(params, w));
    WitnessNoteOk(params, w, i, write, value, j, read, wb);
    assert FnOk(p, wb, notes, "f");
  }

  lemma {:induction false} WitnessStatements(params: seq<Param>, w: set<nat>, i: nat, write: Path, value: Val, j: nat,
          read: Path, p: Program, wb: Writebacks, notes: Notes, note: Note)
    requires i < |params| && j < |params| && write != []
    ensures StmtOk(p, wb, notes, params, note, Witness(params, w, i, write, value, j, read).body)
    ensures Rebound(Witness(params, w, i, write, value, j, read).body) == {Unused(params)}
  {
    hide Probe, Touches;
    TouchesWrite(params, w, |params|, wb, "");
    ProbeEffects(params[i].name, write, value, Unused(params), params[j].name, read);
  }

  lemma {:induction false} TouchesByReference(p: Program, ops: Ops, fn: Fn, params: seq<Param>, w: set<nat>, n: nat,
          h: Heap, env: Bindings, fuel: nat)
    requires n <= |params| && forall i :: 0 <= i < |params| ==> params[i].name in env
    ensures ExecRef(p, ops, fn, Touches(params, w, n), h, env, fuel) == Runs(h, env)
    decreases n
  {
    hide Get, View, WriteLoc, ReadLoc;
    if n > 0 {
      TouchesByReference(p, ops, fn, params, w, n - 1, h, env, fuel);
      var x := params[n - 1].name;
      MemberPath(View(h, env), ops);
      ViewAt(h, env, x);
      ReadDown(h, env[x], [Member("x")]);
      WriteSame(h, env[x].Down([Member("x")]));
    }
  }

  lemma {:induction false} MemberPath(st: Store, ops: Ops)
    ensures EvalPath([Field("x")], st, ops) == [Member("x")]
  {
    assert [Field("x")][..0] == [];
  }

  lemma {:induction false} TouchesByCopy(p: CopyProgram, ops: Ops, wb: Writebacks, fn: Fn, v: set<nat>,
          params: seq<Param>, w: set<nat>, n: nat, st: Store, tmp: Packed, fuel: nat)
    requires n <= |params| && forall i :: 0 <= i < |params| ==> params[i].name in st
    ensures ExecCopy(p, ops, Translate(wb, fn, v, Touches(params, w, n)), st, tmp, fuel) == CRuns(st, tmp)
    decreases n
  {
    hide Get, Set;
    if n > 0 {
      TouchesByCopy(p, ops, wb, fn, v, params, w, n - 1, st, tmp, fuel);
      var x := params[n - 1].name;
      MemberPath(st, ops);
      SetGet(st[x], [Member("x")]);
      assert st[x := st[x]] == st;
    }
  }

  /** The parts of two arguments that the callee writes and reads. */
  ghost predicate Meet(params: seq<Param>, w: set<nat>, args: seq<Arg>, i: nat, write: Path, j: nat, read: Path,
          st: Store, ops: Ops)
    requires |args| == |params|
  {
    && i in w && i < |params| && j < |params| && i != j && params[i].mem && params[j].mem && write != []
    && args[i].Ref? && args[j].Ref? && args[i].x == args[j].x
    && EvalPath(args[i].path, st, ops) + write == EvalPath(args[j].path, st, ops) + read
  }

  /** Entering the callee: its parameters denote the arguments' parts. */
  lemma {:induction false} WitnessEntered(params: seq<Param>, w: set<nat>, args: seq<Arg>, i: nat, write: Path,
          value: Val, j: nat, read: Path, h: Heap, env: Bindings, ops: Ops)
    requires |args| == |params| && Meet(params, w, args, i, write, j, read, View(h, env), ops)
    requires Distinct(params) && Allocated(h, env) && RootsDeclared(args, env)
    ensures var g := Witness(params, w, i, write, value, j, read);
            var (h1, env1) := Enter(g, args, h, env, ops);
            && |h| < |h1| && (forall k :: 0 <= k < |params| ==> params[k].name in env1) && Unused(params) in env1
            && env1[params[i].name].oid < |h1|
            && env1[params[i].name].Down(write) == env1[params[j].name].Down(read)
  {
    hide EvalPath, View, ArgValue, Bind, Named, BoundAs;
    BindFacts(params, args, h, env, ops);
    var (h', locs) := Bind(params, args, h, env, ops);
    NamedAt(params, locs);
    UnusedLonger(params);
    OneRebound(Unused(params), Zero(), h', Named(params, locs));
    PartsMeet(params, w, args, i, write, j, read, h, env, ops, h', locs);
  }

  lemma {:induction false} PartsMeet(params: seq<Param>, w: set<nat>, args: seq<Arg>, i: nat, write: Path, j: nat,
          read: Path, h: Heap, env: Bindings, ops: Ops, h': Heap, locs: seq<Loc>)
    requires |args| == |params| == |locs| && Meet(params, w, args, i, write, j, read, View(h, env), ops)
    requires Allocated(h, env) && RootsDeclared(args, env)
    requires BoundAs(params, args, h, env, ops, h', locs, i) && BoundAs(params, args, h, env, ops, h', locs, j)
    ensures locs[i].oid < |h| && locs[i].Down(write) == locs[j].Down(read)
  {
    hide EvalPath, View, ArgValue;
    var (p, q) := (EvalPath(args[i].path, View(h, env), ops), EvalPath(args[j].path, View(h, env), ops));
    var root := env[args[i].x].path;
    assert (root + p) + write == root + (p + write) && (root + q) + read == root + (q + read);
  }

  lemma {:induction false} OneRebound(x: string, v: Val, h: Heap, env: Bindings)
    ensures Rebind([x], [v], h, env) == (h + [v], env[x := Loc(|h|, [])])
    ensures MemoryLang.Zeros(1) == [Zero()]
  {
    assert [x][..0] == [] && [v][..0] == [];
  }

  /** By reference the callee returns the written value. */
  lemma {:induction false} WitnessBody(params: seq<Param>, w: set<nat>, args: seq<Arg>, i: nat, write: Path,
          value: Val, j: nat, read: Path, h: Heap, env: Bindings, ops: Ops, fuel: nat)
    requires |args| == |params| && Meet(params, w, args, i, write, j, read, View(h, env), ops)
    requires Distinct(params) && Allocated(h, env) && RootsDeclared(args, env) && fuel > 0
    ensures var g := Witness(params, w, i, write, value, j, read);
            var r := BodyRef(map["f" := g], ops, g, args, h, env, fuel);
            r.Returns? && |r.locs| == 1 && r.locs[0].oid < |r.h| && ReadLoc(r.h, r.locs[0]) == value
  {
    hide Get, Set, WriteLoc, View, Enter, Touches, Probe, EvalPath, Rebind, ReadLoc, ReturnNames;
    assert write != [];
    var g := Witness(params, w, i, write, value, j, read);
    var p := map["f" := g];
    WitnessEntered(params, w, args, i, write, value, j, read, h, env, ops);
    var (h1, env1) := Enter(g, args, h, env, ops);
    var x := Unused(params);
    TouchesByReference(p, ops, g, params, w, |params|, h1, env1, fuel - 1);
    ProbeByReference(p, ops, g, params[i].name, write, value, x, params[j].name, read, h1, env1, fuel - 1);
    var h2 := WriteLoc(h1, env1[params[i].name].Down(write), value) + [value];
    var env2 := env1[x := Loc(|h1|, [])];
    assert ExecRef(p, ops, g, g.body, h1, env1, fuel - 1) == Runs(h2, env2);
    LastObject(h2, env2, x, value);
    ViewAt(h2, env2, x);
    OneNamed(g, x, h2, env2, ops);
  }

  /** One memory reference is bound to its object. */
  lemma {:induction false} OneArgument(mem: Param, a: Arg, h: Heap, env: Bindings, ops: Ops)
    requires mem.mem && a.Ref? && a.x in env
    ensures Bind([mem], [a], h, env, ops) == (h, [env[a.x].Down(EvalPath(a.path, View(h, env), ops))])
  {
    hide View, EvalPath, ArgValue;
    assert [mem][..0] == [] && [a][..0] == [];
    assert Bind([], [], h, env, ops) == (h, []);
    assert [] + [env[a.x].Down(EvalPath(a.path, View(h, env), ops))] == [env[a.x].Down(EvalPath(a.path, View(h, env), ops))];
  }

  /** A function that returns one named result. */
  lemma {:induction false} OneNamed(g: Fn, x: string, h: Heap, env: Bindings, ops: Ops)
    requires g.named && g.results == [x] && x in env
    ensures ReturnNames(g, h, env, ops) == Returns(h, env, [env[x]])
  {
    hide View, EvalPath, ArgValue;
    var (params, es) := (AllMemory(1), NamedRefs([x]));
    assert es == [Ref(x, [])] && es[..0] == [] && params[..0] == [] && params[0].mem;
    assert Bind(params[..0], es[..0], h, env, ops) == (h, []);
    NoPath(View(h, env), ops);
    assert env[x].path + [] == env[x].path;
    assert es[0].Ref? && es[0].x == x && es[0].path == [] && |es| == |params| == 1;
    assert env[x].Down([]) == env[x];
    assert Bind(params, es, h, env, ops) == (h, [] + [env[x]]);
  }

  /** By reference the call returns the written value. */
  lemma {:induction false} WitnessByReference(params: seq<Param>, w: set<nat>, args: seq<Arg>, i: nat, write: Path,
          value: Val, j: nat, read: Path, s: string, h: Heap, env: Bindings, ops: Ops, fuel: nat)
    requires |args| == |params| && Meet(params, w, args, i, write, j, read, View(h, env), ops)
    requires Distinct(params) && Allocated(h, env) && RootsDeclared(args, env) && s in env && fuel > 0
    ensures var g := Witness(params, w, i, write, value, j, read);
            var r := ExecRef(map["f" := g], ops, Outside(), Call([s], "f", args), h, env, fuel);
            r.Runs? && s in r.env && View(r.h, r.env)[s] == value
  {
    hide View, BodyRef, EvalPath, ReadLoc;
    var g := Witness(params, w, i, write, value, j, read);
    WitnessBody(params, w, args, i, write, value, j, read, h, env, ops, fuel);
    var r := BodyRef(map["f" := g], ops, g, args, h, env, fuel);
    OneResultBound(s, r.locs, env);
    ViewAt(r.h, env[s := r.locs[0]], s);
  }

  lemma {:induction false} OneResultBound(s: string, locs: seq<Loc>, env: Bindings)
    requires |locs| == 1
    ensures BindResults([s], locs, env) == env[s := locs[0]]
  {
    assert [s][..0] == [] && locs[..0] == [];
  }

  lemma {:induction false} LastObject(h: Heap, env: Bindings, x: string, v: Val)
    requires h != [] && h[|h| - 1] == v && x in env && env[x] == Loc(|h| - 1, [])
    ensures x in View(h, env) && View(h, env)[x] == v
  {
    hide Get;
    GetAll(v);
  }

  lemma {:induction false} ReadsLength(params: seq<Param>, w: set<nat>, n: nat)
    requires n <= |params|
    ensures |WritebackReads(params, w, n)| == |Indices(w, n)|
    decreases n
  {
    if n > 0 {
      ReadsLength(params, w, n - 1);
    }
  }

  /** By copy the callee's body returns what the part read held before. */
  lemma {:induction false} WitnessReturns(params: seq<Param>, w: set<nat>, i: nat, write: Path, value: Val, j: nat,
          read: Path, vals: seq<Val>, tp: CopyProgram, wb: Writebacks, ops: Ops, tmp: Packed, fuel: nat)
    requires i < |params| && j < |params| && i != j && |vals| == |params| && Distinct(params)
    requires WritebackOf(wb, "f") == w
    ensures var tg := TranslateFn(wb, "f", Witness(params, w, i, write, value, j, read));
            var c := ExecCopy(tp, ops, tg.body, EnterCopy(tg, vals), tmp, fuel);
            c.CReturns? && |c.vals| == 1 + |Indices(w, |params|)| && c.vals[0] == Get(vals[j], read)
  {
    hide Get, Touches, Probe, AssignAll, EvalAll, Translate, Indices, WritebackReads, ParamNames;
    var g := Witness(params, w, i, write, value, j, read);
    var tg := TranslateFn(wb, "f", g);
    var x := Unused(params);
    WitnessEnds(params, w, i, write, value, j, read);
    var st := EnterCopy(tg, vals);
    WitnessStore(params, vals, x);
    var (touch, probe) := (Touches(params, w, |params|), Probe(params[i].name, write, value, x, params[j].name, read));
    TouchesByCopy(tp, ops, wb, g, w, params, w, |params|, st, tmp, fuel);
    ProbeByCopy(tp, ops, wb, g, w, params[i].name, write, value, x, params[j].name, read, st, tmp, fuel);
    TranslateSeq(wb, g, w, touch, probe);
    var c := ExecCopy(tp, ops, Translate(wb, g, w, probe), st, tmp, fuel);
    assert ExecCopy(tp, ops, Translate(wb, g, w, g.body), st, tmp, fuel) == c;
    var es := ArgExprs(NamedRefs(g.results)) + WritebackReads(params, w, |params|);
    assert es[0] == Read(x, []);
    ReadsLength(params, w, |params|);
    EvalAllAt(es, c.st, ops, 0);
    ReadsName(x, c.st, ops);
  }

  lemma {:induction false} TranslateSeq(wb: Writebacks, g: Fn, w: set<nat>, first: Stmt, second: Stmt)
    ensures Translate(wb, g, w, Seq(first, second)) == CSeq(Translate(wb, g, w, first), Translate(wb, g, w, second))
  {
  }

  lemma {:induction false} WitnessEnds(params: seq<Param>, w: set<nat>, i: nat, write: Path, value: Val, j: nat,
          read: Path)
    requires i < |params| && j < |params|
    ensures !EndsWithReturn(Witness(params, w, i, write, value, j, read).body)
  {
    hide Touches;
    assert !EndsWithReturn(Probe(params[i].name, write, value, Unused(params), params[j].name, read));
  }

  lemma {:induction false} WitnessStore(params: seq<Param>, vals: seq<Val>, x: string)
    requires |vals| == |params| && Distinct(params) && x == Unused(params)
    ensures var st := AssignAll([x], MemoryLang.Zeros(1), AssignAll(ParamNames(params), vals, map[]));
            x in st && forall k :: 0 <= k < |params| ==> params[k].name in st && st[params[k].name] == vals[k]
  {
    hide ParamNames;
    UnusedLonger(params);
    NamesOf(params);
    var names := ParamNames(params);
    AssignedAt(names, vals);
    assert [x][..0] == [] && MemoryLang.Zeros(1)[..0] == [];
    var before := AssignAll(names, vals, map[]);
    assert AssignAll([x], MemoryLang.Zeros(1), before) == before[x := MemoryLang.Zeros(1)[0]];
    forall k | 0 <= k < |params| ensures params[k].name in before && before[params[k].name] == vals[k] {
      assert names[k] == params[k].name;
    }
  }

  /** Assigning back never fails. */
  lemma {:induction false} BacksNeverFail(tp: CopyProgram, ops: Ops, args: seq<Arg>, w: set<nat>, n: nat, first: nat,
          total: nat, st: Store, tmp: Packed, fuel: nat)
    requires n <= |args| && forall i :: 0 <= i < |args| && args[i].Ref? ==> args[i].x in st
    ensures var c := ExecCopy(tp, ops, BackAssigns(args, w, n, first, total, map[]), st, tmp, fuel);
            c.CRuns? && c.tmp == tmp && c.st.Keys == st.Keys
    decreases n
  {
    hide Set, EvalPath, EvalCopy, Indices;
    if n > 0 {
      BacksNeverFail(tp, ops, args, w, n - 1, first, total, st, tmp, fuel);
      var c := ExecCopy(tp, ops, BackAssigns(args, w, n - 1, first, total, map[]), st, tmp, fuel);
      assert ExecCopy(tp, ops, HoistAgain(map[], n - 1), c.st, tmp, fuel) == c;
      assert ExecCopy(tp, ops, CSeq(BackAssigns(args, w, n - 1, first, total, map[]), HoistAgain(map[], n - 1)), st, tmp, fuel) == c;
    }
  }

  /** By copy the call returns what the part read held before. */
  lemma {:induction false} WitnessByCopy(params: seq<Param>, w: set<nat>, args: seq<Arg>, i: nat, write: Path,
          value: Val, j: nat, read: Path, s: string, st: Store, ops: Ops, tmp: Packed, fuel: nat)
    requires |args| == |params| && Meet(params, w, args, i, write, j, read, st, ops) && Distinct(params)
    requires s in st && fuel > 0 && forall k :: 0 <= k < |args| && args[k].Ref? ==> args[k].x in st
    ensures var (p, wb) := (map["f" := Witness(params, w, i, write, value, j, read)], map["f" := w]);
            var c := ExecCopy(TranslateProgram(wb, p), ops, TranslateCall(wb, [s], "f", args, map[]), st, tmp, fuel);
            && c.CRuns? && s in c.st
            && c.st[s] == Get(Get(st[args[j].x], EvalPath(args[j].path, st, ops)), read)
  {
    hide Get, EvalAll, EvalPath, TranslateFn, Witness, BackAssigns, ResultAssigns, Indices, Pack, EnterCopy, ArgExprs,
         AssignAll;
    var (p, wb) := (map["f" := Witness(params, w, i, write, value, j, read)], map["f" := w]);
    var tp := TranslateProgram(wb, p);
    var vals := EvalAll(ArgExprs(args), st, ops);
    WitnessTranslated(params, w, i, write, value, j, read, wb);
    ArgumentValue(args, st, ops, j);
    WitnessReturns(params, w, i, write, value, j, read, vals, tp, wb, ops, Tuple([]), fuel - 1);
    var tg := TranslateFn(wb, "f", p["f"]);
    assert tp["f"] == tg;
    var all := ExecCopy(tp, ops, tg.body, EnterCopy(tg, vals), Tuple([]), fuel - 1).vals;
    assert ExecCopy(tp, ops, CCall("f", ArgExprs(args)), st, tmp, fuel) == CRuns(st, Pack(all));
    BacksNeverFail(tp, ops, args, w, |args|, 1, |all|, st, Pack(all), fuel);
    var back := ExecCopy(tp, ops, BackAssigns(args, w, |args|, 1, |all|, map[]), st, Pack(all), fuel);
    ResultsRun(tp, ops, [s], 1, back.st, all, fuel);
    OneAssigned(s, all, back.st);
  }

  lemma {:induction false} WitnessTranslated(params: seq<Param>, w: set<nat>, i: nat, write: Path, value: Val, j: nat,
          read: Path, wb: Writebacks)
    requires i < |params| && j < |params|
    ensures |TranslateFn(wb, "f", Witness(params, w, i, write, value, j, read)).params| == |params|
  {
    hide Translate, Probe, Touches;
  }

  lemma {:induction false} OneAssigned(s: string, all: seq<Val>, st: Store)
    requires all != []
    ensures [s][..1] == [s] && AssignAll([s], all[..1], st) == st[s := all[0]]
  {
    assert [s][..0] == [] && all[..1][..0] == [] && all[..1][0] == all[0];
  }

  /**
   By reference the callee sees its own write through the other argument; by copy it does not.  The two
   agree only where the part already had the written value.
   */
  lemma {:induction false} OverlapIsLost(params: seq<Param>, w: set<nat>, args: seq<Arg>, i: nat, write: Path,
          value: Val, j: nat, read: Path, s: string, h: Heap, env: Bindings, ops: Ops, tmp: Packed, fuel: nat)
    requires |args| == |params| && Meet(params, w, args, i, write, j, read, View(h, env), ops)
    requires Distinct(params) && Allocated(h, env) && RootsDeclared(args, env) && s in env && fuel > 0
    ensures var (p, wb) := (map["f" := Witness(params, w, i, write, value, j, read)], map["f" := w]);
            var r := ExecRef(p, ops, Outside(), Call([s], "f", args), h, env, fuel);
            var c := ExecCopy(TranslateProgram(wb, p), ops, TranslateCall(wb, [s], "f", args, map[]), View(h, env), tmp, fuel);
            && r.Runs? && s in r.env && View(r.h, r.env)[s] == value
            && c.CRuns? && s in c.st
            && c.st[s] == Get(View(h, env)[args[j].x], EvalPath(args[j].path, View(h, env), ops) + read)
  {
    hide ExecRef, ExecCopy, TranslateCall, TranslateProgram, Get, View, Witness, EvalPath;
    var st := View(h, env);
    WitnessByReference(params, w, args, i, write, value, j, read, s, h, env, ops, fuel);
    WitnessByCopy(params, w, args, i, write, value, j, read, s, st, ops, tmp, fuel);
    GetGet(st[args[j].x], EvalPath(args[j].path, st, ops), read);
  }

  // ----- calls: exactly where the translation is right -----

  ghost predicate PreservedFor(p: Program, wb: Writebacks, f: string, rs: seq<string>, args: seq<Arg>, h: Heap,
          env: Bindings, ops: Ops, tmp: Packed, fuel: nat)
  {
    SameRun(ExecRef(p, ops, Outside(), Call(rs, f, args), h, env, fuel),
            ExecCopy(TranslateProgram(wb, p), ops, TranslateCall(wb, rs, f, args, map[]), View(h, env), tmp, fuel))
  }

  /** A statement and its translation end alike, whenever the statement is not wrong. */
  ghost predicate StatementPreservedFor(p: Program, wb: Writebacks, s: Stmt, h: Heap, env: Bindings, ops: Ops,
          tmp: Packed, fuel: nat)
  {
    SameRun(ExecRef(p, ops, Outside(), s, h, env, fuel),
            ExecCopy(TranslateProgram(wb, p), ops, Translate(wb, Outside(), {}, s), View(h, env), tmp, fuel))
  }

  /**
   In every program for the translation, calls of every function with these parameters that may modify
   those listed end as their translations do, whenever they are not wrong.
   */
  ghost predicate AllPreserved(params: seq<Param>, w: set<nat>, args: seq<Arg>, h: Heap, env: Bindings, ops: Ops) {
    forall p, wb, notes, f, rs, tmp, fuel: nat :: Callee(p, wb, notes, f, params, w) ==>
      PreservedFor(p, wb, f, rs, args, h, env, ops, tmp, fuel)
  }

  ghost predicate CallSite(params: seq<Param>, w: set<nat>, args: seq<Arg>, h: Heap, env: Bindings) {
    && |args| == |params| && Distinct(params) && MemoryAt(params, w) && RootsDeclared(args, env)
    && OneObjectEach(h, env)
  }

  lemma {:induction false} SiteReady(p: Program, wb: Writebacks, notes: Notes, f: string, params: seq<Param>,
          w: set<nat>, args: seq<Arg>, h: Heap, env: Bindings, ops: Ops)
    requires CallSite(params, w, args, h, env) && Callee(p, wb, notes, f, params, w)
    requires Disjoint(params, w, args, View(h, env), ops) && ArgumentsSpared(w, args, View(h, env), ops)
    ensures CallReady(OutsideFrame(env.Keys, {}), p[f], w, args, h, env, ops)
  {
    hide Inv, Disjoint, ArgumentsSpared, View, Modified, Sep, FrameOk, ProgramOk, OneObjectEach;
    OutsideInvariant(h, env, env.Keys, {});
    Checked(p, wb, notes, f);
  }

  lemma {:induction false} DisjointPreserved(p: Program, wb: Writebacks, notes: Notes, f: string, rs: seq<string>,
          params: seq<Param>, w: set<nat>, args: seq<Arg>, h: Heap, env: Bindings, ops: Ops, tmp: Packed, fuel: nat)
    requires CallSite(params, w, args, h, env) && Callee(p, wb, notes, f, params, w)
    requires Disjoint(params, w, args, View(h, env), ops) && ArgumentsSpared(w, args, View(h, env), ops)
    ensures PreservedFor(p, wb, f, rs, args, h, env, ops, tmp, fuel)
  {
    hide Inv, Disjoint, ArgumentsSpared, View, ExecCopy, TranslateCall, TranslateProgram, CallReady, Modified, CallRef,
         HoistsRepeat, SameRun, ProgramOk, CallSite, BoundTo;
    SiteReady(p, wb, notes, f, params, w, args, h, env, ops);
    NoHoistsRepeat(TranslateProgram(wb, p), ops, w, args, View(h, env), fuel);
    if |rs| == |p[f].results| && Declared(rs, env) {
      CallRuns(p, wb, notes, ops, OutsideFrame(env.Keys, {}), rs, f, args, map[], h, env, tmp, fuel);
    } else {
      WrongIsSame(ExecCopy(TranslateProgram(wb, p), ops, TranslateCall(wb, rs, f, args, map[]), View(h, env), tmp, fuel));
    }
  }

  lemma {:induction false} WrongIsSame(c: CopyOutcome)
    ensures SameRun(Wrong, c)
  {
  }

  /** Two overlapping parts have a common part below both. */
  lemma {:induction false} CommonPart(p: Path, q: Path) returns (write: Path, read: Path)
    requires !Diverge(p, q)
    ensures write != [] && p + write == q + read
  {
    var below := [Member("x")];
    if p <= q {
      write, read := q[|p|..] + below, below;
      assert p + write == (p + q[|p|..]) + below;
    } else {
      write, read := below, p[|q|..] + below;
      assert q + read == (q + p[|q|..]) + below;
    }
  }

  lemma {:induction false} OverlapSeen(params: seq<Param>, w: set<nat>, args: seq<Arg>, h: Heap, env: Bindings, ops: Ops)
    requires CallSite(params, w, args, h, env) && !Disjoint(params, w, args, View(h, env), ops)
    ensures !AllPreserved(params, w, args, h, env, ops)
  {
    hide ExecRef, ExecCopy, TranslateCall, TranslateProgram, Get, View, Witness, EvalPath, Diverge, Sep, Callee,
         WitnessNote;
    var st := View(h, env);
    var i, j :| i in w && 0 <= i < |args| && 0 <= j < |args| && i != j && params[j].mem && args[i].Ref? && args[j].Ref?
      && args[i].x == args[j].x && !Diverge(EvalPath(args[i].path, st, ops), EvalPath(args[j].path, st, ops));
    var write, read := CommonPart(EvalPath(args[i].path, st, ops), EvalPath(args[j].path, st, ops));
    var other := Other(Get(st[args[j].x], EvalPath(args[j].path, st, ops) + read));
    var g := Witness(params, w, i, write, other, j, read);
    WitnessFits(params, w, i, write, other, j, read);
    var s := args[i].x;
    OverlapIsLost(params, w, args, i, write, other, j, read, s, h, env, ops, Tuple([]), 1);
    assert !PreservedFor(map["f" := g], map["f" := w], "f", [s], args, h, env, ops, Tuple([]), 1);
  }

  /**
   A call whose argument paths read no part that is written back before them is translated right, for every
   function with these parameters that may modify those listed, in every program, if and only if at the call
   the written-back arguments overlap no other memory argument.
   */
  lemma {:induction false} CallsExactly(params: seq<Param>, w: set<nat>, args: seq<Arg>, h: Heap, env: Bindings,
          ops: Ops)
    requires CallSite(params, w, args, h, env) && ArgumentsSpared(w, args, View(h, env), ops)
    ensures AllPreserved(params, w, args, h, env, ops) <==> Disjoint(params, w, args, View(h, env), ops)
  {
    hide View, Disjoint, Callee, CallSite, ArgumentsSpared, PreservedFor;
    SiteLengths(params, w, args, h, env);
    if Disjoint(params, w, args, View(h, env), ops) {
      forall p, wb, notes, f, rs, tmp, fuel: nat | Callee(p, wb, notes, f, params, w)
        ensures PreservedFor(p, wb, f, rs, args, h, env, ops, tmp, fuel)
      {
        DisjointPreserved(p, wb, notes, f, rs, params, w, args, h, env, ops, tmp, fuel);
      }
    } else {
      OverlapSeen(params, w, args, h, env, ops);
    }
  }

  lemma {:induction false} SiteLengths(params: seq<Param>, w: set<nat>, args: seq<Arg>, h: Heap, env: Bindings)
    requires CallSite(params, w, args, h, env)
    ensures |args| == |params|
  {
  }

  // ----- paths of members -----

  predicate StaticArguments(args: seq<Arg>) {
    forall i :: 0 <= i < |args| && args[i].Ref? ==> Static(args[i].path)
  }

  /** Paths of members part exactly if neither is a prefix of the other, and then they diverge. */
  lemma {:induction false} StaticParted(p: seq<Seg>, q: seq<Seg>, st: Store, ops: Ops)
    requires Static(p) && Static(q)
    ensures Parted(p, q) <==> !(p <= q) && !(q <= p)
    ensures Parted(p, q) <==> Diverge(EvalPath(p, st, ops), EvalPath(q, st, ops))
  {
    hide EvalPath;
    if Parted(p, q) {
      PartedDiverge(p, q, st, ops);
    } else {
      var n := if |p| <= |q| then |p| else |q|;
      forall k | 0 <= k < n ensures p[k] == q[k] && EvalPath(p, st, ops)[k] == EvalPath(q, st, ops)[k] {
        assert !Differ(p[k], q[k]) && p[k].Field? && q[k].Field?;
        EvalPathAt(p, st, ops, k);
        EvalPathAt(q, st, ops, k);
      }
      assert if |p| <= |q| then p <= q else q <= p;
      var (a, b) := (EvalPath(p, st, ops), EvalPath(q, st, ops));
      assert if |p| <= |q| then a <= b else b <= a;
    }
  }

  lemma {:induction false} StaticNames(path: seq<Seg>)
    requires Static(path)
    ensures PathNames(path) == {}
    decreases |path|
  {
    if path != [] {
      var front := path[..|path| - 1];
      assert Static(front) by {
        forall i | 0 <= i < |front| ensures front[i].Field? { assert front[i] == path[i]; }
      }
      StaticNames(front);
    }
  }

  /** For arguments that are paths of members, being apart is what counts. */
  lemma {:induction false} StaticDisjoint(params: seq<Param>, w: set<nat>, args: seq<Arg>, st: Store, ops: Ops)
    requires |args| == |params| && StaticArguments(args) && MemoryAt(params, w)
    ensures Disjoint(params, w, args, st, ops) <==> ArgumentsApart(params, w, args)
    ensures Steady(w, args)
  {
    hide EvalPath, Parted, Diverge, Static, PathNames;
    forall i | 0 <= i < |args| && args[i].Ref? ensures PathNames(args[i].path) == {} {
      StaticNames(args[i].path);
    }
    forall i, j | 0 <= i < |args| && 0 <= j < |args| && args[i].Ref? && args[j].Ref?
      ensures Parted(args[i].path, args[j].path)
              <==> Diverge(EvalPath(args[i].path, st, ops), EvalPath(args[j].path, st, ops))
    {
      StaticParted(args[i].path, args[j].path, st, ops);
    }
  }

  /**
   For arguments that are paths of members: every function with these parameters that may modify those
   listed is preserved if and only if the written-back arguments are apart from all other memory arguments.
   */
  lemma {:induction false} StaticCallsExactly(g: Fn, w: set<nat>, args: seq<Arg>, h: Heap, env: Bindings, ops: Ops)
    requires CallSite(g.params, w, args, h, env) && StaticArguments(args)
    ensures CallOk(g, w, args) <==> AllPreserved(g.params, w, args, h, env, ops)
  {
    hide View, Disjoint, CallSite, AllPreserved, Steady, ArgumentsApart, StaticArguments, ArgumentsSpared;
    SiteLengths(g.params, w, args, h, env);
    SiteMemory(g.params, w, args, h, env);
    StaticDisjoint(g.params, w, args, View(h, env), ops);
    SteadySpared(w, args, View(h, env), ops);
    CallsExactly(g.params, w, args, h, env, ops);
  }

  lemma {:induction false} SiteMemory(params: seq<Param>, w: set<nat>, args: seq<Arg>, h: Heap, env: Bindings)
    requires CallSite(params, w, args, h, env)
    ensures MemoryAt(params, w)
  {
  }

  // ----- the overlap check of the translation -----

  /** The text of one path is the text of the other, or extends it by a member or an index. */
  ghost predicate Within(inner: Arg, outer: Arg) {
    inner.Ref? && outer.Ref? && inner.x == outer.x && outer.path <= inner.path
  }

  /** The check compares written-back arguments with each other only, and their texts only. */
  ghost predicate CheckedArguments(w: set<nat>, args: seq<Arg>) {
    forall i, j :: i in w && j in w && 0 <= i < |args| && 0 <= j < |args| && i != j ==> !Within(args[i], args[j])
  }

  /** It suffices if every memory argument is written back and is a path of members. */
  lemma {:induction false} CheckSuffices(params: seq<Param>, w: set<nat>, args: seq<Arg>)
    requires |args| == |params| && StaticArguments(args) && MemoryAt(params, w)
    requires forall i :: 0 <= i < |params| && params[i].mem ==> i in w
    ensures CheckedArguments(w, args) <==> ArgumentsApart(params, w, args)
  {
    hide Parted, Static;
    forall i, j | 0 <= i < |args| && 0 <= j < |args| && args[i].Ref? && args[j].Ref?
      ensures Parted(args[i].path, args[j].path) <==> !(args[i].path <= args[j].path) && !(args[j].path <= args[i].path)
    {
      StaticParted(args[i].path, args[j].path, map[], (n, vs) => Zero());
    }
    if CheckedArguments(w, args) {
      forall i, j | i in w && 0 <= i < |args| && 0 <= j < |args| && i != j && params[j].mem ensures Apart(args[i], args[j]) {
        assert !Within(args[i], args[j]) && !Within(args[j], args[i]);
      }
    }
    if ArgumentsApart(params, w, args) {
      forall i, j | i in w && j in w && 0 <= i < |args| && 0 <= j < |args| && i != j ensures !Within(args[i], args[j]) {
        assert Apart(args[i], args[j]);
      }
    }
  }

  const BOTH: seq<Param> := [Param("a", true), Param("b", true)]

  /** f(p, p), which modifies its first parameter and may read its second. */
  const TWICE: seq<Arg> := [Ref("p", []), Ref("p", [])]

  lemma {:induction false} TwiceOverlaps(st: Store, ops: Ops)
    ensures Steady({0}, TWICE) && !Disjoint(BOTH, {0}, TWICE, st, ops)
  {
    hide EvalPath;
    assert 0 in {0} && TWICE[0].x == TWICE[1].x && BOTH[1].mem;
    assert !Diverge(EvalPath(TWICE[0].path, st, ops), EvalPath(TWICE[1].path, st, ops));
  }

  /** The check accepts passing one object to a modified parameter and to one only read; the call is never safe. */
  lemma {:induction false} ReadArgumentMissed(h: Heap, env: Bindings, ops: Ops)
    requires CallSite(BOTH, {0}, TWICE, h, env)
    ensures CheckedArguments({0}, TWICE) && !AllPreserved(BOTH, {0}, TWICE, h, env, ops)
  {
    hide CallSite, AllPreserved, View, Disjoint, Steady, ArgumentsSpared;
    TwiceOverlaps(View(h, env), ops);
    SteadySpared({0}, TWICE, View(h, env), ops);
    CallsExactly(BOTH, {0}, TWICE, h, env, ops);
  }

  /** f(p[i], p[j]) */
  function Elements(): seq<Arg> {
    [Ref("p", [At(Read("i", []))]), Ref("p", [At(Read("j", []))])]
  }

  lemma {:induction false} ElementsOverlap(st: Store, ops: Ops)
    requires "i" in st && "j" in st
    ensures CheckedArguments({0, 1}, Elements()) && Steady({0, 1}, Elements())
    ensures Disjoint(BOTH, {0, 1}, Elements(), st, ops) <==> Scalar(st["i"]) != Scalar(st["j"])
  {
    hide EvalPath;
    IndexPath("i", st, ops);
    IndexPath("j", st, ops);
    var args := Elements();
    assert args[0].path[0] != args[1].path[0];
    var (p, q) := (EvalPath(args[0].path, st, ops), EvalPath(args[1].path, st, ops));
    assert p[0] == Element(Scalar(st["i"])) && q[0] == Element(Scalar(st["j"]));
    assert Diverge(p, q) <==> Scalar(st["i"]) != Scalar(st["j"]);
    assert Diverge(q, p) <==> Diverge(p, q);
    assert BOTH[0].mem && BOTH[1].mem && 0 in {0, 1};
  }

  /**
   The check accepts elements at differently written indices, both modified; the call is translated right
   for all functions if and only if the indices have different values.
   */
  lemma {:induction false} EqualIndicesMissed(h: Heap, env: Bindings, ops: Ops)
    requires CallSite(BOTH, {0, 1}, Elements(), h, env) && "i" in env && "j" in env
    ensures CheckedArguments({0, 1}, Elements())
    ensures AllPreserved(BOTH, {0, 1}, Elements(), h, env, ops)
            <==> Scalar(View(h, env)["i"]) != Scalar(View(h, env)["j"])
  {
    hide CallSite, AllPreserved, View, Disjoint, Steady, CheckedArguments, ArgumentsSpared;
    ElementsOverlap(View(h, env), ops);
    SteadySpared({0, 1}, Elements(), View(h, env), ops);
    CallsExactly(BOTH, {0, 1}, Elements(), h, env, ops);
  }

  lemma {:induction false} IndexPath(x: string, st: Store, ops: Ops)
    requires x in st
    ensures EvalPath([At(Read(x, []))], st, ops) == [Element(Scalar(st[x]))] && PathNames([At(Read(x, []))]) == {x}
  {
    hide Get;
    var path := [At(Read(x, []))];
    assert path[..0] == [];
    ReadsName(x, st, ops);
    NoPath(st, ops);
    assert EvalSeg(path[0], st, ops) == Element(Scalar(st[x]));
    assert EvalPath(path[..0], st, ops) == [] && PathNames(path[..0]) == {};
    assert SegNames(path[0]) == {x} by {
      assert PathNames([]) == {};
    }
  }

  /** f(p.a, q[p.n]): the index is in the object written back first, but not in the part. */
  const OTHER_MEMBER: seq<Arg> := [Ref("p", [Field("a")]), Ref("q", [At(Read("p", [Field("n")]))])]

  lemma {:induction false} OtherMemberSpared(st: Store, ops: Ops)
    ensures ArgumentsSpared({0, 1}, OTHER_MEMBER, st, ops) && Disjoint(BOTH, {0, 1}, OTHER_MEMBER, st, ops)
    ensures !Steady({0, 1}, OTHER_MEMBER)
  {
    hide EvalPath, PathNames;
    FieldPath("a", st, ops);
    FieldPath("n", st, ops);
    assert [Member("a")][0] != [Member("n")][0];
    var (seg, path) := (At(Read("p", [Field("n")])), OTHER_MEMBER[1].path);
    assert path[..0] == [] && path[0] == seg;
    assert PathSpares([Field("n")], st, ops, "p", [Member("a")]) by {
      assert [Field("n")][..0] == [];
    }
    assert SegSpares(seg, st, ops, "p", [Member("a")]);
    assert PathSpares(path[..0], st, ops, "p", [Member("a")]);
    assert PathSpares(path, st, ops, "p", EvalPath(OTHER_MEMBER[0].path, st, ops));
    OtherMemberNames();
    assert 0 in {0, 1} && 1 in {0, 1} && OTHER_MEMBER[0].x in PathNames(OTHER_MEMBER[1].path);
  }

  lemma {:induction false} OtherMemberNames()
    ensures "p" in PathNames(OTHER_MEMBER[1].path)
  {
    var path := OTHER_MEMBER[1].path;
    assert path[..0] == [];
    assert Names(Read("p", [Field("n")])) == {"p"} + PathNames([Field("n")]);
    assert PathNames(path) == PathNames(path[..0]) + SegNames(path[0]);
  }

  /** It is translated right for all functions, although the index reads the root of the first argument. */
  lemma {:induction false} OtherMemberPreserved(h: Heap, env: Bindings, ops: Ops)
    requires CallSite(BOTH, {0, 1}, OTHER_MEMBER, h, env)
    ensures AllPreserved(BOTH, {0, 1}, OTHER_MEMBER, h, env, ops) && !Steady({0, 1}, OTHER_MEMBER)
  {
    hide CallSite, AllPreserved, View, Disjoint, Steady, ArgumentsSpared;
    OtherMemberSpared(View(h, env), ops);
    CallsExactly(BOTH, {0, 1}, OTHER_MEMBER, h, env, ops);
  }

  // ----- an index that is written back first -----

  /** f(p, q[p.n]) */
  function Moving(): seq<Arg> {
    [Ref("p", []), Ref("q", [At(Read("p", [Field("n")]))])]
  }

  /** f(a, b): a.n = k; b.x = v; */
  ghost function Mover(k: int, v: Val): Fn {
    Fn(BOTH, [], true, [], Seq(Assign("a", [Field("n")], Lit(Number(k))), Assign("b", [Field("x")], Lit(v))))
  }

  ghost function IndexAt(p: Val): int {
    Scalar(Get(p, [Member("n")]))
  }

  lemma {:induction false} FieldPath(name: string, st: Store, ops: Ops)
    ensures EvalPath([Field(name)], st, ops) == [Member(name)]
  {
    assert [Field(name)][..0] == [];
  }

  lemma {:induction false} MovingPath(st: Store, ops: Ops)
    requires "p" in st
    ensures EvalPath(Moving()[1].path, st, ops) == [Element(IndexAt(st["p"]))]
  {
    hide Get;
    var path := Moving()[1].path;
    assert path[..0] == [];
    FieldPath("n", st, ops);
    NoPath(st, ops);
    assert EvalSeg(path[0], st, ops) == Element(IndexAt(st["p"]));
    assert EvalPath(path[..0], st, ops) == [];
  }

  /** Entering the callee: its parameters denote p and the element of q. */
  lemma {:induction false} MoverEntered(k: int, v: Val, h: Heap, env: Bindings, ops: Ops)
    requires "p" in env && "q" in env && Allocated(h, env)
    ensures var (h1, env1) := Enter(Mover(k, v), Moving(), h, env, ops);
            && |h| <= |h1| && h1[..|h|] == h && "a" in env1 && "b" in env1
            && env1["a"] == env["p"] && env1["b"] == env["q"].Down([Element(IndexAt(View(h, env)["p"]))])
  {
    hide View, EvalPath, Bind, Named, ArgValue, Number, IndexAt;
    var args := Moving();
    NoPath(View(h, env), ops);
    MovingPath(View(h, env), ops);
    BindFacts(BOTH, args, h, env, ops);
    var (h1, locs) := Bind(BOTH, args, h, env, ops);
    assert BoundAs(BOTH, args, h, env, ops, h1, locs, 0) && BoundAs(BOTH, args, h, env, ops, h1, locs, 1);
    NamedAt(BOTH, locs);
    assert BOTH[0].name == "a" && BOTH[1].name == "b";
    assert Rebind([], MemoryLang.Zeros(0), h1, Named(BOTH, locs)) == (h1, Named(BOTH, locs));
    assert env["p"].path + [] == env["p"].path;
  }

  /** Its two assignments. */
  lemma {:induction false} MoverRuns(p: Program, fn: Fn, k: int, v: Val, h: Heap, env: Bindings, ops: Ops, fuel: nat)
    requires "a" in env && "b" in env
    ensures ExecRef(p, ops, fn, Mover(k, v).body, h, env, fuel)
            == Runs(WriteLoc(WriteLoc(h, env["a"].Down([Member("n")]), Number(k)), env["b"].Down([Member("x")]), v), env)
  {
    hide View, EvalPath, WriteLoc, Number;
    FieldPath("n", View(h, env), ops);
    var h2 := WriteLoc(h, env["a"].Down([Member("n")]), Number(k));
    FieldPath("x", View(h2, env), ops);
  }

  lemma {:induction false} MoverBody(k: int, v: Val, h: Heap, env: Bindings, ops: Ops, fuel: nat)
    requires "p" in env && "q" in env && OneObjectEach(h, env) && fuel > 0
    ensures var (p, wb) := (map["f" := Mover(k, v)], map["f" := {0, 1}]);
            var r := BodyRef(p, ops, Mover(k, v), Moving(), h, env, fuel);
            && r.Returns? && r.locs == []
            && ReadLoc(r.h, env["q"]) == Set(ReadLoc(h, env["q"]), [Element(IndexAt(View(h, env)["p"])), Member("x")], v)
  {
    hide Set, View, Enter, WriteLoc, ReadLoc, Sep, Number, IndexAt, ExecRef, ReturnNames;
    var g := Mover(k, v);
    MoverEntered(k, v, h, env, ops);
    var (h1, env1) := Enter(g, Moving(), h, env, ops);
    MoverRuns(map["f" := g], g, k, v, h1, env1, ops, fuel - 1);
    NoneNamed(g, ExecRef(map["f" := g], ops, g, g.body, h1, env1, fuel - 1).h, env1, ops);
    var (n, x) := (Element(IndexAt(View(h, env)["p"])), [Member("x")]);
    assert (env["q"].path + [n]) + x == env["q"].path + [n, Member("x")];
    SamePrefix(h, h1, env["q"]);
    assert Sep(env["p"], env["q"]);
    SepDown(env["p"], env["q"], [Member("n")]);
    ReadApart(h1, env["p"].Down([Member("n")]), env["q"], Number(k));
    ReadWritten(WriteLoc(h1, env["p"].Down([Member("n")]), Number(k)), env["q"], [n, Member("x")], v);
  }

  lemma {:induction false} NoneNamed(g: Fn, h: Heap, env: Bindings, ops: Ops)
    requires g.results == []
    ensures ReturnNames(g, h, env, ops) == Returns(h, env, [])
  {
  }

  lemma {:induction false} SamePrefix(h: Heap, h': Heap, l: Loc)
    requires |h| <= |h'| && h'[..|h|] == h && l.oid < |h|
    ensures ReadLoc(h', l) == ReadLoc(h, l)
  {
    hide Get;
    assert h'[l.oid] == h'[..|h|][l.oid];
  }

  lemma {:induction false} MoverByReference(k: int, v: Val, h: Heap, env: Bindings, ops: Ops, fuel: nat)
    requires "p" in env && "q" in env && OneObjectEach(h, env) && fuel > 0
    ensures var r := ExecRef(map["f" := Mover(k, v)], ops, Outside(), Call([], "f", Moving()), h, env, fuel);
            && r.Runs? && "q" in r.env
            && View(r.h, r.env)["q"] == Set(View(h, env)["q"], [Element(IndexAt(View(h, env)["p"])), Member("x")], v)
  {
    hide Get, Set, View, BodyRef, ReadLoc, Sep, Number, IndexAt;
    MoverBody(k, v, h, env, ops, fuel);
    var h2 := BodyRef(map["f" := Mover(k, v)], ops, Mover(k, v), Moving(), h, env, fuel).h;
    assert BindResults([], [], env) == env;
    ViewAt(h, env, "q");
    ViewAt(h2, env, "q");
  }

  lemma {:induction false} BothIndices()
    ensures Indices({0, 1}, 0) == [] && Indices({0, 1}, 1) == [0] && Indices({0, 1}, 2) == [0, 1]
  {
    assert Indices({0, 1}, 0) == [];
    assert Indices({0, 1}, 1) == Indices({0, 1}, 0) + [0];
    assert Indices({0, 1}, 2) == Indices({0, 1}, 1) + [1];
  }

  /** Its translation: a.n = k; b.x = v; return (a, b); */
  ghost function CopyMover(k: int, v: Val): CopyStmt {
    CSeq(CSeq(CAssign("a", [Field("n")], Plain(Lit(Number(k)))), CAssign("b", [Field("x")], Plain(Lit(v)))),
         CReturn([Read("a", []), Read("b", [])]))
  }

  lemma {:induction false} MoverTranslated(k: int, v: Val)
    ensures TranslateFn(map["f" := {0, 1}], "f", Mover(k, v)) == CopyFn(["a", "b"], [], CopyMover(k, v))
  {
    hide Number, Indices;
    BothIndices();
    TwoReads();
    var (g, w, wb) := (Mover(k, v), {0, 1}, map["f" := {0, 1}]);
    assert ParamNames(BOTH) == ["a", "b"];
    assert WritebackOf(wb, "f") == w && |BOTH| == 2 && !EndsWithReturn(g.body);
    assert ArgExprs(NamedRefs([])) == [];
    assert ReturnedNames(g, w) == CReturn([Read("a", []), Read("b", [])]);
    assert CSeq(Translate(wb, g, w, g.body), ReturnedNames(g, w)) == CopyMover(k, v);
  }

  lemma {:induction false} MoverReturns(k: int, v: Val, p: Val, q: Val, tp: CopyProgram, ops: Ops, tmp: Packed,
          fuel: nat)
    ensures ExecCopy(tp, ops, CopyMover(k, v), map["a" := p, "b" := q], tmp, fuel)
            == CReturns([Set(p, [Member("n")], Number(k)), Set(q, [Member("x")], v)])
  {
    hide Get, Set, Number, EvalPath, EvalAll;
    var st := map["a" := p, "b" := q];
    FieldPath("n", st, ops);
    var st1 := st["a" := Set(p, [Member("n")], Number(k))];
    FieldPath("x", st1, ops);
    var st2 := st1["b" := Set(q, [Member("x")], v)];
    var (first, second) := (CAssign("a", [Field("n")], Plain(Lit(Number(k)))), CAssign("b", [Field("x")], Plain(Lit(v))));
    assert ExecCopy(tp, ops, first, st, tmp, fuel) == CRuns(st1, tmp);
    assert ExecCopy(tp, ops, second, st1, tmp, fuel) == CRuns(st2, tmp);
    var es := [Read("a", []), Read("b", [])];
    ReadsName("a", st2, ops);
    ReadsName("b", st2, ops);
    EvalAllAt(es, st2, ops, 0);
    EvalAllAt(es, st2, ops, 1);
    assert EvalAll(es, st2, ops) == [st2["a"], st2["b"]];
  }

  lemma {:induction false} TwoReads()
    ensures WritebackReads(BOTH, {0, 1}, 2) == [Read("a", []), Read("b", [])]
  {
    assert WritebackReads(BOTH, {0, 1}, 1) == [Read("a", [])];
  }

  lemma {:induction false} TwoEntered(p: Val, q: Val)
    ensures AssignAll([], MemoryLang.Zeros(0), AssignAll(["a", "b"], [p, q], map[])) == map["a" := p, "b" := q]
  {
    var (names, vals) := (["a", "b"], [p, q]);
    assert names[..1] == ["a"] && vals[..1] == [p];
    assert ["a"][..0] == [] && [p][..0] == [];
    assert AssignAll(["a"], [p], map[]) == map["a" := p];
  }

  /** Back in the caller: p is assigned first, so the path of q is another one. */
  lemma {:induction false} MoverBacks(k: int, st: Store, w: Val, tp: CopyProgram, ops: Ops, fuel: nat)
    requires "p" in st && "q" in st
    ensures var all := [Set(st["p"], [Member("n")], Number(k)), w];
            ExecCopy(tp, ops, BackAssigns(Moving(), {0, 1}, 2, 0, 2, map[]), st, Pack(all), fuel)
            == CRuns(st["p" := all[0]]["q" := Set(st["q"], [Element(k)], w)], Pack(all))
  {
    hide Get, Set, Number, EvalPath, Indices, Pack, IndexAt, EvalCopy;
    BothIndices();
    var args := Moving();
    var all := [Set(st["p"], [Member("n")], Number(k)), w];
    NoPath(st, ops);
    SetAll(st["p"], all[0]);
    var st1 := st["p" := all[0]];
    MovedIndex(k, st["p"]);
    MovingPath(st1, ops);
    var (first, second) := (CAssign("p", [], CopyExpr.Component(0, 2)), CAssign("q", args[1].path, CopyExpr.Component(1, 2)));
    ComponentOfPack(all, 0, st, ops);
    ComponentOfPack(all, 1, st1, ops);
    assert ExecCopy(tp, ops, first, st, Pack(all), fuel) == CRuns(st1, Pack(all));
    var st2 := st1["q" := Set(st["q"], [Element(k)], w)];
    assert ExecCopy(tp, ops, second, st1, Pack(all), fuel) == CRuns(st2, Pack(all));
    var one := CSeq(CSeq(CSkip, CSkip), first);
    assert ExecCopy(tp, ops, CSeq(CSkip, CSkip), st, Pack(all), fuel) == CRuns(st, Pack(all));
    assert ExecCopy(tp, ops, one, st, Pack(all), fuel) == CRuns(st1, Pack(all));
    assert ExecCopy(tp, ops, CSeq(one, CSkip), st, Pack(all), fuel) == CRuns(st1, Pack(all));
    assert BackAssigns(args, {0, 1}, 1, 0, 2, map[]) == one;
    assert BackAssigns(args, {0, 1}, 2, 0, 2, map[]) == CSeq(CSeq(one, CSkip), second);
  }

  lemma {:induction false} MoverByCopy(k: int, v: Val, st: Store, ops: Ops, tmp: Packed, fuel: nat)
    requires "p" in st && "q" in st && fuel > 0
    ensures var (p, wb) := (map["f" := Mover(k, v)], map["f" := {0, 1}]);
            var c := ExecCopy(TranslateProgram(wb, p), ops, TranslateCall(wb, [], "f", Moving(), map[]), st, tmp, fuel);
            var part := Get(st["q"], [Element(IndexAt(st["p"]))]);
            && c.CRuns? && "q" in c.st
            && c.st["q"] == Set(st["q"], [Element(k)], Set(part, [Member("x")], v))
  {
    hide Get, Set, Number, EvalPath, EvalAll, Indices, TranslateFn, Mover, CopyMover, Pack, IndexAt, ArgExprs, Eval,
         BackAssigns, AssignAll;
    BothIndices();
    var (p, wb) := (map["f" := Mover(k, v)], map["f" := {0, 1}]);
    var tp := TranslateProgram(wb, p);
    var part := Get(st["q"], [Element(IndexAt(st["p"]))]);
    MoverTranslated(k, v);
    assert tp["f"] == CopyFn(["a", "b"], [], CopyMover(k, v));
    MovingValues(st, ops);
    TwoEntered(st["p"], part);
    MoverReturns(k, v, st["p"], part, tp, ops, Tuple([]), fuel - 1);
    MoverBacks(k, st, Set(part, [Member("x")], v), tp, ops, fuel);
    var all := [Set(st["p"], [Member("n")], Number(k)), Set(part, [Member("x")], v)];
    assert ExecCopy(tp, ops, CCall("f", ArgExprs(Moving())), st, tmp, fuel) == CRuns(st, Pack(all));
    assert ResultAssigns([], 0, 2) == CSkip;
    var back := BackAssigns(Moving(), {0, 1}, 2, 0, 2, map[]);
    var after := st["p" := all[0]]["q" := Set(st["q"], [Element(k)], all[1])];
    assert ExecCopy(tp, ops, CSeq(back, CSkip), st, Pack(all), fuel) == CRuns(after, Pack(all));
    assert WritebackOf(wb, "f") == {0, 1};
    assert TranslateCall(wb, [], "f", Moving(), map[]) == CSeq(CCall("f", ArgExprs(Moving())), CSeq(back, CSkip));
  }

  lemma {:induction false} MovingValues(st: Store, ops: Ops)
    requires "p" in st && "q" in st
    ensures EvalAll(ArgExprs(Moving()), st, ops) == [st["p"], Get(st["q"], [Element(IndexAt(st["p"]))])]
  {
    hide Get, EvalPath, EvalAll, IndexAt;
    ArgumentValue(Moving(), st, ops, 0);
    ArgumentValue(Moving(), st, ops, 1);
    ReadsName("p", st, ops);
    MovingPath(st, ops);
  }

  lemma {:induction false} MovedIndex(k: int, p: Val)
    ensures IndexAt(Set(p, [Member("n")], Number(k))) == k
  {
    assert [Member("n")] + [] == [Member("n")];
  }

  /**
   The check accepts f(p, q[p.n]) with both parameters modified.  If the function sets p.n, execution
   writes the element at the old index and the translation the one at the new index; they leave the same
   object if and only if the index stays, or the member had the written value and the two elements were equal.
   */
  lemma {:induction false} MovedIndexMissed(k: int, v: Val, h: Heap, env: Bindings, ops: Ops, tmp: Packed, fuel: nat)
    requires "p" in env && "q" in env && OneObjectEach(h, env) && fuel > 0
    ensures CheckedArguments({0, 1}, Moving()) && Disjoint(BOTH, {0, 1}, Moving(), View(h, env), ops)
    ensures var (p, wb) := (map["f" := Mover(k, v)], map["f" := {0, 1}]);
            var r := ExecRef(p, ops, Outside(), Call([], "f", Moving()), h, env, fuel);
            var c := ExecCopy(TranslateProgram(wb, p), ops, TranslateCall(wb, [], "f", Moving(), map[]), View(h, env), tmp, fuel);
            var (q, n) := (View(h, env)["q"], IndexAt(View(h, env)["p"]));
            && r.Runs? && "q" in r.env && c.CRuns? && "q" in c.st
            && (View(r.h, r.env)["q"] == c.st["q"]
                <==> k == n || (Get(q, [Element(n), Member("x")]) == v && Get(q, [Element(k)]) == Get(q, [Element(n)])))
  {
    hide Get, Set, View, ExecRef, ExecCopy, TranslateProgram, TranslateCall, Mover, IndexAt, EvalPath, Sep;
    MoverByReference(k, v, h, env, ops, fuel);
    MoverByCopy(k, v, View(h, env), ops, tmp, fuel);
    TwoElements(View(h, env)["q"], IndexAt(View(h, env)["p"]), k, v);
  }

  /** Updating a member of one element, and storing the updated element at another index. */
  lemma {:induction false} TwoElements(q: Val, n: int, k: int, v: Val)
    ensures Set(q, [Element(n), Member("x")], v) == Set(q, [Element(k)], Set(Get(q, [Element(n)]), [Member("x")], v))
            <==> k == n || (Get(q, [Element(n), Member("x")]) == v && Get(q, [Element(k)]) == Get(q, [Element(n)]))
  {
    hide Get, Set;
    var (at, new_, x) := ([Element(n)], [Element(k)], [Member("x")]);
    var part := Set(Get(q, at), x, v);
    assert [Element(n), Member("x")] == at + x;
    var (ref, copy) := (Set(q, at + x, v), Set(q, new_, part));
    GetSet(q, at, x, v);
    GetGet(q, at, x);
    SetGet(q, at);
    if k == n {
      SetSet(q, at, x, Get(q, at), v);
    } else {
      assert new_[0] != at[0] && (at + x)[0] == at[0];
      assert Diverge(new_, at) && Diverge(at + x, new_);
      GetApart(q, new_, at, part);
      GetApart(q, at + x, new_, v);
      PartSet(q, new_, part);
      PartSet(Get(q, at), x, v);
      if Get(q, at + x) == v {
        SetGet(Get(q, at), x);
        SetGet(q, at + x);
        if Get(q, new_) == Get(q, at) {
          SetGet(q, new_);
        }
      }
    }
  }

  lemma {:induction false} PartSet(v: Val, p: Path, w: Val)
    ensures Get(Set(v, p, w), p) == w
  {
    hide Get, Set;
    assert p + [] == p;
    GetSet(v, p, [], w);
    SetAll(Get(v, p), w);
  }
}
