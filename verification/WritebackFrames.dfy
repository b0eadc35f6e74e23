/**
 The programs the translation is for, and what an activation of such a program keeps by reference: objects
 that may be written have one name each, and the caller's objects change only where they are written back.
 */
module WritebackFrames {
  import opened Options
  import opened MemoryLang
  import opened MemoryCopy

  // ----- what the analysis finds in a body -----

  /** Names whose object a statement writes in place: a member assignment, or a written-back argument. */
  function InPlace(s: Stmt, wb: Writebacks): set<string> {
    match s
    case Assign(x, path, _) => if path == [] then {} else {x}
    case Call(_, f, args) => set i | 0 <= i < |args| && i in WritebackOf(wb, f) && args[i].Ref? :: args[i].x
    case Hoisted(_, pre, call) => InPlace(pre, wb) + InPlace(call, wb)
    case Seq(first, second) => InPlace(first, wb) + InPlace(second, wb)
    case If(_, onTrue, onFalse) => InPlace(onTrue, wb) + InPlace(onFalse, wb)
    case While(_, body) => InPlace(body, wb)
    case _ => {}
  }

  /** Names a statement binds to another object. */
  function Rebound(s: Stmt): set<string> {
    match s
    case Assign(x, path, _) => if path == [] then {x} else {}
    case Alias(x, _, _, _) => {x}
    case Call(rs, _, _) => set i | 0 <= i < |rs| :: rs[i]
    case Hoisted(_, pre, call) => Rebound(pre) + Rebound(call)
    case Seq(first, second) => Rebound(first) + Rebound(second)
    case If(_, onTrue, onFalse) => Rebound(onTrue) + Rebound(onFalse)
    case While(_, body) => Rebound(body)
    case _ => {}
  }

  /** The memory reference parameters a function may modify, given what its callees may. */
  function Modified(fn: Fn, wb: Writebacks): set<nat> {
    set i: nat | i < |fn.params| && fn.params[i].mem && fn.params[i].name in InPlace(fn.body, wb)
  }

  // ----- programs the translation is for -----

  predicate Static(path: seq<Seg>) {
    forall i :: 0 <= i < |path| ==> path[i].Field?
  }

  /** Different members, or elements at different constant indices. */
  ghost predicate Differ(a: Seg, b: Seg) {
    || (a.Field? && b.Field? && a.name != b.name)
    || (a.At? && b.At? && a.index.Lit? && b.index.Lit? && Scalar(a.index.v) != Scalar(b.index.v))
  }

  /** Paths that part at some segment, whatever their indices. */
  ghost predicate Parted(p: seq<Seg>, q: seq<Seg>) {
    exists k :: 0 <= k < |p| && k < |q| && Differ(p[k], q[k])
  }

  /** Two arguments that certainly name parts of different objects, or different parts of one. */
  ghost predicate Apart(a: Arg, b: Arg) {
    a.Ref? && b.Ref? ==> a.x != b.x || Parted(a.path, b.path)
  }

  /** A written-back argument is apart from every other memory argument of the call. */
  ghost predicate ArgumentsApart(params: seq<Param>, w: set<nat>, args: seq<Arg>)
    requires |args| == |params|
  {
    forall i, j :: i in w && 0 <= i < |args| && 0 <= j < |args| && i != j && params[j].mem ==> Apart(args[i], args[j])
  }

  /** The path of an argument written back reads nothing that is written back before it. */
  predicate Steady(w: set<nat>, args: seq<Arg>) {
    forall i, k :: i in w && k in w && 0 <= k < i < |args| && args[i].Ref? && args[k].Ref? ==>
      args[k].x !in PathNames(args[i].path)
  }

  ghost predicate CallOk(g: Fn, w: set<nat>, args: seq<Arg>) {
    |args| == |g.params| ==> ArgumentsApart(g.params, w, args) && Steady(w, args)
  }

  /** Names a function writes in place, and its written-back parameters. */
  function Loud(fn: Fn, w: set<nat>, wb: Writebacks): set<string> {
    InPlace(fn.body, wb) + set i | 0 <= i < |fn.params| && i in w :: fn.params[i].name
  }

  // ----- names that may denote the same object -----

  /**
   What is claimed of a function: two names in `may` may denote overlapping objects, result k may be part of
   the object of parameter i if (k, i) is in `shares`, and results k < l may overlap if (k, l) is in `twins`.
   */
  datatype Note = Note(may: set<(string, string)>, shares: set<(nat, nat)>, twins: set<(nat, nat)>)

  type Notes = map<string, Note>

  /** A function without a note shares nothing. */
  function NoteOf(notes: Notes, f: string): Note {
    if f in notes then notes[f] else Note({}, {}, {})
  }

  predicate Related(may: set<(string, string)>, x: string, y: string) {
    x == y || (x, y) in may
  }

  /** Names that may share an object are not written in place. */
  ghost predicate MayOk(may: set<(string, string)>, loud: set<string>) {
    forall x, y :: (x, y) in may ==> (y, x) in may && x !in loud && y !in loud
  }

  /** x may become a name of a part of y's object. */
  ghost predicate Follows(may: set<(string, string)>, x: string, y: string) {
    x == y || ((x, y) in may && forall z :: (y, z) in may && z != x ==> (x, z) in may)
  }

  /** The results of a call may be parts of its arguments' objects. */
  ghost predicate ResultsOk(may: set<(string, string)>, note: Note, rs: seq<string>, args: seq<Arg>) {
    && (forall k, i :: (k, i) in note.shares && k < |rs| && i < |args| && args[i].Ref? ==> Follows(may, rs[k], args[i].x))
    && (forall k, l :: (k, l) in note.twins && k < |rs| && l < |rs| ==> Related(may, rs[k], rs[l]))
  }

  ghost predicate ReturnsApart(may: set<(string, string)>, a: Arg, b: Arg) {
    a.Ref? && b.Ref? ==> if a.x == b.x then Parted(a.path, b.path) else (a.x, b.x) !in may
  }

  /** What is returned is part of no parameter's object but those noted. */
  ghost predicate ReturnOk(params: seq<Param>, note: Note, es: seq<Arg>) {
    && (forall k, i :: 0 <= k < |es| && 0 <= i < |params| && es[k].Ref? && params[i].mem &&
                       Related(note.may, es[k].x, params[i].name) ==>
          (k, i) in note.shares)
    && (forall k, l :: 0 <= k < l < |es| ==> ReturnsApart(note.may, es[k], es[l]) || (k, l) in note.twins)
  }

  // ----- calls hoisted out of arguments -----

  function NamesAt(used: map<nat, set<string>>, k: nat): set<string> {
    if k in used then used[k] else {}
  }

  predicate OneResult(wb: Writebacks, s: Stmt) {
    s.Call? && |s.rs| == 1 && WritebackOf(wb, s.f) == {}
  }

  /** A hoisted call that can be made again: it writes nothing back, and its arguments do not read its result. */
  predicate Repeatable(wb: Writebacks, pre: Stmt) {
    OneResult(wb, pre) && pre.rs[0] !in AllNames(ArgExprs(pre.args))
  }

  /** `used`: for each argument the names its hoisted calls read or set; nothing else sets them in between. */
  predicate HoistOk(wb: Writebacks, s: Stmt, used: map<nat, set<string>>) {
    match s
    case Hoisted(at, pre, call) =>
      && Repeatable(wb, pre)
      && (forall k :: k in used ==> pre.rs[0] !in used[k])
      && HoistOk(wb, call, used[at := NamesAt(used, at) + AllNames(ArgExprs(pre.args)) + {pre.rs[0]}])
    case Call(_, f, args) =>
      forall k, j :: k in used && j in WritebackOf(wb, f) && j < k && j < |args| && args[j].Ref? ==>
        args[j].x !in used[k]
    case _ => true
  }

  // ----- programs -----

  ghost predicate StmtOk(p: Program, wb: Writebacks, notes: Notes, params: seq<Param>, note: Note, s: Stmt) {
    match s
    case Alias(x, y, _, _) => Follows(note.may, x, y)
    case Call(rs, f, args) =>
      f in p ==> CallOk(p[f], WritebackOf(wb, f), args) && ResultsOk(note.may, NoteOf(notes, f), rs, args)
    case Hoisted(_, pre, call) =>
      && HoistOk(wb, s, map[])
      && StmtOk(p, wb, notes, params, note, pre) && StmtOk(p, wb, notes, params, note, call)
    case Return(es) => ReturnOk(params, note, es)
    case Seq(first, second) => StmtOk(p, wb, notes, params, note, first) && StmtOk(p, wb, notes, params, note, second)
    case If(_, onTrue, onFalse) =>
      StmtOk(p, wb, notes, params, note, onTrue) && StmtOk(p, wb, notes, params, note, onFalse)
    case While(_, body) => StmtOk(p, wb, notes, params, note, body)
    case _ => true
  }

  predicate DistinctNames(fn: Fn) {
    && (forall i, j :: 0 <= i < j < |fn.params| ==> fn.params[i].name != fn.params[j].name)
    && (forall i, j :: 0 <= i < |fn.params| && 0 <= j < |fn.locals| ==> fn.params[i].name != fn.locals[j])
  }

  /** Written-back parameters are memory references that keep their object. */
  predicate KeepsWrittenBack(fn: Fn, w: set<nat>) {
    forall i :: i in w ==> i < |fn.params| && fn.params[i].mem && fn.params[i].name !in Rebound(fn.body)
  }

  /** Memory parameters that are not written back may be given overlapping objects. */
  predicate ParamsMay(params: seq<Param>, w: set<nat>, may: set<(string, string)>) {
    forall i, j :: 0 <= i < |params| && 0 <= j < |params| && i != j && params[i].mem && params[j].mem &&
                   i !in w && j !in w ==>
      (params[i].name, params[j].name) in may
  }

  /** What a function's note claims, its statements bear out. */
  ghost predicate NoteOk(p: Program, wb: Writebacks, notes: Notes, f: string)
    requires f in p
  {
    var (g, note) := (p[f], NoteOf(notes, f));
    && MayOk(note.may, Loud(g, WritebackOf(wb, f), wb))
    && ParamsMay(g.params, WritebackOf(wb, f), note.may)
    && StmtOk(p, wb, notes, g.params, note, g.body)
    && (g.named ==> ReturnOk(g.params, note, NamedRefs(g.results)))
  }

  ghost predicate FnOk(p: Program, wb: Writebacks, notes: Notes, f: string)
    requires f in p
  {
    && DistinctNames(p[f])
    && Modified(p[f], wb) <= WritebackOf(wb, f)
    && KeepsWrittenBack(p[f], WritebackOf(wb, f))
    && NoteOk(p, wb, notes, f)
  }

  ghost predicate ProgramOk(p: Program, wb: Writebacks, notes: Notes) {
    forall f :: f in p ==> FnOk(p, wb, notes, f)
  }

  // ----- locations -----

  predicate Sep(l: Loc, m: Loc) {
    l.oid != m.oid || Diverge(l.path, m.path)
  }

  lemma {:induction false} SepDown(l: Loc, m: Loc, q: Path)
    requires Sep(l, m)
    ensures Sep(l.Down(q), m) && Sep(m, l.Down(q)) && Sep(m, l)
  {
    if l.oid == m.oid {
      if l.path + q <= m.path {
        Front(l.path, q, m.path);
      }
      if m.path <= l.path + q {
        NotApart(l.path, m.path, l.path + q);
      }
    }
  }

  lemma {:induction false} ReadWritten(h: Heap, l: Loc, q: Path, v: Val)
    requires l.oid < |h|
    ensures ReadLoc(WriteLoc(h, l.Down(q), v), l) == Set(ReadLoc(h, l), q, v)
  {
    hide Get, Set;
    GetSet(h[l.oid], l.path, q, v);
  }

  lemma {:induction false} ReadApart(h: Heap, l: Loc, m: Loc, v: Val)
    requires Sep(l, m)
    ensures ReadLoc(WriteLoc(h, l, v), m) == ReadLoc(h, m)
  {
    hide Get, Set;
    if l.oid == m.oid < |h| {
      GetApart(h[l.oid], l.path, m.path, v);
    }
  }

  lemma {:induction false} WriteSame(h: Heap, l: Loc)
    ensures WriteLoc(h, l, ReadLoc(h, l)) == h
  {
    hide Get, Set;
    if l.oid < |h| {
      SetGet(h[l.oid], l.path);
    }
  }

  lemma {:induction false} WriteInside(h: Heap, l: Loc, q: Path, a: Val, b: Val)
    ensures WriteLoc(WriteLoc(h, l, a), l.Down(q), b) == WriteLoc(h, l, Set(a, q, b))
  {
    hide Get, Set;
    if l.oid < |h| {
      SetSet(h[l.oid], l.path, q, a, b);
    }
  }

  lemma {:induction false} WritesCommute(h: Heap, l: Loc, m: Loc, a: Val, b: Val)
    requires Sep(l, m)
    ensures WriteLoc(WriteLoc(h, l, a), m, b) == WriteLoc(WriteLoc(h, m, b), l, a)
  {
    hide Get, Set;
    if l.oid == m.oid < |h| {
      SetApart(h[l.oid], l.path, m.path, a, b);
    }
  }

  // ----- frames -----

  /**
   One activation: its function, written-back parameters, parameter objects, the caller's heap, the names it
   may write in place, and what is claimed of its other names.
   */
  datatype Frame = Frame(fn: Fn, w: set<nat>, locs: seq<Loc>, h0: Heap, loud: set<string>, note: Note)

  /** What is checked of a function, in its activation. */
  ghost predicate FrameOk(F: Frame) {
    && DistinctNames(F.fn)
    && MayOk(F.note.may, F.loud)
    && (F.fn.named ==> ReturnOk(F.fn.params, F.note, NamedRefs(F.fn.results)))
  }

  predicate WrittenBack(F: Frame, x: string) {
    exists i :: 0 <= i < |F.fn.params| && F.fn.params[i].name == x && i in F.w
  }

  predicate MemoryParam(fn: Fn, x: string) {
    exists i :: 0 <= i < |fn.params| && fn.params[i].name == x && fn.params[i].mem
  }

  /** The caller's heap with the current values of the written-back parameters among the first n. */
  ghost function Patched(h0: Heap, locs: seq<Loc>, w: set<nat>, n: nat, h: Heap): (r: Heap)
    requires n <= |locs|
    ensures |r| == |h0|
  {
    if n == 0 then h0
    else
      var before := Patched(h0, locs, w, n - 1, h);
      if n - 1 in w then WriteLoc(before, locs[n - 1], ReadLoc(h, locs[n - 1])) else before
  }

  ghost predicate Allocated(h: Heap, env: Bindings) {
    forall x :: x in env ==> env[x].oid < |h|
  }

  /** A written-back parameter still denotes the caller's object. */
  ghost predicate Kept(F: Frame, env: Bindings) {
    |F.locs| == |F.fn.params|
    && forall i :: i in F.w ==>
      && i < |F.locs| && F.fn.params[i].mem && F.fn.params[i].name in env && F.fn.params[i].name in F.loud
      && env[F.fn.params[i].name] == F.locs[i]
  }

  /** Names denote separate objects, except that names that may share an object may overlap. */
  ghost predicate Separate(F: Frame, env: Bindings) {
    forall x, y :: x in env && y in env && x != y ==> Sep(env[x], env[y]) || (x, y) in F.note.may
  }

  predicate PartOf(l: Loc, m: Loc) {
    l.oid == m.oid && m.path <= l.path
  }

  /** The location is part of the object of parameter i, whose name x may share. */
  predicate TracedTo(F: Frame, x: string, l: Loc, i: nat) {
    && i < |F.fn.params| && i < |F.locs| && F.fn.params[i].mem
    && Related(F.note.may, x, F.fn.params[i].name) && PartOf(l, F.locs[i])
  }

  /** A name denotes an object of the activation itself or part of a parameter's object it may share. */
  ghost predicate Traced(F: Frame, env: Bindings) {
    forall x :: x in env ==> |F.h0| <= env[x].oid || exists i :: TracedTo(F, x, env[x], i)
  }

  /** Every other name that may be written is an object of the activation itself. */
  ghost predicate Owned(F: Frame, env: Bindings) {
    forall x :: x in env && x in F.loud && !WrittenBack(F, x) ==> |F.h0| <= env[x].oid
  }

  /** The caller's objects changed only through the written-back parameters. */
  ghost predicate Framed(F: Frame, h: Heap) {
    |F.locs| == |F.fn.params| && |F.h0| <= |h|
    && h[..|F.h0|] == Patched(F.h0, F.locs, F.w, |F.locs|, h)
  }

  ghost predicate Inv(F: Frame, h: Heap, env: Bindings) {
    Allocated(h, env) && Kept(F, env) && Separate(F, env) && Owned(F, env) && Traced(F, env) && Framed(F, h)
  }

  // ----- a write in place -----

  lemma {:induction false} ViewWritten(F: Frame, h: Heap, env: Bindings, x: string, q: Path, v: Val)
    requires Allocated(h, env) && Separate(F, env) && FrameOk(F) && x in env && x in F.loud
    ensures View(WriteLoc(h, env[x].Down(q), v), env) == View(h, env)[x := Set(View(h, env)[x], q, v)]
  {
    hide Set, WriteLoc, ReadLoc, Sep;
    var h' := WriteLoc(h, env[x].Down(q), v);
    ReadWritten(h, env[x], q, v);
    forall y | y in env && y != x ensures ReadLoc(h', env[y]) == ReadLoc(h, env[y]) {
      SepDown(env[x], env[y], q);
      ReadApart(h, env[x].Down(q), env[y], v);
    }
  }

  predicate SepAll(locs: seq<Loc>, w: set<nat>) {
    forall i, j :: i in w && j in w && 0 <= i < |locs| && 0 <= j < |locs| && i != j ==> Sep(locs[i], locs[j])
  }

  /** Writing through written-back parameter k changes exactly its own value. */
  lemma {:induction false} PatchedWrite(h0: Heap, locs: seq<Loc>, w: set<nat>, n: nat, h: Heap, k: nat, q: Path, v: Val)
    requires n <= |locs| && SepAll(locs, w) && k in w && k < |locs| && locs[k].oid < |h|
    ensures var h' := WriteLoc(h, locs[k].Down(q), v);
            Patched(h0, locs, w, n, h') ==
            if k < n then WriteLoc(Patched(h0, locs, w, n, h), locs[k].Down(q), v) else Patched(h0, locs, w, n, h)
  {
    hide Set, WriteLoc, ReadLoc, Sep;
    if n > 0 {
      PatchedWrite(h0, locs, w, n - 1, h, k, q, v);
      var before := Patched(h0, locs, w, n - 1, h);
      var was := ReadLoc(h, locs[n - 1]);
      if n - 1 == k {
        ReadWritten(h, locs[k], q, v);
        WriteInside(before, locs[k], q, was, v);
      } else if n - 1 in w {
        assert Sep(locs[k], locs[n - 1]);
        SepDown(locs[k], locs[n - 1], q);
        ReadApart(h, locs[k].Down(q), locs[n - 1], v);
        WritesCommute(before, locs[k].Down(q), locs[n - 1], v, was);
      }
    }
  }

  /** A write apart from all written-back parameters changes none of their values. */
  lemma {:induction false} PatchedApart(h0: Heap, locs: seq<Loc>, w: set<nat>, n: nat, h: Heap, l: Loc, v: Val)
    requires n <= |locs| && forall i :: i in w && i < n ==> Sep(l, locs[i])
    ensures Patched(h0, locs, w, n, WriteLoc(h, l, v)) == Patched(h0, locs, w, n, h)
  {
    hide WriteLoc, ReadLoc, Sep;
    if n > 0 {
      PatchedApart(h0, locs, w, n - 1, h, l, v);
      if n - 1 in w {
        ReadApart(h, l, locs[n - 1], v);
      }
    }
  }

  lemma {:induction false} WritePrefix(h: Heap, n: nat, l: Loc, v: Val)
    requires n <= |h|
    ensures WriteLoc(h, l, v)[..n] == WriteLoc(h[..n], l, v)
  {
    hide Set;
  }

  /** With distinct names two written-back parameters are separate. */
  lemma {:induction false} WrittenBackSeparate(F: Frame, env: Bindings)
    requires Kept(F, env) && Separate(F, env) && FrameOk(F)
    ensures SepAll(F.locs, F.w)
  {
    hide Sep;
    forall i, j | i in F.w && j in F.w && 0 <= i < |F.locs| && 0 <= j < |F.locs| && i != j ensures Sep(F.locs[i], F.locs[j]) {
      var (a, b) := (F.fn.params[i].name, F.fn.params[j].name);
      assert a != b;
      assert Sep(env[a], env[b]);
    }
  }

  lemma {:induction false} FramedWritten(F: Frame, h: Heap, env: Bindings, x: string, q: Path, v: Val)
    requires Inv(F, h, env) && FrameOk(F) && x in env && x in F.loud
    ensures Framed(F, WriteLoc(h, env[x].Down(q), v))
  {
    hide Set, WriteLoc, ReadLoc, Sep, Patched;
    var l := env[x].Down(q);
    var n := |F.locs|;
    WritePrefix(h, |F.h0|, l, v);
    WrittenBackSeparate(F, env);
    if WrittenBack(F, x) {
      var k :| 0 <= k < |F.fn.params| && F.fn.params[k].name == x && k in F.w;
      PatchedWrite(F.h0, F.locs, F.w, n, h, k, q, v);
    } else {
      forall i | i in F.w && i < n ensures Sep(l, F.locs[i]) {
        assert Sep(env[x], env[F.fn.params[i].name]);
        SepDown(env[x], F.locs[i], q);
      }
      PatchedApart(F.h0, F.locs, F.w, n, h, l, v);
      WriteBeyond(h[..|F.h0|], l, v);
    }
  }

  lemma {:induction false} WriteBeyond(h: Heap, l: Loc, v: Val)
    requires |h| <= l.oid
    ensures WriteLoc(h, l, v) == h
  {
  }

  /** Writing in place through a name that may be written keeps the activation's invariant. */
  lemma {:induction false} WriteKeeps(F: Frame, h: Heap, env: Bindings, x: string, q: Path, v: Val)
    requires Inv(F, h, env) && FrameOk(F) && x in env && x in F.loud
    ensures var h' := WriteLoc(h, env[x].Down(q), v);
            Inv(F, h', env) && View(h', env) == View(h, env)[x := Set(View(h, env)[x], q, v)]
  {
    hide Set, WriteLoc, ReadLoc, Framed, Kept, Separate, Owned;
    FramedWritten(F, h, env, x, q, v);
    ViewWritten(F, h, env, x, q, v);
  }

  // ----- a name bound to an object of its own -----

  lemma {:induction false} PatchedExtended(h0: Heap, locs: seq<Loc>, w: set<nat>, n: nat, h: Heap, more: Heap)
    requires n <= |locs| && forall i :: i in w && i < n ==> locs[i].oid < |h|
    ensures Patched(h0, locs, w, n, h + more) == Patched(h0, locs, w, n, h)
  {
    hide WriteLoc;
    if n > 0 {
      PatchedExtended(h0, locs, w, n - 1, h, more);
    }
  }

  lemma {:induction false} ViewRebound(h: Heap, env: Bindings, x: string, v: Val)
    requires Allocated(h, env)
    ensures View(h + [v], env[x := Loc(|h|, [])]) == View(h, env)[x := v]
  {
    hide Get, View, ReadLoc;
    var (h', env') := (h + [v], env[x := Loc(|h|, [])]);
    var (a, b) := (View(h', env'), View(h, env)[x := v]);
    ReadLast(h, v);
    forall y | y in a ensures y in b && a[y] == b[y] {
      ViewAt(h', env', y);
      if y != x {
        ViewAt(h, env, y);
        ReadExtended(h, [v], env[y]);
      }
    }
    SameStore(a, b);
  }

  lemma {:induction false} ReadLast(h: Heap, v: Val)
    ensures ReadLoc(h + [v], Loc(|h|, [])) == v
  {
    hide Get;
    GetAll(v);
  }

  lemma {:induction false} ReadExtended(h: Heap, more: Heap, l: Loc)
    requires l.oid < |h|
    ensures ReadLoc(h + more, l) == ReadLoc(h, l)
  {
    hide Get;
  }

  lemma {:induction false} SeparateRebound(F: Frame, h: Heap, env: Bindings, x: string)
    requires Separate(F, env) && Allocated(h, env)
    ensures Separate(F, env[x := Loc(|h|, [])])
  {
    var env' := env[x := Loc(|h|, [])];
    forall y, z | y in env' && z in env' && y != z
      ensures Sep(env'[y], env'[z]) || (y, z) in F.note.may
    {
      assert y != x ==> env'[y] == env[y] && env[y].oid < |h|;
      assert z != x ==> env'[z] == env[z] && env[z].oid < |h|;
    }
  }

  lemma {:induction false} FramedExtended(F: Frame, h: Heap, env: Bindings, more: Heap)
    requires Framed(F, h) && Kept(F, env) && Allocated(h, env)
    ensures Framed(F, h + more)
  {
    hide Patched;
    PatchedExtended(F.h0, F.locs, F.w, |F.locs|, h, more);
    assert (h + more)[..|F.h0|] == h[..|F.h0|];
  }

  /** Binding a name that is no written-back parameter to a fresh object keeps the invariant. */
  lemma {:induction false} RebindKeeps(F: Frame, h: Heap, env: Bindings, x: string, v: Val)
    requires Inv(F, h, env) && forall i :: i in F.w ==> F.fn.params[i].name != x
    ensures var (h', env') := (h + [v], env[x := Loc(|h|, [])]);
            Inv(F, h', env') && View(h', env') == View(h, env)[x := v]
  {
    hide Separate, View, WrittenBack, Patched;
    ViewRebound(h, env, x, v);
    SeparateRebound(F, h, env, x);
    FramedExtended(F, h, env, [v]);
  }

  /** No name of the list is a written-back parameter. */
  predicate Avoids(fn: Fn, w: set<nat>, xs: seq<string>) {
    forall i :: i in w ==> i < |fn.params| && fn.params[i].name !in xs
  }

  lemma {:induction false} RebindAllKeeps(F: Frame, h: Heap, env: Bindings, xs: seq<string>, vs: seq<Val>)
    requires Inv(F, h, env) && |xs| == |vs|
    requires Avoids(F.fn, F.w, xs)
    ensures var (h', env') := Rebind(xs, vs, h, env);
            Inv(F, h', env') && View(h', env') == AssignAll(xs, vs, View(h, env))
    decreases |xs|
  {
    hide Inv, View;
    if xs != [] {
      var n := |xs| - 1;
      RebindAllKeeps(F, h, env, xs[..n], vs[..n]);
      var (h', env') := Rebind(xs[..n], vs[..n], h, env);
      RebindKeeps(F, h', env', xs[n], vs[n]);
    }
  }

  // ----- entering a function -----

  /** Parted paths name parts neither of which contains the other. */
  lemma {:induction false} PartedDiverge(p: seq<Seg>, q: seq<Seg>, st: Store, ops: Ops)
    requires Parted(p, q)
    ensures Diverge(EvalPath(p, st, ops), EvalPath(q, st, ops))
  {
    hide EvalPath;
    var k :| 0 <= k < |p| && k < |q| && Differ(p[k], q[k]);
    EvalPathAt(p, st, ops, k);
    EvalPathAt(q, st, ops, k);
    assert EvalPath(p, st, ops)[k] != EvalPath(q, st, ops)[k];
  }

  predicate IsRef(params: seq<Param>, args: seq<Arg>, env: Bindings, i: nat)
    requires |params| == |args| && i < |args|
  {
    params[i].mem && args[i].Ref? && args[i].x in env
  }

  /** A memory reference is bound to the caller's object, any other parameter to an object of its own. */
  ghost predicate BoundAs(params: seq<Param>, args: seq<Arg>, h: Heap, env: Bindings, ops: Ops, h': Heap,
          locs: seq<Loc>, i: nat)
    requires |params| == |args| == |locs| && i < |args|
  {
    if IsRef(params, args, env, i)
    then locs[i] == env[args[i].x].Down(EvalPath(args[i].path, View(h, env), ops))
    else |h| <= locs[i].oid < |h'| && locs[i].path == [] && h'[locs[i].oid] == ArgValue(args[i], View(h, env), ops)
  }

  lemma {:induction false} BindFacts(params: seq<Param>, args: seq<Arg>, h: Heap, env: Bindings, ops: Ops)
    requires |params| == |args|
    ensures var (h', locs) := Bind(params, args, h, env, ops);
            && |locs| == |params| && |h| <= |h'| && h'[..|h|] == h
            && (forall i :: 0 <= i < |locs| ==> BoundAs(params, args, h, env, ops, h', locs, i))
            && (forall i, j :: 0 <= i < j < |locs| && !IsRef(params, args, env, i) && !IsRef(params, args, env, j) ==>
                  locs[i].oid != locs[j].oid)
    decreases |params|
  {
    hide ArgValue, EvalPath, View;
    if params != [] {
      var n := |params| - 1;
      BindFacts(params[..n], args[..n], h, env, ops);
      var (h1, locs1) := Bind(params[..n], args[..n], h, env, ops);
      var (h', locs) := Bind(params, args, h, env, ops);
      forall i | 0 <= i < n ensures BoundAs(params, args, h, env, ops, h', locs, i) && locs[i] == locs1[i] {
        assert BoundAs(params[..n], args[..n], h, env, ops, h1, locs1, i);
        assert IsRef(params[..n], args[..n], env, i) == IsRef(params, args, env, i);
      }
      forall i, j | 0 <= i < j < |locs| && !IsRef(params, args, env, i) && !IsRef(params, args, env, j)
        ensures locs[i].oid != locs[j].oid
      {
        assert BoundAs(params[..n], args[..n], h, env, ops, h1, locs1, i);
        assert IsRef(params[..n], args[..n], env, i) == IsRef(params, args, env, i);
        if j < n {
          assert IsRef(params[..n], args[..n], env, j) == IsRef(params, args, env, j);
        }
      }
    }
  }

  predicate Distinct(params: seq<Param>) {
    forall i, j :: 0 <= i < j < |params| ==> params[i].name != params[j].name
  }

  lemma {:induction false} NamedAt(params: seq<Param>, locs: seq<Loc>)
    requires |params| == |locs| && Distinct(params)
    ensures forall i :: 0 <= i < |params| ==> params[i].name in Named(params, locs) && Named(params, locs)[params[i].name] == locs[i]
    ensures forall x :: x in Named(params, locs) ==> exists i :: 0 <= i < |params| && params[i].name == x
    decreases |params|
  {
    if params != [] {
      var n := |params| - 1;
      NamedAt(params[..n], locs[..n]);
      var before := Named(params[..n], locs[..n]);
      forall x | x in Named(params, locs) ensures exists i :: 0 <= i < |params| && params[i].name == x {
        if x in before {
          var i :| 0 <= i < |params[..n]| && params[..n][i].name == x;
          assert params[i].name == x;
        } else {
          assert params[n].name == x;
        }
      }
      forall i | 0 <= i < |params| ensures params[i].name in Named(params, locs) && Named(params, locs)[params[i].name] == locs[i] {
        if i < n {
          assert params[..n][i] == params[i] && locs[..n][i] == locs[i];
        }
      }
    }
  }

  lemma {:induction false} AssignedAt(xs: seq<string>, vs: seq<Val>)
    requires |xs| == |vs| && forall i, j :: 0 <= i < j < |xs| ==> xs[i] != xs[j]
    ensures forall i :: 0 <= i < |xs| ==> xs[i] in AssignAll(xs, vs, map[]) && AssignAll(xs, vs, map[])[xs[i]] == vs[i]
    ensures forall x :: x in AssignAll(xs, vs, map[]) ==> x in xs
    decreases |xs|
  {
    if xs != [] {
      var n := |xs| - 1;
      AssignedAt(xs[..n], vs[..n]);
      forall i | 0 <= i < |xs| ensures xs[i] in AssignAll(xs, vs, map[]) && AssignAll(xs, vs, map[])[xs[i]] == vs[i] {
        if i < n {
          assert xs[..n][i] == xs[i] && vs[..n][i] == vs[i];
        }
      }
    }
  }

  /** What a bound parameter denotes is the argument's value. */
  lemma {:induction false} BoundValue(params: seq<Param>, args: seq<Arg>, h: Heap, env: Bindings, ops: Ops, h': Heap,
          locs: seq<Loc>, i: nat)
    requires |params| == |args| == |locs| && i < |args| && BoundAs(params, args, h, env, ops, h', locs, i)
    requires Allocated(h, env) && |h| <= |h'| && h'[..|h|] == h
    ensures locs[i].oid < |h'|
    ensures ReadLoc(h', locs[i]) == ArgValue(args[i], View(h, env), ops)
    ensures IsRef(params, args, env, i) ==> locs[i].oid < |h| && ReadLoc(h, locs[i]) == ReadLoc(h', locs[i])
  {
    hide EvalPath, Get;
    if IsRef(params, args, env, i) {
      var (x, p) := (args[i].x, EvalPath(args[i].path, View(h, env), ops));
      assert env[x].oid < |h|;
      assert h'[env[x].oid] == h'[..|h|][env[x].oid];
      GetGet(h[env[x].oid], env[x].path, p);
      assert View(h, env)[x] == Get(h[env[x].oid], env[x].path);
    } else {
      GetAll(h'[locs[i].oid]);
    }
  }

  /** At this store the written-back arguments overlap no other memory argument of the same root. */
  ghost predicate Disjoint(params: seq<Param>, w: set<nat>, args: seq<Arg>, st: Store, ops: Ops)
    requires |args| == |params|
  {
    forall i, j :: i in w && 0 <= i < |args| && 0 <= j < |args| && i != j && params[j].mem
                   && args[i].Ref? && args[j].Ref? && args[i].x == args[j].x ==>
      Diverge(EvalPath(args[i].path, st, ops), EvalPath(args[j].path, st, ops))
  }

  lemma {:induction false} ApartDisjoint(params: seq<Param>, w: set<nat>, args: seq<Arg>, st: Store, ops: Ops)
    requires |args| == |params| && ArgumentsApart(params, w, args)
    ensures Disjoint(params, w, args, st, ops)
  {
    hide EvalPath, Parted, Diverge;
    forall i, j | i in w && 0 <= i < |args| && 0 <= j < |args| && i != j && params[j].mem
                  && args[i].Ref? && args[j].Ref? && args[i].x == args[j].x
      ensures Diverge(EvalPath(args[i].path, st, ops), EvalPath(args[j].path, st, ops))
    {
      assert Apart(args[i], args[j]);
      PartedDiverge(args[i].path, args[j].path, st, ops);
    }
  }

  /** The names of a callee that may be written: of its memory parameters, those written back. */
  predicate CalleeLoud(g: Fn, wg: set<nat>, loud: set<string>) {
    forall i :: 0 <= i < |g.params| && g.params[i].mem ==> (g.params[i].name in loud <==> i in wg)
  }

  ghost predicate CalleeOk(G: Frame) {
    FrameOk(G) && CalleeLoud(G.fn, G.w, G.loud) && ParamsMay(G.fn.params, G.w, G.note.may)
  }

  /** Evaluated at this store, the path of an argument written back reads nothing that is written back before it. */
  ghost predicate ArgumentsSpared(w: set<nat>, args: seq<Arg>, st: Store, ops: Ops) {
    forall i, k :: i in w && k in w && 0 <= k < i < |args| && args[i].Ref? && args[k].Ref? ==>
      PathSpares(args[i].path, st, ops, args[k].x, EvalPath(args[k].path, st, ops))
  }

  lemma {:induction false} SteadySpared(w: set<nat>, args: seq<Arg>, st: Store, ops: Ops)
    requires Steady(w, args)
    ensures ArgumentsSpared(w, args, st, ops)
  {
    hide EvalPath, PathSpares, PathNames;
    forall i, k | i in w && k in w && 0 <= k < i < |args| && args[i].Ref? && args[k].Ref?
      ensures PathSpares(args[i].path, st, ops, args[k].x, EvalPath(args[k].path, st, ops))
    {
      UnnamedPathSpared(args[i].path, st, ops, args[k].x, EvalPath(args[k].path, st, ops));
    }
  }

  /** A call the translation can model, in a running activation. */
  ghost predicate CallReady(F: Frame, g: Fn, wg: set<nat>, args: seq<Arg>, h: Heap, env: Bindings, ops: Ops) {
    && Inv(F, h, env) && FrameOk(F) && DistinctNames(g)
    && |args| == |g.params| && RootsDeclared(args, env)
    && Disjoint(g.params, wg, args, View(h, env), ops) && ArgumentsSpared(wg, args, View(h, env), ops)
    && (forall i :: i in wg ==> i < |g.params| && g.params[i].mem)
    && (forall i :: i in wg && args[i].Ref? ==> args[i].x in F.loud)
  }

  /** A written-back argument is separate from every other memory argument. */
  lemma {:induction false} ArgumentsSeparate(F: Frame, g: Fn, wg: set<nat>, args: seq<Arg>, h: Heap, env: Bindings,
          ops: Ops, i: nat, j: nat)
    requires CallReady(F, g, wg, args, h, env, ops) && i in wg && j < |args| && i != j
    requires IsRef(g.params, args, env, i) && IsRef(g.params, args, env, j)
    ensures Sep(env[args[i].x].Down(EvalPath(args[i].path, View(h, env), ops)),
                env[args[j].x].Down(EvalPath(args[j].path, View(h, env), ops)))
  {
    hide EvalPath, View, ArgumentsSpared;
    var st := View(h, env);
    var (p, q) := (EvalPath(args[i].path, st, ops), EvalPath(args[j].path, st, ops));
    if args[i].x != args[j].x {
      assert Sep(env[args[i].x], env[args[j].x]);
      SepDown(env[args[i].x], env[args[j].x], p);
      SepDown(env[args[j].x], env[args[i].x].Down(p), q);
    } else {
      assert Diverge(p, q);
      Cancel(env[args[i].x].path, p, q);
      Cancel(env[args[i].x].path, q, p);
    }
  }

  lemma {:induction false} EnterSeparate(F: Frame, G: Frame, args: seq<Arg>, h: Heap, env: Bindings, ops: Ops)
    requires CallReady(F, G.fn, G.w, args, h, env, ops) && |args| == |G.fn.params|
    requires ParamsMay(G.fn.params, G.w, G.note.may)
    ensures Separate(G, Named(G.fn.params, Bind(G.fn.params, args, h, env, ops).1))
  {
    hide Bind, Named, Sep, CallReady, ParamsMay;
    CallOpen(F, G.fn, G.w, args, h, env, ops);
    var (params, locs) := (G.fn.params, Bind(G.fn.params, args, h, env, ops).1);
    var named := Named(params, locs);
    NamedAt(params, locs);
    forall x, y | x in named && y in named && x != y
      ensures Sep(named[x], named[y]) || (x, y) in G.note.may
    {
      var i :| 0 <= i < |params| && params[i].name == x;
      var j :| 0 <= j < |params| && params[j].name == y;
      PairSeparate(F, G, args, h, env, ops, i, j);
    }
  }

  lemma {:induction false} PairSeparate(F: Frame, G: Frame, args: seq<Arg>, h: Heap, env: Bindings, ops: Ops, i: nat,
          j: nat)
    requires CallReady(F, G.fn, G.w, args, h, env, ops) && |args| == |G.fn.params|
    requires ParamsMay(G.fn.params, G.w, G.note.may)
    requires i < |args| && j < |args| && i != j
    ensures var locs := Bind(G.fn.params, args, h, env, ops).1;
            Sep(locs[i], locs[j]) || (G.fn.params[i].name, G.fn.params[j].name) in G.note.may
  {
    hide EvalPath, View, Bind, ArgValue, Disjoint, ArgumentsSpared, Inv;
    var (params, w) := (G.fn.params, G.w);
    BindFacts(params, args, h, env, ops);
    var (h', locs) := Bind(params, args, h, env, ops);
    assert BoundAs(params, args, h, env, ops, h', locs, i) && BoundAs(params, args, h, env, ops, h', locs, j);
    EnvAllocated(F, h, env);
    if IsRef(params, args, env, i) && IsRef(params, args, env, j) {
      if i in w {
        ArgumentsSeparate(F, G.fn, w, args, h, env, ops, i, j);
      } else if j in w {
        ArgumentsSeparate(F, G.fn, w, args, h, env, ops, j, i);
        SepDown(locs[j], locs[i], []);
      }
    } else if !IsRef(params, args, env, i) && !IsRef(params, args, env, j) {
      assert locs[i].oid != locs[j].oid;
    }
  }

  lemma {:induction false} EnvAllocated(F: Frame, h: Heap, env: Bindings)
    requires Inv(F, h, env)
    ensures Allocated(h, env)
  {
  }

  lemma {:induction false} PatchedNothing(h: Heap, locs: seq<Loc>, w: set<nat>, n: nat, h': Heap)
    requires n <= |locs| && forall i :: 0 <= i < n && locs[i].oid < |h| ==> ReadLoc(h', locs[i]) == ReadLoc(h, locs[i])
    ensures Patched(h, locs, w, n, h') == h
  {
    hide WriteLoc, ReadLoc;
    if n > 0 {
      PatchedNothing(h, locs, w, n - 1, h');
      if locs[n - 1].oid < |h| {
        WriteSame(h, locs[n - 1]);
      } else {
        WriteBeyond(h, locs[n - 1], ReadLoc(h', locs[n - 1]));
      }
    }
  }

  /** The parameters bound, before the locals: the invariant holds and the names have the arguments' values. */
  lemma {:induction false} ParametersBound(F: Frame, G: Frame, args: seq<Arg>, h: Heap, env: Bindings, ops: Ops)
    requires CallReady(F, G.fn, G.w, args, h, env, ops) && CalleeOk(G) && |args| == |G.fn.params|
    requires G.h0 == h && G.locs == Bind(G.fn.params, args, h, env, ops).1
    ensures var h' := Bind(G.fn.params, args, h, env, ops).0;
            && |G.locs| == |G.fn.params|
            && Inv(G, h', Named(G.fn.params, G.locs))
            && View(h', Named(G.fn.params, G.locs))
               == AssignAll(ParamNames(G.fn.params), EvalAll(ArgExprs(args), View(h, env), ops), map[])
  {
    hide EvalPath, View, Bind, Named, ArgValue, Inv, Separate, ReadLoc, Eval, BoundAs, EvalAll, AssignAll, Patched,
         CallReady, Allocated, IsRef, ArgExprs, ParamNames, CalleeLoud, ParamsMay, FrameOk;
    var (params, locs) := (G.fn.params, G.locs);
    CallOpen(F, G.fn, G.w, args, h, env, ops);
    BindFacts(params, args, h, env, ops);
    var h' := Bind(params, args, h, env, ops).0;
    var named := Named(params, locs);
    var st := View(h, env);
    EnvAllocated(F, h, env);
    EnterSeparate(F, G, args, h, env, ops);
    NamedAt(params, locs);
    forall i | 0 <= i < |locs|
      ensures locs[i].oid < |h'| && ReadLoc(h', locs[i]) == EvalAll(ArgExprs(args), st, ops)[i]
      ensures locs[i].oid < |h| ==> ReadLoc(h', locs[i]) == ReadLoc(h, locs[i])
      ensures !IsRef(params, args, env, i) ==> |h| <= locs[i].oid
    {
      BoundValue(params, args, h, env, ops, h', locs, i);
      ArgumentValue(args, st, ops, i);
      OwnBeyond(params, args, h, env, ops, h', locs, i);
    }
    PatchedNothing(h, locs, G.w, |locs|, h');
    BoundInvariant(G, h', named, args, env);
    BoundView(params, locs, h', named, EvalAll(ArgExprs(args), st, ops));
  }

  lemma {:induction false} CallOpen(F: Frame, g: Fn, wg: set<nat>, args: seq<Arg>, h: Heap, env: Bindings, ops: Ops)
    requires CallReady(F, g, wg, args, h, env, ops)
    ensures Inv(F, h, env) && |args| == |g.params| && Distinct(g.params)
    ensures forall i :: i in wg ==> i < |g.params| && g.params[i].mem
  {
    hide Inv, Disjoint, ArgumentsSpared, View;
  }

  lemma {:induction false} OwnBeyond(params: seq<Param>, args: seq<Arg>, h: Heap, env: Bindings, ops: Ops, h': Heap,
          locs: seq<Loc>, i: nat)
    requires |params| == |args| == |locs| && i < |args| && BoundAs(params, args, h, env, ops, h', locs, i)
    ensures !IsRef(params, args, env, i) ==> |h| <= locs[i].oid
  {
  }

  lemma {:induction false} ArgumentValue(args: seq<Arg>, st: Store, ops: Ops, i: nat)
    requires i < |args|
    ensures EvalAll(ArgExprs(args), st, ops)[i] == ArgValue(args[i], st, ops)
  {
    hide EvalAll, Eval;
    EvalAllAt(ArgExprs(args), st, ops, i);
  }

  lemma {:induction false} BoundInvariant(G: Frame, h': Heap, named: Bindings, args: seq<Arg>, env: Bindings)
    requires |args| == |G.fn.params| == |G.locs| && Separate(G, named) && Distinct(G.fn.params)
    requires forall i :: 0 <= i < |G.locs| ==> G.fn.params[i].name in named && named[G.fn.params[i].name] == G.locs[i]
    requires forall x :: x in named ==> exists i :: 0 <= i < |G.fn.params| && G.fn.params[i].name == x
    requires forall i :: 0 <= i < |G.locs| ==> G.locs[i].oid < |h'|
    requires forall i :: 0 <= i < |G.locs| && !IsRef(G.fn.params, args, env, i) ==> |G.h0| <= G.locs[i].oid
    requires CalleeLoud(G.fn, G.w, G.loud) && forall i :: i in G.w ==> i < |G.fn.params| && G.fn.params[i].mem
    requires |G.h0| <= |h'| && h'[..|G.h0|] == G.h0 == Patched(G.h0, G.locs, G.w, |G.locs|, h')
    ensures Inv(G, h', named)
  {
    hide Separate, Patched, IsRef, Distinct, PartOf;
    assert Traced(G, named) by {
      forall x | x in named && named[x].oid < |G.h0| ensures exists i :: TracedTo(G, x, named[x], i) {
        var i :| 0 <= i < |G.fn.params| && G.fn.params[i].name == x;
        if !G.fn.params[i].mem {
          ValueIsNoRef(G.fn.params, args, env, i);
          assert false;
        }
        WholeObject(G.locs[i]);
        assert TracedTo(G, x, named[x], i);
      }
    }
    assert Owned(G, named) by {
      forall x | x in named && x in G.loud && !WrittenBack(G, x) ensures |G.h0| <= named[x].oid {
        var i :| 0 <= i < |G.fn.params| && G.fn.params[i].name == x;
        assert i !in G.w;
        ValueIsNoRef(G.fn.params, args, env, i);
      }
    }
    assert Allocated(h', named) by {
      forall x | x in named ensures named[x].oid < |h'| {
        var i :| 0 <= i < |G.fn.params| && G.fn.params[i].name == x;
      }
    }
    assert Kept(G, named);
    assert Framed(G, h');
  }

  lemma {:induction false} WholeObject(l: Loc)
    ensures PartOf(l, l)
  {
  }

  lemma {:induction false} ValueIsNoRef(params: seq<Param>, args: seq<Arg>, env: Bindings, i: nat)
    requires |params| == |args| && i < |args| && !params[i].mem
    ensures !IsRef(params, args, env, i)
  {
  }

  lemma {:induction false} BoundView(params: seq<Param>, locs: seq<Loc>, h': Heap, named: Bindings, vals: seq<Val>)
    requires |params| == |locs| == |vals| && Distinct(params) && named == Named(params, locs)
    requires forall i :: 0 <= i < |locs| ==> ReadLoc(h', locs[i]) == vals[i]
    ensures View(h', named) == AssignAll(ParamNames(params), vals, map[])
  {
    hide ReadLoc, Named, AssignAll, ParamNames, Distinct, View;
    NamedAt(params, locs);
    var names := ParamNames(params);
    NamesOf(params);
    AssignedAt(names, vals);
    var a, b := View(h', named), AssignAll(names, vals, map[]);
    forall x | x in named ensures x in b && a[x] == b[x] {
      var i :| 0 <= i < |params| && params[i].name == x;
      assert names[i] == x;
      ViewAt(h', named, x);
    }
    forall x | x in b ensures x in named {
      var i :| 0 <= i < |names| && names[i] == x;
      assert params[i].name == x;
    }
    SameStore(a, b);
  }

  lemma {:induction false} SameStore(a: Store, b: Store)
    requires (forall x :: x in a ==> x in b && a[x] == b[x]) && forall x :: x in b ==> x in a
    ensures a == b
  {
  }

  lemma {:induction false} ViewAt(h: Heap, env: Bindings, x: string)
    requires x in env
    ensures x in View(h, env) && View(h, env)[x] == ReadLoc(h, env[x])
  {
  }

  lemma {:induction false} NamesOf(params: seq<Param>)
    requires Distinct(params)
    ensures forall i :: 0 <= i < |params| ==> ParamNames(params)[i] == params[i].name
    ensures forall i, j :: 0 <= i < j < |params| ==> ParamNames(params)[i] != ParamNames(params)[j]
  {
  }

  /** Entering a function: the invariant holds, and the copies the translation makes are what names denote. */
  lemma {:induction false} EnterKeeps(F: Frame, G: Frame, args: seq<Arg>, h: Heap, env: Bindings, ops: Ops, tg: CopyFn)
    requires CallReady(F, G.fn, G.w, args, h, env, ops) && CalleeOk(G) && |args| == |G.fn.params|
    requires G.h0 == h && G.locs == Bind(G.fn.params, args, h, env, ops).1
    requires tg.params == ParamNames(G.fn.params) && tg.locals == G.fn.locals
    ensures var (h', env') := Enter(G.fn, args, h, env, ops);
            && Inv(G, h', env')
            && View(h', env') == EnterCopy(tg, EvalAll(ArgExprs(args), View(h, env), ops))
  {
    hide Bind, Named, Inv, View, AssignAll, Rebind, CallReady, CalleeOk;
    var g := G.fn;
    CallOpen(F, g, G.w, args, h, env, ops);
    ParametersBound(F, G, args, h, env, ops);
    LocalsApart(F, g, G.w, args, h, env, ops);
    RebindAllKeeps(G, Bind(g.params, args, h, env, ops).0, Named(g.params, G.locs), g.locals,
            MemoryLang.Zeros(|g.locals|));
  }

  lemma {:induction false} LocalsApart(F: Frame, g: Fn, wg: set<nat>, args: seq<Arg>, h: Heap, env: Bindings, ops: Ops)
    requires CallReady(F, g, wg, args, h, env, ops)
    ensures Avoids(g, wg, g.locals)
  {
    hide Inv, Disjoint, ArgumentsSpared, View;
  }
}
