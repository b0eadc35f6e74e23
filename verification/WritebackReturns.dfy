/**
 A call's return: the results are handed to the caller, the final values assigned back to the arguments'
 paths, and calls hoisted out of those paths made again.
 */
module WritebackReturns {
  import opened Options
  import opened MemoryLang
  import opened MemoryCopy
  import opened WritebackFrames

  // ----- returning from a function -----

  /** The final values of the written-back parameters among the first n. */
  ghost function FinalValues(locs: seq<Loc>, w: set<nat>, n: nat, h: Heap): (r: seq<Val>)
    requires n <= |locs|
    ensures |r| == |Indices(w, n)|
  {
    if n == 0 then []
    else FinalValues(locs, w, n - 1, h) + (if n - 1 in w then [ReadLoc(h, locs[n - 1])] else [])
  }

  lemma {:induction false} FinalValueAt(locs: seq<Loc>, w: set<nat>, n: nat, h: Heap, i: nat)
    requires i < n <= |locs| && i in w
    ensures |Indices(w, i)| < |FinalValues(locs, w, n, h)|
    ensures FinalValues(locs, w, n, h)[|Indices(w, i)|] == ReadLoc(h, locs[i])
  {
    hide ReadLoc;
    if i < n - 1 {
      FinalValueAt(locs, w, n - 1, h, i);
    }
  }

  lemma {:induction false} EvalAllAppend(a: seq<Expr>, b: seq<Expr>, st: Store, ops: Ops)
    ensures EvalAll(a + b, st, ops) == EvalAll(a, st, ops) + EvalAll(b, st, ops)
    decreases |b|
  {
    hide Eval;
    if b == [] {
      assert a + b == a;
    } else {
      assert (a + b)[..|a + b| - 1] == a + b[..|b| - 1];
      EvalAllAppend(a, b[..|b| - 1], st, ops);
    }
  }

  lemma {:induction false} ReadsName(x: string, st: Store, ops: Ops)
    ensures Eval(Read(x, []), st, ops) == if x in st then st[x] else Zero()
    ensures EvalAll([Read(x, [])], st, ops) == [Eval(Read(x, []), st, ops)]
  {
    hide Get;
    if x in st {
      GetAll(st[x]);
    }
    assert [Read(x, [])][..0] == [];
  }

  /** Reading the written-back parameters in the copied store gives the final values of the shared objects. */
  lemma {:induction false} FinalReads(F: Frame, h: Heap, env: Bindings, n: nat, ops: Ops)
    requires Kept(F, env) && n <= |F.locs|
    ensures EvalAll(WritebackReads(F.fn.params, F.w, n), View(h, env), ops) == FinalValues(F.locs, F.w, n, h)
  {
    hide Eval, EvalAll, ReadLoc;
    if n == 0 {
      NoExprs(View(h, env), ops);
    } else {
      FinalReads(F, h, env, n - 1, ops);
      if n - 1 in F.w {
        var x := F.fn.params[n - 1].name;
        EvalAllAppend(WritebackReads(F.fn.params, F.w, n - 1), [Read(x, [])], View(h, env), ops);
        ReadsName(x, View(h, env), ops);
        assert View(h, env)[x] == ReadLoc(h, F.locs[n - 1]);
      } else {
        assert WritebackReads(F.fn.params, F.w, n) == WritebackReads(F.fn.params, F.w, n - 1);
      }
    }
  }

  lemma {:induction false} NoExprs(st: Store, ops: Ops)
    ensures EvalAll([], st, ops) == []
  {
  }

  // ----- the returned objects -----

  /** Result k is an object of the activation itself or part of a parameter's object it may share. */
  ghost predicate HandedOver(F: Frame, l: Loc, k: nat) {
    |F.h0| <= l.oid || exists i :: i < |F.locs| && (k, i) in F.note.shares && PartOf(l, F.locs[i])
  }

  ghost predicate ResultsKept(F: Frame, h: Heap, locs: seq<Loc>) {
    && (forall k :: 0 <= k < |locs| ==> locs[k].oid < |h| && HandedOver(F, locs[k], k))
    && (forall k, l :: 0 <= k < l < |locs| ==> Sep(locs[k], locs[l]) || (k, l) in F.note.twins)
  }

  lemma {:induction false} PartDown(l: Loc, m: Loc, q: Path)
    requires PartOf(l, m)
    ensures PartOf(l.Down(q), m)
  {
    assert (l.path + q)[..|m.path|] == l.path[..|m.path|];
  }

  /** A returned reference is part of what its name denotes. */
  lemma {:induction false} ReferenceHanded(F: Frame, h: Heap, env: Bindings, es: seq<Arg>, k: nat, q: Path)
    requires Inv(F, h, env) && ReturnOk(F.fn.params, F.note, es) && k < |es| && es[k].Ref? && es[k].x in env
    ensures HandedOver(F, env[es[k].x].Down(q), k)
  {
    hide Framed, Kept, Separate, Owned, Allocated, PartOf, ReturnsApart;
    var x := es[k].x;
    if env[x].oid < |F.h0| {
      var i: nat :| TracedTo(F, x, env[x], i);
      PartDown(env[x], F.locs[i], q);
      assert (k, i) in F.note.shares;
    }
  }

  /** Two returned references. */
  lemma {:induction false} ReferencesApart(F: Frame, env: Bindings, a: Arg, b: Arg, st: Store, ops: Ops)
    requires Separate(F, env) && a.Ref? && b.Ref? && a.x in env && b.x in env && ReturnsApart(F.note.may, a, b)
    ensures Sep(env[a.x].Down(EvalPath(a.path, st, ops)), env[b.x].Down(EvalPath(b.path, st, ops)))
  {
    hide EvalPath, Parted;
    var (p, q) := (EvalPath(a.path, st, ops), EvalPath(b.path, st, ops));
    if a.x == b.x {
      PartedDiverge(a.path, b.path, st, ops);
      Cancel(env[a.x].path, p, q);
      Cancel(env[a.x].path, q, p);
    } else {
      SepDown(env[a.x], env[b.x], p);
      SepDown(env[b.x], env[a.x].Down(p), q);
    }
  }

  lemma {:induction false} ReturnedPair(F: Frame, h: Heap, env: Bindings, es: seq<Arg>, ops: Ops, k: nat, l: nat)
    requires Inv(F, h, env) && ReturnOk(F.fn.params, F.note, es) && RootsDeclared(es, env) && k < l < |es|
    ensures var locs := Bind(AllMemory(|es|), es, h, env, ops).1;
            Sep(locs[k], locs[l]) || (k, l) in F.note.twins
  {
    hide Framed, Kept, Owned, Traced, Separate, PartOf, ReturnsApart, Bind, EvalPath, View, ArgValue;
    var params := AllMemory(|es|);
    BindFacts(params, es, h, env, ops);
    var (h', locs) := Bind(params, es, h, env, ops);
    assert BoundAs(params, es, h, env, ops, h', locs, k) && BoundAs(params, es, h, env, ops, h', locs, l);
    if es[k].Ref? && es[l].Ref? && ReturnsApart(F.note.may, es[k], es[l]) {
      ReferencesApart(F, env, es[k], es[l], View(h, env), ops);
    } else if !(es[k].Ref? && es[l].Ref?) {
      assert locs[k].oid != locs[l].oid;
    }
  }

  lemma {:induction false} ReturnedOne(F: Frame, h: Heap, env: Bindings, es: seq<Arg>, ops: Ops, k: nat)
    requires Inv(F, h, env) && ReturnOk(F.fn.params, F.note, es) && RootsDeclared(es, env) && k < |es|
    ensures var (h', locs) := Bind(AllMemory(|es|), es, h, env, ops);
            && locs[k].oid < |h'| && HandedOver(F, locs[k], k)
            && ReadLoc(h', locs[k]) == EvalAll(ArgExprs(es), View(h, env), ops)[k]
  {
    hide Inv, HandedOver, ReturnOk, Bind, EvalPath, View, ArgValue, ReadLoc, EvalAll, ArgExprs;
    var params := AllMemory(|es|);
    BindFacts(params, es, h, env, ops);
    var (h', locs) := Bind(params, es, h, env, ops);
    assert BoundAs(params, es, h, env, ops, h', locs, k);
    EnvAllocated(F, h, env);
    BoundValue(params, es, h, env, ops, h', locs, k);
    ArgumentValue(es, View(h, env), ops, k);
    if es[k].Ref? {
      ReferenceHanded(F, h, env, es, k, EvalPath(es[k].path, View(h, env), ops));
    } else {
      OwnHanded(F, h, env, locs[k], k);
    }
  }

  lemma {:induction false} OwnHanded(F: Frame, h: Heap, env: Bindings, l: Loc, k: nat)
    requires Inv(F, h, env) && |h| <= l.oid
    ensures HandedOver(F, l, k)
  {
  }

  /** Returning: references are handed over, other results become objects, and all have the copies' values. */
  lemma {:induction false} ResultsHanded(F: Frame, h: Heap, env: Bindings, es: seq<Arg>, ops: Ops)
    requires Inv(F, h, env) && ReturnOk(F.fn.params, F.note, es) && RootsDeclared(es, env)
    ensures var (h', locs) := Bind(AllMemory(|es|), es, h, env, ops);
            && Inv(F, h', env) && View(h', env) == View(h, env) && ResultsKept(F, h', locs)
            && Values(h', locs) == EvalAll(ArgExprs(es), View(h, env), ops)
  {
    hide Inv, ReturnOk, HandedOver, Bind, View, EvalAll, ArgExprs, ReadLoc, Sep, BoundAs, RootsDeclared;
    var params := AllMemory(|es|);
    BindFacts(params, es, h, env, ops);
    var (h', locs) := Bind(params, es, h, env, ops);
    assert h' == h + h'[|h|..];
    InvExtended(F, h, env, h'[|h|..]);
    forall k | 0 <= k < |locs| ensures locs[k].oid < |h'| && HandedOver(F, locs[k], k)
        && ReadLoc(h', locs[k]) == EvalAll(ArgExprs(es), View(h, env), ops)[k]
    {
      ReturnedOne(F, h, env, es, ops, k);
    }
    forall k, l | 0 <= k < l < |locs| ensures Sep(locs[k], locs[l]) || (k, l) in F.note.twins {
      ReturnedPair(F, h, env, es, ops, k, l);
    }
  }

  // ----- assigning back -----

  /** After the first n arguments have been assigned back. */
  ghost predicate Moved(args: seq<Arg>, w: set<nat>, n: nat, st: Store, st': Store, ops: Ops) {
    && Touched(args, w, n, st, st')
    && (forall i :: n <= i < |args| && i in w && args[i].Ref? ==>
          EvalPath(args[i].path, st', ops) == EvalPath(args[i].path, st, ops))
    && (forall i, k :: n <= k < i < |args| && i in w && k in w && args[i].Ref? && args[k].Ref? ==>
          PathSpares(args[i].path, st', ops, args[k].x, EvalPath(args[k].path, st, ops)))
  }

  /** Only roots of the first n written-back arguments have changed. */
  predicate Touched(args: seq<Arg>, w: set<nat>, n: nat, st: Store, st': Store) {
    && st'.Keys == st.Keys
    && forall x :: x in st && x in st' && (forall j :: 0 <= j < n && j < |args| && j in w && args[j].Ref? ==> args[j].x != x)
         ==> st'[x] == st[x]
  }

  lemma {:induction false} NothingMoved(args: seq<Arg>, w: set<nat>, st: Store, ops: Ops)
    requires ArgumentsSpared(w, args, st, ops)
    ensures Moved(args, w, 0, st, st, ops)
  {
    hide EvalPath, PathSpares;
  }

  /** Assigning one more argument back moves no argument after it. */
  lemma {:induction false} OneMoved(args: seq<Arg>, w: set<nat>, k: nat, st: Store, st': Store, v: Val, ops: Ops)
    requires Moved(args, w, k, st, st', ops) && k < |args| && k in w && args[k].Ref? && args[k].x in st'
    ensures Moved(args, w, k + 1, st, st'[args[k].x := Set(st'[args[k].x], EvalPath(args[k].path, st, ops), v)], ops)
  {
    hide EvalPath, PathSpares, Set;
    var (x, p) := (args[k].x, EvalPath(args[k].path, st, ops));
    var after := st'[x := Set(st'[x], p, v)];
    forall i | k < i < |args| && i in w && args[i].Ref?
      ensures EvalPath(args[i].path, after, ops) == EvalPath(args[i].path, st, ops)
    {
      PathSpared(args[i].path, st', ops, x, p, v, x, p);
    }
    forall i, j | k < j < i < |args| && i in w && j in w && args[i].Ref? && args[j].Ref?
      ensures PathSpares(args[i].path, after, ops, args[j].x, EvalPath(args[j].path, st, ops))
    {
      PathSpared(args[i].path, st', ops, x, p, v, args[j].x, EvalPath(args[j].path, st, ops));
    }
  }

  lemma {:induction false} NoneMoved(args: seq<Arg>, w: set<nat>, k: nat, st: Store, st': Store, ops: Ops)
    requires Moved(args, w, k, st, st', ops) && (k < |args| ==> !(k in w && args[k].Ref?))
    ensures Moved(args, w, k + 1, st, st', ops)
  {
    hide EvalPath, PathSpares;
  }

  /** Hoisting again leaves the path and everything but the part at it as it is. */
  ghost predicate LeavesPart(o: CopyOutcome, st: Store, tmp: Packed, x: string, path: seq<Seg>, ops: Ops) {
    && o.CRuns? && o.tmp == tmp && o.st.Keys == st.Keys && x in st
    && EvalPath(path, o.st, ops) == EvalPath(path, st, ops)
    && (forall y :: y in st && y in o.st && y != x ==> o.st[y] == st[y])
    && (x in o.st ==> var p := EvalPath(path, st, ops); Set(o.st[x], p, Zero()) == Set(st[x], p, Zero()))
  }

  /** What is hoisted out of written-back arguments can be hoisted again when they are assigned back. */
  ghost predicate HoistsRepeat(tp: CopyProgram, ops: Ops, again: Hoists, w: set<nat>, args: seq<Arg>, st: Store,
          fuel: nat)
  {
    forall k, st', tmp :: k in w && k < |args| && args[k].Ref? && Touched(args, w, k, st, st') && args[k].x in st'
                          && EvalPath(args[k].path, st', ops) == EvalPath(args[k].path, st, ops) ==>
      LeavesPart(ExecCopy(tp, ops, HoistAgain(again, k), st', tmp, fuel), st', tmp, args[k].x, args[k].path, ops)
  }

  lemma {:induction false} NoHoistsRepeat(tp: CopyProgram, ops: Ops, w: set<nat>, args: seq<Arg>, st: Store, fuel: nat)
    ensures HoistsRepeat(tp, ops, map[], w, args, st, fuel)
  {
    hide EvalPath, Set;
  }

  /** Assigning the final values back turns the caller's copies into what its shared objects have become. */
  lemma {:induction false} BacksRun(F: Frame, g: Fn, wg: set<nat>, args: seq<Arg>, h: Heap, env: Bindings, ops: Ops,
          tp: CopyProgram, again: Hoists, hr: Heap, n: nat, vals: seq<Val>, fuel: nat)
    requires CallReady(F, g, wg, args, h, env, ops) && n <= |args|
    requires HoistsRepeat(tp, ops, again, wg, args, View(h, env), fuel)
    ensures var locs := Bind(g.params, args, h, env, ops).1;
            var all := vals + FinalValues(locs, wg, |args|, hr);
            var back := Patched(h, locs, wg, n, hr);
            && Inv(F, back, env)
            && Moved(args, wg, n, View(h, env), View(back, env), ops)
            && ExecCopy(tp, ops, BackAssigns(args, wg, n, |vals|, |all|, again), View(h, env), Pack(all), fuel)
               == CRuns(View(back, env), Pack(all))
  {
    hide Bind, Inv, View, FinalValues, Indices, Pack, ReadLoc, EvalPath, Set, WriteLoc, CallReady, ExecCopy,
         BackAssigns, Moved, HoistsRepeat, Eval;
    CallOpen(F, g, wg, args, h, env, ops);
    var (st, locs) := (View(h, env), Bind(g.params, args, h, env, ops).1);
    var all := vals + FinalValues(locs, wg, |args|, hr);
    if n == 0 {
      CallSpared(F, g, wg, args, h, env, ops);
      NothingMoved(args, wg, st, ops);
      NothingBack(args, wg, |vals|, |all|, again, tp, ops, st, Pack(all), fuel);
    } else {
      BacksRun(F, g, wg, args, h, env, ops, tp, again, hr, n - 1, vals, fuel);
      var before := Patched(h, locs, wg, n - 1, hr);
      var k := n - 1;
      if k in wg && args[k].Ref? {
        BackArgument(F, g, wg, args, h, env, ops, k);
        BackLocation(g, wg, args, h, env, ops, k);
        FinalValueAt(locs, wg, |args|, hr, k);
        var v := ReadLoc(hr, locs[k]);
        assert all[|vals| + |Indices(wg, k)|] == v;
        RepeatHere(tp, ops, again, wg, args, st, View(before, env), Pack(all), k, fuel);
        OneMoreBack(tp, ops, args, wg, k, |vals|, all, again, st, View(before, env), fuel);
        OneMoved(args, wg, k, st, View(before, env), v, ops);
        WriteKeeps(F, before, env, args[k].x, EvalPath(args[k].path, st, ops), v);
      } else {
        NoneMoved(args, wg, k, st, View(before, env), ops);
        NoBack(args, wg, k, |vals|, |all|, again);
        CopiedLocation(g, wg, args, h, env, ops, k, before, hr);
      }
    }
  }

  lemma {:induction false} CallSpared(F: Frame, g: Fn, wg: set<nat>, args: seq<Arg>, h: Heap, env: Bindings, ops: Ops)
    requires CallReady(F, g, wg, args, h, env, ops)
    ensures ArgumentsSpared(wg, args, View(h, env), ops)
  {
    hide Inv, Disjoint, ArgumentsSpared, View;
  }

  /** Where a written-back argument is. */
  lemma {:induction false} BackLocation(g: Fn, wg: set<nat>, args: seq<Arg>, h: Heap, env: Bindings, ops: Ops, k: nat)
    requires |args| == |g.params| && k < |args| && IsRef(g.params, args, env, k)
    ensures Bind(g.params, args, h, env, ops).1[k] == env[args[k].x].Down(EvalPath(args[k].path, View(h, env), ops))
  {
    hide Bind, View, EvalPath, ArgValue;
    BindFacts(g.params, args, h, env, ops);
    var (h1, locs) := Bind(g.params, args, h, env, ops);
    assert BoundAs(g.params, args, h, env, ops, h1, locs, k);
  }

  /** An argument that is a copy is no object of the caller's. */
  lemma {:induction false} CopiedLocation(g: Fn, wg: set<nat>, args: seq<Arg>, h: Heap, env: Bindings, ops: Ops, k: nat,
          before: Heap, hr: Heap)
    requires |args| == |g.params| && k < |args| && !(k in wg && args[k].Ref?) && |before| == |h|
    ensures var locs := Bind(g.params, args, h, env, ops).1;
            k in wg ==> WriteLoc(before, locs[k], ReadLoc(hr, locs[k])) == before
  {
    hide Bind, View, EvalPath, ArgValue, WriteLoc, ReadLoc;
    BindFacts(g.params, args, h, env, ops);
    var (h1, locs) := Bind(g.params, args, h, env, ops);
    if k in wg {
      assert BoundAs(g.params, args, h, env, ops, h1, locs, k);
      WriteBeyond(before, locs[k], ReadLoc(hr, locs[k]));
    }
  }

  lemma {:induction false} BackArgument(F: Frame, g: Fn, wg: set<nat>, args: seq<Arg>, h: Heap, env: Bindings,
          ops: Ops, k: nat)
    requires CallReady(F, g, wg, args, h, env, ops) && k in wg && k < |args| && args[k].Ref?
    ensures FrameOk(F) && args[k].x in env && args[k].x in F.loud && |args| == |g.params|
    ensures IsRef(g.params, args, env, k)
  {
    hide Inv, Disjoint, ArgumentsSpared, View, FrameOk;
  }

  lemma {:induction false} RepeatHere(tp: CopyProgram, ops: Ops, again: Hoists, w: set<nat>, args: seq<Arg>, st: Store,
          st': Store, tmp: Packed, k: nat, fuel: nat)
    requires HoistsRepeat(tp, ops, again, w, args, st, fuel) && Moved(args, w, k, st, st', ops)
    requires k < |args| && k in w && args[k].Ref? && args[k].x in st'
    ensures EvalPath(args[k].path, st', ops) == EvalPath(args[k].path, st, ops)
    ensures LeavesPart(ExecCopy(tp, ops, HoistAgain(again, k), st', tmp, fuel), st', tmp, args[k].x, args[k].path, ops)
  {
    hide LeavesPart, ExecCopy, EvalPath, PathSpares, HoistAgain, Touched;
  }

  /** One more final value assigned back. */
  lemma {:induction false} OneMoreBack(tp: CopyProgram, ops: Ops, args: seq<Arg>, w: set<nat>, k: nat, first: nat,
          all: seq<Val>, again: Hoists, st: Store, st': Store, fuel: nat)
    requires k < |args| && k in w && args[k].Ref? && args[k].x in st' && first + |Indices(w, k)| < |all|
    requires ExecCopy(tp, ops, BackAssigns(args, w, k, first, |all|, again), st, Pack(all), fuel) == CRuns(st', Pack(all))
    requires LeavesPart(ExecCopy(tp, ops, HoistAgain(again, k), st', Pack(all), fuel), st', Pack(all), args[k].x,
                        args[k].path, ops)
    ensures ExecCopy(tp, ops, BackAssigns(args, w, k + 1, first, |all|, again), st, Pack(all), fuel)
            == CRuns(st'[args[k].x := Set(st'[args[k].x], EvalPath(args[k].path, st', ops),
                                          all[first + |Indices(w, k)|])], Pack(all))
  {
    hide Set, EvalPath, EvalCopy, Pack, Indices, HoistAgain;
    var (x, v) := (args[k].x, all[first + |Indices(w, k)|]);
    var o := ExecCopy(tp, ops, HoistAgain(again, k), st', Pack(all), fuel);
    ComponentOfPack(all, first + |Indices(w, k)|, o.st, ops);
    var p := EvalPath(args[k].path, st', ops);
    OverPart(o.st[x], st'[x], p, v);
    SameStore(o.st[x := Set(o.st[x], p, v)], st'[x := Set(st'[x], p, v)]);
    var (before, assign) := (CSeq(BackAssigns(args, w, k, first, |all|, again), HoistAgain(again, k)),
                             CAssign(x, args[k].path, CopyExpr.Component(first + |Indices(w, k)|, |all|)));
    assert ExecCopy(tp, ops, before, st, Pack(all), fuel) == o;
    assert BackAssigns(args, w, k + 1, first, |all|, again) == CSeq(before, assign);
  }

  /** Writing a part makes up for what it was before. */
  lemma {:induction false} OverPart(a: Val, b: Val, p: Path, v: Val)
    requires Set(a, p, Zero()) == Set(b, p, Zero())
    ensures Set(a, p, v) == Set(b, p, v)
  {
    hide Set;
    assert p + [] == p;
    SetSet(a, p, [], Zero(), v);
    SetSet(b, p, [], Zero(), v);
    SetAll(Zero(), v);
  }

  /** A parameter that is not written back, or whose argument is a copy, is not assigned back. */
  lemma {:induction false} NoBack(args: seq<Arg>, w: set<nat>, k: nat, first: nat, total: nat, again: Hoists)
    requires k < |args| && !(k in w && args[k].Ref?)
    ensures BackAssigns(args, w, k + 1, first, total, again) == BackAssigns(args, w, k, first, total, again)
  {
  }

  lemma {:induction false} NothingBack(args: seq<Arg>, w: set<nat>, first: nat, total: nat, again: Hoists,
          tp: CopyProgram, ops: Ops, st: Store, tmp: Packed, fuel: nat)
    ensures ExecCopy(tp, ops, BackAssigns(args, w, 0, first, total, again), st, tmp, fuel) == CRuns(st, tmp)
  {
  }

  lemma {:induction false} ViewExtended(h: Heap, env: Bindings, more: Heap)
    requires Allocated(h, env)
    ensures View(h + more, env) == View(h, env)
  {
    hide Get;
    forall x | x in env ensures ReadLoc(h + more, env[x]) == ReadLoc(h, env[x]) {
      assert env[x].oid < |h|;
    }
  }

  lemma {:induction false} InvExtended(F: Frame, h: Heap, env: Bindings, more: Heap)
    requires Inv(F, h, env)
    ensures Inv(F, h + more, env) && View(h + more, env) == View(h, env)
  {
    hide Separate, View, Framed, Kept;
    FramedExtended(F, h, env, more);
    ViewExtended(h, env, more);
  }

  lemma {:induction false} ResultsRun(tp: CopyProgram, ops: Ops, rs: seq<string>, n: nat, st: Store, all: seq<Val>,
          fuel: nat)
    requires n <= |rs| <= |all| && forall i :: 0 <= i < |rs| ==> rs[i] in st
    ensures ExecCopy(tp, ops, ResultAssigns(rs, n, |all|), st, Pack(all), fuel)
            == CRuns(AssignAll(rs[..n], all[..n], st), Pack(all))
    ensures st.Keys <= AssignAll(rs[..n], all[..n], st).Keys
  {
    hide Pack, Set, EvalCopy;
    if n > 0 {
      ResultsRun(tp, ops, rs, n - 1, st, all, fuel);
      var before := AssignAll(rs[..n - 1], all[..n - 1], st);
      assert rs[..n][..n - 1] == rs[..n - 1] && all[..n][..n - 1] == all[..n - 1];
      ComponentOfPack(all, n - 1, before, ops);
      SetAll(before[rs[n - 1]], all[n - 1]);
      assert EvalPath([], before, ops) == [];
    }
  }

  // ----- results bound in the caller -----

  lemma {:induction false} BoundAt(rs: seq<string>, locs: seq<Loc>, env: Bindings, x: string)
    requires |rs| == |locs| && x in BindResults(rs, locs, env)
    ensures x !in rs ==> x in env && BindResults(rs, locs, env)[x] == env[x]
    ensures x in rs ==> exists k :: 0 <= k < |rs| && rs[k] == x && BindResults(rs, locs, env)[x] == locs[k]
    decreases |rs|
  {
    if rs != [] {
      var n := |rs| - 1;
      if rs[n] != x {
        BoundAt(rs[..n], locs[..n], env, x);
        if x in rs[..n] {
          var k :| 0 <= k < |rs[..n]| && rs[..n][k] == x && BindResults(rs[..n], locs[..n], env)[x] == locs[..n][k];
          assert rs[k] == x && locs[..n][k] == locs[k];
        }
      }
    }
  }

  lemma {:induction false} ResultsView(rs: seq<string>, locs: seq<Loc>, h: Heap, env: Bindings)
    requires |rs| == |locs|
    ensures View(h, BindResults(rs, locs, env)) == AssignAll(rs, Values(h, locs), View(h, env))
    decreases |rs|
  {
    hide ReadLoc;
    if rs != [] {
      var n := |rs| - 1;
      ResultsView(rs[..n], locs[..n], h, env);
      assert Values(h, locs)[..n] == Values(h, locs[..n]);
      var before := BindResults(rs[..n], locs[..n], env);
      assert View(h, before[rs[n] := locs[n]]) == View(h, before)[rs[n] := ReadLoc(h, locs[n])];
    }
  }

  /** Where a result that is no object of the callee's is: in the object of an argument's root. */
  ghost predicate FromArgument(note: Note, args: seq<Arg>, env: Bindings, l: Loc, k: nat) {
    exists i :: i < |args| && (k, i) in note.shares && args[i].Ref? && args[i].x in env && PartOf(l, env[args[i].x])
  }

  lemma {:induction false} ResultFrom(G: Frame, args: seq<Arg>, h: Heap, env: Bindings, ops: Ops, l: Loc, k: nat)
    requires |args| == |G.fn.params| && G.h0 == h && G.locs == Bind(G.fn.params, args, h, env, ops).1
    requires HandedOver(G, l, k)
    ensures |h| <= l.oid || FromArgument(G.note, args, env, l, k)
  {
    hide Bind, View, EvalPath, ArgValue, PartOf;
    BindFacts(G.fn.params, args, h, env, ops);
    var h' := Bind(G.fn.params, args, h, env, ops).0;
    if l.oid < |h| {
      var i: nat :| i < |G.locs| && (k, i) in G.note.shares && PartOf(l, G.locs[i]);
      assert BoundAs(G.fn.params, args, h, env, ops, h', G.locs, i);
      PartOfPart(G.fn.params, args, h, env, ops, h', G.locs, i, l);
    }
  }

  lemma {:induction false} PartOfPart(params: seq<Param>, args: seq<Arg>, h: Heap, env: Bindings, ops: Ops, h': Heap,
          locs: seq<Loc>, i: nat, l: Loc)
    requires |params| == |args| == |locs| && i < |args| && BoundAs(params, args, h, env, ops, h', locs, i)
    requires PartOf(l, locs[i]) && l.oid < |h|
    ensures args[i].Ref? && args[i].x in env && PartOf(l, env[args[i].x])
  {
    hide EvalPath, View, ArgValue;
    if IsRef(params, args, env, i) {
      Front(env[args[i].x].path, EvalPath(args[i].path, View(h, env), ops), l.path);
    }
  }

  lemma {:induction false} SepPart(l: Loc, m: Loc, k: Loc)
    requires Sep(l, m) && PartOf(k, l)
    ensures Sep(k, m) && Sep(m, k)
  {
    assert k == l.Down(k.path[|l.path|..]);
    SepDown(l, m, k.path[|l.path|..]);
  }

  lemma {:induction false} PartTransitive(a: Loc, b: Loc, c: Loc)
    requires PartOf(a, b) && PartOf(b, c)
    ensures PartOf(a, c)
  {
    assert a.path[..|c.path|] == b.path[..|c.path|];
  }

  /** A result's name and a name that is none. */
  lemma {:induction false} ResultApart(F: Frame, note: Note, rs: seq<string>, args: seq<Arg>, h: Heap, env: Bindings,
          l: Loc, k: nat, z: string)
    requires Separate(F, env) && Allocated(h, env) && ResultsOk(F.note.may, note, rs, args) && k < |rs|
    requires |h| <= l.oid || FromArgument(note, args, env, l, k)
    requires z in env && z != rs[k]
    ensures Sep(l, env[z]) || (rs[k], z) in F.note.may
  {
    hide Sep, PartOf;
    if l.oid < |h| {
      var i: nat :| i < |args| && (k, i) in note.shares && args[i].Ref? && args[i].x in env
        && PartOf(l, env[args[i].x]);
      var y := args[i].x;
      assert Follows(F.note.may, rs[k], y);
      if y != z && Sep(env[y], env[z]) {
        SepPart(env[y], env[z], l);
      }
    } else {
      OtherObject(l, env[z]);
    }
  }

  lemma {:induction false} OtherObject(l: Loc, m: Loc)
    requires l.oid != m.oid
    ensures Sep(l, m) && Sep(m, l)
  {
  }

  lemma {:induction false} SepSymmetric(l: Loc, m: Loc)
    requires Sep(l, m)
    ensures Sep(m, l)
  {
  }

  /** The callee's results for the caller's names. */
  ghost predicate Received(note: Note, args: seq<Arg>, h: Heap, env: Bindings, h': Heap, locs: seq<Loc>) {
    && (forall k :: 0 <= k < |locs| ==> locs[k].oid < |h'| && (|h| <= locs[k].oid || FromArgument(note, args, env, locs[k], k)))
    && (forall k, l :: 0 <= k < l < |locs| ==> Sep(locs[k], locs[l]) || (k, l) in note.twins)
  }

  lemma {:induction false} ResultsReceived(G: Frame, args: seq<Arg>, h: Heap, env: Bindings, ops: Ops, h': Heap,
          locs: seq<Loc>)
    requires |args| == |G.fn.params| && G.h0 == h && G.locs == Bind(G.fn.params, args, h, env, ops).1
    requires ResultsKept(G, h', locs)
    ensures Received(G.note, args, h, env, h', locs)
  {
    hide Bind, HandedOver, FromArgument, Sep;
    forall k | 0 <= k < |locs| ensures |h| <= locs[k].oid || FromArgument(G.note, args, env, locs[k], k) {
      ResultFrom(G, args, h, env, ops, locs[k], k);
    }
  }

  lemma {:induction false} TwoResults(F: Frame, note: Note, rs: seq<string>, args: seq<Arg>, h: Heap, env: Bindings,
          h': Heap, locs: seq<Loc>, k: nat, l: nat)
    requires Received(note, args, h, env, h', locs) && ResultsOk(F.note.may, note, rs, args) && |rs| == |locs|
    requires k < |rs| && l < |rs| && rs[k] != rs[l] && MayOk(F.note.may, F.loud)
    ensures Sep(locs[k], locs[l]) || (rs[k], rs[l]) in F.note.may
  {
    hide Sep, FromArgument, Follows;
    if k < l {
    } else {
      assert Sep(locs[l], locs[k]) || (l, k) in note.twins;
      if Sep(locs[l], locs[k]) {
        SepSymmetric(locs[l], locs[k]);
      }
    }
  }

  lemma {:induction false} BoundSeparate(F: Frame, note: Note, rs: seq<string>, args: seq<Arg>, h: Heap, env: Bindings,
          h': Heap, locs: seq<Loc>)
    requires Separate(F, env) && Allocated(h, env) && MayOk(F.note.may, F.loud)
    requires Received(note, args, h, env, h', locs) && ResultsOk(F.note.may, note, rs, args) && |rs| == |locs|
    ensures Separate(F, BindResults(rs, locs, env))
  {
    hide Sep, FromArgument, Follows, ResultsOk, BindResults;
    var env' := BindResults(rs, locs, env);
    forall x, y | x in env' && y in env' && x != y ensures Sep(env'[x], env'[y]) || (x, y) in F.note.may {
      BoundAt(rs, locs, env, x);
      BoundAt(rs, locs, env, y);
      if x in rs {
        var k :| 0 <= k < |rs| && rs[k] == x && env'[x] == locs[k];
        if y in rs {
          var l :| 0 <= l < |rs| && rs[l] == y && env'[y] == locs[l];
          TwoResults(F, note, rs, args, h, env, h', locs, k, l);
        } else {
          ResultApart(F, note, rs, args, h, env, locs[k], k, y);
        }
      } else if y in rs {
        var l :| 0 <= l < |rs| && rs[l] == y && env'[y] == locs[l];
        ResultApart(F, note, rs, args, h, env, locs[l], l, x);
        if Sep(locs[l], env[x]) {
          SepSymmetric(locs[l], env[x]);
        }
      }
    }
  }

  /** What holds of one bound result. */
  lemma {:induction false} BoundTraced(F: Frame, note: Note, rs: seq<string>, args: seq<Arg>, h: Heap, env: Bindings,
          l: Loc, k: nat)
    requires Traced(F, env) && |F.h0| <= |h| && ResultsOk(F.note.may, note, rs, args) && k < |rs|
    requires MayOk(F.note.may, F.loud) && (|h| <= l.oid || FromArgument(note, args, env, l, k))
    ensures |F.h0| <= l.oid || exists i :: TracedTo(F, rs[k], l, i)
  {
    hide PartOf;
    if l.oid < |F.h0| {
      var i: nat :| i < |args| && (k, i) in note.shares && args[i].Ref? && args[i].x in env
        && PartOf(l, env[args[i].x]);
      var y := args[i].x;
      assert Follows(F.note.may, rs[k], y);
      SameObject(l, env[y]);
      var j: nat :| TracedTo(F, y, env[y], j);
      PartTransitive(l, env[y], F.locs[j]);
      assert TracedTo(F, rs[k], l, j);
    }
  }

  lemma {:induction false} SameObject(l: Loc, m: Loc)
    requires PartOf(l, m)
    ensures l.oid == m.oid
  {
  }

  lemma {:induction false} BoundOwned(F: Frame, note: Note, rs: seq<string>, args: seq<Arg>, h: Heap, env: Bindings,
          l: Loc, k: nat)
    requires Owned(F, env) && |F.h0| <= |h| && ResultsOk(F.note.may, note, rs, args) && k < |rs| && rs[k] in F.loud
    requires MayOk(F.note.may, F.loud) && (|h| <= l.oid || FromArgument(note, args, env, l, k))
    requires !WrittenBack(F, rs[k])
    ensures |F.h0| <= l.oid
  {
    hide WrittenBack, PartOf;
    if l.oid < |h| {
      var i: nat :| i < |args| && (k, i) in note.shares && args[i].Ref? && args[i].x in env
        && PartOf(l, env[args[i].x]);
      assert Follows(F.note.may, rs[k], args[i].x);
      SameObject(l, env[args[i].x]);
    }
  }

  /** Binding the results of a call keeps the caller's invariant. */
  lemma {:induction false} ResultsKeep(F: Frame, note: Note, rs: seq<string>, args: seq<Arg>, h: Heap, env: Bindings,
          h': Heap, locs: seq<Loc>)
    requires Inv(F, h, env) && Inv(F, h', env) && FrameOk(F) && |rs| == |locs|
    requires Received(note, args, h, env, h', locs) && ResultsOk(F.note.may, note, rs, args) && Avoids(F.fn, F.w, rs)
    ensures Inv(F, h', BindResults(rs, locs, env))
  {
    hide Sep, FromArgument, Separate, ResultsOk, BindResults, Framed, Kept, MayOk, WrittenBack, Received, FrameOk, Avoids,
         TracedTo;
    var env' := BindResults(rs, locs, env);
    CallerFacts(F, h);
    BoundSeparate(F, note, rs, args, h, env, h', locs);
    BoundKept(F, rs, locs, env);
    forall x | x in env'
      ensures env'[x].oid < |h'| && (|F.h0| <= env'[x].oid || exists i :: TracedTo(F, x, env'[x], i))
      ensures x in F.loud && !WrittenBack(F, x) ==> |F.h0| <= env'[x].oid
    {
      OneBound(F, note, rs, args, h, env, h', locs, x);
    }
    assert Allocated(h', env');
    assert Traced(F, env');
    assert Owned(F, env');
  }

  lemma {:induction false} CallerFacts(F: Frame, h: Heap)
    requires Framed(F, h) && FrameOk(F)
    ensures |F.h0| <= |h| && MayOk(F.note.may, F.loud)
  {
  }

  lemma {:induction false} BoundKept(F: Frame, rs: seq<string>, locs: seq<Loc>, env: Bindings)
    requires Kept(F, env) && Avoids(F.fn, F.w, rs) && |rs| == |locs|
    ensures Kept(F, BindResults(rs, locs, env))
  {
    hide BindResults;
    var env' := BindResults(rs, locs, env);
    forall i | i in F.w ensures F.fn.params[i].name in env' && env'[F.fn.params[i].name] == F.locs[i] {
      BoundAt(rs, locs, env, F.fn.params[i].name);
    }
  }

  lemma {:induction false} OneBound(F: Frame, note: Note, rs: seq<string>, args: seq<Arg>, h: Heap, env: Bindings,
          h': Heap, locs: seq<Loc>, x: string)
    requires Allocated(h', env) && Traced(F, env) && Owned(F, env) && |F.h0| <= |h| && MayOk(F.note.may, F.loud)
    requires Received(note, args, h, env, h', locs) && ResultsOk(F.note.may, note, rs, args) && |rs| == |locs|
    requires x in BindResults(rs, locs, env)
    ensures var l := BindResults(rs, locs, env)[x];
            && l.oid < |h'| && (|F.h0| <= l.oid || exists i :: TracedTo(F, x, l, i))
            && (x in F.loud && !WrittenBack(F, x) ==> |F.h0| <= l.oid)
  {
    hide Sep, FromArgument, ResultsOk, BindResults, MayOk, WrittenBack, TracedTo;
    BoundAt(rs, locs, env, x);
    if x in rs {
      var k :| 0 <= k < |rs| && rs[k] == x && BindResults(rs, locs, env)[x] == locs[k];
      BoundTraced(F, note, rs, args, h, env, locs[k], k);
      if x in F.loud && !WrittenBack(F, x) {
        BoundOwned(F, note, rs, args, h, env, locs[k], k);
      }
    }
  }

  // ----- hoisted calls -----

  /** Wherever the listed names are as now, the statement can be run again and changes nothing. */
  ghost predicate Repeats(tp: CopyProgram, ops: Ops, c: CopyStmt, names: set<string>, st: Store, fuel: nat) {
    forall st': Store, tmp :: st'.Keys == st.Keys && SameOn(names, st, st') ==>
      ExecCopy(tp, ops, c, st', tmp, fuel) == CRuns(st', tmp)
  }

  ghost predicate AllRepeat(tp: CopyProgram, ops: Ops, again: Hoists, used: map<nat, set<string>>, st: Store, fuel: nat) {
    again.Keys == used.Keys && forall k :: k in again && k in used ==> Repeats(tp, ops, again[k], used[k], st, fuel)
  }

  lemma {:induction false} NoBacks(args: seq<Arg>, n: nat, first: nat, total: nat, again: Hoists)
    requires n <= |args|
    ensures BackAssigns(args, {}, n, first, total, again) == CSkip
    decreases n
  {
    if n > 0 {
      NoBacks(args, n - 1, first, total, again);
    }
  }

  ghost function OneOf(tmp: Packed): Val {
    if tmp.One? then tmp.v else Zero()
  }

  /** A call with one result that writes nothing back sets the result's name. */
  lemma {:induction false} SimpleCall(tp: CopyProgram, ops: Ops, wb: Writebacks, pre: Stmt, st: Store, tmp: Packed,
          fuel: nat)
    requires OneResult(wb, pre) && pre.rs[0] in st
    ensures var c := ExecCopy(tp, ops, CCall(pre.f, ArgExprs(pre.args)), st, tmp, fuel);
            var o := ExecCopy(tp, ops, TranslateCall(wb, pre.rs, pre.f, pre.args, map[]), st, tmp, fuel);
            && (c.CRuns? ==> c.st == st)
            && o == if c.CRuns? then CRuns(st[pre.rs[0] := OneOf(c.tmp)], c.tmp) else c
  {
    hide Set, EvalAll, ArgExprs, EnterCopy, AllNames, Indices, BackAssigns, EvalPath;
    var call := CCall(pre.f, ArgExprs(pre.args));
    var c := ExecCopy(tp, ops, call, st, tmp, fuel);
    var t := pre.rs[0];
    SimpleCallForm(wb, pre);
    var assign := CAssign(t, [], CopyExpr.Component(0, 1));
    if c.CRuns? {
      NoKeys(st, ops);
      SetAll(st[t], OneOf(c.tmp));
      assert ExecCopy(tp, ops, assign, st, c.tmp, fuel) == CRuns(st[t := OneOf(c.tmp)], c.tmp);
      assert ExecCopy(tp, ops, CSeq(CSkip, assign), st, c.tmp, fuel) == CRuns(st[t := OneOf(c.tmp)], c.tmp);
      assert ExecCopy(tp, ops, CSeq(CSkip, CSeq(CSkip, assign)), st, c.tmp, fuel) == CRuns(st[t := OneOf(c.tmp)], c.tmp);
    }
  }

  lemma {:induction false} NoKeys(st: Store, ops: Ops)
    ensures EvalPath([], st, ops) == []
  {
  }

  lemma {:induction false} SimpleCallForm(wb: Writebacks, pre: Stmt)
    requires OneResult(wb, pre)
    ensures TranslateCall(wb, pre.rs, pre.f, pre.args, map[])
            == CSeq(CCall(pre.f, ArgExprs(pre.args)),
                    CSeq(CSkip, CSeq(CSkip, CAssign(pre.rs[0], [], CopyExpr.Component(0, 1)))))
  {
    hide ArgExprs, AllNames, BackAssigns, Indices;
    NoBacks(pre.args, |pre.args|, 1, 1, map[]);
    NoIndices(|pre.args|);
    assert pre.rs[..0] == [];
    assert ResultAssigns(pre.rs, 0, 1) == CSkip;
    assert ResultAssigns(pre.rs, 1, 1) == CSeq(CSkip, CAssign(pre.rs[0], [], CopyExpr.Component(0, 1)));
  }

  lemma {:induction false} NoIndices(n: nat)
    ensures Indices({}, n) == []
  {
    if n > 0 {
      NoIndices(n - 1);
    }
  }

  /** A call depends on its arguments' values only. */
  lemma {:induction false} SameCall(tp: CopyProgram, ops: Ops, f: string, es: seq<Expr>, st: Store, st': Store,
          tmp: Packed, tmp': Packed, fuel: nat)
    requires SameOn(AllNames(es), st, st')
    requires ExecCopy(tp, ops, CCall(f, es), st, tmp, fuel).CRuns?
    ensures ExecCopy(tp, ops, CCall(f, es), st', tmp', fuel)
            == CRuns(st', ExecCopy(tp, ops, CCall(f, es), st, tmp, fuel).tmp)
  {
    hide SameOn, AllNames, EvalAll;
    AllSame(es, st, st', ops);
  }

  /** Right after a hoisted call, making it again changes nothing. */
  lemma {:induction false} HoistRepeats(tp: CopyProgram, ops: Ops, wb: Writebacks, pre: Stmt, st: Store, tmp: Packed,
          fuel: nat)
    requires Repeatable(wb, pre) && pre.rs[0] in st
    requires ExecCopy(tp, ops, TranslateCall(wb, pre.rs, pre.f, pre.args, map[]), st, tmp, fuel).CRuns?
    ensures var c := TranslateCall(wb, pre.rs, pre.f, pre.args, map[]);
            Repeats(tp, ops, CKeep(c), AllNames(ArgExprs(pre.args)) + {pre.rs[0]}, ExecCopy(tp, ops, c, st, tmp, fuel).st, fuel)
  {
    hide AllNames, TranslateCall, ArgExprs;
    var c := TranslateCall(wb, pre.rs, pre.f, pre.args, map[]);
    var (t, es) := (pre.rs[0], ArgExprs(pre.args));
    var names := AllNames(es) + {t};
    SimpleCall(tp, ops, wb, pre, st, tmp, fuel);
    var st1 := ExecCopy(tp, ops, c, st, tmp, fuel).st;
    forall st': Store, tmp' | st'.Keys == st1.Keys && SameOn(names, st1, st')
      ensures ExecCopy(tp, ops, CKeep(c), st', tmp', fuel) == CRuns(st', tmp')
    {
      assert SameOn(AllNames(es), st, st');
      SameCall(tp, ops, pre.f, es, st, st', tmp, tmp', fuel);
      SimpleCall(tp, ops, wb, pre, st', tmp', fuel);
      SameName(t, names, st1, st');
    }
  }

  lemma {:induction false} SameName(t: string, names: set<string>, st: Store, st': Store)
    requires t in names && SameOn(names, st, st') && t in st
    ensures t in st' && st'[t := st[t]] == st'
  {
  }

  lemma {:induction false} RepeatsLater(tp: CopyProgram, ops: Ops, c: CopyStmt, names: set<string>, st: Store,
          st1: Store, fuel: nat)
    requires Repeats(tp, ops, c, names, st, fuel) && st1.Keys == st.Keys && SameOn(names, st, st1)
    ensures Repeats(tp, ops, c, names, st1, fuel)
  {
    hide ExecCopy;
    forall st': Store, tmp | st'.Keys == st1.Keys && SameOn(names, st1, st')
      ensures ExecCopy(tp, ops, c, st', tmp, fuel) == CRuns(st', tmp)
    {
      assert SameOn(names, st, st');
    }
  }

  lemma {:induction false} RepeatsHere(tp: CopyProgram, ops: Ops, c: CopyStmt, names: set<string>, st: Store, st': Store,
          tmp: Packed, fuel: nat)
    requires Repeats(tp, ops, c, names, st, fuel) && st'.Keys == st.Keys && SameOn(names, st, st')
    ensures ExecCopy(tp, ops, c, st', tmp, fuel) == CRuns(st', tmp)
  {
    hide ExecCopy;
  }

  lemma {:induction false} BothRun(tp: CopyProgram, ops: Ops, a: CopyStmt, b: CopyStmt, names: set<string>,
          more: set<string>, st: Store, st': Store, tmp: Packed, fuel: nat)
    requires Repeats(tp, ops, a, names, st, fuel) && Repeats(tp, ops, b, more, st, fuel)
    requires st'.Keys == st.Keys && SameOn(names + more, st, st')
    ensures ExecCopy(tp, ops, CSeq(a, b), st', tmp, fuel) == CRuns(st', tmp)
  {
    hide Repeats;
    assert SameOn(names, st, st') && SameOn(more, st, st');
    hide SameOn;
    RepeatsHere(tp, ops, a, names, st, st', tmp, fuel);
    RepeatsHere(tp, ops, b, more, st, st', tmp, fuel);
  }

  lemma {:induction false} RepeatsBoth(tp: CopyProgram, ops: Ops, a: CopyStmt, b: CopyStmt, names: set<string>,
          more: set<string>, st: Store, fuel: nat)
    requires Repeats(tp, ops, a, names, st, fuel) && Repeats(tp, ops, b, more, st, fuel)
    ensures Repeats(tp, ops, CSeq(a, b), names + more, st, fuel)
  {
    hide ExecCopy, SameOn;
    forall st': Store, tmp | st'.Keys == st.Keys && SameOn(names + more, st, st')
      ensures ExecCopy(tp, ops, CSeq(a, b), st', tmp, fuel) == CRuns(st', tmp)
    {
      BothRun(tp, ops, a, b, names, more, st, st', tmp, fuel);
    }
  }

  /** One more hoisted call among those that repeat. */
  lemma {:induction false} OneMoreRepeats(tp: CopyProgram, ops: Ops, wb: Writebacks, again: Hoists,
          used: map<nat, set<string>>, at: nat, pre: Stmt, st: Store, tmp: Packed, fuel: nat)
    requires AllRepeat(tp, ops, again, used, st, fuel) && Repeatable(wb, pre) && pre.rs[0] in st
    requires forall k :: k in used ==> pre.rs[0] !in used[k]
    requires ExecCopy(tp, ops, TranslateCall(wb, pre.rs, pre.f, pre.args, map[]), st, tmp, fuel).CRuns?
    ensures var c := TranslateCall(wb, pre.rs, pre.f, pre.args, map[]);
            AllRepeat(tp, ops, AddHoist(again, at, c),
                      used[at := NamesAt(used, at) + AllNames(ArgExprs(pre.args)) + {pre.rs[0]}],
                      ExecCopy(tp, ops, c, st, tmp, fuel).st, fuel)
  {
    hide Repeats, TranslateCall, AllNames, ArgExprs, ExecCopy;
    var c := TranslateCall(wb, pre.rs, pre.f, pre.args, map[]);
    var (t, more) := (pre.rs[0], AllNames(ArgExprs(pre.args)) + {pre.rs[0]});
    SimpleCall(tp, ops, wb, pre, st, tmp, fuel);
    var st1 := ExecCopy(tp, ops, c, st, tmp, fuel).st;
    forall k | k in again ensures Repeats(tp, ops, again[k], used[k], st1, fuel) {
      assert SameOn(used[k], st, st1);
      RepeatsLater(tp, ops, again[k], used[k], st, st1, fuel);
    }
    HoistRepeats(tp, ops, wb, pre, st, tmp, fuel);
    SkipRepeats(tp, ops, st1, fuel);
    assert Repeats(tp, ops, HoistAgain(again, at), NamesAt(used, at), st1, fuel);
    RepeatsBoth(tp, ops, HoistAgain(again, at), CKeep(c), NamesAt(used, at), more, st1, fuel);
    assert NamesAt(used, at) + AllNames(ArgExprs(pre.args)) + {t} == NamesAt(used, at) + more;
  }

  lemma {:induction false} SkipRepeats(tp: CopyProgram, ops: Ops, st: Store, fuel: nat)
    ensures Repeats(tp, ops, CSkip, {}, st, fuel)
  {
  }

  /** Assigning back earlier arguments leaves what was hoisted out of later ones. */
  lemma {:induction false} CallRepeats(tp: CopyProgram, ops: Ops, wb: Writebacks, s: Stmt, again: Hoists,
          used: map<nat, set<string>>, st: Store, fuel: nat)
    requires AllRepeat(tp, ops, again, used, st, fuel) && s.Call? && HoistOk(wb, s, used)
    ensures HoistsRepeat(tp, ops, again, WritebackOf(wb, s.f), s.args, st, fuel)
  {
    hide ExecCopy, EvalPath, LeavesPart, AllRepeat, HoistAgain, HoistOk, Touched;
    var (w, args) := (WritebackOf(wb, s.f), s.args);
    forall k, st': Store, tmp | k in w && k < |args| && args[k].Ref? && Touched(args, w, k, st, st') && args[k].x in st'
      && EvalPath(args[k].path, st', ops) == EvalPath(args[k].path, st, ops)
      ensures LeavesPart(ExecCopy(tp, ops, HoistAgain(again, k), st', tmp, fuel), st', tmp, args[k].x, args[k].path, ops)
    {
      OneCallRepeats(tp, ops, wb, s, again, used, st, st', tmp, k, fuel);
      UnchangedLeaves(st', tmp, args[k].x, args[k].path, ops);
    }
  }

  lemma {:induction false} OneCallRepeats(tp: CopyProgram, ops: Ops, wb: Writebacks, s: Stmt, again: Hoists,
          used: map<nat, set<string>>, st: Store, st': Store, tmp: Packed, k: nat, fuel: nat)
    requires AllRepeat(tp, ops, again, used, st, fuel) && s.Call? && HoistOk(wb, s, used)
    requires Touched(s.args, WritebackOf(wb, s.f), k, st, st')
    ensures ExecCopy(tp, ops, HoistAgain(again, k), st', tmp, fuel) == CRuns(st', tmp)
  {
    hide ExecCopy, Repeats;
    if k in again {
      assert SameOn(used[k], st, st');
      RepeatsHere(tp, ops, again[k], used[k], st, st', tmp, fuel);
    } else {
      SkipRepeats(tp, ops, st, fuel);
      RepeatsHere(tp, ops, CSkip, {}, st, st', tmp, fuel);
    }
  }

  lemma {:induction false} UnchangedLeaves(st: Store, tmp: Packed, x: string, path: seq<Seg>, ops: Ops)
    requires x in st
    ensures LeavesPart(CRuns(st, tmp), st, tmp, x, path, ops)
  {
  }
}
