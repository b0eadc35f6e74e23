/**
 Which memory parameters a function may modify: the effects of one body given its callees', and the
 iteration to the least solution over all functions.
 */
module WritebackAnalysis {
  import opened Options
  import opened MemoryLang
  import opened MemoryCopy
  import opened WritebackFrames

  // ----- the statements of a body -----

  /** t is s or one of the statements s is composed of. */
  predicate Occurs(t: Stmt, s: Stmt)
    decreases s
  {
    || t == s
    || match s
       case Hoisted(_, pre, call) => Occurs(t, pre) || Occurs(t, call)
       case Seq(first, second) => Occurs(t, first) || Occurs(t, second)
       case If(_, onTrue, onFalse) => Occurs(t, onTrue) || Occurs(t, onFalse)
       case While(_, body) => Occurs(t, body)
       case _ => false
  }

  /** An assignment to a member of x, not to x itself. */
  predicate IsMemberAssign(t: Stmt, x: string) {
    t.Assign? && t.x == x && t.path != []
  }

  /** A call that passes a path rooted at x as argument j of g. */
  predicate IsPass(t: Stmt, x: string, g: string, j: nat) {
    t.Call? && t.f == g && j < |t.args| && t.args[j].Ref? && t.args[j].x == x
  }

  /** A statement that gives the name x another object: an assignment to x itself, an alias, a call's result. */
  predicate IsBinding(t: Stmt, x: string) {
    || (t.Assign? && t.x == x && t.path == [])
    || (t.Alias? && t.x == x)
    || (t.Call? && x in t.rs)
  }

  /** A statement that names by x, alone, a path of the object of a memory parameter. */
  predicate IsDirectAlias(t: Stmt, x: string, fn: Fn) {
    t.Alias? && t.x == x && t.form == Direct && exists i :: 0 <= i < |fn.params| && fn.params[i] == Param(t.y, true)
  }

  ghost predicate AssignsMember(s: Stmt, x: string) {
    exists t :: Occurs(t, s) && IsMemberAssign(t, x)
  }

  ghost predicate PassesTo(s: Stmt, x: string, g: string, j: nat) {
    exists t :: Occurs(t, s) && IsPass(t, x, g, j)
  }

  ghost predicate Binds(s: Stmt, x: string) {
    exists t :: Occurs(t, s) && IsBinding(t, x)
  }

  ghost predicate NamesPart(s: Stmt, x: string, fn: Fn) {
    exists t :: Occurs(t, s) && IsDirectAlias(t, x, fn)
  }

  /** A part of a statement, and what is true of it, is a part of the whole. */
  predicate PartOf(a: Stmt, s: Stmt) {
    match s
    case Hoisted(_, pre, call) => a == pre || a == call
    case Seq(first, second) => a == first || a == second
    case If(_, onTrue, onFalse) => a == onTrue || a == onFalse
    case While(_, body) => a == body
    case _ => false
  }

  predicate Composed(s: Stmt) {
    s.Hoisted? || s.Seq? || s.If? || s.While?
  }

  lemma {:induction false} OccursInPart(t: Stmt, s: Stmt)
    requires !Composed(t)
    ensures Composed(s) ==> (Occurs(t, s) <==> exists a :: PartOf(a, s) && Occurs(t, a))
    ensures !Composed(s) ==> (Occurs(t, s) <==> t == s)
  {
    match s
    case Hoisted(_, pre, call) => assert PartOf(pre, s) && PartOf(call, s);
    case Seq(first, second) => assert PartOf(first, s) && PartOf(second, s);
    case If(_, onTrue, onFalse) => assert PartOf(onTrue, s) && PartOf(onFalse, s);
    case While(_, body) => assert PartOf(body, s);
    case _ =>
  }

  lemma {:induction false} AssignsParts(s: Stmt, x: string)
    ensures Composed(s) ==> (AssignsMember(s, x) <==> exists a :: PartOf(a, s) && AssignsMember(a, x))
    ensures !Composed(s) ==> (AssignsMember(s, x) <==> IsMemberAssign(s, x))
  {
    hide Occurs, PartOf;
    forall t | IsMemberAssign(t, x) { OccursInPart(t, s); }
  }

  lemma {:induction false} PassesParts(s: Stmt, x: string, g: string, j: nat)
    ensures Composed(s) ==> (PassesTo(s, x, g, j) <==> exists a :: PartOf(a, s) && PassesTo(a, x, g, j))
    ensures !Composed(s) ==> (PassesTo(s, x, g, j) <==> IsPass(s, x, g, j))
  {
    hide Occurs, PartOf;
    forall t | IsPass(t, x, g, j) { OccursInPart(t, s); }
  }

  lemma {:induction false} BindsParts(s: Stmt, x: string)
    ensures Composed(s) ==> (Binds(s, x) <==> exists a :: PartOf(a, s) && Binds(a, x))
    ensures !Composed(s) ==> (Binds(s, x) <==> IsBinding(s, x))
  {
    hide Occurs, PartOf;
    forall t | IsBinding(t, x) { OccursInPart(t, s); }
  }

  lemma {:induction false} NamesParts(s: Stmt, x: string, fn: Fn)
    ensures Composed(s) ==> (NamesPart(s, x, fn) <==> exists a :: PartOf(a, s) && NamesPart(a, x, fn))
    ensures !Composed(s) ==> (NamesPart(s, x, fn) <==> IsDirectAlias(s, x, fn))
  {
    hide Occurs, PartOf;
    forall t | IsDirectAlias(t, x, fn) { OccursInPart(t, s); }
  }

  /** The names bound are those some statement binds. */
  lemma {:induction false} ReboundExactly(s: Stmt, x: string)
    ensures x in Rebound(s) <==> Binds(s, x)
    decreases s
  {
    hide Binds;
    BindsParts(s, x);
    match s
    case Hoisted(_, pre, call) => ReboundExactly(pre, x); ReboundExactly(call, x);
    case Seq(first, second) => ReboundExactly(first, x); ReboundExactly(second, x);
    case If(_, onTrue, onFalse) => ReboundExactly(onTrue, x); ReboundExactly(onFalse, x);
    case While(_, body) => ReboundExactly(body, x);
    case _ =>
  }

  // ----- the effects of one body -----

  /** The statements of a body that are not composed of others. */
  function Nodes(s: Stmt): seq<Stmt> {
    match s
    case Hoisted(_, pre, call) => Nodes(pre) + Nodes(call)
    case Seq(first, second) => Nodes(first) + Nodes(second)
    case If(_, onTrue, onFalse) => Nodes(onTrue) + Nodes(onFalse)
    case While(_, body) => Nodes(body)
    case _ => [s]
  }

  /** Locals declared alone with, or assigned outside of a tuple, a path of a memory parameter's object. */
  function Aliases(s: Stmt, fn: Fn): set<string> {
    match s
    case Alias(x, y, _, form) => if form.Direct? && MemoryParam(fn, y) then {x} else {}
    case Hoisted(_, pre, call) => Aliases(pre, fn) + Aliases(call, fn)
    case Seq(first, second) => Aliases(first, fn) + Aliases(second, fn)
    case If(_, onTrue, onFalse) => Aliases(onTrue, fn) + Aliases(onFalse, fn)
    case While(_, body) => Aliases(body, fn)
    case _ => {}
  }

  function InPlaceAll(nodes: seq<Stmt>, n: nat, wb: Writebacks): set<string>
    requires n <= |nodes|
  {
    if n == 0 then {} else InPlaceAll(nodes, n - 1, wb) + InPlace(nodes[n - 1], wb)
  }

  function ReboundAll(nodes: seq<Stmt>, n: nat): set<string>
    requires n <= |nodes|
  {
    if n == 0 then {} else ReboundAll(nodes, n - 1) + Rebound(nodes[n - 1])
  }

  function AliasesAll(nodes: seq<Stmt>, n: nat, fn: Fn): set<string>
    requires n <= |nodes|
  {
    if n == 0 then {} else AliasesAll(nodes, n - 1, fn) + Aliases(nodes[n - 1], fn)
  }

  lemma {:induction false} AllAppend(a: seq<Stmt>, b: seq<Stmt>, n: nat, wb: Writebacks, fn: Fn)
    requires n <= |b|
    ensures InPlaceAll(a + b, |a| + n, wb) == InPlaceAll(a, |a|, wb) + InPlaceAll(b, n, wb)
    ensures ReboundAll(a + b, |a| + n) == ReboundAll(a, |a|) + ReboundAll(b, n)
    ensures AliasesAll(a + b, |a| + n, fn) == AliasesAll(a, |a|, fn) + AliasesAll(b, n, fn)
    decreases n
  {
    hide InPlace, Rebound, Aliases;
    if n == 0 {
      AllPrefix(a, b, |a|, wb, fn);
    } else {
      AllAppend(a, b, n - 1, wb, fn);
    }
  }

  lemma {:induction false} AllPrefix(a: seq<Stmt>, b: seq<Stmt>, n: nat, wb: Writebacks, fn: Fn)
    requires n <= |a|
    ensures InPlaceAll(a + b, n, wb) == InPlaceAll(a, n, wb)
    ensures ReboundAll(a + b, n) == ReboundAll(a, n)
    ensures AliasesAll(a + b, n, fn) == AliasesAll(a, n, fn)
    decreases n
  {
    hide InPlace, Rebound, Aliases;
    if n > 0 {
      AllPrefix(a, b, n - 1, wb, fn);
    }
  }

  /** Walking the statements one by one finds what the body as a whole does. */
  lemma {:induction false} NodesCover(s: Stmt, wb: Writebacks, fn: Fn)
    ensures InPlaceAll(Nodes(s), |Nodes(s)|, wb) == InPlace(s, wb)
    ensures ReboundAll(Nodes(s), |Nodes(s)|) == Rebound(s)
    ensures AliasesAll(Nodes(s), |Nodes(s)|, fn) == Aliases(s, fn)
    decreases s
  {
    hide MemoryParam, WritebackOf;
    match s
    case Hoisted(_, pre, call) => PartsCover(s, pre, call, wb, fn);
    case Seq(first, second) => PartsCover(s, first, second, wb, fn);
    case If(_, onTrue, onFalse) => PartsCover(s, onTrue, onFalse, wb, fn);
    case While(_, body) => NodesCover(body, wb, fn);
    case _ => OneNode(s, wb, fn);
  }

  lemma {:induction false} OneNode(s: Stmt, wb: Writebacks, fn: Fn)
    ensures InPlaceAll([s], 1, wb) == InPlace(s, wb) && ReboundAll([s], 1) == Rebound(s) && AliasesAll([s], 1,
            fn) == Aliases(s, fn)
  {
    hide InPlace, Rebound, Aliases;
  }

  lemma {:induction false} PartsCover(s: Stmt, a: Stmt, b: Stmt, wb: Writebacks, fn: Fn)
    requires a < s && b < s
    ensures InPlaceAll(Nodes(a) + Nodes(b), |Nodes(a)| + |Nodes(b)|, wb) == InPlace(a, wb) + InPlace(b, wb)
    ensures ReboundAll(Nodes(a) + Nodes(b), |Nodes(a)| + |Nodes(b)|) == Rebound(a) + Rebound(b)
    ensures AliasesAll(Nodes(a) + Nodes(b), |Nodes(a)| + |Nodes(b)|, fn) == Aliases(a, fn) + Aliases(b, fn)
    decreases s, 0
  {
    hide InPlace, Rebound, Aliases, Nodes;
    NodesCover(a, wb, fn);
    NodesCover(b, wb, fn);
    AllAppend(Nodes(a), Nodes(b), |Nodes(b)|, wb, fn);
  }

  /** The local names the aliasing check looks at are those some statement so names. */
  lemma {:induction false} AliasesExactly(s: Stmt, x: string, fn: Fn)
    ensures x in Aliases(s, fn) <==> NamesPart(s, x, fn)
    decreases s
  {
    hide NamesPart;
    NamesParts(s, x, fn);
    match s
    case Hoisted(_, pre, call) => AliasesExactly(pre, x, fn); AliasesExactly(call, x, fn);
    case Seq(first, second) => AliasesExactly(first, x, fn); AliasesExactly(second, x, fn);
    case If(_, onTrue, onFalse) => AliasesExactly(onTrue, x, fn); AliasesExactly(onFalse, x, fn);
    case While(_, body) => AliasesExactly(body, x, fn);
    case Alias(_, y, _, _) => MemoryParamIs(fn, y);
    case _ =>
  }

  lemma {:induction false} MemoryParamIs(fn: Fn, y: string)
    ensures MemoryParam(fn, y) <==> exists i :: 0 <= i < |fn.params| && fn.params[i] == Param(y, true)
  {
    if i :| 0 <= i < |fn.params| && fn.params[i].name == y && fn.params[i].mem {
      assert fn.params[i] == Param(y, true);
    }
  }

  ghost predicate PassesOn(s: Stmt, x: string, wb: Writebacks) {
    exists g, j :: j in WritebackOf(wb, g) && PassesTo(s, x, g, j)
  }

  lemma {:induction false} PassesOnParts(s: Stmt, x: string, wb: Writebacks)
    ensures Composed(s) ==> (PassesOn(s, x, wb) <==> exists a :: PartOf(a, s) && PassesOn(a, x, wb))
    ensures !Composed(s) ==> (PassesOn(s, x, wb) <==> exists g, j :: j in WritebackOf(wb, g) && IsPass(s, x, g, j))
  {
    hide WritebackOf, PassesTo, PartOf;
    forall g, j
      ensures Composed(s) ==> (PassesTo(s, x, g, j) <==> exists a :: PartOf(a, s) && PassesTo(a, x, g, j))
      ensures !Composed(s) ==> (PassesTo(s, x, g, j) <==> IsPass(s, x, g, j))
    {
      PassesParts(s, x, g, j);
    }
  }

  /** A name is written in place by a member assignment or by being passed to a parameter written back. */
  lemma {:induction false} InPlaceExactly(s: Stmt, x: string, wb: Writebacks)
    ensures x in InPlace(s, wb) <==> AssignsMember(s, x) || PassesOn(s, x, wb)
    decreases s
  {
    hide WritebackOf, AssignsMember, PassesOn;
    AssignsParts(s, x);
    PassesOnParts(s, x, wb);
    match s
    case Hoisted(_, pre, call) => InPlaceExactly(pre, x, wb); InPlaceExactly(call, x, wb);
    case Seq(first, second) => InPlaceExactly(first, x, wb); InPlaceExactly(second, x, wb);
    case If(_, onTrue, onFalse) => InPlaceExactly(onTrue, x, wb); InPlaceExactly(onFalse, x, wb);
    case While(_, body) => InPlaceExactly(body, x, wb);
    case Call(_, f, args) => CallInPlace(s, x, wb);
    case _ =>
  }

  lemma {:induction false} CallInPlace(s: Stmt, x: string, wb: Writebacks)
    requires s.Call?
    ensures x in InPlace(s, wb) <==> exists g, j :: j in WritebackOf(wb, g) && IsPass(s, x, g, j)
  {
    hide WritebackOf;
    if x in InPlace(s, wb) {
      var i :| 0 <= i < |s.args| && i in WritebackOf(wb, s.f) && s.args[i].Ref? && s.args[i].x == x;
      assert IsPass(s, x, s.f, i);
    }
  }

  /** The object of x is written: a member of it is assigned, or it is passed to a parameter written back. */
  ghost predicate WritesObject(s: Stmt, x: string, wb: Writebacks) {
    AssignsMember(s, x) || PassesOn(s, x, wb)
  }

  /** Two patterns write-back cannot model. */
  datatype Effects = Effects(modified: set<nat>, reassigned: bool, aliased: bool)

  function MemoryIndices(fn: Fn, names: set<string>): set<nat> {
    set i: nat | i < |fn.params| && fn.params[i].mem && fn.params[i].name in names
  }

  function LocalWrites(fn: Fn, names: set<string>): set<string> {
    set x | x in names && !MemoryParam(fn, x)
  }

  /** One walk over a body, filling the sets of modified, rebound, aliasing and written names. */
  method MemoryEffects(fn: Fn, wb: Writebacks) returns (r: Effects)
    ensures r.modified == Modified(fn, wb)
    ensures forall i: nat :: i in r.modified <==>
                        i < |fn.params| && fn.params[i].mem && WritesObject(fn.body, fn.params[i].name, wb)
    ensures r.reassigned <==> exists i :: i in r.modified && Binds(fn.body, fn.params[i].name)
    ensures r.aliased <==>
              exists x :: NamesPart(fn.body, x, fn) && !MemoryParam(fn, x) && WritesObject(fn.body, x, wb)
  {
    hide MemoryParam, WritebackOf;
    EffectsExactly(fn, wb);
    var nodes := Nodes(fn.body);
    var inPlace: set<string> := {};
    var rebound: set<string> := {};
    var aliases: set<string> := {};
    for n := 0 to |nodes|
      invariant inPlace == InPlaceAll(nodes, n, wb)
      invariant rebound == ReboundAll(nodes, n)
      invariant aliases == AliasesAll(nodes, n, fn)
    {
      match nodes[n] {
        case Assign(x, path, _) =>
          if path == [] {
            rebound := rebound + {x};
          } else {
            inPlace := inPlace + {x};
          }
        case Alias(x, y, _, form) =>
          rebound := rebound + {x};
          if form.Direct? && MemoryParam(fn, y) {
            aliases := aliases + {x};
          }
        case Call(rs, f, args) =>
          rebound := rebound + (set i | 0 <= i < |rs| :: rs[i]);
          inPlace := inPlace + set i | 0 <= i < |args| && i in WritebackOf(wb, f) && args[i].Ref? :: args[i].x;
        case _ =>
          NodesAreSimple(fn.body, n);
      }
    }
    NodesCover(fn.body, wb, fn);
    var modified := MemoryIndices(fn, inPlace);
    return Effects(modified, MemoryIndices(fn, rebound) * modified != {}, aliases * LocalWrites(fn, inPlace) != {});
  }

  /** What the sets of names a walk collects mean. */
  lemma {:induction false} EffectsExactly(fn: Fn, wb: Writebacks)
    ensures forall i: nat :: i in Modified(fn, wb) <==>
                        i < |fn.params| && fn.params[i].mem && WritesObject(fn.body, fn.params[i].name, wb)
    ensures MemoryIndices(fn, Rebound(fn.body)) * Modified(fn, wb) != {} <==>
              exists i :: i in Modified(fn, wb) && Binds(fn.body, fn.params[i].name)
    ensures Aliases(fn.body, fn) * LocalWrites(fn, InPlace(fn.body, wb)) != {} <==>
              exists x :: NamesPart(fn.body, x, fn) && !MemoryParam(fn, x) && WritesObject(fn.body, x, wb)
  {
    hide InPlace, Rebound, Aliases, AssignsMember, PassesOn, Binds, NamesPart, MemoryParam;
    forall x
      ensures x in InPlace(fn.body, wb) <==> WritesObject(fn.body, x, wb)
      ensures x in Rebound(fn.body) <==> Binds(fn.body, x)
      ensures x in Aliases(fn.body, fn) <==> NamesPart(fn.body, x, fn)
    {
      InPlaceExactly(fn.body, x, wb);
      ReboundExactly(fn.body, x);
      AliasesExactly(fn.body, x, fn);
    }
    if i :| i in Modified(fn, wb) && Binds(fn.body, fn.params[i].name) {
      assert i in MemoryIndices(fn, Rebound(fn.body)) * Modified(fn, wb);
    }
    if x :| NamesPart(fn.body, x, fn) && !MemoryParam(fn, x) && WritesObject(fn.body, x, wb) {
      assert x in Aliases(fn.body, fn) * LocalWrites(fn, InPlace(fn.body, wb));
    }
  }

  lemma {:induction false} NodesAreSimple(s: Stmt, n: nat)
    requires n < |Nodes(s)|
    ensures !Nodes(s)[n].Seq? && !Nodes(s)[n].If? && !Nodes(s)[n].While? && !Nodes(s)[n].Hoisted?
    decreases s
  {
    match s
    case Hoisted(_, pre, call) =>
      if n < |Nodes(pre)| { NodesAreSimple(pre, n); } else { NodesAreSimple(call, n - |Nodes(pre)|); }
    case Seq(first, second) =>
      if n < |Nodes(first)| { NodesAreSimple(first, n); } else { NodesAreSimple(second, n - |Nodes(first)|); }
    case If(_, onTrue, onFalse) =>
      if n < |Nodes(onTrue)| { NodesAreSimple(onTrue, n); } else { NodesAreSimple(onFalse, n - |Nodes(onTrue)|); }
    case While(_, body) => NodesAreSimple(body, n);
    case _ =>
  }

  // ----- chains of calls -----

  predicate IsMemory(p: Program, f: string, i: nat) {
    f in p && i < |p[f].params| && p[f].params[i].mem
  }

  ghost predicate WritesDirectly(p: Program, f: string, i: nat) {
    IsMemory(p, f, i) && AssignsMember(p[f].body, p[f].params[i].name)
  }

  ghost predicate PassesParameter(p: Program, f: string, i: nat, g: string, j: nat) {
    IsMemory(p, f, i) && PassesTo(p[f].body, p[f].params[i].name, g, j)
  }

  /** A chain of calls that passes parameter i of f along until a function writes through it. */
  ghost predicate Chain(p: Program, c: seq<(string, nat)>) {
    c != []
    && WritesDirectly(p, c[|c| - 1].0, c[|c| - 1].1)
    && forall k :: 0 <= k < |c| - 1 ==> PassesParameter(p, c[k].0, c[k].1, c[k + 1].0, c[k + 1].1)
  }

  ghost predicate Reached(p: Program, f: string, i: nat) {
    exists c :: Chain(p, c) && c[0] == (f, i)
  }

  // ----- the iteration -----

  ghost predicate KeysOf(p: Program, order: seq<string>) {
    (forall f :: f in p <==> f in order) && forall i, j :: 0 <= i < j < |order| ==> order[i] != order[j]
  }

  function Pairs(wb: Writebacks): set<(string, nat)> {
    set f, i | f in wb && i in wb[f] :: (f, i)
  }

  function AllPairs(p: Program): set<(string, nat)> {
    set f, i: nat | f in p && i < |p[f].params| :: (f, i)
  }

  /** Everything listed is reached, and listing more of it only adds. */
  ghost predicate Below(p: Program, wb: Writebacks) {
    && wb.Keys == p.Keys
    && (forall f, i :: f in wb && i in wb[f] ==> Reached(p, f, i))
    && (forall f :: f in p ==> wb[f] <= Modified(p[f], wb))
  }

  lemma {:induction false} NothingListed(p: Program, wb: Writebacks)
    requires wb == map f | f in p :: {}
    ensures Below(p, wb)
  {
    hide Modified;
  }

  /** One more call in front of a chain, or none. */
  lemma {:induction false} ModifiedSplit(p: Program, f: string, wb: Writebacks, i: nat)
    requires f in p
    ensures i in Modified(p[f], wb) <==>
            WritesDirectly(p, f, i) || exists g, j :: j in WritebackOf(wb, g) && PassesParameter(p, f, i, g, j)
  {
    hide InPlace, PassesTo, AssignsMember, WritebackOf;
    if IsMemory(p, f, i) {
      var x := p[f].params[i].name;
      InPlaceExactly(p[f].body, x, wb);
      if PassesOn(p[f].body, x, wb) {
        var g, j :| j in WritebackOf(wb, g) && PassesTo(p[f].body, x, g, j);
        assert PassesParameter(p, f, i, g, j);
      }
    }
  }

  lemma {:induction false} ModifiedGrows(p: Program, f: string, wb: Writebacks, wb': Writebacks)
    requires f in p && forall g :: WritebackOf(wb, g) <= WritebackOf(wb', g)
    ensures Modified(p[f], wb) <= Modified(p[f], wb')
  {
    hide Modified, WritebackOf, WritesDirectly, PassesParameter;
    forall i | i in Modified(p[f], wb) ensures i in Modified(p[f], wb') {
      ModifiedSplit(p, f, wb, i);
      ModifiedSplit(p, f, wb', i);
      if !WritesDirectly(p, f, i) {
        var g, j :| j in WritebackOf(wb, g) && PassesParameter(p, f, i, g, j);
        assert j in WritebackOf(wb', g);
      }
    }
  }

  lemma {:induction false} ModifiedReached(p: Program, wb: Writebacks, f: string, i: nat)
    requires Below(p, wb) && f in p && i in Modified(p[f], wb)
    ensures Reached(p, f, i)
  {
    hide Modified, WritesDirectly, PassesParameter;
    ModifiedSplit(p, f, wb, i);
    if WritesDirectly(p, f, i) {
      assert Chain(p, [(f, i)]);
    } else {
      var g, j :| j in WritebackOf(wb, g) && PassesParameter(p, f, i, g, j);
      var c :| Chain(p, c) && c[0] == (g, j);
      var longer := [(f, i)] + c;
      assert Chain(p, longer) by {
        forall k | 0 <= k < |longer| - 1 ensures PassesParameter(p, longer[k].0, longer[k].1, longer[k + 1].0, longer[k + 1].1) {
          if k > 0 {
            assert longer[k] == c[k - 1] && longer[k + 1] == c[k];
          }
        }
      }
    }
  }

  /** Listing everything one body modifies keeps the list below the solution and makes progress. */
  lemma {:induction false} ListMore(p: Program, wb: Writebacks, f: string)
    requires Below(p, wb) && f in p && Modified(p[f], wb) != wb[f]
    ensures Below(p, wb[f := Modified(p[f], wb)])
    ensures |AllPairs(p) - Pairs(wb[f := Modified(p[f], wb)])| < |AllPairs(p) - Pairs(wb)|
  {
    hide Modified, Reached, AllPairs, Pairs;
    var found := Modified(p[f], wb);
    var wb' := wb[f := found];
    forall g | g in p ensures wb'[g] <= Modified(p[g], wb') {
      ModifiedGrows(p, g, wb, wb');
    }
    forall g, i | g in wb' && i in wb'[g] ensures Reached(p, g, i) {
      if g == f {
        ModifiedReached(p, wb, f, i);
      }
    }
    var i :| i in found && i !in wb[f];
    InRange(p, wb, f, i);
    FewerPairs(p, wb, f, found, i);
  }

  lemma {:induction false} FewerPairs(p: Program, wb: Writebacks, f: string, found: set<nat>, i: nat)
    requires f in wb && wb[f] <= found && i in found && i !in wb[f] && (f, i) in AllPairs(p)
    ensures |AllPairs(p) - Pairs(wb[f := found])| < |AllPairs(p) - Pairs(wb)|
  {
    hide AllPairs;
    var wb' := wb[f := found];
    var (before, after) := (AllPairs(p) - Pairs(wb), AllPairs(p) - Pairs(wb'));
    assert (f, i) in before && (f, i) !in after;
    forall pair | pair in after ensures pair in before {}
    SmallerSet(after, before, (f, i));
  }

  lemma {:induction false} InRange(p: Program, wb: Writebacks, f: string, i: nat)
    requires f in p && i in Modified(p[f], wb)
    ensures (f, i) in AllPairs(p)
  {
  }

  lemma {:induction false} SmallerSet<T>(a: set<T>, b: set<T>, x: T)
    requires a <= b && x in b && x !in a
    ensures |a| < |b|
  {
    assert b == (b - a) + a && x in b - a;
  }

  /** A solution lists every parameter at the start of a chain. */
  lemma {:induction false} ChainListed(p: Program, wb: Writebacks, c: seq<(string, nat)>)
    requires wb.Keys == p.Keys && (forall f :: f in p ==> wb[f] == Modified(p[f], wb)) && Chain(p, c)
    ensures c[0].0 in wb && c[0].1 in wb[c[0].0]
    decreases |c|
  {
    hide Modified;
    var (f, i) := c[0];
    ModifiedSplit(p, f, wb, i) by {
      if |c| > 1 {
        assert PassesParameter(p, c[0].0, c[0].1, c[1].0, c[1].1);
      }
    }
    if |c| > 1 {
      ChainTail(p, c);
      ChainListed(p, wb, c[1..]);
      assert c[1].1 in WritebackOf(wb, c[1].0) && PassesParameter(p, f, i, c[1].0, c[1].1);
    }
  }

  lemma {:induction false} ChainTail(p: Program, c: seq<(string, nat)>)
    requires Chain(p, c) && |c| > 1
    ensures Chain(p, c[1..])
  {
    hide PassesParameter, WritesDirectly;
    var t := c[1..];
    forall k | 0 <= k < |t| - 1 ensures PassesParameter(p, t[k].0, t[k].1, t[k + 1].0, t[k + 1].1) {
      assert t[k] == c[k + 1] && t[k + 1] == c[k + 2];
    }
  }

  lemma {:induction false} ReachedListed(p: Program, wb: Writebacks, f: string, i: nat)
    requires wb.Keys == p.Keys && (forall f :: f in p ==> wb[f] == Modified(p[f], wb)) && Reached(p, f, i)
    ensures f in wb && i in wb[f]
  {
    hide Modified, PassesParameter, WritesDirectly;
    var c :| Chain(p, c) && c[0] == (f, i);
    ChainListed(p, wb, c);
  }

  /**
   The loop over all functions until nothing changes.  Its result does not depend on their order: a
   parameter is listed exactly when some chain of calls passes it to a function that writes through it.
   */
  method MemoryWritebacks(p: Program, order: seq<string>) returns (wb: Writebacks)
    requires KeysOf(p, order)
    ensures wb.Keys == p.Keys
    ensures forall f :: f in p ==> wb[f] == Modified(p[f], wb)
    ensures forall f, i :: f in p ==> (i in wb[f] <==> Reached(p, f, i))
  {
    hide Modified, Reached, Below, AllPairs, Pairs, Settled;
    wb := map f | f in p :: {};
    NothingListed(p, wb);
    var changed := true;
    while changed
      invariant Below(p, wb)
      invariant !changed ==> Settled(p, wb, order, |order|)
      decreases |AllPairs(p) - Pairs(wb)|, changed
    {
      changed := false;
      ghost var start := wb;
      SettledFrom(p, wb, order);
      for n := 0 to |order|
        invariant Below(p, wb)
        invariant !changed ==> wb == start && Settled(p, wb, order, n)
        invariant changed ==> |AllPairs(p) - Pairs(wb)| < |AllPairs(p) - Pairs(start)|
      {
        var f := order[n];
        BelowKeys(p, wb);
        var effects := MemoryEffects(p[f], wb);
        if effects.modified != wb[f] {
          ListMore(p, wb, f);
          wb := wb[f := effects.modified];
          changed := true;
        } else if !changed {
          SettledNext(p, wb, order, n);
        }
      }
    }
    BelowKeys(p, wb);
    SettledAll(p, wb, order);
    forall f, i | f in p ensures i in wb[f] <==> Reached(p, f, i) {
      BelowReached(p, wb, f, i);
      if Reached(p, f, i) {
        ReachedListed(p, wb, f, i);
      }
    }
  }

  /** The first n functions list what their bodies modify. */
  ghost predicate Settled(p: Program, wb: Writebacks, order: seq<string>, n: nat)
    requires n <= |order|
  {
    forall k :: 0 <= k < n ==> order[k] in p && order[k] in wb && wb[order[k]] == Modified(p[order[k]], wb)
  }

  lemma {:induction false} SettledFrom(p: Program, wb: Writebacks, order: seq<string>)
    ensures Settled(p, wb, order, 0)
  {
  }

  lemma {:induction false} SettledNext(p: Program, wb: Writebacks, order: seq<string>, n: nat)
    requires n < |order| && Settled(p, wb, order, n) && order[n] in p && order[n] in wb
    requires wb[order[n]] == Modified(p[order[n]], wb)
    ensures Settled(p, wb, order, n + 1)
  {
    hide Modified;
  }

  lemma {:induction false} SettledAll(p: Program, wb: Writebacks, order: seq<string>)
    requires KeysOf(p, order) && wb.Keys == p.Keys && Settled(p, wb, order, |order|)
    ensures forall f :: f in p ==> wb[f] == Modified(p[f], wb)
  {
    hide Modified;
    forall f | f in p ensures wb[f] == Modified(p[f], wb) {
      assert f in order;
      var k :| 0 <= k < |order| && order[k] == f;
    }
  }

  lemma {:induction false} BelowKeys(p: Program, wb: Writebacks)
    requires Below(p, wb)
    ensures wb.Keys == p.Keys
  {
  }

  lemma {:induction false} BelowReached(p: Program, wb: Writebacks, f: string, i: nat)
    requires Below(p, wb) && f in p
    ensures f in wb && (i in wb[f] ==> Reached(p, f, i))
  {
    hide Reached, Modified;
  }

  /** A parameter whose object is neither assigned a member of nor passed on is not listed, whatever reads it. */
  lemma {:induction false} OnlyReadIsNotListed(p: Program, f: string, i: nat)
    requires f in p && i < |p[f].params|
    requires forall t :: Occurs(t, p[f].body) ==>
               !IsMemberAssign(t, p[f].params[i].name) && forall g, j :: !IsPass(t, p[f].params[i].name, g, j)
    ensures !Reached(p, f, i)
  {
    hide Occurs, IsMemberAssign, IsPass;
    if Reached(p, f, i) {
      ChainStarts(p, f, i);
      assert false;
    }
  }

  lemma {:induction false} ChainStarts(p: Program, f: string, i: nat)
    requires Reached(p, f, i)
    ensures WritesDirectly(p, f, i) || exists g, j :: PassesParameter(p, f, i, g, j)
  {
    hide WritesDirectly, PassesParameter;
    var c: seq<(string, nat)> :| Chain(p, c) && c[0] == (f, i);
    if |c| > 1 {
      assert PassesParameter(p, c[0].0, c[0].1, c[1].0, c[1].1);
    }
  }

  /** A function that only requires something of a member modifies nothing. */
  lemma {:induction false} RequireReads(p: Program, f: string, x: string, path: seq<Seg>)
    requires f in p && p[f].params == [Param(x, true)] && p[f].body == Require(Read(x, path))
    ensures !Reached(p, f, 0)
  {
    OnlyReadIsNotListed(p, f, 0);
  }

  // ----- what the analysis gives the translation -----

  /** The part of a function the analysis does not check: one name per written object, arguments apart. */
  ghost predicate OneNamePerObject(p: Program, wb: Writebacks, notes: Notes, f: string)
    requires f in p
  {
    DistinctNames(p[f]) && NoteOk(p, wb, notes, f)
  }

  /** With no parameter both reassigned and modified, the analysis' result fits the translation. */
  lemma {:induction false} AnalysisFits(p: Program, wb: Writebacks, notes: Notes)
    requires wb.Keys == p.Keys && forall f :: f in p ==> wb[f] == Modified(p[f], wb)
    requires forall f :: f in p ==> OneNamePerObject(p, wb, notes, f)
    requires forall f :: f in p ==> MemoryIndices(p[f], Rebound(p[f].body)) * wb[f] == {}
    ensures ProgramOk(p, wb, notes)
  {
    hide NoteOk, InPlace, Rebound, DistinctNames;
    forall f | f in p ensures FnOk(p, wb, notes, f) {
      assert OneNamePerObject(p, wb, notes, f);
      assert WritebackOf(wb, f) == wb[f] == Modified(p[f], wb);
      forall i | i in wb[f] ensures i < |p[f].params| && p[f].params[i].mem && p[f].params[i].name !in Rebound(p[f].body) {
        assert i !in MemoryIndices(p[f], Rebound(p[f].body)) * wb[f];
      }
    }
  }
}
