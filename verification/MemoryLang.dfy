/**
 A small imperative language with memory objects: its values, its programs, and its meaning when
 memory reference parameters share the caller's object.
 */
module MemoryLang {
  import opened Options

  // ----- values: objects as trees of numbers, addressed by paths -----

  datatype Key = Member(name: string) | Element(index: int)

  type Path = seq<Key>

  function Nothing(p: Path): int {
    0
  }

  /** An object gives every path a number; members that were never set are zero. */
  type Val = v: imap<Path, int> | Total(v) ghost witness imap p: Path | true :: Nothing(p)

  ghost predicate Total(v: imap<Path, int>) {
    forall p :: p in v
  }

  ghost function Zero(): Val {
    imap p: Path | true :: Nothing(p)
  }

  /** The part of an object at a path. */
  ghost function Get(v: Val, p: Path): Val {
    imap r: Path | true :: v[p + r]
  }

  ghost function Set(v: Val, p: Path, w: Val): Val {
    imap r: Path | true :: if p <= r then w[r[|p|..]] else v[r]
  }

  /** Neither path lies on the other. */
  predicate Diverge(p: Path, q: Path) {
    !(p <= q) && !(q <= p)
  }

  /** A common prefix cancels, and a prefix of a prefix is a prefix. */
  lemma {:induction false} Prefixes(p: Path, q: Path, r: Path)
    ensures p + q <= p + r <==> q <= r
    ensures q <= r ==> (p + r)[|p + q|..] == r[|q|..]
    ensures p + q <= r <==> p <= r && q <= r[|p|..]
    ensures p + q <= r ==> r[|p + q|..] == r[|p|..][|q|..]
  {
    if p + q <= r {
      Front(p, q, r);
    }
    if p <= r {
      assert r == p + r[|p|..];
      Cancel(p, q, r[|p|..]);
    }
    Cancel(p, q, r);
  }

  lemma {:induction false} Front(p: Path, q: Path, r: Path)
    requires p + q <= r
    ensures p <= r
  {
    var front := r[..|p + q|];
    assert front == p + q;
    assert front[..|p|] == p && front[..|p|] == r[..|p|];
  }

  lemma {:induction false} Cancel(p: Path, q: Path, r: Path)
    ensures p + q <= p + r <==> q <= r
    ensures q <= r ==> (p + r)[|p + q|..] == r[|q|..]
  {
    if p + q <= p + r {
      var front := (p + r)[..|p + q|];
      assert front == p + q;
      assert front[|p|..] == q && front[|p|..] == r[..|q|];
    }
    if q <= r {
      assert r == q + r[|q|..];
      assert p + r == (p + q) + r[|q|..];
    }
  }

  /** Two paths on a common path do not diverge. */
  lemma {:induction false} NotApart(p: Path, q: Path, r: Path)
    requires p <= r && q <= r
    ensures !Diverge(p, q)
  {
    if |p| <= |q| {
      assert q[..|p|] == r[..|p|];
    } else {
      assert p[..|q|] == r[..|q|];
    }
  }

  lemma {:induction false} GetAll(v: Val)
    ensures Get(v, []) == v
  {
    forall r: Path ensures Get(v, [])[r] == v[r] {
      assert [] + r == r;
    }
  }

  lemma {:induction false} SetAll(v: Val, w: Val)
    ensures Set(v, [], w) == w
  {
    forall r: Path ensures Set(v, [], w)[r] == w[r] {
      assert r[0..] == r;
    }
  }

  lemma {:induction false} GetGet(v: Val, p: Path, q: Path)
    ensures Get(Get(v, p), q) == Get(v, p + q)
  {
    forall r: Path ensures Get(Get(v, p), q)[r] == Get(v, p + q)[r] {
      assert p + (q + r) == p + q + r;
    }
  }

  /** Reading above a write. */
  lemma {:induction false} GetSet(v: Val, p: Path, q: Path, w: Val)
    ensures Get(Set(v, p + q, w), p) == Set(Get(v, p), q, w)
  {
    forall r: Path ensures Get(Set(v, p + q, w), p)[r] == Set(Get(v, p), q, w)[r] {
      Prefixes(p, q, r);
    }
  }

  lemma {:induction false} GetApart(v: Val, p: Path, q: Path, w: Val)
    requires Diverge(p, q)
    ensures Get(Set(v, p, w), q) == Get(v, q)
  {
    forall r: Path ensures Get(Set(v, p, w), q)[r] == Get(v, q)[r] {
      if p <= q + r {
        NotApart(p, q, q + r);
      }
    }
  }

  lemma {:induction false} SetGet(v: Val, p: Path)
    ensures Set(v, p, Get(v, p)) == v
  {
    forall r: Path ensures Set(v, p, Get(v, p))[r] == v[r] {
      if p <= r {
        assert p + r[|p|..] == r;
      }
    }
  }

  /** A write inside an earlier write. */
  lemma {:induction false} SetSet(v: Val, p: Path, q: Path, a: Val, b: Val)
    ensures Set(Set(v, p, a), p + q, b) == Set(v, p, Set(a, q, b))
  {
    forall r: Path ensures Set(Set(v, p, a), p + q, b)[r] == Set(v, p, Set(a, q, b))[r] {
      Prefixes(p, q, r);
    }
  }

  lemma {:induction false} SetApart(v: Val, p: Path, q: Path, a: Val, b: Val)
    requires Diverge(p, q)
    ensures Set(Set(v, p, a), q, b) == Set(Set(v, q, b), p, a)
  {
    forall r: Path ensures Set(Set(v, p, a), q, b)[r] == Set(Set(v, q, b), p, a)[r] {
      if p <= r && q <= r {
        NotApart(p, q, r);
      }
    }
  }

  // ----- programs -----

  datatype Seg = Field(name: string) | At(index: Expr)

  datatype Expr =
    | Lit(v: Val)
    | Read(x: string, path: seq<Seg>)
    | Op(op: nat, args: seq<Expr>)

  /** An argument or result: an existing object's path, or a value that gets an object of its own. */
  datatype Arg = Ref(x: string, path: seq<Seg>) | Fresh(e: Expr)

  /** How a name is bound to an existing object: alone, as a component of a tuple, or by a conditional. */
  datatype AliasForm = Direct | InTuple | Conditional

  /**
   Hoisted: a call with an internal call in the path of argument `at`, which `pre` makes beforehand.  Returned
   references share the object they are paths of.
   */
  datatype Stmt =
    | Skip
    | Assign(x: string, path: seq<Seg>, e: Expr)
    | Alias(x: string, y: string, path: seq<Seg>, form: AliasForm)
    | Call(rs: seq<string>, f: string, args: seq<Arg>)
    | Hoisted(at: nat, pre: Stmt, call: Stmt)
    | Return(es: seq<Arg>)
    | ReturnNamed
    | Seq(first: Stmt, second: Stmt)
    | If(cond: Expr, onTrue: Stmt, onFalse: Stmt)
    | While(cond: Expr, body: Stmt)
    | Break
    | Continue
    | Require(cond: Expr)

  datatype Param = Param(name: string, mem: bool)

  /** `named`: the results are variables of the body and may be returned without naming them. */
  datatype Fn = Fn(params: seq<Param>, results: seq<string>, named: bool, locals: seq<string>, body: Stmt)

  type Program = map<string, Fn>

  /** The meaning of the operators of expressions. */
  type Ops = (nat, seq<Val>) -> Val

  type Store = map<string, Val>

  // ----- expressions -----

  ghost function Eval(e: Expr, st: Store, ops: Ops): Val
    decreases e
  {
    match e
    case Lit(v) => v
    case Read(x, path) => if x in st then Get(st[x], EvalPath(path, st, ops)) else Zero()
    case Op(op, args) => ops(op, EvalAll(args, st, ops))
  }

  ghost function EvalPath(path: seq<Seg>, st: Store, ops: Ops): (p: Path)
    ensures |p| == |path|
    decreases path
  {
    if path == [] then [] else EvalPath(path[..|path| - 1], st, ops) + [EvalSeg(path[|path| - 1], st, ops)]
  }

  ghost function EvalSeg(seg: Seg, st: Store, ops: Ops): Key
    decreases seg
  {
    match seg
    case Field(name) => Member(name)
    case At(index) => Element(Scalar(Eval(index, st, ops)))
  }

  ghost function EvalAll(es: seq<Expr>, st: Store, ops: Ops): (vs: seq<Val>)
    ensures |vs| == |es|
    decreases es
  {
    if es == [] then [] else EvalAll(es[..|es| - 1], st, ops) + [Eval(es[|es| - 1], st, ops)]
  }

  // ----- the names an expression reads -----

  function Names(e: Expr): set<string>
    decreases e
  {
    match e
    case Lit(_) => {}
    case Read(x, path) => {x} + PathNames(path)
    case Op(_, args) => AllNames(args)
  }

  /** The names in the indices of a path. */
  function PathNames(path: seq<Seg>): set<string>
    decreases path
  {
    if path == [] then {} else PathNames(path[..|path| - 1]) + SegNames(path[|path| - 1])
  }

  function SegNames(seg: Seg): set<string>
    decreases seg
  {
    match seg
    case Field(_) => {}
    case At(index) => Names(index)
  }

  function AllNames(es: seq<Expr>): set<string>
    decreases es
  {
    if es == [] then {} else AllNames(es[..|es| - 1]) + Names(es[|es| - 1])
  }

  /** Both stores have the same of the listed names. */
  ghost predicate SameOn(names: set<string>, st: Store, st': Store) {
    forall x :: x in names ==> (x in st <==> x in st') && (x in st && x in st' ==> st[x] == st'[x])
  }

  /** Names that are not read do not matter. */
  lemma {:induction false} EvalSame(e: Expr, st: Store, st': Store, ops: Ops)
    requires SameOn(Names(e), st, st')
    ensures Eval(e, st', ops) == Eval(e, st, ops)
    decreases e
  {
    hide Get, EvalPath, EvalAll;
    match e
    case Lit(_) =>
    case Read(y, path) =>
      assert y in Names(e);
      PathSame(path, st, st', ops);
    case Op(_, args) => AllSame(args, st, st', ops);
  }

  lemma {:induction false} PathSame(path: seq<Seg>, st: Store, st': Store, ops: Ops)
    requires SameOn(PathNames(path), st, st')
    ensures EvalPath(path, st', ops) == EvalPath(path, st, ops)
    decreases path
  {
    hide EvalSeg, SegNames;
    if path != [] {
      PathSame(path[..|path| - 1], st, st', ops);
      SegSame(path[|path| - 1], st, st', ops);
    }
  }

  lemma {:induction false} SegSame(seg: Seg, st: Store, st': Store, ops: Ops)
    requires SameOn(SegNames(seg), st, st')
    ensures EvalSeg(seg, st', ops) == EvalSeg(seg, st, ops)
    decreases seg
  {
    hide Eval, Names;
    if seg.At? {
      EvalSame(seg.index, st, st', ops);
    }
  }

  lemma {:induction false} AllSame(es: seq<Expr>, st: Store, st': Store, ops: Ops)
    requires SameOn(AllNames(es), st, st')
    ensures EvalAll(es, st', ops) == EvalAll(es, st, ops)
    decreases es
  {
    hide Eval, Names;
    if es != [] {
      AllSame(es[..|es| - 1], st, st', ops);
      EvalSame(es[|es| - 1], st, st', ops);
    }
  }

  // ----- what evaluation gives -----

  lemma {:induction false} EvalAllAt(es: seq<Expr>, st: Store, ops: Ops, i: nat)
    requires i < |es|
    ensures EvalAll(es, st, ops)[i] == Eval(es[i], st, ops)
    decreases |es|
  {
    hide Eval;
    if i < |es| - 1 {
      EvalAllAt(es[..|es| - 1], st, ops, i);
    }
  }

  lemma {:induction false} EvalPathAt(path: seq<Seg>, st: Store, ops: Ops, i: nat)
    requires i < |path|
    ensures EvalPath(path, st, ops)[i] == EvalSeg(path[i], st, ops)
    decreases |path|
  {
    hide EvalSeg;
    if i < |path| - 1 {
      EvalPathAt(path[..|path| - 1], st, ops, i);
    }
  }

  /** A path's keys: members by name, elements at the number of their index. */
  lemma {:induction false} KeyAt(path: seq<Seg>, st: Store, ops: Ops, i: nat)
    requires i < |path|
    ensures EvalPath(path, st, ops)[i] ==
            match path[i]
            case Field(name) => Member(name)
            case At(index) => Element(Eval(index, st, ops)[[]])
  {
    hide Eval, EvalPath;
    EvalPathAt(path, st, ops, i);
  }

  /**
   Reading a name gives the numbers below the path in its object; what was never set is zero, a name without
   an object included; an operator is applied to its evaluated arguments in their order.
   */
  lemma {:induction false} Evaluates(st: Store, ops: Ops, x: string, path: seq<Seg>, p: Path, op: nat, args: seq<Expr>)
    ensures Eval(Read(x, path), st, ops)[p] == if x in st then st[x][EvalPath(path, st, ops) + p] else 0
    ensures Zero()[p] == 0
    ensures Eval(Op(op, args), st, ops) == ops(op, seq(|args|, i requires 0 <= i < |args| => Eval(args[i], st, ops)))
  {
    hide EvalPath, EvalAll;
    var vs := seq(|args|, i requires 0 <= i < |args| => Eval(args[i], st, ops));
    forall i | 0 <= i < |args| ensures EvalAll(args, st, ops)[i] == vs[i] {
      EvalAllAt(args, st, ops, i);
    }
    assert EvalAll(args, st, ops) == vs;
  }

  /** Writing a part replaces what is below the path and nothing else. */
  lemma {:induction false} SetReplaces(v: Val, p: Path, w: Val, r: Path)
    ensures Set(v, p, w)[p + r] == w[r]
    ensures !(p <= r) ==> Set(v, p, w)[r] == v[r]
  {
    assert p <= p + r && (p + r)[|p|..] == r;
  }

  // ----- the parts an expression reads -----

  /** Evaluated in this store, the expression reads nothing that overlaps the part of x at p. */
  ghost predicate Spares(e: Expr, st: Store, ops: Ops, x: string, p: Path)
    decreases e
  {
    match e
    case Lit(_) => true
    case Read(y, path) => PathSpares(path, st, ops, x, p) && (x == y ==> Diverge(p, EvalPath(path, st, ops)))
    case Op(_, args) => AllSpare(args, st, ops, x, p)
  }

  /** The same of the indices of a path. */
  ghost predicate PathSpares(path: seq<Seg>, st: Store, ops: Ops, x: string, p: Path)
    decreases path
  {
    path == [] || (PathSpares(path[..|path| - 1], st, ops, x, p) && SegSpares(path[|path| - 1], st, ops, x, p))
  }

  ghost predicate SegSpares(seg: Seg, st: Store, ops: Ops, x: string, p: Path)
    decreases seg
  {
    match seg
    case Field(_) => true
    case At(index) => Spares(index, st, ops, x, p)
  }

  ghost predicate AllSpare(es: seq<Expr>, st: Store, ops: Ops, x: string, p: Path)
    decreases es
  {
    es == [] || (AllSpare(es[..|es| - 1], st, ops, x, p) && Spares(es[|es| - 1], st, ops, x, p))
  }

  /** A name that is not read is not read in part. */
  lemma {:induction false} UnnamedSpared(e: Expr, st: Store, ops: Ops, x: string, p: Path)
    requires x !in Names(e)
    ensures Spares(e, st, ops, x, p)
    decreases e
  {
    hide EvalPath, PathSpares, AllSpare;
    match e
    case Lit(_) =>
    case Read(y, path) => UnnamedPathSpared(path, st, ops, x, p);
    case Op(_, args) => UnnamedAllSpared(args, st, ops, x, p);
  }

  lemma {:induction false} UnnamedPathSpared(path: seq<Seg>, st: Store, ops: Ops, x: string, p: Path)
    requires x !in PathNames(path)
    ensures PathSpares(path, st, ops, x, p)
    decreases path
  {
    hide SegSpares, SegNames;
    if path != [] {
      UnnamedPathSpared(path[..|path| - 1], st, ops, x, p);
      UnnamedSegSpared(path[|path| - 1], st, ops, x, p);
    }
  }

  lemma {:induction false} UnnamedSegSpared(seg: Seg, st: Store, ops: Ops, x: string, p: Path)
    requires x !in SegNames(seg)
    ensures SegSpares(seg, st, ops, x, p)
    decreases seg
  {
    hide Spares, Names;
    if seg.At? {
      UnnamedSpared(seg.index, st, ops, x, p);
    }
  }

  lemma {:induction false} UnnamedAllSpared(es: seq<Expr>, st: Store, ops: Ops, x: string, p: Path)
    requires x !in AllNames(es)
    ensures AllSpare(es, st, ops, x, p)
    decreases es
  {
    hide Spares, Names;
    if es != [] {
      UnnamedAllSpared(es[..|es| - 1], st, ops, x, p);
      UnnamedSpared(es[|es| - 1], st, ops, x, p);
    }
  }

  /** Writing a part that is not read changes neither the value nor what is read. */
  lemma {:induction false} EvalSpared(e: Expr, st: Store, ops: Ops, x: string, p: Path, v: Val, y: string, q: Path)
    requires x in st && Spares(e, st, ops, x, p)
    ensures var st' := st[x := Set(st[x], p, v)];
            Eval(e, st', ops) == Eval(e, st, ops) && (Spares(e, st', ops, y, q) <==> Spares(e, st, ops, y, q))
    decreases e
  {
    hide Get, Set, EvalPath, EvalAll, PathSpares, AllSpare, Diverge;
    match e
    case Lit(_) =>
    case Read(z, path) =>
      PathSpared(path, st, ops, x, p, v, y, q);
      if x == z {
        GetApart(st[x], p, EvalPath(path, st, ops), v);
      }
    case Op(_, args) => AllSpared(args, st, ops, x, p, v, y, q);
  }

  lemma {:induction false} PathSpared(path: seq<Seg>, st: Store, ops: Ops, x: string, p: Path, v: Val, y: string,
          q: Path)
    requires x in st && PathSpares(path, st, ops, x, p)
    ensures var st' := st[x := Set(st[x], p, v)];
            && EvalPath(path, st', ops) == EvalPath(path, st, ops)
            && (PathSpares(path, st', ops, y, q) <==> PathSpares(path, st, ops, y, q))
    decreases path
  {
    hide SegSpares, Set, EvalSeg;
    if path != [] {
      PathSpared(path[..|path| - 1], st, ops, x, p, v, y, q);
      SegSpared(path[|path| - 1], st, ops, x, p, v, y, q);
    }
  }

  lemma {:induction false} SegSpared(seg: Seg, st: Store, ops: Ops, x: string, p: Path, v: Val, y: string, q: Path)
    requires x in st && SegSpares(seg, st, ops, x, p)
    ensures var st' := st[x := Set(st[x], p, v)];
            && EvalSeg(seg, st', ops) == EvalSeg(seg, st, ops)
            && (SegSpares(seg, st', ops, y, q) <==> SegSpares(seg, st, ops, y, q))
    decreases seg
  {
    hide Spares, Set, Eval;
    if seg.At? {
      EvalSpared(seg.index, st, ops, x, p, v, y, q);
    }
  }

  lemma {:induction false} AllSpared(es: seq<Expr>, st: Store, ops: Ops, x: string, p: Path, v: Val, y: string, q: Path)
    requires x in st && AllSpare(es, st, ops, x, p)
    ensures var st' := st[x := Set(st[x], p, v)];
            && EvalAll(es, st', ops) == EvalAll(es, st, ops)
            && (AllSpare(es, st', ops, y, q) <==> AllSpare(es, st, ops, y, q))
    decreases es
  {
    hide Spares, Set, Eval;
    if es != [] {
      AllSpared(es[..|es| - 1], st, ops, x, p, v, y, q);
      EvalSpared(es[|es| - 1], st, ops, x, p, v, y, q);
    }
  }

  /** The number an object holds itself. */
  ghost function Scalar(v: Val): int {
    v[[]]
  }

  // ----- by reference -----

  datatype Loc = Loc(oid: nat, path: Path) {
    function Down(p: Path): Loc {
      Loc(oid, path + p)
    }
  }

  type Heap = seq<Val>

  type Bindings = map<string, Loc>

  ghost function ReadLoc(h: Heap, l: Loc): Val {
    if l.oid < |h| then Get(h[l.oid], l.path) else Zero()
  }

  ghost function WriteLoc(h: Heap, l: Loc, v: Val): (h': Heap)
    ensures |h'| == |h|
  {
    if l.oid < |h| then h[l.oid := Set(h[l.oid], l.path, v)] else h
  }

  /** What every name denotes. */
  ghost function View(h: Heap, env: Bindings): (st: Store)
    ensures st.Keys == env.Keys
  {
    map x | x in env :: ReadLoc(h, env[x])
  }

  /**
   Wrong: an undeclared name, a wrong number of arguments or results, or a jump out of no loop; nothing is
   claimed of it.  A function returns the locations of its results.
   */
  datatype RefOutcome =
    | Diverges
    | Wrong
    | Reverts
    | Runs(h: Heap, env: Bindings)
    | Breaks(h: Heap, env: Bindings)
    | Continues(h: Heap, env: Bindings)
    | Returns(h: Heap, env: Bindings, locs: seq<Loc>)

  ghost function Values(h: Heap, locs: seq<Loc>): (vs: seq<Val>)
    ensures |vs| == |locs|
  {
    seq(|locs|, i requires 0 <= i < |locs| => ReadLoc(h, locs[i]))
  }

  /** Parameters bound to the caller's objects where they are memory references, to own objects otherwise. */
  ghost function Bind(params: seq<Param>, args: seq<Arg>, h: Heap, env: Bindings, ops: Ops): (r: (Heap, seq<Loc>))
    requires |params| == |args|
    ensures |r.1| == |params|
    decreases |params|
  {
    if params == [] then (h, [])
    else
      var n := |params| - 1;
      var (h', locs) := Bind(params[..n], args[..n], h, env, ops);
      var st := View(h, env);
      if params[n].mem && args[n].Ref? && args[n].x in env then
        (h', locs + [env[args[n].x].Down(EvalPath(args[n].path, st, ops))])
      else (h' + [ArgValue(args[n], st, ops)], locs + [Loc(|h'|, [])])
  }

  ghost function ArgValue(a: Arg, st: Store, ops: Ops): Val {
    Eval(if a.Ref? then Read(a.x, a.path) else a.e, st, ops)
  }

  function Named(params: seq<Param>, locs: seq<Loc>): Bindings
    requires |params| == |locs|
  {
    if params == [] then map[]
    else Named(params[..|params| - 1], locs[..|params| - 1])[params[|params| - 1].name := locs[|params| - 1]]
  }

  /** Every listed name gets an object of its own with the listed value. */
  ghost function Rebind(xs: seq<string>, vs: seq<Val>, h: Heap, env: Bindings): (Heap, Bindings)
    requires |xs| == |vs|
    decreases |xs|
  {
    if xs == [] then (h, env)
    else
      var n := |xs| - 1;
      var (h', env') := Rebind(xs[..n], vs[..n], h, env);
      (h' + [vs[n]], env'[xs[n] := Loc(|h'|, [])])
  }

  ghost function Zeros(n: nat): (vs: seq<Val>)
    ensures |vs| == n
  {
    seq(n, _ => Zero())
  }

  predicate Declared(xs: seq<string>, env: Bindings) {
    forall i :: 0 <= i < |xs| ==> xs[i] in env
  }

  predicate RootsDeclared(args: seq<Arg>, env: Bindings) {
    forall i :: 0 <= i < |args| && args[i].Ref? ==> args[i].x in env
  }

  /** The named results as references. */
  function NamedRefs(results: seq<string>): (es: seq<Arg>)
    ensures |es| == |results|
  {
    seq(|results|, i requires 0 <= i < |results| => Ref(results[i], []))
  }

  /** Parameters that keep every reference: how results are bound. */
  function AllMemory(n: nat): (params: seq<Param>)
    ensures |params| == n
  {
    seq(n, _ => Param("", true))
  }

  /** The listed names become names of the listed objects, the last one of a repeated name. */
  function BindResults(rs: seq<string>, locs: seq<Loc>, env: Bindings): (env': Bindings)
    requires |rs| == |locs|
    ensures env.Keys <= env'.Keys
    decreases |rs|
  {
    if rs == [] then env
    else BindResults(rs[..|rs| - 1], locs[..|rs| - 1], env)[rs[|rs| - 1] := locs[|rs| - 1]]
  }

  ghost function ReturnRef(fn: Fn, es: seq<Arg>, h: Heap, env: Bindings, ops: Ops): (r: RefOutcome)
    ensures r.Wrong? || (r.Returns? && |r.locs| == |fn.results|)
  {
    if |es| != |fn.results| || !RootsDeclared(es, env) then Wrong
    else
      var (h', locs) := Bind(AllMemory(|es|), es, h, env, ops);
      Returns(h', env, locs)
  }

  ghost function ReturnNames(fn: Fn, h: Heap, env: Bindings, ops: Ops): (r: RefOutcome)
    ensures r.Wrong? || (r.Returns? && |r.locs| == |fn.results|)
  {
    if fn.named || fn.results == [] then ReturnRef(fn, NamedRefs(fn.results), h, env, ops) else Wrong
  }

  /** What a body's outcome is for its caller: falling off the end returns the named results. */
  ghost function EndRef(fn: Fn, r: RefOutcome, ops: Ops): RefOutcome {
    if r.Runs? then ReturnNames(fn, r.h, r.env, ops) else if r.Breaks? || r.Continues? then Wrong else r
  }

  ghost function ExecRef(p: Program, ops: Ops, fn: Fn, s: Stmt, h: Heap, env: Bindings, fuel: nat): (r: RefOutcome)
    ensures r.Returns? ==> |r.locs| == |fn.results|
    decreases fuel, s, 0
  {
    var st := View(h, env);
    match s
    case Skip => Runs(h, env)
    case Assign(x, path, e) =>
      if x !in env then Wrong
      else if path == [] then Runs(h + [Eval(e, st, ops)], env[x := Loc(|h|, [])])
      else Runs(WriteLoc(h, env[x].Down(EvalPath(path, st, ops)), Eval(e, st, ops)), env)
    case Alias(x, y, path, _) =>
      if x !in env || y !in env then Wrong else Runs(h, env[x := env[y].Down(EvalPath(path, st, ops))])
    case Call(rs, f, args) =>
      if f !in p || |args| != |p[f].params| || |rs| != |p[f].results| || !Declared(rs, env) || !RootsDeclared(args, env)
      then Wrong
      else if fuel == 0 then Diverges
      else CallRef(p, ops, rs, p[f], args, h, env, fuel)
    case Hoisted(_, pre, call) =>
      var r := ExecRef(p, ops, fn, pre, h, env, fuel);
      if r.Runs? then ExecRef(p, ops, fn, call, r.h, r.env, fuel) else r
    case Return(es) => ReturnRef(fn, es, h, env, ops)
    case ReturnNamed => ReturnNames(fn, h, env, ops)
    case Seq(first, second) =>
      var r := ExecRef(p, ops, fn, first, h, env, fuel);
      if r.Runs? then ExecRef(p, ops, fn, second, r.h, r.env, fuel) else r
    case If(cond, onTrue, onFalse) =>
      ExecRef(p, ops, fn, if Scalar(Eval(cond, st, ops)) != 0 then onTrue else onFalse, h, env, fuel)
    case While(cond, body) =>
      if Scalar(Eval(cond, st, ops)) == 0 then Runs(h, env)
      else if fuel == 0 then Diverges
      else
        var r := ExecRef(p, ops, fn, body, h, env, fuel);
        if r.Runs? || r.Continues? then ExecRef(p, ops, fn, s, r.h, r.env, fuel - 1)
        else if r.Breaks? then Runs(r.h, r.env)
        else r
    case Break => Breaks(h, env)
    case Continue => Continues(h, env)
    case Require(cond) => if Scalar(Eval(cond, st, ops)) != 0 then Runs(h, env) else Reverts
  }

  /** A call: the results' names become names of the returned objects. */
  ghost function CallRef(p: Program, ops: Ops, rs: seq<string>, g: Fn, args: seq<Arg>, h: Heap, env: Bindings,
          fuel: nat): (r: RefOutcome)
    requires fuel > 0 && |args| == |g.params| && |rs| == |g.results|
    ensures !r.Returns? && !r.Breaks? && !r.Continues? && (r.Runs? ==> env.Keys <= r.env.Keys)
    decreases fuel - 1, g.body, 2
  {
    var r := BodyRef(p, ops, g, args, h, env, fuel);
    if r.Returns? then Runs(r.h, BindResults(rs, r.locs, env)) else r
  }

  /** The heap and bindings a callee starts with. */
  ghost function Enter(g: Fn, args: seq<Arg>, h: Heap, env: Bindings, ops: Ops): (Heap, Bindings)
    requires |args| == |g.params|
  {
    var (h', locs) := Bind(g.params, args, h, env, ops);
    Rebind(g.locals, Zeros(|g.locals|), h', Named(g.params, locs))
  }

  /** The callee's body, from entering to returning. */
  ghost function BodyRef(p: Program, ops: Ops, g: Fn, args: seq<Arg>, h: Heap, env: Bindings,
          fuel: nat): (r: RefOutcome)
    requires fuel > 0 && |args| == |g.params|
    ensures !r.Runs? && !r.Breaks? && !r.Continues? && (r.Returns? ==> |r.locs| == |g.results|)
    decreases fuel - 1, g.body, 1
  {
    var (h', env') := Enter(g, args, h, env, ops);
    var r := ExecRef(p, ops, g, g.body, h', env', fuel - 1);
    EndRef(g, r, ops)
  }

  /** A condition is its number: zero is false. */
  lemma {:induction false} Conditions(p: Program, ops: Ops, fn: Fn, h: Heap, env: Bindings, fuel: nat, cond: Expr,
                                      onTrue: Stmt, onFalse: Stmt)
    ensures var holds := Eval(cond, View(h, env), ops)[[]] != 0;
            && ExecRef(p, ops, fn, If(cond, onTrue, onFalse), h, env, fuel)
               == ExecRef(p, ops, fn, if holds then onTrue else onFalse, h, env, fuel)
            && ExecRef(p, ops, fn, Require(cond), h, env, fuel) == (if holds then Runs(h, env) else Reverts)
            && (!holds ==> ExecRef(p, ops, fn, While(cond, onTrue), h, env, fuel) == Runs(h, env))
  {
    hide Eval, View;
  }
}
