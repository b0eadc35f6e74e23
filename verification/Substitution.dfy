/**
 Substitution of a symbolic state into the terms of another: what it means, and which terms notice that
 composition leaves the account map and the accumulated cost out of it.
 */
module Substitution {
  import opened Options
  import opened Words
  import opened WordArith
  import opened Machine
  import opened Symbolic
  import opened SymSound

  /** The symbolic state a summary is instantiated with. */
  datatype Base = Base(xs: seq<Term>, mem: MemTerm, aw: AwTerm, world: WorldTerm, costs: seq<CostTerm>)

  function Subst(t: Term, base: Base): Term
    decreases t
  {
    match t
    case Lit(_) => t
    case Input(i) => if i < |base.xs| then base.xs[i] else t
    case SiteWord(_, _) => t
    case Alu1(op, a) => Alu1(op, Subst(a, base))
    case Alu2(f, a, b) => Alu2(f, Subst(a, base), Subst(b, base))
    case Alu3(op, a, b, c) => Alu3(op, Subst(a, base), Subst(b, base), Subst(c, base))
    case EnvTerm(_) => t
    case CallDataAt(a) => CallDataAt(Subst(a, base))
    case Load(a, mem) => Load(Subst(a, base), SubstMem(mem, base))
    case Hash(a, b, mem) => Hash(Subst(a, base), Subst(b, base), SubstMem(mem, base))
    case Stored(world, slot) => Stored(SubstWorld(world, base), Subst(slot, base))
    case TransientStored(world, slot) => TransientStored(SubstWorld(world, base), Subst(slot, base))
    case AccountTerm(op, world, a) => AccountTerm(op, SubstWorld(world, base), Subst(a, base))
    case BlockHashAt(a) => BlockHashAt(Subst(a, base))
    case GasLeft(costs) => GasLeft(base.costs + SubstCosts(costs, base))
    case GasWord(_) => t
  }

  function SubstMem(mem: MemTerm, base: Base): MemTerm
    decreases mem
  {
    match mem
    case EntryMem => base.mem
    case WordWritten(value, mem, at) => WordWritten(Subst(value, base), SubstMem(mem, base), Subst(at, base))
    case ByteWritten(value, mem, at) => ByteWritten(Subst(value, base), SubstMem(mem, base), Subst(at, base))
    case Copied(source, from, mem, at, len) =>
      Copied(source, Subst(from, base), SubstMem(mem, base), Subst(at, base), Subst(len, base))
    case Moved(from, mem, at, len) =>
      Moved(Subst(from, base), SubstMem(mem, base), Subst(at, base), Subst(len, base))
  }

  function SubstAw(aw: AwTerm, base: Base): AwTerm
    decreases aw
  {
    match aw
    case EntryAw => base.aw
    case Grown(aw, at, len) => Grown(SubstAw(aw, base), Subst(at, base), Subst(len, base))
    case GrownForMove(aw, at, from, len) =>
      GrownForMove(SubstAw(aw, base), Subst(at, base), Subst(from, base), Subst(len, base))
  }

  function SubstWorld(world: WorldTerm, base: Base): WorldTerm
    decreases world
  {
    match world
    case EntryWorld => base.world
    case SStored(world, slot, value) => SStored(SubstWorld(world, base), Subst(slot, base), Subst(value, base))
    case TStored(world, slot, value) => TStored(SubstWorld(world, base), Subst(slot, base), Subst(value, base))
  }

  function SubstCost(c: CostTerm, base: Base): CostTerm
    decreases c
  {
    match c
    case Gas(_) => c
    case Growth(aw, at, len) => Growth(SubstAw(aw, base), Subst(at, base), Subst(len, base))
    case MoveGrowth(aw, at, from, len) =>
      MoveGrowth(SubstAw(aw, base), Subst(at, base), Subst(from, base), Subst(len, base))
    case PerWord(fee, rate, len) => PerWord(fee, rate, Subst(len, base))
    case LogData(len, topics) => LogData(Subst(len, base), topics)
    case ExpGas(exponent) => ExpGas(Subst(exponent, base))
  }

  function SubstCosts(costs: seq<CostTerm>, base: Base): (r: seq<CostTerm>)
    ensures |r| == |costs|
    decreases costs
  {
    if costs == [] then []
    else SubstCosts(costs[..|costs| - 1], base) + [SubstCost(costs[|costs| - 1], base)]
  }

  function SubstAll(ts: seq<Term>, base: Base): (r: seq<Term>)
    ensures |r| == |ts|
    ensures forall i :: 0 <= i < |ts| ==> r[i] == Subst(ts[i], base)
  {
    seq(|ts|, i requires 0 <= i < |ts| => Subst(ts[i], base))
  }

  // ----- what substitution means -----

  /** The entry state a substituted state denotes; inputs beyond the substituted ones stay. */
  function Through(base: Base, env: Env, e: Entry): Entry {
    e.(xs := EvalStack(base.xs, env, e) + (if |base.xs| <= |e.xs| then e.xs[|base.xs|..] else []),
       mem := EvalMem(base.mem, env, e), aw := EvalAw(base.aw, env, e), world := EvalWorld(base.world, env, e),
       spent := e.spent + EvalCosts(base.costs, env, e))
  }

  /** A substituted term means the term at the entry state the substitution denotes. */
  lemma {:induction false} SubstDenotes(t: Term, base: Base, env: Env, e: Entry)
    ensures Eval(Subst(t, base), env, e) == Eval(t, env, Through(base, env, e))
    decreases t, 1
  {
    hide Apply, IsZero, Not, AddMod, MulMod, EnvironmentWord, CallDataWord, LoadWord, ReadPadded, Lookup, Wrap,
         Saturating, EvalMem, EvalWorld, EvalCosts, SubstMem, SubstWorld, SubstCosts, Through;
    ThroughKeeps(base, env, e);
    match t
    case Input(i) => ThroughInput(i, base, env, e);
    case Alu1(_, a) => SubstDenotes(a, base, env, e);
    case Alu2(_, a, b) => SubstDenotes(a, base, env, e); SubstDenotes(b, base, env, e);
    case Alu3(_, a, b, c) =>
      SubstDenotes(a, base, env, e); SubstDenotes(b, base, env, e); SubstDenotes(c, base, env, e);
    case CallDataAt(a) => SubstDenotes(a, base, env, e);
    case BlockHashAt(a) => SubstDenotes(a, base, env, e);
    case Load(_, _) => ReadDenotes(t, base, env, e);
    case Hash(_, _, _) => ReadDenotes(t, base, env, e);
    case Stored(_, _) => ReadDenotes(t, base, env, e);
    case TransientStored(_, _) => ReadDenotes(t, base, env, e);
    case AccountTerm(_, _, _) => ReadDenotes(t, base, env, e);
    case GasLeft(costs) => GasDenotes(costs, base, env, e);
    case _ =>
  }

  /** Terms that read the memory or the account map. */
  lemma {:induction false} ReadDenotes(t: Term, base: Base, env: Env, e: Entry)
    requires t.Load? || t.Hash? || t.Stored? || t.TransientStored? || t.AccountTerm?
    ensures Eval(Subst(t, base), env, e) == Eval(t, env, Through(base, env, e))
    decreases t, 0
  {
    hide LoadWord, ReadPadded, Lookup, EvalMem, EvalWorld, SubstMem, SubstWorld, Through;
    match t
    case Load(a, mem) => SubstDenotes(a, base, env, e); SubstMemDenotes(mem, base, env, e);
    case Hash(a, b, mem) =>
      SubstDenotes(a, base, env, e); SubstDenotes(b, base, env, e); SubstMemDenotes(mem, base, env, e);
    case Stored(world, slot) => SubstWorldDenotes(world, base, env, e); SubstDenotes(slot, base, env, e);
    case TransientStored(world, slot) => SubstWorldDenotes(world, base, env, e); SubstDenotes(slot, base, env, e);
    case AccountTerm(_, world, a) => SubstWorldDenotes(world, base, env, e); SubstDenotes(a, base, env, e);
  }

  lemma {:induction false} GasDenotes(costs: seq<CostTerm>, base: Base, env: Env, e: Entry)
    ensures Eval(Subst(GasLeft(costs), base), env, e) == Eval(GasLeft(costs), env, Through(base, env, e))
    decreases costs, 1
  {
    hide Wrap, Saturating, EvalCosts, SubstCosts, Through;
    ThroughKeeps(base, env, e);
    SubstCostsDenote(costs, base, env, e);
    CostsAppend(base.costs, SubstCosts(costs, base), env, e);
  }

  lemma {:induction false} ThroughKeeps(base: Base, env: Env, e: Entry)
    ensures var e' := Through(base, env, e);
            && e'.gasWords == e.gasWords && e'.words == e.words && e'.world == EvalWorld(base.world, env, e)
            && e'.spent == e.spent + EvalCosts(base.costs, env, e)
            && e'.mem == EvalMem(base.mem, env, e) && e'.aw == EvalAw(base.aw, env, e)
  {
    hide EvalMem, EvalAw, EvalWorld, EvalCosts, EvalStack;
  }

  lemma {:induction false} ThroughInput(i: nat, base: Base, env: Env, e: Entry)
    ensures Eval(Subst(Input(i), base), env, e) == Eval(Input(i), env, Through(base, env, e))
  {
    hide EvalMem, EvalAw, EvalWorld, EvalCosts;
  }

  lemma {:induction false} SubstMemDenotes(mem: MemTerm, base: Base, env: Env, e: Entry)
    ensures EvalMem(SubstMem(mem, base), env, e) == EvalMem(mem, env, Through(base, env, e))
    decreases mem
  {
    hide Eval, Subst, WriteBytes, WordBytes, Through;
    ThroughKeeps(base, env, e);
    match mem
    case EntryMem =>
    case WordWritten(value, mem', at) =>
      SubstDenotes(value, base, env, e); SubstMemDenotes(mem', base, env, e); SubstDenotes(at, base, env, e);
    case ByteWritten(value, mem', at) =>
      SubstDenotes(value, base, env, e); SubstMemDenotes(mem', base, env, e); SubstDenotes(at, base, env, e);
    case Copied(_, from, mem', at, len) =>
      SubstDenotes(from, base, env, e); SubstMemDenotes(mem', base, env, e);
      SubstDenotes(at, base, env, e); SubstDenotes(len, base, env, e);
    case Moved(from, mem', at, len) =>
      SubstDenotes(from, base, env, e); SubstMemDenotes(mem', base, env, e);
      SubstDenotes(at, base, env, e); SubstDenotes(len, base, env, e);
  }

  lemma {:induction false} SubstAwDenotes(aw: AwTerm, base: Base, env: Env, e: Entry)
    ensures EvalAw(SubstAw(aw, base), env, e) == EvalAw(aw, env, Through(base, env, e))
    decreases aw
  {
    hide Eval, Subst, Touch, Through;
    ThroughKeeps(base, env, e);
    match aw
    case EntryAw =>
    case Grown(aw', at, len) =>
      SubstAwDenotes(aw', base, env, e); SubstDenotes(at, base, env, e); SubstDenotes(len, base, env, e);
    case GrownForMove(aw', at, from, len) =>
      SubstAwDenotes(aw', base, env, e); SubstDenotes(at, base, env, e);
      SubstDenotes(from, base, env, e); SubstDenotes(len, base, env, e);
  }

  lemma {:induction false} SubstWorldDenotes(world: WorldTerm, base: Base, env: Env, e: Entry)
    ensures EvalWorld(SubstWorld(world, base), env, e) == EvalWorld(world, env, Through(base, env, e))
    decreases world
  {
    hide Eval, Subst, Through;
    ThroughKeeps(base, env, e);
    match world
    case EntryWorld =>
    case SStored(world', slot, value) =>
      SubstWorldDenotes(world', base, env, e); SubstDenotes(slot, base, env, e); SubstDenotes(value, base, env, e);
    case TStored(world', slot, value) =>
      SubstWorldDenotes(world', base, env, e); SubstDenotes(slot, base, env, e); SubstDenotes(value, base, env, e);
  }

  lemma {:induction false} SubstCostDenotes(c: CostTerm, base: Base, env: Env, e: Entry)
    ensures EvalCost(SubstCost(c, base), env, e) == EvalCost(c, env, Through(base, env, e))
    decreases c
  {
    hide Eval, Subst, EvalAw, SubstAw, Touch, ExpansionCost, WordCount, ExpCost, Through;
    match c
    case Gas(_) =>
    case Growth(aw, at, len) =>
      SubstAwDenotes(aw, base, env, e); SubstDenotes(at, base, env, e); SubstDenotes(len, base, env, e);
    case MoveGrowth(aw, at, from, len) =>
      SubstAwDenotes(aw, base, env, e); SubstDenotes(at, base, env, e);
      SubstDenotes(from, base, env, e); SubstDenotes(len, base, env, e);
    case PerWord(_, _, len) => SubstDenotes(len, base, env, e);
    case LogData(len, _) => SubstDenotes(len, base, env, e);
    case ExpGas(exponent) => SubstDenotes(exponent, base, env, e);
  }

  lemma {:induction false} SubstCostsDenote(costs: seq<CostTerm>, base: Base, env: Env, e: Entry)
    ensures EvalCosts(SubstCosts(costs, base), env, e) == EvalCosts(costs, env, Through(base, env, e))
    decreases costs, 0
  {
    hide EvalCost, SubstCost, Through;
    if costs != [] {
      var n := |costs| - 1;
      SubstCostsDenote(costs[..n], base, env, e);
      SubstCostDenotes(costs[n], base, env, e);
      var done := SubstCosts(costs, base);
      assert done[..n] == SubstCosts(costs[..n], base) && done[n] == SubstCost(costs[n], base);
    }
  }

  // ----- what a term reads -----

  /** The term reads the account map, asked if `store`, or the gas counter, asked if `gas`. */
  predicate Reads(t: Term, store: bool, gas: bool)
    decreases t
  {
    match t
    case Lit(_) => false
    case Input(_) => false
    case SiteWord(_, _) => false
    case Alu1(_, a) => Reads(a, store, gas)
    case Alu2(_, a, b) => Reads(a, store, gas) || Reads(b, store, gas)
    case Alu3(_, a, b, c) => Reads(a, store, gas) || Reads(b, store, gas) || Reads(c, store, gas)
    case EnvTerm(_) => false
    case CallDataAt(a) => Reads(a, store, gas)
    case Load(a, mem) => Reads(a, store, gas) || ReadsInMem(mem, store, gas)
    case Hash(a, b, mem) => Reads(a, store, gas) || Reads(b, store, gas) || ReadsInMem(mem, store, gas)
    case Stored(world, slot) => ReadsInWorld(world, store, gas) || Reads(slot, store, gas)
    case TransientStored(world, slot) => ReadsInWorld(world, store, gas) || Reads(slot, store, gas)
    case AccountTerm(_, world, a) => ReadsInWorld(world, store, gas) || Reads(a, store, gas)
    case BlockHashAt(a) => Reads(a, store, gas)
    case GasLeft(costs) => gas || ReadsInCosts(costs, store, gas)
    case GasWord(_) => false
  }

  predicate ReadsInMem(mem: MemTerm, store: bool, gas: bool)
    decreases mem
  {
    match mem
    case EntryMem => false
    case WordWritten(value, mem, at) => Reads(value, store, gas) || ReadsInMem(mem, store, gas) || Reads(at, store, gas)
    case ByteWritten(value, mem, at) => Reads(value, store, gas) || ReadsInMem(mem, store, gas) || Reads(at, store, gas)
    case Copied(_, from, mem, at, len) =>
      Reads(from, store, gas) || ReadsInMem(mem, store, gas) || Reads(at, store, gas) || Reads(len, store, gas)
    case Moved(from, mem, at, len) =>
      Reads(from, store, gas) || ReadsInMem(mem, store, gas) || Reads(at, store, gas) || Reads(len, store, gas)
  }

  predicate ReadsInAw(aw: AwTerm, store: bool, gas: bool)
    decreases aw
  {
    match aw
    case EntryAw => false
    case Grown(aw, at, len) => ReadsInAw(aw, store, gas) || Reads(at, store, gas) || Reads(len, store, gas)
    case GrownForMove(aw, at, from, len) =>
      ReadsInAw(aw, store, gas) || Reads(at, store, gas) || Reads(from, store, gas) || Reads(len, store, gas)
  }

  predicate ReadsInWorld(world: WorldTerm, store: bool, gas: bool)
    decreases world
  {
    match world
    case EntryWorld => store
    case SStored(world, slot, value) => ReadsInWorld(world, store, gas) || Reads(slot, store, gas) || Reads(value, store, gas)
    case TStored(world, slot, value) => ReadsInWorld(world, store, gas) || Reads(slot, store, gas) || Reads(value, store, gas)
  }

  predicate ReadsInCost(c: CostTerm, store: bool, gas: bool)
    decreases c
  {
    match c
    case Gas(_) => false
    case Growth(aw, at, len) => ReadsInAw(aw, store, gas) || Reads(at, store, gas) || Reads(len, store, gas)
    case MoveGrowth(aw, at, from, len) =>
      ReadsInAw(aw, store, gas) || Reads(at, store, gas) || Reads(from, store, gas) || Reads(len, store, gas)
    case PerWord(_, _, len) => Reads(len, store, gas)
    case LogData(len, _) => Reads(len, store, gas)
    case ExpGas(exponent) => Reads(exponent, store, gas)
  }

  predicate ReadsInCosts(costs: seq<CostTerm>, store: bool, gas: bool)
    decreases costs
  {
    costs != []
    && (ReadsInCosts(costs[..|costs| - 1], store, gas) || ReadsInCost(costs[|costs| - 1], store, gas))
  }

  /** Composition substitutes neither the account map nor the cost. */
  function Composed(base: Base): Base {
    base.(world := EntryWorld, costs := [])
  }

  /** The substitution that composition carries out is the right one. */
  predicate Same(t: Term, base: Base) {
    Subst(t, base) == Subst(t, Composed(base))
  }

  predicate Unread(t: Term, base: Base) {
    !Reads(t, base.world != EntryWorld, base.costs != [])
  }

  /**
   Leaving out the account map and the cost makes no difference to a term if and only if it reads
   neither the map, unless that is still the entry map, nor the gas counter, unless nothing is spent yet.
   */
  lemma {:induction false} SameExactly(t: Term, base: Base)
    ensures Same(t, base) <==> Unread(t, base)
    decreases t, 1
  {
    hide SubstMem, SubstWorld, SubstCosts, ReadsInMem, ReadsInWorld, ReadsInCosts;
    match t
    case Alu1(_, a) => SameExactly(a, base);
    case Alu2(_, a, b) => SameExactly(a, base); SameExactly(b, base);
    case Alu3(_, a, b, c) => SameExactly(a, base); SameExactly(b, base); SameExactly(c, base);
    case CallDataAt(a) => SameExactly(a, base);
    case BlockHashAt(a) => SameExactly(a, base);
    case Load(_, _) => SameReadExactly(t, base);
    case Hash(_, _, _) => SameReadExactly(t, base);
    case Stored(_, _) => SameReadExactly(t, base);
    case TransientStored(_, _) => SameReadExactly(t, base);
    case AccountTerm(_, _, _) => SameReadExactly(t, base);
    case GasLeft(costs) =>
      SameCostsExactly(costs, base);
      assert [] + SubstCosts(costs, Composed(base)) == SubstCosts(costs, Composed(base));
      assert base.costs == [] ==> base.costs + SubstCosts(costs, base) == SubstCosts(costs, base);
      assert |base.costs + SubstCosts(costs, base)| == |base.costs| + |costs|;
    case _ =>
  }

  lemma {:induction false} SameReadExactly(t: Term, base: Base)
    requires t.Load? || t.Hash? || t.Stored? || t.TransientStored? || t.AccountTerm?
    ensures Same(t, base) <==> Unread(t, base)
    decreases t, 0
  {
    hide SubstMem, SubstWorld, ReadsInMem, ReadsInWorld;
    match t
    case Load(a, mem) => SameExactly(a, base); SameMemExactly(mem, base);
    case Hash(a, b, mem) => SameExactly(a, base); SameExactly(b, base); SameMemExactly(mem, base);
    case Stored(world, slot) => SameWorldExactly(world, base); SameExactly(slot, base);
    case TransientStored(world, slot) => SameWorldExactly(world, base); SameExactly(slot, base);
    case AccountTerm(_, world, a) => SameWorldExactly(world, base); SameExactly(a, base);
  }

  lemma {:induction false} SameMemExactly(mem: MemTerm, base: Base)
    ensures SubstMem(mem, base) == SubstMem(mem, Composed(base))
            <==> !ReadsInMem(mem, base.world != EntryWorld, base.costs != [])
    decreases mem
  {
    hide Subst, Reads;
    match mem
    case EntryMem =>
    case WordWritten(value, mem', at) => SameExactly(value, base); SameMemExactly(mem', base); SameExactly(at, base);
    case ByteWritten(value, mem', at) => SameExactly(value, base); SameMemExactly(mem', base); SameExactly(at, base);
    case Copied(_, from, mem', at, len) =>
      SameExactly(from, base); SameMemExactly(mem', base); SameExactly(at, base); SameExactly(len, base);
    case Moved(from, mem', at, len) =>
      SameExactly(from, base); SameMemExactly(mem', base); SameExactly(at, base); SameExactly(len, base);
  }

  lemma {:induction false} SameAwExactly(aw: AwTerm, base: Base)
    ensures SubstAw(aw, base) == SubstAw(aw, Composed(base))
            <==> !ReadsInAw(aw, base.world != EntryWorld, base.costs != [])
    decreases aw
  {
    hide Subst, Reads;
    match aw
    case EntryAw =>
    case Grown(aw', at, len) => SameAwExactly(aw', base); SameExactly(at, base); SameExactly(len, base);
    case GrownForMove(aw', at, from, len) =>
      SameAwExactly(aw', base); SameExactly(at, base); SameExactly(from, base); SameExactly(len, base);
  }

  lemma {:induction false} SameWorldExactly(world: WorldTerm, base: Base)
    ensures SubstWorld(world, base) == SubstWorld(world, Composed(base))
            <==> !ReadsInWorld(world, base.world != EntryWorld, base.costs != [])
    decreases world
  {
    hide Subst, Reads;
    match world
    case EntryWorld =>
    case SStored(world', slot, value) =>
      SameWorldExactly(world', base); SameExactly(slot, base); SameExactly(value, base);
    case TStored(world', slot, value) =>
      SameWorldExactly(world', base); SameExactly(slot, base); SameExactly(value, base);
  }

  lemma {:induction false} SameCostExactly(c: CostTerm, base: Base)
    ensures SubstCost(c, base) == SubstCost(c, Composed(base))
            <==> !ReadsInCost(c, base.world != EntryWorld, base.costs != [])
    decreases c
  {
    hide Subst, Reads, SubstAw, ReadsInAw;
    match c
    case Gas(_) =>
    case Growth(aw, at, len) => SameAwExactly(aw, base); SameExactly(at, base); SameExactly(len, base);
    case MoveGrowth(aw, at, from, len) =>
      SameAwExactly(aw, base); SameExactly(at, base); SameExactly(from, base); SameExactly(len, base);
    case PerWord(_, _, len) => SameExactly(len, base);
    case LogData(len, _) => SameExactly(len, base);
    case ExpGas(exponent) => SameExactly(exponent, base);
  }

  lemma {:induction false} SameCostsExactly(costs: seq<CostTerm>, base: Base)
    ensures SubstCosts(costs, base) == SubstCosts(costs, Composed(base))
            <==> !ReadsInCosts(costs, base.world != EntryWorld, base.costs != [])
    decreases costs, 0
  {
    hide SubstCost, ReadsInCost;
    if costs != [] {
      var n := |costs| - 1;
      SameCostsExactly(costs[..n], base);
      SameCostExactly(costs[n], base);
      var (a, b) := (SubstCosts(costs, base), SubstCosts(costs, Composed(base)));
      assert a[..n] == SubstCosts(costs[..n], base) && a[n] == SubstCost(costs[n], base);
      assert b[..n] == SubstCosts(costs[..n], Composed(base)) && b[n] == SubstCost(costs[n], Composed(base));
      assert a == a[..n] + [a[n]] && b == b[..n] + [b[n]];
    }
  }
}
