/**
 The reentrancy lock: what the translator emits around the body of a nonreentrant function, and what the
 emitted protocol guarantees over whole runs with arbitrary re-entrant calls and reverts.
 */
module Lock {
  import opened Options

  // ----- what is emitted -----

  datatype Mutability = Payable | Nonpayable | View | Pure

  datatype ResultShape = NoResult | Single | TupleOf(arity: nat)

  /** The constructor and the fallback function have names of their own. */
  datatype Special = Ordinary | Init | Default

  /** A function of a module: its identity, decorators and result. */
  datatype VyFn = VyFn(id: nat, special: Special, external: bool, nonreentrant: bool, reentrant: bool,
                       mutability: Mutability, result: ResultShape)

  datatype Line =
    | RequireNot(v: int)
    | StoreLock(v: int)
    | RunBody
    | GiveResult(shape: ResultShape)

  /** The lock's values while a function runs and after it, transient or in storage. */
  function LockValues(transient: bool): (v: (int, int))
    ensures v.0 != v.1 && v.0 != 0
  {
    if transient then (1, 0) else (2, 3)
  }

  /** The decorator, or a module that is nonreentrant by default. */
  predicate IsNonreentrant(fn: VyFn, pragma: bool) {
    fn.nonreentrant || (pragma && !fn.reentrant && fn.external && !fn.special.Init?)
  }

  /** The wrapper of a view function only checks the lock; that of the fallback function always takes it. */
  predicate OnlyChecks(fn: VyFn) {
    !fn.special.Default? && (fn.mutability.View? || fn.mutability.Pure?)
  }

  /** The emitted wrapper: check, lock, the body as a function of its own, unlock, its result. */
  function WrapperLines(transient: bool, view: bool, result: ResultShape): seq<Line> {
    var (temp, final) := LockValues(transient);
    [RequireNot(temp)] + (if view then [] else [StoreLock(temp)]) + [RunBody]
    + (if view then [] else [StoreLock(final)]) + (if result.NoResult? then [] else [GiveResult(result)])
  }

  function FunctionLines(transient: bool, pragma: bool, fn: VyFn): seq<Line> {
    if IsNonreentrant(fn, pragma) then WrapperLines(transient, OnlyChecks(fn), fn.result) else [RunBody]
  }

  /** The function is decorated nonreentrant, or is so by the module's default: external and not a constructor. */
  predicate Decorated(fn: VyFn, pragma: bool) {
    || fn.nonreentrant
    || (pragma && fn.external && !fn.reentrant && fn.special != Init)
  }

  /** A result is handed on after the release. */
  function Results(fn: VyFn): seq<Line> {
    match fn.result
    case NoResult => []
    case Single => [GiveResult(Single)]
    case TupleOf(n) => [GiveResult(TupleOf(n))]
  }

  /**
   What is emitted, case by case: the bare body of an undecorated function, a check for a view or pure one,
   and check, lock and release for every other and for the fallback whatever it is declared as; with 1 and 0
   in transient storage, 2 and 3 in storage.
   */
  lemma {:induction false} WrapperCases(fn: VyFn, pragma: bool)
    ensures !Decorated(fn, pragma) ==> forall transient :: FunctionLines(transient, pragma, fn) == [RunBody]
    ensures Decorated(fn, pragma) && fn.special != Default && (fn.mutability == View || fn.mutability == Pure) ==>
              && FunctionLines(true, pragma, fn) == [RequireNot(1), RunBody] + Results(fn)
              && FunctionLines(false, pragma, fn) == [RequireNot(2), RunBody] + Results(fn)
    ensures Decorated(fn, pragma) &&
            (fn.special == Default || fn.mutability == Payable || fn.mutability == Nonpayable) ==>
              && FunctionLines(true, pragma, fn) == [RequireNot(1), StoreLock(1), RunBody, StoreLock(0)] + Results(fn)
              && FunctionLines(false, pragma, fn) == [RequireNot(2), StoreLock(2), RunBody, StoreLock(3)] + Results(fn)
  {
  }

  /** The functions listed have the given identities, each once. */
  ghost predicate EachOnce(ids: set<nat>, fns: seq<VyFn>) {
    && (forall k :: k in ids <==> exists i :: 0 <= i < |fns| && fns[i].id == k)
    && (forall i, j :: 0 <= i < j < |fns| ==> fns[i].id != fns[j].id)
  }

  lemma {:induction false} OneMore(ids: set<nat>, fns: seq<VyFn>, fn: VyFn)
    requires EachOnce(ids, fns) && fn.id !in ids
    ensures EachOnce(ids + {fn.id}, fns + [fn])
  {
    var all := fns + [fn];
    assert all[|fns|] == fn;
    forall k | k in ids ensures exists i :: 0 <= i < |all| && all[i].id == k {
      var i :| 0 <= i < |fns| && fns[i].id == k;
      assert all[i].id == k;
    }
  }

  /** The part of the translator that rendering functions updates. */
  class Translator {
    const usesTransientLock: bool
    var lockUsed: bool
    var neededBodies: set<nat>
    var lockWrapped: seq<VyFn>
    ghost var fallbacks: set<nat>

    constructor (transient: bool)
      ensures usesTransientLock == transient && !lockUsed && neededBodies == {} && lockWrapped == [] && fallbacks == {}
    {
      usesTransientLock := transient;
      lockUsed := false;
      neededBodies := {};
      lockWrapped := [];
      fallbacks := {};
    }

    /** The functions whose bodies are still to be emitted are the needed ones and the fallback, each once. */
    ghost predicate Valid()
      reads this
    {
      EachOnce(neededBodies + fallbacks, lockWrapped) && (lockWrapped != [] ==> lockUsed)
    }

    method RenderWrapper(fn: VyFn) returns (out: seq<Line>)
      ensures out == WrapperLines(usesTransientLock, OnlyChecks(fn), fn.result)
    {
      hide OnlyChecks;
      var (temp, final) := LockValues(usesTransientLock);
      var view := OnlyChecks(fn);
      out := [RequireNot(temp)];
      if !view {
        out := out + [StoreLock(temp)];
      }
      out := out + [RunBody];
      if !view {
        out := out + [StoreLock(final)];
      }
      if !fn.result.NoResult? {
        out := out + [GiveResult(fn.result)];
      }
    }

    method RenderFunction(fn: VyFn, pragma: bool) returns (out: seq<Line>)
      requires Valid() && fn.id !in fallbacks
      modifies this
      ensures Valid() && fallbacks == old(fallbacks)
      ensures out == FunctionLines(usesTransientLock, pragma, fn)
      ensures lockUsed == (old(lockUsed) || IsNonreentrant(fn, pragma))
      ensures neededBodies == old(neededBodies) + (if IsNonreentrant(fn, pragma) then {fn.id} else {})
      ensures lockWrapped == old(lockWrapped)
                             + (if IsNonreentrant(fn, pragma) && fn.id !in old(neededBodies) then [fn] else [])
    {
      hide EachOnce, IsNonreentrant, OnlyChecks, WrapperLines;
      out := [];
      var locked := IsNonreentrant(fn, pragma);
      if locked {
        lockUsed := true;
        out := RenderWrapper(fn);
        if fn.id !in neededBodies {
          OneMore(neededBodies + fallbacks, lockWrapped, fn);
          assert neededBodies + {fn.id} + fallbacks == neededBodies + fallbacks + {fn.id};
          neededBodies := neededBodies + {fn.id};
          lockWrapped := lockWrapped + [fn];
        }
      } else {
        out := [RunBody];
      }
    }

    /** The fallback function, rendered once: it takes the lock whatever its mutability and has no result. */
    method RenderDefault(fn: VyFn, pragma: bool) returns (out: seq<Line>)
      requires Valid() && fn.special.Default? && fn.result.NoResult? && fn.id !in neededBodies + fallbacks
      modifies this
      ensures Valid() && neededBodies == old(neededBodies)
      ensures out == FunctionLines(usesTransientLock, pragma, fn)
      ensures lockUsed == (old(lockUsed) || IsNonreentrant(fn, pragma))
      ensures fallbacks == old(fallbacks) + (if IsNonreentrant(fn, pragma) then {fn.id} else {})
      ensures lockWrapped == old(lockWrapped) + (if IsNonreentrant(fn, pragma) then [fn] else [])
    {
      hide EachOnce, IsNonreentrant;
      out := [];
      var locked := IsNonreentrant(fn, pragma);
      if locked {
        lockUsed := true;
        var (temp, final) := LockValues(usesTransientLock);
        out := [RequireNot(temp), StoreLock(temp), RunBody, StoreLock(final)];
        OneMore(neededBodies + fallbacks, lockWrapped, fn);
        assert neededBodies + (fallbacks + {fn.id}) == neededBodies + fallbacks + {fn.id};
        fallbacks := fallbacks + {fn.id};
        lockWrapped := lockWrapped + [fn];
      } else {
        out := [RunBody];
      }
    }
  }

  // ----- runs -----

  /** The contract's state: the lock slot and everything else. */
  datatype Store = Store(lock: int, data: int)

  /**
   An activation: its function and the function's code, the next line, whether its body is running, the
   internal calls running inside the body, and the state at its start.
   */
  datatype Frame = Frame(fn: VyFn, lines: seq<Line>, pc: nat, inBody: bool, inner: seq<VyFn>, snapshot: Store)

  /** `failed`: a call has just reverted and its caller has not yet reacted. */
  datatype State = State(store: Store, frames: seq<Frame>, failed: bool)

  datatype Step =
    | CallIn(fn: VyFn)          // from outside, or from a running body: a re-entrant call
    | Advance                   // the next line of the running function
    | CallInternal(fn: VyFn)    // of a nonreentrant function this runs the body, past the wrapper
    | InternalReturns
    | Work(data: int)           // a body changes the state it owns
    | BodyReturns               // the body ends, early or not
    | BodyReverts
    | Catch                     // the caller goes on after a reverted call
    | Propagate                 // the caller reverts as well

  /** The contract: the lock's kind, the module's default, and which function calls which internally. */
  datatype Config = Config(transient: bool, pragma: bool, calls: set<(VyFn, VyFn)>) {
    function Locked(): int {
      LockValues(transient).0
    }

    function Unlocked(): int {
      LockValues(transient).1
    }
  }

  /** The activation a call from outside starts. */
  function Entered(c: Config, fn: VyFn, s: Store): Frame {
    Frame(fn, FunctionLines(c.transient, c.pragma, fn), 0, false, [], s)
  }

  /** The functions whose bodies an activation is running, the outermost first. */
  function Running(f: Frame): seq<VyFn> {
    if f.inBody then [f.fn] + f.inner else []
  }

  function Top(s: State): Frame
    requires s.frames != []
  {
    s.frames[|s.frames| - 1]
  }

  function Below(s: State): seq<Frame>
    requires s.frames != []
  {
    s.frames[..|s.frames| - 1]
  }

  /** The running call reverts: the state at its start is restored. */
  function Revert(s: State): State
    requires s.frames != []
  {
    State(Top(s).snapshot, Below(s), true)
  }

  /** None: the step is not possible in this state. */
  function Next(c: Config, s: State, step: Step): Option<State> {
    match step
    case CallIn(fn) =>
      if !fn.external || s.failed || (s.frames != [] && !Top(s).inBody) then None
      else Some(s.(frames := s.frames + [Entered(c, fn, s.store)]))
    case Advance =>
      if s.failed || s.frames == [] || Top(s).inBody then None
      else
        var f := Top(s);
        if f.pc >= |f.lines| then Some(s.(frames := Below(s)))
        else
          var next := Below(s) + [f.(pc := f.pc + 1)];
          Some(match f.lines[f.pc]
               case RequireNot(v) => (if s.store.lock == v then Revert(s) else s.(frames := next))
               case StoreLock(v) => s.(store := s.store.(lock := v), frames := next)
               case RunBody => s.(frames := Below(s) + [f.(inBody := true)])
               case GiveResult(_) => s.(frames := next))
    case CallInternal(fn) =>
      if s.failed || s.frames == [] || !Top(s).inBody || (Running(Top(s))[|Top(s).inner|], fn) !in c.calls then None
      else Some(s.(frames := Below(s) + [Top(s).(inner := Top(s).inner + [fn])]))
    case InternalReturns =>
      if s.failed || s.frames == [] || !Top(s).inBody || Top(s).inner == [] then None
      else Some(s.(frames := Below(s) + [Top(s).(inner := Top(s).inner[..|Top(s).inner| - 1])]))
    case Work(data) =>
      if s.failed || s.frames == [] || !Top(s).inBody then None else Some(s.(store := s.store.(data := data)))
    case BodyReturns =>
      if s.failed || s.frames == [] || !Top(s).inBody || Top(s).inner != [] then None
      else Some(s.(frames := Below(s) + [Top(s).(inBody := false, pc := Top(s).pc + 1)]))
    case BodyReverts => if s.failed || s.frames == [] || !Top(s).inBody then None else Some(Revert(s))
    case Catch => if !s.failed || s.frames == [] then None else Some(s.(failed := false))
    case Propagate => if !s.failed || s.frames == [] then None else Some(Revert(s))
  }

  function Run(c: Config, s: State, steps: seq<Step>): Option<State>
    decreases |steps|
  {
    if steps == [] then Some(s)
    else
      var next :- Next(c, s, steps[0]);
      Run(c, next, steps[1..])
  }

  // ----- safety -----

  /** The activation of a wrapper that has locked and not yet unlocked. */
  predicate Active(f: Frame) {
    |f.lines| >= 4 && f.lines[1].StoreLock? && 2 <= f.pc <= 3
  }

  predicate SomeActive(fs: seq<Frame>) {
    exists i :: 0 <= i < |fs| && Active(fs[i])
  }

  predicate OneActive(fs: seq<Frame>) {
    forall i, j :: 0 <= i < j < |fs| ==> !(Active(fs[i]) && Active(fs[j]))
  }

  /** The activation runs an emitted function, and is in its body only at the line that runs it. */
  ghost predicate Emitted(c: Config, f: Frame) {
    && (f.lines == [RunBody] || exists view, result :: f.lines == WrapperLines(c.transient, view, result))
    && f.pc <= |f.lines|
    && (f.inBody ==> f.pc < |f.lines| && f.lines[f.pc] == RunBody)
  }

  /** A lock value that tells whether one of the activations holds the lock. */
  predicate Tells(c: Config, fs: seq<Frame>, lock: int) {
    OneActive(fs) && (lock == c.Locked() <==> SomeActive(fs))
  }

  /** The lock tells of the activations now, and every saved lock of the activations below it. */
  ghost predicate Safe(c: Config, s: State) {
    && (forall i :: 0 <= i < |s.frames| ==> Emitted(c, s.frames[i]))
    && (forall i :: 0 <= i < |s.frames| - 1 ==> s.frames[i].inBody)
    && (s.failed && s.frames != [] ==> Top(s).inBody)
    && (forall k :: 0 <= k < |s.frames| ==> Tells(c, s.frames[..k], s.frames[k].snapshot.lock))
    && Tells(c, s.frames, s.store.lock)
    && (s.frames != [] ==> TopLock(c, Top(s), s.store.lock))
  }

  /** Past the check and about to lock. */
  predicate AboutToLock(f: Frame) {
    f.pc == 1 && |f.lines| > 1 && f.lines[1].StoreLock?
  }

  /** Past the release. */
  predicate Released(f: Frame) {
    f.pc >= 4 && |f.lines| >= 4 && f.lines[1].StoreLock?
  }

  predicate TopLock(c: Config, f: Frame, lock: int) {
    (AboutToLock(f) ==> lock != c.Locked()) && (Released(f) ==> lock == c.Unlocked())
  }

  /** What emission allows at a line: the check comes first, locking needs no body running, and so on. */
  lemma {:induction false} EmittedLines(c: Config, f: Frame)
    requires Emitted(c, f)
    ensures f.pc < |f.lines| ==>
              match f.lines[f.pc]
              case RequireNot(v) => v == c.Locked() && f.pc == 0 && !Active(f) && !Active(f.(pc := 1))
              case StoreLock(v) =>
                && |f.lines| >= 4 && f.lines[1].StoreLock?
                && ((f.pc == 1 && v == c.Locked()) || (f.pc == 3 && v == c.Unlocked()))
              case RunBody => Active(f) == Active(f.(pc := f.pc + 1)) && f.pc < |f.lines|
              case GiveResult(_) => !Active(f) && !Active(f.(pc := f.pc + 1))
    ensures f.pc >= |f.lines| ==> !Active(f)
  {
    if f.lines != [RunBody] {
      var view, result :| f.lines == WrapperLines(c.transient, view, result);
    }
  }

  lemma {:induction false} EmittedFunction(c: Config, fn: VyFn, s: Store)
    ensures Emitted(c, Entered(c, fn, s))
    ensures !Active(Entered(c, fn, s))
  {
    hide WrapperLines;
  }

  /** Replacing the running activation by one that is active just when it was. */
  lemma {:induction false} TellsReplaced(c: Config, below: seq<Frame>, f: Frame, f': Frame, lock: int)
    requires Tells(c, below + [f], lock) && Active(f) == Active(f')
    ensures Tells(c, below + [f'], lock)
  {
    hide Active;
    var (a, b) := (below + [f], below + [f']);
    assert forall i :: 0 <= i < |a| ==> Active(a[i]) == Active(b[i]);
    if SomeActive(a) {
      var i :| 0 <= i < |a| && Active(a[i]);
      assert Active(b[i]);
    }
    if SomeActive(b) {
      var i :| 0 <= i < |b| && Active(b[i]);
      assert Active(a[i]);
    }
  }

  lemma {:induction false} TellsExtended(c: Config, fs: seq<Frame>, f: Frame, lock: int)
    requires !Active(f)
    ensures Tells(c, fs + [f], lock) <==> Tells(c, fs, lock)
  {
    hide Active;
    var all := fs + [f];
    assert forall i :: 0 <= i < |fs| ==> all[i] == fs[i];
    if SomeActive(fs) {
      var i :| 0 <= i < |fs| && Active(fs[i]);
      assert Active(all[i]);
    }
    if OneActive(all) {
      forall i, j | 0 <= i < j < |fs| ensures !(Active(fs[i]) && Active(fs[j])) {
        assert !(Active(all[i]) && Active(all[j]));
      }
    }
  }

  /** Locking: nobody was active, now the running activation is the only one. */
  lemma {:induction false} TellsLocked(c: Config, below: seq<Frame>, f: Frame, f': Frame, lock: int)
    requires Tells(c, below + [f], lock) && lock != c.Locked() && Active(f')
    ensures Tells(c, below + [f'], c.Locked())
  {
    hide Active;
    var (a, b) := (below + [f], below + [f']);
    forall i | 0 <= i < |below| ensures !Active(below[i]) && b[i] == below[i] {
      assert a[i] == below[i];
    }
    assert Active(b[|below|]);
  }

  /** Unlocking: the running activation was the only active one. */
  lemma {:induction false} TellsUnlocked(c: Config, below: seq<Frame>, f: Frame, f': Frame, lock: int)
    requires Tells(c, below + [f], lock) && Active(f) && !Active(f')
    ensures Tells(c, below + [f'], c.Unlocked())
  {
    hide Active;
    var (a, b, n) := (below + [f], below + [f'], |below|);
    assert a[n] == f && b[n] == f';
    forall i | 0 <= i < n ensures !Active(b[i]) {
      assert a[i] == b[i] && (Active(a[i]) ==> !OneActive(a));
    }
  }

  /** The stack with its top activation replaced. */
  lemma {:induction false} ReplaceTop(c: Config, s: State, f': Frame, store: Store)
    requires Safe(c, s) && s.frames != [] && !s.failed && Emitted(c, f') && f'.snapshot == Top(s).snapshot
    requires Tells(c, Below(s) + [f'], store.lock) && TopLock(c, f', store.lock)
    ensures Safe(c, State(store, Below(s) + [f'], false))
  {
    hide Tells, Emitted, TopLock;
    var t := State(store, Below(s) + [f'], false);
    forall k | 0 <= k < |t.frames| ensures Tells(c, t.frames[..k], t.frames[k].snapshot.lock) {
      assert t.frames[..k] == s.frames[..k];
      assert k < |t.frames| - 1 ==> t.frames[k] == s.frames[k];
    }
  }

  /** Dropping the top activation and going on with a lock value that tells of the rest. */
  lemma {:induction false} DropTop(c: Config, s: State, store: Store, failed: bool)
    requires Safe(c, s) && s.frames != [] && Tells(c, Below(s), store.lock)
    ensures Safe(c, State(store, Below(s), failed))
  {
    hide Tells;
    var t := State(store, Below(s), failed);
    forall k | 0 <= k < |t.frames| ensures Tells(c, t.frames[..k], t.frames[k].snapshot.lock) {
      assert t.frames[..k] == s.frames[..k];
    }
    if t.frames != [] {
      assert Emitted(c, Top(t)) && Top(t).inBody;
    }
  }

  lemma {:induction false} RevertSafe(c: Config, s: State)
    requires Safe(c, s) && s.frames != []
    ensures Safe(c, Revert(s))
  {
    hide Tells, Emitted, TopLock;
    var n := |s.frames| - 1;
    assert Tells(c, s.frames[..n], s.frames[n].snapshot.lock);
    DropTop(c, s, Top(s).snapshot, true);
  }

  lemma {:induction false} EnterSafe(c: Config, s: State, fn: VyFn)
    requires Safe(c, s) && !s.failed && (s.frames != [] ==> Top(s).inBody)
    ensures Safe(c, s.(frames := s.frames + [Entered(c, fn, s.store)]))
  {
    hide Tells, Emitted, FunctionLines;
    var f := Entered(c, fn, s.store);
    EmittedFunction(c, fn, s.store);
    TellsExtended(c, s.frames, f, s.store.lock);
    var t := s.(frames := s.frames + [f]);
    forall k | 0 <= k < |t.frames| ensures Tells(c, t.frames[..k], t.frames[k].snapshot.lock) {
      assert t.frames[..k] == s.frames[..k];
      if k == |s.frames| {
        assert s.frames[..k] == s.frames;
      }
    }
  }

  lemma {:induction false} AdvanceSafe(c: Config, s: State)
    requires Safe(c, s) && !s.failed && s.frames != [] && !Top(s).inBody
    ensures Safe(c, Next(c, s, Advance).value)
  {
    hide Tells, Emitted, Active, Safe, WrapperLines;
    var (f, below) := (Top(s), Below(s));
    TopFacts(c, s);
    EmittedLines(c, f);
    if f.pc >= |f.lines| {
      TellsExtended(c, below, f, s.store.lock);
      DropTop(c, s, s.store, false);
    } else {
      var f' := f.(pc := f.pc + 1);
      EmittedNext(c, f);
      match f.lines[f.pc] {
        case RequireNot(v) =>
          if s.store.lock == v {
            RevertSafe(c, s);
          } else {
            TellsReplaced(c, below, f, f', s.store.lock);
            ReplaceTop(c, s, f', s.store);
          }
        case StoreLock(v) =>
          ActiveLines(f);
          ActiveLines(f');
          if f.pc == 1 {
            TellsLocked(c, below, f, f', s.store.lock);
          } else {
            TellsUnlocked(c, below, f, f', s.store.lock);
          }
          ReplaceTop(c, s, f', s.store.(lock := v));
        case RunBody =>
          ActiveLines(f);
          ActiveLines(f.(inBody := true));
          TellsReplaced(c, below, f, f.(inBody := true), s.store.lock);
          ReplaceTop(c, s, f.(inBody := true), s.store);
        case GiveResult(_) =>
          TellsReplaced(c, below, f, f', s.store.lock);
          ReplaceTop(c, s, f', s.store);
      }
    }
  }

  lemma {:induction false} ActiveLines(f: Frame)
    ensures Active(f) <==> |f.lines| >= 4 && f.lines[1].StoreLock? && 2 <= f.pc <= 3
  {
  }

  lemma {:induction false} TopFacts(c: Config, s: State)
    requires Safe(c, s) && s.frames != []
    ensures Emitted(c, Top(s)) && Tells(c, Below(s) + [Top(s)], s.store.lock)
    ensures TopLock(c, Top(s), s.store.lock)
  {
    hide Tells, Emitted, TopLock;
    assert Below(s) + [Top(s)] == s.frames;
  }

  /** The next line of an emitted function, in its body or past it. */
  lemma {:induction false} EmittedNext(c: Config, f: Frame)
    requires Emitted(c, f) && f.pc < |f.lines|
    ensures Emitted(c, f.(pc := f.pc + 1, inBody := false))
    ensures f.lines[f.pc] == RunBody ==> Emitted(c, f.(inBody := true))
    ensures f.lines[f.pc] == RunBody ==> !AboutToLock(f) && !AboutToLock(f.(pc := f.pc + 1))
    ensures f.lines[f.pc] == RunBody ==> !Released(f) && !Released(f.(pc := f.pc + 1))
    ensures f.lines[f.pc].GiveResult? || f.lines[f.pc].StoreLock? ==> !AboutToLock(f.(pc := f.pc + 1))
    ensures f.lines[f.pc].GiveResult? ==> Released(f) == Released(f.(pc := f.pc + 1))
    ensures f.lines[f.pc].RequireNot? ==> !Released(f.(pc := f.pc + 1))
    ensures f.lines[f.pc].StoreLock? && f.pc == 1 ==> !Released(f.(pc := f.pc + 1))
  {
    if f.lines != [RunBody] {
      var view, result :| f.lines == WrapperLines(c.transient, view, result);
    }
  }

  lemma {:induction false} BodyReturnsSafe(c: Config, s: State)
    requires Safe(c, s) && !s.failed && s.frames != [] && Top(s).inBody && Top(s).inner == []
    ensures Safe(c, Next(c, s, BodyReturns).value)
  {
    hide Tells, Emitted, Active, Safe, TopLock;
    var f := Top(s);
    var f' := f.(inBody := false, pc := f.pc + 1);
    TopFacts(c, s);
    InBodyLine(c, f);
    EmittedLines(c, f);
    EmittedNext(c, f);
    ActiveLines(f');
    ActiveLines(f.(pc := f.pc + 1));
    SameAbout(f.(pc := f.pc + 1), f');
    TopLockFree(c, f', s.store.lock);
    TellsReplaced(c, Below(s), f, f', s.store.lock);
    ReplaceTop(c, s, f', s.store);
  }

  lemma {:induction false} TopLockFree(c: Config, f: Frame, lock: int)
    requires !AboutToLock(f) && !Released(f)
    ensures TopLock(c, f, lock)
  {
  }

  lemma {:induction false} SameAbout(f: Frame, g: Frame)
    requires f.pc == g.pc && f.lines == g.lines
    ensures AboutToLock(f) == AboutToLock(g) && Released(f) == Released(g)
  {
  }

  lemma {:induction false} InBodyLine(c: Config, f: Frame)
    requires Emitted(c, f) && f.inBody
    ensures f.pc < |f.lines| && f.lines[f.pc] == RunBody
  {
    hide WrapperLines;
  }

  /** Internal calls and returns leave the lock and who is active alone. */
  lemma {:induction false} InnerSafe(c: Config, s: State, inner: seq<VyFn>)
    requires Safe(c, s) && !s.failed && s.frames != [] && Top(s).inBody
    ensures Safe(c, s.(frames := Below(s) + [Top(s).(inner := inner)]))
  {
    hide Tells, Active, Safe, WrapperLines;
    var f := Top(s);
    var f' := f.(inner := inner);
    TopFacts(c, s);
    ActiveLines(f);
    ActiveLines(f');
    SameAbout(f, f');
    TellsReplaced(c, Below(s), f, f', s.store.lock);
    ReplaceTop(c, s, f', s.store);
  }

  /** Every step keeps the state safe. */
  lemma {:induction false} StepSafe(c: Config, s: State, step: Step)
    requires Safe(c, s) && Next(c, s, step).Some?
    ensures Safe(c, Next(c, s, step).value)
  {
    hide Tells, Emitted, TopLock;
    match step
    case CallIn(fn) => EnterSafe(c, s, fn);
    case Advance => AdvanceSafe(c, s);
    case CallInternal(fn) => InnerSafe(c, s, Top(s).inner + [fn]);
    case InternalReturns => InnerSafe(c, s, Top(s).inner[..|Top(s).inner| - 1]);
    case Work(_) =>
    case BodyReturns => BodyReturnsSafe(c, s);
    case BodyReverts => RevertSafe(c, s);
    case Catch =>
    case Propagate => RevertSafe(c, s);
  }

  predicate Start(c: Config, s: State) {
    s.frames == [] && !s.failed && s.store.lock != c.Locked()
  }

  lemma {:induction false} RunSafe(c: Config, s: State, steps: seq<Step>)
    requires Safe(c, s) && Run(c, s, steps).Some?
    ensures Safe(c, Run(c, s, steps).value)
    decreases |steps|
  {
    hide Safe, Next;
    if steps != [] {
      StepSafe(c, s, steps[0]);
      RunSafe(c, Next(c, s, steps[0]).value, steps[1..]);
    }
  }

  ghost predicate Reachable(c: Config, s: State) {
    exists start, steps :: Start(c, start) && Run(c, start, steps) == Some(s)
  }

  lemma {:induction false} ReachableSafe(c: Config, s: State)
    requires Reachable(c, s)
    ensures Safe(c, s)
  {
    hide Next, Run;
    var start, steps :| Start(c, start) && Run(c, start, steps) == Some(s);
    var none: seq<Frame> := [];
    assert start.frames[..] == none;
    RunSafe(c, start, steps);
  }

  /**
   In every reachable state, whatever re-entered, reverted or was caught: the lock has its locked value
   exactly while a wrapper has locked and not yet unlocked, and at most one has.  A transaction that ends
   leaves it unlocked.
   */
  lemma {:induction false} LockTellsWhoIsActive(c: Config, s: State)
    requires Reachable(c, s)
    ensures s.store.lock == c.Locked() <==> SomeActive(s.frames)
    ensures OneActive(s.frames)
    ensures s.frames == [] ==> s.store.lock != c.Locked()
  {
    hide Active;
    ReachableSafe(c, s);
  }

  /** The activation is a wrapper at its check. */
  predicate AtCheck(f: Frame) {
    f.pc == 0 && !f.inBody && f.lines != [] && f.lines[0].RequireNot?
  }

  /** No checked wrapper, view or not, gets past its check while another wrapper is active. */
  lemma {:induction false} NoneStartsMeanwhile(c: Config, s: State)
    requires Reachable(c, s) && s.frames != [] && AtCheck(Top(s)) && !s.failed
    ensures Next(c, s, Advance).Some?
    ensures Next(c, s, Advance).value.failed <==> SomeActive(s.frames)
  {
    hide Active, Tells;
    ReachableSafe(c, s);
    LockTellsWhoIsActive(c, s);
    EmittedLines(c, Top(s));
  }

  /** The activation ran all its lines: its next step is a normal return. */
  predicate Done(f: Frame) {
    f.pc >= |f.lines|
  }

  /**
   Every normal exit releases: when a wrapper that locks returns, early from its body or not, the lock
   has its unlocked value, and no wrapper below is active.
   */
  lemma {:induction false} NormalExitReleases(c: Config, s: State, result: ResultShape)
    requires Reachable(c, s) && s.frames != [] && !s.failed && Done(Top(s))
    requires Top(s).lines == WrapperLines(c.transient, false, result)
    ensures Next(c, s, Advance) == Some(s.(frames := Below(s)))
    ensures s.store.lock == c.Unlocked() && !SomeActive(Below(s))
  {
    hide Active, Tells;
    ReachableSafe(c, s);
    LockTellsWhoIsActive(c, s);
    EmittedLines(c, Top(s));
    var (below, f) := (Below(s), Top(s));
    assert s.frames == below + [f];
    TellsExtended(c, below, f, s.store.lock);
    TellsMeans(c, below, s.store.lock);
    NotInBody(c, f);
  }

  lemma {:induction false} TellsMeans(c: Config, fs: seq<Frame>, lock: int)
    requires Tells(c, fs, lock)
    ensures lock == c.Locked() <==> SomeActive(fs)
  {
  }

  lemma {:induction false} NotInBody(c: Config, f: Frame)
    requires Emitted(c, f) && Done(f)
    ensures !f.inBody
  {
    hide WrapperLines;
  }

  // ----- whose bodies run while the lock is held -----

  /** Its wrapper takes the lock. */
  predicate Locks(c: Config, fn: VyFn) {
    IsNonreentrant(fn, c.pragma) && !OnlyChecks(fn)
  }

  /** Every function calls the next one internally. */
  predicate Linked(c: Config, chain: seq<VyFn>) {
    forall i :: 0 <= i < |chain| - 1 ==> (chain[i], chain[i + 1]) in c.calls
  }

  /** Internal calls lead from an external function that does not lock to one that should have. */
  predicate Bypass(c: Config, chain: seq<VyFn>) {
    |chain| > 1 && chain[0].external && !Locks(c, chain[0]) && Linked(c, chain) && Locks(c, chain[|chain| - 1])
  }

  /** A locking function's body runs only while the lock is held. */
  predicate BodiesHeld(c: Config, s: State) {
    forall i, k :: 0 <= i < |s.frames| && 0 <= k < |Running(s.frames[i])| && Locks(c, Running(s.frames[i])[k]) ==>
      s.store.lock == c.Locked()
  }

  /** An activation runs an external function's code and a chain of internal calls from its body. */
  predicate Traced(c: Config, f: Frame) {
    && f.fn.external && f.lines == FunctionLines(c.transient, c.pragma, f.fn)
    && Linked(c, [f.fn] + f.inner) && (!f.inBody ==> f.inner == [])
  }

  predicate AllTraced(c: Config, s: State) {
    forall i :: 0 <= i < |s.frames| ==> Traced(c, s.frames[i])
  }

  lemma {:induction false} StepTraced(c: Config, s: State, step: Step)
    requires AllTraced(c, s) && Next(c, s, step).Some?
    ensures AllTraced(c, Next(c, s, step).value)
  {
    hide FunctionLines, Linked;
    match step
    case CallIn(fn) => OneLinked(c, fn);
    case CallInternal(fn) => MoreLinked(c, [Top(s).fn] + Top(s).inner, fn);
      assert [Top(s).fn] + (Top(s).inner + [fn]) == ([Top(s).fn] + Top(s).inner) + [fn];
    case InternalReturns =>
      var inner := Top(s).inner;
      assert [Top(s).fn] + inner[..|inner| - 1] == ([Top(s).fn] + inner)[..|inner|];
      LessLinked(c, [Top(s).fn] + inner, |inner|);
    case _ =>
  }

  lemma {:induction false} OneLinked(c: Config, fn: VyFn)
    ensures Linked(c, [fn] + [])
  {
  }

  lemma {:induction false} MoreLinked(c: Config, chain: seq<VyFn>, fn: VyFn)
    requires Linked(c, chain) && chain != [] && (chain[|chain| - 1], fn) in c.calls
    ensures Linked(c, chain + [fn])
  {
  }

  lemma {:induction false} LessLinked(c: Config, chain: seq<VyFn>, n: nat)
    requires Linked(c, chain) && n <= |chain|
    ensures Linked(c, chain[..n])
  {
  }

  lemma {:induction false} RunTraced(c: Config, s: State, steps: seq<Step>)
    requires AllTraced(c, s) && Run(c, s, steps).Some?
    ensures AllTraced(c, Run(c, s, steps).value)
    decreases |steps|
  {
    hide AllTraced, Next;
    if steps != [] {
      StepTraced(c, s, steps[0]);
      RunTraced(c, Next(c, s, steps[0]).value, steps[1..]);
    }
  }

  /** A locking function's own activation is active while its body runs. */
  lemma {:induction false} LockingBodyActive(c: Config, f: Frame)
    requires Emitted(c, f) && Traced(c, f) && f.inBody && Locks(c, f.fn)
    ensures Active(f)
  {
    hide Linked;
  }

  lemma {:induction false} HeldWithoutBypass(c: Config, s: State)
    requires Reachable(c, s) && forall chain :: !Bypass(c, chain)
    ensures BodiesHeld(c, s)
  {
    hide Next, Run, Active, Emitted, FunctionLines, Tells, TopLock, Locks;
    ReachableSafe(c, s);
    LockTellsWhoIsActive(c, s);
    var start, steps :| Start(c, start) && Run(c, start, steps) == Some(s);
    RunTraced(c, start, steps);
    forall i, k | 0 <= i < |s.frames| && 0 <= k < |Running(s.frames[i])| && Locks(c, Running(s.frames[i])[k])
      ensures s.store.lock == c.Locked()
    {
      var f := s.frames[i];
      assert Traced(c, f);
      if Locks(c, f.fn) {
        LockingBodyActive(c, f);
        assert SomeActive(s.frames);
      } else {
        var chain := ([f.fn] + f.inner)[..k + 1];
        LessLinked(c, [f.fn] + f.inner, k + 1);
        assert Bypass(c, chain);
      }
    }
  }

  lemma {:induction false} RunAppend(c: Config, s: State, a: seq<Step>, b: seq<Step>)
    ensures Run(c, s, a + b) == match Run(c, s, a) case None => None case Some(t) => Run(c, t, b)
    decreases |a|
  {
    hide Next;
    if a == [] {
      assert a + b == b;
    } else {
      assert (a + b)[0] == a[0] && (a + b)[1..] == a[1..] + b;
      if Next(c, s, a[0]).Some? {
        RunAppend(c, Next(c, s, a[0]).value, a[1..], b);
      }
    }
  }

  /** The steps of a single activation up to its body. */
  lemma {:induction false} OneActivation(c: Config, store: Store, f: Frame)
    ensures f.pc < |f.lines| && f.lines[f.pc].RequireNot? && f.lines[f.pc].v != store.lock && !f.inBody ==>
              Next(c, State(store, [f], false), Advance) == Some(State(store, [f.(pc := f.pc + 1)], false))
    ensures f.pc < |f.lines| && f.lines[f.pc].RunBody? && !f.inBody ==>
              Next(c, State(store, [f], false), Advance) == Some(State(store, [f.(inBody := true)], false))
    ensures forall fn :: f.inBody && (Running(f)[|f.inner|], fn) in c.calls ==>
              Next(c, State(store, [f], false), CallInternal(fn))
              == Some(State(store, [f.(inner := f.inner + [fn])], false))
  {
    var s := State(store, [f], false);
    assert Top(s) == f && Below(s) == [];
    assert forall g: Frame :: Below(s) + [g] == [g];
  }

  /** An external function that does not lock reaches its body with the lock as it was. */
  lemma {:induction false} ReachesBody(c: Config, fn: VyFn, store: Store)
    returns (steps: seq<Step>, f: Frame)
    requires fn.external && !Locks(c, fn) && store.lock != c.Locked()
    ensures Run(c, State(store, [], false), steps) == Some(State(store, [f], false))
    ensures f.inBody && f.fn == fn && f.inner == []
  {
    hide Run;
    var s0 := State(store, [], false);
    var e := Entered(c, fn, store);
    var s1 := State(store, [e], false);
    assert s0.frames + [e] == [e];
    assert Next(c, s0, CallIn(fn)) == Some(s1);
    OneActivation(c, store, e);
    if IsNonreentrant(fn, c.pragma) {
      var s2 := State(store, [e.(pc := 1)], false);
      f := e.(pc := 1, inBody := true);
      assert e.lines[0] == RequireNot(c.Locked()) && e.lines[1] == RunBody;
      OneActivation(c, store, e.(pc := 1));
      steps := [CallIn(fn), Advance, Advance];
      ThreeSteps(c, s0, CallIn(fn), s1, s2, State(store, [f], false));
    } else {
      f := e.(inBody := true);
      assert e.lines == [RunBody];
      steps := [CallIn(fn), Advance];
      TwoSteps(c, s0, CallIn(fn), s1, State(store, [f], false));
    }
  }

  lemma {:induction false} TwoSteps(c: Config, s: State, first: Step, t: State, u: State)
    requires Next(c, s, first) == Some(t) && Next(c, t, Advance) == Some(u)
    ensures Run(c, s, [first, Advance]) == Some(u)
  {
    hide Next;
    assert [first, Advance][1..] == [Advance] && [Advance][1..] == [];
    assert Run(c, t, [Advance]) == Run(c, u, []);
  }

  lemma {:induction false} ThreeSteps(c: Config, s: State, first: Step, t: State, u: State, v: State)
    requires Next(c, s, first) == Some(t) && Next(c, t, Advance) == Some(u) && Next(c, u, Advance) == Some(v)
    ensures Run(c, s, [first, Advance, Advance]) == Some(v)
  {
    hide Next;
    assert [first, Advance, Advance][1..] == [Advance, Advance];
    TwoSteps(c, t, Advance, u, v);
  }

  function InternalCalls(fns: seq<VyFn>): (r: seq<Step>)
    ensures |r| == |fns|
  {
    seq(|fns|, i requires 0 <= i < |fns| => CallInternal(fns[i]))
  }

  /** The next internal call of a chain. */
  lemma {:induction false} NextLinked(c: Config, f: Frame, fns: seq<VyFn>)
    requires f.inBody && fns != [] && Linked(c, Running(f) + fns)
    ensures (Running(f)[|f.inner|], fns[0]) in c.calls
    ensures Linked(c, Running(f.(inner := f.inner + [fns[0]])) + fns[1..])
  {
    hide Linked;
    var all := Running(f) + fns;
    var n := |f.inner|;
    LinkedAt(c, all, n);
    assert all[n] == Running(f)[n] && all[n + 1] == fns[0];
    assert Running(f) + [fns[0]] + fns[1..] == all;
    assert Running(f.(inner := f.inner + [fns[0]])) == Running(f) + [fns[0]];
  }

  lemma {:induction false} LinkedAt(c: Config, chain: seq<VyFn>, i: nat)
    requires Linked(c, chain) && i + 1 < |chain|
    ensures (chain[i], chain[i + 1]) in c.calls
  {
  }

  lemma {:induction false} InternalsRun(c: Config, store: Store, f: Frame, fns: seq<VyFn>)
    requires f.inBody && Linked(c, Running(f) + fns)
    ensures Run(c, State(store, [f], false), InternalCalls(fns))
            == Some(State(store, [f.(inner := f.inner + fns)], false))
    decreases |fns|
  {
    hide Next, Linked;
    if fns == [] {
      assert f.inner + fns == f.inner;
    } else {
      var g := f.(inner := f.inner + [fns[0]]);
      NextLinked(c, f, fns);
      OneActivation(c, store, f);
      assert InternalCalls(fns)[0] == CallInternal(fns[0]) && InternalCalls(fns)[1..] == InternalCalls(fns[1..]);
      InternalsRun(c, store, g, fns[1..]);
      assert g.inner + fns[1..] == f.inner + fns;
    }
  }

  /** A state in which the last function of a bypass runs without the lock. */
  lemma {:induction false} BypassReached(c: Config, chain: seq<VyFn>) returns (s: State)
    requires Bypass(c, chain)
    ensures Reachable(c, s) && !BodiesHeld(c, s)
  {
    hide Next, Run, Locks, Linked;
    var store := Store(c.Unlocked(), 0);
    var start := State(store, [], false);
    var steps, f := ReachesBody(c, chain[0], store);
    assert Running(f) + chain[1..] == chain;
    assert f.inner + chain[1..] == chain[1..];
    InternalsRun(c, store, f, chain[1..]);
    s := State(store, [f.(inner := f.inner + chain[1..])], false);
    RunAppend(c, start, steps, InternalCalls(chain[1..]));
    assert Start(c, start) && Run(c, start, steps + InternalCalls(chain[1..])) == Some(s);
    var n := |chain| - 1;
    assert Running(s.frames[0]) == chain;
    assert Locks(c, Running(s.frames[0])[n]);
  }

  /**
   Locking functions' bodies run only while the lock is held, in all runs, if and only if no chain of
   internal calls leads from an external function that does not lock to one that does.
   */
  lemma {:induction false} BodiesHeldExactly(c: Config)
    ensures (forall s :: Reachable(c, s) ==> BodiesHeld(c, s)) <==> !exists chain :: Bypass(c, chain)
  {
    hide Reachable, BodiesHeld, Bypass;
    if chain :| Bypass(c, chain) {
      var s := BypassReached(c, chain);
    } else {
      forall s | Reachable(c, s) ensures BodiesHeld(c, s) {
        HeldWithoutBypass(c, s);
      }
    }
  }

  /** An external function without a lock that calls an internal nonreentrant one: its body runs unlocked. */
  lemma {:induction false} InternalBodyUnlocked(transient: bool)
    ensures var f := VyFn(0, Ordinary, true, false, false, Nonpayable, NoResult);
            var g := VyFn(1, Ordinary, false, true, false, Nonpayable, NoResult);
            var c := Config(transient, false, {(f, g)});
            Locks(c, g) && exists s :: Reachable(c, s) && !BodiesHeld(c, s)
  {
    hide Reachable, BodiesHeld;
    var f := VyFn(0, Ordinary, true, false, false, Nonpayable, NoResult);
    var g := VyFn(1, Ordinary, false, true, false, Nonpayable, NoResult);
    var c := Config(transient, false, {(f, g)});
    assert [f, g][0] == f && [f, g][1] == g;
    assert Bypass(c, [f, g]);
    var s := BypassReached(c, [f, g]);
  }

  // ----- whole transactions -----

  /** A run goes through the states one step leads to after the other. */
  lemma {:induction false} RunThrough(c: Config, states: seq<State>, steps: seq<Step>)
    requires |states| == |steps| + 1
    requires forall i :: 0 <= i < |steps| ==> Next(c, states[i], steps[i]) == Some(states[i + 1])
    ensures Run(c, states[0], steps) == Some(states[|steps|])
    decreases |steps|
  {
    hide Next;
    if steps != [] {
      var (states', steps') := (states[1..], steps[1..]);
      forall i | 0 <= i < |steps'| ensures Next(c, states'[i], steps'[i]) == Some(states'[i + 1]) {
        assert states'[i] == states[i + 1] && steps'[i] == steps[i + 1] && states'[i + 1] == states[i + 2];
      }
      RunThrough(c, states', steps');
    }
  }

  /** An external nonreentrant function without a result. */
  predicate IsGuarded(fn: VyFn) {
    fn.special == Ordinary && fn.external && fn.nonreentrant && fn.mutability == Nonpayable && fn.result == NoResult
  }

  lemma {:induction false} Enters(c: Config, store: Store, f: VyFn)
    requires IsGuarded(f)
    ensures Next(c, State(store, [], false), CallIn(f)) == Some(State(store, [Entered(c, f, store)], false))
    ensures Entered(c, f, store).lines ==
            [RequireNot(c.Locked()), StoreLock(c.Locked()), RunBody, StoreLock(c.Unlocked())]
    ensures Entered(c, f, store).pc == 0 && !Entered(c, f, store).inBody
  {
    assert [] + [Entered(c, f, store)] == [Entered(c, f, store)];
  }

  lemma {:induction false} LocksNow(c: Config, store: Store, f: Frame, v: int)
    requires f.pc < |f.lines| && f.lines[f.pc] == StoreLock(v) && !f.inBody
    ensures Next(c, State(store, [f], false), Advance) == Some(State(store.(lock := v), [f.(pc := f.pc + 1)], false))
  {
    hide Revert;
    OneFrame(f, f.(pc := f.pc + 1));
  }

  /** Called while nothing runs: check, lock, and into the body. */
  lemma {:induction false} Entering(c: Config, f: VyFn, data: int) returns (body: Frame)
    requires IsGuarded(f)
    ensures body.fn == f && body.inBody && body.inner == [] && body.snapshot == Store(c.Unlocked(), data)
    ensures body.lines == [RequireNot(c.Locked()), StoreLock(c.Locked()), RunBody, StoreLock(c.Unlocked())]
    ensures body.pc == 2
    ensures Run(c, State(Store(c.Unlocked(), data), [], false), [CallIn(f), Advance, Advance, Advance])
            == Some(State(Store(c.Locked(), data), [body], false))
  {
    hide Next, FunctionLines, Run, Running;
    var (open, held) := (Store(c.Unlocked(), data), Store(c.Locked(), data));
    var f0 := Entered(c, f, open);
    body := f0.(pc := 2, inBody := true);
    var states := [State(open, [], false), State(open, [f0], false), State(open, [f0.(pc := 1)], false),
                   State(held, [f0.(pc := 2)], false), State(held, [body], false)];
    var steps := [CallIn(f), Advance, Advance, Advance];
    Enters(c, open, f);
    OneActivation(c, open, f0);
    LocksNow(c, open, f0.(pc := 1), c.Locked());
    OneActivation(c, held, f0.(pc := 2));
    assert Next(c, states[0], steps[0]) == Some(states[1]);
    assert Next(c, states[1], steps[1]) == Some(states[2]);
    assert Next(c, states[2], steps[2]) == Some(states[3]);
    assert Next(c, states[3], steps[3]) == Some(states[4]);
    RunThrough(c, states, steps);
  }

  /** From the body to the end of the transaction: the release, and the return. */
  lemma {:induction false} Leaving(c: Config, body: Frame, data: int)
    requires body.inBody && body.inner == [] && body.pc == 2
    requires body.lines == [RequireNot(c.Locked()), StoreLock(c.Locked()), RunBody, StoreLock(c.Unlocked())]
    ensures Run(c, State(Store(c.Locked(), data), [body], false), [BodyReturns, Advance, Advance])
            == Some(State(Store(c.Unlocked(), data), [], false))
  {
    var done := body.(inBody := false, pc := 3);
    var states := [State(Store(c.Locked(), data), [body], false), State(Store(c.Locked(), data), [done], false),
                   State(Store(c.Unlocked(), data), [done.(pc := 4)], false),
                   State(Store(c.Unlocked(), data), [], false)];
    var steps := [BodyReturns, Advance, Advance];
    OneFrame(body, done);
    LocksNow(c, Store(c.Locked(), data), done, c.Unlocked());
    OneFrame(done.(pc := 4), done);
    assert Next(c, states[0], steps[0]) == Some(states[1]);
    assert Next(c, states[2], steps[2]) == Some(states[3]);
    RunThrough(c, states, steps);
  }

  /** Replacing the only activation. */
  lemma {:induction false} OneFrame(f: Frame, g: Frame)
    ensures [f][..0] == [] && [f][..0] + [g] == [g]
  {
  }

  /** Inside the body a guarded call fails at its check, and its caller can go on after it. */
  lemma {:induction false} ReentryFails(c: Config, body: Frame, g: VyFn, data: int)
    requires body.inBody && IsGuarded(g)
    ensures Run(c, State(Store(c.Locked(), data), [body], false), [CallIn(g), Advance])
            == Some(State(Store(c.Locked(), data), [body], true))
    ensures Run(c, State(Store(c.Locked(), data), [body], false), [CallIn(g), Advance, Catch])
            == Some(State(Store(c.Locked(), data), [body], false))
    ensures Run(c, State(Store(c.Locked(), data), [body], false), [CallIn(g), Advance, Propagate])
            == Some(State(body.snapshot, [], true))
  {
    var held := Store(c.Locked(), data);
    var g0 := Entered(c, g, held);
    var states := [State(held, [body], false), State(held, [body, g0], false), State(held, [body], true)];
    assert [body, g0][..1] == [body] && [body] + [g0] == [body, g0];
    OneFrame(body, body);
    assert Next(c, states[0], CallIn(g)) == Some(states[1]);
    assert Next(c, states[1], Advance) == Some(states[2]);
    RunThrough(c, states, [CallIn(g), Advance]);
    RunThrough(c, states + [State(held, [body], false)], [CallIn(g), Advance, Catch]);
    RunThrough(c, states + [State(body.snapshot, [], true)], [CallIn(g), Advance, Propagate]);
  }

  /** What a body does itself, and through an internal function, is there when it goes on. */
  lemma {:induction false} BodyWorks(c: Config, body: Frame, h: VyFn, data: int, data': int)
    requires body.inBody && body.inner == [] && (body.fn, h) in c.calls
    ensures Run(c, State(Store(c.Locked(), data), [body], false), [CallInternal(h), Work(data'), InternalReturns])
            == Some(State(Store(c.Locked(), data'), [body], false))
    ensures Run(c, State(Store(c.Locked(), data), [body], false), [Work(data'), BodyReverts])
            == Some(State(body.snapshot, [], true))
  {
    var (held, held') := (Store(c.Locked(), data), Store(c.Locked(), data'));
    var inside := body.(inner := [h]);
    assert [h][..0] == [] && body.inner + [h] == [h];
    OneFrame(body, inside);
    OneFrame(inside, body);
    assert Next(c, State(held, [body], false), CallInternal(h)) == Some(State(held, [inside], false));
    assert Next(c, State(held', [inside], false), InternalReturns) == Some(State(held', [body], false));
    RunThrough(c, [State(held, [body], false), State(held, [inside], false), State(held', [inside], false),
                   State(held', [body], false)], [CallInternal(h), Work(data'), InternalReturns]);
    RunThrough(c, [State(held, [body], false), State(held', [body], false), State(body.snapshot, [], true)],
               [Work(data'), BodyReverts]);
  }

  /**
   A whole transaction: the body changes the state, its re-entrant call is rejected, and when it returns the
   change is kept and the lock is open.
   */
  lemma {:induction false} ReentryRejected(c: Config, f: VyFn, g: VyFn, h: VyFn, data: int, data': int)
    requires IsGuarded(f) && IsGuarded(g) && (f, h) in c.calls
    ensures Run(c, State(Store(c.Unlocked(), data), [], false),
                [CallIn(f), Advance, Advance, Advance] + [CallInternal(h), Work(data'), InternalReturns]
                + [CallIn(g), Advance, Catch] + [BodyReturns, Advance, Advance])
            == Some(State(Store(c.Unlocked(), data'), [], false))
  {
    hide Run, Next;
    var start := State(Store(c.Unlocked(), data), [], false);
    var body := Entering(c, f, data);
    BodyWorks(c, body, h, data, data');
    ReentryFails(c, body, g, data');
    Leaving(c, body, data');
    RunAppend(c, start, [CallIn(f), Advance, Advance, Advance], [CallInternal(h), Work(data'), InternalReturns]);
    RunAppend(c, start, [CallIn(f), Advance, Advance, Advance] + [CallInternal(h), Work(data'), InternalReturns],
              [CallIn(g), Advance, Catch]);
    RunAppend(c, start, [CallIn(f), Advance, Advance, Advance] + [CallInternal(h), Work(data'), InternalReturns]
                        + [CallIn(g), Advance, Catch], [BodyReturns, Advance, Advance]);
  }
}
