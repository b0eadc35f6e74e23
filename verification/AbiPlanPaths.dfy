/**
 What a calldata plan says of the parts of a value: a part is copied if a path to it or to what holds it is
 listed.  And the bounds the calldata decoder checks.
 */
module AbiPlanPaths {
  import opened Options
  import opened Arith
  import opened Words
  import opened AbiTypes
  import opened AbiDecode
  import opened AbiCalldata

  type Path = seq<CalldataStep>

  /** The plan that decoding has in hand when it has followed a path. */
  function PlanAt(plan: CalldataPlan, path: Path): CalldataPlan
    decreases path
  {
    if path == [] then plan else PlanAt(Child(plan, path[0]), path[1..])
  }

  /** The part at the path is listed to be copied, or lies in one that is. */
  ghost predicate CopiedAt(plan: CalldataPlan, path: Path) {
    exists k :: 0 <= k <= |path| && path[..k] in plan.materialize
  }

  lemma {:induction false} DescendMembers(paths: seq<Path>, step: CalldataStep, rest: Path)
    ensures rest in Descend(paths, step) <==> [step] + rest in paths
    decreases paths
  {
    if paths != [] {
      DescendMembers(paths[1..], step, rest);
      assert paths == [paths[0]] + paths[1..];
      if paths[0] != [] && paths[0][0] == step {
        assert paths[0] == [step] + paths[0][1..];
        assert ([step] + rest)[1..] == rest;
      } else {
        assert paths[0] != [step] + rest;
      }
    }
  }

  /** Copying and deferral at any depth are what the plan's own lists say of the whole path. */
  lemma {:induction false} PlanFollowsPath(plan: CalldataPlan, path: Path)
    ensures IsMemory(PlanAt(plan, path)) <==> CopiedAt(plan, path)
    ensures [] in PlanAt(plan, path).deferErrors <==> path in plan.deferErrors
    decreases path
  {
    hide Descend, CopiedAt;
    if path == [] {
      CopiedHere(plan);
    } else {
      PlanFollowsPath(Child(plan, path[0]), path[1..]);
      CopiedBelow(plan, path);
      DescendMembers(plan.deferErrors, path[0], path[1..]);
      assert [path[0]] + path[1..] == path;
    }
  }

  lemma {:induction false} CopiedHere(plan: CalldataPlan)
    ensures CopiedAt(plan, []) <==> IsMemory(plan)
  {
    var none: Path := [];
    assert none[..0] == [];
  }

  lemma {:induction false} CopiedBelow(plan: CalldataPlan, path: Path)
    requires path != []
    ensures CopiedAt(Child(plan, path[0]), path[1..]) <==> CopiedAt(plan, path)
  {
    hide Descend;
    var child := Child(plan, path[0]);
    assert path[..0] == [] && path[1..][..0] == [];
    if !IsMemory(plan) {
      forall k: nat | k < |path|
        ensures path[1..][..k] in child.materialize <==> path[..k + 1] in plan.materialize
      {
        DescendMembers(plan.materialize, path[0], path[1..][..k]);
        assert [path[0]] + path[1..][..k] == path[..k + 1];
      }
      if k: nat :| k <= |path| && path[..k] in plan.materialize {
        assert k > 0 && path[1..][..k - 1] in child.materialize;
      }
    }
  }

  /** The members of a tuple are decoded under the plans at their own paths. */
  lemma {:induction false} FieldPlansAt(plan: CalldataPlan, from: nat, count: nat, k: nat)
    requires from <= k < count
    ensures FieldPlans(plan, from, count)[k - from] == PlanAt(plan, [Field(k)])
    decreases count - from
  {
    hide Child;
    if from < k {
      FieldPlansAt(plan, from + 1, count, k);
    } else {
      var path: Path := [Field(k)];
      assert path[1..] == [];
      assert PlanAt(Child(plan, Field(k)), path[1..]) == Child(plan, Field(k));
    }
  }

  /**
   A field whose own path is deferred keeps a failed decode as the marker and the rest goes on; any other
   failed field fails the whole.  A field without a plan is copied and defers nothing.
   */
  lemma {:induction false} FieldStep(types: seq<AbiType>, bytes: seq<Byte>, base: nat, cursor: nat,
                                     plans: seq<CalldataPlan>, memory: bool)
    requires types != []
    ensures var plan := if plans == [] then CalldataPlan([[]], []) else plans[0];
            var field := PlanDecodeField(types[0], bytes, base, cursor, plan, memory);
            var rest := PlanDecodeFields(types[1..], bytes, base, cursor + Stride(types[0]),
                                         if plans == [] then [] else plans[1..], memory);
            PlanDecodeFields(types, bytes, base, cursor, plans, memory) ==
            if rest.None? || (field.None? && [] !in plan.deferErrors) then None
            else Some([if field.Some? then field.value else Struct("$solc08Calldata.decodeFailure", [])] + rest.value)
  {
    hide PlanDecodeField;
  }

  /** One element: deferred if the path of elements is, otherwise its failure fails the array. */
  lemma {:induction false} ElementStep(item: AbiType, n: nat, bytes: seq<Byte>, base: nat, cursor: nat,
                                       plan: CalldataPlan, rawBools: bool)
    requires n > 0
    ensures var element := PlanDecodeElement(item, bytes, base, cursor, plan, rawBools);
            var rest := PlanDecodeElements(item, n - 1, bytes, base, cursor + Stride(item), plan, rawBools);
            PlanDecodeElements(item, n, bytes, base, cursor, plan, rawBools) ==
            if rest.None? || (element.None? && [Element] !in plan.deferErrors) then None
            else Some([if element.Some? then element.value else Struct("$solc08Calldata.decodeFailure", [])]
                      + rest.value)
  {
    hide PlanDecodeElement, Descend;
    DescendMembers(plan.deferErrors, Element, []);
    assert [Element] + [] == [Element];
  }

  /** Some part of the elements is deferred. */
  ghost predicate DefersElements(plan: CalldataPlan) {
    exists path :: path in plan.deferErrors && path != [] && path[0] == Element
  }

  lemma {:induction false} DefersExactly(plan: CalldataPlan)
    ensures Child(plan, Element).deferErrors != [] <==> DefersElements(plan)
  {
    hide Descend;
    var below := Child(plan, Element).deferErrors;
    if below != [] {
      DescendMembers(plan.deferErrors, Element, below[0]);
      assert ([Element] + below[0])[0] == Element;
    }
    if path :| path in plan.deferErrors && path != [] && path[0] == Element {
      assert path == [Element] + path[1..];
      DescendMembers(plan.deferErrors, Element, path[1..]);
    }
  }

  /** A fixed array inside the input is decoded element by element if its elements are dynamic or deferred. */
  lemma {:induction false} ArrayByElements(item: AbiType, n: nat, bytes: seq<Byte>, start: nat, plan: CalldataPlan,
                                           tailAccess: bool)
    requires start + Extent(n, item) <= |bytes| < SIGN_BIT && (IsDynamic(item) || DefersElements(plan))
    ensures var elems := PlanDecodeElements(item, n, bytes, start, 0, plan, false);
            PlanDecode(ArrayType(item, n), bytes, start, plan, tailAccess) ==
            if elems.None? then None else Some(Array(elems.value))
  {
    hide PlanDecodeElements, Extent, Child;
    DefersExactly(plan);
  }

  /** So is a dynamic array, behind its length. */
  lemma {:induction false} DynamicArrayByElements(item: AbiType, bytes: seq<Byte>, start: nat, plan: CalldataPlan,
                                                  tailAccess: bool)
    requires |bytes| < SIGN_BIT && (IsDynamic(item) || DefersElements(plan))
    requires LoadNat(bytes, start) <= SOLC_MAX_U64 && start + 32 + Extent(LoadNat(bytes, start), item) <= |bytes|
    ensures var elems := PlanDecodeElements(item, LoadNat(bytes, start), bytes, start + 32, 0, plan, true);
            PlanDecode(DynamicArray(item), bytes, start, plan, tailAccess) ==
            if elems.None? then None else Some(Array(elems.value))
  {
    hide PlanDecodeElements, Extent, Child, LoadNat, BadExtent;
    DefersExactly(plan);
    ExtentInBounds(IsMemory(plan), tailAccess, bytes, start, Extent(LoadNat(bytes, start), item));
    SmallSum(start + 32);
  }

  lemma {:induction false} SmallSum(n: nat)
    requires n < SIGN_BIT
    ensures Wrap(n) == n
  {
  }

  // ----- the bounds of references and copies -----

  /** Reading past the end gives zeros, from an address that wraps. */
  lemma {:induction false} LoadedByte(bytes: seq<Byte>, start: nat, size: nat, i: nat)
    requires i < size
    ensures var at := start % WORD_MODULUS + i;
            LoadBytes(bytes, start, size)[i] == if at < |bytes| then bytes[at] else 0
  {
    WrapsTo(start);
  }

  lemma {:induction false} WrapsTo(n: nat)
    ensures Wrap(n) == n % WORD_MODULUS
  {
    if n < WORD_MODULUS {
      DivMod(n, WORD_MODULUS, 0, n);
    }
  }

  /**
   The target of a reference: the offset, read as a signed number, leaves room for what every value of the
   type has at its target; of something copied: the offset is below 2^64.
   */
  lemma {:induction false} TargetInBounds(ty: AbiType, bytes: seq<Byte>, base: nat, head: nat)
    requires |bytes| < SIGN_BIT && 0 < TailSize(ty) && base + TailSize(ty) <= SIGN_BIT
    ensures var relative := LoadNat(bytes, head);
            && relative < WORD_MODULUS
            && TailTarget(true, ty, bytes, base, head) ==
               (if Signed(relative) < |bytes| - base - TailSize(ty) + 1 then Some((base + relative) % WORD_MODULUS)
                else None)
            && TailTarget(false, ty, bytes, base, head) ==
               (if relative <= 0xFFFF_FFFF_FFFF_FFFF then Some((base + relative) % WORD_MODULUS) else None)
  {
    hide TailSize, LoadNat, Wrap, SignedLess, SubWord, Signed;
    var relative := LoadNat(bytes, head);
    LoadedWord(bytes, head);
    WrapsTo(base + relative);
    RoomSigned(|bytes|, base, TailSize(ty), relative);
  }

  lemma {:induction false} LoadedWord(bytes: seq<Byte>, start: nat)
    ensures LoadNat(bytes, start) < WORD_MODULUS
  {
    hide BytesToNat, LoadBytes;
    WordSizes();
    BytesToNatBound(LoadBytes(bytes, start, 32));
  }

  lemma {:induction false} RoomSigned(size: nat, base: nat, tail: nat, relative: Word)
    requires size < SIGN_BIT && 0 < tail && base + tail <= SIGN_BIT
    ensures SignedLess(relative, SubWord(SubWord(size, base), SubWord(tail, 1)))
            <==> Signed(relative) < size - base - tail + 1
  {
    Difference(size, base);
    Difference(tail, 1);
    var d := SubWord(size, base);
    SignedDifference(d, tail - 1, size - base);
  }

  lemma {:induction false} Difference(a: nat, b: nat)
    requires a <= SIGN_BIT && b <= SIGN_BIT
    ensures SubWord(a, b) == if a >= b then a - b else a - b + WORD_MODULUS
  {
  }

  /** Subtraction of words whose integer difference is a signed number. */
  lemma {:induction false} SignedDifference(d: Word, t: nat, i: int)
    requires t < SIGN_BIT && (d == i || d == i + WORD_MODULUS)
    requires -SIGN_BIT <= i < SIGN_BIT && -SIGN_BIT <= i - t
    ensures Signed(SubWord(d, t)) == i - t && Wrap(SubWord(d, t)) == SubWord(d, t)
  {
  }

  /** A length is in bounds exactly if what it counts, read after its own word, ends within the input. */
  lemma {:induction false} ExtentInBounds(memory: bool, tailAccess: bool, bytes: seq<Byte>, start: nat, extent: nat)
    requires |bytes| < SIGN_BIT && start + 32 + extent < SIGN_BIT
    ensures BadExtent(memory, tailAccess, bytes, start, extent) <==> start + 32 + extent > |bytes|
  {
    hide SubWord;
    Difference(|bytes|, extent);
  }

  /** A tuple, or a fixed array, that is copied or stands in a head is decoded only if it lies inside the input. */
  lemma {:induction false} AggregatesInBounds(items: seq<AbiType>, item: AbiType, n: nat, bytes: seq<Byte>, start: nat,
                                              plan: CalldataPlan, tailAccess: bool)
    requires |bytes| < SIGN_BIT && (!tailAccess || IsMemory(plan))
    ensures |bytes| < start + HeadSize(items) < SIGN_BIT ==>
              PlanDecode(TupleType(items), bytes, start, plan, tailAccess) == None
    ensures |bytes| < start + Extent(n, item) < SIGN_BIT ==>
              PlanDecode(ArrayType(item, n), bytes, start, plan, tailAccess) == None
  {
    hide PlanDecodeElements, PlanDecodeFields, Extent, HeadSize, FieldPlans, LoadWords, StaticValue, SubWord;
    if |bytes| < start + HeadSize(items) < SIGN_BIT {
      HeadOutside(|bytes|, start, HeadSize(items));
    }
    if |bytes| < start + Extent(n, item) < SIGN_BIT {
      SmallSum(start + Extent(n, item));
      SmallSum(|bytes|);
    }
  }

  lemma {:induction false} HeadOutside(size: nat, start: nat, head: nat)
    requires size < start + head < SIGN_BIT && size < SIGN_BIT
    ensures SignedLess(SubWord(size, start), head)
  {
    Difference(size, start);
  }
}
