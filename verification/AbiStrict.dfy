/**
 Copying is the strict side.  Whatever the decoder that copies everything to memory accepts, on any
 input below 2^255 bytes, is accepted with the same value by every plan that follows references, in
 spite of their signed bounds checks and wrapping addresses, and by the Vyper decoder, which checks
 no bounds but those of the words it reads.
 */
module AbiStrict {
  import opened Options
  import opened Words
  import opened Arith
  import opened AbiTypes
  import opened AbiEncode
  import opened AbiDecode
  import opened AbiRoundTrip
  import opened AbiStatic
  import opened AbiCalldata
  import opened AbiPlans
  import opened AbiPlanCaps

  const SIZE_LIMIT: nat := 0x1_00000000_00000000

  /** Every head in the type takes fewer than 2^64 bytes. */
  predicate SmallSizes(ty: AbiType)
    decreases ty, 0
  {
    match ty
    case ArrayType(item, n) => SmallSizes(item) && Extent(n, item) < SIZE_LIMIT
    case TupleType(items) => AllSmall(items) && HeadSize(items) < SIZE_LIMIT
    case DynamicArray(item) => SmallSizes(item) && Stride(item) < SIZE_LIMIT
    case _ => true
  }

  predicate AllSmall(types: seq<AbiType>)
    decreases types, 0
  {
    types == [] || (SmallSizes(types[0]) && AllSmall(types[1..]))
  }

  /** Everything is copied and no error is deferred. */
  predicate Eager(plan: CalldataPlan) {
    IsMemory(plan) && plan.deferErrors == []
  }

  lemma {:induction false} ChildOfEager(plan: CalldataPlan, step: CalldataStep)
    requires Eager(plan)
    ensures Child(plan, step) == plan
  {
  }

  lemma {:induction false} FieldPlansOfEager(plan: CalldataPlan, from: nat, count: nat)
    requires Eager(plan) && from <= count
    ensures forall p :: p in FieldPlans(plan, from, count) ==> Eager(p)
    decreases count - from
  {
    if from < count {
      ChildOfEager(plan, Field(from));
      FieldPlansOfEager(plan, from + 1, count);
    }
  }

  // ----- what the copying decoder's checks establish -----

  lemma {:induction false} ExtentChecked(bytes: seq<Byte>, start: nat, extent: nat)
    requires |bytes| < SIGN_BIT && start <= |bytes| + SOLC_MAX_U64 && extent < SIZE_LIMIT * SIZE_LIMIT
    requires !BadExtent(true, false, bytes, start, extent)
    ensures start + 32 + extent <= |bytes|
  {
  }

  lemma {:induction false} HeadChecked(bytes: seq<Byte>, start: nat, headSize: nat)
    requires |bytes| < SIGN_BIT && start <= |bytes| + SOLC_MAX_U64 && headSize < SIZE_LIMIT
    requires !SignedLess(SubWord(|bytes|, start), headSize) || !(Wrap(|bytes|) < AddWord(start, headSize))
    ensures start + headSize <= |bytes|
  {
  }

  /** The value `v` is what the Vyper decoder and every plan read at `start`. */
  ghost predicate Agreed(ty: AbiType, bytes: seq<Byte>, start: nat, v: Value) {
    && DecodeValue(ty, bytes, start, Vyper).Some?
    && DecodeValue(ty, bytes, start, Vyper).value.0 == v
    && (0 < start ==> forall plan, tailAccess :: PlanDecode(ty, bytes, start, plan, tailAccess) == Some(v))
  }

  lemma {:induction false} EagerStatic(ty: AbiType, bytes: seq<Byte>, start: nat, v: Value)
    requires !IsDynamic(ty) && |bytes| < SIGN_BIT && start + Stride(ty) <= |bytes|
    requires StaticValue(ty, bytes[start..start + Stride(ty)]) == Some(v)
    ensures Agreed(ty, bytes, start, v)
  {
    hide DecodeValue, EncodeValue, Canon, IsDynamic, StaticSize, PlanDecode, PlanAnswer, WithinCaps;
    var enc := bytes[start..start + Stride(ty)];
    assert enc[0..0 + Stride(ty)] == enc;
    StaticDecodingIsEncoding(ty, v, enc, 0, Modern);
    StaticDecodingIsEncoding(ty, v, bytes, start, Vyper);
    StaticTransparent(ty, v, EAGER_CAPS);
    if 0 < start {
      forall plan, tailAccess ensures PlanDecode(ty, bytes, start, plan, tailAccess) == Some(v) {
        PlanRoundTrip(ty, v, enc, bytes, start, plan, tailAccess);
        PlansAgree(ty, v, plan);
      }
    }
  }

  /** A byte string decodes the same in place and from a copy of its length and content. */
  lemma {:induction false} BytesWindow(bytes: seq<Byte>, start: nat, size: nat, input: seq<Byte>)
    requires start + 32 + size <= |bytes| && input == bytes[start..start + 32 + size]
    requires ReadNat(bytes, start) == Some(size) && size <= SOLC_MAX_U64
    ensures DecodeBytes(input, 0, Modern) == Some((Bytes(bytes[start + 32..start + 32 + size]), 32 + PaddedSize(size)))
    ensures DecodeBytes(bytes, start, Vyper) ==
            Some((Bytes(bytes[start + 32..start + 32 + size]), start + 32 + PaddedSize(size)))
  {
    hide BytesToNat;
    assert input[0..32] == bytes[start..start + 32];
    assert input[32..32 + size] == bytes[start + 32..start + 32 + size];
  }

  lemma {:induction false} EagerBytes(ty: AbiType, bytes: seq<Byte>, start: nat, eager: CalldataPlan, v: Value)
    requires (ty.BytesType? || ty.StringType?) && Eager(eager)
    requires |bytes| < SIGN_BIT && start <= |bytes| + SOLC_MAX_U64
    requires PlanDecodeBytes(ty, bytes, start, eager, false) == Some(v)
    ensures start + 32 <= |bytes| && Agreed(ty, bytes, start, v)
  {
    hide BadExtent, LoadBytes, BytesToNat, DecodeBytes;
    var size := LoadNat(bytes, start);
    ExtentChecked(bytes, start, size);
    LoadInBounds(bytes, start, 32);
    LoadInBounds(bytes, start, 32 + size);
    BytesWindow(bytes, start, size, LoadBytes(bytes, start, 32 + size));
    forall plan, tailAccess ensures PlanDecode(ty, bytes, start, plan, tailAccess) == Some(v) {
      ExtentFits(IsMemory(plan), tailAccess, bytes, start, size);
    }
  }

  // ----- the induction -----

  /**
   Copying is the strict side: a value the copying decoder accepts is read, unchanged, by the Vyper
   decoder and through every plan.
   */
  lemma {:induction false} EagerIsStrict(ty: AbiType, bytes: seq<Byte>, start: nat, eager: CalldataPlan, v: Value)
    requires Eager(eager) && SmallSizes(ty) && |bytes| < SIGN_BIT && start <= |bytes| + SOLC_MAX_U64
    requires PlanDecode(ty, bytes, start, eager, false) == Some(v)
    requires !IsDynamic(ty) ==> start + Stride(ty) <= |bytes|
    ensures start + TailSize(ty) <= |bytes| && Agreed(ty, bytes, start, v)
    decreases ty, 0, 0
  {
    hide StaticValue, PlanDecodeBytes, PlanDecodeTuple, PlanDecodeArray, PlanDecodeDynamicArray, Agreed, Extent,
         LoadBytes, SignedLess, SubWord, StaticSizeList, StaticSize, AllSmall;
    match ty
    case Elem(e) =>
      StrideOfElem(e);
      LoadInBounds(bytes, start, 32);
      EagerStatic(ty, bytes, start, v);
    case BytesType => EagerBytes(ty, bytes, start, eager, v);
    case StringType => EagerBytes(ty, bytes, start, eager, v);
    case TupleType(items) => EagerTuple(items, bytes, start, eager, v);
    case ArrayType(item, n) => EagerArray(item, n, bytes, start, eager, v);
    case DynamicArray(item) => EagerDynamicArray(item, bytes, start, eager, v);
  }

  lemma {:induction false} StrideOfElem(e: ElemType)
    ensures Stride(Elem(e)) == 32
  {
  }

  lemma {:induction false} StrideOfTuple(items: seq<AbiType>)
    requires !AnyDynamic(items)
    ensures Stride(TupleType(items)) == HeadSize(items)
  {
    HeadSizeDefined(items);
    assert StaticSizeList(items, 0) == Some(0 + TupleHeadSize(items).value);
  }

  lemma {:induction false} EagerTuple(items: seq<AbiType>, bytes: seq<Byte>, start: nat, eager: CalldataPlan, v: Value)
    requires Eager(eager) && AllSmall(items) && HeadSize(items) < SIZE_LIMIT
    requires |bytes| < SIGN_BIT && start <= |bytes| + SOLC_MAX_U64
    requires PlanDecodeTuple(items, bytes, start, eager, false) == Some(v)
    ensures start + HeadSize(items) <= |bytes| && Agreed(TupleType(items), bytes, start, v)
    decreases items, 2, 0
  {
    hide StaticValue, PlanDecodeFields, DecodeValues, AllSmall, SignedLess, SubWord, LoadWords, FieldPlans, StaticSize,
         StaticSizeList, TupleHeadSize;
    HeadChecked(bytes, start, HeadSize(items));
    if !AnyDynamic(items) {
      LoadWordsInBounds(bytes, start, HeadSize(items) / 32);
      StrideOfTuple(items);
      EagerStatic(TupleType(items), bytes, start, v);
    } else {
      FieldPlansOfEager(eager, 0, |items|);
      EagerFields(items, bytes, start, 0, FieldPlans(eager, 0, |items|), v.elems);
      assert DecodeValues(items, bytes, start, 0, start + HeadSize(items), Vyper).value.0 == v.elems;
      if 0 < start {
        forall plan, tailAccess ensures PlanDecode(TupleType(items), bytes, start, plan, tailAccess) == Some(v) {
          HeadFits(bytes, start, HeadSize(items));
          assert PlanDecodeFields(items, bytes, start, 0, FieldPlans(plan, 0, |items|),
                  IsMemory(plan)) == Some(v.elems);
        }
      }
    }
  }

  lemma {:induction false} EagerArray(item: AbiType, n: nat, bytes: seq<Byte>, start: nat, eager: CalldataPlan,
          v: Value)
    requires Eager(eager) && SmallSizes(item) && Extent(n, item) < SIZE_LIMIT
    requires |bytes| < SIGN_BIT && start <= |bytes| + SOLC_MAX_U64
    requires PlanDecodeArray(item, n, bytes, start, eager, false) == Some(v)
    ensures start + Extent(n, item) <= |bytes| && Agreed(ArrayType(item, n), bytes, start, v)
    decreases item, n + 2, 1
  {
    hide StaticValue, PlanDecodeElements, DecodeDynamicElemsFrom, SmallSizes, LoadWords, StaticSize, DecodeStaticElems,
         SignedLess, SubWord, Extent;
    HeadChecked(bytes, start, Extent(n, item));
    ChildOfEager(eager, Element);
    if !IsDynamic(item) {
      LoadWordsInBounds(bytes, start, Extent(n, item) / 32);
      StrideOfArray(item, n);
      EagerStatic(ArrayType(item, n), bytes, start, v);
    } else {
      DynamicExtent(item, n);
      EagerElements(item, n, bytes, start, 0, eager, false, v.elems);
      PlainElements(item, n, bytes, start, false, v.elems);
      assert DecodeValue(ArrayType(item, n), bytes, start, Vyper).value.0 == v;
      if 0 < start {
        forall plan, tailAccess ensures PlanDecode(ArrayType(item, n), bytes, start, plan, tailAccess) == Some(v) {
          HeadFits(bytes, start, Extent(n, item));
          assert PlanDecodeElements(item, n, bytes, start, 0, plan, false) == Some(v.elems);
        }
      }
    }
  }

  lemma {:induction false} StrideOfArray(item: AbiType, n: nat)
    requires !IsDynamic(item)
    ensures Stride(ArrayType(item, n)) == Extent(n, item)
  {
  }

  lemma {:induction false} ExtentIs(n: nat, item: AbiType)
    ensures Extent(n, item) == n * Stride(item)
  {
    hide Stride;
  }

  lemma {:induction false} DynamicExtent(item: AbiType, n: nat)
    requires IsDynamic(item)
    ensures Extent(n, item) == 32 * n
  {
  }

  lemma {:induction false} EagerDynamicArray(item: AbiType, bytes: seq<Byte>, start: nat, eager: CalldataPlan, v: Value)
    requires Eager(eager) && SmallSizes(item) && Stride(item) < SIZE_LIMIT
    requires |bytes| < SIGN_BIT && start <= |bytes| + SOLC_MAX_U64
    requires PlanDecodeDynamicArray(item, bytes, start, eager, false) == Some(v)
    ensures start + 32 <= |bytes| && Agreed(DynamicArray(item), bytes, start, v)
    decreases item, LoadNat(bytes, start) + 2, 1
  {
    hide PieceElements, PlanDecodeElements, DecodeDynamicElemsFrom, SmallSizes, LoadWords, StaticSize,
         DecodeStaticElems,
         DecodeRawBools, DecodeArrayElems, Extent, BadExtent, BytesToNat, LoadBytes, IsDynamic;
    var size := LoadNat(bytes, start);
    var extent := Extent(size, item);
    ExtentIs(size, item);
    MulLess(size, Stride(item), SIZE_LIMIT);
    ExtentChecked(bytes, start, extent);
    LoadInBounds(bytes, start, 32);
    assert ReadNat(bytes, start) == Some(size);
    ChildOfEager(eager, Element);
    if !IsDynamic(item) {
      LoadWordsInBounds(bytes, start + 32, extent / 32);
      EagerPiece(item, size, bytes, start + 32, v.elems);
    } else {
      DynamicExtent(item, size);
      EagerElements(item, size, bytes, start + 32, 0, eager, true, v.elems);
      PlainElements(item, size, bytes, start + 32, true, v.elems);
      DynamicNotElem(item);
    }
    DynamicArrayAgreed(item, size, bytes, start, v.elems);
  }

  /** What is known of the elements of a dynamic array whose length has been checked. */
  ghost predicate ArrayAgreed(item: AbiType, size: nat, bytes: seq<Byte>, base: nat, values: seq<Value>) {
    && (if item == Elem(BoolType) then
          DecodeRawBools(size, bytes, base).Some? && DecodeRawBools(size, bytes, base).value.0 == values
        else
          && DecodeArrayElems(item, size, bytes, base, Vyper).Some?
          && DecodeArrayElems(item, size, bytes, base, Vyper).value.0 == values)
    && (!IsDynamic(item) ==>
          PieceElements(item, size, LoadWords(bytes, base, Extent(size, item) / 32)) == Some(values))
    && (forall plan :: PlanDecodeElements(item, size, bytes, base, 0, plan, true) == Some(values))
  }

  lemma {:induction false} DynamicNotElem(ty: AbiType)
    requires IsDynamic(ty)
    ensures !ty.Elem?
  {
  }

  lemma {:induction false} PlainElements(item: AbiType, size: nat, bytes: seq<Byte>, base: nat, rawBools: bool,
          values: seq<Value>)
    requires IsDynamic(item) && AgreedElements(item, size, bytes, base, 0, rawBools, values)
    ensures DecodeArrayElems(item, size, bytes, base, Vyper).Some?
    ensures DecodeArrayElems(item, size, bytes, base, Vyper).value.0 == values
  {
    hide DecodeDynamicElemsFrom, PlanDecodeElements, IsDynamic;
    assert DecodeDynamicElemsFrom(item, size, bytes, base, 0, base + size * 32, Vyper).value.0 == values;
  }

  lemma {:induction false} DynamicArrayAgreed(item: AbiType, size: nat, bytes: seq<Byte>, start: nat,
          values: seq<Value>)
    requires |bytes| < SIGN_BIT && size <= SOLC_MAX_U64 && ReadNat(bytes, start) == Some(size)
    requires start + 32 + Extent(size, item) <= |bytes|
    requires ArrayAgreed(item, size, bytes, start + 32, values)
    ensures Agreed(DynamicArray(item), bytes, start, Array(values))
  {
    hide PieceElements, PlanDecodeElements, DecodeArrayElems, DecodeRawBools, BadExtent, Extent, LoadWords, ReadNat,
         LoadNat, IsDynamic;
    LoadNatAt(bytes, start, size);
    forall plan, tailAccess ensures PlanDecode(DynamicArray(item), bytes, start, plan, tailAccess) == Some(Array(values)) {
      ExtentFits(IsMemory(plan), tailAccess, bytes, start, Extent(size, item));
      assert PlanDecodeElements(item, size, bytes, start + 32, 0, plan, true) == Some(values);
    }
  }

  /** Static elements read in one piece are read the same one by one, in place. */
  lemma {:induction false} EagerPiece(item: AbiType, size: nat, bytes: seq<Byte>, base: nat, values: seq<Value>)
    requires !IsDynamic(item) && |bytes| < SIGN_BIT && 0 < base && base + Extent(size, item) <= |bytes|
    requires PieceElements(item, size, LoadWords(bytes, base, Extent(size, item) / 32)) == Some(values)
    ensures ArrayAgreed(item, size, bytes, base, values)
  {
    hide LoadWords, PlanDecodeElements, IsDynamic, StaticSize, DecodeStaticElems, EncodeStaticElems, DecodeRawBools;
    var window := bytes[base..base + Extent(size, item)];
    LoadWordsInBounds(bytes, base, Extent(size, item) / 32);
    if item == Elem(BoolType) {
      StrideOfElem(BoolType);
      RawBoolsInPlace(size, window, 0, bytes, base);
      forall plan ensures PlanDecodeElements(item, size, bytes, base, 0, plan, true) == Some(values) {
        RawBoolsByPlan(size, bytes, base, 0, plan);
      }
    } else {
      StaticElementsInPlace(item, size, window, bytes, base, values);
    }
  }

  /** The first 32 bytes of equal windows, and what follows them. */
  lemma {:induction false} WindowsSplit(a: seq<Byte>, p: nat, b: seq<Byte>, q: nat, n: nat)
    requires 32 <= n && p + n <= |a| && q + n <= |b| && a[p..p + n] == b[q..q + n]
    ensures a[p..p + 32] == b[q..q + 32]
    ensures a[p + 32..p + n] == b[q + 32..q + n]
  {
    var s, t := a[p..p + n], b[q..q + n];
    assert a[p..p + 32] == s[..32] && b[q..q + 32] == t[..32];
    assert a[p + 32..p + n] == s[32..] && b[q + 32..q + n] == t[32..];
  }

  lemma {:induction false} RawBoolsInPlace(n: nat, a: seq<Byte>, p: nat, b: seq<Byte>, q: nat)
    requires p + 32 * n <= |a| && q + 32 * n <= |b| && a[p..p + 32 * n] == b[q..q + 32 * n]
    ensures DecodeRawBools(n, a, p).Some? && DecodeRawBools(n, b, q).Some?
    ensures DecodeRawBools(n, a, p).value.0 == DecodeRawBools(n, b, q).value.0
  {
    hide BytesToNat;
    if n > 0 {
      WindowsSplit(a, p, b, q, 32 * n);
      var m := 32 * (n - 1);
      assert p + 32 + m == p + 32 * n && q + 32 + m == q + 32 * n;
      RawBoolsInPlace(n - 1, a, p + 32, b, q + 32);
    }
  }

  lemma {:induction false} RawBoolsByPlan(n: nat, bytes: seq<Byte>, base: nat, cursor: nat, plan: CalldataPlan)
    requires base + cursor + 32 * n <= |bytes| < SIGN_BIT
    ensures DecodeRawBools(n, bytes, base + cursor).Some?
    ensures PlanDecodeElements(Elem(BoolType), n, bytes, base, cursor, plan, true) ==
            Some(DecodeRawBools(n, bytes, base + cursor).value.0)
  {
    hide LoadBytes, BytesToNat;
    if n > 0 {
      StrideOfElem(BoolType);
      LoadInBounds(bytes, base + cursor, 32);
      RawBoolsByPlan(n - 1, bytes, base, cursor + 32, plan);
    }
  }

  lemma {:induction false} StaticElementsInPlace(item: AbiType, size: nat, window: seq<Byte>, bytes: seq<Byte>,
          base: nat, values: seq<Value>)
    requires !IsDynamic(item) && item != Elem(BoolType) && |bytes| < SIGN_BIT && 0 < base
    requires |window| == Extent(size, item) && At(bytes, base, window)
    requires PieceElements(item, size, window) == Some(values)
    ensures DecodeArrayElems(item, size, bytes, base, Vyper).Some?
    ensures DecodeArrayElems(item, size, bytes, base, Vyper).value.0 == values
    ensures forall plan :: PlanDecodeElements(item, size, bytes, base, 0, plan, true) == Some(values)
  {
    hide At, PlanDecodeElements, IsDynamic, DecodeStaticElems, EncodeStaticElems, ElemsWithinCaps, CanonElems,
         ElemsAnswer;
    StaticSizeDefined(item);
    AtBound(bytes, base, window);
    StaticElemsCanonical(item, size, Stride(item), window, 0, Modern);
    var enc := EncodeStaticElems(item, values).value;
    EncodedStaticElemsSize(item, values);
    assert enc == window by { StandsWhole(window, enc); }
    StaticElemsTransparent(item, values, 0, CapsOf(Vyper));
    StaticElemsTransparent(item, values, |values| * 32, EAGER_CAPS);
    RoundTripStaticElems(item, values, 0, window, bytes, base, Vyper);
    forall plan ensures PlanDecodeElements(item, size, bytes, base, 0, plan, true) == Some(values) {
      PlanElems(item, values, window, bytes, base, plan, true);
      ElemPlansAgree(item, values, |values| * 32, plan, true);
    }
  }

  lemma {:induction false} StandsWhole(window: seq<Byte>, part: seq<Byte>)
    requires Stands(window, 0, part) && |part| == |window|
    ensures part == window
  {
  }

  /** Agreement on the elements of an array: with the Vyper decoder, and with every plan. */
  ghost predicate AgreedElements(item: AbiType, n: nat, bytes: seq<Byte>, base: nat, cursor: nat, rawBools: bool,
                                 values: seq<Value>) {
    && (forall maxEnd: nat :: DecodeDynamicElemsFrom(item, n, bytes, base, cursor, maxEnd, Vyper).Some?
                              && DecodeDynamicElemsFrom(item, n, bytes, base, cursor, maxEnd, Vyper).value.0 == values)
    && (0 < base ==> forall plan :: PlanDecodeElements(item, n, bytes, base, cursor, plan, rawBools) == Some(values))
  }

  lemma {:induction false} EagerElements(item: AbiType, n: nat, bytes: seq<Byte>, base: nat, cursor: nat,
                                         eager: CalldataPlan, rawBools: bool, values: seq<Value>)
    requires Eager(eager) && SmallSizes(item) && IsDynamic(item) && |bytes| < SIGN_BIT
    requires base + cursor + 32 * n <= |bytes|
    requires PlanDecodeElements(item, n, bytes, base, cursor, eager, rawBools) == Some(values)
    ensures AgreedElements(item, n, bytes, base, cursor, rawBools, values)
    decreases item, n + 1, 1
  {
    hide DecodeValue, PlanDecode, SmallSizes, IsDynamic, StaticSize, LoadNat, ReadNat, TailTarget, Agreed, TailSize;
    if n > 0 {
      ChildOfEager(eager, Element);
      var relative := LoadNat(bytes, base + cursor);
      EagerTarget(item, bytes, base, base + cursor);
      DynamicNotElem(item);
      assert PlanDecodeElement(item, bytes, base, cursor, eager, rawBools) == Some(values[0]);
      EagerIsStrict(item, bytes, base + relative, eager, values[0]);
      EagerElements(item, n - 1, bytes, base, cursor + 32, eager, rawBools, values[1..]);
      ElementsAgreedStep(item, n, bytes, base, cursor, relative, rawBools, values);
    }
  }

  lemma {:induction false} EagerTarget(ty: AbiType, bytes: seq<Byte>, base: nat, head: nat)
    requires |bytes| < SIGN_BIT && head + 32 <= |bytes| && base <= |bytes|
    ensures ReadNat(bytes, head) == Some(LoadNat(bytes, head))
    ensures TailTarget(false, ty, bytes, base, head) ==
            if SOLC_MAX_U64 < LoadNat(bytes, head) then None else Some(base + LoadNat(bytes, head))
  {
    hide BytesToNat;
    LoadInBounds(bytes, head, 32);
  }

  lemma {:induction false} ElementsAgreedStep(item: AbiType, n: nat, bytes: seq<Byte>, base: nat, cursor: nat,
          relative: nat,
                           rawBools: bool, values: seq<Value>)
    requires IsDynamic(item) && |bytes| < SIGN_BIT && n > 0 && values != []
    requires base + cursor + 32 <= |bytes| && relative <= SOLC_MAX_U64 && ReadNat(bytes,
            base + cursor) == Some(relative)
    requires base + relative + TailSize(item) <= |bytes| && Agreed(item, bytes, base + relative, values[0])
    requires AgreedElements(item, n - 1, bytes, base, cursor + 32, rawBools, values[1..])
    ensures AgreedElements(item, n, bytes, base, cursor, rawBools, values)
  {
    hide DecodeValue, PlanDecode, IsDynamic, StaticSize, ReadNat, TailTarget, TailSize;
    DynamicNotElem(item);
    assert ElementTarget(Vyper, base, relative) == base + relative;
    var v := DecodeValue(item, bytes, base + relative, Vyper).value;
    forall maxEnd: nat
      ensures DecodeDynamicElemsFrom(item, n, bytes, base, cursor, maxEnd, Vyper).Some?
              && DecodeDynamicElemsFrom(item, n, bytes, base, cursor, maxEnd, Vyper).value.0 == values
    {
      assert DecodeDynamicElemsFrom(item, n - 1, bytes, base, cursor + 32, Max(maxEnd, v.1),
              Vyper).value.0 == values[1..];
    }
    if 0 < base {
      forall plan ensures PlanDecodeElements(item, n, bytes, base, cursor, plan, rawBools) == Some(values) {
        TargetFits(!IsMemory(plan), item, bytes, base, base + cursor, relative);
        assert PlanDecode(item, bytes, base + relative, Child(plan, Element), !IsMemory(plan)) == Some(values[0]);
        assert PlanDecodeElement(item, bytes, base, cursor, plan, rawBools) == Some(values[0]);
        assert PlanDecodeElements(item, n - 1, bytes, base, cursor + 32, plan, rawBools) == Some(values[1..]);
        assert [values[0]] + values[1..] == values;
      }
    }
  }

  ghost predicate AgreedFields(types: seq<AbiType>, bytes: seq<Byte>, base: nat, cursor: nat, values: seq<Value>) {
    && (forall maxEnd: nat :: DecodeValues(types, bytes, base, cursor, maxEnd, Vyper).Some?
                              && DecodeValues(types, bytes, base, cursor, maxEnd, Vyper).value.0 == values)
    && (0 < base ==> forall plans, memory :: PlanDecodeFields(types, bytes, base, cursor, plans, memory) == Some(values))
  }

  lemma {:induction false} EagerFields(types: seq<AbiType>, bytes: seq<Byte>, base: nat, cursor: nat,
                                       plans: seq<CalldataPlan>, values: seq<Value>)
    requires AllSmall(types) && |bytes| < SIGN_BIT && (forall p :: p in plans ==> Eager(p))
    requires base + cursor + HeadSize(types) <= |bytes|
    requires PlanDecodeFields(types, bytes, base, cursor, plans, true) == Some(values)
    ensures AgreedFields(types, bytes, base, cursor, values)
    decreases types, 0, 0
  {
    hide DecodeValue, PlanDecode, SmallSizes, IsDynamic, StaticSize, LoadNat, ReadNat, TailTarget, Agreed, TailSize;
    if types != [] {
      HeadSizeStep(types);
      var ty := types[0];
      var plan := if plans == [] then DEFAULT_PLAN else plans[0];
      assert Eager(plan);
      var target := cursor;
      if IsDynamic(ty) {
        EagerTarget(ty, bytes, base, base + cursor);
        target := LoadNat(bytes, base + cursor);
      }
      EagerIsStrict(ty, bytes, base + target, plan, values[0]);
      EagerFields(types[1..], bytes, base, cursor + Stride(ty), if plans == [] then [] else plans[1..], values[1..]);
      FieldsAgreedStep(types, bytes, base, cursor, target, values);
    }
  }

  lemma {:induction false} FieldsAgreedStep(types: seq<AbiType>, bytes: seq<Byte>, base: nat, cursor: nat,
          target: nat, values: seq<Value>)
    requires types != [] && values != [] && |bytes| < SIGN_BIT && base + cursor + Stride(types[0]) <= |bytes|
    requires if IsDynamic(types[0]) then
               && target <= SOLC_MAX_U64 && ReadNat(bytes, base + cursor) == Some(target)
               && base + target + TailSize(types[0]) <= |bytes|
             else target == cursor
    requires Agreed(types[0], bytes, base + target, values[0])
    requires AgreedFields(types[1..], bytes, base, cursor + Stride(types[0]), values[1..])
    ensures AgreedFields(types, bytes, base, cursor, values)
  {
    hide DecodeValue, PlanDecode, IsDynamic, StaticSize, ReadNat, TailTarget, TailSize, EncodeValue;
    var ty := types[0];
    var v := DecodeValue(ty, bytes, base + target, Vyper).value;
    if !IsDynamic(ty) {
      StaticDecodingIsEncoding(ty, values[0], bytes, base + target, Vyper);
    }
    forall maxEnd: nat
      ensures DecodeValues(types, bytes, base, cursor, maxEnd, Vyper).Some?
              && DecodeValues(types, bytes, base, cursor, maxEnd, Vyper).value.0 == values
    {
      assert DecodeValues(types[1..], bytes, base, cursor + Stride(ty), Max(maxEnd, v.1), Vyper).value.0 == values[1..];
    }
    if 0 < base {
      forall plans, memory ensures PlanDecodeFields(types, bytes, base, cursor, plans, memory) == Some(values) {
        var plan := if plans == [] then DEFAULT_PLAN else plans[0];
        if IsDynamic(ty) {
          TargetFits(!memory, ty, bytes, base, base + cursor, target);
        }
        assert PlanDecode(ty, bytes, base + target, plan, IsDynamic(ty) && !memory) == Some(values[0]);
        assert PlanDecodeField(ty, bytes, base, cursor, plan, memory) == Some(values[0]);
        assert PlanDecodeFields(types[1..], bytes, base, cursor + Stride(ty),
                                if plans == [] then [] else plans[1..], memory) == Some(values[1..]);
        assert [values[0]] + values[1..] == values;
      }
    }
  }
}
