/**
 Calldata plans on canonical input.  What a plan makes of an encoding depends on the value alone: it is
 the canonical value, except where a length, or an offset of something copied, is beyond its cap.  Within
 the caps the choice of plan is invisible.
 */
module AbiPlans {
  import opened Options
  import opened Words
  import opened Arith
  import opened AbiTypes
  import opened AbiEncode
  import opened AbiDecode
  import opened AbiRoundTrip
  import opened AbiStatic
  import opened AbiCalldata

  /** The caps of a plan that copies everything or references everything: references have no offset caps. */
  function PlanCaps(copies: bool): Caps {
    Caps(SOLC_MAX_U64, copies, copies)
  }

  const EAGER_CAPS := PlanCaps(true)

  // ----- what a plan makes of an encoding -----

  /** The value a plan decodes an encoding of `v` to, without looking at bytes. */
  function PlanAnswer(ty: AbiType, v: Value, plan: CalldataPlan): Option<Value>
    decreases ty, 0, 0
  {
    match ty
    case Elem(_) => Some(v)
    case BytesType => if v.Bytes? && |v.data| <= SOLC_MAX_U64 then Some(v) else None
    case StringType => if v.Bytes? && |v.data| <= SOLC_MAX_U64 then Some(v) else None
    case TupleType(items) =>
      if !v.Tuple? then None
      else if !AnyDynamic(items) then Some(Canon(ty, v))
      else
        var fields :- FieldsAnswer(items, v.elems, HeadSize(items), FieldPlans(plan, 0, |items|), IsMemory(plan));
        Some(Tuple(fields))
    case ArrayType(item, _) =>
      if !v.Array? then None
      else if InOnePiece(item, plan) then Some(Canon(ty, v))
      else
        var elems :- ElemsAnswer(item, v.elems, |v.elems| * 32, plan, false);
        Some(Array(elems))
    case DynamicArray(item) =>
      if !v.Array? || SOLC_MAX_U64 < |v.elems| then None
      else if InOnePiece(item, plan) then Some(Canon(ty, v))
      else
        var elems :- ElemsAnswer(item, v.elems, |v.elems| * 32, plan, true);
        Some(Array(elems))
  }

  /** An element at an offset: only the offsets of copied elements are capped. */
  function ElemAnswer(item: AbiType, v: Value, offset: nat, plan: CalldataPlan, rawBools: bool): Option<Value>
    decreases item, 0, 1
  {
    if IsDynamic(item) && IsMemory(plan) && SOLC_MAX_U64 < offset then None
    else if rawBools && item == Elem(BoolType) then Some(RawWordValue(if v == Bool(true) then 1 else 0))
    else PlanAnswer(item, v, Child(plan, Element))
  }

  function ElemsAnswer(item: AbiType, values: seq<Value>, offset: nat, plan: CalldataPlan,
          rawBools: bool): Option<seq<Value>>
    decreases item, |values| + 1, 2
  {
    if values == [] then Some([])
    else
      var value :- RetainFailure(Child(plan, Element), ElemAnswer(item, values[0], offset, plan, rawBools));
      var rest :- ElemsAnswer(item, values[1..], offset + EncodedSize(item, values[0]), plan, rawBools);
      Some([value] + rest)
  }

  /** A field at an offset, in a tuple that is copied or not. */
  function FieldAnswer(ty: AbiType, v: Value, offset: nat, plan: CalldataPlan, memory: bool): Option<Value>
    decreases ty, 0, 1
  {
    if IsDynamic(ty) && memory && SOLC_MAX_U64 < offset then None else PlanAnswer(ty, v, plan)
  }

  function FieldsAnswer(types: seq<AbiType>, values: seq<Value>, offset: nat, plans: seq<CalldataPlan>,
          memory: bool): Option<seq<Value>>
    decreases types, |values|, 2
  {
    if types == [] || values == [] then Some([])
    else
      var plan := if plans == [] then DEFAULT_PLAN else plans[0];
      var value :- RetainFailure(plan, FieldAnswer(types[0], values[0], offset, plan, memory));
      var rest :- FieldsAnswer(types[1..], values[1..], AfterField(types[0], values[0], offset),
                               if plans == [] then [] else plans[1..], memory);
      Some([value] + rest)
  }

  function AfterField(ty: AbiType, v: Value, offset: nat): nat {
    if IsDynamic(ty) then offset + EncodedSize(ty, v) else offset
  }

  // ----- loads and bounds checks inside the input -----

  lemma {:induction false} LoadInBounds(bytes: seq<Byte>, start: nat, size: nat)
    requires start + size <= |bytes| < WORD_MODULUS
    ensures LoadBytes(bytes, start, size) == bytes[start..start + size]
  {
  }

  lemma {:induction false} LoadWordsInBounds(bytes: seq<Byte>, start: nat, count: nat)
    requires start + 32 * count <= |bytes| < WORD_MODULUS
    ensures LoadWords(bytes, start, count) == bytes[start..start + 32 * count]
  {
    if count > 0 {
      LoadWordsInBounds(bytes, start, count - 1);
      LoadInBounds(bytes, start + 32 * (count - 1), 32);
    }
  }

  lemma {:induction false} LoadNatAt(bytes: seq<Byte>, start: nat, n: nat)
    requires ReadNat(bytes, start) == Some(n) && |bytes| < WORD_MODULUS
    ensures LoadNat(bytes, start) == n && start + 32 <= |bytes|
  {
    LoadInBounds(bytes, start, 32);
  }

  lemma {:induction false} ExtentFits(memory: bool, tailAccess: bool, bytes: seq<Byte>, start: nat, extent: nat)
    requires start + 32 + extent <= |bytes| < SIGN_BIT
    ensures !BadExtent(memory, tailAccess, bytes, start, extent)
  {
  }

  lemma {:induction false} HeadFits(bytes: seq<Byte>, start: nat, headSize: nat)
    requires start + headSize <= |bytes| < SIGN_BIT
    ensures !SignedLess(SubWord(|bytes|, start), headSize) && !(Wrap(|bytes|) < AddWord(start, headSize))
  {
  }

  /** References are relative to a positive address, or the input is not of the greatest signed size. */
  predicate Clear(bytes: seq<Byte>, base: nat, references: bool) {
    references ==> 0 < base || |bytes| + 1 < SIGN_BIT
  }

  /** Whether the offsets right inside a value are followed as references. */
  predicate Follows(ty: AbiType, plan: CalldataPlan) {
    IsDynamic(ty) && !IsMemory(plan)
  }

  /** A reference is followed whenever the whole tail lies in the input; a copy has a cap besides. */
  lemma {:induction false} TargetFits(reference: bool, ty: AbiType, bytes: seq<Byte>, base: nat, head: nat, offset: nat)
    requires ReadNat(bytes, head) == Some(offset) && |bytes| < SIGN_BIT && Clear(bytes, base, reference)
    requires base + offset + TailSize(ty) <= |bytes|
    ensures TailTarget(reference, ty, bytes, base, head)
            == if !reference && SOLC_MAX_U64 < offset then None else Some(base + offset)
  {
    hide LoadNat, ReadNat, TailSize;
    LoadNatAt(bytes, head, offset);
  }

  /** An encoding is at least as long as the part of it a reference check asks for. */
  lemma {:induction false} EncodedTail(ty: AbiType, v: Value, enc: seq<Byte>)
    requires EncodeValue(ty, v) == Some(enc)
    ensures TailSize(ty) <= |enc|
    ensures !IsDynamic(ty) ==> Stride(ty) == |enc|
  {
    hide EncodeElem, EncodeStaticElems, EncodeDynamicElemsFrom, EncodeValuesFrom, At;
    if !IsDynamic(ty) {
      EncodedStaticSize(ty, v);
    }
    match ty
    case TupleType(items) =>
      EncodedFieldsShape(items, v.elems, HeadSize(items), [], []);
      assert HeadSize(items) <= |enc| by { AtBound(enc, HeadSize(items), []); }
    case ArrayType(item, n) => ElemsExtent(item, v.elems);
    case Elem(e) =>
    case _ =>
  }

  lemma {:induction false} AtBound(bytes: seq<Byte>, start: nat, part: seq<Byte>)
    requires At(bytes, start, part)
    ensures start + |part| <= |bytes|
  {
  }

  lemma {:induction false} ElemsExtent(item: AbiType, values: seq<Value>)
    requires EncodeArrayElems(item, values).Some?
    ensures Extent(|values|, item) <= |EncodeArrayElems(item, values).value|
    ensures !IsDynamic(item) ==> Extent(|values|, item) == |EncodeArrayElems(item, values).value|
    ensures IsDynamic(item) ==> Extent(|values|, item) == 32 * |values|
  {
    hide EncodeStaticElems, EncodeDynamicElemsFrom, At;
    if IsDynamic(item) {
      var enc := EncodeArrayElems(item, values).value;
      EncodedElemsShape(item, values, |values| * 32, [], []);
      AtBound(enc, |values| * 32, []);
    } else {
      EncodedStaticElemsSize(item, values);
    }
  }

  // ----- whole values -----

  /** The ordinary decoder on exactly the encoding of a static value. */
  lemma {:induction false} StaticValueOf(ty: AbiType, v: Value, enc: seq<Byte>)
    requires !IsDynamic(ty) && EncodeValue(ty, v) == Some(enc) && |enc| < WORD_MODULUS
    ensures StaticValue(ty, enc) == Some(Canon(ty, v))
  {
    hide DecodeValue, EncodeValue, Canon, IsDynamic;
    EncodedStaticSize(ty, v);
    assert enc[0..0 + Stride(ty)] == enc;
    StaticDecodingIsEncoding(ty, v, enc, 0, Modern);
    StaticTransparent(ty, v, EAGER_CAPS);
  }

  lemma {:induction false} PlanBytes(ty: AbiType, v: Value, bytes: seq<Byte>, start: nat, plan: CalldataPlan,
          tailAccess: bool)
    requires (ty.BytesType? || ty.StringType?) && v.Bytes?
    requires At(bytes, start, WordBytes(|v.data|) + PadRightToWord(v.data)) && |bytes| < SIGN_BIT
    ensures PlanDecodeBytes(ty, bytes, start, plan, tailAccess) == if |v.data| <= SOLC_MAX_U64 then Some(v) else None
  {
    hide BadExtent, WordBytes, LoadBytes, LoadNat;
    var size := |v.data|;
    AtConcat(bytes, start, WordBytes(size), PadRightToWord(v.data));
    AtConcat(bytes, start + 32, v.data, Zeros(PaddedSize(size) - size));
    ReadWordAt(bytes, start, size);
    LoadNatAt(bytes, start, size);
    if size <= SOLC_MAX_U64 {
      ExtentFits(IsMemory(plan), tailAccess, bytes, start, size);
      LoadInBounds(bytes, start, 32 + size);
      var input := LoadBytes(bytes, start, 32 + size);
      assert input[..32] == WordBytes(size) && input[32..] == v.data;
      ReadWordAt(input, 0, size);
      assert input[32..32 + size] == v.data;
      assert DecodeBytes(input, 0, Modern) == Some((v, 0 + 32 + PaddedSize(size)));
    }
  }

  /**
   Every plan decodes an encoding to what it makes of the value: at any position of any input below 2^255
   bytes, whether the value is copied or referenced and wherever errors are deferred.
   */
  lemma {:induction false} PlanRoundTrip(ty: AbiType, v: Value, enc: seq<Byte>, bytes: seq<Byte>, start: nat,
                                         plan: CalldataPlan, tailAccess: bool)
    requires EncodeValue(ty, v) == Some(enc) && At(bytes, start, enc) && |bytes| < SIGN_BIT
    requires Clear(bytes, start, Follows(ty, plan)) && CountsAreWords(ty, v)
    ensures PlanDecode(ty, bytes, start, plan, tailAccess) == PlanAnswer(ty, v, plan)
    decreases ty, 0, 0
  {
    hide At, StaticValue, EncodeElem, PlanDecodeBytes, PlanDecodeTuple, PlanDecodeArray, PlanDecodeDynamicArray,
         LoadBytes, CanonElems, CanonFields, EncodeValuesFrom, EncodeArrayElems, ElemCountsAreWords,
         FieldCountsAreWords, WordBytes, ElemsAnswer, FieldsAnswer;
    match ty
    case Elem(e) =>
      EncodedTail(ty, v, enc);
      AtBound(bytes, start, enc);
      LoadAt(bytes, start, enc);
      StaticValueOf(ty, v, enc);
    case BytesType => PlanBytes(ty, v, bytes, start, plan, tailAccess);
    case StringType => PlanBytes(ty, v, bytes, start, plan, tailAccess);
    case TupleType(items) => PlanTuple(items, v.elems, enc, bytes, start, plan, tailAccess);
    case ArrayType(item, n) => PlanArray(item, v.elems, enc, bytes, start, plan, tailAccess);
    case DynamicArray(item) =>
      PlanDynamicArray(item, v.elems, EncodeArrayElems(item, v.elems).value, bytes, start, plan, tailAccess);
  }

  lemma {:induction false} LoadAt(bytes: seq<Byte>, start: nat, enc: seq<Byte>)
    requires At(bytes, start, enc) && |bytes| < WORD_MODULUS
    ensures LoadBytes(bytes, start, |enc|) == enc
    ensures |enc| % 32 == 0 ==> LoadWords(bytes, start, |enc| / 32) == enc
    ensures start + |enc| <= |bytes|
  {
    LoadInBounds(bytes, start, |enc|);
    if |enc| % 32 == 0 {
      LoadWordsInBounds(bytes, start, |enc| / 32);
    }
  }

  lemma {:induction false} PlanTuple(items: seq<AbiType>, values: seq<Value>, enc: seq<Byte>, bytes: seq<Byte>,
                                     start: nat, plan: CalldataPlan, tailAccess: bool)
    requires EncodeValue(TupleType(items), Tuple(values)) == Some(enc)
    requires At(bytes, start, enc) && |bytes| < SIGN_BIT && Clear(bytes, start, Follows(TupleType(items), plan))
    requires FieldCountsAreWords(items, values)
    ensures PlanDecodeTuple(items, bytes, start, plan, tailAccess) == PlanAnswer(TupleType(items), Tuple(values), plan)
    decreases items, |values| + 1, 7
  {
    hide At, StaticValue, LoadWords, LoadBytes, PlanDecodeFields, CanonFields, EncodeValuesFrom, FieldCountsAreWords,
         FieldsAnswer,
         SignedLess, SubWord, AddWord, Wrap;
    EncodedTail(TupleType(items), Tuple(values), enc);
    LoadAt(bytes, start, enc);
    HeadFits(bytes, start, HeadSize(items));
    if !AnyDynamic(items) {
      StaticValueOf(TupleType(items), Tuple(values), enc);
      assert HeadSize(items) == |enc| by {
        HeadSizeDefined(items);
        assert StaticSizeList(items, 0) == Some(0 + TupleHeadSize(items).value);
      }
    } else {
      PlanFields(items, values, HeadSize(items), [], [], enc, bytes, start, FieldPlans(plan, 0, |items|),
              IsMemory(plan));
    }
  }

  lemma {:induction false} PlanArray(item: AbiType, values: seq<Value>, enc: seq<Byte>, bytes: seq<Byte>, start: nat,
                                     plan: CalldataPlan, tailAccess: bool)
    requires EncodeArrayElems(item, values) == Some(enc) && At(bytes, start, enc) && |bytes| < SIGN_BIT
    requires Clear(bytes, start, Follows(item, plan)) && ElemCountsAreWords(item, values)
    ensures PlanDecodeArray(item, |values|, bytes, start, plan, tailAccess)
            == PlanAnswer(ArrayType(item, |values|), Array(values), plan)
    decreases item, |values| + 1, 7
  {
    hide At, StaticValue, LoadWords, LoadBytes, PlanDecodeElements, CanonElems, EncodeArrayElems, ElemCountsAreWords,
         ElemsAnswer,
         SignedLess, SubWord, AddWord, Wrap, Extent;
    ElemsExtent(item, values);
    LoadAt(bytes, start, enc);
    HeadFits(bytes, start, Extent(|values|, item));
    if InOnePiece(item, plan) {
      StaticValueOf(ArrayType(item, |values|), Array(values), enc);
    } else {
      PlanElems(item, values, enc, bytes, start, plan, false);
    }
  }

  lemma {:induction false} PlanDynamicArray(item: AbiType, values: seq<Value>, enc: seq<Byte>, bytes: seq<Byte>,
                                            start: nat, plan: CalldataPlan, tailAccess: bool)
    requires EncodeArrayElems(item, values) == Some(enc) && At(bytes, start, WordBytes(|values|) + enc)
    requires |bytes| < SIGN_BIT && |values| < WORD_MODULUS && ElemCountsAreWords(item, values)
    ensures PlanDecodeDynamicArray(item, bytes, start, plan, tailAccess)
            == PlanAnswer(DynamicArray(item), Array(values), plan)
    decreases item, |values| + 1, 7
  {
    hide At, LoadWords, LoadBytes, LoadNat, PlanDecodeElements, CanonElems, EncodeArrayElems, ElemCountsAreWords, RawBools, ElemsAnswer,
         SignedLess, SubWord, BadExtent, Extent, WordBytes, PieceElements;
    AtConcat(bytes, start, WordBytes(|values|), enc);
    ReadWordAt(bytes, start, |values|);
    LoadNatAt(bytes, start, |values|);
    ElemsExtent(item, values);
    LoadAt(bytes, start + 32, enc);
    ExtentFits(IsMemory(plan), tailAccess, bytes, start, Extent(|values|, item));
    if |values| <= SOLC_MAX_U64 {
      if InOnePiece(item, plan) {
        PieceOf(item, values, enc);
      } else {
        PlanElems(item, values, enc, bytes, start + 32, plan, true);
      }
    }
  }

  /** What an array of elements decodes to: raw words for the bools of a dynamic array. */
  function CanonArray(item: AbiType, values: seq<Value>, rawBools: bool): seq<Value> {
    if rawBools && item == Elem(BoolType) then RawBools(values) else CanonElems(item, values)
  }

  lemma {:induction false} PieceOf(item: AbiType, values: seq<Value>, enc: seq<Byte>)
    requires !IsDynamic(item) && EncodeArrayElems(item, values) == Some(enc) && |enc| < WORD_MODULUS
    ensures PieceElements(item, |values|, enc) == Some(CanonArray(item, values, true))
  {
    hide DecodeRawBools, DecodeStaticElems, EncodeStaticElems, CanonElems, RawBools, ElemsWithinCaps;
    assert At(enc, 0, enc);
    StaticElemsTransparent(item, values, 0, CapsOf(Modern));
    if item == Elem(BoolType) {
      RoundTripRawBools(values, enc, 0);
    } else {
      StaticSizeDefined(item);
      RoundTripStaticElems(item, values, 0, enc, enc, 0, Modern);
    }
  }

  lemma {:induction false} PlanElems(item: AbiType, values: seq<Value>, enc: seq<Byte>, bytes: seq<Byte>, base: nat,
                                     plan: CalldataPlan, rawBools: bool)
    requires EncodeArrayElems(item, values) == Some(enc) && At(bytes, base, enc) && |bytes| < SIGN_BIT
    requires Clear(bytes, base, Follows(item, plan)) && ElemCountsAreWords(item, values)
    ensures PlanDecodeElements(item, |values|, bytes, base, 0, plan, rawBools)
            == ElemsAnswer(item, values, |values| * 32, plan, rawBools)
    decreases item, |values| + 1, 6
  {
    hide At, PlanDecodeElements, EncodeStaticElems, EncodeDynamicElemsFrom, ElemCountsAreWords, ElemsAnswer;
    if IsDynamic(item) {
      PlanDynamicElems(item, values, |values| * 32, [], [], enc, bytes, base, plan, rawBools);
    } else {
      PlanStaticElems(item, values, |values| * 32, enc, bytes, base, 0, plan, rawBools);
    }
  }

  lemma {:induction false} PlanStaticElems(item: AbiType, values: seq<Value>, offset: nat, enc: seq<Byte>,
                                           bytes: seq<Byte>, base: nat, cursor: nat, plan: CalldataPlan, rawBools: bool)
    requires !IsDynamic(item) && EncodeStaticElems(item, values) == Some(enc)
    requires At(bytes, base + cursor, enc) && |bytes| < SIGN_BIT
    requires ElemCountsAreWords(item, values)
    ensures PlanDecodeElements(item, |values|, bytes, base, cursor, plan, rawBools)
            == ElemsAnswer(item, values, offset, plan, rawBools)
    decreases item, |values| + 1, 5
  {
    hide At, EncodeValue, CountsAreWords, IsDynamic, StaticSize, PlanDecodeElement, ElemAnswer, RetainFailure, Child;
    if values != [] {
      var first, rest := EncodeValue(item, values[0]).value, EncodeStaticElems(item, values[1..]).value;
      EncodedStaticSize(item, values[0]);
      AtConcat(bytes, base + cursor, first, rest);
      PlanStaticElem(item, values[0], offset, first, bytes, base, cursor, plan, rawBools);
      PlanStaticElems(item, values[1..], offset + |first|, rest, bytes, base, cursor + |first|, plan, rawBools);
    }
  }

  lemma {:induction false} PlanStaticElem(item: AbiType, v: Value, offset: nat, enc: seq<Byte>, bytes: seq<Byte>,
                                          base: nat, cursor: nat, plan: CalldataPlan, rawBools: bool)
    requires !IsDynamic(item) && EncodeValue(item, v) == Some(enc) && At(bytes, base + cursor, enc)
    requires |bytes| < SIGN_BIT && CountsAreWords(item, v)
    ensures PlanDecodeElement(item, bytes, base, cursor, plan, rawBools) == ElemAnswer(item, v, offset, plan, rawBools)
    decreases item, 1
  {
    hide CountsAreWords, PlanDecode, PlanAnswer, WordBytes, LoadNat, LoadBytes;
    PlanRoundTrip(item, v, enc, bytes, base + cursor, Child(plan, Element), false);
    if item == Elem(BoolType) {
      var bit := if v == Bool(true) then 1 else 0;
      assert enc == WordBytes(bit);
      ReadWordAt(bytes, base + cursor, bit);
      LoadNatAt(bytes, base + cursor, bit);
    }
  }

  lemma {:induction false} PlanDynamicElems(item: AbiType, values: seq<Value>, headSize: nat, head: seq<Byte>,
                                            tail: seq<Byte>, full: seq<Byte>, bytes: seq<Byte>, base: nat,
                                            plan: CalldataPlan, rawBools: bool)
    requires IsDynamic(item) && EncodeDynamicElemsFrom(item, values, headSize, head, tail) == Some(full)
    requires |head| + 32 * |values| == headSize && At(bytes, base, full) && |bytes| < SIGN_BIT
    requires Clear(bytes, base, !IsMemory(plan)) && ElemCountsAreWords(item, values)
    ensures PlanDecodeElements(item, |values|, bytes, base, |head|, plan, rawBools)
            == ElemsAnswer(item, values, headSize + |tail|, plan, rawBools)
    decreases item, |values| + 1, 5
  {
    hide At, ReadNat, WordBytes, EncodeValue, CountsAreWords, StaticSize, PlanDecodeElement, ElemAnswer;
    if values != [] {
      var enc := EncodeValue(item, values[0]).value;
      var offset := headSize + |tail|;
      AtBound(bytes, base, full);
      ElemStepAt(item, values, headSize, head, tail, full, enc, bytes, base);
      PlanDynamicElem(item, values[0], enc, bytes, base, |head|, offset, plan, rawBools);
      PlanDynamicElems(item, values[1..], headSize, head + WordBytes(offset), tail + enc, full, bytes, base, plan,
              rawBools);
    }
  }

  lemma {:induction false} PlanDynamicElem(item: AbiType, v: Value, enc: seq<Byte>, bytes: seq<Byte>, base: nat,
                                           cursor: nat, offset: nat, plan: CalldataPlan, rawBools: bool)
    requires IsDynamic(item) && EncodeValue(item, v) == Some(enc) && At(bytes, base + offset, enc)
    requires ReadNat(bytes, base + cursor) == Some(offset)
    requires |bytes| < SIGN_BIT && Clear(bytes, base, !IsMemory(plan)) && CountsAreWords(item, v)
    ensures PlanDecodeElement(item, bytes, base, cursor, plan, rawBools) == ElemAnswer(item, v, offset, plan, rawBools)
    decreases item, 1
  {
    hide At, ReadNat, EncodeValue, CountsAreWords, PlanDecode, PlanAnswer, TailTarget, TailSize;
    EncodedTail(item, v, enc);
    AtBound(bytes, base + offset, enc);
    assert base + cursor + 32 <= |bytes| by { LoadNatAt(bytes, base + cursor, offset); }
    TargetFits(!IsMemory(plan), item, bytes, base, base + cursor, offset);
    PlanRoundTrip(item, v, enc, bytes, base + offset, Child(plan, Element), !IsMemory(plan));
  }

  lemma {:induction false} PlanFields(types: seq<AbiType>, values: seq<Value>, headSize: nat, head: seq<Byte>,
                                      tail: seq<Byte>, full: seq<Byte>, bytes: seq<Byte>, base: nat,
                                      plans: seq<CalldataPlan>, memory: bool)
    requires EncodeValuesFrom(types, values, headSize, head, tail) == Some(full)
    requires |head| + HeadSize(types) == headSize && At(bytes, base, full) && |bytes| < SIGN_BIT
    requires Clear(bytes, base, !memory) && FieldCountsAreWords(types, values)
    ensures PlanDecodeFields(types, bytes, base, |head|, plans, memory)
            == FieldsAnswer(types, values, headSize + |tail|, plans, memory)
    decreases types, |values| + 1, 5
  {
    hide At, ReadNat, WordBytes, EncodeValue, CountsAreWords, IsDynamic, StaticSize, PlanDecodeField, StaticSizeList,
         FieldAnswer;
    if types != [] {
      var ty, v := types[0], values[0];
      var enc := EncodeValue(ty, v).value;
      var offset := headSize + |tail|;
      var plan := if plans == [] then DEFAULT_PLAN else plans[0];
      var plans' := if plans == [] then [] else plans[1..];
      AtBound(bytes, base, full);
      FieldStepAt(types, values, headSize, head, tail, full, enc, bytes, base);
      HeadSizeStep(types);
      if IsDynamic(ty) {
        PlanDynamicField(ty, v, enc, bytes, base, |head|, offset, plan, memory);
        PlanFields(types[1..], values[1..], headSize, head + WordBytes(offset), tail + enc, full, bytes, base, plans',
                memory);
      } else {
        PlanStaticField(ty, v, offset, enc, bytes, base, |head|, plan, memory);
        PlanFields(types[1..], values[1..], headSize, head + enc, tail, full, bytes, base, plans', memory);
      }
    }
  }

  lemma {:induction false} PlanStaticField(ty: AbiType, v: Value, offset: nat, enc: seq<Byte>, bytes: seq<Byte>,
                                           base: nat, cursor: nat, plan: CalldataPlan, memory: bool)
    requires !IsDynamic(ty) && EncodeValue(ty, v) == Some(enc) && At(bytes, base + cursor, enc)
    requires |bytes| < SIGN_BIT && CountsAreWords(ty, v)
    ensures PlanDecodeField(ty, bytes, base, cursor, plan, memory) == FieldAnswer(ty, v, offset, plan, memory)
    decreases ty, 1
  {
    hide CountsAreWords, PlanDecode, PlanAnswer, EncodeValue;
    PlanRoundTrip(ty, v, enc, bytes, base + cursor, plan, false);
  }

  lemma {:induction false} PlanDynamicField(ty: AbiType, v: Value, enc: seq<Byte>, bytes: seq<Byte>, base: nat,
                                            cursor: nat, offset: nat, plan: CalldataPlan, memory: bool)
    requires IsDynamic(ty) && EncodeValue(ty, v) == Some(enc) && At(bytes, base + offset, enc)
    requires ReadNat(bytes, base + cursor) == Some(offset) && 0 < offset
    requires |bytes| < SIGN_BIT && Clear(bytes, base, !memory) && CountsAreWords(ty, v)
    ensures PlanDecodeField(ty, bytes, base, cursor, plan, memory) == FieldAnswer(ty, v, offset, plan, memory)
    decreases ty, 1
  {
    hide At, ReadNat, EncodeValue, CountsAreWords, PlanDecode, PlanAnswer, TailTarget, TailSize;
    EncodedTail(ty, v, enc);
    AtBound(bytes, base + offset, enc);
    assert base + cursor + 32 <= |bytes| by { LoadNatAt(bytes, base + cursor, offset); }
    TargetFits(!memory, ty, bytes, base, base + cursor, offset);
    PlanRoundTrip(ty, v, enc, bytes, base + offset, plan, !memory);
  }
}
