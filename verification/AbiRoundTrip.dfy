/**
 Decoding an encoding.  For every type, encodable value and surrounding bytes the decoder returns the
 canonical form of the value and the exact end of its encoding, or rejects, and it does the former
 exactly when every length and offset written by the encoder is within the cap of the decoder's mode.
 */
module AbiRoundTrip {
  import opened Options
  import opened Words
  import opened Arith
  import opened AbiTypes
  import opened AbiEncode
  import opened AbiDecode

  /** The bytes of `part` stand in `bytes` at `start`. */
  predicate At(bytes: seq<Byte>, start: nat, part: seq<Byte>) {
    start + |part| <= |bytes| && bytes[start..start + |part|] == part
  }

  lemma {:induction false} AtPart(bytes: seq<Byte>, start: nat, whole: seq<Byte>, i: nat, part: seq<Byte>)
    requires At(bytes, start, whole) && At(whole, i, part)
    ensures At(bytes, start + i, part)
  {
    forall k | 0 <= k < |part|
      ensures bytes[start + i..start + i + |part|][k] == part[k]
    {
      assert part[k] == whole[i..i + |part|][k] == whole[i + k] == bytes[start..start + |whole|][i + k];
    }
  }

  lemma {:induction false} AtConcat(bytes: seq<Byte>, start: nat, a: seq<Byte>, b: seq<Byte>)
    requires At(bytes, start, a + b)
    ensures At(bytes, start, a) && At(bytes, start + |a|, b)
  {
    AtPart(bytes, start, a + b, 0, a);
    AtPart(bytes, start, a + b, |a|, b);
  }

  lemma {:induction false} ReadWordAt(bytes: seq<Byte>, start: nat, n: nat)
    requires At(bytes, start, WordBytes(n)) && n < WORD_MODULUS
    ensures ReadNat(bytes, start) == Some(n)
  {
    WordBytesToNat(n);
  }

  // ----- the canonical form of a value, and the caps -----

  /** What decoding returns: bools in dynamic arrays keep the word they were read from. */
  function Canon(ty: AbiType, v: Value): Value
    decreases ty, 0, 0
  {
    match ty
    case ArrayType(item, _) => if v.Array? then Array(CanonElems(item, v.elems)) else v
    case TupleType(items) => if v.Tuple? then Tuple(CanonFields(items, v.elems)) else v
    case DynamicArray(item) =>
      if !v.Array? then v
      else if item == Elem(BoolType) then Array(RawBools(v.elems))
      else Array(CanonElems(item, v.elems))
    case _ => v
  }

  function CanonElems(ty: AbiType, values: seq<Value>): (r: seq<Value>)
    ensures |r| == |values|
    decreases ty, |values|, 1
  {
    if values == [] then [] else [Canon(ty, values[0])] + CanonElems(ty, values[1..])
  }

  function CanonFields(types: seq<AbiType>, values: seq<Value>): seq<Value>
    decreases types, |values|, 1
  {
    if types == [] || values == [] then []
    else [Canon(types[0], values[0])] + CanonFields(types[1..], values[1..])
  }

  function RawBools(values: seq<Value>): (r: seq<Value>)
    ensures |r| == |values|
  {
    if values == [] then []
    else [RawWordValue(if values[0] == Bool(true) then 1 else 0)] + RawBools(values[1..])
  }

  function EncodedSize(ty: AbiType, v: Value): nat {
    var enc := EncodeValue(ty, v);
    if enc.Some? then |enc.value| else 0
  }

  /** The caps of a decoder: on lengths, and whether tuple offsets and array element offsets share it. */
  datatype Caps = Caps(maxLen: nat, capsFields: bool, capsElements: bool)

  function CapsOf(mode: DecodeMode): Caps {
    Caps(MaxLen(mode), true, mode.LegacySolc05?)
  }

  /** Every length and offset in the encoding of `v` is within the caps. */
  predicate WithinCaps(ty: AbiType, v: Value, caps: Caps)
    decreases ty, 0, 0
  {
    match ty
    case Elem(_) => true
    case ArrayType(item, _) => v.Array? && ElemsWithinCaps(item, v.elems, |v.elems| * 32, caps)
    case TupleType(items) => v.Tuple? && FieldsWithinCaps(items, v.elems, HeadSize(items), caps)
    case BytesType => v.Bytes? && |v.data| <= caps.maxLen
    case StringType => v.Bytes? && |v.data| <= caps.maxLen
    case DynamicArray(item) =>
      v.Array? && |v.elems| <= caps.maxLen && ElemsWithinCaps(item, v.elems, |v.elems| * 32, caps)
  }

  predicate ElemsWithinCaps(ty: AbiType, values: seq<Value>, offset: nat, caps: Caps)
    decreases ty, |values|, 1
  {
    values == [] ||
    (&& !(IsDynamic(ty) && caps.capsElements && caps.maxLen < offset)
     && WithinCaps(ty, values[0], caps)
     && ElemsWithinCaps(ty, values[1..], offset + EncodedSize(ty, values[0]), caps))
  }

  predicate FieldsWithinCaps(types: seq<AbiType>, values: seq<Value>, offset: nat, caps: Caps)
    decreases types, |values|, 1
  {
    types == [] || values == [] ||
    (&& !(IsDynamic(types[0]) && caps.capsFields && caps.maxLen < offset)
     && WithinCaps(types[0], values[0], caps)
     && FieldsWithinCaps(types[1..], values[1..],
                         if IsDynamic(types[0]) then offset + EncodedSize(types[0], values[0]) else offset, caps))
  }

  /** Every dynamic array has fewer than 2^256 elements, so that its length word is its length. */
  predicate CountsAreWords(ty: AbiType, v: Value)
    decreases ty, 0, 0
  {
    match ty
    case ArrayType(item, _) => v.Array? ==> ElemCountsAreWords(item, v.elems)
    case TupleType(items) => v.Tuple? ==> FieldCountsAreWords(items, v.elems)
    case DynamicArray(item) => v.Array? ==> |v.elems| < WORD_MODULUS && ElemCountsAreWords(item, v.elems)
    case _ => true
  }

  predicate ElemCountsAreWords(ty: AbiType, values: seq<Value>)
    decreases ty, |values|, 1
  {
    values == [] || (CountsAreWords(ty, values[0]) && ElemCountsAreWords(ty, values[1..]))
  }

  predicate FieldCountsAreWords(types: seq<AbiType>, values: seq<Value>)
    decreases types, |values|, 1
  {
    types == [] || values == [] ||
    (CountsAreWords(types[0], values[0]) && FieldCountsAreWords(types[1..], values[1..]))
  }

  // ----- sizes -----

  /** A static value's encoding has exactly the static size of its type. */
  lemma {:induction false} EncodedStaticSize(ty: AbiType, v: Value)
    requires EncodeValue(ty, v).Some? && !IsDynamic(ty)
    ensures StaticSize(ty) == Some(EncodedSize(ty, v))
    decreases ty, 0, 0
  {
    match ty
    case Elem(_) =>
    case ArrayType(item, n) => EncodedStaticElemsSize(item, v.elems);
    case TupleType(items) =>
      HeadSizeDefined(items);
      assert StaticSizeList(items, 0) == TupleHeadSize(items);
      EncodedFieldsShape(items, v.elems, HeadSize(items), [], []);
      StaticFieldsNoTail(items, v.elems, HeadSize(items), [], []);
  }

  lemma {:induction false} EncodedStaticElemsSize(ty: AbiType, values: seq<Value>)
    requires EncodeStaticElems(ty, values).Some? && !IsDynamic(ty)
    ensures StaticSize(ty).Some? && |EncodeStaticElems(ty, values).value| == |values| * StaticSize(ty).value
    decreases ty, |values|, 1
  {
    StaticSizeDefined(ty);
    if values != [] {
      EncodedStaticSize(ty, values[0]);
      EncodedStaticElemsSize(ty, values[1..]);
      MulStep(|values|, StaticSize(ty).value);
    }
  }

  /** The accumulated head and tail stand in the finished encoding at offsets 0 and `headSize`. */
  lemma {:induction false} EncodedFieldsShape(types: seq<AbiType>, values: seq<Value>, headSize: nat,
                                              head: seq<Byte>, tail: seq<Byte>)
    requires EncodeValuesFrom(types, values, headSize, head, tail).Some?
    requires |head| + HeadSize(types) == headSize
    ensures At(EncodeValuesFrom(types, values, headSize, head, tail).value, 0, head)
    ensures At(EncodeValuesFrom(types, values, headSize, head, tail).value, headSize, tail)
    decreases types, |values|, 1
  {
    if types != [] {
      HeadSizeStep(types);
      var encoded := EncodeValue(types[0], values[0]).value;
      var full := EncodeValuesFrom(types, values, headSize, head, tail).value;
      var word := WordBytes(headSize + |tail|);
      if IsDynamic(types[0]) {
        EncodedFieldsShape(types[1..], values[1..], headSize, head + word, tail + encoded);
        AtConcat(full, 0, head, word);
        AtConcat(full, headSize, tail, encoded);
      } else {
        EncodedStaticSize(types[0], values[0]);
        EncodedFieldsShape(types[1..], values[1..], headSize, head + encoded, tail);
        AtConcat(full, 0, head, encoded);
      }
    }
  }

  lemma {:induction false} StaticFieldsNoTail(types: seq<AbiType>, values: seq<Value>, headSize: nat,
                                              head: seq<Byte>, tail: seq<Byte>)
    requires EncodeValuesFrom(types, values, headSize, head, tail).Some? && !AnyDynamic(types)
    requires |head| + HeadSize(types) == headSize
    ensures |EncodeValuesFrom(types, values, headSize, head, tail).value| == headSize + |tail|
    decreases types, |values|, 1
  {
    if types != [] {
      HeadSizeStep(types);
      EncodedStaticSize(types[0], values[0]);
      StaticFieldsNoTail(types[1..], values[1..], headSize, head + EncodeValue(types[0], values[0]).value, tail);
    }
  }

  lemma {:induction false} EncodedElemsShape(ty: AbiType, values: seq<Value>, headSize: nat,
                                             head: seq<Byte>, tail: seq<Byte>)
    requires EncodeDynamicElemsFrom(ty, values, headSize, head, tail).Some?
    requires |head| + 32 * |values| == headSize
    ensures At(EncodeDynamicElemsFrom(ty, values, headSize, head, tail).value, 0, head)
    ensures At(EncodeDynamicElemsFrom(ty, values, headSize, head, tail).value, headSize, tail)
    decreases |values|
  {
    if values != [] {
      var encoded := EncodeValue(ty, values[0]).value;
      var full := EncodeDynamicElemsFrom(ty, values, headSize, head, tail).value;
      var word := WordBytes(headSize + |tail|);
      EncodedElemsShape(ty, values[1..], headSize, head + word, tail + encoded);
      AtConcat(full, 0, head, word);
      AtConcat(full, headSize, tail, encoded);
    }
  }

  // ----- the round trip -----

  /** The decoder's answer on an encoding: the canonical values if everything is within the caps. */
  function Answer<T>(fits: bool, value: T, end: nat): Option<(T, nat)> {
    if fits then Some((value, end)) else None
  }

  lemma {:induction false} BytesOfValues(values: seq<Value>)
    requires ValuesToBytes(values).Some?
    ensures BytesToValues(ValuesToBytes(values).value) == values
  {
    if values != [] {
      BytesOfValues(values[1..]);
      var rest := ValuesToBytes(values[1..]).value;
      assert BytesToValues([values[0].i] + rest) == [values[0]] + BytesToValues(rest);
    }
  }

  lemma {:induction false} Pow2Complement(bits: BitWidth)
    ensures Pow2(bits) * Pow2(WORD_BITS - bits) == WORD_MODULUS && Pow2(bits) <= WORD_MODULUS
  {
    WordSizes();
    Pow2Add(bits, WORD_BITS - bits);
    Pow2Monotone(bits, WORD_BITS);
  }

  lemma {:induction false} SignedWord(bits: BitWidth, i: int)
    requires -(Pow2(bits - 1) as int) <= i < Pow2(bits - 1)
    ensures Pow2(bits - 1) <= SIGN_BIT && Pow2(bits) == 2 * Pow2(bits - 1)
    ensures WordOfInt(i) == if i >= 0 then i else i + WORD_MODULUS
  {
    WordSizes();
    Pow2Monotone(bits - 1, WORD_BITS - 1);
  }

  /** Sign extension at the declared width recovers a signed value from its word. */
  lemma {:induction false} NormalizeSigned(bits: BitWidth, i: int)
    requires -(Pow2(bits - 1) as int) <= i < Pow2(bits - 1)
    ensures NormalizeInt(SInt(bits), WordOfInt(i)) == i
  {
    var m, k := Pow2(bits), Pow2(WORD_BITS - bits);
    SignedWord(bits, i);
    if i < 0 {
      Pow2Complement(bits);
      ModShift(i, k, m);
      DivMod(i, m, -1, i + m);
    } else {
      DivMod(i, m, 0, i);
    }
  }

  lemma {:induction false} RoundTripSigned(bits: BitWidth, i: int, mode: DecodeMode)
    requires -(Pow2(bits - 1) as int) <= i < Pow2(bits - 1)
    ensures DecodeWord(IntElem(SInt(bits)), WordOfInt(i), mode) == Some(Int(i))
  {
    if mode.LegacySolc05? {
      NormalizeSigned(bits, i);
    } else {
      SignedWord(bits, i);
    }
  }

  lemma {:induction false} RoundTripUnsigned(bits: BitWidth, i: int, mode: DecodeMode)
    requires 0 <= i < Pow2(bits)
    ensures i < WORD_MODULUS && DecodeWord(IntElem(UInt(bits)), i, mode) == Some(Int(i))
  {
    Pow2Complement(bits);
    DivMod(i, Pow2(bits), 0, i);
  }

  lemma {:induction false} RoundTripWord(e: ElemType, v: Value, mode: DecodeMode)
    requires EncodeWord(e, v).Some?
    ensures DecodeWord(e, EncodeWord(e, v).value, mode) == Some(v)
  {
    match e
    case IntElem(UInt(bits)) => RoundTripUnsigned(bits, v.i, mode);
    case IntElem(SInt(bits)) => RoundTripSigned(bits, v.i, mode);
    case _ =>
  }

  lemma {:induction false} RoundTripElem(e: ElemType, v: Value, bytes: seq<Byte>, start: nat, mode: DecodeMode)
    requires EncodeElem(e, v).Some? && At(bytes, start, EncodeElem(e, v).value)
    ensures DecodeElem(e, bytes, start, mode) == Some((v, start + 32))
    ensures |EncodeElem(e, v).value| == 32
  {
    var enc := EncodeElem(e, v).value;
    assert ReadBytes(bytes, start, 32) == Some(enc);
    match e
    case BytesElem(n) =>
      assert enc[..n + 1] == v.data && enc[n + 1..] == Zeros(32 - (n + 1));
    case FunctionType =>
      BytesOfValues(v.elems);
      var data := ValuesToBytes(v.elems).value;
      assert enc[..24] == data && enc[24..] == Zeros(8);
    case FixedElem(_) =>
    case _ =>
      RoundTripWord(e, v, mode);
      WordBytesToNat(EncodeWord(e, v).value);
  }

  lemma {:induction false} RoundTripBytes(v: Value, bytes: seq<Byte>, start: nat, mode: DecodeMode)
    requires v.Bytes? && |v.data| < WORD_MODULUS
    requires At(bytes, start, WordBytes(|v.data|) + PadRightToWord(v.data))
    ensures DecodeBytes(bytes, start, mode) ==
            Answer(|v.data| <= MaxLen(mode), v, start + 32 + PaddedSize(|v.data|))
  {
    AtConcat(bytes, start, WordBytes(|v.data|), PadRightToWord(v.data));
    AtConcat(bytes, start + 32, v.data, Zeros(PaddedSize(|v.data|) - |v.data|));
    ReadWordAt(bytes, start, |v.data|);
  }

  /**
   The round trip.  Decoding at the start of an encoding, whatever stands around it, returns the
   canonical value and the exact end exactly when all lengths and offsets are within the mode's caps,
   and rejects otherwise.
   */
  lemma {:induction false} RoundTripValue(ty: AbiType, v: Value, enc: seq<Byte>, bytes: seq<Byte>, start: nat,
                                          mode: DecodeMode)
    requires EncodeValue(ty, v) == Some(enc) && At(bytes, start, enc)
    requires start + |enc| < WORD_MODULUS && CountsAreWords(ty, v)
    ensures DecodeValue(ty, bytes, start, mode) == Answer(WithinCaps(ty, v, CapsOf(mode)), Canon(ty, v), start + |enc|)
    decreases ty, 0, 0
  {
    hide At, EncodeElem, DecodeElem, EncodeArrayElems, DecodeArrayElems, EncodeValuesFrom, DecodeValues, CanonElems,
         CanonFields, ElemsWithinCaps, FieldsWithinCaps, ElemCountsAreWords, FieldCountsAreWords, DecodeBytes,
         WordBytes;
    match ty
    case Elem(e) => RoundTripElem(e, v, bytes, start, mode);
    case ArrayType(item, n) => RoundTripArrayElems(item, v.elems, enc, bytes, start, mode);
    case TupleType(items) => RoundTripFields(items, v.elems, HeadSize(items), [], [], enc, bytes, start, mode);
    case BytesType => RoundTripBytes(v, bytes, start, mode);
    case StringType => RoundTripBytes(v, bytes, start, mode);
    case DynamicArray(item) => RoundTripDynamicArray(item, v.elems, EncodeArrayElems(item, v.elems).value, bytes,
            start, mode);
  }

  lemma {:induction false} RoundTripDynamicArray(item: AbiType, elems: seq<Value>, enc: seq<Byte>, bytes: seq<Byte>,
                                                 start: nat, mode: DecodeMode)
    requires EncodeArrayElems(item, elems) == Some(enc) && At(bytes, start, WordBytes(|elems|) + enc)
    requires start + 32 + |enc| < WORD_MODULUS && |elems| < WORD_MODULUS && ElemCountsAreWords(item, elems)
    ensures DecodeValue(DynamicArray(item), bytes, start, mode) ==
            Answer(WithinCaps(DynamicArray(item), Array(elems), CapsOf(mode)), Canon(DynamicArray(item), Array(elems)),
                   start + 32 + |enc|)
    decreases item, |elems| + 1, 7
  {
    hide DecodeArrayElems, CanonElems, ElemsWithinCaps, WordBytes, At, ElemCountsAreWords;
    AtConcat(bytes, start, WordBytes(|elems|), enc);
    ReadWordAt(bytes, start, |elems|);
    if item == Elem(BoolType) {
      RoundTripRawBools(elems, bytes, start + 32);
      ElemsAlwaysWithinCaps(item, elems, |elems| * 32, CapsOf(mode));
    } else if mode.Solc0815? && item == Elem(AddressType) {
      RoundTripAddresses(elems, bytes, start + 32);
      ElemsAlwaysWithinCaps(item, elems, |elems| * 32, CapsOf(mode));
    } else {
      RoundTripArrayElems(item, elems, enc, bytes, start + 32, mode);
    }
  }

  lemma {:induction false} ElemsAlwaysWithinCaps(ty: AbiType, values: seq<Value>, offset: nat, caps: Caps)
    requires ty.Elem?
    ensures ElemsWithinCaps(ty, values, offset, caps)
    decreases |values|
  {
    if values != [] {
      ElemsAlwaysWithinCaps(ty, values[1..], offset + EncodedSize(ty, values[0]), caps);
    }
  }

  lemma {:induction false} RoundTripRawBools(values: seq<Value>, bytes: seq<Byte>, start: nat)
    requires EncodeStaticElems(Elem(BoolType), values).Some?
    requires At(bytes, start, EncodeStaticElems(Elem(BoolType), values).value)
    ensures DecodeRawBools(|values|, bytes, start) ==
            Some((RawBools(values), start + |EncodeStaticElems(Elem(BoolType), values).value|))
  {
    hide At, WordBytes, ReadNat;
    if values != [] {
      var v := values[0];
      var enc := EncodeValue(Elem(BoolType), v).value;
      AtConcat(bytes, start, enc, EncodeStaticElems(Elem(BoolType), values[1..]).value);
      assert enc == WordBytes(if v == Bool(true) then 1 else 0);
      ReadWordAt(bytes, start, if v == Bool(true) then 1 else 0);
      RoundTripRawBools(values[1..], bytes, start + 32);
    }
  }

  lemma {:induction false} RoundTripAddresses(values: seq<Value>, bytes: seq<Byte>, start: nat)
    requires EncodeStaticElems(Elem(AddressType), values).Some?
    requires At(bytes, start, EncodeStaticElems(Elem(AddressType), values).value)
    ensures DecodeAddresses(|values|, bytes, start) ==
            Some((CanonElems(Elem(AddressType), values),
                  start + |EncodeStaticElems(Elem(AddressType), values).value|))
  {
    if values != [] {
      var v := values[0];
      AtConcat(bytes, start, WordBytes(v.a), EncodeStaticElems(Elem(AddressType), values[1..]).value);
      ReadWordAt(bytes, start, v.a);
      RoundTripAddresses(values[1..], bytes, start + 32);
    }
  }

  lemma {:induction false} RoundTripArrayElems(ty: AbiType, values: seq<Value>, enc: seq<Byte>, bytes: seq<Byte>,
                                               start: nat, mode: DecodeMode)
    requires EncodeArrayElems(ty, values) == Some(enc) && At(bytes, start, enc) && start + |enc| < WORD_MODULUS
    requires ElemCountsAreWords(ty, values)
    ensures DecodeArrayElems(ty, |values|, bytes, start, mode) ==
            Answer(ElemsWithinCaps(ty, values, |values| * 32, CapsOf(mode)), CanonElems(ty, values), start + |enc|)
    decreases ty, |values| + 1, 6
  {
    hide At, DecodeStaticElems, DecodeDynamicElemsFrom, EncodeStaticElems, EncodeDynamicElemsFrom, ElemsWithinCaps,
         CanonElems, ElemCountsAreWords, IsDynamic;
    if IsDynamic(ty) {
      RoundTripDynamicElems(ty, values, |values| * 32, [], [], enc, bytes, start, mode);
    } else {
      StaticSizeDefined(ty);
      RoundTripStaticElems(ty, values, |values| * 32, enc, bytes, start, mode);
    }
  }

  lemma {:induction false} RoundTripStaticElems(ty: AbiType, values: seq<Value>, offset: nat, enc: seq<Byte>,
                                                bytes: seq<Byte>, start: nat, mode: DecodeMode)
    requires !IsDynamic(ty) && StaticSize(ty).Some?
    requires EncodeStaticElems(ty, values) == Some(enc) && At(bytes, start, enc) && start + |enc| < WORD_MODULUS
    requires ElemCountsAreWords(ty, values)
    ensures DecodeStaticElems(ty, |values|, StaticSize(ty).value, bytes, start, mode) ==
            Answer(ElemsWithinCaps(ty, values, offset, CapsOf(mode)), CanonElems(ty, values), start + |enc|)
    decreases ty, |values| + 1, 5
  {
    hide At, DecodeValue, EncodeValue, Canon, WithinCaps, CountsAreWords, IsDynamic, StaticSize;
    if values != [] {
      var first, rest := EncodeValue(ty, values[0]).value, EncodeStaticElems(ty, values[1..]).value;
      EncodedStaticSize(ty, values[0]);
      AtConcat(bytes, start, first, rest);
      RoundTripValue(ty, values[0], first, bytes, start, mode);
      RoundTripStaticElems(ty, values[1..], offset + |first|, rest, bytes, start + |first|, mode);
    }
  }

  /** The pair an encoder step appends to the head and the tail, located in the surrounding bytes. */
  lemma {:induction false} StepAt(bytes: seq<Byte>, base: nat, full: seq<Byte>, headSize: nat,
               head: seq<Byte>, word: seq<Byte>, tail: seq<Byte>, enc: seq<Byte>)
    requires At(bytes, base, full) && At(full, 0, head + word) && At(full, headSize, tail + enc)
    ensures At(bytes, base + |head|, word) && At(bytes, base + headSize + |tail|, enc)
    ensures headSize + |tail| + |enc| <= |full|
  {
    AtConcat(full, 0, head, word);
    AtConcat(full, headSize, tail, enc);
    AtPart(bytes, base, full, |head|, word);
    AtPart(bytes, base, full, headSize + |tail|, enc);
  }

  /** One step of the element decoder, once its offset word and its element are known. */
  lemma {:induction false} DecodeElemStep(ty: AbiType, values: seq<Value>, bytes: seq<Byte>, base: nat, cursor: nat,
          offset: nat,
                       mode: DecodeMode, end: nat)
    requires values != [] && IsDynamic(ty) && base + offset < WORD_MODULUS
    requires ReadNat(bytes, base + cursor) == Some(offset)
    requires DecodeValue(ty, bytes, base + offset, mode) ==
             Answer(WithinCaps(ty, values[0], CapsOf(mode)), Canon(ty, values[0]), base + offset + EncodedSize(ty,
                     values[0]))
    requires DecodeDynamicElemsFrom(ty, |values| - 1, bytes, base, cursor + 32,
                                    base + offset + EncodedSize(ty, values[0]), mode) ==
             Answer(ElemsWithinCaps(ty, values[1..], offset + EncodedSize(ty, values[0]), CapsOf(mode)),
                    CanonElems(ty, values[1..]), end)
    ensures DecodeDynamicElemsFrom(ty, |values|, bytes, base, cursor, base + offset, mode) ==
            Answer(ElemsWithinCaps(ty, values, offset, CapsOf(mode)), CanonElems(ty, values), end)
  {
    hide DecodeValue, EncodeValue, Canon, WithinCaps, IsDynamic, StaticSize;
  }

  /** Where an encoder step for a dynamic component leaves its offset word and its encoding. */
  lemma {:induction false} ElemStepAt(ty: AbiType, values: seq<Value>, headSize: nat, head: seq<Byte>, tail: seq<Byte>,
                   full: seq<Byte>, enc: seq<Byte>, bytes: seq<Byte>, base: nat)
    requires values != [] && EncodeValue(ty, values[0]) == Some(enc)
    requires EncodeDynamicElemsFrom(ty, values, headSize, head, tail) == Some(full)
    requires |head| + 32 * |values| == headSize && At(bytes, base, full) && base + |full| < WORD_MODULUS
    ensures ReadNat(bytes, base + |head|) == Some(headSize + |tail|) && At(bytes, base + headSize + |tail|, enc)
    ensures headSize + |tail| + |enc| <= |full|
    ensures EncodeDynamicElemsFrom(ty, values[1..], headSize, head + WordBytes(headSize + |tail|),
            tail + enc) == Some(full)
  {
    hide EncodeValue, WordBytes, ReadNat;
    var word := WordBytes(headSize + |tail|);
    EncodedElemsShape(ty, values[1..], headSize, head + word, tail + enc);
    StepAt(bytes, base, full, headSize, head, word, tail, enc);
    ReadWordAt(bytes, base + |head|, headSize + |tail|);
  }

  lemma {:induction false} RoundTripDynamicElems(ty: AbiType, values: seq<Value>, headSize: nat,
                                                 head: seq<Byte>, tail: seq<Byte>, full: seq<Byte>,
                                                 bytes: seq<Byte>, base: nat, mode: DecodeMode)
    requires IsDynamic(ty) && EncodeDynamicElemsFrom(ty, values, headSize, head, tail) == Some(full)
    requires |head| + 32 * |values| == headSize && At(bytes, base, full) && base + |full| < WORD_MODULUS
    requires ElemCountsAreWords(ty, values)
    ensures DecodeDynamicElemsFrom(ty, |values|, bytes, base, |head|, base + headSize + |tail|, mode) ==
            Answer(ElemsWithinCaps(ty, values, headSize + |tail|, CapsOf(mode)), CanonElems(ty, values), base + |full|)
    decreases ty, |values| + 1, 5
  {
    hide At, ReadNat, WordBytes, ElementTarget, DecodeValue, EncodeValue, Canon, WithinCaps, CountsAreWords,
         IsDynamic, StaticSize;
    if values != [] {
      var enc := EncodeValue(ty, values[0]).value;
      var offset := headSize + |tail|;
      ElemStepAt(ty, values, headSize, head, tail, full, enc, bytes, base);
      RoundTripValue(ty, values[0], enc, bytes, base + offset, mode);
      RoundTripDynamicElems(ty, values[1..], headSize, head + WordBytes(offset), tail + enc, full, bytes, base, mode);
      DecodeElemStep(ty, values, bytes, base, |head|, offset, mode, base + |full|);
    }
  }

  /** One step of the field decoder, once the field it reads is known. */
  lemma {:induction false} DecodeFieldStep(types: seq<AbiType>, values: seq<Value>, bytes: seq<Byte>, base: nat,
          cursor: nat,
                        offset: nat, target: nat, mode: DecodeMode, end: nat)
    requires types != [] && values != [] && cursor + Stride(types[0]) <= offset
    requires IsDynamic(types[0]) ==> target == offset && ReadNat(bytes, base + cursor) == Some(offset)
    requires !IsDynamic(types[0]) ==> target == cursor && Stride(types[0]) == EncodedSize(types[0], values[0])
    requires DecodeValue(types[0], bytes, base + target, mode) ==
             Answer(WithinCaps(types[0], values[0], CapsOf(mode)), Canon(types[0], values[0]),
                    base + target + EncodedSize(types[0], values[0]))
    requires var offset' := if IsDynamic(types[0]) then offset + EncodedSize(types[0], values[0]) else offset;
             DecodeValues(types[1..], bytes, base, cursor + Stride(types[0]), base + offset', mode) ==
             Answer(FieldsWithinCaps(types[1..], values[1..], offset', CapsOf(mode)), CanonFields(types[1..],
                     values[1..]), end)
    ensures DecodeValues(types, bytes, base, cursor, base + offset, mode) ==
            Answer(FieldsWithinCaps(types, values, offset, CapsOf(mode)), CanonFields(types, values), end)
  {
    hide DecodeValue, EncodeValue, Canon, WithinCaps, IsDynamic, StaticSize;
  }

  lemma {:induction false} FieldStepAt(types: seq<AbiType>, values: seq<Value>, headSize: nat, head: seq<Byte>,
          tail: seq<Byte>,
                    full: seq<Byte>, enc: seq<Byte>, bytes: seq<Byte>, base: nat)
    requires types != [] && values != [] && EncodeValue(types[0], values[0]) == Some(enc)
    requires EncodeValuesFrom(types, values, headSize, head, tail) == Some(full)
    requires |head| + HeadSize(types) == headSize && At(bytes, base, full) && base + |full| < WORD_MODULUS
    ensures IsDynamic(types[0]) ==>
              && ReadNat(bytes, base + |head|) == Some(headSize + |tail|) && At(bytes, base + headSize + |tail|, enc)
              && headSize + |tail| + |enc| <= |full|
    ensures !IsDynamic(types[0]) ==> At(bytes, base + |head|, enc) && |head| + |enc| <= |full| && |enc| == Stride(types[0])
  {
    hide EncodeValue, IsDynamic, StaticSize;
    HeadSizeStep(types);
    if IsDynamic(types[0]) {
      var word := WordBytes(headSize + |tail|);
      EncodedFieldsShape(types[1..], values[1..], headSize, head + word, tail + enc);
      StepAt(bytes, base, full, headSize, head, word, tail, enc);
      ReadWordAt(bytes, base + |head|, headSize + |tail|);
    } else {
      EncodedStaticSize(types[0], values[0]);
      EncodedFieldsShape(types[1..], values[1..], headSize, head + enc, tail);
      AtConcat(full, 0, head, enc);
      AtPart(bytes, base, full, |head|, enc);
    }
  }

  lemma {:induction false} RoundTripNoFields(values: seq<Value>, headSize: nat, head: seq<Byte>, tail: seq<Byte>,
                                             full: seq<Byte>, bytes: seq<Byte>, base: nat, mode: DecodeMode)
    requires EncodeValuesFrom([], values, headSize, head, tail) == Some(full) && |head| + HeadSize([]) == headSize
    ensures DecodeValues([], bytes, base, |head|, base + headSize + |tail|, mode) == Some(([], base + |full|))
    ensures FieldsWithinCaps([], values, headSize + |tail|, CapsOf(mode)) && CanonFields([], values) == []
  {
  }

  lemma {:induction false} RoundTripFields(types: seq<AbiType>, values: seq<Value>, headSize: nat,
                                           head: seq<Byte>, tail: seq<Byte>, full: seq<Byte>,
                                           bytes: seq<Byte>, base: nat, mode: DecodeMode)
    requires EncodeValuesFrom(types, values, headSize, head, tail) == Some(full)
    requires |head| + HeadSize(types) == headSize && At(bytes, base, full) && base + |full| < WORD_MODULUS
    requires FieldCountsAreWords(types, values)
    ensures DecodeValues(types, bytes, base, |head|, base + headSize + |tail|, mode) ==
            Answer(FieldsWithinCaps(types, values, headSize + |tail|, CapsOf(mode)), CanonFields(types, values),
                    base + |full|)
    decreases types, |values| + 1, 5
  {
    hide At, ReadNat, WordBytes, EncodeValue, DecodeValue, DecodeValues, Canon, CanonFields, WithinCaps,
         FieldsWithinCaps, CountsAreWords, IsDynamic, StaticSize, StaticSizeList;
    if types == [] {
      RoundTripNoFields(values, headSize, head, tail, full, bytes, base, mode);
    } else {
      var enc := EncodeValue(types[0], values[0]).value;
      var offset := headSize + |tail|;
      FieldStepAt(types, values, headSize, head, tail, full, enc, bytes, base);
      HeadSizeStep(types);
      if IsDynamic(types[0]) {
        RoundTripValue(types[0], values[0], enc, bytes, base + offset, mode);
        RoundTripFields(types[1..], values[1..], headSize, head + WordBytes(offset), tail + enc, full, bytes, base,
                mode);
        DecodeFieldStep(types, values, bytes, base, |head|, offset, offset, mode, base + |full|);
      } else {
        RoundTripValue(types[0], values[0], enc, bytes, base + |head|, mode);
        RoundTripFields(types[1..], values[1..], headSize, head + enc, tail, full, bytes, base, mode);
        DecodeFieldStep(types, values, bytes, base, |head|, offset, |head|, mode, base + |full|);
      }
    }
  }
}
