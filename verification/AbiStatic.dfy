/**
 Static encodings are canonical: when a validating decoder reads a value of a static type, encoding
 that value gives back exactly the bytes it was read from.
 */
module AbiStatic {
  import opened Options
  import opened Words
  import opened AbiTypes
  import opened AbiEncode
  import opened AbiDecode
  import opened AbiRoundTrip

  /** `part` stands at `start`; nothing is asked of an empty part, which may lie beyond the end. */
  predicate Stands(bytes: seq<Byte>, start: nat, part: seq<Byte>) {
    part == [] || At(bytes, start, part)
  }

  lemma {:induction false} StandsConcat(bytes: seq<Byte>, start: nat, a: seq<Byte>, b: seq<Byte>)
    requires Stands(bytes, start, a) && Stands(bytes, start + |a|, b)
    ensures Stands(bytes, start, a + b)
  {
    if a == [] {
      assert a + b == b;
    } else if b == [] {
      assert a + b == a;
    } else {
      var r := bytes[start..start + |a| + |b|];
      assert r == bytes[start..start + |a|] + bytes[start + |a|..start + |a| + |b|];
    }
  }

  lemma {:induction false} WordIsCanonical(word: seq<Byte>)
    requires |word| == 32
    ensures BytesToNat(word) < WORD_MODULUS && WordBytes(BytesToNat(word)) == word
  {
    WordSizes();
    BytesToNatBound(word);
    BytesToNatToBytes(word);
  }

  lemma {:induction false} ValuesOfBytes(bytes: seq<Byte>)
    ensures ValuesToBytes(BytesToValues(bytes)) == Some(bytes)
  {
    if bytes != [] {
      assert BytesToValues(bytes)[1..] == BytesToValues(bytes[1..]);
      ValuesOfBytes(bytes[1..]);
      assert [bytes[0]] + bytes[1..] == bytes;
    }
  }

  lemma {:induction false} ZeroSuffix(word: seq<Byte>, k: nat)
    requires k <= |word| && AllZero(word[k..])
    ensures word[..k] + Zeros(|word| - k) == word
  {
    assert forall i :: k <= i < |word| ==> word[i] in word[k..];
  }

  /** A validated word is the word its value is encoded to. */
  lemma {:induction false} DecodedWordEncodes(e: ElemType, n: nat, mode: DecodeMode)
    requires n < WORD_MODULUS && !mode.LegacySolc05? && DecodeWord(e, n, mode).Some?
    ensures EncodeWord(e, DecodeWord(e, n, mode).value) == Some(n)
  {
    match e
    case IntElem(SInt(bits)) =>
      WordSizes();
      Pow2Monotone(bits - 1, WORD_BITS - 1);
    case _ =>
  }

  lemma {:induction false} DecodedElemEncodes(e: ElemType, bytes: seq<Byte>, start: nat, mode: DecodeMode)
    requires !mode.LegacySolc05? && DecodeElem(e, bytes, start, mode).Some?
    ensures start + 32 <= |bytes|
    ensures DecodeElem(e, bytes, start, mode).value.1 == start + 32
    ensures EncodeElem(e, DecodeElem(e, bytes, start, mode).value.0) == Some(bytes[start..start + 32])
  {
    var word := bytes[start..start + 32];
    WordIsCanonical(word);
    match e
    case BytesElem(n) =>
      ZeroSuffix(word, n + 1);
    case FunctionType =>
      ValuesOfBytes(word[..24]);
      ZeroSuffix(word, 24);
    case FixedElem(_) =>
    case _ =>
      DecodedWordEncodes(e, BytesToNat(word), mode);
  }

  /** The value read at `start` is encodable, and its encoding is what stands there. */
  predicate ReadsBack(ty: AbiType, bytes: seq<Byte>, start: nat, v: Value, end: nat) {
    var enc := EncodeValue(ty, v);
    enc.Some? && end == start + |enc.value| && Stands(bytes, start, enc.value)
  }

  /** Decoding a static type is the inverse of encoding: the bytes read are the value's encoding. */
  lemma {:induction false} StaticCanonical(ty: AbiType, bytes: seq<Byte>, start: nat, mode: DecodeMode)
    requires !IsDynamic(ty) && !mode.LegacySolc05? && DecodeValue(ty, bytes, start, mode).Some?
    ensures var (v, end) := DecodeValue(ty, bytes, start, mode).value;
            ReadsBack(ty, bytes, start, v, end)
    decreases ty, 0, 0
  {
    hide At, DecodeElem, EncodeElem, DecodeStaticElems, EncodeStaticElems, EncodeValuesFrom, DecodeValues;
    match ty
    case Elem(e) =>
      DecodedElemEncodes(e, bytes, start, mode);
      assert At(bytes, start, bytes[start..start + 32]) by { AtSlice(bytes, start); }
    case ArrayType(item, n) =>
      StaticSizeDefined(item);
      StaticElemsCanonical(item, n, StaticSize(item).value, bytes, start, mode);
      var values := DecodeArrayElems(item, n, bytes, start, mode).value.0;
      assert EncodeValue(ty, Array(values)) == EncodeArrayElems(item, values) == EncodeStaticElems(item, values);
    case TupleType(items) =>
      StaticFieldsCanonical(items, HeadSize(items), [], bytes, start, start + HeadSize(items), mode);
      var values := DecodeValues(items, bytes, start, 0, start + HeadSize(items), mode).value.0;
      assert EncodeValue(ty, Tuple(values)) == EncodeValuesFrom(items, values, HeadSize(items), [], []);
  }

  lemma {:induction false} AtSlice(bytes: seq<Byte>, start: nat)
    requires start + 32 <= |bytes|
    ensures At(bytes, start, bytes[start..start + 32])
  {
  }

  lemma {:induction false} StaticElemsCanonical(ty: AbiType, n: nat, elemSize: nat, bytes: seq<Byte>, start: nat,
                                                mode: DecodeMode)
    requires !IsDynamic(ty) && !mode.LegacySolc05? && DecodeStaticElems(ty, n, elemSize, bytes, start, mode).Some?
    ensures var (values, end) := DecodeStaticElems(ty, n, elemSize, bytes, start, mode).value;
            var enc := EncodeStaticElems(ty, values);
            |values| == n && enc.Some? && end == start + |enc.value| && Stands(bytes, start, enc.value)
    decreases ty, n + 1, 1
  {
    hide At, DecodeValue, EncodeValue, Stands;
    if n > 0 {
      StaticCanonical(ty, bytes, start, mode);
      var (v, end) := DecodeValue(ty, bytes, start, mode).value;
      StaticElemsCanonical(ty, n - 1, elemSize, bytes, end, mode);
      var (rest, _) := DecodeStaticElems(ty, n - 1, elemSize, bytes, end, mode).value;
      assert ([v] + rest)[1..] == rest;
      StandsConcat(bytes, start, EncodeValue(ty, v).value, EncodeStaticElems(ty, rest).value);
    } else {
      assert Stands(bytes, start, []) by { EmptyStands(bytes, start); }
    }
  }

  lemma {:induction false} EmptyStands(bytes: seq<Byte>, start: nat)
    ensures Stands(bytes, start, [])
  {
  }

  lemma {:induction false} StaticFieldsCanonical(types: seq<AbiType>, headSize: nat, head: seq<Byte>, bytes: seq<Byte>,
                                                 base: nat, maxEnd: nat, mode: DecodeMode)
    requires !AnyDynamic(types) && !mode.LegacySolc05? && DecodeValues(types, bytes, base, |head|, maxEnd, mode).Some?
    requires |head| + HeadSize(types) == headSize && maxEnd == base + headSize && Stands(bytes, base, head)
    ensures var (values, end) := DecodeValues(types, bytes, base, |head|, maxEnd, mode).value;
            var enc := EncodeValuesFrom(types, values, headSize, head, []);
            && |values| == |types| && end == maxEnd
            && enc.Some? && |enc.value| == headSize && Stands(bytes, base, enc.value)
    decreases types, 0, 0
  {
    hide At, DecodeValue, EncodeValue, Stands, StaticSize;
    if types != [] {
      HeadSizeStep(types);
      StaticCanonical(types[0], bytes, base + |head|, mode);
      var (v, end) := DecodeValue(types[0], bytes, base + |head|, mode).value;
      var enc := EncodeValue(types[0], v).value;
      StandsConcat(bytes, base, head, enc);
      StaticFieldsCanonical(types[1..], headSize, head + enc, bytes, base, maxEnd, mode);
      var (rest, _) := DecodeValues(types[1..], bytes, base, |head + enc|, maxEnd, mode).value;
      assert ([v] + rest)[1..] == rest;
    } else {
      assert head + [] == head;
    }
  }

  /** Static values are their own canonical form and carry no length or offset. */
  lemma {:induction false} StaticTransparent(ty: AbiType, v: Value, caps: Caps)
    requires !IsDynamic(ty) && EncodeValue(ty, v).Some?
    ensures Canon(ty, v) == v && WithinCaps(ty, v, caps) && CountsAreWords(ty, v)
    decreases ty, 0, 0
  {
    hide EncodeElem, EncodeStaticElems, EncodeValuesFrom, CanonElems, CanonFields, ElemsWithinCaps, FieldsWithinCaps;
    match ty
    case Elem(_) =>
    case ArrayType(item, n) =>
      assert EncodeValue(ty, v) == EncodeArrayElems(item, v.elems) == EncodeStaticElems(item, v.elems);
      StaticElemsTransparent(item, v.elems, |v.elems| * 32, caps);
    case TupleType(items) =>
      assert EncodeValue(ty, v) == EncodeValuesFrom(items, v.elems, HeadSize(items), [], []);
      StaticFieldsTransparent(items, v.elems, HeadSize(items), [], HeadSize(items), caps);
  }

  lemma {:induction false} StaticElemsTransparent(ty: AbiType, values: seq<Value>, offset: nat, caps: Caps)
    requires !IsDynamic(ty) && EncodeStaticElems(ty, values).Some?
    ensures CanonElems(ty, values) == values && ElemsWithinCaps(ty, values, offset, caps)
    ensures ElemCountsAreWords(ty, values)
    decreases ty, |values|, 1
  {
    hide EncodeValue, Canon, WithinCaps, CountsAreWords;
    if values != [] {
      StaticTransparent(ty, values[0], caps);
      StaticElemsTransparent(ty, values[1..], offset + EncodedSize(ty, values[0]), caps);
    }
  }

  lemma {:induction false} StaticFieldsTransparent(types: seq<AbiType>, values: seq<Value>, headSize: nat,
                                                   head: seq<Byte>, offset: nat, caps: Caps)
    requires !AnyDynamic(types) && EncodeValuesFrom(types, values, headSize, head, []).Some?
    ensures CanonFields(types, values) == values && FieldsWithinCaps(types, values, offset, caps)
    ensures FieldCountsAreWords(types, values)
    decreases types, |values|, 1
  {
    hide EncodeValue, Canon, WithinCaps, CountsAreWords;
    if types != [] {
      StaticTransparent(types[0], values[0], caps);
      StaticFieldsTransparent(types[1..], values[1..], headSize, head + EncodeValue(types[0], values[0]).value,
              offset, caps);
    }
  }

  /** Validated static decoding and static encoding are each other's inverse, on every window. */
  lemma {:induction false} StaticDecodingIsEncoding(ty: AbiType, v: Value, bytes: seq<Byte>, start: nat,
          mode: DecodeMode)
    requires !IsDynamic(ty) && !mode.LegacySolc05?
    requires start + Stride(ty) <= |bytes| && start + Stride(ty) < WORD_MODULUS
    ensures DecodeValue(ty, bytes, start, mode) == Some((v, start + Stride(ty))) <==>
            EncodeValue(ty, v) == Some(bytes[start..start + Stride(ty)])
    ensures DecodeValue(ty, bytes, start, mode).Some? ==>
              DecodeValue(ty, bytes, start, mode).value.1 == start + Stride(ty)
  {
    hide EncodeValue, DecodeValue, WithinCaps, Canon, CountsAreWords, IsDynamic, StaticSize;
    if DecodeValue(ty, bytes, start, mode).Some? {
      StaticCanonical(ty, bytes, start, mode);
      EncodedStaticSize(ty, DecodeValue(ty, bytes, start, mode).value.0);
    }
    if EncodeValue(ty, v) == Some(bytes[start..start + Stride(ty)]) {
      StaticTransparent(ty, v, CapsOf(mode));
      RoundTripValue(ty, v, bytes[start..start + Stride(ty)], bytes, start, mode);
    }
  }

  /** No two byte strings decode to the same static value. */
  lemma {:induction false} StaticDecodingInjective(ty: AbiType, a: seq<Byte>, p: nat, b: seq<Byte>, q: nat,
          mode: DecodeMode, mode': DecodeMode)
    requires !IsDynamic(ty) && !mode.LegacySolc05? && !mode'.LegacySolc05?
    requires p + Stride(ty) <= |a| && q + Stride(ty) <= |b|
    requires DecodeValue(ty, a, p, mode).Some? && DecodeValue(ty, b, q, mode').Some?
    requires DecodeValue(ty, a, p, mode).value.0 == DecodeValue(ty, b, q, mode').value.0
    ensures a[p..p + Stride(ty)] == b[q..q + Stride(ty)]
  {
    hide EncodeValue, DecodeValue, IsDynamic, StaticSize;
    StaticCanonical(ty, a, p, mode);
    StaticCanonical(ty, b, q, mode');
    EncodedStaticSize(ty, DecodeValue(ty, a, p, mode).value.0);
  }
}
