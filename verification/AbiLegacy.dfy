/**
 The legacy 0.5 decoder's place in the order: it cleans words where the others validate them, but it caps
 lengths and offsets at 2^32.  On inputs of at most 2^32 bytes what the Vyper decoder accepts, it accepts
 with the same value and end.
 */
module AbiLegacy {
  import opened Options
  import opened Words
  import opened AbiTypes
  import opened AbiEncode
  import opened AbiDecode
  import opened AbiRoundTrip
  import opened AbiStatic
  import opened AbiModes

  /** Every fixed array has an element and every tuple a member, as Solidity demands. */
  predicate Sized(ty: AbiType)
    decreases ty, 0
  {
    match ty
    case ArrayType(item, n) => 0 < n && Sized(item)
    case TupleType(items) => items != [] && AllSized(items)
    case DynamicArray(item) => Sized(item)
    case _ => true
  }

  predicate AllSized(types: seq<AbiType>)
    decreases types, 0
  {
    types == [] || (Sized(types[0]) && AllSized(types[1..]))
  }

  /** Where the word is canonical there is nothing to clean. */
  lemma {:induction false} LegacyElem(e: ElemType, bytes: seq<Byte>, start: nat)
    requires DecodeElem(e, bytes, start, Vyper).Some?
    ensures DecodeElem(e, bytes, start, LegacySolc05) == DecodeElem(e, bytes, start, Vyper)
  {
    hide DecodeElem, EncodeElem;
    DecodedElemEncodes(e, bytes, start, Vyper);
    var v := DecodeElem(e, bytes, start, Vyper).value.0;
    RoundTripElem(e, v, bytes, start, LegacySolc05);
  }

  /** A value of some size is read from inside the input. */
  lemma {:induction false} ReadsInput(ty: AbiType, bytes: seq<Byte>, start: nat)
    requires Sized(ty) && DecodeValue(ty, bytes, start, Vyper).Some?
    ensures start + 32 <= |bytes|
    decreases ty, 0
  {
    hide DecodeElem, DecodeArrayElems, DecodeValues, DecodeStaticElems, DecodeDynamicElemsFrom;
    if IsDynamic(ty) {
      if start + 32 > |bytes| {
        BeyondInput(ty, bytes, start, Vyper);
        assert false;
      }
    } else {
      match ty
      case Elem(e) => DecodedElemEncodes(e, bytes, start, Vyper);
      case ArrayType(item, n) => FirstElement(item, n, bytes, start);
      case TupleType(items) => FirstField(items, bytes, start);
    }
  }

  lemma {:induction false} FirstElement(item: AbiType, n: nat, bytes: seq<Byte>, start: nat)
    requires Sized(item) && 0 < n && !IsDynamic(item) && DecodeArrayElems(item, n, bytes, start, Vyper).Some?
    ensures start + 32 <= |bytes|
    decreases item, 1
  {
    hide DecodeValue;
    ReadsInput(item, bytes, start);
  }

  lemma {:induction false} FirstField(items: seq<AbiType>, bytes: seq<Byte>, start: nat)
    requires items != [] && AllSized(items) && !AnyDynamic(items)
    requires DecodeValue(TupleType(items), bytes, start, Vyper).Some?
    ensures start + 32 <= |bytes|
    decreases items, 1
  {
    assert DecodeValue(items[0], bytes, start, Vyper).Some? by {
      hide DecodeElem, StaticSize, TupleHeadSize;
      assert DecodeValues(items, bytes, start, 0, start + TupleHeadSize(items).value, Vyper).Some?;
    }
    ReadsInput(items[0], bytes, start);
  }

  // ----- counts are below the input's length -----

  lemma {:induction false} StaticCount(ty: AbiType, n: nat, elemSize: nat, bytes: seq<Byte>, start: nat)
    requires Sized(ty) && 0 < elemSize && DecodeStaticElems(ty, n, elemSize, bytes, start, Vyper).Some?
    ensures n == 0 || start + n <= |bytes|
    decreases n
  {
    hide DecodeValue;
    if n > 0 {
      ReadsInput(ty, bytes, start);
      StaticCount(ty, n - 1, elemSize, bytes, start + elemSize);
    }
  }

  lemma {:induction false} DynamicCount(ty: AbiType, n: nat, bytes: seq<Byte>, base: nat, cursor: nat, maxEnd: nat)
    requires DecodeDynamicElemsFrom(ty, n, bytes, base, cursor, maxEnd, Vyper).Some?
    ensures n == 0 || base + cursor + n <= |bytes|
    decreases n
  {
    hide DecodeValue;
    if n > 0 {
      var v := DecodeValue(ty, bytes, ElementTarget(Vyper, base, ReadNat(bytes, base + cursor).value), Vyper).value;
      DynamicCount(ty, n - 1, bytes, base, cursor + 32, Max(maxEnd, v.1));
    }
  }

  lemma {:induction false} RawCount(n: nat, bytes: seq<Byte>, start: nat)
    requires DecodeRawBools(n, bytes, start).Some?
    ensures n == 0 || start + n <= |bytes|
    decreases n
  {
    if n > 0 {
      RawCount(n - 1, bytes, start + 32);
    }
  }

  lemma {:induction false} SizedStride(ty: AbiType)
    requires Sized(ty) && !IsDynamic(ty)
    ensures StaticSize(ty).Some? && 0 < StaticSize(ty).value
    decreases ty, 0
  {
    match ty
    case ArrayType(item, n) =>
      SizedStride(item);
      assert n * StaticSize(item).value >= StaticSize(item).value;
    case TupleType(items) => SizedStrides(items, 0);
    case _ =>
  }

  lemma {:induction false} SizedStrides(types: seq<AbiType>, size: nat)
    requires AllSized(types) && !AnyDynamic(types)
    ensures StaticSizeList(types, size).Some? && size <= StaticSizeList(types, size).value
    ensures types != [] ==> size < StaticSizeList(types, size).value
    decreases types, 1
  {
    if types != [] {
      SizedStride(types[0]);
      SizedStrides(types[1..], size + StaticSize(types[0]).value);
    }
  }

  lemma {:induction false} ArrayCount(item: AbiType, n: nat, bytes: seq<Byte>, start: nat)
    requires Sized(item) && DecodeArrayElems(item, n, bytes, start, Vyper).Some?
    ensures n <= |bytes|
  {
    hide DecodeStaticElems, DecodeDynamicElemsFrom, StaticSize;
    if IsDynamic(item) {
      DynamicCount(item, n, bytes, start, 0, start + n * 32);
    } else {
      SizedStride(item);
      StaticCount(item, n, StaticSize(item).value, bytes, start);
    }
  }

  // ----- the legacy decoder accepts -----

  predicate Kept<T(==)>(a: Option<T>, b: Option<T>) {
    a.Some? ==> b == a
  }

  /** On inputs of at most 2^32 bytes a Vyper success is a legacy success, with the same value and end. */
  lemma {:induction false} LegacyAccepts(ty: AbiType, bytes: seq<Byte>, start: nat)
    requires Sized(ty) && |bytes| <= SOLC_MAX_LEN_V1
    ensures Kept(DecodeValue(ty, bytes, start, Vyper), DecodeValue(ty, bytes, start, LegacySolc05))
    decreases ty, 0, 0
  {
    hide DecodeElem, DecodeArrayElems, DecodeValues, DecodeRawBools, StaticSize;
    if DecodeValue(ty, bytes, start, Vyper).Some? {
      match ty
      case Elem(e) => LegacyElem(e, bytes, start);
      case ArrayType(item, n) => LegacyArray(item, n, bytes, start);
      case TupleType(items) => LegacyFields(items, bytes, start, 0, start + HeadSize(items));
      case BytesType =>
      case StringType =>
      case DynamicArray(item) =>
        var size := ReadNat(bytes, start).value;
        if item == Elem(BoolType) {
          RawCount(size, bytes, start + 32);
        } else {
          ArrayCount(item, size, bytes, start + 32);
          LegacyArray(item, size, bytes, start + 32);
        }
    }
  }

  lemma {:induction false} LegacyArray(ty: AbiType, n: nat, bytes: seq<Byte>, start: nat)
    requires Sized(ty) && |bytes| <= SOLC_MAX_LEN_V1
    ensures Kept(DecodeArrayElems(ty, n, bytes, start, Vyper), DecodeArrayElems(ty, n, bytes, start, LegacySolc05))
    decreases ty, n + 1, 2
  {
    hide DecodeStaticElems, DecodeDynamicElemsFrom;
    if IsDynamic(ty) {
      LegacyDynamicElems(ty, n, bytes, start, 0, start + n * 32);
    } else {
      StaticSizeDefined(ty);
      LegacyStaticElems(ty, n, StaticSize(ty).value, bytes, start);
    }
  }

  lemma {:induction false} LegacyStaticElems(ty: AbiType, n: nat, elemSize: nat, bytes: seq<Byte>, start: nat)
    requires Sized(ty) && |bytes| <= SOLC_MAX_LEN_V1
    ensures Kept(DecodeStaticElems(ty, n, elemSize, bytes, start, Vyper),
                 DecodeStaticElems(ty, n, elemSize, bytes, start, LegacySolc05))
    decreases ty, n + 1, 1
  {
    hide DecodeValue;
    if n > 0 && DecodeValue(ty, bytes, start, Vyper).Some? {
      LegacyAccepts(ty, bytes, start);
      LegacyStaticElems(ty, n - 1, elemSize, bytes, DecodeValue(ty, bytes, start, Vyper).value.1);
    }
  }

  lemma {:induction false} LegacyDynamicElems(ty: AbiType, n: nat, bytes: seq<Byte>, base: nat, cursor: nat, maxEnd: nat)
    requires Sized(ty) && |bytes| <= SOLC_MAX_LEN_V1
    ensures Kept(DecodeDynamicElemsFrom(ty, n, bytes, base, cursor, maxEnd, Vyper),
                 DecodeDynamicElemsFrom(ty, n, bytes, base, cursor, maxEnd, LegacySolc05))
    decreases ty, n + 1, 1
  {
    hide DecodeValue, ReadNat;
    var relative := ReadNat(bytes, base + cursor);
    if n > 0 && relative.Some? {
      var v := DecodeValue(ty, bytes, base + relative.value, Vyper);
      if v.Some? {
        ReadsInput(ty, bytes, base + relative.value);
        LegacyAccepts(ty, bytes, base + relative.value);
        LegacyDynamicElems(ty, n - 1, bytes, base, cursor + 32, Max(maxEnd, v.value.1));
      }
    }
  }

  lemma {:induction false} LegacyFields(types: seq<AbiType>, bytes: seq<Byte>, base: nat, cursor: nat, maxEnd: nat)
    requires AllSized(types) && |bytes| <= SOLC_MAX_LEN_V1
    ensures Kept(DecodeValues(types, bytes, base, cursor, maxEnd, Vyper),
                 DecodeValues(types, bytes, base, cursor, maxEnd, LegacySolc05))
    decreases types, 0, 0
  {
    hide DecodeValue, ReadNat, StaticSize, IsDynamic;
    if types != [] {
      var ty := types[0];
      var target := base + if IsDynamic(ty) then ReadNat(bytes, base + cursor).GetOr(0) else cursor;
      var v := DecodeValue(ty, bytes, target, Vyper);
      if v.Some? {
        ReadsInput(ty, bytes, target);
        LegacyAccepts(ty, bytes, target);
        LegacyFields(types[1..], bytes, base, cursor + (if IsDynamic(ty) then 32 else StaticSize(ty).GetOr(0)),
                     Max(maxEnd, v.value.1));
      }
    }
  }
}
