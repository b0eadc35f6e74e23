/**
 The validating decoders ordered by what they accept: a Vyper success is a modern success, although
 only the modern decoder wraps nested offsets modulo 2^256, and a modern success is a success of the
 0.8.15 decoder, which only postpones the validation of address arrays.  The values are the same.
 */
module AbiModes {
  import opened Options
  import opened Words
  import opened AbiTypes
  import opened AbiEncode
  import opened AbiDecode
  import opened AbiRoundTrip
  import opened AbiStatic

  /** Nothing but an array of no elements can be read where no word is left. */
  lemma {:induction false} BeyondInput(ty: AbiType, bytes: seq<Byte>, start: nat, mode: DecodeMode)
    requires IsDynamic(ty) && start + 32 > |bytes| && DecodeValue(ty, bytes, start, mode).Some?
    ensures ty.ArrayType? && ty.count == 0 && DecodeValue(ty, bytes, start, mode) == Some((Array([]), start))
  {
    hide DecodeValues, DecodeStaticElems, DecodeAddresses, DecodeRawBools;
    match ty
    case TupleType(items) =>
      FieldsBeyond(items, bytes, start, 0, start + HeadSize(items), mode);
      assert false;
    case ArrayType(item, n) =>
      assert DecodeArrayElems(item, n, bytes, start, mode) ==
             DecodeDynamicElemsFrom(item, n, bytes, start, 0, start + n * 32, mode);
    case _ =>
  }

  lemma {:induction false} FieldsBeyond(types: seq<AbiType>, bytes: seq<Byte>, base: nat, cursor: nat, maxEnd: nat,
                                        mode: DecodeMode)
    requires AnyDynamic(types) && base + cursor + 32 > |bytes|
    ensures DecodeValues(types, bytes, base, cursor, maxEnd, mode).None?
    decreases types
  {
    hide DecodeValue, IsDynamic, StaticSize;
    if !IsDynamic(types[0]) {
      if StaticSize(types[0]).Some? && DecodeValue(types[0], bytes, base + cursor, mode).Some? {
        var size := StaticSize(types[0]).value;
        FieldsBeyond(types[1..], bytes, base, cursor + size,
                     Max(maxEnd, DecodeValue(types[0], bytes, base + cursor, mode).value.1), mode);
      }
    }
  }

  /** The same value, and for a static type the same end. */
  predicate Refines(ty: AbiType, a: Option<(Value, nat)>, b: Option<(Value, nat)>) {
    a.Some? ==> b.Some? && b.value.0 == a.value.0 && (!IsDynamic(ty) ==> b.value.1 == a.value.1)
  }

  predicate ElemsRefine(a: Option<(seq<Value>, nat)>, b: Option<(seq<Value>, nat)>) {
    a.Some? ==> b.Some? && b.value.0 == a.value.0
  }

  lemma {:induction false} ModesAgreeOnElem(e: ElemType, bytes: seq<Byte>, start: nat, mode: DecodeMode,
          mode': DecodeMode)
    requires !mode.LegacySolc05? && !mode'.LegacySolc05?
    ensures DecodeElem(e, bytes, start, mode) == DecodeElem(e, bytes, start, mode')
  {
    hide BytesToNat;
  }

  /** The relations proved: from a decoder to the next more permissive one. */
  predicate Successive(mode: DecodeMode, mode': DecodeMode) {
    || (mode.Vyper? && mode'.Modern?)
    || (mode.Modern? && mode'.Solc0815?)
  }

  /** Every success of a decoder is a success, with the same value, of the next more permissive one. */
  lemma {:induction false} ModeRefines(ty: AbiType, bytes: seq<Byte>, start: nat, mode: DecodeMode, mode': DecodeMode)
    requires Successive(mode, mode') && |bytes| < WORD_MODULUS
    ensures Refines(ty, DecodeValue(ty, bytes, start, mode), DecodeValue(ty, bytes, start, mode'))
    decreases ty, 0, 0
  {
    hide DecodeElem, DecodeArrayElems, DecodeValues, DecodeRawBools, DecodeAddresses, StaticSize;
    match ty
    case Elem(e) => ModesAgreeOnElem(e, bytes, start, mode, mode');
    case ArrayType(item, n) => ArrayElemsRefine(item, n, bytes, start, mode, mode');
    case TupleType(items) => FieldsRefine(items, bytes, start, 0, start + HeadSize(items), start + HeadSize(items),
            mode, mode');
    case BytesType =>
    case StringType =>
    case DynamicArray(item) =>
      var size := ReadNat(bytes, start);
      if size.Some? && size.value <= SOLC_MAX_U64 {
        ArrayElemsRefine(item, size.value, bytes, start + 32, mode, mode');
        if mode'.Solc0815? && item == Elem(AddressType) {
          AddressesRefine(size.value, bytes, start + 32, mode);
          assert DecodeArrayElems(item, size.value, bytes, start + 32, mode) ==
                 DecodeStaticElems(item, size.value, 32, bytes, start + 32, mode) by { ArrayOfElem(AddressType,
                         size.value, bytes, start + 32, mode); }
        }
      }
  }

  lemma {:induction false} ArrayOfElem(e: ElemType, n: nat, bytes: seq<Byte>, start: nat, mode: DecodeMode)
    ensures DecodeArrayElems(Elem(e), n, bytes, start, mode) == DecodeStaticElems(Elem(e), n, 32, bytes, start, mode)
  {
  }

  /** Deferring the validation of an address array changes nothing when all its words are addresses. */
  lemma {:induction false} AddressesRefine(n: nat, bytes: seq<Byte>, start: nat, mode: DecodeMode)
    requires !mode.LegacySolc05?
    ensures ElemsRefine(DecodeStaticElems(Elem(AddressType), n, 32, bytes, start, mode), DecodeAddresses(n, bytes,
            start))
  {
    hide BytesToNat;
    if n > 0 {
      AddressesRefine(n - 1, bytes, start + 32, mode);
    }
  }

  lemma {:induction false} ArrayElemsRefine(ty: AbiType, n: nat, bytes: seq<Byte>, start: nat, mode: DecodeMode,
          mode': DecodeMode)
    requires Successive(mode, mode') && |bytes| < WORD_MODULUS
    ensures ElemsRefine(DecodeArrayElems(ty, n, bytes, start, mode), DecodeArrayElems(ty, n, bytes, start, mode'))
    ensures !IsDynamic(ty) && DecodeArrayElems(ty, n, bytes, start, mode).Some? ==>
              DecodeArrayElems(ty, n, bytes, start, mode).value.1 == DecodeArrayElems(ty, n, bytes, start,
                      mode').value.1
    decreases ty, n + 1, 2
  {
    hide DecodeStaticElems, DecodeDynamicElemsFrom;
    if IsDynamic(ty) {
      DynamicElemsRefine(ty, n, bytes, start, 0, start + n * 32, start + n * 32, mode, mode');
    } else {
      StaticSizeDefined(ty);
      StaticElemsRefine(ty, n, StaticSize(ty).value, bytes, start, mode, mode');
    }
  }

  lemma {:induction false} StaticElemsRefine(ty: AbiType, n: nat, elemSize: nat, bytes: seq<Byte>, start: nat,
                                             mode: DecodeMode, mode': DecodeMode)
    requires Successive(mode, mode') && |bytes| < WORD_MODULUS && !IsDynamic(ty)
    ensures DecodeStaticElems(ty, n, elemSize, bytes, start, mode).Some? ==>
              DecodeStaticElems(ty, n, elemSize, bytes, start, mode') == DecodeStaticElems(ty, n, elemSize, bytes,
                      start, mode)
    decreases ty, n + 1, 1
  {
    hide DecodeValue;
    if n > 0 && DecodeValue(ty, bytes, start, mode).Some? {
      ModeRefines(ty, bytes, start, mode, mode');
      StaticElemsRefine(ty, n - 1, elemSize, bytes, DecodeValue(ty, bytes, start, mode).value.1, mode, mode');
    }
  }

  /** A nested element: where the two decoders look in different places, neither reads anything. */
  lemma {:induction false} ElementRefines(ty: AbiType, bytes: seq<Byte>, base: nat, relative: nat, mode: DecodeMode,
          mode': DecodeMode)
    requires Successive(mode, mode') && |bytes| < WORD_MODULUS && IsDynamic(ty)
    ensures Refines(ty, DecodeValue(ty, bytes, ElementTarget(mode, base, relative), mode),
                    DecodeValue(ty, bytes, ElementTarget(mode', base, relative), mode'))
    decreases ty, 1
  {
    hide DecodeValue, IsDynamic;
    var target := ElementTarget(mode, base, relative);
    ModeRefines(ty, bytes, target, mode, mode');
    if ElementTarget(mode', base, relative) != target && DecodeValue(ty, bytes, target, mode).Some? {
      BeyondInput(ty, bytes, target, mode);
      EmptyArrayAnywhere(ty, bytes, ElementTarget(mode', base, relative), mode');
    }
  }

  lemma {:induction false} EmptyArrayAnywhere(ty: AbiType, bytes: seq<Byte>, start: nat, mode: DecodeMode)
    requires ty.ArrayType? && ty.count == 0 && IsDynamic(ty)
    ensures DecodeValue(ty, bytes, start, mode) == Some((Array([]), start))
  {
    assert DecodeArrayElems(ty.item, 0, bytes, start, mode) ==
           DecodeDynamicElemsFrom(ty.item, 0, bytes, start, 0, start, mode) == Some(([], start));
  }

  lemma {:induction false} DynamicElemsRefine(ty: AbiType, n: nat, bytes: seq<Byte>, base: nat, cursor: nat,
                                              maxEnd: nat, maxEnd': nat, mode: DecodeMode, mode': DecodeMode)
    requires Successive(mode, mode') && |bytes| < WORD_MODULUS && IsDynamic(ty)
    ensures ElemsRefine(DecodeDynamicElemsFrom(ty, n, bytes, base, cursor, maxEnd, mode),
                        DecodeDynamicElemsFrom(ty, n, bytes, base, cursor, maxEnd', mode'))
    decreases ty, n + 1, 1
  {
    hide DecodeValue, IsDynamic, ReadNat, ElementTarget;
    var relative := ReadNat(bytes, base + cursor);
    if n > 0 && relative.Some? {
      ElementRefines(ty, bytes, base, relative.value, mode, mode');
      var v := DecodeValue(ty, bytes, ElementTarget(mode, base, relative.value), mode);
      var v' := DecodeValue(ty, bytes, ElementTarget(mode', base, relative.value), mode');
      if v.Some? {
        DynamicElemsRefine(ty, n - 1, bytes, base, cursor + 32, Max(maxEnd, v.value.1), Max(maxEnd', v'.value.1),
                mode, mode');
      }
    }
  }

  lemma {:induction false} FieldsRefine(types: seq<AbiType>, bytes: seq<Byte>, base: nat, cursor: nat,
                                        maxEnd: nat, maxEnd': nat, mode: DecodeMode, mode': DecodeMode)
    requires Successive(mode, mode') && |bytes| < WORD_MODULUS
    ensures ElemsRefine(DecodeValues(types, bytes, base, cursor, maxEnd, mode),
                        DecodeValues(types, bytes, base, cursor, maxEnd', mode'))
    ensures !AnyDynamic(types) && maxEnd == maxEnd' && DecodeValues(types, bytes, base, cursor, maxEnd, mode).Some? ==>
              DecodeValues(types, bytes, base, cursor, maxEnd, mode).value.1 ==
              DecodeValues(types, bytes, base, cursor, maxEnd', mode').value.1
    decreases types, 0, 0
  {
    hide DecodeValue, IsDynamic, ReadNat, StaticSize;
    if types != [] {
      var ty := types[0];
      var target := if IsDynamic(ty) then ReadNat(bytes, base + cursor).GetOr(0) else cursor;
      ModeRefines(ty, bytes, base + target, mode, mode');
      var v := DecodeValue(ty, bytes, base + target, mode);
      var v' := DecodeValue(ty, bytes, base + target, mode');
      if v.Some? {
        FieldsRefine(types[1..], bytes, base, cursor + (if IsDynamic(ty) then 32 else StaticSize(ty).GetOr(0)),
                     Max(maxEnd, v.value.1), Max(maxEnd', v'.value.1), mode, mode');
      }
    }
  }
}
