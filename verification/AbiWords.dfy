/**
 What a single word means to the codec: which value has which word, what the legacy decoder makes of any
 word at all, and the words whose validation is left to the access of an array.
 */
module AbiWords {
  import opened Options
  import opened Arith
  import opened Words
  import opened AbiTypes
  import opened AbiEncode
  import opened AbiDecode
  import opened AbiRoundTrip

  // ----- the canonical words -----

  /** The value of a canonical word, read off the type's definition. */
  predicate WordMeans(e: ElemType, n: Word, v: Value) {
    match e
    case BoolType => (n == 0 && v == Bool(false)) || (n == 1 && v == Bool(true))
    case AddressType => n < ADDRESS_MODULUS && v == Address(n)
    case IntElem(UInt(bits)) => n < Pow2(bits) && v == Int(n)
    case IntElem(SInt(bits)) => -(Pow2(bits - 1) as int) <= Signed(n) < Pow2(bits - 1) && v == Int(Signed(n))
    case _ => false
  }

  /** A value's word is the one that means it, and only values with one encode. */
  lemma {:induction false} EncodesWhatItMeans(e: ElemType, n: Word, v: Value)
    ensures EncodeWord(e, v) == Some(n) <==> WordMeans(e, n, v)
  {
    hide Pow2, WordMeans, EncodeWord;
    match e
    case IntElem(UInt(bits)) => UnsignedMeans(bits, n, v);
    case IntElem(SInt(bits)) => SignedMeans(bits, n, v);
    case _ => PlainMeans(e, n, v);
  }

  lemma {:induction false} PlainMeans(e: ElemType, n: Word, v: Value)
    requires !e.IntElem?
    ensures EncodeWord(e, v) == Some(n) <==> WordMeans(e, n, v)
  {
  }

  lemma {:induction false} UnsignedMeans(bits: BitWidth, n: Word, v: Value)
    ensures EncodeWord(IntElem(UInt(bits)), v) == Some(n) <==> WordMeans(IntElem(UInt(bits)), n, v)
  {
    hide Pow2;
    Pow2Complement(bits);
  }

  lemma {:induction false} SignedMeans(bits: BitWidth, n: Word, v: Value)
    ensures EncodeWord(IntElem(SInt(bits)), v) == Some(n) <==> WordMeans(IntElem(SInt(bits)), n, v)
  {
    hide Pow2;
    WordSizes();
    Pow2Monotone(bits - 1, WORD_BITS - 1);
  }

  // ----- the words of the strict decoders -----

  /** Every other decoder accepts exactly the canonical words, each as what it means. */
  lemma {:induction false} StrictWord(e: ElemType, n: Word, v: Value, mode: DecodeMode)
    requires !mode.LegacySolc05?
    ensures DecodeWord(e, n, mode) == Some(v) <==> WordMeans(e, n, v)
  {
    hide Pow2, WordMeans, DecodeWord;
    match e
    case IntElem(SInt(bits)) => StrictSigned(bits, n, v, mode);
    case _ => StrictPlain(e, n, v, mode);
  }

  lemma {:induction false} StrictPlain(e: ElemType, n: Word, v: Value, mode: DecodeMode)
    requires !mode.LegacySolc05? && (e.IntElem? ==> e.int_.UInt?)
    ensures DecodeWord(e, n, mode) == Some(v) <==> WordMeans(e, n, v)
  {
    hide Pow2, NormalizeInt;
  }

  lemma {:induction false} StrictSigned(bits: BitWidth, n: Word, v: Value, mode: DecodeMode)
    requires !mode.LegacySolc05?
    ensures DecodeWord(IntElem(SInt(bits)), n, mode) == Some(v) <==> WordMeans(IntElem(SInt(bits)), n, v)
  {
    hide Pow2, NormalizeInt;
    WordSizes();
    Pow2Monotone(bits - 1, WORD_BITS - 1);
  }

  // ----- the words of the legacy decoder -----

  /** The types whose word the legacy decoder cleans. */
  predicate IsCleaned(e: ElemType) {
    e.BoolType? || e.AddressType? || e.IntElem?
  }

  /** The number of values of the type, for whose count the word is reduced. */
  function Modulus(e: ElemType): nat
    requires e.AddressType? || e.IntElem?
    ensures Modulus(e) > 0
  {
    match e
    case AddressType => ADDRESS_MODULUS
    case IntElem(t) => Pow2(t.bits)
  }

  /**
   The legacy decoder accepts every word: a bool is true exactly if the word is not zero, and any other
   value is the one value of its type whose word agrees with the word read modulo 2^bits.
   */
  lemma {:induction false} LegacyCleans(e: ElemType, n: Word)
    requires IsCleaned(e)
    ensures DecodeWord(e, n, LegacySolc05).Some?
    ensures var v := DecodeWord(e, n, LegacySolc05).value;
            && EncodeWord(e, v).Some?
            && (e.BoolType? ==> v == Bool(n != 0))
            && (!e.BoolType? ==> EncodeWord(e, v).value % Modulus(e) == n % Modulus(e))
  {
    hide Pow2;
    match e
    case IntElem(t) => LegacyInteger(t, n);
    case AddressType => DivMod(n % ADDRESS_MODULUS, ADDRESS_MODULUS, 0, n % ADDRESS_MODULUS);
    case _ =>
  }

  /** Masking an unsigned, sign-extending a signed integer. */
  lemma {:induction false} LegacyInteger(t: IntType, n: Word)
    ensures var r := DecodeWord(IntElem(t), n, LegacySolc05);
            && r.Some? && EncodeWord(IntElem(t), r.value).Some?
            && EncodeWord(IntElem(t), r.value).value % Pow2(t.bits) == n % Pow2(t.bits)
            && r.value.Int?
            && (t.UInt? ==> r.value.i == n % Pow2(t.bits))
            && (t.SInt? ==> -(Pow2(t.bits - 1) as int) <= r.value.i < Pow2(t.bits - 1)
                            && r.value.i % Pow2(t.bits) == n % Pow2(t.bits))
  {
    hide Pow2, NormalizeInt, EncodeWord, DecodeWord;
    match t
    case UInt(bits) => LegacyUnsigned(bits, n);
    case SInt(bits) => LegacySigned(bits, n);
  }

  lemma {:induction false} LegacyUnsigned(bits: BitWidth, n: Word)
    ensures var (e, low) := (IntElem(UInt(bits)), n % Pow2(bits));
            && DecodeWord(e, n, LegacySolc05) == Some(Int(low))
            && EncodeWord(e, Int(low)).Some? && EncodeWord(e, Int(low)).value % Pow2(bits) == low
  {
    hide Pow2, Wrap;
    var m, low := Pow2(bits), n % Pow2(bits);
    Pow2Complement(bits);
    DivMod(low, m, 0, low);
    SmallWrap(low, m);
  }

  lemma {:induction false} LegacySigned(bits: BitWidth, n: Word)
    ensures var (e, i) := (IntElem(SInt(bits)), NormalizeInt(SInt(bits), n));
            && DecodeWord(e, n, LegacySolc05) == Some(Int(i))
            && -(Pow2(bits - 1) as int) <= i < Pow2(bits - 1) && i % Pow2(bits) == n % Pow2(bits)
            && EncodeWord(e, Int(i)).Some? && EncodeWord(e, Int(i)).value % Pow2(bits) == n % Pow2(bits)
  {
    hide Pow2, WordOfInt;
    var m, low := Pow2(bits), n % Pow2(bits);
    HalfRange(bits);
    Pow2Complement(bits);
    if low < Pow2(bits - 1) {
      DivMod(low, m, 0, low);
    } else {
      DivMod(low - m, m, -1, low);
    }
    var i := NormalizeInt(SInt(bits), n);
    SignedWord(bits, i);
    ModShift(i, Pow2(WORD_BITS - bits), m);
  }

  lemma {:induction false} HalfRange(bits: BitWidth)
    ensures Pow2(bits) == 2 * Pow2(bits - 1)
  {
  }

  lemma {:induction false} SmallWrap(i: int, m: nat)
    requires 0 <= i < m <= WORD_MODULUS
    ensures Wrap(i) == i
  {
  }

  /** No other value of the type has a word that agrees with the word read. */
  lemma {:induction false} LegacyUnique(e: ElemType, n: Word, v: Value)
    requires IsCleaned(e) && !e.BoolType?
    requires EncodeWord(e, v).Some? && EncodeWord(e, v).value % Modulus(e) == n % Modulus(e)
    ensures DecodeWord(e, n, LegacySolc05) == Some(v)
  {
    hide Pow2, EncodeWord, DecodeWord, WordMeans;
    var w := EncodeWord(e, v).value;
    RoundTripWord(e, v, LegacySolc05);
    SameResidue(e, n, w);
  }

  lemma {:induction false} SameResidue(e: ElemType, n: Word, w: Word)
    requires (e.AddressType? || e.IntElem?) && n % Modulus(e) == w % Modulus(e)
    ensures DecodeWord(e, n, LegacySolc05) == DecodeWord(e, w, LegacySolc05)
  {
    hide Pow2;
    if e.AddressType? {
      DivMod(n, ADDRESS_MODULUS, n / ADDRESS_MODULUS, n % ADDRESS_MODULUS);
      if n < ADDRESS_MODULUS {
        DivMod(n, ADDRESS_MODULUS, 0, n);
      }
      if w < ADDRESS_MODULUS {
        DivMod(w, ADDRESS_MODULUS, 0, w);
      }
    }
  }

  /** A uint8 in the word 0x11B is 27. */
  lemma {:induction false} DirtyByte()
    ensures DecodeWord(IntElem(UInt(8)), 0x11B, LegacySolc05) == Some(Int(0x1B))
    ensures forall mode: DecodeMode :: !mode.LegacySolc05? ==> DecodeWord(IntElem(UInt(8)), 0x11B, mode) == None
  {
    assert Pow2(8) == 256;
  }

  // ----- elements in the input -----

  /** An element of a cleaned type is read from 32 bytes of the input, and only from there. */
  lemma {:induction false} LegacyElement(e: ElemType, bytes: seq<Byte>, start: nat)
    requires IsCleaned(e)
    ensures start + 32 > |bytes| ==> DecodeElem(e, bytes, start, LegacySolc05) == None
    ensures start + 32 <= |bytes| ==>
              && BytesToNat(bytes[start..start + 32]) < WORD_MODULUS
              && DecodeElem(e, bytes, start, LegacySolc05).Some?
              && DecodeElem(e, bytes, start, LegacySolc05).value.1 == start + 32
              && DecodeWord(e, BytesToNat(bytes[start..start + 32]), LegacySolc05)
                 == Some(DecodeElem(e, bytes, start, LegacySolc05).value.0)
  {
    hide BytesToNat, DecodeWord;
    if start + 32 <= |bytes| {
      WordSizes();
      BytesToNatBound(bytes[start..start + 32]);
      LegacyCleans(e, BytesToNat(bytes[start..start + 32]));
    }
  }

  /** bytesN keeps the first N bytes; the legacy decoder does not look at the others. */
  lemma {:induction false} FixedBytesElement(n: ByteIndex, bytes: seq<Byte>, start: nat, mode: DecodeMode)
    ensures var r := DecodeElem(BytesElem(n), bytes, start, mode);
            && (r.Some? <==> start + 32 <= |bytes| && (mode.LegacySolc05? ||
                             forall i :: start + n < i < start + 32 ==> bytes[i] == 0))
            && (r.Some? ==> r.value == (FixedBytes(n, bytes[start..start + n + 1]), start + 32))
  {
    hide BytesToNat, DecodeWord;
    if start + 32 <= |bytes| {
      var word := bytes[start..start + 32];
      assert word[..n + 1] == bytes[start..start + n + 1];
      ZerosAt(bytes, start, n + 1);
      forall i | start + n < i < start + 32 ensures bytes[i] == word[i - start] {
      }
    }
  }

  lemma {:induction false} ZerosAt(bytes: seq<Byte>, start: nat, k: nat)
    requires start + 32 <= |bytes| && k <= 32
    ensures AllZero(bytes[start..start + 32][k..]) <==> forall i :: start + k <= i < start + 32 ==> bytes[i] == 0
  {
    var rest := bytes[start..start + 32][k..];
    assert |rest| == 32 - k;
    if AllZero(rest) {
      forall i | start + k <= i < start + 32 ensures bytes[i] == 0 {
        assert rest[i - start - k] == bytes[i];
        assert rest[i - start - k] in rest;
      }
    } else {
      var b :| b in rest && b != 0;
      var j :| 0 <= j < |rest| && rest[j] == b;
      assert bytes[start + k + j] == b;
    }
  }

  /** Function references are 24 bytes whose padding every decoder checks; fixed-point types do not decode. */
  lemma {:induction false} OtherElements(bytes: seq<Byte>, start: nat, mode: DecodeMode, fixed: FixedType)
    ensures DecodeElem(FixedElem(fixed), bytes, start, mode) == None
    ensures var r := DecodeElem(FunctionType, bytes, start, mode);
            && (r.Some? <==> start + 32 <= |bytes| && forall i :: start + 24 <= i < start + 32 ==> bytes[i] == 0)
            && (r.Some? ==> r.value.1 == start + 32 && r.value.0.Array? && |r.value.0.elems| == 24
                            && forall i :: 0 <= i < 24 ==> r.value.0.elems[i] == Int(bytes[start + i]))
  {
    hide BytesToNat;
    if start + 32 <= |bytes| {
      ZerosAt(bytes, start, 24);
    }
  }

  // ----- words kept for later -----

  /** Word i of n words in the input from `start`. */
  function WordAt(bytes: seq<Byte>, start: nat, i: nat): nat
    requires start + 32 * i + 32 <= |bytes|
  {
    BytesToNat(bytes[start + 32 * i..start + 32 * i + 32])
  }

  /** An array of bools keeps every word as it is, for the access of the element to check. */
  lemma {:induction false} RawBoolWords(n: nat, bytes: seq<Byte>, start: nat)
    ensures DecodeRawBools(n, bytes, start).Some? <==> n == 0 || start + 32 * n <= |bytes|
    ensures DecodeRawBools(n, bytes, start).Some? ==>
              var (values, end) := DecodeRawBools(n, bytes, start).value;
              && end == start + 32 * n && |values| == n
              && (forall i :: 0 <= i < n ==> start + 32 * i + 32 <= |bytes|)
              && (forall i :: 0 <= i < n ==> values[i] == Tuple([Unit, Int(WordAt(bytes, start, i))]))
    decreases n
  {
    hide BytesToNat;
    if n > 0 {
      RawBoolWords(n - 1, bytes, start + 32);
      if DecodeRawBools(n, bytes, start).Some? {
        var values := DecodeRawBools(n, bytes, start).value.0;
        forall i | 1 <= i < n
          ensures values[i] == Tuple([Unit, Int(WordAt(bytes, start, i))])
        {
          assert values[i] == DecodeRawBools(n - 1, bytes, start + 32).value.0[i - 1];
          assert WordAt(bytes, start + 32, i - 1) == WordAt(bytes, start, i);
        }
        assert values[0] == Tuple([Unit, Int(WordAt(bytes, start, 0))]);
      }
    }
  }

  /** An array of addresses keeps the words that are none. */
  lemma {:induction false} AddressWords(n: nat, bytes: seq<Byte>, start: nat)
    ensures DecodeAddresses(n, bytes, start).Some? <==> n == 0 || start + 32 * n <= |bytes|
    ensures DecodeAddresses(n, bytes, start).Some? ==>
              var (values, end) := DecodeAddresses(n, bytes, start).value;
              && end == start + 32 * n && |values| == n
              && (forall i :: 0 <= i < n ==> start + 32 * i + 32 <= |bytes|)
              && (forall i :: 0 <= i < n ==>
                    values[i] == var w := WordAt(bytes, start, i);
                                 if w < ADDRESS_MODULUS then Address(w) else Tuple([Unit, Int(w)]))
    decreases n
  {
    hide BytesToNat;
    if n > 0 {
      AddressWords(n - 1, bytes, start + 32);
      if DecodeAddresses(n, bytes, start).Some? {
        var values := DecodeAddresses(n, bytes, start).value.0;
        forall i | 1 <= i < n
          ensures values[i] == var w := WordAt(bytes, start, i);
                               if w < ADDRESS_MODULUS then Address(w) else Tuple([Unit, Int(w)])
        {
          assert values[i] == DecodeAddresses(n - 1, bytes, start + 32).value.0[i - 1];
          assert WordAt(bytes, start + 32, i - 1) == WordAt(bytes, start, i);
        }
        assert values[0] == AddressArrayWord(WordAt(bytes, start, 0));
      }
    }
  }

  /** A dynamic array of bools in every mode, and one of addresses in the 0.8.15 mode, is so decoded. */
  lemma {:induction false} DeferredArrays(bytes: seq<Byte>, start: nat, mode: DecodeMode)
    requires start + 32 <= |bytes| && WordAt(bytes, start, 0) <= MaxLen(mode)
    ensures var (n, r) := (WordAt(bytes, start, 0), DecodeValue(DynamicArray(Elem(BoolType)), bytes, start, mode));
            && (r.Some? <==> start + 32 + 32 * n <= |bytes|)
            && (r.Some? ==> r.value.1 == start + 32 + 32 * n && r.value.0.Array? && |r.value.0.elems| == n)
            && (r.Some? ==> forall i :: 0 <= i < n ==>
                  r.value.0.elems[i] == Tuple([Unit, Int(WordAt(bytes, start + 32, i))]))
    ensures var n := WordAt(bytes, start, 0);
            var r := DecodeValue(DynamicArray(Elem(AddressType)), bytes, start, Solc0815);
            mode.Solc0815? ==>
              && (r.Some? <==> start + 32 + 32 * n <= |bytes|)
              && (r.Some? ==> r.value.1 == start + 32 + 32 * n && r.value.0.Array? && |r.value.0.elems| == n)
              && (r.Some? ==> forall i :: 0 <= i < n ==>
                    r.value.0.elems[i] == var w := WordAt(bytes, start + 32, i);
                                          if w < ADDRESS_MODULUS then Address(w) else Tuple([Unit, Int(w)]))
  {
    hide BytesToNat, DecodeArrayElems, DecodeRawBools, DecodeAddresses;
    var n := WordAt(bytes, start, 0);
    assert bytes[start + 32 * 0..start + 32 * 0 + 32] == bytes[start..start + 32];
    assert ReadNat(bytes, start) == Some(n);
    RawBoolWords(n, bytes, start + 32);
    AddressWords(n, bytes, start + 32);
  }

  // ----- lengths and offsets -----

  /** The longest length, and the farthest offset of a tuple member, that a decoder follows. */
  function Cap(mode: DecodeMode): nat {
    match mode
    case LegacySolc05 => 0x1_0000_0000
    case _ => 0xFFFF_FFFF_FFFF_FFFF
  }

  /** Byte strings: their length is capped, they lie inside the input, and they end at a whole word. */
  lemma {:induction false} BytesExactly(ty: AbiType, bytes: seq<Byte>, start: nat, mode: DecodeMode)
    requires ty.BytesType? || ty.StringType?
    ensures start + 32 > |bytes| ==> DecodeValue(ty, bytes, start, mode) == None
    ensures start + 32 <= |bytes| ==>
              var n := WordAt(bytes, start, 0);
              && (n > Cap(mode) || start + 32 + n > |bytes| ==> DecodeValue(ty, bytes, start, mode) == None)
              && (n <= Cap(mode) && start + 32 + n <= |bytes| ==>
                    DecodeValue(ty, bytes, start, mode) ==
                    Some((Bytes(bytes[start + 32..start + 32 + n]), start + 32 + 32 * ((n + 31) / 32))))
  {
    hide BytesToNat;
    if start + 32 <= |bytes| {
      assert bytes[start + 32 * 0..start + 32 * 0 + 32] == bytes[start..start + 32];
    }
  }

  /** Arrays with more elements than the cap are rejected before any element is looked at. */
  lemma {:induction false} TooManyElements(item: AbiType, bytes: seq<Byte>, start: nat, mode: DecodeMode)
    requires start + 32 <= |bytes| && WordAt(bytes, start, 0) > Cap(mode)
    ensures DecodeValue(DynamicArray(item), bytes, start, mode) == None
  {
    hide BytesToNat, DecodeArrayElems, DecodeRawBools, DecodeAddresses;
    assert bytes[start + 32 * 0..start + 32 * 0 + 32] == bytes[start..start + 32];
  }

  /** Where the offset word of an array element leads: modulo 2^256 except in the legacy and Vyper decoders. */
  function Target(base: nat, relative: nat, mode: DecodeMode): nat {
    match mode
    case LegacySolc05 => base + relative
    case Vyper => base + relative
    case _ => (base + relative) % WORD_MODULUS
  }

  /** One element at an offset; only the legacy decoder caps the offset. */
  lemma {:induction false} ElementAtOffset(ty: AbiType, n: nat, bytes: seq<Byte>, base: nat, cursor: nat, maxEnd: nat,
                                           mode: DecodeMode)
    requires n > 0 && base + cursor + 32 <= |bytes|
    ensures var relative := WordAt(bytes, base + cursor, 0);
            var first := DecodeValue(ty, bytes, Target(base, relative, mode), mode);
            var r := DecodeDynamicElemsFrom(ty, n, bytes, base, cursor, maxEnd, mode);
            && (first.None? || (mode.LegacySolc05? && relative > 0x1_0000_0000) ==> r == None)
            && (first.Some? && !(mode.LegacySolc05? && relative > 0x1_0000_0000) ==>
                  var end := if first.value.1 > maxEnd then first.value.1 else maxEnd;
                  var rest := DecodeDynamicElemsFrom(ty, n - 1, bytes, base, cursor + 32, end, mode);
                  r == if rest.None? then None else Some(([first.value.0] + rest.value.0, rest.value.1)))
  {
    hide BytesToNat, DecodeValue, DecodeDynamicElemsFrom;
    var at := base + cursor;
    assert bytes[at + 32 * 0..at + 32 * 0 + 32] == bytes[at..at + 32];
    assert ReadNat(bytes, at) == Some(WordAt(bytes, at, 0));
    TargetIs(mode, base, WordAt(bytes, at, 0));
    ElementUnfolds(ty, n, bytes, base, cursor, maxEnd, mode);
  }

  lemma {:induction false} TargetIs(mode: DecodeMode, base: nat, relative: nat)
    ensures ElementTarget(mode, base, relative) == Target(base, relative, mode)
    ensures RejectsElementOffset(mode, relative) <==> mode.LegacySolc05? && relative > 0x1_0000_0000
  {
    if base + relative < WORD_MODULUS {
      DivMod(base + relative, WORD_MODULUS, 0, base + relative);
    }
  }

  lemma {:induction false} ElementUnfolds(ty: AbiType, n: nat, bytes: seq<Byte>, base: nat, cursor: nat, maxEnd: nat,
                                          mode: DecodeMode)
    requires n > 0 && ReadNat(bytes, base + cursor).Some?
    ensures var relative := ReadNat(bytes, base + cursor).value;
            var first := DecodeValue(ty, bytes, ElementTarget(mode, base, relative), mode);
            DecodeDynamicElemsFrom(ty, n, bytes, base, cursor, maxEnd, mode) ==
            if RejectsElementOffset(mode, relative) || first.None? then None
            else
              var rest := DecodeDynamicElemsFrom(ty, n - 1, bytes, base, cursor + 32, Max(maxEnd, first.value.1), mode);
              if rest.None? then None else Some(([first.value.0] + rest.value.0, rest.value.1))
  {
    hide ReadNat, DecodeValue, ElementTarget, RejectsElementOffset, Max;
  }

  /** One tuple member: a dynamic one at a capped offset from the start of the tuple, a static one in its head. */
  lemma {:induction false} MemberAtOffset(types: seq<AbiType>, bytes: seq<Byte>, base: nat, cursor: nat, maxEnd: nat,
                                          mode: DecodeMode)
    requires types != []
    ensures IsDynamic(types[0]) && base + cursor + 32 > |bytes| ==>
              DecodeValues(types, bytes, base, cursor, maxEnd, mode) == None
    ensures IsDynamic(types[0]) && base + cursor + 32 <= |bytes| ==>
              var relative := WordAt(bytes, base + cursor, 0);
              var first := DecodeValue(types[0], bytes, base + relative, mode);
              var r := DecodeValues(types, bytes, base, cursor, maxEnd, mode);
              && (first.None? || relative > Cap(mode) ==> r == None)
              && (first.Some? && relative <= Cap(mode) ==>
                    var end := if first.value.1 > maxEnd then first.value.1 else maxEnd;
                    var rest := DecodeValues(types[1..], bytes, base, cursor + 32, end, mode);
                    r == if rest.None? then None else Some(([first.value.0] + rest.value.0, rest.value.1)))
  {
    hide BytesToNat, DecodeValue, StaticSize;
    var at := base + cursor;
    if at + 32 <= |bytes| {
      assert bytes[at + 32 * 0..at + 32 * 0 + 32] == bytes[at..at + 32];
      assert ReadNat(bytes, at) == Some(WordAt(bytes, at, 0));
    }
  }
}
