/** ABI decoding of byte strings, parameterised by the compiler whose decoder is followed. */
module AbiDecode {
  import opened Options
  import opened Words
  import opened AbiTypes

  /** One step of a path into a calldata value's shape. */
  datatype CalldataStep = Element | Field(index: nat)

  /** Where a calldata value is copied to memory, and where a failed decode is kept for later. */
  datatype CalldataPlan = CalldataPlan(materialize: seq<seq<CalldataStep>>, deferErrors: seq<seq<CalldataStep>>)

  type PlanTable = seq<(nat, seq<CalldataPlan>)>

  datatype DecodeMode =
    | Modern
    | LegacySolc05
    | Vyper
    | Solc08Calldata(plans: PlanTable)
    | Solc0815

  const SOLC_MAX_U64: nat := 18446744073709551615
  const SOLC_MAX_LEN_V1: nat := 4294967296

  function MaxLen(mode: DecodeMode): nat {
    if mode.LegacySolc05? then SOLC_MAX_LEN_V1 else SOLC_MAX_U64
  }

  predicate RejectsElementOffset(mode: DecodeMode, relative: nat) {
    mode.LegacySolc05? && MaxLen(mode) < relative
  }

  predicate WrapsElementTarget(mode: DecodeMode) {
    mode.Modern? || mode.Solc08Calldata? || mode.Solc0815?
  }

  /** The address of a nested dynamic element: modern decoders add with the EVM's wrap-around. */
  function ElementTarget(mode: DecodeMode, base: nat, relative: nat): nat {
    if WrapsElementTarget(mode) then AddWord(base, relative) else base + relative
  }

  function ReadBytes(bytes: seq<Byte>, offset: nat, size: nat): Option<seq<Byte>> {
    if offset + size <= |bytes| then Some(bytes[offset..offset + size])
    else if size == 0 then Some([])
    else None
  }

  function ReadNat(bytes: seq<Byte>, offset: nat): Option<nat> {
    var word :- ReadBytes(bytes, offset, 32);
    Some(BytesToNat(word))
  }

  function BytesToValues(bytes: seq<Byte>): seq<Value> {
    seq(|bytes|, i requires 0 <= i < |bytes| => Int(bytes[i]))
  }

  /** The representation of an array element whose validation is left to the array access. */
  function RawWordValue(n: nat): Value {
    Tuple([Unit, Int(n)])
  }

  function DecodeRawBools(n: nat, bytes: seq<Byte>, start: nat): Option<(seq<Value>, nat)> {
    if n == 0 then Some(([], start))
    else
      var word :- ReadNat(bytes, start);
      var rest :- DecodeRawBools(n - 1, bytes, start + 32);
      Some(([RawWordValue(word)] + rest.0, rest.1))
  }

  function AddressArrayWord(n: nat): Value {
    if n < ADDRESS_MODULUS then Address(n) else RawWordValue(n)
  }

  function DecodeAddresses(n: nat, bytes: seq<Byte>, start: nat): Option<(seq<Value>, nat)> {
    if n == 0 then Some(([], start))
    else
      var word :- ReadNat(bytes, start);
      var rest :- DecodeAddresses(n - 1, bytes, start + 32);
      Some(([AddressArrayWord(word)] + rest.0, rest.1))
  }

  predicate AllZero(bytes: seq<Byte>) {
    forall b :: b in bytes ==> b == 0
  }

  /** The value of a solidity integer type that an unbounded integer denotes. */
  function NormalizeInt(t: IntType, i: int): int {
    var residue := i % Pow2(t.bits);
    match t
    case UInt(_) => residue
    case SInt(bits) => if residue < Pow2(bits - 1) then residue else residue - Pow2(bits)
  }

  /** Legacy decoders clean a value word; every other decoder rejects a non-canonical one. */
  function DecodeWord(e: ElemType, n: nat, mode: DecodeMode): Option<Value> {
    match e
    case BoolType =>
      if n == 0 then Some(Bool(false))
      else if n == 1 || mode.LegacySolc05? then Some(Bool(true))
      else None
    case AddressType =>
      if n < ADDRESS_MODULUS then Some(Address(n))
      else if mode.LegacySolc05? then Some(Address(n % ADDRESS_MODULUS))
      else None
    case IntElem(UInt(bits)) =>
      if mode.LegacySolc05? then Some(Int(NormalizeInt(UInt(bits), n)))
      else if n < Pow2(bits) then Some(Int(n))
      else None
    case IntElem(SInt(bits)) =>
      if mode.LegacySolc05? then Some(Int(NormalizeInt(SInt(bits), n)))
      else if n < Pow2(bits - 1) then Some(Int(n))
      else if WORD_MODULUS - Pow2(bits - 1) <= n then Some(Int(n - WORD_MODULUS))
      else None
    case _ => None
  }

  function DecodeElem(e: ElemType, bytes: seq<Byte>, start: nat, mode: DecodeMode): Option<(Value, nat)> {
    var word :- ReadBytes(bytes, start, 32);
    match e
    case BytesElem(n) =>
      if mode.LegacySolc05? || AllZero(word[n + 1..]) then Some((FixedBytes(n, word[..n + 1]), start + 32)) else None
    case FunctionType =>
      if AllZero(word[24..]) then Some((Array(BytesToValues(word[..24])), start + 32)) else None
    case _ =>
      var value :- DecodeWord(e, BytesToNat(word), mode);
      Some((value, start + 32))
  }

  function DecodeBytes(bytes: seq<Byte>, start: nat, mode: DecodeMode): Option<(Value, nat)> {
    var size :- ReadNat(bytes, start);
    if MaxLen(mode) < size then None
    else
      var payload :- ReadBytes(bytes, start + 32, size);
      Some((Bytes(payload), start + 32 + PaddedSize(size)))
  }

  function DecodeValue(ty: AbiType, bytes: seq<Byte>, start: nat, mode: DecodeMode): Option<(Value, nat)>
    decreases ty, 0, 0
  {
    match ty
    case Elem(e) => DecodeElem(e, bytes, start, mode)
    case ArrayType(item, n) =>
      var r :- DecodeArrayElems(item, n, bytes, start, mode);
      Some((Array(r.0), r.1))
    case TupleType(items) =>
      var headSize :- TupleHeadSize(items);
      var r :- DecodeValues(items, bytes, start, 0, start + headSize, mode);
      Some((Tuple(r.0), r.1))
    case BytesType => DecodeBytes(bytes, start, mode)
    case StringType => DecodeBytes(bytes, start, mode)
    case DynamicArray(item) =>
      var size :- ReadNat(bytes, start);
      if MaxLen(mode) < size then None
      else
        var r :-
          if mode.Solc0815? && item == Elem(AddressType) then DecodeAddresses(size, bytes, start + 32)
          else if item == Elem(BoolType) then DecodeRawBools(size, bytes, start + 32)
          else DecodeArrayElems(item, size, bytes, start + 32, mode);
        Some((Array(r.0), r.1))
  }

  function DecodeArrayElems(ty: AbiType, n: nat, bytes: seq<Byte>, start: nat, mode: DecodeMode): Option<(seq<Value>,
          nat)>
    decreases ty, n + 1, 2
  {
    if IsDynamic(ty) then DecodeDynamicElemsFrom(ty, n, bytes, start, 0, start + n * 32, mode)
    else
      var elemSize :- StaticSize(ty);
      DecodeStaticElems(ty, n, elemSize, bytes, start, mode)
  }

  function DecodeStaticElems(ty: AbiType, n: nat, elemSize: nat, bytes: seq<Byte>, start: nat, mode: DecodeMode):
    Option<(seq<Value>, nat)>
    decreases ty, n + 1, 1
  {
    if n == 0 then Some(([], start))
    else
      var v :- DecodeValue(ty, bytes, start, mode);
      if v.1 != start + elemSize then None
      else
        var rest :- DecodeStaticElems(ty, n - 1, elemSize, bytes, v.1, mode);
        Some(([v.0] + rest.0, rest.1))
  }

  function DecodeDynamicElemsFrom(ty: AbiType, n: nat, bytes: seq<Byte>, base: nat, cursor: nat, maxEnd: nat,
                                  mode: DecodeMode): Option<(seq<Value>, nat)>
    decreases ty, n + 1, 1
  {
    if n == 0 then Some(([], maxEnd))
    else
      var relative :- ReadNat(bytes, base + cursor);
      if RejectsElementOffset(mode, relative) then None
      else
        var v :- DecodeValue(ty, bytes, ElementTarget(mode, base, relative), mode);
        var rest :- DecodeDynamicElemsFrom(ty, n - 1, bytes, base, cursor + 32, Max(maxEnd, v.1), mode);
        Some(([v.0] + rest.0, rest.1))
  }

  function Max(a: nat, b: nat): nat {
    if a < b then b else a
  }

  function DecodeValues(types: seq<AbiType>, bytes: seq<Byte>, base: nat, cursor: nat, maxEnd: nat,
                        mode: DecodeMode): Option<(seq<Value>, nat)>
    decreases types, 0, 0
  {
    if types == [] then Some(([], maxEnd))
    else if IsDynamic(types[0]) then
      var relative :- ReadNat(bytes, base + cursor);
      if MaxLen(mode) < relative then None
      else
        var v :- DecodeValue(types[0], bytes, base + relative, mode);
        var rest :- DecodeValues(types[1..], bytes, base, cursor + 32, Max(maxEnd, v.1), mode);
        Some(([v.0] + rest.0, rest.1))
    else
      var tySize :- StaticSize(types[0]);
      var v :- DecodeValue(types[0], bytes, base + cursor, mode);
      if v.1 != base + cursor + tySize then None
      else
        var rest :- DecodeValues(types[1..], bytes, base, cursor + tySize, Max(maxEnd, v.1), mode);
        Some(([v.0] + rest.0, rest.1))
  }
}
