/** The Solidity ABI type grammar, the values that inhabit it, and the sizes computed over types. */
module AbiTypes {
  import opened Options
  import opened Words

  type BitWidth = n: nat | 0 < n <= 256 && n % 8 == 0 witness 8

  datatype IntType = UInt(bits: BitWidth) | SInt(bits: BitWidth)

  datatype FixedType =
    | UFixed(m: BitWidth, n: nat)
    | SFixed(m: BitWidth, n: nat)

  type ByteIndex = n: nat | n < 32

  datatype ElemType =
    | BoolType
    | AddressType
    | IntElem(int_: IntType)
    | FixedElem(fixed: FixedType)
    | BytesElem(last: ByteIndex)   // bytesN, with N == last + 1
    | FunctionType

  datatype AbiType =
    | Elem(elem: ElemType)
    | ArrayType(item: AbiType, count: nat)
    | BytesType
    | StringType
    | DynamicArray(item: AbiType)
    | TupleType(items: seq<AbiType>)

  datatype Value =
    | Int(i: int)
    | Bool(b: bool)
    | Address(a: AddressNat)
    | Struct(name: string, fields: seq<(string, Value)>)
    | Array(elems: seq<Value>)
    | Tuple(elems: seq<Value>)
    | FixedBytes(last: ByteIndex, data: seq<Byte>)
    | Bytes(data: seq<Byte>)
    | Unit

  predicate IsDynamic(ty: AbiType)
    decreases ty, 0
  {
    match ty
    case Elem(_) => false
    case ArrayType(item, _) => IsDynamic(item)
    case TupleType(items) => AnyDynamic(items)
    case BytesType => true
    case StringType => true
    case DynamicArray(_) => true
  }

  predicate AnyDynamic(types: seq<AbiType>)
    decreases types, 0
  {
    types != [] && (IsDynamic(types[0]) || AnyDynamic(types[1..]))
  }

  function StaticSize(ty: AbiType): Option<nat>
    decreases ty, 0
  {
    match ty
    case Elem(_) => Some(32)
    case ArrayType(item, n) =>
      var itemSize :- StaticSize(item);
      Some(n * itemSize)
    case TupleType(items) => StaticSizeList(items, 0)
    case BytesType => None
    case StringType => None
    case DynamicArray(_) => None
  }

  function StaticSizeList(types: seq<AbiType>, size: nat): Option<nat>
    decreases types, 0
  {
    if types == [] then Some(size)
    else
      var tySize :- StaticSize(types[0]);
      StaticSizeList(types[1..], size + tySize)
  }

  function TupleHeadSize(types: seq<AbiType>): Option<nat>
    decreases types, 0
  {
    if types == [] then Some(0)
    else
      var restSize :- TupleHeadSize(types[1..]);
      if IsDynamic(types[0]) then Some(32 + restSize)
      else
        var tySize :- StaticSize(types[0]);
        Some(tySize + restSize)
  }

  function PaddedSize(n: nat): nat {
    32 * ((n + 31) / 32)
  }

  /** `part` is the type or stands in it as the item of a fixed array or a member of a tuple, at any depth. */
  predicate Inside(part: AbiType, ty: AbiType)
    decreases ty
  {
    || part == ty
    || match ty
       case ArrayType(item, _) => Inside(part, item)
       case TupleType(items) => exists i :: 0 <= i < |items| && Inside(part, items[i])
       case _ => false
  }

  /** The types of which no length is known. */
  predicate OfAnyLength(ty: AbiType) {
    ty.BytesType? || ty.StringType? || ty.DynamicArray?
  }

  /** A type is dynamic exactly if a byte string, a string or a dynamic array stands in it. */
  lemma {:induction false} DynamicExactly(ty: AbiType)
    ensures IsDynamic(ty) <==> exists part :: Inside(part, ty) && OfAnyLength(part)
    decreases ty, 1
  {
    match ty
    case ArrayType(item, n) => DynamicExactly(item);
    case TupleType(items) =>
      AnyDynamicExactly(items);
      if i :| 0 <= i < |items| && IsDynamic(items[i]) {
        DynamicExactly(items[i]);
        var part :| Inside(part, items[i]) && OfAnyLength(part);
        assert Inside(part, ty);
      }
      if part :| Inside(part, ty) && OfAnyLength(part) {
        var i :| 0 <= i < |items| && Inside(part, items[i]);
        DynamicExactly(items[i]);
      }
    case _ => assert OfAnyLength(ty) ==> Inside(ty, ty);
  }

  lemma {:induction false} AnyDynamicExactly(types: seq<AbiType>)
    ensures AnyDynamic(types) <==> exists i :: 0 <= i < |types| && IsDynamic(types[i])
    decreases types
  {
    hide IsDynamic;
    if types != [] {
      AnyDynamicExactly(types[1..]);
      assert forall i :: 0 <= i < |types[1..]| ==> types[1..][i] == types[i + 1];
      if i :| 0 <= i < |types| && IsDynamic(types[i]) && i > 0 {
        assert IsDynamic(types[1..][i - 1]);
      }
    }
  }

  /** A type has a static size exactly when it is not dynamic, and static sizes are whole words. */
  lemma {:induction false} StaticSizeDefined(ty: AbiType)
    ensures StaticSize(ty).Some? <==> !IsDynamic(ty)
    ensures StaticSize(ty).Some? ==> StaticSize(ty).value % 32 == 0
    decreases ty, 1
  {
    match ty
    case ArrayType(item, n) =>
      StaticSizeDefined(item);
      if !IsDynamic(item) {
        var s := StaticSize(item).value;
        WholeWords(n, s);
      }
    case TupleType(items) =>
      StaticSizeListDefined(items, 0);
    case _ =>
  }

  lemma {:induction false} WholeWords(n: nat, s: nat)
    requires s % 32 == 0
    ensures (n * s) % 32 == 0 && n * s == 32 * (n * (s / 32))
  {
    var q := s / 32;
    assert n * (32 * q) == 32 * (n * q);
  }

  lemma {:induction false} StaticSizeListDefined(types: seq<AbiType>, size: nat)
    requires size % 32 == 0
    ensures StaticSizeList(types, size).Some? <==> !AnyDynamic(types)
    ensures StaticSizeList(types, size).Some? ==> StaticSizeList(types, size).value % 32 == 0
    decreases types, 1
  {
    if types != [] {
      StaticSizeDefined(types[0]);
      if !IsDynamic(types[0]) {
        StaticSizeListDefined(types[1..], size + StaticSize(types[0]).value);
      }
    }
  }

  /** Head sizes always exist, are whole words, and of a static tuple are its static size. */
  lemma {:induction false} HeadSizeDefined(types: seq<AbiType>)
    ensures TupleHeadSize(types).Some? && TupleHeadSize(types).value % 32 == 0
    ensures !AnyDynamic(types) ==> forall size: nat :: StaticSizeList(types, size) == Some(size + TupleHeadSize(types).value)
    decreases types
  {
    if types != [] {
      HeadSizeDefined(types[1..]);
      StaticSizeDefined(types[0]);
      if !AnyDynamic(types) {
        var head := StaticSize(types[0]).value;
        forall size: nat
          ensures StaticSizeList(types, size) == Some(size + TupleHeadSize(types).value)
        {
          assert StaticSizeList(types[1..], size + head) == Some(size + head + TupleHeadSize(types[1..]).value);
        }
      }
    }
  }

  function HeadSize(types: seq<AbiType>): (size: nat)
    ensures TupleHeadSize(types) == Some(size) && size % 32 == 0
  {
    HeadSizeDefined(types);
    TupleHeadSize(types).value
  }

  /** Bytes a component takes in its parent's head: one offset word, or its whole static encoding. */
  function Stride(ty: AbiType): (size: nat)
    ensures size % 32 == 0
    ensures IsDynamic(ty) ==> size == 32
    ensures !IsDynamic(ty) ==> StaticSize(ty) == Some(size)
  {
    StaticSizeDefined(ty);
    if IsDynamic(ty) then 32 else StaticSize(ty).value
  }

  lemma {:induction false} HeadSizeStep(types: seq<AbiType>)
    requires types != []
    ensures HeadSize(types) == Stride(types[0]) + HeadSize(types[1..])
  {
    HeadSizeDefined(types[1..]);
    StaticSizeDefined(types[0]);
  }
}
