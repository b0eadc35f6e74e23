/** ABI encoding of values: the head/tail encoder over arbitrarily nested types. */
module AbiEncode {
  import opened Options
  import opened Words
  import opened AbiTypes

  function PadRightToWord(bytes: seq<Byte>): (padded: seq<Byte>)
    ensures |padded| == PaddedSize(|bytes|)
  {
    bytes + Zeros(PaddedSize(|bytes|) - |bytes|)
  }

  function ValuesToBytes(values: seq<Value>): Option<seq<Byte>> {
    if values == [] then Some([])
    else if values[0].Int? && 0 <= values[0].i < 256 then
      var rest :- ValuesToBytes(values[1..]);
      Some([values[0].i] + rest)
    else None
  }

  function EncodeWord(e: ElemType, v: Value): Option<Word> {
    match e
    case BoolType => if v.Bool? then Some(if v.b then 1 else 0) else None
    case AddressType => if v.Address? then Some(v.a) else None
    case IntElem(UInt(bits)) =>
      if v.Int? && 0 <= v.i < Pow2(bits) then Some(Wrap(v.i)) else None
    case IntElem(SInt(bits)) =>
      var limit: int := Pow2(bits - 1);
      if v.Int? && -limit <= v.i < limit then Some(WordOfInt(v.i)) else None
    case _ => None
  }

  function EncodeElem(e: ElemType, v: Value): Option<seq<Byte>> {
    match e
    case BytesElem(n) =>
      if v.FixedBytes? && v.last == n && |v.data| == n + 1 then Some(v.data + Zeros(32 - (n + 1))) else None
    case FunctionType =>
      if v.Array? then
        var bytes :- ValuesToBytes(v.elems);
        if |bytes| == 24 then Some(bytes + Zeros(8)) else None
      else None
    case _ =>
      var word :- EncodeWord(e, v);
      Some(WordBytes(word))
  }

  function EncodeValue(ty: AbiType, v: Value): Option<seq<Byte>>
    decreases ty, 0, 0
  {
    match ty
    case Elem(e) => EncodeElem(e, v)
    case ArrayType(item, n) =>
      if v.Array? && |v.elems| == n then EncodeArrayElems(item, v.elems) else None
    case TupleType(items) => if v.Tuple? then EncodeValues(items, v.elems) else None
    case BytesType => if v.Bytes? then Some(WordBytes(|v.data|) + PadRightToWord(v.data)) else None
    case StringType => if v.Bytes? then Some(WordBytes(|v.data|) + PadRightToWord(v.data)) else None
    case DynamicArray(item) =>
      if v.Array? then
        var encoded :- EncodeArrayElems(item, v.elems);
        Some(WordBytes(|v.elems|) + encoded)
      else None
  }

  function EncodeArrayElems(ty: AbiType, values: seq<Value>): Option<seq<Byte>>
    decreases ty, |values| + 1, 5
  {
    if IsDynamic(ty) then EncodeDynamicElemsFrom(ty, values, |values| * 32, [], [])
    else EncodeStaticElems(ty, values)
  }

  function EncodeStaticElems(ty: AbiType, values: seq<Value>): Option<seq<Byte>>
    decreases ty, |values| + 1, 4
  {
    if values == [] then Some([])
    else
      var encoded :- EncodeValue(ty, values[0]);
      var rest :- EncodeStaticElems(ty, values[1..]);
      Some(encoded + rest)
  }

  /** `head` and `tail` accumulate the offsets and the encodings written so far. */
  function EncodeDynamicElemsFrom(ty: AbiType, values: seq<Value>, headSize: nat,
                                  head: seq<Byte>, tail: seq<Byte>): Option<seq<Byte>>
    decreases ty, |values| + 1, 3
  {
    if values == [] then Some(head + tail)
    else
      var encoded :- EncodeValue(ty, values[0]);
      EncodeDynamicElemsFrom(ty, values[1..], headSize, head + WordBytes(headSize + |tail|), tail + encoded)
  }

  function EncodeValues(types: seq<AbiType>, values: seq<Value>): Option<seq<Byte>>
    decreases types, |values| + 1, 2
  {
    var headSize :- TupleHeadSize(types);
    EncodeValuesFrom(types, values, headSize, [], [])
  }

  function EncodeValuesFrom(types: seq<AbiType>, values: seq<Value>, headSize: nat,
                            head: seq<Byte>, tail: seq<Byte>): Option<seq<Byte>>
    decreases types, |values| + 1, 1
  {
    if types == [] && values == [] then Some(head + tail)
    else if types == [] || values == [] then None
    else
      var encoded :- EncodeValue(types[0], values[0]);
      if IsDynamic(types[0]) then
        EncodeValuesFrom(types[1..], values[1..], headSize, head + WordBytes(headSize + |tail|), tail + encoded)
      else
        EncodeValuesFrom(types[1..], values[1..], headSize, head + encoded, tail)
  }

  function EncodeReturnValues(types: seq<AbiType>, values: seq<Value>): Option<seq<Byte>> {
    EncodeValues(types, values)
  }

  /** Call arguments prefixed with a selector. */
  function EncodeCallWithSelector(selector: seq<Byte>, types: seq<AbiType>, values: seq<Value>): Option<seq<Byte>> {
    var payload :- EncodeValues(types, values);
    Some(selector + payload)
  }
}
