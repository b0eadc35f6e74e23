/**
 Solidity 0.8 calldata references.  A plan says which parts of an argument are copied to memory; the
 rest is followed through signed bounds checks and wrapping addresses.  Static values and byte strings
 use the ordinary value decoder.
 */
module AbiCalldata {
  import opened Options
  import opened Words
  import opened AbiTypes
  import opened AbiDecode

  predicate IsMemory(plan: CalldataPlan) {
    [] in plan.materialize
  }

  function Descend(paths: seq<seq<CalldataStep>>, step: CalldataStep): seq<seq<CalldataStep>> {
    if paths == [] then []
    else if paths[0] != [] && paths[0][0] == step then [paths[0][1..]] + Descend(paths[1..], step)
    else Descend(paths[1..], step)
  }

  function Child(plan: CalldataPlan, step: CalldataStep): CalldataPlan {
    CalldataPlan(if IsMemory(plan) then plan.materialize else Descend(plan.materialize, step),
                 Descend(plan.deferErrors, step))
  }

  const DEFAULT_PLAN := CalldataPlan([[]], [])

  const DECODE_FAILURE: Value := Struct("$solc08Calldata.decodeFailure", [])

  /** A plan may keep a failed decode as a marker, for the contract body to check later. */
  function RetainFailure(plan: CalldataPlan, value: Option<Value>): Option<Value> {
    if [] in plan.deferErrors then Some(value.GetOr(DECODE_FAILURE)) else value
  }

  /** CALLDATALOAD and CALLDATACOPY fill with zeros beyond the input; only the start address wraps. */
  function LoadBytes(bytes: seq<Byte>, start: nat, size: nat): (r: seq<Byte>)
    ensures |r| == size
  {
    var from := Wrap(start);
    if from + size <= |bytes| then bytes[from..from + size]
    else if from <= |bytes| then bytes[from..] + Zeros(size - (|bytes| - from))
    else Zeros(size)
  }

  /** A static value is a sequence of word loads, so the address of every word wraps. */
  function LoadWords(bytes: seq<Byte>, start: nat, count: nat): (r: seq<Byte>)
    ensures |r| == 32 * count
  {
    if count == 0 then []
    else LoadWords(bytes, start, count - 1) + LoadBytes(bytes, AddWord(start, 32 * (count - 1)), 32)
  }

  function LoadNat(bytes: seq<Byte>, start: nat): nat {
    BytesToNat(LoadBytes(bytes, start, 32))
  }

  /** Bytes taken by the heads of n components of one type; always whole words. */
  function Extent(n: nat, item: AbiType): (size: nat)
    ensures size % 32 == 0
  {
    WholeWords(n, Stride(item));
    n * Stride(item)
  }

  /** Bytes that must be addressable at the target of a reference to a value of this type. */
  function TailSize(ty: AbiType): nat {
    match ty
    case TupleType(items) => HeadSize(items)
    case ArrayType(item, n) => Extent(n, item)
    case _ => 32
  }

  function TailTarget(reference: bool, ty: AbiType, bytes: seq<Byte>, base: nat, head: nat): Option<nat> {
    var relative := LoadNat(bytes, head);
    if reference then
      if !SignedLess(relative, SubWord(SubWord(|bytes|, base), SubWord(TailSize(ty), 1))) then None
      else Some(AddWord(base, relative))
    else if SOLC_MAX_U64 < relative then None
    else Some(AddWord(base, relative))
  }

  predicate BadExtent(memory: bool, tailAccess: bool, bytes: seq<Byte>, start: nat, extent: nat) {
    || (!tailAccess && !SignedLess(AddWord(start, 31), |bytes|))
    || (if tailAccess && !memory then SignedLess(SubWord(|bytes|, extent), AddWord(start, 32))
        else Wrap(|bytes|) < AddWord(AddWord(start, 32), extent))
  }

  /** The ordinary decoder's value, without its end. */
  function StaticValue(ty: AbiType, input: seq<Byte>): Option<Value> {
    var r :- DecodeValue(ty, input, 0, Modern);
    Some(r.0)
  }

  /** Whether an array of static elements is decoded in one piece. */
  predicate InOnePiece(item: AbiType, plan: CalldataPlan) {
    !IsDynamic(item) && Child(plan, Element).deferErrors == []
  }

  function PlanDecode(ty: AbiType, bytes: seq<Byte>, start: nat, plan: CalldataPlan, tailAccess: bool): Option<Value>
    decreases ty, 0, 0
  {
    match ty
    case Elem(_) => StaticValue(ty, LoadBytes(bytes, start, 32))
    case BytesType => PlanDecodeBytes(ty, bytes, start, plan, tailAccess)
    case StringType => PlanDecodeBytes(ty, bytes, start, plan, tailAccess)
    case TupleType(items) => PlanDecodeTuple(items, bytes, start, plan, tailAccess)
    case ArrayType(item, n) => PlanDecodeArray(item, n, bytes, start, plan, tailAccess)
    case DynamicArray(item) => PlanDecodeDynamicArray(item, bytes, start, plan, tailAccess)
  }

  function PlanDecodeTuple(items: seq<AbiType>, bytes: seq<Byte>, start: nat, plan: CalldataPlan,
          tailAccess: bool): Option<Value>
    decreases items, 1, 0
  {
    if (!tailAccess || IsMemory(plan)) && SignedLess(SubWord(|bytes|, start), HeadSize(items)) then None
    else if !AnyDynamic(items) then StaticValue(TupleType(items), LoadWords(bytes, start, HeadSize(items) / 32))
    else
      var values :- PlanDecodeFields(items, bytes, start, 0, FieldPlans(plan, 0, |items|), IsMemory(plan));
      Some(Tuple(values))
  }

  function PlanDecodeArray(item: AbiType, n: nat, bytes: seq<Byte>, start: nat, plan: CalldataPlan,
          tailAccess: bool): Option<Value>
    decreases item, n + 2, 0
  {
    if (!tailAccess || IsMemory(plan)) && Wrap(|bytes|) < AddWord(start, Extent(n, item)) then None
    else if InOnePiece(item, plan) then StaticValue(ArrayType(item, n), LoadWords(bytes, start, Extent(n, item) / 32))
    else
      var values :- PlanDecodeElements(item, n, bytes, start, 0, plan, false);
      Some(Array(values))
  }

  function PlanDecodeDynamicArray(item: AbiType, bytes: seq<Byte>, start: nat, plan: CalldataPlan,
          tailAccess: bool): Option<Value>
    decreases item, LoadNat(bytes, start) + 2, 0
  {
    var size := LoadNat(bytes, start);
    if SOLC_MAX_U64 < size || BadExtent(IsMemory(plan), tailAccess, bytes, start, Extent(size, item)) then None
    else if InOnePiece(item, plan) then
      var values :- PieceElements(item, size, LoadWords(bytes, AddWord(start, 32), Extent(size, item) / 32));
      Some(Array(values))
    else
      var values :- PlanDecodeElements(item, size, bytes, AddWord(start, 32), 0, plan, true);
      Some(Array(values))
  }

  function PlanDecodeBytes(ty: AbiType, bytes: seq<Byte>, start: nat, plan: CalldataPlan,
          tailAccess: bool): Option<Value> {
    var size := LoadNat(bytes, start);
    if SOLC_MAX_U64 < size || BadExtent(IsMemory(plan), tailAccess, bytes, start, size) then None
    else StaticValue(ty, LoadBytes(bytes, start, 32 + size))
  }

  function PieceElements(item: AbiType, size: nat, input: seq<Byte>): Option<seq<Value>> {
    var r :- if item == Elem(BoolType) then DecodeRawBools(size, input, 0)
             else DecodeStaticElems(item, size, Stride(item), input, 0, Modern);
    Some(r.0)
  }

  function FieldPlans(plan: CalldataPlan, from: nat, count: nat): (plans: seq<CalldataPlan>)
    requires from <= count
    ensures |plans| == count - from
    decreases count - from
  {
    if from == count then [] else [Child(plan, Field(from))] + FieldPlans(plan, from + 1, count)
  }

  function PlanDecodeElements(ty: AbiType, n: nat, bytes: seq<Byte>, base: nat, cursor: nat, plan: CalldataPlan,
                              rawBools: bool): Option<seq<Value>>
    decreases ty, n + 1, 1
  {
    if n == 0 then Some([])
    else
      var value :- RetainFailure(Child(plan, Element), PlanDecodeElement(ty, bytes, base, cursor, plan, rawBools));
      var rest :- PlanDecodeElements(ty, n - 1, bytes, base, cursor + Stride(ty), plan, rawBools);
      Some([value] + rest)
  }

  function PlanDecodeElement(ty: AbiType, bytes: seq<Byte>, base: nat, cursor: nat, plan: CalldataPlan,
                             rawBools: bool): Option<Value>
    decreases ty, 0, 1
  {
    var target :-
      if IsDynamic(ty) then TailTarget(!IsMemory(plan), ty, bytes, base, AddWord(base, cursor))
      else Some(AddWord(base, cursor));
    if rawBools && ty == Elem(BoolType) then Some(RawWordValue(LoadNat(bytes, target)))
    else PlanDecode(ty, bytes, target, Child(plan, Element), IsDynamic(ty) && !IsMemory(plan))
  }

  function PlanDecodeFields(types: seq<AbiType>, bytes: seq<Byte>, base: nat, cursor: nat, plans: seq<CalldataPlan>,
                            memory: bool): Option<seq<Value>>
    decreases types, 0, 0
  {
    if types == [] then Some([])
    else
      var plan := if plans == [] then DEFAULT_PLAN else plans[0];
      var value :- RetainFailure(plan, PlanDecodeField(types[0], bytes, base, cursor, plan, memory));
      var rest :- PlanDecodeFields(types[1..], bytes, base, cursor + Stride(types[0]),
                                   if plans == [] then [] else plans[1..], memory);
      Some([value] + rest)
  }

  function PlanDecodeField(ty: AbiType, bytes: seq<Byte>, base: nat, cursor: nat, plan: CalldataPlan,
                           memory: bool): Option<Value>
    decreases ty, 0, 1
  {
    var target :-
      if IsDynamic(ty) then TailTarget(!memory, ty, bytes, base, AddWord(base, cursor))
      else Some(AddWord(base, cursor));
    PlanDecode(ty, bytes, target, plan, IsDynamic(ty) && !memory)
  }

  /** The plans of the first table entry for a selector; none when the selector is not listed. */
  function PlansFor(table: PlanTable, selector: nat): seq<CalldataPlan> {
    if table == [] then []
    else if table[0].0 == selector then table[0].1
    else PlansFor(table[1..], selector)
  }

  function DecodeArgs(table: PlanTable, types: seq<AbiType>, calldata: seq<Byte>): Option<seq<Value>> {
    if types == [] then Some([])
    else if SignedLess(SubWord(|calldata|, 4), HeadSize(types)) then None
    else
      var selector := BytesToNat(if |calldata| < 4 then calldata else calldata[..4]);
      PlanDecodeFields(types, calldata, 4, 0, PlansFor(table, selector), true)
  }

  function DecodeReturns(types: seq<AbiType>, returndata: seq<Byte>): Option<seq<Value>> {
    if types != [] && SignedLess(|returndata|, HeadSize(types)) then None
    else PlanDecodeFields(types, returndata, 0, 0, [], true)
  }
}
