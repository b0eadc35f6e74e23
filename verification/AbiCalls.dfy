/** Whole calls and whole return data, and what the value-level results mean for them. */
module AbiCalls {
  import opened Options
  import opened Words
  import opened AbiTypes
  import opened AbiEncode
  import opened AbiDecode
  import opened AbiRoundTrip
  import opened AbiStatic
  import opened AbiCalldata
  import opened AbiPlans
  import opened AbiPlanCaps
  import opened AbiStrict
  import opened AbiModes

  type Store = map<string, Value>

  function InsertValues(names: seq<string>, values: seq<Value>, store: Store): Option<Store> {
    if names == [] && values == [] then Some(store)
    else if names == [] || values == [] then None
    else InsertValues(names[1..], values[1..], store[names[0] := values[0]])
  }

  function DecodeFlatArgs(names: seq<string>, types: seq<AbiType>, bytes: seq<Byte>, mode: DecodeMode): Option<Store> {
    if types == [] then if names == [] then Some(map[]) else None
    else
      var headSize :- TupleHeadSize(types);
      if |bytes| < headSize then None
      else
        var r :- DecodeValues(types, bytes, 0, 0, headSize, mode);
        InsertValues(names, r.0, map[])
  }

  lemma {:induction false} InsertUnfolds(names: seq<string>, values: seq<Value>, store: Store)
    ensures names == [] || values == [] ==>
              InsertValues(names, values, store) == if names == [] && values == [] then Some(store) else None
    ensures names != [] && values != [] ==>
              InsertValues(names, values, store) == InsertValues(names[1..], values[1..], store[names[0] := values[0]])
  {
  }

  /** Every name is bound to its value, the last one of a name that occurs twice. */
  ghost predicate Binds(names: seq<string>, values: seq<Value>, after: Store)
    requires |names| == |values|
  {
    forall i :: 0 <= i < |names| && LastOfItsName(names, i) ==> names[i] in after && after[names[i]] == values[i]
  }

  predicate LastOfItsName(names: seq<string>, i: nat)
    requires i < |names|
  {
    forall j :: i < j < |names| ==> names[j] != names[i]
  }

  /** Nothing else is bound or changed. */
  ghost predicate BindsOnly(names: seq<string>, before: Store, after: Store) {
    forall x :: x !in names ==> (x in after <==> x in before) && (x in after && x in before ==> after[x] == before[x])
  }

  /** Inserting binds exactly the names, and needs as many values as names. */
  lemma {:induction false} InsertedExactly(names: seq<string>, values: seq<Value>, store: Store)
    ensures InsertValues(names, values, store).Some? <==> |names| == |values|
    ensures |names| == |values| ==>
              var after := InsertValues(names, values, store).value;
              Binds(names, values, after) && BindsOnly(names, store, after)
    decreases names
  {
    hide InsertValues, Binds, BindsOnly;
    InsertUnfolds(names, values, store);
    if names != [] && values != [] {
      var next := store[names[0] := values[0]];
      InsertedExactly(names[1..], values[1..], next);
      if |names| == |values| {
        var after := InsertValues(names, values, store).value;
        OthersKept(names, store, values[0], after);
        FirstBound(names, next, after);
        BindsStep(names, values, after);
      }
    } else if names == [] && values == [] {
      NothingBound(store);
    }
  }

  lemma {:induction false} NothingBound(store: Store)
    ensures Binds([], [], store) && BindsOnly([], store, store)
  {
  }

  lemma {:induction false} OthersKept(names: seq<string>, before: Store, v: Value, after: Store)
    requires names != [] && BindsOnly(names[1..], before[names[0] := v], after)
    ensures BindsOnly(names, before, after)
  {
    forall x | x !in names
      ensures (x in after <==> x in before) && (x in after && x in before ==> after[x] == before[x])
    {
      assert x !in names[1..] && x != names[0];
    }
  }

  lemma {:induction false} FirstBound(names: seq<string>, next: Store, after: Store)
    requires names != [] && names[0] in next && BindsOnly(names[1..], next, after)
    ensures LastOfItsName(names, 0) ==> names[0] in after && after[names[0]] == next[names[0]]
  {
    if LastOfItsName(names, 0) {
      assert names[0] !in names[1..];
    }
  }

  lemma {:induction false} LastLater(names: seq<string>, i: nat)
    requires 0 < i < |names| && LastOfItsName(names, i)
    ensures names[1..][i - 1] == names[i] && LastOfItsName(names[1..], i - 1)
  {
    forall j | i - 1 < j < |names| - 1 ensures names[1..][j] != names[i] {
      assert names[1..][j] == names[j + 1];
    }
  }

  lemma {:induction false} BindsStep(names: seq<string>, values: seq<Value>, after: Store)
    requires names != [] && |names| == |values| && Binds(names[1..], values[1..], after)
    requires LastOfItsName(names, 0) ==> names[0] in after && after[names[0]] == values[0]
    ensures Binds(names, values, after)
  {
    hide LastOfItsName;
    forall i | 0 <= i < |names| && LastOfItsName(names, i) ensures names[i] in after && after[names[i]] == values[i] {
      if i > 0 {
        LastLater(names, i);
        assert values[1..][i - 1] == values[i];
      }
    }
  }

  predicate TotalSizeGuard(types: seq<AbiType>) {
    types == [StringType] || types == [BytesType]
  }

  function DecodePlannedArgs(names: seq<string>, types: seq<AbiType>, calldata: seq<Byte>,
          table: PlanTable): Option<Store> {
    var values :- DecodeArgs(table, types, calldata);
    InsertValues(names, values, map[])
  }

  /** Modern decoders compare sizes as signed words, so they reject inputs of 2^255 bytes or more. */
  function DecodeCalldata(names: seq<string>, types: seq<AbiType>, calldata: seq<Byte>,
          mode: DecodeMode): Option<Store> {
    if |calldata| < 4 then None
    else
      var args := calldata[4..];
      match mode
      case Solc08Calldata(table) => DecodePlannedArgs(names, types, calldata, table)
      case Vyper => DecodeFlatArgs(names, types, args, mode)
      case LegacySolc05 => DecodeFlatArgs(names, types, args, mode)
      case _ =>
        if AnyDynamic(types) && SIGN_BIT <= |calldata| then None
        else if types != [] && SIGN_BIT <= |args| then None
        else if TotalSizeGuard(types) && SIGN_BIT <= |calldata| then None
        else DecodeFlatArgs(names, types, args, mode)
  }

  /** Calls of 2^255 bytes are rejected by the decoders that compare sizes as signed words, and by no other for that. */
  lemma {:induction false} HugeCalls(names: seq<string>, types: seq<AbiType>, calldata: seq<Byte>, mode: DecodeMode)
    requires 4 <= |calldata| && !mode.Solc08Calldata?
    ensures mode.Modern? || mode.Solc0815? ==>
              && (AnyDynamic(types) && |calldata| >= SIGN_BIT ==> DecodeCalldata(names, types, calldata, mode) == None)
              && (types != [] && |calldata| - 4 >= SIGN_BIT ==> DecodeCalldata(names, types, calldata, mode) == None)
              && (!AnyDynamic(types) && |calldata| - 4 < SIGN_BIT ==>
                    DecodeCalldata(names, types, calldata, mode) == DecodeFlatArgs(names, types, calldata[4..], mode))
    ensures mode.Vyper? || mode.LegacySolc05? ==>
              DecodeCalldata(names, types, calldata, mode) == DecodeFlatArgs(names, types, calldata[4..], mode)
  {
    hide DecodeFlatArgs;
    if !AnyDynamic(types) {
      assert types != [StringType] && types != [BytesType] by { OneIsDynamic(); }
    }
  }

  lemma {:induction false} OneIsDynamic()
    ensures AnyDynamic([StringType]) && AnyDynamic([BytesType])
  {
  }

  function DecodeReturnValues(mode: DecodeMode, types: seq<AbiType>, returndata: seq<Byte>): Option<seq<Value>> {
    match mode
    case Solc08Calldata(_) => DecodeReturns(types, returndata)
    case Vyper => DecodeFlatReturns(mode, types, returndata)
    case LegacySolc05 => DecodeFlatReturns(mode, types, returndata)
    case _ =>
      if types != [] && SIGN_BIT <= |returndata| then None
      else DecodeFlatReturns(Modern, types, returndata)
  }

  function DecodeFlatReturns(mode: DecodeMode, types: seq<AbiType>, returndata: seq<Byte>): Option<seq<Value>> {
    var headSize :- TupleHeadSize(types);
    var r :- DecodeValues(types, returndata, 0, 0, headSize, mode);
    Some(r.0)
  }

  // ----- plan tables -----

  /** The plans a table lists for a selector: those of its first entry for it, none if it has no entry. */
  ghost predicate Lists(table: PlanTable, selector: nat, plans: seq<CalldataPlan>) {
    || (exists i :: 0 <= i < |table| && table[i] == (selector, plans) && NotIn(table[..i], selector))
    || (plans == [] && NotIn(table, selector))
  }

  /** No entry of the table is for the selector. */
  predicate NotIn(table: PlanTable, selector: nat) {
    forall i :: 0 <= i < |table| ==> table[i].0 != selector
  }

  /** The first four bytes, or as many as there are. */
  function SelectorOf(calldata: seq<Byte>): nat {
    BytesToNat(if |calldata| < 4 then calldata else calldata[..4])
  }

  /** The arguments under plans, once their heads are known to be there. */
  function DecodeUnder(plans: seq<CalldataPlan>, types: seq<AbiType>, calldata: seq<Byte>): Option<seq<Value>> {
    if types == [] then Some([])
    else if SignedLess(SubWord(|calldata|, 4), HeadSize(types)) then None
    else PlanDecodeFields(types, calldata, 4, 0, plans, true)
  }

  /** A table decides by what it lists for the selector of the call, and by nothing else. */
  lemma {:induction false} TableDecides(table: PlanTable, plans: seq<CalldataPlan>, types: seq<AbiType>,
          calldata: seq<Byte>)
    requires Lists(table, SelectorOf(calldata), plans)
    ensures DecodeArgs(table, types, calldata) == DecodeUnder(plans, types, calldata)
  {
    hide PlanDecodeFields, SignedLess, SubWord, PlansFor, BytesToNat, Lists;
    ListedPlans(table, SelectorOf(calldata), plans);
  }

  lemma {:induction false} ListedPlans(table: PlanTable, selector: nat, plans: seq<CalldataPlan>)
    requires Lists(table, selector, plans)
    ensures PlansFor(table, selector) == plans
    decreases table
  {
    if table != [] && table[0].0 != selector {
      if i :| 0 <= i < |table| && table[i] == (selector, plans) && NotIn(table[..i], selector) {
        assert table[1..][i - 1] == table[i];
        var front: PlanTable := table[1..][..i - 1];
        forall j | 0 <= j < |front| ensures front[j].0 != selector {
          assert front[j] == table[..i][j + 1];
        }
        assert Lists(table[1..], selector, plans);
      }
      ListedPlans(table[1..], selector, plans);
    }
  }

  /** Every table lists something for every selector. */
  lemma {:induction false} SomethingListed(table: PlanTable, selector: nat) returns (plans: seq<CalldataPlan>)
    ensures Lists(table, selector, plans)
    decreases table
  {
    if table == [] {
      plans := [];
    } else if table[0].0 == selector {
      plans := table[0].1;
      assert table[0] == (selector, plans) && NotIn(table[..0], selector);
    } else {
      plans := SomethingListed(table[1..], selector);
      if i :| 0 <= i < |table[1..]| && table[1..][i] == (selector, plans) && NotIn(table[1..][..i], selector) {
        var front: PlanTable := table[..i + 1];
        forall j | 0 <= j < |front| ensures front[j].0 != selector {
          if j > 0 {
            assert front[j] == table[1..][..i][j - 1];
          }
        }
        assert table[i + 1] == (selector, plans) && NotIn(table[..i + 1], selector);
      } else {
        forall j | 0 <= j < |table| ensures table[j].0 != selector {
          if j > 0 {
            assert table[j] == table[1..][j - 1];
          }
        }
      }
    }
  }

  /** A call whose selector is not listed decodes as without any table. */
  lemma {:induction false} UnlistedIsDefault(table: PlanTable, types: seq<AbiType>, calldata: seq<Byte>)
    requires NotIn(table, SelectorOf(calldata))
    ensures DecodeArgs(table, types, calldata) == DecodeArgs([], types, calldata)
  {
    hide PlanDecodeFields, SignedLess, SubWord, PlansFor, BytesToNat, DecodeArgs, DecodeUnder;
    TableDecides(table, [], types, calldata);
    TableDecides([], [], types, calldata);
  }

  /** An entry for another selector, wherever it stands, makes no difference. */
  lemma {:induction false} OtherEntriesDoNotMatter(before: PlanTable, entry: (nat, seq<CalldataPlan>), after: PlanTable,
          types: seq<AbiType>, calldata: seq<Byte>)
    requires entry.0 != SelectorOf(calldata)
    ensures DecodeArgs(before + [entry] + after, types, calldata) == DecodeArgs(before + after, types, calldata)
  {
    hide PlanDecodeFields, SignedLess, SubWord, PlansFor, BytesToNat, DecodeArgs, DecodeUnder, Lists;
    var plans := SomethingListed(before + after, SelectorOf(calldata));
    EntryInserted(before, entry, after, SelectorOf(calldata), plans);
    TableDecides(before + after, plans, types, calldata);
    TableDecides(before + [entry] + after, plans, types, calldata);
  }

  lemma {:induction false} EntryInserted(before: PlanTable, entry: (nat, seq<CalldataPlan>), after: PlanTable,
          selector: nat, plans: seq<CalldataPlan>)
    requires entry.0 != selector && Lists(before + after, selector, plans)
    ensures Lists(before + [entry] + after, selector, plans)
  {
    var short: PlanTable := before + after;
    var long: PlanTable := before + [entry] + after;
    var k := |before|;
    if i :| 0 <= i < |short| && short[i] == (selector, plans) && NotIn(short[..i], selector) {
      var i' := if i < k then i else i + 1;
      assert long[i'] == short[i];
      forall j | 0 <= j < i' ensures long[..i'][j].0 != selector {
        if j < k {
          assert long[..i'][j] == short[..i][j];
        } else if j > k {
          assert long[..i'][j] == short[..i][j - 1];
        }
      }
      assert long[i'] == (selector, plans) && NotIn(long[..i'], selector);
    } else {
      forall j | 0 <= j < |long| ensures long[j].0 != selector {
        if j < k {
          assert long[j] == short[j];
        } else if j > k {
          assert long[j] == short[j - 1];
        }
      }
    }
  }

  // ----- round trips -----

  lemma {:induction false} FlatRoundTrip(types: seq<AbiType>, values: seq<Value>, enc: seq<Byte>, mode: DecodeMode)
    requires EncodeValues(types, values) == Some(enc) && |enc| < WORD_MODULUS && FieldCountsAreWords(types, values)
    ensures DecodeValues(types, enc, 0, 0, HeadSize(types), mode) ==
            Answer(FieldsWithinCaps(types, values, HeadSize(types), CapsOf(mode)), CanonFields(types, values), |enc|)
    ensures HeadSize(types) <= |enc|
  {
    hide DecodeValues, EncodeValuesFrom, FieldsWithinCaps, CanonFields, FieldCountsAreWords;
    assert At(enc, 0, enc);
    RoundTripFields(types, values, HeadSize(types), [], [], enc, enc, 0, mode);
    EncodedFieldsShape(types, values, HeadSize(types), [], []);
  }

  /**
   Calls round-trip: for every decoder that follows no plan, decoding selector ++ encoding binds the
   canonical arguments exactly when the lengths and offsets are within its caps.
   */
  lemma {:induction false} CallRoundTrip(names: seq<string>, types: seq<AbiType>, values: seq<Value>,
          selector: seq<Byte>,
                      calldata: seq<Byte>, mode: DecodeMode)
    requires |selector| == 4 && EncodeCallWithSelector(selector, types, values) == Some(calldata)
    requires |calldata| < SIGN_BIT && FieldCountsAreWords(types, values) && !mode.Solc08Calldata?
    ensures DecodeCalldata(names, types, calldata, mode) ==
            if FieldsWithinCaps(types, values, HeadSize(types), CapsOf(mode))
            then InsertValues(names, CanonFields(types, values), map[])
            else None
  {
    hide DecodeValues, FieldCountsAreWords, EncodeValuesFrom;
    var enc := EncodeValues(types, values).value;
    assert calldata[4..] == enc;
    FlatRoundTrip(types, values, enc, mode);
  }

  /**
   Under every plan table, deferred errors included, a call decodes to what the plans listed for its
   selector make of its arguments.  Within caps of 2^64 - 1 on lengths and offsets this is the canonical
   arguments whatever the plans are; if all arguments are copied, calls beyond the caps are rejected.
   */
  lemma {:induction false} PlannedCallRoundTrip(names: seq<string>, types: seq<AbiType>, values: seq<Value>,
          selector: seq<Byte>, calldata: seq<Byte>, table: PlanTable, plans: seq<CalldataPlan>)
    requires |selector| == 4 && EncodeCallWithSelector(selector, types, values) == Some(calldata)
    requires |calldata| < SIGN_BIT && FieldCountsAreWords(types, values)
    requires Lists(table, BytesToNat(selector), plans)
    ensures var fits := FieldsWithinCaps(types, values, HeadSize(types), EAGER_CAPS);
            && DecodeArgs(table, types, calldata) == FieldsAnswer(types, values, HeadSize(types), plans, true)
            && (fits ==> DecodeArgs(table, types, calldata) == Some(CanonFields(types, values)))
            && ((forall p :: p in plans ==> Eager(p)) && !fits ==> DecodeArgs(table, types, calldata) == None)
    ensures DecodeCalldata(names, types, calldata, Solc08Calldata(table)) ==
            match DecodeArgs(table, types, calldata)
            case None => None
            case Some(args) => InsertValues(names, args, map[])
  {
    hide PlanDecodeFields, FieldsWithinCaps, FieldCountsAreWords, EncodeValuesFrom, SignedLess, SubWord, PlansFor, At,
         FieldsAnswer, CanonFields, Eager, Lists, DecodeArgs;
    var enc := EncodeValues(types, values).value;
    assert calldata[..4] == selector;
    TableDecides(table, plans, types, calldata);
    CopiedFieldsExactly(types, values, plans);
    if FieldsWithinCaps(types, values, HeadSize(types), EAGER_CAPS) {
      FieldPlansAgree(types, values, HeadSize(types), plans, true);
    }
    if types == [] {
      NoFields(values, plans);
    } else {
      assert At(calldata, 4, enc) by { SuffixStands(selector, enc); }
      EncodedFieldsShape(types, values, HeadSize(types), [], []);
      AtBound(enc, HeadSize(types), []);
      HeadFits(calldata, 4, HeadSize(types));
      PlanFields(types, values, HeadSize(types), [], [], enc, calldata, 4, plans, true);
    }
  }

  lemma {:induction false} NoFields(values: seq<Value>, plans: seq<CalldataPlan>)
    ensures FieldsAnswer([], values, HeadSize([]), plans, true) == Some([])
  {
  }

  /** Copied arguments: canonical within the caps, rejected beyond them. */
  lemma {:induction false} CopiedFieldsExactly(types: seq<AbiType>, values: seq<Value>, plans: seq<CalldataPlan>)
    requires EncodeValues(types, values).Some?
    ensures (forall p :: p in plans ==> Eager(p)) ==>
              FieldsAnswer(types, values, HeadSize(types), plans, true)
              == if FieldsWithinCaps(types, values, HeadSize(types), EAGER_CAPS) then Some(CanonFields(types, values))
                 else None
  {
    hide FieldsAnswer, EncodeValuesFrom, FieldsWithinCaps, CanonFields;
    if forall p :: p in plans ==> Eager(p) {
      forall p | p in plans ensures Uniform(p, true) {
        assert Eager(p);
      }
      FieldPlansExactly(types, values, HeadSize(types), [], [], plans, true);
    }
  }

  lemma {:induction false} SuffixStands(prefix: seq<Byte>, part: seq<Byte>)
    ensures At(prefix + part, |prefix|, part)
  {
  }

  /** The caps on return data: the copying decoder caps every offset. */
  function ReturnCaps(mode: DecodeMode): Caps {
    if mode.Solc08Calldata? then EAGER_CAPS else CapsOf(mode)
  }

  /** Return data round-trips in every mode exactly when its lengths and offsets are within the mode's caps. */
  lemma {:induction false} ReturnRoundTrip(mode: DecodeMode, types: seq<AbiType>, values: seq<Value>,
          returndata: seq<Byte>)
    requires EncodeReturnValues(types, values) == Some(returndata)
    requires |returndata| < SIGN_BIT && FieldCountsAreWords(types, values)
    ensures DecodeReturnValues(mode, types, returndata)
            == if FieldsWithinCaps(types, values, HeadSize(types), ReturnCaps(mode)) then Some(CanonFields(types, values))
               else None
  {
    hide DecodeValues, PlanDecodeFields, FieldCountsAreWords, EncodeValuesFrom, FieldsWithinCaps, SignedLess,
         FieldsAnswer, CanonFields;
    if mode.Solc08Calldata? {
      FlatRoundTrip(types, values, returndata, Modern);
      assert At(returndata, 0, returndata);
      ReturnHeadFits(returndata, HeadSize(types));
      PlanFields(types, values, HeadSize(types), [], [], returndata, returndata, 0, [], true);
      CopiedFieldsExactly(types, values, []);
    } else {
      FlatRoundTrip(types, values, returndata, if mode.Solc0815? then Modern else mode);
    }
  }

  lemma {:induction false} ReturnHeadFits(returndata: seq<Byte>, headSize: nat)
    requires headSize <= |returndata| < SIGN_BIT
    ensures !SignedLess(|returndata|, headSize)
  {
  }

  /** Return data has no 0.8.15 form of its own, and the copying decoder follows no plan in it. */
  lemma {:induction false} ReturnModes(types: seq<AbiType>, returndata: seq<Byte>, plans: PlanTable)
    ensures DecodeReturnValues(Solc0815, types, returndata) == DecodeReturnValues(Modern, types, returndata)
    ensures DecodeReturnValues(Solc08Calldata(plans), types, returndata)
            == DecodeReturnValues(Solc08Calldata([]), types, returndata)
    ensures types != [] && |returndata| >= SIGN_BIT ==> DecodeReturnValues(Modern, types, returndata) == None
  {
    hide DecodeFlatReturns, DecodeReturns;
  }

  // ----- the failure marker -----

  predicate HasMarker(v: Value) {
    match v
    case Struct(_, _) => true
    case Array(elems) => AnyMarker(elems)
    case Tuple(elems) => AnyMarker(elems)
    case _ => false
  }

  predicate AnyMarker(values: seq<Value>) {
    exists v :: v in values && HasMarker(v)
  }

  /** Canonical values contain no failure marker, so on canonical calls no deferred check can fail. */
  lemma {:induction false} CanonHasNoMarker(ty: AbiType, v: Value)
    requires EncodeValue(ty, v).Some?
    ensures !HasMarker(Canon(ty, v)) && !HasMarker(v)
    decreases ty, 0, 0
  {
    hide EncodeElem, EncodeStaticElems, EncodeDynamicElemsFrom, EncodeValuesFrom, CanonElems, CanonFields, RawBools;
    match ty
    case Elem(e) => ElemHasNoMarker(e, v);
    case ArrayType(item, n) => ElemsHaveNoMarker(item, v.elems);
    case TupleType(items) => FieldsHaveNoMarker(items, v.elems, HeadSize(items), [], []);
    case DynamicArray(item) =>
      ElemsHaveNoMarker(item, v.elems);
      RawBoolsHaveNoMarker(v.elems);
    case _ =>
  }

  lemma {:induction false} ElemHasNoMarker(e: ElemType, v: Value)
    requires EncodeElem(e, v).Some?
    ensures !HasMarker(v)
  {
    if v.Array? {
      ByteValuesHaveNoMarker(v.elems);
    }
  }

  lemma {:induction false} ByteValuesHaveNoMarker(values: seq<Value>)
    requires ValuesToBytes(values).Some?
    ensures !AnyMarker(values)
  {
    hide ValuesToBytes;
    BytesOfValues(values);
    forall v | v in values ensures !HasMarker(v) {
      var i :| 0 <= i < |values| && values[i] == v;
      assert v == BytesToValues(ValuesToBytes(values).value)[i];
    }
  }

  lemma {:induction false} RawBoolsHaveNoMarker(values: seq<Value>)
    ensures !AnyMarker(RawBools(values))
  {
    if values != [] {
      RawBoolsHaveNoMarker(values[1..]);
      var raw := RawBools(values)[0];
      assert raw.elems[0] == Unit && raw.elems[1].Int?;
    }
  }

  lemma {:induction false} ElemsHaveNoMarker(item: AbiType, values: seq<Value>)
    requires EncodeArrayElems(item, values).Some?
    ensures !AnyMarker(CanonElems(item, values)) && !AnyMarker(values)
    decreases item, |values| + 1, 6
  {
    hide EncodeStaticElems, EncodeDynamicElemsFrom, CanonElems;
    EachEncodes(item, values);
    forall i | 0 <= i < |values| ensures !HasMarker(Canon(item, values[i])) && !HasMarker(values[i]) {
      CanonHasNoMarker(item, values[i]);
    }
    CanonElemsAt(item, values);
  }

  lemma {:induction false} CanonElemsAt(item: AbiType, values: seq<Value>)
    ensures forall i :: 0 <= i < |values| ==> CanonElems(item, values)[i] == Canon(item, values[i])
  {
    hide Canon;
    if values != [] {
      CanonElemsAt(item, values[1..]);
    }
  }

  lemma {:induction false} FieldsHaveNoMarker(types: seq<AbiType>, values: seq<Value>, headSize: nat, head: seq<Byte>,
          tail: seq<Byte>)
    requires EncodeValuesFrom(types, values, headSize, head, tail).Some?
    ensures !AnyMarker(CanonFields(types, values)) && !AnyMarker(values)
    decreases types, |values|, 1
  {
    hide EncodeValue, Canon, HasMarker;
    if types != [] {
      CanonHasNoMarker(types[0], values[0]);
      var enc := EncodeValue(types[0], values[0]).value;
      if IsDynamic(types[0]) {
        FieldsHaveNoMarker(types[1..], values[1..], headSize, head + WordBytes(headSize + |tail|), tail + enc);
      } else {
        FieldsHaveNoMarker(types[1..], values[1..], headSize, head + enc, tail);
      }
    }
  }

  // ----- the order of the decoders -----

  /** A call accepted with everything copied is accepted, with the same arguments, under every plan table. */
  lemma {:induction false} CopiedCallIsStrict(eager: PlanTable, copies: seq<CalldataPlan>, table: PlanTable,
          types: seq<AbiType>, calldata: seq<Byte>, values: seq<Value>)
    requires 4 <= |calldata| < SIGN_BIT && AllSmall(types) && HeadSize(types) < SIZE_LIMIT
    requires Lists(eager, SelectorOf(calldata), copies) && forall p :: p in copies ==> Eager(p)
    requires DecodeArgs(eager, types, calldata) == Some(values)
    ensures DecodeArgs(table, types, calldata) == Some(values)
  {
    hide PlanDecodeFields, AllSmall, SignedLess, SubWord, PlansFor, DecodeValues, Lists, BytesToNat, DecodeArgs;
    var plans := SomethingListed(table, SelectorOf(calldata));
    TableDecides(eager, copies, types, calldata);
    TableDecides(table, plans, types, calldata);
    if types != [] {
      HeadChecked(calldata, 4, HeadSize(types));
      EagerFields(types, calldata, 4, 0, copies, values);
      assert PlanDecodeFields(types, calldata, 4, 0, plans, true) == Some(values);
    }
  }

  /** Return data: copying 0.8 decoder, Vyper, modern, in order of acceptance and with equal values. */
  lemma {:induction false} ReturnDecodersOrdered(plans: PlanTable, types: seq<AbiType>, returndata: seq<Byte>)
    requires |returndata| < SIGN_BIT && AllSmall(types) && HeadSize(types) < SIZE_LIMIT
    ensures var copied := DecodeReturnValues(Solc08Calldata(plans), types, returndata);
            copied.Some? ==> DecodeReturnValues(Vyper, types, returndata) == copied
    ensures var vyper := DecodeReturnValues(Vyper, types, returndata);
            vyper.Some? ==> DecodeReturnValues(Modern, types, returndata) == vyper
  {
    hide PlanDecodeFields, AllSmall, SignedLess, DecodeValues;
    var copied := DecodeReturnValues(Solc08Calldata(plans), types, returndata);
    if copied.Some? {
      ReturnHeadChecked(types, returndata);
      EagerFields(types, returndata, 0, 0, [], copied.value);
      assert DecodeValues(types, returndata, 0, 0, HeadSize(types), Vyper).value.0 == copied.value;
    }
    FieldsRefine(types, returndata, 0, 0, HeadSize(types), HeadSize(types), Vyper, Modern);
  }

  lemma {:induction false} ReturnHeadChecked(types: seq<AbiType>, returndata: seq<Byte>)
    requires |returndata| < SIGN_BIT && HeadSize(types) < SIZE_LIMIT
    requires types == [] || !SignedLess(|returndata|, HeadSize(types))
    ensures HeadSize(types) <= |returndata|
  {
  }
}
