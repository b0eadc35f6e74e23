/**
 What calldata plans make of values within the caps and beyond them: within the caps all plans agree, and
 a plan that copies everything, or references everything, rejects exactly the values beyond its caps.
 */
module AbiPlanCaps {
  import opened Options
  import opened Words
  import opened AbiTypes
  import opened AbiEncode
  import opened AbiDecode
  import opened AbiRoundTrip
  import opened AbiStatic
  import opened AbiCalldata
  import opened AbiPlans

  lemma {:induction false} EachEncodes(item: AbiType, values: seq<Value>)
    requires EncodeArrayElems(item, values).Some?
    ensures forall i :: 0 <= i < |values| ==> EncodeValue(item, values[i]).Some?
  {
    hide EncodeValue;
    if IsDynamic(item) {
      EachDynamicEncodes(item, values, |values| * 32, [], []);
    } else {
      EachStaticEncodes(item, values);
    }
  }

  lemma {:induction false} EachDynamicEncodes(item: AbiType, values: seq<Value>, headSize: nat, head: seq<Byte>,
          tail: seq<Byte>)
    requires EncodeDynamicElemsFrom(item, values, headSize, head, tail).Some?
    ensures forall i :: 0 <= i < |values| ==> EncodeValue(item, values[i]).Some?
    decreases |values|
  {
    hide EncodeValue;
    if values != [] {
      EachDynamicEncodes(item, values[1..], headSize, head + WordBytes(headSize + |tail|), tail + EncodeValue(item,
              values[0]).value);
    }
  }

  lemma {:induction false} EachStaticEncodes(item: AbiType, values: seq<Value>)
    requires EncodeStaticElems(item, values).Some?
    ensures forall i :: 0 <= i < |values| ==> EncodeValue(item, values[i]).Some?
  {
    hide EncodeValue;
    if values != [] {
      EachStaticEncodes(item, values[1..]);
    }
  }

  // ----- within the caps every plan gives the canonical value -----

  lemma {:induction false} PlansAgree(ty: AbiType, v: Value, plan: CalldataPlan)
    requires WithinCaps(ty, v, EAGER_CAPS)
    ensures PlanAnswer(ty, v, plan) == Some(Canon(ty, v))
    decreases ty, 0, 0
  {
    hide ElemsAnswer, FieldsAnswer, CanonElems, CanonFields, RawBools, ElemsWithinCaps, FieldsWithinCaps, InOnePiece;
    match ty
    case TupleType(items) =>
      if AnyDynamic(items) {
        FieldPlansAgree(items, v.elems, HeadSize(items), FieldPlans(plan, 0, |items|), IsMemory(plan));
      }
    case ArrayType(item, _) => ElemPlansAgree(item, v.elems, |v.elems| * 32, plan, false);
    case DynamicArray(item) => ElemPlansAgree(item, v.elems, |v.elems| * 32, plan, true);
    case _ =>
  }

  lemma {:induction false} ElemPlansAgree(item: AbiType, values: seq<Value>, offset: nat, plan: CalldataPlan,
          rawBools: bool)
    requires ElemsWithinCaps(item, values, offset, EAGER_CAPS)
    ensures ElemsAnswer(item, values, offset, plan, rawBools) == Some(CanonArray(item, values, rawBools))
    decreases item, |values|, 1
  {
    hide PlanAnswer, WithinCaps, Canon, EncodedSize, IsDynamic;
    if values != [] {
      PlansAgree(item, values[0], Child(plan, Element));
      ElemPlansAgree(item, values[1..], offset + EncodedSize(item, values[0]), plan, rawBools);
    }
  }

  lemma {:induction false} FieldPlansAgree(types: seq<AbiType>, values: seq<Value>, offset: nat,
          plans: seq<CalldataPlan>, memory: bool)
    requires FieldsWithinCaps(types, values, offset, EAGER_CAPS)
    ensures FieldsAnswer(types, values, offset, plans, memory) == Some(CanonFields(types, values))
    decreases types, |values|, 1
  {
    hide PlanAnswer, WithinCaps, Canon, EncodedSize, IsDynamic;
    if types != [] && values != [] {
      PlansAgree(types[0], values[0], if plans == [] then DEFAULT_PLAN else plans[0]);
      FieldPlansAgree(types[1..], values[1..], AfterField(types[0], values[0], offset),
                      if plans == [] then [] else plans[1..], memory);
    }
  }

  // ----- plans that treat everything alike -----

  /** No error is deferred, and everything is copied or everything is referenced. */
  predicate Uniform(plan: CalldataPlan, copies: bool) {
    plan.deferErrors == [] && (if copies then IsMemory(plan) else plan.materialize == [])
  }

  lemma {:induction false} ChildUniform(plan: CalldataPlan, copies: bool, step: CalldataStep)
    requires Uniform(plan, copies)
    ensures Uniform(Child(plan, step), copies) && IsMemory(plan) == copies
  {
  }

  lemma {:induction false} FieldPlansUniform(plan: CalldataPlan, copies: bool, from: nat, count: nat)
    requires Uniform(plan, copies) && from <= count
    ensures forall p :: p in FieldPlans(plan, from, count) ==> Uniform(p, copies)
    decreases count - from
  {
    hide Uniform;
    if from < count {
      ChildUniform(plan, copies, Field(from));
      FieldPlansUniform(plan, copies, from + 1, count);
    }
  }

  /**
   A plan that copies everything, or references everything, gives the canonical value of an encodable
   value exactly within its caps, and rejects it otherwise.
   */
  lemma {:induction false} PlansExactly(ty: AbiType, v: Value, plan: CalldataPlan, copies: bool)
    requires EncodeValue(ty, v).Some? && Uniform(plan, copies)
    ensures PlanAnswer(ty, v, plan) == if WithinCaps(ty, v, PlanCaps(copies)) then Some(Canon(ty, v)) else None
    decreases ty, 0, 0
  {
    hide ElemsAnswer, FieldsAnswer, CanonElems, CanonFields, RawBools, ElemsWithinCaps, FieldsWithinCaps, InOnePiece,
         EncodeElem, EncodeArrayElems, EncodeValuesFrom, Uniform;
    match ty
    case TupleType(items) =>
      if AnyDynamic(items) {
        ChildUniform(plan, copies, Element);
        FieldPlansUniform(plan, copies, 0, |items|);
        FieldPlansExactly(items, v.elems, HeadSize(items), [], [], FieldPlans(plan, 0, |items|), copies);
      } else {
        StaticTransparent(ty, v, PlanCaps(copies));
      }
    case ArrayType(item, n) => ArrayPlansExactly(item, v.elems, plan, copies, false);
    case DynamicArray(item) => ArrayPlansExactly(item, v.elems, plan, copies, true);
    case _ =>
  }

  /** The elements of an array, in one piece or one by one. */
  lemma {:induction false} ArrayPlansExactly(item: AbiType, values: seq<Value>, plan: CalldataPlan, copies: bool,
          rawBools: bool)
    requires EncodeArrayElems(item, values).Some? && Uniform(plan, copies)
    ensures InOnePiece(item, plan) ==> ElemsWithinCaps(item, values, |values| * 32, PlanCaps(copies))
    ensures ElemsAnswer(item, values, |values| * 32, plan, rawBools)
            == if ElemsWithinCaps(item, values, |values| * 32, PlanCaps(copies))
               then Some(CanonArray(item, values, rawBools)) else None
    decreases item, |values| + 1, 3
  {
    hide ElemsAnswer, EncodeStaticElems, EncodeDynamicElemsFrom, ElemsWithinCaps, Uniform, CanonArray;
    EachEncodes(item, values);
    ElemPlansExactly(item, values, |values| * 32, plan, copies, rawBools);
    if !IsDynamic(item) {
      StaticElemsTransparent(item, values, |values| * 32, PlanCaps(copies));
    }
  }

  lemma {:induction false} ElemPlansExactly(item: AbiType, values: seq<Value>, offset: nat, plan: CalldataPlan,
          copies: bool, rawBools: bool)
    requires (forall i :: 0 <= i < |values| ==> EncodeValue(item, values[i]).Some?) && Uniform(plan, copies)
    ensures ElemsAnswer(item, values, offset, plan, rawBools)
            == if ElemsWithinCaps(item, values, offset, PlanCaps(copies))
               then Some(CanonArray(item, values, rawBools)) else None
    decreases item, |values| + 1, 2
  {
    hide PlanAnswer, WithinCaps, Canon, EncodedSize, IsDynamic, EncodeValue, Uniform;
    if values != [] {
      ChildUniform(plan, copies, Element);
      UniformRetains(Child(plan, Element), copies);
      PlansExactly(item, values[0], Child(plan, Element), copies);
      BoolsWithinCaps(item, values[0], copies);
      ElemPlansExactly(item, values[1..], offset + EncodedSize(item, values[0]), plan, copies, rawBools);
    }
  }

  lemma {:induction false} UniformRetains(plan: CalldataPlan, copies: bool)
    requires Uniform(plan, copies)
    ensures forall v :: RetainFailure(plan, v) == v
  {
  }

  lemma {:induction false} DefaultUniform()
    ensures Uniform(DEFAULT_PLAN, true)
  {
  }

  lemma {:induction false} BoolsWithinCaps(item: AbiType, v: Value, copies: bool)
    ensures item == Elem(BoolType) ==> WithinCaps(item, v, PlanCaps(copies)) && !IsDynamic(item)
  {
  }

  lemma {:induction false} FieldPlansExactly(types: seq<AbiType>, values: seq<Value>, headSize: nat, head: seq<Byte>,
          tail: seq<Byte>, plans: seq<CalldataPlan>, copies: bool)
    requires EncodeValuesFrom(types, values, headSize, head, tail).Some?
    requires (copies || |plans| >= |types|) && forall p :: p in plans ==> Uniform(p, copies)
    ensures FieldsAnswer(types, values, headSize + |tail|, plans, copies)
            == if FieldsWithinCaps(types, values, headSize + |tail|, PlanCaps(copies))
               then Some(CanonFields(types, values)) else None
    decreases types, |values| + 1, 2
  {
    hide PlanAnswer, WithinCaps, Canon, IsDynamic, EncodeValue, Uniform, RetainFailure;
    if types != [] {
      var enc := EncodeValue(types[0], values[0]).value;
      var plan := if plans == [] then DEFAULT_PLAN else plans[0];
      var plans' := if plans == [] then [] else plans[1..];
      assert Uniform(plan, copies) by { DefaultUniform(); }
      PlansExactly(types[0], values[0], plan, copies);
      UniformRetains(plan, copies);
      if IsDynamic(types[0]) {
        FieldPlansExactly(types[1..], values[1..], headSize, head + WordBytes(headSize + |tail|), tail + enc, plans',
                copies);
      } else {
        FieldPlansExactly(types[1..], values[1..], headSize, head + enc, tail, plans', copies);
      }
    }
  }
}
