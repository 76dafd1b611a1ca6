/** A folded value beside the expression it comes from, place by place. */
module FoldedContents {
  import opened Wrappers
  import opened FiniteFloats
  import opened Bytes
  import opened InterfaceDraft
  import opened TypeProjection
  import opened FoldedValues

  /** One step down: to an item, to a field under its name, to an end of a range, or into an
      option. */
  datatype Step = ItemStep(index: nat) | FieldStep(place: nat, name: Text) | StartStep | EndStep | ContentStep

  function ExpressionBelow(e: Expression, step: Step): Option<Expression> {
    match (step, e.kind)
    case (ItemStep(i), CollectionLiteral(items)) => if i < |items| then Some(items[i]) else None
    case (FieldStep(i, name), StructInstance(fields)) =>
      if i < |fields| && fields[i].name == Some(name) then Some(fields[i].value) else None
    case (FieldStep(i, name), ChoiceConstruct(_, payload)) =>
      if i < |payload| && payload[i].name == Some(name) then Some(payload[i].value) else None
    case (StartStep, RangeLiteral(start, _)) => Some(start)
    case (EndStep, RangeLiteral(_, end)) => Some(end)
    case (ContentStep, Coerced(inner, _)) => Some(inner)
    case _ => None
  }

  function ValueBelow(v: FoldedValue, step: Step): Option<FoldedValue> {
    match (step, v)
    case (ItemStep(i), CollectionValue(items)) => if i < |items| then Some(items[i]) else None
    case (FieldStep(i, name), RecordValue(fields)) =>
      if i < |fields| && fields[i].name == name then Some(fields[i].value) else None
    case (FieldStep(i, name), ChoiceValue(_, _, payload)) =>
      if i < |payload| && payload[i].name == name then Some(payload[i].value) else None
    case (StartStep, RangeValue(start, _)) => Some(start)
    case (EndStep, RangeValue(_, end)) => Some(end)
    case (ContentStep, OptionSome(inner)) => Some(inner)
    case _ => None
  }

  function ExpressionAt(e: Expression, steps: seq<Step>): Option<Expression>
    decreases |steps|
  {
    if steps == [] then Some(e)
    else
      match ExpressionBelow(e, steps[0])
      case Some(below) => ExpressionAt(below, steps[1..])
      case None => None
  }

  function ValueAt(v: FoldedValue, steps: seq<Step>): Option<FoldedValue>
    decreases |steps|
  {
    if steps == [] then Some(v)
    else
      match ValueBelow(v, steps[0])
      case Some(below) => ValueAt(below, steps[1..])
      case None => None
  }

  /** The variant name is that of the first definition with the tag. */
  predicate NamesVariant(variants: seq<VariantDefinition>, tag: nat, name: Text) {
    exists i :: 0 <= i < |variants| && variants[i].tag == tag && variants[i].name == name
      && forall j :: 0 <= j < i ==> variants[j].tag != tag
  }

  /** The same kind of node with the same literal; a float may lose the sign of zero. */
  ghost predicate SameNode(e: Expression, v: FoldedValue, f: Folding) {
    match (e.kind, v)
    case (IntLiteral(m), IntValue(n)) => m == n
    case (FloatLiteral(bits), FloatValue(x)) => x == bits || (bits == SIGN_BIT && x == 0)
    case (BoolLiteral(a), BoolValue(b)) => a == b
    case (CharLiteral(a), CharValue(b)) => a == b
    case (TextLiteral(a), StringValue(b)) => a == b
    case (CollectionLiteral(items), CollectionValue(values)) => |items| == |values|
    case (StructInstance(fields), RecordValue(values)) => |fields| == |values|
    case (ChoiceConstruct(tag, payload), ChoiceValue(typeIdentity, name, values)) =>
      && |payload| == |values|
      && e.type_ in f.variants && NamesVariant(f.variants[e.type_], tag, name)
      && Project(e.type_, f.env, f.context) == Success(typeIdentity)
    case (RangeLiteral(_, _), RangeValue(_, _)) => true
    case (Coerced(_, _), OptionSome(_)) => true
    case (NoneLiteral, OptionNone) => true
    case _ => false
  }

  lemma {:induction false} FoundVariant(variants: seq<VariantDefinition>, tag: nat)
    requires VariantWithTag(variants, tag).Some?
    ensures NamesVariant(variants, tag, VariantWithTag(variants, tag).value.name)
  {
    if variants[0].tag != tag {
      FoundVariant(variants[1..], tag);
      var name := VariantWithTag(variants[1..], tag).value.name;
      var i :| 0 <= i < |variants[1..]| && variants[1..][i].tag == tag && variants[1..][i].name == name
        && forall j :: 0 <= j < i ==> variants[1..][j].tag != tag;
      assert forall j :: 0 < j < i + 1 ==> variants[j] == variants[1..][j - 1];
      assert variants[i + 1].tag == tag && variants[i + 1].name == name;
    }
  }

  lemma FoldsNode(e: Expression, f: Folding)
    requires Folded(e, f).Success?
    ensures SameNode(e, Folded(e, f).value, f)
  {
    hide Project, VariantWithTag, NamesVariant, OptionInner;
    if e.kind.ChoiceConstruct? {
      FoundVariant(f.variants[e.type_], e.kind.tag);
    }
  }

  lemma {:induction false} ItemFolds(items: seq<Expression>, f: Folding, i: nat)
    requires FoldedAll(items, f).Success? && i < |items|
    ensures Folded(items[i], f) == Success(FoldedAll(items, f).value[i])
  {
    hide Folded;
    if i > 0 {
      ItemFolds(items[1..], f, i - 1);
    }
  }

  lemma {:induction false} FieldFolds(fields: seq<FieldExpression>, f: Folding, i: nat)
    requires FoldedFields(fields, f).Success? && i < |fields|
    ensures fields[i].name == Some(FoldedFields(fields, f).value[i].name)
    ensures Folded(fields[i].value, f) == Success(FoldedFields(fields, f).value[i].value)
  {
    hide Folded;
    if i > 0 {
      FieldFolds(fields[1..], f, i - 1);
    }
  }

  /** The same steps lead on from an expression and from its value, and to a pair like them. */
  lemma FoldsBelow(e: Expression, f: Folding, step: Step)
    requires Folded(e, f).Success?
    ensures ExpressionBelow(e, step).Some? <==> ValueBelow(Folded(e, f).value, step).Some?
    ensures ExpressionBelow(e, step).Some? ==>
        Folded(ExpressionBelow(e, step).value, f) == Success(ValueBelow(Folded(e, f).value, step).value)
  {
    hide Project, VariantWithTag, OptionInner, New, FoldedAll, FoldedFields;
    match (step, e.kind) {
      case (ItemStep(i), CollectionLiteral(items)) =>
        if i < |items| {
          ItemFolds(items, f, i);
        }
      case (FieldStep(i, _), StructInstance(fields)) =>
        if i < |fields| {
          FieldFolds(fields, f, i);
        }
      case (FieldStep(i, _), ChoiceConstruct(_, payload)) =>
        if i < |payload| {
          FieldFolds(payload, f, i);
        }
      case _ =>
    }
  }

  /** An expression and its folded value have the same places and, at each of them, the same node
      and the same literal. */
  lemma {:induction false} FoldingKeepsContents(e: Expression, f: Folding, steps: seq<Step>)
    requires Folded(e, f).Success?
    ensures ExpressionAt(e, steps).Some? <==> ValueAt(Folded(e, f).value, steps).Some?
    ensures ExpressionAt(e, steps).Some? ==>
        SameNode(ExpressionAt(e, steps).value, ValueAt(Folded(e, f).value, steps).value, f)
    decreases |steps|
  {
    hide Folded, SameNode, ExpressionBelow, ValueBelow;
    if steps == [] {
      FoldsNode(e, f);
    } else {
      FoldsBelow(e, f, steps[0]);
      if ExpressionBelow(e, steps[0]).Some? {
        FoldingKeepsContents(ExpressionBelow(e, steps[0]).value, f, steps[1..]);
      }
    }
  }

  /** At every place. */
  ghost predicate SameContents(e: Expression, v: FoldedValue, f: Folding) {
    forall steps ::
      && (ExpressionAt(e, steps).Some? <==> ValueAt(v, steps).Some?)
      && (ExpressionAt(e, steps).Some? ==> SameNode(ExpressionAt(e, steps).value, ValueAt(v, steps).value, f))
  }

  lemma FoldedIsSame(e: Expression, f: Folding)
    requires Folded(e, f).Success?
    ensures SameContents(e, Folded(e, f).value, f)
  {
    hide Folded, SameNode, ExpressionAt, ValueAt;
    forall steps
      ensures ExpressionAt(e, steps).Some? <==> ValueAt(Folded(e, f).value, steps).Some?
      ensures ExpressionAt(e, steps).Some? ==>
          SameNode(ExpressionAt(e, steps).value, ValueAt(Folded(e, f).value, steps).value, f)
    {
      FoldingKeepsContents(e, f, steps);
    }
  }
}
