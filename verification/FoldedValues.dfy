/** Conversion of normalized compile-time expressions to owned folded values. */
module FoldedValues {
  import opened Wrappers
  import opened Bytes
  import opened Identities
  import opened FiniteFloats
  import opened InterfaceDraft
  import opened TypeProjection

  /** An expression with the id of its type. */
  datatype Expression = Expression(type_: TypeId, kind: ExpressionKind)

  datatype ExpressionKind =
    | IntLiteral(int_: i32)
    | FloatLiteral(bits: u64)
    | BoolLiteral(bool_: bool)
    | CharLiteral(char_: CharCode)
    | TextLiteral(text: Text)
    | CollectionLiteral(items: seq<Expression>)
    | StructInstance(fields: seq<FieldExpression>)
    | ChoiceConstruct(tag: nat, payload: seq<FieldExpression>)
    | RangeLiteral(start: Expression, end: Expression)
    | Coerced(inner: Expression, toType: TypeId)
    | NoneLiteral
    | TemplateExpression
    | ReferenceExpression
    | OtherExpression

  /** A field declaration, with the last component of its path if the path has one. */
  datatype FieldExpression = FieldExpression(name: Option<Text>, value: Expression)

  datatype DeclaredField = DeclaredField(name: Text, type_: TypeId)

  datatype VariantDefinition = VariantDefinition(tag: nat, name: Text, fields: seq<DeclaredField>)

  /** Types are interned after their arguments. */
  type InternedEnvironment = env: TypeEnvironment | ArgumentsComeFirst(env)
    witness TypeEnvironment([], map[], map[], map[])

  /** What a conversion looks things up in: the types, the variants of each choice type, the
      fields of each struct type, and the resolvers. */
  datatype Folding = Folding(
    env: InternedEnvironment,
    variants: map<TypeId, seq<VariantDefinition>>,
    fields: map<TypeId, seq<DeclaredField>>,
    context: Context)

  datatype FoldError =
    | NonFiniteFloat
    | NoVariants
    | NoSuchVariant
    | NamelessField
    | NotAnOptionWrap
    | UnfoldedTemplate
    | UnresolvedReference
    | NotAValue
    | Unprojectable(error: ProjectionError)

  // ---------------------------------------------------------------- lookups

  /** `option_inner_type`. */
  function OptionInner(type_: TypeId, env: TypeEnvironment): Option<TypeId> {
    if type_ >= |env.types| then None
    else
      match env.types[type_]
      case ConstructedDefinition(OptionOf, arguments) => if arguments == [] then None else Some(arguments[0])
      case _ => None
  }

  /** The first variant with a tag. */
  function VariantWithTag(variants: seq<VariantDefinition>, tag: nat): (r: Option<VariantDefinition>)
    ensures r.Some? <==> exists i :: 0 <= i < |variants| && variants[i].tag == tag
    ensures r.Some? ==> r.value in variants
  {
    if variants == [] then None
    else if variants[0].tag == tag then Some(variants[0])
    else
      var found := VariantWithTag(variants[1..], tag);
      assert forall i :: 0 < i < |variants| ==> variants[i] == variants[1..][i - 1];
      found
  }

  function VariantOf(type_: TypeId, tag: nat, f: Folding): Result<Text, FoldError> {
    if type_ !in f.variants then Failure(NoVariants)
    else
      match VariantWithTag(f.variants[type_], tag)
      case Some(variant) => Success(variant.name)
      case None => Failure(NoSuchVariant)
  }

  function ProjectedType(type_: TypeId, f: Folding): Result<CanonicalType, FoldError> {
    match Project(type_, f.env, f.context)
    case Success(t) => Success(t)
    case Failure(error) => Failure(Unprojectable(error))
  }

  // ---------------------------------------------------------------- conversion

  function Folded(e: Expression, f: Folding): Result<FoldedValue, FoldError>
    decreases e, 1
  {
    match e.kind
    case IntLiteral(n) => Success(IntValue(n))
    case FloatLiteral(bits) =>
      (match New(bits)
       case Success(x) => Success(FloatValue(x))
       case Failure(_) => Failure(NonFiniteFloat))
    case BoolLiteral(b) => Success(BoolValue(b))
    case CharLiteral(c) => Success(CharValue(c))
    case TextLiteral(text) => Success(StringValue(text))
    case CollectionLiteral(items) =>
      var values :- FoldedAll(items, f);
      Success(CollectionValue(values))
    case StructInstance(fields) =>
      var values :- FoldedFields(fields, f);
      Success(RecordValue(values))
    case ChoiceConstruct(tag, payload) =>
      var typeIdentity :- ProjectedType(e.type_, f);
      var variant :- VariantOf(e.type_, tag, f);
      var values :- FoldedFields(payload, f);
      Success(ChoiceValue(typeIdentity, variant, values))
    case RangeLiteral(start, end) =>
      var first :- Folded(start, f);
      var last :- Folded(end, f);
      Success(RangeValue(first, last))
    case Coerced(inner, toType) =>
      if OptionInner(toType, f.env) != Some(inner.type_) then Failure(NotAnOptionWrap)
      else
        var value :- Folded(inner, f);
        Success(OptionSome(value))
    case NoneLiteral => Success(OptionNone)
    case TemplateExpression => Failure(UnfoldedTemplate)
    case ReferenceExpression => Failure(UnresolvedReference)
    case OtherExpression => Failure(NotAValue)
  }

  function FoldedAll(items: seq<Expression>, f: Folding): (r: Result<seq<FoldedValue>, FoldError>)
    ensures r.Success? ==> |r.value| == |items|
    decreases items, 0
  {
    if items == [] then Success([])
    else
      var first :- Folded(items[0], f);
      var others :- FoldedAll(items[1..], f);
      Success([first] + others)
  }

  function FieldFolded(field: FieldExpression, f: Folding): Result<FoldedField, FoldError>
    decreases field, 2
  {
    if field.name.None? then Failure(NamelessField)
    else
      var value :- Folded(field.value, f);
      Success(FoldedField(field.name.value, value))
  }

  function FoldedFields(fields: seq<FieldExpression>, f: Folding): (r: Result<seq<FoldedField>, FoldError>)
    ensures r.Success? ==> |r.value| == |fields|
    decreases fields, 0
  {
    if fields == [] then Success([])
    else
      var first :- FieldFolded(fields[0], f);
      var others :- FoldedFields(fields[1..], f);
      Success([first] + others)
  }

  /** `convert_expression_to_folded_value`. */
  method ConvertExpression(e: Expression, f: Folding) returns (r: Result<FoldedValue, FoldError>)
    ensures r == Folded(e, f)
    decreases e, 1
  {
    hide Project, VariantWithTag, OptionInner, New;
    match e.kind {
      case CollectionLiteral(items) =>
        var folded: seq<FoldedValue> := [];
        NothingPrepended(FoldedAll(items, f));
        assert items[0..] == items;
        for i := 0 to |items|
          invariant FoldedAll(items, f) == Prepended(folded, FoldedAll(items[i..], f))
        {
          assert items[i..][0] == items[i] && items[i..][1..] == items[i + 1..];
          var value :- ConvertExpression(items[i], f);
          PrependedTwice(folded, value, FoldedAll(items[i + 1..], f));
          folded := folded + [value];
        }
        assert folded + [] == folded;
        return Success(CollectionValue(folded));
      case StructInstance(fields) =>
        var folded :- ConvertFields(fields, f);
        return Success(RecordValue(folded));
      case ChoiceConstruct(tag, payload) =>
        var typeIdentity :- ProjectedType(e.type_, f);
        var variant :- VariantOf(e.type_, tag, f);
        var folded :- ConvertFields(payload, f);
        return Success(ChoiceValue(typeIdentity, variant, folded));
      case RangeLiteral(start, end) =>
        var first :- ConvertExpression(start, f);
        var last :- ConvertExpression(end, f);
        return Success(RangeValue(first, last));
      case Coerced(inner, toType) =>
        if OptionInner(toType, f.env) != Some(inner.type_) {
          return Failure(NotAnOptionWrap);
        }
        var value :- ConvertExpression(inner, f);
        return Success(OptionSome(value));
      case _ => return Folded(e, f);
    }
  }

  /** `convert_declaration_fields_to_folded_fields`. */
  method ConvertFields(fields: seq<FieldExpression>, f: Folding) returns (r: Result<seq<FoldedField>, FoldError>)
    ensures r == FoldedFields(fields, f)
    decreases fields, 0
  {
    hide Folded;
    var folded: seq<FoldedField> := [];
    NothingPrepended(FoldedFields(fields, f));
    assert fields[0..] == fields;
    for i := 0 to |fields|
      invariant FoldedFields(fields, f) == Prepended(folded, FoldedFields(fields[i..], f))
    {
      assert fields[i..][0] == fields[i] && fields[i..][1..] == fields[i + 1..];
      if fields[i].name.None? {
        return Failure(NamelessField);
      }
      assert (fields decreases to fields[i]) && (fields[i] decreases to fields[i].value);
      var value :- ConvertExpression(fields[i].value, f);
      var field := FoldedField(fields[i].name.value, value);
      PrependedTwice(folded, field, FoldedFields(fields[i + 1..], f));
      folded := folded + [field];
    }
    assert folded + [] == folded;
    return Success(folded);
  }

  // ---------------------------------------------------------------- which expressions fold

  /** Finite floats, named fields, known variants of projectable types, and coercions that wrap
      exactly one option level; nothing else. */
  predicate Foldable(e: Expression, f: Folding)
    decreases e, 1
  {
    match e.kind
    case FloatLiteral(bits) => IsFinite(bits)
    case CollectionLiteral(items) => AllFoldable(items, f)
    case StructInstance(fields) => FieldsFoldable(fields, f)
    case ChoiceConstruct(tag, payload) =>
      && Project(e.type_, f.env, f.context).Success?
      && e.type_ in f.variants && (exists i :: 0 <= i < |f.variants[e.type_]| && f.variants[e.type_][i].tag == tag)
      && FieldsFoldable(payload, f)
    case RangeLiteral(start, end) => Foldable(start, f) && Foldable(end, f)
    case Coerced(inner, toType) => OptionInner(toType, f.env) == Some(inner.type_) && Foldable(inner, f)
    case TemplateExpression => false
    case ReferenceExpression => false
    case OtherExpression => false
    case _ => true
  }

  predicate AllFoldable(items: seq<Expression>, f: Folding)
    decreases items, 0
  {
    forall i :: 0 <= i < |items| ==> Foldable(items[i], f)
  }

  predicate FieldsFoldable(fields: seq<FieldExpression>, f: Folding)
    decreases fields, 0
  {
    forall i :: 0 <= i < |fields| ==> FieldFoldable(fields[i], f)
  }

  predicate FieldFoldable(field: FieldExpression, f: Folding)
    decreases field, 2
  {
    field.name.Some? && Foldable(field.value, f)
  }

  lemma {:induction false} FoldsExactly(e: Expression, f: Folding)
    ensures Folded(e, f).Success? <==> Foldable(e, f)
    decreases e, 1
  {
    hide Project, OptionInner, VariantWithTag, IsFinite, AllFoldable, FieldsFoldable;
    match e.kind {
      case CollectionLiteral(items) => AllFoldExactly(items, f);
      case StructInstance(fields) => FieldsFoldExactly(fields, f);
      case ChoiceConstruct(_, payload) => FieldsFoldExactly(payload, f);
      case RangeLiteral(start, end) =>
        FoldsExactly(start, f);
        FoldsExactly(end, f);
      case Coerced(inner, _) => FoldsExactly(inner, f);
      case _ =>
    }
  }

  lemma {:induction false} AllFoldExactly(items: seq<Expression>, f: Folding)
    ensures FoldedAll(items, f).Success? <==> AllFoldable(items, f)
    decreases items, 0
  {
    hide Folded, Foldable;
    if items != [] {
      FoldsExactly(items[0], f);
      AllFoldExactly(items[1..], f);
      assert items == [items[0]] + items[1..];
    }
  }

  lemma {:induction false} FieldFoldsExactly(field: FieldExpression, f: Folding)
    ensures FieldFolded(field, f).Success? <==> FieldFoldable(field, f)
    decreases field, 2
  {
    FoldsExactly(field.value, f);
  }

  lemma {:induction false} FieldsFoldExactly(fields: seq<FieldExpression>, f: Folding)
    ensures FoldedFields(fields, f).Success? <==> FieldsFoldable(fields, f)
    decreases fields, 0
  {
    hide FieldFolded, FieldFoldable;
    if fields != [] {
      FieldFoldsExactly(fields[0], f);
      FieldsFoldExactly(fields[1..], f);
      assert fields == [fields[0]] + fields[1..];
    }
  }

  // ---------------------------------------------------------------- numbering

  function RenumberedExpression(e: Expression, r: Renumbering): Expression
    decreases e, 1
  {
    Expression(r.type_(e.type_),
      match e.kind
      case CollectionLiteral(items) => CollectionLiteral(RenumberedAll(items, r))
      case StructInstance(fields) => StructInstance(RenumberedFields(fields, r))
      case ChoiceConstruct(tag, payload) => ChoiceConstruct(tag, RenumberedFields(payload, r))
      case RangeLiteral(start, end) => RangeLiteral(RenumberedExpression(start, r), RenumberedExpression(end, r))
      case Coerced(inner, toType) => Coerced(RenumberedExpression(inner, r), r.type_(toType))
      case _ => e.kind)
  }

  function RenumberedAll(items: seq<Expression>, r: Renumbering): seq<Expression>
    decreases items, 0
  {
    if items == [] then [] else [RenumberedExpression(items[0], r)] + RenumberedAll(items[1..], r)
  }

  function RenumberedField(field: FieldExpression, r: Renumbering): FieldExpression
    decreases field, 2
  {
    FieldExpression(field.name, RenumberedExpression(field.value, r))
  }

  function RenumberedFields(fields: seq<FieldExpression>, r: Renumbering): seq<FieldExpression>
    decreases fields, 0
  {
    if fields == [] then [] else [RenumberedField(fields[0], r)] + RenumberedFields(fields[1..], r)
  }

  function RenumberedDeclared(fields: seq<DeclaredField>, r: Renumbering): seq<DeclaredField> {
    seq(|fields|, i requires 0 <= i < |fields| => DeclaredField(fields[i].name, r.type_(fields[i].type_)))
  }

  function RenumberedVariants(variants: seq<VariantDefinition>, r: Renumbering): seq<VariantDefinition> {
    if variants == [] then []
    else
      [VariantDefinition(variants[0].tag, variants[0].name, RenumberedDeclared(variants[0].fields, r))]
      + RenumberedVariants(variants[1..], r)
  }

  lemma {:induction false} VariantRenumbered(variants: seq<VariantDefinition>, tag: nat, r: Renumbering)
    ensures
      var found, renumbered := VariantWithTag(variants, tag), VariantWithTag(RenumberedVariants(variants, r), tag);
      (found.Some? <==> renumbered.Some?) && (found.Some? ==> renumbered.value.name == found.value.name)
  {
    hide RenumberedDeclared;
    if variants != [] {
      VariantRenumbered(variants[1..], tag, r);
      assert RenumberedVariants(variants, r)[1..] == RenumberedVariants(variants[1..], r);
    }
  }

  /** The second folding answers for new numbers what the first answers for the old, and the new
      type numbers are different for different types. */
  ghost predicate FoldingRenumbered(a: Folding, b: Folding, r: Renumbering) {
    && EnvironmentRenumbered(a.env, b.env, r) && ContextRenumbered(a.context, b.context, r)
    && (forall t: TypeId {:trigger r.type_(t)} :: t in a.variants <==> r.type_(t) in b.variants)
    && (forall t: TypeId {:trigger r.type_(t)} :: t in a.variants ==>
          b.variants[r.type_(t)] == RenumberedVariants(a.variants[t], r))
    && (forall s: TypeId, t: TypeId :: r.type_(s) == r.type_(t) ==> s == t)
  }

  lemma OptionInnerRenumbered(type_: TypeId, a: Folding, b: Folding, r: Renumbering)
    requires FoldingRenumbered(a, b, r)
    ensures OptionInner(r.type_(type_), b.env) ==
        match OptionInner(type_, a.env)
        case Some(inner) => Some(r.type_(inner))
        case None => None
  {
    if type_ < |a.env.types| {
      assert b.env.types[r.type_(type_)] == RenumberedDefinition(a.env.types[type_], r);
    }
  }

  /** No module-local number reaches a folded value: the same expression under another numbering
      folds to the same value, or fails in the same way. */
  lemma {:induction false} FoldingIgnoresNumbers(e: Expression, a: Folding, b: Folding, r: Renumbering)
    requires FoldingRenumbered(a, b, r)
    ensures Folded(RenumberedExpression(e, r), b) == Folded(e, a)
    decreases e, 1
  {
    hide FoldedAll, FoldedFields, RenumberedAll, RenumberedFields, Project, OptionInner, EnvironmentRenumbered;
    hide ContextRenumbered, VariantWithTag, RenumberedVariants;
    match e.kind {
      case CollectionLiteral(items) => FoldingAllIgnoresNumbers(items, a, b, r);
      case StructInstance(fields) => FoldingFieldsIgnoresNumbers(fields, a, b, r);
      case ChoiceConstruct(tag, payload) =>
        RenumberingInvariance(e.type_, a.env, b.env, a.context, b.context, r);
        assert e.type_ in a.variants <==> r.type_(e.type_) in b.variants;
        if e.type_ in a.variants {
          VariantRenumbered(a.variants[e.type_], tag, r);
        }
        FoldingFieldsIgnoresNumbers(payload, a, b, r);
      case RangeLiteral(start, end) =>
        FoldingIgnoresNumbers(start, a, b, r);
        FoldingIgnoresNumbers(end, a, b, r);
      case Coerced(inner, toType) =>
        OptionInnerRenumbered(toType, a, b, r);
        FoldingIgnoresNumbers(inner, a, b, r);
      case _ =>
    }
  }

  lemma {:induction false} FoldingAllIgnoresNumbers(items: seq<Expression>, a: Folding, b: Folding, r: Renumbering)
    requires FoldingRenumbered(a, b, r)
    ensures FoldedAll(RenumberedAll(items, r), b) == FoldedAll(items, a)
    decreases items, 0
  {
    hide Folded, RenumberedExpression, FoldingRenumbered;
    if items != [] {
      FoldingIgnoresNumbers(items[0], a, b, r);
      FoldingAllIgnoresNumbers(items[1..], a, b, r);
      assert RenumberedAll(items, r)[1..] == RenumberedAll(items[1..], r);
    }
  }

  lemma {:induction false} FoldingFieldsIgnoresNumbers(
    fields: seq<FieldExpression>, a: Folding, b: Folding, r: Renumbering)
    requires FoldingRenumbered(a, b, r)
    ensures FoldedFields(RenumberedFields(fields, r), b) == FoldedFields(fields, a)
    decreases fields, 0
  {
    hide Folded, RenumberedExpression, FoldingRenumbered;
    if fields != [] {
      FoldingFieldIgnoresNumbers(fields[0], a, b, r);
      FoldingFieldsIgnoresNumbers(fields[1..], a, b, r);
      assert RenumberedFields(fields, r)[1..] == RenumberedFields(fields[1..], r);
    }
  }

  lemma {:induction false} FoldingFieldIgnoresNumbers(field: FieldExpression, a: Folding, b: Folding, r: Renumbering)
    requires FoldingRenumbered(a, b, r)
    ensures FieldFolded(RenumberedField(field, r), b) == FieldFolded(field, a)
    decreases field, 2
  {
    hide FoldingRenumbered, RenumberedExpression, Folded;
    FoldingIgnoresNumbers(field.value, a, b, r);
  }

  // ---------------------------------------------------------------- types

  function DefinitionOf(type_: TypeId, env: TypeEnvironment): Option<TypeDefinition> {
    if type_ < |env.types| then Some(env.types[type_]) else None
  }

  /** The type ids fit the shapes of the expressions, and fields their declarations. */
  predicate WellTyped(e: Expression, f: Folding)
    decreases e, 1
  {
    var definition := DefinitionOf(e.type_, f.env);
    match e.kind
    case IntLiteral(_) => definition == Some(BuiltinDefinition(Int))
    case FloatLiteral(_) => definition == Some(BuiltinDefinition(Float))
    case BoolLiteral(_) => definition == Some(BuiltinDefinition(Bool))
    case CharLiteral(_) => definition == Some(BuiltinDefinition(Char))
    case TextLiteral(_) => definition == Some(BuiltinDefinition(String))
    case RangeLiteral(start, end) =>
      definition == Some(BuiltinDefinition(Range)) && WellTyped(start, f) && WellTyped(end, f)
    case CollectionLiteral(items) =>
      && ElementOf(e.type_, f.env).Some?
      && forall i :: 0 <= i < |items| ==> WellTyped(items[i], f) && Some(items[i].type_) == ElementOf(e.type_, f.env)
    case StructInstance(fields) => e.type_ in f.fields && FieldsWellTyped(fields, f.fields[e.type_], f)
    case ChoiceConstruct(tag, payload) =>
      && e.type_ in f.variants && VariantWithTag(f.variants[e.type_], tag).Some?
      && FieldsWellTyped(payload, VariantWithTag(f.variants[e.type_], tag).value.fields, f)
    case Coerced(inner, toType) => toType == e.type_ && WellTyped(inner, f)
    case NoneLiteral => OptionInner(e.type_, f.env).Some?
    case _ => true
  }

  predicate FieldsWellTyped(fields: seq<FieldExpression>, declared: seq<DeclaredField>, f: Folding)
    decreases fields, 0
  {
    |fields| == |declared| && forall i :: 0 <= i < |fields| ==> FieldWellTyped(fields[i], declared[i], f)
  }

  predicate FieldWellTyped(field: FieldExpression, declared: DeclaredField, f: Folding)
    decreases field, 2
  {
    field.name == Some(declared.name) && field.value.type_ == declared.type_ && WellTyped(field.value, f)
  }

  /** The type of a collection's items. */
  function ElementOf(type_: TypeId, env: TypeEnvironment): Option<TypeId> {
    match DefinitionOf(type_, env)
    case Some(ConstructedDefinition(CollectionOf(_), arguments)) =>
      if |arguments| == 1 then Some(arguments[0]) else None
    case _ => None
  }

  /** A folded value of a type: built as the type is declared, fields and payloads included. */
  predicate HasType(value: FoldedValue, type_: TypeId, f: Folding)
    decreases value, 1
  {
    var definition := DefinitionOf(type_, f.env);
    match value
    case IntValue(_) => definition == Some(BuiltinDefinition(Int))
    case FloatValue(_) => definition == Some(BuiltinDefinition(Float))
    case BoolValue(_) => definition == Some(BuiltinDefinition(Bool))
    case CharValue(_) => definition == Some(BuiltinDefinition(Char))
    case StringValue(_) => definition == Some(BuiltinDefinition(String))
    case RangeValue(_, _) => definition == Some(BuiltinDefinition(Range))
    case CollectionValue(items) =>
      && ElementOf(type_, f.env).Some?
      && forall i :: 0 <= i < |items| ==> HasType(items[i], ElementOf(type_, f.env).value, f)
    case OptionSome(inner) => OptionInner(type_, f.env).Some? && HasType(inner, OptionInner(type_, f.env).value, f)
    case OptionNone => OptionInner(type_, f.env).Some?
    case RecordValue(fields) => type_ in f.fields && FieldsHaveTypes(fields, f.fields[type_], f)
    case ChoiceValue(typeIdentity, name, payload) =>
      && ProjectedType(type_, f) == Success(typeIdentity) && type_ in f.variants
      && exists v :: v in f.variants[type_] && v.name == name && FieldsHaveTypes(payload, v.fields, f)
  }

  predicate FieldsHaveTypes(fields: seq<FoldedField>, declared: seq<DeclaredField>, f: Folding)
    decreases fields, 0
  {
    |fields| == |declared| && forall i :: 0 <= i < |fields| ==> FieldHasType(fields[i], declared[i], f)
  }

  predicate FieldHasType(field: FoldedField, declared: DeclaredField, f: Folding)
    decreases field, 2
  {
    field.name == declared.name && HasType(field.value, declared.type_, f)
  }

  lemma {:induction false} FoldedItems(items: seq<Expression>, f: Folding, i: nat)
    requires FoldedAll(items, f).Success? && i < |items|
    ensures Folded(items[i], f).Success? && FoldedAll(items, f).value[i] == Folded(items[i], f).value
    decreases |items|
  {
    hide Folded;
    if i > 0 {
      FoldedItems(items[1..], f, i - 1);
    }
  }

  lemma {:induction false} FoldedFieldAt(fields: seq<FieldExpression>, f: Folding, i: nat)
    requires FoldedFields(fields, f).Success? && i < |fields|
    ensures FieldFolded(fields[i], f).Success? && FoldedFields(fields, f).value[i] == FieldFolded(fields[i], f).value
    decreases |fields|
  {
    hide FieldFolded;
    if i > 0 {
      FoldedFieldAt(fields[1..], f, i - 1);
    }
  }

  /** Folding keeps types: the value of a well-typed expression has its type, down to the fields
      of records and payloads. */
  lemma {:induction false} FoldingKeepsTypes(e: Expression, f: Folding)
    requires WellTyped(e, f) && Folded(e, f).Success?
    ensures HasType(Folded(e, f).value, e.type_, f)
    decreases e, 1
  {
    hide VariantWithTag, FoldedAll, FoldedFields, ArgumentsComeFirst, Project, FieldsWellTyped, FieldsHaveTypes;
    match e.kind {
      case CollectionLiteral(items) =>
        var values := FoldedAll(items, f).value;
        forall i | 0 <= i < |items|
          ensures HasType(values[i], ElementOf(e.type_, f.env).value, f)
        {
          FoldedItems(items, f, i);
          FoldingKeepsTypes(items[i], f);
        }
      case StructInstance(fields) => FieldsKeepTypes(fields, f.fields[e.type_], f);
      case ChoiceConstruct(tag, payload) =>
        var variant := VariantWithTag(f.variants[e.type_], tag).value;
        FieldsKeepTypes(payload, variant.fields, f);
        assert variant in f.variants[e.type_];
      case Coerced(inner, toType) => FoldingKeepsTypes(inner, f);
      case _ =>
    }
  }

  lemma {:induction false} FieldsKeepTypes(fields: seq<FieldExpression>, declared: seq<DeclaredField>, f: Folding)
    requires FieldsWellTyped(fields, declared, f) && FoldedFields(fields, f).Success?
    ensures FieldsHaveTypes(FoldedFields(fields, f).value, declared, f)
    decreases fields, 0
  {
    hide FieldFolded, FoldedFields, FieldWellTyped, FieldHasType;
    var values := FoldedFields(fields, f).value;
    forall i | 0 <= i < |fields|
      ensures FieldHasType(values[i], declared[i], f)
    {
      FoldedFieldAt(fields, f, i);
      assert FieldWellTyped(fields[i], declared[i], f);
      FieldKeepsType(fields[i], declared[i], f);
    }
  }

  lemma {:induction false} FieldKeepsType(field: FieldExpression, declared: DeclaredField, f: Folding)
    requires FieldWellTyped(field, declared, f) && FieldFolded(field, f).Success?
    ensures FieldHasType(FieldFolded(field, f).value, declared, f)
    decreases field, 2
  {
    hide Folded;
    FoldingKeepsTypes(field.value, f);
  }

  /** What a canonical type says of a value by itself; it does not list the fields of records. */
  predicate FitsIdentity(value: FoldedValue, t: CanonicalType)
    decreases value
  {
    match value
    case IntValue(_) => t == Builtin(Int)
    case FloatValue(_) => t == Builtin(Float)
    case BoolValue(_) => t == Builtin(Bool)
    case CharValue(_) => t == Builtin(Char)
    case StringValue(_) => t == Builtin(String)
    case RangeValue(_, _) => t == Builtin(Range)
    case CollectionValue(items) => t.Collection? && forall i :: 0 <= i < |items| ==> FitsIdentity(items[i], t.element)
    case OptionSome(inner) => t.OptionType? && FitsIdentity(inner, t.inner)
    case OptionNone => t.OptionType?
    case ChoiceValue(typeIdentity, _, _) => t == typeIdentity
    case RecordValue(_) => true
  }

  /** A value of a type that projects fits the projected identity. */
  lemma {:induction false} TypedFitsIdentity(value: FoldedValue, type_: TypeId, f: Folding)
    requires HasType(value, type_, f) && Project(type_, f.env, f.context).Success?
    ensures FitsIdentity(value, Project(type_, f.env, f.context).value)
    decreases value
  {
    hide ArgumentsComeFirst, FieldsHaveTypes, VariantWithTag;
    match value {
      case CollectionValue(items) =>
        var element := ElementOf(type_, f.env).value;
        forall i | 0 <= i < |items|
          ensures FitsIdentity(items[i], Project(element, f.env, f.context).value)
        {
          TypedFitsIdentity(items[i], element, f);
        }
      case OptionSome(inner) => TypedFitsIdentity(inner, OptionInner(type_, f.env).value, f);
      case _ =>
    }
  }
}
