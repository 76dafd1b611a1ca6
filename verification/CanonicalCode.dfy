/** The canonical bytes of every value in a public-interface draft.

    `PutX(x, rest)` is the code of `x` followed by `rest`; `XItem(x)` is the code of one
    element of a sequence, which is written behind its own length. `EncodableX` holds of the
    values the encoder accepts. */
module CanonicalCode {
  import opened Wrappers
  import opened Sorting
  import opened Bytes
  import opened Identities
  import opened InterfaceDraft

  // ---------------------------------------------------------------- variant tags

  function PackageOriginTag(origin: PackageOrigin): byte {
    match origin
    case Core => 0
    case Standard => 1
    case Builder => 2
    case ProjectLocal => 3
    case Dependency => 4
  }

  function RootRoleTag(role: ModuleRootRole): byte {
    match role
    case Normal => 0
    case Support => 1
    case ProjectPackageFacade => 2
  }

  function TypeCategoryTag(category: TypeCategory): byte {
    match category
    case StructCategory => 0
    case ChoiceCategory => 1
    case AliasCategory => 2
  }

  function BuiltinTag(builtin: BuiltinType): byte {
    match builtin
    case Bool => 0
    case Int => 1
    case Float => 2
    case Decimal => 3
    case String => 4
    case Char => 5
    case Range => 6
    case NoneType => 7
  }

  function CastTargetTag(target: CastTarget): byte {
    match target
    case ToBool => 0
    case ToInt => 1
    case ToString => 2
    case ToChar => 3
    case ToFloat => 4
    case ToError => 5
  }

  function CastFallibilityTag(fallibility: CastFallibility): byte {
    match fallibility
    case Infallible => 0
    case Fallible => 1
  }

  function AccessTag(access: ParameterAccess): byte {
    match access
    case Shared => 0
    case MutableAccess => 1
    case Reactive => 2
  }

  function MutationTag(effect: MutationEffect): byte {
    match effect
    case NoWrite => 0
    case Writes => 1
  }

  function EligibilityTag(eligibility: TransferEligibility): byte {
    match eligibility
    case Ineligible => 0
    case Eligible => 1
  }

  function TransferTag(effect: TransferEffect): byte {
    match effect
    case NeverConsumes => 0
    case MayConsume => 1
    case AlwaysConsumes => 2
  }

  function ReactiveTag(effect: ReactiveEffect): byte {
    match effect
    case NoReactive => 0
    case Subscribes => 1
    case Invalidates => 2
    case SubscribesAndInvalidates => 3
  }

  function ValueModeTag(mode: ValueMode): byte {
    match mode
    case MutableOwned => 0
    case MutableReference => 1
    case ImmutableOwned => 2
    case ImmutableReference => 3
  }

  function ReceiverAccessTag(access: ReceiverAccess): byte {
    match access
    case ImmutableReceiver => 0
    case MutableReceiver => 1
  }

  function ReturnChannelTag(channel: ReturnChannel): byte {
    match channel
    case SuccessChannel => 0
    case ErrorChannel => 1
  }

  /** A draft only carries source-canonical evidence; the encoder refuses any other. */
  function OwnershipTag(ownership: EvidenceOwnership): byte {
    match ownership
    case SourceCanonical => 0
    case BuiltinOwned => 0
  }

  // ---------------------------------------------------------------- counts and indices

  /** A count or `usize` index that fits its 64-bit field. */
  predicate FitsField(n: nat) {
    n < TWO_TO_64
  }

  function PutOptionalText(text: Option<Text>, rest: seq<byte>): (r: seq<byte>)
    ensures |r| >= |rest|
  {
    match text
    case None => PutU8(0, rest)
    case Some(value) => PutU8(1, PutBytes(value, rest))
  }

  // ---------------------------------------------------------------- origins

  function PutModuleOrigin(origin: ModuleOrigin, rest: seq<byte>): (r: seq<byte>)
    ensures |r| >= |rest|
  {
    PutU8(PackageOriginTag(origin.package.origin),
      PutBytes(origin.package.name,
        PutBytes(origin.logicalPath, PutU8(RootRoleTag(origin.role), rest))))
  }

  function PutOriginType(origin: OriginType, rest: seq<byte>): (r: seq<byte>)
    ensures |r| >= |rest|
  {
    PutModuleOrigin(origin.moduleOrigin,
      PutBytes(origin.name, PutU8(TypeCategoryTag(origin.category), rest)))
  }

  function PutOriginFunction(origin: OriginFunction, rest: seq<byte>): (r: seq<byte>)
    ensures |r| >= |rest|
  {
    PutModuleOrigin(origin.moduleOrigin,
      PutBytes(origin.name,
        match origin.kind
        case Free => PutU8(0, rest)
        case Receiver(receiver) => PutU8(1, PutOriginType(receiver, rest))))
  }

  function PutOriginConstant(origin: OriginConstant, rest: seq<byte>): (r: seq<byte>)
    ensures |r| >= |rest|
  {
    PutModuleOrigin(origin.moduleOrigin, PutBytes(origin.name, rest))
  }

  function PutOriginTrait(origin: OriginTrait, rest: seq<byte>): (r: seq<byte>)
    ensures |r| >= |rest|
  {
    PutModuleOrigin(origin.moduleOrigin, PutBytes(origin.name, rest))
  }

  function PutOriginDeclaration(origin: OriginDeclaration, rest: seq<byte>): (r: seq<byte>)
    ensures |r| >= |rest|
  {
    match origin
    case FunctionOrigin(f) => PutU8(0, PutOriginFunction(f, rest))
    case TypeOrigin(t) => PutU8(1, PutOriginType(t, rest))
    case ConstantOrigin(c) => PutU8(2, PutOriginConstant(c, rest))
    case TraitOrigin(t) => PutU8(3, PutOriginTrait(t, rest))
  }

  function OriginDeclarationKey(origin: OriginDeclaration): seq<byte> {
    PutOriginDeclaration(origin, [])
  }

  function ExportBindingItem(binding: ExportBinding): seq<byte> {
    PutModuleOrigin(binding.exportingModule,
      PutBytes(binding.publicName, PutOriginDeclaration(binding.origin, [])))
  }

  // ---------------------------------------------------------------- canonical types and traits

  function PutGenericParameter(parameter: GenericParameterIdentity, rest: seq<byte>): (r: seq<byte>)
    ensures |r| >= |rest|
  {
    var afterOwner := PutU32(parameter.position, PutBytes(parameter.name, rest));
    match parameter.owner
    case FreeFunction(f) => PutU8(0, PutOriginFunction(f, afterOwner))
    case NominalType(n) => PutU8(1, PutOriginType(n, afterOwner))
  }

  predicate EncodableType(t: CanonicalType) {
    match t
    case Builtin(_) => true
    case SourceNominal(_) => true
    case ExternalOpaque(_, symbolPath) => FitsField(|symbolPath|)
    case Collection(element, capacity) =>
      EncodableType(element) && (capacity.Some? ==> FitsField(capacity.value))
    case OrderedMap(key, value) => EncodableType(key) && EncodableType(value)
    case OptionType(inner) => EncodableType(inner)
    case FallibleCarrier(success, error) => EncodableType(success) && EncodableType(error)
    case GenericInstance(_, arguments) =>
      FitsField(|arguments|) && forall i :: 0 <= i < |arguments| ==> EncodableType(arguments[i])
    case GenericParameter(_) => true
  }

  function PutType(t: CanonicalType, rest: seq<byte>): (r: seq<byte>)
    ensures |r| >= |rest|
    decreases t, 1
  {
    match t
    case Builtin(builtin) => PutU8(0, PutU8(BuiltinTag(builtin), rest))
    case SourceNominal(origin) => PutU8(1, PutOriginType(origin, rest))
    case ExternalOpaque(packagePath, symbolPath) =>
      PutU8(2, PutBytes(packagePath, PutSequence(symbolPath, rest)))
    case Collection(element, capacity) =>
      PutU8(3, PutType(element,
        match capacity
        case Some(n) => PutU8(1, PutLength(n, rest))
        case None => PutU8(0, rest)))
    case OrderedMap(key, value) => PutU8(4, PutType(key, PutType(value, rest)))
    case OptionType(inner) => PutU8(5, PutType(inner, rest))
    case FallibleCarrier(success, error) => PutU8(6, PutType(success, PutType(error, rest)))
    case GenericInstance(base, arguments) =>
      PutU8(7, PutOriginType(base, PutSequence(TypeItems(arguments), rest)))
    case GenericParameter(parameter) => PutU8(8, PutGenericParameter(parameter, rest))
  }

  function TypeItems(types: seq<CanonicalType>): (r: seq<seq<byte>>)
    ensures |r| == |types|
    decreases types, 0
  {
    seq(|types|, i requires 0 <= i < |types| => PutType(types[i], []))
  }

  predicate EncodableTypes(types: seq<CanonicalType>) {
    FitsField(|types|) && forall i :: 0 <= i < |types| ==> EncodableType(types[i])
  }

  function PutOptionalType(t: Option<CanonicalType>, rest: seq<byte>): (r: seq<byte>)
    ensures |r| >= |rest|
  {
    match t
    case None => PutU8(0, rest)
    case Some(value) => PutU8(1, PutType(value, rest))
  }

  predicate EncodableOptionalType(t: Option<CanonicalType>) {
    t.Some? ==> EncodableType(t.value)
  }

  function TraitItem(identity: TraitIdentity): seq<byte> {
    match identity
    case SourceTrait(origin) => PutU8(0, PutOriginTrait(origin, []))
    case CoreTraitIdentity(Displayable) => PutU8(1, PutU8(0, []))
    case CoreTraitIdentity(Castable(target, fallibility)) =>
      PutU8(1, PutU8(1, PutU8(CastTargetTag(target), PutU8(CastFallibilityTag(fallibility), []))))
  }

  function PutRequirementIdentity(identity: RequirementIdentity, rest: seq<byte>): (r: seq<byte>)
    ensures |r| >= |rest|
  {
    PutBytes(TraitItem(identity.trait_), PutBytes(identity.name, rest))
  }

  function EvidenceIdentityItem(identity: EvidenceIdentity): seq<byte> {
    PutType(identity.target, PutBytes(TraitItem(identity.trait_), []))
  }

  // ---------------------------------------------------------------- folded values

  predicate EncodableValue(value: FoldedValue)
    decreases value, 1
  {
    match value
    case CollectionValue(items) =>
      FitsField(|items|) && forall i :: 0 <= i < |items| ==> EncodableValue(items[i])
    case RecordValue(fields) => EncodableFields(fields)
    case ChoiceValue(typeIdentity, _, payload) =>
      EncodableType(typeIdentity) && EncodableFields(payload)
    case RangeValue(start, end) => EncodableValue(start) && EncodableValue(end)
    case OptionSome(inner) => EncodableValue(inner)
    case _ => true
  }

  predicate EncodableFields(fields: seq<FoldedField>)
    decreases fields, 0
  {
    FitsField(|fields|) && forall i :: 0 <= i < |fields| ==> EncodableValue(fields[i].value)
  }

  function PutValue(value: FoldedValue, rest: seq<byte>): (r: seq<byte>)
    ensures |r| >= |rest|
    decreases value, 1
  {
    match value
    case IntValue(n) => PutU8(0, PutI32(n, rest))
    case FloatValue(bits) => PutU8(1, PutU64(bits, rest))
    case BoolValue(b) => PutU8(2, PutBool(b, rest))
    case CharValue(c) => PutU8(3, PutU32(c, rest))
    case StringValue(text) => PutU8(4, PutBytes(text, rest))
    case CollectionValue(items) => PutU8(5, PutSequence(ValueItems(items), rest))
    case RecordValue(fields) => PutU8(6, PutSequence(FieldItems(fields), rest))
    case ChoiceValue(typeIdentity, variant, payload) =>
      PutU8(7, PutType(typeIdentity, PutBytes(variant, PutSequence(FieldItems(payload), rest))))
    case RangeValue(start, end) => PutU8(8, PutValue(start, PutValue(end, rest)))
    case OptionSome(inner) => PutU8(9, PutValue(inner, rest))
    case OptionNone => PutU8(10, rest)
  }

  function ValueItems(values: seq<FoldedValue>): (r: seq<seq<byte>>)
    ensures |r| == |values|
    decreases values, 0
  {
    seq(|values|, i requires 0 <= i < |values| => PutValue(values[i], []))
  }

  function FieldItems(fields: seq<FoldedField>): (r: seq<seq<byte>>)
    ensures |r| == |fields|
    decreases fields, 0
  {
    seq(|fields|, i requires 0 <= i < |fields| => PutBytes(fields[i].name, PutValue(fields[i].value, [])))
  }

  function PutOptionalValue(value: Option<FoldedValue>, rest: seq<byte>): (r: seq<byte>)
    ensures |r| >= |rest|
  {
    match value
    case None => PutU8(0, rest)
    case Some(v) => PutU8(1, PutValue(v, rest))
  }

  predicate EncodableOptionalValue(value: Option<FoldedValue>) {
    value.Some? ==> EncodableValue(value.value)
  }

  // ---------------------------------------------------------------- signature slots

  function ParameterSlotItem(slot: ParameterSlot): seq<byte> {
    PutOptionalText(slot.name, PutType(slot.typeIdentity, PutOptionalValue(slot.default, [])))
  }

  predicate EncodableParameterSlot(slot: ParameterSlot) {
    EncodableType(slot.typeIdentity) && EncodableOptionalValue(slot.default)
  }

  predicate EncodableParameterSlots(slots: seq<ParameterSlot>) {
    FitsField(|slots|) && forall i :: 0 <= i < |slots| ==> EncodableParameterSlot(slots[i])
  }

  function FieldSlotItem(slot: FieldSlot): seq<byte> {
    PutBytes(slot.name, PutType(slot.typeIdentity, PutOptionalValue(slot.default, [])))
  }

  predicate EncodableFieldSlot(slot: FieldSlot) {
    EncodableType(slot.typeIdentity) && EncodableOptionalValue(slot.default)
  }

  predicate EncodableFieldSlots(slots: seq<FieldSlot>) {
    FitsField(|slots|) && forall i :: 0 <= i < |slots| ==> EncodableFieldSlot(slots[i])
  }

  function VariantItem(variant: Variant): seq<byte> {
    PutBytes(variant.name, PutSequence(Map(FieldSlotItem, variant.payload), []))
  }

  predicate EncodableVariant(variant: Variant) {
    EncodableFieldSlots(variant.payload)
  }

  function GenericSurfaceItem(surface: GenericParameterSurface): seq<byte> {
    PutGenericParameter(surface.identity, PutSequence(Map(TraitItem, surface.bounds), []))
  }

  predicate EncodableGenericSurfaces(surfaces: seq<GenericParameterSurface>) {
    && FitsField(|surfaces|)
    && forall i :: 0 <= i < |surfaces| ==> FitsField(|surfaces[i].bounds|)
  }

  // ---------------------------------------------------------------- call summaries

  function ParameterSummaryItem(parameter: ParameterSummary): seq<byte> {
    PutU8(AccessTag(parameter.access),
      PutU8(MutationTag(parameter.mutation),
        PutU8(EligibilityTag(parameter.eligibility),
          PutU8(TransferTag(parameter.transfer), PutU8(ReactiveTag(parameter.reactive), [])))))
  }

  function PutIndices(indices: seq<nat>, rest: seq<byte>): (r: seq<byte>)
    ensures |r| == 8 * |indices| + |rest|
  {
    if indices == [] then rest else PutLength(indices[0], PutIndices(indices[1..], rest))
  }

  function PutReturnAlias(alias: ReturnAlias, rest: seq<byte>): (r: seq<byte>)
    ensures |r| >= |rest|
  {
    match alias
    case Fresh => PutU8(0, rest)
    case AliasParams(indices) => PutU8(1, PutLength(|indices|, PutIndices(indices, rest)))
    case Unknown => PutU8(2, rest)
  }

  predicate EncodableReturnAlias(alias: ReturnAlias) {
    alias.AliasParams? ==>
      && FitsField(|alias.indices|)
      && forall i :: 0 <= i < |alias.indices| ==> FitsField(alias.indices[i])
  }

  function PutSummary(summary: CallSummary, rest: seq<byte>): (r: seq<byte>)
    ensures |r| >= |rest|
  {
    PutSequence(Map(ParameterSummaryItem, summary.parameters), PutReturnAlias(summary.returnAlias, rest))
  }

  predicate EncodableSummary(summary: CallSummary) {
    FitsField(|summary.parameters|) && EncodableReturnAlias(summary.returnAlias)
  }

  function PutSummaryState(state: SummaryState, rest: seq<byte>): (r: seq<byte>)
    ensures |r| >= |rest|
  {
    match state
    case PendingGenerated => PutU8(0, rest)
    case Finalized(summary) => PutU8(1, PutSummary(summary, rest))
    case PendingLocal => rest
  }

  /** A generic callable stays pending; a local one carries a summary of its own arity. */
  predicate SummaryStateAccepted(generic: bool, parameterCount: nat, state: SummaryState) {
    match state
    case PendingGenerated => generic
    case Finalized(summary) => !generic && |summary.parameters| == parameterCount
    case PendingLocal => false
  }

  predicate EncodableSummaryState(state: SummaryState) {
    state.Finalized? ==> EncodableSummary(state.summary)
  }

  // ---------------------------------------------------------------- callables

  function PutTemplate(template: Option<seq<GenericParameterSurface>>, rest: seq<byte>): (r: seq<byte>)
    ensures |r| >= |rest|
  {
    match template
    case None => PutU8(0, rest)
    case Some(surfaces) => PutU8(1, PutSequence(Map(GenericSurfaceItem, surfaces), rest))
  }

  function PutFunctionSemantics(f: FunctionSemantics, rest: seq<byte>): (r: seq<byte>)
    ensures |r| >= |rest|
  {
    PutTemplate(f.genericTemplate,
      PutSequence(Map(ParameterSlotItem, f.parameters),
        PutSequence(TypeItems(f.returnSlots),
          PutOptionalType(f.errorReturn, PutSummaryState(f.callSummary, rest)))))
  }

  /** The parts of a callable whose counts and indices must fit. */
  predicate EncodableSignature(
    parameters: seq<ParameterSlot>,
    returnSlots: seq<CanonicalType>,
    errorReturn: Option<CanonicalType>,
    state: SummaryState)
  {
    && EncodableParameterSlots(parameters)
    && EncodableTypes(returnSlots)
    && EncodableOptionalType(errorReturn)
    && EncodableSummaryState(state)
  }

  predicate FunctionAccepted(f: FunctionSemantics) {
    SummaryStateAccepted(f.genericTemplate.Some?, |f.parameters|, f.callSummary)
  }

  predicate EncodableFunction(f: FunctionSemantics) {
    && (f.genericTemplate.Some? ==> EncodableGenericSurfaces(f.genericTemplate.value))
    && EncodableSignature(f.parameters, f.returnSlots, f.errorReturn, f.callSummary)
    && FunctionAccepted(f)
  }

  function MethodKey(method_: ReceiverMethod): seq<byte> {
    PutOriginFunction(method_.origin, [])
  }

  function MethodItem(method_: ReceiverMethod): seq<byte> {
    PutOriginFunction(method_.origin,
      PutBool(method_.genericTemplate,
        PutSequence(Map(ParameterSlotItem, method_.parameters),
          PutSequence(TypeItems(method_.returnSlots),
            PutOptionalType(method_.errorReturn, PutSummaryState(method_.callSummary, []))))))
  }

  function KeyedMethod(method_: ReceiverMethod): KeyedItem {
    KeyedItem(MethodKey(method_), MethodItem(method_))
  }

  predicate MethodAccepted(method_: ReceiverMethod) {
    SummaryStateAccepted(method_.genericTemplate, |method_.parameters|, method_.callSummary)
  }

  predicate EncodableMethod(method_: ReceiverMethod) {
    && EncodableSignature(method_.parameters, method_.returnSlots, method_.errorReturn, method_.callSummary)
    && MethodAccepted(method_)
  }

  function PutMethods(methods: seq<ReceiverMethod>, rest: seq<byte>): (r: seq<byte>)
    ensures |r| >= |rest|
  {
    PutSequence(SortedItems(Map(KeyedMethod, methods)), rest)
  }

  predicate EncodableMethods(methods: seq<ReceiverMethod>) {
    FitsField(|methods|) && forall i :: 0 <= i < |methods| ==> EncodableMethod(methods[i])
  }

  // ---------------------------------------------------------------- traits

  function PutTraitSurfaceType(t: TraitSurfaceType, rest: seq<byte>): (r: seq<byte>)
    ensures |r| >= |rest|
  {
    match t
    case SelfType => PutU8(0, rest)
    case Concrete(identity) => PutU8(1, PutType(identity, rest))
  }

  predicate EncodableTraitSurfaceType(t: TraitSurfaceType) {
    t.Concrete? ==> EncodableType(t.typeIdentity)
  }

  function RequirementParameterItem(parameter: RequirementParameter): seq<byte> {
    PutOptionalText(parameter.name,
      PutU8(ValueModeTag(parameter.valueMode), PutTraitSurfaceType(parameter.typeIdentity, [])))
  }

  function RequirementReturnItem(slot: RequirementReturn): seq<byte> {
    PutU8(ReturnChannelTag(slot.channel), PutTraitSurfaceType(slot.typeIdentity, []))
  }

  function RequirementItem(requirement: TraitRequirement): seq<byte> {
    PutBytes(requirement.name,
      PutU8(ReceiverAccessTag(requirement.receiverAccess),
        PutSequence(Map(RequirementParameterItem, requirement.parameters),
          PutSequence(Map(RequirementReturnItem, requirement.returns_), []))))
  }

  predicate EncodableRequirement(requirement: TraitRequirement) {
    && FitsField(|requirement.parameters|)
    && FitsField(|requirement.returns_|)
    && (forall i :: 0 <= i < |requirement.parameters| ==>
        EncodableTraitSurfaceType(requirement.parameters[i].typeIdentity))
    && (forall i :: 0 <= i < |requirement.returns_| ==>
        EncodableTraitSurfaceType(requirement.returns_[i].typeIdentity))
  }

  predicate EncodableRequirements(requirements: seq<TraitRequirement>) {
    FitsField(|requirements|) && forall i :: 0 <= i < |requirements| ==> EncodableRequirement(requirements[i])
  }

  function KeyedTrait(identity: TraitIdentity): KeyedItem {
    KeyedItem(TraitItem(identity), TraitItem(identity))
  }

  // ---------------------------------------------------------------- declaration records

  function PutSemantics(semantics: DeclarationSemantics, rest: seq<byte>): (r: seq<byte>)
    ensures |r| >= |rest|
  {
    match semantics
    case FunctionDeclaration(f) => PutU8(0, PutFunctionSemantics(f, rest))
    case StructDeclaration(generics, fields, methods) =>
      PutU8(1, PutSequence(Map(GenericSurfaceItem, generics),
        PutSequence(Map(FieldSlotItem, fields), PutMethods(methods, rest))))
    case ChoiceDeclaration(generics, variants, methods) =>
      PutU8(2, PutSequence(Map(GenericSurfaceItem, generics),
        PutSequence(Map(VariantItem, variants), PutMethods(methods, rest))))
    case AliasDeclaration(target) => PutU8(3, PutType(target, rest))
    case ConstantDeclaration(constantType, value) => PutU8(4, PutType(constantType, PutValue(value, rest)))
    case TraitDeclaration(requirements, incompatibilities) =>
      PutU8(5, PutSequence(Map(RequirementItem, requirements),
        PutSequence(SortedItems(Map(KeyedTrait, incompatibilities)), rest)))
  }

  predicate EncodableSemantics(semantics: DeclarationSemantics) {
    match semantics
    case FunctionDeclaration(f) => EncodableFunction(f)
    case StructDeclaration(generics, fields, methods) =>
      EncodableGenericSurfaces(generics) && EncodableFieldSlots(fields) && EncodableMethods(methods)
    case ChoiceDeclaration(generics, variants, methods) =>
      && EncodableGenericSurfaces(generics)
      && FitsField(|variants|)
      && (forall i :: 0 <= i < |variants| ==> EncodableVariant(variants[i]))
      && EncodableMethods(methods)
    case AliasDeclaration(target) => EncodableType(target)
    case ConstantDeclaration(constantType, value) => EncodableType(constantType) && EncodableValue(value)
    case TraitDeclaration(requirements, incompatibilities) =>
      EncodableRequirements(requirements) && FitsField(|incompatibilities|)
  }

  function DeclarationItem(record: DeclarationRecord): seq<byte> {
    PutOriginDeclaration(record.origin, PutSemantics(record.semantics, []))
  }

  function KeyedDeclaration(record: DeclarationRecord): KeyedItem {
    KeyedItem(OriginDeclarationKey(record.origin), DeclarationItem(record))
  }

  function KeyedBinding(binding: ExportBinding): KeyedItem {
    KeyedItem(ExportBindingItem(binding), ExportBindingItem(binding))
  }

  // ---------------------------------------------------------------- evidence

  function MappingItem(mapping: RequirementMapping): seq<byte> {
    PutRequirementIdentity(mapping.requirement, PutOriginFunction(mapping.method_, []))
  }

  function EvidenceItem(record: EvidenceRecord): seq<byte> {
    PutBytes(EvidenceIdentityItem(record.identity),
      PutU8(OwnershipTag(record.ownership), PutSequence(Map(MappingItem, record.mappings), [])))
  }

  predicate EncodableEvidence(record: EvidenceRecord) {
    && EncodableType(record.identity.target)
    && record.ownership == SourceCanonical
    && FitsField(|record.mappings|)
  }

  function KeyedEvidence(record: EvidenceRecord): KeyedItem {
    KeyedItem(EvidenceIdentityItem(record.identity), EvidenceItem(record))
  }

  // ---------------------------------------------------------------- the draft

  /** The UTF-8 bytes of "beanstalk.public-interface-draft". */
  const DOMAIN_TAG: seq<byte> :=
    [0x62, 0x65, 0x61, 0x6E, 0x73, 0x74, 0x61, 0x6C, 0x6B, 0x2E, 0x70, 0x75, 0x62, 0x6C, 0x69, 0x63,
     0x2D, 0x69, 0x6E, 0x74, 0x65, 0x72, 0x66, 0x61, 0x63, 0x65, 0x2D, 0x64, 0x72, 0x61, 0x66, 0x74]

  const FORMAT_REVISION: u16 := 1

  function PutHeader(rest: seq<byte>): (r: seq<byte>)
    ensures |r| >= |rest|
  {
    PutBytes(DOMAIN_TAG, PutU16(FORMAT_REVISION, rest))
  }

  function PutDraft(draft: Draft, rest: seq<byte>): (r: seq<byte>) {
    PutHeader(PutModuleOrigin(draft.moduleOrigin,
      PutSequence(SortedItems(Map(KeyedBinding, draft.exportBindings)),
        PutSequence(SortedItems(Map(KeyedDeclaration, draft.declarations)),
          PutSequence(SortedItems(Map(KeyedEvidence, draft.evidence)), rest)))))
  }

  predicate EncodableDeclarations(records: seq<DeclarationRecord>) {
    FitsField(|records|) && forall i :: 0 <= i < |records| ==> EncodableSemantics(records[i].semantics)
  }

  predicate EncodableEvidenceRecords(records: seq<EvidenceRecord>) {
    FitsField(|records|) && forall i :: 0 <= i < |records| ==> EncodableEvidence(records[i])
  }

  predicate EncodableDraft(draft: Draft) {
    && FitsField(|draft.exportBindings|)
    && EncodableDeclarations(draft.declarations)
    && EncodableEvidenceRecords(draft.evidence)
  }
}
