/** The public-interface draft: the values the joins build and the encoder reads. */
module InterfaceDraft {
  import opened Wrappers
  import opened Bytes
  import opened Identities
  import opened FiniteFloats

  // ---------------------------------------------------------------- folded values

  /** A Unicode scalar value. */
  type CharCode = c: u32 | c < 0xD800 || 0xE000 <= c < 0x11_0000

  datatype FoldedField = FoldedField(name: Text, value: FoldedValue)

  datatype FoldedValue =
    | IntValue(int_: i32)
    | FloatValue(float_: FiniteFloat)
    | BoolValue(bool_: bool)
    | CharValue(char_: CharCode)
    | StringValue(text: Text)
    | CollectionValue(items: seq<FoldedValue>)
    | RecordValue(fields: seq<FoldedField>)
    | ChoiceValue(typeIdentity: CanonicalType, variant: Text, payload: seq<FoldedField>)
    | RangeValue(start: FoldedValue, end: FoldedValue)
    | OptionSome(inner: FoldedValue)
    | OptionNone

  // ---------------------------------------------------------------- call summaries

  datatype ParameterAccess = Shared | MutableAccess | Reactive

  datatype MutationEffect = NoWrite | Writes

  datatype TransferEligibility = Ineligible | Eligible

  datatype TransferEffect = NeverConsumes | MayConsume | AlwaysConsumes

  datatype ReactiveEffect = NoReactive | Subscribes | Invalidates | SubscribesAndInvalidates

  datatype ParameterSummary = ParameterSummary(
    access: ParameterAccess,
    mutation: MutationEffect,
    eligibility: TransferEligibility,
    transfer: TransferEffect,
    reactive: ReactiveEffect)

  /** Parameter indices are Rust `usize` values. */
  datatype ReturnAlias = Fresh | AliasParams(indices: seq<nat>) | Unknown

  datatype CallSummary = CallSummary(parameters: seq<ParameterSummary>, returnAlias: ReturnAlias)

  datatype SummaryState = PendingLocal | PendingGenerated | Finalized(summary: CallSummary)

  // ---------------------------------------------------------------- declaration semantics

  datatype ParameterSlot =
    ParameterSlot(name: Option<Text>, typeIdentity: CanonicalType, default: Option<FoldedValue>)

  datatype FieldSlot = FieldSlot(name: Text, typeIdentity: CanonicalType, default: Option<FoldedValue>)

  datatype Variant = Variant(name: Text, payload: seq<FieldSlot>)

  datatype GenericParameterSurface =
    GenericParameterSurface(identity: GenericParameterIdentity, bounds: seq<TraitIdentity>)

  datatype FunctionSemantics = FunctionSemantics(
    genericTemplate: Option<seq<GenericParameterSurface>>,
    parameters: seq<ParameterSlot>,
    returnSlots: seq<CanonicalType>,
    errorReturn: Option<CanonicalType>,
    callSummary: SummaryState)

  datatype ReceiverMethod = ReceiverMethod(
    origin: OriginFunction,
    genericTemplate: bool,
    parameters: seq<ParameterSlot>,
    returnSlots: seq<CanonicalType>,
    errorReturn: Option<CanonicalType>,
    callSummary: SummaryState)

  datatype TraitSurfaceType = SelfType | Concrete(typeIdentity: CanonicalType)

  datatype ReceiverAccess = ImmutableReceiver | MutableReceiver

  datatype ValueMode = MutableOwned | MutableReference | ImmutableOwned | ImmutableReference

  datatype ReturnChannel = SuccessChannel | ErrorChannel

  datatype RequirementParameter =
    RequirementParameter(name: Option<Text>, valueMode: ValueMode, typeIdentity: TraitSurfaceType)

  datatype RequirementReturn = RequirementReturn(channel: ReturnChannel, typeIdentity: TraitSurfaceType)

  datatype TraitRequirement = TraitRequirement(
    name: Text,
    receiverAccess: ReceiverAccess,
    parameters: seq<RequirementParameter>,
    returns_: seq<RequirementReturn>)

  datatype DeclarationSemantics =
    | FunctionDeclaration(function_: FunctionSemantics)
    | StructDeclaration(
        structGenerics: seq<GenericParameterSurface>,
        fields: seq<FieldSlot>,
        structMethods: seq<ReceiverMethod>)
    | ChoiceDeclaration(
        choiceGenerics: seq<GenericParameterSurface>,
        variants: seq<Variant>,
        choiceMethods: seq<ReceiverMethod>)
    | AliasDeclaration(target: CanonicalType)
    | ConstantDeclaration(constantType: CanonicalType, value: FoldedValue)
    | TraitDeclaration(requirements: seq<TraitRequirement>, incompatibilities: seq<TraitIdentity>)

  datatype DeclarationRecord = DeclarationRecord(origin: OriginDeclaration, semantics: DeclarationSemantics)

  // ---------------------------------------------------------------- evidence and the draft

  datatype EvidenceOwnership = SourceCanonical | BuiltinOwned

  datatype RequirementMapping = RequirementMapping(requirement: RequirementIdentity, method_: OriginFunction)

  datatype EvidenceRecord = EvidenceRecord(
    identity: EvidenceIdentity,
    ownership: EvidenceOwnership,
    mappings: seq<RequirementMapping>)

  datatype Draft = Draft(
    moduleOrigin: ModuleOrigin,
    exportBindings: seq<ExportBinding>,
    declarations: seq<DeclarationRecord>,
    evidence: seq<EvidenceRecord>)
}
