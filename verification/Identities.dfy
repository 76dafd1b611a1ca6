/** Stable identities: packages, modules, declarations, canonical types and traits. */
module Identities {
  import opened Wrappers
  import opened Bytes

  // ---------------------------------------------------------------- module and declaration origins

  datatype PackageOrigin = Core | Standard | Builder | ProjectLocal | Dependency

  datatype ModuleRootRole = Normal | Support | ProjectPackageFacade

  datatype PackageIdentity = PackageIdentity(origin: PackageOrigin, name: Text)

  datatype ModuleOrigin = ModuleOrigin(package: PackageIdentity, logicalPath: Text, role: ModuleRootRole)

  datatype TypeCategory = StructCategory | ChoiceCategory | AliasCategory

  datatype OriginType = OriginType(moduleOrigin: ModuleOrigin, name: Text, category: TypeCategory)

  datatype FunctionKind = Free | Receiver(receiver: OriginType)

  datatype OriginFunction = OriginFunction(moduleOrigin: ModuleOrigin, name: Text, kind: FunctionKind)

  datatype OriginConstant = OriginConstant(moduleOrigin: ModuleOrigin, name: Text)

  datatype OriginTrait = OriginTrait(moduleOrigin: ModuleOrigin, name: Text)

  datatype OriginDeclaration =
    | FunctionOrigin(function_: OriginFunction)
    | TypeOrigin(type_: OriginType)
    | ConstantOrigin(constant: OriginConstant)
    | TraitOrigin(trait_: OriginTrait)

  datatype ExportBinding =
    ExportBinding(exportingModule: ModuleOrigin, publicName: Text, origin: OriginDeclaration)

  // ---------------------------------------------------------------- canonical types

  datatype GenericOwner = FreeFunction(function_: OriginFunction) | NominalType(nominal: OriginType)

  datatype GenericParameterIdentity =
    GenericParameterIdentity(owner: GenericOwner, position: u32, name: Text)

  datatype BuiltinType = Bool | Int | Float | Decimal | String | Char | Range | NoneType

  /** A closed type or exported generic parameter, free of every module-local id. A fixed
      capacity is a Rust `usize`. */
  datatype CanonicalType =
    | Builtin(builtin: BuiltinType)
    | SourceNominal(origin: OriginType)
    | ExternalOpaque(packagePath: Text, symbolPath: seq<Text>)
    | Collection(element: CanonicalType, fixedCapacity: Option<nat>)
    | OrderedMap(key: CanonicalType, value: CanonicalType)
    | OptionType(inner: CanonicalType)
    | FallibleCarrier(success: CanonicalType, error: CanonicalType)
    | GenericInstance(base: OriginType, arguments: seq<CanonicalType>)
    | GenericParameter(parameter: GenericParameterIdentity)

  // ---------------------------------------------------------------- traits and evidence

  datatype CastTarget = ToBool | ToInt | ToString | ToChar | ToFloat | ToError

  datatype CastFallibility = Infallible | Fallible

  datatype CoreTrait = Displayable | Castable(target: CastTarget, fallibility: CastFallibility)

  datatype TraitIdentity = SourceTrait(origin: OriginTrait) | CoreTraitIdentity(core: CoreTrait)

  datatype EvidenceIdentity = EvidenceIdentity(target: CanonicalType, trait_: TraitIdentity)

  datatype RequirementIdentity = RequirementIdentity(trait_: TraitIdentity, name: Text)
}
