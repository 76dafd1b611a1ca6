/** A reader for the canonical bytes, written from the format alone.

    Every `ReadX` takes bytes and gives the value they begin with and the bytes behind it.
    Enumerations are read by position in a table of their variants. The reader knows no more than
    the format does: where a draft's collections carry no order it gives them as they stand. */
module CanonicalReader {
  import opened Wrappers
  import opened Bytes
  import opened FiniteFloats
  import opened Identities
  import opened InterfaceDraft

  datatype Reading<+T> = Read(value: T, rest: seq<byte>) | Malformed {
    predicate IsFailure() {
      Malformed?
    }

    function PropagateFailure<U>(): Reading<U>
      requires Malformed?
    {
      Malformed
    }

    function Extract(): (T, seq<byte>)
      requires Read?
    {
      (value, rest)
    }
  }

  // ---------------------------------------------------------------- scalars and sequences

  function ReadU8(s: seq<byte>): (r: Reading<byte>)
    ensures r.Read? ==> |r.rest| < |s|
  {
    if s == [] then Malformed else Read(s[0], s[1..])
  }

  /** The byte at place `i` counts 256 to the power `i`. */
  function ReadNumber(width: nat, s: seq<byte>): (r: Reading<nat>)
    ensures r.Read? ==> r.value < Pow256(width) && |r.rest| + width == |s|
  {
    if width == 0 then Read(0, s)
    else
      var (low, s1) :- ReadU8(s);
      var (high, s2) :- ReadNumber(width - 1, s1);
      Read(low + 256 * high, s2)
  }

  function ReadLength(s: seq<byte>): (r: Reading<nat>)
    ensures r.Read? ==> |r.rest| < |s|
  {
    ReadNumber(8, s)
  }

  function ReadU32(s: seq<byte>): (r: Reading<u32>)
    ensures r.Read? ==> |r.rest| < |s|
  {
    var (n, s1) :- ReadNumber(4, s);
    assert Pow256(4) == TWO_TO_32;
    Read(n, s1)
  }

  function ReadI32(s: seq<byte>): (r: Reading<i32>)
    ensures r.Read? ==> |r.rest| < |s|
  {
    var (n, s1) :- ReadU32(s);
    Read(if n < 0x8000_0000 then n else n - TWO_TO_32, s1)
  }

  function ReadBool(s: seq<byte>): (r: Reading<bool>)
    ensures r.Read? ==> |r.rest| < |s|
  {
    var (n, s1) :- ReadU8(s);
    if n <= 1 then Read(n == 1, s1) else Malformed
  }

  /** An enumeration by the position of its variant. */
  function ReadVariant<T>(variants: seq<T>, s: seq<byte>): (r: Reading<T>)
    ensures r.Read? ==> |r.rest| < |s|
  {
    var (n, s1) :- ReadU8(s);
    if n < |variants| then Read(variants[n], s1) else Malformed
  }

  /** A length and so many bytes. */
  function ReadBytes(s: seq<byte>): (r: Reading<seq<byte>>)
    ensures r.Read? ==> |r.rest| + |r.value| < |s|
  {
    var (n, s1) :- ReadLength(s);
    if n <= |s1| then Read(s1[..n], s1[n..]) else Malformed
  }

  function ReadItems(count: nat, s: seq<byte>): (r: Reading<seq<seq<byte>>>)
    ensures r.Read? ==> |r.rest| <= |s| && |r.value| == count
    ensures r.Read? ==> forall i :: 0 <= i < |r.value| ==> |r.value[i]| < |s|
  {
    if count == 0 then Read([], s)
    else
      var (first, s1) :- ReadBytes(s);
      var (others, s2) :- ReadItems(count - 1, s1);
      Read([first] + others, s2)
  }

  /** A count and so many items, each behind its length. */
  function ReadSequence(s: seq<byte>): (r: Reading<seq<seq<byte>>>)
    ensures r.Read? ==> |r.rest| < |s| && forall i :: 0 <= i < |r.value| ==> |r.value[i]| < |s|
  {
    var (count, s1) :- ReadLength(s);
    ReadItems(count, s1)
  }

  /** Every item, each read to its end. */
  function ReadEach<T>(read: seq<byte> -> Reading<T>, items: seq<seq<byte>>): Option<seq<T>> {
    if items == [] then Some([])
    else
      match (read(items[0]), ReadEach(read, items[1..]))
      case (Read(first, rest), Some(others)) => if rest == [] then Some([first] + others) else None
      case _ => None
  }

  function ReadList<T>(read: seq<byte> -> Reading<T>, s: seq<byte>): (r: Reading<seq<T>>)
    ensures r.Read? ==> |r.rest| < |s|
  {
    var (items, s1) :- ReadSequence(s);
    match ReadEach(read, items)
    case Some(values) => Read(values, s1)
    case None => Malformed
  }

  /** Zero for nothing, one before a value. */
  function ReadOptional<T>(read: seq<byte> -> Reading<T>, s: seq<byte>): Reading<Option<T>> {
    var (tag, s1) :- ReadU8(s);
    if tag == 0 then Read(None, s1)
    else if tag == 1 then
      var (value, s2) :- read(s1);
      Read(Some(value), s2)
    else Malformed
  }

  // ---------------------------------------------------------------- origins

  const PACKAGE_ORIGINS := [Core, Standard, Builder, ProjectLocal, Dependency]
  const ROOT_ROLES := [Normal, Support, ProjectPackageFacade]
  const TYPE_CATEGORIES := [StructCategory, ChoiceCategory, AliasCategory]

  function ReadModuleOrigin(s: seq<byte>): (r: Reading<ModuleOrigin>)
    ensures r.Read? ==> |r.rest| < |s|
  {
    var (origin, s1) :- ReadVariant(PACKAGE_ORIGINS, s);
    var (name, s2) :- ReadBytes(s1);
    var (path, s3) :- ReadBytes(s2);
    var (role, s4) :- ReadVariant(ROOT_ROLES, s3);
    Read(ModuleOrigin(PackageIdentity(origin, name), path, role), s4)
  }

  function ReadOriginType(s: seq<byte>): (r: Reading<OriginType>)
    ensures r.Read? ==> |r.rest| < |s|
  {
    var (moduleOrigin, s1) :- ReadModuleOrigin(s);
    var (name, s2) :- ReadBytes(s1);
    var (category, s3) :- ReadVariant(TYPE_CATEGORIES, s2);
    Read(OriginType(moduleOrigin, name, category), s3)
  }

  function ReadOriginFunction(s: seq<byte>): (r: Reading<OriginFunction>)
    ensures r.Read? ==> |r.rest| < |s|
  {
    var (moduleOrigin, s1) :- ReadModuleOrigin(s);
    var (name, s2) :- ReadBytes(s1);
    var (tag, s3) :- ReadU8(s2);
    if tag == 0 then Read(OriginFunction(moduleOrigin, name, Free), s3)
    else if tag == 1 then
      var (receiver, s4) :- ReadOriginType(s3);
      Read(OriginFunction(moduleOrigin, name, Receiver(receiver)), s4)
    else Malformed
  }

  function ReadOriginConstant(s: seq<byte>): (r: Reading<OriginConstant>) {
    var (moduleOrigin, s1) :- ReadModuleOrigin(s);
    var (name, s2) :- ReadBytes(s1);
    Read(OriginConstant(moduleOrigin, name), s2)
  }

  function ReadOriginTrait(s: seq<byte>): (r: Reading<OriginTrait>) {
    var (moduleOrigin, s1) :- ReadModuleOrigin(s);
    var (name, s2) :- ReadBytes(s1);
    Read(OriginTrait(moduleOrigin, name), s2)
  }

  function ReadOriginDeclaration(s: seq<byte>): Reading<OriginDeclaration> {
    var (tag, s1) :- ReadU8(s);
    match tag
    case 0 => var (f, s2) :- ReadOriginFunction(s1); Read(FunctionOrigin(f), s2)
    case 1 => var (t, s2) :- ReadOriginType(s1); Read(TypeOrigin(t), s2)
    case 2 => var (c, s2) :- ReadOriginConstant(s1); Read(ConstantOrigin(c), s2)
    case 3 => var (t, s2) :- ReadOriginTrait(s1); Read(TraitOrigin(t), s2)
    case _ => Malformed
  }

  function ReadExportBinding(s: seq<byte>): Reading<ExportBinding> {
    var (exportingModule, s1) :- ReadModuleOrigin(s);
    var (name, s2) :- ReadBytes(s1);
    var (origin, s3) :- ReadOriginDeclaration(s2);
    Read(ExportBinding(exportingModule, name, origin), s3)
  }

  // ---------------------------------------------------------------- types and traits

  const BUILTIN_TYPES := [Bool, Int, Float, Decimal, String, Char, Range, NoneType]
  const CAST_TARGETS := [ToBool, ToInt, ToString, ToChar, ToFloat, ToError]
  const CAST_FALLIBILITIES := [Infallible, Fallible]

  function ReadGenericParameter(s: seq<byte>): (r: Reading<GenericParameterIdentity>)
    ensures r.Read? ==> |r.rest| < |s|
  {
    var (tag, s1) :- ReadU8(s);
    var (owner, s2) :- ReadOwner(tag, s1);
    var (position, s3) :- ReadU32(s2);
    var (name, s4) :- ReadBytes(s3);
    Read(GenericParameterIdentity(owner, position, name), s4)
  }

  function ReadOwner(tag: byte, s: seq<byte>): (r: Reading<GenericOwner>)
    ensures r.Read? ==> |r.rest| < |s|
  {
    match tag
    case 0 => var (f, s1) :- ReadOriginFunction(s); Read(FreeFunction(f), s1)
    case 1 => var (t, s1) :- ReadOriginType(s); Read(NominalType(t), s1)
    case _ => Malformed
  }

  function ReadType(s: seq<byte>): (r: Reading<CanonicalType>)
    ensures r.Read? ==> |r.rest| < |s|
    decreases |s|, 1, 0
  {
    var (tag, s1) :- ReadU8(s);
    match tag
    case 0 => var (builtin, s2) :- ReadVariant(BUILTIN_TYPES, s1); Read(Builtin(builtin), s2)
    case 1 => var (origin, s2) :- ReadOriginType(s1); Read(SourceNominal(origin), s2)
    case 2 =>
      var (packagePath, s2) :- ReadBytes(s1);
      var (symbolPath, s3) :- ReadSequence(s2);
      Read(ExternalOpaque(packagePath, symbolPath), s3)
    case 3 =>
      var (element, s2) :- ReadType(s1);
      var (capacity, s3) :- ReadCapacity(s2);
      Read(Collection(element, capacity), s3)
    case 4 =>
      var (key, s2) :- ReadType(s1);
      var (value, s3) :- ReadType(s2);
      Read(OrderedMap(key, value), s3)
    case 5 => var (inner, s2) :- ReadType(s1); Read(OptionType(inner), s2)
    case 6 =>
      var (success, s2) :- ReadType(s1);
      var (error, s3) :- ReadType(s2);
      Read(FallibleCarrier(success, error), s3)
    case 7 =>
      var (base, s2) :- ReadOriginType(s1);
      var (items, s3) :- ReadSequence(s2);
      (match ReadTypes(items, |s|)
       case Some(arguments) => Read(GenericInstance(base, arguments), s3)
       case None => Malformed)
    case 8 => var (parameter, s2) :- ReadGenericParameter(s1); Read(GenericParameter(parameter), s2)
    case _ => Malformed
  }

  function ReadTypes(items: seq<seq<byte>>, bound: nat): Option<seq<CanonicalType>>
    requires forall i :: 0 <= i < |items| ==> |items[i]| < bound
    decreases bound, 0, |items|
  {
    if items == [] then Some([])
    else
      match (ReadType(items[0]), ReadTypes(items[1..], bound))
      case (Read(first, rest), Some(others)) => if rest == [] then Some([first] + others) else None
      case _ => None
  }

  function ReadCapacity(s: seq<byte>): (r: Reading<Option<nat>>)
    ensures r.Read? ==> |r.rest| < |s|
  {
    var (tag, s1) :- ReadU8(s);
    match tag
    case 0 => Read(None, s1)
    case 1 => var (n, s2) :- ReadLength(s1); Read(Some(n), s2)
    case _ => Malformed
  }

  function ReadTrait(s: seq<byte>): Reading<TraitIdentity> {
    var (tag, s1) :- ReadU8(s);
    match tag
    case 0 => var (origin, s2) :- ReadOriginTrait(s1); Read(SourceTrait(origin), s2)
    case 1 => var (core, s2) :- ReadCoreTrait(s1); Read(CoreTraitIdentity(core), s2)
    case _ => Malformed
  }

  function ReadCoreTrait(s: seq<byte>): Reading<CoreTrait> {
    var (tag, s1) :- ReadU8(s);
    match tag
    case 0 => Read(Displayable, s1)
    case 1 =>
      var (target, s2) :- ReadVariant(CAST_TARGETS, s1);
      var (fallibility, s3) :- ReadVariant(CAST_FALLIBILITIES, s2);
      Read(Castable(target, fallibility), s3)
    case _ => Malformed
  }

  /** An item of its own behind its length. */
  function ReadNested<T>(read: seq<byte> -> Reading<T>, s: seq<byte>): Reading<T> {
    var (item, s1) :- ReadBytes(s);
    var (value, end) :- read(item);
    if end == [] then Read(value, s1) else Malformed
  }

  function ReadRequirementIdentity(s: seq<byte>): Reading<RequirementIdentity> {
    var (trait_, s1) :- ReadNested(ReadTrait, s);
    var (name, s2) :- ReadBytes(s1);
    Read(RequirementIdentity(trait_, name), s2)
  }

  function ReadEvidenceIdentity(s: seq<byte>): Reading<EvidenceIdentity> {
    var (target, s1) :- ReadType(s);
    var (trait_, s2) :- ReadNested(ReadTrait, s1);
    Read(EvidenceIdentity(target, trait_), s2)
  }

  // ---------------------------------------------------------------- folded values

  function ReadFloat(s: seq<byte>): (r: Reading<FiniteFloat>)
    ensures r.Read? ==> |r.rest| < |s|
  {
    var (bits, s1) :- ReadLength(s);
    if bits < TWO_TO_64 && IsFinite(bits) && bits != SIGN_BIT then Read(bits, s1) else Malformed
  }

  function ReadChar(s: seq<byte>): (r: Reading<CharCode>)
    ensures r.Read? ==> |r.rest| < |s|
  {
    var (n, s1) :- ReadU32(s);
    if n < 0xD800 || 0xE000 <= n < 0x11_0000 then Read(n, s1) else Malformed
  }

  function ReadValue(s: seq<byte>): (r: Reading<FoldedValue>)
    ensures r.Read? ==> |r.rest| < |s|
    decreases |s|, 1, 0
  {
    var (tag, s1) :- ReadU8(s);
    match tag
    case 0 => var (n, s2) :- ReadI32(s1); Read(IntValue(n), s2)
    case 1 => var (x, s2) :- ReadFloat(s1); Read(FloatValue(x), s2)
    case 2 => var (b, s2) :- ReadBool(s1); Read(BoolValue(b), s2)
    case 3 => var (c, s2) :- ReadChar(s1); Read(CharValue(c), s2)
    case 4 => var (text, s2) :- ReadBytes(s1); Read(StringValue(text), s2)
    case 5 =>
      var (items, s2) :- ReadSequence(s1);
      (match ReadValues(items, |s|)
       case Some(values) => Read(CollectionValue(values), s2)
       case None => Malformed)
    case 6 =>
      var (items, s2) :- ReadSequence(s1);
      (match ReadFields(items, |s|)
       case Some(fields) => Read(RecordValue(fields), s2)
       case None => Malformed)
    case 7 =>
      var (typeIdentity, s2) :- ReadType(s1);
      var (variant, s3) :- ReadBytes(s2);
      var (items, s4) :- ReadSequence(s3);
      (match ReadFields(items, |s|)
       case Some(payload) => Read(ChoiceValue(typeIdentity, variant, payload), s4)
       case None => Malformed)
    case 8 =>
      var (start, s2) :- ReadValue(s1);
      var (end, s3) :- ReadValue(s2);
      Read(RangeValue(start, end), s3)
    case 9 => var (inner, s2) :- ReadValue(s1); Read(OptionSome(inner), s2)
    case 10 => Read(OptionNone, s1)
    case _ => Malformed
  }

  function ReadValues(items: seq<seq<byte>>, bound: nat): Option<seq<FoldedValue>>
    requires forall i :: 0 <= i < |items| ==> |items[i]| < bound
    decreases bound, 0, |items|
  {
    if items == [] then Some([])
    else
      match (ReadValue(items[0]), ReadValues(items[1..], bound))
      case (Read(first, rest), Some(others)) => if rest == [] then Some([first] + others) else None
      case _ => None
  }

  function ReadFields(items: seq<seq<byte>>, bound: nat): Option<seq<FoldedField>>
    requires forall i :: 0 <= i < |items| ==> |items[i]| < bound
    decreases bound, 0, |items|
  {
    if items == [] then Some([])
    else
      match (ReadField(items[0]), ReadFields(items[1..], bound))
      case (Read(first, rest), Some(others)) => if rest == [] then Some([first] + others) else None
      case _ => None
  }

  function ReadField(s: seq<byte>): Reading<FoldedField>
    decreases |s|, 2, 0
  {
    var (name, s1) :- ReadBytes(s);
    var (value, s2) :- ReadValue(s1);
    Read(FoldedField(name, value), s2)
  }

  // ---------------------------------------------------------------- signatures

  function ReadParameterSlot(s: seq<byte>): Reading<ParameterSlot> {
    var (name, s1) :- ReadOptional(ReadBytes, s);
    var (typeIdentity, s2) :- ReadType(s1);
    var (default, s3) :- ReadOptional(ReadValue, s2);
    Read(ParameterSlot(name, typeIdentity, default), s3)
  }

  function ReadFieldSlot(s: seq<byte>): Reading<FieldSlot> {
    var (name, s1) :- ReadBytes(s);
    var (typeIdentity, s2) :- ReadType(s1);
    var (default, s3) :- ReadOptional(ReadValue, s2);
    Read(FieldSlot(name, typeIdentity, default), s3)
  }

  function ReadVariantItem(s: seq<byte>): Reading<Variant> {
    var (name, s1) :- ReadBytes(s);
    var (payload, s2) :- ReadList(ReadFieldSlot, s1);
    Read(Variant(name, payload), s2)
  }

  function ReadGenericSurface(s: seq<byte>): Reading<GenericParameterSurface> {
    var (identity, s1) :- ReadGenericParameter(s);
    var (bounds, s2) :- ReadList(ReadTrait, s1);
    Read(GenericParameterSurface(identity, bounds), s2)
  }

  const ACCESSES := [Shared, MutableAccess, Reactive]
  const MUTATIONS := [NoWrite, Writes]
  const ELIGIBILITIES := [Ineligible, Eligible]
  const TRANSFERS := [NeverConsumes, MayConsume, AlwaysConsumes]
  const REACTIVE_EFFECTS := [NoReactive, Subscribes, Invalidates, SubscribesAndInvalidates]

  function ReadParameterSummary(s: seq<byte>): Reading<ParameterSummary> {
    var (access, s1) :- ReadVariant(ACCESSES, s);
    var (mutation, s2) :- ReadVariant(MUTATIONS, s1);
    var (eligibility, s3) :- ReadVariant(ELIGIBILITIES, s2);
    var (transfer, s4) :- ReadVariant(TRANSFERS, s3);
    var (reactive, s5) :- ReadVariant(REACTIVE_EFFECTS, s4);
    Read(ParameterSummary(access, mutation, eligibility, transfer, reactive), s5)
  }

  function ReadIndices(count: nat, s: seq<byte>): Reading<seq<nat>> {
    if count == 0 then Read([], s)
    else
      var (first, s1) :- ReadLength(s);
      var (others, s2) :- ReadIndices(count - 1, s1);
      Read([first] + others, s2)
  }

  function ReadReturnAlias(s: seq<byte>): Reading<ReturnAlias> {
    var (tag, s1) :- ReadU8(s);
    match tag
    case 0 => Read(Fresh, s1)
    case 1 =>
      var (count, s2) :- ReadLength(s1);
      var (indices, s3) :- ReadIndices(count, s2);
      Read(AliasParams(indices), s3)
    case 2 => Read(Unknown, s1)
    case _ => Malformed
  }

  function ReadSummaryState(s: seq<byte>): Reading<SummaryState> {
    var (tag, s1) :- ReadU8(s);
    match tag
    case 0 => Read(PendingGenerated, s1)
    case 1 =>
      var (parameters, s2) :- ReadList(ReadParameterSummary, s1);
      var (alias, s3) :- ReadReturnAlias(s2);
      Read(Finalized(CallSummary(parameters, alias)), s3)
    case _ => Malformed
  }

  function ReadGenericSurfaces(s: seq<byte>): Reading<seq<GenericParameterSurface>> {
    ReadList(ReadGenericSurface, s)
  }

  function ReadFunction(s: seq<byte>): Reading<FunctionSemantics> {
    var (template, s1) :- ReadOptional(ReadGenericSurfaces, s);
    var (parameters, s2) :- ReadList(ReadParameterSlot, s1);
    var (returnSlots, s3) :- ReadList(ReadType, s2);
    var (errorReturn, s4) :- ReadOptional(ReadType, s3);
    var (state, s5) :- ReadSummaryState(s4);
    Read(FunctionSemantics(template, parameters, returnSlots, errorReturn, state), s5)
  }

  function ReadMethod(s: seq<byte>): Reading<ReceiverMethod> {
    var (origin, s1) :- ReadOriginFunction(s);
    var (generic, s2) :- ReadBool(s1);
    var (parameters, s3) :- ReadList(ReadParameterSlot, s2);
    var (returnSlots, s4) :- ReadList(ReadType, s3);
    var (errorReturn, s5) :- ReadOptional(ReadType, s4);
    var (state, s6) :- ReadSummaryState(s5);
    Read(ReceiverMethod(origin, generic, parameters, returnSlots, errorReturn, state), s6)
  }

  // ---------------------------------------------------------------- traits

  const VALUE_MODES := [MutableOwned, MutableReference, ImmutableOwned, ImmutableReference]
  const RECEIVER_ACCESSES := [ImmutableReceiver, MutableReceiver]
  const RETURN_CHANNELS := [SuccessChannel, ErrorChannel]

  function ReadTraitSurfaceType(s: seq<byte>): Reading<TraitSurfaceType> {
    var (tag, s1) :- ReadU8(s);
    match tag
    case 0 => Read(SelfType, s1)
    case 1 => var (identity, s2) :- ReadType(s1); Read(Concrete(identity), s2)
    case _ => Malformed
  }

  function ReadRequirementParameter(s: seq<byte>): Reading<RequirementParameter> {
    var (name, s1) :- ReadOptional(ReadBytes, s);
    var (mode, s2) :- ReadVariant(VALUE_MODES, s1);
    var (typeIdentity, s3) :- ReadTraitSurfaceType(s2);
    Read(RequirementParameter(name, mode, typeIdentity), s3)
  }

  function ReadRequirementReturn(s: seq<byte>): Reading<RequirementReturn> {
    var (channel, s1) :- ReadVariant(RETURN_CHANNELS, s);
    var (typeIdentity, s2) :- ReadTraitSurfaceType(s1);
    Read(RequirementReturn(channel, typeIdentity), s2)
  }

  function ReadRequirement(s: seq<byte>): Reading<TraitRequirement> {
    var (name, s1) :- ReadBytes(s);
    var (access, s2) :- ReadVariant(RECEIVER_ACCESSES, s1);
    var (parameters, s3) :- ReadList(ReadRequirementParameter, s2);
    var (returns_, s4) :- ReadList(ReadRequirementReturn, s3);
    Read(TraitRequirement(name, access, parameters, returns_), s4)
  }

  // ---------------------------------------------------------------- declarations, evidence, draft

  function ReadSemantics(s: seq<byte>): Reading<DeclarationSemantics> {
    var (tag, s1) :- ReadU8(s);
    match tag
    case 0 => var (f, s2) :- ReadFunction(s1); Read(FunctionDeclaration(f), s2)
    case 1 =>
      var (generics, s2) :- ReadList(ReadGenericSurface, s1);
      var (fields, s3) :- ReadList(ReadFieldSlot, s2);
      var (methods, s4) :- ReadList(ReadMethod, s3);
      Read(StructDeclaration(generics, fields, methods), s4)
    case 2 =>
      var (generics, s2) :- ReadList(ReadGenericSurface, s1);
      var (variants, s3) :- ReadList(ReadVariantItem, s2);
      var (methods, s4) :- ReadList(ReadMethod, s3);
      Read(ChoiceDeclaration(generics, variants, methods), s4)
    case 3 => var (target, s2) :- ReadType(s1); Read(AliasDeclaration(target), s2)
    case 4 =>
      var (constantType, s2) :- ReadType(s1);
      var (value, s3) :- ReadValue(s2);
      Read(ConstantDeclaration(constantType, value), s3)
    case 5 =>
      var (requirements, s2) :- ReadList(ReadRequirement, s1);
      var (incompatibilities, s3) :- ReadList(ReadTrait, s2);
      Read(TraitDeclaration(requirements, incompatibilities), s3)
    case _ => Malformed
  }

  function ReadRecord(s: seq<byte>): Reading<DeclarationRecord> {
    var (origin, s1) :- ReadOriginDeclaration(s);
    var (semantics, s2) :- ReadSemantics(s1);
    Read(DeclarationRecord(origin, semantics), s2)
  }

  function ReadMapping(s: seq<byte>): Reading<RequirementMapping> {
    var (requirement, s1) :- ReadRequirementIdentity(s);
    var (method_, s2) :- ReadOriginFunction(s1);
    Read(RequirementMapping(requirement, method_), s2)
  }

  function ReadEvidence(s: seq<byte>): Reading<EvidenceRecord> {
    var (identity, s1) :- ReadNested(ReadEvidenceIdentity, s);
    var (ownership, s2) :- ReadVariant([SourceCanonical], s1);
    var (mappings, s3) :- ReadList(ReadMapping, s2);
    Read(EvidenceRecord(identity, ownership, mappings), s3)
  }

  const DOMAIN := "beanstalk.public-interface-draft"

  /** The domain's characters, all of them ASCII. */
  predicate IsDomainTag(tag: seq<byte>) {
    |tag| == |DOMAIN| && forall i :: 0 <= i < |DOMAIN| ==> tag[i] == DOMAIN[i] as int
  }

  function ReadDraft(s: seq<byte>): Reading<Draft> {
    var (tag, s1) :- ReadBytes(s);
    var (revision, s2) :- ReadNumber(2, s1);
    if !IsDomainTag(tag) || revision != 1 then Malformed
    else
      var (moduleOrigin, s3) :- ReadModuleOrigin(s2);
      var (bindings, s4) :- ReadList(ReadExportBinding, s3);
      var (records, s5) :- ReadList(ReadRecord, s4);
      var (evidence, s6) :- ReadList(ReadEvidence, s5);
      Read(Draft(moduleOrigin, bindings, records, evidence), s6)
  }
}
