/** The reader gives back every encoded value and the bytes behind it.

    Lengths are written as 64-bit fields, so the bytes read are shorter than two to the power 64.
    That two values with one code are equal follows at once: the reader gives only one answer. */
module CanonicalReadBack {
  import opened Wrappers
  import opened Sorting
  import opened Bytes
  import opened Identities
  import opened InterfaceDraft
  import opened CanonicalCode
  import opened CanonicalReader

  /** Bytes short enough that no length field in them wrapped around. */
  predicate Short(bytes: seq<byte>) {
    |bytes| < TWO_TO_64
  }

  // ---------------------------------------------------------------- scalars

  lemma U8Reads(n: byte, rest: seq<byte>)
    ensures ReadU8(PutU8(n, rest)) == Read(n, rest)
  {
    assert PutU8(n, rest)[1..] == rest;
  }

  lemma VariantReads<T>(variants: seq<T>, tag: byte, rest: seq<byte>)
    requires tag < |variants|
    ensures ReadVariant(variants, PutU8(tag, rest)) == Read(variants[tag], rest)
  {
    U8Reads(tag, rest);
  }

  lemma BoolReads(b: bool, rest: seq<byte>)
    ensures ReadBool(PutBool(b, rest)) == Read(b, rest)
  {
    U8Reads(if b then 1 else 0, rest);
  }

  lemma {:induction false} NumberReads(width: nat, n: nat, rest: seq<byte>)
    requires n < Pow256(width)
    ensures ReadNumber(width, PutLittleEndian(width, n, rest)) == Read(n, rest)
  {
    if width > 0 {
      assert PutLittleEndian(width, n, rest)[1..] == PutLittleEndian(width - 1, n / 256, rest);
      NumberReads(width - 1, n / 256, rest);
    }
  }

  lemma LengthReads(n: nat, rest: seq<byte>)
    requires n < TWO_TO_64
    ensures ReadLength(PutLength(n, rest)) == Read(n, rest)
  {
    assert Pow256(4) == TWO_TO_32;
    assert Pow256(8) == 256 * (256 * (256 * (256 * Pow256(4))));
    NumberReads(8, n, rest);
  }

  lemma U32Reads(n: u32, rest: seq<byte>)
    ensures ReadU32(PutU32(n, rest)) == Read(n, rest)
  {
    assert Pow256(4) == TWO_TO_32;
    NumberReads(4, n, rest);
  }

  lemma I32Reads(n: i32, rest: seq<byte>)
    ensures ReadI32(PutI32(n, rest)) == Read(n, rest)
  {
    U32Reads(n % TWO_TO_32, rest);
  }

  // ---------------------------------------------------------------- bytes and sequences

  lemma BytesRead(b: seq<byte>, rest: seq<byte>)
    requires Short(PutBytes(b, rest))
    ensures ReadBytes(PutBytes(b, rest)) == Read(b, rest)
  {
    hide ReadLength, PutLength;
    LengthReads(|b|, b + rest);
    assert (b + rest)[..|b|] == b && (b + rest)[|b|..] == rest;
  }

  lemma {:induction false} ItemsRead(items: seq<seq<byte>>, rest: seq<byte>)
    requires Short(PutItems(items, rest))
    ensures ReadItems(|items|, PutItems(items, rest)) == Read(items, rest)
    ensures forall i :: 0 <= i < |items| ==> |items[i]| <= |PutItems(items, rest)|
  {
    hide ReadBytes, PutBytes;
    if items != [] {
      BytesRead(items[0], PutItems(items[1..], rest));
      ItemsRead(items[1..], rest);
      assert [items[0]] + items[1..] == items;
    }
  }

  lemma SequenceReads(items: seq<seq<byte>>, rest: seq<byte>)
    requires Short(PutSequence(items, rest))
    ensures ReadSequence(PutSequence(items, rest)) == Read(items, rest)
    ensures forall i :: 0 <= i < |items| ==> |items[i]| < |PutSequence(items, rest)|
  {
    hide ReadLength, PutLength;
    LengthReads(|items|, PutItems(items, rest));
    ItemsRead(items, rest);
  }

  lemma {:induction false} EachReads<T>(read: seq<byte> -> Reading<T>, item: T -> seq<byte>, xs: seq<T>)
    requires forall x :: x in xs ==> read(item(x)) == Read(x, [])
    ensures ReadEach(read, Map(item, xs)) == Some(xs)
  {
    if xs != [] {
      EachReads(read, item, xs[1..]);
      assert Map(item, xs)[1..] == Map(item, xs[1..]);
      assert xs[0] in xs && [xs[0]] + xs[1..] == xs;
    }
  }

  lemma ListReads<T>(read: seq<byte> -> Reading<T>, item: T -> seq<byte>, xs: seq<T>, rest: seq<byte>)
    requires Short(PutSequence(Map(item, xs), rest))
    requires forall x :: x in xs && Short(item(x)) ==> read(item(x)) == Read(x, [])
    ensures ReadList(read, PutSequence(Map(item, xs), rest)) == Read(xs, rest)
  {
    hide ReadSequence, PutSequence;
    SequenceReads(Map(item, xs), rest);
    forall x | x in xs
      ensures Short(item(x))
    {
      var i :| 0 <= i < |xs| && xs[i] == x;
      assert Map(item, xs)[i] == item(x);
    }
    EachReads(read, item, xs);
  }

  lemma OptionalTextReads(text: Option<Text>, rest: seq<byte>)
    requires Short(PutOptionalText(text, rest))
    ensures ReadOptional(ReadBytes, PutOptionalText(text, rest)) == Read(text, rest)
  {
    hide ReadU8, PutU8, PutBytes, ReadBytes;
    match text {
      case None => U8Reads(0, rest);
      case Some(value) =>
        U8Reads(1, PutBytes(value, rest));
        BytesRead(value, rest);
    }
  }

  // ---------------------------------------------------------------- origins

  lemma ModuleOriginReads(origin: ModuleOrigin, rest: seq<byte>)
    requires Short(PutModuleOrigin(origin, rest))
    ensures ReadModuleOrigin(PutModuleOrigin(origin, rest)) == Read(origin, rest)
  {
    hide ReadVariant, ReadBytes, PutBytes, PutU8;
    var atRole := PutU8(RootRoleTag(origin.role), rest);
    var atPath := PutBytes(origin.logicalPath, atRole);
    VariantReads(PACKAGE_ORIGINS, PackageOriginTag(origin.package.origin), PutBytes(origin.package.name, atPath));
    BytesRead(origin.package.name, atPath);
    BytesRead(origin.logicalPath, atRole);
    VariantReads(ROOT_ROLES, RootRoleTag(origin.role), rest);
  }

  lemma OriginTypeReads(origin: OriginType, rest: seq<byte>)
    requires Short(PutOriginType(origin, rest))
    ensures ReadOriginType(PutOriginType(origin, rest)) == Read(origin, rest)
  {
    hide ReadModuleOrigin, PutModuleOrigin, ReadVariant, ReadBytes, PutBytes, PutU8;
    var atCategory := PutU8(TypeCategoryTag(origin.category), rest);
    ModuleOriginReads(origin.moduleOrigin, PutBytes(origin.name, atCategory));
    BytesRead(origin.name, atCategory);
    VariantReads(TYPE_CATEGORIES, TypeCategoryTag(origin.category), rest);
  }

  lemma OriginFunctionReads(origin: OriginFunction, rest: seq<byte>)
    requires Short(PutOriginFunction(origin, rest))
    ensures ReadOriginFunction(PutOriginFunction(origin, rest)) == Read(origin, rest)
  {
    hide ReadModuleOrigin, PutModuleOrigin, ReadOriginType, PutOriginType, ReadU8, ReadBytes, PutBytes, PutU8;
    match origin.kind {
      case Free =>
        ModuleOriginReads(origin.moduleOrigin, PutBytes(origin.name, PutU8(0, rest)));
        BytesRead(origin.name, PutU8(0, rest));
        U8Reads(0, rest);
      case Receiver(receiver) =>
        var atTag := PutU8(1, PutOriginType(receiver, rest));
        ModuleOriginReads(origin.moduleOrigin, PutBytes(origin.name, atTag));
        BytesRead(origin.name, atTag);
        U8Reads(1, PutOriginType(receiver, rest));
        OriginTypeReads(receiver, rest);
    }
  }

  lemma OriginTraitReads(origin: OriginTrait, rest: seq<byte>)
    requires Short(PutOriginTrait(origin, rest))
    ensures ReadOriginTrait(PutOriginTrait(origin, rest)) == Read(origin, rest)
  {
    hide ReadModuleOrigin, PutModuleOrigin, ReadBytes, PutBytes;
    ModuleOriginReads(origin.moduleOrigin, PutBytes(origin.name, rest));
    BytesRead(origin.name, rest);
  }

  lemma OriginConstantReads(origin: OriginConstant, rest: seq<byte>)
    requires Short(PutOriginConstant(origin, rest))
    ensures ReadOriginConstant(PutOriginConstant(origin, rest)) == Read(origin, rest)
  {
    hide ReadModuleOrigin, PutModuleOrigin, ReadBytes, PutBytes;
    ModuleOriginReads(origin.moduleOrigin, PutBytes(origin.name, rest));
    BytesRead(origin.name, rest);
  }

  lemma OriginDeclarationReads(origin: OriginDeclaration, rest: seq<byte>)
    requires Short(PutOriginDeclaration(origin, rest))
    ensures ReadOriginDeclaration(PutOriginDeclaration(origin, rest)) == Read(origin, rest)
  {
    hide ReadU8, PutU8, ReadOriginFunction, PutOriginFunction, ReadOriginType, PutOriginType, ReadOriginConstant;
    hide PutOriginConstant, ReadOriginTrait, PutOriginTrait;
    match origin {
      case FunctionOrigin(f) =>
        U8Reads(0, PutOriginFunction(f, rest));
        OriginFunctionReads(f, rest);
      case TypeOrigin(t) =>
        U8Reads(1, PutOriginType(t, rest));
        OriginTypeReads(t, rest);
      case ConstantOrigin(c) =>
        U8Reads(2, PutOriginConstant(c, rest));
        OriginConstantReads(c, rest);
      case TraitOrigin(t) =>
        U8Reads(3, PutOriginTrait(t, rest));
        OriginTraitReads(t, rest);
    }
  }

  lemma ExportBindingReads(binding: ExportBinding)
    requires Short(ExportBindingItem(binding))
    ensures ReadExportBinding(ExportBindingItem(binding)) == Read(binding, [])
  {
    hide ReadModuleOrigin, PutModuleOrigin, ReadBytes, PutBytes, ReadOriginDeclaration, PutOriginDeclaration;
    var atOrigin := PutOriginDeclaration(binding.origin, []);
    ModuleOriginReads(binding.exportingModule, PutBytes(binding.publicName, atOrigin));
    BytesRead(binding.publicName, atOrigin);
    OriginDeclarationReads(binding.origin, []);
  }

  // ---------------------------------------------------------------- types and traits

  lemma GenericParameterReads(parameter: GenericParameterIdentity, rest: seq<byte>)
    requires Short(PutGenericParameter(parameter, rest))
    ensures ReadGenericParameter(PutGenericParameter(parameter, rest)) == Read(parameter, rest)
  {
    hide ReadU8, PutU8, ReadOriginFunction, PutOriginFunction, ReadOriginType, PutOriginType, ReadU32, PutU32;
    hide ReadBytes, PutBytes;
    var afterOwner := PutU32(parameter.position, PutBytes(parameter.name, rest));
    match parameter.owner {
      case FreeFunction(f) =>
        U8Reads(0, PutOriginFunction(f, afterOwner));
        OriginFunctionReads(f, afterOwner);
      case NominalType(n) =>
        U8Reads(1, PutOriginType(n, afterOwner));
        OriginTypeReads(n, afterOwner);
    }
    U32Reads(parameter.position, PutBytes(parameter.name, rest));
    BytesRead(parameter.name, rest);
  }

  function PutCapacity(capacity: Option<nat>, rest: seq<byte>): seq<byte> {
    match capacity
    case Some(n) => PutU8(1, PutLength(n, rest))
    case None => PutU8(0, rest)
  }

  lemma CapacityReads(capacity: Option<nat>, rest: seq<byte>)
    requires capacity.Some? ==> FitsField(capacity.value)
    ensures ReadCapacity(PutCapacity(capacity, rest)) == Read(capacity, rest)
  {
    hide ReadU8, PutU8, ReadLength, PutLength;
    match capacity {
      case Some(n) =>
        U8Reads(1, PutLength(n, rest));
        LengthReads(n, rest);
      case None => U8Reads(0, rest);
    }
  }

  lemma {:induction false} TypeReads(t: CanonicalType, rest: seq<byte>)
    requires EncodableType(t) && Short(PutType(t, rest))
    ensures ReadType(PutType(t, rest)) == Read(t, rest)
    decreases t, 1
  {
    hide ReadU8, PutU8, ReadOriginType, PutOriginType, ReadVariant, ReadBytes, PutBytes, ReadSequence, PutSequence;
    hide ReadCapacity, ReadGenericParameter, PutGenericParameter, TypeItems;
    match t {
      case Builtin(builtin) =>
        U8Reads(0, PutU8(BuiltinTag(builtin), rest));
        VariantReads(BUILTIN_TYPES, BuiltinTag(builtin), rest);
      case SourceNominal(origin) =>
        U8Reads(1, PutOriginType(origin, rest));
        OriginTypeReads(origin, rest);
      case ExternalOpaque(packagePath, symbolPath) =>
        U8Reads(2, PutBytes(packagePath, PutSequence(symbolPath, rest)));
        BytesRead(packagePath, PutSequence(symbolPath, rest));
        SequenceReads(symbolPath, rest);
      case Collection(element, capacity) =>
        var afterElement := PutCapacity(capacity, rest);
        U8Reads(3, PutType(element, afterElement));
        TypeReads(element, afterElement);
        CapacityReads(capacity, rest);
      case OrderedMap(key, value) =>
        U8Reads(4, PutType(key, PutType(value, rest)));
        TypeReads(key, PutType(value, rest));
        TypeReads(value, rest);
      case OptionType(inner) =>
        U8Reads(5, PutType(inner, rest));
        TypeReads(inner, rest);
      case FallibleCarrier(success, error) =>
        U8Reads(6, PutType(success, PutType(error, rest)));
        TypeReads(success, PutType(error, rest));
        TypeReads(error, rest);
      case GenericInstance(base, arguments) =>
        U8Reads(7, PutOriginType(base, PutSequence(TypeItems(arguments), rest)));
        OriginTypeReads(base, PutSequence(TypeItems(arguments), rest));
        SequenceReads(TypeItems(arguments), rest);
        TypesRead(arguments, |PutType(t, rest)|);
      case GenericParameter(parameter) =>
        U8Reads(8, PutGenericParameter(parameter, rest));
        GenericParameterReads(parameter, rest);
    }
  }

  lemma {:induction false} TypesRead(types: seq<CanonicalType>, bound: nat)
    requires bound <= TWO_TO_64
    requires forall i :: 0 <= i < |types| ==> EncodableType(types[i]) && |TypeItems(types)[i]| < bound
    ensures ReadTypes(TypeItems(types), bound) == Some(types)
    decreases types, 0
  {
    hide ReadType, PutType;
    if types != [] {
      assert TypeItems(types)[0] == PutType(types[0], []);
      TypeReads(types[0], []);
      assert TypeItems(types)[1..] == TypeItems(types[1..]);
      assert forall i :: 0 <= i < |types[1..]| ==> TypeItems(types[1..])[i] == TypeItems(types)[i + 1];
      TypesRead(types[1..], bound);
      assert [types[0]] + types[1..] == types;
    }
  }

  lemma TypeListReads(types: seq<CanonicalType>, rest: seq<byte>)
    requires EncodableTypes(types) && Short(PutSequence(TypeItems(types), rest))
    ensures ReadList(ReadType, PutSequence(TypeItems(types), rest)) == Read(types, rest)
  {
    hide ReadType, PutType, PutSequence, ReadList;
    var item := (t: CanonicalType) => PutType(t, []);
    assert TypeItems(types) == Map(item, types);
    forall t | t in types && Short(item(t))
      ensures ReadType(item(t)) == Read(t, [])
    {
      TypeReads(t, []);
    }
    ListReads(ReadType, item, types, rest);
  }

  lemma OptionalTypeReads(t: Option<CanonicalType>, rest: seq<byte>)
    requires EncodableOptionalType(t) && Short(PutOptionalType(t, rest))
    ensures ReadOptional(ReadType, PutOptionalType(t, rest)) == Read(t, rest)
  {
    hide ReadU8, PutU8, PutType, ReadType;
    match t {
      case None => U8Reads(0, rest);
      case Some(value) =>
        U8Reads(1, PutType(value, rest));
        TypeReads(value, rest);
    }
  }

  lemma TraitReads(identity: TraitIdentity)
    requires Short(TraitItem(identity))
    ensures ReadTrait(TraitItem(identity)) == Read(identity, [])
  {
    hide ReadU8, PutU8, ReadOriginTrait, PutOriginTrait, ReadVariant;
    match identity {
      case SourceTrait(origin) =>
        U8Reads(0, PutOriginTrait(origin, []));
        OriginTraitReads(origin, []);
      case CoreTraitIdentity(Displayable) =>
        U8Reads(1, PutU8(0, []));
        U8Reads(0, []);
      case CoreTraitIdentity(Castable(target, fallibility)) =>
        var atTarget := PutU8(CastTargetTag(target), PutU8(CastFallibilityTag(fallibility), []));
        U8Reads(1, PutU8(1, atTarget));
        U8Reads(1, atTarget);
        VariantReads(CAST_TARGETS, CastTargetTag(target), PutU8(CastFallibilityTag(fallibility), []));
        VariantReads(CAST_FALLIBILITIES, CastFallibilityTag(fallibility), []);
    }
  }

  lemma NestedTraitReads(identity: TraitIdentity, rest: seq<byte>)
    requires Short(PutBytes(TraitItem(identity), rest))
    ensures ReadNested(ReadTrait, PutBytes(TraitItem(identity), rest)) == Read(identity, rest)
  {
    hide ReadTrait, TraitItem, ReadBytes, PutBytes;
    BytesRead(TraitItem(identity), rest);
    TraitReads(identity);
  }

  lemma RequirementIdentityReads(identity: RequirementIdentity, rest: seq<byte>)
    requires Short(PutRequirementIdentity(identity, rest))
    ensures ReadRequirementIdentity(PutRequirementIdentity(identity, rest)) == Read(identity, rest)
  {
    hide ReadNested, TraitItem, ReadBytes, PutBytes;
    NestedTraitReads(identity.trait_, PutBytes(identity.name, rest));
    BytesRead(identity.name, rest);
  }

  lemma EvidenceIdentityReads(identity: EvidenceIdentity)
    requires EncodableType(identity.target) && Short(EvidenceIdentityItem(identity))
    ensures ReadEvidenceIdentity(EvidenceIdentityItem(identity)) == Read(identity, [])
  {
    hide ReadNested, TraitItem, ReadType, PutType, PutBytes;
    TypeReads(identity.target, PutBytes(TraitItem(identity.trait_), []));
    NestedTraitReads(identity.trait_, []);
  }

  // ---------------------------------------------------------------- folded values

  predicate IsLeaf(value: FoldedValue) {
    value.IntValue? || value.FloatValue? || value.BoolValue? || value.CharValue? || value.StringValue?
    || value.OptionNone?
  }

  lemma LeafReads(value: FoldedValue, rest: seq<byte>)
    requires IsLeaf(value) && Short(PutValue(value, rest))
    ensures ReadValue(PutValue(value, rest)) == Read(value, rest)
  {
    hide ReadU8, PutU8, ReadI32, PutI32, ReadU32, PutU32, ReadBool, PutBool, ReadBytes, PutBytes, ReadSequence;
    hide PutU64, ReadLength;
    match value {
      case IntValue(n) =>
        U8Reads(0, PutI32(n, rest));
        I32Reads(n, rest);
      case FloatValue(bits) =>
        U8Reads(1, PutU64(bits, rest));
        assert PutU64(bits, rest) == PutLength(bits, rest);
        LengthReads(bits, rest);
      case BoolValue(b) =>
        U8Reads(2, PutBool(b, rest));
        BoolReads(b, rest);
      case CharValue(c) =>
        U8Reads(3, PutU32(c, rest));
        U32Reads(c, rest);
      case StringValue(text) =>
        U8Reads(4, PutBytes(text, rest));
        BytesRead(text, rest);
      case OptionNone => U8Reads(10, rest);
    }
  }

  lemma {:induction false} ValueReads(value: FoldedValue, rest: seq<byte>)
    requires EncodableValue(value) && Short(PutValue(value, rest))
    ensures ReadValue(PutValue(value, rest)) == Read(value, rest)
    decreases value, 1
  {
    hide ReadU8, PutU8, ReadBytes, PutBytes, ReadSequence, PutSequence, ReadType, PutType, ValueItems, FieldItems;
    hide EncodableFields, ReadI32, ReadFloat, ReadBool, ReadChar;
    match value {
      case CollectionValue(items) =>
        U8Reads(5, PutSequence(ValueItems(items), rest));
        SequenceReads(ValueItems(items), rest);
        ValuesRead(items, |PutValue(value, rest)|);
      case RecordValue(fields) =>
        U8Reads(6, PutSequence(FieldItems(fields), rest));
        SequenceReads(FieldItems(fields), rest);
        FieldsRead(fields, |PutValue(value, rest)|);
      case ChoiceValue(typeIdentity, variant, payload) =>
        var atPayload := PutSequence(FieldItems(payload), rest);
        U8Reads(7, PutType(typeIdentity, PutBytes(variant, atPayload)));
        TypeReads(typeIdentity, PutBytes(variant, atPayload));
        BytesRead(variant, atPayload);
        SequenceReads(FieldItems(payload), rest);
        FieldsRead(payload, |PutValue(value, rest)|);
      case RangeValue(start, end) =>
        U8Reads(8, PutValue(start, PutValue(end, rest)));
        ValueReads(start, PutValue(end, rest));
        ValueReads(end, rest);
      case OptionSome(inner) =>
        U8Reads(9, PutValue(inner, rest));
        ValueReads(inner, rest);
      case _ => LeafReads(value, rest);
    }
  }

  lemma {:induction false} ValuesRead(values: seq<FoldedValue>, bound: nat)
    requires bound <= TWO_TO_64
    requires forall i :: 0 <= i < |values| ==> EncodableValue(values[i]) && |ValueItems(values)[i]| < bound
    ensures ReadValues(ValueItems(values), bound) == Some(values)
    decreases values, 0
  {
    hide ReadValue, PutValue, EncodableValue;
    if values != [] {
      assert ValueItems(values)[0] == PutValue(values[0], []);
      ValueReads(values[0], []);
      assert ValueItems(values)[1..] == ValueItems(values[1..]);
      assert forall i :: 0 <= i < |values[1..]| ==> ValueItems(values[1..])[i] == ValueItems(values)[i + 1];
      ValuesRead(values[1..], bound);
      assert [values[0]] + values[1..] == values;
    }
  }

  lemma {:induction false} FieldsRead(fields: seq<FoldedField>, bound: nat)
    requires bound <= TWO_TO_64 && EncodableFields(fields)
    requires forall i :: 0 <= i < |fields| ==> |FieldItems(fields)[i]| < bound
    ensures ReadFields(FieldItems(fields), bound) == Some(fields)
    decreases fields, 0
  {
    hide ReadValue, PutValue, EncodableValue, ReadBytes, PutBytes;
    if fields != [] {
      var field := fields[0];
      assert FieldItems(fields)[0] == PutBytes(field.name, PutValue(field.value, []));
      BytesRead(field.name, PutValue(field.value, []));
      ValueReads(field.value, []);
      assert FieldItems(fields)[1..] == FieldItems(fields[1..]);
      assert forall i :: 0 <= i < |fields[1..]| ==> FieldItems(fields[1..])[i] == FieldItems(fields)[i + 1];
      FieldsRead(fields[1..], bound);
      assert [field] + fields[1..] == fields;
    }
  }

  lemma OptionalValueReads(value: Option<FoldedValue>, rest: seq<byte>)
    requires EncodableOptionalValue(value) && Short(PutOptionalValue(value, rest))
    ensures ReadOptional(ReadValue, PutOptionalValue(value, rest)) == Read(value, rest)
  {
    hide ReadU8, PutU8, ReadValue, PutValue, EncodableValue;
    match value {
      case None => U8Reads(0, rest);
      case Some(v) =>
        U8Reads(1, PutValue(v, rest));
        ValueReads(v, rest);
    }
  }

  // ---------------------------------------------------------------- signatures

  lemma ParameterSlotReads(slot: ParameterSlot)
    requires EncodableParameterSlot(slot) && Short(ParameterSlotItem(slot))
    ensures ReadParameterSlot(ParameterSlotItem(slot)) == Read(slot, [])
  {
    hide ReadOptional, PutOptionalText, PutOptionalValue, ReadType, PutType, EncodableType, EncodableOptionalValue;
    var atDefault := PutOptionalValue(slot.default, []);
    OptionalTextReads(slot.name, PutType(slot.typeIdentity, atDefault));
    TypeReads(slot.typeIdentity, atDefault);
    OptionalValueReads(slot.default, []);
  }

  lemma ParameterSlotsRead(slots: seq<ParameterSlot>, rest: seq<byte>)
    requires EncodableParameterSlots(slots) && Short(PutSequence(Map(ParameterSlotItem, slots), rest))
    ensures ReadList(ReadParameterSlot, PutSequence(Map(ParameterSlotItem, slots), rest)) == Read(slots, rest)
  {
    hide ReadParameterSlot, ParameterSlotItem, EncodableParameterSlot, ReadList, PutSequence, Map;
    forall slot | slot in slots && Short(ParameterSlotItem(slot))
      ensures ReadParameterSlot(ParameterSlotItem(slot)) == Read(slot, [])
    {
      ParameterSlotReads(slot);
    }
    ListReads(ReadParameterSlot, ParameterSlotItem, slots, rest);
  }

  lemma FieldSlotReads(slot: FieldSlot)
    requires EncodableFieldSlot(slot) && Short(FieldSlotItem(slot))
    ensures ReadFieldSlot(FieldSlotItem(slot)) == Read(slot, [])
  {
    hide ReadOptional, PutOptionalValue, ReadBytes, PutBytes, ReadType, PutType, EncodableType, EncodableOptionalValue;
    var atDefault := PutOptionalValue(slot.default, []);
    BytesRead(slot.name, PutType(slot.typeIdentity, atDefault));
    TypeReads(slot.typeIdentity, atDefault);
    OptionalValueReads(slot.default, []);
  }

  lemma FieldSlotsRead(slots: seq<FieldSlot>, rest: seq<byte>)
    requires EncodableFieldSlots(slots) && Short(PutSequence(Map(FieldSlotItem, slots), rest))
    ensures ReadList(ReadFieldSlot, PutSequence(Map(FieldSlotItem, slots), rest)) == Read(slots, rest)
  {
    hide ReadFieldSlot, FieldSlotItem, EncodableFieldSlot, ReadList, PutSequence, Map;
    forall slot | slot in slots && Short(FieldSlotItem(slot))
      ensures ReadFieldSlot(FieldSlotItem(slot)) == Read(slot, [])
    {
      FieldSlotReads(slot);
    }
    ListReads(ReadFieldSlot, FieldSlotItem, slots, rest);
  }

  lemma VariantsRead(variants: seq<Variant>, rest: seq<byte>)
    requires forall i :: 0 <= i < |variants| ==> EncodableVariant(variants[i])
    requires Short(PutSequence(Map(VariantItem, variants), rest))
    ensures ReadList(ReadVariantItem, PutSequence(Map(VariantItem, variants), rest)) == Read(variants, rest)
  {
    hide ReadList, PutSequence, ReadBytes, PutBytes, Map, EncodableFieldSlots, FieldSlotItem;
    forall v | v in variants && Short(VariantItem(v))
      ensures ReadVariantItem(VariantItem(v)) == Read(v, [])
    {
      BytesRead(v.name, PutSequence(Map(FieldSlotItem, v.payload), []));
      FieldSlotsRead(v.payload, []);
    }
    ListReads(ReadVariantItem, VariantItem, variants, rest);
  }

  lemma GenericSurfacesRead(surfaces: seq<GenericParameterSurface>, rest: seq<byte>)
    requires Short(PutSequence(Map(GenericSurfaceItem, surfaces), rest))
    ensures ReadGenericSurfaces(PutSequence(Map(GenericSurfaceItem, surfaces), rest)) == Read(surfaces, rest)
  {
    hide ReadList, PutSequence, ReadGenericParameter, PutGenericParameter, Map, TraitItem, ReadTrait;
    forall surface | surface in surfaces && Short(GenericSurfaceItem(surface))
      ensures ReadGenericSurface(GenericSurfaceItem(surface)) == Read(surface, [])
    {
      GenericParameterReads(surface.identity, PutSequence(Map(TraitItem, surface.bounds), []));
      TraitsRead(surface.bounds, []);
    }
    ListReads(ReadGenericSurface, GenericSurfaceItem, surfaces, rest);
  }

  lemma TraitsRead(traits: seq<TraitIdentity>, rest: seq<byte>)
    requires Short(PutSequence(Map(TraitItem, traits), rest))
    ensures ReadList(ReadTrait, PutSequence(Map(TraitItem, traits), rest)) == Read(traits, rest)
  {
    hide ReadTrait, TraitItem, ReadList, PutSequence, Map;
    forall t | t in traits && Short(TraitItem(t))
      ensures ReadTrait(TraitItem(t)) == Read(t, [])
    {
      TraitReads(t);
    }
    ListReads(ReadTrait, TraitItem, traits, rest);
  }

  lemma TemplateReads(template: Option<seq<GenericParameterSurface>>, rest: seq<byte>)
    requires Short(PutTemplate(template, rest))
    ensures ReadOptional(ReadGenericSurfaces, PutTemplate(template, rest)) == Read(template, rest)
  {
    hide ReadU8, PutU8, ReadGenericSurfaces, PutSequence, Map;
    match template {
      case None => U8Reads(0, rest);
      case Some(surfaces) =>
        U8Reads(1, PutSequence(Map(GenericSurfaceItem, surfaces), rest));
        GenericSurfacesRead(surfaces, rest);
    }
  }

  lemma ParameterSummaryReads(parameter: ParameterSummary)
    ensures ReadParameterSummary(ParameterSummaryItem(parameter)) == Read(parameter, [])
  {
    hide ReadVariant, PutU8;
    var s5 := PutU8(ReactiveTag(parameter.reactive), []);
    var s4 := PutU8(TransferTag(parameter.transfer), s5);
    var s3 := PutU8(EligibilityTag(parameter.eligibility), s4);
    var s2 := PutU8(MutationTag(parameter.mutation), s3);
    VariantReads(ACCESSES, AccessTag(parameter.access), s2);
    VariantReads(MUTATIONS, MutationTag(parameter.mutation), s3);
    VariantReads(ELIGIBILITIES, EligibilityTag(parameter.eligibility), s4);
    VariantReads(TRANSFERS, TransferTag(parameter.transfer), s5);
    VariantReads(REACTIVE_EFFECTS, ReactiveTag(parameter.reactive), []);
  }

  lemma {:induction false} IndicesRead(indices: seq<nat>, rest: seq<byte>)
    requires forall i :: 0 <= i < |indices| ==> FitsField(indices[i])
    ensures ReadIndices(|indices|, PutIndices(indices, rest)) == Read(indices, rest)
  {
    hide ReadLength, PutLength;
    if indices != [] {
      LengthReads(indices[0], PutIndices(indices[1..], rest));
      IndicesRead(indices[1..], rest);
      assert [indices[0]] + indices[1..] == indices;
    }
  }

  lemma ReturnAliasReads(alias: ReturnAlias, rest: seq<byte>)
    requires EncodableReturnAlias(alias)
    ensures ReadReturnAlias(PutReturnAlias(alias, rest)) == Read(alias, rest)
  {
    hide ReadU8, PutU8, ReadLength, PutLength, PutIndices, ReadIndices;
    match alias {
      case Fresh => U8Reads(0, rest);
      case AliasParams(indices) =>
        U8Reads(1, PutLength(|indices|, PutIndices(indices, rest)));
        LengthReads(|indices|, PutIndices(indices, rest));
        IndicesRead(indices, rest);
      case Unknown => U8Reads(2, rest);
    }
  }

  lemma SummaryStateReads(state: SummaryState, rest: seq<byte>)
    requires EncodableSummaryState(state) && !state.PendingLocal? && Short(PutSummaryState(state, rest))
    ensures ReadSummaryState(PutSummaryState(state, rest)) == Read(state, rest)
  {
    hide ReadU8, PutU8, ReadList, PutSequence, ReadReturnAlias, PutReturnAlias, Map, ParameterSummaryItem;
    hide ReadParameterSummary, EncodableReturnAlias;
    match state {
      case PendingGenerated => U8Reads(0, rest);
      case Finalized(summary) =>
        U8Reads(1, PutSummary(summary, rest));
        forall parameter
          ensures ReadParameterSummary(ParameterSummaryItem(parameter)) == Read(parameter, [])
        {
          ParameterSummaryReads(parameter);
        }
        var atAlias := PutReturnAlias(summary.returnAlias, rest);
        ListReads(ReadParameterSummary, ParameterSummaryItem, summary.parameters, atAlias);
        ReturnAliasReads(summary.returnAlias, rest);
      case PendingLocal =>
    }
  }

  lemma FunctionReads(f: FunctionSemantics, rest: seq<byte>)
    requires EncodableFunction(f) && Short(PutFunctionSemantics(f, rest))
    ensures ReadFunction(PutFunctionSemantics(f, rest)) == Read(f, rest)
  {
    hide ReadOptional, ReadList, PutSequence, PutTemplate, PutOptionalType, ReadSummaryState, PutSummaryState, Map;
    hide TypeItems, EncodableParameterSlots, EncodableTypes, EncodableOptionalType, EncodableSummaryState;
    hide EncodableGenericSurfaces;
    var atState := PutSummaryState(f.callSummary, rest);
    var atError := PutOptionalType(f.errorReturn, atState);
    var atReturns := PutSequence(TypeItems(f.returnSlots), atError);
    var atParameters := PutSequence(Map(ParameterSlotItem, f.parameters), atReturns);
    TemplateReads(f.genericTemplate, atParameters);
    ParameterSlotsRead(f.parameters, atReturns);
    TypeListReads(f.returnSlots, atError);
    OptionalTypeReads(f.errorReturn, atState);
    SummaryStateReads(f.callSummary, rest);
  }

  lemma MethodReads(m: ReceiverMethod)
    requires EncodableMethod(m) && Short(MethodItem(m))
    ensures ReadMethod(MethodItem(m)) == Read(m, [])
  {
    hide ReadOptional, ReadList, PutSequence, PutOptionalType, ReadSummaryState, PutSummaryState, Map, ReadBool;
    hide TypeItems, EncodableParameterSlots, EncodableTypes, EncodableOptionalType, EncodableSummaryState, PutBool;
    hide ReadOriginFunction, PutOriginFunction;
    var atState := PutSummaryState(m.callSummary, []);
    var atError := PutOptionalType(m.errorReturn, atState);
    var atReturns := PutSequence(TypeItems(m.returnSlots), atError);
    var atParameters := PutSequence(Map(ParameterSlotItem, m.parameters), atReturns);
    OriginFunctionReads(m.origin, PutBool(m.genericTemplate, atParameters));
    BoolReads(m.genericTemplate, atParameters);
    ParameterSlotsRead(m.parameters, atReturns);
    TypeListReads(m.returnSlots, atError);
    OptionalTypeReads(m.errorReturn, atState);
    SummaryStateReads(m.callSummary, []);
  }

  // ---------------------------------------------------------------- traits and evidence

  lemma TraitSurfaceTypeReads(t: TraitSurfaceType, rest: seq<byte>)
    requires EncodableTraitSurfaceType(t) && Short(PutTraitSurfaceType(t, rest))
    ensures ReadTraitSurfaceType(PutTraitSurfaceType(t, rest)) == Read(t, rest)
  {
    hide ReadU8, PutU8, ReadType, PutType, EncodableType;
    match t {
      case SelfType => U8Reads(0, rest);
      case Concrete(identity) =>
        U8Reads(1, PutType(identity, rest));
        TypeReads(identity, rest);
    }
  }

  lemma RequirementParameterReads(parameter: RequirementParameter)
    requires EncodableTraitSurfaceType(parameter.typeIdentity) && Short(RequirementParameterItem(parameter))
    ensures ReadRequirementParameter(RequirementParameterItem(parameter)) == Read(parameter, [])
  {
    hide ReadOptional, PutOptionalText, ReadVariant, PutU8, ReadTraitSurfaceType, PutTraitSurfaceType;
    var atType := PutTraitSurfaceType(parameter.typeIdentity, []);
    OptionalTextReads(parameter.name, PutU8(ValueModeTag(parameter.valueMode), atType));
    VariantReads(VALUE_MODES, ValueModeTag(parameter.valueMode), atType);
    TraitSurfaceTypeReads(parameter.typeIdentity, []);
  }

  lemma RequirementReturnReads(slot: RequirementReturn)
    requires EncodableTraitSurfaceType(slot.typeIdentity) && Short(RequirementReturnItem(slot))
    ensures ReadRequirementReturn(RequirementReturnItem(slot)) == Read(slot, [])
  {
    hide ReadVariant, PutU8, ReadTraitSurfaceType, PutTraitSurfaceType;
    VariantReads(RETURN_CHANNELS, ReturnChannelTag(slot.channel), PutTraitSurfaceType(slot.typeIdentity, []));
    TraitSurfaceTypeReads(slot.typeIdentity, []);
  }

  lemma RequirementReads(requirement: TraitRequirement)
    requires EncodableRequirement(requirement) && Short(RequirementItem(requirement))
    ensures ReadRequirement(RequirementItem(requirement)) == Read(requirement, [])
  {
    hide ReadBytes, PutBytes, ReadVariant, PutU8, ReadList, PutSequence, Map, EncodableTraitSurfaceType;
    hide RequirementParameterItem, RequirementReturnItem, ReadRequirementParameter, ReadRequirementReturn;
    var atReturns := PutSequence(Map(RequirementReturnItem, requirement.returns_), []);
    var atParameters := PutSequence(Map(RequirementParameterItem, requirement.parameters), atReturns);
    BytesRead(requirement.name, PutU8(ReceiverAccessTag(requirement.receiverAccess), atParameters));
    VariantReads(RECEIVER_ACCESSES, ReceiverAccessTag(requirement.receiverAccess), atParameters);
    forall x | x in requirement.parameters && Short(RequirementParameterItem(x))
      ensures ReadRequirementParameter(RequirementParameterItem(x)) == Read(x, [])
    {
      RequirementParameterReads(x);
    }
    ListReads(ReadRequirementParameter, RequirementParameterItem, requirement.parameters, atReturns);
    forall x | x in requirement.returns_ && Short(RequirementReturnItem(x))
      ensures ReadRequirementReturn(RequirementReturnItem(x)) == Read(x, [])
    {
      RequirementReturnReads(x);
    }
    ListReads(ReadRequirementReturn, RequirementReturnItem, requirement.returns_, []);
  }

  lemma RequirementsRead(requirements: seq<TraitRequirement>, rest: seq<byte>)
    requires EncodableRequirements(requirements) && Short(PutSequence(Map(RequirementItem, requirements), rest))
    ensures ReadList(ReadRequirement, PutSequence(Map(RequirementItem, requirements), rest))
         == Read(requirements, rest)
  {
    hide ReadRequirement, RequirementItem, EncodableRequirement, ReadList, PutSequence, Map;
    forall x | x in requirements && Short(RequirementItem(x))
      ensures ReadRequirement(RequirementItem(x)) == Read(x, [])
    {
      RequirementReads(x);
    }
    ListReads(ReadRequirement, RequirementItem, requirements, rest);
  }

  lemma MappingReads(mapping: RequirementMapping)
    requires Short(MappingItem(mapping))
    ensures ReadMapping(MappingItem(mapping)) == Read(mapping, [])
  {
    hide ReadRequirementIdentity, PutRequirementIdentity, ReadOriginFunction, PutOriginFunction;
    RequirementIdentityReads(mapping.requirement, PutOriginFunction(mapping.method_, []));
    OriginFunctionReads(mapping.method_, []);
  }

  lemma EvidenceReads(record: EvidenceRecord)
    requires EncodableEvidence(record) && Short(EvidenceItem(record))
    ensures ReadEvidence(EvidenceItem(record)) == Read(record, [])
  {
    hide ReadBytes, PutBytes, ReadEvidenceIdentity, EvidenceIdentityItem, ReadVariant, PutU8, ReadList, PutSequence;
    hide ReadMapping, MappingItem, Map, EncodableType;
    var atMappings := PutSequence(Map(MappingItem, record.mappings), []);
    var atOwnership := PutU8(OwnershipTag(record.ownership), atMappings);
    BytesRead(EvidenceIdentityItem(record.identity), atOwnership);
    EvidenceIdentityReads(record.identity);
    VariantReads([SourceCanonical], 0, atMappings);
    forall x | x in record.mappings && Short(MappingItem(x))
      ensures ReadMapping(MappingItem(x)) == Read(x, [])
    {
      MappingReads(x);
    }
    ListReads(ReadMapping, MappingItem, record.mappings, []);
  }
}
