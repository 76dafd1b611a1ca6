/** The canonical encoder, in the source's own form: a byte buffer that every `Encode` method
    appends to.

    A method that succeeds has appended exactly the code `CanonicalCode` gives its value: for
    whatever bytes come next, the buffer and they are the old buffer and the `Put` code of the
    value before them. It fails exactly on the values that are not encodable. */
module CanonicalEncoding {
  import opened Wrappers
  import opened Sorting
  import opened Bytes
  import opened Identities
  import opened InterfaceDraft
  import opened CanonicalCode
  import opened CanonicalForm

  datatype EncodeError =
    | SequenceTooLarge
    | IndexTooLarge
    | SummaryArityMismatch
    | FinalizedGeneric
    | GeneratedLocal
    | StillPendingLocal
    | BuiltinEvidence

  class CanonicalEncoder {
    var bytes: seq<byte>

    constructor ()
      ensures bytes == []
    {
      bytes := [];
    }

    method Finish() returns (r: seq<byte>)
      ensures r == bytes
    {
      r := bytes;
    }

    method WriteU8(value: byte)
      modifies this
      ensures forall rest :: bytes + rest == old(bytes) + PutU8(value, rest)
    {
      bytes := bytes + [value];
    }

    /** `to_le_bytes` of a `width`-byte integer, appended byte by byte. */
    method WriteLittleEndian(width: nat, value: nat)
      modifies this
      ensures forall rest :: bytes + rest == old(bytes) + PutLittleEndian(width, value, rest)
    {
      var remaining, left := value, width;
      while left > 0
        invariant forall rest ::
          bytes + PutLittleEndian(left, remaining, rest) == old(bytes) + PutLittleEndian(width, value, rest)
      {
        ghost var before := bytes;
        bytes := bytes + [remaining % 256];
        forall rest
          ensures bytes + PutLittleEndian(left - 1, remaining / 256, rest)
               == before + PutLittleEndian(left, remaining, rest)
        {
          assert (before + [remaining % 256]) + PutLittleEndian(left - 1, remaining / 256, rest)
              == before + ([remaining % 256] + PutLittleEndian(left - 1, remaining / 256, rest));
        }
        left, remaining := left - 1, remaining / 256;
      }
    }

    method WriteU16(value: u16)
      modifies this
      ensures forall rest :: bytes + rest == old(bytes) + PutU16(value, rest)
    {
      WriteLittleEndian(2, value);
    }

    method WriteU32(value: u32)
      modifies this
      ensures forall rest :: bytes + rest == old(bytes) + PutU32(value, rest)
    {
      WriteLittleEndian(4, value);
    }

    method WriteU64(value: u64)
      modifies this
      ensures forall rest :: bytes + rest == old(bytes) + PutU64(value, rest)
    {
      WriteLittleEndian(8, value);
    }

    method WriteI32(value: i32)
      modifies this
      ensures forall rest :: bytes + rest == old(bytes) + PutI32(value, rest)
    {
      WriteLittleEndian(4, value % TWO_TO_32);
    }

    method WriteBool(value: bool)
      modifies this
      ensures forall rest :: bytes + rest == old(bytes) + PutBool(value, rest)
    {
      WriteU8(if value then 1 else 0);
    }

    method WriteCount(count: nat) returns (r: Outcome<EncodeError>)
      modifies this
      ensures r.Pass? <==> FitsField(count)
      ensures r.Pass? ==> forall rest :: bytes + rest == old(bytes) + PutLength(count, rest)
    {
      if count >= TWO_TO_64 {
        return Fail(SequenceTooLarge);
      }
      WriteU64(count);
      return Pass;
    }

    method WriteIndex(value: nat) returns (r: Outcome<EncodeError>)
      modifies this
      ensures r.Pass? <==> FitsField(value)
      ensures r.Pass? ==> forall rest :: bytes + rest == old(bytes) + PutLength(value, rest)
    {
      if value >= TWO_TO_64 {
        return Fail(IndexTooLarge);
      }
      WriteU64(value);
      return Pass;
    }

    method WriteBytes(value: seq<byte>)
      modifies this
      ensures forall rest :: bytes + rest == old(bytes) + PutBytes(value, rest)
    {
      WriteU64(|value| % TWO_TO_64);
      ghost var before := bytes;
      bytes := bytes + value;
      forall rest
        ensures bytes + rest == old(bytes) + PutBytes(value, rest)
      {
        assert bytes + rest == before + (value + rest);
      }
    }

    method WriteString(value: Text)
      modifies this
      ensures forall rest :: bytes + rest == old(bytes) + PutBytes(value, rest)
    {
      WriteBytes(value);
    }

    method WriteEncodedSequence(items: seq<seq<byte>>) returns (r: Outcome<EncodeError>)
      modifies this
      ensures r.Pass? <==> FitsField(|items|)
      ensures r.Pass? ==> forall rest :: bytes + rest == old(bytes) + PutSequence(items, rest)
    {
      var count := |items|;
      :- WriteCount(count);
      for i := 0 to |items|
        invariant forall rest :: bytes + PutItems(items[i..], rest) == old(bytes) + PutSequence(items, rest)
      {
        assert items[i..][1..] == items[i + 1..];
        WriteBytes(items[i]);
      }
      assert items[|items|..] == [];
      return Pass;
    }
  }

  // ---------------------------------------------------------------- origins

  method EncodeModuleOrigin(encoder: CanonicalEncoder, origin: ModuleOrigin)
    modifies encoder
    ensures forall rest :: encoder.bytes + rest == old(encoder.bytes) + PutModuleOrigin(origin, rest)
  {
    EncodePackageIdentity(encoder, origin.package);
    encoder.WriteString(origin.logicalPath);
    encoder.WriteU8(RootRoleTag(origin.role));
  }

  method EncodePackageIdentity(encoder: CanonicalEncoder, package: PackageIdentity)
    modifies encoder
    ensures forall rest ::
        (encoder.bytes + rest
         == old(encoder.bytes) + PutU8(PackageOriginTag(package.origin), PutBytes(package.name, rest)))
  {
    encoder.WriteU8(PackageOriginTag(package.origin));
    encoder.WriteString(package.name);
  }

  method EncodeOriginType(encoder: CanonicalEncoder, origin: OriginType)
    modifies encoder
    ensures forall rest :: encoder.bytes + rest == old(encoder.bytes) + PutOriginType(origin, rest)
  {
    EncodeModuleOrigin(encoder, origin.moduleOrigin);
    encoder.WriteString(origin.name);
    encoder.WriteU8(TypeCategoryTag(origin.category));
  }

  method EncodeOriginFunction(encoder: CanonicalEncoder, origin: OriginFunction)
    modifies encoder
    ensures forall rest :: encoder.bytes + rest == old(encoder.bytes) + PutOriginFunction(origin, rest)
  {
    EncodeModuleOrigin(encoder, origin.moduleOrigin);
    encoder.WriteString(origin.name);
    match origin.kind {
      case Free =>
        encoder.WriteU8(0);
      case Receiver(receiver) =>
        encoder.WriteU8(1);
        EncodeOriginType(encoder, receiver);
    }
  }

  method EncodeOriginConstant(encoder: CanonicalEncoder, origin: OriginConstant)
    modifies encoder
    ensures forall rest :: encoder.bytes + rest == old(encoder.bytes) + PutOriginConstant(origin, rest)
  {
    EncodeModuleOrigin(encoder, origin.moduleOrigin);
    encoder.WriteString(origin.name);
  }

  method EncodeOriginTrait(encoder: CanonicalEncoder, origin: OriginTrait)
    modifies encoder
    ensures forall rest :: encoder.bytes + rest == old(encoder.bytes) + PutOriginTrait(origin, rest)
  {
    EncodeModuleOrigin(encoder, origin.moduleOrigin);
    encoder.WriteString(origin.name);
  }

  method EncodeOriginDeclaration(encoder: CanonicalEncoder, origin: OriginDeclaration)
    modifies encoder
    ensures forall rest :: encoder.bytes + rest == old(encoder.bytes) + PutOriginDeclaration(origin, rest)
  {
    match origin {
      case FunctionOrigin(f) =>
        encoder.WriteU8(0);
        EncodeOriginFunction(encoder, f);
      case TypeOrigin(t) =>
        encoder.WriteU8(1);
        EncodeOriginType(encoder, t);
      case ConstantOrigin(c) =>
        encoder.WriteU8(2);
        EncodeOriginConstant(encoder, c);
      case TraitOrigin(t) =>
        encoder.WriteU8(3);
        EncodeOriginTrait(encoder, t);
    }
  }

  method EncodeOriginDeclarationKey(origin: OriginDeclaration) returns (item: seq<byte>)
    ensures item == OriginDeclarationKey(origin)
  {
    var encoder := new CanonicalEncoder();
    EncodeOriginDeclaration(encoder, origin);
    assert encoder.bytes + [] == OriginDeclarationKey(origin);
    item := encoder.Finish();
  }

  method EncodeExportBinding(binding: ExportBinding) returns (item: seq<byte>)
    ensures item == ExportBindingItem(binding)
  {
    var encoder := new CanonicalEncoder();
    EncodeModuleOrigin(encoder, binding.exportingModule);
    encoder.WriteString(binding.publicName);
    EncodeOriginDeclaration(encoder, binding.origin);
    assert encoder.bytes + [] == ExportBindingItem(binding);
    item := encoder.Finish();
  }

  // ---------------------------------------------------------------- canonical types and traits

  method EncodeGenericParameterIdentity(encoder: CanonicalEncoder, parameter: GenericParameterIdentity)
    modifies encoder
    ensures forall rest :: encoder.bytes + rest == old(encoder.bytes) + PutGenericParameter(parameter, rest)
  {
    EncodeGenericOwner(encoder, parameter.owner);
    encoder.WriteU32(parameter.position);
    encoder.WriteString(parameter.name);
  }

  function PutGenericOwner(owner: GenericOwner, rest: seq<byte>): seq<byte> {
    match owner
    case FreeFunction(f) => PutU8(0, PutOriginFunction(f, rest))
    case NominalType(n) => PutU8(1, PutOriginType(n, rest))
  }

  method EncodeGenericOwner(encoder: CanonicalEncoder, owner: GenericOwner)
    modifies encoder
    ensures forall rest :: encoder.bytes + rest == old(encoder.bytes) + PutGenericOwner(owner, rest)
  {
    match owner {
      case FreeFunction(f) =>
        encoder.WriteU8(0);
        EncodeOriginFunction(encoder, f);
      case NominalType(n) =>
        encoder.WriteU8(1);
        EncodeOriginType(encoder, n);
    }
  }

  method EncodeExternalSymbolPath(encoder: CanonicalEncoder, path: seq<Text>) returns (r: Outcome<EncodeError>)
    modifies encoder
    ensures r.Pass? <==> FitsField(|path|)
    ensures r.Pass? ==> forall rest :: encoder.bytes + rest == old(encoder.bytes) + PutSequence(path, rest)
  {
    var count := |path|;
    :- encoder.WriteCount(count);
    for i := 0 to |path|
      invariant forall rest ::
        encoder.bytes + PutItems(path[i..], rest) == old(encoder.bytes) + PutSequence(path, rest)
    {
      assert path[i..][1..] == path[i + 1..];
      encoder.WriteString(path[i]);
    }
    assert path[|path|..] == [];
    return Pass;
  }

  method EncodeType(encoder: CanonicalEncoder, t: CanonicalType) returns (r: Outcome<EncodeError>)
    modifies encoder
    decreases t, 1
    ensures r.Pass? <==> EncodableType(t)
    ensures r.Pass? ==> forall rest :: encoder.bytes + rest == old(encoder.bytes) + PutType(t, rest)
  {
    match t {
      case Builtin(builtin) =>
        encoder.WriteU8(0);
        encoder.WriteU8(BuiltinTag(builtin));
      case SourceNominal(origin) =>
        encoder.WriteU8(1);
        EncodeOriginType(encoder, origin);
      case ExternalOpaque(packagePath, symbolPath) =>
        encoder.WriteU8(2);
        encoder.WriteString(packagePath);
        :- EncodeExternalSymbolPath(encoder, symbolPath);
      case Collection(element, capacity) =>
        encoder.WriteU8(3);
        :- EncodeType(encoder, element);
        match capacity {
          case Some(n) =>
            encoder.WriteU8(1);
            :- encoder.WriteIndex(n);
          case None =>
            encoder.WriteU8(0);
        }
      case OrderedMap(key, value) =>
        encoder.WriteU8(4);
        :- EncodeType(encoder, key);
        :- EncodeType(encoder, value);
      case OptionType(inner) =>
        encoder.WriteU8(5);
        :- EncodeType(encoder, inner);
      case FallibleCarrier(success, error) =>
        encoder.WriteU8(6);
        :- EncodeType(encoder, success);
        :- EncodeType(encoder, error);
      case GenericInstance(base, arguments) =>
        encoder.WriteU8(7);
        EncodeOriginType(encoder, base);
        var items :- OrderedTypes(arguments);
        :- encoder.WriteEncodedSequence(items);
      case GenericParameter(parameter) =>
        encoder.WriteU8(8);
        EncodeGenericParameterIdentity(encoder, parameter);
    }
    return Pass;
  }

  method OrderedTypes(types: seq<CanonicalType>) returns (r: Outcome<EncodeError>, items: seq<seq<byte>>)
    ensures r.Pass? <==> forall i :: 0 <= i < |types| ==> EncodableType(types[i])
    ensures r.Pass? ==> items == TypeItems(types)
    decreases types, 0
  {
    items := [];
    for i := 0 to |types|
      invariant |items| == i && forall j :: 0 <= j < i ==> items[j] == TypeItems(types)[j]
      invariant forall j :: 0 <= j < i ==> EncodableType(types[j])
    {
      var item :- EncodeTypeItem(types[i]);
      items := items + [item];
    }
    assert items == TypeItems(types);
    return Pass, items;
  }

  method EncodeTypeItem(t: CanonicalType) returns (r: Outcome<EncodeError>, item: seq<byte>)
    ensures r.Pass? <==> EncodableType(t)
    ensures r.Pass? ==> item == PutType(t, [])
    decreases t, 2
  {
    item := [];
    var encoder := new CanonicalEncoder();
    :- EncodeType(encoder, t);
    assert encoder.bytes + [] == PutType(t, []);
    item := encoder.Finish();
    return Pass, item;
  }

  method EncodeOptionalType(encoder: CanonicalEncoder, t: Option<CanonicalType>) returns (r: Outcome<EncodeError>)
    modifies encoder
    ensures r.Pass? <==> EncodableOptionalType(t)
    ensures r.Pass? ==> forall rest :: encoder.bytes + rest == old(encoder.bytes) + PutOptionalType(t, rest)
  {
    match t {
      case Some(value) =>
        encoder.WriteU8(1);
        :- EncodeType(encoder, value);
      case None =>
        encoder.WriteU8(0);
    }
    return Pass;
  }

  method EncodeOptionalString(encoder: CanonicalEncoder, text: Option<Text>)
    modifies encoder
    ensures forall rest :: encoder.bytes + rest == old(encoder.bytes) + PutOptionalText(text, rest)
  {
    match text {
      case Some(value) =>
        encoder.WriteU8(1);
        encoder.WriteString(value);
      case None =>
        encoder.WriteU8(0);
    }
  }

  method EncodeTrait(identity: TraitIdentity) returns (item: seq<byte>)
    ensures item == TraitItem(identity)
  {
    var encoder := new CanonicalEncoder();
    match identity {
      case SourceTrait(origin) =>
        encoder.WriteU8(0);
        EncodeOriginTrait(encoder, origin);
      case CoreTraitIdentity(Displayable) =>
        encoder.WriteU8(1);
        encoder.WriteU8(0);
      case CoreTraitIdentity(Castable(target, fallibility)) =>
        encoder.WriteU8(1);
        encoder.WriteU8(1);
        encoder.WriteU8(CastTargetTag(target));
        encoder.WriteU8(CastFallibilityTag(fallibility));
    }
    assert encoder.bytes + [] == TraitItem(identity);
    item := encoder.Finish();
  }

  method EncodeRequirementIdentity(encoder: CanonicalEncoder, identity: RequirementIdentity)
    modifies encoder
    ensures forall rest :: encoder.bytes + rest == old(encoder.bytes) + PutRequirementIdentity(identity, rest)
  {
    var traitItem := EncodeTrait(identity.trait_);
    encoder.WriteBytes(traitItem);
    encoder.WriteString(identity.name);
  }

  method EncodeEvidenceIdentity(identity: EvidenceIdentity) returns (r: Outcome<EncodeError>, item: seq<byte>)
    ensures r.Pass? <==> EncodableType(identity.target)
    ensures r.Pass? ==> item == EvidenceIdentityItem(identity)
  {
    item := [];
    var encoder := new CanonicalEncoder();
    :- EncodeType(encoder, identity.target);
    var traitItem := EncodeTrait(identity.trait_);
    encoder.WriteBytes(traitItem);
    assert encoder.bytes + [] == EvidenceIdentityItem(identity);
    item := encoder.Finish();
    return Pass, item;
  }

  // ---------------------------------------------------------------- folded values

  method EncodeValue(encoder: CanonicalEncoder, value: FoldedValue) returns (r: Outcome<EncodeError>)
    modifies encoder
    decreases value, 1
    ensures r.Pass? <==> EncodableValue(value)
    ensures r.Pass? ==> forall rest :: encoder.bytes + rest == old(encoder.bytes) + PutValue(value, rest)
  {
    match value {
      case IntValue(n) =>
        encoder.WriteU8(0);
        encoder.WriteI32(n);
      case FloatValue(bits) =>
        encoder.WriteU8(1);
        encoder.WriteU64(bits);
      case BoolValue(b) =>
        encoder.WriteU8(2);
        encoder.WriteBool(b);
      case CharValue(c) =>
        encoder.WriteU8(3);
        encoder.WriteU32(c);
      case StringValue(text) =>
        encoder.WriteU8(4);
        encoder.WriteString(text);
      case CollectionValue(items) =>
        encoder.WriteU8(5);
        var encoded :- OrderedValues(items);
        :- encoder.WriteEncodedSequence(encoded);
      case RecordValue(fields) =>
        encoder.WriteU8(6);
        var items :- OrderedFields(fields);
        :- encoder.WriteEncodedSequence(items);
      case ChoiceValue(typeIdentity, variant, payload) =>
        encoder.WriteU8(7);
        :- EncodeType(encoder, typeIdentity);
        encoder.WriteString(variant);
        var items :- OrderedFields(payload);
        :- encoder.WriteEncodedSequence(items);
      case RangeValue(start, end) =>
        encoder.WriteU8(8);
        :- EncodeValue(encoder, start);
        :- EncodeValue(encoder, end);
      case OptionSome(inner) =>
        encoder.WriteU8(9);
        :- EncodeValue(encoder, inner);
      case OptionNone =>
        encoder.WriteU8(10);
    }
    return Pass;
  }

  method OrderedValues(values: seq<FoldedValue>) returns (r: Outcome<EncodeError>, items: seq<seq<byte>>)
    ensures r.Pass? <==> forall i :: 0 <= i < |values| ==> EncodableValue(values[i])
    ensures r.Pass? ==> items == ValueItems(values)
    decreases values, 0
  {
    items := [];
    for i := 0 to |values|
      invariant |items| == i && forall j :: 0 <= j < i ==> items[j] == ValueItems(values)[j]
      invariant forall j :: 0 <= j < i ==> EncodableValue(values[j])
    {
      var item :- EncodeValueItem(values[i]);
      items := items + [item];
    }
    assert items == ValueItems(values);
    return Pass, items;
  }

  method EncodeValueItem(value: FoldedValue) returns (r: Outcome<EncodeError>, item: seq<byte>)
    ensures r.Pass? <==> EncodableValue(value)
    ensures r.Pass? ==> item == PutValue(value, [])
    decreases value, 2
  {
    item := [];
    var encoder := new CanonicalEncoder();
    :- EncodeValue(encoder, value);
    assert encoder.bytes + [] == PutValue(value, []);
    item := encoder.Finish();
    return Pass, item;
  }

  method OrderedFields(fields: seq<FoldedField>) returns (r: Outcome<EncodeError>, items: seq<seq<byte>>)
    ensures r.Pass? <==> forall i :: 0 <= i < |fields| ==> EncodableValue(fields[i].value)
    ensures r.Pass? ==> items == FieldItems(fields)
    decreases fields, 0
  {
    items := [];
    for i := 0 to |fields|
      invariant |items| == i && forall j :: 0 <= j < i ==> items[j] == FieldItems(fields)[j]
      invariant forall j :: 0 <= j < i ==> EncodableValue(fields[j].value)
    {
      var item :- EncodeFieldItem(fields[i]);
      items := items + [item];
    }
    assert items == FieldItems(fields);
    return Pass, items;
  }

  method EncodeFieldItem(field: FoldedField) returns (r: Outcome<EncodeError>, item: seq<byte>)
    ensures r.Pass? <==> EncodableValue(field.value)
    ensures r.Pass? ==> item == PutBytes(field.name, PutValue(field.value, []))
    decreases field.value, 2
  {
    item := [];
    var encoder := new CanonicalEncoder();
    encoder.WriteString(field.name);
    :- EncodeValue(encoder, field.value);
    assert encoder.bytes + [] == PutBytes(field.name, PutValue(field.value, []));
    item := encoder.Finish();
    return Pass, item;
  }

  method EncodeOptionalValue(encoder: CanonicalEncoder, value: Option<FoldedValue>) returns (r: Outcome<EncodeError>)
    modifies encoder
    ensures r.Pass? <==> EncodableOptionalValue(value)
    ensures r.Pass? ==> forall rest :: encoder.bytes + rest == old(encoder.bytes) + PutOptionalValue(value, rest)
  {
    match value {
      case Some(v) =>
        encoder.WriteU8(1);
        :- EncodeValue(encoder, v);
      case None =>
        encoder.WriteU8(0);
    }
    return Pass;
  }

  // ---------------------------------------------------------------- signature slots

  method OrderedParameterSlots(slots: seq<ParameterSlot>) returns (r: Outcome<EncodeError>, items: seq<seq<byte>>)
    ensures r.Pass? <==> forall i :: 0 <= i < |slots| ==> EncodableParameterSlot(slots[i])
    ensures r.Pass? ==> items == Map(ParameterSlotItem, slots)
  {
    hide ParameterSlotItem, EncodableParameterSlot;
    items := [];
    for i := 0 to |slots|
      invariant |items| == i && forall j :: 0 <= j < i ==> items[j] == ParameterSlotItem(slots[j])
      invariant forall j :: 0 <= j < i ==> EncodableParameterSlot(slots[j])
    {
      var item :- EncodeParameterSlot(slots[i]);
      items := items + [item];
    }
    assert items == Map(ParameterSlotItem, slots);
    return Pass, items;
  }

  method EncodeParameterSlot(slot: ParameterSlot) returns (r: Outcome<EncodeError>, item: seq<byte>)
    ensures r.Pass? <==> EncodableParameterSlot(slot)
    ensures r.Pass? ==> item == ParameterSlotItem(slot)
  {
    item := [];
    var encoder := new CanonicalEncoder();
    EncodeOptionalString(encoder, slot.name);
    :- EncodeType(encoder, slot.typeIdentity);
    :- EncodeOptionalValue(encoder, slot.default);
    assert encoder.bytes + [] == ParameterSlotItem(slot);
    item := encoder.Finish();
    return Pass, item;
  }

  method OrderedFieldSlots(slots: seq<FieldSlot>) returns (r: Outcome<EncodeError>, items: seq<seq<byte>>)
    ensures r.Pass? <==> forall i :: 0 <= i < |slots| ==> EncodableFieldSlot(slots[i])
    ensures r.Pass? ==> items == Map(FieldSlotItem, slots)
  {
    hide FieldSlotItem, EncodableFieldSlot;
    items := [];
    for i := 0 to |slots|
      invariant |items| == i && forall j :: 0 <= j < i ==> items[j] == FieldSlotItem(slots[j])
      invariant forall j :: 0 <= j < i ==> EncodableFieldSlot(slots[j])
    {
      var item :- EncodeFieldSlot(slots[i]);
      items := items + [item];
    }
    assert items == Map(FieldSlotItem, slots);
    return Pass, items;
  }

  method EncodeFieldSlot(slot: FieldSlot) returns (r: Outcome<EncodeError>, item: seq<byte>)
    ensures r.Pass? <==> EncodableFieldSlot(slot)
    ensures r.Pass? ==> item == FieldSlotItem(slot)
  {
    hide PutBytes, PutType, PutOptionalValue, EncodableType, EncodableOptionalValue;
    item := [];
    var encoder := new CanonicalEncoder();
    encoder.WriteString(slot.name);
    :- EncodeType(encoder, slot.typeIdentity);
    :- EncodeOptionalValue(encoder, slot.default);
    assert encoder.bytes + [] == FieldSlotItem(slot);
    item := encoder.Finish();
    return Pass, item;
  }

  method EncodeVariant(variant: Variant) returns (r: Outcome<EncodeError>, item: seq<byte>)
    ensures r.Pass? <==> EncodableVariant(variant)
    ensures r.Pass? ==> item == VariantItem(variant)
  {
    hide PutBytes, PutSequence, EncodableFieldSlot;
    item := [];
    var encoder := new CanonicalEncoder();
    encoder.WriteString(variant.name);
    var fields :- OrderedFieldSlots(variant.payload);
    :- encoder.WriteEncodedSequence(fields);
    assert encoder.bytes + [] == VariantItem(variant);
    item := encoder.Finish();
    return Pass, item;
  }

  method OrderedVariants(variants: seq<Variant>) returns (r: Outcome<EncodeError>, items: seq<seq<byte>>)
    ensures r.Pass? <==> forall i :: 0 <= i < |variants| ==> EncodableVariant(variants[i])
    ensures r.Pass? ==> items == Map(VariantItem, variants)
  {
    hide VariantItem, EncodableVariant;
    items := [];
    for i := 0 to |variants|
      invariant |items| == i && forall j :: 0 <= j < i ==> items[j] == VariantItem(variants[j])
      invariant forall j :: 0 <= j < i ==> EncodableVariant(variants[j])
    {
      var item :- EncodeVariant(variants[i]);
      items := items + [item];
    }
    assert items == Map(VariantItem, variants);
    return Pass, items;
  }

  method OrderedBounds(bounds: seq<TraitIdentity>) returns (items: seq<seq<byte>>)
    ensures items == Map(TraitItem, bounds)
  {
    items := [];
    for i := 0 to |bounds|
      invariant |items| == i && forall j :: 0 <= j < i ==> items[j] == TraitItem(bounds[j])
    {
      var item := EncodeTrait(bounds[i]);
      items := items + [item];
    }
    assert items == Map(TraitItem, bounds);
  }

  method EncodeGenericSurface(surface: GenericParameterSurface) returns (r: Outcome<EncodeError>, item: seq<byte>)
    ensures r.Pass? <==> FitsField(|surface.bounds|)
    ensures r.Pass? ==> item == GenericSurfaceItem(surface)
  {
    hide PutGenericParameter, PutSequence;
    item := [];
    var encoder := new CanonicalEncoder();
    EncodeGenericParameterIdentity(encoder, surface.identity);
    var bounds := OrderedBounds(surface.bounds);
    :- encoder.WriteEncodedSequence(bounds);
    assert encoder.bytes + [] == GenericSurfaceItem(surface);
    item := encoder.Finish();
    return Pass, item;
  }

  method OrderedGenericSurfaces(surfaces: seq<GenericParameterSurface>)
    returns (r: Outcome<EncodeError>, items: seq<seq<byte>>)
    ensures r.Pass? <==> forall i :: 0 <= i < |surfaces| ==> FitsField(|surfaces[i].bounds|)
    ensures r.Pass? ==> items == Map(GenericSurfaceItem, surfaces)
  {
    hide GenericSurfaceItem;
    items := [];
    for i := 0 to |surfaces|
      invariant |items| == i && forall j :: 0 <= j < i ==> items[j] == GenericSurfaceItem(surfaces[j])
      invariant forall j :: 0 <= j < i ==> FitsField(|surfaces[j].bounds|)
    {
      var item :- EncodeGenericSurface(surfaces[i]);
      items := items + [item];
    }
    assert items == Map(GenericSurfaceItem, surfaces);
    return Pass, items;
  }

  // ---------------------------------------------------------------- call summaries

  method EncodeParameterSummary(parameter: ParameterSummary) returns (item: seq<byte>)
    ensures item == ParameterSummaryItem(parameter)
  {
    var encoder := new CanonicalEncoder();
    encoder.WriteU8(AccessTag(parameter.access));
    encoder.WriteU8(MutationTag(parameter.mutation));
    encoder.WriteU8(EligibilityTag(parameter.eligibility));
    encoder.WriteU8(TransferTag(parameter.transfer));
    encoder.WriteU8(ReactiveTag(parameter.reactive));
    assert encoder.bytes + [] == ParameterSummaryItem(parameter);
    item := encoder.Finish();
  }

  method EncodeReturnAlias(encoder: CanonicalEncoder, alias: ReturnAlias) returns (r: Outcome<EncodeError>)
    modifies encoder
    ensures r.Pass? <==> EncodableReturnAlias(alias)
    ensures r.Pass? ==> forall rest :: encoder.bytes + rest == old(encoder.bytes) + PutReturnAlias(alias, rest)
  {
    match alias {
      case Fresh =>
        encoder.WriteU8(0);
      case AliasParams(indices) =>
        encoder.WriteU8(1);
        :- encoder.WriteCount(|indices|);
        for i := 0 to |indices|
          invariant forall j :: 0 <= j < i ==> FitsField(indices[j])
          invariant forall rest ::
            encoder.bytes + PutIndices(indices[i..], rest) == old(encoder.bytes) + PutReturnAlias(alias, rest)
        {
          assert indices[i..][1..] == indices[i + 1..];
          :- encoder.WriteIndex(indices[i]);
        }
        assert indices[|indices|..] == [];
      case Unknown =>
        encoder.WriteU8(2);
    }
    return Pass;
  }

  method OrderedParameterSummaries(parameters: seq<ParameterSummary>) returns (items: seq<seq<byte>>)
    ensures items == Map(ParameterSummaryItem, parameters)
  {
    items := [];
    for i := 0 to |parameters|
      invariant |items| == i && forall j :: 0 <= j < i ==> items[j] == ParameterSummaryItem(parameters[j])
    {
      var item := EncodeParameterSummary(parameters[i]);
      items := items + [item];
    }
    assert items == Map(ParameterSummaryItem, parameters);
  }

  method EncodeSummary(encoder: CanonicalEncoder, summary: CallSummary) returns (r: Outcome<EncodeError>)
    modifies encoder
    ensures r.Pass? <==> EncodableSummary(summary)
    ensures r.Pass? ==> forall rest :: encoder.bytes + rest == old(encoder.bytes) + PutSummary(summary, rest)
  {
    var parameters := OrderedParameterSummaries(summary.parameters);
    :- encoder.WriteEncodedSequence(parameters);
    :- EncodeReturnAlias(encoder, summary.returnAlias);
    return Pass;
  }

  /** The error a summary state that is not accepted is refused with. */
  function SummaryStateError(generic: bool, state: SummaryState): EncodeError {
    match state
    case PendingLocal => StillPendingLocal
    case PendingGenerated => GeneratedLocal
    case Finalized(_) => if generic then FinalizedGeneric else SummaryArityMismatch
  }

  method EncodeSummaryState(encoder: CanonicalEncoder, generic: bool, parameterCount: nat, state: SummaryState)
    returns (r: Outcome<EncodeError>)
    modifies encoder
    ensures !SummaryStateAccepted(generic, parameterCount, state) ==>
        r == Fail(SummaryStateError(generic, state))
    ensures r.Pass? <==> SummaryStateAccepted(generic, parameterCount, state) && EncodableSummaryState(state)
    ensures r.Pass? ==> forall rest :: encoder.bytes + rest == old(encoder.bytes) + PutSummaryState(state, rest)
  {
    match (generic, state) {
      case (true, PendingGenerated) =>
        encoder.WriteU8(0);
      case (false, Finalized(summary)) =>
        if |summary.parameters| != parameterCount {
          return Fail(SummaryArityMismatch);
        }
        encoder.WriteU8(1);
        :- EncodeSummary(encoder, summary);
      case (true, Finalized(_)) =>
        return Fail(FinalizedGeneric);
      case (false, PendingGenerated) =>
        return Fail(GeneratedLocal);
      case (_, PendingLocal) =>
        return Fail(StillPendingLocal);
    }
    return Pass;
  }

  // ---------------------------------------------------------------- callables

  method EncodeTemplate(encoder: CanonicalEncoder, template: Option<seq<GenericParameterSurface>>)
    returns (r: Outcome<EncodeError>)
    modifies encoder
    ensures r.Pass? <==> (template.Some? ==> EncodableGenericSurfaces(template.value))
    ensures r.Pass? ==> forall rest :: encoder.bytes + rest == old(encoder.bytes) + PutTemplate(template, rest)
  {
    match template {
      case Some(surfaces) =>
        encoder.WriteU8(1);
        var items :- OrderedGenericSurfaces(surfaces);
        :- encoder.WriteEncodedSequence(items);
      case None =>
        encoder.WriteU8(0);
    }
    return Pass;
  }

  method EncodeFunction(encoder: CanonicalEncoder, f: FunctionSemantics) returns (r: Outcome<EncodeError>)
    modifies encoder
    ensures r.Pass? <==> EncodableFunction(f)
    ensures r.Pass? ==> forall rest :: encoder.bytes + rest == old(encoder.bytes) + PutFunctionSemantics(f, rest)
  {
    hide PutTemplate, PutSequence, PutOptionalType, PutSummaryState, EncodableParameterSlot, EncodableType,
      EncodableOptionalType, EncodableSummaryState, SummaryStateAccepted;
    :- EncodeTemplate(encoder, f.genericTemplate);
    var parameters :- OrderedParameterSlots(f.parameters);
    :- encoder.WriteEncodedSequence(parameters);
    var returnSlots :- OrderedTypes(f.returnSlots);
    :- encoder.WriteEncodedSequence(returnSlots);
    :- EncodeOptionalType(encoder, f.errorReturn);
    :- EncodeSummaryState(encoder, f.genericTemplate.Some?, |f.parameters|, f.callSummary);
    return Pass;
  }

  method EncodeMethodKey(method_: ReceiverMethod) returns (item: seq<byte>)
    ensures item == MethodKey(method_)
  {
    var encoder := new CanonicalEncoder();
    EncodeOriginFunction(encoder, method_.origin);
    assert encoder.bytes + [] == MethodKey(method_);
    item := encoder.Finish();
  }

  method EncodeMethod(method_: ReceiverMethod) returns (r: Outcome<EncodeError>, item: seq<byte>)
    ensures r.Pass? <==> EncodableMethod(method_)
    ensures r.Pass? ==> item == MethodItem(method_)
  {
    hide PutOriginFunction, PutSequence, PutOptionalType, PutSummaryState, EncodableParameterSlot,
      EncodableType, EncodableOptionalType, EncodableSummaryState, SummaryStateAccepted;
    item := [];
    var encoder := new CanonicalEncoder();
    EncodeOriginFunction(encoder, method_.origin);
    encoder.WriteBool(method_.genericTemplate);
    var parameters :- OrderedParameterSlots(method_.parameters);
    :- encoder.WriteEncodedSequence(parameters);
    var returnSlots :- OrderedTypes(method_.returnSlots);
    :- encoder.WriteEncodedSequence(returnSlots);
    :- EncodeOptionalType(encoder, method_.errorReturn);
    :- EncodeSummaryState(encoder, method_.genericTemplate, |method_.parameters|, method_.callSummary);
    assert encoder.bytes + [] == MethodItem(method_);
    item := encoder.Finish();
    return Pass, item;
  }

  method SortedMethods(methods: seq<ReceiverMethod>) returns (r: Outcome<EncodeError>, items: seq<seq<byte>>)
    ensures r.Pass? <==> forall i :: 0 <= i < |methods| ==> EncodableMethod(methods[i])
    ensures r.Pass? ==> items == SortedItems(Map(KeyedMethod, methods))
  {
    hide MethodKey, MethodItem, EncodableMethod;
    items := [];
    var keyed: seq<KeyedItem> := [];
    for i := 0 to |methods|
      invariant |keyed| == i && forall j :: 0 <= j < i ==> keyed[j] == KeyedMethod(methods[j])
      invariant forall j :: 0 <= j < i ==> EncodableMethod(methods[j])
    {
      var key := EncodeMethodKey(methods[i]);
      var item :- EncodeMethod(methods[i]);
      keyed := keyed + [KeyedItem(key, item)];
    }
    assert keyed == Map(KeyedMethod, methods);
    return Pass, SortedItems(keyed);
  }

  // ---------------------------------------------------------------- traits

  method EncodeTraitSurfaceType(encoder: CanonicalEncoder, t: TraitSurfaceType) returns (r: Outcome<EncodeError>)
    modifies encoder
    ensures r.Pass? <==> EncodableTraitSurfaceType(t)
    ensures r.Pass? ==> forall rest :: encoder.bytes + rest == old(encoder.bytes) + PutTraitSurfaceType(t, rest)
  {
    match t {
      case SelfType =>
        encoder.WriteU8(0);
      case Concrete(identity) =>
        encoder.WriteU8(1);
        :- EncodeType(encoder, identity);
    }
    return Pass;
  }

  method EncodeRequirementParameter(parameter: RequirementParameter) returns (r: Outcome<EncodeError>, item: seq<byte>)
    ensures r.Pass? <==> EncodableTraitSurfaceType(parameter.typeIdentity)
    ensures r.Pass? ==> item == RequirementParameterItem(parameter)
  {
    item := [];
    var encoder := new CanonicalEncoder();
    EncodeOptionalString(encoder, parameter.name);
    encoder.WriteU8(ValueModeTag(parameter.valueMode));
    :- EncodeTraitSurfaceType(encoder, parameter.typeIdentity);
    assert encoder.bytes + [] == RequirementParameterItem(parameter);
    item := encoder.Finish();
    return Pass, item;
  }

  method EncodeRequirementReturn(slot: RequirementReturn) returns (r: Outcome<EncodeError>, item: seq<byte>)
    ensures r.Pass? <==> EncodableTraitSurfaceType(slot.typeIdentity)
    ensures r.Pass? ==> item == RequirementReturnItem(slot)
  {
    item := [];
    var encoder := new CanonicalEncoder();
    encoder.WriteU8(ReturnChannelTag(slot.channel));
    :- EncodeTraitSurfaceType(encoder, slot.typeIdentity);
    assert encoder.bytes + [] == RequirementReturnItem(slot);
    item := encoder.Finish();
    return Pass, item;
  }

  method OrderedRequirementParameters(parameters: seq<RequirementParameter>)
    returns (r: Outcome<EncodeError>, items: seq<seq<byte>>)
    ensures r.Pass? <==> forall i :: 0 <= i < |parameters| ==> EncodableTraitSurfaceType(parameters[i].typeIdentity)
    ensures r.Pass? ==> items == Map(RequirementParameterItem, parameters)
  {
    hide RequirementParameterItem, EncodableTraitSurfaceType;
    items := [];
    for i := 0 to |parameters|
      invariant |items| == i && forall j :: 0 <= j < i ==> items[j] == RequirementParameterItem(parameters[j])
      invariant forall j :: 0 <= j < i ==> EncodableTraitSurfaceType(parameters[j].typeIdentity)
    {
      var item :- EncodeRequirementParameter(parameters[i]);
      items := items + [item];
    }
    assert items == Map(RequirementParameterItem, parameters);
    return Pass, items;
  }

  method OrderedRequirementReturns(slots: seq<RequirementReturn>)
    returns (r: Outcome<EncodeError>, items: seq<seq<byte>>)
    ensures r.Pass? <==> forall i :: 0 <= i < |slots| ==> EncodableTraitSurfaceType(slots[i].typeIdentity)
    ensures r.Pass? ==> items == Map(RequirementReturnItem, slots)
  {
    hide RequirementReturnItem, EncodableTraitSurfaceType;
    items := [];
    for i := 0 to |slots|
      invariant |items| == i && forall j :: 0 <= j < i ==> items[j] == RequirementReturnItem(slots[j])
      invariant forall j :: 0 <= j < i ==> EncodableTraitSurfaceType(slots[j].typeIdentity)
    {
      var item :- EncodeRequirementReturn(slots[i]);
      items := items + [item];
    }
    assert items == Map(RequirementReturnItem, slots);
    return Pass, items;
  }

  method EncodeRequirement(requirement: TraitRequirement) returns (r: Outcome<EncodeError>, item: seq<byte>)
    ensures r.Pass? <==> EncodableRequirement(requirement)
    ensures r.Pass? ==> item == RequirementItem(requirement)
  {
    hide PutSequence, PutBytes, EncodableTraitSurfaceType;
    item := [];
    var encoder := new CanonicalEncoder();
    encoder.WriteString(requirement.name);
    encoder.WriteU8(ReceiverAccessTag(requirement.receiverAccess));
    var parameters :- OrderedRequirementParameters(requirement.parameters);
    :- encoder.WriteEncodedSequence(parameters);
    var slots :- OrderedRequirementReturns(requirement.returns_);
    :- encoder.WriteEncodedSequence(slots);
    assert encoder.bytes + [] == RequirementItem(requirement);
    item := encoder.Finish();
    return Pass, item;
  }

  method OrderedRequirements(requirements: seq<TraitRequirement>)
    returns (r: Outcome<EncodeError>, items: seq<seq<byte>>)
    ensures r.Pass? <==> forall i :: 0 <= i < |requirements| ==> EncodableRequirement(requirements[i])
    ensures r.Pass? ==> items == Map(RequirementItem, requirements)
  {
    hide RequirementItem, EncodableRequirement;
    items := [];
    for i := 0 to |requirements|
      invariant |items| == i && forall j :: 0 <= j < i ==> items[j] == RequirementItem(requirements[j])
      invariant forall j :: 0 <= j < i ==> EncodableRequirement(requirements[j])
    {
      var item :- EncodeRequirement(requirements[i]);
      items := items + [item];
    }
    assert items == Map(RequirementItem, requirements);
    return Pass, items;
  }

  method SortedIncompatibilities(traits: seq<TraitIdentity>) returns (items: seq<seq<byte>>)
    ensures items == SortedItems(Map(KeyedTrait, traits))
  {
    var keyed: seq<KeyedItem> := [];
    for i := 0 to |traits|
      invariant |keyed| == i && forall j :: 0 <= j < i ==> keyed[j] == KeyedTrait(traits[j])
    {
      var key := EncodeTrait(traits[i]);
      var item := EncodeTrait(traits[i]);
      keyed := keyed + [KeyedItem(key, item)];
    }
    assert keyed == Map(KeyedTrait, traits);
    items := SortedItems(keyed);
  }

  // ---------------------------------------------------------------- declarations

  method EncodeSemantics(encoder: CanonicalEncoder, semantics: DeclarationSemantics) returns (r: Outcome<EncodeError>)
    modifies encoder
    ensures r.Pass? <==> EncodableSemantics(semantics)
    ensures r.Pass? ==> forall rest :: encoder.bytes + rest == old(encoder.bytes) + PutSemantics(semantics, rest)
  {
    hide Map, SortedItems, PutFunctionSemantics, PutSequence, PutType, PutValue, EncodableFunction,
      EncodableFieldSlot, EncodableVariant, EncodableMethod, EncodableRequirement, EncodableType,
      EncodableValue;
    match semantics {
      case FunctionDeclaration(f) =>
        encoder.WriteU8(0);
        :- EncodeFunction(encoder, f);
      case StructDeclaration(generics, fields, methods) =>
        encoder.WriteU8(1);
        var surfaces :- OrderedGenericSurfaces(generics);
        :- encoder.WriteEncodedSequence(surfaces);
        var slots :- OrderedFieldSlots(fields);
        :- encoder.WriteEncodedSequence(slots);
        var encodedMethods :- SortedMethods(methods);
        :- encoder.WriteEncodedSequence(encodedMethods);
      case ChoiceDeclaration(generics, variants, methods) =>
        encoder.WriteU8(2);
        var surfaces :- OrderedGenericSurfaces(generics);
        :- encoder.WriteEncodedSequence(surfaces);
        var items :- OrderedVariants(variants);
        :- encoder.WriteEncodedSequence(items);
        var encodedMethods :- SortedMethods(methods);
        :- encoder.WriteEncodedSequence(encodedMethods);
      case AliasDeclaration(target) =>
        encoder.WriteU8(3);
        :- EncodeType(encoder, target);
      case ConstantDeclaration(constantType, value) =>
        encoder.WriteU8(4);
        :- EncodeType(encoder, constantType);
        :- EncodeValue(encoder, value);
      case TraitDeclaration(requirements, incompatibilities) =>
        encoder.WriteU8(5);
        var items :- OrderedRequirements(requirements);
        :- encoder.WriteEncodedSequence(items);
        var traits := SortedIncompatibilities(incompatibilities);
        :- encoder.WriteEncodedSequence(traits);
    }
    return Pass;
  }

  method EncodeDeclaration(record: DeclarationRecord) returns (r: Outcome<EncodeError>, item: seq<byte>)
    ensures r.Pass? <==> EncodableSemantics(record.semantics)
    ensures r.Pass? ==> item == DeclarationItem(record)
  {
    hide PutOriginDeclaration, PutSemantics, EncodableSemantics;
    item := [];
    var encoder := new CanonicalEncoder();
    EncodeOriginDeclaration(encoder, record.origin);
    :- EncodeSemantics(encoder, record.semantics);
    assert encoder.bytes + [] == DeclarationItem(record);
    item := encoder.Finish();
    return Pass, item;
  }

  // ---------------------------------------------------------------- evidence

  method EncodeMapping(mapping: RequirementMapping) returns (item: seq<byte>)
    ensures item == MappingItem(mapping)
  {
    var encoder := new CanonicalEncoder();
    EncodeRequirementIdentity(encoder, mapping.requirement);
    EncodeOriginFunction(encoder, mapping.method_);
    assert encoder.bytes + [] == MappingItem(mapping);
    item := encoder.Finish();
  }

  method OrderedMappings(mappings: seq<RequirementMapping>) returns (items: seq<seq<byte>>)
    ensures items == Map(MappingItem, mappings)
  {
    hide MappingItem;
    items := [];
    for i := 0 to |mappings|
      invariant |items| == i && forall j :: 0 <= j < i ==> items[j] == MappingItem(mappings[j])
    {
      var item := EncodeMapping(mappings[i]);
      items := items + [item];
    }
    assert items == Map(MappingItem, mappings);
  }

  method EncodeEvidence(record: EvidenceRecord) returns (r: Outcome<EncodeError>, item: seq<byte>)
    ensures r.Pass? <==> EncodableEvidence(record)
    ensures r.Pass? ==> item == EvidenceItem(record)
  {
    hide PutBytes, PutSequence, EvidenceIdentityItem, EncodableType;
    item := [];
    var encoder := new CanonicalEncoder();
    var identity :- EncodeEvidenceIdentity(record.identity);
    encoder.WriteBytes(identity);
    match record.ownership {
      case SourceCanonical =>
        encoder.WriteU8(0);
      case BuiltinOwned =>
        return Fail(BuiltinEvidence), [];
    }
    var mappings := OrderedMappings(record.mappings);
    :- encoder.WriteEncodedSequence(mappings);
    assert encoder.bytes + [] == EvidenceItem(record);
    item := encoder.Finish();
    return Pass, item;
  }

  // ---------------------------------------------------------------- the draft

  method SortedBindings(bindings: seq<ExportBinding>) returns (items: seq<seq<byte>>)
    ensures items == SortedItems(Map(KeyedBinding, bindings))
  {
    hide ExportBindingItem;
    var keyed: seq<KeyedItem> := [];
    for i := 0 to |bindings|
      invariant |keyed| == i && forall j :: 0 <= j < i ==> keyed[j] == KeyedBinding(bindings[j])
    {
      var key := EncodeExportBinding(bindings[i]);
      var item := EncodeExportBinding(bindings[i]);
      keyed := keyed + [KeyedItem(key, item)];
    }
    assert keyed == Map(KeyedBinding, bindings);
    items := SortedItems(keyed);
  }

  method SortedDeclarations(records: seq<DeclarationRecord>) returns (r: Outcome<EncodeError>, items: seq<seq<byte>>)
    ensures r.Pass? <==> forall i :: 0 <= i < |records| ==> EncodableSemantics(records[i].semantics)
    ensures r.Pass? ==> items == SortedItems(Map(KeyedDeclaration, records))
  {
    hide OriginDeclarationKey, DeclarationItem, EncodableSemantics;
    items := [];
    var keyed: seq<KeyedItem> := [];
    for i := 0 to |records|
      invariant |keyed| == i && forall j :: 0 <= j < i ==> keyed[j] == KeyedDeclaration(records[j])
      invariant forall j :: 0 <= j < i ==> EncodableSemantics(records[j].semantics)
    {
      var key := EncodeOriginDeclarationKey(records[i].origin);
      var item :- EncodeDeclaration(records[i]);
      keyed := keyed + [KeyedItem(key, item)];
    }
    assert keyed == Map(KeyedDeclaration, records);
    return Pass, SortedItems(keyed);
  }

  method SortedEvidence(records: seq<EvidenceRecord>) returns (r: Outcome<EncodeError>, items: seq<seq<byte>>)
    ensures r.Pass? <==> forall i :: 0 <= i < |records| ==> EncodableEvidence(records[i])
    ensures r.Pass? ==> items == SortedItems(Map(KeyedEvidence, records))
  {
    hide EvidenceIdentityItem, EvidenceItem;
    items := [];
    var keyed: seq<KeyedItem> := [];
    for i := 0 to |records|
      invariant |keyed| == i && forall j :: 0 <= j < i ==> keyed[j] == KeyedEvidence(records[j])
      invariant forall j :: 0 <= j < i ==> EncodableEvidence(records[j])
    {
      var key :- EncodeEvidenceIdentity(records[i].identity);
      var item :- EncodeEvidence(records[i]);
      keyed := keyed + [KeyedItem(key, item)];
    }
    assert keyed == Map(KeyedEvidence, records);
    return Pass, SortedItems(keyed);
  }

  /** The domain tag and format revision every draft starts with. */
  method EncodeHeader(encoder: CanonicalEncoder)
    modifies encoder
    ensures forall rest :: encoder.bytes + rest == old(encoder.bytes) + PutHeader(rest)
  {
    encoder.WriteBytes(DOMAIN_TAG);
    encoder.WriteU16(FORMAT_REVISION);
  }

  method EncodeDraftParts(encoder: CanonicalEncoder, draft: Draft) returns (r: Outcome<EncodeError>)
    modifies encoder
    ensures r.Pass? <==> EncodableDraft(draft)
    ensures r.Pass? ==> forall rest :: encoder.bytes + rest == old(encoder.bytes) + PutDraft(draft, rest)
  {
    hide Map, PutHeader, PutSequence, PutModuleOrigin, SortedItems, EncodableSemantics, EncodableEvidence;
    EncodeHeader(encoder);
    EncodeModuleOrigin(encoder, draft.moduleOrigin);
    var bindings := SortedBindings(draft.exportBindings);
    :- encoder.WriteEncodedSequence(bindings);
    var declarations :- SortedDeclarations(draft.declarations);
    :- encoder.WriteEncodedSequence(declarations);
    var evidence :- SortedEvidence(draft.evidence);
    :- encoder.WriteEncodedSequence(evidence);
    return Pass;
  }

  /** `encode_public_interface_draft`: succeeds on exactly the encodable drafts, with their code. */
  method EncodeDraft(draft: Draft) returns (r: Outcome<EncodeError>, item: seq<byte>)
    ensures r.Pass? <==> EncodableDraft(draft)
    ensures r.Pass? ==> item == EncodedDraft(draft)
  {
    hide PutDraft, EncodableDraft;
    item := [];
    var encoder := new CanonicalEncoder();
    :- EncodeDraftParts(encoder, draft);
    assert encoder.bytes + [] == EncodedDraft(draft);
    item := encoder.Finish();
    return Pass, item;
  }
}
