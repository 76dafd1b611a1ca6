/** The encoded draft is a canonical form.

    Some collections of a draft carry no order: its bindings, declarations and evidence, the
    receiver methods of a nominal type and the incompatibilities of a trait. `DraftMeaning`
    keeps each of them as a multiset and everything else as it is. The bytes of an encodable draft
    read back as a draft with its meaning, whose collections are in the order of their bytes; so
    two such drafts have the same bytes exactly when they have the same meaning. */
module CanonicalForm {
  import opened Wrappers
  import opened Sorting
  import opened Bytes
  import opened Identities
  import opened InterfaceDraft
  import opened CanonicalCode
  import opened CanonicalReader
  import opened CanonicalReadBack
  import opened CanonicalOrder

  datatype SemanticsMeaning =
    | FunctionMeaning(function_: FunctionSemantics)
    | StructMeaning(
        structGenerics: seq<GenericParameterSurface>,
        fields: seq<FieldSlot>,
        structMethods: multiset<ReceiverMethod>)
    | ChoiceMeaning(
        choiceGenerics: seq<GenericParameterSurface>,
        variants: seq<Variant>,
        choiceMethods: multiset<ReceiverMethod>)
    | AliasMeaning(target: CanonicalType)
    | ConstantMeaning(constantType: CanonicalType, value: FoldedValue)
    | TraitMeaning(requirements: seq<TraitRequirement>, incompatibilities: multiset<TraitIdentity>)

  datatype DeclarationMeaning = DeclarationMeaning(origin: OriginDeclaration, semantics: SemanticsMeaning)

  datatype DraftMeaning = DraftMeaning(
    moduleOrigin: ModuleOrigin,
    exportBindings: multiset<ExportBinding>,
    declarations: multiset<DeclarationMeaning>,
    evidence: multiset<EvidenceRecord>)

  function MeaningOfSemantics(semantics: DeclarationSemantics): SemanticsMeaning {
    match semantics
    case FunctionDeclaration(f) => FunctionMeaning(f)
    case StructDeclaration(generics, fields, methods) => StructMeaning(generics, fields, multiset(methods))
    case ChoiceDeclaration(generics, variants, methods) => ChoiceMeaning(generics, variants, multiset(methods))
    case AliasDeclaration(target) => AliasMeaning(target)
    case ConstantDeclaration(constantType, value) => ConstantMeaning(constantType, value)
    case TraitDeclaration(requirements, incompatibilities) =>
      TraitMeaning(requirements, multiset(incompatibilities))
  }

  function MeaningOfRecord(record: DeclarationRecord): DeclarationMeaning {
    DeclarationMeaning(record.origin, MeaningOfSemantics(record.semantics))
  }

  function Meaning(draft: Draft): DraftMeaning {
    DraftMeaning(
      draft.moduleOrigin,
      multiset(draft.exportBindings),
      multiset(Map(MeaningOfRecord, draft.declarations)),
      multiset(draft.evidence))
  }

  function EncodedDraft(draft: Draft): seq<byte> {
    PutDraft(draft, [])
  }

  // ---------------------------------------------------------------- reading back

  /** The collections inside a declaration are in the order of their bytes. */
  ghost predicate SemanticsAscend(semantics: DeclarationSemantics) {
    match semantics
    case StructDeclaration(_, _, methods) => Ascending(OriginOfMethod, MethodItem, methods)
    case ChoiceDeclaration(_, _, methods) => Ascending(OriginOfMethod, MethodItem, methods)
    case TraitDeclaration(_, incompatibilities) => Ascending(TraitItem, TraitItem, incompatibilities)
    case _ => true
  }

  lemma MethodsRead(methods: seq<ReceiverMethod>, rest: seq<byte>) returns (order: seq<ReceiverMethod>)
    requires EncodableMethods(methods) && Short(PutMethods(methods, rest))
    ensures multiset(order) == multiset(methods) && Ascending(OriginOfMethod, MethodItem, order)
    ensures ReadList(ReadMethod, PutMethods(methods, rest)) == Read(order, rest)
  {
    hide ReadMethod, MethodItem, EncodableMethod, ReadList, PutSequence, Map, SortedItems, PutMethods;
    order := MethodsAscend(methods, rest);
    forall m | m in order && Short(MethodItem(m))
      ensures ReadMethod(MethodItem(m)) == Read(m, [])
    {
      assert m in multiset(order);
      assert m in methods;
      MethodReads(m);
    }
    ListReads(ReadMethod, MethodItem, order, rest);
  }

  lemma SurfacesRead(surfaces: seq<GenericParameterSurface>, rest: seq<byte>)
    requires Short(PutSequence(Map(GenericSurfaceItem, surfaces), rest))
    ensures ReadList(ReadGenericSurface, PutSequence(Map(GenericSurfaceItem, surfaces), rest)) == Read(surfaces, rest)
  {
    hide ReadList;
    GenericSurfacesRead(surfaces, rest);
  }

  /** A declaration reads back with its meaning. */
  lemma SemanticsReads(semantics: DeclarationSemantics, rest: seq<byte>) returns (read: DeclarationSemantics)
    requires EncodableSemantics(semantics) && Short(PutSemantics(semantics, rest))
    ensures ReadSemantics(PutSemantics(semantics, rest)) == Read(read, rest)
    ensures MeaningOfSemantics(read) == MeaningOfSemantics(semantics) && SemanticsAscend(read)
  {
    hide ReadU8, ReadFunction, PutFunctionSemantics, ReadList, PutSequence, PutMethods, Map, ReadType, PutType;
    hide ReadValue, PutValue, EncodableFunction, EncodableGenericSurfaces, EncodableFieldSlots, EncodableMethods;
    hide EncodableVariant, EncodableType, EncodableValue, EncodableRequirements, Ascending, SortedItems;
    read := semantics;
    match semantics {
      case FunctionDeclaration(f) =>
        U8Reads(0, PutFunctionSemantics(f, rest));
        FunctionReads(f, rest);
      case StructDeclaration(generics, fields, methods) =>
        var atMethods := PutMethods(methods, rest);
        var atFields := PutSequence(Map(FieldSlotItem, fields), atMethods);
        U8Reads(1, PutSequence(Map(GenericSurfaceItem, generics), atFields));
        SurfacesRead(generics, atFields);
        FieldSlotsRead(fields, atMethods);
        var order := MethodsRead(methods, rest);
        read := StructDeclaration(generics, fields, order);
      case ChoiceDeclaration(generics, variants, methods) =>
        var atMethods := PutMethods(methods, rest);
        var atVariants := PutSequence(Map(VariantItem, variants), atMethods);
        U8Reads(2, PutSequence(Map(GenericSurfaceItem, generics), atVariants));
        SurfacesRead(generics, atVariants);
        VariantsRead(variants, atMethods);
        var order := MethodsRead(methods, rest);
        read := ChoiceDeclaration(generics, variants, order);
      case AliasDeclaration(target) =>
        U8Reads(3, PutType(target, rest));
        TypeReads(target, rest);
      case ConstantDeclaration(constantType, value) =>
        U8Reads(4, PutType(constantType, PutValue(value, rest)));
        TypeReads(constantType, PutValue(value, rest));
        ValueReads(value, rest);
      case TraitDeclaration(requirements, incompatibilities) =>
        read := TraitReadsBack(requirements, incompatibilities, rest);
    }
  }

  lemma TraitReadsBack(requirements: seq<TraitRequirement>, traits: seq<TraitIdentity>, rest: seq<byte>)
    returns (read: DeclarationSemantics)
    requires EncodableRequirements(requirements) && Short(PutSemantics(TraitDeclaration(requirements, traits), rest))
    ensures ReadSemantics(PutSemantics(TraitDeclaration(requirements, traits), rest)) == Read(read, rest)
    ensures MeaningOfSemantics(read) == MeaningOfSemantics(TraitDeclaration(requirements, traits))
    ensures SemanticsAscend(read)
  {
    hide ReadU8, ReadList, PutSequence, Map, EncodableRequirements, Ascending, PutSemantics;
    var order := IncompatibilitiesAscend(requirements, traits, rest);
    var atTraits := PutSequence(Map(TraitItem, order), rest);
    U8Reads(5, PutSequence(Map(RequirementItem, requirements), atTraits));
    RequirementsRead(requirements, atTraits);
    TraitsRead(order, rest);
    read := TraitDeclaration(requirements, order);
  }

  lemma RecordReads(record: DeclarationRecord) returns (read: DeclarationRecord)
    requires EncodableSemantics(record.semantics) && Short(DeclarationItem(record))
    ensures ReadRecord(DeclarationItem(record)) == Read(read, [])
    ensures MeaningOfRecord(read) == MeaningOfRecord(record) && SemanticsAscend(read.semantics)
  {
    hide ReadOriginDeclaration, PutOriginDeclaration, ReadSemantics, PutSemantics, EncodableSemantics, SemanticsAscend;
    OriginDeclarationReads(record.origin, PutSemantics(record.semantics, []));
    var semantics := SemanticsReads(record.semantics, []);
    read := DeclarationRecord(record.origin, semantics);
  }

  /** The records read back one by one. */
  lemma {:induction false} EachRecordReads(records: seq<DeclarationRecord>) returns (read: seq<DeclarationRecord>)
    requires forall i :: 0 <= i < |records| ==>
        EncodableSemantics(records[i].semantics) && Short(DeclarationItem(records[i]))
    ensures |read| == |records| && ReadEach(ReadRecord, Map(DeclarationItem, records)) == Some(read)
    ensures forall i :: 0 <= i < |read| ==>
        MeaningOfRecord(read[i]) == MeaningOfRecord(records[i]) && SemanticsAscend(read[i].semantics)
  {
    hide ReadRecord, DeclarationItem, EncodableSemantics, SemanticsAscend, MeaningOfRecord, Short;
    if records == [] {
      read := [];
    } else {
      var first := RecordReads(records[0]);
      var others := EachRecordReads(records[1..]);
      assert Map(DeclarationItem, records)[1..] == Map(DeclarationItem, records[1..]);
      read := [first] + others;
    }
  }

  lemma RecordsRead(records: seq<DeclarationRecord>, rest: seq<byte>) returns (read: seq<DeclarationRecord>)
    requires EncodableDeclarations(records) && Short(PutSequence(Map(DeclarationItem, records), rest))
    ensures ReadList(ReadRecord, PutSequence(Map(DeclarationItem, records), rest)) == Read(read, rest)
    ensures |read| == |records| && forall i :: 0 <= i < |read| ==>
        MeaningOfRecord(read[i]) == MeaningOfRecord(records[i]) && SemanticsAscend(read[i].semantics)
  {
    hide ReadRecord, DeclarationItem, EncodableSemantics, SemanticsAscend, MeaningOfRecord, ReadEach, ReadSequence;
    hide PutSequence;
    SequenceReads(Map(DeclarationItem, records), rest);
    forall i | 0 <= i < |records|
      ensures Short(DeclarationItem(records[i]))
    {
      assert Map(DeclarationItem, records)[i] == DeclarationItem(records[i]);
    }
    read := EachRecordReads(records);
  }

  lemma BindingsRead(bindings: seq<ExportBinding>, rest: seq<byte>)
    requires Short(PutSequence(Map(ExportBindingItem, bindings), rest))
    ensures ReadList(ReadExportBinding, PutSequence(Map(ExportBindingItem, bindings), rest)) == Read(bindings, rest)
  {
    hide ReadExportBinding, ExportBindingItem, ReadList, PutSequence, Map;
    forall b | b in bindings && Short(ExportBindingItem(b))
      ensures ReadExportBinding(ExportBindingItem(b)) == Read(b, [])
    {
      ExportBindingReads(b);
    }
    ListReads(ReadExportBinding, ExportBindingItem, bindings, rest);
  }

  lemma EvidenceListReads(records: seq<EvidenceRecord>, order: seq<EvidenceRecord>, rest: seq<byte>)
    requires EncodableEvidenceRecords(records) && multiset(order) == multiset(records)
    requires Short(PutSequence(Map(EvidenceItem, order), rest))
    ensures ReadList(ReadEvidence, PutSequence(Map(EvidenceItem, order), rest)) == Read(order, rest)
  {
    hide ReadEvidence, EvidenceItem, EncodableEvidence, ReadList, PutSequence, Map;
    forall x | x in order && Short(EvidenceItem(x))
      ensures ReadEvidence(EvidenceItem(x)) == Read(x, [])
    {
      assert x in multiset(order);
      assert x in records;
      EvidenceReads(x);
    }
    ListReads(ReadEvidence, EvidenceItem, order, rest);
  }

  // ---------------------------------------------------------------- equal meanings, equal codes

  /** Collections with the same meanings sort to the same items. */
  lemma SortedEncode<T, M>(keyed: T -> KeyedItem, meaning: T -> M, a: seq<T>, b: seq<T>)
    requires forall x, y :: x in a && y in b && meaning(x) == meaning(y) ==> keyed(x) == keyed(y)
    requires multiset(Map(meaning, a)) == multiset(Map(meaning, b))
    ensures SortedItems(Map(keyed, a)) == SortedItems(Map(keyed, b))
  {
    SameImages(meaning, keyed, a, b);
    SortedItemsCanonical(Map(keyed, a), Map(keyed, b));
  }

  lemma SortedEncodePlain<T>(keyed: T -> KeyedItem, a: seq<T>, b: seq<T>)
    requires multiset(a) == multiset(b)
    ensures SortedItems(Map(keyed, a)) == SortedItems(Map(keyed, b))
  {
    var same := (x: T) => x;
    assert Map(same, a) == a && Map(same, b) == b;
    SortedEncode(keyed, same, a, b);
  }

  lemma SemanticsEncode(a: DeclarationSemantics, b: DeclarationSemantics, rest: seq<byte>)
    requires MeaningOfSemantics(a) == MeaningOfSemantics(b)
    ensures PutSemantics(a, rest) == PutSemantics(b, rest)
  {
    match (a, b) {
      case (StructDeclaration(_, _, m), StructDeclaration(_, _, n)) => SortedEncodePlain(KeyedMethod, m, n);
      case (ChoiceDeclaration(_, _, m), ChoiceDeclaration(_, _, n)) => SortedEncodePlain(KeyedMethod, m, n);
      case (TraitDeclaration(_, i), TraitDeclaration(_, j)) => SortedEncodePlain(KeyedTrait, i, j);
      case _ =>
    }
  }

  /** Drafts with one meaning have one code. */
  lemma DraftEncode(a: Draft, b: Draft)
    requires Meaning(a) == Meaning(b)
    ensures EncodedDraft(a) == EncodedDraft(b)
  {
    SortedEncodePlain(KeyedBinding, a.exportBindings, b.exportBindings);
    forall x, y | x in a.declarations && y in b.declarations && MeaningOfRecord(x) == MeaningOfRecord(y)
      ensures KeyedDeclaration(x) == KeyedDeclaration(y)
    {
      SemanticsEncode(x.semantics, y.semantics, []);
    }
    SortedEncode(KeyedDeclaration, MeaningOfRecord, a.declarations, b.declarations);
    SortedEncodePlain(KeyedEvidence, a.evidence, b.evidence);
  }

  // ---------------------------------------------------------------- the draft

  /** Every collection without an order of its own is in the order of its bytes. */
  ghost predicate DraftInOrder(draft: Draft) {
    && Ascending(ExportBindingItem, ExportBindingItem, draft.exportBindings)
    && Ascending(OriginOfRecord, DeclarationItem, draft.declarations)
    && (forall i :: 0 <= i < |draft.declarations| ==> SemanticsAscend(draft.declarations[i].semantics))
    && Ascending(IdentityOfEvidence, EvidenceItem, draft.evidence)
  }

  lemma SameMeaningAscends(records: seq<DeclarationRecord>, read: seq<DeclarationRecord>)
    requires |read| == |records| && Ascending(OriginOfRecord, DeclarationItem, records)
    requires forall i :: 0 <= i < |read| ==> MeaningOfRecord(read[i]) == MeaningOfRecord(records[i])
    ensures Ascending(OriginOfRecord, DeclarationItem, read)
  {
    hide Ascends, PutSemantics, PutOriginDeclaration, MeaningOfSemantics;
    forall i | 0 <= i < |read|
      ensures OriginOfRecord(read[i]) == OriginOfRecord(records[i])
      ensures DeclarationItem(read[i]) == DeclarationItem(records[i])
    {
      SemanticsEncode(read[i].semantics, records[i].semantics, []);
    }
  }

  lemma DomainTagIsDomain()
    ensures IsDomainTag(DOMAIN_TAG)
  {
    assert |DOMAIN| == 32 && |DOMAIN_TAG| == 32;
  }

  lemma HeaderReads(rest: seq<byte>) returns (s1: seq<byte>)
    requires Short(PutHeader(rest))
    ensures ReadBytes(PutHeader(rest)) == Read(DOMAIN_TAG, s1) && ReadNumber(2, s1) == Read(1, rest)
    ensures IsDomainTag(DOMAIN_TAG)
  {
    hide ReadBytes, PutBytes, IsDomainTag;
    DomainTagIsDomain();
    s1 := PutU16(FORMAT_REVISION, rest);
    BytesRead(DOMAIN_TAG, s1);
    assert Pow256(2) == 0x1_0000;
    NumberReads(2, FORMAT_REVISION, rest);
  }

  /** The bytes of a draft read back as a draft with its meaning, in order. */
  lemma DraftReadsBack(draft: Draft, rest: seq<byte>) returns (read: Draft)
    requires EncodableDraft(draft) && Short(PutDraft(draft, rest))
    ensures ReadDraft(PutDraft(draft, rest)) == Read(read, rest)
    ensures Meaning(read) == Meaning(draft) && DraftInOrder(read)
  {
    hide ReadList, PutSequence, ReadModuleOrigin, PutModuleOrigin, PutHeader, PutDraft, Ascending, SemanticsAscend;
    hide ReadBytes, ReadNumber, IsDomainTag, EncodableSemantics, EncodableEvidence, MeaningOfRecord;
    var bindings, records, evidence := DraftAscends(draft, rest);
    var atEvidence := PutSequence(Map(EvidenceItem, evidence), rest);
    var atRecords := PutSequence(Map(DeclarationItem, records), atEvidence);
    var atBindings := PutSequence(Map(ExportBindingItem, bindings), atRecords);
    var _ := HeaderReads(PutModuleOrigin(draft.moduleOrigin, atBindings));
    ModuleOriginReads(draft.moduleOrigin, atBindings);
    BindingsRead(bindings, atRecords);
    AlsoEncodable(draft.declarations, records);
    var readRecords := RecordsRead(records, atEvidence);
    EvidenceListReads(draft.evidence, evidence, rest);
    read := Draft(draft.moduleOrigin, bindings, readRecords, evidence);
    SameMeaningAscends(records, readRecords);
    assert Map(MeaningOfRecord, readRecords) == Map(MeaningOfRecord, records);
    SameImagesOfSame(MeaningOfRecord, records, draft.declarations);
  }

  lemma AlsoEncodable(records: seq<DeclarationRecord>, order: seq<DeclarationRecord>)
    requires EncodableDeclarations(records) && multiset(order) == multiset(records)
    ensures EncodableDeclarations(order)
  {
    hide EncodableSemantics;
    assert |multiset(order)| == |multiset(records)|;
    forall i | 0 <= i < |order|
      ensures EncodableSemantics(order[i].semantics)
    {
      assert order[i] in multiset(order);
      assert order[i] in records;
    }
  }

  /** The canonical-form theorem. */
  lemma CanonicalBytes(a: Draft, b: Draft)
    requires EncodableDraft(a) && EncodableDraft(b)
    requires Short(EncodedDraft(a)) || Short(EncodedDraft(b))
    ensures EncodedDraft(a) == EncodedDraft(b) <==> Meaning(a) == Meaning(b)
  {
    hide PutDraft, ReadDraft, EncodableDraft, Meaning, DraftInOrder;
    if EncodedDraft(a) == EncodedDraft(b) {
      var readA := DraftReadsBack(a, []);
      var readB := DraftReadsBack(b, []);
    }
    if Meaning(a) == Meaning(b) {
      DraftEncode(a, b);
    }
  }
}
