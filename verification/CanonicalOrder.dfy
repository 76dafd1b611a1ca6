/** In which order the bytes of a draft list what the draft itself leaves unordered.

    The order is stated on positions of the bytes, apart from the comparison the encoder sorts
    with: at the first place where two keys differ the smaller byte comes first, a key that is a
    proper prefix of another comes before it, and items with equal keys ascend in the same way. */
module CanonicalOrder {
  import opened Sorting
  import opened Bytes
  import opened InterfaceDraft
  import opened Identities
  import opened CanonicalCode

  /** `a` and `b` agree up to `k`, where `a` ends or holds the smaller byte. */
  predicate FirstDifference(a: seq<byte>, b: seq<byte>, k: nat) {
    && k <= |a| && k < |b|
    && (forall i :: 0 <= i < k ==> a[i] == b[i])
    && (k == |a| || a[k] < b[k])
  }

  ghost predicate Before(a: seq<byte>, b: seq<byte>) {
    exists k: nat :: FirstDifference(a, b, k)
  }

  ghost predicate Ascends(a: KeyedItem, b: KeyedItem) {
    || Before(a.key, b.key)
    || (a.key == b.key && (a.item == b.item || Before(a.item, b.item)))
  }

  /** Every element's key and item are in order with those of every later one. */
  ghost predicate Ascending<T>(key: T -> seq<byte>, item: T -> seq<byte>, xs: seq<T>) {
    forall i, j :: 0 <= i < j < |xs| ==>
      Ascends(KeyedItem(key(xs[i]), item(xs[i])), KeyedItem(key(xs[j]), item(xs[j])))
  }

  lemma LeqByPosition(a: seq<byte>, b: seq<byte>)
    requires BytesLeq(a, b) && a != b
    ensures Before(a, b)
  {
    var k := LexByPosition(ByteLeq, a, b);
    assert FirstDifference(a, b, k);
  }

  /** The sorted items are those of an ascending rearrangement of the keyed items. */
  lemma SortedItemsAscend(keyed: seq<KeyedItem>) returns (order: seq<KeyedItem>)
    ensures multiset(order) == multiset(keyed)
    ensures forall i, j :: 0 <= i < j < |order| ==> Ascends(order[i], order[j])
    ensures |order| == |SortedItems(keyed)|
    ensures forall i :: 0 <= i < |order| ==> SortedItems(keyed)[i] == order[i].item
  {
    order := SortBy(KeyedItemLeq, keyed);
    KeyedItemLinear();
    SortBySorts(KeyedItemLeq, keyed);
    forall i, j | 0 <= i < j < |order|
      ensures Ascends(order[i], order[j])
    {
      assert KeyedItemLeq(order[i], order[j]);
      if order[i].key != order[j].key {
        LeqByPosition(order[i].key, order[j].key);
      } else if order[i].item != order[j].item {
        LeqByPosition(order[i].item, order[j].item);
      }
    }
  }

  /** The elements of an unordered collection in the order in which they are written. */
  lemma WrittenInOrder<T>(keyed: T -> KeyedItem, key: T -> seq<byte>, item: T -> seq<byte>, xs: seq<T>)
    returns (order: seq<T>)
    requires forall x :: keyed(x) == KeyedItem(key(x), item(x))
    ensures multiset(order) == multiset(xs) && Ascending(key, item, order)
    ensures SortedItems(Map(keyed, xs)) == Map(item, order)
  {
    hide SortedItems;
    var sorted := SortedItemsAscend(Map(keyed, xs));
    order := RearrangedImages(keyed, xs, sorted);
    assert SortedItems(Map(keyed, xs)) == Map(item, order);
  }

  function OriginOfMethod(method_: ReceiverMethod): seq<byte> {
    PutOriginFunction(method_.origin, [])
  }

  /** Receiver methods stand in the order of their origins. */
  lemma MethodsAscend(methods: seq<ReceiverMethod>, rest: seq<byte>) returns (order: seq<ReceiverMethod>)
    ensures multiset(order) == multiset(methods) && Ascending(OriginOfMethod, MethodItem, order)
    ensures PutMethods(methods, rest) == PutSequence(Map(MethodItem, order), rest)
  {
    order := WrittenInOrder(KeyedMethod, OriginOfMethod, MethodItem, methods);
  }

  /** The incompatibilities of a trait end its bytes, in the order of their own. */
  lemma IncompatibilitiesAscend(requirements: seq<TraitRequirement>, traits: seq<TraitIdentity>, rest: seq<byte>)
    returns (order: seq<TraitIdentity>)
    ensures multiset(order) == multiset(traits) && Ascending(TraitItem, TraitItem, order)
    ensures PutSemantics(TraitDeclaration(requirements, traits), rest)
         == PutU8(5, PutSequence(Map(RequirementItem, requirements), PutSequence(Map(TraitItem, order), rest)))
  {
    order := WrittenInOrder(KeyedTrait, TraitItem, TraitItem, traits);
  }

  function OriginOfRecord(record: DeclarationRecord): seq<byte> {
    PutOriginDeclaration(record.origin, [])
  }

  function IdentityOfEvidence(record: EvidenceRecord): seq<byte> {
    EvidenceIdentityItem(record.identity)
  }

  /** The bytes of a draft list the bindings in the order of their own bytes, the declarations
      in that of their origins and the evidence in that of its identities. */
  lemma DraftAscends(draft: Draft, rest: seq<byte>)
    returns (bindings: seq<ExportBinding>, records: seq<DeclarationRecord>, evidence: seq<EvidenceRecord>)
    ensures multiset(bindings) == multiset(draft.exportBindings)
    ensures Ascending(ExportBindingItem, ExportBindingItem, bindings)
    ensures multiset(records) == multiset(draft.declarations)
    ensures Ascending(OriginOfRecord, DeclarationItem, records)
    ensures multiset(evidence) == multiset(draft.evidence)
    ensures Ascending(IdentityOfEvidence, EvidenceItem, evidence)
    ensures PutDraft(draft, rest)
         == PutHeader(PutModuleOrigin(draft.moduleOrigin,
              PutSequence(Map(ExportBindingItem, bindings),
                PutSequence(Map(DeclarationItem, records),
                  PutSequence(Map(EvidenceItem, evidence), rest)))))
  {
    hide SortedItems, PutHeader, PutModuleOrigin, PutSequence;
    bindings := WrittenInOrder(KeyedBinding, ExportBindingItem, ExportBindingItem, draft.exportBindings);
    records := WrittenInOrder(KeyedDeclaration, OriginOfRecord, DeclarationItem, draft.declarations);
    evidence := WrittenInOrder(KeyedEvidence, IdentityOfEvidence, EvidenceItem, draft.evidence);
  }
}
