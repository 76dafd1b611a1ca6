/** What a successful join keeps: every entry, every receiver method, and the binding order. */
module DraftConservation {
  import opened Sorting
  import opened Identities
  import opened InterfaceDraft
  import opened FoldedValues
  import opened DraftJoin

  // ---------------------------------------------------------------- one record per origin

  function RecordOrigin(record: DeclarationRecord): OriginDeclaration {
    record.origin
  }

  /** Records follow their origins' first bindings: an earlier record's origin is bound before
      any binding of a later one. */
  lemma {:induction false} RecordsFollowBindings(origins: seq<OriginDeclaration>, i: nat, j: nat)
    requires i < j < |FirstOccurrences(origins)|
    ensures
      var r := FirstOccurrences(origins);
      exists p :: 0 <= p < |origins| && origins[p] == r[i] && r[j] !in origins[..p + 1]
  {
    var all := FirstOccurrences(origins);
    var before, last := origins[..|origins| - 1], origins[|origins| - 1];
    var earlier := FirstOccurrences(before);
    if j < |earlier| {
      RecordsFollowBindings(before, i, j);
      var p :| 0 <= p < |before| && before[p] == earlier[i] && earlier[j] !in before[..p + 1];
      assert before[..p + 1] == origins[..p + 1];
    } else {
      assert earlier[i] in before;
      var p :| 0 <= p < |before| && before[p] == earlier[i];
      assert last !in before && forall x :: x in origins[..p + 1] ==> x in before;
    }
  }

  // ---------------------------------------------------------------- every entry once

  function FunctionEntryOrigin(e: FunctionSurface): OriginDeclaration { FunctionOrigin(e.origin) }
  function NominalEntryOrigin(e: NominalSurface): OriginDeclaration { TypeOrigin(e.origin) }
  function AliasEntryOrigin(e: AliasSurface): OriginDeclaration { TypeOrigin(e.origin) }
  function ConstantEntryOrigin(e: ConstantSurface): OriginDeclaration { ConstantOrigin(e.origin) }
  function TraitEntryOrigin(e: TraitSurface): OriginDeclaration { TraitOrigin(e.origin) }

  /** The origins of all entries of all surfaces. */
  function EntryOrigins(s: Surfaces): seq<OriginDeclaration> {
    Map(FunctionEntryOrigin, s.functions) + Map(NominalEntryOrigin, s.nominals) + Map(AliasEntryOrigin, s.aliases)
    + Map(ConstantEntryOrigin, s.constants) + Map(TraitEntryOrigin, s.traits)
  }

  lemma EntriesDistinct(origins: set<OriginDeclaration>, s: Surfaces)
    requires Distinct(s) && NothingLeft(origins, s)
    ensures NoRepeats(EntryOrigins(s))
  {
    var functions := Map(FunctionEntryOrigin, s.functions);
    var nominals := Map(NominalEntryOrigin, s.nominals);
    var aliases := Map(AliasEntryOrigin, s.aliases);
    var constants := Map(ConstantEntryOrigin, s.constants);
    var traits := Map(TraitEntryOrigin, s.traits);
    assert NoRepeats(functions) && NoRepeats(nominals) && NoRepeats(aliases);
    assert NoRepeats(constants) && NoRepeats(traits);
    assert forall o :: o in functions ==> o.FunctionOrigin?;
    assert forall o :: o in nominals ==> o.TypeOrigin? && !o.type_.category.AliasCategory?;
    assert forall o :: o in aliases ==> o.TypeOrigin? && o.type_.category.AliasCategory?;
    assert forall o :: o in constants ==> o.ConstantOrigin?;
    assert forall o :: o in traits ==> o.TraitOrigin?;
    Appended(functions, nominals);
    Appended(functions + nominals, aliases);
    Appended(functions + nominals + aliases, constants);
    Appended(functions + nominals + aliases + constants, traits);
  }

  /** An origin that joins has an entry. */
  lemma JoinedHasEntry(origin: OriginDeclaration, s: Surfaces)
    requires SemanticsFor(origin, s).Some?
    ensures origin in EntryOrigins(s)
  {
    match origin {
      case FunctionOrigin(f) =>
        var i :| 0 <= i < |s.functions| && s.functions[i] == Find(s.functions, FunctionKey, f).value;
        assert Map(FunctionEntryOrigin, s.functions)[i] == origin;
      case TypeOrigin(t) =>
        if t.category.AliasCategory? {
          var i :| 0 <= i < |s.aliases| && s.aliases[i] == Find(s.aliases, AliasKey, t).value;
          assert Map(AliasEntryOrigin, s.aliases)[i] == origin;
        } else {
          var i :| 0 <= i < |s.nominals| && s.nominals[i] == Find(s.nominals, NominalKey, t).value;
          assert Map(NominalEntryOrigin, s.nominals)[i] == origin;
        }
      case ConstantOrigin(c) =>
        var i :| 0 <= i < |s.constants| && s.constants[i] == Find(s.constants, ConstantKey, c).value;
        assert Map(ConstantEntryOrigin, s.constants)[i] == origin;
      case TraitOrigin(t) =>
        var i :| 0 <= i < |s.traits| && s.traits[i] == Find(s.traits, TraitKey, t).value;
        assert Map(TraitEntryOrigin, s.traits)[i] == origin;
    }
  }

  /** Entries and records correspond one to one: the origins of the records are the origins of
      the entries, each once. So there are as many records as entries. */
  lemma EveryEntryOnce(bindings: seq<ExportBinding>, s: Surfaces)
    requires Joinable(bindings, s)
    ensures
      var records := RecordsFor(FirstOccurrences(OriginsOf(bindings)), s);
      && multiset(Map(RecordOrigin, records)) == multiset(EntryOrigins(s))
      && |records|
         == |s.functions| + |s.nominals| + |s.aliases| + |s.constants| + |s.traits|
  {
    hide SemanticsFor, PathsApart;
    var origins := FirstOccurrences(OriginsOf(bindings));
    var records := RecordsFor(origins, s);
    assert Map(RecordOrigin, records) == origins;
    EntriesDistinct(SetOf(origins), s);
    forall o
      ensures o in origins <==> o in EntryOrigins(s)
    {
      if o in origins {
        var i :| 0 <= i < |origins| && origins[i] == o;
        JoinedHasEntry(origins[i], s);
      }
      if o in EntryOrigins(s) {
        EntriesAreBound(SetOf(origins), s, o);
      }
    }
    SameDistinctElements(origins, EntryOrigins(s));
    assert |multiset(origins)| == |multiset(EntryOrigins(s))|;
  }

  lemma EntriesAreBound(origins: set<OriginDeclaration>, s: Surfaces, o: OriginDeclaration)
    requires NothingLeft(origins, s) && o in EntryOrigins(s)
    ensures o in origins
  {
  }

  // ---------------------------------------------------------------- every method once

  function MethodsOfRecord(record: DeclarationRecord): seq<ReceiverMethod> {
    match record.semantics
    case StructDeclaration(_, _, methods) => methods
    case ChoiceDeclaration(_, _, methods) => methods
    case _ => []
  }

  function MethodsOfRecords(records: seq<DeclarationRecord>): seq<ReceiverMethod> {
    if records == [] then [] else MethodsOfRecord(records[0]) + MethodsOfRecords(records[1..])
  }

  /** The methods under each of some origins, in turn. */
  function MethodsUnder(origins: seq<OriginDeclaration>, methods: seq<MethodSurface>): seq<MethodSurface> {
    if origins == [] then []
    else MethodsUnderOne(origins[0], methods) + MethodsUnder(origins[1..], methods)
  }

  function MethodsUnderOne(origin: OriginDeclaration, methods: seq<MethodSurface>): seq<MethodSurface> {
    if origin.TypeOrigin? && !origin.type_.category.AliasCategory? then MethodsOf(methods, origin.type_) else []
  }

  lemma RecordCarriesMethods(origin: OriginDeclaration, s: Surfaces)
    requires SemanticsFor(origin, s).Some?
    ensures MethodsOfRecord(DeclarationRecord(origin, SemanticsFor(origin, s).value))
         == Map(MethodRecord, MethodsUnderOne(origin, s.methods))
  {
    hide Find, MethodsOf;
  }

  lemma {:induction false} RecordsCarryMethods(origins: seq<OriginDeclaration>, s: Surfaces)
    requires AllJoin(origins, s)
    ensures MethodsOfRecords(RecordsFor(origins, s)) == Map(MethodRecord, MethodsUnder(origins, s.methods))
  {
    hide SemanticsFor, MethodsOfRecord, MethodsUnderOne;
    if origins != [] {
      var records := RecordsFor(origins, s);
      assert records[1..] == RecordsFor(origins[1..], s);
      RecordsCarryMethods(origins[1..], s);
      RecordCarriesMethods(origins[0], s);
    }
  }

  lemma {:induction false} MethodsOfCounts(methods: seq<MethodSurface>, receiver: OriginType, m: MethodSurface)
    ensures multiset(MethodsOf(methods, receiver))[m] == if m.receiver == receiver then multiset(methods)[m] else 0
  {
    if methods != [] {
      var before, last := methods[..|methods| - 1], methods[|methods| - 1];
      assert methods == before + [last];
      MethodsOfCounts(before, receiver, m);
    }
  }

  lemma {:induction false} MethodsUnderCounts(
    origins: seq<OriginDeclaration>, methods: seq<MethodSurface>, m: MethodSurface)
    requires NoRepeats(origins) && !m.receiver.category.AliasCategory?
    ensures multiset(MethodsUnder(origins, methods))[m]
         == if TypeOrigin(m.receiver) in origins then multiset(methods)[m] else 0
  {
    hide MethodsOf;
    if origins != [] {
      assert origins == [origins[0]] + origins[1..];
      assert forall i :: 0 <= i < |origins[1..]| ==> origins[1..][i] == origins[i + 1];
      MethodsUnderCounts(origins[1..], methods, m);
      if origins[0].TypeOrigin? {
        MethodsOfCounts(methods, origins[0].type_, m);
      }
    }
  }

  /** The records together carry every receiver method of the surface exactly once. */
  lemma EveryMethodOnce(bindings: seq<ExportBinding>, s: Surfaces)
    requires Joinable(bindings, s)
    ensures multiset(MethodsOfRecords(RecordsFor(FirstOccurrences(OriginsOf(bindings)), s)))
         == multiset(Map(MethodRecord, s.methods))
  {
    hide SemanticsFor, PathsApart, MethodsOf;
    var origins := FirstOccurrences(OriginsOf(bindings));
    RecordsCarryMethods(origins, s);
    forall m
      ensures multiset(MethodsUnder(origins, s.methods))[m] == multiset(s.methods)[m]
    {
      if m.receiver.category.AliasCategory? {
        assert m !in s.methods;
        NoAliasMethods(origins, s.methods, m);
      } else {
        MethodsUnderCounts(origins, s.methods, m);
      }
    }
    SameImagesOfSame(MethodRecord, MethodsUnder(origins, s.methods), s.methods);
  }

  lemma {:induction false} NoAliasMethods(
    origins: seq<OriginDeclaration>, methods: seq<MethodSurface>, m: MethodSurface)
    requires m !in methods
    ensures m !in MethodsUnder(origins, methods)
  {
    if origins != [] {
      NoAliasMethods(origins[1..], methods, m);
    }
  }

  lemma MethodsOfSemantics(origin: OriginDeclaration, s: Surfaces)
    requires SemanticsFor(origin, s).Some?
    ensures
      var methods := MethodsOfRecord(DeclarationRecord(origin, SemanticsFor(origin, s).value));
      methods != [] ==> origin.TypeOrigin? && methods == Map(MethodRecord, MethodsOf(s.methods, origin.type_))
  {
    hide Find, MethodsOf, Folded;
  }

  /** Each record carries the methods of its own receiver, in the order of the surface. */
  lemma MethodsStayWithReceiver(bindings: seq<ExportBinding>, s: Surfaces, i: nat, j: nat, k: nat)
    requires Joinable(bindings, s)
    requires i < |FirstOccurrences(OriginsOf(bindings))|
    requires j < k < |MethodsOfRecord(RecordsFor(FirstOccurrences(OriginsOf(bindings)), s)[i])|
    ensures
      var record := RecordsFor(FirstOccurrences(OriginsOf(bindings)), s)[i];
      exists a, b :: 0 <= a < b < |s.methods| && MethodAt(record, j, s.methods[a]) && MethodAt(record, k, s.methods[b])
  {
    hide SemanticsFor, MethodsOf, FirstOccurrences, Distinct, PathsApart, NothingLeft, MethodsOfRecord;
    var origins := FirstOccurrences(OriginsOf(bindings));
    var record := RecordsFor(origins, s)[i];
    assert SemanticsFor(origins[i], s).Some?;
    MethodsOfSemantics(origins[i], s);
    var t := origins[i].type_;
    var a, b := PlacesOf(s.methods, t, j, k);
    assert MethodAt(record, j, s.methods[a]) && MethodAt(record, k, s.methods[b]);
  }

  ghost predicate MethodAt(record: DeclarationRecord, j: nat, m: MethodSurface) {
    && record.origin == TypeOrigin(m.receiver)
    && j < |MethodsOfRecord(record)| && MethodsOfRecord(record)[j] == MethodRecord(m)
  }

  lemma {:induction false} PlacesOf(methods: seq<MethodSurface>, t: OriginType, j: nat, k: nat)
    returns (a: nat, b: nat)
    requires j < k < |MethodsOf(methods, t)|
    ensures a < b < |methods|
    ensures methods[a] == MethodsOf(methods, t)[j] && methods[b] == MethodsOf(methods, t)[k]
  {
    var before := methods[..|methods| - 1];
    var earlier, all := MethodsOf(before, t), MethodsOf(methods, t);
    assert j < |earlier| && earlier[j] == all[j];
    if k < |earlier| {
      a, b := PlacesOf(before, t, j, k);
    } else {
      hide MethodsOf;
      b := |methods| - 1;
      assert earlier[j] in before;
      a :| 0 <= a < |before| && before[a] == earlier[j];
    }
  }
}
