/** What a joined draft says, field by field, and when there is one. */
module DraftContents {
  import opened Wrappers
  import opened Sorting
  import opened Bytes
  import opened Identities
  import opened InterfaceDraft
  import opened FoldedValues
  import opened FoldedContents
  import opened DraftJoin

  function Records(bindings: seq<ExportBinding>, s: Surfaces): seq<DeclarationRecord>
    requires Joinable(bindings, s)
  {
    RecordsFor(FirstOccurrences(OriginsOf(bindings)), s)
  }

  lemma {:induction false} FindOnly<K, V>(entries: seq<V>, key: V -> K, e: V)
    requires e in entries && DistinctKeys(entries, key)
    ensures Find(entries, key, key(e)) == Some(e)
  {
    if entries[0] != e {
      assert entries == [entries[0]] + entries[1..];
      var i :| 0 <= i < |entries| && entries[i] == e;
      assert key(entries[0]) != key(entries[i]);
      assert forall j :: 0 <= j < |entries[1..]| ==> entries[1..][j] == entries[j + 1];
      FindOnly(entries[1..], key, e);
    }
  }

  lemma FindAny<K, V>(entries: seq<V>, key: V -> K, k: K)
    ensures Find(entries, key, k).Some? <==> exists e :: e in entries && key(e) == k
  {
    if e :| e in entries && key(e) == k {
      var i :| 0 <= i < |entries| && entries[i] == e;
    }
  }

  // ---------------------------------------------------------------- when there is a draft

  /** The module constant at the entry's defining path can be folded. */
  predicate DefinedBy(e: ConstantSurface, m: ModuleConstant, s: Surfaces) {
    m in s.moduleConstants && m.path == e.definingPath && Foldable(m.value, s.folding)
  }

  /** The surfaces hold the one entry this origin needs, of the right shape, and a constant's
      defining path has a foldable expression. */
  ghost predicate HasFacts(origin: OriginDeclaration, s: Surfaces) {
    match origin
    case FunctionOrigin(f) => exists e :: e in s.functions && e.origin == f
    case TypeOrigin(t) =>
      (match t.category
       case StructCategory => exists e :: e in s.nominals && e.origin == t && e.variants == []
       case ChoiceCategory => exists e :: e in s.nominals && e.origin == t && e.fields == []
       case AliasCategory => exists e :: e in s.aliases && e.origin == t)
    case ConstantOrigin(c) => exists e, m :: e in s.constants && e.origin == c && DefinedBy(e, m, s)
    case TraitOrigin(t) => exists e :: e in s.traits && e.origin == t
  }

  lemma HasFactsExactly(origin: OriginDeclaration, s: Surfaces)
    requires Distinct(s)
    ensures SemanticsFor(origin, s).Some? <==> HasFacts(origin, s)
  {
    hide MethodsOf, Folded, Foldable, Find;
    match origin {
      case FunctionOrigin(f) => FindAny(s.functions, FunctionKey, f);
      case TypeOrigin(t) =>
        FindAny(s.aliases, AliasKey, t);
        FindAny(s.nominals, NominalKey, t);
        forall e | e in s.nominals && e.origin == t
          ensures Find(s.nominals, NominalKey, t) == Some(e)
        {
          FindOnly(s.nominals, NominalKey, e);
        }
      case ConstantOrigin(c) =>
        ConstantFactsExactly(c, s);
      case TraitOrigin(t) => FindAny(s.traits, TraitKey, t);
    }
  }

  lemma ConstantFactsExactly(c: OriginConstant, s: Surfaces)
    requires Distinct(s)
    ensures SemanticsFor(ConstantOrigin(c), s).Some? <==> HasFacts(ConstantOrigin(c), s)
  {
    hide Folded, Foldable, Find, DistinctKeys;
    if SemanticsFor(ConstantOrigin(c), s).Some? {
      var e := Find(s.constants, ConstantKey, c).value;
      var m := Find(s.moduleConstants, PathKey, e.definingPath).value;
      FoldsExactly(m.value, s.folding);
      assert DefinedBy(e, m, s);
    }
    if e, m :| e in s.constants && e.origin == c && DefinedBy(e, m, s) {
      FindOnly(s.constants, ConstantKey, e);
      FindOnly(s.moduleConstants, PathKey, m);
      FoldsExactly(m.value, s.folding);
    }
  }

  /** Different constants are defined at different paths. */
  predicate ConstantsApart(s: Surfaces) {
    forall i, j :: 0 <= i < j < |s.constants| ==> s.constants[i].definingPath != s.constants[j].definingPath
  }

  predicate IsExported(bindings: seq<ExportBinding>, origin: OriginDeclaration) {
    exists i :: 0 <= i < |bindings| && bindings[i].origin == origin
  }

  /** Every entry belongs to an exported origin of its kind, every method to an exported type. */
  ghost predicate AllExported(bindings: seq<ExportBinding>, s: Surfaces) {
    && (forall e :: e in s.functions ==> IsExported(bindings, FunctionOrigin(e.origin)))
    && (forall e :: e in s.nominals ==>
        IsExported(bindings, TypeOrigin(e.origin)) && !e.origin.category.AliasCategory?)
    && (forall e :: e in s.aliases ==>
        IsExported(bindings, TypeOrigin(e.origin)) && e.origin.category.AliasCategory?)
    && (forall e :: e in s.constants ==> IsExported(bindings, ConstantOrigin(e.origin)))
    && (forall e :: e in s.traits ==> IsExported(bindings, TraitOrigin(e.origin)))
    && (forall m :: m in s.methods ==>
        IsExported(bindings, TypeOrigin(m.receiver)) && !m.receiver.category.AliasCategory?)
  }

  /** No key occurs twice in any surface. */
  predicate NoDuplicates(s: Surfaces) {
    && (forall i, j :: 0 <= i < j < |s.functions| ==> s.functions[i].origin != s.functions[j].origin)
    && (forall i, j :: 0 <= i < j < |s.nominals| ==> s.nominals[i].origin != s.nominals[j].origin)
    && (forall i, j :: 0 <= i < j < |s.aliases| ==> s.aliases[i].origin != s.aliases[j].origin)
    && (forall i, j :: 0 <= i < j < |s.constants| ==> s.constants[i].origin != s.constants[j].origin)
    && (forall i, j :: 0 <= i < j < |s.traits| ==> s.traits[i].origin != s.traits[j].origin)
    && (forall i, j :: 0 <= i < j < |s.methods| ==> s.methods[i].origin != s.methods[j].origin)
    && (forall i, j :: 0 <= i < j < |s.moduleConstants| ==> s.moduleConstants[i].path != s.moduleConstants[j].path)
  }

  lemma ExportedIsOrigin(bindings: seq<ExportBinding>, o: OriginDeclaration)
    ensures IsExported(bindings, o) <==> o in SetOf(FirstOccurrences(OriginsOf(bindings)))
  {
    if IsExported(bindings, o) {
      var i :| 0 <= i < |bindings| && bindings[i].origin == o;
      assert OriginsOf(bindings)[i] == o;
    }
    if o in OriginsOf(bindings) {
      var i :| 0 <= i < |bindings| && OriginsOf(bindings)[i] == o;
      assert bindings[i].origin == o;
    }
  }

  lemma ExportedExactly(bindings: seq<ExportBinding>, s: Surfaces)
    ensures NothingLeft(SetOf(FirstOccurrences(OriginsOf(bindings))), s) <==> AllExported(bindings, s)
  {
    hide SetOf, FirstOccurrences, OriginsOf, IsExported;
    forall o
      ensures IsExported(bindings, o) <==> o in SetOf(FirstOccurrences(OriginsOf(bindings)))
    {
      ExportedIsOrigin(bindings, o);
    }
  }

  lemma JoinExactly(bindings: seq<ExportBinding>, s: Surfaces)
    requires Distinct(s)
    ensures AllJoin(FirstOccurrences(OriginsOf(bindings)), s)
       <==> forall i :: 0 <= i < |bindings| ==> HasFacts(bindings[i].origin, s)
  {
    hide SemanticsFor, HasFacts, Distinct;
    var origins := FirstOccurrences(OriginsOf(bindings));
    forall o
      ensures SemanticsFor(o, s).Some? <==> HasFacts(o, s)
    {
      HasFactsExactly(o, s);
    }
    if AllJoin(origins, s) {
      forall i | 0 <= i < |bindings|
        ensures HasFacts(bindings[i].origin, s)
      {
        assert OriginsOf(bindings)[i] in origins;
        var k :| 0 <= k < |origins| && origins[k] == bindings[i].origin;
      }
    } else {
      var k :| 0 <= k < |origins| && SemanticsFor(origins[k], s).None?;
      assert origins[k] in OriginsOf(bindings);
      var i :| 0 <= i < |bindings| && OriginsOf(bindings)[i] == origins[k];
      assert !HasFacts(bindings[i].origin, s);
    }
  }

  /** The entry of a constant that was seen takes its path. */
  lemma PathTaken(origins: set<OriginDeclaration>, s: Surfaces, e: ConstantSurface)
    requires Distinct(s) && e in s.constants && ConstantOrigin(e.origin) in origins
    ensures e.definingPath in PathsIn(origins, s)
  {
    hide Find, DistinctKeys;
    FindOnly(s.constants, ConstantKey, e);
    var o := ConstantOrigin(e.origin);
    assert Find(s.constants, ConstantKey, o.constant) == Some(e);
  }

  lemma TakenBy(origins: set<OriginDeclaration>, s: Surfaces, path: Path) returns (e: ConstantSurface)
    requires path in PathsIn(origins, s)
    ensures e in s.constants && e.definingPath == path && ConstantOrigin(e.origin) in origins
  {
    var o :| o in origins && o.ConstantOrigin? && Find(s.constants, ConstantKey, o.constant).Some?
      && Find(s.constants, ConstantKey, o.constant).value.definingPath == path;
    e := Find(s.constants, ConstantKey, o.constant).value;
  }

  lemma PathsApartExactly(origins: seq<OriginDeclaration>, s: Surfaces)
    requires Distinct(s) && NoRepeats(origins)
    requires forall e :: e in s.constants ==> ConstantOrigin(e.origin) in origins
    ensures PathsApart(origins, s) <==> ConstantsApart(s)
  {
    hide Find, PathsIn, SetOf, PathFree, Distinct;
    if PathsApart(origins, s) {
      forall i, j | 0 <= i < j < |s.constants|
        ensures s.constants[i].definingPath != s.constants[j].definingPath
      {
        assert s.constants[i] in s.constants && s.constants[j] in s.constants;
        var p :| 0 <= p < |origins| && origins[p] == ConstantOrigin(s.constants[i].origin);
        var q :| 0 <= q < |origins| && origins[q] == ConstantOrigin(s.constants[j].origin);
        assert p != q by {
          OriginsDiffer(s, i, j);
        }
        if p < q {
          PathsDiffer(origins, s, p, q, s.constants[i], s.constants[j]);
        } else {
          PathsDiffer(origins, s, q, p, s.constants[j], s.constants[i]);
        }
      }
    }
    if ConstantsApart(s) {
      forall q | 0 <= q < |origins|
        ensures PathFree(origins[q], s, SetOf(origins[..q]))
      {
        ApartIsFree(origins, s, q);
      }
    }
  }

  lemma OriginsDiffer(s: Surfaces, i: nat, j: nat)
    requires Distinct(s) && i < j < |s.constants|
    ensures s.constants[i].origin != s.constants[j].origin
  {
    assert ConstantKey(s.constants[i]) != ConstantKey(s.constants[j]);
  }

  lemma PathsDiffer(
    origins: seq<OriginDeclaration>, s: Surfaces, p: nat, q: nat, a: ConstantSurface, b: ConstantSurface)
    requires Distinct(s) && PathsApart(origins, s) && p < q < |origins| && a in s.constants && b in s.constants
    requires origins[p] == ConstantOrigin(a.origin) && origins[q] == ConstantOrigin(b.origin)
    ensures a.definingPath != b.definingPath
  {
    hide Find, PathsIn, DistinctKeys;
    assert PathFree(origins[q], s, SetOf(origins[..q]));
    FindOnly(s.constants, ConstantKey, b);
    assert origins[..q][p] == origins[p];
    PathTaken(SetOf(origins[..q]), s, a);
  }

  lemma ApartOnce(s: Surfaces, a: ConstantSurface, b: ConstantSurface)
    requires ConstantsApart(s) && a in s.constants && b in s.constants && a.definingPath == b.definingPath
    ensures a == b
  {
    var i :| 0 <= i < |s.constants| && s.constants[i] == a;
    var j :| 0 <= j < |s.constants| && s.constants[j] == b;
    assert i == j;
  }

  lemma NotAmongEarlier(origins: seq<OriginDeclaration>, q: nat)
    requires NoRepeats(origins) && q < |origins|
    ensures origins[q] !in SetOf(origins[..q])
  {
  }

  lemma ApartIsFree(origins: seq<OriginDeclaration>, s: Surfaces, q: nat)
    requires ConstantsApart(s) && NoRepeats(origins) && q < |origins|
    ensures PathFree(origins[q], s, SetOf(origins[..q]))
  {
    hide Find, PathsIn;
    NotAmongEarlier(origins, q);
    if !PathFree(origins[q], s, SetOf(origins[..q])) {
      var b := Find(s.constants, ConstantKey, origins[q].constant).value;
      var a := TakenBy(SetOf(origins[..q]), s, b.definingPath);
      ApartOnce(s, a, b);
    }
  }

  lemma NoDuplicatesExactly(s: Surfaces)
    ensures Distinct(s) <==> NoDuplicates(s)
  {
  }

  /** The join succeeds exactly when no surface repeats a key, every exported origin has its
      facts, constants are defined apart, and nothing else is on the surfaces. */
  lemma JoinsExactly(bindings: seq<ExportBinding>, s: Surfaces)
    ensures Joinable(bindings, s) <==>
      && NoDuplicates(s)
      && (forall i :: 0 <= i < |bindings| ==> HasFacts(bindings[i].origin, s))
      && ConstantsApart(s)
      && AllExported(bindings, s)
  {
    hide SemanticsFor, HasFacts, Distinct, NoDuplicates, PathsApart, ConstantsApart, IsExported;
    hide AllJoin, OriginsOf, FirstOccurrences;
    NoDuplicatesExactly(s);
    var origins := FirstOccurrences(OriginsOf(bindings));
    ExportedExactly(bindings, s);
    if Distinct(s) && NothingLeft(SetOf(origins), s) {
      JoinExactly(bindings, s);
      PathsApartExactly(origins, s);
    }
  }

  // ---------------------------------------------------------------- what a record holds

  /** The one record of an exported origin. */
  lemma RecordOf(bindings: seq<ExportBinding>, s: Surfaces, origin: OriginDeclaration) returns (i: nat)
    requires Joinable(bindings, s) && origin in SetOf(FirstOccurrences(OriginsOf(bindings)))
    ensures i < |Records(bindings, s)| && SemanticsFor(origin, s).Some?
    ensures Records(bindings, s)[i] == DeclarationRecord(origin, SemanticsFor(origin, s).value)
  {
    hide SemanticsFor, FirstOccurrences, Distinct, NothingLeft, PathsApart;
    var origins := FirstOccurrences(OriginsOf(bindings));
    i :| 0 <= i < |origins| && origins[i] == origin;
  }

  lemma FunctionHolds(bindings: seq<ExportBinding>, s: Surfaces, e: FunctionSurface) returns (i: nat)
    requires Joinable(bindings, s) && e in s.functions
    ensures i < |Records(bindings, s)| && Records(bindings, s)[i].origin == FunctionOrigin(e.origin)
    ensures Records(bindings, s)[i].semantics.FunctionDeclaration?
    ensures var f := Records(bindings, s)[i].semantics.function_;
      && f.parameters == e.parameters && f.returnSlots == e.returnSlots && f.errorReturn == e.errorReturn
      && (f.genericTemplate == None <==> e.genericParameters == [])
      && (e.genericParameters != [] ==> f.genericTemplate == Some(e.genericParameters))
      && (if e.genericParameters == [] then f.callSummary == PendingLocal else f.callSummary == PendingGenerated)
  {
    hide FirstOccurrences, DistinctKeys, PathsApart, AllJoin, Find;
    FindOnly(s.functions, FunctionKey, e);
    i := RecordOf(bindings, s, FunctionOrigin(e.origin));
  }

  lemma AliasHolds(bindings: seq<ExportBinding>, s: Surfaces, e: AliasSurface) returns (i: nat)
    requires Joinable(bindings, s) && e in s.aliases
    ensures i < |Records(bindings, s)|
    ensures Records(bindings, s)[i] == DeclarationRecord(TypeOrigin(e.origin), AliasDeclaration(e.target))
  {
    hide FirstOccurrences, DistinctKeys, PathsApart, AllJoin, Find;
    FindOnly(s.aliases, AliasKey, e);
    i := RecordOf(bindings, s, TypeOrigin(e.origin));
  }

  lemma TraitHolds(bindings: seq<ExportBinding>, s: Surfaces, e: TraitSurface) returns (i: nat)
    requires Joinable(bindings, s) && e in s.traits
    ensures i < |Records(bindings, s)|
    ensures Records(bindings, s)[i]
         == DeclarationRecord(TraitOrigin(e.origin), TraitDeclaration(e.requirements, e.incompatibilities))
  {
    hide FirstOccurrences, DistinctKeys, PathsApart, AllJoin, Find;
    FindOnly(s.traits, TraitKey, e);
    i := RecordOf(bindings, s, TraitOrigin(e.origin));
  }

  /** A constant's record holds its type and, place by place, the expression at its path. */
  lemma ConstantHolds(bindings: seq<ExportBinding>, s: Surfaces, e: ConstantSurface, m: ModuleConstant)
    returns (i: nat)
    requires Joinable(bindings, s) && e in s.constants && m in s.moduleConstants && m.path == e.definingPath
    ensures i < |Records(bindings, s)| && Records(bindings, s)[i].origin == ConstantOrigin(e.origin)
    ensures Records(bindings, s)[i].semantics.ConstantDeclaration?
    ensures Records(bindings, s)[i].semantics.constantType == e.typeIdentity
    ensures SameContents(m.value, Records(bindings, s)[i].semantics.value, s.folding)
  {
    hide FirstOccurrences, DistinctKeys, PathsApart, AllJoin, Find, Folded, SameContents;
    FindOnly(s.constants, ConstantKey, e);
    FindOnly(s.moduleConstants, PathKey, m);
    i := RecordOf(bindings, s, ConstantOrigin(e.origin));
    FoldedIsSame(m.value, s.folding);
  }

  // ---------------------------------------------------------------- nominal types and their methods

  /** Every field of a joined method is the surface's, and its summary is still to come. */
  predicate SameMethod(r: ReceiverMethod, m: MethodSurface) {
    && r.origin == m.origin && r.genericTemplate == m.genericTemplate
    && r.parameters == m.parameters && r.returnSlots == m.returnSlots && r.errorReturn == m.errorReturn
    && (if m.genericTemplate then r.callSummary == PendingGenerated else r.callSummary == PendingLocal)
  }

  /** The methods are those the surface lists under the receiver, all of them and in its order. */
  ghost predicate CarriesMethods(carried: seq<ReceiverMethod>, methods: seq<MethodSurface>, t: OriginType) {
    exists at: seq<nat> :: MethodsAt(carried, methods, t, at)
  }

  predicate MethodsAt(carried: seq<ReceiverMethod>, methods: seq<MethodSurface>, t: OriginType, at: seq<nat>) {
    && Increasing(at) && |at| == |carried|
    && (forall i :: i in at ==> i < |methods| && methods[i].receiver == t)
    && (forall i :: 0 <= i < |methods| && methods[i].receiver == t ==> i in at)
    && (forall k :: 0 <= k < |at| ==> at[k] < |methods| && SameMethod(carried[k], methods[at[k]]))
  }

  lemma {:induction false} MethodPlaces(methods: seq<MethodSurface>, t: OriginType) returns (at: seq<nat>)
    ensures MethodsAt(Map(MethodRecord, MethodsOf(methods, t)), methods, t, at)
  {
    hide MethodsAt;
    if methods == [] {
      at := [];
      NoPlaces(t);
    } else {
      var last := |methods| - 1;
      var before := MethodPlaces(methods[..last], t);
      var group := MethodsOf(methods[..last], t);
      assert methods == methods[..last] + [methods[last]];
      if methods[last].receiver == t {
        at := before + [last];
        MapLast(MethodRecord, group, methods[last]);
        OneMorePlace(Map(MethodRecord, group), methods[..last], methods[last], t, before);
      } else {
        at := before;
        SamePlaces(Map(MethodRecord, group), methods[..last], methods[last], t, before);
      }
    }
  }

  lemma NoPlaces(t: OriginType)
    ensures MethodsAt([], [], t, [])
  {
  }

  lemma OneMorePlace(
    carried: seq<ReceiverMethod>, methods: seq<MethodSurface>, last: MethodSurface, t: OriginType, at: seq<nat>)
    requires MethodsAt(carried, methods, t, at) && last.receiver == t
    ensures MethodsAt(carried + [MethodRecord(last)], methods + [last], t, at + [|methods|])
  {
    assert forall k :: 0 <= k < |at| ==> at[k] in at;
    assert (at + [|methods|])[|at|] == |methods|;
    assert forall i :: i in at ==> i in at + [|methods|];
  }

  lemma SamePlaces(
    carried: seq<ReceiverMethod>, methods: seq<MethodSurface>, last: MethodSurface, t: OriginType, at: seq<nat>)
    requires MethodsAt(carried, methods, t, at) && last.receiver != t
    ensures MethodsAt(carried, methods + [last], t, at)
  {
  }

  lemma CarriedMethods(methods: seq<MethodSurface>, t: OriginType)
    ensures CarriesMethods(Map(MethodRecord, MethodsOf(methods, t)), methods, t)
  {
    var at := MethodPlaces(methods, t);
  }

  /** A struct's record holds its generics, fields and methods, a choice's its generics, variants
      and methods. */
  lemma NominalHolds(bindings: seq<ExportBinding>, s: Surfaces, e: NominalSurface) returns (i: nat)
    requires Joinable(bindings, s) && e in s.nominals
    ensures i < |Records(bindings, s)| && Records(bindings, s)[i].origin == TypeOrigin(e.origin)
    ensures e.origin.category.StructCategory? ==>
      var d := Records(bindings, s)[i].semantics;
      && d.StructDeclaration? && d.structGenerics == e.genericParameters && d.fields == e.fields
      && CarriesMethods(d.structMethods, s.methods, e.origin)
    ensures e.origin.category.ChoiceCategory? ==>
      var d := Records(bindings, s)[i].semantics;
      && d.ChoiceDeclaration? && d.choiceGenerics == e.genericParameters && d.variants == e.variants
      && CarriesMethods(d.choiceMethods, s.methods, e.origin)
    ensures !e.origin.category.AliasCategory?
  {
    hide FirstOccurrences, DistinctKeys, PathsApart, AllJoin, Find, MethodsOf, CarriesMethods;
    FindOnly(s.nominals, NominalKey, e);
    i := RecordOf(bindings, s, TypeOrigin(e.origin));
    CarriedMethods(s.methods, e.origin);
  }
}
