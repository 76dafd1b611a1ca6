/** Joins the public surfaces of a module into one record per exported declaration.

    The join is total: every entry of every surface ends up in exactly one record, every
    receiver method under its own receiver, and it fails exactly when some fact is missing,
    duplicated, left over or of the wrong shape. */
module DraftJoin {
  import opened Wrappers
  import opened Sorting
  import opened Bytes
  import opened Identities
  import opened InterfaceDraft
  import opened FoldedValues

  // ---------------------------------------------------------------- surfaces

  datatype FunctionSurface = FunctionSurface(
    origin: OriginFunction,
    genericParameters: seq<GenericParameterSurface>,
    parameters: seq<ParameterSlot>,
    returnSlots: seq<CanonicalType>,
    errorReturn: Option<CanonicalType>)

  datatype NominalSurface = NominalSurface(
    origin: OriginType,
    genericParameters: seq<GenericParameterSurface>,
    fields: seq<FieldSlot>,
    variants: seq<Variant>)

  datatype AliasSurface = AliasSurface(origin: OriginType, target: CanonicalType)

  datatype ConstantSurface = ConstantSurface(origin: OriginConstant, typeIdentity: CanonicalType, definingPath: Path)

  datatype TraitSurface =
    TraitSurface(origin: OriginTrait, requirements: seq<TraitRequirement>, incompatibilities: seq<TraitIdentity>)

  datatype MethodSurface = MethodSurface(
    receiver: OriginType,
    origin: OriginFunction,
    genericTemplate: bool,
    parameters: seq<ParameterSlot>,
    returnSlots: seq<CanonicalType>,
    errorReturn: Option<CanonicalType>)

  /** A finalized module constant. */
  datatype ModuleConstant = ModuleConstant(path: Path, value: Expression)

  datatype Surfaces = Surfaces(
    functions: seq<FunctionSurface>,
    nominals: seq<NominalSurface>,
    aliases: seq<AliasSurface>,
    constants: seq<ConstantSurface>,
    traits: seq<TraitSurface>,
    methods: seq<MethodSurface>,
    moduleConstants: seq<ModuleConstant>,
    folding: Folding)

  function FunctionKey(entry: FunctionSurface): OriginFunction { entry.origin }
  function NominalKey(entry: NominalSurface): OriginType { entry.origin }
  function AliasKey(entry: AliasSurface): OriginType { entry.origin }
  function ConstantKey(entry: ConstantSurface): OriginConstant { entry.origin }
  function TraitKey(entry: TraitSurface): OriginTrait { entry.origin }
  function MethodKey(entry: MethodSurface): OriginFunction { entry.origin }
  function PathKey(entry: ModuleConstant): Path { entry.path }

  datatype JoinError =
    | DuplicateEntry
    | MissingEntry(origin: OriginDeclaration)
    | WrongShape(origin: OriginDeclaration)
    | MissingModuleConstant(origin: OriginDeclaration)
    | NotFoldable(origin: OriginDeclaration, error: FoldError)
    | Leftover

  // ---------------------------------------------------------------- indexes

  predicate DistinctKeys<K(==), V>(entries: seq<V>, key: V -> K) {
    forall i, j :: 0 <= i < j < |entries| ==> key(entries[i]) != key(entries[j])
  }

  function Find<K(==), V>(entries: seq<V>, key: V -> K, k: K): (r: Option<V>)
    ensures r.Some? ==> r.value in entries && key(r.value) == k
    ensures r.None? ==> forall i :: 0 <= i < |entries| ==> key(entries[i]) != k
  {
    if entries == [] then None
    else if key(entries[0]) == k then Some(entries[0])
    else Find(entries[1..], key, k)
  }

  lemma {:induction false} FindLast<K, V>(entries: seq<V>, last: V, key: V -> K, k: K)
    ensures Find(entries + [last], key, k) ==
        if Find(entries, key, k).Some? then Find(entries, key, k)
        else if key(last) == k then Some(last) else None
  {
    if entries != [] {
      assert (entries + [last])[0] == entries[0] && (entries + [last])[1..] == entries[1..] + [last];
      FindLast(entries[1..], last, key, k);
    }
  }

  /** The index holds every entry but those whose keys were taken. */
  ghost predicate Holds<K(!new), V>(index: map<K, V>, entries: seq<V>, key: V -> K, taken: set<K>) {
    && (forall k :: k in index <==> Find(entries, key, k).Some? && k !in taken)
    && (forall k :: k in index ==> index[k] == Find(entries, key, k).value)
  }

  /** Indexes entries by key; a key that occurs twice is refused. */
  method IndexBy<K(==, !new), V>(entries: seq<V>, key: V -> K) returns (r: Result<map<K, V>, JoinError>)
    ensures r.Success? <==> DistinctKeys(entries, key)
    ensures r.Success? ==> Holds(r.value, entries, key, {})
    ensures r.Failure? ==> r.error == DuplicateEntry
  {
    var index: map<K, V> := map[];
    for i := 0 to |entries|
      invariant DistinctKeys(entries[..i], key)
      invariant Holds(index, entries[..i], key, {})
    {
      assert entries[..i + 1] == entries[..i] + [entries[i]];
      forall k
        ensures Find(entries[..i + 1], key, k) ==
            if Find(entries[..i], key, k).Some? then Find(entries[..i], key, k)
            else if key(entries[i]) == k then Some(entries[i]) else None
      {
        FindLast(entries[..i], entries[i], key, k);
      }
      if key(entries[i]) in index {
        return Failure(DuplicateEntry);
      }
      index := index[key(entries[i]) := entries[i]];
    }
    assert entries[..|entries|] == entries;
    return Success(index);
  }

  function MethodsOf(methods: seq<MethodSurface>, receiver: OriginType): (r: seq<MethodSurface>)
    ensures forall m :: m in r <==> m in methods && m.receiver == receiver
  {
    if methods == [] then []
    else
      var last := methods[|methods| - 1];
      var before := MethodsOf(methods[..|methods| - 1], receiver);
      if last.receiver == receiver then before + [last] else before
  }

  ghost predicate HoldsMethods(
    index: map<OriginType, seq<MethodSurface>>, methods: seq<MethodSurface>, taken: set<OriginType>)
  {
    && (forall r :: r in index <==> MethodsOf(methods, r) != [] && r !in taken)
    && (forall r :: r in index ==> index[r] == MethodsOf(methods, r))
  }

  function Grouped(index: map<OriginType, seq<MethodSurface>>, method_: MethodSurface)
    : map<OriginType, seq<MethodSurface>>
  {
    var group := if method_.receiver in index then index[method_.receiver] else [];
    index[method_.receiver := group + [method_]]
  }

  lemma GroupedHolds(index: map<OriginType, seq<MethodSurface>>, before: seq<MethodSurface>, last: MethodSurface)
    requires HoldsMethods(index, before, {})
    ensures HoldsMethods(Grouped(index, last), before + [last], {})
  {
    assert (before + [last])[..|before|] == before;
  }

  /** Groups methods under their receivers; an origin that occurs twice is refused. */
  method GroupMethods(methods: seq<MethodSurface>) returns (r: Result<map<OriginType, seq<MethodSurface>>, JoinError>)
    ensures r.Success? <==> DistinctKeys(methods, MethodKey)
    ensures r.Success? ==> HoldsMethods(r.value, methods, {})
    ensures r.Failure? ==> r.error == DuplicateEntry
  {
    var index: map<OriginType, seq<MethodSurface>> := map[];
    var seen: set<OriginFunction> := {};
    assert HoldsMethods(index, methods[..0], {});
    for i := 0 to |methods|
      invariant DistinctKeys(methods[..i], MethodKey)
      invariant forall j :: 0 <= j < i ==> methods[j].origin in seen
      invariant forall o :: o in seen ==> exists j :: 0 <= j < i && methods[j].origin == o
      invariant HoldsMethods(index, methods[..i], {})
    {
      hide HoldsMethods, MethodsOf, Grouped;
      if methods[i].origin in seen {
        return Failure(DuplicateEntry);
      }
      seen := seen + {methods[i].origin};
      assert methods[..i + 1] == methods[..i] + [methods[i]];
      GroupedHolds(index, methods[..i], methods[i]);
      index := Grouped(index, methods[i]);
    }
    assert methods[..|methods|] == methods;
    return Success(index);
  }

  // ---------------------------------------------------------------- the record of an origin

  function PendingState(generic: bool): SummaryState {
    if generic then PendingGenerated else PendingLocal
  }

  function MethodRecord(m: MethodSurface): ReceiverMethod {
    ReceiverMethod(
      m.origin, m.genericTemplate, m.parameters, m.returnSlots, m.errorReturn, PendingState(m.genericTemplate))
  }

  function FunctionRecord(f: FunctionSurface): DeclarationSemantics {
    var generic := f.genericParameters != [];
    FunctionDeclaration(FunctionSemantics(
      if generic then Some(f.genericParameters) else None,
      f.parameters, f.returnSlots, f.errorReturn, PendingState(generic)))
  }

  function SemanticsFor(origin: OriginDeclaration, s: Surfaces): Option<DeclarationSemantics> {
    match origin
    case FunctionOrigin(f) =>
      (match Find(s.functions, FunctionKey, f)
       case Some(entry) => Some(FunctionRecord(entry))
       case None => None)
    case TypeOrigin(t) =>
      if t.category.AliasCategory? then
        (match Find(s.aliases, AliasKey, t)
         case Some(entry) => Some(AliasDeclaration(entry.target))
         case None => None)
      else
        (match Find(s.nominals, NominalKey, t)
         case Some(entry) =>
           var methods := Map(MethodRecord, MethodsOf(s.methods, t));
           if t.category.StructCategory? then
             if entry.variants != [] then None
             else Some(StructDeclaration(entry.genericParameters, entry.fields, methods))
           else if entry.fields != [] then None
           else Some(ChoiceDeclaration(entry.genericParameters, entry.variants, methods))
         case None => None)
    case ConstantOrigin(c) =>
      (match Find(s.constants, ConstantKey, c)
       case Some(entry) =>
         var found := Find(s.moduleConstants, PathKey, entry.definingPath);
         if found.Some? && Folded(found.value.value, s.folding).Success?
         then Some(ConstantDeclaration(entry.typeIdentity, Folded(found.value.value, s.folding).value))
         else None
       case None => None)
    case TraitOrigin(t) =>
      (match Find(s.traits, TraitKey, t)
       case Some(entry) => Some(TraitDeclaration(entry.requirements, entry.incompatibilities))
       case None => None)
  }

  // ---------------------------------------------------------------- one binding

  datatype Indexes = Indexes(
    functions: map<OriginFunction, FunctionSurface>,
    nominals: map<OriginType, NominalSurface>,
    aliases: map<OriginType, AliasSurface>,
    constants: map<OriginConstant, ConstantSurface>,
    traits: map<OriginTrait, TraitSurface>,
    methods: map<OriginType, seq<MethodSurface>>,
    paths: map<Path, ModuleConstant>)

  function FunctionsIn(seen: set<OriginDeclaration>): set<OriginFunction> {
    set o | o in seen && o.FunctionOrigin? :: o.function_
  }

  function NominalsIn(seen: set<OriginDeclaration>): set<OriginType> {
    set o | o in seen && o.TypeOrigin? && !o.type_.category.AliasCategory? :: o.type_
  }

  function AliasesIn(seen: set<OriginDeclaration>): set<OriginType> {
    set o | o in seen && o.TypeOrigin? && o.type_.category.AliasCategory? :: o.type_
  }

  function ConstantsIn(seen: set<OriginDeclaration>): set<OriginConstant> {
    set o | o in seen && o.ConstantOrigin? :: o.constant
  }

  function TraitsIn(seen: set<OriginDeclaration>): set<OriginTrait> {
    set o | o in seen && o.TraitOrigin? :: o.trait_
  }

  function PathsIn(seen: set<OriginDeclaration>, s: Surfaces): set<Path> {
    set o | o in seen && o.ConstantOrigin? && Find(s.constants, ConstantKey, o.constant).Some?
      :: Find(s.constants, ConstantKey, o.constant).value.definingPath
  }

  ghost predicate HoldsAll(ix: Indexes, s: Surfaces, seen: set<OriginDeclaration>) {
    && Holds(ix.functions, s.functions, FunctionKey, FunctionsIn(seen))
    && Holds(ix.nominals, s.nominals, NominalKey, NominalsIn(seen))
    && Holds(ix.aliases, s.aliases, AliasKey, AliasesIn(seen))
    && Holds(ix.constants, s.constants, ConstantKey, ConstantsIn(seen))
    && Holds(ix.traits, s.traits, TraitKey, TraitsIn(seen))
    && Holds(ix.paths, s.moduleConstants, PathKey, PathsIn(seen, s))
    && HoldsMethods(ix.methods, s.methods, NominalsIn(seen))
  }

  /** No constant seen so far was defined at the path of this one. */
  predicate PathFree(origin: OriginDeclaration, s: Surfaces, seen: set<OriginDeclaration>) {
    origin.ConstantOrigin? && Find(s.constants, ConstantKey, origin.constant).Some? ==>
      Find(s.constants, ConstantKey, origin.constant).value.definingPath !in PathsIn(seen, s)
  }

  /** Takes one entry out of an index, if it is there. */
  method Take<K(==, !new), V>(index: map<K, V>, k: K, ghost entries: seq<V>, ghost key: V -> K, ghost taken: set<K>)
    returns (found: Option<V>, left: map<K, V>)
    requires Holds(index, entries, key, taken) && k !in taken
    ensures found == Find(entries, key, k)
    ensures Holds(left, entries, key, taken + {k})
  {
    left := index - {k};
    found := if k in index then Some(index[k]) else None;
  }

  /** Joins the first binding of an origin: takes its facts out of the indexes and builds its
      record from them. */
  method JoinBinding(
    origin: OriginDeclaration, ix: Indexes, folding: Folding, ghost s: Surfaces, ghost seen: set<OriginDeclaration>)
    returns (r: Result<DeclarationSemantics, JoinError>, left: Indexes)
    requires folding == s.folding && HoldsAll(ix, s, seen) && origin !in seen
    ensures r.Success? <==> SemanticsFor(origin, s).Some? && PathFree(origin, s, seen)
    ensures r.Success? ==> r.value == SemanticsFor(origin, s).value && HoldsAll(left, s, seen + {origin})
    ensures r.Failure? ==> !r.error.DuplicateEntry? && !r.error.Leftover?
  {
    hide Holds, HoldsMethods, Find, MethodsOf;
    left := ix;
    match origin {
      case FunctionOrigin(f) =>
        var found, functions := Take(ix.functions, f, s.functions, FunctionKey, FunctionsIn(seen));
        SeenFunction(f, s, seen);
        left := left.(functions := functions);
        if found.None? {
          return Failure(MissingEntry(origin)), left;
        }
        return Success(FunctionRecord(found.value)), left;
      case TypeOrigin(t) =>
        if t.category.AliasCategory? {
          var found, aliases := Take(ix.aliases, t, s.aliases, AliasKey, AliasesIn(seen));
          SeenAlias(t, s, seen);
          left := left.(aliases := aliases);
          if found.None? {
            return Failure(MissingEntry(origin)), left;
          }
          return Success(AliasDeclaration(found.value.target)), left;
        }
        r, left := JoinNominal(t, ix, s, seen);
      case ConstantOrigin(c) =>
        r, left := JoinConstant(c, ix, folding, s, seen);
      case TraitOrigin(t) =>
        var found, traits := Take(ix.traits, t, s.traits, TraitKey, TraitsIn(seen));
        SeenTrait(t, s, seen);
        left := left.(traits := traits);
        if found.None? {
          return Failure(MissingEntry(origin)), left;
        }
        return Success(TraitDeclaration(found.value.requirements, found.value.incompatibilities)), left;
    }
  }

  method JoinNominal(t: OriginType, ix: Indexes, ghost s: Surfaces, ghost seen: set<OriginDeclaration>)
    returns (r: Result<DeclarationSemantics, JoinError>, left: Indexes)
    requires HoldsAll(ix, s, seen) && TypeOrigin(t) !in seen && !t.category.AliasCategory?
    ensures r.Success? <==> SemanticsFor(TypeOrigin(t), s).Some?
    ensures r.Success? ==> r.value == SemanticsFor(TypeOrigin(t), s).value
    ensures r.Success? ==> HoldsAll(left, s, seen + {TypeOrigin(t)})
    ensures r.Failure? ==> !r.error.DuplicateEntry? && !r.error.Leftover?
  {
    hide Holds, HoldsMethods, Find, MethodsOf;
    left := ix;
    var found, nominals := Take(ix.nominals, t, s.nominals, NominalKey, NominalsIn(seen));
    if found.None? {
      return Failure(MissingEntry(TypeOrigin(t))), left;
    }
    var nominal := found.value;
    if (t.category.StructCategory? && nominal.variants != []) || (t.category.ChoiceCategory? && nominal.fields != []) {
      return Failure(WrongShape(TypeOrigin(t))), left;
    }
    var surfaces := if t in ix.methods then ix.methods[t] else [];
    TakenMethods(t, ix.methods, s, seen);
    NominalTaken(t, nominals, ix, s, seen);
    hide HoldsAll;
    var methods: seq<ReceiverMethod> := Map(MethodRecord, surfaces);
    left := left.(nominals := nominals, methods := ix.methods - {t});
    if t.category.StructCategory? {
      return Success(StructDeclaration(nominal.genericParameters, nominal.fields, methods)), left;
    }
    return Success(ChoiceDeclaration(nominal.genericParameters, nominal.variants, methods)), left;
  }

  method JoinConstant(
    c: OriginConstant, ix: Indexes, folding: Folding, ghost s: Surfaces, ghost seen: set<OriginDeclaration>)
    returns (r: Result<DeclarationSemantics, JoinError>, left: Indexes)
    requires folding == s.folding && HoldsAll(ix, s, seen) && ConstantOrigin(c) !in seen
    ensures r.Success? <==> SemanticsFor(ConstantOrigin(c), s).Some? && PathFree(ConstantOrigin(c), s, seen)
    ensures r.Success? ==> r.value == SemanticsFor(ConstantOrigin(c), s).value
    ensures r.Success? ==> HoldsAll(left, s, seen + {ConstantOrigin(c)})
    ensures r.Failure? ==> !r.error.DuplicateEntry? && !r.error.Leftover?
  {
    hide HoldsMethods, Find, MethodsOf, Folded;
    left := ix;
    var origin := ConstantOrigin(c);
    var found, constants := Take(ix.constants, c, s.constants, ConstantKey, ConstantsIn(seen));
    if found.None? {
      return Failure(MissingEntry(origin)), left;
    }
    var path := found.value.definingPath;
    if path !in ix.paths {
      return Failure(MissingModuleConstant(origin)), left;
    }
    var declaration, paths := Take(ix.paths, path, s.moduleConstants, PathKey, PathsIn(seen, s));
    SeenConstant(c, s, seen);
    left := left.(constants := constants, paths := paths);
    var folded := ConvertExpression(declaration.value.value, folding);
    if folded.Failure? {
      return Failure(NotFoldable(origin, folded.error)), left;
    }
    return Success(ConstantDeclaration(found.value.typeIdentity, folded.value)), left;
  }

  // Seeing one more origin marks exactly one more key as taken.

  lemma SeenFunction(f: OriginFunction, s: Surfaces, seen: set<OriginDeclaration>)
    requires FunctionOrigin(f) !in seen
    ensures f !in FunctionsIn(seen) && FunctionsIn(seen + {FunctionOrigin(f)}) == FunctionsIn(seen) + {f}
    ensures OthersUnchanged(FunctionOrigin(f), s, seen)
  {
    SeenElsewhere(FunctionOrigin(f), s, seen);
  }

  /** The keys of the other kinds stay as they were. */
  ghost predicate OthersUnchanged(origin: OriginDeclaration, s: Surfaces, seen: set<OriginDeclaration>) {
    var now := seen + {origin};
    && (!origin.FunctionOrigin? ==> FunctionsIn(now) == FunctionsIn(seen))
    && (!(origin.TypeOrigin? && !origin.type_.category.AliasCategory?) ==> NominalsIn(now) == NominalsIn(seen))
    && (!(origin.TypeOrigin? && origin.type_.category.AliasCategory?) ==> AliasesIn(now) == AliasesIn(seen))
    && (!origin.ConstantOrigin? ==> ConstantsIn(now) == ConstantsIn(seen) && PathsIn(now, s) == PathsIn(seen, s))
    && (!origin.TraitOrigin? ==> TraitsIn(now) == TraitsIn(seen))
  }

  lemma SeenElsewhere(origin: OriginDeclaration, s: Surfaces, seen: set<OriginDeclaration>)
    ensures OthersUnchanged(origin, s, seen)
  {
  }

  lemma SeenAlias(t: OriginType, s: Surfaces, seen: set<OriginDeclaration>)
    requires TypeOrigin(t) !in seen && t.category.AliasCategory?
    ensures t !in AliasesIn(seen) && AliasesIn(seen + {TypeOrigin(t)}) == AliasesIn(seen) + {t}
    ensures OthersUnchanged(TypeOrigin(t), s, seen)
  {
    SeenElsewhere(TypeOrigin(t), s, seen);
  }

  lemma SeenNominal(t: OriginType, s: Surfaces, seen: set<OriginDeclaration>)
    requires TypeOrigin(t) !in seen && !t.category.AliasCategory?
    ensures t !in NominalsIn(seen) && NominalsIn(seen + {TypeOrigin(t)}) == NominalsIn(seen) + {t}
    ensures OthersUnchanged(TypeOrigin(t), s, seen)
  {
    SeenElsewhere(TypeOrigin(t), s, seen);
  }

  lemma NominalTaken(
    t: OriginType, nominals: map<OriginType, NominalSurface>, ix: Indexes, s: Surfaces,
    seen: set<OriginDeclaration>)
    requires HoldsAll(ix, s, seen) && TypeOrigin(t) !in seen && !t.category.AliasCategory?
    requires Holds(nominals, s.nominals, NominalKey, NominalsIn(seen) + {t})
    ensures HoldsAll(ix.(nominals := nominals, methods := ix.methods - {t}), s, seen + {TypeOrigin(t)})
  {
    hide Holds, HoldsMethods, Find, MethodsOf;
    TakenMethods(t, ix.methods, s, seen);
    SeenNominal(t, s, seen);
  }

  lemma SeenTrait(t: OriginTrait, s: Surfaces, seen: set<OriginDeclaration>)
    requires TraitOrigin(t) !in seen
    ensures t !in TraitsIn(seen) && TraitsIn(seen + {TraitOrigin(t)}) == TraitsIn(seen) + {t}
    ensures OthersUnchanged(TraitOrigin(t), s, seen)
  {
    SeenElsewhere(TraitOrigin(t), s, seen);
  }

  lemma SeenConstant(c: OriginConstant, s: Surfaces, seen: set<OriginDeclaration>)
    requires ConstantOrigin(c) !in seen
    ensures c !in ConstantsIn(seen) && ConstantsIn(seen + {ConstantOrigin(c)}) == ConstantsIn(seen) + {c}
    ensures
      var found, now := Find(s.constants, ConstantKey, c), seen + {ConstantOrigin(c)};
      found.Some? ==> PathsIn(now, s) == PathsIn(seen, s) + {found.value.definingPath}
    ensures OthersUnchanged(ConstantOrigin(c), s, seen)
  {
    SeenElsewhere(ConstantOrigin(c), s, seen);
  }

  lemma TakenMethods(
    t: OriginType, index: map<OriginType, seq<MethodSurface>>, s: Surfaces, seen: set<OriginDeclaration>)
    requires HoldsMethods(index, s.methods, NominalsIn(seen))
    requires TypeOrigin(t) !in seen && !t.category.AliasCategory?
    ensures (if t in index then index[t] else []) == MethodsOf(s.methods, t)
    ensures HoldsMethods(index - {t}, s.methods, NominalsIn(seen) + {t})
  {
    assert t !in NominalsIn(seen);
  }

  // ---------------------------------------------------------------- the join

  function SetOf(origins: seq<OriginDeclaration>): set<OriginDeclaration> {
    set o | o in origins
  }

  /** The origins in the order in which they first occur. */
  function FirstOccurrences(origins: seq<OriginDeclaration>): (r: seq<OriginDeclaration>)
    ensures forall o :: o in r <==> o in origins
    ensures forall i, j :: 0 <= i < j < |r| ==> r[i] != r[j]
  {
    if origins == [] then []
    else
      var before, last := origins[..|origins| - 1], origins[|origins| - 1];
      if last in before then FirstOccurrences(before) else FirstOccurrences(before) + [last]
  }

  function BindingOrigin(binding: ExportBinding): OriginDeclaration {
    binding.origin
  }

  function OriginsOf(bindings: seq<ExportBinding>): seq<OriginDeclaration> {
    Map(BindingOrigin, bindings)
  }

  predicate AllJoin(origins: seq<OriginDeclaration>, s: Surfaces) {
    forall i :: 0 <= i < |origins| ==> SemanticsFor(origins[i], s).Some?
  }

  function RecordsFor(origins: seq<OriginDeclaration>, s: Surfaces): (r: seq<DeclarationRecord>)
    requires AllJoin(origins, s)
    ensures |r| == |origins|
    ensures forall i :: 0 <= i < |r| ==> r[i] == DeclarationRecord(origins[i], SemanticsFor(origins[i], s).value)
  {
    seq(|origins|, i requires 0 <= i < |origins| => DeclarationRecord(origins[i], SemanticsFor(origins[i], s).value))
  }

  predicate Distinct(s: Surfaces) {
    && DistinctKeys(s.functions, FunctionKey)
    && DistinctKeys(s.nominals, NominalKey)
    && DistinctKeys(s.aliases, AliasKey)
    && DistinctKeys(s.constants, ConstantKey)
    && DistinctKeys(s.traits, TraitKey)
    && DistinctKeys(s.methods, MethodKey)
    && DistinctKeys(s.moduleConstants, PathKey)
  }

  /** No two exported constants are defined at one path. */
  predicate PathsApart(origins: seq<OriginDeclaration>, s: Surfaces) {
    forall i :: 0 <= i < |origins| ==> PathFree(origins[i], s, SetOf(origins[..i]))
  }

  /** Every entry and every receiver method belongs to an exported origin. */
  predicate NothingLeft(origins: set<OriginDeclaration>, s: Surfaces) {
    && (forall e :: e in s.functions ==> FunctionOrigin(e.origin) in origins)
    && (forall e :: e in s.nominals ==> TypeOrigin(e.origin) in origins && !e.origin.category.AliasCategory?)
    && (forall e :: e in s.aliases ==> TypeOrigin(e.origin) in origins && e.origin.category.AliasCategory?)
    && (forall e :: e in s.constants ==> ConstantOrigin(e.origin) in origins)
    && (forall e :: e in s.traits ==> TraitOrigin(e.origin) in origins)
    && (forall m :: m in s.methods ==> TypeOrigin(m.receiver) in origins && !m.receiver.category.AliasCategory?)
  }

  predicate Joinable(bindings: seq<ExportBinding>, s: Surfaces) {
    var origins := FirstOccurrences(OriginsOf(bindings));
    && Distinct(s)
    && AllJoin(origins, s)
    && PathsApart(origins, s)
    && NothingLeft(SetOf(origins), s)
  }

  lemma NothingSeen(s: Surfaces)
    ensures FunctionsIn({}) == {} && NominalsIn({}) == {} && AliasesIn({}) == {} && ConstantsIn({}) == {}
    ensures TraitsIn({}) == {} && PathsIn({}, s) == {}
  {
  }

  method BuildIndexes(s: Surfaces) returns (r: Result<Indexes, JoinError>)
    ensures r.Success? <==> Distinct(s)
    ensures r.Success? ==> HoldsAll(r.value, s, {})
    ensures r.Failure? ==> r.error == DuplicateEntry
  {
    hide Holds, HoldsMethods, DistinctKeys;
    var functions :- IndexBy(s.functions, FunctionKey);
    var nominals :- IndexBy(s.nominals, NominalKey);
    var aliases :- IndexBy(s.aliases, AliasKey);
    var constants :- IndexBy(s.constants, ConstantKey);
    var paths :- IndexBy(s.moduleConstants, PathKey);
    var traits :- IndexBy(s.traits, TraitKey);
    var methods :- GroupMethods(s.methods);
    NothingSeen(s);
    return Success(Indexes(functions, nominals, aliases, constants, traits, methods, paths));
  }

  method JoinDeclarationRecords(bindings: seq<ExportBinding>, s: Surfaces)
    returns (r: Result<seq<DeclarationRecord>, JoinError>)
    ensures r.Success? <==> Joinable(bindings, s)
    ensures r.Success? ==> r.value == RecordsFor(FirstOccurrences(OriginsOf(bindings)), s)
  {
    hide HoldsAll, SemanticsFor, Distinct, PathFree, NothingLeft, AllJoin, PathsApart, FirstOccurrences;
    var ix :- BuildIndexes(s);
    var declarations: seq<DeclarationRecord> := [];
    var seen: set<OriginDeclaration> := {};
    ghost var origins := OriginsOf(bindings);
    NoOrigins(origins, s);
    for i := 0 to |bindings|
      invariant seen == SetOf(origins[..i])
      invariant HoldsAll(ix, s, seen)
      invariant AllJoin(FirstOccurrences(origins[..i]), s) && PathsApart(FirstOccurrences(origins[..i]), s)
      invariant declarations == RecordsFor(FirstOccurrences(origins[..i]), s)
    {
      var origin := bindings[i].origin;
      assert origins[..i + 1] == origins[..i] + [origin];
      OneMoreOrigin(origins[..i], origin, s);
      OccurrencesStay(origins, i + 1, s);
      if origin !in seen {
        var semantics, left := JoinBinding(origin, ix, s.folding, s, seen);
        if semantics.Failure? {
          return Failure(semantics.error);
        }
        ix := left;
        AllJoinStep(FirstOccurrences(origins[..i]), origin, s);
        declarations := declarations + [DeclarationRecord(origin, semantics.value)];
        seen := seen + {origin};
      }
    }
    assert origins[..|bindings|] == origins;
    LeftoversAreEmpty(ix, s, seen);
    assert seen == SetOf(FirstOccurrences(origins));
    if ix.functions.Keys != {} || ix.nominals.Keys != {} || ix.aliases.Keys != {} || ix.constants.Keys != {}
        || ix.traits.Keys != {} || ix.methods.Keys != {} {
      return Failure(Leftover);
    }
    return Success(declarations);
  }

  lemma AllJoinStep(origins: seq<OriginDeclaration>, last: OriginDeclaration, s: Surfaces)
    ensures AllJoin(origins + [last], s) <==> AllJoin(origins, s) && SemanticsFor(last, s).Some?
    ensures AllJoin(origins + [last], s) ==>
        RecordsFor(origins + [last], s)
        == RecordsFor(origins, s) + [DeclarationRecord(last, SemanticsFor(last, s).value)]
  {
    hide SemanticsFor;
    var more := origins + [last];
    assert more[|origins|] == last && forall i :: 0 <= i < |origins| ==> more[i] == origins[i];
  }

  lemma PathsApartStep(origins: seq<OriginDeclaration>, last: OriginDeclaration, s: Surfaces)
    ensures PathsApart(origins + [last], s) <==> PathsApart(origins, s) && PathFree(last, s, SetOf(origins))
  {
    hide PathFree, SetOf;
    var more := origins + [last];
    assert more[|origins|] == last && more[..|origins|] == origins;
    assert forall i :: 0 <= i < |origins| ==> more[i] == origins[i] && more[..i] == origins[..i];
  }

  /** How the occurrences, and the conditions on them, change with one more origin. */
  lemma OneMoreOrigin(before: seq<OriginDeclaration>, origin: OriginDeclaration, s: Surfaces)
    ensures
      var one, two := FirstOccurrences(before), FirstOccurrences(before + [origin]);
      && two == (if origin in before then one else one + [origin])
      && (AllJoin(two, s) <==> AllJoin(one, s) && (origin in before || SemanticsFor(origin, s).Some?))
      && (PathsApart(two, s) <==>
          PathsApart(one, s) && (origin in before || PathFree(origin, s, SetOf(before))))
  {
    hide SemanticsFor, PathFree, AllJoin, PathsApart;
    assert (before + [origin])[..|before|] == before;
    assert SetOf(FirstOccurrences(before)) == SetOf(before);
    AllJoinStep(FirstOccurrences(before), origin, s);
    PathsApartStep(FirstOccurrences(before), origin, s);
  }

  lemma NoOrigins(origins: seq<OriginDeclaration>, s: Surfaces)
    ensures FirstOccurrences(origins[..0]) == [] && AllJoin([], s) && PathsApart([], s) && SetOf(origins[..0]) == {}
  {
  }

  /** What fails for some of the origins fails for all of them. */
  lemma {:induction false} OccurrencesStay(origins: seq<OriginDeclaration>, i: nat, s: Surfaces)
    requires i <= |origins|
    ensures AllJoin(FirstOccurrences(origins), s) ==> AllJoin(FirstOccurrences(origins[..i]), s)
    ensures PathsApart(FirstOccurrences(origins), s) ==> PathsApart(FirstOccurrences(origins[..i]), s)
    decreases |origins| - i
  {
    hide AllJoin, PathsApart, FirstOccurrences;
    if i == |origins| {
      assert origins[..i] == origins;
    } else {
      assert origins[..i + 1] == origins[..i] + [origins[i]];
      OneMoreOrigin(origins[..i], origins[i], s);
      OccurrencesStay(origins, i + 1, s);
    }
  }

  lemma EmptyIndex<K(!new), V>(index: map<K, V>, entries: seq<V>, key: V -> K, taken: set<K>)
    requires Holds(index, entries, key, taken)
    ensures index.Keys == {} <==> forall e :: e in entries ==> key(e) in taken
  {
    if index.Keys == {} {
      forall e | e in entries
        ensures key(e) in taken
      {
        var i :| 0 <= i < |entries| && entries[i] == e;
        assert Find(entries, key, key(entries[i])).Some?;
        assert key(e) !in index;
      }
    }
  }

  /** The indexes end up empty exactly when every fact belongs to an exported origin. */
  lemma LeftoversAreEmpty(ix: Indexes, s: Surfaces, seen: set<OriginDeclaration>)
    requires HoldsAll(ix, s, seen)
    ensures NothingLeft(seen, s) <==>
        && ix.functions.Keys == {} && ix.nominals.Keys == {} && ix.aliases.Keys == {} && ix.constants.Keys == {}
        && ix.traits.Keys == {} && ix.methods.Keys == {}
  {
    hide Holds, HoldsMethods, Find, MethodsOf;
    EmptyIndex(ix.functions, s.functions, FunctionKey, FunctionsIn(seen));
    EmptyIndex(ix.nominals, s.nominals, NominalKey, NominalsIn(seen));
    EmptyIndex(ix.aliases, s.aliases, AliasKey, AliasesIn(seen));
    EmptyIndex(ix.constants, s.constants, ConstantKey, ConstantsIn(seen));
    EmptyIndex(ix.traits, s.traits, TraitKey, TraitsIn(seen));
    EmptyMethods(ix.methods, s.methods, NominalsIn(seen));
  }

  lemma EmptyMethods(
    index: map<OriginType, seq<MethodSurface>>, methods: seq<MethodSurface>, taken: set<OriginType>)
    requires HoldsMethods(index, methods, taken)
    ensures index.Keys == {} <==> forall m :: m in methods ==> m.receiver in taken
  {
    if index.Keys == {} {
      forall m | m in methods
        ensures m.receiver in taken
      {
        assert m in MethodsOf(methods, m.receiver);
        assert m.receiver !in index;
      }
    } else {
      var r :| r in index;
      assert MethodsOf(methods, r)[0] in methods;
    }
  }
}
