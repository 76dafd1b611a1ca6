/** When templates are extracted, and in which order, field by field of their origins. */
module ExtractedTemplates {
  import opened Sorting
  import opened Bytes
  import opened Identities
  import opened InterfaceDraft
  import opened CanonicalCode
  import opened DraftFinalization
  import opened TemplateExtraction
  import opened CanonicalOrder

  predicate Earlier<T(==)>(order: seq<T>, a: T, b: T) {
    exists i, j :: 0 <= i < j < |order| && order[i] == a && order[j] == b
  }

  /** The variants of each enumeration as it declares them. */
  const PACKAGE_ORIGINS := [Core, Standard, Builder, ProjectLocal, Dependency]
  const ROOT_ROLES := [Normal, Support, ProjectPackageFacade]
  const TYPE_CATEGORIES := [StructCategory, ChoiceCategory, AliasCategory]

  ghost predicate ModuleBefore(a: ModuleOrigin, b: ModuleOrigin) {
    if a.package.origin != b.package.origin then Earlier(PACKAGE_ORIGINS, a.package.origin, b.package.origin)
    else if a.package.name != b.package.name then Before(a.package.name, b.package.name)
    else if a.logicalPath != b.logicalPath then Before(a.logicalPath, b.logicalPath)
    else Earlier(ROOT_ROLES, a.role, b.role)
  }

  ghost predicate TypeBefore(a: OriginType, b: OriginType) {
    if a.moduleOrigin != b.moduleOrigin then ModuleBefore(a.moduleOrigin, b.moduleOrigin)
    else if a.name != b.name then Before(a.name, b.name)
    else Earlier(TYPE_CATEGORIES, a.category, b.category)
  }

  /** Module first, then name; a free function before the methods of types. */
  ghost predicate FunctionBefore(a: OriginFunction, b: OriginFunction) {
    if a.moduleOrigin != b.moduleOrigin then ModuleBefore(a.moduleOrigin, b.moduleOrigin)
    else if a.name != b.name then Before(a.name, b.name)
    else
      match (a.kind, b.kind)
      case (Free, Receiver(_)) => true
      case (Receiver(r), Receiver(s)) => TypeBefore(r, s)
      case _ => false
  }

  lemma SingleBefore(x: byte, y: byte)
    requires Before([x], [y])
    ensures x < y
  {
    var k: nat :| FirstDifference([x], [y], k);
  }

  /** Fields that differ first at one of a module's four. */
  lemma ModuleByFields(a: ModuleOrigin, b: ModuleOrigin, k: nat)
    requires k < 4 && DifferAt(ModuleFields(a), ModuleFields(b), k)
    requires Before(ModuleFields(a)[k], ModuleFields(b)[k])
    ensures a != b && ModuleBefore(a, b)
  {
    var f, g := ModuleFields(a), ModuleFields(b);
    assert k > 0 ==> f[0][0] == g[0][0];
    assert k > 1 ==> f[1] == g[1];
    assert k > 2 ==> f[2] == g[2];
    if k == 0 {
      SingleBefore(f[0][0], g[0][0]);
      PackageEarlier(a.package.origin, b.package.origin);
    } else if k == 3 {
      SingleBefore(f[3][0], g[3][0]);
      RoleEarlier(a.role, b.role);
    }
  }

  lemma PackageEarlier(a: PackageOrigin, b: PackageOrigin)
    requires PackageOriginTag(a) < PackageOriginTag(b)
    ensures Earlier(PACKAGE_ORIGINS, a, b)
  {
    assert PACKAGE_ORIGINS[PackageOriginTag(a)] == a && PACKAGE_ORIGINS[PackageOriginTag(b)] == b;
  }

  lemma RoleEarlier(a: ModuleRootRole, b: ModuleRootRole)
    requires RootRoleTag(a) < RootRoleTag(b)
    ensures Earlier(ROOT_ROLES, a, b)
  {
    assert ROOT_ROLES[RootRoleTag(a)] == a && ROOT_ROLES[RootRoleTag(b)] == b;
  }

  lemma CategoryEarlier(a: TypeCategory, b: TypeCategory)
    requires TypeCategoryTag(a) < TypeCategoryTag(b)
    ensures Earlier(TYPE_CATEGORIES, a, b)
  {
    assert TYPE_CATEGORIES[TypeCategoryTag(a)] == a && TYPE_CATEGORIES[TypeCategoryTag(b)] == b;
  }

  lemma SameModule(a: ModuleOrigin, b: ModuleOrigin)
    requires forall i :: 0 <= i < 4 ==> ModuleFields(a)[i] == ModuleFields(b)[i]
    ensures a == b
  {
    assert ModuleFields(a) == ModuleFields(b);
    FieldsDetermineModule(a, b);
  }

  /** The last six fields of a method's origin: those of its receiver. */
  lemma ReceiverByFields(a: OriginFunction, b: OriginFunction, k: nat)
    requires a.kind.Receiver? && b.kind.Receiver? && 6 <= k < 12
    requires DifferAt(FunctionFields(a), FunctionFields(b), k) && Before(FunctionFields(a)[k], FunctionFields(b)[k])
    ensures TypeBefore(a.kind.receiver, b.kind.receiver)
  {
    hide ModuleFields;
    var r, s := a.kind.receiver, b.kind.receiver;
    var f, g := FunctionFields(a), FunctionFields(b);
    assert f[6..10] == ModuleFields(r.moduleOrigin) && g[6..10] == ModuleFields(s.moduleOrigin);
    if k < 10 {
      assert DifferAt(f[6..10], g[6..10], k - 6);
      ModuleByFields(r.moduleOrigin, s.moduleOrigin, k - 6);
    } else {
      SameModule(r.moduleOrigin, s.moduleOrigin);
      assert f[10] == r.name && g[10] == s.name && f[11] == [TypeCategoryTag(r.category)];
      if k == 11 {
        SingleBefore(TypeCategoryTag(r.category), TypeCategoryTag(s.category));
        CategoryEarlier(r.category, s.category);
      }
    }
  }

  lemma OriginByFields(a: OriginFunction, b: OriginFunction)
    requires OriginLeq(a, b) && a != b
    ensures FunctionBefore(a, b)
  {
    hide ModuleFields;
    var f, g := FunctionFields(a), FunctionFields(b);
    if f == g {
      FieldsDetermineOrigin(a, b);
    }
    var k := LexByPosition(BytesLeq, f, g);
    assert f[..4] == ModuleFields(a.moduleOrigin) && g[..4] == ModuleFields(b.moduleOrigin);
    assert f[4] == a.name && g[4] == b.name && f[5] == [if a.kind.Free? then 0 else 1];
    assert k < |f|;
    LeqByPosition(f[k], g[k]);
    if k < 4 {
      assert DifferAt(f[..4], g[..4], k);
      ModuleByFields(a.moduleOrigin, b.moduleOrigin, k);
    } else {
      SameModule(a.moduleOrigin, b.moduleOrigin);
      if k == 5 {
        SingleBefore(f[5][0], g[5][0]);
      } else if k > 5 {
        ReceiverByFields(a, b, k);
      }
    }
  }

  /** Extracted templates stand in the order of their origins. */
  lemma StoreInOrder(
    records: seq<DeclarationRecord>, seeds: seq<Seed>, templates: map<Path, Template>, i: nat, j: nat)
    requires Extractable(records, seeds, templates)
    requires i < j < |SortBy(ArtefactLeq, ArtefactsOf(seeds, templates))|
    ensures var store := SortBy(ArtefactLeq, ArtefactsOf(seeds, templates));
      FunctionBefore(store[i].origin, store[j].origin)
  {
    hide FunctionBefore, OriginLeq;
    StoreIsTheGenericCallables(records, seeds, templates);
    var store := SortBy(ArtefactLeq, ArtefactsOf(seeds, templates));
    OriginByFields(store[i].origin, store[j].origin);
  }

  // ---------------------------------------------------------------- when there are templates

  /** The seeds name every callable once, as generic as it is; a path may repeat only among
      non-generic seeds. */
  predicate SeedsFit(seeds: seq<Seed>, callables: seq<Callable>) {
    && (forall i, j :: 0 <= i < j < |seeds| ==> seeds[i].origin != seeds[j].origin)
    && (forall i, j :: 0 <= i < j < |seeds| && seeds[i].path == seeds[j].path ==>
        !seeds[i].generic && !seeds[j].generic)
    && (forall i :: 0 <= i < |seeds| ==> SeedNames(seeds[i], callables))
    && (forall k :: 0 <= k < |callables| ==> HasSeed(callables[k], seeds))
  }

  predicate SeedNames(seed: Seed, callables: seq<Callable>) {
    exists k :: 0 <= k < |callables| && callables[k].origin == seed.origin && callables[k].generic == seed.generic
  }

  predicate HasSeed(c: Callable, seeds: seq<Seed>) {
    exists i :: 0 <= i < |seeds| && seeds[i].origin == c.origin
  }

  /** A template is stored under its own path, and a seed is generic exactly when its path has one. */
  predicate TemplatesFit(seeds: seq<Seed>, templates: map<Path, Template>) {
    && (forall path :: path in templates ==> templates[path].functionPath == path)
    && (forall i :: 0 <= i < |seeds| ==> (seeds[i].generic <==> seeds[i].path in templates))
  }

  /** All callables have a seed exactly when there are as many seeds. */
  lemma CountedSeeds(seeds: seq<Seed>, callables: seq<Callable>)
    requires NoRepeats(Map(SeedOrigin, seeds)) && NoRepeats(Map(CallableOrigin, callables))
    requires forall o :: o in Map(SeedOrigin, seeds) ==> o in Map(CallableOrigin, callables)
    ensures |seeds| == |callables| <==>
        forall o :: o in Map(CallableOrigin, callables) ==> o in Map(SeedOrigin, seeds)
  {
    hide Map, NoRepeats;
    var a, b := Map(SeedOrigin, seeds), Map(CallableOrigin, callables);
    if |a| == |b| {
      Pigeonhole(a, b);
      assert forall o :: o in b ==> o in multiset(b);
    }
    if forall o :: o in b ==> o in a {
      SameDistinctElements(a, b);
      assert |multiset(a)| == |multiset(b)|;
    }
  }

  lemma SeedOrigins(seeds: seq<Seed>, o: OriginFunction)
    ensures o in Map(SeedOrigin, seeds) <==> exists i :: 0 <= i < |seeds| && seeds[i].origin == o
    ensures NoRepeats(Map(SeedOrigin, seeds)) <==>
        forall i, j :: 0 <= i < j < |seeds| ==> seeds[i].origin != seeds[j].origin
  {
    var a := Map(SeedOrigin, seeds);
    assert forall i :: 0 <= i < |seeds| ==> a[i] == seeds[i].origin;
    if i :| 0 <= i < |seeds| && seeds[i].origin == o {
      assert a[i] == o;
    }
  }

  lemma CallableOrigins(callables: seq<Callable>, o: OriginFunction)
    ensures o in Map(CallableOrigin, callables) <==> exists k :: 0 <= k < |callables| && callables[k].origin == o
    ensures NoRepeats(Map(CallableOrigin, callables)) <==>
        forall i, j :: 0 <= i < j < |callables| ==> callables[i].origin != callables[j].origin
  {
    var b := Map(CallableOrigin, callables);
    assert forall i :: 0 <= i < |callables| ==> b[i] == callables[i].origin;
    if k :| 0 <= k < |callables| && callables[k].origin == o {
      assert b[k] == o;
    }
  }

  lemma AllHaveSeeds(seeds: seq<Seed>, callables: seq<Callable>)
    ensures (forall k :: 0 <= k < |callables| ==> HasSeed(callables[k], seeds))
       <==> forall o :: o in Map(CallableOrigin, callables) ==> o in Map(SeedOrigin, seeds)
  {
    hide Map;
    if forall k :: 0 <= k < |callables| ==> HasSeed(callables[k], seeds) {
      forall o | o in Map(CallableOrigin, callables)
        ensures o in Map(SeedOrigin, seeds)
      {
        CallableOrigins(callables, o);
        SeedOrigins(seeds, o);
        var k :| 0 <= k < |callables| && callables[k].origin == o;
        assert HasSeed(callables[k], seeds);
      }
    }
    if forall o :: o in Map(CallableOrigin, callables) ==> o in Map(SeedOrigin, seeds) {
      forall k | 0 <= k < |callables|
        ensures HasSeed(callables[k], seeds)
      {
        CallableOrigins(callables, callables[k].origin);
        SeedOrigins(seeds, callables[k].origin);
      }
    }
  }

  lemma SeedsFitExactly(seeds: seq<Seed>, callables: seq<Callable>)
    requires NoRepeats(Map(CallableOrigin, callables))
    ensures ValidSeeds(seeds, callables) <==> SeedsFit(seeds, callables)
  {
    hide Map, NoRepeats, HasSeed;
    assert NoRepeats(Map(SeedOrigin, seeds))
      <==> forall i, j :: 0 <= i < j < |seeds| ==> seeds[i].origin != seeds[j].origin by {
      if seeds != [] {
        SeedOrigins(seeds, seeds[0].origin);
      } else {
        NothingRepeats();
      }
    }
    forall i | 0 <= i < |seeds|
      ensures SeedNames(seeds[i], callables) <==> Matches(seeds[i], callables)
    {
    }
    AllHaveSeeds(seeds, callables);
    if NoRepeats(Map(SeedOrigin, seeds)) && forall i :: 0 <= i < |seeds| ==> SeedNames(seeds[i], callables) {
      SeedsAreAmong(seeds, callables);
      CountedSeeds(seeds, callables);
    }
  }

  lemma NothingRepeats()
    ensures NoRepeats(Map(SeedOrigin, []))
  {
  }

  lemma SeedsAreAmong(seeds: seq<Seed>, callables: seq<Callable>)
    requires forall i :: 0 <= i < |seeds| ==> SeedNames(seeds[i], callables) || Matches(seeds[i], callables)
    ensures forall o :: o in Map(SeedOrigin, seeds) ==> o in Map(CallableOrigin, callables)
  {
    forall o | o in Map(SeedOrigin, seeds)
      ensures o in Map(CallableOrigin, callables)
    {
      SeedOrigins(seeds, o);
      CallableOrigins(callables, o);
      var i :| 0 <= i < |seeds| && seeds[i].origin == o;
      assert SeedNames(seeds[i], callables) || Matches(seeds[i], callables);
    }
  }

  /** Extraction succeeds exactly when callables sit where they belong under different origins, the
      seeds name them all, and the templates are those of the generic seeds. */
  lemma ExtractsExactly(records: seq<DeclarationRecord>, seeds: seq<Seed>, templates: map<Path, Template>)
    ensures
      var callables := Callables(records);
      Extractable(records, seeds, templates) <==>
        && AllWellPlaced(records)
        && (forall i, j :: 0 <= i < j < |callables| ==> callables[i].origin != callables[j].origin)
        && SeedsFit(seeds, callables)
        && TemplatesFit(seeds, templates)
  {
    hide AllWellPlaced, ValidSeeds, SeedsFit, Callables;
    var callables := Callables(records);
    assert NoRepeats(Map(CallableOrigin, callables))
      <==> forall i, j :: 0 <= i < j < |callables| ==> callables[i].origin != callables[j].origin by {
      assert forall i :: 0 <= i < |callables| ==> Map(CallableOrigin, callables)[i] == callables[i].origin;
    }
    if NoRepeats(Map(CallableOrigin, callables)) {
      SeedsFitExactly(seeds, callables);
    }
  }

  /** An artefact holds the template stored under its seed's path, and its origin is the seed's. */
  lemma ArtefactHolds(
    records: seq<DeclarationRecord>, seeds: seq<Seed>, templates: map<Path, Template>, a: Artefact) returns (i: nat)
    requires Extractable(records, seeds, templates)
    requires a in SortBy(ArtefactLeq, ArtefactsOf(seeds, templates))
    ensures i < |seeds| && seeds[i].generic && a.origin == seeds[i].origin
    ensures a.template.functionPath == seeds[i].path && seeds[i].path in templates
    ensures a.template == templates[seeds[i].path]
  {
    hide AllWellPlaced, ValidSeeds, Callables, ArtefactsOf, ArtefactLeq;
    var artefacts := ArtefactsOf(seeds, templates);
    assert a in multiset(SortBy(ArtefactLeq, artefacts));
    assert a in multiset(artefacts);
    ArtefactsFollowSeeds(seeds, templates, a);
    i :| 0 <= i < |seeds| && seeds[i].generic && a == Artefact(seeds[i].origin, templates[seeds[i].path]);
  }
}
