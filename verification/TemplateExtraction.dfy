/** Extraction of validated generic templates for the exported generic callables of a draft. */
module TemplateExtraction {
  import opened Wrappers
  import opened Sorting
  import opened Bytes
  import opened Identities
  import opened InterfaceDraft
  import opened CanonicalCode
  import opened DraftFinalization

  /** The declaration path of one exported callable, with its stable origin. */
  datatype Seed = Seed(path: Path, origin: OriginFunction, generic: bool)

  /** A template repeats the path it is stored under; its body is opaque here. */
  datatype Template = Template(functionPath: Path, body: Text)

  datatype Artefact = Artefact(origin: OriginFunction, template: Template)

  datatype ExtractionError =
    | MisplacedCallable
    | DuplicateCallableOrigin
    | DuplicateGenericPath
    | DuplicateSeedOrigin
    | UnknownSeed
    | GenericMismatch
    | MissingSeed
    | TemplatePathMismatch
    | MissingTemplate
    | TemplateOnNonGeneric

  // ---------------------------------------------------------------- the order of origins

  /** The fields of an identity in declaration order. The derived order of identities compares
      them one after another: enums by variant position, which is
      also their tag in the canonical code, strings by bytes. */
  function ModuleFields(origin: ModuleOrigin): (r: seq<Text>)
    ensures |r| == 4
  {
    [[PackageOriginTag(origin.package.origin)], origin.package.name, origin.logicalPath, [RootRoleTag(origin.role)]]
  }

  function FunctionFields(origin: OriginFunction): seq<Text> {
    ModuleFields(origin.moduleOrigin) + [origin.name] +
    match origin.kind
    case Free => [[0]]
    case Receiver(receiver) =>
      [[1]] + ModuleFields(receiver.moduleOrigin) + [receiver.name, [TypeCategoryTag(receiver.category)]]
  }

  predicate FieldsLeq(a: seq<Text>, b: seq<Text>) {
    LexLeq(BytesLeq, a, b)
  }

  predicate OriginLeq(a: OriginFunction, b: OriginFunction) {
    FieldsLeq(FunctionFields(a), FunctionFields(b))
  }

  predicate ArtefactLeq(a: Artefact, b: Artefact) {
    OriginLeq(a.origin, b.origin)
  }

  lemma FieldsDetermineModule(a: ModuleOrigin, b: ModuleOrigin)
    requires ModuleFields(a) == ModuleFields(b)
    ensures a == b
  {
    var f, g := ModuleFields(a), ModuleFields(b);
    assert f[0][0] == g[0][0] && f[1] == g[1] && f[2] == g[2] && f[3][0] == g[3][0];
    assert a.package.origin == b.package.origin && a.role == b.role;
  }

  lemma FieldsDetermineOrigin(a: OriginFunction, b: OriginFunction)
    requires FunctionFields(a) == FunctionFields(b)
    ensures a == b
  {
    hide ModuleFields;
    var f, g := FunctionFields(a), FunctionFields(b);
    assert f[..4] == ModuleFields(a.moduleOrigin) && g[..4] == ModuleFields(b.moduleOrigin);
    FieldsDetermineModule(a.moduleOrigin, b.moduleOrigin);
    assert f[4] == a.name && g[4] == b.name && f[5][0] == g[5][0];
    if a.kind.Receiver? {
      assert f[6..10] == ModuleFields(a.kind.receiver.moduleOrigin);
      assert g[6..10] == ModuleFields(b.kind.receiver.moduleOrigin);
      FieldsDetermineModule(a.kind.receiver.moduleOrigin, b.kind.receiver.moduleOrigin);
      assert f[10] == g[10] && f[11][0] == g[11][0];
    }
  }

  lemma FieldsLinear()
    ensures LinearOrder(FieldsLeq)
  {
    BytesLinear();
    LexIsLinear(BytesLeq);
    var lex := (a: seq<Text>, b: seq<Text>) => LexLeq(BytesLeq, a, b);
    assert forall a, b :: FieldsLeq(a, b) == lex(a, b);
  }

  lemma OriginLinear()
    ensures LinearOrder(OriginLeq)
  {
    hide FunctionFields, FieldsLeq;
    FieldsLinear();
    forall a, b | OriginLeq(a, b) && OriginLeq(b, a)
      ensures a == b
    {
      FieldsDetermineOrigin(a, b);
    }
  }

  // ---------------------------------------------------------------- what extraction demands

  function SeedOrigin(seed: Seed): OriginFunction {
    seed.origin
  }

  /** A path may repeat only among non-generic seeds. */
  predicate GenericPathsApart(seeds: seq<Seed>) {
    forall i, j :: 0 <= i < j < |seeds| && seeds[i].path == seeds[j].path ==> !seeds[i].generic && !seeds[j].generic
  }

  predicate Matches(seed: Seed, callables: seq<Callable>) {
    exists i :: 0 <= i < |callables| && callables[i].origin == seed.origin && callables[i].generic == seed.generic
  }

  ghost predicate ValidSeeds(seeds: seq<Seed>, callables: seq<Callable>) {
    && GenericPathsApart(seeds)
    && NoRepeats(Map(SeedOrigin, seeds))
    && (forall i :: 0 <= i < |seeds| ==> Matches(seeds[i], callables))
    && |seeds| == |callables|
  }

  predicate KeysAgree(templates: map<Path, Template>) {
    forall path :: path in templates ==> templates[path].functionPath == path
  }

  /** Templates sit on exactly the generic paths among the public ones. */
  predicate TemplatesMatch(seeds: seq<Seed>, templates: map<Path, Template>) {
    forall i :: 0 <= i < |seeds| ==> (seeds[i].generic <==> seeds[i].path in templates)
  }

  predicate GenericsHaveTemplates(seeds: seq<Seed>, templates: map<Path, Template>) {
    forall i :: 0 <= i < |seeds| && seeds[i].generic ==> seeds[i].path in templates
  }

  ghost predicate Extractable(records: seq<DeclarationRecord>, seeds: seq<Seed>, templates: map<Path, Template>) {
    && AllWellPlaced(records)
    && NoRepeats(Map(CallableOrigin, Callables(records)))
    && ValidSeeds(seeds, Callables(records))
    && KeysAgree(templates)
    && TemplatesMatch(seeds, templates)
  }

  /** The artefacts of the generic seeds, in seed order. */
  function ArtefactsOf(seeds: seq<Seed>, templates: map<Path, Template>): (r: seq<Artefact>)
    requires GenericsHaveTemplates(seeds, templates)
  {
    if seeds == [] then []
    else
      var before, last := ArtefactsOf(seeds[..|seeds| - 1], templates), seeds[|seeds| - 1];
      if last.generic then before + [Artefact(last.origin, templates[last.path])] else before
  }

  // ---------------------------------------------------------------- pushing seeds

  /** `push_public_callable_origin_seed`: keeps origins distinct and generic paths unshared. */
  method PushSeed(seeds: seq<Seed>, seed: Seed) returns (r: Result<seq<Seed>, ExtractionError>)
    requires NoRepeats(Map(SeedOrigin, seeds)) && GenericPathsApart(seeds)
    ensures r.Success? <==> NoRepeats(Map(SeedOrigin, seeds + [seed])) && GenericPathsApart(seeds + [seed])
    ensures r.Success? ==> r.value == seeds + [seed]
  {
    hide NoRepeats, GenericPathsApart;
    PushKeepsOriginsApart(seeds, seed);
    PushKeepsPathsApart(seeds, seed);
    if exists existing :: existing in seeds && existing.origin == seed.origin {
      return Failure(DuplicateSeedOrigin);
    }
    if exists existing :: existing in seeds && existing.path == seed.path && (existing.generic || seed.generic) {
      return Failure(DuplicateGenericPath);
    }
    return Success(seeds + [seed]);
  }

  lemma PushKeepsOriginsApart(seeds: seq<Seed>, seed: Seed)
    requires NoRepeats(Map(SeedOrigin, seeds))
    ensures NoRepeats(Map(SeedOrigin, seeds + [seed])) <==> !exists e :: e in seeds && e.origin == seed.origin
  {
    var origins := Map(SeedOrigin, seeds);
    assert Map(SeedOrigin, seeds + [seed]) == origins + [seed.origin];
    if e :| e in seeds && e.origin == seed.origin {
      var i :| 0 <= i < |seeds| && seeds[i] == e;
      assert (origins + [seed.origin])[i] == (origins + [seed.origin])[|seeds|];
    } else {
      Appended(origins, [seed.origin]);
    }
  }

  lemma PushKeepsPathsApart(seeds: seq<Seed>, seed: Seed)
    requires GenericPathsApart(seeds)
    ensures GenericPathsApart(seeds + [seed])
       <==> !exists e :: e in seeds && e.path == seed.path && (e.generic || seed.generic)
  {
    var more := seeds + [seed];
    assert more[|seeds|] == seed && forall i :: 0 <= i < |seeds| ==> more[i] == seeds[i];
    if e :| e in seeds && e.path == seed.path && (e.generic || seed.generic) {
      var i :| 0 <= i < |seeds| && seeds[i] == e;
      assert more[i].path == more[|seeds|].path;
    } else {
      assert forall i :: 0 <= i < |seeds| ==> seeds[i] in seeds;
    }
  }

  // ---------------------------------------------------------------- collecting callables

  ghost predicate CollectedFrom(collected: map<OriginFunction, bool>, callables: seq<Callable>) {
    && NoRepeats(Map(CallableOrigin, callables))
    && (forall o :: o in collected <==> o in Map(CallableOrigin, callables))
    && (forall c :: c in callables && c.origin in collected ==> collected[c.origin] == c.generic)
    && |collected| == |callables|
  }

  class CallableCollector {
    var collected: map<OriginFunction, bool>
    ghost var done: seq<Callable>

    ghost predicate Valid()
      reads this
    {
      CollectedFrom(collected, done)
    }

    constructor ()
      ensures Valid() && done == []
    {
      collected := map[];
      done := [];
    }

    method Insert(c: Callable) returns (r: Outcome<ExtractionError>)
      requires Valid()
      modifies this
      ensures r.Pass? <==> NoRepeats(Map(CallableOrigin, old(done) + [c]))
      ensures r.Pass? ==> Valid() && done == old(done) + [c]
      ensures r.Fail? ==> r.error == DuplicateCallableOrigin
    {
      InsertStep(collected, done, c);
      if c.origin in collected {
        return Fail(DuplicateCallableOrigin);
      }
      collected := collected[c.origin := c.generic];
      done := done + [c];
      return Pass;
    }

    method InsertReceiverMethods(receiver: OriginType, methods: seq<ReceiverMethod>)
      returns (r: Outcome<ExtractionError>)
      requires Valid()
      modifies this
      ensures r.Pass? <==>
          MethodsBelong(receiver, methods)
          && NoRepeats(Map(CallableOrigin, old(done) + Map(CallableOfMethod, methods)))
      ensures r.Pass? ==> Valid() && done == old(done) + Map(CallableOfMethod, methods)
    {
      hide CollectedFrom;
      ghost var callables := Map(CallableOfMethod, methods);
      ghost var all := Map(CallableOrigin, old(done) + callables);
      for i := 0 to |methods|
        invariant MethodsBelong(receiver, methods[..i])
        invariant Valid() && done == old(done) + callables[..i]
      {
        if methods[i].origin.kind != Receiver(receiver) {
          return Fail(MisplacedCallable);
        }
        assert done + [callables[i]] == old(done) + callables[..i + 1];
        assert Map(CallableOrigin, old(done) + callables[..i + 1]) == all[..|old(done)| + i + 1];
        :- Insert(CallableOfMethod(methods[i]));
      }
      assert callables[..|methods|] == callables && methods[..|methods|] == methods;
      NoRepeatsOfValid(collected, done);
      return Pass;
    }

    method Collect(record: DeclarationRecord) returns (r: Outcome<ExtractionError>)
      requires Valid()
      modifies this
      ensures r.Pass? <==>
          WellPlaced(record) && NoRepeats(Map(CallableOrigin, old(done) + CallablesOf(record)))
      ensures r.Pass? ==> Valid() && done == old(done) + CallablesOf(record)
    {
      match record.semantics {
        case FunctionDeclaration(f) =>
          if !record.origin.FunctionOrigin? || record.origin.function_.kind.Receiver? {
            return Fail(MisplacedCallable);
          }
          r := Insert(CallableOfFunction(record.origin.function_, f));
        case StructDeclaration(_, _, methods) =>
          if !record.origin.TypeOrigin? {
            return Fail(MisplacedCallable);
          }
          r := InsertReceiverMethods(record.origin.type_, methods);
        case ChoiceDeclaration(_, _, methods) =>
          if !record.origin.TypeOrigin? {
            return Fail(MisplacedCallable);
          }
          r := InsertReceiverMethods(record.origin.type_, methods);
        case _ =>
          assert done + [] == done;
          return Pass;
      }
    }
  }

  lemma NoRepeatsOfValid(collected: map<OriginFunction, bool>, callables: seq<Callable>)
    requires CollectedFrom(collected, callables)
    ensures NoRepeats(Map(CallableOrigin, callables))
  {
  }

  lemma InsertStep(collected: map<OriginFunction, bool>, done: seq<Callable>, c: Callable)
    requires CollectedFrom(collected, done)
    ensures NoRepeats(Map(CallableOrigin, done + [c])) <==> c.origin !in collected
    ensures c.origin !in collected ==> CollectedFrom(collected[c.origin := c.generic], done + [c])
  {
    assert Map(CallableOrigin, done + [c]) == Map(CallableOrigin, done) + [c.origin];
    var origins := Map(CallableOrigin, done);
    if c.origin in collected {
      var i :| 0 <= i < |origins| && origins[i] == c.origin;
      assert Map(CallableOrigin, done + [c])[i] == Map(CallableOrigin, done + [c])[|done|];
    } else {
      Appended(origins, [c.origin]);
      InsertKeeps(collected, done, c);
    }
  }

  lemma MapGrows<K, V>(m: map<K, V>, k: K, v: V)
    requires k !in m
    ensures |m[k := v]| == |m| + 1
  {
    assert m[k := v].Keys == m.Keys + {k};
  }

  lemma OriginOfElement(callables: seq<Callable>, c: Callable)
    requires c in callables
    ensures c.origin in Map(CallableOrigin, callables)
  {
    var i :| 0 <= i < |callables| && callables[i] == c;
    assert Map(CallableOrigin, callables)[i] == c.origin;
  }

  lemma InsertKeeps(collected: map<OriginFunction, bool>, done: seq<Callable>, c: Callable)
    requires CollectedFrom(collected, done) && c.origin !in collected
    requires NoRepeats(Map(CallableOrigin, done + [c]))
    ensures CollectedFrom(collected[c.origin := c.generic], done + [c])
  {
    hide NoRepeats, Map;
    MapGrows(collected, c.origin, c.generic);
    MapLast(CallableOrigin, done, c);
    forall d | d in done
      ensures d.origin in collected
    {
      OriginOfElement(done, d);
    }
  }

  lemma {:induction false} CallablesBefore(records: seq<DeclarationRecord>, i: nat)
    requires i <= |records|
    ensures Callables(records[..i]) <= Callables(records)
    decreases |records| - i
  {
    hide CallablesOf;
    if i == |records| {
      assert records[..i] == records;
    } else {
      assert records[..i + 1][..i] == records[..i];
      CallablesBefore(records, i + 1);
    }
  }

  method CollectPublicCallableOrigins(records: seq<DeclarationRecord>)
    returns (r: Result<map<OriginFunction, bool>, ExtractionError>)
    ensures r.Success? <==> AllWellPlaced(records) && NoRepeats(Map(CallableOrigin, Callables(records)))
    ensures r.Success? ==> CollectedFrom(r.value, Callables(records))
  {
    hide CollectedFrom, CallablesOf, WellPlaced;
    var collector := new CallableCollector();
    for i := 0 to |records|
      invariant collector.Valid() && collector.done == Callables(records[..i])
      invariant AllWellPlaced(records[..i])
    {
      assert records[..i + 1][..i] == records[..i];
      CallablesBefore(records, i + 1);
      var inserted := collector.Collect(records[i]);
      if inserted.Fail? {
        PrefixRepeats(Map(CallableOrigin, Callables(records[..i + 1])), Map(CallableOrigin, Callables(records)));
        return Failure(inserted.error);
      }
    }
    assert records[..|records|] == records;
    NoRepeatsOfValid(collector.collected, collector.done);
    return Success(collector.collected);
  }

  lemma PrefixRepeats<T>(prefix: seq<T>, whole: seq<T>)
    requires prefix <= whole
    ensures NoRepeats(whole) ==> NoRepeats(prefix)
  {
    assert forall i :: 0 <= i < |prefix| ==> prefix[i] == whole[i];
  }

  // ---------------------------------------------------------------- validating seeds

  function SeedPath(seed: Seed): Path {
    seed.path
  }

  /** A path maps to whether its latest seed, and so any of its seeds, is generic. */
  ghost predicate PathsSeen(seen: map<Path, bool>, seeds: seq<Seed>) {
    && (forall path :: path in seen <==> path in Map(SeedPath, seeds))
    && (forall seed :: seed in seeds && seed.path in seen ==> seen[seed.path] == seed.generic)
  }

  lemma PathsApartStep(seen: map<Path, bool>, seeds: seq<Seed>, last: Seed)
    requires PathsSeen(seen, seeds) && GenericPathsApart(seeds)
    ensures GenericPathsApart(seeds + [last]) <==> last.path in seen ==> !seen[last.path] && !last.generic
  {
    var more, paths := seeds + [last], Map(SeedPath, seeds);
    assert more[|seeds|] == last && forall i :: 0 <= i < |seeds| ==> more[i] == seeds[i];
    if last.path in seen {
      var i :| 0 <= i < |paths| && paths[i] == last.path;
      assert more[i].path == more[|seeds|].path && seeds[i] in seeds;
    } else {
      forall i | 0 <= i < |seeds|
        ensures seeds[i].path != last.path
      {
        assert paths[i] in paths;
      }
    }
  }

  lemma PathsSeenStep(seen: map<Path, bool>, seeds: seq<Seed>, last: Seed)
    requires PathsSeen(seen, seeds) && (last.path in seen ==> seen[last.path] == last.generic)
    ensures PathsSeen(seen[last.path := last.generic], seeds + [last])
  {
    assert Map(SeedPath, seeds + [last]) == Map(SeedPath, seeds) + [last.path];
    forall seed | seed in seeds
      ensures seed.path in seen
    {
      var i :| 0 <= i < |seeds| && seeds[i] == seed;
      assert Map(SeedPath, seeds)[i] == seed.path;
    }
  }

  lemma OriginsStep(seen: set<OriginFunction>, seeds: seq<Seed>, last: Seed)
    requires forall o :: o in seen <==> o in Map(SeedOrigin, seeds)
    requires NoRepeats(Map(SeedOrigin, seeds))
    ensures NoRepeats(Map(SeedOrigin, seeds + [last])) <==> last.origin !in seen
    ensures forall o :: o in seen + {last.origin} <==> o in Map(SeedOrigin, seeds + [last])
  {
    var origins := Map(SeedOrigin, seeds);
    assert Map(SeedOrigin, seeds + [last]) == origins + [last.origin];
    if last.origin in seen {
      var i :| 0 <= i < |origins| && origins[i] == last.origin;
      assert (origins + [last.origin])[i] == (origins + [last.origin])[|origins|];
    } else {
      Appended(origins, [last.origin]);
    }
  }

  lemma MatchesCollected(seed: Seed, collected: map<OriginFunction, bool>, callables: seq<Callable>)
    requires CollectedFrom(collected, callables)
    ensures Matches(seed, callables) <==> seed.origin in collected && collected[seed.origin] == seed.generic
  {
    var origins := Map(CallableOrigin, callables);
    if seed.origin in collected {
      var i :| 0 <= i < |origins| && origins[i] == seed.origin;
      assert callables[i] in callables;
    }
  }

  method ValidatePublicCallableOriginSeeds(
    collected: map<OriginFunction, bool>, seeds: seq<Seed>, ghost callables: seq<Callable>)
    returns (r: Outcome<ExtractionError>)
    requires CollectedFrom(collected, callables)
    ensures r.Pass? <==> ValidSeeds(seeds, callables)
  {
    hide CollectedFrom, PathsSeen, Matches, NoRepeats, GenericPathsApart;
    var seenPaths: map<Path, bool> := map[];
    var seenOrigins: set<OriginFunction> := {};
    NothingValidated(callables);
    for i := 0 to |seeds|
      invariant GenericPathsApart(seeds[..i]) && PathsSeen(seenPaths, seeds[..i])
      invariant NoRepeats(Map(SeedOrigin, seeds[..i]))
      invariant forall o :: o in seenOrigins <==> o in Map(SeedOrigin, seeds[..i])
      invariant forall j :: 0 <= j < i ==> Matches(seeds[j], callables)
    {
      var seed := seeds[i];
      assert seeds[..i + 1] == seeds[..i] + [seed];
      PathsApartStep(seenPaths, seeds[..i], seed);
      OriginsStep(seenOrigins, seeds[..i], seed);
      MatchesCollected(seed, collected, callables);
      ValidBefore(seeds, i + 1, callables);
      if seed.path in seenPaths && (seenPaths[seed.path] || seed.generic) {
        return Fail(DuplicateGenericPath);
      }
      PathsSeenStep(seenPaths, seeds[..i], seed);
      seenPaths := seenPaths[seed.path := seed.generic];
      if seed.origin in seenOrigins {
        return Fail(DuplicateSeedOrigin);
      }
      seenOrigins := seenOrigins + {seed.origin};
      if seed.origin !in collected {
        return Fail(UnknownSeed);
      }
      if collected[seed.origin] != seed.generic {
        return Fail(GenericMismatch);
      }
    }
    assert seeds[..|seeds|] == seeds;
    CollectedCount(collected, callables);
    if |seeds| != |collected| {
      return Fail(MissingSeed);
    }
    return Pass;
  }

  lemma NothingValidated(callables: seq<Callable>)
    ensures PathsSeen(map[], []) && NoRepeats(Map(SeedOrigin, [])) && GenericPathsApart([])
  {
  }

  lemma CollectedCount(collected: map<OriginFunction, bool>, callables: seq<Callable>)
    requires CollectedFrom(collected, callables)
    ensures |collected| == |callables|
  {
  }

  lemma ValidBefore(seeds: seq<Seed>, i: nat, callables: seq<Callable>)
    requires i <= |seeds|
    ensures ValidSeeds(seeds, callables) ==> GenericPathsApart(seeds[..i]) && NoRepeats(Map(SeedOrigin, seeds[..i]))
  {
    assert Map(SeedOrigin, seeds[..i]) == Map(SeedOrigin, seeds)[..i];
  }

  // ---------------------------------------------------------------- extraction

  function GenericPaths(seeds: seq<Seed>): set<Path> {
    set i | 0 <= i < |seeds| && seeds[i].generic :: seeds[i].path
  }

  /** Moves the template of every generic seed out of the map. */
  method TakeTemplates(seeds: seq<Seed>, templates: map<Path, Template>)
    returns (r: Result<seq<Artefact>, ExtractionError>, remaining: map<Path, Template>)
    requires GenericPathsApart(seeds)
    ensures r.Success? <==> GenericsHaveTemplates(seeds, templates)
    ensures r.Success? ==> r.value == ArtefactsOf(seeds, templates) && remaining == templates - GenericPaths(seeds)
  {
    remaining := templates;
    var artefacts: seq<Artefact> := [];
    for i := 0 to |seeds|
      invariant GenericsHaveTemplates(seeds[..i], templates)
      invariant remaining == templates - GenericPaths(seeds[..i])
      invariant artefacts == ArtefactsOf(seeds[..i], templates)
    {
      TakeStep(seeds, i);
      if seeds[i].generic {
        if seeds[i].path !in remaining {
          return Failure(MissingTemplate), remaining;
        }
        artefacts := artefacts + [Artefact(seeds[i].origin, remaining[seeds[i].path])];
        remaining := remaining - {seeds[i].path};
      }
    }
    assert seeds[..|seeds|] == seeds;
    return Success(artefacts), remaining;
  }

  lemma TakeStep(seeds: seq<Seed>, i: nat)
    requires i < |seeds| && GenericPathsApart(seeds)
    ensures seeds[..i + 1][..i] == seeds[..i]
    ensures GenericPaths(seeds[..i + 1])
         == GenericPaths(seeds[..i]) + (if seeds[i].generic then {seeds[i].path} else {})
    ensures seeds[i].path !in GenericPaths(seeds[..i])
  {
    var more := seeds[..i + 1];
    assert more[i] == seeds[i] && forall j :: 0 <= j < i ==> more[j] == seeds[..i][j];
    forall path
      ensures path in GenericPaths(more) <==>
          path in GenericPaths(seeds[..i]) || (seeds[i].generic && path == seeds[i].path)
    {
      if path in GenericPaths(seeds[..i]) {
        var j :| 0 <= j < i && seeds[..i][j].generic && seeds[..i][j].path == path;
        assert more[j].generic && more[j].path == path;
      }
    }
  }

  /** `extract_validated_generic_template_artefacts`. */
  method ExtractValidatedGenericTemplateArtefacts(
    records: seq<DeclarationRecord>, seeds: seq<Seed>, templates: map<Path, Template>)
    returns (r: Result<seq<Artefact>, ExtractionError>)
    ensures r.Success? <==> Extractable(records, seeds, templates)
    ensures r.Success? ==> r.value == SortBy(ArtefactLeq, ArtefactsOf(seeds, templates))
  {
    hide CollectedFrom, ValidSeeds, NoRepeats, AllWellPlaced;
    var collected :- CollectPublicCallableOrigins(records);
    var valid := ValidatePublicCallableOriginSeeds(collected, seeds, Callables(records));
    if valid.Fail? {
      return Failure(valid.error);
    }
    SeedPathsApart(seeds, Callables(records));
    if exists path :: path in templates && templates[path].functionPath != path {
      return Failure(TemplatePathMismatch);
    }
    var taken, remaining := TakeTemplates(seeds, templates);
    if taken.Failure? {
      return Failure(taken.error);
    }
    for i := 0 to |seeds|
      invariant TemplatesMatch(seeds[..i], templates)
    {
      if !seeds[i].generic {
        NonGenericElsewhere(seeds, i);
      }
      if !seeds[i].generic && seeds[i].path in remaining {
        assert seeds[i].path in templates;
        return Failure(TemplateOnNonGeneric);
      }
    }
    assert seeds[..|seeds|] == seeds;
    return Success(SortBy(ArtefactLeq, taken.value));
  }

  lemma SeedPathsApart(seeds: seq<Seed>, callables: seq<Callable>)
    requires ValidSeeds(seeds, callables)
    ensures GenericPathsApart(seeds)
  {
  }

  lemma NonGenericElsewhere(seeds: seq<Seed>, i: nat)
    requires i < |seeds| && GenericPathsApart(seeds) && !seeds[i].generic
    ensures seeds[i].path !in GenericPaths(seeds)
  {
  }

  // ---------------------------------------------------------------- consequences

  /** Distinct seed origins that all occur among as many callables are all of them. */
  lemma SeedsAreTheCallables(seeds: seq<Seed>, callables: seq<Callable>)
    requires ValidSeeds(seeds, callables) && NoRepeats(Map(CallableOrigin, callables))
    ensures multiset(Map(SeedOrigin, seeds)) == multiset(Map(CallableOrigin, callables))
  {
    var a, b := Map(SeedOrigin, seeds), Map(CallableOrigin, callables);
    forall x | x in a
      ensures x in b
    {
      var i :| 0 <= i < |seeds| && seeds[i].origin == x;
      assert Matches(seeds[i], callables);
      var j :| 0 <= j < |callables| && callables[j].origin == seeds[i].origin;
      assert b[j] == x;
    }
    Pigeonhole(a, b);
  }

  function ArtefactOrigin(artefact: Artefact): OriginFunction {
    artefact.origin
  }

  /** Artefacts of the generic seeds, each with the template at the seed's exact path. */
  lemma {:induction false} ArtefactsFollowSeeds(seeds: seq<Seed>, templates: map<Path, Template>, a: Artefact)
    requires GenericsHaveTemplates(seeds, templates)
    ensures a in ArtefactsOf(seeds, templates) <==>
        exists i :: 0 <= i < |seeds| && seeds[i].generic && a == Artefact(seeds[i].origin, templates[seeds[i].path])
  {
    if seeds != [] {
      var before := seeds[..|seeds| - 1];
      ArtefactsFollowSeeds(before, templates, a);
      if i :| 0 <= i < |before| && before[i].generic && a == Artefact(before[i].origin, templates[before[i].path]) {
        assert seeds[i] == before[i];
      }
      if i :| 0 <= i < |seeds| && seeds[i].generic && a == Artefact(seeds[i].origin, templates[seeds[i].path]) {
        assert i < |before| ==> before[i] == seeds[i];
      }
    }
  }

  lemma {:induction false} ArtefactOriginsDistinct(seeds: seq<Seed>, templates: map<Path, Template>)
    requires GenericsHaveTemplates(seeds, templates) && NoRepeats(Map(SeedOrigin, seeds))
    ensures NoRepeats(Map(ArtefactOrigin, ArtefactsOf(seeds, templates)))
  {
    if seeds != [] {
      var before, last := seeds[..|seeds| - 1], seeds[|seeds| - 1];
      assert Map(SeedOrigin, before) == Map(SeedOrigin, seeds)[..|before|];
      ArtefactOriginsDistinct(before, templates);
      var earlier := ArtefactsOf(before, templates);
      forall a | a in earlier
        ensures a.origin != last.origin
      {
        ArtefactsFollowSeeds(before, templates, a);
        var i :| 0 <= i < |before| && before[i].origin == a.origin;
        assert Map(SeedOrigin, seeds)[i] != Map(SeedOrigin, seeds)[|before|];
      }
    }
  }

  /** The store lists exactly the generic callables of the draft, in strictly increasing order
      of their origins. */
  lemma StoreIsTheGenericCallables(records: seq<DeclarationRecord>, seeds: seq<Seed>, templates: map<Path, Template>)
    requires Extractable(records, seeds, templates)
    ensures
      var store := SortBy(ArtefactLeq, ArtefactsOf(seeds, templates));
      && (forall i, j :: 0 <= i < j < |store| ==>
          OriginLeq(store[i].origin, store[j].origin) && store[i].origin != store[j].origin)
      && (forall o :: o in Map(ArtefactOrigin, store) <==>
          GenericAmong(o, Callables(records)))
  {
    hide OriginLeq, FunctionFields, AllWellPlaced;
    var artefacts, callables := ArtefactsOf(seeds, templates), Callables(records);
    var store := SortBy(ArtefactLeq, artefacts);
    OriginLinear();
    SortBySorts(ArtefactLeq, artefacts);
    ArtefactOriginsDistinct(seeds, templates);
    SortedStaysDistinct(artefacts);
    forall i, j | 0 <= i < j < |store|
      ensures OriginLeq(store[i].origin, store[j].origin) && store[i].origin != store[j].origin
    {
      assert ArtefactLeq(store[i], store[j]);
      assert Map(ArtefactOrigin, store)[i] != Map(ArtefactOrigin, store)[j];
    }
    forall o
      ensures o in Map(ArtefactOrigin, store) <==> GenericAmong(o, callables)
    {
      StoreHasOrigin(records, seeds, templates, o);
    }
  }

  lemma SortedStaysDistinct(artefacts: seq<Artefact>)
    requires NoRepeats(Map(ArtefactOrigin, artefacts))
    ensures NoRepeats(Map(ArtefactOrigin, SortBy(ArtefactLeq, artefacts)))
  {
    var store := SortBy(ArtefactLeq, artefacts);
    SameImagesOfSame(ArtefactOrigin, store, artefacts);
    var a, b := Map(ArtefactOrigin, store), Map(ArtefactOrigin, artefacts);
    forall i, j | 0 <= i < j < |a|
      ensures a[i] != a[j]
    {
      DistinctCounts(b, a[i]);
      if a[i] == a[j] {
        TwiceCounts(a, i, j);
      }
    }
  }

  predicate GenericAmong(o: OriginFunction, callables: seq<Callable>) {
    exists k :: 0 <= k < |callables| && callables[k].generic && callables[k].origin == o
  }

  lemma StoreHasOrigin(
    records: seq<DeclarationRecord>, seeds: seq<Seed>, templates: map<Path, Template>, o: OriginFunction)
    requires Extractable(records, seeds, templates)
    ensures o in Map(ArtefactOrigin, SortBy(ArtefactLeq, ArtefactsOf(seeds, templates)))
       <==> GenericAmong(o, Callables(records))
  {
    hide ArtefactLeq, AllWellPlaced, GenericPathsApart, ArtefactsOf, NoRepeats, Matches;
    hide SortBy, Callables, KeysAgree;
    var callables := Callables(records);
    var store := SortBy(ArtefactLeq, ArtefactsOf(seeds, templates));
    if o in Map(ArtefactOrigin, store) {
      var i :| 0 <= i < |Map(ArtefactOrigin, store)| && Map(ArtefactOrigin, store)[i] == o;
      var k := CallableOfArtefact(seeds, callables, templates, store, i);
      assert callables[k].generic && callables[k].origin == o;
    }
    forall k | 0 <= k < |callables| && callables[k].generic && callables[k].origin == o
      ensures o in Map(ArtefactOrigin, store)
    {
      var i := ArtefactOfCallable(seeds, callables, templates, store, k);
      assert Map(ArtefactOrigin, store)[i] == o;
    }
  }

  lemma CallableOfArtefact(
    seeds: seq<Seed>, callables: seq<Callable>, templates: map<Path, Template>, store: seq<Artefact>, i: nat)
    returns (k: nat)
    requires ValidSeeds(seeds, callables) && GenericsHaveTemplates(seeds, templates)
    requires multiset(store) == multiset(ArtefactsOf(seeds, templates)) && i < |store|
    ensures k < |callables| && callables[k].generic && callables[k].origin == store[i].origin
  {
    hide ArtefactsOf, GenericPathsApart, NoRepeats;
    assert store[i] in multiset(store);
    ArtefactsFollowSeeds(seeds, templates, store[i]);
    var j :| 0 <= j < |seeds| && seeds[j].generic && store[i] == Artefact(seeds[j].origin, templates[seeds[j].path]);
    assert Matches(seeds[j], callables);
    k :| 0 <= k < |callables| && callables[k].origin == seeds[j].origin && callables[k].generic == seeds[j].generic;
  }

  lemma ArtefactOfCallable(
    seeds: seq<Seed>, callables: seq<Callable>, templates: map<Path, Template>, store: seq<Artefact>, k: nat)
    returns (i: nat)
    requires ValidSeeds(seeds, callables) && GenericsHaveTemplates(seeds, templates)
    requires NoRepeats(Map(CallableOrigin, callables))
    requires multiset(store) == multiset(ArtefactsOf(seeds, templates)) && k < |callables| && callables[k].generic
    ensures i < |store| && store[i].origin == callables[k].origin
  {
    hide ArtefactsOf, ValidSeeds, NoRepeats;
    var j := SeedOf(seeds, callables, k);
    var artefact := Artefact(seeds[j].origin, templates[seeds[j].path]);
    ArtefactsFollowSeeds(seeds, templates, artefact);
    assert artefact in multiset(store);
    i :| 0 <= i < |store| && store[i] == artefact;
  }

  lemma SeedOf(seeds: seq<Seed>, callables: seq<Callable>, k: nat) returns (j: nat)
    requires ValidSeeds(seeds, callables) && NoRepeats(Map(CallableOrigin, callables)) && k < |callables|
    ensures j < |seeds| && seeds[j].origin == callables[k].origin && seeds[j].generic == callables[k].generic
  {
    SeedsAreTheCallables(seeds, callables);
    var a, b := Map(SeedOrigin, seeds), Map(CallableOrigin, callables);
    assert b[k] in multiset(a);
    j :| 0 <= j < |a| && a[j] == b[k];
    assert Matches(seeds[j], callables);
    var i :| 0 <= i < |callables| && callables[i].origin == seeds[j].origin && callables[i].generic == seeds[j].generic;
    assert b[i] == b[k];
  }

  lemma {:induction false} ArtefactForEachPath(seeds: seq<Seed>, templates: map<Path, Template>)
    requires GenericPathsApart(seeds) && GenericsHaveTemplates(seeds, templates)
    ensures |ArtefactsOf(seeds, templates)| == |GenericPaths(seeds)|
  {
    if seeds == [] {
      assert GenericPaths(seeds) == {};
    } else {
      var before, last := seeds[..|seeds| - 1], seeds[|seeds| - 1];
      ArtefactForEachPath(before, templates);
      assert seeds == before + [last];
      if last.generic {
        assert GenericPaths(seeds) == GenericPaths(before) + {last.path};
        forall i | 0 <= i < |before| && before[i].generic
          ensures before[i].path != last.path
        {
          assert seeds[i] == before[i];
        }
        assert last.path !in GenericPaths(before);
      } else {
        assert GenericPaths(seeds) == GenericPaths(before);
      }
    }
  }

  /** Every template is accounted for: it became one artefact or stays behind, and none that
      stays behind sits on a public path. */
  lemma TemplatesAccountedFor(seeds: seq<Seed>, templates: map<Path, Template>)
    requires GenericPathsApart(seeds) && TemplatesMatch(seeds, templates)
    ensures |ArtefactsOf(seeds, templates)| + |templates - GenericPaths(seeds)| == |templates|
    ensures forall i :: 0 <= i < |seeds| ==> seeds[i].path !in templates - GenericPaths(seeds)
  {
    ArtefactForEachPath(seeds, templates);
    var taken, left := GenericPaths(seeds), templates - GenericPaths(seeds);
    assert taken <= templates.Keys;
    assert left.Keys == templates.Keys - taken;
    assert |left| == |left.Keys| && |templates| == |templates.Keys|;
    forall i | 0 <= i < |seeds|
      ensures seeds[i].path !in left
    {
      assert seeds[i].generic ==> seeds[i].path in taken;
    }
  }

  // ---------------------------------------------------------------- seed order

  lemma GenericPathsByCount(seeds: seq<Seed>)
    ensures GenericPathsApart(seeds) <==>
        forall seed :: seed in seeds && seed.generic ==> multiset(Map(SeedPath, seeds))[seed.path] == 1
  {
    var paths := Map(SeedPath, seeds);
    if GenericPathsApart(seeds) {
      forall seed | seed in seeds && seed.generic
        ensures multiset(paths)[seed.path] == 1
      {
        var i :| 0 <= i < |seeds| && seeds[i] == seed;
        assert forall j :: 0 <= j < |paths| && j != i ==> paths[j] != paths[i];
        OnceCounts(paths, i);
      }
    } else {
      var i, j :| 0 <= i < j < |seeds| && seeds[i].path == seeds[j].path && (seeds[i].generic || seeds[j].generic);
      TwiceCounts(paths, i, j);
      assert seeds[i] in seeds && seeds[j] in seeds;
    }
  }

  /** Whether extraction succeeds does not depend on the order of the seeds. */
  lemma ExtractableInAnyOrder(
    records: seq<DeclarationRecord>, seeds: seq<Seed>, shuffled: seq<Seed>, templates: map<Path, Template>)
    requires multiset(seeds) == multiset(shuffled) && Extractable(records, seeds, templates)
    ensures Extractable(records, shuffled, templates)
  {
    hide AllWellPlaced, GenericPathsApart, NoRepeats, Matches;
    assert |multiset(seeds)| == |multiset(shuffled)|;
    forall seed | seed in shuffled
      ensures seed in seeds
    {
      assert seed in multiset(shuffled);
    }
    SameImagesOfSame(SeedPath, seeds, shuffled);
    SameImagesOfSame(SeedOrigin, seeds, shuffled);
    GenericPathsByCount(seeds);
    GenericPathsByCount(shuffled);
    RepeatsByCount(Map(SeedOrigin, seeds));
    RepeatsByCount(Map(SeedOrigin, shuffled));
    forall x | x in Map(SeedOrigin, shuffled)
      ensures x in Map(SeedOrigin, seeds)
    {
      assert x in multiset(Map(SeedOrigin, shuffled));
    }
    forall i | 0 <= i < |shuffled|
      ensures Matches(shuffled[i], Callables(records))
      ensures shuffled[i].generic <==> shuffled[i].path in templates
    {
      assert shuffled[i] in shuffled;
      var j :| 0 <= j < |seeds| && seeds[j] == shuffled[i];
    }
  }

  lemma {:induction false} ArtefactCount(seeds: seq<Seed>, templates: map<Path, Template>, a: Artefact)
    requires GenericsHaveTemplates(seeds, templates) && NoRepeats(Map(SeedOrigin, seeds))
    ensures multiset(ArtefactsOf(seeds, templates))[a] == if a in ArtefactsOf(seeds, templates) then 1 else 0
  {
    ArtefactOriginsDistinct(seeds, templates);
    var artefacts := ArtefactsOf(seeds, templates);
    forall i, j | 0 <= i < j < |artefacts|
      ensures artefacts[i] != artefacts[j]
    {
      assert Map(ArtefactOrigin, artefacts)[i] != Map(ArtefactOrigin, artefacts)[j];
    }
    DistinctCounts(artefacts, a);
  }

  /** The store does not depend on the order of the seeds. */
  lemma SeedOrderNeverMatters(
    records: seq<DeclarationRecord>, seeds: seq<Seed>, shuffled: seq<Seed>, templates: map<Path, Template>)
    requires Extractable(records, seeds, templates) && multiset(seeds) == multiset(shuffled)
    ensures Extractable(records, shuffled, templates)
    ensures SortBy(ArtefactLeq, ArtefactsOf(seeds, templates)) == SortBy(ArtefactLeq, ArtefactsOf(shuffled, templates))
  {
    hide ArtefactLeq, ValidSeeds, AllWellPlaced, ArtefactsOf, NoRepeats;
    ExtractableInAnyOrder(records, seeds, shuffled, templates);
    SeedOriginsDistinct(seeds, Callables(records));
    SeedOriginsDistinct(shuffled, Callables(records));
    var a, b := ArtefactsOf(seeds, templates), ArtefactsOf(shuffled, templates);
    forall x
      ensures multiset(a)[x] == multiset(b)[x]
    {
      ArtefactCount(seeds, templates, x);
      ArtefactCount(shuffled, templates, x);
      SameSeedsSameArtefacts(seeds, shuffled, templates, x);
      SameSeedsSameArtefacts(shuffled, seeds, templates, x);
    }
    ArtefactOrder(seeds, templates);
    SortWithoutTies(ArtefactLeq, a, b);
  }

  lemma SeedOriginsDistinct(seeds: seq<Seed>, callables: seq<Callable>)
    requires ValidSeeds(seeds, callables)
    ensures NoRepeats(Map(SeedOrigin, seeds))
  {
  }

  lemma ArtefactOrder(seeds: seq<Seed>, templates: map<Path, Template>)
    requires GenericsHaveTemplates(seeds, templates) && NoRepeats(Map(SeedOrigin, seeds))
    ensures TotalPreorder(ArtefactLeq) && NoTies(ArtefactLeq, ArtefactsOf(seeds, templates))
  {
    hide OriginLeq, ArtefactsOf;
    OriginLinear();
    ArtefactOriginsDistinct(seeds, templates);
    var a := ArtefactsOf(seeds, templates);
    forall x, y | x in a && y in a && ArtefactLeq(x, y) && ArtefactLeq(y, x)
      ensures x == y
    {
      var i :| 0 <= i < |a| && a[i] == x;
      var j :| 0 <= j < |a| && a[j] == y;
      assert Map(ArtefactOrigin, a)[i] == Map(ArtefactOrigin, a)[j];
    }
  }

  lemma SameSeedsSameArtefacts(
    seeds: seq<Seed>, shuffled: seq<Seed>, templates: map<Path, Template>, a: Artefact)
    requires GenericsHaveTemplates(seeds, templates) && GenericsHaveTemplates(shuffled, templates)
    requires multiset(seeds) == multiset(shuffled)
    ensures a in ArtefactsOf(seeds, templates) ==> a in ArtefactsOf(shuffled, templates)
  {
    hide ArtefactsOf;
    ArtefactsFollowSeeds(seeds, templates, a);
    if i :| 0 <= i < |seeds| && seeds[i].generic && a == Artefact(seeds[i].origin, templates[seeds[i].path]) {
      assert seeds[i] in multiset(shuffled);
      var j :| 0 <= j < |shuffled| && shuffled[j] == seeds[i];
      ArtefactsFollowSeeds(shuffled, templates, a);
    }
  }
}
