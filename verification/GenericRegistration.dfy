/** Registration of the generic parameters of all public roots, and of the receiver methods.

    Free functions and nominals own the parameters of their lists; then the receiver methods'
    parameters are aliased to their receivers'. */
module GenericRegistration {
  import opened Wrappers
  import opened Sorting
  import opened Bytes
  import opened Identities
  import opened TypeProjection
  import opened GenericParameterOrigins

  /** The generic side of a resolved public root. A function root has the name of its path, if
      the path has one. */
  datatype Root =
    | FunctionRoot(name: Option<Text>, list: Option<ListId>)
    | NominalRoot(type_: TypeId)
    | AliasOrConstantRoot

  datatype RootError =
    | NamelessFunction
    | NoExportBinding
    | ReceiverIsNoOwner
    | NotANominal
    | NoOrigin
    | AliasIsNoOwner
    | ListError(error: AliasError)

  datatype RootRegistration = RootRegistration(origins: Origins, outcome: Outcome<RootError>)

  // ---------------------------------------------------------------- owners

  /** The function origins by public name; a later binding of a name replaces an earlier one. */
  function FunctionsByName(bindings: seq<ExportBinding>): map<Text, OriginFunction> {
    if bindings == [] then map[]
    else
      var before, last := FunctionsByName(bindings[..|bindings| - 1]), bindings[|bindings| - 1];
      if last.origin.FunctionOrigin? then before[last.publicName := last.origin.function_] else before
  }

  /** What a root registers: an owner with its list, or nothing. */
  function RootList(
    root: Root, functions: map<Text, OriginFunction>, nominals: map<NominalId, OriginType>, env: TypeEnvironment)
    : Result<Option<(GenericOwner, ListId)>, RootError>
  {
    match root
    case AliasOrConstantRoot => Success(None)
    case FunctionRoot(_, None) => Success(None)
    case FunctionRoot(None, Some(_)) => Failure(NamelessFunction)
    case FunctionRoot(Some(name), Some(list)) =>
      if name !in functions then Failure(NoExportBinding)
      else if functions[name].kind.Receiver? then Failure(ReceiverIsNoOwner)
      else Success(Some((FreeFunction(functions[name]), list)))
    case NominalRoot(type_) =>
      var nominal :- NominalOf(type_, env);
      var list := if env.types[type_].StructDefinition? then env.structs[nominal] else env.choices[nominal];
      if list.None? then Success(None)
      else if nominal !in nominals then Failure(NoOrigin)
      else if nominals[nominal].category.AliasCategory? then Failure(AliasIsNoOwner)
      else Success(Some((NominalType(nominals[nominal]), list.value)))
  }

  function NominalOf(type_: TypeId, env: TypeEnvironment): (r: Result<NominalId, RootError>)
    ensures r.Success? ==> type_ < |env.types| && match env.types[type_]
                                                  case StructDefinition(n) => n == r.value && n in env.structs
                                                  case ChoiceDefinition(n) => n == r.value && n in env.choices
                                                  case _ => false
  {
    if type_ >= |env.types| then Failure(NotANominal)
    else
      match env.types[type_]
      case StructDefinition(nominal) => if nominal in env.structs then Success(nominal) else Failure(NotANominal)
      case ChoiceDefinition(nominal) => if nominal in env.choices then Success(nominal) else Failure(NotANominal)
      case _ => Failure(NotANominal)
  }

  function RegisteredRoot(
    origins: Origins, root: Root, functions: map<Text, OriginFunction>, nominals: map<NominalId, OriginType>,
    env: TypeEnvironment): RootRegistration
  {
    match RootList(root, functions, nominals, env)
    case Failure(error) => RootRegistration(origins, Fail(error))
    case Success(None) => RootRegistration(origins, Pass)
    case Success(Some((owner, list))) =>
      if list !in env.lists then RootRegistration(origins, Fail(ListError(MissingList)))
      else Lifted(RegisteredFrom(origins, owner, env.lists[list], 0))
  }

  function Lifted(r: Registration): RootRegistration {
    match r.outcome
    case Pass => RootRegistration(r.origins, Pass)
    case Fail(error) => RootRegistration(r.origins, Fail(ListError(error)))
  }

  function RegisteredRoots(
    origins: Origins, roots: seq<Root>, functions: map<Text, OriginFunction>, nominals: map<NominalId, OriginType>,
    env: TypeEnvironment): RootRegistration
    decreases |roots|
  {
    if roots == [] then RootRegistration(origins, Pass)
    else
      var next := RegisteredRoot(origins, roots[0], functions, nominals, env);
      if next.outcome.Fail? then next else RegisteredRoots(next.origins, roots[1..], functions, nominals, env)
  }

  /** The roots in order and then the receiver methods. */
  function RegisteredAll(
    roots: seq<Root>, functions: map<Text, OriginFunction>, nominals: map<NominalId, OriginType>,
    entries: seq<ReceiverMethodEntry>, surface: Surface): RootRegistration
  {
    var owned := RegisteredRoots(map[], roots, functions, nominals, surface.env);
    if owned.outcome.Fail? then owned else Lifted(AliasedMethods(owned.origins, entries, surface))
  }

  // ---------------------------------------------------------------- the pass

  method IndexFunctions(bindings: seq<ExportBinding>) returns (functions: map<Text, OriginFunction>)
    ensures functions == FunctionsByName(bindings)
  {
    functions := map[];
    for i := 0 to |bindings|
      invariant functions == FunctionsByName(bindings[..i])
    {
      assert bindings[..i + 1][..i] == bindings[..i];
      var binding := bindings[i];
      if binding.origin.FunctionOrigin? {
        functions := functions[binding.publicName := binding.origin.function_];
      }
    }
    assert bindings[..|bindings|] == bindings;
  }

  /** `register_generic_parameter_origins` on a new resolver. */
  method RegisterGenericParameterOrigins(
    resolver: GenericParameterOriginResolver, roots: seq<Root>, bindings: seq<ExportBinding>,
    nominals: map<NominalId, OriginType>, entries: seq<ReceiverMethodEntry>, surface: Surface)
    returns (r: Outcome<RootError>)
    requires resolver.origins == map[]
    modifies resolver
    ensures RootRegistration(resolver.origins, r)
         == RegisteredAll(roots, FunctionsByName(bindings), nominals, entries, surface)
  {
    hide RegisteredFrom, AliasedMethods, RootList;
    var functions := IndexFunctions(bindings);
    var env := surface.env;
    assert roots[0..] == roots;
    for i := 0 to |roots|
      invariant RegisteredRoots(map[], roots, functions, nominals, env)
             == RegisteredRoots(resolver.origins, roots[i..], functions, nominals, env)
    {
      assert roots[i..][0] == roots[i] && roots[i..][1..] == roots[i + 1..];
      var list := RootList(roots[i], functions, nominals, env);
      if list.Failure? {
        return Fail(list.error);
      }
      if list.value.Some? {
        var registered := resolver.RegisterList(env, list.value.value.1, list.value.value.0);
        if registered.Fail? {
          return Fail(ListError(registered.error));
        }
      }
    }
    var aliased := resolver.RegisterReceiverMethodAliases(entries, surface);
    if aliased.Fail? {
      return Fail(ListError(aliased.error));
    }
    return Pass;
  }

  // ---------------------------------------------------------------- when the roots register

  /** Each root names an owner with a known list, or nothing. */
  predicate RootsResolve(
    roots: seq<Root>, functions: map<Text, OriginFunction>, nominals: map<NominalId, OriginType>, env: TypeEnvironment)
  {
    forall i :: 0 <= i < |roots| ==> RootResolves(roots[i], functions, nominals, env)
  }

  predicate RootResolves(
    root: Root, functions: map<Text, OriginFunction>, nominals: map<NominalId, OriginType>, env: TypeEnvironment)
  {
    var list := RootList(root, functions, nominals, env);
    list.Success? && (list.value.Some? ==> list.value.value.1 in env.lists)
  }

  function IdsOf(list: seq<ListedParameter>): (r: seq<ParameterId>)
    ensures |r| == |list| && forall i :: 0 <= i < |r| ==> r[i] == list[i].id
  {
    seq(|list|, i requires 0 <= i < |list| => list[i].id)
  }

  /** The parameters of one root. */
  function RootParameters(
    root: Root, functions: map<Text, OriginFunction>, nominals: map<NominalId, OriginType>, env: TypeEnvironment)
    : seq<ListedParameter>
  {
    match RootList(root, functions, nominals, env)
    case Success(Some((_, list))) => if list in env.lists then env.lists[list] else []
    case _ => []
  }

  /** The parameters of all roots, in order. */
  function AllParameters(
    roots: seq<Root>, functions: map<Text, OriginFunction>, nominals: map<NominalId, OriginType>, env: TypeEnvironment)
    : seq<ParameterId>
  {
    if roots == [] then []
    else IdsOf(RootParameters(roots[0], functions, nominals, env)) + AllParameters(roots[1..], functions, nominals, env)
  }

  predicate Unregistered(origins: Origins, ids: seq<ParameterId>) {
    forall i :: 0 <= i < |ids| ==> ids[i] !in origins
  }

  lemma FreshListIds(origins: Origins, list: seq<ListedParameter>)
    ensures FreshFrom(origins, list, 0) <==> Unregistered(origins, IdsOf(list)) && NoRepeats(IdsOf(list))
  {
    var ids := IdsOf(list);
    assert forall i :: 0 <= i < |list| ==> ids[i] == list[i].id;
  }

  lemma UnregisteredAfter(origins: Origins, next: Origins, ids: seq<ParameterId>, others: seq<ParameterId>)
    requires Unregistered(origins, ids) && NoRepeats(ids)
    requires forall p :: p in next <==> p in origins || p in ids
    ensures Unregistered(next, others) && NoRepeats(others)
       <==> Unregistered(origins, ids + others) && NoRepeats(ids + others)
  {
    var all := ids + others;
    assert forall i :: 0 <= i < |others| ==> others[i] == all[|ids| + i];
    if Unregistered(next, others) && NoRepeats(others) {
      forall i, j | 0 <= i < j < |all|
        ensures all[i] != all[j]
      {
        if i < |ids| <= j {
          assert all[j] == others[j - |ids|] && all[i] in ids;
        }
      }
      forall i | 0 <= i < |all|
        ensures all[i] !in origins
      {
        assert i >= |ids| ==> all[i] == others[i - |ids|];
      }
    }
    if Unregistered(origins, all) && NoRepeats(all) {
      forall i | 0 <= i < |others|
        ensures others[i] !in next
      {
        forall k | 0 <= k < |ids|
          ensures ids[k] != others[i]
        {
          assert all[k] == ids[k] && all[|ids| + i] == others[i];
        }
      }
      forall i, j | 0 <= i < j < |others|
        ensures others[i] != others[j]
      {
        assert all[|ids| + i] != all[|ids| + j];
      }
    }
  }

  lemma RootRegistersExactly(
    origins: Origins, root: Root, functions: map<Text, OriginFunction>, nominals: map<NominalId, OriginType>,
    env: TypeEnvironment)
    ensures
      var next := RegisteredRoot(origins, root, functions, nominals, env);
      var ids := IdsOf(RootParameters(root, functions, nominals, env));
      && (next.outcome.Pass? <==>
          RootResolves(root, functions, nominals, env) && Unregistered(origins, ids) && NoRepeats(ids))
      && (next.outcome.Pass? ==> forall p :: p in next.origins <==> p in origins || p in ids)
  {
    hide RegisteredFrom;
    var ids := IdsOf(RootParameters(root, functions, nominals, env));
    match RootList(root, functions, nominals, env) {
      case Success(Some((owner, list))) =>
        if list in env.lists {
          ListRegistersExactly(origins, owner, env.lists[list], 0);
          FreshListIds(origins, env.lists[list]);
          assert forall i :: 0 <= i < |ids| ==> ids[i] == env.lists[list][i].id;
        }
      case _ =>
    }
  }

  /** The roots register exactly when each of them resolves and no parameter is listed twice
      among all of them; then exactly their parameters have owners. */
  lemma {:induction false} RootsRegisterExactly(
    origins: Origins, roots: seq<Root>, functions: map<Text, OriginFunction>, nominals: map<NominalId, OriginType>,
    env: TypeEnvironment)
    ensures
      var after := RegisteredRoots(origins, roots, functions, nominals, env);
      var ids := AllParameters(roots, functions, nominals, env);
      && (after.outcome.Pass? <==>
          RootsResolve(roots, functions, nominals, env) && Unregistered(origins, ids) && NoRepeats(ids))
      && (after.outcome.Pass? ==> forall p :: p in after.origins <==> p in origins || p in ids)
    decreases |roots|
  {
    hide RegisteredRoot, RootResolves, RootParameters;
    if roots != [] {
      var others := roots[1..];
      assert roots == [roots[0]] + others;
      var next := RegisteredRoot(origins, roots[0], functions, nominals, env);
      var ids := IdsOf(RootParameters(roots[0], functions, nominals, env));
      var otherIds := AllParameters(others, functions, nominals, env);
      RootRegistersExactly(origins, roots[0], functions, nominals, env);
      RootsRegisterExactly(next.origins, others, functions, nominals, env);
      if next.outcome.Pass? {
        UnregisteredAfter(origins, next.origins, ids, otherIds);
      } else {
        PartsUnregistered(origins, ids, otherIds);
      }
    }
  }

  lemma PartsUnregistered(origins: Origins, ids: seq<ParameterId>, others: seq<ParameterId>)
    ensures Unregistered(origins, ids + others) && NoRepeats(ids + others) ==>
        Unregistered(origins, ids) && NoRepeats(ids)
  {
    var all := ids + others;
    assert forall i :: 0 <= i < |ids| ==> ids[i] == all[i];
  }

  /** The whole registration succeeds exactly when the roots do and the receiver methods are
      aligned with owned parameters without a contradiction. */
  lemma AllRegisterExactly(
    roots: seq<Root>, functions: map<Text, OriginFunction>, nominals: map<NominalId, OriginType>,
    entries: seq<ReceiverMethodEntry>, surface: Surface)
    ensures
      var owned := RegisteredRoots(map[], roots, functions, nominals, surface.env).origins;
      var aliases := AliasesOf(entries, surface);
      RegisteredAll(roots, functions, nominals, entries, surface).outcome.Pass?
      <==> && RootsResolve(roots, functions, nominals, surface.env)
           && NoRepeats(AllParameters(roots, functions, nominals, surface.env))
           && AllAligned(entries, surface) && TargetsKnown(owned, aliases) && Solvable(owned, aliases)
  {
    hide RegisteredRoots, AliasedMethods, RootsResolve, AllParameters, AllAligned, TargetsKnown, Solvable, AliasesOf;
    RootsRegisterExactly(map[], roots, functions, nominals, surface.env);
    PassSucceedsExactly(RegisteredRoots(map[], roots, functions, nominals, surface.env).origins, entries, surface);
  }

  // ---------------------------------------------------------------- identities stay apart

  predicate ShortLists(env: TypeEnvironment) {
    forall list :: list in env.lists ==> |env.lists[list]| <= TWO_TO_32
  }

  /** Roots that register parameters have different owners. */
  predicate OwnersDiffer(
    roots: seq<Root>, functions: map<Text, OriginFunction>, nominals: map<NominalId, OriginType>, env: TypeEnvironment)
  {
    forall i, j :: 0 <= i < j < |roots| ==> OwnerDiffers(roots[i], roots[j], functions, nominals, env)
  }

  predicate OwnerDiffers(
    a: Root, b: Root, functions: map<Text, OriginFunction>, nominals: map<NominalId, OriginType>, env: TypeEnvironment)
  {
    var owner := Owner(a, functions, nominals, env);
    owner.Some? ==> owner != Owner(b, functions, nominals, env)
  }

  /** The owner of the parameters of a root that has any. */
  function Owner(
    root: Root, functions: map<Text, OriginFunction>, nominals: map<NominalId, OriginType>, env: TypeEnvironment)
    : Option<GenericOwner>
  {
    match RootList(root, functions, nominals, env)
    case Success(Some((owner, list))) => if list in env.lists && env.lists[list] != [] then Some(owner) else None
    case _ => None
  }

  ghost predicate OwnersUnused(
    origins: Origins, roots: seq<Root>, functions: map<Text, OriginFunction>, nominals: map<NominalId, OriginType>,
    env: TypeEnvironment)
  {
    forall i :: 0 <= i < |roots| ==> OwnerUnusedBy(origins, Owner(roots[i], functions, nominals, env))
  }

  ghost predicate OwnerUnusedBy(origins: Origins, owner: Option<GenericOwner>) {
    owner.Some? ==> OwnerUnused(origins, owner.value)
  }

  lemma RootKeepsApart(
    origins: Origins, root: Root, functions: map<Text, OriginFunction>, nominals: map<NominalId, OriginType>,
    env: TypeEnvironment)
    requires InjectiveAnswers(origins) && OwnerUnusedBy(origins, Owner(root, functions, nominals, env))
    requires ShortLists(env) && RegisteredRoot(origins, root, functions, nominals, env).outcome.Pass?
    ensures
      var after := RegisteredRoot(origins, root, functions, nominals, env).origins;
      && InjectiveAnswers(after)
      && (forall p :: p in after ==>
          (p in origins && after[p] == origins[p]) || Owner(root, functions, nominals, env) == Some(after[p].owner))
  {
    hide RootList, InjectiveAnswers;
    match RootList(root, functions, nominals, env) {
      case Success(Some((owner, list))) =>
        if env.lists[list] != [] {
          RegistrationKeepsIdentitiesApart(origins, owner, env.lists[list]);
          ListRegistersExactly(origins, owner, env.lists[list], 0);
        }
      case _ =>
    }
  }

  /** When roots have different owners, no two parameters get the same identity. */
  lemma {:induction false} RootsKeepApart(
    origins: Origins, roots: seq<Root>, functions: map<Text, OriginFunction>, nominals: map<NominalId, OriginType>,
    env: TypeEnvironment)
    requires InjectiveAnswers(origins) && OwnersUnused(origins, roots, functions, nominals, env)
    requires OwnersDiffer(roots, functions, nominals, env) && ShortLists(env)
    requires RegisteredRoots(origins, roots, functions, nominals, env).outcome.Pass?
    ensures InjectiveAnswers(RegisteredRoots(origins, roots, functions, nominals, env).origins)
    decreases |roots|
  {
    hide InjectiveAnswers, RegisteredRoot, Owner, ShortLists;
    if roots != [] {
      var others := roots[1..];
      var next := RegisteredRoot(origins, roots[0], functions, nominals, env);
      assert forall i :: 0 <= i < |others| ==> others[i] == roots[i + 1];
      RootKeepsApart(origins, roots[0], functions, nominals, env);
      forall i | 0 <= i < |others|
        ensures OwnerUnusedBy(next.origins, Owner(others[i], functions, nominals, env))
      {
        assert OwnerUnusedBy(origins, Owner(roots[i + 1], functions, nominals, env));
        assert OwnerDiffers(roots[0], roots[i + 1], functions, nominals, env);
      }
      forall i, j | 0 <= i < j < |others|
        ensures OwnerDiffers(others[i], others[j], functions, nominals, env)
      {
        assert OwnerDiffers(roots[i + 1], roots[j + 1], functions, nominals, env);
      }
      RootsKeepApart(next.origins, others, functions, nominals, env);
    }
  }

  // ---------------------------------------------------------------- why owners differ

  /** A function root that registers parameters under an origin of its own. */
  predicate IsGenericFunction(root: Root, functions: map<Text, OriginFunction>) {
    root.FunctionRoot? && root.list.Some? && root.name.Some? && root.name.value in functions
  }

  /** No two generic function roots are bound to one origin. */
  predicate OriginsDiffer(roots: seq<Root>, functions: map<Text, OriginFunction>) {
    forall i, j :: 0 <= i < j < |roots| && IsGenericFunction(roots[i], functions)
                   && IsGenericFunction(roots[j], functions) ==>
      functions[roots[i].name.value] != functions[roots[j].name.value]
  }

  predicate OneKind(env: TypeEnvironment) {
    forall n :: n in env.structs ==> n !in env.choices
  }

  lemma {:induction false} ParametersOfRoot(
    roots: seq<Root>, i: nat, p: ParameterId, functions: map<Text, OriginFunction>,
    nominals: map<NominalId, OriginType>, env: TypeEnvironment)
    requires i < |roots| && p in IdsOf(RootParameters(roots[i], functions, nominals, env))
    ensures p in AllParameters(roots, functions, nominals, env)
    decreases |roots|
  {
    if i > 0 {
      assert roots[1..][i - 1] == roots[i];
      ParametersOfRoot(roots[1..], i - 1, p, functions, nominals, env);
    }
  }

  lemma OnceInBoth(ids: seq<ParameterId>, others: seq<ParameterId>, p: ParameterId)
    requires NoRepeats(ids + others) && p in ids
    ensures p !in others
  {
    var k :| 0 <= k < |ids| && ids[k] == p;
    forall l | 0 <= l < |others|
      ensures others[l] != p
    {
      assert (ids + others)[k] == p && (ids + others)[|ids| + l] == others[l];
    }
  }

  /** A parameter is listed by one root only. */
  lemma {:induction false} ListedOnce(
    roots: seq<Root>, i: nat, j: nat, p: ParameterId, functions: map<Text, OriginFunction>,
    nominals: map<NominalId, OriginType>, env: TypeEnvironment)
    requires i < j < |roots| && NoRepeats(AllParameters(roots, functions, nominals, env))
    requires p in IdsOf(RootParameters(roots[i], functions, nominals, env))
    ensures p !in IdsOf(RootParameters(roots[j], functions, nominals, env))
    decreases |roots|
  {
    hide RootParameters;
    var others := roots[1..];
    var ids := IdsOf(RootParameters(roots[0], functions, nominals, env));
    var rest := AllParameters(others, functions, nominals, env);
    var all := ids + rest;
    assert all == AllParameters(roots, functions, nominals, env);
    assert others[j - 1] == roots[j];
    if i == 0 {
      if p in IdsOf(RootParameters(roots[j], functions, nominals, env)) {
        OnceInBoth(ids, rest, p);
        ParametersOfRoot(others, j - 1, p, functions, nominals, env);
      }
    } else {
      assert others[i - 1] == roots[i];
      forall k, l | 0 <= k < l < |rest|
        ensures rest[k] != rest[l]
      {
        assert all[|ids| + k] == rest[k] && all[|ids| + l] == rest[l];
      }
      ListedOnce(others, i - 1, j - 1, p, functions, nominals, env);
    }
  }

  /** Owners differ when generic functions have different origins and nominals different
      identities: a nominal registered twice would list its parameters twice. */
  lemma OwnersDifferIf(
    roots: seq<Root>, functions: map<Text, OriginFunction>, nominals: map<NominalId, OriginType>, env: TypeEnvironment)
    requires OriginsDiffer(roots, functions) && InjectiveAnswers(nominals) && OneKind(env)
    requires NoRepeats(AllParameters(roots, functions, nominals, env))
    ensures OwnersDiffer(roots, functions, nominals, env)
  {
    hide AllParameters;
    forall i, j | 0 <= i < j < |roots|
      ensures OwnerDiffers(roots[i], roots[j], functions, nominals, env)
    {
      if Owner(roots[i], functions, nominals, env).Some? {
        var p := RootParameters(roots[i], functions, nominals, env)[0].id;
        assert IdsOf(RootParameters(roots[i], functions, nominals, env))[0] == p;
        ListedOnce(roots, i, j, p, functions, nominals, env);
      }
    }
  }

  lemma NothingUsed(
    roots: seq<Root>, functions: map<Text, OriginFunction>, nominals: map<NominalId, OriginType>, env: TypeEnvironment)
    ensures InjectiveAnswers<ParameterId, GenericParameterIdentity>(map[])
    ensures OwnersUnused(map[], roots, functions, nominals, env)
  {
    hide Owner;
  }

  /** The faithfulness of a whole registration: when it succeeds, over resolvers that keep
      generic functions, nominals and externals apart, two types share an identity exactly when they are
      the same once the methods' parameters are replaced by the receivers'. */
  lemma RegistrationIsFaithful(
    s: Term, t: Term, roots: seq<Root>, functions: map<Text, OriginFunction>, context: Context,
    entries: seq<ReceiverMethodEntry>, surface: Surface)
    requires OriginsDiffer(roots, functions)
    requires InjectiveAnswers(context.nominals) && InjectiveAnswers(context.externals)
    requires OneKind(surface.env) && ShortLists(surface.env)
    requires RegisteredAll(roots, functions, context.nominals, entries, surface)
          == RootRegistration(context.parameters, Pass)
    requires TermIdentity(s, context).Some?
    ensures TermIdentity(s, context) == TermIdentity(t, context)
       <==> Substitute(s, AliasesOf(entries, surface)) == Substitute(t, AliasesOf(entries, surface))
  {
    hide RegisteredRoots, AliasedMethods, AliasesOf, AliasedAll, TermIdentity, Substitute, AllParameters, ShortLists;
    hide OneKind, OriginsDiffer, InjectiveAnswers, RootsResolve, AllAligned;
    var owned := RegisteredRoots(map[], roots, functions, context.nominals, surface.env);
    var aliases := AliasesOf(entries, surface);
    RootsRegisterExactly(map[], roots, functions, context.nominals, surface.env);
    OwnersDifferIf(roots, functions, context.nominals, surface.env);
    NothingUsed(roots, functions, context.nominals, surface.env);
    RootsKeepApart(map[], roots, functions, context.nominals, surface.env);
    PassIsItsAliases(owned.origins, entries, surface);
    var before := context.(parameters := owned.origins);
    assert WithAliases(before, aliases) == context;
    FaithfulUpToAliases(s, t, aliases, before);
  }
}
