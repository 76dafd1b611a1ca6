/** The resolver from module-local generic parameters to their exported identities.

    Declarations register their own parameter lists. A generic receiver method owns no
    parameters: its local ones are aliased, position by position, to the receiver's. Aliasing
    is substitution: a type over the method's parameters gets the identity of the type with
    each of them replaced by the receiver's parameter. */
module GenericParameterOrigins {
  import opened Wrappers
  import opened Bytes
  import opened Identities
  import opened TypeProjection

  type Origins = map<ParameterId, GenericParameterIdentity>

  datatype AliasError =
    | MissingList
    | AmbiguousOwner(parameter: ParameterId)
    | UnregisteredParameter(parameter: ParameterId)
    | ConflictingIdentity(parameter: ParameterId)
    | CountMismatch
    | NameMismatch
    | NonNominalReceiver
    | UnknownReceiver
    | NonGenericReceiver

  /** The map after a number of registrations, and why they stopped. */
  datatype Registration = Registration(origins: Origins, outcome: Outcome<AliasError>)

  // ---------------------------------------------------------------- registering a list

  function IdentityAt(owner: GenericOwner, list: seq<ListedParameter>, k: nat): GenericParameterIdentity
    requires k < |list|
  {
    GenericParameterIdentity(owner, (k % TWO_TO_32) as u32, list[k].name)
  }

  function RegisteredFrom(origins: Origins, owner: GenericOwner, list: seq<ListedParameter>, k: nat): Registration
    decreases |list| - k
  {
    if k >= |list| then Registration(origins, Pass)
    else
      var next := origins[list[k].id := IdentityAt(owner, list, k)];
      if list[k].id in origins then Registration(next, Fail(AmbiguousOwner(list[k].id)))
      else RegisteredFrom(next, owner, list, k + 1)
  }

  // ---------------------------------------------------------------- aliasing

  /** A method's parameter together with the receiver's parameter at the same position. */
  datatype Alias = Alias(local: ParameterId, target: ParameterId)

  function Aligned(nominal: seq<ListedParameter>, method_: seq<ListedParameter>): (r: seq<Alias>)
    requires |nominal| == |method_|
    ensures |r| == |nominal|
    ensures forall k :: 0 <= k < |r| ==> r[k] == Alias(method_[k].id, nominal[k].id)
  {
    seq(|nominal|, k requires 0 <= k < |nominal| => Alias(method_[k].id, nominal[k].id))
  }

  function Aliased(origins: Origins, alias: Alias): Registration {
    if alias.target !in origins then Registration(origins, Fail(UnregisteredParameter(alias.target)))
    else if alias.local !in origins then Registration(origins[alias.local := origins[alias.target]], Pass)
    else if origins[alias.local] == origins[alias.target] then Registration(origins, Pass)
    else Registration(origins, Fail(ConflictingIdentity(alias.local)))
  }

  function AliasedAll(origins: Origins, aliases: seq<Alias>): Registration
    decreases |aliases|
  {
    if aliases == [] then Registration(origins, Pass)
    else
      var next := Aliased(origins, aliases[0]);
      if next.outcome.Fail? then next else AliasedAll(next.origins, aliases[1..])
  }

  function AlignedFrom(
    origins: Origins, nominal: seq<ListedParameter>, method_: seq<ListedParameter>, k: nat): Registration
    requires |nominal| == |method_|
    decreases |nominal| - k
  {
    if k >= |nominal| then Registration(origins, Pass)
    else if nominal[k].name != method_[k].name then Registration(origins, Fail(NameMismatch))
    else
      var next := Aliased(origins, Alias(method_[k].id, nominal[k].id));
      if next.outcome.Fail? then next else AlignedFrom(next.origins, nominal, method_, k + 1)
  }

  function AlignedLists(origins: Origins, env: TypeEnvironment, nominal: ListId, method_: ListId): Registration {
    if nominal !in env.lists || method_ !in env.lists then Registration(origins, Fail(MissingList))
    else if |env.lists[nominal]| != |env.lists[method_]| then Registration(origins, Fail(CountMismatch))
    else AlignedFrom(origins, env.lists[nominal], env.lists[method_], 0)
  }

  // ---------------------------------------------------------------- receiver methods

  datatype ReceiverKey =
    | StructReceiver(path: Path)
    | ChoiceReceiver(path: Path)
    | ExternalReceiver
    | BuiltinReceiver

  datatype ReceiverMethodEntry = ReceiverMethodEntry(functionPath: Path, receiver: ReceiverKey)

  /** What the aliasing pass reads: the generic templates by path, each with its parameter list,
      and the nominals by path. */
  datatype Surface = Surface(env: TypeEnvironment, templates: map<Path, ListId>, nominals: map<Path, NominalId>)

  /** The parameter lists to align for one method: none when it has no template. */
  function ListsToAlign(entry: ReceiverMethodEntry, surface: Surface): Result<Option<(ListId, ListId)>, AliasError> {
    if entry.functionPath !in surface.templates then Success(None)
    else if entry.receiver.ExternalReceiver? || entry.receiver.BuiltinReceiver? then Failure(NonNominalReceiver)
    else if entry.receiver.path !in surface.nominals then Failure(UnknownReceiver)
    else
      var nominal := surface.nominals[entry.receiver.path];
      var env := surface.env;
      if nominal !in env.structs && nominal !in env.choices then Failure(UnknownReceiver)
      else
        var list := if nominal in env.structs then env.structs[nominal] else env.choices[nominal];
        if list.None? then Failure(NonGenericReceiver)
        else Success(Some((list.value, surface.templates[entry.functionPath])))
  }

  function AliasedMethod(origins: Origins, entry: ReceiverMethodEntry, surface: Surface): Registration {
    match ListsToAlign(entry, surface)
    case Failure(error) => Registration(origins, Fail(error))
    case Success(None) => Registration(origins, Pass)
    case Success(Some((nominal, method_))) => AlignedLists(origins, surface.env, nominal, method_)
  }

  function AliasedMethods(origins: Origins, entries: seq<ReceiverMethodEntry>, surface: Surface): Registration
    decreases |entries|
  {
    if entries == [] then Registration(origins, Pass)
    else
      var next := AliasedMethod(origins, entries[0], surface);
      if next.outcome.Fail? then next else AliasedMethods(next.origins, entries[1..], surface)
  }

  // ---------------------------------------------------------------- the resolver

  class GenericParameterOriginResolver {
    var origins: Origins

    constructor ()
      ensures origins == map[]
    {
      origins := map[];
    }

    method RegisterList(env: TypeEnvironment, listId: ListId, owner: GenericOwner) returns (r: Outcome<AliasError>)
      modifies this
      ensures listId !in env.lists ==> r == Fail(MissingList) && origins == old(origins)
      ensures listId in env.lists ==>
          Registration(origins, r) == RegisteredFrom(old(origins), owner, env.lists[listId], 0)
    {
      if listId !in env.lists {
        return Fail(MissingList);
      }
      var list := env.lists[listId];
      for position := 0 to |list|
        invariant RegisteredFrom(old(origins), owner, list, 0) == RegisteredFrom(origins, owner, list, position)
      {
        var parameter := list[position].id;
        var previous := parameter in origins;
        origins := origins[parameter := IdentityAt(owner, list, position)];
        if previous {
          return Fail(AmbiguousOwner(parameter));
        }
      }
      return Pass;
    }

    method RegisterAlignedParameterAlias(parameter: ParameterId, identity: GenericParameterIdentity)
      returns (r: Outcome<AliasError>)
      modifies this
      ensures r.Pass? <==> parameter in old(origins) ==> old(origins)[parameter] == identity
      ensures r.Fail? ==> r == Fail(ConflictingIdentity(parameter)) && origins == old(origins)
      ensures r.Pass? ==> origins == old(origins)[parameter := identity]
    {
      if parameter in origins {
        if origins[parameter] == identity {
          assert origins == origins[parameter := identity];
          return Pass;
        }
        return Fail(ConflictingIdentity(parameter));
      }
      origins := origins[parameter := identity];
      return Pass;
    }

    method AliasAlignedGenericParameters(env: TypeEnvironment, nominal: ListId, method_: ListId)
      returns (r: Outcome<AliasError>)
      modifies this
      ensures Registration(origins, r) == AlignedLists(old(origins), env, nominal, method_)
    {
      if nominal !in env.lists || method_ !in env.lists {
        return Fail(MissingList);
      }
      var nominals, methods := env.lists[nominal], env.lists[method_];
      if |nominals| != |methods| {
        return Fail(CountMismatch);
      }
      for k := 0 to |nominals|
        invariant AlignedFrom(old(origins), nominals, methods, 0) == AlignedFrom(origins, nominals, methods, k)
      {
        if nominals[k].name != methods[k].name {
          return Fail(NameMismatch);
        }
        if nominals[k].id !in origins {
          return Fail(UnregisteredParameter(nominals[k].id));
        }
        ghost var before := origins;
        :- RegisterAlignedParameterAlias(methods[k].id, origins[nominals[k].id]);
        assert methods[k].id in before ==> origins == before;
      }
      return Pass;
    }

    method RegisterReceiverMethodAliases(entries: seq<ReceiverMethodEntry>, surface: Surface)
      returns (r: Outcome<AliasError>)
      modifies this
      ensures Registration(origins, r) == AliasedMethods(old(origins), entries, surface)
    {
      assert entries[0..] == entries;
      for i := 0 to |entries|
        invariant AliasedMethods(old(origins), entries, surface) == AliasedMethods(origins, entries[i..], surface)
      {
        assert entries[i..][0] == entries[i] && entries[i..][1..] == entries[i + 1..];
        var lists := ListsToAlign(entries[i], surface);
        if lists.Failure? {
          return Fail(lists.error);
        }
        if lists.value.Some? {
          :- AliasAlignedGenericParameters(surface.env, lists.value.value.0, lists.value.value.1);
        }
      }
      return Pass;
    }
  }

  // ---------------------------------------------------------------- what registration adds

  ghost predicate Extends(small: Origins, large: Origins) {
    forall p :: p in small ==> p in large && large[p] == small[p]
  }

  predicate FreshFrom(origins: Origins, list: seq<ListedParameter>, k: nat) {
    && (forall i :: k <= i < |list| ==> list[i].id !in origins)
    && (forall i, j :: k <= i < j < |list| ==> list[i].id != list[j].id)
  }

  /** A list registers exactly when none of its parameters has an owner yet and none is listed
      twice; then every position has its own identity and nothing else changed. */
  lemma {:induction false} ListRegistersExactly(
    origins: Origins, owner: GenericOwner, list: seq<ListedParameter>, k: nat)
    requires k <= |list|
    ensures RegisteredFrom(origins, owner, list, k).outcome.Pass? <==> FreshFrom(origins, list, k)
    ensures RegisteredFrom(origins, owner, list, k).outcome.Pass? ==>
        var after := RegisteredFrom(origins, owner, list, k).origins;
        && Extends(origins, after)
        && (forall i :: k <= i < |list| ==> list[i].id in after && after[list[i].id] == IdentityAt(owner, list, i))
        && (forall p :: p in after ==> p in origins || exists i :: k <= i < |list| && list[i].id == p)
    decreases |list| - k
  {
    if k < |list| && list[k].id !in origins {
      var next := origins[list[k].id := IdentityAt(owner, list, k)];
      ListRegistersExactly(next, owner, list, k + 1);
      if FreshFrom(next, list, k + 1) {
        forall i | k < i < |list|
          ensures list[i].id != list[k].id && list[i].id !in origins
        {
          assert list[i].id !in next;
        }
      }
    }
  }

  ghost predicate OwnerUnused(origins: Origins, owner: GenericOwner) {
    forall p :: p in origins ==> origins[p].owner != owner
  }

  lemma PositionOf(origins: Origins, owner: GenericOwner, list: seq<ListedParameter>, p: ParameterId) returns (i: nat)
    requires RegisteredFrom(origins, owner, list, 0).outcome.Pass?
    requires p in RegisteredFrom(origins, owner, list, 0).origins && p !in origins
    ensures i < |list| && list[i].id == p
    ensures RegisteredFrom(origins, owner, list, 0).origins[p] == IdentityAt(owner, list, i)
  {
    hide RegisteredFrom;
    ListRegistersExactly(origins, owner, list, 0);
    i :| 0 <= i < |list| && list[i].id == p;
  }

  /** While owners differ and lists have at most 2^32 parameters, no two parameters share an
      identity: the projection stays faithful. */
  lemma RegistrationKeepsIdentitiesApart(origins: Origins, owner: GenericOwner, list: seq<ListedParameter>)
    requires InjectiveAnswers(origins) && OwnerUnused(origins, owner) && |list| <= TWO_TO_32
    requires RegisteredFrom(origins, owner, list, 0).outcome.Pass?
    ensures InjectiveAnswers(RegisteredFrom(origins, owner, list, 0).origins)
  {
    hide RegisteredFrom;
    ListRegistersExactly(origins, owner, list, 0);
    var after := RegisteredFrom(origins, owner, list, 0).origins;
    forall p, q | p in after && q in after && after[p] == after[q]
      ensures p == q
    {
      var i: nat := 0;
      if p !in origins {
        i := PositionOf(origins, owner, list, p);
      }
      if q !in origins {
        var j := PositionOf(origins, owner, list, q);
        if p !in origins {
          assert i == j;
        }
      }
    }
  }

  // ---------------------------------------------------------------- what aliasing adds

  /** The aliases every templated method of the surface asks for, in order. */
  function AliasesOf(entries: seq<ReceiverMethodEntry>, surface: Surface): seq<Alias> {
    if entries == [] then []
    else AliasesOfMethod(entries[0], surface) + AliasesOf(entries[1..], surface)
  }

  function AliasesOfMethod(entry: ReceiverMethodEntry, surface: Surface): seq<Alias> {
    match ListsToAlign(entry, surface)
    case Success(Some((nominal, method_))) =>
      if nominal in surface.env.lists && method_ in surface.env.lists
          && |surface.env.lists[nominal]| == |surface.env.lists[method_]|
      then Aligned(surface.env.lists[nominal], surface.env.lists[method_])
      else []
    case _ => []
  }

  /** What one method needs from the lists alone: nothing without a template; with one, a
      generic nominal receiver and lists that agree in length and in the name at each position. */
  predicate EntryAligned(entry: ReceiverMethodEntry, surface: Surface) {
    match ListsToAlign(entry, surface)
    case Failure(_) => false
    case Success(None) => true
    case Success(Some((nominal, method_))) =>
      && nominal in surface.env.lists && method_ in surface.env.lists
      && NamesAligned(surface.env.lists[nominal], surface.env.lists[method_])
  }

  predicate NamesAligned(nominal: seq<ListedParameter>, method_: seq<ListedParameter>) {
    |nominal| == |method_| && forall k :: 0 <= k < |nominal| ==> nominal[k].name == method_[k].name
  }

  predicate AllAligned(entries: seq<ReceiverMethodEntry>, surface: Surface) {
    forall i :: 0 <= i < |entries| ==> EntryAligned(entries[i], surface)
  }

  /** Aligning lists from a position on is aliasing, until a name differs. */
  lemma {:induction false} AlignedIsAliased(
    origins: Origins, nominal: seq<ListedParameter>, method_: seq<ListedParameter>, k: nat)
    requires |nominal| == |method_| && k <= |nominal|
    ensures AlignedFrom(origins, nominal, method_, k).outcome.Pass? ==>
        forall i :: k <= i < |nominal| ==> nominal[i].name == method_[i].name
    ensures (forall i :: k <= i < |nominal| ==> nominal[i].name == method_[i].name) ==>
        AlignedFrom(origins, nominal, method_, k) == AliasedAll(origins, Aligned(nominal, method_)[k..])
    decreases |nominal| - k
  {
    if k < |nominal| {
      var aliases := Aligned(nominal, method_);
      assert aliases[k..][0] == aliases[k] && aliases[k..][1..] == aliases[k + 1..];
      AlignedIsAliased(Aliased(origins, aliases[k]).origins, nominal, method_, k + 1);
    }
  }

  lemma MethodIsItsAliases(origins: Origins, entry: ReceiverMethodEntry, surface: Surface)
    ensures AliasedMethod(origins, entry, surface).outcome.Pass? ==> EntryAligned(entry, surface)
    ensures EntryAligned(entry, surface) ==>
        AliasedMethod(origins, entry, surface) == AliasedAll(origins, AliasesOfMethod(entry, surface))
  {
    match ListsToAlign(entry, surface) {
      case Success(Some((nominal, method_))) =>
        if nominal in surface.env.lists && method_ in surface.env.lists {
          var nominals, methods := surface.env.lists[nominal], surface.env.lists[method_];
          if |nominals| == |methods| {
            AlignedIsAliased(origins, nominals, methods, 0);
            assert Aligned(nominals, methods)[0..] == Aligned(nominals, methods);
          }
        }
      case _ =>
    }
  }

  lemma {:induction false} AliasedInTurn(origins: Origins, first: seq<Alias>, second: seq<Alias>)
    ensures AliasedAll(origins, first + second) ==
        var before := AliasedAll(origins, first);
        if before.outcome.Fail? then before else AliasedAll(before.origins, second)
    decreases |first|
  {
    if first == [] {
      assert first + second == second;
    } else {
      assert (first + second)[0] == first[0] && (first + second)[1..] == first[1..] + second;
      AliasedInTurn(Aliased(origins, first[0]).origins, first[1..], second);
    }
  }

  /** A pass over aligned receiver methods does what its aliases say, one after another, and
      stops where they stop; only aligned methods pass. */
  lemma {:induction false} PassIsItsAliases(origins: Origins, entries: seq<ReceiverMethodEntry>, surface: Surface)
    ensures AliasedMethods(origins, entries, surface).outcome.Pass? ==> AllAligned(entries, surface)
    ensures AllAligned(entries, surface) ==>
        AliasedMethods(origins, entries, surface) == AliasedAll(origins, AliasesOf(entries, surface))
    decreases |entries|
  {
    hide EntryAligned, AliasesOfMethod, AliasedMethod, Aliased;
    if entries != [] {
      var others := entries[1..];
      assert entries == [entries[0]] + others;
      MethodIsItsAliases(origins, entries[0], surface);
      PassIsItsAliases(AliasedMethod(origins, entries[0], surface).origins, others, surface);
      AliasedInTurn(origins, AliasesOfMethod(entries[0], surface), AliasesOf(others, surface));
    }
  }

  /** Follows the aliases from the last to the first: what a parameter stands for in the end. */
  function Target(aliases: seq<Alias>, parameter: ParameterId): ParameterId {
    if aliases == [] then parameter
    else
      var target := Target(aliases[1..], parameter);
      if target == aliases[0].local then aliases[0].target else target
  }

  /** Each target has an owner by the time it is needed: from before, or as an earlier local. */
  predicate TargetsKnown(origins: Origins, aliases: seq<Alias>) {
    forall k :: 0 <= k < |aliases| ==>
      aliases[k].target in origins || exists j :: 0 <= j < k && aliases[j].local == aliases[k].target
  }

  /** Every alias read as an equation holds in this map. */
  ghost predicate Solves(solution: Origins, aliases: seq<Alias>) {
    forall k :: 0 <= k < |aliases| ==>
      && aliases[k].local in solution && aliases[k].target in solution
      && solution[aliases[k].local] == solution[aliases[k].target]
  }

  /** The registrations can be extended so that every alias holds. */
  ghost predicate Solvable(origins: Origins, aliases: seq<Alias>) {
    exists solution :: Extends(origins, solution) && Solves(solution, aliases)
  }

  lemma KnownAfterFirst(origins: Origins, aliases: seq<Alias>)
    requires aliases != [] && aliases[0].target in origins
    ensures TargetsKnown(origins, aliases) <==>
        TargetsKnown(origins[aliases[0].local := origins[aliases[0].target]], aliases[1..])
  {
    var next, others := origins[aliases[0].local := origins[aliases[0].target]], aliases[1..];
    forall k | 0 <= k < |others|
      ensures (others[k].target in next || exists j :: 0 <= j < k && others[j].local == others[k].target)
         <==> (aliases[k + 1].target in origins
               || exists j :: 0 <= j < k + 1 && aliases[j].local == aliases[k + 1].target)
    {
      if j :| 0 <= j < k + 1 && aliases[j].local == aliases[k + 1].target {
        assert j > 0 ==> others[j - 1] == aliases[j];
      }
      if j :| 0 <= j < k && others[j].local == others[k].target {
        assert aliases[j + 1] == others[j];
      }
    }
    if TargetsKnown(next, others) {
      forall k | 0 <= k < |aliases|
        ensures aliases[k].target in origins || exists j :: 0 <= j < k && aliases[j].local == aliases[k].target
      {
        assert k > 0 ==> others[k - 1] == aliases[k];
      }
    }
  }

  lemma SolvesFirst(solution: Origins, aliases: seq<Alias>)
    requires aliases != []
    ensures Solves(solution, aliases) <==> Solves(solution, aliases[..1]) && Solves(solution, aliases[1..])
  {
    var others := aliases[1..];
    assert forall k :: 0 <= k < |others| ==> others[k] == aliases[k + 1];
    assert aliases[..1][0] == aliases[0];
    if Solves(solution, aliases[..1]) && Solves(solution, others) {
      forall k | 0 <= k < |aliases|
        ensures aliases[k].local in solution && aliases[k].target in solution
             && solution[aliases[k].local] == solution[aliases[k].target]
      {
        assert k > 0 ==> others[k - 1] == aliases[k];
        assert k == 0 ==> aliases[..1][0] == aliases[k];
      }
    }
  }

  /** When aliasing succeeds its result solves the aliases; against any solution it succeeds,
      if the targets are known in time, and stays within it. */
  lemma {:induction false} AliasingSolves(origins: Origins, aliases: seq<Alias>)
    requires AliasedAll(origins, aliases).outcome.Pass?
    ensures TargetsKnown(origins, aliases)
    ensures Extends(origins, AliasedAll(origins, aliases).origins)
    ensures Solves(AliasedAll(origins, aliases).origins, aliases)
    decreases |aliases|
  {
    if aliases != [] {
      var next := Aliased(origins, aliases[0]);
      AliasingSolves(next.origins, aliases[1..]);
      assert next.origins == origins[aliases[0].local := origins[aliases[0].target]];
      KnownAfterFirst(origins, aliases);
      SolvesFirst(AliasedAll(origins, aliases).origins, aliases);
    }
  }

  lemma {:induction false} SolvableSucceeds(origins: Origins, aliases: seq<Alias>, solution: Origins)
    requires TargetsKnown(origins, aliases) && Extends(origins, solution) && Solves(solution, aliases)
    ensures AliasedAll(origins, aliases).outcome.Pass?
    decreases |aliases|
  {
    if aliases != [] {
      assert aliases[0].target in origins;
      var next := Aliased(origins, aliases[0]);
      assert next.outcome.Pass? && next.origins == origins[aliases[0].local := origins[aliases[0].target]];
      KnownAfterFirst(origins, aliases);
      SolvesFirst(solution, aliases);
      SolvableSucceeds(next.origins, aliases[1..], solution);
    }
  }

  /** Aliasing succeeds exactly when every target has an owner in time and the registrations
      can be extended so that every alias, read as an equation, holds. */
  lemma AliasingSucceedsExactly(origins: Origins, aliases: seq<Alias>)
    ensures AliasedAll(origins, aliases).outcome.Pass? <==> TargetsKnown(origins, aliases) && Solvable(origins, aliases)
  {
    if AliasedAll(origins, aliases).outcome.Pass? {
      AliasingSolves(origins, aliases);
    }
    if TargetsKnown(origins, aliases) && Solvable(origins, aliases) {
      var solution :| Extends(origins, solution) && Solves(solution, aliases);
      SolvableSucceeds(origins, aliases, solution);
    }
  }

  /** The pass over the receiver methods succeeds exactly when every templated method is aligned
      with a generic nominal receiver and its aliases succeed. */
  lemma PassSucceedsExactly(origins: Origins, entries: seq<ReceiverMethodEntry>, surface: Surface)
    ensures AliasedMethods(origins, entries, surface).outcome.Pass?
       <==> && AllAligned(entries, surface)
            && TargetsKnown(origins, AliasesOf(entries, surface)) && Solvable(origins, AliasesOf(entries, surface))
  {
    hide AliasedMethods, AliasesOf, AllAligned, AliasedAll, TargetsKnown, Solvable;
    PassIsItsAliases(origins, entries, surface);
    AliasingSucceedsExactly(origins, AliasesOf(entries, surface));
  }

  /** Aliasing never changes or removes an entry. */
  lemma {:induction false} AliasingOnlyExtends(origins: Origins, aliases: seq<Alias>)
    ensures Extends(origins, AliasedAll(origins, aliases).origins)
    decreases |aliases|
  {
    if aliases != [] {
      AliasingOnlyExtends(Aliased(origins, aliases[0]).origins, aliases[1..]);
    }
  }

  /** After aliasing, a parameter answers as its target did before. */
  lemma {:induction false} AliasingFollowsTarget(origins: Origins, aliases: seq<Alias>, p: ParameterId)
    requires AliasedAll(origins, aliases).outcome.Pass?
    ensures p in AliasedAll(origins, aliases).origins <==> Target(aliases, p) in origins
    ensures p in AliasedAll(origins, aliases).origins ==>
        AliasedAll(origins, aliases).origins[p] == origins[Target(aliases, p)]
    decreases |aliases|
  {
    if aliases != [] {
      AliasingFollowsTarget(Aliased(origins, aliases[0]).origins, aliases[1..], p);
    }
  }

  // ---------------------------------------------------------------- aliasing is substitution

  function Substitute(term: Term, aliases: seq<Alias>): Term
    decreases term, 1
  {
    match term
    case ParameterTerm(p) => ParameterTerm(Target(aliases, p))
    case CollectionTerm(element, capacity) => CollectionTerm(Substitute(element, aliases), capacity)
    case OptionTerm(inner) => OptionTerm(Substitute(inner, aliases))
    case MapTerm(key, value) => MapTerm(Substitute(key, aliases), Substitute(value, aliases))
    case FallibleTerm(success, error) => FallibleTerm(Substitute(success, aliases), Substitute(error, aliases))
    case InstanceTerm(base, arguments) => InstanceTerm(base, SubstituteAll(arguments, aliases))
    case BuiltinTerm(_) => term
    case NominalTerm(_) => term
    case ExternalTerm(_) => term
  }

  function SubstituteAll(terms: seq<Term>, aliases: seq<Alias>): seq<Term>
    decreases terms, 0
  {
    if terms == [] then [] else [Substitute(terms[0], aliases)] + SubstituteAll(terms[1..], aliases)
  }

  function WithAliases(context: Context, aliases: seq<Alias>): Context {
    context.(parameters := AliasedAll(context.parameters, aliases).origins)
  }

  /** The identity of a term after aliasing is the identity, before it, of the term with each
      aliased parameter replaced by its target. */
  lemma {:induction false} AliasingIsSubstitution(term: Term, aliases: seq<Alias>, context: Context)
    requires AliasedAll(context.parameters, aliases).outcome.Pass?
    ensures TermIdentity(term, WithAliases(context, aliases)) == TermIdentity(Substitute(term, aliases), context)
    decreases term, 1
  {
    hide AliasedAll, Target;
    match term {
      case CollectionTerm(element, _) => AliasingIsSubstitution(element, aliases, context);
      case OptionTerm(inner) => AliasingIsSubstitution(inner, aliases, context);
      case MapTerm(key, value) =>
        AliasingIsSubstitution(key, aliases, context);
        AliasingIsSubstitution(value, aliases, context);
      case FallibleTerm(success, error) =>
        AliasingIsSubstitution(success, aliases, context);
        AliasingIsSubstitution(error, aliases, context);
      case InstanceTerm(_, arguments) => AliasingIsSubstitutionInAll(arguments, aliases, context);
      case ParameterTerm(p) => AliasingFollowsTarget(context.parameters, aliases, p);
      case _ =>
    }
  }

  lemma {:induction false} AliasingIsSubstitutionInAll(terms: seq<Term>, aliases: seq<Alias>, context: Context)
    requires AliasedAll(context.parameters, aliases).outcome.Pass?
    ensures TermIdentities(terms, WithAliases(context, aliases))
         == TermIdentities(SubstituteAll(terms, aliases), context)
    decreases terms, 0
  {
    hide AliasedAll, WithAliases;
    if terms != [] {
      AliasingIsSubstitution(terms[0], aliases, context);
      AliasingIsSubstitutionInAll(terms[1..], aliases, context);
      assert SubstituteAll(terms, aliases)[1..] == SubstituteAll(terms[1..], aliases);
    }
  }

  /** The same for the projection of a type id after a whole pass over the receiver methods. */
  lemma ProjectionAfterAliasing(
    id: TypeId, env: TypeEnvironment, context: Context, entries: seq<ReceiverMethodEntry>, surface: Surface)
    requires ArgumentsComeFirst(env)
    requires AliasedMethods(context.parameters, entries, surface).outcome.Pass?
    ensures var after := context.(parameters := AliasedMethods(context.parameters, entries, surface).origins);
        var projected := Project(id, env, after);
        var expected := match Unfold(id, env)
                        case Some(term) => TermIdentity(Substitute(term, AliasesOf(entries, surface)), context)
                        case None => None;
        && (projected.Success? <==> expected.Some?)
        && (projected.Success? ==> projected.value == expected.value)
  {
    hide AliasedMethods, AliasesOf, AliasedAll, Project, Unfold, TermIdentity, Substitute;
    PassIsItsAliases(context.parameters, entries, surface);
    var aliases := AliasesOf(entries, surface);
    ProjectionIsTermIdentity(id, env, WithAliases(context, aliases));
    if Unfold(id, env).Some? {
      AliasingIsSubstitution(Unfold(id, env).value, aliases, context);
    }
  }

  /** So identities stay as faithful as aliasing intends: two types share one exactly when they
      are the same once the methods' parameters are replaced by the receivers'. */
  lemma FaithfulUpToAliases(s: Term, t: Term, aliases: seq<Alias>, context: Context)
    requires InjectiveContext(context)
    requires AliasedAll(context.parameters, aliases).outcome.Pass?
    requires TermIdentity(s, WithAliases(context, aliases)).Some?
    ensures TermIdentity(s, WithAliases(context, aliases)) == TermIdentity(t, WithAliases(context, aliases))
       <==> Substitute(s, aliases) == Substitute(t, aliases)
  {
    hide TermIdentity, Substitute, AliasedAll, WithAliases;
    AliasingIsSubstitution(s, aliases, context);
    AliasingIsSubstitution(t, aliases, context);
    if TermIdentity(s, WithAliases(context, aliases)) == TermIdentity(t, WithAliases(context, aliases)) {
      IdentityDeterminesTerm(Substitute(s, aliases), Substitute(t, aliases), context);
    }
  }
}
