/** The identity each generic parameter has after a registration, by its owner, its position and
    its name. */
module RegisteredIdentities {
  import opened Wrappers
  import opened Bytes
  import opened Identities
  import opened TypeProjection
  import opened GenericParameterOrigins
  import opened GenericRegistration

  // ---------------------------------------------------------------- owners

  /** The last binding of a public name to a function. */
  predicate BoundTo(bindings: seq<ExportBinding>, name: Text, origin: OriginFunction, i: int) {
    && 0 <= i < |bindings|
    && bindings[i].publicName == name && bindings[i].origin == FunctionOrigin(origin)
    && forall j :: i < j < |bindings| && bindings[j].publicName == name ==> !bindings[j].origin.FunctionOrigin?
  }

  lemma {:induction false} NameBoundTo(bindings: seq<ExportBinding>, name: Text) returns (i: nat)
    requires name in FunctionsByName(bindings)
    ensures BoundTo(bindings, name, FunctionsByName(bindings)[name], i)
  {
    var last := |bindings| - 1;
    if bindings[last].origin.FunctionOrigin? && bindings[last].publicName == name {
      i := last;
    } else {
      i := NameBoundTo(bindings[..last], name);
    }
  }

  /** Every bound name is indexed. */
  lemma {:induction false} BoundIsIndexed(bindings: seq<ExportBinding>, i: nat)
    requires i < |bindings| && bindings[i].origin.FunctionOrigin?
    ensures bindings[i].publicName in FunctionsByName(bindings)
    decreases |bindings|
  {
    if i < |bindings| - 1 {
      BoundIsIndexed(bindings[..|bindings| - 1], i);
    }
  }

  /** The owner and the parameters of a root: a free function under its exported name, a struct or
      choice under its origin. */
  ghost predicate Owns(
    root: Root, owner: GenericOwner, list: seq<ListedParameter>, bindings: seq<ExportBinding>,
    nominals: map<NominalId, OriginType>, env: TypeEnvironment)
  {
    match root
    case FunctionRoot(Some(name), Some(id)) =>
      && owner.FreeFunction? && owner.function_.kind.Free?
      && (exists i :: BoundTo(bindings, name, owner.function_, i))
      && id in env.lists && list == env.lists[id]
    case NominalRoot(type_) =>
      && type_ < |env.types| && owner.NominalType? && !owner.nominal.category.AliasCategory?
      && (match env.types[type_]
          case StructDefinition(n) =>
            && n in nominals && owner.nominal == nominals[n]
            && n in env.structs && env.structs[n].Some? && env.structs[n].value in env.lists
            && list == env.lists[env.structs[n].value]
          case ChoiceDefinition(n) =>
            && n in nominals && owner.nominal == nominals[n]
            && n in env.choices && env.choices[n].Some? && env.choices[n].value in env.lists
            && list == env.lists[env.choices[n].value]
          case _ => false)
    case _ => false
  }

  lemma {:induction false} BoundIsUnique(bindings: seq<ExportBinding>, name: Text, origin: OriginFunction, i: nat)
    requires BoundTo(bindings, name, origin, i)
    ensures name in FunctionsByName(bindings) && FunctionsByName(bindings)[name] == origin
  {
    BoundIsIndexed(bindings, i);
    var j := NameBoundTo(bindings, name);
    assert bindings[i].origin.FunctionOrigin? && bindings[j].origin.FunctionOrigin?;
  }

  /** What a root owns is what it registers. */
  lemma OwnsIsList(
    root: Root, owner: GenericOwner, list: seq<ListedParameter>, bindings: seq<ExportBinding>,
    nominals: map<NominalId, OriginType>, env: TypeEnvironment) returns (id: ListId)
    requires Owns(root, owner, list, bindings, nominals, env)
    ensures RootList(root, FunctionsByName(bindings), nominals, env) == Success(Some((owner, id)))
    ensures id in env.lists && env.lists[id] == list
  {
    match root {
      case FunctionRoot(Some(name), Some(listId)) =>
        id := listId;
        var i :| BoundTo(bindings, name, owner.function_, i);
        BoundIsUnique(bindings, name, owner.function_, i);
      case NominalRoot(type_) =>
        id := if env.types[type_].StructDefinition? then env.structs[env.types[type_].nominal].value
              else env.choices[env.types[type_].nominal].value;
    }
  }

  /** And the other way round. */
  lemma ListIsOwned(
    root: Root, bindings: seq<ExportBinding>, nominals: map<NominalId, OriginType>, env: TypeEnvironment)
    requires RootResolves(root, FunctionsByName(bindings), nominals, env)
    requires RootList(root, FunctionsByName(bindings), nominals, env).value.Some?
    ensures var (owner, id) := RootList(root, FunctionsByName(bindings), nominals, env).value.value;
      Owns(root, owner, env.lists[id], bindings, nominals, env)
  {
    if root.FunctionRoot? {
      var i := NameBoundTo(bindings, root.name.value);
    }
  }

  // ---------------------------------------------------------------- the identities

  lemma {:induction false} RootsExtend(
    origins: Origins, roots: seq<Root>, functions: map<Text, OriginFunction>, nominals: map<NominalId, OriginType>,
    env: TypeEnvironment)
    requires RegisteredRoots(origins, roots, functions, nominals, env).outcome.Pass?
    ensures Extends(origins, RegisteredRoots(origins, roots, functions, nominals, env).origins)
    decreases |roots|
  {
    hide RootList, RegisteredFrom;
    if roots != [] {
      var next := RegisteredRoot(origins, roots[0], functions, nominals, env);
      match RootList(roots[0], functions, nominals, env) {
        case Success(Some((owner, list))) => ListRegistersExactly(origins, owner, env.lists[list], 0);
        case _ =>
      }
      RootsExtend(next.origins, roots[1..], functions, nominals, env);
    }
  }

  lemma {:induction false} RootHolds(
    origins: Origins, roots: seq<Root>, functions: map<Text, OriginFunction>, nominals: map<NominalId, OriginType>,
    env: TypeEnvironment, i: nat, owner: GenericOwner, id: ListId, k: nat)
    requires RegisteredRoots(origins, roots, functions, nominals, env).outcome.Pass? && i < |roots|
    requires RootList(roots[i], functions, nominals, env) == Success(Some((owner, id)))
    requires id in env.lists && k < |env.lists[id]|
    ensures var after, list := RegisteredRoots(origins, roots, functions, nominals, env).origins, env.lists[id];
      list[k].id in after && after[list[k].id] == IdentityAt(owner, list, k)
    decreases |roots|
  {
    hide RootList, RegisteredFrom;
    var next := RegisteredRoot(origins, roots[0], functions, nominals, env);
    if i == 0 {
      ListRegistersExactly(origins, owner, env.lists[id], 0);
      RootsExtend(next.origins, roots[1..], functions, nominals, env);
    } else {
      assert roots[1..][i - 1] == roots[i];
      RootHolds(next.origins, roots[1..], functions, nominals, env, i - 1, owner, id, k);
    }
  }

  /** After a registration the parameter at position `k` of a root has the root as its owner, `k`
      kept to 32 bits as its position, and its listed name. */
  lemma RegisteredHolds(
    roots: seq<Root>, bindings: seq<ExportBinding>, nominals: map<NominalId, OriginType>,
    entries: seq<ReceiverMethodEntry>, surface: Surface, i: nat, owner: GenericOwner, list: seq<ListedParameter>,
    k: nat)
    requires RegisteredAll(roots, FunctionsByName(bindings), nominals, entries, surface).outcome.Pass?
    requires i < |roots| && Owns(roots[i], owner, list, bindings, nominals, surface.env) && k < |list|
    ensures var after := RegisteredAll(roots, FunctionsByName(bindings), nominals, entries, surface).origins;
      && list[k].id in after
      && after[list[k].id].owner == owner && after[list[k].id].position == k % 0x1_0000_0000
      && after[list[k].id].name == list[k].name
  {
    hide RegisteredRoots, AliasedMethods, AliasesOf, AliasedAll, RootList, Owns;
    var functions := FunctionsByName(bindings);
    var id := OwnsIsList(roots[i], owner, list, bindings, nominals, surface.env);
    RootHolds(map[], roots, functions, nominals, surface.env, i, owner, id, k);
    var owned := RegisteredRoots(map[], roots, functions, nominals, surface.env).origins;
    PassIsItsAliases(owned, entries, surface);
    AliasingOnlyExtends(owned, AliasesOf(entries, surface));
  }

  // ---------------------------------------------------------------- receiver methods

  lemma {:induction false} AliasListed(entries: seq<ReceiverMethodEntry>, surface: Surface, e: nat, alias: Alias)
    requires e < |entries| && alias in AliasesOfMethod(entries[e], surface)
    ensures alias in AliasesOf(entries, surface)
  {
    hide AliasesOfMethod;
    if e > 0 {
      assert entries[1..][e - 1] == entries[e];
      AliasListed(entries[1..], surface, e - 1, alias);
    }
  }

  lemma SolvesAlias(solution: Origins, aliases: seq<Alias>, alias: Alias)
    requires Solves(solution, aliases) && alias in aliases
    ensures alias.local in solution && alias.target in solution && solution[alias.local] == solution[alias.target]
  {
    var k :| 0 <= k < |aliases| && aliases[k] == alias;
  }

  /** The parameters of a templated receiver method have the names and the identities of the
      parameters of its struct or choice, position by position. */
  lemma MethodSharesIdentities(
    roots: seq<Root>, functions: map<Text, OriginFunction>, nominals: map<NominalId, OriginType>,
    entries: seq<ReceiverMethodEntry>, surface: Surface, e: nat) returns (n: NominalId, list: ListId)
    requires RegisteredAll(roots, functions, nominals, entries, surface).outcome.Pass?
    requires e < |entries| && entries[e].functionPath in surface.templates
    ensures entries[e].receiver.StructReceiver? || entries[e].receiver.ChoiceReceiver?
    ensures entries[e].receiver.path in surface.nominals && n == surface.nominals[entries[e].receiver.path]
    ensures (n in surface.env.structs && surface.env.structs[n] == Some(list))
         || (n !in surface.env.structs && n in surface.env.choices && surface.env.choices[n] == Some(list))
    ensures list in surface.env.lists && surface.templates[entries[e].functionPath] in surface.env.lists
    ensures
      var nominal, local := surface.env.lists[list], surface.env.lists[surface.templates[entries[e].functionPath]];
      var after := RegisteredAll(roots, functions, nominals, entries, surface).origins;
      && |nominal| == |local|
      && forall k :: 0 <= k < |local| ==>
          && nominal[k].name == local[k].name
          && nominal[k].id in after && local[k].id in after && after[local[k].id] == after[nominal[k].id]
  {
    hide RegisteredRoots, AliasedMethods, AliasedAll, Solves, AliasesOf;
    var owned := RegisteredRoots(map[], roots, functions, nominals, surface.env).origins;
    var aliases := AliasesOf(entries, surface);
    PassIsItsAliases(owned, entries, surface);
    AliasingSolves(owned, aliases);
    assert EntryAligned(entries[e], surface);
    n := surface.nominals[entries[e].receiver.path];
    list := ListsToAlign(entries[e], surface).value.value.0;
    var nominal, local := surface.env.lists[list], surface.env.lists[surface.templates[entries[e].functionPath]];
    var after := RegisteredAll(roots, functions, nominals, entries, surface).origins;
    forall k | 0 <= k < |local|
      ensures nominal[k].name == local[k].name
      ensures nominal[k].id in after && local[k].id in after && after[local[k].id] == after[nominal[k].id]
    {
      var alias := Alias(local[k].id, nominal[k].id);
      assert AliasesOfMethod(entries[e], surface)[k] == alias;
      AliasListed(entries, surface, e, alias);
      SolvesAlias(after, aliases, alias);
    }
  }
}
