/** A projected identity beside the types it stands for, place by place. */
module ProjectedContents {
  import opened Wrappers
  import opened Identities
  import opened TypeProjection

  // ---------------------------------------------------------------- places

  /** The `k`th argument of a type. */
  function ArgumentOf(id: TypeId, k: nat, env: TypeEnvironment): Option<TypeId> {
    if id < |env.types| && k < |Arguments(env.types[id])| then Some(Arguments(env.types[id])[k]) else None
  }

  /** The `k`th part of an identity: an element or key, a value or error, an instance's argument. */
  function PartOf(t: CanonicalType, k: nat): Option<CanonicalType> {
    match t
    case Collection(element, _) => if k == 0 then Some(element) else None
    case OptionType(inner) => if k == 0 then Some(inner) else None
    case FallibleCarrier(success, error) => if k == 0 then Some(success) else if k == 1 then Some(error) else None
    case OrderedMap(key, value) => if k == 0 then Some(key) else if k == 1 then Some(value) else None
    case GenericInstance(_, arguments) => if k < |arguments| then Some(arguments[k]) else None
    case _ => None
  }

  function IdAt(id: TypeId, steps: seq<nat>, env: TypeEnvironment): Option<TypeId>
    decreases |steps|
  {
    if steps == [] then Some(id)
    else
      match ArgumentOf(id, steps[0], env)
      case Some(argument) => IdAt(argument, steps[1..], env)
      case None => None
  }

  function PartAt(t: CanonicalType, steps: seq<nat>): Option<CanonicalType>
    decreases |steps|
  {
    if steps == [] then Some(t)
    else
      match PartOf(t, steps[0])
      case Some(part) => PartAt(part, steps[1..])
      case None => None
  }

  /** The same kind of node: the same builtin, origin, external names, parameter or capacity. */
  predicate SameNode(definition: TypeDefinition, t: CanonicalType, context: Context) {
    match definition
    case BuiltinDefinition(builtin) => t == Builtin(builtin)
    case StructDefinition(n) => n in context.nominals && t == SourceNominal(context.nominals[n])
    case ChoiceDefinition(n) => n in context.nominals && t == SourceNominal(context.nominals[n])
    case ExternalDefinition(e) =>
      e in context.externals && t == ExternalOpaque(context.externals[e].0, context.externals[e].1)
    case ConstructedDefinition(CollectionOf(capacity), _) => t.Collection? && t.fixedCapacity == capacity
    case ConstructedDefinition(OptionOf, _) => t.OptionType?
    case ConstructedDefinition(FallibleOf, _) => t.FallibleCarrier?
    case ConstructedDefinition(OrderedMapOf, _) => t.OrderedMap?
    case ConstructedDefinition(TupleOf, _) => false
    case InstanceDefinition(base, _) =>
      t.GenericInstance? && base in context.nominals && t.base == context.nominals[base]
    case FunctionDefinition => false
    case ParameterDefinition(p) => p in context.parameters && t == GenericParameter(context.parameters[p])
  }

  // ---------------------------------------------------------------- one node

  lemma {:induction false} ProjectedArgument(
    ids: seq<TypeId>, bound: nat, env: TypeEnvironment, context: Context, k: nat)
    requires ArgumentsComeFirst(env) && Below(ids, bound) && k < |ids|
    requires ProjectAll(ids, bound, env, context).Success?
    ensures Project(ids[k], env, context) == Success(ProjectAll(ids, bound, env, context).value[k])
  {
    hide Project;
    if k > 0 {
      ProjectedArgument(ids[1..], bound, env, context, k - 1);
    }
  }

  lemma NodeIsSame(id: TypeId, env: TypeEnvironment, context: Context)
    requires ArgumentsComeFirst(env) && Project(id, env, context).Success?
    ensures id < |env.types| && SameNode(env.types[id], Project(id, env, context).value, context)
  {
    hide ProjectAll, InstanceBaseArity;
  }

  /** The arguments of a type and the parts of its identity go together. */
  lemma PartIsArgument(id: TypeId, env: TypeEnvironment, context: Context, k: nat)
    requires ArgumentsComeFirst(env) && Project(id, env, context).Success?
    ensures ArgumentOf(id, k, env).Some? <==> PartOf(Project(id, env, context).value, k).Some?
    ensures ArgumentOf(id, k, env).Some? ==>
        Project(ArgumentOf(id, k, env).value, env, context) == Success(PartOf(Project(id, env, context).value, k).value)
  {
    hide ProjectAll, InstanceBaseArity;
    if env.types[id].InstanceDefinition? && k < |env.types[id].arguments| {
      ProjectedArgument(env.types[id].arguments, id, env, context, k);
    }
  }

  /** A type and its identity have the same places and the same node at each of them. */
  lemma {:induction false} ProjectionKeepsContents(
    id: TypeId, env: TypeEnvironment, context: Context, steps: seq<nat>)
    requires ArgumentsComeFirst(env) && Project(id, env, context).Success?
    ensures IdAt(id, steps, env).Some? <==> PartAt(Project(id, env, context).value, steps).Some?
    ensures IdAt(id, steps, env).Some? ==>
      var i, part := IdAt(id, steps, env).value, PartAt(Project(id, env, context).value, steps).value;
      && i < |env.types| && SameNode(env.types[i], part, context)
      && Project(i, env, context) == Success(part)
    decreases |steps|
  {
    hide Project, ArgumentOf, PartOf, SameNode;
    if steps == [] {
      NodeIsSame(id, env, context);
    } else {
      PartIsArgument(id, env, context, steps[0]);
      if ArgumentOf(id, steps[0], env).Some? {
        ProjectionKeepsContents(ArgumentOf(id, steps[0], env).value, env, context, steps[1..]);
      }
    }
  }

  // ---------------------------------------------------------------- which types project

  /** The type is known, its names are answered, and it has as many arguments as it takes. */
  predicate NodeProjects(id: TypeId, env: TypeEnvironment, context: Context) {
    && id < |env.types|
    && match env.types[id]
       case BuiltinDefinition(_) => true
       case StructDefinition(n) => n in context.nominals
       case ChoiceDefinition(n) => n in context.nominals
       case ExternalDefinition(e) => e in context.externals
       case ConstructedDefinition(CollectionOf(_), arguments) => |arguments| == 1
       case ConstructedDefinition(OptionOf, arguments) => |arguments| == 1
       case ConstructedDefinition(FallibleOf, arguments) => |arguments| == 2
       case ConstructedDefinition(OrderedMapOf, arguments) => |arguments| == 2
       case ConstructedDefinition(TupleOf, _) => false
       case InstanceDefinition(base, arguments) =>
         base in context.nominals && TakesArguments(base, |arguments|, env)
       case FunctionDefinition => false
       case ParameterDefinition(p) => p in context.parameters
  }

  /** The base is a struct, or else a choice, with a list of so many parameters. */
  predicate TakesArguments(base: NominalId, count: nat, env: TypeEnvironment) {
    || (base in env.structs && Declares(env.structs[base], count, env))
    || (base !in env.structs && base in env.choices && Declares(env.choices[base], count, env))
  }

  predicate Declares(list: Option<ListId>, count: nat, env: TypeEnvironment) {
    list.Some? && list.value in env.lists && |env.lists[list.value]| == count
  }

  lemma {:induction false} AllProject(ids: seq<TypeId>, bound: nat, env: TypeEnvironment, context: Context)
    requires ArgumentsComeFirst(env) && Below(ids, bound)
    requires forall k :: 0 <= k < |ids| ==> Project(ids[k], env, context).Success?
    ensures ProjectAll(ids, bound, env, context).Success?
  {
    hide Project;
    if ids != [] {
      AllProject(ids[1..], bound, env, context);
    }
  }

  lemma ProjectedNodeProjects(id: TypeId, env: TypeEnvironment, context: Context)
    requires ArgumentsComeFirst(env) && Project(id, env, context).Success?
    ensures NodeProjects(id, env, context)
  {
    hide ProjectAll;
  }

  lemma NodeAndArguments(id: TypeId, env: TypeEnvironment, context: Context)
    requires ArgumentsComeFirst(env) && NodeProjects(id, env, context)
    requires forall k :: 0 <= k < |Arguments(env.types[id])| ==>
        Project(Arguments(env.types[id])[k], env, context).Success?
    ensures Project(id, env, context).Success?
  {
    hide ProjectAll;
    if env.types[id].InstanceDefinition? {
      AllProject(env.types[id].arguments, id, env, context);
    }
  }

  /** Every type found at some place of this one. */
  ghost predicate AllNodesProject(id: TypeId, env: TypeEnvironment, context: Context) {
    forall steps :: IdAt(id, steps, env).Some? ==> NodeProjects(IdAt(id, steps, env).value, env, context)
  }

  lemma {:induction false} ReachableProject(id: TypeId, env: TypeEnvironment, context: Context)
    requires ArgumentsComeFirst(env) && AllNodesProject(id, env, context)
    ensures Project(id, env, context).Success?
    decreases id
  {
    hide Project, NodeProjects;
    assert IdAt(id, [], env) == Some(id);
    assert id < |env.types| by {
      assert NodeProjects(id, env, context);
      NodeIsKnown(id, env, context);
    }
    var arguments := Arguments(env.types[id]);
    assert Below(arguments, id);
    forall k | 0 <= k < |arguments|
      ensures Project(arguments[k], env, context).Success?
    {
      forall steps | IdAt(arguments[k], steps, env).Some?
        ensures NodeProjects(IdAt(arguments[k], steps, env).value, env, context)
      {
        assert ([k] + steps)[1..] == steps;
        assert IdAt(id, [k] + steps, env) == IdAt(arguments[k], steps, env);
      }
      ReachableProject(arguments[k], env, context);
    }
    NodeAndArguments(id, env, context);
  }

  lemma NodeIsKnown(id: TypeId, env: TypeEnvironment, context: Context)
    requires NodeProjects(id, env, context)
    ensures id < |env.types|
  {
  }

  /** A type projects exactly when every type it is made of does so by itself. */
  lemma ProjectsExactly(id: TypeId, env: TypeEnvironment, context: Context)
    requires ArgumentsComeFirst(env)
    ensures Project(id, env, context).Success? <==> AllNodesProject(id, env, context)
  {
    hide Project, NodeProjects, IdAt, PartAt;
    if Project(id, env, context).Success? {
      forall steps | IdAt(id, steps, env).Some?
        ensures NodeProjects(IdAt(id, steps, env).value, env, context)
      {
        ProjectionKeepsContents(id, env, context, steps);
        ProjectedNodeProjects(IdAt(id, steps, env).value, env, context);
      }
    }
    if AllNodesProject(id, env, context) {
      ReachableProject(id, env, context);
    }
  }
}
