/** Projection of module-local type ids to canonical identities. */
module TypeProjection {
  import opened Wrappers
  import opened Bytes
  import opened Identities
  import opened CanonicalCode
  import opened CanonicalReadBack

  type TypeId = nat
  type NominalId = nat
  type ExternalId = nat
  type ParameterId = nat
  type ListId = nat

  datatype TypeConstructor =
    | CollectionOf(fixedCapacity: Option<nat>)
    | OptionOf
    | FallibleOf
    | OrderedMapOf
    | TupleOf

  datatype TypeDefinition =
    | BuiltinDefinition(builtin: BuiltinType)
    | StructDefinition(nominal: NominalId)
    | ChoiceDefinition(nominal: NominalId)
    | ExternalDefinition(external: ExternalId)
    | ConstructedDefinition(constructor_: TypeConstructor, arguments: seq<TypeId>)
    | InstanceDefinition(base: NominalId, arguments: seq<TypeId>)
    | FunctionDefinition
    | ParameterDefinition(parameter: ParameterId)

  datatype ListedParameter = ListedParameter(id: ParameterId, name: Text)

  /** `types` is indexed by type id. A nominal maps to the list of its generic parameters, if
      it declares any. */
  datatype TypeEnvironment = TypeEnvironment(
    types: seq<TypeDefinition>,
    structs: map<NominalId, Option<ListId>>,
    choices: map<NominalId, Option<ListId>>,
    lists: map<ListId, seq<ListedParameter>>)

  /** The resolvers a projection is given, each as the map it answers from. */
  datatype Context = Context(
    nominals: map<NominalId, OriginType>,
    parameters: map<ParameterId, GenericParameterIdentity>,
    externals: map<ExternalId, (Text, seq<Text>)>)

  datatype ProjectionError =
    | UnregisteredType
    | NoNominalOrigin
    | NoExternalIdentity
    | NoParameterIdentity
    | FunctionType
    | TupleShape
    | MalformedArity
    | UnknownBase
    | NonGenericBase
    | MissingParameterList
    | MalformedInstanceArity

  type Projected = Result<CanonicalType, ProjectionError>

  function Arguments(definition: TypeDefinition): seq<TypeId> {
    match definition
    case ConstructedDefinition(_, arguments) => arguments
    case InstanceDefinition(_, arguments) => arguments
    case _ => []
  }

  /** A type is interned after its arguments, so they have smaller ids. */
  predicate ArgumentsComeFirst(env: TypeEnvironment) {
    forall id :: 0 <= id < |env.types| ==> Below(Arguments(env.types[id]), id)
  }

  predicate Below(ids: seq<TypeId>, bound: nat) {
    forall k :: 0 <= k < |ids| ==> ids[k] < bound
  }

  // ---------------------------------------------------------------- projection

  /** The number of generic parameters the base of an instance declares. */
  function InstanceBaseArity(base: NominalId, env: TypeEnvironment): Result<nat, ProjectionError> {
    if base !in env.structs && base !in env.choices then Failure(UnknownBase)
    else
      var list := if base in env.structs then env.structs[base] else env.choices[base];
      if list.None? then Failure(NonGenericBase)
      else if list.value !in env.lists then Failure(MissingParameterList)
      else Success(|env.lists[list.value]|)
  }

  function Project(id: TypeId, env: TypeEnvironment, context: Context): Projected
    requires ArgumentsComeFirst(env)
    decreases id, 2, 0
  {
    if id >= |env.types| then Failure(UnregisteredType)
    else
      match env.types[id]
      case BuiltinDefinition(builtin) => Success(Builtin(builtin))
      case StructDefinition(nominal) =>
        if nominal in context.nominals then Success(SourceNominal(context.nominals[nominal]))
        else Failure(NoNominalOrigin)
      case ChoiceDefinition(nominal) =>
        if nominal in context.nominals then Success(SourceNominal(context.nominals[nominal]))
        else Failure(NoNominalOrigin)
      case ExternalDefinition(external) =>
        if external in context.externals
        then Success(ExternalOpaque(context.externals[external].0, context.externals[external].1))
        else Failure(NoExternalIdentity)
      case ConstructedDefinition(_, _) => ProjectConstructed(id, env, context)
      case InstanceDefinition(_, _) => ProjectInstance(id, env, context)
      case FunctionDefinition => Failure(FunctionType)
      case ParameterDefinition(parameter) =>
        if parameter in context.parameters then Success(GenericParameter(context.parameters[parameter]))
        else Failure(NoParameterIdentity)
  }

  function ProjectConstructed(id: TypeId, env: TypeEnvironment, context: Context): Projected
    requires ArgumentsComeFirst(env) && id < |env.types| && env.types[id].ConstructedDefinition?
    decreases id, 1, 0
  {
    var arguments := Arguments(env.types[id]);
    match env.types[id].constructor_
    case CollectionOf(capacity) =>
      if |arguments| != 1 then Failure(MalformedArity)
      else
        var element :- Project(arguments[0], env, context);
        Success(Collection(element, capacity))
    case OptionOf =>
      if |arguments| != 1 then Failure(MalformedArity)
      else
        var inner :- Project(arguments[0], env, context);
        Success(OptionType(inner))
    case FallibleOf =>
      if |arguments| != 2 then Failure(MalformedArity)
      else
        var success :- Project(arguments[0], env, context);
        var error :- Project(arguments[1], env, context);
        Success(FallibleCarrier(success, error))
    case OrderedMapOf =>
      if |arguments| != 2 then Failure(MalformedArity)
      else
        var key :- Project(arguments[0], env, context);
        var value :- Project(arguments[1], env, context);
        Success(OrderedMap(key, value))
    case TupleOf => Failure(TupleShape)
  }

  function ProjectInstance(id: TypeId, env: TypeEnvironment, context: Context): Projected
    requires ArgumentsComeFirst(env) && id < |env.types| && env.types[id].InstanceDefinition?
    decreases id, 1, 0
  {
    var InstanceDefinition(base, arguments) := env.types[id];
    if base !in context.nominals then Failure(NoNominalOrigin)
    else
      var arity :- InstanceBaseArity(base, env);
      if |arguments| != arity then Failure(MalformedInstanceArity)
      else
        var projected :- ProjectAll(arguments, id, env, context);
        Success(GenericInstance(context.nominals[base], projected))
  }

  /** The arguments in order; the first failure is the failure of the whole. */
  function ProjectAll(ids: seq<TypeId>, bound: nat, env: TypeEnvironment, context: Context)
    : (r: Result<seq<CanonicalType>, ProjectionError>)
    requires ArgumentsComeFirst(env) && Below(ids, bound)
    ensures r.Success? ==> |r.value| == |ids|
    decreases bound, 0, |ids|
  {
    if ids == [] then Success([])
    else
      var first :- Project(ids[0], env, context);
      var others :- ProjectAll(ids[1..], bound, env, context);
      Success([first] + others)
  }

  /** The loop that projects the arguments of an instance one by one. */
  method ProjectGenericInstance(id: TypeId, env: TypeEnvironment, context: Context) returns (r: Projected)
    requires ArgumentsComeFirst(env) && id < |env.types| && env.types[id].InstanceDefinition?
    ensures r == ProjectInstance(id, env, context)
  {
    hide Project, InstanceBaseArity;
    var base, arguments := env.types[id].base, env.types[id].arguments;
    assert Below(Arguments(env.types[id]), id);
    if base !in context.nominals {
      return Failure(NoNominalOrigin);
    }
    var arity :- InstanceBaseArity(base, env);
    if |arguments| != arity {
      return Failure(MalformedInstanceArity);
    }
    var projectedArguments: seq<CanonicalType> := [];
    NothingPrepended(ProjectAll(arguments, id, env, context));
    assert arguments[0..] == arguments;
    for i := 0 to |arguments|
      invariant ProjectAll(arguments, id, env, context)
             == Prepended(projectedArguments, ProjectAll(arguments[i..], id, env, context))
    {
      assert arguments[i..][0] == arguments[i] && arguments[i..][1..] == arguments[i + 1..];
      var projected :- Project(arguments[i], env, context);
      PrependedTwice(projectedArguments, projected, ProjectAll(arguments[i + 1..], id, env, context));
      projectedArguments := projectedArguments + [projected];
    }
    assert projectedArguments + [] == projectedArguments;
    return Success(GenericInstance(context.nominals[base], projectedArguments));
  }

  function Prepended<T, E>(done: seq<T>, others: Result<seq<T>, E>): Result<seq<T>, E> {
    match others
    case Success(values) => Success(done + values)
    case Failure(error) => Failure(error)
  }

  lemma NothingPrepended<T, E>(others: Result<seq<T>, E>)
    ensures Prepended([], others) == others
  {
    if others.Success? {
      assert [] + others.value == others.value;
    }
  }

  lemma PrependedTwice<T, E>(done: seq<T>, next: T, others: Result<seq<T>, E>)
    ensures Prepended(done, Prepended([next], others)) == Prepended(done + [next], others)
  {
    if others.Success? {
      assert done + ([next] + others.value) == done + [next] + others.value;
    }
  }

  // ---------------------------------------------------------------- renumbering

  /** One way of giving new numbers to every id of a module. */
  datatype Renumbering = Renumbering(
    type_: TypeId -> TypeId,
    nominal: NominalId -> NominalId,
    external: ExternalId -> ExternalId,
    parameter: ParameterId -> ParameterId,
    list: ListId -> ListId)

  function RenumberedIds(ids: seq<TypeId>, r: Renumbering): (s: seq<TypeId>)
    ensures |s| == |ids| && forall k :: 0 <= k < |ids| ==> s[k] == r.type_(ids[k])
  {
    seq(|ids|, k requires 0 <= k < |ids| => r.type_(ids[k]))
  }

  function RenumberedDefinition(definition: TypeDefinition, r: Renumbering): TypeDefinition {
    match definition
    case BuiltinDefinition(builtin) => BuiltinDefinition(builtin)
    case StructDefinition(nominal) => StructDefinition(r.nominal(nominal))
    case ChoiceDefinition(nominal) => ChoiceDefinition(r.nominal(nominal))
    case ExternalDefinition(external) => ExternalDefinition(r.external(external))
    case ConstructedDefinition(ctor, arguments) => ConstructedDefinition(ctor, RenumberedIds(arguments, r))
    case InstanceDefinition(base, arguments) => InstanceDefinition(r.nominal(base), RenumberedIds(arguments, r))
    case FunctionDefinition => FunctionDefinition
    case ParameterDefinition(parameter) => ParameterDefinition(r.parameter(parameter))
  }

  ghost predicate NominalsRenumbered(
    a: map<NominalId, Option<ListId>>, b: map<NominalId, Option<ListId>>, r: Renumbering)
  {
    && (forall n {:trigger r.nominal(n)} :: n in a <==> r.nominal(n) in b)
    && (forall n {:trigger r.nominal(n)} :: n in a ==> b[r.nominal(n)] == RenumberedList(a[n], r))
  }

  function RenumberedList(list: Option<ListId>, r: Renumbering): Option<ListId> {
    match list
    case Some(id) => Some(r.list(id))
    case None => None
  }

  /** The second environment holds the first one's types under their new numbers. */
  ghost predicate EnvironmentRenumbered(a: TypeEnvironment, b: TypeEnvironment, r: Renumbering) {
    && (forall id: TypeId :: id < |a.types| ==>
        r.type_(id) < |b.types| && b.types[r.type_(id)] == RenumberedDefinition(a.types[id], r))
    && (forall id: TypeId :: id >= |a.types| ==> r.type_(id) >= |b.types|)
    && NominalsRenumbered(a.structs, b.structs, r) && NominalsRenumbered(a.choices, b.choices, r)
    && (forall list {:trigger r.list(list)} :: list in a.lists <==> r.list(list) in b.lists)
    && (forall list {:trigger r.list(list)} :: list in a.lists ==> |a.lists[list]| == |b.lists[r.list(list)]|)
  }

  /** The second context answers for each new number what the first answers for the old. */
  ghost predicate ContextRenumbered(a: Context, b: Context, r: Renumbering) {
    && AnswersRenumbered(a.nominals, b.nominals, r.nominal)
    && AnswersRenumbered(a.parameters, b.parameters, r.parameter)
    && AnswersRenumbered(a.externals, b.externals, r.external)
  }

  ghost predicate AnswersRenumbered<V>(a: map<nat, V>, b: map<nat, V>, r: nat -> nat) {
    && (forall n {:trigger r(n)} :: n in a <==> r(n) in b)
    && (forall n {:trigger r(n)} :: n in a ==> a[n] == b[r(n)])
  }

  lemma ArityRenumbered(base: NominalId, a: TypeEnvironment, b: TypeEnvironment, r: Renumbering)
    requires EnvironmentRenumbered(a, b, r)
    ensures InstanceBaseArity(base, a) == InstanceBaseArity(r.nominal(base), b)
  {
    assert base in a.structs <==> r.nominal(base) in b.structs;
    assert base in a.choices <==> r.nominal(base) in b.choices;
  }

  lemma InstanceRenumbered(
    id: TypeId, a: TypeEnvironment, b: TypeEnvironment, c: Context, d: Context, r: Renumbering)
    requires ArgumentsComeFirst(a) && ArgumentsComeFirst(b)
    requires EnvironmentRenumbered(a, b, r) && ContextRenumbered(c, d, r)
    requires id < |a.types| && a.types[id].InstanceDefinition?
    requires b.types[r.type_(id)].InstanceDefinition?
    requires ProjectAll(a.types[id].arguments, id, a, c)
          == ProjectAll(b.types[r.type_(id)].arguments, r.type_(id), b, d)
    ensures ProjectInstance(id, a, c) == ProjectInstance(r.type_(id), b, d)
  {
    hide ProjectAll, Project, InstanceBaseArity, ArgumentsComeFirst;
    assert b.types[r.type_(id)] == RenumberedDefinition(a.types[id], r);
    ArityRenumbered(a.types[id].base, a, b, r);
  }

  lemma ConstructedRenumbered(
    id: TypeId, a: TypeEnvironment, b: TypeEnvironment, c: Context, d: Context, r: Renumbering)
    requires ArgumentsComeFirst(a) && ArgumentsComeFirst(b) && EnvironmentRenumbered(a, b, r)
    requires id < |a.types| && a.types[id].ConstructedDefinition?
    requires b.types[r.type_(id)].ConstructedDefinition?
    requires |Arguments(a.types[id])| >= 1 ==>
        Project(Arguments(a.types[id])[0], a, c) == Project(r.type_(Arguments(a.types[id])[0]), b, d)
    requires |Arguments(a.types[id])| >= 2 ==>
        Project(Arguments(a.types[id])[1], a, c) == Project(r.type_(Arguments(a.types[id])[1]), b, d)
    ensures ProjectConstructed(id, a, c) == ProjectConstructed(r.type_(id), b, d)
  {
    hide ProjectAll, Project, InstanceBaseArity, ArgumentsComeFirst;
    assert b.types[r.type_(id)] == RenumberedDefinition(a.types[id], r);
  }

  /** Numbering never reaches an identity: corresponding types project to the same identity,
      or fail with the same error. */
  lemma {:induction false} RenumberingInvariance(
    id: TypeId, a: TypeEnvironment, b: TypeEnvironment, c: Context, d: Context, r: Renumbering)
    requires ArgumentsComeFirst(a) && ArgumentsComeFirst(b)
    requires EnvironmentRenumbered(a, b, r) && ContextRenumbered(c, d, r)
    ensures Project(id, a, c) == Project(r.type_(id), b, d)
    decreases id, 1, 0
  {
    hide ProjectAll, ProjectInstance, ProjectConstructed;
    if id < |a.types| {
      var arguments := Arguments(a.types[id]);
      assert b.types[r.type_(id)] == RenumberedDefinition(a.types[id], r);
      match a.types[id] {
        case ConstructedDefinition(_, _) =>
          if |arguments| >= 1 {
            RenumberingInvariance(arguments[0], a, b, c, d, r);
          }
          if |arguments| >= 2 {
            RenumberingInvariance(arguments[1], a, b, c, d, r);
          }
          ConstructedRenumbered(id, a, b, c, d, r);
        case InstanceDefinition(base, _) =>
          assert Below(arguments, id);
          var renumbered := RenumberedIds(arguments, r);
          assert Below(renumbered, r.type_(id));
          RenumberingInvarianceAll(arguments, id, renumbered, r.type_(id), a, b, c, d, r);
          InstanceRenumbered(id, a, b, c, d, r);
        case _ =>
      }
    }
  }

  lemma {:induction false} RenumberingInvarianceAll(
    ids: seq<TypeId>, bound: nat, renumbered: seq<TypeId>, otherBound: nat,
    a: TypeEnvironment, b: TypeEnvironment, c: Context, d: Context, r: Renumbering)
    requires ArgumentsComeFirst(a) && ArgumentsComeFirst(b)
    requires EnvironmentRenumbered(a, b, r) && ContextRenumbered(c, d, r)
    requires |renumbered| == |ids| && forall k :: 0 <= k < |ids| ==> renumbered[k] == r.type_(ids[k])
    requires Below(ids, bound) && Below(renumbered, otherBound)
    ensures ProjectAll(ids, bound, a, c) == ProjectAll(renumbered, otherBound, b, d)
    decreases bound, 0, |ids|
  {
    if ids != [] {
      RenumberingInvariance(ids[0], a, b, c, d, r);
      RenumberingInvarianceAll(ids[1..], bound, renumbered[1..], otherBound, a, b, c, d, r);
    }
  }

  // ---------------------------------------------------------------- unfolded types

  /** A type with every id below it written out. */
  datatype Term =
    | BuiltinTerm(builtin: BuiltinType)
    | NominalTerm(nominal: NominalId)
    | ExternalTerm(external: ExternalId)
    | CollectionTerm(element: Term, fixedCapacity: Option<nat>)
    | MapTerm(key: Term, value: Term)
    | OptionTerm(inner: Term)
    | FallibleTerm(success: Term, error: Term)
    | InstanceTerm(base: NominalId, arguments: seq<Term>)
    | ParameterTerm(parameter: ParameterId)

  /** The term of a type, where its shape has one. */
  function Unfold(id: TypeId, env: TypeEnvironment): Option<Term>
    requires ArgumentsComeFirst(env)
    decreases id, 1, 0
  {
    if id >= |env.types| then None
    else
      var arguments := Arguments(env.types[id]);
      match env.types[id]
      case BuiltinDefinition(builtin) => Some(BuiltinTerm(builtin))
      case StructDefinition(nominal) => Some(NominalTerm(nominal))
      case ChoiceDefinition(nominal) => Some(NominalTerm(nominal))
      case ExternalDefinition(external) => Some(ExternalTerm(external))
      case FunctionDefinition => None
      case ParameterDefinition(parameter) => Some(ParameterTerm(parameter))
      case InstanceDefinition(base, _) =>
        if InstanceBaseArity(base, env) != Success(|arguments|) then None
        else
          (match UnfoldAll(arguments, id, env)
           case Some(terms) => Some(InstanceTerm(base, terms))
           case None => None)
      case ConstructedDefinition(ctor, _) =>
        if ctor.TupleOf? then None
        else if ctor.CollectionOf? || ctor.OptionOf? then
          if |arguments| != 1 then None
          else
            (match Unfold(arguments[0], env)
             case Some(term) =>
               Some(if ctor.OptionOf? then OptionTerm(term) else CollectionTerm(term, ctor.fixedCapacity))
             case None => None)
        else if |arguments| != 2 then None
        else
          match (Unfold(arguments[0], env), Unfold(arguments[1], env))
          case (Some(x), Some(y)) => Some(if ctor.FallibleOf? then FallibleTerm(x, y) else MapTerm(x, y))
          case _ => None
  }

  function UnfoldAll(ids: seq<TypeId>, bound: nat, env: TypeEnvironment): (r: Option<seq<Term>>)
    requires ArgumentsComeFirst(env) && Below(ids, bound)
    ensures r.Some? ==> |r.value| == |ids|
    decreases bound, 0, |ids|
  {
    if ids == [] then Some([])
    else
      match (Unfold(ids[0], env), UnfoldAll(ids[1..], bound, env))
      case (Some(first), Some(others)) => Some([first] + others)
      case _ => None
  }

  /** The identity of a term, where the context knows every id in it. */
  function TermIdentity(term: Term, context: Context): Option<CanonicalType>
    decreases term, 1
  {
    match term
    case BuiltinTerm(builtin) => Some(Builtin(builtin))
    case NominalTerm(n) => if n in context.nominals then Some(SourceNominal(context.nominals[n])) else None
    case ExternalTerm(x) =>
      if x in context.externals then Some(ExternalOpaque(context.externals[x].0, context.externals[x].1)) else None
    case ParameterTerm(p) =>
      if p in context.parameters then Some(GenericParameter(context.parameters[p])) else None
    case CollectionTerm(element, capacity) =>
      (match TermIdentity(element, context)
       case Some(t) => Some(Collection(t, capacity))
       case None => None)
    case OptionTerm(inner) =>
      (match TermIdentity(inner, context)
       case Some(t) => Some(OptionType(t))
       case None => None)
    case MapTerm(key, value) =>
      (match (TermIdentity(key, context), TermIdentity(value, context))
       case (Some(k), Some(v)) => Some(OrderedMap(k, v))
       case _ => None)
    case FallibleTerm(success, error) =>
      (match (TermIdentity(success, context), TermIdentity(error, context))
       case (Some(s), Some(e)) => Some(FallibleCarrier(s, e))
       case _ => None)
    case InstanceTerm(base, arguments) =>
      (match TermIdentities(arguments, context)
       case Some(ts) =>
         if base in context.nominals then Some(GenericInstance(context.nominals[base], ts)) else None
       case None => None)
  }

  function TermIdentities(terms: seq<Term>, context: Context): (r: Option<seq<CanonicalType>>)
    ensures r.Some? ==> |r.value| == |terms|
    decreases terms, 0
  {
    if terms == [] then Some([])
    else
      match (TermIdentity(terms[0], context), TermIdentities(terms[1..], context))
      case (Some(first), Some(others)) => Some([first] + others)
      case _ => None
  }

  function Identity(id: TypeId, env: TypeEnvironment, context: Context): Option<CanonicalType>
    requires ArgumentsComeFirst(env)
  {
    match Unfold(id, env)
    case Some(term) => TermIdentity(term, context)
    case None => None
  }

  /** A projection succeeds exactly when the type unfolds and the context knows its ids, with
      the identity of the unfolded term. */
  lemma {:induction false} ProjectionIsTermIdentity(id: TypeId, env: TypeEnvironment, context: Context)
    requires ArgumentsComeFirst(env)
    ensures Project(id, env, context).Success? <==> Identity(id, env, context).Some?
    ensures Project(id, env, context).Success? ==>
        Project(id, env, context).value == Identity(id, env, context).value
    decreases id, 1, 0
  {
    if id < |env.types| {
      var arguments := Arguments(env.types[id]);
      match env.types[id] {
        case ConstructedDefinition(_, _) =>
          if |arguments| >= 1 {
            ProjectionIsTermIdentity(arguments[0], env, context);
          }
          if |arguments| >= 2 {
            ProjectionIsTermIdentity(arguments[1], env, context);
          }
          assert Project(id, env, context) == ProjectConstructed(id, env, context);
        case InstanceDefinition(base, _) =>
            ProjectionsAreTermIdentities(arguments, id, env, context);
          assert Project(id, env, context) == ProjectInstance(id, env, context);
        case _ =>
      }
    }
  }

  function IdentitiesOf(ids: seq<TypeId>, bound: nat, env: TypeEnvironment, context: Context)
    : Option<seq<CanonicalType>>
    requires ArgumentsComeFirst(env) && Below(ids, bound)
  {
    match UnfoldAll(ids, bound, env)
    case Some(terms) => TermIdentities(terms, context)
    case None => None
  }

  lemma {:induction false} ProjectionsAreTermIdentities(
    ids: seq<TypeId>, bound: nat, env: TypeEnvironment, context: Context)
    requires ArgumentsComeFirst(env) && Below(ids, bound)
    ensures ProjectAll(ids, bound, env, context).Success? <==> IdentitiesOf(ids, bound, env, context).Some?
    ensures ProjectAll(ids, bound, env, context).Success? ==>
        ProjectAll(ids, bound, env, context).value == IdentitiesOf(ids, bound, env, context).value
    decreases bound, 0, |ids|
  {
    if ids != [] {
      ProjectionIsTermIdentity(ids[0], env, context);
      ProjectionsAreTermIdentities(ids[1..], bound, env, context);
    }
  }

  // ---------------------------------------------------------------- faithfulness

  /** Different ids have different stable identities. */
  ghost predicate InjectiveContext(context: Context) {
    && InjectiveAnswers(context.nominals)
    && InjectiveAnswers(context.parameters)
    && InjectiveAnswers(context.externals)
  }

  ghost predicate InjectiveAnswers<K, V>(answers: map<K, V>) {
    forall m, n :: m in answers && n in answers && answers[m] == answers[n] ==> m == n
  }

  lemma {:induction false} IdentityDeterminesTerm(s: Term, t: Term, context: Context)
    requires InjectiveContext(context)
    requires TermIdentity(s, context).Some? && TermIdentity(s, context) == TermIdentity(t, context)
    ensures s == t
    decreases s, 1
  {
    match (s, t) {
      case (CollectionTerm(x, _), CollectionTerm(y, _)) => IdentityDeterminesTerm(x, y, context);
      case (OptionTerm(x), OptionTerm(y)) => IdentityDeterminesTerm(x, y, context);
      case (MapTerm(k, v), MapTerm(l, w)) =>
        IdentityDeterminesTerm(k, l, context);
        IdentityDeterminesTerm(v, w, context);
      case (FallibleTerm(k, v), FallibleTerm(l, w)) =>
        IdentityDeterminesTerm(k, l, context);
        IdentityDeterminesTerm(v, w, context);
      case (InstanceTerm(_, xs), InstanceTerm(_, ys)) => IdentitiesDetermineTerms(xs, ys, context);
      case _ =>
    }
  }

  lemma {:induction false} IdentitiesDetermineTerms(s: seq<Term>, t: seq<Term>, context: Context)
    requires InjectiveContext(context)
    requires TermIdentities(s, context).Some? && TermIdentities(s, context) == TermIdentities(t, context)
    ensures s == t
    decreases s, 0
  {
    if s != [] {
      var x, y := TermIdentities(s, context).value, TermIdentities(t, context).value;
      assert x[0] == y[0] && x[1..] == y[1..];
      assert TermIdentity(s[0], context) == Some(x[0]) && TermIdentity(t[0], context) == Some(y[0]);
      assert TermIdentities(s[1..], context) == Some(x[1..]) && TermIdentities(t[1..], context) == Some(y[1..]);
      IdentityDeterminesTerm(s[0], t[0], context);
      IdentitiesDetermineTerms(s[1..], t[1..], context);
    }
  }

  /** Two projected types share an identity exactly when they unfold to the same term. */
  lemma FaithfulIdentity(a: TypeId, b: TypeId, env: TypeEnvironment, context: Context)
    requires ArgumentsComeFirst(env) && InjectiveContext(context)
    requires Project(a, env, context).Success? && Project(b, env, context).Success?
    ensures Project(a, env, context) == Project(b, env, context) <==> Unfold(a, env) == Unfold(b, env)
  {
    ProjectionIsTermIdentity(a, env, context);
    ProjectionIsTermIdentity(b, env, context);
    if Project(a, env, context) == Project(b, env, context) {
      IdentityDeterminesTerm(Unfold(a, env).value, Unfold(b, env).value, context);
    }
  }

  /** The same through the encoder: equal type bytes mean equal types. */
  lemma EqualBytesMeanEqualTypes(a: TypeId, b: TypeId, env: TypeEnvironment, context: Context)
    requires ArgumentsComeFirst(env) && InjectiveContext(context)
    requires Project(a, env, context).Success? && Project(b, env, context).Success?
    requires EncodableType(Project(a, env, context).value) && EncodableType(Project(b, env, context).value)
    requires Short(PutType(Project(a, env, context).value, []))
    ensures PutType(Project(a, env, context).value, []) == PutType(Project(b, env, context).value, [])
       <==> Unfold(a, env) == Unfold(b, env)
  {
    hide PutType, EncodableType, Project, Unfold;
    FaithfulIdentity(a, b, env, context);
    if PutType(Project(a, env, context).value, []) == PutType(Project(b, env, context).value, []) {
      TypeReads(Project(a, env, context).value, []);
      TypeReads(Project(b, env, context).value, []);
    }
  }
}
