/** Finalization of call summaries after borrow validation.

    Every exported non-generic callable gets the summary of its own local function; generic
    ones stay pending. The function map of the HIR must name exactly those callables. */
module DraftFinalization {
  import opened Wrappers
  import opened Sorting
  import opened Identities
  import opened InterfaceDraft
  import opened CanonicalCode
  import opened DraftJoin
  import opened DraftConservation

  type FunctionId = nat

  /** What finalization reads from the HIR and from the borrow analysis. */
  datatype Analysis = Analysis(
    functionIds: map<OriginFunction, FunctionId>,
    startFunction: FunctionId,
    summaries: map<FunctionId, CallSummary>)

  datatype FinalizeError =
    | MisplacedFunction
    | MisplacedMethods
    | WrongReceiver
    | DuplicateCallable
    | NotPending
    | MissingFunction
    | StartFunction
    | MissingSummary
    | ParameterCount
    | UnexpectedFunction
    | ExtraOrigin

  // ---------------------------------------------------------------- callables

  datatype Callable = Callable(origin: OriginFunction, generic: bool, parameterCount: nat, state: SummaryState)

  function CallableOfMethod(m: ReceiverMethod): Callable {
    Callable(m.origin, m.genericTemplate, |m.parameters|, m.callSummary)
  }

  function CallableOfFunction(origin: OriginFunction, f: FunctionSemantics): Callable {
    Callable(origin, f.genericTemplate.Some?, |f.parameters|, f.callSummary)
  }

  function CallablesOf(record: DeclarationRecord): seq<Callable> {
    match record.semantics
    case FunctionDeclaration(f) =>
      if record.origin.FunctionOrigin? then [CallableOfFunction(record.origin.function_, f)] else []
    case StructDeclaration(_, _, methods) => Map(CallableOfMethod, methods)
    case ChoiceDeclaration(_, _, methods) => Map(CallableOfMethod, methods)
    case _ => []
  }

  function Callables(records: seq<DeclarationRecord>): seq<Callable> {
    if records == [] then []
    else Callables(records[..|records| - 1]) + CallablesOf(records[|records| - 1])
  }

  predicate MethodsBelong(receiver: OriginType, methods: seq<ReceiverMethod>) {
    forall i :: 0 <= i < |methods| ==> methods[i].origin.kind == Receiver(receiver)
  }

  /** A function record is a free function's; methods sit under their own receiver. */
  predicate WellPlaced(record: DeclarationRecord) {
    match record.semantics
    case FunctionDeclaration(_) => record.origin.FunctionOrigin? && record.origin.function_.kind.Free?
    case StructDeclaration(_, _, methods) => record.origin.TypeOrigin? && MethodsBelong(record.origin.type_, methods)
    case ChoiceDeclaration(_, _, methods) => record.origin.TypeOrigin? && MethodsBelong(record.origin.type_, methods)
    case _ => true
  }

  predicate AllWellPlaced(records: seq<DeclarationRecord>) {
    forall i :: 0 <= i < |records| ==> WellPlaced(records[i])
  }

  predicate Ready(c: Callable, analysis: Analysis) {
    if c.generic then c.state.PendingGenerated? && c.origin !in analysis.functionIds
    else
      && c.state.PendingLocal?
      && c.origin in analysis.functionIds
      && HasSummary(analysis.functionIds[c.origin], c.parameterCount, analysis)
  }

  predicate HasSummary(id: FunctionId, parameterCount: nat, analysis: Analysis) {
    && id != analysis.startFunction
    && id in analysis.summaries
    && |analysis.summaries[id].parameters| == parameterCount
  }

  /** The origins of the callables that have a local function. */
  function LocalOrigins(callables: seq<Callable>): (r: seq<OriginFunction>)
    ensures forall o :: o in r <==>
        exists i :: 0 <= i < |callables| && !callables[i].generic && callables[i].origin == o
  {
    if callables == [] then []
    else
      var before, last := LocalOrigins(callables[..|callables| - 1]), callables[|callables| - 1];
      if last.generic then before else before + [last.origin]
  }

  predicate Acceptable(callables: seq<Callable>, analysis: Analysis) {
    && (forall i :: 0 <= i < |callables| ==> Ready(callables[i], analysis))
    && (forall i, j :: 0 <= i < j < |LocalOrigins(callables)| ==>
          LocalOrigins(callables)[i] != LocalOrigins(callables)[j])
  }

  predicate Finalizable(records: seq<DeclarationRecord>, analysis: Analysis) {
    && AllWellPlaced(records)
    && Acceptable(Callables(records), analysis)
    && forall o :: o in analysis.functionIds ==> o in LocalOrigins(Callables(records))
  }

  // ---------------------------------------------------------------- the finalized records

  function FinalState(c: Callable, analysis: Analysis): SummaryState {
    if !c.generic && c.origin in analysis.functionIds && analysis.functionIds[c.origin] in analysis.summaries
    then Finalized(analysis.summaries[analysis.functionIds[c.origin]])
    else c.state
  }

  function FinalMethod(m: ReceiverMethod, analysis: Analysis): ReceiverMethod {
    m.(callSummary := FinalState(CallableOfMethod(m), analysis))
  }

  function FinalMethods(methods: seq<ReceiverMethod>, analysis: Analysis): (r: seq<ReceiverMethod>)
    ensures |r| == |methods| && forall i :: 0 <= i < |r| ==> r[i] == FinalMethod(methods[i], analysis)
  {
    seq(|methods|, i requires 0 <= i < |methods| => FinalMethod(methods[i], analysis))
  }

  function FinalRecord(record: DeclarationRecord, analysis: Analysis): DeclarationRecord {
    match record.semantics
    case FunctionDeclaration(f) =>
      if record.origin.FunctionOrigin? then
        var state := FinalState(CallableOfFunction(record.origin.function_, f), analysis);
        record.(semantics := FunctionDeclaration(f.(callSummary := state)))
      else record
    case StructDeclaration(generics, fields, methods) =>
      record.(semantics := StructDeclaration(generics, fields, FinalMethods(methods, analysis)))
    case ChoiceDeclaration(generics, variants, methods) =>
      record.(semantics := ChoiceDeclaration(generics, variants, FinalMethods(methods, analysis)))
    case _ => record
  }

  function FinalRecords(records: seq<DeclarationRecord>, analysis: Analysis): (r: seq<DeclarationRecord>)
    ensures |r| == |records| && forall i :: 0 <= i < |r| ==> r[i] == FinalRecord(records[i], analysis)
  {
    seq(|records|, i requires 0 <= i < |records| => FinalRecord(records[i], analysis))
  }

  // ---------------------------------------------------------------- the pass

  lemma AcceptableStep(callables: seq<Callable>, last: Callable, analysis: Analysis)
    ensures Acceptable(callables + [last], analysis) <==>
        (Acceptable(callables, analysis) && Ready(last, analysis)
         && (last.generic || last.origin !in LocalOrigins(callables)))
  {
    var more := callables + [last];
    assert more[..|callables|] == callables && more[|callables|] == last;
    assert forall i :: 0 <= i < |callables| ==> more[i] == callables[i];
    var before, after := LocalOrigins(callables), LocalOrigins(more);
    if !last.generic {
      assert after[..|before|] == before && after[|before|] == last.origin;
      assert forall i :: 0 <= i < |before| ==> after[i] == before[i];
    }
  }

  lemma {:induction false} AcceptablePrefix(first: seq<Callable>, second: seq<Callable>, analysis: Analysis)
    requires Acceptable(first + second, analysis)
    ensures Acceptable(first, analysis)
    decreases |second|
  {
    hide Acceptable;
    if second == [] {
      assert first + second == first;
    } else {
      var before := second[..|second| - 1];
      assert first + second == (first + before) + [second[|second| - 1]];
      AcceptableStep(first + before, second[|second| - 1], analysis);
      AcceptablePrefix(first, before, analysis);
    }
  }

  /** A pass over the callables so far: `expected` holds the origins that need a function. */
  class Finalizer {
    const analysis: Analysis
    var expected: set<OriginFunction>
    ghost var done: seq<Callable>

    ghost predicate Valid()
      reads this
    {
      && Acceptable(done, analysis)
      && (forall o :: o in expected <==> o in LocalOrigins(done))
    }

    constructor (analysis: Analysis)
      ensures Valid() && this.analysis == analysis && done == []
    {
      this.analysis := analysis;
      expected := {};
      done := [];
    }

    /** A generic callable must still be pending and have no local function. */
    method ValidatePendingGenerated(c: Callable) returns (r: Outcome<FinalizeError>)
      requires Valid() && c.generic
      modifies this
      ensures r.Pass? <==> Ready(c, analysis)
      ensures r.Pass? ==> Valid() && done == old(done) + [c]
    {
      AcceptableStep(done, c, analysis);
      if !c.state.PendingGenerated? {
        return Fail(NotPending);
      }
      if c.origin in analysis.functionIds {
        return Fail(UnexpectedFunction);
      }
      assert (done + [c])[..|done|] == done;
      done := done + [c];
      return Pass;
    }

    /** A local callable gets the summary of its function. */
    method FinalizeCallable(c: Callable) returns (r: Result<SummaryState, FinalizeError>)
      requires Valid() && !c.generic
      modifies this
      ensures r.Success? <==> Ready(c, analysis) && c.origin !in LocalOrigins(old(done))
      ensures r.Success? ==> r.value == FinalState(c, analysis) && Valid() && done == old(done) + [c]
    {
      AcceptableStep(done, c, analysis);
      if c.origin in expected {
        return Failure(DuplicateCallable);
      }
      expected := expected + {c.origin};
      if !c.state.PendingLocal? {
        return Failure(NotPending);
      }
      if c.origin !in analysis.functionIds {
        return Failure(MissingFunction);
      }
      var id := analysis.functionIds[c.origin];
      if id == analysis.startFunction {
        return Failure(StartFunction);
      }
      if id !in analysis.summaries {
        return Failure(MissingSummary);
      }
      var summary := analysis.summaries[id];
      if |summary.parameters| != c.parameterCount {
        return Failure(ParameterCount);
      }
      assert (done + [c])[..|done|] == done;
      done := done + [c];
      return Success(Finalized(summary));
    }

    method FinalizeOne(c: Callable) returns (r: Result<SummaryState, FinalizeError>)
      requires Valid()
      modifies this
      ensures r.Success? <==> Acceptable(old(done) + [c], analysis)
      ensures r.Success? ==> r.value == FinalState(c, analysis) && Valid() && done == old(done) + [c]
    {
      AcceptableStep(done, c, analysis);
      if c.generic {
        var validated := ValidatePendingGenerated(c);
        if validated.Fail? {
          return Failure(validated.error);
        }
        return Success(c.state);
      }
      r := FinalizeCallable(c);
    }

    method FinalizeReceiverMethods(receiver: OriginType, methods: seq<ReceiverMethod>)
      returns (r: Result<seq<ReceiverMethod>, FinalizeError>)
      requires Valid()
      modifies this
      ensures r.Success? <==>
          MethodsBelong(receiver, methods) && Acceptable(old(done) + Map(CallableOfMethod, methods), analysis)
      ensures r.Success? ==> r.value == FinalMethods(methods, analysis)
      ensures r.Success? ==> Valid() && done == old(done) + Map(CallableOfMethod, methods)
    {
      hide Acceptable;
      var finished: seq<ReceiverMethod> := [];
      ghost var callables := Map(CallableOfMethod, methods);
      for i := 0 to |methods|
        invariant MethodsBelong(receiver, methods[..i])
        invariant Valid() && done == old(done) + callables[..i]
        invariant finished == FinalMethods(methods[..i], analysis)
      {
        var m := methods[i];
        if m.origin.kind != Receiver(receiver) {
          return Failure(WrongReceiver);
        }
        assert done + [callables[i]] == old(done) + callables[..i + 1];
        assert old(done) + callables == (old(done) + callables[..i + 1]) + callables[i + 1..];
        var state := FinalizeOne(CallableOfMethod(m));
        if state.Failure? {
          if Acceptable(old(done) + callables, analysis) {
            AcceptablePrefix(old(done) + callables[..i + 1], callables[i + 1..], analysis);
          }
          return Failure(state.error);
        }
        finished := finished + [m.(callSummary := state.value)];
      }
      assert callables[..|methods|] == callables && methods[..|methods|] == methods;
      return Success(finished);
    }

    method FinalizeRecord(record: DeclarationRecord) returns (r: Result<DeclarationRecord, FinalizeError>)
      requires Valid()
      modifies this
      ensures r.Success? <==> WellPlaced(record) && Acceptable(old(done) + CallablesOf(record), analysis)
      ensures r.Success? ==> r.value == FinalRecord(record, analysis)
      ensures r.Success? ==> Valid() && done == old(done) + CallablesOf(record)
    {
      hide Acceptable, LocalOrigins;
      match record.semantics {
        case FunctionDeclaration(f) =>
          if !record.origin.FunctionOrigin? || !record.origin.function_.kind.Free? {
            return Failure(MisplacedFunction);
          }
          var state :- FinalizeOne(CallableOfFunction(record.origin.function_, f));
          return Success(record.(semantics := FunctionDeclaration(f.(callSummary := state))));
        case StructDeclaration(generics, fields, methods) =>
          if !record.origin.TypeOrigin? {
            return Failure(MisplacedMethods);
          }
          var finished :- FinalizeReceiverMethods(record.origin.type_, methods);
          return Success(record.(semantics := StructDeclaration(generics, fields, finished)));
        case ChoiceDeclaration(generics, variants, methods) =>
          if !record.origin.TypeOrigin? {
            return Failure(MisplacedMethods);
          }
          var finished :- FinalizeReceiverMethods(record.origin.type_, methods);
          return Success(record.(semantics := ChoiceDeclaration(generics, variants, finished)));
        case _ =>
          assert done + [] == done;
          return Success(record);
      }
    }
  }

  lemma {:induction false} AcceptableBefore(records: seq<DeclarationRecord>, i: nat, analysis: Analysis)
    requires i <= |records| && Acceptable(Callables(records), analysis)
    ensures Acceptable(Callables(records[..i]), analysis)
    decreases |records|
  {
    hide Acceptable, CallablesOf;
    if i == |records| {
      assert records[..i] == records;
    } else {
      var before := records[..|records| - 1];
      AcceptablePrefix(Callables(before), CallablesOf(records[|records| - 1]), analysis);
      AcceptableBefore(before, i, analysis);
      assert before[..i] == records[..i];
    }
  }

  /** `finalize_after_borrow_validation`. */
  method FinalizeAfterBorrowValidation(draft: Draft, analysis: Analysis) returns (r: Result<Draft, FinalizeError>)
    ensures r.Success? <==> Finalizable(draft.declarations, analysis)
    ensures r.Success? ==> r.value == draft.(declarations := FinalRecords(draft.declarations, analysis))
  {
    hide Acceptable, CallablesOf, WellPlaced, FinalRecord, LocalOrigins;
    var finalizer := new Finalizer(analysis);
    var records := draft.declarations;
    var finished: seq<DeclarationRecord> := [];
    for i := 0 to |records|
      invariant finalizer.Valid() && finalizer.analysis == analysis
      invariant AllWellPlaced(records[..i]) && finalizer.done == Callables(records[..i])
      invariant finished == FinalRecords(records[..i], analysis)
    {
      assert records[..i + 1][..i] == records[..i];
      var record := finalizer.FinalizeRecord(records[i]);
      if record.Failure? {
        if Acceptable(Callables(records), analysis) {
          AcceptableBefore(records, i + 1, analysis);
        }
        return Failure(record.error);
      }
      finished := finished + [record.value];
    }
    assert records[..|records|] == records;
    if exists origin :: origin in analysis.functionIds && origin !in finalizer.expected {
      return Failure(ExtraOrigin);
    }
    return Success(draft.(declarations := finished));
  }

  // ---------------------------------------------------------------- consequences

  /** The HIR names exactly the non-generic callables of a draft that finalizes, each once. */
  lemma FunctionMapIsExact(records: seq<DeclarationRecord>, analysis: Analysis)
    requires Finalizable(records, analysis)
    ensures multiset(LocalOrigins(Callables(records))) == multiset(analysis.functionIds.Keys)
  {
    hide AllWellPlaced, LocalOrigins;
    var origins, names := LocalOrigins(Callables(records)), analysis.functionIds.Keys;
    forall o
      ensures multiset(origins)[o] == multiset(names)[o]
    {
      DistinctCounts(origins, o);
      if o in origins {
        var i :| 0 <= i < |Callables(records)| && !Callables(records)[i].generic && Callables(records)[i].origin == o;
        assert Ready(Callables(records)[i], analysis);
      }
    }
  }

  function Unsummarized(record: DeclarationRecord): DeclarationRecord {
    match record.semantics
    case FunctionDeclaration(f) => record.(semantics := FunctionDeclaration(f.(callSummary := PendingLocal)))
    case StructDeclaration(generics, fields, methods) =>
      record.(semantics := StructDeclaration(generics, fields, Map(UnsummarizedMethod, methods)))
    case ChoiceDeclaration(generics, variants, methods) =>
      record.(semantics := ChoiceDeclaration(generics, variants, Map(UnsummarizedMethod, methods)))
    case _ => record
  }

  function UnsummarizedMethod(m: ReceiverMethod): ReceiverMethod {
    m.(callSummary := PendingLocal)
  }

  /** Finalization changes nothing but summary states. */
  lemma OnlySummariesChange(record: DeclarationRecord, analysis: Analysis)
    ensures Unsummarized(FinalRecord(record, analysis)) == Unsummarized(record)
  {
    match record.semantics {
      case StructDeclaration(_, _, methods) =>
        assert Map(UnsummarizedMethod, FinalMethods(methods, analysis)) == Map(UnsummarizedMethod, methods);
      case ChoiceDeclaration(_, _, methods) =>
        assert Map(UnsummarizedMethod, FinalMethods(methods, analysis)) == Map(UnsummarizedMethod, methods);
      case _ =>
    }
  }

  /** What finalization needs of a callable and leaves in its summary: a generic one pending and
      without a function, any other pending and with the summary of the function the HIR names for
      its origin, which is not the start function and has as many parameters. */
  predicate Summarized(
    origin: OriginFunction, generic: bool, parameters: seq<ParameterSlot>, before: SummaryState,
    after: SummaryState, analysis: Analysis)
  {
    if generic then before == after == PendingGenerated && origin !in analysis.functionIds
    else
      && before == PendingLocal && origin in analysis.functionIds
      && analysis.functionIds[origin] != analysis.startFunction
      && analysis.functionIds[origin] in analysis.summaries
      && |analysis.summaries[analysis.functionIds[origin]].parameters| == |parameters|
      && after == Finalized(analysis.summaries[analysis.functionIds[origin]])
  }

  /** The one summary of a finalized free function. */
  lemma FinalFunctionHolds(records: seq<DeclarationRecord>, analysis: Analysis, i: nat)
    requires Finalizable(records, analysis) && i < |records| && records[i].semantics.FunctionDeclaration?
    ensures records[i].origin.FunctionOrigin? && records[i].origin.function_.kind == Free
    ensures FinalRecords(records, analysis)[i].origin == records[i].origin
    ensures FinalRecords(records, analysis)[i].semantics.FunctionDeclaration?
    ensures var f, g := records[i].semantics.function_, FinalRecords(records, analysis)[i].semantics.function_;
      && g.genericTemplate == f.genericTemplate && g.parameters == f.parameters
      && g.returnSlots == f.returnSlots && g.errorReturn == f.errorReturn
      && Summarized(
          records[i].origin.function_, f.genericTemplate.Some?, f.parameters, f.callSummary, g.callSummary, analysis)
  {
    hide LocalOrigins;
    assert WellPlaced(records[i]);
    var c := CallableOfFunction(records[i].origin.function_, records[i].semantics.function_);
    assert c in CallablesOf(records[i]);
    CallableInRecords(records, i, c);
  }

  /** And that of every finalized receiver method, which is its own receiver's. */
  lemma FinalMethodHolds(records: seq<DeclarationRecord>, analysis: Analysis, i: nat, k: nat)
    requires Finalizable(records, analysis) && i < |records|
    requires k < |MethodsOfRecord(records[i])|
    ensures records[i].origin.TypeOrigin?
    ensures |MethodsOfRecord(FinalRecords(records, analysis)[i])| == |MethodsOfRecord(records[i])|
    ensures
      var m, n := MethodsOfRecord(records[i])[k], MethodsOfRecord(FinalRecords(records, analysis)[i])[k];
      && m.origin.kind == Receiver(records[i].origin.type_)
      && n.origin == m.origin && n.genericTemplate == m.genericTemplate && n.parameters == m.parameters
      && n.returnSlots == m.returnSlots && n.errorReturn == m.errorReturn
      && Summarized(m.origin, m.genericTemplate, m.parameters, m.callSummary, n.callSummary, analysis)
  {
    hide LocalOrigins;
    assert WellPlaced(records[i]);
    var c := CallableOfMethod(MethodsOfRecord(records[i])[k]);
    assert CallablesOf(records[i])[k] == c;
    CallableInRecords(records, i, c);
  }

  lemma CallableInRecords(records: seq<DeclarationRecord>, i: nat, c: Callable)
    requires i < |records| && c in CallablesOf(records[i])
    ensures c in Callables(records)
    decreases |records|
  {
    if i < |records| - 1 {
      CallableInRecords(records[..|records| - 1], i, c);
    }
  }

  // ---------------------------------------------------------------- the encoder accepts

  /** The counts and lengths of a declaration fit the fields of the encoding. */
  predicate SizesFit(semantics: DeclarationSemantics) {
    match semantics
    case FunctionDeclaration(f) =>
      && (f.genericTemplate.Some? ==> EncodableGenericSurfaces(f.genericTemplate.value))
      && EncodableSignature(f.parameters, f.returnSlots, f.errorReturn, f.callSummary)
    case StructDeclaration(generics, fields, methods) =>
      EncodableGenericSurfaces(generics) && EncodableFieldSlots(fields) && MethodSizesFit(methods)
    case ChoiceDeclaration(generics, variants, methods) =>
      && EncodableGenericSurfaces(generics)
      && FitsField(|variants|)
      && (forall i :: 0 <= i < |variants| ==> EncodableVariant(variants[i]))
      && MethodSizesFit(methods)
    case _ => EncodableSemantics(semantics)
  }

  predicate MethodSizesFit(methods: seq<ReceiverMethod>) {
    && FitsField(|methods|)
    && forall i :: 0 <= i < |methods| ==>
        EncodableSignature(
          methods[i].parameters, methods[i].returnSlots, methods[i].errorReturn, methods[i].callSummary)
  }

  predicate DraftSizesFit(draft: Draft) {
    && FitsField(|draft.exportBindings|)
    && FitsField(|draft.declarations|)
    && (forall i :: 0 <= i < |draft.declarations| ==> SizesFit(draft.declarations[i].semantics))
    && FitsField(|draft.evidence|)
    && (forall i :: 0 <= i < |draft.evidence| ==> EvidenceFits(draft.evidence[i]))
  }

  predicate EvidenceFits(record: EvidenceRecord) {
    EncodableType(record.identity.target) && FitsField(|record.mappings|)
  }

  predicate SourceEvidence(records: seq<EvidenceRecord>) {
    forall i :: 0 <= i < |records| ==> records[i].ownership == SourceCanonical
  }

  lemma FinalStateAccepted(c: Callable, analysis: Analysis)
    requires Ready(c, analysis)
    ensures SummaryStateAccepted(c.generic, c.parameterCount, FinalState(c, analysis))
  {
  }

  lemma FinalMethodsEncode(
    receiver: OriginType, methods: seq<ReceiverMethod>, analysis: Analysis)
    requires forall i :: 0 <= i < |methods| ==> Ready(CallableOfMethod(methods[i]), analysis)
    requires MethodSizesFit(FinalMethods(methods, analysis))
    ensures EncodableMethods(FinalMethods(methods, analysis))
  {
    hide EncodableSignature, FinalState, Ready;
    forall i | 0 <= i < |methods|
      ensures EncodableMethod(FinalMethods(methods, analysis)[i])
    {
      FinalStateAccepted(CallableOfMethod(methods[i]), analysis);
    }
  }

  lemma FinalRecordEncodes(record: DeclarationRecord, analysis: Analysis)
    requires WellPlaced(record) && SizesFit(FinalRecord(record, analysis).semantics)
    requires forall c :: c in CallablesOf(record) ==> Ready(c, analysis)
    ensures EncodableSemantics(FinalRecord(record, analysis).semantics)
  {
    hide EncodableSignature, FinalState, Ready, EncodableMethods, MethodSizesFit;
    match record.semantics {
      case FunctionDeclaration(f) =>
        assert CallableOfFunction(record.origin.function_, f) in CallablesOf(record);
        FinalStateAccepted(CallableOfFunction(record.origin.function_, f), analysis);
      case StructDeclaration(_, _, methods) =>
        assert forall i :: 0 <= i < |methods| ==> CallablesOf(record)[i] == CallableOfMethod(methods[i]);
        FinalMethodsEncode(record.origin.type_, methods, analysis);
      case ChoiceDeclaration(_, _, methods) =>
        assert forall i :: 0 <= i < |methods| ==> CallablesOf(record)[i] == CallableOfMethod(methods[i]);
        FinalMethodsEncode(record.origin.type_, methods, analysis);
      case _ =>
    }
  }

  /** The encoder refuses a finalized draft with source evidence for its sizes only, never for
      a summary state or for evidence. */
  lemma FinalizedDraftEncodes(draft: Draft, analysis: Analysis)
    requires Finalizable(draft.declarations, analysis) && SourceEvidence(draft.evidence)
    ensures
      var final := draft.(declarations := FinalRecords(draft.declarations, analysis));
      DraftSizesFit(final) ==> EncodableDraft(final)
  {
    hide EncodableType, SizesFit, EncodableSemantics, FinalRecord, Ready, CallablesOf;
    var final := draft.(declarations := FinalRecords(draft.declarations, analysis));
    if DraftSizesFit(final) {
      forall i | 0 <= i < |final.declarations|
        ensures EncodableSemantics(final.declarations[i].semantics)
      {
        forall c | c in CallablesOf(draft.declarations[i])
          ensures Ready(c, analysis)
        {
          CallableInRecords(draft.declarations, i, c);
        }
        FinalRecordEncodes(draft.declarations[i], analysis);
      }
    }
  }

  /** A generic callable is still pending; any other has a summary of as many parameters. */
  predicate Settled(generic: bool, parameters: seq<ParameterSlot>, state: SummaryState) {
    if generic then state == PendingGenerated
    else state.Finalized? && |state.summary.parameters| == |parameters|
  }

  predicate RecordSettled(record: DeclarationRecord) {
    match record.semantics
    case FunctionDeclaration(f) => Settled(f.genericTemplate.Some?, f.parameters, f.callSummary)
    case StructDeclaration(_, _, methods) => MethodsSettled(methods)
    case ChoiceDeclaration(_, _, methods) => MethodsSettled(methods)
    case _ => true
  }

  predicate MethodsSettled(methods: seq<ReceiverMethod>) {
    forall i :: 0 <= i < |methods| ==>
      Settled(methods[i].genericTemplate, methods[i].parameters, methods[i].callSummary)
  }

  lemma MethodsEncodeExactly(methods: seq<ReceiverMethod>)
    ensures EncodableMethods(methods) <==> MethodSizesFit(methods) && MethodsSettled(methods)
  {
    hide EncodableSignature;
    forall i | 0 <= i < |methods|
      ensures EncodableMethod(methods[i]) <==>
        && EncodableSignature(
            methods[i].parameters, methods[i].returnSlots, methods[i].errorReturn, methods[i].callSummary)
        && Settled(methods[i].genericTemplate, methods[i].parameters, methods[i].callSummary)
    {
    }
  }

  lemma RecordEncodesExactly(record: DeclarationRecord)
    ensures EncodableSemantics(record.semantics) <==> SizesFit(record.semantics) && RecordSettled(record)
  {
    hide EncodableSignature, EncodableMethods, MethodSizesFit, MethodsSettled;
    match record.semantics {
      case StructDeclaration(_, _, methods) => MethodsEncodeExactly(methods);
      case ChoiceDeclaration(_, _, methods) => MethodsEncodeExactly(methods);
      case _ =>
    }
  }

  /** The encoder accepts exactly the drafts whose sizes fit, whose evidence is the source's own
      and whose callables are settled. */
  lemma EncodesExactly(draft: Draft)
    ensures EncodableDraft(draft) <==>
      && DraftSizesFit(draft)
      && SourceEvidence(draft.evidence)
      && forall i :: 0 <= i < |draft.declarations| ==> RecordSettled(draft.declarations[i])
  {
    hide EncodableSemantics, SizesFit, RecordSettled, EncodableType;
    forall i | 0 <= i < |draft.declarations|
      ensures EncodableSemantics(draft.declarations[i].semantics) <==>
          SizesFit(draft.declarations[i].semantics) && RecordSettled(draft.declarations[i])
    {
      RecordEncodesExactly(draft.declarations[i]);
    }
  }

  // ---------------------------------------------------------------- joined drafts

  /** What the HIR must say about one callable of a joined draft. */
  predicate FunctionFits(c: Callable, analysis: Analysis) {
    if c.generic then c.origin !in analysis.functionIds
    else
      && c.origin in analysis.functionIds
      && var id := analysis.functionIds[c.origin];
      && id != analysis.startFunction && id in analysis.summaries
      && |analysis.summaries[id].parameters| == c.parameterCount
  }

  function CallableOrigin(c: Callable): OriginFunction {
    c.origin
  }

  /** The only record a well-placed callable can be in. */
  function Home(origin: OriginFunction): OriginDeclaration {
    match origin.kind
    case Free => FunctionOrigin(origin)
    case Receiver(receiver) => TypeOrigin(receiver)
  }

  lemma CallablesAtHome(record: DeclarationRecord)
    requires WellPlaced(record)
    ensures forall c :: c in CallablesOf(record) ==> Home(c.origin) == record.origin
  {
  }

  lemma {:induction false} MethodsOfDistinct(methods: seq<MethodSurface>, t: OriginType)
    requires DistinctKeys(methods, DraftJoin.MethodKey)
    ensures DistinctKeys(MethodsOf(methods, t), DraftJoin.MethodKey)
  {
    if methods != [] {
      var before, last := methods[..|methods| - 1], methods[|methods| - 1];
      MethodsOfDistinct(before, t);
      var earlier := MethodsOf(before, t);
      forall i | 0 <= i < |earlier|
        ensures earlier[i].origin != last.origin
      {
        assert earlier[i] in before;
        var j :| 0 <= j < |before| && before[j] == earlier[i];
        assert methods[j].origin != methods[|methods| - 1].origin;
      }
    }
  }

  /** A record of a join has pending states that match its kind, and no callable twice. */
  lemma JoinedRecordIsPending(origin: OriginDeclaration, s: Surfaces)
    requires SemanticsFor(origin, s).Some? && DistinctKeys(s.methods, DraftJoin.MethodKey)
    ensures
      var callables := CallablesOf(DeclarationRecord(origin, SemanticsFor(origin, s).value));
      && (forall c :: c in callables ==> c.state == PendingState(c.generic))
      && NoRepeats(Map(CallableOrigin, callables))
  {
    hide Find, MethodsOf;
    if origin.TypeOrigin? {
      MethodsOfDistinct(s.methods, origin.type_);
    }
  }

  lemma {:induction false} JoinedCallables(origins: seq<OriginDeclaration>, s: Surfaces)
    requires AllJoin(origins, s) && NoRepeats(origins) && DistinctKeys(s.methods, DraftJoin.MethodKey)
    requires AllWellPlaced(RecordsFor(origins, s))
    ensures
      var callables := Callables(RecordsFor(origins, s));
      && (forall c :: c in callables ==> c.state == PendingState(c.generic) && Home(c.origin) in origins)
      && NoRepeats(Map(CallableOrigin, callables))
  {
    hide SemanticsFor, WellPlaced, CallablesOf, Home;
    if origins != [] {
      var before, last := origins[..|origins| - 1], origins[|origins| - 1];
      var records := RecordsFor(origins, s);
      assert records[..|origins| - 1] == RecordsFor(before, s);
      JoinedCallables(before, s);
      assert SemanticsFor(last, s).Some? && WellPlaced(records[|origins| - 1]);
      JoinedRecordIsPending(last, s);
      CallablesAtHome(records[|origins| - 1]);
      var earlier, added := Callables(RecordsFor(before, s)), CallablesOf(records[|origins| - 1]);
      HomesApart(earlier, added, before, last);
      Appended(Map(CallableOrigin, earlier), Map(CallableOrigin, added));
      assert Map(CallableOrigin, earlier + added) == Map(CallableOrigin, earlier) + Map(CallableOrigin, added);
    }
  }

  lemma HomesApart(
    earlier: seq<Callable>, added: seq<Callable>, before: seq<OriginDeclaration>, last: OriginDeclaration)
    requires last !in before
    requires forall c :: c in earlier ==> Home(c.origin) in before
    requires forall c :: c in added ==> Home(c.origin) == last
    ensures forall o :: o in Map(CallableOrigin, earlier) ==> o !in Map(CallableOrigin, added)
  {
    hide Home;
  }

  lemma {:induction false} LocalOriginsDistinct(callables: seq<Callable>)
    requires NoRepeats(Map(CallableOrigin, callables))
    ensures NoRepeats(LocalOrigins(callables))
  {
    if callables != [] {
      var before, last := callables[..|callables| - 1], callables[|callables| - 1];
      assert Map(CallableOrigin, before) == Map(CallableOrigin, callables)[..|before|];
      LocalOriginsDistinct(before);
      var earlier := LocalOrigins(before);
      forall i | 0 <= i < |earlier|
        ensures earlier[i] != last.origin
      {
        assert earlier[i] in earlier;
        var j :| 0 <= j < |before| && !before[j].generic && before[j].origin == earlier[i];
        assert Map(CallableOrigin, callables)[j] != Map(CallableOrigin, callables)[|before|];
      }
    }
  }

  /** A joined draft finalizes exactly when its callables are where they belong and the HIR
      agrees with it: a fitting function for every local callable and nothing else. States and
      duplicates can no longer fail. */
  lemma JoinedDraftFinalizesExactly(bindings: seq<ExportBinding>, s: Surfaces, analysis: Analysis)
    requires Joinable(bindings, s)
    ensures
      var records := RecordsFor(FirstOccurrences(OriginsOf(bindings)), s);
      var callables := Callables(records);
      Finalizable(records, analysis) <==>
        (AllWellPlaced(records) && (forall c :: c in callables ==> FunctionFits(c, analysis))
         && forall o :: o in analysis.functionIds ==> o in LocalOrigins(callables))
  {
    hide SemanticsFor, WellPlaced, LocalOrigins, PathsApart, NothingLeft, FirstOccurrences;
    var origins := FirstOccurrences(OriginsOf(bindings));
    var records := RecordsFor(origins, s);
    var callables := Callables(records);
    if AllWellPlaced(records) {
      JoinedCallables(origins, s);
      LocalOriginsDistinct(callables);
      forall i | 0 <= i < |callables|
        ensures Ready(callables[i], analysis) <==> FunctionFits(callables[i], analysis)
      {
        assert callables[i] in callables;
      }
    }
  }
}
