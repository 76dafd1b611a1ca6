# Verified model of the Beanstalk compiler's interface and build core

Five parts of the compiler and its build system, modelled and proved in Dafny.

1. **Canonical interface encoding.** A public-interface draft is a deep, mutually recursive value:
   origins, canonical types, folded constants, trait requirements, call summaries, evidence. The encoder
   turns it into bytes that are meant as hash input. `CanonicalCode` gives the code of each value in front
   of any tail, and `CanonicalEncoding` is the buffer-appending encoder proved against it. `CanonicalReader`
   reads the format back and `CanonicalReadBack` proves that it gives every value and tail again;
   `CanonicalOrder` says in which order unordered collections are written, byte by byte; `CanonicalForm`
   proves that the bytes of a draft read back as a draft with its meaning, and so that equal bytes mean the
   same interface and the other way round. `FiniteFloats` covers the stored doubles.
2. **Declaration dependency sort.** `DependencyGraph` resolves hints to edges, `DependencyOrder` is the
   depth-first traversal as a function of the tracker's state with its invariants, `ModuleDependencies` is
   the traversal over the mutable tracker, and `DependencySortTheorems` states soundness, completeness,
   the visit bound, determinism and the fixed point in terms of headers and hints. `HeaderOrder` fixes the
   whole outcome by reachability along hints: which of two headers comes first, which headers are reported
   and how many visits are made; `DependencyReach`, `DependencyPrecedence` and `DependencyVisits` prove it
   of the traversal.
3. **Public-interface pipeline.** `TypeProjection` projects module-local types to canonical identities,
   `GenericParameterOrigins` and `GenericRegistration` register and alias generic parameters, `FoldedValues`
   converts constant expressions, `DraftJoin` and `DraftConservation` join the surfaces into records,
   `DraftFinalization` attaches call summaries after borrow validation and hands the draft to the encoder,
   and `TemplateExtraction` extracts generic templates. `ProjectedContents`, `RegisteredIdentities`,
   `FoldedContents`, `DraftContents` and `ExtractedTemplates` say what each of these returns, place by place
   and field by field, and exactly when.
4. **Output cleanup.** `BuildManifest`, `ManifestRoundTrip` and `ManifestText` are the manifest's writer,
   reader and text, `OutputTree` the output root, `OutputCleanup` one build, `OutputContents` what the files
   hold after it, `OutputHistory` all sequences of builds, and `OutputDeletions` says exactly what builds
   delete.
5. **Benchmark history and calendar.** `JsonText`, `JsonArrays`, `JsonTokens`, `JsonObjects` and
   `JsonFields` are the hand-written JSON text level, `BenchRecords`, `BenchGroups`, `BenchHistory`,
   `BenchLine`, `BenchRoundTrip` and `OlderRecords` the records, their statistics, their text and their round
   trip, `Calendar` the timestamps.

`Sorting`, `Bytes`, `TextLines`, `Decimals`, `Wrappers`, `Identities` and `InterfaceDraft` hold what these
share.

Methods follow the source's loops and state changes; each is proved against a function, and the lemmas are
about those functions. Tables the source looks things up in (the string table, the type environment, the
resolvers, the HIR function map, the borrow summaries) are maps.

What the proofs found where code and intention part:

- A manifest written for an empty extension set can never be read back, because trimming removes the space
  its prefix ends in (`EmptyExtensionsNeverLoad`).
- Output names with a line feed or with whitespace at an end are not tracked faithfully
  (`TrackedExactly`). A build can delete a file that no build emitted if and only if its policy takes the
  manifest it finds for its own and a trimmed line of a tracked name, or a line after the first of the
  extension list, reads as a path that was not tracked (`ForeignDeletedExactly`, and at any point of a history
  `DeletableExactly`); `ForeignFileDeleted` and `LineFeedDeletesForeign` are such histories. Otherwise builds
  delete only what the latest complete build tracked and left on disk (`DeletionsAreOwn`).
- Cleanup compares with the tracked outputs of the current build, not with all its outputs: a file emitted
  without being tracked, at a path the previous build tracked, is removed (`OwnOutputRemovedExactly`,
  `OwnOutputRemoved`).
- A policy with an extension that holds a comma or a line feed does not read its own manifests; another policy
  may read them, exactly when the first line of the list parses to its extensions (`ReadBack`,
  `CommaDeletesUnderOther`), or none (`CommaReadByNone`). Of the constructors only `generic` makes such policies.
- The history reader walks bytes and takes each for a character, so texts beyond ASCII change, and
  `extract_string_array` does not decode `\u` escapes, so arguments with control characters other than
  line feed, carriage return and tab change (`RunReadsBackExactly`, `BellAndAccentChange`). A code escape whose
  four bytes end inside a character makes it panic (`WindowExactly`, `AccentIsCut`); written lines have none.
- Month keys stop sorting like time at the year 10000 (`FiveDigitYearSortsFirst`,
  `ShorterKeySortsFirstExactly`).
- `write_bytes` casts a length to 64 bits without a check, so the code of a text of 2^64 bytes or more is
  also that of a shorter one (`LongBytesCollide`); reading back is stated for codes shorter than that.

## Model

| member | source | states |
|---|---|---|
| `Bytes.LongBytesCollide` | src/compiler_frontend/public_interface_encoding.rs:140-143 | From 2^64 bytes on the length wraps and the code is that of a shorter text too. |
| `Bytes.SortedItemsCanonical` | src/compiler_frontend/public_interface_encoding.rs:158-170 | Key-then-item sorting gives one list for each multiset of items. |
| `CanonicalEncoding.CanonicalEncoder.WriteI32` | src/compiler_frontend/public_interface_encoding.rs:112-114 | Appends the two's-complement code; the rest of the buffer is untouched. |
| `CanonicalEncoding.CanonicalEncoder.WriteCount` | src/compiler_frontend/public_interface_encoding.rs:120-128 | Succeeds exactly on counts below 2^64 and then appends their 64-bit code. |
| `CanonicalEncoding.CanonicalEncoder.WriteIndex` | src/compiler_frontend/public_interface_encoding.rs:130-138 | The same for parameter indices and capacities. |
| `CanonicalEncoding.CanonicalEncoder.WriteBytes` | src/compiler_frontend/public_interface_encoding.rs:140-143 | Appends length and bytes; the length field wraps at 2^64 as the cast in the source does. |
| `CanonicalEncoding.CanonicalEncoder.WriteEncodedSequence` | src/compiler_frontend/public_interface_encoding.rs:149-155 | Appends count and items, or fails exactly when the count does not fit. |
| `CanonicalEncoding.EncodeModuleOrigin` | src/compiler_frontend/public_interface_encoding.rs:179-183 | Appends the package, path and role code of a module origin. |
| `CanonicalEncoding.EncodeOriginType` | src/compiler_frontend/public_interface_encoding.rs:247-259 | Appends the code of a type origin, category last. |
| `CanonicalEncoding.EncodeOriginFunction` | src/compiler_frontend/public_interface_encoding.rs:261-275 | Appends the code of a function origin; a receiver carries its whole type origin. |
| `CanonicalEncoding.EncodeOriginDeclarationKey` | src/compiler_frontend/public_interface_encoding.rs:216-220 | The sort key of a declaration is its own code. |
| `CanonicalEncoding.EncodeExportBinding` | src/compiler_frontend/public_interface_encoding.rs:208-214 | The item of a binding, which is also its sort key. |
| `CanonicalEncoding.EncodeGenericParameterIdentity` | src/compiler_frontend/public_interface_encoding.rs:770-778 | Owner, position and name of an exported generic parameter. |
| `CanonicalEncoding.EncodeType` | src/compiler_frontend/public_interface_encoding.rs:852-911 | Succeeds exactly when every count and capacity inside the type fits, and appends the code of the type. |
| `CanonicalEncoding.EncodeTrait` | src/compiler_frontend/public_interface_encoding.rs:797-812 | The code of a source or core trait. |
| `CanonicalEncoding.EncodeEvidenceIdentity` | src/compiler_frontend/public_interface_encoding.rs:720-728 | The code of target type and trait, failing exactly when the type does. |
| `CanonicalEncoding.EncodeValue` | src/compiler_frontend/public_interface_encoding.rs:938-998 | Succeeds exactly on values whose collections and types fit, and appends their code. |
| `CanonicalEncoding.EncodeParameterSlot` | src/compiler_frontend/public_interface_encoding.rs:423-433 | Name, type and default of a parameter, failing exactly when one of them does. |
| `CanonicalEncoding.EncodeFieldSlot` | src/compiler_frontend/public_interface_encoding.rs:455-465 | Name, type and default of a field. |
| `CanonicalEncoding.EncodeVariant` | src/compiler_frontend/public_interface_encoding.rs:467-472 | Name and payload fields of a choice variant. |
| `CanonicalEncoding.EncodeGenericSurface` | src/compiler_frontend/public_interface_encoding.rs:403-413 | A generic parameter with its bounds in order. |
| `CanonicalEncoding.EncodeReturnAlias` | src/compiler_frontend/public_interface_encoding.rs:686-702 | Return alias with its parameter indices in order, failing exactly when one does not fit. |
| `CanonicalEncoding.EncodeSummaryState` | src/compiler_frontend/public_interface_encoding.rs:580-621 | Accepts exactly a pending generic callable or a finalized local one whose summary has as many parameters as its signature. |
| `CanonicalEncoding.EncodeFunction` | src/compiler_frontend/public_interface_encoding.rs:328-351 | Fails exactly when a size does not fit or the summary state is not acceptable. |
| `CanonicalEncoding.EncodeMethod` | src/compiler_frontend/public_interface_encoding.rs:490-511 | The same for a receiver method. |
| `CanonicalEncoding.SortedMethods` | src/compiler_frontend/public_interface_encoding.rs:474-488 | The items of receiver methods sorted by origin key. |
| `CanonicalEncoding.EncodeRequirement` | src/compiler_frontend/public_interface_encoding.rs:513-535 | A trait requirement with its parameters and returns in order. |
| `CanonicalEncoding.SortedIncompatibilities` | src/compiler_frontend/public_interface_encoding.rs:379-393 | The items of incompatible traits, sorted. |
| `CanonicalEncoding.EncodeSemantics` | src/compiler_frontend/public_interface_encoding.rs:294-326 | One tag per kind of declaration; succeeds exactly on encodable semantics. |
| `CanonicalEncoding.EncodeEvidence` | src/compiler_frontend/public_interface_encoding.rs:730-749 | Fails exactly on builtin evidence or a size that does not fit. |
| `CanonicalEncoding.EncodeDraft` | src/compiler_frontend/public_interface_encoding.rs:50-81 | The whole encoder: succeeds on exactly the encodable drafts and returns their code. |
| `CanonicalReadBack.NumberReads` | src/compiler_frontend/public_interface_encoding.rs:96-118 | Fixed-width scalars read back in front of any tail, each byte counting 256 times the one before it. |
| `CanonicalReadBack.I32Reads` | src/compiler_frontend/public_interface_encoding.rs:112-114 | Signed numbers read back from two's complement. |
| `CanonicalReadBack.BytesRead` | src/compiler_frontend/public_interface_encoding.rs:140-143 | A 64-bit length and so many bytes read back, as long as the whole text is shorter than 2^64. |
| `CanonicalReadBack.SequenceReads` | src/compiler_frontend/public_interface_encoding.rs:149-155 | A count and the items behind their lengths read back in order. |
| `CanonicalReadBack.ModuleOriginReads` | src/compiler_frontend/public_interface_encoding.rs:179-183 | A module origin reads back from its package, path and role, enumerations by their place in a table. |
| `CanonicalReadBack.OriginDeclarationReads` | src/compiler_frontend/public_interface_encoding.rs:222-245 | Declaration origins of every kind read back. |
| `CanonicalReadBack.GenericParameterReads` | src/compiler_frontend/public_interface_encoding.rs:770-778 | Owner, position and name of a generic parameter read back. |
| `CanonicalReadBack.TypeReads` | src/compiler_frontend/public_interface_encoding.rs:852-911 | Every encodable type reads back from its bytes, and with it the bytes behind it. |
| `CanonicalReadBack.TraitReads` | src/compiler_frontend/public_interface_encoding.rs:797-812 | Source and core traits read back. |
| `CanonicalReadBack.EvidenceIdentityReads` | src/compiler_frontend/public_interface_encoding.rs:720-728 | Evidence identities read back. |
| `CanonicalReadBack.ValueReads` | src/compiler_frontend/public_interface_encoding.rs:938-998 | Every encodable folded value reads back. |
| `CanonicalReadBack.ParameterSlotReads` | src/compiler_frontend/public_interface_encoding.rs:423-433 | Parameters read back with name, type and default. |
| `CanonicalReadBack.VariantsRead` | src/compiler_frontend/public_interface_encoding.rs:467-472 | Choice variants read back with their payload fields. |
| `CanonicalReadBack.GenericSurfacesRead` | src/compiler_frontend/public_interface_encoding.rs:395-401 | Generic parameters read back with their bounds. |
| `CanonicalReadBack.SummaryStateReads` | src/compiler_frontend/public_interface_encoding.rs:580-621 | Both encodable summary states read back, every effect by its place in a table. |
| `CanonicalReadBack.FunctionReads` | src/compiler_frontend/public_interface_encoding.rs:328-351 | A function record reads back field by field. |
| `CanonicalReadBack.MethodReads` | src/compiler_frontend/public_interface_encoding.rs:490-511 | A receiver method reads back field by field. |
| `CanonicalReadBack.RequirementsRead` | src/compiler_frontend/public_interface_encoding.rs:513-535 | Trait requirements read back. |
| `CanonicalReadBack.EvidenceReads` | src/compiler_frontend/public_interface_encoding.rs:730-749 | Evidence reads back with its identity and mappings. |
| `CanonicalOrder.SortedItemsAscend` | src/compiler_frontend/public_interface_encoding.rs:158-170 | The sorted items come from a rearrangement in which, at the first place where two keys differ, the smaller byte or the key that ends there comes first, and equal keys have ascending items. |
| `CanonicalOrder.MethodsAscend` | src/compiler_frontend/public_interface_encoding.rs:474-488 | Receiver methods are written in that order of their origins. |
| `CanonicalOrder.IncompatibilitiesAscend` | src/compiler_frontend/public_interface_encoding.rs:379-393 | Incompatible traits are written in that order of their own bytes. |
| `CanonicalOrder.DraftAscends` | src/compiler_frontend/public_interface_encoding.rs:50-81 | The bytes of a draft are the header, the module origin and then the bindings, declarations and evidence, each in that order of their keys. |
| `CanonicalForm.SemanticsReads` | src/compiler_frontend/public_interface_encoding.rs:294-393 | The bytes of a declaration read back as one with its meaning, whose methods and incompatibilities are in order. |
| `CanonicalForm.DraftReadsBack` | src/compiler_frontend/public_interface_encoding.rs:50-81 | The bytes of an encodable draft read back as a draft with its meaning, every unordered collection in the order of its bytes. |
| `CanonicalForm.SemanticsEncode` | src/compiler_frontend/public_interface_encoding.rs:294-393 | Semantics with the same meaning have the same code. |
| `CanonicalForm.CanonicalBytes` | src/compiler_frontend/public_interface_encoding.rs:50-81 | Two encodable drafts have the same bytes if and only if they agree on module origin and, as multisets, on bindings, declarations and evidence. |
| `FiniteFloats.BitsDecideEquality` | src/compiler_frontend/folded_value.rs:77-79 | Normalized finite doubles are numerically equal exactly when their bits are. |
| `FiniteFloats.NewIsCanonical` | src/compiler_frontend/folded_value.rs:57-75 | Two patterns construct the same stored bits exactly when they denote the same number. |
| `FiniteFloats.FiniteBelowInfinity` | src/compiler_frontend/folded_value.rs:57-75 | A pattern is finite exactly when, without its sign, it is below that of infinity. |
| `DependencyGraph.FromHeaders` | src/compiler_frontend/module_dependencies.rs:105-131 | The loop builds the graph of the headers: last header of a path, its source position, and the paths in order. |
| `DependencyGraph.DistinctGraph` | src/compiler_frontend/module_dependencies.rs:105-131 | With distinct paths every header is stored under its own path and position. |
| `DependencyGraph.HintOrderIrrelevant` | src/compiler_frontend/module_dependencies.rs:179-202 | Under injective portable spelling, permuting a header's hints leaves its sorted edges unchanged. |
| `ModuleDependencies.DependencyTracker.Enter` | src/compiler_frontend/module_dependencies.rs:67-70 | Marks the path and pushes it on the stack. |
| `ModuleDependencies.DependencyTracker.Abandon` | src/compiler_frontend/module_dependencies.rs:76-84 | Unmarks the path and takes it off the stack, wherever it is. |
| `ModuleDependencies.DependencyTracker.Finish` | src/compiler_frontend/module_dependencies.rs:86-89 | Abandons the path and marks it visited. |
| `ModuleDependencies.VisitNode` | src/compiler_frontend/module_dependencies.rs:432-497 | Refines the recursive traversal state by state, and only stored headers are ever appended. |
| `ModuleDependencies.VisitDependencyEdge` | src/compiler_frontend/module_dependencies.rs:499-549 | Refines the treatment of each of the four edge kinds. |
| `ModuleDependencies.ResolveModuleDependencies` | src/compiler_frontend/module_dependencies.rs:325-429 | The whole sort, with its diagnostics collected over failed roots. |
| `DependencyOrder.VisitNode` | src/compiler_frontend/module_dependencies.rs:432-497 | A visit, successful or not, leaves the temporary marks and the stack as it found them and forgets nothing visited or sorted. |
| `DependencyOrder.VisitNodeKeeps` | src/compiler_frontend/module_dependencies.rs:432-497 | A visit keeps the invariant: marks are the stack, the stack is a chain of hints, the sorted headers are the finished ones, each after its targets. A failure is justified by a missing hint or a ring. |
| `DependencyOrder.VisitRootsKeep` | src/compiler_frontend/module_dependencies.rs:374-398 | The invariant survives failed roots; each diagnostic is justified, and without one every root is settled. |
| `DependencyOrder.SettledHasNoCycle` | src/compiler_frontend/module_dependencies.rs:432-497 | Headers sorted after all their targets lie on no cycle. |
| `DependencyOrder.VisitRootsCost` | src/compiler_frontend/module_dependencies.rs:374-414 | A run without diagnostics makes at most one visit per header and one per edge. |
| `DependencySortTheorems.SortIsTopological` | src/compiler_frontend/module_dependencies.rs:325-429 | On success every header is sorted exactly once, after the targets of all its graph hints, and start headers come last in source order. |
| `DependencySortTheorems.SortIsPermutation` | src/compiler_frontend/module_dependencies.rs:325-429 | On success the result is a permutation of the headers. |
| `DependencySortTheorems.DiagnosticsAreJustified` | src/compiler_frontend/module_dependencies.rs:442-490 | A missing-target diagnostic names a hint that resolves to nothing; a circular one names a path on a ring of hints. |
| `DependencySortTheorems.FailsExactly` | src/compiler_frontend/module_dependencies.rs:325-429 | The sort fails if and only if a header has a missing hint or the hints contain a cycle. |
| `DependencySortTheorems.VisitsAreBounded` | src/compiler_frontend/module_dependencies.rs:400-414 | On success there were at most as many visits as headers plus hints. |
| `DependencySortTheorems.HintOrderNeverMatters` | src/compiler_frontend/module_dependencies.rs:179-202 | Permuting hint lists changes neither the result nor the diagnostics. |
| `DependencySortTheorems.OrderedInputStays` | src/compiler_frontend/module_dependencies.rs:374-398 | Headers already in dependency order come back unchanged. |
| `DependencySortTheorems.SortIsIdempotent` | src/compiler_frontend/module_dependencies.rs:325-429 | Sorting a sorted list changes nothing. |
| `HeaderOrder.ListedFirstExactly` | src/compiler_frontend/module_dependencies.rs:179-202 | The order of a successful sort, exactly: of two headers the one listed first is the one the other leads to by hints or, when neither leads to the other, the one that the way down from the first header reaching either turns to, taking hints in source order. |
| `HeaderOrder.DiagnosticsFollowHeaders` | src/compiler_frontend/module_dependencies.rs:374-398 | There is one diagnostic for each header from which hints lead to a missing hint or a ring, in source order, and it is about what that header leads to; there is no other. |
| `HeaderOrder.MissingExactly` | src/compiler_frontend/module_dependencies.rs:73-178 | A hint is missing when it is no header, no package export and no child of the header's own file. |
| `HeaderOrder.CountsExactly` | src/compiler_frontend/module_dependencies.rs:400-414 | A successful sort visits once every header no earlier one leads to and once more for each hint that names a header, and reports the numbers of headers and hints. |
| `HeaderOrder.KindInOrder` | src/compiler_frontend/module_dependencies.rs:325-372 | Partitioning keeps all headers of a kind in their order. |
| `TypeProjection.ProjectGenericInstance` | src/compiler_frontend/canonical_type_identity.rs:809-847 | The argument loop computes the projection of the instance, stopping at the first failure. |
| `TypeProjection.RenumberingInvariance` | src/compiler_frontend/canonical_type_identity.rs:642-729 | Corresponding types of renumbered environments project to the same identity or fail with the same error. |
| `TypeProjection.ProjectionIsTermIdentity` | src/compiler_frontend/canonical_type_identity.rs:642-847 | A projection succeeds exactly when the type unfolds to a term whose ids all resolve, and is the identity of that term. |
| `TypeProjection.FaithfulIdentity` | src/compiler_frontend/canonical_type_identity.rs:47-73 | With injective resolvers two projected types share an identity exactly when their unfolded terms are equal. |
| `TypeProjection.EqualBytesMeanEqualTypes` | src/compiler_frontend/public_interface_encoding.rs:852-911 | Composed with the encoder: equal type bytes mean equal unfolded types. |
| `ProjectedContents.ProjectionKeepsContents` | src/compiler_frontend/canonical_type_identity.rs:642-847 | A type and its identity have the same places and, at each of them, the same kind of node with the same builtin, origin, external names, capacity or parameter. |
| `ProjectedContents.ProjectsExactly` | src/compiler_frontend/canonical_type_identity.rs:642-847 | A type projects if and only if every type it is made of is registered, resolves its names and has the arguments it takes. |
| `GenericParameterOrigins.GenericParameterOriginResolver.RegisterList` | src/compiler_frontend/defined_public_type_surface.rs:350-385 | Registers a parameter list position by position, stopping at the first parameter that already has an owner. |
| `GenericParameterOrigins.GenericParameterOriginResolver.RegisterAlignedParameterAlias` | src/compiler_frontend/defined_public_type_surface.rs:394-410 | Idempotent under the same identity, refused under another. |
| `GenericParameterOrigins.GenericParameterOriginResolver.AliasAlignedGenericParameters` | src/compiler_frontend/defined_public_type_surface.rs:962-1017 | Checks count and names and aliases each position, or fails for the first reason. |
| `GenericParameterOrigins.GenericParameterOriginResolver.RegisterReceiverMethodAliases` | src/compiler_frontend/defined_public_type_surface.rs:892-953 | The pass over all templated receiver methods. |
| `GenericParameterOrigins.ListRegistersExactly` | src/compiler_frontend/defined_public_type_surface.rs:350-385 | A list registers exactly when its parameters are new and distinct; then each position has its own identity and all else is unchanged. |
| `GenericParameterOrigins.RegistrationKeepsIdentitiesApart` | src/compiler_frontend/defined_public_type_surface.rs:350-385 | Under fresh owners no two parameters ever share an identity, so projection stays faithful. |
| `GenericParameterOrigins.PassIsItsAliases` | src/compiler_frontend/defined_public_type_surface.rs:892-964 | Only aligned methods pass, and a pass over aligned methods is its aliases applied one after another, failures included. |
| `GenericParameterOrigins.AliasingSucceedsExactly` | src/compiler_frontend/defined_public_type_surface.rs:394-410 | Aliasing succeeds if and only if every target has an owner in time, also as an earlier alias, and the registrations can be extended so that all aliases hold as equations. |
| `GenericParameterOrigins.PassSucceedsExactly` | src/compiler_frontend/defined_public_type_surface.rs:892-953 | The whole pass succeeds if and only if every templated method is aligned with a generic nominal receiver and its aliases succeed. |
| `GenericParameterOrigins.AliasingOnlyExtends` | src/compiler_frontend/defined_public_type_surface.rs:394-410 | Aliasing never changes or removes a registration. |
| `GenericParameterOrigins.AliasingFollowsTarget` | src/compiler_frontend/defined_public_type_surface.rs:966-1017 | After aliasing a parameter answers exactly as what its aliases lead to did before. |
| `GenericParameterOrigins.AliasingIsSubstitution` | src/compiler_frontend/defined_public_type_surface.rs:883-890 | The identity of any term after aliasing is the identity, before it, of the term with each method parameter replaced by the receiver's. |
| `GenericParameterOrigins.ProjectionAfterAliasing` | src/compiler_frontend/defined_public_type_surface.rs:876-890 | The same for projecting any type id after a whole pass. |
| `GenericParameterOrigins.FaithfulUpToAliases` | src/compiler_frontend/defined_public_type_surface.rs:876-890 | Two terms share an identity after aliasing exactly when they are equal after that replacement. |
| `GenericRegistration.RegisterGenericParameterOrigins` | src/compiler_frontend/defined_public_type_surface.rs:751-843 | The loop over the roots and then the pass over the receiver methods. |
| `GenericRegistration.RootsRegisterExactly` | src/compiler_frontend/defined_public_type_surface.rs:771-832 | The roots register if and only if each resolves to an owner with a known list, or to none, and no parameter is listed twice among all of them. |
| `GenericRegistration.AllRegisterExactly` | src/compiler_frontend/defined_public_type_surface.rs:751-843 | The exact success condition of the whole registration. |
| `GenericRegistration.RootsKeepApart` | src/compiler_frontend/defined_public_type_surface.rs:771-832 | When roots have different owners no two parameters get the same identity. |
| `GenericRegistration.OwnersDifferIf` | src/compiler_frontend/defined_public_type_surface.rs:770-890 | Owners differ when generic function roots have different origins and nominals different identities, since a nominal registered twice would list its parameters twice. |
| `GenericRegistration.RegistrationIsFaithful` | src/compiler_frontend/defined_public_type_surface.rs:751-843 | After a whole successful registration two types share an identity exactly when they are equal once the methods' parameters are replaced by the receivers'. |
| `RegisteredIdentities.RegisteredHolds` | src/compiler_frontend/defined_public_type_surface.rs:751-843 | After a registration each parameter of a root has the exported function or the nominal origin as its owner, its place in the list as its position and its listed name. |
| `RegisteredIdentities.MethodSharesIdentities` | src/compiler_frontend/defined_public_type_surface.rs:892-953 | After it the parameters of a templated receiver method have the names and identities of those of its struct or choice, position by position. |
| `RegisteredIdentities.ListIsOwned` | src/compiler_frontend/defined_public_type_surface.rs:771-832 | What a resolvable root registers belongs to a free function bound to its name last, or to a struct or choice with its own list. |
| `FoldedValues.ConvertExpression` | src/compiler_frontend/folded_value.rs:172-305 | The recursive conversion, with its loop over collection items, computes the folded value or the first failure. |
| `FoldedValues.ConvertFields` | src/compiler_frontend/folded_value.rs:311-341 | The loop over record and payload fields. |
| `FoldedValues.FoldsExactly` | src/compiler_frontend/folded_value.rs:172-305 | Exactly the expressions of finite floats, named fields, known variants of projectable types and single option wraps have a folded value. |
| `FoldedValues.FoldingIgnoresNumbers` | src/compiler_frontend/folded_value.rs:79-94 | No module-local number crosses the boundary: an expression under another numbering folds to the same value or fails in the same way. |
| `FoldedValues.FoldingKeepsTypes` | src/compiler_frontend/folded_value.rs:172-305 | The value of a well-typed expression has its type, down to the declared fields of records and variant payloads. |
| `FoldedValues.TypedFitsIdentity` | src/compiler_frontend/folded_value.rs:100-133 | A value of a type fits the canonical identity the type projects to. |
| `FoldedContents.FoldingKeepsContents` | src/compiler_frontend/folded_value.rs:172-305 | An expression and its folded value have the same places and, at each of them, the same kind of node, the same literal, the name of the first variant with the tag and the projected type; a float may lose the sign of zero. |
| `DraftJoin.IndexBy` | src/compiler_frontend/public_interface_draft.rs:964-1018 | An index is built exactly when no key repeats, and then holds every entry. |
| `DraftJoin.GroupMethods` | src/compiler_frontend/public_interface_draft.rs:1054-1072 | Receiver methods are grouped in order under their receivers exactly when no method origin repeats. |
| `DraftJoin.JoinBinding` | src/compiler_frontend/public_interface_draft.rs:1084-1246 | Taking the facts of one origin succeeds exactly when they exist in the right shape and the constant's path is unused, and removes exactly them. |
| `DraftJoin.JoinConstant` | src/compiler_frontend/public_interface_draft.rs:1706-1727 | A constant takes the one module constant at its path and converts its expression. |
| `DraftJoin.JoinDeclarationRecords` | src/compiler_frontend/public_interface_draft.rs:939-1308 | The join succeeds if and only if keys are distinct, every bound origin has its facts, no two constants share a path and nothing is left over; the result is one record per origin in first-occurrence order. |
| `DraftConservation.RecordsFollowBindings` | src/compiler_frontend/public_interface_draft.rs:1074-1082 | Records come in the order of their origins' first bindings. |
| `DraftConservation.EveryEntryOnce` | src/compiler_frontend/public_interface_draft.rs:939-1308 | The origins of the records are the origins of all surface entries, each once, so there are as many records as entries. |
| `DraftConservation.EveryMethodOnce` | src/compiler_frontend/public_interface_draft.rs:1112-1131 | The records together carry every receiver method exactly once. |
| `DraftConservation.MethodsStayWithReceiver` | src/compiler_frontend/public_interface_draft.rs:1112-1131 | Each method sits under its own receiver, in the order of the surface. |
| `DraftContents.JoinsExactly` | src/compiler_frontend/public_interface_draft.rs:939-1308 | The join succeeds if and only if no surface repeats a key, every exported origin has its entry in the right shape, a constant also a foldable expression at its path, constants have different paths, and every entry and method belongs to an exported origin. |
| `DraftContents.FunctionHolds` | src/compiler_frontend/public_interface_draft.rs:1084-1111 | The record of each function has its parameters, returns and error return, its generics exactly when it has any, and a summary still to come. |
| `DraftContents.NominalHolds` | src/compiler_frontend/public_interface_draft.rs:1112-1190 | The record of each struct has its generics and fields, of each choice its generics and variants, and its methods are those the surface lists under it, all of them in order and field by field. |
| `DraftContents.AliasHolds` | src/compiler_frontend/public_interface_draft.rs:939-1308 | The record of each alias has its target. |
| `DraftContents.ConstantHolds` | src/compiler_frontend/public_interface_draft.rs:1706-1727 | The record of each constant has its type and, place by place, the contents of the expression at its path. |
| `DraftContents.TraitHolds` | src/compiler_frontend/public_interface_draft.rs:939-1308 | The record of each trait has its requirements and incompatibilities. |
| `DraftFinalization.Finalizer.ValidatePendingGenerated` | src/compiler_frontend/public_interface_draft.rs:877-897 | Accepts a generic callable exactly when it is pending and has no local function. |
| `DraftFinalization.Finalizer.FinalizeCallable` | src/compiler_frontend/public_interface_draft.rs:817-875 | Accepts a local callable exactly when it is new, pending and has a non-start function with a summary of its arity, which becomes its state. |
| `DraftFinalization.Finalizer.FinalizeReceiverMethods` | src/compiler_frontend/public_interface_draft.rs:777-815 | Accepts the methods of a receiver exactly when all belong to it and are acceptable after the callables so far. |
| `DraftFinalization.FinalizeAfterBorrowValidation` | src/compiler_frontend/public_interface_draft.rs:690-774 | Succeeds if and only if records are well placed, callables acceptable and distinct, and the function map names no other origin. |
| `DraftFinalization.FunctionMapIsExact` | src/compiler_frontend/public_interface_draft.rs:690-774 | On success the function map names exactly the non-generic callables, each once. |
| `DraftFinalization.OnlySummariesChange` | src/compiler_frontend/public_interface_draft.rs:690-897 | Finalization changes nothing but summary states. |
| `DraftFinalization.FinalizedDraftEncodes` | src/compiler_frontend/public_interface_draft.rs:690-897 | A finalized draft with source evidence is never refused by the encoder for a summary state or for evidence; only sizes can stop it. |
| `DraftFinalization.JoinedDraftFinalizesExactly` | src/compiler_frontend/public_interface_draft.rs:1092-1141 | A joined draft finalizes exactly when its callables are where they belong and the HIR gives each local one a fitting function and no generic one any. |
| `DraftFinalization.FinalFunctionHolds` | src/compiler_frontend/public_interface_draft.rs:817-875 | A finalized function keeps its fields; a generic one stays pending and has no local function, any other has the summary of the function the HIR names for its origin, which is not the start function and has as many parameters. |
| `DraftFinalization.FinalMethodHolds` | src/compiler_frontend/public_interface_draft.rs:777-815 | The same for every receiver method, which belongs to its record's type. |
| `DraftFinalization.EncodesExactly` | src/compiler_frontend/public_interface_encoding.rs:580-621 | The encoder accepts a draft if and only if its sizes fit, its evidence is source evidence, generic callables are pending and all others have summaries of as many parameters. |
| `TemplateExtraction.OriginLinear` | src/compiler_frontend/semantic_identity.rs:356-361 | The derived order of function origins is a linear order, so sorting by it leaves no ties. |
| `TemplateExtraction.PushSeed` | src/compiler_frontend/defined_public_type_surface.rs:713-741 | A seed is pushed exactly when it keeps origins distinct and generic paths unshared. |
| `TemplateExtraction.CollectPublicCallableOrigins` | src/compiler_frontend/validated_generic_template_metadata.rs:226-272 | Collects every callable of the draft, failing exactly on misplaced or repeated ones. |
| `TemplateExtraction.ValidatePublicCallableOriginSeeds` | src/compiler_frontend/validated_generic_template_metadata.rs:316-364 | Accepts exactly the seed lists with unshared generic paths, distinct origins, matching callables and the right count. |
| `TemplateExtraction.ExtractValidatedGenericTemplateArtefacts` | src/compiler_frontend/validated_generic_template_metadata.rs:151-224 | Succeeds if and only if the seeds are valid, template keys agree, and templates sit on exactly the generic public paths. |
| `TemplateExtraction.SeedsAreTheCallables` | src/compiler_frontend/validated_generic_template_metadata.rs:316-364 | By counting, the seeds of a valid list are exactly the callables. |
| `TemplateExtraction.ArtefactsFollowSeeds` | src/compiler_frontend/validated_generic_template_metadata.rs:183-205 | Each artefact pairs a generic seed's origin with the template at that seed's exact path. |
| `TemplateExtraction.StoreIsTheGenericCallables` | src/compiler_frontend/validated_generic_template_metadata.rs:220-224 | The store holds exactly the generic callables, in strictly increasing order of origin. |
| `TemplateExtraction.TemplatesAccountedFor` | src/compiler_frontend/validated_generic_template_metadata.rs:183-218 | Every template became one artefact or stays behind, and none that stays behind sits on a public path. |
| `TemplateExtraction.ExtractableInAnyOrder` | src/compiler_frontend/validated_generic_template_metadata.rs:316-364 | Reordering the seeds does not change whether extraction succeeds. |
| `TemplateExtraction.SeedOrderNeverMatters` | src/compiler_frontend/validated_generic_template_metadata.rs:151-224 | Reordering the seeds does not change the store. |
| `ExtractedTemplates.ExtractsExactly` | src/compiler_frontend/validated_generic_template_metadata.rs:151-224 | Extraction succeeds if and only if callables are in place under different origins, the seeds name each of them once and as generic as it is, generic paths are unshared, and templates sit under their own paths on exactly the generic ones. |
| `ExtractedTemplates.ArtefactHolds` | src/compiler_frontend/validated_generic_template_metadata.rs:183-205 | Each artefact is the template stored under a generic seed's path, with that seed's origin. |
| `ExtractedTemplates.StoreInOrder` | src/compiler_frontend/validated_generic_template_metadata.rs:220-224 | The store is ordered by module, name, free before method, and receiver; modules by package origin, package name, path and role; texts by the first byte that differs. |
| `BuildManifest.ParseManagedExtensions` | src/build_system/output_cleanup.rs:584-599 | The loop collects the normalized extensions as a set, or nothing when one is blank. |
| `BuildManifest.ParseManifestPaths` | src/build_system/output_cleanup.rs:504-516 | The loop keeps the safe paths in order. |
| `ManifestRoundTrip.ExtensionsReadBack` | src/build_system/output_cleanup.rs:628-634 | A non-empty set of normalized, comma-free and line-free extensions survives the list. |
| `ManifestRoundTrip.PathReadsBack` | src/build_system/output_cleanup.rs:658-666 | The text of a safe path names that path. |
| `ManifestRoundTrip.ReadBack` | src/build_system/output_cleanup.rs:348-560 | Any policy reading any policy's manifest: the first line of the extension list must parse, then builder and extensions are compared, and when both agree the other lines of the list and the path lines are read. |
| `ManifestRoundTrip.PlainReadsItself` | src/build_system/output_cleanup.rs:518-599 | A policy of plain extensions reads its own list, and nothing of it as a path. |
| `ManifestRoundTrip.ReadsItselfExactly` | src/build_system/output_cleanup.rs:518-599 | A policy takes its own manifests for its own if and only if it manages some extension and none holds a comma or line feed. |
| `ManifestRoundTrip.RoundTrip` | src/build_system/output_cleanup.rs:369-443 | Read under its own policy, a manifest lists the written paths in sorted order. |
| `ManifestRoundTrip.WrittenInAnyOrder` | src/build_system/output_cleanup.rs:400-443 | The text depends only on the set of paths and the policy. |
| `ManifestRoundTrip.EmptyExtensionsNeverLoad` | src/build_system/output_cleanup.rs:518-576 | A manifest written for an empty extension set is invalid under every policy. |
| `ManifestRoundTrip.OwnManifestIsValidExactly` | src/build_system/output_cleanup.rs:369-560 | A policy can read its own manifests if and only if it manages some extension and none holds a comma or line feed. |
| `ManifestRoundTrip.TrackedExactly` | src/build_system/output_cleanup.rs:369-560 | The paths read back are the paths written if and only if each is one line that trimming leaves alone. |
| `ManifestRoundTrip.TrackedPathsExactly` | src/build_system/output_cleanup.rs:400-516 | A path is read back if and only if a trimmed line of some written path reads as it. |
| `ManifestText.ManifestIsText` | src/build_system/output_cleanup.rs:400-443 | A manifest is the version line, the builder line, the extensions between commas and then each tracked path on a line, in ascending order of their texts. |
| `ManifestText.TrackedByName` | src/build_system/build.rs:752-804 | An output is tracked exactly when it is raw bytes or a file whose extension, lowered and dotted, the policy manages. |
| `OutputTree.DirsCreatedExactly` | src/build_system/build.rs:818-836 | Creating a directory succeeds if and only if no missing directory down to it is refused or has a file in its place, and then makes exactly those. |
| `OutputTree.OnlyEmptyDirsGo` | src/build_system/output_cleanup.rs:671-691 | A directory that goes is below the root, on the way to the removed file, and holds no file. |
| `OutputTree.DirsRemovedExactly` | src/build_system/output_cleanup.rs:671-691 | A directory goes if and only if it is below the root, at or above the start, and from it down to the start no directory is refused or holds a file or a directory other than the next on the way. |
| `OutputTree.DirRemovalKeepsShape` | src/build_system/output_cleanup.rs:671-691 | Directory removal keeps files and leaves no entry without its parent. |
| `OutputCleanup.OutputRoot.WriteOutput` | src/build_system/build.rs:818-874 | Creates the directories down to the file, skips identical content when asked, or writes; what was made stays when a later step fails. |
| `OutputCleanup.OutputRoot.EmitProjectOutputFiles` | src/build_system/build.rs:752-804 | Writes outputs in order up to the first failure and records the tracked paths. |
| `OutputCleanup.OutputRoot.RemoveEmptyParentDirs` | src/build_system/output_cleanup.rs:671-691 | The upward walk removes exactly the empty directories of the specification. |
| `OutputCleanup.OutputRoot.RemoveManifestTrackedStaleArtifacts` | src/build_system/output_cleanup.rs:454-498 | The loop removes and reports the stale files of the previous manifest. |
| `OutputCleanup.OutputRoot.FinalizeOutputCleanup` | src/build_system/output_cleanup.rs:207-238 | Removes only under a valid manifest and then writes the new one. |
| `OutputCleanup.OutputRoot.WriteProjectOutputs` | src/build_system/build.rs:675-750 | One whole build: manifest read first, then emission, then cleanup. |
| `OutputHistory.ExtensionAfterLastDot` | src/build_system/output_cleanup.rs:645-649 | A name has an extension if and only if a dot other than its first character comes with no later dot; the extension is what follows. |
| `OutputHistory.StaleRemovedExactly` | src/build_system/output_cleanup.rs:454-498 | A file goes if and only if the manifest lists it, this build does not track it, its path is safe and the file system lets it go. |
| `OutputHistory.RemovedExactly` | src/build_system/output_cleanup.rs:208-238 | A build removes a file if and only if it cleans up, its policy takes the manifest it found for its own, the manifest lists the file, the file was there or was just written, no output is tracked there, and nothing holds it. |
| `OutputHistory.BuildExactly` | src/build_system/build.rs:675-750 | File by file what one build leaves, writes and tracks. |
| `OutputHistory.LoadedInHistory` | src/build_system/output_cleanup.rs:184-200 | In every history the manifest loads exactly under the policies that read the list of the last complete build as their own. |
| `OutputHistory.RunKeepsInv` | src/build_system/build.rs:675-745 | The manifest on disk is always the one the last complete build wrote, over any mix of builds, failures and user changes. |
| `OutputHistory.DeletionsAreNamed` | src/build_system/output_cleanup.rs:454-498 | At every point of every history of a fresh root, a removed file is one that a line of a path tracked by the latest complete build and left on disk reads as, or a later line of that build's extension list; and the removing policy reads that list as its own. |
| `OutputHistory.DeletionsAreOwn` | src/build_system/output_cleanup.rs:454-498 | When manifests list nothing foreign, every removed file was tracked by the latest complete build and on disk after it, and is not tracked now. |
| `OutputHistory.PlainListsOwn` | src/build_system/output_cleanup.rs:400-516 | Plain extensions and names of one trimmed line list nothing foreign. |
| `OutputHistory.OtherFilesStay` | src/build_system/output_cleanup.rs:454-498 | Files that are not outputs and that no manifest of this policy's lists stay as they are. |
| `OutputHistory.NothingRemoved` | src/build_system/output_cleanup.rs:208-238 | Limited safe mode, a failed build, a build without cleanup and a policy that does not read the manifest as its own remove nothing. |
| `OutputContents.EmittedHolds` | src/build_system/build.rs:752-804 | An emission handles the outputs in order up to the first that something stands in the way of, and then each path holds the text of the last handled file output at it, and any other path what it held before. |
| `OutputContents.BuildHolds` | src/build_system/build.rs:675-750 | After a build every path it does not remove, the manifest aside, holds the text of the last handled file output at it or what it held before; a successful build handles all outputs, and its directories are there unless a removed file was in them. |
| `OutputDeletions.CurrentSetOnDisk` | src/build_system/output_cleanup.rs:208-238 | After a complete build under the last policy, if it is plain, of the one-line paths tracked then and those tracked now exactly the current ones are on disk. |
| `OutputDeletions.CleanBuildsStayExact` | src/build_system/build.rs:675-804 | After any number of clean builds under a plain policy in a fresh root, of all paths ever tracked exactly the latest set is on disk. |
| `OutputDeletions.OwnOutputRemovedExactly` | src/build_system/output_cleanup.rs:208-238 | A build that wrote all its outputs removes one of them again if and only if the manifest it found is read as its own and lists it, none of its outputs is tracked there and nothing holds it. |
| `OutputDeletions.OwnOutputRemoved` | src/build_system/output_cleanup.rs:208-238 | It happens: bytes tracked by one build, a script the policy does not manage at the same path in the next. |
| `OutputDeletions.DeletableExactly` | src/build_system/output_cleanup.rs:208-238 | At any point of a history some build under a policy deletes a given file if and only if the policy reads the manifest as its own and a line of a tracked path or a later line of the extension list reads as the file. |
| `OutputDeletions.ForeignDeletedExactly` | src/build_system/output_cleanup.rs:400-560 | A build under one policy that finds a manifest written under another can delete a file the manifest's build did not track if and only if it reads that manifest as its own and the manifest lists an untracked path that can exist beside it. |
| `OutputDeletions.ForeignFileDeleted` | src/build_system/output_cleanup.rs:400-421 | It happens: a page whose name holds a line feed, a user's own file, and the next build deletes that file. |
| `OutputDeletions.ForgedManifestDeletes` | src/build_system/output_cleanup.rs:369-443 | A manifest that no build wrote can list any file, and the next build deletes it. |
| `OutputDeletions.LineFeedReads` | src/build_system/output_cleanup.rs:518-599 | With a line feed in an extension the list is read as another policy's, and its second line as a path. |
| `OutputDeletions.LineFeedDeletesForeign` | src/build_system/output_cleanup.rs:400-560 | It happens: a build that tracked nothing, a user's own file, and a build under another policy deletes it. |
| `OutputDeletions.CommaDeletesUnderOther` | src/build_system/output_cleanup.rs:628-634 | With a comma in an extension a build under a changed policy deletes what the first one tracked. |
| `OutputDeletions.CommaReadByNone` | src/build_system/output_cleanup.rs:584-599 | Not every comma does this: when a part of the list is blank no policy reads the manifest. |
| `Calendar.Now` | xtask/src/bench_time.rs:23-63 | There is a timestamp exactly when the year fits 32 bits; it is a valid date and its minute contains the second, days counted by closed formulas for years and months. |
| `Calendar.NextYear` | xtask/src/bench_time.rs:87-89 | The closed leap-year count grows by the length of each year. |
| `Calendar.MonthLengths` | xtask/src/bench_time.rs:91-104 | The lengths of the twelve months are the steps of the almanac's closed formula, which ends with the year; no other number has a length. |
| `Calendar.MonthKeyText` | xtask/src/bench_time.rs:77-79 | The seven characters of a key up to the year 9999. |
| `Calendar.LaterTimesLaterStamps` | xtask/src/bench_time.rs:23-60 | Later seconds never give earlier timestamps, and a second has one timestamp. |
| `Calendar.MonthKeysInOrder` | xtask/src/bench_time.rs:77-79 | Keys that show equally many digits of the year compare as the months do. |
| `Calendar.FourDigitYears` | xtask/src/bench_time.rs:77-79 | Years up to 9999, and no later ones, show four digits. |
| `Calendar.ShorterKeySortsFirstExactly` | xtask/src/bench_time.rs:77-79 | Between keys of different widths the order of time survives if and only if the earlier year is at most the leading digits of the later one. |
| `Calendar.FiveDigitYearSortsFirst` | xtask/src/bench_time.rs:77-79 | The first month of the year 10000 sorts before the last of 9999. |
| `JsonText.JsonEscape` | xtask/src/bench_history.rs:485-499 | The loop escapes character by character. |
| `JsonText.ExtractStringField` | xtask/src/bench_history.rs:652-710 | Key search, whitespace and the escape-decoding loop, which takes bytes for characters, compute the field of the specification, or fail where the source panics. |
| `JsonText.WindowExactly` | xtask/src/bench_history.rs:680-692 | The four bytes after a code escape cut a character exactly when the text is longer and no prefix has four bytes. |
| `JsonText.AccentIsCut` | xtask/src/bench_history.rs:680-692 | It happens: three hexadecimal digits and an accented letter. |
| `JsonText.UnescapeEscape` | xtask/src/bench_history.rs:614-676 | Decoding undoes escaping, whatever follows the closing quote, up to characters that fall into their bytes. |
| `JsonText.FieldTextExactly` | xtask/src/bench_history.rs:641-710 | A text is kept by a string field if and only if it is all ASCII or control characters. |
| `JsonText.PrintedReadsBack` | xtask/src/bench_history.rs:713-730 | A printed unsigned number below 2^64 parses back. |
| `JsonArrays.ExtractObjectArrayItems` | xtask/src/bench_history.rs:803-856 | The brace-depth loop computes the scan of the specification. |
| `JsonArrays.ExtractStringArray` | xtask/src/bench_history.rs:961-1017 | The item loop computes the scan of the specification. |
| `JsonTokens.QuotedSkipped` | xtask/src/bench_history.rs:614-622 | A key search never matches inside an escaped string. |
| `JsonTokens.KeyOfTokens` | xtask/src/bench_history.rs:614-622 | The search ends at the first token that is this key. |
| `JsonObjects.ScanObjects` | xtask/src/bench_history.rs:803-856 | The scan returns exactly the objects that were written, whole and in order. |
| `JsonObjects.ItemTextExactly` | xtask/src/bench_history.rs:961-1017 | A string in an array reads back unchanged if and only if it is ASCII and has no control character besides line feed, carriage return and tab. |
| `JsonFields.FieldAt` | xtask/src/bench_history.rs:614-622 | In a written object the search for a field ends at that field's own value. |
| `BenchHistory.FormatIsJoined` | xtask/src/bench_history.rs:382-478 | The written line is the fields joined by commas, in braces. |
| `BenchLine.FormatIsLine` | xtask/src/bench_history.rs:382-478 | The written line character by character: every field under its name, texts in quotes with their escapes, metrics, groups and cases as objects in arrays. |
| `BenchLine.EscapesExactly` | xtask/src/bench_history.rs:485-499 | How each character is written: the five short escapes, control characters by code in four small digits, all others as they are. |
| `BenchGroups.CalculateGroupStats` | xtask/src/bench_types.rs:791-826 | The loop collects the means of each group, and the groups are sorted. |
| `BenchGroups.GroupStatsExactly` | xtask/src/bench_types.rs:791-826 | There is exactly one group for each group name among the cases, with the number and the mean of its cases. |
| `BenchGroups.GroupStatsSorted` | xtask/src/bench_types.rs:791-841 | Known groups come first in their own order, others by name, and no name occurs twice. |
| `BenchGroups.GroupsShownInOrder` | xtask/src/bench_types.rs:791-841 | Core, docs, stress, module and borrow come first in this order, then the other groups by the first character that differs in their names. |
| `BenchHistory.ReadLocalRuns` | xtask/src/bench_history.rs:85-118 | The loop returns the runs of the readable lines in order, unless it panics on a line. |
| `BenchRoundTrip.CaseReads` | xtask/src/bench_history.rs:859-881 | A written case reads back, its texts in bytes and its arguments with undecoded escapes. |
| `BenchRoundTrip.RunReads` | xtask/src/bench_history.rs:600-638 | A written run of any texts reads back in every field, its texts in bytes. |
| `BenchRoundTrip.RunReadsBackExactly` | xtask/src/bench_history.rs:382-499 | A run reads back as it was if and only if its fields are ASCII or control characters and its arguments ASCII without control characters that need an escape by code. |
| `BenchRoundTrip.BellAndAccentChange` | xtask/src/bench_history.rs:485-499 | It happens: a bell in an argument and an accented letter in a field read back changed. |
| `BenchRoundTrip.FormatIsOneLine` | xtask/src/bench_history.rs:382-478 | A written run is a single line that trimming leaves alone. |
| `BenchRoundTrip.HistoryReads` | xtask/src/bench_history.rs:144-164 | Appending any fitting runs to any history makes the reader return them as they read back, in order, after the earlier ones. |
| `BenchRoundTrip.HistoryReadsBack` | xtask/src/bench_history.rs:144-164 | Runs with safe texts come back as they were. |
| `OlderRecords.FirstVersionReads` | xtask/src/bench_history.rs:573-598 | A record of the first version reads as a run of the command-line suite with its own mean and deviation, each case with its mean for a median and the group told from its name, and the statistics of those groups. |
| `OlderRecords.LegacyGroupExactly` | xtask/src/bench_history.rs:905-933 | Which signs in the name, command and arguments of a case without a group lead to which group, in their order. |
| `OlderRecords.GroupedDefaults` | xtask/src/bench_history.rs:600-638 | What a grouped record is read with when a field is missing. |

## Left out

- CanonicalReadBack.BytesRead: stated for codes shorter than 2^64, a bound no buffer in memory reaches; `LongBytesCollide` shows it is needed.
- CanonicalForm.DraftReadsBack: stated for total codes shorter than 2^64, for the same reason.
- CanonicalForm.CanonicalBytes: the same.
- DependencyGraph.HintOrderIrrelevant: assumes that different paths have different portable spellings, which the string table decides.
- OutputHistory.DeletionsAreOwn: histories with policies as the constructors normalize them, in which neither builds nor users write a file at the manifest's own path; users may remove it. `ForgedManifestDeletes` shows why.
- FoldedValues.TypedFitsIdentity: a canonical type does not list the fields of a record, so record values fit any; `FoldingKeepsTypes` compares them with their declarations.
- HeaderOrder.ListedFirstExactly: for headers with distinct paths; a repeated path stands for its last header.
- OutputDeletions.CleanBuildsStayExact: assumes a policy of plain extensions, without which it does not read its own manifests, and that every file output is one it tracks, under a name of one trimmed line, since an untracked output can sit at an earlier tracked path.
- BenchRoundTrip.RunReads: for the grouped formats 2 to 5, the ones written; `OlderRecords` covers version 1, which is only read.
- BenchRoundTrip.HistoryReadsBack: for floats that print as plain ASCII text and parse back, since float printing is a parameter.
- BenchGroups.GroupStatsExactly: the mean of some floats is a parameter, as floating-point sums round.
- TypeProjection.RenumberingInvariance: for environments in which a type is interned after its arguments, as the interner does, so both numberings respect that order.
- Diagnostic texts and source locations; errors keep their kind and, in the sort, the path they name.
- Header parsing, the string table, portable spelling and package exports behind the dependency sort; they are parameters, and so are the builtin sort's comparisons.
- The visit counters' timing output and the construction of sorted declarations after the sort.
- The projections that build the surfaces from the resolved root table (roots, receiver methods, trait roots, evidence); the join starts from their results.
- The order in which the join and the finalizer report several errors at once; which inputs fail is exact.
- Symbolic links, path canonicalization, protected paths and non-Unicode file names in output cleanup; faults of the file system are parameters, and a failed write leaves the old file (no torn writes).
- Windows path syntax; paths are split at `/`.
- In-place sorting: `Vec::sort` is a function that returns the sorted list, which is unique because the keys have no ties.
- A debug build panics and a release build wraps when a year passes 2^31; the model returns no timestamp there.
- Monthly summaries, system identity, git calls and benchmark orchestration.
