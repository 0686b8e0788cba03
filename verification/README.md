# Verified model of the Infisical MCP client and its schema tools

A Dafny model of the parts of the repository whose behaviour is hardest to see from one function at
a time, with proofs of what those parts promise together. `dafny verify dfyconfig.toml` checks it.

**The token refresh and request protocol** (`crates/infisical-api/src/client.rs`). Any number of
callers and detached login tasks share a token cell, a coordinator lock, one channel per flight and a
semaphore of request slots. `RefreshCoordinator` holds the critical sections twice: as functions of
the shared cells, and as the methods of a class that change those cells in place and are proved equal
to the functions. `RefreshProtocol` builds a step relation from the functions; one step is what the
code does between two awaits, and cancelling a caller, interrupting a task, a 401 and the passing of
time are steps like any other. `RefreshInvariants` proves what every step keeps, and
`RefreshTheorems` draws the conclusions about every reachable state of every run; `RefreshProgress`
bounds the steps each operation and each login can take. `RefreshOutcomes` says where each step takes
its caller or task, and `RefreshHistory` what follows over whole runs: what an operation ends in is the
reply to its own last request, and every token in use was earned by a login. `ResponseBuffer` is the
chunk loop with its explicitly replaced array.

**The schema to type compiler** (`scripts/generate_host_client.py`). `SchemaModel` gives schema nodes
the meaning of JSON Schema 2020-12, `TypeCompiler` gives the rendered types theirs and models the
renderer branch by branch. `TypeSoundness` proves that every valid value inhabits the rendered type,
`TypeShapes` that a type admits exactly the values of a shape defined on the schema alone, and
`TypeSupport` which schemas render at all. `Fragments`, `PercentEncoding` and `TypeReferences` say what
a reference means and when it is read correctly, and `TypeGeneration` lifts soundness to a whole
generated program whose declarations are produced in
loops. Both meanings are indexed by the number of references followed, and the index is universally
quantified. An index signature is read as covering undeclared keys only. `SchemaField` and
`JsonPointer` are the companion resolver in `scripts/catalog_summary.py`, `SchemaPaths` says as a
relation what it selects, and `Workflows` is its use.

**Hand-written recognisers.** `SqlTemplates`, `KeySchemas`, `Certificates`, `Duplicates`,
`OperationText` and `Resources` prove the loops equal to a grammar, a number or pairwise distinctness;
`Timestamps` proves that a text is read as a moment exactly when it is that moment's spelling.

**SQL lease creation with compensation**: `SqlLease`. **Approval policies and duration limits**:
`Governance`, with `PolicyReading` and `PolicyWindows` saying bound by bound and text by text what is
read and admitted. **The endpoint coverage ledger**: `Coverage`, and what its figures mean,
`CoverageFigures`.

Where the source changes state step by step the model is a method or a class with a specification
function beside it: the method's `ensures` ties the new state to the function, and the lemmas are
about the function. Where the source is expressions the model is functions. Times are whole
nanoseconds, 16-bit sums, 64-bit products and capacities are bounded explicitly, and byte lengths
count the UTF-8 encoding of a string. Lemmas carry `{:induction false}` throughout, so that every
induction is written out.

Assumptions that are parameters: the PEM decoder of one block and the encoder it undoes (`decode`,
`encode`), the deserialisation and validation of lease and secret records (`Readers`, of which
`Faithful` says that a record read from an object has the object's own identifiers and that only
UUIDs are valid lease identifiers), the answers of the upstream service, the judgement of annotation
keywords such as `maxLength` (`Judge`), and every clock reading.

## Three places where the code is narrower than its promise

* A node with `properties` whose `type` also admits other values is rendered as an object, so a valid
  null or string is not in the type. `TypeSoundness.Sound` is stated for documents in which that does
  not happen (`Tame`). `ObjectByPropertiesSoundIff` proves, for every node that is rendered as an
  object because of its `properties` and whose parts are tame, that the type is sound exactly when the
  node has a `type` and no word of it, at any depth of a type list, admits anything but objects;
  `NullableObjectIsMisrendered` is a concrete failing schema.
* The renderer takes all that follows `#/$defs/` for one escaped key, while a pointer (RFC 6901,
  sections 3 to 6) may be percent-escaped and may go on inside the definition. The meaning of a
  reference here is the schema its pointer leads to. `Fragments.KeyIsThePointerIff` says for which
  texts the two agree, `TypeReferences.ReferenceSoundIff` that exactly those references are sound in
  every document (or lead nowhere in any), and `NestedReferenceIsMisread` is a concrete failing
  document. `Tame` asks it of every reference. The resolver of `SchemaField` splits at the slashes, so
  only percent signs and stray tildes mislead it (`Fragments.SplitKeysAreThePointerIff`).
* Approvers on the wire are compared for repetition before their ids are lowered, so a matching answer
  may name one approver twice in different letter case (`Governance.RepeatedApproverExists`).
  `RepetitionIsPossibleIff` and `PolicyRepetitionIsPossibleIff` say for which steps and replacements
  that can happen: exactly where there is room for one more approver and a letter in some identifier.

## Model

| member | source | states |
|---|---|---|
| `ClientErrors.CeilSecondsIsLeast` | crates/infisical-api/src/client.rs:475-485 | the reported wait is the least whole number of seconds that covers the remaining time |
| `ClientErrors.CooldownCoversRetryAfter` | crates/infisical-api/src/client.rs:546-556 | a cooldown is between 5 s (30 s after a rejection) and 300 s, at least what the Retry-After delay asks for, and less than a second above it |
| `ClientErrors.CooldownIsExact` | crates/infisical-api/src/client.rs:545-556 | the cooldown of every error in seconds: 5, or 30 for a rejected login, or the Retry-After if longer, and at most 300 |
| `ClientErrors.BoundedDelayIsExact` | crates/infisical-api/src/client.rs:883-898 | the seconds kept of a requested delay are the least that cover it, and at most 300 |
| `RefreshCoordinator.DecideIsExact` | crates/infisical-api/src/client.rs:471-513 | exactly when a caller under the lock gets the cached token, the pending cooldown, the flight under way or a new one; a rejection reports the exact ceiling of the remaining time and changes nothing |
| `RefreshCoordinator.FinishWrapsFailures` | crates/infisical-api/src/client.rs:545-564 | a failing current flight is reported only as a cooldown wrapping its error, with the exact ceiling of what remains at the second clock reading; the cooldown is pending for exactly its length from the first |
| `RefreshCoordinator.RefreshWindow` | crates/infisical-api/src/client.rs:600-604 | for every lifetime and skew, start + ttl/2 <= refresh_after < start + ttl |
| `RefreshCoordinator.Coordinator.AccessTokenLocked` | crates/infisical-api/src/client.rs:471-513 | the in-place critical section computes the new cells and verdict of `Decide`, and mints a flight id exactly when it starts one |
| `RefreshCoordinator.Coordinator.FinishRefresh` | crates/infisical-api/src/client.rs:535-567 | the in-place completion computes the new cells and report of `Finish` |
| `RefreshCoordinator.Coordinator.StoreToken` | crates/infisical-api/src/client.rs:498-500 | storing replaces the token cell and nothing else |
| `RefreshCoordinator.Coordinator.InvalidateIfCurrent` | crates/infisical-api/src/client.rs:569-577 | the cell is emptied exactly when it holds the very token that was used |
| `RefreshInvariants.LockKept` | crates/infisical-api/src/client.rs:471-521 | every step keeps: the lock names exactly the caller inside the critical section, cancellation included |
| `RefreshInvariants.SlotKept` | crates/infisical-api/src/client.rs:646-654 | every step keeps: slots in use are exactly those of agents with a request out, and never exceed the limit |
| `RefreshInvariants.FlightKept` | crates/infisical-api/src/client.rs:486-521 | every step keeps: `in_flight` names exactly the newest, not yet completed flight, and what a flight publishes is a token or a wrapped error |
| `RefreshInvariants.CellKept` | crates/infisical-api/src/client.rs:496-505 | every step keeps: tokens are stored in flight order, the cell holds the last stored one or nothing, never an evicted one |
| `RefreshInvariants.CallerKept` | crates/infisical-api/src/client.rs:308-439 | every step keeps: each caller's count of sent and refused requests agrees with its attempt and phase |
| `RefreshInvariants.TimeKept` | crates/infisical-api/src/client.rs:545-564 | every step keeps: nothing is logged before an earlier failure has cooled down, and each failure's cooldown is pending until it has passed |
| `RefreshInvariants.RunInv` | crates/infisical-api/src/client.rs:308-609 | the whole invariant holds in every state of every run, over all interleavings, cancellations and interruptions |
| `RefreshTheorems.SingleFlight` | crates/infisical-api/src/client.rs:486-511 | at most one login task is ever unfinished, and `in_flight` names it; it names exactly the flight not yet finished or reaped |
| `RefreshTheorems.StartsOnlyUnderLock` | crates/infisical-api/src/client.rs:471-511 | a login starts only by the lock holder, with no fresh token, no unexpired cooldown and no flight |
| `RefreshTheorems.LateFinishIsIgnored` | crates/infisical-api/src/client.rs:535-567 | in every reachable state a completion for a flight changes and reports nothing exactly when that flight was completed before |
| `RefreshTheorems.WaitForIsAcyclic` | crates/infisical-api/src/client.rs:471-521 | in every reachable state no chain of waiting is circular, and none is longer than three agents, even with one slot |
| `RefreshTheorems.WaitersHoldNothing` | crates/infisical-api/src/client.rs:506-521 | a caller watching a flight holds neither a request slot nor the coordinator lock |
| `RefreshTheorems.NobodyIsStranded` | crates/infisical-api/src/client.rs:471-521 | in every reachable state each live caller or task can take a step of its own or waits, along a finite chain, for one that can |
| `RefreshProgress.CallerStepLowersWork` | crates/infisical-api/src/client.rs:308-521 | each step of its own strictly lowers the work a caller still has before it, in either attempt |
| `RefreshProgress.OthersGiveNoWork` | crates/infisical-api/src/client.rs:308-521 | no step of another agent, no arrival, cancellation, interruption or tick gives an agent more work |
| `RefreshProgress.RunHasTrace` | crates/infisical-api/src/client.rs:308-609 | every run is the trace of some sequence of steps |
| `RefreshProgress.OwnStepsAreBounded` | crates/infisical-api/src/client.rs:308-521 | in every run an operation takes at most sixteen steps of its own, retry included, and a login task at most six |
| `RefreshProgress.StuckMeansFinished` | crates/infisical-api/src/client.rs:471-521 | in every reachable state somebody can take a step of their own exactly as long as somebody has not finished |
| `RefreshTheorems.SendingIsBounded` | crates/infisical-api/src/client.rs:308-439 | a read is sent at most twice, anything else at most once, and the four nothing-was-sent errors mean that the last attempt was not sent |
| `RefreshTheorems.RetryNeedsOwnRefusal` | crates/infisical-api/src/client.rs:308-320 | a retry happens only to a read whose own single request was sent and answered 401; a 401 is reported only for one's own request |
| `RefreshTheorems.UnreadableMutationsAreUnknown` | crates/infisical-api/src/client.rs:379-416 | a mutation never ends as merely undecodable; an unreadable answer is reported as an unknown outcome of the one request sent |
| `RefreshTheorems.LoginIsExact` | crates/infisical-api/src/client.rs:579-609 | a login yields a token exactly for a nonempty one with a representable refresh instant, in the second half of its life counted from before the request |
| `RefreshTheorems.FailuresAreOwn` | crates/infisical-api/src/client.rs:496-521 | a failure enters the history only when its flight completes, at that instant, with the error that ended its own login, or as interrupted when a waiter reaps it |
| `RefreshTheorems.LoginsAreSpaced` | crates/infisical-api/src/client.rs:475-485 | after a login failed at t nothing starts or fails before t + min(max(5 s, or 30 s after a rejection, Retry-After), 300 s), for its own error |
| `RefreshTheorems.FailuresPerWindow` | crates/infisical-api/src/client.rs:545-564 | in any window of W seconds of any run at most W/5 + 1 logins fail |
| `RefreshTheorems.StoredAtMostOnce` | crates/infisical-api/src/client.rs:495-500 | each token is stored at most once over any run, and the cell never holds an evicted one |
| `RefreshTheorems.EvictionIsExact` | crates/infisical-api/src/client.rs:569-577 | a 401 evicts the cell's token exactly when it is the one that was used; no other step but a store touches the cell |
| `RefreshTheorems.EvictedNeverReturns` | crates/infisical-api/src/client.rs:569-577 | a token evicted at one point of a run is not in the cell at any later point |
| `RefreshOutcomes.PeekingIsExact` | crates/infisical-api/src/client.rs:466-469 | without the lock, a token that was fresh at the sampled instant is used, with a slot deadline one timeout away; otherwise the lock is wanted |
| `RefreshOutcomes.DecidingIsExact` | crates/infisical-api/src/client.rs:471-513 | where a caller goes from the locked section: a fresh token, a rejection with the exact ceiling, the flight under way or a new one |
| `RefreshOutcomes.ObservingIsExact` | crates/infisical-api/src/client.rs:506-513 | a waiter goes on with the very token its flight published, ends in the very error, or goes to report a closed channel |
| `RefreshOutcomes.ReapingIsExact` | crates/infisical-api/src/client.rs:514-521 | who finds the channel closed ends in the interruption, wrapped with the time left of five seconds exactly when nobody completed the flight before |
| `RefreshOutcomes.SlotStepsAreExact` | crates/infisical-api/src/client.rs:646-654 | a request is sent exactly with a free slot before the deadline and given up exactly from the deadline on, unsent |
| `RefreshOutcomes.ReceivingIsExact` | crates/infisical-api/src/client.rs:407-438 | a reply that is no 401 ends the operation as it is, except that a mutation's undecodable answer becomes the unknown one; a 401 goes to the cell with the token it refused |
| `RefreshOutcomes.EvictingIsExact` | crates/infisical-api/src/client.rs:308-320 | after a 401 a first attempt of a read starts over, and anything else returns that 401 |
| `RefreshOutcomes.LoginBeginsExactly` | crates/infisical-api/src/client.rs:579-597 | a login reads the clock before anything is sent and has one timeout to get a slot |
| `RefreshOutcomes.LoginEndsExactly` | crates/infisical-api/src/client.rs:598-609 | a login answer gives the token with instant start + lifetime - min(skew, lifetime/2), or the error of the answer, exactly when it is nonempty, positive and representable |
| `RefreshOutcomes.FinishingIsExact` | crates/infisical-api/src/client.rs:535-567 | a current flight reports its token and clears the cooldown, or its wrapped error and starts that error's own cooldown |
| `RefreshHistory.OutcomeIsOwnReply` | crates/infisical-api/src/client.rs:308-439 | in every run, an operation that sent its last attempt ends in the reply to that very request, an undecodable mutation answer as unknown; it succeeds exactly when that exchange did |
| `RefreshHistory.TasksFollowTheirPast` | crates/infisical-api/src/client.rs:496-505 | in every run, each login task is where its own clock reading, request and reply brought it, and publishes the token these earned or the error they ended in |
| `RefreshHistory.TokensAreEarned` | crates/infisical-api/src/client.rs:579-609 | in every run, each token in the cell or in the hands of a caller was granted in reply to its own flight's request, with a refresh instant counted from before that request was sent |
| `RefreshHistory.SlotIsWaitedForExactly` | crates/infisical-api/src/client.rs:646-654 | in every run, a queued operation can send with a free slot as long as less than the timeout has passed since it queued, and gives up only from then on |
| `RefreshHistory.CoolingDownIff` | crates/infisical-api/src/client.rs:475-485 | in every reachable state a login is refused for its cooldown exactly when the last login event was a failure and less than that failure's own cooldown has passed since |
| `ResponseBuffer.Body.Grow` | crates/infisical-api/src/client.rs:703-711 | room for the required length within the limit, contents kept, replaced at most once and only when too small |
| `ResponseBuffer.Body.Extend` | crates/infisical-api/src/client.rs:685-690 | appending within the capacity adds the chunk in place, in the same allocation |
| `ResponseBuffer.ReadBody` | crates/infisical-api/src/client.rs:669-692 | succeeds exactly when the chunks together are within the limit, then holds their concatenation; capacity stays within the limit and all growth together copies fewer than twice the final length |
| `SchemaModel.MergedIsSmaller` | scripts/generate_host_client.py:31-43 | a branch merged with its siblings is strictly smaller than the union node, which is why rendering terminates |
| `SchemaModel.MergeKeepsValidity` | scripts/generate_host_client.py:33-43 | a value valid for two compatible nodes is valid for the merged node |
| `TypeSoundness.BranchAt` | scripts/generate_host_client.py:36-43 | each rendered branch is the rendering of that branch merged with the siblings, and only compatible node branches get that far |
| `TypeSoundness.SoundUnion` | scripts/generate_host_client.py:31-46 | soundness of anyOf, oneOf and allOf nodes with siblings |
| `Fragments.DecodeUnescapes` | scripts/generate_host_client.py:54 | the two passes of text replacement agree with unescaping a token in one pass wherever that is defined |
| `Fragments.OtherTokensAreMisread` | scripts/generate_host_client.py:51-55 | unless what follows `#/$defs/` is a single properly escaped token without percent signs, a pointer enters a definition of another key than the one the code makes of it |
| `Fragments.KeyIsThePointerIff` | scripts/generate_host_client.py:51-55 | the key the code makes of a reference is the one its JSON Pointer selects exactly for single tokens in which every tilde starts an escape and no percent sign occurs |
| `PercentEncoding.PercentRoundTrip` | scripts/generate_host_client.py:51-55 | the percent decoding used to say what a reference means undoes percent encoding for every text |
| `TypeSoundness.SafeTarget` | scripts/generate_host_client.py:51-55 | if a safely read reference refers to anything, it is to the very definition the renderer looks up |
| `TypeSoundness.SoundReference` | scripts/generate_host_client.py:47-55 | soundness of safely read references, through possibly recursive definitions, with a reference meaning the schema its pointer leads to |
| `TypeSoundness.SoundWords` | scripts/generate_host_client.py:64-66 | soundness of nodes whose type list is split |
| `TypeSoundness.SoundObject` | scripts/generate_host_client.py:67-79 | soundness of object nodes: required, optional and undeclared keys |
| `TypeSoundness.Sound` | scripts/generate_host_client.py:25-89 | type soundness: when rendering a tame node succeeds, every value the node admits inhabits the rendered type, for every depth of reference following |
| `TypeShapes.UnionTypeIff` | scripts/generate_host_client.py:31-46 | a value is in the type of an anyOf or oneOf node exactly when it is in the type of some branch merged with its siblings, of an allOf node exactly when of every one |
| `TypeShapes.ShapeIsExact` | scripts/generate_host_client.py:25-89 | the converse of soundness and more: for every schema that renders, a value inhabits the type exactly when it has the shape of the schema, which is validity with annotations ignored, oneOf read as anyOf, integers as numbers, and keywords beside a constant, an enumeration or a reference ignored |
| `TypeSupport.SupportIff` | scripts/generate_host_client.py:25-89 | rendering succeeds exactly for the supported schemas, said keyword by keyword of the schema alone |
| `TypeSupport.MergingIsConjunction` | scripts/generate_host_client.py:33-43 | where the two sides agree and neither judges keys only the other declares, a value is valid for the merged node exactly when it is valid for both |
| `TypeReferences.ReferenceSoundIff` | scripts/generate_host_client.py:47-55 | a reference into the definitions is soundly rendered in every document exactly when it is a single escaped token without percent signs, or leads to no schema in any document |
| `TypeReferences.UnsafeReferenceIsMisread` | scripts/generate_host_client.py:47-55 | for every other reference there is a document that renders in which the number 5 is valid and the type is a string |
| `TypeReferences.NestedReferenceIsMisread` | scripts/generate_host_client.py:47-55 | one such document, with the reference `#/$defs/a/items` beside a definition named "a/items" |
| `TypeSoundness.InhabitsMore` | scripts/generate_host_client.py:47-55 | following more references never loses an inhabitant, so the soundness statement does not depend on the depth chosen |
| `TypeSoundness.ObjectByPropertiesSoundIff` | scripts/generate_host_client.py:64-79 | for every node with `properties` that is rendered as an object and whose parts are tame, type lists nested at any depth included, the type is sound under every judgement of annotations exactly when the node has a type and no word of it admits another kind of value |
| `TypeSoundness.MisrenderedValue` | scripts/generate_host_client.py:64-79 | every other such node has a value that is valid and not in the type |
| `TypeSoundness.NullableObjectIsMisrendered` | scripts/generate_host_client.py:64-79 | a concrete schema with a type list beside `properties` for which null is valid but not in the type |
| `TypeGeneration.EmitDocument` | scripts/generate_host_client.py:91-93 | the declaration loop emits one declaration per definition, in order, and then the document's own |
| `TypeGeneration.EmitOperations` | scripts/generate_host_client.py:95-110 | the loop over the operations emits exactly what the chain of their documents gives, and fails on the first taken name or failing document |
| `TypeGeneration.Generate` | scripts/generate_host_client.py:95-122 | the operations, the error document and the file document give exactly the declarations and the two tables of the specification, and fail exactly when it does |
| `TypeGeneration.GenerationSucceedsIff` | scripts/generate_host_client.py:95-122 | a program is generated exactly when operation names differ and every document can be rendered |
| `TypeGeneration.FirstFaultIsReported` | scripts/generate_host_client.py:100-110 | the first operation whose name is taken or whose document cannot be rendered fails the whole program with its own fault |
| `TypeGeneration.GeneratedNamesAreUnique` | scripts/generate_host_client.py:95-122 | no identifier is declared twice and no operation is named twice in a generated program |
| `TypeGeneration.RenderMentions` | scripts/generate_host_client.py:25-89 | a rendered type mentions only definition names of its own document |
| `TypeGeneration.MentionedNamesAreDeclared` | scripts/generate_host_client.py:91-93 | every definition name a document's types mention is declared with it |
| `TypeGeneration.GeneratedTypesAreSound` | scripts/generate_host_client.py:95-122 | in the generated program, with all its declarations as the environment, every value valid for a document, the operations' and the two shared ones alike, inhabits the type of its name, and the tables give each operation those names |
| `JsonPointer.DecodeEscape` | scripts/catalog_summary.py:48-49 | decoding undoes the escaping of RFC 6901 section 3 for every key |
| `JsonPointer.EscapeDecode` | scripts/catalog_summary.py:48-49 | every properly escaped token is the escape of the key it decodes to |
| `JsonPointer.OrderMatters` | scripts/catalog_summary.py:48-49 | undoing the tilde escape first, against section 4, breaks a key holding "~1" |
| `JsonPointer.PointerRoundTrip` | scripts/catalog_summary.py:48-49 | a pointer made by escaping and joining any nonempty list of keys splits and decodes into those keys |
| `Fragments.SplitKeysAreThePointerIff` | scripts/catalog_summary.py:43-49 | splitting a reference at its slashes and decoding every part gives the keys of its pointer exactly when every part is properly escaped and no percent sign occurs |
| `SchemaField.ResolveReference` | scripts/catalog_summary.py:47-49 | the pointer loop walks to the value the decoded keys select, or fails where the walk fails |
| `SchemaField.SchemaFieldOf` | scripts/catalog_summary.py:32-54 | the nested loops terminate on every finite document and compute the field the path selects |
| `SchemaField.RepeatMeansEndless` | scripts/catalog_summary.py:43-46 | a repeated reference means that chasing without the guard never ends |
| `SchemaField.CycleCheckIsExact` | scripts/catalog_summary.py:36-49 | a repeated reference is reported exactly when unguarded chasing would never end; otherwise the guard changes no answer |
| `SchemaField.EscapedReferenceResolves` | scripts/catalog_summary.py:43-49 | a reference written by escaping a key list resolves to what those keys select |
| `SchemaPaths.ChaseIff` | scripts/catalog_summary.py:36-49 | chasing ends at a schema exactly when a chain of turns leads there, each one the other branch of a nullable union or what a local reference selects |
| `SchemaPaths.FieldIff` | scripts/catalog_summary.py:32-54 | the field of a path is a schema exactly when the path leads there: chase, then `items` for "[]" or the named property, component by component |
| `SchemaPaths.WrappedFieldIsFound` | scripts/catalog_summary.py:52-53 | a schema wrapped along any path, in `items` for "[]" and under `properties` otherwise, is the field at that path |
| `SchemaPaths.NullableLeads` | scripts/catalog_summary.py:37-42 | making a schema nullable, the null branch on either side, changes no path through it |
| `SchemaPaths.ReferenceLeads` | scripts/catalog_summary.py:43-49 | neither does moving it elsewhere and referring to it by escaped keys |
| `Workflows.CheckWorkflow` | scripts/catalog_summary.py:68-79 | an entry with the six keys is accepted exactly when each has its kind, both ends are known operations and both paths select text fields |
| `Workflows.CheckFields` | scripts/catalog_summary.py:73-76 | both paths are accepted exactly when each leads to a schema whose type is "string" |
| `Workflows.WorkflowRows` | scripts/catalog_summary.py:57-80 | a list of raw entries is accepted exactly when every one is closed and sound and no name is used twice; one row each, in order |
| `SqlTemplates.ScanIsSound` | crates/infisical-api/src/dynamic_secret_sql.rs:835-855 | what one left-to-right reading accepts is grammatical and prints back to the text |
| `SqlTemplates.ScanIsComplete` | crates/infisical-api/src/dynamic_secret_sql.rs:835-855 | every grammatical template is read back from its printed form |
| `SqlTemplates.DecompositionIsUnique` | crates/infisical-api/src/dynamic_secret_sql.rs:835-855 | a text has at most one decomposition into plain text and placeholders |
| `SqlTemplates.DocumentedNamesArePlain` | crates/infisical-api/src/dynamic_secret_sql.rs:144-157 | the placeholder lists of the four statement kinds meet the scanner's precondition; the rotation list is in secret_rotation_sql.rs, lines 176-180 |
| `SqlTemplates.ValidateSqlTemplate` | crates/infisical-api/src/dynamic_secret_sql.rs:827-856 | the loop accepts exactly bounded texts with a grammatical decomposition that uses every required name, and names the right error |
| `KeySchemas.ScanIsSound` | crates/infisical-api/src/app_automations.rs:2234-2247 | what is read is grammatical and prints back to the text |
| `KeySchemas.ScanIsComplete` | crates/infisical-api/src/app_automations.rs:2234-2247 | every grammatical token list is read back from its printed form |
| `KeySchemas.DecompositionIsUnique` | crates/infisical-api/src/app_automations.rs:2234-2247 | a text has at most one token list |
| `KeySchemas.ValidateGithubKeySchema` | crates/infisical-api/src/app_automations.rs:2228-2253 | the loop accepts exactly bounded texts with one secret key in their token list; the saturating count never misjudges |
| `TextTools.FindIsFirst` | crates/infisical-api/src/dynamic_secret_sql.rs:837-844 | the search finds the first occurrence, or there is none |
| `Certificates.ScanIsSound` | crates/infisical-api/src/certificate.rs:96-121 | an accepted text is exactly certificate blocks joined by LF or CRLF, nothing before, between or after |
| `Certificates.ScanIsComplete` | crates/infisical-api/src/certificate.rs:96-121 | every such bundle is split into its blocks and certificates |
| `Certificates.CertificateBundleDer` | crates/infisical-api/src/certificate.rs:96-121 | the loop returns a list exactly when the text is a bundle of those certificates |
| `Certificates.BundleIsUnique` | crates/infisical-api/src/certificate.rs:96-121 | one text is the print of at most one bundle |
| `Certificates.BundleRoundTrip` | crates/infisical-api/src/certificate.rs:96-121 | splitting the newline-joined encodings of any nonempty certificate list returns that list, for any block format |
| `Certificates.EncodedBundleRoundTrip` | crates/infisical-api/src/certificate.rs:96-121 | for the certificate markers around bodies without dashes the round trip needs only that the decoder undoes the encoder |
| `Certificates.NormalizePemExact` | crates/infisical-api/src/certificate.rs:13-19 | normalizing accepts exactly an unpadded text with at most one line ending after it, and is idempotent |
| `Certificates.TrimZerosKeepsValue` | crates/infisical-api/src/certificate.rs:32-35 | trimming leading zeros keeps the number |
| `Certificates.SerialMatchIsNumeric` | crates/infisical-api/src/certificate.rs:31-37 | the comparison holds exactly when the two hexadecimal strings denote the same integer, at any length |
| `Resources.DaysAreCounted` | crates/infisical-api/src/resources.rs:80-99 | the first day of year one has number zero, and each date is numbered one more than the date before it |
| `Resources.MomentsInOrder` | crates/infisical-api/src/resources.rs:59-105 | one moment is earlier than another, field by field, exactly when its number is smaller |
| `Resources.DayNumberBound` | crates/infisical-api/src/resources.rs:80-99 | day numbers of the years 1 to 9999 are bounded, leap years included |
| `Resources.TimestampBound` | crates/infisical-api/src/resources.rs:59-105 | every accepted timestamp lies in the years 1 to 9999 |
| `Resources.UuidIff` | crates/infisical-api/src/resources.rs:111-122 | a UUID is five runs of 8, 4, 4, 4 and 12 hexadecimal digits with hyphens between |
| `Timestamps.ParseIff` | crates/infisical-api/src/resources.rs:59-105 | a text is read as a moment exactly when the moment exists in the years 1 to 9999 and the text is its zero-padded spelling, with three fractional digits or with none and no milliseconds |
| `Timestamps.SpelledMillis` | crates/infisical-api/src/resources.rs:59-105 | the milliseconds of a spelling are those of the moment it spells |
| `SqlLease.CleanupTargetIsOwned` | crates/infisical-api/src/dynamic_secret_sql.rs:517-538 | the cleanup target is exactly the response's own lease id when its owner is the expected secret or a same-named SQL replacement |
| `SqlLease.Upstream.Reject` | crates/infisical-api/src/dynamic_secret_sql.rs:743-751 | at most one revocation, of the target, and a failed revocation is what gets reported |
| `SqlLease.Upstream.CreateSqlLease` | crates/infisical-api/src/dynamic_secret_sql.rs:663-741 | no creation without a preflighted SQL secret, no revocation without an answer, and afterwards the outcome and revocations of `After`, through every exit |
| `SqlLease.CompensationIsExact` | crates/infisical-api/src/dynamic_secret_sql.rs:663-751 | for every response tree: success revokes nothing and binds lease, secret and user name to the preflighted secret; failure revokes the owned lease once, nothing when none is owned, and reports a failed revocation |
| `SqlLease.SuccessIsExact` | crates/infisical-api/src/dynamic_secret_sql.rs:517-571 | for every response tree: creation succeeds, with these records and credentials, exactly when both records are read, valid and agree with the preflight, the lease is an object, and "data" is exactly the two bounded texts, the first being the lease's entity |
| `Sorting.SortSorts` | crates/infisical-api/src/app_automations.rs:2211-2214 | sorting gives an ordered permutation |
| `Sorting.SortedIsFixed` | scripts/check_api_coverage.py:524-525 | a list equals its sorted arrangement exactly when it is in order |
| `Sorting.NeighbourCheckIsExact` | crates/infisical-api/src/code_signer_governance.rs:1458-1464 | sorting and comparing neighbours decides pairwise distinctness at any length |
| `Duplicates.RepositoriesAcceptedIff` | crates/infisical-api/src/app_automations.rs:2195-2225 | selected repositories are accepted exactly as a nonempty bounded list of distinct nonzero ids, any other visibility with none |
| `Duplicates.IdentifiersAcceptedIff` | crates/infisical-api/src/code_signer_governance.rs:1450-1464 | identifiers are accepted exactly when bounded in number and pairwise distinct |
| `Duplicates.LoweredIdentifiersAcceptedIff` | crates/infisical-api/src/code_signer_governance.rs:1502-1517 | effective members, compared by lower-cased id, are accepted exactly when bounded in number and distinct up to case |
| `Duplicates.CaseDecidesMemberChecks` | crates/infisical-api/src/code_signer_governance.rs:1458-1517 | comparing ids as sent and comparing them lower-cased part exactly on bounded lists of different ids of which two differ only in case |
| `Duplicates.AllowedSymbolsAreValid` | crates/infisical-api/src/dynamic_secret_sql.rs:813-825 | the flag table accepts exactly nonempty lists of distinct ASCII punctuation |
| `Duplicates.SymbolsArePigeonholed` | crates/infisical-api/src/dynamic_secret_sql.rs:813-825 | with no length test of its own, the table admits at most 32 symbols |
| `Duplicates.NewPasswordRequirements` | crates/infisical-api/src/dynamic_secret_sql.rs:192-231 | the checked 16-bit sum never misjudges: the policy is accepted exactly when the true total fits the length and the symbols are sound |
| `Governance.InsertionsAreFresh` | crates/infisical-api/src/code_signer_governance.rs:378-382 | inserting into a set succeeds every time exactly for pairwise distinct lists |
| `Governance.NewStepChange` | crates/infisical-api/src/code_signer_governance.rs:356-393 | a step is constructed exactly when its fields are in bounds, its approvers distinct and its threshold reachable |
| `Governance.MatchIsExact` | crates/infisical-api/src/code_signer_governance.rs:1767-1803 | an accepted answer matches exactly when it has the same ordered steps, thresholds, limits and approver sets over lower-cased ids |
| `Governance.EchoIsAccepted` | crates/infisical-api/src/code_signer_governance.rs:1668-1803 | a faithful echo of any constructible replacement, approvers in any order and letter case, is accepted and matches |
| `Governance.MatchingApproverCount` | crates/infisical-api/src/code_signer_governance.rs:1668-1803 | a matching step names exactly as many approvers as asked for if and only if no id repeats in another case |
| `Governance.RepeatedApproverIsAccepted` | crates/infisical-api/src/code_signer_governance.rs:1668-1803 | an answer that names the one approver asked for twice, in two spellings, is accepted, matches, and is read with that approver twice |
| `Governance.RepeatedApproverExists` | crates/infisical-api/src/code_signer_governance.rs:1668-1803 | a concrete such replacement and answer |
| `Governance.RepetitionIsPossibleIff` | crates/infisical-api/src/code_signer_governance.rs:356-393 | a step has an accepted and matching answer that repeats an approver exactly when it has fewer than 64 approvers and some id of it holds a letter |
| `Governance.PolicyRepetitionIsPossibleIff` | crates/infisical-api/src/code_signer_governance.rs:1668-1803 | a constructible replacement has an accepted and matching answer that repeats an approver exactly when one of its steps is of that kind |
| `Governance.ParseIsExact` | crates/infisical-api/src/code_signer_governance.rs:1986 | parsing digits into 64 bits is absent exactly when the number does not fit |
| `Governance.DurationIsExact` | crates/infisical-api/src/code_signer_governance.rs:1984-1997 | for a valid duration the milliseconds are absent exactly when the true product exceeds 2^63 - 1 |
| `Governance.LimitsFitExactly` | crates/infisical-api/src/code_signer_governance.rs:1949-1982 | which requests fit: counts within the maximum, windows positive and within any limit that fits 64 bits |
| `Governance.AcceptedWindowIsWithinLimit` | crates/infisical-api/src/code_signer_governance.rs:1949-1982 | an accepted window is never longer than the true unbounded limit, also in the overflow case |
| `PolicyWindows.DurationIff` | crates/infisical-api/src/code_signer_governance.rs:1657-1666 | a duration is valid exactly when it is a positive number without leading zeros and one of six units, within 32 bytes |
| `PolicyWindows.NamedDuration` | crates/infisical-api/src/code_signer_governance.rs:1984-1997 | its length is the number times the unit's length |
| `PolicyWindows.WrittenRequest` | crates/infisical-api/src/code_signer_governance.rs:516-545 | a request for a window between two written moments passes exactly when the end is later, field by field, and the count is in range |
| `PolicyWindows.WrittenWindow` | crates/infisical-api/src/code_signer_governance.rs:1949-1982 | a window between two written moments fits a written limit exactly when the milliseconds between them are at most the number of units |
| `PolicyWindows.WindowFromNow` | crates/infisical-api/src/code_signer_governance.rs:1949-1982 | a window without a start is measured from the given instant |
| `PolicyReading.ReplacementIff` | crates/infisical-api/src/code_signer_governance.rs:409-438 | a replacement is built exactly from at most 16 steps numbered from one and limits within bounds, and the error names what is wrong |
| `PolicyReading.ReadIff` | crates/infisical-api/src/code_signer_governance.rs:1668-1743 | an answer is read as a policy exactly within these bounds, as the policy it spells: steps in order, numbered from one, ids in lower case, no notification unless asked for |
| `Coverage.ValidateTable` | scripts/check_api_coverage.py:617-666 | a rule's table is accepted exactly when each matcher is well formed, new and in order |
| `OperationText.SplitOnceIsExact` | scripts/check_api_coverage.py:633-638 | splitting gives a verb and a route exactly when the text is blanks, the verb, a gap, and the route |
| `Coverage.ValidateRules` | scripts/check_api_coverage.py:578-673 | the loops accept exactly documents of version 3 whose rules are well formed with ids and signatures of their own, and normalize them in order |
| `Coverage.ValidateSnapshot` | scripts/check_api_coverage.py:489-556 | accepts exactly well-formed snapshots, uniquely sorted, with the right counts and source |
| `Coverage.DistinctSize` | scripts/check_api_coverage.py:524-525 | a list is as long as the set of its entries exactly when they are pairwise distinct |
| `Coverage.BuildSnapshot` | scripts/check_api_coverage.py:124-158 | succeeds exactly for distinct documents and gives a sorted permutation with its counts, which passes validation exactly when the endpoints are well formed and not none at all |
| `Coverage.CoverageRows` | scripts/check_api_coverage.py:824-869 | the loop with its use counter computes the specified matrix |
| `Coverage.ClassifyIsExact` | scripts/check_api_coverage.py:793-821 | an active endpoint is uncovered, ambiguous or gets a rule's row exactly when no rule, two rules or one rule lists its signature |
| `Coverage.ValidatedRulesAreALedger` | scripts/check_api_coverage.py:578-673 | validated rules have distinct ids and disjoint nonempty signature lists |
| `Coverage.OwnerIsUnique` | scripts/check_api_coverage.py:793-821 | a covered signature has exactly one owning rule |
| `Coverage.MatrixIsAPartition` | scripts/check_api_coverage.py:824-869 | the matrix exists exactly when active signatures equal rule signatures; then one row per endpoint in order, column by column its own deprecated row or that of the one rule that lists it, and the ambiguity and unused-rule checks cannot fire |
| `Coverage.Summarize` | scripts/check_api_coverage.py:894-944 | the counters are the numbers of rows per category and status, and per status |
| `CoverageFigures.CountInIsExact` | scripts/check_api_coverage.py:894-944 | a counter is the number of positions whose row has that category and status |
| `CoverageFigures.RowCategory` | scripts/check_api_coverage.py:900-904 | the category is the document up to its first slash, deprecated documents being renamed |
| `CoverageFigures.SnapshotFigures` | scripts/check_api_coverage.py:137-157 | the counts are numbers of positions and of different categories, and the source is the pinned one |
| `CoverageFigures.TextLeIff` | scripts/check_api_coverage.py:129 | texts sort by the first character where they differ, a prefix first |
| `Coverage.CategoriesAddUp` | scripts/check_api_coverage.py:894-944 | adding a status over all categories gives its total |
| `Coverage.StatusesAddUp` | scripts/check_api_coverage.py:894-944 | adding all statuses gives the number of rows |
| `Coverage.TotalsAddUp` | scripts/check_api_coverage.py:894-944 | the summary totals of a matrix add up to the number of endpoints, by status and by category |

## Left out

- HTTP, TLS, DNS, URL building, redirects and serde wire structs: library behaviour; a request is a nondeterministic answer.
- Retry-After parsing (header multiplicity, digits, HTTP dates): only the bounded, rounded delay it yields is modelled.
- The seven-field settings validation: only the positive skew, timeout and slot limit that the proofs use.
- `execute_observable_read_body` and the capability probe: the same attempt as an observable read, with another body or reading of the error.
- That a waiter always receives a token that is still fresh, and that all waiters of an interrupted flight see the same error: the code promises neither.
- Scheduling fairness and elapsed time: what is proved is that every agent has boundedly many steps of its own and that one is open to the agent waited for.
- RefreshTheorems.WaitForIsAcyclic: the read-write lock around the token cell is not in the wait-for relation; `fresh_token` acquires it while holding the coordinator lock, but every holder gives it up before its next await, so reading or writing the cell is part of one step and nobody holds that lock between steps.
- RefreshTheorems.NobodyIsStranded: as for the wait-for relation, waiting for the token cell's read-write lock is not represented, because no agent holds it across an await.
- Exact capacity of a fresh allocation: a requested capacity is taken to be the capacity given.
- Spelling of generated identifiers and the text layout of types, tables and the manifest: names are a prefix and an index, types are trees.
- An empty enum or type list: the generator prints an empty pair of brackets, which is no type; the model has a union without members.
- Schema keywords of a malformed JSON kind (a `properties` that is no object, a `required` that is no list of strings): the exporter writes none.
- Python's conflation of `True` with `1`, and of `1` with `1.0`, in comparing sibling keywords; JSON numbers are reals.
- Definitions nested inside a node, and pointers to anything but a schema: a node has no `$defs` of its own, and such a reference refers to nothing.
- Property lists are kept in canonical key order, so that equality of dictionaries is equality of lists.
- SchemaField.Field: which of several faults is reported first follows the code, but texts and exception classes are reduced to five kinds, as they are in `Workflows`.
- Coverage.ValidateRules: fields of the wrong JSON type are not modelled, since a rule is a typed record, and every failure is one fault.
- Coverage.ValidateSnapshot: fields of the wrong JSON type and extra source fields are not modelled, since a snapshot is a typed record.
- Coverage.Summarize: Markdown and CSV text, the workflow dependency table and its validation, git and tar handling are left out; the counting is what is modelled.
- PEM and base64 decoding, X.509 parsing and signature verification: foreign code; the decoder of one block is a parameter.
- Text is a sequence of Unicode scalar values rather than bytes; all markers and delimiters are ASCII, so positions correspond.
- SqlLease.Upstream.CreateSqlLease: the project and environment scope, lifetime and transport of the three requests are left out; the service's answers are fixed in advance.
- Wiping of secrets from memory (`zeroize_json_value`, `Zeroizing`): about real allocations.
- Sorting in place: `sort`, `sort_unstable` and `sorted` are the values they return; aliasing of the sorted list is not modelled.
- Iterator-chain checks against hash sets are stated as pairwise distinctness; the insertion loop behind them is proved once, in `Governance`.
- Whether approvers are active members, request reflection, grants and signing operations: field-by-field comparisons that restate themselves.
- Duplicates.RepositoriesAcceptedIff: the name checks of a GitHub destination are left out; only the repository list is modelled.
- Field-by-field checks of code signers, audit logs, identities and most app automations, endpoint tables, pagination, release and advisory gates: tables or simple membership tests.
