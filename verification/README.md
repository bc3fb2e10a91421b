# Verified models of the marketplace extension, the contract normalizer and the ledger validator

This project models seven parts of the repository in Dafny and proves what they are for.

- **Offline upload queue** (`QueueOps`, `QueueProgress`, `QueueDelivery`, `QueueHistory`, `QueueSteps`,
  `UploadQueue`). The two
  separately committed stores at three levels: atomic operations as lists of store writes;
  histories in which every operation may be cut at any write; and a step system with the
  promise-chain lock, interleaved loads, uploads and saves, rejections and worker crashes.
  The step system is shown to be serial, to lose no key and to settle every call. What a flush
  and a retry do is also said on the items' own fields. The class does what the atomic
  operations say.
- **OpenAPI document normalizer** (`YamlTree`, `Normalize*`, `YamlNode`, `FixInPlace`,
  `PathsInPlace`, `NormalizeInPlace`). The rewrite as a function on trees, with a
  termination measure that survives injected parameters, idempotence, an exact account of the
  trees it leaves alone, validity of every output (against section 4.4, Data Types, section
  4.7.12, Parameter Object, and section 3.2, Path Templating, of the OpenAPI Specification
  3.0.3), and completeness of path parameters; and what becomes of each entry, key by key,
  with the document format's own keys and tokens written out (`NormalizeMeaning`).
  Then the code's own form: loops over node objects that are overwritten in place, shown to
  do to the tree exactly what the function does.
- **Owned-target sync protocol** (`OwnedTargets`, `SyncProtocol`, `SyncStored`, `SyncQuiet`,
  `SyncLive`, `ServiceWorker`). Syncs, pairings and revokes interleaved between storage and network
  completions. One step is one event-loop task between two completions, so the guard and the
  replacement that follows it are one step. Storage is assumed to serve requests in the order
  they were issued.
- **Navigation-generation protocol** (`Navigation`, `NavigationResults`, `NavigationLive`,
  `ContentScript`). Coroutines that outlive their page, why none of them publishes onto the
  next, and that a product page is captured and any other left alone.
- **Ledger validator** (`LedgerRules`, `LedgerReading`, `LedgerBlocks`, `LedgerValidator`). The block
  delimiters, the flag-driven parsers, the replay and the evidence rule as loops, against a
  declarative reading: legal paths of the state machine, and the same on the text of the
  status cells.
- **Metric keys and registry** (`StableSort`, `Metrics`, `MetricRegistry`) and **history
  segmentation** (`History`).

Four places where the code and its prose differ are kept as the code has them, each with the
exact condition under which the prose holds. The comment on `isCurrentSync`
(`service-worker.ts`, lines 155-160) says a result is applied only while the stored credential
matches: a pairing's write can be served after the guard's read
(`SyncStored.OvertakenInstalls`, `SyncStored.InstallationIsJustified`). The comment in
`handlePair` (lines 372-376) says a target resolves only from the new credential's projection;
until the pairing's own sync ends the old projection stays
(`SyncStored.DirectRepairKeepsOldProjection`, `SyncStored.OwnedByStoredCredential`). The
validator's docstring says the replayed state exactly equals the table; a cell that says
`pending` is exempt (`LedgerRules.PendingCellIsExempt`, `LedgerRules.ParityAgreesExceptPending`).
The comment on `credentialFingerprint` (lines 145-150) calls it the identity of a credential; it
is id, blank, account, and with a blank in an id two identities share one
(`SyncProtocol.BlankConfuses`, `SyncProtocol.FingerprintIff`). Results about identities are
stated on fingerprints for every id, and on id and account where ids have no blank.

`dafny verify dfyconfig.toml` checks the whole project.

How to read it: a `datatype` stands for a value of the original, a `class` for an object or a
module's mutable variables. A method that changes state is specified by a function of the old
state, and the theorems are about that function. In the node classes `kids` and `repr` are
ghost: the trees of the children, and the nodes a node owns. Methods whose names end in `At`
rewrite one child and say that its siblings stand as before. The parameters `answers`, `now`,
`parse`, `alnum`, `leq` and `dedupKey` stand for the server, the clock, date parsing, the
Unicode tables, `localeCompare` and the capture hash.

## Model

| member | source | states |
|---|---|---|
| QueueOps.FindDead | apps/extension/src/lib/queue.ts:225 | the record a retry or discard takes is the first one with the key; the length stands for none |
| QueueOps.Capped | apps/extension/src/lib/queue.ts:266-273 | what is left after shedding is the longest suffix of the queue that fits under the cap |
| QueueOps.FlushConserves | apps/extension/src/lib/queue.ts:147-196 | after every item of a flush, for any answers, accepted + dropped + dead-lettered + kept equals the items passed |
| QueueOps.FirstRevoked | apps/extension/src/lib/queue.ts:147-167 | the item at which a flush stops is the first one answered `revoked`, and every earlier answer was something else |
| QueueOps.FlushStopsAtRevocation | apps/extension/src/lib/queue.ts:133-211 | a flush keeps the failed items of the prefix before the first revocation, then the revoked item and the whole rest unchanged and in order; only that prefix decides what is dead-lettered |
| QueueOps.AnswersAfterRevocationIgnored | apps/extension/src/lib/queue.ts:148-151 | two servers that agree up to the first revocation leave the same flush: nothing after it is uploaded |
| QueueProgress.FlushSpendsBudget | apps/extension/src/lib/queue.ts:168-193 | the sum of remaining attempts falls by at least one for each upload before a revocation, so strictly when the first answer is not `revoked` |
| QueueProgress.FiveFlushesEmptyTheQueue | apps/extension/src/lib/queue.ts:147-196 | MAX_ATTEMPTS consecutive flushes without a revocation and with nothing in between empty the queue, whatever the server answers |
| QueueDelivery.FlushCountsAnswers | apps/extension/src/lib/queue.ts:152-193 | the counts a flush returns are the numbers of such answers before the first revocation; `retried` and `deadLettered` share the failed ones by whether the item had failed four times before |
| QueueDelivery.FailedItemIsListed | apps/extension/src/lib/queue.ts:168-192 | an item whose upload fails before any revocation is kept in its turn with the same key, capture and time and one more attempt, or after four failures recorded so with `max_attempts_exhausted` |
| QueueDelivery.UntriedItemStays | apps/extension/src/lib/queue.ts:148-151 | from the first revocation on every item stays exactly as it was, behind the failed ones |
| QueueDelivery.FiveFailuresDeadLetter | apps/extension/src/lib/queue.ts:168-192 | a pending item never tried survives four failed uploads, one a flush, whatever else the queue holds, its failures counted; the fifth makes it a dead letter with its own fields and it is pending no more |
| QueueDelivery.RetriedRecordIsUntried | apps/extension/src/lib/queue.ts:232-242 | a retried record that was not pending comes back last with its key, capture and time and no attempt spent; only the oldest item may go for it |
| QueueDelivery.EnqueuedItemIsUntried | apps/extension/src/lib/queue.ts:120-122 | a new capture comes last with its key and time and no attempt spent; only the oldest item may go for it |
| QueueDelivery.RetryBuysFiveAttempts | apps/extension/src/lib/queue.ts:213-246 | so a retry buys a fresh budget: the record's capture is pending through four more failures and dead-lettered again only by the fifth |
| QueueDelivery.EnqueueBuysFiveAttempts | apps/extension/src/lib/queue.ts:110-196 | and so does a first enqueue |
| QueueHistory.AfterKeepsGood | apps/extension/src/lib/queue.ts:110-260 | cut at any of its store writes, every operation keeps both stores well formed: bounded queue, distinct keys, attempts below the limit, dead letters at exactly the limit |
| QueueHistory.ReplayKeepsGood | apps/extension/src/lib/queue.ts:110-260 | the store invariant holds after every history of operations with cuts between any two commits |
| QueueHistory.CapShedsOnlyTheOldest | apps/extension/src/lib/queue.ts:120-122 | adding to a queue within the cap sheds at most one item, the oldest, and the item just added stays |
| QueueHistory.TriedItemIsAccountedFor | apps/extension/src/lib/queue.ts:147-196 | an item a flush has tried is settled by the server, dead-lettered or kept |
| QueueHistory.AfterLosesNothing | apps/extension/src/lib/queue.ts:198-209 | at every commit point of every operation each key stored or admitted is in one of the two stores, or was settled by the server, shed by the cap or discarded by the operator |
| QueueHistory.AfterInventsNothing | apps/extension/src/lib/queue.ts:110-260 | no commit point of any operation stores a key that was neither stored before nor being enqueued |
| QueueHistory.NoKeyIsLost | apps/extension/src/lib/queue.ts:198-246 | over every history with crashes between any two commits: a key stored or admitted at some event and in neither store at the end was taken out by one later event, on the stores that event found, by the server's verdict, the cap or a discard, and was never stored again |
| QueueHistory.QueueFirstFlushLosesAKey | apps/extension/src/lib/queue.ts:198-207 | with the two writes of a flush in the other order there is a crash point at which a key is in neither store and was settled by nobody |
| QueueHistory.DeadLetterKeysMayRepeat | apps/extension/src/lib/queue.ts:198-207 | one way keys come to repeat: a crash between the two writes and one more flush leave two dead-letter records with one key |
| QueueHistory.DeadLetterKeysRepeatIff | apps/extension/src/lib/queue.ts:133-260 | when dead-letter keys repeat: at every commit point of every operation they stay distinct, except exactly when a flush has written and some item before the first revocation failed on its last attempt under a key that has a record already |
| QueueHistory.WholeFlushKeepsDeadKeysDistinctIff | apps/extension/src/lib/queue.ts:198-209 | after a whole flush the dead-letter keys are distinct exactly when they were before and the flush exhausted none of them |
| QueueHistory.CompleteFlush | apps/extension/src/lib/queue.ts:133-211 | a whole flush appends exactly the exhausted items to the dead-letter store and leaves exactly the kept ones pending |
| QueueHistory.CompleteRetry | apps/extension/src/lib/queue.ts:222-246 | a whole retry removes exactly the first record with the key, and the key is pending afterwards; with which attempts is `QueueDelivery.RetriedRecordIsUntried` |
| QueueHistory.NothingToRetry | apps/extension/src/lib/queue.ts:226-255 | a whole retry or discard changes nothing exactly when no record has the key; otherwise the dead-letter store is one record shorter |
| QueueHistory.CompleteKeepsGood | apps/extension/src/lib/queue.ts:110-260 | each whole operation keeps the store invariant |
| QueueHistory.EnqueueTwice | apps/extension/src/lib/queue.ts:114-119 | enqueuing a key a second time, with any capture and any clock, changes nothing |
| QueueSteps.MoveAgrees | apps/extension/src/lib/queue.ts:113-260 | whatever a running section awaits next, its writes so far are a prefix of the atomic operation's writes on the stores it found |
| QueueSteps.RunningIsLast | apps/extension/src/lib/queue.ts:44-50 | only the section that began last can be running |
| QueueSteps.StepKeepsInv | apps/extension/src/lib/queue.ts:42-260 | every step (submit, start, load, upload answer, save, finish, reject, crash) keeps the protocol invariant |
| QueueSteps.InterleavingIsSerial | apps/extension/src/lib/queue.ts:42-51 | every interleaving of the steps of concurrent calls, crashes included, leaves both stores as running the begun operations one at a time in submission order, each whole or cut at a commit; one that returned is whole |
| QueueSteps.ReturnsItsAtomicResult | apps/extension/src/lib/queue.ts:42-51 | in every interleaving a call that has returned was given the result of its atomic operation, run whole on the stores its predecessors left |
| QueueSteps.MutualExclusion | apps/extension/src/lib/queue.ts:42-51 | in every reachable state at most one critical section is running |
| QueueSteps.ReachableStoresAreGood | apps/extension/src/lib/queue.ts:110-260 | the store invariant holds in every reachable state of the step system, crash states included |
| QueueSteps.StepLosesOnlyDeparted | apps/extension/src/lib/queue.ts:113-260 | one step of the system takes a key out of the stores only by a store write of a section, for a reason that holds of the stores that section found |
| QueueSteps.ReachableStoresLoseNothing | apps/extension/src/lib/queue.ts:198-246 | a key stored at any point of any run, crashes included, and stored no longer was taken out by one step in between: a store write whose own section's verdicts, cap or discard account for it; it was never stored again |
| QueueSteps.ReturnedEnqueueIsPending | apps/extension/src/lib/queue.ts:110-125 | when an enqueue returns, in any interleaving, its key is pending in the durable queue |
| QueueSteps.FlushAsksUntilRevoked | apps/extension/src/lib/queue.ts:147-167 | in every run a flush uploads only while the queue it found has an item left and nothing was answered `revoked`, and never returns before |
| QueueSteps.NeverWedged | apps/extension/src/lib/queue.ts:45-49 | while any submitted section is unsettled some step is possible, also after rejections: a failed section never blocks the next |
| QueueSteps.MovesMakeProgress | apps/extension/src/lib/queue.ts:113-260 | each thing a running section awaits leaves it strictly less to do |
| QueueSteps.StepsMakeProgress | apps/extension/src/lib/queue.ts:42-51 | in every run the section that moves is left with strictly less to do |
| QueueSteps.EverySectionSettles | apps/extension/src/lib/queue.ts:42-51 | from every reachable state, whatever the server answers, finitely many next steps settle every submitted section, and each that had not settled returns |
| UploadQueueImpl.CapToBound | apps/extension/src/lib/queue.ts:266-273 | the shedding loop leaves the newest items that fit and says whether it shed any |
| UploadQueueImpl.IsPending | apps/extension/src/lib/queue.ts:116 | the search for an identical pending capture finds one exactly when the key is pending |
| UploadQueueImpl.FindIndex | apps/extension/src/lib/queue.ts:225 | the search returns the first record with the key |
| UploadQueueImpl.UploadQueue.Enqueue | apps/extension/src/lib/queue.ts:110-125 | the stores and the result become those of the atomic enqueue; the flags say exactly whether the capture was new and whether the cap shed another |
| UploadQueueImpl.UploadQueue.Flush | apps/extension/src/lib/queue.ts:133-211 | the stores and the result become those of the atomic flush; every count is that of such answers before the first revocation, and they add up to the queue it found and to the growth of the dead-letter store |
| UploadQueueImpl.UploadQueue.Requeue | apps/extension/src/lib/queue.ts:229-242 | unless its key is pending the record's key, capture and time are appended with no attempt spent, the oldest items give way at the cap, and the result says exactly whether one did |
| UploadQueueImpl.UploadQueue.RetryDeadLetter | apps/extension/src/lib/queue.ts:222-246 | the stores and the result become those of the atomic retry; a record that was not pending is the last item, with no attempt spent; `moved` exactly when a record had the key, `shed` exactly when re-queuing at the cap pushed another item out |
| UploadQueueImpl.UploadQueue.DiscardDeadLetter | apps/extension/src/lib/queue.ts:251-260 | exactly the first record with the key goes, and the result says whether there was one |
| NormalizeSpec.IndexOf | contracts/tools/dknormalize/main.go:440-447 | the index is that of the first such byte, or the length when there is none |
| NormalizeSpec.PropertiesDescend | contracts/tools/dknormalize/main.go:252-269 | repairing properties meets no more `paths` keys and gets no deeper |
| NormalizeSpec.SecurityDescends | contracts/tools/dknormalize/main.go:320-335 | repairing security meets no more `paths` keys and gets no deeper |
| NormalizeSpec.TagsDescend | contracts/tools/dknormalize/main.go:342-362 | turning tags into a sequence meets no more `paths` keys and gets no deeper |
| NormalizeSpec.InjectDoesNotGrow | contracts/tools/dknormalize/main.go:405-412 | an injected parameter adds no `paths` key, though it may deepen the tree |
| NormalizeSpec.FixDescends | contracts/tools/dknormalize/main.go:101-142 | why the recursion ends: a fixed value meets no more `paths` keys and is no deeper than before, unless wrapped once in a sequence or under `paths`, whose key is then spent |
| NormalizeStable.WalkKeepsKind | contracts/tools/dknormalize/main.go:85-98 | the walk changes no node's kind or text, and no scalar or alias at all |
| NormalizeStable.FixMakesNoMapping | contracts/tools/dknormalize/main.go:109-134 | no fix turns something else into a mapping, outside the values of properties |
| NormalizeStable.PlainKeySurvives | contracts/tools/dknormalize/main.go:101-140 | a key without a fix is found in the output exactly when it is in the input, with its value walked |
| NormalizeStable.SetTypeKeepsOthers | contracts/tools/dknormalize/main.go:163-172 | making enum and type agree touches no other key |
| NormalizeStable.WalkKeepsParam | contracts/tools/dknormalize/main.go:102 | a mapping is a parameter object after the walk exactly when it was one before |
| NormalizeStable.ReconcileTwice | contracts/tools/dknormalize/main.go:149-173 | reconciling a second time changes nothing |
| NormalizePaths.PlaceholdersAreTheNames | contracts/tools/dknormalize/main.go:416-438 | for every template, cut at its brace pairs, the result lists exactly the non-empty names, once each, in the order their first braces close |
| NormalizePaths.CutRenders | contracts/tools/dknormalize/main.go:416-438 | every template has such a cut, and it spells the template |
| NormalizePaths.KeywordsHaveNoPlaceholder | contracts/tools/dknormalize/main.go:109-134 | no key the walk treats specially is a template with placeholders |
| NormalizePaths.DeclaredSurvives | contracts/tools/dknormalize/main.go:451-482 | the recursion after the injection neither loses nor adds a declared path parameter |
| NormalizePaths.InjectAppends | contracts/tools/dknormalize/main.go:405-412 | parameters that were there stay in front in their order, the injected ones follow |
| NormalizePaths.InjectDeclares | contracts/tools/dknormalize/main.go:405-412 | injecting declares exactly the injected names on top of what was declared |
| NormalizePaths.FixItemDeclares | contracts/tools/dknormalize/main.go:389-413 | after the fix of an item its declared names are the old ones and all placeholders; existing parameters are kept in order, and each missing name is injected once |
| NormalizePaths.CompleteIsFixed | contracts/tools/dknormalize/main.go:389-408 | an item that declares all placeholders is left as it is |
| NormalizePaths.WalkedPathsAreComplete | contracts/tools/dknormalize/main.go:385-414 | after fix and recursion every placeholder of every template whose item is a mapping is declared |
| NormalizeIdempotent.FixPropertiesReadies | contracts/tools/dknormalize/main.go:252-269 | after the fix every property key can be named and no property is a bare scalar |
| NormalizeIdempotent.PropertiesReturn | contracts/tools/dknormalize/main.go:118-119 | fixing and walking a properties mapping is stable, although the fix alone is not |
| NormalizeIdempotent.FixReturns | contracts/tools/dknormalize/main.go:109-137 | whatever the keyword, a fixed and walked value fixes and walks to itself |
| NormalizeIdempotent.WalkedIsStable | contracts/tools/dknormalize/main.go:101-140 | the entries a walk leaves come out of another walk unchanged, in the same order |
| NormalizeIdempotent.Idempotent | contracts/tools/dknormalize/main.go:85-142 | for every tree, normalizing the normalized tree changes nothing: order, styles, tags and the position of an appended `type` included |
| NormalizeIdempotent.FixPropertiesAloneIsNotStable | contracts/tools/dknormalize/main.go:252-269 | a property named like a keyword: the fix of properties on its own changes a normalized mapping again |
| NormalizeValid.FixedTypeIsValid | contracts/tools/dknormalize/main.go:197-214 | a kept `type` is a scalar holding one of the six OpenAPI tokens, before and after the walk |
| NormalizeValid.WalkedPropertiesAreNameable | contracts/tools/dknormalize/main.go:257-268 | every key of a walked properties mapping has an ASCII letter or digit |
| NormalizeValid.FixedEntryIsValid | contracts/tools/dknormalize/main.go:109-138 | each entry that is kept meets what its keyword demands |
| NormalizeValid.ReconcileTypesEnum | contracts/tools/dknormalize/main.go:149-173 | a non-empty scalar enum ends up with a matching first `type` |
| NormalizeValid.OutputIsValid | contracts/tools/dknormalize/main.go:85-173 | at every mapping anywhere in the output: valid type tokens, boolean or sequence `required` by context, no mapping under composition, tags or additionalProperties, nameable properties, typed enums, scope lists that are no mappings, complete path items |
| NormalizeValid.PlainEntriesAreKept | contracts/tools/dknormalize/main.go:101-140 | at every mapping the entries without a fix are kept, all of them, in order, and only their values are walked |
| NormalizeSettled.MappingFixedIff | contracts/tools/dknormalize/main.go:101-142 | a mapping comes back as it was exactly when each entry does and its enumeration fits its type |
| NormalizeSettled.PropertiesFixedIff | contracts/tools/dknormalize/main.go:252-269 | fixing and walking a properties mapping gives it back exactly when each schema comes back, scalars only where an empty schema is walked to one, and any `type` the walk appends stands last |
| NormalizeSettled.FixedIffSettled | contracts/tools/dknormalize/main.go:85-142 | the rewrite leaves a tree exactly as it is if and only if, told from the tree alone, nothing in it is left to fix: at every mapping each entry meets its keyword's local condition |
| NormalizeSettled.OutputsAreTheSettled | contracts/tools/dknormalize/main.go:85-142 | every output of the rewrite is such a tree, and every such tree is its own output |
| NormalizeMeaning.EntriesWalkApart | contracts/tools/dknormalize/main.go:104-140 | each entry of a mapping leaves what it becomes in its place, by itself |
| NormalizeMeaning.ChildrenWalkApart | contracts/tools/dknormalize/main.go:87-94 | the children of a sequence or document are rewritten each in its place |
| NormalizeMeaning.CompositionBecomes | contracts/tools/dknormalize/main.go:286-291 | under oneOf, anyOf and allOf a mapping becomes a list whose one member is that mapping rewritten; anything else is rewritten where it stands |
| NormalizeMeaning.TypeBecomes | contracts/tools/dknormalize/main.go:197-214 | a `type` is dropped exactly when it is no scalar, null or none of the eleven tokens; otherwise its token becomes the one it stands for, table written out |
| NormalizeMeaning.RequiredBecomes | contracts/tools/dknormalize/main.go:218-242 | on a parameter the value becomes a boolean with the text it had if that was true, false or tagged boolean, and `false` otherwise; elsewhere only a list stays |
| NormalizeMeaning.PropertiesBecome | contracts/tools/dknormalize/main.go:252-269 | exactly the properties with an ASCII letter or digit in their key stay, in order; each with its own schema, an empty one for a scalar |
| NormalizeMeaning.EnumBecomes | contracts/tools/dknormalize/main.go:300-314 | a scalar becomes a list of itself, a list with a non-scalar goes, a list of scalars stays exactly as it is |
| NormalizeMeaning.SecurityBecomes | contracts/tools/dknormalize/main.go:320-335 | every requirement keeps all its schemes in order, with an empty list for scopes that were a mapping |
| NormalizeMeaning.TagsBecome | contracts/tools/dknormalize/main.go:342-362 | a mapping of tags becomes the list of exactly its mapping values in order, each reduced to exactly its name and description entries |
| NormalizeMeaning.AdditionalPropertiesBecome | contracts/tools/dknormalize/main.go:369-373 | an inline schema becomes the boolean true; anything else is rewritten where it stands |
| NormalizeMeaning.OtherKeysStay | contracts/tools/dknormalize/main.go:136-138 | under every key but the eleven listed the value is only rewritten |
| NormalizeMeaning.PathsBecome | contracts/tools/dknormalize/main.go:385-414 | every path stays in its place with its item repaired for its own template |
| NormalizeMeaning.ItemBecomes | contracts/tools/dknormalize/main.go:389-413 | an item gets exactly one parameter for each undeclared placeholder, in template order, behind those of its first parameter list or in a new last entry; the rest stays |
| NormalizeMeaning.PathParamIs | contracts/tools/dknormalize/main.go:500-513 | an injected parameter reads `in: path`, its name, `required: true` and a schema of type string, and nothing else |
| NormalizeMeaning.DeclaredIff | contracts/tools/dknormalize/main.go:451-482 | a path parameter is declared exactly by a parameter object in the item's list or in that of one of its eight kinds of operation whose last `in` is path and whose last `name` is the name |
| NormalizeMeaning.IntegerLiteralIff | contracts/tools/dknormalize/main.go:176-193 | an integer literal is a sign or none, and one decimal digit or more |
| NormalizeMeaning.EnumDecidesType | contracts/tools/dknormalize/main.go:149-173 | where an output enumerates scalars its first `type` is integer if every member spells one and string otherwise |
| NormalizeMeaning.IsParamIff | contracts/tools/dknormalize/main.go:102 | a mapping is read as a parameter exactly if it has an `in` and a `name` |
| NormalizeMeaning.MappingBecomes | contracts/tools/dknormalize/main.go:101-142 | a rewritten mapping holds what its entries became, in order, up to the `type` that a list of scalars decides |
| YamlNode.JoinForest | contracts/tools/dknormalize/main.go:138 | two separate lists of nodes together are again separate and stand for the joined trees |
| YamlNode.SplitForest | contracts/tools/dknormalize/main.go:105-107 | a list of separate nodes splits anywhere into two that share nothing |
| YamlNode.CloseAt | contracts/tools/dknormalize/main.go:137 | after one child has been rewritten within itself the others stand for what they stood for |
| YamlNode.ForestAt | contracts/tools/dknormalize/main.go:105-107 | each member of a separate list is sound and stands for its tree |
| FixInPlace.FixType | contracts/tools/dknormalize/main.go:197-214 | in place: drops or keeps as the tree function says, and the node then stands for its result |
| FixInPlace.FixRequired | contracts/tools/dknormalize/main.go:218-242 | in place: a parameter's value becomes a boolean scalar, any other non-sequence is dropped |
| FixInPlace.FixAdditionalProperties | contracts/tools/dknormalize/main.go:369-373 | in place: a mapping is overwritten by the boolean true |
| FixInPlace.FixComposition | contracts/tools/dknormalize/main.go:286-291 | in place: a mapping is moved into a new node under a one-element sequence |
| FixInPlace.OnlyScalars | contracts/tools/dknormalize/main.go:307-311 | the scan says yes exactly when every child is a scalar |
| FixInPlace.FixEnum | contracts/tools/dknormalize/main.go:300-314 | in place: a scalar is wrapped, a sequence with a non-scalar is dropped, anything else is kept |
| FixInPlace.FixSecurity | contracts/tools/dknormalize/main.go:320-335 | in place, two nested loops: exactly the mapping scope values of mapping requirements become empty sequences |
| FixInPlace.HasASCIIIdentChar | contracts/tools/dknormalize/main.go:273-281 | the scan finds a letter or digit exactly when there is one |
| FixInPlace.FixProperties | contracts/tools/dknormalize/main.go:252-269 | in place: the kept pairs are those with a nameable key, in order, scalars overwritten by empty schemas |
| FixInPlace.FixTags | contracts/tools/dknormalize/main.go:342-362 | in place: a sequence of new mappings holding the name and description nodes of the old values, in order |
| FixInPlace.KeptUpTo | contracts/tools/dknormalize/main.go:104-140 | a loop over pairs that appends what it keeps amounts to the concatenation of each entry's contribution |
| FixInPlace.EachValueAt | contracts/tools/dknormalize/main.go:389-413 | a loop over the values of a mapping rewrites each once and no key |
| PathsInPlace.IndexByte | contracts/tools/dknormalize/main.go:440-447 | returns the first position, or -1 exactly when the byte is absent |
| PathsInPlace.FindBraces | contracts/tools/dknormalize/main.go:421-429 | finds the first brace pair, or there is none and no placeholder either |
| PathsInPlace.PlaceholderAt | contracts/tools/dknormalize/main.go:430-435 | reading one brace pair off the front leaves exactly the remaining names to be found |
| PathsInPlace.PathPlaceholders | contracts/tools/dknormalize/main.go:418-438 | the scanning loop returns the distinct non-empty names of the template |
| PathsInPlace.MapValue | contracts/tools/dknormalize/main.go:515-525 | finds the value of the first entry with the key, at that position, and null exactly when there is none or the node is no mapping |
| PathsInPlace.MappingHasKeys | contracts/tools/dknormalize/main.go:528-542 | says yes exactly when every key is there |
| PathsInPlace.DeclaredName | contracts/tools/dknormalize/main.go:461-472 | the last `in` and the last `name` of a parameter object decide what it declares |
| PathsInPlace.Collect | contracts/tools/dknormalize/main.go:453-474 | adds exactly the path parameters of a sequence, and none for anything else |
| PathsInPlace.DeclaredPathParams | contracts/tools/dknormalize/main.go:451-482 | the collecting loops return exactly what the item and its operations declare |
| PathsInPlace.MissingNames | contracts/tools/dknormalize/main.go:400-405 | exactly the undeclared names, in order |
| PathsInPlace.PathParamNode | contracts/tools/dknormalize/main.go:500-512 | new nodes that stand for a required in:path string parameter |
| PathsInPlace.AppendParams | contracts/tools/dknormalize/main.go:409-412 | in place: the sequence grows by one new parameter for each name, and keeps what it had |
| PathsInPlace.ItemParameters | contracts/tools/dknormalize/main.go:486-497 | in place: the first `parameters` entry is made a sequence if it is none, or a new one is appended; its position is returned |
| PathsInPlace.InjectVia | contracts/tools/dknormalize/main.go:486-497 | getting the parameter sequence and appending to it is injecting into the item's entries |
| PathsInPlace.FixItem | contracts/tools/dknormalize/main.go:389-413 | in place: the item then stands for the tree with the missing parameters injected |
| PathsInPlace.FixPaths | contracts/tools/dknormalize/main.go:385-414 | in place: every item fixed by the text of its own key, keys untouched |
| NormalizeInPlace.FixValue | contracts/tools/dknormalize/main.go:109-134 | the switch on the key applies the fix of that keyword, in place, and drops when it says so |
| NormalizeInPlace.IsIntegerLiteral | contracts/tools/dknormalize/main.go:176-193 | the scan accepts exactly an optional sign and at least one digit |
| NormalizeInPlace.WantedType | contracts/tools/dknormalize/main.go:154-162 | the member loop returns early exactly on a non-scalar, else `integer` exactly when every member is an integer literal |
| NormalizeInPlace.SetType | contracts/tools/dknormalize/main.go:163-172 | in place: the first `type` is overwritten unless it already agrees; without one a pair is appended at the end |
| NormalizeInPlace.ReconcileEnumType | contracts/tools/dknormalize/main.go:149-173 | in place: the mapping then stands for the reconciled entries |
| NormalizeInPlace.FixedBelow | contracts/tools/dknormalize/main.go:136-137 | the value that is walked next is below the entry it came from in the termination order |
| NormalizeInPlace.NormalizeEach | contracts/tools/dknormalize/main.go:87-94 | the loop normalizes every child once and disturbs no other |
| NormalizeInPlace.RewriteEntries | contracts/tools/dknormalize/main.go:104-140 | in place: the children become the kept pairs, fixed and walked, in order |
| NormalizeInPlace.NormalizeMapping | contracts/tools/dknormalize/main.go:101-142 | in place: the mapping then stands for the normalized mapping |
| NormalizeInPlace.Normalize | contracts/tools/dknormalize/main.go:85-98 | in place and terminating: the node then stands for the normalized tree of what it stood for, and writes only nodes of that tree and new ones |
| OwnedTargets.ResolvesToTheLastListed | apps/extension/src/lib/owned-targets.ts:51-69 | a lookup gives the last listed target of the variant, and nothing exactly when none is listed |
| OwnedTargets.OwnedTargetIndex.ReplaceAll | apps/extension/src/lib/owned-targets.ts:51-54 | the projection and its owner are replaced as a whole; nothing of the old one survives |
| OwnedTargets.OwnedTargetIndex.Resolve | apps/extension/src/lib/owned-targets.ts:66-69 | a product without an offer, or with an unlisted variant, resolves to nothing |
| SyncProtocol.ConcludeKeepsGenerations | apps/extension/src/background/service-worker.ts:186-215 | the guard and what follows it keep the counter equal to the bumps so far, live syncs distinct and the owner's generation past |
| SyncProtocol.StepKeepsGenerations | apps/extension/src/background/service-worker.ts:182-218 | every step keeps that |
| SyncProtocol.StepInstallsFresh | apps/extension/src/background/service-worker.ts:161-165 | a step installs only the result of a sync that is still current |
| SyncProtocol.FingerprintIff | apps/extension/src/background/service-worker.ts:151-153 | two credentials have one fingerprint exactly when id and account agree, or a blank in one id shifts the border between the two |
| SyncProtocol.FingerprintTells | apps/extension/src/background/service-worker.ts:147-153 | for ids without a blank the fingerprint tells exactly id and account, and no credential from any; the secret plays no part |
| SyncProtocol.BlankConfuses | apps/extension/src/background/service-worker.ts:151-153 | with a blank in an id it does not: two accounts, one fingerprint |
| SyncProtocol.OnlyFreshResultsAreInstalled | apps/extension/src/background/service-worker.ts:161-218 | in every interleaving of syncs, pairings, revokes, failures and restarts a result (a success or a fail-closed clear) is installed only if no newer sync, pairing bump or revoke began after its sync did, and only if the guard's read found the fingerprint the sync began with: the same id and account, or none again, where ids have no blank |
| SyncProtocol.ProjectionOnlyGetsNewer | apps/extension/src/background/service-worker.ts:208-215 | every step short of a restart leaves the projection or stamps a strictly newer generation on it, so a late failure never clears a newer projection |
| SyncStored.StepKeepsSound | apps/extension/src/background/service-worker.ts:155-218 | every step keeps what ties reads to storage: who awaits which request, that after a read of the current sync only pairings write, and what the projection rests on |
| SyncStored.InstalledUnderStoredCredential | apps/extension/src/background/service-worker.ts:155-165 | wherever the guard passes, storage holds what the guard saw, or what a pairing was given that waits between its write and its bump; the identity in storage (its fingerprint, and so id and account where ids have no blank) is the one the sync began with exactly when the pairing that wrote last since the guard's read, if there is one, was given it |
| SyncStored.InstallsIffSame | apps/extension/src/background/service-worker.ts:161-215 | for ids without a blank: a sync that acts on its guard's read installs exactly when it is the newest and the read found the id and account it began with, or none again; then the projection is what it was answered, empty without an answer, under its generation and account; otherwise nothing changes |
| SyncStored.InstalledUnlessPairingWaits | apps/extension/src/background/service-worker.ts:155-165 | so the comment on the guard holds unless a pairing that was given another identity (another id or account, where ids have no blank) waits between its write and its bump |
| SyncStored.OneClaimEach | apps/extension/src/background/service-worker.ts:360-364 | a pairing is given one credential |
| SyncStored.InstallationIsJustified | apps/extension/src/background/service-worker.ts:155-218 | every installation of every run: its sync is the newest, the projection becomes what it brought, and the stored identity (id and account, where ids have no blank) is the one it began with exactly when the pairing that wrote last since the guard's read, if there is one, was given it; so unless a pairing given another waits |
| SyncStored.OvertakenInstalls | apps/extension/src/background/service-worker.ts:161-165 | the window is open: a pairing's write served between the guard's read and its continuation, and the old credential's result is installed over the new credential |
| SyncStored.OwnerIsTheInstaller | apps/extension/src/background/service-worker.ts:203-215 | in every reachable state the owner's account is that of the credential the last installation since the last revoke began with, and none if there is none |
| SyncStored.OwnedByStoredCredential | apps/extension/src/background/service-worker.ts:367-377 | identity quarantine, in every reachable state in which something is owned: the projection is that of the last installation and a credential is stored; whoever has written since its guard's read is a pairing that has bumped or is about to, storage holds what the last of them was given, and its identity (id and account, where ids have no blank) is the installation's exactly when that pairing was given the same; the owner carries the installation's account |
| SyncStored.DirectRepairKeepsOldProjection | apps/extension/src/background/service-worker.ts:364-377 | a pairing that replaces a credential without a revoke: after its write and bump the new credential is stored and the old projection still resolves |
| SyncLive.UndisturbedSyncRefreshes | apps/extension/src/background/service-worker.ts:182-218 | from every state with nothing outstanding a sync can run to an end that leaves exactly what the server answered for the stored credential under its account, and nothing owned without a credential or an answer |
| SyncLive.UndisturbedPairingInstalls | apps/extension/src/background/service-worker.ts:360-377 | from every such state a pairing can run to an end that leaves its credential stored and exactly what the server answered for it owned |
| SyncQuiet.RemovalIsSure | apps/extension/src/background/service-worker.ts:409 | once a removal is issued and served in order, storage ends up empty whatever it held |
| SyncQuiet.StepKeepsQuiet | apps/extension/src/background/service-worker.ts:182-218 | between a revoke and the next pairing's credential write every step keeps the index empty and every read of the current sync finding nothing |
| SyncQuiet.QuietIffStorageEmpties | apps/extension/src/background/service-worker.ts:397-413 | after a revoke and before the next pairing's write, in every reachable state: the outstanding requests leave storage empty exactly when nothing is owned now and in every continuation without a pairing's write or a refused removal |
| SyncQuiet.CalmKeepsEmpty | apps/extension/src/background/service-worker.ts:397-413 | one half, for each such continuation: the index stays empty, and storage stays on its way to empty |
| SyncQuiet.LeftCredentialReopens | apps/extension/src/background/service-worker.ts:182-218 | the other half, for every state that will be left with a credential: serving what is outstanding and one sync make any target of it resolve |
| SyncQuiet.NothingIsOwnedAfterRevoke | apps/extension/src/background/service-worker.ts:397-413 | so nothing resolves, whatever was in flight, in every reachable state from a revoke until the next pairing's write whose outstanding requests leave storage empty |
| SyncQuiet.NothingIsOwnedUnlessRefused | apps/extension/src/background/service-worker.ts:397-413 | and each of those states is one, as long as storage refused no removal since the revoke |
| SyncQuiet.SecondRevokeCovers | apps/extension/src/background/service-worker.ts:402-409 | a refused removal is harmless when another is outstanding |
| SyncQuiet.RefusedRemovalReopens | apps/extension/src/background/service-worker.ts:402-409 | and not when it was the only one: the old credential's targets resolve again |
| ServiceWorkerImpl.ServiceWorker.SyncBegins | apps/extension/src/background/service-worker.ts:183 | the worker's counter takes the protocol's step |
| ServiceWorkerImpl.ServiceWorker.SyncConcludes | apps/extension/src/background/service-worker.ts:189-215 | the worker's guard and replacement take the protocol's step; installed exactly when the generation is the newest and the identity read matches, which for ids without a blank is id and account; then the projection and the owner's account are those of the sync's own credential |
| ServiceWorkerImpl.ServiceWorker.PairingStored | apps/extension/src/background/service-worker.ts:364-370 | the bump after the credential write takes the protocol's step |
| ServiceWorkerImpl.ServiceWorker.Revoke | apps/extension/src/background/service-worker.ts:402-408 | bump and clear before any storage call take the protocol's step |
| Navigation.StepKeepsInv | apps/extension/src/content/content-script.ts:49-168 | every step of every coroutine keeps the invariant |
| NavigationResults.OnlyTheCurrentPageIsShown | apps/extension/src/content/content-script.ts:49-64 | in every reachable state the current product and the overlay were put up by coroutines of the current generation, the fetch in flight is one of it, and the overlay shows no product but the current one |
| NavigationResults.CurrentWasCapturedHere | apps/extension/src/content/content-script.ts:119-146 | in every reachable state the current product was sent in a capture of this generation, while the page was on the path of a fetch this generation had made before |
| NavigationResults.OldFetchesAreAborted | apps/extension/src/content/content-script.ts:49-56 | every unfinished fetch of an older generation has been aborted, and one of this generation is the one in flight |
| NavigationResults.OneFetchOneCapture | apps/extension/src/content/content-script.ts:66-147 | each generation makes at most one product fetch and sends at most one capture, never more captures than fetches |
| NavigationResults.EverythingSentIsJustified | apps/extension/src/content/content-script.ts:66-145 | every fetch and every capture is of a path that names a product; every fetch follows its own ready answer, and every capture its own fetch, on the path it was fetched for |
| NavigationResults.DoubleFireGuardIsIdle | apps/extension/src/content/content-script.ts:86-90 | the captured-path guard never decides anything: a current capture whose gate answers ready always fetches |
| NavigationLive.ProductPageIsCaptured | apps/extension/src/content/content-script.ts:61-168 | from every reachable state with the location on a product page a navigation whose gate, response and body come back well ends with that product at hand and captured once, in the new generation and on that page, and the overlay comes to show it |
| NavigationLive.OtherPageIsLeftAlone | apps/extension/src/content/content-script.ts:61-69 | off a product page a navigation retires the old page and no coroutine of the new generation does anything |
| NavigationLive.ClosedGateFetchesNothing | apps/extension/src/content/content-script.ts:77-84 | a gate that does not answer ready ends its coroutine without a fetch |
| NavigationLive.SupersededEnds | apps/extension/src/content/content-script.ts:79-166 | a coroutine of an older generation ends when it next wakes, whatever it awaited, having put up and sent nothing |
| ContentScriptImpl.ContentScript.RetireContext | apps/extension/src/content/content-script.ts:49-56 | the module's variables take the protocol's step, and the controller that was in flight is aborted, not merely forgotten |
| ContentScriptImpl.ContentScript.HandleNavigation | apps/extension/src/content/content-script.ts:61-69 | retires, then awaits the gate of the new generation exactly when the page names a product |
| ContentScriptImpl.ContentScript.GateAnswered | apps/extension/src/content/content-script.ts:78-93 | the variables take the protocol's step; a new controller is in flight exactly when the product is to be fetched |
| ContentScriptImpl.ContentScript.FetchOver | apps/extension/src/content/content-script.ts:115-117 | only its own controller is let go |
| ContentScriptImpl.ContentScript.ProductParsed | apps/extension/src/content/content-script.ts:119-146 | published exactly when generation and path still match and the body parsed |
| LedgerRules.LegalPathRowByRow | tools/ledger/validate_ledger.py:170-178 | in a legal path each row starts where the one before ended, the first at pending, and each edge is allowed |
| LedgerRules.DerivedIsPathEnd | tools/ledger/validate_ledger.py:434-445 | the replayed state of a step is the end of its own rows, and it is logged exactly when it has rows |
| LedgerRules.LogIsCleanIff | tools/ledger/validate_ledger.py:423-445 | the replay is silent exactly when every logged step is in the table and every step's rows form a legal path from pending |
| LedgerRules.TableIsCleanIff | tools/ledger/validate_ledger.py:447-463 | a table cell draws no report exactly when it says pending, or its step is logged and its path ends where the cell says |
| LedgerRules.ParityIff | tools/ledger/validate_ledger.py:411-465 | no report at all exactly when table and log are in parity in that sense |
| LedgerRules.PendingCellIsExempt | tools/ledger/validate_ledger.py:449-451 | as coded, a pending cell is exempt: the log may say the step passed |
| LedgerRules.ParityAgreesExceptPending | tools/ledger/validate_ledger.py:447-463 | in parity the log leaves a step in the state its cell shows exactly when the cell does not say pending or the log never names the step |
| LedgerRules.PassedHasLegalPath | tools/ledger/validate_ledger.py:411-465 | a step shown as passed was walked there legally from pending |
| LedgerRules.EvidenceGrows | tools/ledger/validate_ledger.py:578-581 | more gate rows never give less evidence |
| LedgerRules.DeletionNeverSatisfies | tools/ledger/validate_ledger.py:575-602 | for a fixed log a smaller registry clears no missing-evidence report |
| LedgerRules.AnyDetourIsCaught | tools/ledger/validate_ledger.py:567-573 | a path that ever visits an outstanding state, by any detour, is one the evidence rule looks at |
| LedgerReading.CellReadsIff | tools/ledger/validate_ledger.py:181-183 | a cell reads as a known state exactly when, blanks around it aside, it spells that state's word in any ASCII case and with either separator; the seven words written out |
| LedgerReading.NoCellReadsTwoWays | tools/ledger/validate_ledger.py:181-183 | no cell reads as two states |
| LedgerReading.LegalIff | tools/ledger/validate_ledger.py:170-178 | each state is entered from exactly the states listed for it; pending is never entered |
| LedgerReading.LegalPathIff | tools/ledger/validate_ledger.py:434-445 | so a legal path is one in which every row enters its state from the one before, the first from pending |
| LedgerReading.PassedIsLeftOpenly | tools/ledger/validate_ledger.py:167-178 | in a legal path a passed step goes on only as reopened or regressed |
| LedgerReading.RowReportsName | tools/ledger/validate_ledger.py:423-444 | the reports of a row are exactly its defects: off the table, an unknown state on either side, a broken chain, or in a whole chain an edge the machine forbids |
| LedgerReading.CellReportsName | tools/ledger/validate_ledger.py:447-463 | a cell that does not say pending is reported unlogged exactly when its step has no rows, and diverged exactly when they end in another state |
| LedgerReading.HasContentIff | tools/ledger/validate_ledger.py:186-219 | a note is content exactly when some character of it, anywhere, is alphanumeric and none of the four fillers; fillers and punctuation alone are none |
| LedgerReading.EvidenceOnTextIff | tools/ledger/validate_ledger.py:567-602 | no missing evidence is reported exactly when every step with a row into or out of verify-pending or blocked that ends in passed has a satisfied row whose note shows something |
| LedgerBlocks.MarkedLines | tools/ledger/validate_ledger.py:252-253 | exactly the numbers of the lines with the mark, ascending |
| LedgerBlocks.CheckBlockDelimiters | tools/ledger/validate_ledger.py:222-278 | reports nothing exactly when there is one BEGIN line and one END line, the first strictly before the second; otherwise names each defect: a collapsed line, both wrong counts, an END that does not follow its BEGIN |
| LedgerBlocks.MarkReportNames | tools/ledger/validate_ledger.py:254-278 | each defect of the marks is named exactly if it is there: two marks on one line, a number of lines with a mark that is not one, by that number, and the only END not after the only BEGIN |
| LedgerBlocks.RowsInFileOrder | tools/ledger/validate_ledger.py:309-339 | rows are collected line by line in file order |
| LedgerBlocks.OpenBlockReadsOn | tools/ledger/validate_ledger.py:309-339 | with the END line gone every row to the end of the document is honoured |
| LedgerBlocks.ClosedBlockReadsNothing | tools/ledger/validate_ledger.py:315-323 | after the END line nothing is read until another BEGIN line |
| LedgerBlocks.ExactlyTheBlockCounts | tools/ledger/validate_ledger.py:302-345 | in a well-formed document the flag-driven loop honours exactly the rows strictly between the marks, in file order, and reports exactly the malformed ones among them |
| LedgerBlocks.NoneIsSkipped | tools/ledger/validate_ledger.py:324-339 | every parsed row of the block is honoured and every malformed one is reported |
| LedgerBlocks.ReadTxnRows | tools/ledger/validate_ledger.py:379-401 | the loop returns the honoured rows, the malformed ones in order, and whether a block was opened |
| LedgerBlocks.ParseTransitionLog | tools/ledger/validate_ledger.py:366-408 | the rows of the block; no error exactly when the block is well formed and no row in it is malformed; otherwise the defects of the marks, then each malformed row in file order |
| LedgerBlocks.RegistryHolds | tools/ledger/validate_ledger.py:339 | the registry holds for each step exactly its own rows in file order, and a step exactly when some row names it |
| LedgerBlocks.ParseGateRegistry | tools/ledger/validate_ledger.py:302-345 | the registry of the block with its keys in order; no error exactly when the block is well formed, no row is malformed and every state is known; otherwise the defects of the marks, then those of the rows in file order |
| LedgerBlocks.GateRowErrorsName | tools/ledger/validate_ledger.py:309-339 | the row errors name exactly the malformed lines and the rows with an unknown state |
| LedgerValidator.ReplayLog | tools/ledger/validate_ledger.py:419-445 | the replay loop returns where every step ends, which steps it names and the reports of all rows in order |
| LedgerValidator.CheckRow | tools/ledger/validate_ledger.py:425-444 | the tests on one row; a broken chain hides the edge test |
| LedgerValidator.Ordered | tools/ledger/validate_ledger.py:447 | a set is listed in ascending order, each member once |
| LedgerValidator.OneOrder | tools/ledger/validate_ledger.py:447 | there is one such list |
| LedgerValidator.PrecedesIff | tools/ledger/validate_ledger.py:447 | the order is that of the first difference: a proper prefix first, else the smaller character |
| LedgerValidator.CheckTable | tools/ledger/validate_ledger.py:447-463 | every cell of the table is checked once against the replay, in ascending order of the steps |
| LedgerValidator.ValidateParity | tools/ledger/validate_ledger.py:411-465 | returns nothing exactly when the ledger is in parity |
| LedgerValidator.ReplayHistory | tools/ledger/validate_ledger.py:568-573 | the loop returns exactly the steps that were ever outstanding and where every step ends |
| LedgerValidator.HasEvidence | tools/ledger/validate_ledger.py:579-581 | finds evidence exactly when a satisfied row has a note with a visible letter, digit or numeral |
| LedgerValidator.ValidateUnlockEvidence | tools/ledger/validate_ledger.py:468-603 | reports exactly the steps that were ever outstanding, end in passed and show no evidence, each once, in ascending order |
| LedgerValidator.GateReportsName | tools/ledger/validate_ledger.py:619-637 | the reports name exactly the steps with gates that are not in the table, and exactly the pending-mandatory gates, by note, of steps the table shows as passed |
| LedgerValidator.CheckGates | tools/ledger/validate_ledger.py:619-637 | the reports of all gates, in the order of the registry; silent exactly when every gate's step is in the table and no passed step has a pending-mandatory gate |
| LedgerValidator.CheckDeferred | tools/ledger/validate_ledger.py:641-646 | names exactly the deferred steps without a gate row, in ascending order |
| LedgerValidator.Validate | tools/ledger/validate_ledger.py:606-660 | returns nothing exactly when both blocks are well formed, the table is not empty and all four rules hold of what they declare; said once more on the text of the cells, with the states, the edges and what counts as evidence written out |
| LedgerValidator.RulesHoldIff | tools/ledger/validate_ledger.py:606-660 | the rules on parsed states and the rules on the text of the cells are the same rules |
| LedgerValidator.PassedIsEarned | tools/ledger/validate_ledger.py:606-660 | where the rules hold of a registry and a log, a passed step has no pending-mandatory gate, a legal path from pending to passed, and, if that path ever visits verify_pending or blocked, a satisfied gate whose note says something |
| LedgerValidator.CleanPassedIsEarned | tools/ledger/validate_ledger.py:606-660 | so of a document that draws no report: for a step its table shows as passed all that holds of the rows that stand strictly between the marks |
| LedgerValidator.PassedCellIsEarned | tools/ledger/validate_ledger.py:606-660 | the same for a cell that spells passed in any way: no pending-mandatory row between the marks, rows that walk from pending to passed entering each state from a listed one, and evidence that shows something if they touch verify-pending or blocked |
| LedgerValidator.ErasureIsCaught | tools/ledger/validate_ledger.py:475-495 | a passed step that was ever outstanding must have a row with evidence: erasing its gates does not help |
| LedgerValidator.CleanErasureIsCaught | tools/ledger/validate_ledger.py:475-495 | so of a document that draws no report: the row with evidence stands strictly between the gate marks |
| LedgerValidator.DeletedRowsNeverSatisfy | tools/ledger/validate_ledger.py:468-603 | deleting or moving rows of the gate block never clears a missing-evidence report |
| StableSort.SortKeepsTies | apps/extension/src/lib/observability.ts:62 | elements the comparator ties keep their first order |
| StableSort.SortIsTheOnlyOne | apps/extension/src/lib/history.ts:37-39 | a sequence is the stable sort exactly when it is in order and keeps the ties of the input |
| Metrics.Parse | apps/extension/src/lib/observability.ts:114-123 | the loop over the segments computes the parsed metric |
| Metrics.CutAt | apps/extension/src/lib/observability.ts:115-120 | cutting at a separator undoes gluing with it |
| Metrics.RoundTrip | apps/extension/src/lib/observability.ts:59-65 | for a name without bars, keys without bars or equals signs and values without bars, parsing the printed key gives back name and label set, whatever the key order |
| Metrics.KeyText | apps/extension/src/lib/observability.ts:59-65 | a key without labels is the name; with one label it is the name, a bar and `key=value`; a label without a value leaves no trace |
| Metrics.ReadsBackIffPlain | apps/extension/src/lib/observability.ts:114-123 | the printed key reads back exactly when name, keys and values keep clear of the separators and no key is the prototype's |
| Metrics.SameLabelsSameKey | apps/extension/src/lib/observability.ts:60-64 | the order in which a caller writes its labels does not matter where the key order tells the keys apart |
| Metrics.OneKeyPerMetric | apps/extension/src/lib/observability.ts:59-65 | two calls share a flat key exactly when they name the same metric with the same label set |
| Metrics.OrderMattersIffTied | apps/extension/src/lib/observability.ts:62 | two labels written in either order give one key exactly when the key order does not tie them |
| MetricRegistry.LookupIsReading | apps/extension/src/lib/observability.ts:67-84 | after any run of incr and gauge calls a lookup gives the sum of a counter or the last value of a gauge, and the key is there exactly when the metric was named |
| MetricRegistry.KeyReadsBack | apps/extension/src/lib/observability.ts:107-112 | every flat key parses to a metric that was named, and holds its reading |
| MetricRegistry.OneKeyEach | apps/extension/src/lib/observability.ts:107-112 | two flat keys never parse to one metric |
| MetricRegistry.OrderIsFirstNamed | apps/extension/src/lib/observability.ts:107-112 | the flat keys, in insertion order, parse to the metrics in the order in which calls first named them |
| MetricRegistry.SamplesAreFaithful | apps/extension/src/lib/observability.ts:107-112 | the samples are the named metrics with their readings, in the order of first naming |
| MetricRegistry.FaithfulSamples | apps/extension/src/lib/observability.ts:107-112 | such samples are exactly the named metrics with their readings, each once |
| MetricRegistry.Registry.Incr | apps/extension/src/lib/observability.ts:67-70 | one counter grows by the amount and no gauge changes |
| MetricRegistry.Registry.SetGauge | apps/extension/src/lib/observability.ts:78-80 | one gauge takes the value and no counter changes |
| MetricRegistry.Registry.CounterValue | apps/extension/src/lib/observability.ts:72-74 | the sum of everything added to that metric |
| MetricRegistry.Registry.GaugeValue | apps/extension/src/lib/observability.ts:82-84 | the value the gauge was last set to, zero if never |
| MetricRegistry.Registry.ResetCounters | apps/extension/src/lib/observability.ts:86-89 | both maps are empty and no call is remembered |
| MetricRegistry.Registry.SnapshotMetrics | apps/extension/src/lib/observability.ts:107-112 | counters then gauges, each in the order of first naming and with its reading; the registry is not changed |
| History.SplitAtGaps | apps/extension/src/lib/history.ts:41-65 | the loop splits the sorted points into non-empty gap-free segments with a gap between any two; the count is that of the gaps |
| History.BuildHistorySeries | apps/extension/src/lib/history.ts:33-68 | the segments concatenate to the stable time sort of the input, are split at its gaps and nowhere else, and `gapCount` is the number of boundaries |
| History.SplitIsUnique | apps/extension/src/lib/history.ts:45-65 | two splits of the same points are the same split |
| History.SplitByPosition | apps/extension/src/lib/history.ts:52-61 | every segment is whole and every boundary is a gap strictly larger than the threshold |
| History.WholeByPosition | apps/extension/src/lib/history.ts:54-55 | neighbours inside a segment are at most the threshold apart |
| History.SegmentsByTime | apps/extension/src/lib/history.ts:54-61 | inside a segment neighbours are at most the threshold apart, in seconds of a thousand milliseconds, and segments are further apart than that |
| History.PointsReadObservations | apps/extension/src/lib/history.ts:46-51 | each point carries the time, raw price value, unit and quality of its own observation |
| History.NoPointIsInvented | apps/extension/src/lib/history.ts:45-67 | each observation contributes its point exactly once: none is added, dropped or doubled |
| History.TimesAscend | apps/extension/src/lib/history.ts:37-39 | capture times never step back along the series |
| History.SeriesIsDetermined | apps/extension/src/lib/history.ts:33-68 | any split of any stable chronological arrangement of the observations is the series |

## Left out

- YAML anchors, comments, line numbers and odd-length mappings: a node is its kind, tag, style, value and children; an alias is a leaf that is not followed, and no node has two parents, so sharing between subtrees is not modelled.
- Bytes and encodings: text is a sequence of characters. The normalizer's scans look only for ASCII characters, so cutting a string at them is the same on bytes.
- YAML parsing and printing, file reading and exit codes of the normalizer and the validator: the models start from nodes and from classified lines.
- `dedupKey` is an unknown function of the capture: two captures may share a key, and nothing is claimed about the hash.
- QueueHistory.DeadLetterKeysRepeatIff: the dead-letter list has no cap, so no bound is claimed there; its keys repeat whenever a key with a record is exhausted again, after a crash between the two writes of a flush or after it was enqueued once more.
- UploadQueueImpl.UploadQueue.Flush: the class runs one operation from beginning to end; interleaving and crashes are in `QueueSteps`, which uses the same plans of writes.
- The dead-letter timestamp and the log and metric calls inside the queue are not part of its stores.
- Capability values and the enable toggle: only whether a gate answered ready matters here, and nothing is claimed about leaving the revoked capability through the toggle.
- Navigation.StepKeepsInv: the product id of a path is given with the path, and a DOM mismatch is only a recorded signal in the original, so it is not modelled.
- The pairing claim, the network responses and the parsed product are outcomes the environment chooses.
- LedgerRules.TokenStatus and the cell reader fold only ASCII letters and strip only the four ASCII blanks; the original's `strip` and `lower` also know other Unicode characters.
- The status table, the deferred section and the row patterns are read by regular expressions in the original; here they are given as a map, a set and classified lines.
- The validator's reports carry their step, states and note, not their wording.
- Amounts and gauge values are integers, and time differences are exact, where the original uses floating-point numbers.
- History.BuildHistorySeries: capture times are assumed to parse; an unparseable one compares false with everything in the original and its sort order is then up to the engine.
- Popup observers, scheduling, redaction, storage wrappers, overlay rendering, telemetry export, the generated gateway clients and the dashboard: easy members, or input and output only.
