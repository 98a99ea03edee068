# FlowSeer: a verified model of its protocols and state machines

This project models the parts of FlowSeer that keep state through long runs, and proves what they
keep. `dafny verify dfyconfig.toml` checks all of it.

- **The SNMP selected-column walk** (`Oids`, `OidRank`, `ColumnState`, `ColumnWalk`): a lazy merge of
  per-column GETBULK cursors that shrinks, splits and degrades its requests. It ends for every agent,
  its rows are ordered whatever the agent answers, and against an honest agent it is complete. The walk
  also ends without a variable budget, because encodable identifiers can be ranked by a bounded number.
  Inside the walk identifiers are sequences of sub-identifiers as they are on the wire, the first two
  arcs folded into one; the order is the one of minimal encodings.
- **The durable settlement protocol** (`Settlement`): deliveries, the broker and the reconciliation at
  startup as steps of one system, with replies that get lost, requests that take effect late and
  crashes between any two broker calls.
- **The manifest journal** (`Manifest`): which configurations may follow each other, and the
  PREPARED/COMMITTED records that survive a crash. Configuration refuses a subscription key declared twice
  (`src/common/service/message.go:663-674`); the journal's results are about manifests with one contract
  to a path and one subscription to a key.
- **The supervisor** (`Policy`, `Supervisor`, `SupervisorVerdicts`, `SupervisorBuffer`,
  `SupervisorStall`): the run loop and its children as steps of one system over a bounded result buffer.
  Each verdict on a child's result does what it says and no more. The buffer of 2n+1 results is enough
  for one-for-one and one-for-all. For rest-for-one it is enough exactly when the slots that take part
  have no more pairs (a slot counting as a pair with itself) than the buffer has places, which with every
  slot active means at most three slots; a run that gets stuck is constructed for every larger number.
- **The SMI resolver** (`OidResolver`, `ImportOrder`, `OidForest`, `Augments`): memoized identifier
  resolution through cycles, the import order with its back edges, the identifier forest with contested
  registrations and kinds, and the keys of augmenting tables.
- **Pumps** (`Pump`, `PumpCalls`, `Merge`, `MergeEnds`): senders, closers and consumers interleaved at every
  lock and channel operation, and the merge of several pumps into one, which a failure stops and which
  can always end from there.
- **The capture engine** (`CaptureEngine`): its account of what was lost on the way to a consumer whose
  reads it cannot see.
- **The gNMI row watcher** (`RowTree`, `RowWatch`): JSON trees assembled from leaf updates, and an event
  stream that keeps a consumer in step with them.
- **The BER codec** (`Ber`, `BerCodec`): encodings as functions with their round trips, and the loops that
  compute them within 64 bits.

Protocols between concurrent parties are state machines: an `Event` type, `Enabled` and `Apply`, and
lemmas over every run. Code that updates its own fields is a class whose methods are proved against a
function or predicate, and the lemmas are about that function.

Where the code and what it promises differ, the model follows the code:

- Startup deletes the settlement of a record that is still in the mailbox when the record's data does not
  unmarshal, or its message id or target path is not the settled one (a missing id is replaced by one made
  up on delivery). Such a record is never handled but can be discarded more than once
  (`Settlement.UnrecognisedSettledTwice`). A settlement survives, and is stored once, exactly with one
  recognised record to the subject (`Settlement.KeepsSettlementsExactly`).
- Two mailbox records with the same target and message id share a settlement subject. Then a record
  whose acknowledgement is stored can be handled again (`Settlement.SharedSubjectCallsTwice`). With one
  record to a subject it cannot, as long as the subject is read while the record is in the mailbox
  (`Settlement.LateReadCallsTwice` is a copy that was delivered before and read after the release).
  `Settlement.SparesExactly` states the exact condition.
- A settlement under a message id that is not a UUID cannot be read back. The delivery that stores it can
  still release its record; but when the process dies before that, with no release under way, no later
  delivery ever does (`Settlement.StuckWithoutUuid`, `Settlement.StuckForGood`; the exact condition
  is `Settlement.ResumesExactly`).
- A trap whose enterprise was withheld by the parser gets no identifier, while any other declaration
  under it does (`OidResolver.WithheldEnterpriseLosesTrap`).
- The drop accounting charges an eviction with the oldest batch of the buffer it found full. A consumer
  that reads inside the send makes it evict a later one, and the charge is wrong exactly when the two
  differ in size (`CaptureEngine.ChargedExactly`, `CaptureEngine.ReadInsideSendMischarges`).
- An owner that fails a merged pump records its error before it signals stop. If every forwarder ends in
  failure in between, the merge ends without telling its sources (`Merge.OwnerFailureLeavesSources`); an owner that
  signals stop first, or does neither, never causes that (`Merge.SourcesAreToldExactly`).
- A row update that changes the key of the list entry it goes through is not read back
  (`RowTree.RenamedKeyIsLost`); one that writes a key's own value is.
- An identifier with a single arc does not survive the codec (`Ber.SingleArcLost`), nor does one whose
  first two arcs fold to 2^32 or more.

## Model

| member | source | states |
|---|---|---|
| ColumnWalk.ColumnMerge.Run | src/protocol/snmp/column_walk.go:145-192 | For every agent and every consumer the walk ends; the rows yielded have strictly increasing indexes; no queue ever exceeds the starting repetition count; the rows never hold more cells than the variable budget; a walk that runs to the end against an honest agent (successor answers, possibly truncated, empty or tooBig) has yielded exactly the agent's instances under each root; and a walk fails only for cause: an honest agent is never accused of anything but refusing, saying nothing, having a root or instance the codec cannot carry, or having more instances under the roots than the budget; every request keeps to the limits and follows from the answer before it; it stops exactly when the consumer does, and a walk cancelled from the start asks and yields nothing |
| ColumnWalk.WalkColumns | src/protocol/snmp/column_walk.go:44-64 | From the public entry, for roots as dotted identifiers: short roots, overlapping roots and bad options each fail with their own error before any request, with no rows; otherwise the rows are ordered, complete against an honest agent and within the variable budget, a failure has its cause, and the requests sent keep to the limits and shrink, split or fall back to GETNEXT exactly after a tooBig answer |
| ColumnWalk.CheckRoots | src/protocol/snmp/column_walk.go:48-59 | Exactly which complaint stands: a root of fewer than two arcs, else an overlap, else whatever stood before |
| ColumnWalk.OverlapExactly | src/protocol/snmp/column_walk.go:48-59 | Two columns overlap exactly when some identifier is in both |
| ColumnWalk.WirePrefix | src/protocol/snmp/column_walk.go:48-59 | Folding the first two arcs neither makes nor hides an overlap between valid identifiers |
| ColumnWalk.WireIsSent | src/protocol/snmp/ber.go:484-500 | The name a column is asked for is the one the codec sends for its identifier: for every identifier of two arcs or more the octets of its encoding are those of the name |
| ColumnWalk.WireKeepsOrder | src/protocol/smi/model.go:95-95 | Names on the wire are ordered as the identifiers are |
| ColumnWalk.DecodableExactly | src/protocol/snmp/column_walk.go:230-237 | A cursor can be sent exactly when the codec reads its octets back as an identifier |
| ColumnWalk.DecodableIndexExactly | src/protocol/snmp/column_walk.go:167-170 | An index can be handed to the consumer exactly when its octets are read back as themselves, at most 128 of them |
| ColumnWalk.ColumnMerge.Turn | src/protocol/snmp/column_walk.go:146-190 | One turn keeps the rows ordered and the queues bounded; a yielded row makes the walk's measure smaller; an exhausted walk is complete; a cancelled one neither asks nor yields, a row is only yielded when the walk is not cancelled just then, and it goes on exactly when the consumer asks for more |
| ColumnWalk.ColumnMerge.NextRow | src/protocol/snmp/column_walk.go:150-183 | Refills the queues and takes the next row; no row means that every instance has been yielded |
| ColumnWalk.ColumnMerge.TakeRow | src/protocol/snmp/column_walk.go:153-183 | The next row is the least queued index with one cell per column that has it; taking it leaves less queued |
| ColumnWalk.ColumnMerge.Fill | src/protocol/snmp/column_walk.go:194-215 | Refills every drained column, for any agent; afterwards every column is done or has something queued |
| ColumnWalk.ColumnMerge.FetchBatches | src/protocol/snmp/column_walk.go:207-213 | Asks in batches of the current width; the first column of the list makes progress, or the walk fails |
| ColumnWalk.ColumnMerge.Fetch | src/protocol/snmp/column_walk.go:217-325 | One fetch keeps every column ordered, bounded and counted, covers an honest agent's instances, keeps every request within the limits, and the first column it asked for makes progress, or the walk fails for cause |
| ColumnWalk.ColumnMerge.Ask | src/protocol/snmp/column_walk.go:238-263 | The tooBig loop ends: after each tooBig answer the same names go out for half the repetitions, at one repetition the request is to be split and the width halved, or a single column goes out as GETNEXT; no batch holds a column that fell back to GETNEXT before |
| ColumnWalk.ColumnMerge.FetchHalves | src/protocol/snmp/column_walk.go:254-261 | A split request does what one request would have done, and the first column of each half makes progress |
| ColumnWalk.ColumnMerge.FetchEach | src/protocol/snmp/column_walk.go:220-229 | A degraded column makes its batch go one column at a time, and every column of it makes progress |
| ColumnWalk.ColumnMerge.Recover | src/protocol/snmp/column_walk.go:309-323 | Every column among those an answer reached has made progress afterwards, by the answer or by being asked again with GETNEXT |
| ColumnWalk.ColumnMerge.Deliver | src/protocol/snmp/column_walk.go:264-323 | An answer distributed and its gaps recovered: every column the answer reached, or every one when it brought nothing, has moved, or the walk fails for cause; without a recovery the next turn starts after the last column the answer reached |
| ColumnWalk.ColumnMerge.Place | src/protocol/snmp/column_walk.go:265-303 | The varbind at a position goes to the column whose turn it is, does to it what one varbind does, and raises the count by one exactly when the column counts it; what is queued stays within the count |
| ColumnWalk.ColumnMerge.Distribute | src/protocol/snmp/column_walk.go:264-304 | Varbinds go to the columns they answer, position by position, however many repetitions came back |
| ColumnWalk.ColumnMerge.Take | src/protocol/snmp/column_walk.go:267-303 | Exactly what one varbind does: leaving the subtree ends the column, an equal or unexpected smaller name fails the walk, a larger one moves the cursor, and only real values are queued; an honest one always moves it |
| ColumnWalk.ColumnMerge.Request | src/protocol/snmp/column_request.go:66-98 | An answer is limited to what was asked for, and an honest one stays honest; the request goes on record with whether it was too big, and only if it may follow the one before |
| ColumnWalk.ColumnMerge.Drained | src/protocol/snmp/column_walk.go:196-203 | Exactly the columns with nothing queued that are not done, in rotating order from the start |
| ColumnWalk.ColumnMerge.Names | src/protocol/snmp/column_walk.go:230-237 | The cursors as request names; an undecodable one fails |
| ColumnWalk.ColumnMerge.SelectIndex | src/protocol/snmp/column_walk.go:153-166 | The least index at the head of any queue |
| ColumnWalk.ColumnMerge.PopRow | src/protocol/snmp/column_walk.go:171-183 | Removes exactly the cells of that index, one from each queue that has it |
| ColumnState.CellsAreUnique | src/protocol/snmp/column_walk.go:171-187 | No (column, index) pair is yielded twice, whatever the agent answers |
| ColumnState.ExhaustedIsComplete | src/protocol/snmp/column_walk.go:164-166 | Rows that are exact up to the last index, and exhausted columns, are the agent's whole view |
| ColumnState.InstancesAreDistinct | src/protocol/snmp/column_walk.go:292-295 | The instances that exceed a budget are distinct, under roots none of which is inside another |
| ColumnState.AppendKeepsColumn | src/protocol/snmp/column_walk.go:285-303 | A varbind taken keeps its column's queue ordered, below the root and within the bound |
| ColumnState.AppendKeepsCover | src/protocol/snmp/column_walk.go:285-303 | Against an honest agent a varbind taken leaves no instance behind the cursor unqueued |
| ColumnState.LeavingMeansExhausted | src/protocol/snmp/column_walk.go:271-281 | An honest answer outside the subtree, or none, means the column has no instance left |
| ColumnState.HonestAdvances | src/protocol/snmp/column_walk.go:282-291 | An honest answer is neither the column's root nor behind its cursor |
| ColumnState.HonestAnswerExists | src/protocol/snmp/column_request.go:66-98 | Over every finite view every name has an honest answer, so the completeness claim is not vacuous |
| ColumnState.RowExtends | src/protocol/snmp/column_walk.go:171-187 | A popped row is ordered after all rows before it |
| ColumnState.RowExact | src/protocol/snmp/column_walk.go:171-187 | A popped row extends the exact account of the view to its index |
| ColumnState.PopKeepsOk | src/protocol/snmp/column_walk.go:172-183 | Popping keeps every column's order and bound with the new last index |
| ColumnState.AdvanceShrinks | src/protocol/snmp/column_walk.go:292-297 | A cursor that moves forward has strictly less left |
| ColumnState.NewRequester | src/protocol/snmp/column_request.go:39-64 | The limits of a walk: refused exactly for options out of range; repetitions, width, budget and the order check each from the options, the session or the default |
| OidRank.RankMonotone | src/protocol/snmp/column_walk.go:285-296 | Encodable identifiers are ranked by a bounded number, in their order: this is why the walk ends without any budget |
| Oids.Compare | src/protocol/smi/model.go:95-95 | The three-way comparison agrees with the strict order and with equality |
| Oids.LessTransitive | src/protocol/smi/model.go:95-95 | The order is transitive |
| Oids.LessTotal | src/protocol/smi/model.go:95-95 | The order is total and never holds both ways |
| Oids.SubtreeContiguous | src/protocol/smi/model.go:85-95 | Everything under one identifier is contiguous in the order |
| Oids.UnderIsLess | src/protocol/smi/model.go:85-95 | A proper prefix comes before everything under it |
| Settlement.TerminalStaysLatest | src/common/service/delivery.go:610-634 | With one record to a subject, recognised by startup, in every run (crashes between broker calls, overlapping redeliveries, lost replies, late requests, startup clean-up) a terminal settlement stored for a record stays the latest on its subject while the record is in the mailbox |
| Settlement.KeepsSettlementsExactly | src/common/service/manifest.go:327-350 | A settlement survives while its record is there, and the retries count up to one terminal settlement, in every run over a set of records exactly when there is at most one and its data unmarshals with the settled message id and target path |
| Settlement.SparesExactly | src/common/service/delivery.go:167-214 | No delivery that reads the subject of a settled record calls the handler, in every run over a set of records, exactly when none of them decodes, or there is at most one and only reads before it leaves count |
| Settlement.UnrecognisedSettledTwice | src/common/service/manifest.go:280-350 | For every record startup does not recognise: its discard is stored, the process crashes before +TERM, startup deletes the settlement of a record that is still there, and the discard is stored again |
| Settlement.SharedSettledTwice | src/common/service/delivery.go:610-634 | For every two records on one subject: the second one's publish is taken for the first one's, it leaves by the first one's settlement and purges it, and that one is stored again |
| Settlement.SpurnedIsNeverHandled | src/common/service/delivery.go:400-454 | A record startup does not recognise is never offered to a handler |
| Settlement.NoReleaseWithoutUuid | src/common/service/delivery.go:582-606 | Under a message id that is not a UUID a stored settlement cannot be read back: a delivery that finds one when it reads the subject ends there, whatever follows |
| Settlement.ResumesExactly | src/common/service/delivery.go:238-249 | For a recognised record: every delivery that reads a terminal settlement of the record in the mailbox goes on to release it, by that settlement's verb, in every run exactly when the message id is a UUID |
| Settlement.StuckWithoutUuid | src/common/service/delivery.go:582-606 | For every record under an id that is not a UUID: its discard is stored, the process crashes before +TERM, and the next delivery reads the settlement and ends, with the record in the mailbox and nothing left to release it |
| Settlement.StuckForGood | src/common/service/delivery.go:582-606 | From there no run ever releases the record or offers it to a handler |
| Settlement.NoHandlerAfterTerminal | src/common/service/delivery.go:167-214 | So a delivery that reads the subject after that, with the record still there, never calls the handler |
| Settlement.LeavesBySettledVerb | src/common/service/delivery.go:264-319 | A record leaves the mailbox only after a terminal settlement for it was stored, by the verb (ack or term) of the first one stored |
| Settlement.LeavesByOwnExactly | src/common/service/delivery.go:264-319 | Every record that leaves does so after a terminal settlement stored for itself, by the verb of the first one, in every run over a set of records exactly when there is at most one |
| Settlement.RetriesCountUp | src/common/service/delivery.go:323-356 | The retry counts stored for a live record run 1, 2, 3, ... without gaps and never pass the limit |
| Settlement.StoredForCause | src/common/service/delivery.go:264-356 | Over every run of any records on a subject: an acknowledgement is stored only if some call of the handler for its record succeeded, the n-th retry only if one failed retryably after n - 1 recorded retries and below the limit, and a discard only if one failed for good, or retryably with the retries used up, or the record was malformed |
| Settlement.HandlerDecides | src/common/service/delivery.go:345-356 | What a handler result comes to: success acknowledges, a retryable failure below the limit is the next retry, one at the limit and every failure for good discards |
| Settlement.RunExplains | src/common/service/delivery.go:264-356 | In every run each delivery that is about to store, and each request in flight, has the handler call it is for |
| Settlement.UuidIs | src/common/service/delivery.go:467-480 | A message id is a UUID exactly as five groups of hexadecimal digits of either case with hyphens between |
| Settlement.SharedSubjectCallsTwice | src/common/service/delivery.go:556-558 | For every two records with one target and message id, the first of which decodes: a run in which the handler is called again for the first while it is in the mailbox with its acknowledgement stored |
| Settlement.LateReadCallsTwice | src/common/service/delivery.go:181-214 | For every record that decodes: a run in which a copy already delivered and read after the release calls the handler again |
| Settlement.StepKeeps | src/common/service/delivery.go:167-344 | Every step of every party keeps the invariant of the protocol, for one record that startup recognises |
| Settlement.SpurnedStepKeeps | src/common/service/manifest.go:327-350 | Every step keeps the invariant of the records startup does not recognise: they are only ever discarded, without a retry, and never handled |
| Settlement.RunKeeps | src/common/service/delivery.go:167-344 | The invariant holds after every step of every run |
| Settlement.HandlingEventsKeep | src/common/service/delivery.go:181-236 | Reading the latest settlement, handling and malformed payloads keep it |
| Settlement.StoreEventsKeep | src/common/service/delivery.go:610-634 | A compare-and-set publish keeps it, also one applied after its caller gave up |
| Settlement.CommitEventsKeep | src/common/service/delivery.go:610-634 | A deduplicated publish, and rereading after an unclear one, keep it |
| Settlement.ReleaseEventsKeep | src/common/service/delivery.go:636-652 | Ack and +TERM keep it, also requests that take effect late |
| Settlement.PurgeEventsKeep | src/common/service/delivery.go:636-652 | Purging the subject after the release keeps it |
| Settlement.RestartEventsKeep | src/common/service/manifest.go:280-350 | Crashes and the deletion of settlements that match no mailbox record at startup keep it |
| Settlement.LoadIsSafe | src/common/service/delivery.go:238-249 | What a delivery makes of the latest settlement agrees with everything stored for its record |
| Settlement.KnownIsSafe | src/common/service/delivery.go:299-344 | What a delivery makes of its own committed settlement agrees with everything stored |
| Manifest.ManifestAdditionCompatible | src/common/service/manifest.go:429-457 | True exactly when the desired manifest is an additive extension of the previous one: same settings, every module path and every module contract kept |
| Manifest.ModuleAdditionCompatible | src/common/service/manifest.go:461-491 | True exactly when every subscription is kept under the first one with its key, with at least its aliases, and nothing else changes |
| Manifest.ContainsAll | src/common/service/manifest.go:493-504 | True exactly when every required value is present |
| Manifest.ReconcileRuntimeManifest | src/common/service/manifest.go:217-274 | Plans the journal records for the current one: nothing, a commit, a prepare and a commit, or a refusal |
| Manifest.ExtendsTransitive | src/common/service/manifest.go:429-491 | Additive extension is transitive |
| Manifest.ExtendsReflexive | src/common/service/manifest.go:429-491 | A manifest without duplicate subscription keys is an extension of itself |
| Manifest.ExtendsItselfExactly | src/common/service/manifest.go:429-491 | Without the configuration's checks a manifest extends itself exactly when each contract agrees with the last one for its path and each subscription is widened by the first one with its key |
| Manifest.CommittedManifestsOnlyGrow | src/common/service/manifest.go:217-274 | Over any sequence of boots, configurations and crashes between PREPARED and COMMITTED every committed manifest extends all earlier ones |
| Manifest.RestartCompletes | src/common/service/manifest.go:217-274 | Restarting with the configuration that crashed after PREPARED ends COMMITTED on it |
| Manifest.RollbackCompletes | src/common/service/manifest.go:217-274 | Restarting with the previous configuration ends COMMITTED on that |
| Manifest.StartIsAllOrPrepared | src/common/service/manifest.go:217-274 | A start that does not crash ends COMMITTED on its configuration or changes nothing |
| Manifest.BootKeeps | src/common/service/manifest.go:217-274 | One boot keeps the journal invariant, wherever it crashes |
| Manifest.ExtensionIsAccepted | src/common/service/manifest.go:217-274 | After a commit a changed configuration is accepted exactly when it extends the committed one, and then ends committed with that one as its predecessor; otherwise the journal stays as it was |
| Manifest.ExtensionOfPreparedIsAccepted | src/common/service/manifest.go:217-274 | The same while the latest record is only prepared: what was committed before stays the predecessor |
| Manifest.FirstIsAccepted | src/common/service/manifest.go:217-274 | The first configuration of all is accepted |
| Manifest.ExtensionKeepsEverything | src/common/service/manifest.go:429-491 | What an extension keeps, field by field: settings, paths, and for every subscription the first one with its kind and type, with as many retries and at least its aliases |
| Manifest.AliasIsAddition | src/common/service/manifest.go:461-491 | An alias added to any subscription of a configuration that passes its checks is an additive extension |
| Manifest.SubscriptionIsAddition | src/common/service/manifest.go:461-491 | So is a subscription put anywhere in a module contract with no other of its kind and type after it |
| Manifest.ModuleIsAddition | src/common/service/manifest.go:429-457 | So is a contract for a new module path |
| Manifest.PathIsAddition | src/common/service/manifest.go:429-457 | So is a module path |
| SupervisorBuffer.UnreadAndOwedBounded | src/common/service/supervisor.go:137-137 | In every reachable state unread results plus results still owed are within a bound: the active slots for one-for-one, twice that for one-for-all, one for each pair of slots for rest-for-one |
| SupervisorBuffer.PublishNeverBlocks | src/common/service/supervisor.go:137-137 | When that bound is within the 2n+1 buffer no child ever waits to publish, nor does the loop when a start fails at once |
| SupervisorBuffer.JoinReturns | src/common/service/supervisor.go:312-346 | And every join of quiesce, stop and stopAll returns: the awaited child gets to publish and close by itself |
| SupervisorStall.RoomyNeverStuck | src/common/service/supervisor.go:312-346 | With a roomy buffer the loop is never stuck in a join |
| SupervisorStall.SmallBufferStalls | src/common/service/supervisor.go:137-137 | Otherwise some run gets stuck, so the condition is exact |
| SupervisorStall.StuckStays | src/common/service/supervisor.go:323-331 | Stuck is for good: no step of anybody gets out of it |
| SupervisorStall.FourSlotsAreTooMany | src/common/service/supervisor.go:137-137 | With every slot active rest-for-one is safe with up to three slots and with no more |
| SupervisorStall.Cascade | src/common/service/supervisor.go:236-283 | Failures from the last slot to the first fill the buffer with one stale result for each pair of slots |
| SupervisorStall.Round | src/common/service/supervisor.go:251-283 | One failure handled: the buffer fills up during quiesce, or every affected child has left one more result and runs again |
| SupervisorBuffer.OneLiveGeneration | src/common/service/supervisor.go:350-437 | At most one generation of a slot is live |
| SupervisorBuffer.RestartAfterAllEnded | src/common/service/supervisor.go:251-281 | A restart starts nothing before every generation it replaces has published and closed |
| SupervisorBuffer.ReturnedIsQuiet | src/common/service/supervisor.go:150-198 | On every exit path the loop returns only with no generation live |
| SupervisorBuffer.ResultsAreConserved | src/common/service/supervisor.go:350-472 | Every generation ever started is still to publish, waits in the buffer once, or was read, and exactly one of these |
| SupervisorBuffer.OnlyNewestActs | src/common/service/supervisor.go:202-208 | A result of a replaced generation or stopped slot is dropped; one that is acted on comes from the newest generation of an active slot |
| SupervisorBuffer.RestartsObeyIntensity | src/common/service/supervisor.go:240-242 | The restarts of a whole run obey the intensity limit in every window |
| SupervisorBuffer.StepKeeps | src/common/service/supervisor.go:150-437 | Every step of the loop and the children keeps the invariant |
| SupervisorBuffer.NewestSlack | src/common/service/supervisor.go:137-137 | A new result finds room for everything that may queue behind it |
| SupervisorBuffer.RestartSlackAt | src/common/service/supervisor.go:251-258 | Acting on a result frees, for every slot it restarts, the place it held |
| SupervisorBuffer.RestartFits | src/common/service/supervisor.go:288-308 | What a restart will owe fits next to what may be unread |
| Supervisor.AffectedIs | src/common/service/supervisor.go:288-308 | The affected slots are exactly the active ones the strategy selects, in declaration order |
| Supervisor.StepKeepsBasic | src/common/service/supervisor.go:150-437 | Every step keeps the account of the generations and the phase of the loop |
| Supervisor.ReceiveKeepsBasic | src/common/service/supervisor.go:164-197 | Deciding on a result keeps it, for every verdict |
| SupervisorVerdicts.StopServesOn | src/common/service/supervisor.go:225-232 | A current result received with the verdict to stop: there is a way on, and it ends with exactly that slot inactive, every other slot and its child as they were, and the loop serving |
| SupervisorVerdicts.StopRetiresOne | src/common/service/supervisor.go:225-230 | At once exactly that slot becomes inactive and the loop joins its child; nothing else changes |
| SupervisorVerdicts.JoiningLeavesAlone | src/common/service/supervisor.go:225-232 | While it joins, only children move, and the join puts the loop back to serving with every slot as it was |
| SupervisorVerdicts.FailReturns | src/common/service/supervisor.go:233-242 | A verdict to give up, or a restart the intensity limit refuses: with a roomy buffer there is a way to return, every slot inactive and no child live, without any new generation |
| SupervisorVerdicts.FailShutsDown | src/common/service/supervisor.go:233-242 | At once no slot changes and every active one is to be joined |
| SupervisorVerdicts.ShutdownStays | src/common/service/supervisor.go:335-346 | A shutdown is for good in every run: nothing is started and slots only become inactive |
| SupervisorVerdicts.ShutdownReturns | src/common/service/supervisor.go:335-346 | From every shutdown the loop can go on to return, with every slot inactive and no child live |
| SupervisorVerdicts.RestartReplaces | src/common/service/supervisor.go:240-283 | When the loop serves again after an admitted restart, in every run, exactly the active slots the strategy selects run one new generation each and all others are as they were |
| SupervisorVerdicts.RestartQuiesces | src/common/service/supervisor.go:240-258 | An admitted restart first waits for exactly the active slots the strategy selects, in declaration order |
| SupervisorVerdicts.RestartStep | src/common/service/supervisor.go:251-283 | Every step until then keeps the account of what has been started |
| Policy.RollingBudget.TryConsume | src/common/service/policy.go:187-199 | Drops the decisions outside the window and admits one more exactly when fewer than the limit are left |
| Policy.RollingBudget.Reset | src/common/service/policy.go:201-203 | Forgets all decisions |
| Policy.WindowHoldsAtMostMax | src/common/service/policy.go:187-199 | Over any nondecreasing times no window of the configured length holds more than the limit |
| Policy.RefusedOnlyWhenFull | src/common/service/policy.go:187-199 | A decision is refused only when the limit was admitted in the window just past |
| Policy.PlaySpaced | src/common/service/policy.go:187-199 | The recorded decisions are always the last admitted ones, and admissions a limit apart are a window apart |
| Policy.ExponentialBackoff | src/common/service/supervisor.go:807-819 | The initial delay doubled and capped, exactly, except that one short of an odd maximum is rounded up to it |
| OidResolver.Resolver.OidOf | src/protocol/smi/resolve.go:334-352 | Terminates and returns the meaning of a declaration, whatever was asked before; memoized answers are never wrong; an identifier is spelled arc by arc by a chain of declarations from this one to a root |
| OidResolver.Resolver.FirstTime | src/protocol/smi/resolve.go:334-352 | A declaration asked for the first time is marked, computed and memoized |
| OidResolver.Resolver.Compute | src/protocol/smi/resolve.go:354-401 | The base of the first arc extended by the numbered arcs that follow, within the length limit |
| OidResolver.Resolver.TrapOid | src/protocol/smi/resolve.go:439-467 | A trap is its enterprise's identifier and the suffix, and needs an enterprise that counts as resolved |
| OidResolver.Resolver.ArcBase | src/protocol/smi/resolve.go:410-434 | A number, a well-known root, or the declaration the name refers to |
| OidResolver.Resolver.LookupDecl | src/protocol/smi/resolve.go:270-300 | The own declaration, else the first import that supplies the name, else the first other loaded module |
| OidResolver.EmptyExactlyWhen | src/protocol/smi/resolve.go:334-467 | A declaration gets no identifier exactly when its parents lead to something undefined or malformed or back to themselves, the identifier would be too long, or a trap on the way has an unresolved enterprise |
| OidResolver.ResolvedExactlyWhen | src/protocol/smi/resolve.go:334-401 | It counts as resolved exactly when a chain within the limit leads to a root and no declaration on it was withheld |
| OidResolver.MeaningStep | src/protocol/smi/resolve.go:354-467 | One declaration is worth its base extended by its arcs |
| OidResolver.MeaningIsSpelled | src/protocol/smi/resolve.go:363-467 | Position by position, along the chain of every declaration that has an identifier: a value of n arcs over a base of length m gives m + n - 1 arcs that start with the base and go on with the numbers of the value in order; a trap appends its suffix in order; at the root the first arc is the number or the well-known root |
| OidResolver.ChainSpells | src/protocol/smi/resolve.go:363-467 | The same for the identifier of any chain |
| OidResolver.KnownRootsAre | src/protocol/smi/resolve.go:314-326 | The well-known roots and their numbers |
| OidResolver.CycleMeansNothing | src/protocol/smi/resolve.go:337-341 | A declaration that reaches itself gets no identifier |
| OidResolver.ChainIsUnique | src/protocol/smi/resolve.go:354-434 | A declaration has at most one chain to a root |
| OidResolver.WithheldEnterpriseLosesTrap | src/protocol/smi/resolve.go:452-455 | A trap under a withheld enterprise gets nothing although its chain is sound, where an ordinary child gets its identifier |
| ImportOrder.Orderer.Order | src/protocol/smi/resolve.go:218-260 | Lists every module once, every import that is not marked before its importer; marks only imports that close a cycle |
| ImportOrder.Orderer.Visit | src/protocol/smi/resolve.go:228-251 | Terminates, and a visited module is listed after everything it imports by unmarked imports |
| ImportOrder.NoMarksIffAcyclic | src/protocol/smi/resolve.go:218-260 | No import is marked exactly when the imports have no cycle |
| ImportOrder.UnmarkedNeverReturns | src/protocol/smi/resolve.go:218-260 | Following unmarked imports only leads to earlier modules |
| ImportOrder.BackEdgeCloses | src/protocol/smi/resolve.go:241-244 | An import of a module still being visited closes a cycle |
| OidForest.Forest.PlaceNodes | src/protocol/smi/resolve.go:1298-1342 | Each contested identifier goes to the first claimant of greatest strength, each node hangs below its nearest registered ancestor, and the preorder walk of the roots is the sorted list of registered nodes |
| OidForest.Forest.RegisterAll | src/protocol/smi/resolve.go:1301-1320 | Every identifier claimed is registered with its winner |
| OidForest.Forest.LinkAll | src/protocol/smi/resolve.go:1322-1341 | Parents, children and roots after all claimants were placed in order |
| OidForest.Forest.Place | src/protocol/smi/resolve.go:1324-1341 | One node's parent, and its place among the children or the roots when it is registered |
| OidForest.Forest.FindParent | src/protocol/smi/resolve.go:1327-1336 | The nearest registered proper prefix |
| OidForest.SettledWins | src/protocol/smi/resolve.go:1362-1373 | The settlement of a collision keeps the first of the strongest claimants |
| OidForest.UpIs | src/protocol/smi/resolve.go:1327-1336 | A parent is a registered proper prefix with no longer one beside it; without one there is none |
| OidForest.WinnerByKind | src/protocol/smi/resolve.go:1379-1388 | Who wins, by kind: the first object if an object claims the identifier, else the first bare registration, else the first claimant |
| OidForest.WalkIsInOrder | src/protocol/smi/resolve.go:1322-1341 | The preorder walk of the linked forest lists the registered nodes once each, in increasing order |
| OidForest.BlockWalk | src/protocol/smi/resolve.go:1322-1341 | So does the walk of every run of whole subtrees below a node |
| OidForest.PlacementRanked | src/protocol/smi/resolve.go:1322-1325 | The registered nodes in placement order are exactly the register, strictly increasing |
| OidForest.SortByOid | src/protocol/smi/resolve.go:1322-1322 | The sort by identifier is an ordered rearrangement |
| OidForest.Forest.Classify | src/protocol/smi/resolve.go:1417-1438 | Every node's final kind is read off its own declaration and its parent's final kind |
| OidForest.KindsAreUnique | src/protocol/smi/resolve.go:1430-1438 | That determines all kinds, whatever order they are computed in |
| OidForest.ClassifiedIs | src/protocol/smi/resolve.go:1417-1438 | Only scalars are reclassified: below a table a row, below a row a column |
| Augments.Linker.LinkAll | src/protocol/smi/resolve.go:1513-1522 | Whatever the visiting order, every table whose AUGMENTS chain ends has the key of the chain's last table, and every resolvable clause is linked |
| Augments.Linker.LinkAugments | src/protocol/smi/resolve.go:1574-1594 | One table's link keeps that, terminates on cycles too |
| Augments.EndIsUnique | src/protocol/smi/resolve.go:1574-1594 | A chain has one end |
| Augments.EndsAtExactly | src/protocol/smi/resolve.go:1574-1594 | A chain ends at a table exactly when some sequence of tables leads there, each augmenting the next and the last with a key of its own |
| Pump.NoSendOnClosedChannel | src/common/pump/pump.go:110-154 | In every interleaving no sender is at a closed channel, and no channel is closed twice |
| Pump.NothingAfterClose | src/common/pump/pump.go:110-117 | Nothing is put into the channel once it is closed |
| Pump.ValuesConserved | src/common/pump/pump.go:128-219 | First in, first out: what was taken out followed by what is buffered is what was put in; a call put its value in exactly when it reports it delivered; the buffer keeps within its capacity |
| Pump.DropsReported | src/common/pump/pump.go:177-219 | The drops callers of the drop-oldest send were told of are exactly the values taken out to make room and those that found none |
| Pump.FirstErrorKept | src/common/pump/pump.go:224-246 | The error kept is the first one any Fail recorded |
| Pump.HolderLeaves | src/common/pump/pump.go:110-154 | Once stopped, whoever holds the read lock can leave by itself, so closing is never blocked for good |
| Pump.StepKeeps | src/common/pump/pump.go:102-254 | Every step of senders, closers and consumers keeps the invariant |
| Pump.StepKeepsLocks | src/common/pump/pump.go:110-154 | Lock holders, the closing once and the stop signal stay consistent |
| PumpCalls.TrySendAlone | src/common/pump/pump.go:177-219 | A drop-oldest call nobody interrupts: with room it delivers and drops nothing; on a full buffer it delivers its value, takes out exactly the oldest and reports one drop; without a buffer it loses its value and says so; on a stopped pump it does nothing |
| PumpCalls.TrySendReturns | src/common/pump/pump.go:177-219 | Such a call can always go through to its return |
| PumpCalls.SendAlone | src/common/pump/pump.go:128-154 | A blocking send nobody interrupts delivers exactly when the pump is neither stopped nor its context cancelled, and then there was room; otherwise it changes nothing and stops the pump |
| PumpCalls.SendReturns | src/common/pump/pump.go:128-154 | With room such a call can always go through to its return |
| PumpCalls.ReturnMeans | src/common/pump/pump.go:177-219 | In every interleaving: a call reports delivered with its value put in, and one drop exactly when it had taken one out; one that reports drops without delivering found the buffer full again after draining |
| PumpCalls.ReturnIsKept | src/common/pump/pump.go:177-219 | What a call reports is what it decided while it held the lock |
| PumpCalls.DrainTakesOldest | src/common/pump/pump.go:194-207 | Before it retries a call has taken the oldest value out, or found the buffer empty |
| PumpCalls.CloseReturns | src/common/pump/pump.go:102-117 | A close nobody holds up signals stop and closes the channel, leaving what is buffered to be read |
| PumpCalls.FailRecords | src/common/pump/pump.go:224-246 | A fail records its error unless there is one, and goes on to close |
| Merge.NoSendOnClosedChannel | src/common/pump/merge.go:31-62 | No forwarder is at the closed merged channel |
| Merge.ClosesAfterForwarders | src/common/pump/merge.go:119-137 | On its normal path the coordinator closes the merged pump only after every forwarder reported and every report was read |
| Merge.SourceOrderKept | src/common/pump/merge.go:31-62 | Each source's values come out in its order, without gaps |
| Merge.NilEndIsExact | src/common/pump/merge.go:121-137 | A merge that ends nil and was not stopped or failed by its owner is an exact interleaving of all its sources |
| Merge.FirstFailureWins | src/common/pump/merge.go:88-118 | Left alone and not cancelled it ends with the first failure read, and with one exactly when a forwarder reported one |
| Merge.ReportNeverBlocks | src/common/pump/merge.go:24-24 | The report channel always has room |
| Merge.StopForwardersClosedOnce | src/common/pump/merge.go:102-104 | The forwarders' stop channel is closed at most once |
| Merge.SourcesAreTold | src/common/pump/merge.go:71-146 | When the merge is over, failed or not, its sources were told to stop or all of them ended and everything was delivered, in every run whose owner, if it records an error in the running merge, has signalled stop before |
| Merge.SourcesAreToldExactly | src/common/pump/merge.go:71-146 | The sources are told in all runs, exactly when the owner may not record an error before it signals stop, or there are no sources |
| Merge.OwnerFailureLeavesSources | src/common/pump/merge.go:84-104 | For every number of sources: an owner that records its error first, and forwarders that panic before it signals stop, let the merge end with no source told and every source still producing |
| Merge.StepKeeps | src/common/pump/merge.go:17-150 | Every step of sources, forwarders, coordinator and owner keeps the invariant |
| MergeEnds.FailureStopsOthers | src/common/pump/merge.go:88-118 | Once the coordinator has read that a source failed, every source was told to stop and the other forwarders or the whole merged pump with them, unless the owner recorded an error before; left alone and not cancelled the terminal error is the first failure read |
| MergeEnds.ToldForCause | src/common/pump/merge.go:71-146 | The sources are told only when the merge is stopping |
| MergeEnds.AtMostOneMore | src/common/pump/merge.go:31-62 | Once the forwarders are being stopped each source gets at most one more value through, in every run; once the pump is stopped only a value that is being put in |
| MergeEnds.MergeCanEnd | src/common/pump/merge.go:119-137 | From every reachable state of a merge that was stopped or cancelled, or whose sources all ended, its own steps lead to its end, with every forwarder done and the merged pump closed |
| MergeEnds.AnnouncedExactly | src/common/pump/merge.go:84-104 | An owner that records no error, or whose merged pump was stopped before, meets the condition under which the sources are told |
| CaptureEngine.Engine.Run | src/modules/capture/engine.go:199-406 | Whatever the consumer reads between and inside sends: accepted packets equal those with the consumer, in the pump, in the open batch, counted as dropped by transport (up to the charges that reads inside sends put off, none when there are none) or offered after the consumer stopped the pump; packets and bytes stay within the budget, by at most one packet more for bytes; the packets accepted are exactly those that arrived, each under its number and cut to the snap length, up to the first event that ends the run; the batches sent hold them in order, and those the consumer got are stretches of them; the run ends with a packet that reaches a bound, a failure, a stop or the end of its time, each with its own reason, and goes on after everything else; packets queued behind the event count as dropped exactly when a bound was reached; the lifecycle is the one of the reason, and exactly the last batch of a run that did not fail is final |
| CaptureEngine.Engine.Conserved | src/modules/capture/engine.go:256-338 | That account, in every state of the loop |
| CaptureEngine.Engine.Step | src/modules/capture/engine.go:280-364 | One turn of the loop, or one read of the consumer, keeps the account; exactly a reached bound, a failure or a stop signal ends the run, each with its reason; a flush tick empties the open batch |
| CaptureEngine.Engine.Loop | src/modules/capture/engine.go:278-364 | The loop handles the events up to the first that ends it, for that one's reason, or all of them, and accepts exactly the packets among them |
| CaptureEngine.EndsAtFirstIs | src/modules/capture/engine.go:280-364 | Which event ends a run for which reason and which let it go on, and whose queued packets count as dropped, event by event |
| CaptureEngine.LogIs | src/modules/capture/engine.go:411-428 | The log holds the packets that arrived, each at the position of its arrival, and nothing else |
| CaptureEngine.Engine.Accept | src/modules/capture/engine.go:305-335 | One packet is truncated, numbered and batched; exactly a reached bound stops the loop, and counts what was queued; the batch goes out exactly when it has reached 256 records |
| CaptureEngine.Engine.Flush | src/modules/capture/engine.go:256-277 | The open batch goes out with the counters as they are, and the next one starts where it ended |
| CaptureEngine.Engine.Finish | src/modules/capture/engine.go:366-405 | The trailing batch is final unless the run failed; the last drops are folded into the state |
| CaptureEngine.Engine.ApplyDropAccounting | src/modules/capture/engine.go:465-489 | The mirror and the pending drops after one send, for every outcome of it |
| CaptureEngine.Engine.DrainNonBlocking | src/modules/capture/engine.go:433-445 | The queued frames that name a packet |
| CaptureEngine.SendOutcome | src/common/pump/pump.go:191-218 | Whatever the consumer reads inside a send, the send delivers, the mirror stays in step, and the charge exceeds what was evicted by the difference between the oldest batch found and the oldest one left |
| CaptureEngine.UndisturbedSend | src/common/pump/pump.go:191-218 | A send the consumer does not disturb: with room it drops nothing, else it takes the place of exactly the oldest batch and reports one drop |
| CaptureEngine.ChargedExactly | src/modules/capture/engine.go:465-489 | The charge is exact if and only if the consumer emptied the buffer inside the send, or left at its front a batch as large as the one that was there; so always when it read nothing before the drain |
| CaptureEngine.MirrorsEvict | src/modules/capture/engine.go:465-489 | After an eviction the mirror, one entry shorter at the front, still ends with what is buffered |
| CaptureEngine.ReadInsideSendMischarges | src/common/pump/pump.go:191-218 | Every mischarge happens: after eight undisturbed sends of any sizes, a consumer that reads k batches inside the ninth makes it charge the first size and evict the one after the k |
| CaptureEngine.TakenAreStretches | src/modules/capture/engine.go:256-277 | Each batch the consumer got is a stretch of at most 256 packets of the capture, starting where it says, and none begins before the one before it ended |
| CaptureEngine.ContiguousSend | src/modules/capture/engine.go:256-277 | Sent batches are contiguous, at most 256 records each, numbered in sequence |
| RowWatch.Watcher.Run | src/protocol/gnmi/watch.go:131-189 | After every notification once synced the consumer's fold of the events has exactly the tracked rows, each equal to the decoded tree; the tracked rows are the replay of all updates and deletes, and there is a trace of them, change by change, that does to the trees exactly what each change asks for, in terms of what is read from them; every event is legal when it is sent; the watch fails only over an update no row can take or a document the codec refuses |
| RowWatch.ReplayFollows | src/protocol/gnmi/watch.go:131-189 | The replay, change by change from no rows at all: the updates of each notification, then its deletes, none for the one that ends the initial state |
| RowWatch.DeletedIs | src/protocol/gnmi/rows.go:148-179 | One delete at the store: inside a row nothing is read where it was (unless an equal entry takes the place), everything apart from it and the members beside it are read as before, and every other row is unchanged; a whole row, or all of them, is gone |
| RowWatch.UpdatedIs | src/protocol/gnmi/rows.go:109-146 | One update at the store: inside a row the value is read back where the keys allow it and everything apart from it is read as before; a whole-row update leaves exactly the members of the value and the keys; every other row is unchanged |
| RowWatch.KeyFoldExactly | src/protocol/gnmi/watch.go:200-222 | A consumer that files rows under the codec's key has exactly the rows after every event if and only if no event changes its row's key or gives two rows one key |
| RowWatch.Watcher.Notify | src/protocol/gnmi/watch.go:139-184 | One notification keeps the consumer in step, with at most one event per row |
| RowWatch.Watcher.ApplyBatch | src/protocol/gnmi/watch.go:157-180 | A batch is applied exactly: all its updates, then all its deletes; it fails exactly for an unfit update, changes only affected rows and removes only the removed ones |
| RowWatch.Watcher.ApplyUpdates | src/protocol/gnmi/watch.go:159-168 | The updates of a batch in order, up to the first that does not fit |
| RowWatch.Watcher.ApplyDeletes | src/protocol/gnmi/watch.go:169-180 | The deletes of a batch in order; a removed row is no longer affected |
| RowWatch.Watcher.EmitBatch | src/protocol/gnmi/watch.go:193-225 | The batch's events bring the consumer in step: one at most per affected or removed row |
| RowWatch.Watcher.EmitRemoved | src/protocol/gnmi/watch.go:194-203 | Rows that are gone are removed if the consumer holds them |
| RowWatch.Watcher.EmitAffected | src/protocol/gnmi/watch.go:204-224 | Affected rows are added when new and modified when they differ |
| RowWatch.Watcher.EmitRow | src/protocol/gnmi/watch.go:204-223 | One row: added, modified, or nothing to say |
| RowWatch.Watcher.Tell | src/protocol/gnmi/watch.go:200-220 | What the consumer holds after an event is what the watcher recorded |
| RowWatch.RowStore.ApplyUpdate | src/protocol/gnmi/rows.go:109-144 | One update replaces or changes exactly its row's tree, creating it with its keys, and does to it what is read back afterwards; it is refused exactly when no row can take it |
| RowWatch.UnfitExactly | src/protocol/gnmi/rows.go:109-143 | Whether an update can be taken does not depend on the rows |
| RowWatch.RowStore.ApplyDelete | src/protocol/gnmi/rows.go:148-179 | One delete removes a part of a row, a row, or all of them, and says which; what is read afterwards is stated apart from how it is removed |
| RowWatch.UnwrapWrapRow | src/protocol/gnmi/rows.go:213-233 | The document holds the row's tree where its level chain says, the keys of every ancestor included; a single row without keys is a bare object |
| RowTree.SetThenGet | src/protocol/gnmi/rows.go:278-341 | What was set is read back exactly when the path and the value leave the text of the keys unchanged, so always at a leaf that is no key; a path may also end at a list entry, which then holds the merged object |
| RowTree.ReadBackExactly | src/protocol/gnmi/rows.go:278-341 | The same for every path, also through a container that is a key: exactly when every entry on it keeps its keys, or one that loses them is followed by another with the same keys that held the value already |
| RowTree.SetRefusedExactly | src/protocol/gnmi/rows.go:285-296 | A set is refused exactly for a value that is not an object at a list entry |
| RowTree.RenamedKeyIsLost | src/protocol/gnmi/rows.go:278-341 | In every tree, a leaf that changes the key of its entry is not read back |
| RowTree.DeleteMissing | src/protocol/gnmi/rows.go:366-391 | Deleting what is not there changes nothing |
| RowTree.DeleteThenGet | src/protocol/gnmi/rows.go:366-391 | What was deleted is not read back, except when an entry went, or lost a key, and another with the same keys follows it |
| RowTree.DeletedExactly | src/protocol/gnmi/rows.go:366-391 | The same for every path, decided on the tree as it was |
| RowTree.SetLeavesOthers | src/protocol/gnmi/rows.go:278-306 | A set leaves the members beside its path alone |
| RowTree.SetFrame | src/protocol/gnmi/rows.go:278-326 | A set leaves everything that could be read at a path apart from it as it was, as long as the entries it goes through keep their keys |
| RowTree.DeleteFrame | src/protocol/gnmi/rows.go:366-391 | A deletion leaves everything read at a path apart from it as it was |
| RowTree.DivergeExactly | src/protocol/gnmi/rows.go:278-391 | Two paths are apart exactly when they agree up to some segment and differ there |
| RowTree.ApartExactly | src/protocol/gnmi/rows.go:309-341 | Two keyed segments of one name differ exactly when no list entry matches both |
| RowTree.KeyText | src/protocol/gnmi/rows.go:328-355 | A key is compared with a string itself, the word of a truth value, or the JSON text of anything else |
| RowTree.EntryFoundAgain | src/protocol/gnmi/rows.go:309-326 | An entry found or made is the one its keys address |
| Ber.AllRoundTrip | src/protocol/snmp/ber.go:169-190 | Any concatenation of encoded TLVs is read back as the same list |
| Ber.TlvRoundTrip | src/protocol/snmp/ber.go:169-190 | One TLV is read back exactly when its tag is a low one and its content is shorter than 2^32 |
| Ber.LengthRoundTrip | src/protocol/snmp/ber.go:114-159 | A length is read back exactly when it is below 2^32 |
| Ber.LengthWithin | src/protocol/snmp/ber.go:114-140 | A length that parses is below 2^32 and its field lies within the buffer |
| Ber.ParsedWithin | src/protocol/snmp/ber.go:169-190 | A TLV that parses lies within the buffer |
| Ber.IntRoundTrip | src/protocol/snmp/ber.go:216-231 | Every 64-bit signed integer is read back, from a minimal encoding |
| Ber.MinimalIsShortest | src/protocol/snmp/ber.go:409-428 | No encoding of the same integer is shorter |
| Ber.UintRoundTrip | src/protocol/snmp/ber.go:240-256 | Every 64-bit unsigned integer is read back, as unsigned and as signed, from a minimal encoding |
| Ber.Base128RoundTrip | src/protocol/snmp/ber.go:303-321 | A sub-identifier is read back exactly when it is below 2^32 |
| Ber.Base128Minimal | src/protocol/snmp/ber.go:503-518 | A sub-identifier does not start with a bare continuation octet |
| Ber.OidRoundTrip | src/protocol/snmp/ber.go:264-297 | A valid identifier is read back exactly when it does not have a single arc and its first two arcs fold below 2^32 |
| Ber.SingleArcLost | src/protocol/snmp/ber.go:489-493 | A single arc comes back with a second one |
| Ber.SentIsDecoded | src/protocol/snmp/ber.go:264-297 | What is read back from any sequence of sub-identifiers: the identifier whose fold they are, or an error exactly for one that is too long or too large |
| Ber.KnownIdentifiers | src/protocol/snmp/ber.go:484-500 | Encodings of known identifiers, one of them the example of X.690 |
| Ber.KnownIntegers | src/protocol/snmp/ber.go:216-231 | Values of known contents |
| Ber.KnownLengths | src/protocol/snmp/ber.go:145-159 | Encodings of known lengths, short and long form |
| BerCodec.ReadLength | src/protocol/snmp/ber.go:114-140 | The loop computes the length field's meaning |
| BerCodec.AppendLength | src/protocol/snmp/ber.go:145-159 | The scratch buffer holds the fewest octets |
| BerCodec.ReadTlv | src/protocol/snmp/ber.go:169-190 | Reads one TLV with every bound checked first |
| BerCodec.AppendTlv | src/protocol/snmp/ber.go:392-396 | Tag, length and content |
| BerCodec.DecodeSignedInt | src/protocol/snmp/ber.go:216-231 | The two's complement value, without overflow of the accumulator |
| BerCodec.IntOctets | src/protocol/snmp/ber.go:409-424 | The minimal octets, stripped by sign |
| BerCodec.AppendInt | src/protocol/snmp/ber.go:409-428 | The INTEGER TLV of those |
| BerCodec.DecodeUnsignedInt | src/protocol/snmp/ber.go:240-256 | The value when it is below 2^64, an error exactly when it is not, whatever the padding |
| BerCodec.UintOctets | src/protocol/snmp/ber.go:437-455 | The octets without leading zeros, and one zero when the sign bit would show |
| BerCodec.AppendUint | src/protocol/snmp/ber.go:435-456 | The TLV of those |
| BerCodec.ReadSubId | src/protocol/snmp/ber.go:303-321 | One sub-identifier, the accumulator checked before it can overflow |
| BerCodec.AppendBase128 | src/protocol/snmp/ber.go:503-518 | One sub-identifier in the fewest octets |
| BerCodec.DecodeOidContent | src/protocol/snmp/ber.go:264-297 | The identifier the content means, unfolded and validated |
| BerCodec.EncodeOidContent | src/protocol/snmp/ber.go:484-500 | The content of an identifier |

## Left out

- ColumnWalk.ColumnMerge.Run: non-minimal sub-identifier encodings on the wire are not modelled; cells are grouped by equal suffix bytes in the source, by equal suffixes here.
- ColumnWalk.ColumnMerge.Request: the transport is a function of the request number and the request, and closing a walk from another goroutine is the cancellation oracle.
- ColumnWalk.WalkColumns: the bound on the queues is the merge's own and is not repeated here, where the merge is gone.
- The columns of a walk are values in a sequence the walk reassigns, so aliasing between a queue and a response buffer is not captured.
- Settlement: delays before a retry and progress signals; of message decoding only what identifies a record, and the rest is one flag of the record, so the types and handlers a process knows are the same in every run of it.
- Settlement: a settlement may be stored although the broker still knows its message id, which allows more runs than the broker does.
- Settlement.TerminalStaysLatest: assumes that a confirmed ack or +TERM removes the record and that the expected last sequence is checked atomically.
- Manifest: checksums of journal records and the store's provenance file.
- Supervisor: the per-outcome restart budgets and backoff counters of a slot are a verdict of the environment; delays are not timed and a wait that fails is a step to stopAll.
- Supervisor: telemetry, admission state, gate snapshots and nested supervisors, beyond a start that fails at once.
- OidResolver.Resolver.OidOf: the text naming what did not resolve, which for a cycle depends on what was asked first, and the missing-import diagnostics; the text of a value is parsed already.
- ImportOrder.Orderer.Order: modules are numbered in gathered order, where their names are unique.
- OidForest.SortByOid: the order of equal identifiers is not stated; nothing built from it depends on it.
- OidForest: nodes refer to each other by number in sequences of the forest's own, where the source uses pointers; the columns assembled for a table are not built.
- Augments.Linker.LinkAll: tables on an AUGMENTS cycle, whose keys depend on the visiting order.
- Pump: the priority of waiting writers over new readers; an unbuffered channel is a hand-off.
- Merge: the forwarder is taken to be the only reader of its source, and the merged pump's buffer always has room; a blocked send is a step not taken.
- Merge: the owner closing the merged pump before signalling stop.
- CaptureEngine.Engine.Run: source statistics, timestamps and the mirror envelope; counters do not wrap.
- CaptureEngine: the consumer may read between any two attempts of a send, but stops the pump only between sends, where the attempts left over do not look; the frame channel is open when it is drained without blocking.
- RowWatch.Watcher.Run: events carry the row's identity, by which the consumer folds; the source's carry the codec's key, for which RowWatch.KeyFoldExactly says when that is the same.
- RowWatch: how a wire path is matched to a level chain, and the order of events within a batch; rows are identified by their level chain rather than by its rendering, which does not escape brackets.
- RowTree: trees are values; the source changes nested maps and arrays in place. How a number or container is written as JSON text is any function.
- Ber: IP addresses, wrapped real numbers, and the depth limit for nested sequences.
- Sockets, HTTP, gRPC, SSH, TLS, file locks, key files, telemetry, NETCONF, RESTCONF, secrets, tenants, the YANG package, the SMI lexer and parser, and the frontend: input and output, or only easy members beside these.
