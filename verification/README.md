# Verified models of the Agent Protocols implementations

Dafny models of the parts of the Agent Protocols SDKs whose promises no finite set of examples can settle, with
proofs of those promises over all inputs, all runs and all reachable states. `dafny verify dfyconfig.toml` checks
the whole project.

| files | what they model |
|---|---|
| `Common`, `Text` | result types, integer bounds, splitting, joining and decimal rendering |
| `KnowledgeEvents`, `KnowledgeStore` | knowledge events and their target rules; the repository with its `by_seq` index and its checkpoint-bound cursors |
| `KnowledgeTraversal`, `KnowledgeCursors` | paged queries interleaved with mutations, consecutive polls, dependency closure; which queries and cursors are answered |
| `KnowledgeTracker`, `KnowledgeEnumeration` | the client: page validation and the tracker that joins pages; exactly which pages it joins |
| `KnowledgeScanStore` | the TypeScript repository, which scans instead of indexing |
| `KnowledgeLifecycle`, `KnowledgeReport` | the materialized view of a known set, its convergence between replicas, and its sorted report |
| `NonceReplay` | the nonce cache with expiry and the live-write window |
| `MailRelay`, `MailRelayRuns`, `MailMailboxes`, `MailListing` | the relay's mailboxes, quotas, tombstones and snapshots; whole runs of them; the life of one mailbox; paged lists under interference |
| `MailInbox`, `MailFraming` | the recipient's screening and deduplication; length-prefixed padded frames |
| `Base64Url`, `AgentUrl` | the canonical codec; Agent URL parsing and formatting |
| `PortablePattern`, `PatternGrammar` | the portable pattern scanner, and the grammar it decides |
| `RoomEvents`, `RoomArchive`, `RoomReplay`, `RoomTypes`, `RoomRedaction` | record classes, hash-chained archives and redaction, the type registry and what declarations leave in it, the history replay, and what a redaction costs it |
| `Delegation`, `DelegationHistory`, `DelegationReplay` | principal documents, authority, the auditor's replay and the relying party's check; what a replayed history is, record by record |

Objects that the source updates in place are classes whose methods are tied to functions on the value they hold;
the lemmas are about those functions, so they hold of every method. Loops of the source are loops here, proved
against those functions. Signatures, hashes, canonical JSON, origins and local policy are parameters, and a lemma
that needs more of one says so in a `requires`: an injective record hash (`RoomArchive.Injective`), a packet hash
that binds its packet (`MailRelay.HashBinds`) or its event (`KnowledgeLifecycle.HashBinds`), a query digest without a
dot (`KnowledgeStore.DigestIsText`) that binds its query (`KnowledgeCursors.DigestBinds`), canonical JSON that keeps
what a grant says (`DelegationReplay.CanonicalBinds`).

What holds of the repositories' central promises:

- A paged query is exact under any interference between its pages, and a cursor is answered for the query it was
  issued for and for no other. A tracker accepts a sequence of pages exactly when each is genuine and all together are
  one enumeration, whoever served them.
- Only the author of an event retracts or supersedes it, in any known set and in a repository after any run.
- A mail relay enqueues a packet id at most once as long as its clock does not step back. Under any clock, a packet
  stored before is stored again exactly when a prune has forgotten it since it was last stored and everything else
  about the delivery is in order; that prune read a time at or past its expiry, and the delivery an earlier one.
- A mailbox ends only in a prune that finds its card, its packets and its tombstones over. While it lasts its owner
  never changes, and only the owner lists its packets or takes one before its expiry.
- Following the cursors of a packet list skips no packet that was there at the beginning and that neither its owner
  nor its expiry took, whatever else happens to the relay, restarts included.
- A live-write service is free of replays exactly when a nonce is remembered for two windows, and an actor whose
  nonces rise is never refused.
- A delegation history replays exactly when each of its records, taken by itself, stands after the last grant before
  it; so a credential never changes its id, its principal or its agent. A successful audit of a delegation history implies the relying party's check, and retiring a key leaves authorised
  exactly what precedes the retirement.

## Where the code does less than its documentation says

Each of these is stated with the exact condition under which the promise holds.

- Mail framing accepts contents of 1048573 to 1048576 bytes, whose frames no receiver opens
  (`MailFraming.UnframeUndoesFrameIff`; packages/agent-protocols/src/mail.ts:436-452).
- The type schema profile (section 12.3.1 of docs/protocols/agent-discourse/1.0.md) allows any portable body with
  outer anchors. The validator takes a final `\$` for an escaped dollar even when the backslash is itself escaped, and
  so refuses, for example, `\\$` (`PatternGrammar.ValidatorAcceptsIff`).
- The inbox says that it deduplicates messages. Under a steady clock an accepted message is accepted again exactly
  when another acceptance of it began before the message expired and finished behind a prune past its expiry
  (`MailInbox.AcceptedAgainIffStalled`, `MailInbox.StalledDecryptionAcceptsTwice`).
- Pruning leaves a retained set dependency-closed only when nothing retained depends on the pruned event
  (`KnowledgeTraversal.PruneKeepsClosureIff`).
- The two repositories check a submission in different orders. Their answers differ exactly when the service clock is
  bad and the envelope is invalid or already retained (`KnowledgeScanStore.SubmissionsDifferIff`).
- After the first redaction a history replay checks envelopes only (`RoomRedaction.OnlyTheEnvelopeIsChecked`). So the
  next record of a replayed history is certain to be anchored exactly when nothing before it is redacted
  (`RoomRedaction.AnchorsHoldIff`); certain to be fresh exactly then, or when only the genesis has advanced the head
  (`RoomRedaction.FreshnessHoldsIff`); and certain to keep the kind of every type exactly then, or when the room has
  none (`RoomRedaction.KindsHoldIff`). `RoomRedaction.StaleMessageBehindARedaction` and
  `RoomRedaction.KindChangesBehindARedaction` are whole histories that break these rules. The head stays recomputable
  nevertheless (`RoomReplay.HeadIsRecomputable`).

## Model

| member | source | states |
|---|---|---|
| KnowledgeEvents.CheckDependenciesDecides | crates/agent-protocols/src/knowledge/mod.rs:233-280 | the missing-targets pass followed by the target-rule pass accepts exactly the events whose every link has a retained, allowed target; `CheckedIff` says which targets those are |
| KnowledgeEvents.FitsIff | crates/agent-protocols/src/knowledge/mod.rs:233-280 | the links that are allowed, payload by payload: an answer addresses a question, a test a hypothesis, an assessment, an extension or a collection a publication; only its own author, with a larger nonce, supersedes a publication or retracts an event, and nothing points at a retraction |
| KnowledgeEvents.CheckedIff | crates/agent-protocols/src/knowledge/mod.rs:233-280 | an event passes exactly when its targets fit in that sense; otherwise the error lists exactly the missing targets, or none is missing and one does not fit |
| KnowledgeEvents.EventFiltersNarrow | crates/agent-protocols/src/knowledge/mod.rs:503-567 | a query without filters finds everything; each filter on actor, type, time or profile takes away exactly what it does not describe |
| KnowledgeEvents.PayloadFiltersNarrow | crates/agent-protocols/src/knowledge/mod.rs:503-567 | the same for language up to ASCII case, verdict, kind and tag |
| KnowledgeEvents.LinkFiltersNarrow | crates/agent-protocols/src/knowledge/mod.rs:503-567 | a target filter asks for any link to it, a relation filter for a relation of that kind, and both together for one relation that has both |
| KnowledgeStore.ApplyKeepsInv | crates/agent-protocols/src/knowledge/store.rs:335-391 | every mutation keeps `records` and `by_seq` inverse, sequence numbers at or below the high-water mark and only retained events hidden, and leaves what sits at or below an earlier mark as it was there |
| KnowledgeStore.RunKeepsInv | crates/agent-protocols/src/knowledge/store.rs:335-391 | the same over any run of submissions, hides, unhides and prunes |
| KnowledgeStore.AcceptedIff | crates/agent-protocols/src/knowledge/store.rs:335-364 | the order-free condition for acceptance; a new record takes the clock reading and the next number, a resubmission gets the record there is, and a refusal changes nothing |
| KnowledgeStore.VisibilityFollows | crates/agent-protocols/src/knowledge/store.rs:335-402 | what each operation does to what is retained, to what is shown and to the high-water mark: hiding, unhiding and pruning touch one event, and only an acceptance moves the mark |
| KnowledgeStore.KnowledgeStore.constructor | crates/agent-protocols/src/knowledge/store.rs:305-318 | a new repository is empty and satisfies the invariant |
| KnowledgeStore.KnowledgeStore.SubmitEvent | crates/agent-protocols/src/knowledge/store.rs:335-364 | the whole effect of a submission: the first failing check decides the error, a resubmission returns the retained record, an acceptance takes the next sequence number; in every case the state evolves (`AcceptedIff` and `CheckedIff` say what passes) |
| KnowledgeStore.KnowledgeStore.HideEvent | crates/agent-protocols/src/knowledge/store.rs:376-380 | only a retained event becomes hidden, and nothing else changes |
| KnowledgeStore.KnowledgeStore.UnhideEvent | crates/agent-protocols/src/knowledge/store.rs:381-383 | the event stops being hidden, and nothing else changes |
| KnowledgeStore.KnowledgeStore.PruneEvent | crates/agent-protocols/src/knowledge/store.rs:385-391 | the record and its index entry go together, the mark stays, and the invariant survives |
| KnowledgeStore.KnowledgeStore.Query | crates/agent-protocols/src/knowledge/store.rs:418-465 | one page of a query, or its error, is the reference answer for the state, the request and the cursor position (`KnowledgeCursors` says which are answered) |
| KnowledgeStore.KnowledgeStore.Collect | crates/agent-protocols/src/knowledge/store.rs:434-458 | the walk of the `by_seq` range that stops one match past the page finds the first `limit` records of the reference scan, and knows whether there are more |
| KnowledgeStore.CursorRoundTrip | crates/agent-protocols/src/knowledge/store.rs:453-485 | decoding a formatted cursor gives its position back in any state whose mark is at or above its checkpoint, for every digest without a dot |
| KnowledgeStore.ScanIsExact | crates/agent-protocols/src/knowledge/store.rs:437-458 | the scan of a window is ascending and holds exactly the visible matching records with sequence numbers in it |
| KnowledgeStore.ScanConcatenates | crates/agent-protocols/src/knowledge/store.rs:437-458 | adjacent windows scan to the concatenation of their scans |
| KnowledgeTraversal.PageIsExact | crates/agent-protocols/src/knowledge/store.rs:434-464 | a page is the exact answer for the window up to its last record, or for the whole window when it carries no cursor |
| KnowledgeTraversal.CursorAdvances | crates/agent-protocols/src/knowledge/store.rs:418-485 | a cursor is accepted by every later state, keeps its checkpoint and time, and stands strictly further towards the checkpoint than the page it came from started |
| KnowledgeTraversal.TraversalFrom | crates/agent-protocols/src/knowledge/store.rs:335-485 | from any position, with any mutations between the pages, the rest of a traversal ends, is ascending, draws only on what the state there retained, and misses nothing that stays visible |
| KnowledgeTraversal.PagedQueryIsExact | crates/agent-protocols/src/knowledge/store.rs:335-485 | whatever is submitted, hidden, unhidden or pruned between the pages of one query and whatever the limit: it ends within checkpoint minus start plus one pages, is never refused, every page has one scope and binding, sequence numbers strictly rise inside the window, no event repeats, and each matching record visible throughout is returned |
| KnowledgeTraversal.CalmTraversalIsOneScan | crates/agent-protocols/src/knowledge/store.rs:335-485 | with submissions only between pages, the pages together are one scan of the state the traversal began in |
| KnowledgeTraversal.PollsCompose | crates/agent-protocols/src/knowledge/store.rs:335-485 | without hiding or pruning, any number of complete polls, each started at the checkpoint before, concatenate to one scan of the final state from the first start |
| KnowledgeTraversal.SubmissionKeepsClosure | crates/agent-protocols/src/knowledge/store.rs:347-363 | a submission keeps every retained target retained, allowed and at a smaller sequence number |
| KnowledgeTraversal.PruneKeepsClosureIff | crates/agent-protocols/src/knowledge/store.rs:384-391 | pruning keeps the retained set dependency-closed exactly when no other retained event depends on the pruned one |
| KnowledgeTraversal.RunStaysClosed | crates/agent-protocols/src/knowledge/store.rs:335-391 | runs without pruning keep dependency closure, whatever is hidden |
| KnowledgeCursors.CursorAcceptedIff | crates/agent-protocols/src/knowledge/store.rs:466-485 | a cursor stands for a position exactly when it is three numbers of one to sixteen digits and the digest of the query, dotted, in the range of the state and behind the start; every other text is refused alike |
| KnowledgeCursors.CursorAnsweredIff | crates/agent-protocols/src/knowledge/store.rs:418-485 | a cursor issued for one query is answered by any state, for any request, exactly when the digest is that of the request, the checkpoint is reached and the start is passed; otherwise the answer is `invalid_cursor` |
| KnowledgeCursors.CursorIsBound | crates/agent-protocols/src/knowledge/store.rs:418-485 | with a digest that binds, that is: exactly for the same filters, limit and start, by a state that has reached the checkpoint |
| KnowledgeCursors.FirstPageAnsweredIff | crates/agent-protocols/src/knowledge/store.rs:418-465 | a first page is answered exactly under a safe clock, from a start the repository has reached, for a limit of 1 to 1000 and safe, ordered times |
| KnowledgeTracker.ValidateQueryResponse | crates/agent-protocols/src/knowledge/store.rs:16-75 | a page passes exactly when it is verified, of one service, within its limit and checkpoint, duplicate-free, strictly ascending after the start, and matching |
| KnowledgeTracker.CheckRecords | crates/agent-protocols/src/knowledge/store.rs:16-54 | the record loop accepts exactly verified records with distinct ids at or below the checkpoint |
| KnowledgeTracker.CheckOrder | crates/agent-protocols/src/knowledge/store.rs:66-73 | the order loop accepts exactly ascending matching records after the start |
| KnowledgeTracker.KnowledgePageTracker.Accept | crates/agent-protocols/src/knowledge/store.rs:207-260 | an accepted page moves the tracker as specified; a refused one leaves every field as it was |
| KnowledgeTracker.ConsumeDescribes | crates/agent-protocols/src/knowledge/store.rs:187-260 | after any accepted pages of any service, the tracker describes the pages so far: one binding, one scope, chained cursors, one ordered list without repetition |
| KnowledgeTracker.CompleteTrackerIsOneEnumeration | crates/agent-protocols/src/knowledge/store.rs:187-271 | for an arbitrary service, a complete tracker means all its pages together are one strictly ordered, duplicate-free, matching enumeration within one scope and binding, and its checkpoint is theirs |
| KnowledgeEnumeration.TrackerAcceptsIff | crates/agent-protocols/src/knowledge/store.rs:16-260 | a tracker accepts a sequence of pages, from any service, exactly when every page is genuine and all together are one enumeration; no honest sequence is refused and no other is accepted |
| KnowledgeEnumeration.CheckpointIff | crates/agent-protocols/src/knowledge/store.rs:261-271 | it gives a checkpoint to poll from exactly when its last page was the last, and then that page's |
| KnowledgeTracker.HonestTraversalIsAccepted | crates/agent-protocols/src/knowledge/store.rs:176-485 | the tracker accepts every page of a traversal of this repository under any interference, and ends complete with its checkpoint |
| KnowledgeScanStore.ScanStore.SubmitEvent | packages/agent-protocols/src/knowledge.ts:1071-1099 | the store without an index submits as the indexed one does, but refuses a bad clock before it looks at the envelope; it shares its target rules (`CheckedIff`) |
| KnowledgeScanStore.SubmissionsDifferIff | packages/agent-protocols/src/knowledge.ts:1071-1099 | the two stores answer a submission differently exactly under a bad clock, for an invalid or already retained envelope, and never end in different states |
| KnowledgeScanStore.ScanStore.HideEvent | packages/agent-protocols/src/knowledge.ts:1107-1109 | hides as the indexed store does |
| KnowledgeScanStore.ScanStore.UnhideEvent | packages/agent-protocols/src/knowledge.ts:1110-1112 | unhides as the indexed store does |
| KnowledgeScanStore.ScanStore.PruneEvent | packages/agent-protocols/src/knowledge.ts:1114-1117 | prunes as the indexed store does: the index it does without loses exactly that entry |
| KnowledgeScanStore.ScanStore.Query | packages/agent-protocols/src/knowledge.ts:1134-1195 | answers every query, cursors and errors included, as the indexed store does, so that the lemmas of `KnowledgeCursors` and `KnowledgeTraversal` hold of it too |
| KnowledgeScanStore.ScanStore.Collect | packages/agent-protocols/src/knowledge.ts:1158-1167 | the loop over the insertion-ordered map finds the first `limit` kept records and whether more follow |
| KnowledgeScanStore.FullScanIsExact | packages/agent-protocols/src/knowledge.ts:1158-1167 | the full scan is ascending and holds exactly the kept records |
| KnowledgeScanStore.FullScanIsIndexedScan | packages/agent-protocols/src/knowledge.ts:1134-1169 | the full scan of the ordered map equals the range walk of the index over the same records |
| KnowledgeLifecycle.AppendSuccessors | crates/agent-protocols/src/knowledge/mod.rs:302-310 | the inner loop adds the publication under exactly the targets it supersedes |
| KnowledgeLifecycle.Indexes | crates/agent-protocols/src/knowledge/mod.rs:293-317 | one pass in any order computes the withdrawn ids, and for every id its successors and assessments |
| KnowledgeLifecycle.CheckKnownSet | crates/agent-protocols/src/knowledge/mod.rs:284-292 | the validation pass accepts exactly verified, correctly keyed, dependency-closed sets (what closed means for each link: `KnowledgeEvents.FitsIff`) |
| KnowledgeLifecycle.Materialize | crates/agent-protocols/src/knowledge/mod.rs:283-337 | the materialized view of a valid set is its lifecycle view, as sets; an invalid set is refused (`RetractedIff` and `ListedAssessments` say what the view shows) |
| KnowledgeLifecycle.RetractionIsItsAuthors | crates/agent-protocols/src/knowledge/mod.rs:269-277 | in every valid known set, a retraction has the actor of its target and a larger nonce, and its target is no retraction |
| KnowledgeLifecycle.RetractedIff | crates/agent-protocols/src/knowledge/mod.rs:281-337 | the view shows an event as retracted exactly when its own author has retracted it |
| KnowledgeLifecycle.ListedAssessments | crates/agent-protocols/src/knowledge/mod.rs:281-337 | the view lists exactly the assessments of a publication, as active those their own assessors have not retracted, and as successors only later publications of its author |
| KnowledgeLifecycle.UnionIsValid | packages/agent-protocols/src/knowledge.ts:450-499 | the union of two valid sets that agree on common ids is valid |
| KnowledgeLifecycle.JoinAtIsView | packages/agent-protocols/src/knowledge.ts:507-565 | the view of an event in the union is the join of its views on either side: retracted if either says so, successors and assessments united, the active ones less all withdrawn |
| KnowledgeLifecycle.ViewsConverge | crates/agent-protocols/src/knowledge/mod.rs:281-337 | two agreeing replicas have a valid union whose whole view is the join of theirs, in either order |
| KnowledgeLifecycle.ValidSetsConverge | packages/agent-protocols/src/knowledge.ts:450-565 | with ids that bind, any two valid sets agree, so any two replicas converge |
| KnowledgeLifecycle.ViewsOnlyGrow | crates/agent-protocols/src/knowledge/mod.rs:281-337 | as a set grows, no status returns to active, reports and successors only accumulate, and an inactive assessment stays inactive |
| KnowledgeLifecycle.ChainsDescend | crates/agent-protocols/src/knowledge/mod.rs:262-277 | along a supersedes chain of any length the actor stays and the nonce strictly falls, so no chain returns |
| KnowledgeLifecycle.RepositoryIsAKnownSet | crates/agent-protocols/src/knowledge/store.rs:327-364 | what a repository retains after any run without pruning is a valid known set |
| KnowledgeLifecycle.RepositoryLinksFit | crates/agent-protocols/src/knowledge/store.rs:335-391 | after any run, pruning included, every retained event fits every retained target of its links; only the author of an event has retracted or superseded it |
| KnowledgeLifecycle.UnprunedRetractions | crates/agent-protocols/src/knowledge/store.rs:327-364 | after any run without pruning, every retained retraction finds its target retained, of the same author and with a smaller nonce, and shown as retracted |
| KnowledgeReport.Sort | packages/agent-protocols/src/knowledge.ts:556-557 | a set is reported as its one ascending list |
| KnowledgeReport.BeforeIsLexical | packages/agent-protocols/src/knowledge.ts:556-557 | the order of the lists: by the first character that differs, a proper prefix first |
| KnowledgeReport.Filter | packages/agent-protocols/src/knowledge.ts:558-560 | filtering the sorted assessments keeps the active ones, in order |
| KnowledgeReport.MaterializeReport | packages/agent-protocols/src/knowledge.ts:507-565 | the report of a valid set is its view with every list ascending |
| KnowledgeReport.ReportIsDetermined | crates/agent-protocols/src/knowledge/mod.rs:282-337 | two reports of one view are equal: no order of arrival or iteration shows |
| NonceReplay.MemoryNonceStore.CheckAndUpdate | crates/agent-protocols/src/identity.rs:772-800 | the whole effect of a nonce check on the cache, with saturating expiry (`AcceptsIff` says what passes) |
| NonceReplay.MemoryNonceStore.MaxNonce | crates/agent-protocols/src/identity.rs:802-807 | the reported maximum is the one below and at which the cache refuses, and absent when it refuses nothing |
| NonceReplay.MemoryNonceStore.VerifySubmission | crates/agent-protocols/src/identity.rs:918-941 | the order of signature, resubmission, window and nonce checks, and that only the last touches the cache (`AcceptsIff` says what passes) |
| NonceReplay.AcceptsIff | crates/agent-protocols/src/identity.rs:734-941 | a submission is accepted exactly when it is signed, new, within the window and in range, and its actor has no entry, an expired one or one with a smaller maximum; a live entry that covers its nonce is the only thing it is refused as a replay for |
| NonceReplay.OnlyAcceptanceUpdates | crates/agent-protocols/src/identity.rs:772-800 | an acceptance leaves exactly its nonce, with the saturated expiry, in its own actor's entry; everything else leaves the cache as it was |
| NonceReplay.RisingNoncesAreAccepted | crates/agent-protocols/src/identity.rs:734-941 | over any run, an actor whose submissions are in order and whose nonces rise is accepted every time, whatever the others submit and whatever the clock does |
| NonceReplay.BarringLasts | crates/agent-protocols/src/identity.rs:734-800 | once an accepted envelope is barred, by its age or by a live entry, any submission of any actor leaves it barred, saturation included |
| NonceReplay.StaysBarred | crates/agent-protocols/src/identity.rs:734-941 | an accepted envelope stays barred through any later run |
| NonceReplay.NoReplay | crates/agent-protocols/src/identity.rs:16-20 | over any interleaving with a clock that does not step back, a lifetime of at least two windows accepts no envelope twice, whatever the resubmission lookup says |
| NonceReplay.ShortCacheReplays | crates/agent-protocols/src/identity.rs:16-20 | for every window, every shorter lifetime and every valid envelope signed one window ahead there is a run that accepts it twice, on non-negative clock readings unless the lifetime is the largest there is |
| NonceReplay.ReplayFreeIff | crates/agent-protocols/src/identity.rs:16-20 | a service is replay-free exactly when its entries live at least two windows |
| AgentUrl.ParseAgentUrl | crates/agent-protocols/src/identity.rs:1119-1159 | the parsing loop computes the reference parse, or its first error |
| AgentUrl.FormatUndoesParse | crates/agent-protocols/src/identity.rs:1119-1192 | every accepted text is canonical: formatting what was parsed gives it back |
| AgentUrl.ParseUndoesFormatIff | crates/agent-protocols/src/identity.rs:1162-1192 | parsing what was formatted gives the value back exactly when every route origin is printable and free of `#`, `%` and `&` |
| AgentUrl.RoutesOfAQuery | crates/agent-protocols/src/identity.rs:1143-1157 | no parsed route contains the item separator |
| AgentUrl.ParsesIff | crates/agent-protocols/src/identity.rs:1119-1192 | a text parses to an Agent URL exactly when the URL is sound, key, path and at most eight distinct printable origins, and the text is its one spelling |
| Base64Url.Encode | packages/agent-protocols/src/encoding.ts:11-20 | the three-byte loop emits, position by position, the six input bits that belong there, and the right number of characters |
| Base64Url.DecodeCanonical | packages/agent-protocols/src/encoding.ts:27-45 | the buffered loop accepts exactly canonical texts and returns the bytes their digits spell |
| Base64Url.StepEmits | packages/agent-protocols/src/encoding.ts:33-43 | the 16-bit mask loses no pending bit: each emitted byte is made of exactly its digits |
| Base64Url.DecodeUndoesEncode | packages/agent-protocols/src/encoding.ts:22-45 | decode(encode(b)) is b for every byte string |
| Base64Url.EncodeUndoesDecode | packages/agent-protocols/src/encoding.ts:22-45 | whatever decodes is the encoding of what it decodes to |
| Base64Url.AcceptedTextIsUnique | packages/agent-protocols/src/encoding.ts:22-26 | each byte string has exactly one accepted text |
| MailRelay.ApplyKeepsInv | packages/agent-protocols/src/mail.ts:1105-1436 | every operation keeps the accounts: bytes are the retained sizes, quotas hold, sequence numbers rise in insertion order up to the last one, ids are distinct, and each retained packet has a tombstone with its own times |
| MailRelay.DeliverKeepsInv | packages/agent-protocols/src/mail.ts:1251-1314 | a delivery keeps the accounts, refused or not |
| MailRelay.KeepIsExact | packages/agent-protocols/src/mail.ts:1430-1436 | dropping entries keeps exactly the others, in order, and weighs no more |
| MailRelay.MailRelayStore.constructor | packages/agent-protocols/src/mail.ts:1111-1127 | a relay starts empty and within its accounts |
| MailRelay.MailRelayStore.Restore | packages/agent-protocols/src/mail.ts:1128-1157 | a relay started from a snapshot of its own origin holds the mailboxes the snapshot describes, measured again |
| MailRelay.MailRelayStore.Snapshot | packages/agent-protocols/src/mail.ts:1158-1173 | the snapshot lists every mailbox, and nothing else, as it stands |
| MailRelay.MailRelayStore.Publish | packages/agent-protocols/src/mail.ts:1177-1225 | the whole effect of a publication; a refused card changes neither mailboxes nor nonces |
| MailRelay.MailRelayStore.Deliver | packages/agent-protocols/src/mail.ts:1251-1314 | the whole effect of a delivery: the first failing check, path identifier included, the remembered answer, or the enqueue |
| MailRelay.MailRelayStore.Store | packages/agent-protocols/src/mail.ts:1293-1313 | after the sweep, either a quota or sender refusal with only the sweep kept, or the enqueued packet with its tombstone and bytes |
| MailRelay.MailRelayStore.DropExpired | packages/agent-protocols/src/mail.ts:1430-1436 | the loop drops exactly the expired packets and gives back exactly their bytes |
| MailRelay.MailRelayStore.SetSenderBlocked | packages/agent-protocols/src/mail.ts:1319-1327 | a malformed mailbox or agent id is refused; otherwise only the sender policy of that mailbox changes |
| MailRelay.MailRelayStore.Delete | packages/agent-protocols/src/mail.ts:1401-1414 | only the owner removes a packet, by well-formed ids; its tombstone stays |
| MailRelay.MailRelayStore.RemovePacket | packages/agent-protocols/src/mail.ts:1409-1413 | exactly the entry with that id goes, with its bytes |
| MailRelay.MailRelayStore.Prune | packages/agent-protocols/src/mail.ts:1416-1429 | the whole effect of a prune on every mailbox (what it closes: `MailMailboxes.ClosedIff`) |
| MailRelay.MailRelayStore.PruneBoxes | packages/agent-protocols/src/mail.ts:1418-1428 | in any order of mailboxes, each is swept, and forgotten exactly when its card, packets and tombstones are all over (in terms of times: `MailMailboxes.PruneCloses`) |
| MailRelay.MailRelayStore.DropTombstones | packages/agent-protocols/src/mail.ts:1420-1421 | exactly the tombstones past their own expiry go |
| MailRelay.MailRelayStore.List | packages/agent-protocols/src/mail.ts:1367-1400 | one page, or the first error among clock, path, token, mailbox, owner, limit and cursor; the cursor is the decimal text of the last sequence number |
| MailRelay.MailRelayStore.Filter | packages/agent-protocols/src/mail.ts:1391-1395 | the rows are the unexpired packets after the cursor, in order |
| MailRelay.RowsMakeAPage | packages/agent-protocols/src/mail.ts:1391-1399 | a page is, in order and within its limit, exactly what is due up to its cursor, or all that is due when it has none |
| MailRelayRuns.SnapshotRoundTrip | packages/agent-protocols/src/mail.ts:1128-1173 | restoring any snapshot of a relay within its accounts gives back every mailbox exactly |
| MailRelayRuns.ReachableInv | packages/agent-protocols/src/mail.ts:1105-1436 | every state reachable from a relay within its accounts, such as an empty one, is within its accounts; a restart restores a snapshot taken at that moment |
| MailRelayRuns.MemoryLasts | packages/agent-protocols/src/mail.ts:1251-1436 | under any clock, an accepted packet keeps its tombstone with the original time through every operation and every restore, until a prune reads its expiry, which takes it |
| MailRelayRuns.MemoryFollows | packages/agent-protocols/src/mail.ts:1128-1436 | the accepted history of every mailbox after any event: only an enqueue adds to it, only a prune takes from it, and a restore gives it back |
| MailRelayRuns.EnqueuedTwiceNeedsAPrune | packages/agent-protocols/src/mail.ts:1251-1429 | under any clock, a packet id enqueued twice was forgotten in between by a prune at or past its expiry, and the second enqueue read an earlier time |
| MailRelayRuns.StoredAgainIff | packages/agent-protocols/src/mail.ts:1251-1429 | in any run and under any clock, a packet stored once is stored again exactly when every other check of the delivery holds and a prune has forgotten it since it was last stored |
| MailRelayRuns.EnqueuedAtMostOnce | packages/agent-protocols/src/mail.ts:1251-1436 | in any run with a clock that does not step back, no packet id is enqueued twice: retries, owner deletes, expiry, prunes, new cards, forgotten and re-created mailboxes and restores included |
| MailRelayRuns.RetryAnswersAsBefore | packages/agent-protocols/src/mail.ts:1269-1271 | until the packet expires, every retry is answered with the original acceptance time and changes nothing |
| MailRelayRuns.SteppingBackEnqueuesTwiceIff | packages/agent-protocols/src/mail.ts:1251-1429 | the shortest such run: deliver, prune, and deliver again at the first time stores twice exactly when the prune read the expiry, if the mailbox is still there and a sequence number is left |
| MailRelayRuns.RefusalOnlySweeps | packages/agent-protocols/src/mail.ts:1262-1305 | a refused delivery changes nothing but drops packets of that mailbox that were already expired |
| MailRelayRuns.EnqueueTakesAFreshNumber | packages/agent-protocols/src/mail.ts:1306-1313 | an enqueued packet comes last, with a sequence number above all retained ones and an id none of them has |
| MailRelayRuns.StoresIff | packages/agent-protocols/src/mail.ts:1251-1314 | one condition, independent of the order of the checks, for a packet to be stored |
| MailMailboxes.PublishedIff | packages/agent-protocols/src/mail.ts:1177-1225 | the order-free condition for a card: sound, in the window, with a fresh nonce, and of the owner with a higher nonce or first with this relay on its routes; nothing else changes the relay, and a card already held is answered with its record |
| MailMailboxes.PruneCloses | packages/agent-protocols/src/mail.ts:1416-1429 | a prune takes a mailbox exactly when it reads a safe time at or past the end of the card and of every packet and tombstone |
| MailMailboxes.ClosedIff | packages/agent-protocols/src/mail.ts:1105-1436 | so does an event of any kind: nothing but such a prune takes a mailbox |
| MailMailboxes.OpenedIff | packages/agent-protocols/src/mail.ts:1177-1225 | a mailbox is opened by an admissible card and nothing else, empty |
| MailMailboxes.MailboxFollows | packages/agent-protocols/src/mail.ts:1105-1436 | what any event leaves of a mailbox: a new card only by its publication, one more number only by an enqueue, a sender only by its own operation, and every packet that the owner does not delete and that no sweep past its expiry takes |
| MailMailboxes.NoncesFollow | packages/agent-protocols/src/mail.ts:1105-1436 | only an admissible card leaves a nonce, and a restart forgets them |
| MailMailboxes.DeletedIff | packages/agent-protocols/src/mail.ts:1355-1414 | a deletion succeeds exactly for the owner of the mailbox and well-formed ids |
| MailMailboxes.ListedIff | packages/agent-protocols/src/mail.ts:1355-1400 | a listing is answered exactly to the owner, for a limit of 1 to 1000 and a canonical cursor |
| MailMailboxes.PathIdIff | packages/agent-protocols/src/mail.ts:1355-1414 | the ids a path accepts are exactly the encodings of byte strings of their length |
| MailMailboxes.DeliveredIff | packages/agent-protocols/src/mail.ts:1251-1314 | a delivery is answered exactly when it is stored now or well-formed and in accepted history, with the time of its first acceptance |
| MailMailboxes.EarlyLossIsTheOwners | packages/agent-protocols/src/mail.ts:1401-1414 | a packet that goes before its expiry was deleted by the owner of its mailbox |
| MailMailboxes.GoneWasClosed | packages/agent-protocols/src/mail.ts:1416-1429 | over a whole run, a mailbox that is gone was closed by a prune that found all of it over |
| MailMailboxes.LiveCardKeepsMailbox | packages/agent-protocols/src/mail.ts:1416-1429 | a mailbox whose card is live at every prune is there at the end of any run |
| MailMailboxes.OwnerNeverChanges | packages/agent-protocols/src/mail.ts:1185-1202 | while a mailbox exists its owner never changes, its card is replaced only by one with a larger nonce, and its numbers never fall, restarts included |
| MailMailboxes.BlockedUntilLetIn | packages/agent-protocols/src/mail.ts:1293-1327 | a blocked sender stays blocked over any run until it is let in, and none of its packets is stored meanwhile |
| MailListing.NextPageIsAnswered | packages/agent-protocols/src/mail.ts:1367-1400 | the relay takes its own cursor back: the next page is answered exactly when the clock and the owner are in order |
| MailListing.EventSpares | packages/agent-protocols/src/mail.ts:1105-1436 | an event that neither deletes a packet nor reads its expiry leaves it retained, restores included |
| MailListing.RunSpares | packages/agent-protocols/src/mail.ts:1105-1436 | so does a whole run |
| MailListing.EnumerationAscends | packages/agent-protocols/src/mail.ts:1382-1399 | everything collected so far lies behind the cursor, which moves with every page |
| MailListing.EnumerationSkipsNothing | packages/agent-protocols/src/mail.ts:1367-1400 | whatever happens between the pages, sequence numbers strictly rise over all of them, the enumeration ends, it lists only what was retained and unexpired, and it has every packet that was there at the beginning and that neither its owner nor its expiry took |
| MailInbox.KeyIdentifies | packages/agent-protocols/src/mail.ts:905-907 | sender and message id can be read back from the joined key, because a sender has no slash |
| MailInbox.MailInbox.Screen | packages/agent-protocols/src/mail.ts:896-903 | what is refused before decryption: clock, verification, then the sender |
| MailInbox.AcceptedWasScreened | packages/agent-protocols/src/mail.ts:891-924 | whatever runs in between, every accepted message was opened, with its own clock reading, from a verified packet whose sender was not blocked at that moment |
| MailInbox.OpenedIff | packages/agent-protocols/src/mail.ts:891-906 | an acceptance gets under way exactly for a verified packet that opens, of a sender not blocked, under a safe clock |
| MailInbox.PolicyFollows | packages/agent-protocols/src/mail.ts:876-929 | a sender is blocked or let in by its own operation only, and an acceptance is finished once |
| MailInbox.EntriesFollow | packages/agent-protocols/src/mail.ts:891-929 | the entry under any key after any action of a session: only a current commit adds one, only a prune at or past its expiry takes one, and nothing replaces one |
| MailInbox.SessionIsARun | packages/agent-protocols/src/mail.ts:891-929 | acceptances that overlap leave the inbox as some run of commits, prunes and blocks does, so the results over runs cover them |
| MailInbox.MailInbox.Commit | packages/agent-protocols/src/mail.ts:905-923 | the whole effect of the part that runs after decryption without interruption |
| MailInbox.MailInbox.Accept | packages/agent-protocols/src/mail.ts:891-924 | an uninterrupted acceptance is the screening followed by the commit |
| MailInbox.MailInbox.Prune | packages/agent-protocols/src/mail.ts:925-929 | exactly the entries past their expiry go; an unsafe clock is refused |
| MailInbox.MailInbox.SetSenderBlocked | packages/agent-protocols/src/mail.ts:873-878 | a malformed agent id is refused; otherwise only the sender policy changes |
| MailInbox.HeldUntilForgotten | packages/agent-protocols/src/mail.ts:891-929 | an accepted message is held until a prune at or past its expiry |
| MailInbox.TakenUntilForgotten | packages/agent-protocols/src/mail.ts:891-929 | until then the same content is a duplicate and any other content under the same sender and id is refused |
| MailInbox.AcceptedAtMostOnce | packages/agent-protocols/src/mail.ts:891-929 | a message is accepted at most once when no commit uses a clock reading older than an earlier prune |
| MailInbox.AcceptedAgainIffStale | packages/agent-protocols/src/mail.ts:891-929 | a message is accepted again exactly when a commit of it with a reading from before its expiry follows a prune from at or past it |
| MailInbox.SecondAcceptanceStalled | packages/agent-protocols/src/mail.ts:891-929 | under a steady clock, a second acceptance began, screened, before the prune that forgot the message, and finished behind it |
| MailInbox.AcceptedAgainIffStalled | packages/agent-protocols/src/mail.ts:891-929 | under a steady clock, an accepted message is accepted again exactly when some acceptance of it stalls so |
| MailInbox.StalledDecryptionAcceptsTwice | packages/agent-protocols/src/mail.ts:896-922 | for every packet that verifies, opens and comes from a sender who is not blocked: if it arrives twice just before its message expires, and one decryption ends behind a prune, the message is accepted twice |
| MailFraming.FrameBytes | packages/agent-protocols/src/mail.ts:436-446 | framing succeeds for 1 to 1048576 bytes and gives the big-endian length, the content and minimal zero padding |
| MailFraming.UnframeBytes | packages/agent-protocols/src/mail.ts:447-471 | the byte-level checks of opening a frame, in order |
| MailFraming.UnframeUndoesFrameIff | packages/agent-protocols/src/mail.ts:436-471 | opening a frame gives the content back exactly when it has at most 1048572 bytes; a longer one is always refused |
| MailFraming.OpenedFrameIsTheFrame | packages/agent-protocols/src/mail.ts:447-471 | a frame that opens is the frame of its content and of no other |
| PortablePattern.ScanClass | crates/agent-protocols/src/discourse.rs:1363-1384 | the class reader accepts exactly a non-empty class and ends behind its bracket |
| PortablePattern.ScanBody | crates/agent-protocols/src/discourse.rs:1372-1381 | the member loop stops at the bracket that ends the class |
| PortablePattern.ScanBraces | crates/agent-protocols/src/discourse.rs:1419-1436 | the brace reader accepts exactly one or two digit runs and ends behind the brace |
| PortablePattern.Turn | crates/agent-protocols/src/discourse.rs:1358-1449 | one turn of the loop, lookaheads for group modifiers and lazy marks included, decides as the counter and the flag alone would |
| PortablePattern.ScanPattern | crates/agent-protocols/src/discourse.rs:1341-1455 | the loop terminates and accepts exactly what the recursive scan does |
| PatternGrammar.PatternScans | crates/agent-protocols/src/discourse.rs:1341-1455 | every text of the grammar is consumed, at any depth and in any context, and leaves the depth as it was |
| PatternGrammar.MoveParses | crates/agent-protocols/src/discourse.rs:1341-1449 | the counter and the flag summarise a stack of open parses: each accepted turn extends it by what it consumed |
| PatternGrammar.ScanParses | crates/agent-protocols/src/discourse.rs:1341-1455 | every accepted text has a parse |
| PatternGrammar.ScanDecidesGrammar | crates/agent-protocols/src/discourse.rs:1341-1455 | the scanner accepts exactly the language of the grammar |
| PatternGrammar.ValidatePortablePattern | crates/agent-protocols/src/discourse.rs:1333-1455 | the validator accepts exactly the patterns whose stripped body is in the grammar |
| PatternGrammar.ValidatorAcceptsIff | crates/agent-protocols/src/discourse.rs:1333-1340 | the validator accepts a grammatical body with optional outer anchors, except whatever ends in a backslash and a dollar |
| PatternGrammar.EscapedBackslashBeforeAnchor | crates/agent-protocols/src/discourse.rs:1337-1339 | an escaped backslash before the final anchor is a promised pattern the validator refuses |
| RoomArchive.VerifyArchiveChain | crates/agent-protocols/src/discourse.rs:2004-2042 | the loop accepts exactly gap-free chains from 1 of valid records |
| RoomArchive.VerifyArchiveRecords | crates/agent-protocols/src/discourse.rs:2048-2074 | an archive verifies exactly when its chain, end, rooms and envelopes do, and the redacted sequence numbers are reported in order |
| RoomArchive.CommittedAt | crates/agent-protocols/src/discourse.rs:1850-1864 | with an injective hash, two chains of one length and last hash agree on every hashed field at every position |
| RoomArchive.ArchivesAgree | crates/agent-protocols/src/discourse.rs:2048-2074 | two archives verified against the same end have the same length and room and agree at every position |
| RoomArchive.RedactionStillVerifies | crates/agent-protocols/src/discourse.rs:1910-2074 | redacting any set of redactable records leaves an archive verified, and exactly those and the earlier redactions are reported |
| RoomArchive.RedactableIff | crates/agent-protocols/src/discourse.rs:1908-1927 | messages and records of a room's own types can be redacted and no others, and the record hash still covers the result |
| RoomArchive.OnlyMessagesAreRedacted | crates/agent-protocols/src/discourse.rs:1963-2042 | a valid chain holds no other redacted records |
| RoomReplay.TypeRegistry.Define | crates/agent-protocols/src/discourse.rs:1683-1695 | a definition is refused, leaving the registry alone, or replaces one of the same kind |
| RoomReplay.TypeRegistry.Apply | crates/agent-protocols/src/discourse.rs:1664-1776 | a declaration is all or nothing: on any error of an import, its shape included, the registry is untouched |
| RoomReplay.TypeRegistry.ImportAll | crates/agent-protocols/src/discourse.rs:1697-1776 | the staging loop defines the selected types of a pack in order, with overrides, or stops at the first error |
| RoomReplay.DeclarationKeepsKinds | crates/agent-protocols/src/discourse.rs:1664-1776 | no declaration changes or removes the kind of a registered type |
| RoomTypes.ImportLeaves | crates/agent-protocols/src/discourse.rs:1697-1776 | an accepted import leaves under each name it asks for, subset included, the pack's definition with its overrides, and under every other name what was there; it declares each of its names once |
| RoomTypes.ImportAcceptedIff | crates/agent-protocols/src/discourse.rs:1664-1776 | an import is accepted exactly when its reference, subset and overrides name only types the pack has, each once, and the registry takes every definition it asks for |
| RoomTypes.DefinedAllIff | crates/agent-protocols/src/discourse.rs:1683-1695 | definitions of different names are taken exactly when each would be alone, and each is then what its name stands for |
| RoomTypes.OpeningAcceptedIff | crates/agent-protocols/src/discourse.rs:1642-1663 | a room's opening declarations are accepted exactly when each would be alone in an empty registry and no two name the same type, whatever their order |
| RoomReplay.Replay | crates/agent-protocols/src/local_connector/history.rs:10-155 | the replay loop succeeds exactly when the chain, the genesis and its host, every envelope and every step do, and then holds the fold of the history |
| RoomReplay.StepKeepsHead | crates/agent-protocols/src/local_connector/history.rs:59-150 | one record keeps the folded head equal to the head read off the history so far |
| RoomReplay.HeadIsRecomputable | crates/agent-protocols/src/local_connector/history.rs:59-150 | the head folded record by record is the last head-advancing record under the final types, redactions or not |
| RoomReplay.ReplayChecksAsTheHost | crates/agent-protocols/src/local_connector/projection.rs:168-217 | for every record and head, the check of the replay accepts exactly what the check of the host does |
| RoomReplay.AnchoredWritesIgnoreTheHead | crates/agent-protocols/src/local_connector/projection.rs:168-217 | whatever the head, the replay accepts a contract or signal record exactly when the record at its base has the hash it gives, and the host refuses one for its anchor only |
| RoomReplay.StepKeepsSound | crates/agent-protocols/src/local_connector/history.rs:59-150 | one accepted record keeps every earlier record anchored and fresh, also under the types it declares |
| RoomReplay.ReplayedHistoryIsSound | crates/agent-protocols/src/local_connector/history.rs:10-155 | in any history that replays, up to its first redaction every later record is anchored in an earlier one, and every message and control record is based at or after all earlier genesis, contract and control records |
| RoomTypes.HeadConcerns | crates/agent-protocols/src/discourse.rs:165-245 | which records move the head and which are held to it, for every built-in type and every kind of custom type |
| RoomTypes.WritesArePermitted | crates/agent-protocols/src/local_connector/history.rs:59-150 | up to the first redaction, every replayed record behind the genesis is of its room, admitted, no second genesis, and of a defined type that is not disabled |
| RoomTypes.ReplayedIsWellFormed | crates/agent-protocols/src/local_connector/history.rs:56-73 | a signed record is replayed only with a valid envelope, its room and a base of the right form; behind a redaction that is enough |
| RoomTypes.ReplayedRoomIsTheHosts | crates/agent-protocols/src/local_connector/history.rs:10-73 | a replayed history opens with the signed genesis of this host, whose declarations are accepted, is numbered from one and holds no record of another room |
| RoomReplay.VerifiedIff | crates/agent-protocols/src/local_connector/history.rs:56-57 | a replay counts as verified exactly when nothing in it is redacted |
| RoomRedaction.OnlyTheEnvelopeIsChecked | crates/agent-protocols/src/local_connector/history.rs:56-73 | after a redaction a record is accepted exactly when its own envelope is in order: signature and schema, room, and a base of the right form |
| RoomRedaction.AnchorsGuaranteedIff | crates/agent-protocols/src/local_connector/projection.rs:168-217 | a replay state guarantees that its next record is anchored exactly when it is verified |
| RoomRedaction.FreshnessGuaranteedIff | crates/agent-protocols/src/local_connector/projection.rs:168-217 | it guarantees that its next record is fresh exactly when it is verified or only the genesis has advanced the head |
| RoomRedaction.AnchorsHoldIff | crates/agent-protocols/src/local_connector/history.rs:56-131 | every signed record with which a replayed history still replays, chain included, is anchored exactly when nothing in the history is redacted |
| RoomRedaction.FreshnessHoldsIff | crates/agent-protocols/src/local_connector/history.rs:56-131 | every such record is fresh exactly when nothing is redacted or only the genesis has advanced the head |
| RoomRedaction.StepKeepsKindsIff | crates/agent-protocols/src/local_connector/projection.rs:354-360 | a step keeps every kind exactly when nothing before it is redacted or it is not an inline definition that gives a known type another kind |
| RoomRedaction.KindsGuaranteedIff | crates/agent-protocols/src/local_connector/projection.rs:354-360 | a replay state guarantees that its next record keeps every kind exactly when it is verified or has no types |
| RoomRedaction.KindsHoldIff | crates/agent-protocols/src/local_connector/projection.rs:354-360 | every signed record with which a replayed history still replays keeps every kind exactly when nothing is redacted or the room has no types |
| RoomRedaction.KindChangesBehindARedaction | crates/agent-protocols/src/local_connector/projection.rs:354-360 | for every valid definition, other kind, record hash, room and contents, a history that replays and changes the kind of the type |
| RoomRedaction.StaleMessageBehindARedaction | crates/agent-protocols/src/local_connector/history.rs:56-131 | for every record hash, room and contents and every other event hash, a history that replays with a message based on that hash, neither anchored nor fresh |
| RoomReplay.ReplayableIsNumbered | crates/agent-protocols/src/discourse.rs:2004-2042 | the chain check already numbers the records, so the two results above cover every replayed history |
| Delegation.ValidatePrincipalDocument | crates/agent-protocols/src/delegation.rs:374-414 | the loops accept exactly documents with valid, timely controllers and keys unique across both lists |
| Delegation.AuditDelegationHistory | crates/agent-protocols/src/delegation.rs:867-901 | the auditor accepts exactly credentials that the replay of all records reflects (in terms of the records: `DelegationReplay.AuditedIff`) |
| Delegation.VerifyDelegationCredential | crates/agent-protocols/src/delegation.rs:773-860 | verified is the check of the latest grant, usable is that nothing speaks against use, and a conflict is reported exactly when a later record of the credential is supplied |
| DelegationHistory.GrantStandsAlone | crates/agent-protocols/src/delegation.rs:923-1039 | a grant authorised after some state is authorised without it |
| DelegationHistory.ReplayedState | crates/agent-protocols/src/delegation.rs:591-647 | a replayed state names its last grant and last event, and is revoked exactly when something follows that grant |
| DelegationHistory.AuditImpliesCheapCheck | crates/agent-protocols/src/delegation.rs:773-901 | for records with distinct hashes, a successful audit implies the check of the latest grant, without a conflict |
| DelegationHistory.AuditThenVerify | crates/agent-protocols/src/delegation.rs:773-901 | after a successful audit the credential is usable exactly when it is active, granted for the audience, within its validity window, and checked between five minutes before and one minute after the reading |
| DelegationHistory.AuthorisedIff | crates/agent-protocols/src/delegation.rs:957-1039 | authority in one condition: some listed controller holds the key, may delegate, was in authority at both times and covers both states |
| DelegationHistory.LiveImpliesHistorical | crates/agent-protocols/src/delegation.rs:957-1039 | what a service accepts live, an auditor accepts under the same document |
| DelegationHistory.RetirementKeepsHistory | crates/agent-protocols/src/delegation.rs:957-1039 | moving a key to the retired list leaves authorised exactly what was authorised and precedes retirement and any compromise, and touches no other key |
| DelegationHistory.ReplayUnderRetirement | crates/agent-protocols/src/delegation.rs:867-901 | a history replays under the later document exactly when it did before and all of that key precedes, and to the same state |
| DelegationHistory.AuditUnderRetirement | crates/agent-protocols/src/delegation.rs:867-901 | the same for a whole audit of any credential |
| DelegationReplay.AuthorityIff | crates/agent-protocols/src/delegation.rs:957-1039 | an event is authorised, live or for history, exactly when it is sound, names the credential of the state before, comes no earlier, and some listed controller whose interval holds both its times covers what it replaces and what it grants |
| DelegationReplay.StepIff | crates/agent-protocols/src/delegation.rs:867-1039 | one step of the replay, in terms of the last grant and the last acceptance time only |
| DelegationReplay.ReplaysIff | crates/agent-protocols/src/delegation.rs:867-901 | a history replays exactly when each record by itself is signed, well-formed and authorised after the last grant before it, and no acceptance time falls: the fold as one condition without state |
| DelegationReplay.HistoryHasOneCredential | crates/agent-protocols/src/delegation.rs:923-953 | a replayed history opens with a grant of the principal it is audited for; every record has the protocol and the id and principal of that grant, every grant its agent, and acceptance times do not fall |
| DelegationReplay.AuditedCredentialIsTheOne | crates/agent-protocols/src/delegation.rs:867-953 | an audited credential has the id and principal of every record of its history and the agent of every grant |
| DelegationReplay.AuditedIff | crates/agent-protocols/src/delegation.rs:867-901 | an audit passes exactly for the credential the records describe: their last grant, and the event, time, controller and revocation of their last record |
| DelegationReplay.VerifiedIff | crates/agent-protocols/src/delegation.rs:830-860 | the relying party's check passes exactly when the grant the credential names stands alone and says what the credential says |
| DelegationReplay.VerifyAfterMore | crates/agent-protocols/src/delegation.rs:773-901 | after an audit, one more record of the credential makes the check report a conflict and the credential unusable |
| DelegationReplay.MaterializedIs | crates/agent-protocols/src/delegation.rs:591-647 | a grant starts over with the status it is given; a revocation ends the grant it follows and keeps what it said; neither comes before the state it follows |
| DelegationReplay.DocumentIff | crates/agent-protocols/src/delegation.rs:332-418 | a valid document in one condition: distinct keys, each with its dates in order up to the last update, sound policies, and a service where anything is delegated |
| DelegationReplay.AuthorityAtUpdate | crates/agent-protocols/src/delegation.rs:332-418 | at the time of its last update exactly the current controllers of a valid document are in authority |
| DelegationReplay.RetiredAuthority | crates/agent-protocols/src/delegation.rs:332-418 | a retired key was in authority from its start to its compromise, or to its retirement if none is declared, and no longer |
| DelegationReplay.KeysAreUnique | crates/agent-protocols/src/delegation.rs:374-418 | a key stands for at most one controller, current or retired |
| DelegationReplay.NoServiceNoAuthority | crates/agent-protocols/src/delegation.rs:374-1039 | under a document without a service nothing is authorised |

## Left out

- HTTP clients, discovery, redirects, token verification and the MCP tools: a verified caller or an answer is a parameter.
- Signatures, hashing, HPKE, canonical JSON, JSON Schema, URL and origin parsing: opaque functions and predicates.
- Single-event reads, batches, search and text matching of the knowledge repository: one-branch reads of the same state.
- Language tags of the knowledge filters are compared by ASCII case folding; other text normalisation is not modelled.
- Canonical encoding of identifiers in knowledge filters: the modelled identifiers are opaque strings.
- KnowledgeLifecycle.Materialize: gives its lists as sets; their order is stated by `KnowledgeReport.MaterializeReport`.
- The TypeScript query reads its clock only for a first page; the model passes a clock reading to every page and uses it as the source does.
- KnowledgeScanStore.ScanStore.constructor: requires a valid skew allowance, where the source throws for any other.
- Mailboxes are values in the relay's map, not objects of their own: aliasing between them is not captured, nor is the order of mailboxes, tombstones and blocked senders inside a snapshot, nor snapshots that no relay produced.
- The listing of an owner's mailboxes and single card reads of the relay: they change nothing, and the listing pages by mailbox id as packet lists do by sequence number.
- MailInbox.MailInbox.Accept: does not let other steps run inside it; `MailInbox.AcceptedWasScreened` and `MailInbox.SessionIsARun` do.
- Inbox snapshots: a restart from one gives back the same entries, so a run of steps continues unchanged.
- Key rings, card caches, profile pins and the client's own nonce counter: maxima by nonce, easier than the rest.
- The mail message inside a frame: unframing is modelled up to the bytes it decodes as UTF-8 JSON.
- The bit operations of the base64url codec are written as the divisions and remainders they compute.
- Class bodies of portable patterns follow the scanner, which does not look at ranges or at the place of a hyphen; category escapes and surrogate pairs are not modelled.
- Signature, closed fields and schema of a replayed envelope are one opaque verdict per record, and its role, state, membership and payload checks another, because they depend on neither head nor base; projections of members, turns and inboxes are not modelled.
- Packs are given with the catalog: their download and digest check are not modelled.
- Resubmissions, join requests and the live host's own bookkeeping around its base check are not modelled; the check itself is.
- Lists of reasons in a delegation verdict are the model's own names for the source's messages.
- TypeScript twins of identity, discourse and delegation: the same logic as the Rust modelled here.
