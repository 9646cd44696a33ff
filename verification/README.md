# Gateway and bridge: a verified model

A Dafny model of the stateful parts of the gateway and of the component bridge, with proofs about
whole runs of them. `dafny verify dfyconfig.toml` checks everything.

| module | models |
|---|---|
| `Events`, `Broadcaster` | the event fan-out: filters, bounded drop-oldest queues, the replay ring, subscription caps, as functions with their theory and as the classes that update them |
| `StreamProtocol`, `StreamOrder`, `StreamDelivery`, `StreamRepeats`, `StreamConnection`, `StreamCursor`, `StreamLoss`, `StreamRuns`, `StreamLasting` | one client of the event stream over whole runs of publish, connect, replay, write, receive, disconnect and reconnect with `Last-Event-ID` |
| `SseFormat`, `SseFrames` | the frame printer and the standard's event-stream parser (sections 9.2.5 and 9.2.6 of the WHATWG HTML Living Standard) |
| `RateLimiter`, `RateRefusals` | the token bucket and its sweep, over exact reals and a clock that does not run backwards |
| `OrderedDict`, `ClaimStore`, `Conversations`, `Server` | conversation claims, turns, trimming and account erasure in the durable store; the two caches over it; the objects that hold them |
| `AccountDeletion` | the deletion handler, each of its steps able to fail, and retries of it |
| `Regexes`, `Exporter`, `Sanitizer`, `BuiltInTable`, `BuiltInRules` | what regular-expression search means, the exporter's rewriting, the sanitizer's scans and its built-in table |
| `Manifest`, `Approval` | the manifest's lifecycle; the owner's approval, interleaved, and the deployer's guards behind it |
| `Routes` | path templates, their compiled matcher, first-match resolution, sequential batches |
| `Chain`, `Paymaster` | certificate-chain checking; the paymaster's byte layout and digest |

Where the source changes state step by step (subscribers and the broadcaster, the limiter, the
memory manager and the gateway server, the deletion handler, the manifest, the approval gate, the
loops over patterns, lines, frames, routes and certificates) there is a method or a class whose
contract equates its new state with a function of the old one; the properties are proved about
those functions and their runs.

The stores behind the gateway are modelled from their own code (`runtime/memory/manager.py`,
`runtime/notifications/token_store.py`, `runtime/auth/session_store.py`): a claim is inserted only
when absent and under a fresh id, a save compares the exact claim and, for the unclaimed state, the
erasure log; an erasure is one transaction; a removed session leaves the in-process cache before its
row is deleted.

## Where the code and its documentation differ

* Account deletion reports a failed session removal as leaving the session token valid, so that the
  client can retry. The removal drops the cached session first, so the token no longer opens the account in
  that process and the retry is answered 401; `SessionUsableIff` says exactly when the session
  survives a failed attempt.
* The greeting frame carries no id. A client that starts each stream with an empty id buffer, as
  section 9.2.6 of the standard words it, loses its cursor to it; one that carries the cursor over,
  as browsers do, never does. `CursorKeptIff` is the exact condition, `LossIsReachable` a run that
  loses an event.
* Registering before replaying means that a ring which turns over in between replays events ahead of
  older ones still queued: `OrderCanFail` is such a run, `OneConnection` and `ReplayLastsIff` are the
  exact conditions for order and for losing nothing, and `BufferedCursorInTime` says that a cursor
  still in the ring meets the first.
* Only the account a conversation id names is to use it. The id is cut to a hundred characters, so accounts
  with the same first ninety-five share it and the first to come takes it: `OwnConversationIff` is the
  exact condition, `OwnConversationIsKept` what holds below it.
* The manifest refuses "deployed" for an entry that is not approved, and nothing else:
  `AttestedWithoutApproval` marks one attested, which the summary counts as deployed;
  `CountedApprovedIff` says exactly which runs of calls keep all it counts approved.
* Approve and reject are said to act on a pending request; neither tests for it, so a later verdict
  replaces an earlier one or an expiry, and a refused approval leaves the status but not the reason
  unchanged. `StatusIsLastVerdict` states the exact rule.
* The quick check and the scan of the sanitizer search the whole text and single lines.
  `ChecksAgreeIff` and `ChecksAlwaysAgreeIff` say exactly when they agree, `CategoryAgreesIff` for
  which built-in categories; `LineFeedHidesAMatch` is a key assignment split over two lines that
  only the quick check finds.
* Sweeping the limiter is unobservable only when five minutes refill a whole burst, and so are refused
  requests in a swept limiter; `PruningInvisibleIff` and `RefusalInvisibleIff` are the exact
  conditions.
* Packing `paymasterAndData` does not check the address length; `UnpackIff` is the exact condition
  under which the documented offsets read back what was packed.

## Model

| member | source | states |
|---|---|---|
| Events.RingHoldsMostRecent | gateway/event_broadcaster.py:183-185 | after any publish the replay ring is the last `capacity` events of the whole history |
| Events.ReplayTailIs | gateway/event_broadcaster.py:343-357 | a replay from a known cursor is everything after it when it is still buffered, the whole ring when it has rotated out |
| Events.ReplayCompleteIff | gateway/event_broadcaster.py:326-364 | a replay is exactly the matching events after the cursor if and only if none of them has left the ring |
| Events.OfferAccounted | gateway/event_broadcaster.py:115-142 | publishing keeps conservation: matched events since registration are a merge of those handed out and those dropped, followed by the queue |
| Events.TakeAccounted | gateway/event_broadcaster.py:314-322 | handing out the head of the queue keeps conservation |
| Events.QueueConservation | gateway/event_broadcaster.py:107-142 | matched = handed out + queued + dropped; what was handed out is an in-order subsequence, each position used once, before the queued suffix; with no drop nothing is missing |
| Broadcaster.Subscriber.constructor | gateway/event_broadcaster.py:98-113 | an empty queue; what was asked for, an empty collection counting as not asked |
| Broadcaster.Subscriber.TryEnqueue | gateway/event_broadcaster.py:126-142 | a full queue loses its oldest event, counts it, and takes the new one |
| Broadcaster.EventBroadcaster.Register | gateway/event_broadcaster.py:230-282 | refused with the global or the per-address scope exactly when that many subscribers, in all or from that address, are registered, in this order; otherwise appended; every invariant kept |
| Broadcaster.EventBroadcaster.Unregister | gateway/event_broadcaster.py:284-290 | removes that subscriber alone, ignores one that is not registered |
| Broadcaster.EventBroadcaster.Publish | gateway/event_broadcaster.py:115-142 | a subscriber changes if and only if its types hold the event's type, its components the event's component, and its session is the event's or one of the two names none; its queue then keeps the newest events it can hold; the count is of those that changed; the ring holds the newest of the history, conservation and both caps hold afterwards |
| Broadcaster.EventBroadcaster.Replay | gateway/event_broadcaster.py:326-364 | what the loop over the ring returns, in terms of the whole history |
| Broadcaster.EventBroadcaster.NextFor | gateway/event_broadcaster.py:301-322 | the head of the subscriber's queue or a keep-alive tick; conservation kept |
| StreamDelivery.ResumeWithoutLoss | gateway/service_routes.py:3530-3626 | over every run whose replays start from a resumable cursor, every event since the first registration that the client asked for by type, component and session is received, counted as dropped, or still on its way; once nothing is on its way, every one is received or counted |
| StreamDelivery.ReceivedWasAskedFor | gateway/event_broadcaster.py:115-124 | over every run a client receives only events of the types, components and session it asked for, never one of another session |
| StreamDelivery.BufferedCursorIsResumable | gateway/event_broadcaster.py:334-336 | a cursor still in the ring is always resumable |
| StreamConnection.OneConnection | gateway/service_routes.py:3570-3626 | over every run, on a connection without overflow: the stream with repeats removed is exactly the matching events from the earlier of replay start and registration on, in publish order, if and only if the replay starts no later than the registration or nothing matching lies on one side of its start; and the repeats are exactly the events both the replay and the queue cover |
| StreamConnection.OverlapIsExact | gateway/service_routes.py:3530-3574 | the same for a replayed slice and a live queue at any positions, with the stream spelt out where its order fails |
| StreamLasting.BufferedCursorInTime | gateway/event_broadcaster.py:343-357 | after any run, a replay from a cursor still in the ring starts just after it and no later than the registration, so its stream is in order |
| StreamLasting.OrderCanFail | gateway/service_routes.py:3530-3574 | a run without overflow whose stream is out of order: a ring of one, two events between registration and replay |
| StreamCursor.CarriedCursorStays | gateway/service_routes.py:3590-3601 | a client that carries its cursor into each stream never loses it to the id-less greeting |
| StreamCursor.GreetingResetsCursor | gateway/service_routes.py:3588-3601 | for a client that starts with an empty id buffer, an uneventful reconnect clears the cursor |
| StreamCursor.GreetingCanLoseEvents | gateway/service_routes.py:3570-3601 | after which an event published before the next registration is neither delivered nor counted |
| StreamCursor.LossIsReachable | gateway/service_routes.py:3570-3601 | a run from an empty history that ends in that loss, for any two matching events |
| StreamCursor.CursorKeptIff | gateway/service_routes.py:3588-3622 | over all runs, a client that has a cursor keeps one if and only if it carries its cursor into each stream or its filter lets no event pass |
| StreamCursor.BuiltFiltersHear | gateway/event_broadcaster.py:107-124 | a subscriber's filter always lets some event pass, so the second case never arises |
| StreamLoss.ReplayAccountsIff | gateway/service_routes.py:3530-3574 | after any run, whatever the cursor: at the moment after a replay every matching event is accounted for if and only if those from before what the replay and the queue cover were received or counted already |
| StreamLasting.ReplayLastsIff | gateway/service_routes.py:3530-3626 | a replay loses nothing, however the run goes on with resumable replays, if and only if moreover it sends nothing or every matching event queued ahead of its start was received or counted already |
| StreamLoss.LeftOutIsLost | gateway/service_routes.py:3530-3626 | an event a replay leaves out is never received or counted in any continuation, reconnects included |
| StreamProtocol.ReceiveIsParse | gateway/service_routes.py:3607-3622 | the client step of the protocol is what the standard's parser does with the written bytes |
| SseFrames.FormatSse | gateway/service_routes.py:3652-3659 | the printed frame, line by line |
| SseFrames.StreamRoundTrip | gateway/service_routes.py:3636-3659 | parsing any concatenation of frames and keep-alive comments yields exactly the printed events in order, and the client's id is that of the last frame that carried one |
| SseFrames.UnbrokenPayload | gateway/service_routes.py:3655-3657 | a payload comes back unchanged if and only if it breaks lines by line feeds alone and does not end in one |
| SseFrames.TypeSurvivesIff | gateway/service_routes.py:3652-3654 | a frame is read back under its own type exactly when the type is not empty and holds no line ending |
| RateLimiter.Limiter.Allow | gateway/server.py:90-100 | the answer and the one bucket changed |
| RateLimiter.Limiter.Cleanup | gateway/server.py:102-107 | exactly the buckets untouched for five minutes are forgotten |
| RateLimiter.TokensAreLeastHeadroom | gateway/server.py:90-100 | the tokens a request finds are the least, over all requests up to it, of burst plus refill since then minus requests admitted since then |
| RateLimiter.AdmissionExact | gateway/server.py:90-100 | a request is admitted if and only if, counted from every request up to it, the admitted ones and itself fit into burst plus refill |
| RateLimiter.WindowBound | gateway/server.py:90-100 | no window that ends in an admitted request admits more than burst plus the refill over it |
| RateLimiter.RefusalLeavesNoTrace | gateway/server.py:93-100 | for one key, while its bucket is not swept: removing a refused request anywhere in a trace changes no later answer |
| RateRefusals.RefusalInvisibleIff | gateway/server.py:90-107 | in a swept limiter with any number of keys, removing a refused request changes no later answer over all traces if and only if burst < 1 or burst <= 5 rpm |
| RateLimiter.KeysIndependent | gateway/server.py:78-91 | what a key's bucket holds depends on its own requests and the sweeps alone |
| RateLimiter.AnswerIsAdmission | gateway/server.py:90-107 | with any number of keys interleaved, swept or not, each answer is the exact rule applied to the request times of that key since its bucket was created |
| RateLimiter.KeyBucketIsBucketBefore | gateway/server.py:90-107 | a key's bucket is that of its requests since it was created; a sweep more than five minutes after the last starts it afresh |
| RateLimiter.PruningInvisible | gateway/server.py:90-107 | when burst <= 5 rpm, no answer in any trace shows whether sweeps took place |
| RateLimiter.PruningVisible | gateway/server.py:90-107 | when burst > 5 rpm and burst >= 1, a trace exists whose answers differ |
| RateLimiter.PruningInvisibleIff | gateway/server.py:90-107 | sweeping is unobservable over all traces if and only if burst < 1 or burst <= 5 rpm |
| OrderedDict.EvictKeepsRecent | gateway/server.py:2910-2916 | the eviction loop keeps exactly the newest `cap` keys with their values, among them the key just touched |
| OrderedDict.RetainsMostRecent | gateway/server.py:2896-2904 | over any run of touches and drops the cache holds a suffix of the keys by recency, all of the newest `cap` when nothing was dropped |
| OrderedDict.RetainedIff | gateway/server.py:2896-2917 | exactly which keys, drops included: those touched and, at every moment since, among the newest `cap` not dropped |
| ClaimStore.AdmissionExact | gateway/server.py:2830-2878 | a turn is refused exactly when the conversation is another account's, by a name "user:" followed by anything but the caller's identity or by claim; an admitted one runs under the claim that now stands |
| ClaimStore.OwnConversationIsKept | gateway/server.py:2866-2878 | over every run, whoever tries first: the conversation "user:" with an account's name of under 95 characters is nobody's or that account's, is never refused to it and is refused to everyone else |
| ClaimStore.OwnConversationIff | gateway/server.py:2878-2878 | an account is never refused the conversation named after it if and only if its name has under 95 characters; longer ones are cut and shared |
| ClaimStore.StandsIff | runtime/memory/manager.py:764-792 | exactly when a claim read at admission still stands after any run of opens, saves, erasures and log pruning |
| ClaimStore.LateTurnAddsNothing | gateway/server.py:2925-2958 | a turn whose conversation was erased or claimed anew since its admission stores nothing, even when the same subject claimed it again |
| ClaimStore.UndisturbedTurnIsStored | runtime/memory/manager.py:449-510 | a turn whose claim nobody disturbed is stored, trimmed, and no other conversation changes |
| ClaimStore.ClaimIdentifiesOwner | runtime/memory/manager.py:541-565 | a claim id is only ever held by the owner it was made for |
| ClaimStore.EraseKeeps | runtime/memory/manager.py:586-651 | an erasure frees and empties exactly the account's conversations and keeps the store's invariant |
| ClaimStore.EraseLogs | runtime/memory/manager.py:586-651 | and logs, under a new number and exactly when there are any, exactly those that do not name an account |
| ClaimStore.SaveKeeps | runtime/memory/manager.py:449-510 | a save happens exactly when its claim is for that conversation and stands, and changes that conversation's messages alone |
| ClaimStore.PruneKeeps | runtime/memory/manager.py:794-821 | pruning the erasure log keeps the store's invariant, conversations and claims |
| ClaimStore.PruneMeans | runtime/memory/manager.py:794-811 | pruning drops exactly the erasures up to the newest one older than the window, and remembers how far it has gone |
| ClaimStore.StoredHistoryFromEmpty | gateway/server.py:2941-2953 | from an empty store, a stored history is the end of all turns recorded since it began or was erased, roles alternating: all of it up to a hundred messages, exactly the last fifty at a hundred and two, and so on every 52 |
| ClaimStore.ShownOnlyOwnTurns | gateway/server.py:2824-2851 | over every run, the history an admitted caller is shown holds only that account's turns and turns from before anyone had claimed it |
| Conversations.StepTransparent | gateway/server.py:2892-2963 | one operation on the cached gateway answers, and leaves the store, as the store alone would, and keeps every cached copy equal to the stored one |
| Conversations.CachesAreTransparent | gateway/server.py:2892-2963 | the same over every run, for caches of any size |
| Conversations.LateTurnLeavesNoCopy | gateway/server.py:2953-2958 | a late turn is in neither the store nor the working set |
| Conversations.WorkingSetIsMostRecent | gateway/server.py:2896-2958 | from a fresh process, after any run the working set holds exactly the conversations touched and, at every moment since, among the newest not dropped by a refusal, a failed save or an erasure; in order of recency, within the cap, each equal to its store entry |
| Server.MemoryManager.EvictConversations | runtime/memory/manager.py:887-893 | the loop over the cache is the eviction proved above |
| Server.MemoryManager.LoadConversation | runtime/memory/manager.py:512-515 | the cached messages after a lazy load |
| Server.MemoryManager.Claim | runtime/memory/manager.py:541-565 | the claim in the store and in the cache |
| Server.MemoryManager.Write | runtime/memory/manager.py:449-510 | a refused write drops the cached copy, a failing store changes nothing |
| Server.MemoryManager.EraseOwner | runtime/memory/manager.py:586-672 | all of the account or, on failure, nothing |
| Server.MemoryManager.OwnerConversationIds | runtime/memory/manager.py:567-584 | the ids in the store and those only a cached copy names |
| Server.GatewayServer.OpenTurn | gateway/server.py:2830-2851 | check, claim and answer, on the live caches |
| Server.GatewayServer.ConversationHistory | gateway/server.py:2892-2917 | hit, miss, re-insertion and eviction |
| Server.GatewayServer.TurnConversation | gateway/server.py:2919-2923 | the history followed by the new message, which is not stored |
| Server.GatewayServer.RecordTurn | gateway/server.py:2925-2958 | append, trim, write through, and drop on refusal or failure |
| Server.GatewayServer.ForgetConversations | gateway/server.py:2960-2963 | exactly the named copies go |
| Server.GatewayServer.EraseAccount | gateway/server.py:1169-1196 | the erasure and, whether or not it failed, the dropping of this process's copies |
| AccountDeletion.AccountService.HandleAccountDelete | gateway/server.py:1119-1250 | every step and every failure exit of one attempt, on the live gateway; once the erasure is tried, failing or not, this process keeps no copy of the account's conversations |
| AccountDeletion.SuccessIsComplete | gateway/server.py:1090-1250 | success means the account owns no conversation; exactly the devices that record it, or record nobody and are filed under the presented token, the account's reserved id or one of its conversations, are gone; its session is gone from process and disk, and other accounts' conversations are untouched |
| AccountDeletion.SessionUsableIff | gateway/server.py:1240-1250 | after a failed attempt the session still works exactly when the failing call was not the session removal |
| AccountDeletion.RetriedDeletionFinishes | gateway/server.py:1132-1250 | after any interleaving of attempts by this and other accounts, failing or not, registrations, other traffic and restarts, an attempt that succeeds leaves none of the devices that were the account's at the start, were registered again only for it, or without an owner while it was recorded on them, and were out of reach of other accounts' attempts; and no conversation and no session |
| AccountDeletion.WithoutAdoptionADeviceSurvives | gateway/server.py:1077-1088 | without the adoption, a retried deletion answers success over a device that is still registered |
| Regexes.SameMeans | bridge/sanitizer.py:48-85 | characters agree when they are the same or, where case is ignored, the same letter in the other case |
| Regexes.SplitIff | bridge/sanitizer.py:154-155 | the lines of a text are the one way to write it as pieces without line feeds |
| Regexes.LineMatchIsTextMatch | bridge/sanitizer.py:154-159 | a match on a line is a match in the text |
| Regexes.LineSearchIff | bridge/sanitizer.py:154-159 | searching line by line finds something exactly when the text holds a match without a line feed |
| Regexes.TextMatchIsLineMatch | bridge/sanitizer.py:151-176 | for expressions that cannot match a line feed, searching the text and searching its lines agree |
| Exporter.StripPrivateRefs | bridge/exporter.py:146-155 | the loop over the ten patterns |
| Exporter.SubCreatesNothing | bridge/exporter.py:146-155 | substituting one pattern creates no match of any other |
| Exporter.SubIsClean | bridge/exporter.py:146-155 | a substitution leaves no match of its own pattern |
| Exporter.StripOnlyCuts | bridge/exporter.py:146-155 | for every text, the result is the text with some parts replaced by the marker, each matched as a whole by one of the ten regular expressions, and everything between them kept |
| Exporter.StripTheorem | bridge/exporter.py:56-67 | for every text no pattern matches the stripped text; text is left alone if and only if no pattern matches it; stripping twice changes nothing more |
| Exporter.SearchIsFound | bridge/exporter.py:56-67 | the matcher finds something exactly when the regular expression matches some part |
| Sanitizer.ScanContent | bridge/sanitizer.py:151-168 | the three nested loops |
| Sanitizer.QuickCheck | bridge/sanitizer.py:170-176 | true exactly when no rule is found anywhere in the text |
| Sanitizer.Validate | bridge/sanitizer.py:115-149 | all files' violations in order; clean exactly when there are none |
| Sanitizer.ScanReportsExactly | bridge/sanitizer.py:156-166 | one report for every rule found on a line, with the right file, line number, category and description and the first 120 characters of the line without white space at its ends, and no other |
| Sanitizer.BundleIsClean | bridge/sanitizer.py:126-136 | a bundle is clean exactly when no rule is found on any line of any file |
| Sanitizer.QuickCleanScansClean | bridge/sanitizer.py:151-176 | what the quick check passes has nothing to report |
| Sanitizer.ScanFindsLineMatches | bridge/sanitizer.py:151-168 | a scan reports something exactly when some rule has a match that holds no line feed |
| Sanitizer.ChecksAgreeIff | bridge/sanitizer.py:151-176 | the quick check and the scan agree on a text if and only if it passes the quick check or some rule has a match in it without a line feed |
| Sanitizer.ChecksAlwaysAgreeIff | bridge/sanitizer.py:151-176 | a table's two checks agree on every text if and only if every string one of its rules matches holds some rule's match without a line feed |
| Sanitizer.ScanAgreesOnLineRules | bridge/sanitizer.py:151-176 | in particular when no rule can match a line feed |
| Sanitizer.StrippedTextPassesSharedRules | bridge/exporter.py:146-155 | stripped text triggers no sanitizer rule that searches for one of the exporter's patterns |
| Sanitizer.StrippedTextReports | bridge/exporter.py:146-155 | everything a scan of stripped text reports comes from a rule that is not one of the exporter's patterns |
| BuiltInRules.SharedRules | bridge/sanitizer.py:48-85 | the seven rules of the built-in table that search for the exporter's plain words |
| BuiltInRules.SevenNeverReported | bridge/sanitizer.py:48-92 | a scan with the built-in table of text that went through the exporter reports none of the seven |
| BuiltInRules.CategoryAgreesIff | bridge/sanitizer.py:48-92 | of the four built-in categories exactly the closed-source one has checks that agree on every text |
| BuiltInRules.LineFeedHidesAMatch | bridge/sanitizer.py:48-92 | with the whole built-in table, the quick check finds a private key split over two lines and the scan reports nothing |
| Manifest.ManifestManager.CreateEntry | bridge/manifest.py:102-132 | refused exactly when the component has an active entry, otherwise appended |
| Manifest.ManifestManager.Find | bridge/manifest.py:134-149 | the reverse search, for active and for any entries |
| Manifest.ManifestManager.UpdateSanitizer | bridge/manifest.py:151-165 | changes the active entry alone |
| Manifest.ManifestManager.UpdateApproval | bridge/manifest.py:167-181 | changes the active entry alone |
| Manifest.ManifestManager.UpdateDeployment | bridge/manifest.py:183-217 | the guard, the target and the fields changed |
| Manifest.ManifestManager.UpdateIosPackaged | bridge/manifest.py:219-226 | changes the most recent entry alone |
| Manifest.ManifestManager.GetSummary | bridge/manifest.py:232-246 | the five counts |
| Manifest.ActiveIsLatest | bridge/manifest.py:134-149 | an active entry is unique and the component's most recent, so both searches find it |
| Manifest.CallTouchesLatestOnly | bridge/manifest.py:151-226 | no call changes any but the component's most recent entry |
| Manifest.LifecycleAlways | bridge/manifest.py:102-226 | from any manifest of that kind, every sequence of calls keeps active entries most recent, deployed ones approved, and the entries that were there |
| Manifest.LifecycleFromEmpty | bridge/manifest.py:102-226 | over every sequence of calls from an empty manifest: active entries are most recent, deployed ones are approved, entries are never removed, reordered or renamed |
| Manifest.CountedStepIff | bridge/manifest.py:151-246 | one call keeps everything the summary counts as deployed approved if and only if it does not mark an entry attested whose approval is missing |
| Manifest.CountedApprovedIff | bridge/manifest.py:102-246 | over every sequence of calls from an empty manifest: at every moment everything counted as deployed is approved if and only if no call marks an unapproved entry attested |
| Manifest.AttestedWithoutApproval | bridge/manifest.py:203-212 | two calls that do |
| Manifest.SummaryPartitionsIff | bridge/manifest.py:232-246 | the deployed, pending and failed counts partition the total exactly when every status is one of the documented four |
| Manifest.DocumentedStatuses | bridge/manifest.py:183-217 | calls that use the documented statuses keep every status documented |
| Approval.ApprovalGate.Request | bridge/approval_gate.py:97-104 | a fresh pending decision; one filed under the same id is replaced |
| Approval.ApprovalGate.Poll | bridge/approval_gate.py:126-135 | expiry of a pending decision once the time has run out, and nothing else |
| Approval.ApprovalGate.ApproveLookup | bridge/approval_gate.py:155-161 | what a call holds across its await |
| Approval.ApprovalGate.ApproveFinish | bridge/approval_gate.py:163-176 | an authorised call approves the decision it holds, a refused one changes only the reason |
| Approval.ApprovalGate.Reject | bridge/approval_gate.py:178-187 | rejects the decision the id stands for now |
| Approval.SharedIdIff | bridge/approval_gate.py:98-98 | two requests share an id exactly when they fall in the same second and their component and version read the same; with no underscore in versions, exactly when all three are equal |
| Approval.AmbiguousIds | bridge/approval_gate.py:98-98 | otherwise two components can share one |
| Approval.StateFollows | bridge/approval_gate.py:97-187 | the gate's whole state, pending ids and the calls still suspended included, is determined by the order of the steps |
| Approval.StatusIsLastVerdict | bridge/approval_gate.py:97-187 | in every interleaving, each status exactly: approved if and only if the last verdict on that decision was an authorised approval, rejected if a rejection, expired or pending if there was none, by whether the request was found waiting for 3600 seconds |
| Approval.TargetWasNamed | bridge/approval_gate.py:155-167 | an approval acts on the decision its request id stood for when it looked it up |
| Approval.UnownedNeverApproves | bridge/approval_gate.py:77-83 | without owner verification nothing is ever approved |
| Approval.ReplacedRequestOnlyExpires | bridge/approval_gate.py:97-104 | a request replaced under the same id that no call still holds can only expire |
| Approval.Deploy | bridge/deployer.py:78-186 | both guards in order, the installation's failure, and an attestation that never blocks |
| Approval.DeployNeedsTheOwner | bridge/deployer.py:100-128 | a deployment goes through exactly when the scan was clean, the owner's last word was an authorised approval, and the files could be written |
| Routes.Compile | gateway/service_routes.py:447-463 | the scanning loop, and the error for an unclosed parameter |
| Routes.MatchIsLongestFit | gateway/service_routes.py:455-462 | for every template and path the matcher accepts exactly the filled-in templates and returns the arguments that take the most from the left |
| Routes.ExpandRoundTrip | gateway/service_routes.py:447-463 | matching a filled-in template returns exactly the arguments used, when parameters end their segments |
| Routes.TemplateCompiles | gateway/service_routes.py:447-463 | a template written as segments compiles to its elements and names |
| Routes.TemplateAccepts | gateway/service_routes.py:455-463 | the compiled matcher accepts a path exactly when it agrees segment by segment, possibly after dropping one final line feed |
| Routes.BindMeans | gateway/service_routes.py:597-597 | each name is bound to its group's value; a repeated name keeps its last |
| Routes.BuildRoutes | gateway/service_routes.py:576-580 | the compiled table, entry by entry |
| Routes.AcceptsMeans | gateway/service_routes.py:589-596 | a route accepts exactly its own method, letter by letter in either case, and the paths that agree with its template |
| Routes.ResolveBatchRoute | gateway/service_routes.py:582-599 | the first accepting entry with its parameters, nothing exactly when none accepts |
| Routes.RouteRoundTrip | gateway/service_routes.py:447-463 | from the written template to the handler's parameters: each receives the argument used |
| Routes.RunBatchSequential | gateway/service_routes.py:3346-3368 | results up to and including the first failure, then one aborted result per remaining item, aligned with the request |
| Chain.AcceptableMeans | gateway/iap.py:175-219 | the check spelled out: window ends included for every certificate, CA flags, issuance step by step, the pinned or issuing root, the marker |
| Chain.LoadChain | gateway/iap.py:126-139 | one to five certificates that all parse, or an error |
| Chain.VerifyChain | gateway/iap.py:164-219 | the leaf exactly when the presented list is a certification path to a pinned root with a non-CA leaf and, if asked for, the marker; otherwise the first thing wrong, in the order of the checks; not configured exactly when no root is |
| Chain.PathIsPointwise | gateway/iap.py:185-215 | the separate loops together establish the inductive path |
| Chain.AcceptanceIsTrust | gateway/iap.py:164-219 | a leaf can be presented acceptably from a pool of certificates exactly when it is trusted by induction from the roots |
| Chain.MoreRootsAcceptMore | gateway/iap.py:200-213 | pinning more roots never refuses a chain that was accepted |
| Paymaster.UnpackIff | gateway/paymaster.py:89-96 | the documented offsets read back what was packed exactly when the address has twenty bytes |
| Paymaster.ValueOfBigEndian | gateway/paymaster.py:94-95 | a value in range is read back from its word |
| Paymaster.BigEndianOfValue | gateway/paymaster.py:94-95 | every word is the encoding of its value |
| Paymaster.UnhexOfHex | gateway/paymaster.py:96-96 | the hexadecimal text determines the bytes |
| Paymaster.DigestIs | gateway/paymaster.py:58-77 | the digest is the hash of exactly 160 bytes, around the hash of exactly 288, with every field at its documented place, and exists exactly when the inputs can be laid out so |
| Paymaster.DigestBinds | gateway/paymaster.py:42-77 | equal digests mean equal inputs, all thirteen, or one of four concrete hash collisions |

## Left out

- Input and output, metrics, logging, messages to the owner, timestamps kept for display, HTTP
  status codes and headers. Failures of such calls are parameters.
- Limiter.Allow: the clock is read once; the source reads it twice when it creates a bucket.
- RateLimiter: exact reals, so floating-point rounding is not captured.
- StreamProtocol: follows one client of the stream; cancellation inside `asyncio.wait_for` and
  refused registrations (see `Register`) are not steps of its runs.
- SseFrames: works on decoded characters; UTF-8, the byte-order mark and the `retry` field are not
  modelled.
- Regexes: case folding and white space beyond ASCII.
- Sanitizer.Validate: takes any list of categories; merging extra patterns into the built-in table
  by category name is not modelled.
- ClaimStore: scoped agent memory, protocol stacks, restoring a missing erasure-state row, and
  conversations whose rows name several owners.
- Server.GatewayServer.RecordTurn: one step (append, trim, save, drop on refusal), as is an erasure
  with the dropping of copies after it; finer interleavings are not modelled.
- Server.MemoryManager.Write: saves under a claim, as the gateway's only call does; the optional owner
  and a save without a claim are not modelled.
- Server.MemoryManager.EraseOwner: the scoped agent memory erased in the same transaction is not
  modelled.
- Server.GatewayServer.EraseAccount: the protocol stacks dropped with the copies are not modelled.
- AccountDeletion.AccountService.HandleAccountDelete: nothing interleaves inside one attempt; Apple
  revocation is not part of it.
- AccountDeletion.RetriedDeletionFinishes: session expiry and new sign-ins during the retries are not
  modelled.
- Exporter: the content hash of a bundle, its structure check and staging on disk.
- Manifest.ManifestManager: loading and saving the file, and entries changed through a returned
  reference.
- Approval: the summary text and the listing of pending requests; deployment ids and attestation ids
  are given.
- Routes.BuildRoutes: upper case beyond ASCII is not modelled; takes the table of methods and templates as given; the source's own table is
  not copied.
- Routes.RunBatchSequential: what running one item does, and batches that run in parallel.
- Chain: reading PEM and DER, signatures and the comparison of names; the issuance relation is given.
- Paymaster.DigestBinds: a hash into 32 bytes cannot be injective, so a collision is named instead of
  assumed away; the signature over the digest, reading an address from hexadecimal, the sponsorship
  policy and its reservations are not modelled.
