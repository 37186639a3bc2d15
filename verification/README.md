# VelaEdge control plane in Dafny

VelaEdge's cloud control plane keeps configuration packages for edges, releases them to runtimes
over EdgeLink sessions, rolls product versions out to the edges bound to them, and lets an agent
draft changes that people confirm. This project models that logic and proves what it keeps over
whole runs.

The files follow the program:

- `Control.dfy` is the store and its step system. Each HTTP handler is one step, and the deployment
  handshake of a session is two (send, receive), so that saves fall between them. `Store.dfy` holds
  the same operations as a class updated in loops, each proved to do what its step function says.
- `Releases.dfy`, `ReleaseRuns.dfy` and `Convergence.dfy` prove what every run keeps about releases
  and what a reconnecting runtime is sent; `Packages.dfy` says which configuration is stored and sent,
  `NodeNotes.dfy` what the registry holds about an edge, `Edits.dfy` ties configuration edits to
  releases and `Witnesses.dfy` gives runs that reach the surprising states.
- `Catalog.dfy`, `VersionBodies.dfy` and `ChangeSets.dfy` do the same for product versions, bound
  edges and the agent's change sets; `Governance.dfy` is the review machine.
- `Registry.dfy`, `Discovery.dfy`, `Replies.dfy` and `Framing.dfy` are the gateway session: who gets
  an edge's commands, which reply a discovery command gets and when, and the frames on the wire.
- `Utf8.dfy`, `Scalars.dfy`, `SseLines.dfy`, `DataLines.dfy`, `ToolCalls.dfy`, `Sse.dfy` and
  `SseCuts.dfy` are the model provider's event stream (a subset of sections 9.2.5 and 9.2.6 of the
  WHATWG HTML Living Standard), `ToolLoop.dfy`, `Transcripts.dfy` and `Counters.dfy` the chat around
  it, `RateLimit.dfy` the request limiter.
- `Versions.dfy`, `FreshIds.dfy`, `Materialize.dfy`, `JsonPath.dfy` and `Chunking.dfy` are the small
  algorithms. `Text.dfy` holds string order, trimming and decimal numbers.

What the handlers cannot know beforehand enters as step parameters: release identifiers (drawn fresh,
as UUIDs are), the outcome of materializing and validating a package, whether the database accepted a
write, what the runtime answers. A handler is one atomic step. The program drops the store's mutex
between reading the pending releases (crates/cloud-api/src/state.rs:123-139) and writing the revision
(crates/cloud-api/src/state.rs:148-161), and between loading and storing a change set, so the results
are about serial handlers.

## Where the code does not do what one would expect

Each of these comes with a theorem that says when the code behaves; where an if-and-only-if is stated
it is exact.

- A rollback does not stick. `deployable_config_package` takes the applied release with the greatest
  version string, so a runtime that applied a lower version is sent the higher one again when it
  reconnects (`Convergence.RollbackIsUndone`, reached from the empty store in
  `Witnesses.RollbackIsUndoneFromStart`; if and only if: `Convergence.ReconnectExact`).
- An HTTP report without a desired version is booked on the edge's only pending release, whatever
  version it reports, so a late report of a superseded version fails the newer one
  (`Witnesses.LateHttpReportFails`; if and only if: `ReleaseRuns.LateHttpReportExactly`,
  `ReleaseRuns.HttpReportChangesExactly`).
- An EdgeLink report finds its release by edge and version. If that version was saved again meanwhile,
  the report is booked on the new revision (`Convergence.ReportOfRepeatedVersion`,
  `Witnesses.RepeatedVersionBooked`; if and only if: `ReleaseRuns.ReportChangesExactly`).
- `next_version` counts to 999. After `-999` comes `-1000`, which is below `-999` in string order; the
  latest package then never changes and every edit overwrites the one before
  (`Versions.EditsStallAt999`; if and only if: `Versions.NextVersionExact`).
- The base of a change set for a product without versions is the text "none", and a version may be
  named "none", so two change sets drafted against that base can both be applied
  (`ChangeSets.TwoAppliedOnNone`; if and only if: `ChangeSets.BaseReturnsExactly`).
- A rejected revision is reported as version "rejected", so a version of that name counts as applied
  (`ReleaseRuns.RejectionRecorded`, `Witnesses.RejectedAsApplied`).
- The compatibility publish route supersedes nothing (if and only if:
  `ReleaseRuns.CompatibilityPublish`; `Witnesses.TwoPending`).
- How much text was already streamed when a provider response fails can depend on how the response
  was cut into chunks, although success and result do not (`SseCuts.TextAtRiskShows`,
  `SseCuts.OneLineShows`; if and only if: `SseCuts.ChunksShowExactly`). Valid UTF-8 never shows it.
- The limiter lets through twice its limit within a minute that spans two windows, for every limit
  (`RateLimit.TwiceLimitIsReached`). A minute in which no window starts keeps the limit
  (`RateLimit.QuietMinuteAdmitsAtMostLimit`).
- In the review library, rejecting checks for an agent's name before trimming and confirming after
  (`Governance.RejectCheckIsLaxer`, `Governance.PaddedAgentMayReject`). Through the handlers this does
  not show, as they trim first (`Governance.HandlersRejectAsTheyConfirm`).

## Model

| member | source | states |
|---|---|---|
| Releases.RunsKeepReleases | crates/cloud-api/src/state.rs:111-169 | In every state of every run each edge has at most one pending release, a release is applied exactly when its report named the desired version, every release has its package stored, and every package in flight belongs to the release that chose it. |
| Releases.StepKeepsReleases | crates/cloud-api/src/gateway.rs:989-1140 | Every step (saves, edits, bindings, rollouts, sends, reports, deletions, change sets) keeps that invariant. |
| Releases.CreatesOne | crates/cloud-api/src/state.rs:123-161 | A step that creates releases leaves every other release alone, except that pending ones of the same edges become superseded. |
| Releases.ReportStep | crates/cloud-api/src/gateway.rs:1088-1140 | A report marks one pending release of its edge, or changes no release: over EdgeLink the one whose version was sent, over HTTP the one the desired version names or, without one, the only pending one whatever version is reported. |
| ReleaseRuns.HowAReleaseMoves | crates/cloud-control/src/release.rs:56-72 | A release changes only while pending: by its own report, by supersession through a new pending release of the same edge, by deletion of its edge, or (a separate case) failed by an HTTP report of another version that gives no desired version. |
| ReleaseRuns.HowReleasesAppear | crates/cloud-control/src/release.rs:27-43 | New releases are pending, unreported and carry an identifier never used before. |
| ReleaseRuns.FinalForever | crates/cloud-control/src/release.rs:56-72 | In every run an applied, failed or superseded release is the same in every later state, or deleted for good. |
| ReleaseRuns.ReportChangesExactly | crates/cloud-api/src/gateway.rs:1094-1116 | A runtime's report changes a release if and only if it names the version that was sent and a release of that edge and version is pending. |
| ReleaseRuns.LateReportChangesNothing | crates/cloud-api/src/gateway.rs:1088-1140 | Once the release that was sent is no longer pending, its EdgeLink report changes no release, if the edge's versions are distinct. |
| ReleaseRuns.HttpReportChangesExactly | crates/cloud-api/src/api.rs:2416-2461 | An HTTP report changes a release if and only if one is pending that its desired version, if given, names; the reported version does not matter. |
| ReleaseRuns.HttpReportMarks | crates/cloud-api/src/api.rs:2449-2465 | It is booked on the edge's one pending release, applied or failed by the reported version. |
| ReleaseRuns.LateHttpReportExactly | crates/cloud-api/src/api.rs:2430-2462 | A late HTTP report changes no release if and only if it gives the desired version or nothing is pending; otherwise it fails the newer pending release. |
| ReleaseRuns.RejectionRecorded | crates/cloud-api/src/gateway.rs:1117-1126 | A rejection is recorded as failed unless the version is itself named "rejected", when it is recorded as applied. |
| ReleaseRuns.CompatibilityPublish | crates/cloud-api/src/api.rs:5016-5045 | The compatibility route keeps one pending release per edge if and only if none was pending or it published nothing. |
| Convergence.HighestSpec | crates/cloud-api/src/gateway.rs:1069-1076 | The selection finds a matching release whenever there is one, and none has a greater version; among equals the last in store order is taken. |
| Convergence.PendingIsSent | crates/cloud-api/src/gateway.rs:1061-1086 | A pending revision is what is sent, whatever the runtime runs. |
| Convergence.ReconnectExact | crates/cloud-api/src/gateway.rs:1061-1086 | With nothing pending, a runtime on an applied version is left alone if and only if no applied revision has a greater version; otherwise it is sent one with a greater version. |
| Convergence.HighestIsLastApplied | crates/cloud-api/src/gateway.rs:1061-1086 | In every run in which the edge's versions grow, the highest applied revision is the one applied last and a pending one is above all others. |
| Convergence.ReconnectConverges | crates/cloud-api/src/gateway.rs:1061-1086 | Over growing versions a reconnecting runtime is sent the pending revision; with none pending it is sent nothing if it runs the version applied last (also after rejecting a later one) and otherwise the stored package of that version. |
| Convergence.RollbackIsUndone | crates/cloud-api/src/api.rs:1027-1032 | After any rollback below an applied version, once the runtime reports the lower version applied, its next reconnect sends a greater version. |
| Convergence.ReportOfRepeatedVersion | crates/cloud-api/src/gateway.rs:1094-1116 | Saving the sent version again before the answer books the answer on the revision that was never sent. |
| Edits.EditStores | crates/cloud-api/src/api.rs:7201-7207 | The edit step adds the next version of the latest package to the edge's stored versions. |
| Edits.EditedEdgesGrow | crates/cloud-control/src/store.rs:109-127 | In every run, an edge whose releases after the first come from edits of advancing versions has growing versions, which is what the reconnect results ask for. |
| Edits.EditStepsAreEditRun | crates/cloud-api/src/api.rs:7201-7207 | Consecutive edit steps of the store are an edit run, so the numbering and stalling results apply to them. |
| Witnesses.RollbackIsUndoneFromStart | crates/cloud-api/src/api.rs:1027-1032 | For any two versions a run from the empty store reaches a rollback to the lower one that is undone by the next reconnect. |
| Witnesses.LateHttpReportFails | crates/cloud-api/src/api.rs:2449-2450 | A run from the empty store in which a late HTTP report of the first version fails the second. |
| Witnesses.RepeatedVersionBooked | crates/cloud-api/src/gateway.rs:1094-1116 | A run from the empty store in which the answer is booked on the revision that was never sent. |
| Witnesses.RejectedAsApplied | crates/cloud-api/src/gateway.rs:1117-1126 | A run from the empty store in which a refusal is recorded as applied. |
| Witnesses.TwoPending | crates/cloud-api/src/api.rs:5016-5045 | A run from the empty store after which the compatibility route makes a second pending release. |
| Store.ControlStore.PersistConfigPackage | crates/cloud-api/src/state.rs:111-169 | The loops that collect superseded copies and write the records change the store exactly as the save step says, for valid, invalid and unsaved packages; which body that stores is `Packages.SaveStores`. |
| Store.ControlStore.SupersededCopies | crates/cloud-api/src/state.rs:123-139 | Exactly the edge's pending releases are copied, each as superseded. |
| Store.ControlStore.FindPending | crates/cloud-api/src/gateway.rs:1103-1116 | The first pending release of the edge and version in store order, and none exactly when there is none. |
| Store.ControlStore.MarkRelease | crates/cloud-control/src/release.rs:56-72 | Sets the reported version, applied or failed by comparison with the desired one; an unknown release changes nothing. |
| Store.ControlStore.PersistConfigReport | crates/cloud-api/src/gateway.rs:1088-1140 | Records a report exactly as the report step says, notes the applied version on the node, and refuses a report for another version unchanged. |
| Store.ControlStore.FindHighest | crates/cloud-api/src/gateway.rs:1069-1076 | The loop computes the highest release of the edge with that status. |
| Store.ControlStore.DeployablePackage | crates/cloud-api/src/gateway.rs:1061-1086 | Chooses the release the deployment function names, or none, and gives the package stored for that release's version. |
| Store.ControlStore.PlanRollout | crates/cloud-api/src/api.rs:1090-1130 | Plans exactly the records of all bound edges, and gives no plan if and only if some bound edge gets no valid package. |
| Store.ControlStore.TransitionProductVersion | crates/cloud-api/src/api.rs:1034-1178 | The prepared and then written rollout changes the store exactly as the transition step says; a refusal or a failed database write changes nothing. |
| Store.InsertAllGives | crates/cloud-api/src/api.rs:1147-1163 | Writing records that agree with a target and cover what differs gives the target, in any order. |
| Packages.SaveStores | crates/cloud-api/src/state.rs:111-169 | A save that is written stores the given body under its edge and version, valid or not; nothing else stored changes. |
| Packages.EditStoresBody | crates/cloud-api/src/api.rs:7201-7207 | An edit stores the edited body under the version after the latest. |
| Packages.BindingStores | crates/cloud-api/src/api.rs:1534-1693 | Creating or binding an edge stores the package built for it under the published version it is bound to. |
| Packages.RolloutStores | crates/cloud-api/src/api.rs:1090-1130 | A rollout stores for every bound edge the package built for that edge, under the version rolled out. |
| Packages.PackagesMove | crates/cloud-api/src/state.rs:111-169 | Every step stores for an edge and version exactly the body it was asked to store, erases an edge's packages exactly when it deletes the edge, and leaves the rest. |
| Packages.RunsStoreLastBody | crates/cloud-api/src/state.rs:111-169 | In every state of every run the stored package of an edge and version is the body last stored for them since the edge was deleted, if ever. |
| Packages.SentIsLastStored | crates/cloud-api/src/gateway.rs:1007-1086 | What a session sends is the body last stored for the edge and the chosen release's version. |
| NodeNotes.NodesMove | crates/cloud-api/src/gateway.rs:1117-1140 | What the registry holds about an edge after any step: product and desired version move only by creation, binding or a rollout that reaches the edge, the reported version exactly when a report applies a pending release of that edge, to its version, and the entry goes exactly when the edge is deleted. |
| NodeNotes.ReportFinds | crates/cloud-api/src/gateway.rs:1103-1116 | A report of the version that a pending release of its edge wants is booked on such a release. |
| NodeNotes.NotesAreReports | crates/cloud-api/src/gateway.rs:1127-1137 | In every run a version noted as reported was named earlier by a report for a pending release of that edge that wanted it. |
| Catalog.RunsKeepCatalog | crates/cloud-api/src/api.rs:871-1018 | In every state of every run a product's latest version, once set, is its only published version, and each edge bound to the product desires it and has a package for it. |
| Catalog.StepKeepsCatalog | crates/cloud-api/src/api.rs:1534-1693 | Every step keeps that, including bindings, deletions and applied change sets. |
| Catalog.TransitionIsAllOrNothing | crates/cloud-api/src/api.rs:1034-1178 | A rollout gives every bound edge the version, its package and a new pending release, keeps the version's body and touches nothing else; if any bound edge has no valid package nothing at all changes. |
| VersionBodies.BodiesMove | crates/cloud-api/src/api.rs:920-1018 | A step stores as a version exactly the body it was asked to store (a new version, a draft saved again, an applied change set), deletes exactly the drafts and the unbound products it was asked to delete, and leaves every other body; a published version is never a draft again. |
| VersionBodies.PublishedBodiesStay | crates/cloud-api/src/api.rs:966-971 | In every run the body of a version that has been published never changes, through retirement and rollback, while its product is not deleted. |
| ChangeSets.AppliedOnItsBase | crates/cloud-api/src/api.rs:3364-3447 | In every run a change set becomes applied only in a step that found it confirmed by a person on a valid report, its product at its base version and its target absent, and that left the target published as the latest with the body the set proposes. |
| ChangeSets.InvalidApplyVoids | crates/cloud-api/src/api.rs:3364-3447 | Applying a confirmed set that no longer validates voids its confirmation and returns it to draft with the same proposal, and touches nothing else. |
| ChangeSets.StepMovesChanges | crates/cloud-api/src/api.rs:3623-3771 | Every step keeps the review rules of all change sets and never alters what a change set proposes. |
| ChangeSets.StepAdvances | crates/cloud-api/src/api.rs:1059-1088 | Without rollbacks and product deletion a product's latest version only moves to versions that were absent or drafts, and used versions stay used. |
| ChangeSets.BaseReturnsExactly | crates/cloud-api/src/api.rs:3364-3447 | In runs without rollbacks and product deletion, after a change set was applied its product stands at its base again if and only if the base is "none", the set found the product without a version, and the product now stands at a version named "none". |
| ChangeSets.OneAppliedPerBase | crates/cloud-api/src/api.rs:3364-3447 | So in such runs two change sets on one product and base are both applied only in that case. |
| ChangeSets.OneAppliedPerNamedBase | crates/cloud-api/src/api.rs:3623-3771 | So a base not named "none" admits one change set. |
| ChangeSets.TwoAppliedOnNone | crates/cloud-api/src/api.rs:3674-3686 | A run from the empty store in which two change sets on one product and base are both applied. |
| Governance.RunsAreWellGoverned | crates/cloud-control/src/agent_v2.rs:531-664 | In every run of either machine a result is set exactly in terminal states, a confirmation exactly past confirmation, and then the report holds no error and the evidence meets the policy; a report is valid exactly without errors. |
| Governance.ConfirmExact | crates/cloud-control/src/agent_v2.rs:783-918 | A confirmation is accepted if and only if the item awaits one and the evidence is human, with a note and two approvers where required; it then sets the status and the evidence and nothing else. |
| Governance.ValidateExact | crates/cloud-control/src/agent_v2.rs:531-556 | A validation is accepted if and only if the item is unsettled; then the report holds exactly the issues given, the item awaits confirmation exactly when none of them is an error and is a draft otherwise, and any confirmation is void. |
| Governance.RejectExact | crates/cloud-control/src/agent_v2.rs:602-639 | A rejection is accepted if and only if the item is unsettled, the actor is not blank and, as passed, not named as a machine, and a reason is given; the outcome holds that actor and that reason. |
| Governance.RunningExact | crates/cloud-control/src/agent_v2.rs:590-664 | An item starts if and only if it is confirmed, and finishes if and only if it runs, as succeeded or failed with the given result. |
| Governance.ConfirmationFollowsReport | crates/cloud-control/src/agent_v2.rs:531-664 | Past confirmation, the history holds the report, which has no error, and, later, the confirmation, with no accepted validation after that report. |
| Governance.TerminalForever | crates/cloud-control/src/agent_v2.rs:783-918 | No sequence of actions changes an item in a terminal state. |
| Governance.TerminalAbsorbs | crates/cloud-control/src/agent_v2.rs:531-664 | Terminal states refuse every action, and an accepted revalidation always voids the confirmation. |
| Governance.TwoApprovers | crates/cloud-control/src/agent_v2.rs:230-251 | Two approvers are counted if and only if both names are human and differ after trimming. |
| Governance.RejectCheckIsLaxer | crates/cloud-control/src/agent_v2.rs:602-639 | The library's two actor checks differ exactly on a machine name behind leading blanks. |
| Governance.PaddedAgentMayReject | crates/cloud-control/src/agent_v2.rs:602-639 | Such a name, passed untrimmed to the library function, may reject but not confirm. |
| Governance.HandlersRejectAsTheyConfirm | crates/cloud-api/src/api.rs:7992-8014 | Both handlers trim the actor first; on what they pass the two checks agree, so rejecting through them succeeds if and only if the item is open, the actor is human and a reason is given. |
| Governance.Governed.RecordValidation | crates/cloud-control/src/agent_v2.rs:531-556 | Updates the fields as the machine says (`Governance.ValidateExact`) and refuses settled items unchanged. |
| Governance.Governed.ConfirmBy | crates/cloud-control/src/agent_v2.rs:558-588 | Updates the fields as the machine says, with the machine's refusal otherwise. |
| Governance.Governed.RejectBy | crates/cloud-control/src/agent_v2.rs:602-639 | The same for rejecting. |
| Governance.Governed.StartRunning | crates/cloud-control/src/agent_v2.rs:590-600 | The same for starting to apply or dispatch. |
| Governance.Governed.FinishRunning | crates/cloud-control/src/agent_v2.rs:641-664 | The same for success and failure. |
| Registry.EntryIsLastRegistered | crates/cloud-api/src/gateway.rs:145-166 | After every interleaving of registrations and removals an edge's entry is its last registered session, and there is none exactly when that session has left since. |
| Registry.OnlineExactly | crates/cloud-api/src/gateway.rs:145-166 | With identifiers drawn once, an edge is online if and only if its last registered session has not left. |
| Registry.StaleSessionLeaves | crates/cloud-api/src/gateway.rs:158-166 | A session other than the last registered one leaves without effect. |
| Registry.CommandRegistry.AddSession | crates/cloud-api/src/gateway.rs:145-156 | Replaces the edge's entry. |
| Registry.CommandRegistry.RemoveSession | crates/cloud-api/src/gateway.rs:158-166 | Removes the entry only if this session holds it. |
| Discovery.RunsBalance | crates/cloud-api/src/gateway.rs:842-987 | In every session run at most one request is pending, and for every channel the commands taken equal the replies made plus the one that waits. |
| Discovery.EveryChannelResolvedOnce | crates/cloud-api/src/gateway.rs:979-987 | When the session has ended every command taken has had exactly one reply, sent or dropped. |
| Discovery.DeliveriesAreJustified | crates/cloud-api/src/gateway.rs:882-929 | A report is delivered only to the channel of the last request written, only with that request's job and connection, and only after it was stored. |
| Replies.RepliesExactly | crates/cloud-api/src/gateway.rs:863-975 | In a live session a turn replies on a channel if and only if the event calls for it: the report, when it names the waiting job and connection and is ours, saved and acknowledged; dropped, when one of those fails; refused as a mismatch, with the runtime's reason or the default one, as busy, or with the write error; and nothing else. |
| Replies.ClosingExactly | crates/cloud-api/src/gateway.rs:979-987 | The end of the session refuses exactly the command that still waits. |
| Replies.StatusExactly | crates/cloud-api/src/gateway.rs:858-975 | When a turn ends the session and when it fails it, both ways. |
| Replies.AcksExactly | crates/cloud-api/src/gateway.rs:882-940 | A turn acknowledges exactly the accepted messages that are ours, kept and written, and stores exactly the matching reports that are ours. |
| Replies.WaitingExactly | crates/cloud-api/src/gateway.rs:863-975 | Which request waits after a turn. |
| Replies.MatchingReportIsDelivered | crates/cloud-api/src/gateway.rs:882-975 | In every session, if the first answer to a written request is a report for its job and connection that is ours, saved and acknowledged, the command's channel gets that report. |
| Replies.RunsCount | crates/cloud-api/src/gateway.rs:842-975 | A session that has not failed has accepted as many messages as it acknowledged, and numbers its requests from 10000 on, saturating. |
| Replies.RequestWritten | crates/cloud-api/src/gateway.rs:941-975 | A command written while nothing waits becomes the request with its job, connection, message and the next number. |
| Discovery.GatewaySession.Handle | crates/cloud-api/src/gateway.rs:858-975 | One turn of the loop does what the turn function says, whose replies, acknowledgements and endings the `Replies` rows state exactly. |
| Discovery.GatewaySession.Serve | crates/cloud-api/src/gateway.rs:842-987 | The loop and the closing replies produce exactly the session's effects and its count of accepted messages. |
| Framing.StreamRoundTrip | crates/cloud-api/src/gateway.rs:811-834 | Reading the frames of any list of messages of at most 16 MiB gives exactly that list. |
| Framing.CutStream | crates/cloud-api/src/gateway.rs:1267-1312 | A stream cut anywhere yields exactly the messages whose frames are complete, and no error exactly when the cut is between frames. |
| Framing.FrameRoundTrip | crates/edge-core/src/edgelink.rs:361-387 | Decoding a frame gives its message back whatever follows; every proper prefix is refused. |
| Framing.EncodeFrame | crates/edge-core/src/edgelink.rs:345-359 | A frame is the length header and the payload, refused exactly above the limit. |
| Framing.ReadsExactly | crates/cloud-api/src/gateway.rs:1267-1312 | A read yields a message and a rest if and only if a whole frame within the limit stands at the front, its payload decodes to the message and the rest follows; it ends exactly on an empty stream. |
| Framing.TooLargeIsRefused | crates/edge-core/src/edgelink.rs:361-377 | A length above the limit is refused by the reader and the decoder, however much follows. |
| Framing.ReadMessage | crates/cloud-api/src/gateway.rs:1267-1312 | One read gives the same result however the header arrives. |
| Framing.ReadLoop | crates/cloud-api/src/gateway.rs:811-834 | The loop reads what the stream means, for every split of the headers. |
| Framing.Header | crates/edge-core/src/edgelink.rs:354-355 | Four bytes whose big-endian value is the length. |
| Sse.ChunkingDoesNotMatter | crates/cloud-api/src/agent_service.rs:1269-1354 | For every byte stream and every way of cutting it, decoding succeeds exactly when the whole stream means something, and gathers exactly that: its trimmed, non-empty, non-[DONE] data lines, with LF LF and CRLF CRLF mixed. |
| Sse.StreamedCalls | crates/cloud-api/src/agent_service.rs:1294-1338 | On success there is a tool call for exactly the indices that occur, with id, name and arguments joined from the fragments in order. |
| Sse.StreamedText | crates/cloud-api/src/agent_service.rs:1293-1297 | On success the text events are the contents of all choices of the whole stream's payloads in order, the text is all of them joined, and the usage is the sum over all chunks. |
| Sse.AbsorbAllIsFold | crates/cloud-api/src/agent_service.rs:1283-1312 | Handling payloads fails exactly if one does not parse, and otherwise folds the parsed chunks. |
| SseCuts.ChunksShowExactly | crates/cloud-api/src/agent_service.rs:1269-1354 | For every stream: all ways of cutting it decode alike, with every parser and down to the text sent before a failure, if and only if no LF LF ends after the last separator before which all is valid UTF-8, or no payload lies between the last LF LF before that place and the place. |
| SseCuts.SteadyStreamsDecodeAlike | crates/cloud-api/src/agent_service.rs:1269-1354 | The sufficient half for any one parser. |
| SseCuts.SentIsPrefix | crates/cloud-api/src/agent_service.rs:1269-1354 | Whatever the outcome, what was gathered and sent is the text of the first payloads of the stream, in order, up to one that does not parse or to a place with no further safe place to go to. |
| SseCuts.ValidIsSteady | crates/cloud-api/src/agent_service.rs:1285 | Every valid UTF-8 stream meets the condition. |
| SseCuts.TextAtRiskShows | crates/cloud-api/src/agent_service.rs:1280-1297 | Whenever payloads at that place parse and yield text, sending the stream whole and cutting it there show different text before the failure. |
| SseCuts.OneLineShows | crates/cloud-api/src/agent_service.rs:1280-1297 | That is so for every one-line ASCII payload whose parse yields text, ended by CR LF CR LF and followed by an invalid byte and LF LF. |
| Sse.RoundOfResponse | crates/cloud-api/src/agent_service.rs:1321-1372 | The round is a function of the whole response; it fails if and only if the response means nothing or a call is not usable; otherwise it has one call per index that occurs, in increasing order, joined from the fragments, the text of all choices joined (none exactly when that is empty), and the summed usage. |
| Sse.HandlePayloads | crates/cloud-api/src/agent_service.rs:1286-1316 | The loop over an event's lines handles it as the event function says. |
| Sse.DrainBuffer | crates/cloud-api/src/agent_service.rs:1280-1316 | The inner loop cuts and handles every complete event as the draining function says. |
| Sse.DecodeStream | crates/cloud-api/src/agent_service.rs:1269-1354 | The buffer loop returns the whole stream's meaning; on success the text events sent are the contents of all choices in order and the text and the usage are theirs, joined and summed. |
| ToolCalls.CallIsJoined | crates/cloud-api/src/agent_service.rs:1299-1312 | A call's fields are the in-order concatenation of the fragments with its index. |
| Utf8.ValidSplit | crates/cloud-api/src/agent_service.rs:1285 | Text may be cut in front of an ASCII byte without changing whether it is well-formed UTF-8. |
| Scalars.ValidExactly | crates/cloud-api/src/agent_service.rs:1285 | Bytes are accepted if and only if they are the UTF-8 encoding of some sequence of Unicode scalar values. |
| DataLines.LinePayloadIs | crates/cloud-api/src/agent_service.rs:1286-1290 | A line has the payload p if and only if it is data: followed by p with white space around it, p trimmed, not empty and not [DONE]. |
| DataLines.PayloadsOfLines | crates/cloud-api/src/agent_service.rs:1286-1290 | The payloads of a text are those of its lines in order, ended or not. |
| ToolLoop.ChatIsGood | crates/cloud-api/src/agent_service.rs:404-517 | For every provider and tools, a finished chat made at most twelve attempts, completed once and last, gave every tool call its result in order with its id, started exactly the calls the assistant made, and reports a fallback exactly when it fell back. |
| ToolLoop.OnlyPairedConversationsAreSent | crates/cloud-api/src/agent_service.rs:404-517 | The provider is asked only in rounds one to four, attempts one to three, and only with conversations in which every tool call has its result. |
| ToolLoop.RoundAttempts | crates/cloud-api/src/agent_service.rs:644-667 | A round makes attempts 1, 2, 3 in order, each after a retryable failure of the one before and up to one that is not or is the third; its text events and its reply are those of the last attempt. |
| ToolLoop.CallsAnswered | crates/cloud-api/src/agent_service.rs:463-513 | Results answer a round's calls one for one, and each call is started and done once. |
| ToolLoop.CallsExecuted | crates/cloud-api/src/agent_service.rs:467-513 | Executing a round's calls fails if and only if one output cannot be encoded; otherwise result i has the id of call i and what the tool gave for that call, and the events are, call by call, its start, its end with its own success and its own filter event. |
| Transcripts.ChatTold | crates/cloud-api/src/agent_service.rs:404-517 | Every chat with the provider is a log of rounds, each with the reply of its last attempt on the conversation so far and the genuine results of its calls, and ends with the trimmed text of the last reply, with the fallback reason of that round, with a failure on an output that cannot be encoded, or after four rounds; messages and events are exactly those of the log. |
| Transcripts.OneReply | crates/cloud-api/src/agent_service.rs:644-667 | A round's events and reply are settled by the provider. |
| Transcripts.OneTelling | crates/cloud-api/src/agent_service.rs:404-517 | So is each round of the log, given the rounds before. |
| Transcripts.NoRequestMade | crates/cloud-api/src/agent_service.rs:331-402 | A suspected injection is blocked, a chat without a provider is answered locally, both without a fallback, and a problem before the first request is the fallback reason; none makes an attempt. |
| ToolLoop.AskProvider | crates/cloud-api/src/agent_service.rs:624-668 | The attempt loop gives the round's events and reply. |
| ToolLoop.ExecuteCalls | crates/cloud-api/src/agent_service.rs:467-513 | The call loop gives the round's events and result messages, each result with its call's id and output, or fails if one cannot be encoded. |
| ToolLoop.RunChat | crates/cloud-api/src/agent_service.rs:325-517 | The whole loop over messages and events computes the chat that `Transcripts.ChatTold` tells. |
| Counters.CountersStayConsistent | crates/cloud-api/src/agent_service.rs:519-585 | Over every sequence of chats requests are provider answers, local answers and failures together (exactly, below saturation), fallbacks are at most local answers and failed tool calls at most tool calls; saturation breaks none of it. |
| Counters.CountersAreTotals | crates/cloud-api/src/agent_service.rs:519-585 | After any chats each of the ten counters is the exact total of what the chats were worth (provider answers, local answers, failures, fallbacks, attempts, calls, failed calls, blocks, filtered items, requests), or the largest 64-bit number. |
| Counters.Observability.Record | crates/cloud-api/src/agent_service.rs:519-585 | Updates every counter by saturating additions, event by event, as the recording function says. |
| Counters.Observability.TallyEvents | crates/cloud-api/src/agent_service.rs:563-585 | Adds one per event of each kind, and the items of filter events. |
| RateLimit.SharedDecidesAsOwn | crates/cloud-api/src/mcp.rs:142-160 | The shared map with its purge decides every call exactly as the subject's own window would, for every nondecreasing clock read several times per call. |
| RateLimit.WindowAdmitsAtMostLimit | crates/cloud-api/src/mcp.rs:152-158 | Each window admits at most the limit. |
| RateLimit.AdmittedExactly | crates/cloud-api/src/mcp.rs:152-158 | A call is admitted if and only if fewer calls than the limit were admitted before it in the window it is counted in. |
| RateLimit.WindowRule | crates/cloud-api/src/mcp.rs:146-151 | A subject's next call is counted in the same window exactly while its clock reading is less than a minute after the start; otherwise a new window starts during the call. |
| RateLimit.FirstWindow | crates/cloud-api/src/mcp.rs:146-151 | A subject's first window starts during its first call, empty. |
| RateLimit.MinuteAdmitsAtMostTwiceLimit | crates/cloud-api/src/mcp.rs:142-160 | Any half-open minute admits at most twice the limit for a subject. |
| RateLimit.QuietMinuteAdmitsAtMostLimit | crates/cloud-api/src/mcp.rs:142-160 | A minute strictly inside which no window of the subject starts admits at most the limit. |
| RateLimit.TwiceLimitIsReached | crates/cloud-api/src/mcp.rs:142-160 | For every limit of at least one, a run in which one minute admits twice the limit. |
| RateLimit.Limiter.PermitsRequest | crates/cloud-api/src/mcp.rs:142-160 | Purges, opens, renews and counts the windows as the specification says. |
| Versions.NextVersionExact | crates/cloud-api/src/api.rs:7201-7207 | The next version is above the version in string order if and only if the stated shape of its suffix holds, and is never equal to it. |
| Versions.NextVersionIs | crates/cloud-api/src/api.rs:7201-7207 | After a hyphen and a number the next version is the next number padded to three digits, and none exactly at the greatest 64-bit one; after a hyphen and anything else it is 001; without a hyphen -001 is added. |
| Versions.EditBecomesLatest | crates/cloud-control/src/store.rs:109-127 | An edit of an advancing version becomes the latest package and overwrites no stored revision; of any other version the latest stays what it was. |
| Versions.EditsAreNumbered | crates/cloud-api/src/api.rs:7201-7207 | The first 999 edits of a version without hyphen are numbered in order and each becomes the latest. |
| Versions.EditsStallAt999 | crates/cloud-api/src/api.rs:7201-7207 | From 999 on every further edit writes the same revision and the latest never changes. |
| FreshIds.NextId | crates/cloud-api/src/api.rs:6706-6715 | The search ends for every list, after at most length plus one tries, with the first unused identifier. |
| FreshIds.Pigeonhole | crates/cloud-api/src/api.rs:7209-7282 | A list holds no more consecutive candidates than it has entries. |
| Materialize.PointMappings | crates/cloud-api/src/api.rs:6602-6683 | One mapping per point of the listed sets, in order, routed as every configuration naming it says; a point no configuration names goes where the first configuration goes, or else to the first connection and the first device or "device-1"; it fails exactly without a connection, on a point with two routes, or on an unknown set, in this order. |
| Materialize.CollectRoutes | crates/cloud-api/src/api.rs:6629-6651 | The table holds exactly the named points with their routes, or a point with two routes is returned. |
| Materialize.MaterializedPassesRouteChecks | crates/cloud-control/src/validation.rs:339-385 | On every materialized list the validator's wrong-device and wrong-connection errors never arise. |
| Materialize.CheckConfigs | crates/cloud-control/src/validation.rs:339-385 | The nested loops report exactly the problems of each configuration's points. |
| Materialize.ProblemsExactly | crates/cloud-control/src/validation.rs:339-385 | A problem is reported if and only if a point of a configuration is blank, has no mapping, or has a last mapping on another device, on another connection or not readable. |
| Materialize.IndexMappings | crates/cloud-control/src/validation.rs:41-46 | The table finds the last mapping of each point. |
| JsonPath.InsertPath | crates/cloud-api/src/api.rs:4483-4512 | For the non-blank parts of the path between dots, trimmed: the walk sets the value there and leaves every path beside as it was, or fails exactly when there is no such part or a proper prefix reads no object; on failure the document is as it was although parents are added on the way. |
| JsonPath.SetThenGet | crates/cloud-api/src/api.rs:4483-4512 | After setting, the path reads the value and every path that is neither prefix nor extension reads as before. |
| JsonPath.SetFailsExactly | crates/cloud-api/src/api.rs:4496-4509 | Setting fails if and only if a proper prefix of the path reads a value that is no object. |
| JsonPath.SetLaws | crates/cloud-api/src/api.rs:4483-4512 | Setting what is there changes nothing, and the last of two settings wins. |
| JsonPath.SplitJoins | crates/cloud-api/src/api.rs:4488-4492 | The parts hold no dot and joined by dots are the path. |
| JsonPath.SegmentsNameParts | crates/cloud-api/src/api.rs:4488-4492 | A list is the path's segments if and only if there are increasing indices, exactly those of the parts that are not blank, and segment k is the trimmed part at index k. |
| Text.TrimIs | crates/cloud-api/src/api.rs:4490 | Trimming takes white space off both ends, as much as there is, and nothing else. |
| Chunking.ChunksRebuildText | crates/cloud-api/src/agent_knowledge.rs:288-304 | The first chunk followed by every later one without its first 96 characters is the text. |
| Chunking.ChunkSizes | crates/cloud-api/src/agent_knowledge.rs:288-304 | No chunk is empty or longer than 720 characters, and every later one has at least 97. |
| Chunking.ChunkCount | crates/cloud-api/src/agent_knowledge.rs:288-304 | A text of n > 720 characters gives exactly (n - 96) / 624 chunks, rounded up. |
| Chunking.ChunkText | crates/cloud-api/src/agent_knowledge.rs:288-304 | The loop gives the chunks of the text. |

## Left out

- Interleaved handlers: each handler is one step, although the program releases the store's mutex between reading and writing.
- SQL, TLS, TCP, routing, MQTT and the HTTP calls to the model provider: only whether they succeed, as a parameter.
- JSON text: messages, stream payloads and tool results are encoded and decoded by functions that are parameters; a parser may reject anything.
- The select loop's cancellation of a half-read frame (crates/cloud-api/src/gateway.rs:861-862): framing is proved for the uninterrupted reader loop, and a session is a sequence of whole messages.
- Delivery of configuration notices: a pending revision is proved to be kept, not to be delivered.
- An error of the connection in the middle of a provider response: it ends the response as an undecodable payload would.
- Package validation beyond point references and routes, and the command flow and address validators: a package is valid or not as a step parameter.
- Project, capability, display and credential fields of edges, products and packages, and audit records.
- Text of answers given locally, token usage of a whole chat and its costs, latencies, and the identifier inside the disconnect message of a session.
- In-place forms of edits, bindings, deletions, HTTP reports and change set handlers: they are step functions on values; the save, the report, the selection and the rollout are also methods on the store.
- The successor of a version whose number is the largest 64-bit one: the addition overflows there, and the edit gives no version.
- StreamedText: token counts are unbounded numbers; the 64-bit additions of the source would overflow beyond 2^64 - 1.
- QuietMinuteAdmitsAtMostLimit: one direction only, since a minute in which a window starts may still admit few calls; the number depends on all calls of both windows.
- Restarting from the database.
- Diagnostic thresholds, knowledge ranking, prompt filters and response formatting: branching on constants.
