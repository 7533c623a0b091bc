# MDevolved: verified models of its state machines and byte formats

This project models, in Dafny 4.11, the parts of MDevolved on which its safety promises rest, and proves
those promises for every input, every interleaving and every reachable state. `dafny verify dfyconfig.toml`
checks everything.

| Files | What they model |
|---|---|
| `Tickets`, `AgentAccessStore`, `GrantRuns`, `GrantHistory`, `ApprovalRuns`, `FlowHistory` | Consent flows, agent grants, replacement edges, prepared handoffs and collaboration grants. Every database batch is one atomic step; a class runs it statement by statement, in the order of the source, and is tied to a function on the tables. The approval handler is cut at every `await` and interleaved with other approvals, denials, revocations and changes by other stores. |
| `OwnerAuth`, `OwnerAuthRuns`, `OwnerHistory`, `PendingClaims`, `RateLimiter` | Passkey challenges, the owner and its credentials, sessions, the invited first-owner claim and what becomes of it between its two batches, and the bucketed rate limiter together with the cleanup that deletes its rows. |
| `InstallerAssets`, `VaultInstaller` | The plugin installer: its manifest, the fetched assets, the enabled-plugin list, and the write-and-roll-back transaction over a vault in which every file-system call may fail and a failing write may leave anything behind at its own path. |
| `ByteReader`, `BackupArchive` | The chunked reader of decrypted backups, and the backup inspector on top of it. |
| `PortableIndex`, `SnapshotArchive`, `SnapshotMeaning`, `SnapshotRoundTrip` | Bounded streams, the index of a portable snapshot and its tiling of the file, the snapshot inspector, and a written snapshot read back by it. |
| `PathPrefixes`, `Visibility`, `FolderScopes` | Sets of path prefixes, what an agent may see, and how ticked folders become stored prefixes. |
| `RefreshPanel` | Latest-wins refresh of the collaboration panel with sticky local revocations. |
| `ShellQuote` | The commands offered for pasting, read back by a reader for POSIX shell words. |
| `Common` | Options, results, bytes, text decoding, concatenation of chunks. |

Modelling decisions:

- SHA-256, UTF-8, JSON with its schemas, age decryption, Unicode normalisation with lower-casing, and the
  vault-path rules that do not concern slashes are function parameters. What a theorem assumes of them is in
  its `requires`, of the texts at hand where it can be (for instance `Survives`, `FitsOnALine`, `FoldsBySegment`);
  the schema refinements that the code relies on (distinct part ids, manifest first, entries matching objects) are
  written out as `WellFormed`.
- What a grant allows (folders, profile, scopes) is one opaque value, `terms`, that no batch looks at.
- Strings are compared by UTF-16 code units, as the source sorts them (`PathPrefixes.OrderIsByCodeUnits`).
- Clocks, tokens, hashes, OAuth results, callbacks and network answers are inputs. Identifiers are strings
  compared only for equality.
- A text decoder in its default mode drops one leading byte order mark. The models keep that.
- Other writers of the shared tables (`prepared-project-handoff-store.ts`, the collaboration store, session
  deletion with its cascade) appear as `Elsewhere` steps, which may do anything to those rows except make a
  handoff live for a grant that is not active (prepared-project-handoff-store.ts:152-189).
- A batch that breaks a key, a foreign key or a CHECK constraint is undone as a whole.

What the proofs brought to light:

- The rate limiter is exact for windows up to 86401 seconds and for no longer ones: beyond that the cleanup can
  delete a full bucket while it still counts (`RateLimiter.ExactIffWindowFits`). An interval of one window can
  hold twice the limit, and every policy with a window of two seconds or more can be driven there
  (`RateLimiter.SlidingBoundIsReached`).
- Prefixes and note keys are stored lower-cased but not normalised again, while the path check normalises what it is
  asked and a profile folds the prefixes again; and lower-casing a normalised text does not always leave it
  normalised. Three promises fail for that reason, on a name with a capital J and a combining caron, and hold under
  these exact conditions:
  - Without a profile an agent can read every note in every ticked folder exactly when every ticked folder, folded,
    still lies in a ticked one (`FolderScopes.TickedFoldersAreSeenIff`). Otherwise the grant shuts the agent out of
    its own folder (`FolderScopes.TickedFolderIsHidden`).
  - migrations/README.md:206-207 says that profiles may only narrow a grant. They do under that same condition
    (`FolderScopes.StoredScopeNarrowsIff`, `Visibility.ProfilesNarrowIff`); otherwise a profile lets the path check
    pass where the grant alone does not (`Visibility.ProfileWidensUnfoldedKey`).
  - The check on listed notes agrees with the check on paths exactly for keys that folding leaves alone
    (`Visibility.NotesFollowPathsIff`, `Visibility.StoredGrantsAgreeIff`). Otherwise a note is listed that cannot be
    read (`Visibility.ListedButNotReadable`), or one whose name is never to be exposed
    (`Visibility.NeverExposedNameIsListed`).
- migrations/README.md:117-119 says that an interrupted authorization leaves its grant pending or revoked. A request
  that stops between the committed activation and its answer leaves it active
  (`ApprovalRuns.ActiveWithoutAnswer`); what holds is that every active grant was activated by its own request, and
  that it is answered exactly if that request went on to answer (`ApprovalRuns.ActiveMeansOwnActivation`).
- Revoking all grants does not stop a request that has consumed its flow and not yet inserted its grant
  (`ApprovalRuns.SuccessAfterRevokeAll`); every request that held a grant by then is stopped, unless it had
  activated it before (`ApprovalRuns.RevokeAllStopsApprovals`).
- The claim of a managed registration is lost when a further challenge is created between the consumption of the
  registration's challenge and its commit, whether by the same holder of a live invitation or by another one;
  otherwise it stays (`PendingClaims.ClaimSurvivesIffNoChallenge`, `PendingClaims.PendingClaimCommitsIff`). One
  reachable state from which the commit succeeds at once and fails after such a request:
  `PendingClaims.SecondInvitationSpoilsTheFirst`.
- migrations/README.md:178-180 speaks of edges for equivalent rotations; the code records one for every active
  grant of the same client and vault, whatever its terms (`GrantRuns.EdgeBetweenAnyTerms`). Edges join equal terms
  exactly when every rotation did (`GrantRuns.EdgesJoinEqualTermsIff`). The model follows the code.
- A backup note whose text begins with a byte order mark reaches the callback without it; all other notes come
  back exactly (`BackupArchive.BuiltBackupReadsBack`).
- The folder check and the file check agree for every folder, but for the empty path only while no bare `/`
  is among the prefixes (`Visibility.RootAgreesIffNoBareSlash`). The profile schema and the folder scopes never
  produce one.
- The installer's check for a missing asset can never fire once the other checks have passed
  (`InstallerAssets.NoAssetIsMissing`).

## Model

| member | source | states |
|---|---|---|
| Tickets.IssueAccounted | apps/worker/src/agent-access-store.ts:146-189 | issuing a ticket under a new token, with the sweep of used and expired rows, keeps the account of issued and spent tokens |
| Tickets.UseAccounted | apps/worker/src/agent-access-store.ts:191-228 | a row that can be redeemed belongs to a token never spent before, however rows were deleted meanwhile |
| Tickets.DropAccounted | apps/worker/src/auth-store.ts:231-238 | deleting any rows keeps the account |
| AgentAccessStore.EdgeStatement | apps/worker/src/agent-access-store.ts:298-372 | the edge insert, run before the revocation, records one edge per displaced grant and keeps older edges |
| AgentAccessStore.HandoffStatement | apps/worker/src/agent-access-store.ts:298-372 | the handoff update, run after the revocation, closes the live handoffs of all superseded grants |
| AgentAccessStore.Store.CreateConsentFlow | apps/worker/src/agent-access-store.ts:146-189 | sweeps, then inserts a flow living ten minutes; a surviving row with the same hash, or a session that is not there, undoes the batch |
| AgentAccessStore.Store.ConsumeConsentFlow | apps/worker/src/agent-access-store.ts:191-228 | succeeds exactly for an unused, unexpired flow of this session, marks it with the decision and returns its content |
| AgentAccessStore.Store.CreatePendingAgentGrant | apps/worker/src/agent-access-store.ts:230-296 | inserts a pending grant on the given terms exactly when the vault is active and the id new; otherwise changes nothing |
| AgentAccessStore.Store.ActivateAgentGrant | apps/worker/src/agent-access-store.ts:298-372 | statement by statement: activate, record edges, revoke priors, close their handoffs; reports whether the grant was pending |
| AgentAccessStore.Store.RevokeAgentGrant | apps/worker/src/agent-access-store.ts:579-618 | closes the grant's handoffs and collaborations and revokes it if it was live; reports whether it was |
| AgentAccessStore.Store.RevokeAllAgentGrants | apps/worker/src/agent-access-store.ts:620-658 | closes all handoffs, the collaborations of live grants and all live grants; counts the latter |
| AgentAccessStore.Store.RevokeVault | apps/worker/src/pairing-store.ts:1325-1368 | the effect of a vault revocation on the same tables |
| AgentAccessStore.Store.TouchAgentGrant | apps/worker/src/agent-access-store.ts:565-577 | stamps only an active grant |
| AgentAccessStore.Store.ReadActiveAgentGrant | apps/worker/src/agent-access-store.ts:472-516 | returns a row exactly for an active grant of that client and audience in an active vault whose runtime profile, if any, can be read |
| GrantRuns.AcyclicChainsEnd | migrations/0024_agent_grant_continuity.sql:1-18 | acyclic replacement edges over finitely many grants lead to a grant without successor |
| GrantRuns.ActivationIsIdempotent | apps/worker/src/agent-access-store.ts:298-372 | activating a grant that is not pending changes no table |
| GrantRuns.StepKeepsInv | apps/worker/src/agent-access-store.ts:146-658 | every batch, and every change made elsewhere, keeps the whole invariant: one active grant per pair, sound acyclic edges, one predecessor, fitting times, grounded handoffs |
| GrantRuns.RunMovesForward | apps/worker/src/agent-access-store.ts:230-658 | between any two points of a run statuses only move pending, active, revoked, pair, audience and terms stay, and edges are neither lost nor changed |
| GrantRuns.LineageOverRuns | apps/worker/src/agent-access-store.ts:298-372 | at every point of every run: at most one active grant per client and vault, edges that form disjoint finite chains, live handoffs only for active grants |
| GrantRuns.ExplicitRevocationIsFinal | migrations/README.md:178-183 | a grant revoked without a successor stays revoked and never gains one |
| GrantRuns.SuccessorIffRotated | migrations/README.md:178-183 | a grant has a successor exactly when the activation of another grant of its pair ended it |
| GrantRuns.EdgesJoinEqualTermsIff | migrations/README.md:178-183 | at any point of a run all edges join grants of equal terms exactly when every rotation so far displaced a grant of the terms it activated |
| GrantRuns.EdgeBetweenAnyTerms | apps/worker/src/agent-access-store.ts:298-372 | for any two terms there is a run that ends with an edge between grants of these terms: client and vault alone decide |
| GrantRuns.RevokeAllIsFinal | apps/worker/src/agent-access-store.ts:620-658 | after revoke-all every grant then known is revoked for good, no handoff is live, and collaborations of live grants are closed |
| GrantRuns.RevocationIsFinal | apps/worker/src/agent-access-store.ts:579-618 | a single revocation is permanent, leaves no successor and ends every handoff and collaboration built on the grant |
| GrantRuns.RotationHandsOver | apps/worker/src/agent-access-store.ts:298-372 | a rotation activates one grant, revokes exactly the one active prior, adds exactly one edge, closes that prior's handoffs and touches nothing else |
| GrantRuns.ActivatedOnce | apps/worker/src/agent-access-store.ts:298-372 | a grant that was ever active was activated by exactly one event of the run |
| GrantHistory.GrantsIff | apps/worker/src/agent-access-store.ts:230-658 | the grants are those inserted for an active vault under a new id; each keeps its origin, is pending until its activation or a revocation, active from then until a revocation or the activation of another grant of its client and vault, and carries the times of activation and last use |
| GrantHistory.ReadableIff | apps/worker/src/agent-access-store.ts:472-516 | the authorization read yields a grant exactly when it was activated while pending and not ended since, for its own client and audience, in an active vault with a readable profile |
| GrantHistory.NoReadAfterRevocation | apps/worker/src/agent-access-store.ts:579-658 | once a revocation of the grant, its vault or everything reached a grant, no later read yields it |
| GrantHistory.RevocationTouchesWhatItReaches | apps/worker/src/agent-access-store.ts:579-658 | row by row what a revocation changes, and that it changes nothing else |
| ApprovalRuns.NextKeepsInv | apps/worker/src/agent-access-routes.ts:462-757 | every move of every request keeps grants, requests and spent flows matched |
| ApprovalRuns.TablesRun | apps/worker/src/agent-access-routes.ts:462-757 | an interleaving of requests is, on the tables, a run of batches |
| ApprovalRuns.SuccessMeansActivated | apps/worker/src/agent-access-routes.ts:680-717 | a success answer means that this very request turned its grant from pending to active |
| ApprovalRuns.AnswersStand | apps/worker/src/agent-access-routes.ts:645-717 | an answer once given does not change |
| ApprovalRuns.FailureLeavesRevoked | apps/worker/src/agent-access-routes.ts:645-698 | a request that answered with failure, or is about to, leaves the grant revoked and never activated, for the rest of the run |
| ApprovalRuns.ActiveMeansOwnActivation | migrations/README.md:117-122 | every active grant was activated by the request that inserted it, which has answered with success exactly if it made its answering move since |
| ApprovalRuns.ActiveWithoutAnswer | apps/worker/src/agent-access-routes.ts:680-717 | a run that stops behind the activation: an active grant and no answer |
| ApprovalRuns.RevokeAllStopsApprovals | apps/worker/src/agent-access-store.ts:620-658 | no grant present at a revoke-all is ever active later; no request that then held a grant still to be activated succeeds; one that succeeds with a grant of that time had activated it before |
| ApprovalRuns.SuccessAfterRevokeAll | apps/worker/src/agent-access-routes.ts:474-717 | a run in which a request that had only consumed its flow at the revoke-all goes on to succeed |
| ApprovalRuns.FlowsAreUsedOnce | apps/worker/src/agent-access-store.ts:146-228 | a consent flow is consumed at most once, as approved or as denied, and only unexpired |
| ApprovalRuns.GrantsTraceToApprovedFlows | apps/worker/src/agent-access-routes.ts:474-541 | every grant traces to a flow consumed as approved, different grants to different flows |
| ApprovalRuns.DeniedFlowsYieldNothing | apps/worker/src/agent-access-routes.ts:720-757 | no request ever holds a grant for a flow that was denied |
| ApprovalRuns.EntranceOf | apps/worker/src/agent-access-routes.ts:462-757 | a request is in a phase only by a move of its own that leads there from the phase before, under the condition that the tables met then |
| ApprovalRuns.WayToActivation | apps/worker/src/agent-access-routes.ts:462-717 | a request that activated its grant arrived, consumed an open flow, inserted a new grant in an active vault, had completeAuthorization return and found the grant pending, in this order |
| ApprovalRuns.WayToFailure | apps/worker/src/agent-access-routes.ts:645-698 | a request fails only because completeAuthorization threw and the grant was revoked, or because the grant was no longer pending |
| ApprovalRuns.FailedAuthorizationIsUndone | apps/worker/src/agent-access-routes.ts:664-680 | when completeAuthorization throws the request never succeeds, its grant is never active, and it is revoked once the request has undone it |
| FlowHistory.FlowIsOpenIff | apps/worker/src/agent-access-store.ts:146-228 | an issued flow can be used exactly as long as nobody used it within its ten minutes, no later issue swept it after them, and no other store dropped it; its row does not change until then |
| FlowHistory.IssueCommitsIff | apps/worker/src/agent-access-store.ts:146-189 | a flow is issued exactly when its session exists |
| RateLimiter.Limiter.EnforceRateLimit | apps/worker/src/auth-store.ts:571-597 | the upsert with its guard, and when its answer is yes |
| RateLimiter.Limiter.DeleteStaleRows | apps/worker/src/auth-store.ts:240-242 | deletes the rows not updated for more than 86400 seconds |
| RateLimiter.FirstLimitCallsAllowed | apps/worker/src/auth-store.ts:571-597 | with a window of at most 86401 seconds exactly the first `limit` calls of each bucket are allowed, wherever cleanups fall |
| RateLimiter.LongWindowsForget | apps/worker/src/auth-store.ts:240-242 | a concrete trace on which a longer window lets too many calls through |
| RateLimiter.ExactIffWindowFits | apps/worker/src/auth-store.ts:571-597 | exactness on all traces holds if and only if the window is at most 86401 seconds or the limit is below one |
| RateLimiter.AllowedInBucket | apps/worker/src/auth-store.ts:571-597 | a bucket lets through the number of its calls, capped at the limit |
| RateLimiter.SlidingBound | apps/worker/src/auth-store.ts:571-597 | any interval of one window holds at most twice the limit |
| RateLimiter.SlidingBoundIsReached | apps/worker/src/auth-store.ts:571-597 | for every limit of at least one and window of at least two seconds a trace attains that bound |
| OwnerAuth.Store.CreateChallenge | apps/worker/src/auth-store.ts:215-281 | sweeps challenges with their claims and expired sessions, then inserts the challenge and, for a managed claim, its claim row; or changes nothing |
| OwnerAuth.Store.ConsumeChallenge | apps/worker/src/auth-store.ts:283-302 | succeeds exactly for an unused, unexpired challenge of that ceremony and marks it used |
| OwnerAuth.Store.CommitFirstOwner | apps/worker/src/auth-store.ts:352-474 | succeeds exactly when there is no owner, the session token is new and, on a managed host, a permitted claim exists if it was configured; otherwise changes nothing |
| OwnerAuth.Store.CommitAuthentication | apps/worker/src/auth-store.ts:476-523 | replaces all sessions by one and raises the counters of both rows of the credential to the maximum |
| OwnerAuth.Store.AddOwnerCredential | apps/worker/src/auth-store.ts:178-213 | adds a passkey exactly for the owner's user id and an unknown credential id |
| OwnerAuth.Store.RevokeSession | apps/worker/src/auth-store.ts:559-569 | removes exactly that session |
| OwnerAuth.Store.RotateSessionCsrf | apps/worker/src/auth-store.ts:540-557 | changes the token hash of an unexpired session only |
| OwnerAuth.Store.InstallManagedOwnerInvitation | apps/worker/src/owner-claim-store.ts:140-188 | configures the host once and adds an invitation, of a new digest and a new reference, for that same host; or changes nothing |
| OwnerAuthRuns.AccountOverRuns | apps/worker/src/auth-store.ts:352-569 | from an empty store at most one session exists, and the owner row always equals its credential row |
| OwnerAuthRuns.ChallengesAccounted | apps/worker/src/auth-store.ts:215-302 | at every point of a run the challenge rows agree with what was issued and consumed |
| OwnerAuthRuns.ChallengesAreUsedOnce | apps/worker/src/auth-store.ts:215-302 | a challenge is consumed at most once and only unexpired, with rows swept in between |
| OwnerAuthRuns.CounterIsMaximum | apps/worker/src/auth-store.ts:476-523 | a credential's counter is the maximum of the one presented at its registration and all later presented values |
| OwnerHistory.SignInLeavesOneSession | apps/worker/src/auth-store.ts:352-523 | behind a committed claim or sign-in its session is the only one |
| OwnerHistory.SessionsIff | apps/worker/src/auth-store.ts:352-569 | a session is there exactly when a committed claim or sign-in installed it and since then none other was installed, nobody logged out with it and no challenge was created after it had expired; it has the token hash of the last rotation in time |
| OwnerHistory.PasskeysIff | apps/worker/src/auth-store.ts:178-213 | a passkey is there exactly when it was registered; its key, user and creation stay, its device, backup flag and last use are those of the last sign-in with it |
| OwnerHistory.OwnerIff | apps/worker/src/auth-store.ts:352-474 | there is an owner exactly when a claim committed, and its passkey stays the owner's |
| OwnerHistory.UnmanagedClaimCommitsIff | apps/worker/src/auth-store.ts:352-474 | on a community host a claim commits exactly when there is no owner |
| OwnerHistory.ChallengeIsOpenIff | apps/worker/src/auth-store.ts:215-302 | a challenge can be consumed exactly until it is consumed within its five minutes or swept by a later one after them |
| OwnerHistory.CreationCommitsIff | apps/worker/src/auth-store.ts:215-281 | a challenge is always created, unless it is to carry a claim and the invitation is unknown or the user has another claim still alive; the claim lives as long as the challenge |
| OwnerHistory.InstallCommitsIff | apps/worker/src/owner-claim-store.ts:140-188 | an installation commits exactly for a new digest and reference, the host configured before if any, and a time to live |
| OwnerHistory.InvitationsIff | apps/worker/src/owner-claim-store.ts:140-188 | the invitations are those installed, and stay what they were installed as |
| OwnerAuthRuns.InvitationsMatchOwners | migrations/README.md:270-276 | on a managed host consumed invitations equal owners, at most one, and the host is marked claimed exactly when owned |
| OwnerAuthRuns.ClaimIsAllOrNothing | apps/worker/src/auth-store.ts:352-474 | a managed claim inserts owner, passkey and session, consumes one live invitation and claims the host, or changes nothing; with the exact condition |
| PendingClaims.ClaimSurvivesIffNoChallenge | apps/worker/src/auth-store.ts:231-238 | after its challenge was consumed a claim is still there, unchanged, exactly as long as no further challenge is created |
| PendingClaims.PendingClaimCommitsIff | apps/worker/src/auth-store.ts:352-474 | a managed registration commits exactly when no challenge was created since its own was consumed, there is no owner, and host, claim and invitation are usable at that moment |
| PendingClaims.SecondInvitationSpoilsTheFirst | apps/worker/src/auth-routes.ts:282-360 | a concrete run and two ways on: the commit succeeds at once, and fails after the holder of a second invitation asked for a challenge, though the first invitation is live |
| InstallerAssets.NoAssetIsMissing | apps/web/src/obsidian-plugin-installer.ts:136-197 | three distinct known names are all the names, so the last membership check cannot fail |
| InstallerAssets.ParseInstallerManifest | apps/web/src/obsidian-plugin-installer.ts:136-197 | accepts exactly the well-formed manifests and returns their assets |
| InstallerAssets.FetchAssets | apps/web/src/obsidian-plugin-installer.ts:264-292 | returns the bodies exactly when every asset has the announced length and hash |
| InstallerAssets.LoadVerifiedAssets | apps/web/src/obsidian-plugin-installer.ts:256-324 | succeeds exactly when there are files as the manifest announces them: format, plugin, version, three names, sizes, hashes and total, and the plugin identity; and then returns them |
| InstallerAssets.ParseEnabledIff | apps/web/src/obsidian-plugin-installer.ts:395-420 | the plugin list is read exactly from a missing file or a JSON list of non-empty strings, each kept once in the order of first occurrence; anything else is `invalid_enabled_plugins` |
| InstallerAssets.DistinctKeepsEntries | apps/web/src/obsidian-plugin-installer.ts:395-420 | reading the plugin list drops repetitions only |
| InstallerAssets.WrittenListReadsBack | apps/web/src/obsidian-plugin-installer.ts:395-424 | an encoded list of distinct, non-empty names is read back unchanged |
| InstallerAssets.ListSurvivesReinstall | apps/web/src/obsidian-plugin-installer.ts:395-424 | after an install the list has every old plugin in order plus this one, and installing again changes nothing |
| VaultInstaller.ReadExistingFile | apps/web/src/obsidian-plugin-installer.ts:340-363 | returns the file's content, or that there is none, or fails |
| VaultInstaller.WriteFile | apps/web/src/obsidian-plugin-installer.ts:365-379 | on success the file holds exactly the bytes; in any case no other path changes |
| VaultInstaller.RestoreBackup | apps/web/src/obsidian-plugin-installer.ts:381-393 | on success the path is as the backup says; in any case no other path changes |
| VaultInstaller.Rollback | apps/web/src/obsidian-plugin-installer.ts:426-468 | without errors all files are as before and an absent plugin directory is gone; with errors only backed-up paths may differ |
| VaultInstaller.SameContent | apps/web/src/obsidian-plugin-installer.ts:426-468 | restoring every backed-up path restores the vault |
| VaultInstaller.ReadAndWrite | apps/web/src/obsidian-plugin-installer.ts:579-621 | backups are complete before the first write; success means all four files are written; only the four paths change |
| VaultInstaller.OpenPluginDirectory | apps/web/src/obsidian-plugin-installer.ts:557-577 | makes the directory available and says whether it was absent |
| VaultInstaller.Install | apps/web/src/obsidian-plugin-installer.ts:541-632 | under every pattern of faults: the three announced files in place and a plugin list with every entry of the old one in order and this plugin, or every file as before, or `rollback_incomplete`; never another file; and never a success over a plugin list that cannot be read |
| ByteReader.LineIff | apps/web/src/backup-archive.ts:44-60 | a line is returned exactly when the first newline is at an offset within the limit; reading resumes behind it; a failure consumes nothing |
| ByteReader.StreamByteReader.Fill | apps/web/src/backup-archive.ts:23-42 | moves one chunk into the buffer or learns that there is none; never changes the bytes still to be read |
| ByteReader.StreamByteReader.ReadLine | apps/web/src/backup-archive.ts:44-60 | answers like the cursor over the concatenated bytes, and terminates |
| ByteReader.StreamByteReader.ReadExact | apps/web/src/backup-archive.ts:62-72 | the same for exact reads |
| ByteReader.StreamByteReader.AssertEnd | apps/web/src/backup-archive.ts:74-79 | the same for the end check |
| ByteReader.Replay | apps/web/src/backup-archive.ts:14-80 | any sequence of calls gives the outcomes of a cursor over the concatenation, for every split into chunks |
| BackupArchive.InspectBackupArchive | apps/web/src/backup-archive.ts:110-156 | verdict and deliveries are those of the specification on the concatenated plaintext |
| BackupArchive.ReadNotes | apps/web/src/backup-archive.ts:142-150 | the loop over the notes, against the same specification |
| BackupArchive.LayoutIsAccepted | apps/web/src/backup-archive.ts:110-156 | a plaintext of that layout is accepted and each note delivered once, in order |
| BackupArchive.AcceptedIffLayout | apps/web/src/backup-archive.ts:110-156 | acceptance holds exactly for magic line, manifest line, fitting note bytes end to end, nothing after, and no refusal |
| BackupArchive.NothingUnverifiedIsDelivered | apps/web/src/backup-archive.ts:142-149 | in every run, failing ones included, deliveries are consecutive and carry text whose bytes had the declared length and hash |
| BackupArchive.BuiltBackupReadsBack | apps/web/src/backup-archive.ts:110-156 | a built backup is accepted with its own manifest exactly when that manifest, written out, parses as itself; then every note is delivered in order, and all texts unchanged exactly when none begins with a byte order mark |
| PortableIndex.ReadBoundedStream | apps/web/src/snapshot-archive.ts:52-82 | returns all bytes exactly when they stay within the limit and the stream closes |
| PortableIndex.Concatenate | apps/web/src/snapshot-archive.ts:75-81 | the array filled chunk by chunk is the concatenation |
| PortableIndex.NothingUnsupported | packages/contracts/src/index.ts:1462-1467 | the list of unsupported capabilities is empty exactly when all are supported |
| PortableIndex.ParsePortableIndex | apps/web/src/snapshot-archive.ts:84-128 | the loop over the parts, against the specification with its error cases |
| PortableIndex.PartsAreContiguous | apps/web/src/snapshot-archive.ts:117-127 | the map holds exactly the listed parts, which run without a gap from the header to the end of the file |
| PortableIndex.EachByteHasOnePart | apps/web/src/snapshot-archive.ts:117-127 | every byte behind the header lies in exactly one part |
| PortableIndex.AcceptedIffLayout | apps/web/src/snapshot-archive.ts:84-128 | a file is accepted with an index exactly when it has that index's layout |
| PortableIndex.WrittenPartsSliceBack | apps/web/src/snapshot-archive.ts:84-151 | a file written from header and parts is accepted and slicing gives back each part's bytes |
| SnapshotArchive.DecryptPart | apps/web/src/snapshot-archive.ts:130-151 | decrypts the slice of a part under the given bound |
| SnapshotArchive.InventoryIsExact | apps/web/src/snapshot-archive.ts:200-223 | equal sizes plus inclusion mean that content parts and declared objects are the same set |
| SnapshotArchive.CheckObject | apps/web/src/snapshot-archive.ts:229-247 | the checks on one object, in order |
| SnapshotArchive.VerifyObjects | apps/web/src/snapshot-archive.ts:228-271 | the loop over the objects: the map of bytes, or the first failure |
| SnapshotArchive.CheckedIff | apps/web/src/snapshot-archive.ts:229-247 | an object passes exactly when its part decrypts within bounds to bytes of the declared length and hash |
| SnapshotArchive.VerifiedHolds | apps/web/src/snapshot-archive.ts:228-248 | the map holds authentic bytes for the last object of each id |
| SnapshotArchive.DeliverEntries | apps/web/src/snapshot-archive.ts:279-290 | the loop over the entries, against the specification |
| SnapshotArchive.InspectSnapshotArchive | apps/web/src/snapshot-archive.ts:153-292 | the whole inspection, against the specification |
| SnapshotArchive.ChecksComeFirst | apps/web/src/snapshot-archive.ts:200-272 | no callback runs and nothing is accepted before index, manifest, inventory and every object have passed |
| SnapshotArchive.OpenManifestIff | apps/web/src/snapshot-archive.ts:153-199 | the manifest opens exactly when the first part is a manifest part of bounded size that decrypts completely, within its bound, to text that parses as a well-formed manifest of this snapshot with supported capabilities |
| SnapshotMeaning.AcceptedIffIntact | apps/web/src/snapshot-archive.ts:153-292 | an archive is accepted exactly when its first part is the manifest, its content parts are those the manifest declares, every declared object is there with its own bytes, and no callback refuses one of the entries counted over all vaults |
| SnapshotMeaning.EveryEntryIsHandedOut | apps/web/src/snapshot-archive.ts:273-292 | on success the callback got entry `i` of vault `v` at the place behind all entries of the vaults before, with that vault, its authentic bytes and the number of all entries; and nothing else |
| SnapshotMeaning.OnlyARefusalStops | apps/web/src/snapshot-archive.ts:279-290 | if callbacks ran without success, the archive is intact, they got its first entries and the last of them refused |
| SnapshotMeaning.IntelligenceIsHandedBack | apps/web/src/snapshot-archive.ts:249-292 | the intelligence objects handed back are exactly the declared ones of both sections, records and evidence, each with authentic bytes |
| SnapshotRoundTrip.WrittenSnapshotReadsBack | apps/web/src/snapshot-archive.ts:153-292 | a snapshot written from a manifest and the objects it declares is accepted with that manifest, and entry `i` of every vault `v` comes back at its place with the bytes written for it |
| PathPrefixes.OrderIsByCodeUnits | apps/worker/src/agent-visibility.ts:24 | the order used is that of the UTF-16 code units of the strings |
| PathPrefixes.SortUniqueSorts | apps/worker/src/agent-visibility.ts:24 | sorting the distinct values gives a list of the same values, strictly sorted in that order |
| PathPrefixes.MinimalKeepsMeaning | apps/worker/src/agent-visibility.ts:23-32 | minimising keeps the covered paths, gives an antichain of given values, and is empty only for the empty list |
| PathPrefixes.MinimalIsNormalForm | apps/worker/src/agent-visibility.ts:23-32 | two lists minimise alike exactly when they cover the same paths |
| PathPrefixes.MinimalIsIdempotent | apps/worker/src/agent-visibility.ts:23-32 | minimising twice is minimising once |
| PathPrefixes.MeetsCoverTheIntersection | apps/worker/src/agent-visibility.ts:41-47 | the collected pairs cover exactly what both sets cover |
| Visibility.ComputeIntersection | apps/worker/src/agent-visibility.ts:34-49 | the nested loops compute the minimal intersection |
| Visibility.AgentVisibilityForGrant | apps/worker/src/agent-visibility.ts:51-76 | the visibility of a grant, deny-all exactly for an empty intersection |
| Visibility.VisibleIffInBoth | apps/worker/src/agent-visibility.ts:34-90 | with a profile a path is allowed exactly when granted, in a content root, and its file name is none of the folded never-exposed names |
| Visibility.NotesFollowPathsIff | apps/worker/src/materialization-store.ts:1250-1263 | every grant judges a note as it judges its path, but for private notes under a profile, exactly when folding leaves the note's key alone |
| Visibility.StoredGrantsAgreeIff | apps/worker/src/materialization-store.ts:1250-1263 | for a note in a folder the same, with only grants of folder keys and their profiles |
| Visibility.ListedButNotReadable | apps/worker/src/mcp-server.ts:1293-1307 | a stored prefix and a note in that folder that passes the note check and fails the path check |
| Visibility.NeverExposedNameIsListed | apps/worker/src/materialization-store.ts:1250-1263 | a profile and a note whose name, folded, is never to be exposed and which passes the note check |
| Visibility.ProfilesNarrowIff | migrations/README.md:206-207 | over all profiles and paths a profile only narrows what the grant shows exactly when every granted prefix, folded again, still lies in a granted one; for folder keys, profiles as their schema leaves them and paths of notes decide it |
| Visibility.ProfileWidensUnfoldedKey | apps/worker/src/agent-visibility.ts:16-49 | a stored prefix, a profile and a path for which the profile widens the grant |
| Visibility.DeniesAllIffDisjoint | apps/worker/src/agent-visibility.ts:63-73 | everything is denied exactly when no path is both granted and in a content root |
| Visibility.VisiblePrefixesAreFolderKeys | apps/worker/src/agent-visibility.ts:16-49 | every prefix of a visibility ends in exactly one slash |
| Visibility.FolderAllowedIffFilesAre | apps/worker/src/agent-visibility.ts:78-106 | a folder is allowed exactly when every exposable file in it is, for every path and folder |
| Visibility.RootAgreesIffNoBareSlash | apps/worker/src/agent-visibility.ts:92-106 | for the empty path the two checks agree exactly when all is denied or no bare slash is a prefix |
| FolderScopes.NormalizePathPrefixes | apps/worker/src/agent-access-routes.ts:245-293 | unrestricted for an empty list or an empty value, an error for any invalid folder, otherwise minimal keys with their last spellings |
| FolderScopes.FolderIsValidIff | packages/contracts/src/vault-path.ts:72-122 | a ticked folder passes exactly if, without one slash at its end, it is not empty, has no slash at an end and no two in a row, and meets the other rules |
| FolderScopes.CollectFolders | apps/worker/src/agent-access-routes.ts:253-269 | the loop that fills the map, failing exactly on an invalid folder |
| FolderScopes.StoredKeysKeepMeaning | apps/worker/src/agent-access-routes.ts:281-292 | the stored keys cover exactly the ticked folders, form an antichain and are empty only for no folders |
| FolderScopes.StoredPairsAreFolders | apps/worker/src/agent-access-routes.ts:289-292 | the two lists are aligned: each pair is the spelling and the key of one ticked folder, and never a bare slash |
| FolderScopes.TickedFoldersAreVisible | apps/worker/src/agent-visibility.ts:78-90 | without a profile a path is visible exactly when all was ticked or its folded form begins with a lower-cased ticked folder |
| FolderScopes.TickedFoldersAreSeenIff | apps/worker/src/agent-access-routes.ts:245-293 | without a profile every note in every ticked folder is visible exactly when all was ticked or every ticked folder, folded, still lies in a ticked one |
| FolderScopes.TickedFolderIsHidden | apps/worker/src/agent-visibility.ts:78-90 | a ticked folder in which, without a profile, every path is refused |
| FolderScopes.TickedFoldersUnderProfile | apps/worker/src/agent-visibility.ts:34-90 | under a profile a path is visible exactly when all was ticked or, folded, it lies in a folded ticked folder, and it lies in a content root and its name is not never-exposed |
| FolderScopes.StoredKeyCanonicalIff | packages/contracts/src/vault-path.ts:72-122 | a stored key survives being made a folder key exactly when folding leaves the lower-cased folder alone |
| FolderScopes.StoredScopeNarrowsIff | migrations/README.md:206-207 | for a stored scope no profile ever widens, over all or only over ordinary profiles and note paths, exactly when every ticked folder, folded, still lies in a ticked one; in particular when all keys survive |
| FolderScopes.NormalizingAgainChangesNothing | apps/worker/src/agent-access-routes.ts:245-293 | normalising the stored folders again gives the same two lists |
| RefreshPanel.Panel.StartRefresh | apps/web/src/CollaborationPanel.tsx:977-980 | takes the next generation |
| RefreshPanel.Panel.ApplyLatestRefresh | apps/web/src/CollaborationPanel.tsx:452-468 | applied, stale or thrown, and what is shown then |
| RefreshPanel.Panel.MarkRevoked | apps/web/src/CollaborationPanel.tsx:1407-1412 | records the revocation and lays it over what is shown |
| RefreshPanel.Panel.Unmount | apps/web/src/CollaborationPanel.tsx:1039-1044 | makes every load under way stale |
| RefreshPanel.Panel.RevokeLocallyThenRefresh | apps/web/src/CollaborationPanel.tsx:482-495 | marks only after the server accepted, and before the refresh starts |
| RefreshPanel.AppliedGenerationsIncrease | apps/web/src/CollaborationPanel.tsx:452-468 | over every interleaving applied generations strictly increase |
| RefreshPanel.AppliedIsNewest | apps/web/src/CollaborationPanel.tsx:452-468 | an applied answer belongs to the newest refresh, and to an earlier start only if nothing was started or left since |
| RefreshPanel.NothingAppliesAfterLeaving | apps/web/src/CollaborationPanel.tsx:1039-1044 | after unmounting only a refresh started afterwards can apply |
| RefreshPanel.RevocationSticks | apps/web/src/CollaborationPanel.tsx:470-480 | once a grant is marked revoked no later list shows it active, whatever answer arrives |
| RefreshPanel.ShownIsLatestAnswer | apps/web/src/CollaborationPanel.tsx:981-1010 | what is shown is the answer applied last, changed only where revocations were marked |
| RefreshPanel.OutcomesIff | apps/web/src/CollaborationPanel.tsx:452-468 | an answer is stale exactly when something was started or left since its refresh, applied exactly when it is not stale and loaded, and thrown otherwise |
| RefreshPanel.ShownByHistory | apps/web/src/CollaborationPanel.tsx:470-480 | what is shown is the answer applied last, place by place, with the last mark on each grant and its time laid over it |
| ShellQuote.ReadQuoted | apps/web/src/agent-client-config.ts:17-19 | a quoted value adds exactly its own characters to the current word; a NUL makes it unreadable |
| ShellQuote.QuotedIsOneWord | apps/web/src/agent-client-config.ts:17-19 | a quoted value is read back as one word, exactly when it has no NUL |
| ShellQuote.LineReadsBack | apps/web/src/agent-client-config.ts:21-42 | a command line of fixed words around a quoted value is read back as those words, exactly when the value has no NUL |
| ShellQuote.OneCommandReadsBack | apps/web/src/agent-client-config.ts:21-27 | the connect command hands the URL over unchanged |
| ShellQuote.NativeMcpReadsBack | apps/web/src/agent-client-config.ts:29-42 | so do the commands of the other clients |
| ShellQuote.CodexReadsBack | apps/web/src/agent-client-config.ts:94-100 | the two Codex commands are read as two commands, even for URLs with newlines |

## Left out

- Audit rows, restored-source approvals and connection listings, and what the terms of a grant say: none of them influences the tables modelled here.
- The collaboration branch of the approve handler and whether collaborations follow a rotated grant: decided in stores that are not part of this model.
- InstallerAssets.FetchAssets: the fetches run concurrently; the first failure in manifest order stands for the first in time.
- OwnerAuthRuns.InvitationsMatchOwners: counts from the moment a host without owner is configured and assumes that every claim is managed, as the routes of a managed host do; community hosts have no invitations.
- OwnerAuthRuns.ChallengesAreUsedOnce: tokens are taken to be fresh, which is the promise of the random generator.
- BackupArchive.BuiltBackupReadsBack: for texts that encoding and decoding leave alone (no lone surrogates) and header lines within their limits.
- Visibility.ProfilesNarrowIff: folding (NFC, then lower-casing) is assumed to go segment by segment, to make no slashes and to leave plain names alone; so do the members below it that mention FoldsBySegment.
- FolderScopes.StoredKeysKeepMeaning: lower-casing is assumed to work segment by segment, as it does between slashes.
- PathPrefixes.OrderIsByCodeUnits: strings are sequences of Unicode scalar values, so texts with lone surrogates are outside the model.
- SnapshotRoundTrip.WrittenSnapshotReadsBack: encrypted parts are assumed to be within the size limits the inspector sets; the code that writes snapshots is not part of this model.
- PendingClaims.PendingClaimCommitsIff: user ids of registrations are taken to be fresh, as the routes draw them at random.
- SnapshotArchive.InspectSnapshotArchive: of the manifest schema only the rules about ids, entries and their number are spelled out; the others are part of parsing.
- VaultInstaller.Install: nothing but the installer changes the vault meanwhile, and lookups of missing directories report that they are missing.
- RefreshPanel.Panel.ApplyLatestRefresh: of the five answers only the connections are kept; the others are set in the same step.
- ShellQuote.CodexReadsBack: the reader does not expand, redirect or comment; a text that would need it is refused.
- The age format, WebAuthn verification, zod schemas as such, OAuth and KV calls, Electron, the desktop controller, the update manifest and the rest of the user interface.
- Reading a recovery key out of its file, Cursor and JSON client configurations: easy string building.
