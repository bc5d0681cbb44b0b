# The upload, credential and account core of the model hub, verified

A Dafny model of the hub's stateful core, with proofs over whole runs. Three parts:

- **Publishing in phases.** An account reserves a slot against its allowance, sends the bytes, and
  publishes the result. Tables, an append-only quota ledger, a staging area, a content-addressed
  artifact store and a clock form one shared state. `Protocol.dfy` is that state machine: every phase
  as one atomic action, and the receive phase also in its smallest steps (begin, write, sync, verify,
  existence test, rename or drop, database commit), interleaved with everything else, with hang-ups
  and with crashes that lose every open transaction and may tear files that were not flushed.
- **Rotating credentials.** Access, refresh and personal tokens, with chains that end on replay.
- **Accounts.** Choosing a handle, web session expiry, and provider links.

Operations that change state in place are methods of classes (`Tables.Session`,
`Storage.VolumeStorage`, `Credentials.TokenTable`, `Sessions.SessionTable`, `Accounts.AccountTable`)
with the loops the program has. Each is proved equal to a function of the old state, and the results
about runs are proved about those functions.

How the large results hang together: every action changes the tables by at most two of five changes
(`Changes.dfy`), each with what its checks have established by then. The ledger, the ceilings, the
allowance and the lifecycle are invariants of the five changes. Files are followed step by step in
`CrashSafety.dfy`; `Streaming.dfy` shows that a receive in one step is exactly its script of small
steps, so what holds of the steps holds of the operation.

## Assumptions

- A row identifier is a number handed out once, which is all that is used of a UUID. Token and cookie
  hashes are treated the same way.
- The clock counts microseconds and never goes back. Time passes between actions, not within one.
- `reserve`, `publish` and `sweep` are serialised transactions, and so is every operation on tokens,
  sessions and accounts. The program takes no lock. What the assumption is worth for tokens is shown:
  of `k` exchanges of one refresh token that overlap, all succeed and leave `k` live refresh tokens in
  the chain (`Chains.OverlappingExchanges`).
- A crash undoes no rename. The program flushes the file to disk, but not the directory that the
  rename changes.
- At most one transfer is in flight for one upload: the staging path is shared between transfers.
- The digest is any function from byte strings to 64 hexadecimal digits. Where two streams must not
  collide, the hypothesis `NoCollision` speaks only of the streams actually received to their end in
  the run at hand; `measured` is the history that records them.
- Declared sizes are positive, as the request body demands (`hub_api/schemas/uploads.py:15`). Storage
  limits do not change during a run. Free space on the volume is a parameter of each reservation.
- **Two layers.** An exception that reaches a caller who keeps the session leaves the session's
  changes in place (`SessionLayer`); one that ends a request rolls them back (`RequestLayer`,
  `hub_api/db/engine.py:32-39`). Files are rolled back on neither. Reservations, receives, checks and
  exchanges carry their layer, and results about runs hold for every mix of layers unless they name one.
- A flush that updates a row which a sweep has deleted fails, and the transfer with it.
- Strings are ASCII.

## Where the code and its documentation differ

The model follows the code.

- A reservation is dropped when its bytes were wrong, so that its name can be used again. Over HTTP the
  drop is rolled back with the request, and the name stays taken (`Delivery.RefusedUpload`,
  `Witnesses.WrongDigestKeepsTheName`).
- A refresh token that comes back ends its chain. Over HTTP the revocations are rolled back with the
  refusal: no run of requests ever ends a chain by a replay (`Chains.NoReplayEndsAChain`), and one is
  shown in which everything issued before the replay is honoured after it (`Chains.ReplayedAndAlive`).
- The footprint check reads the ledger alone. Reservations granted side by side can together pass the
  cap (`Witnesses.OverlappingGrantsPassTheCap`); `Allowance.FootprintBound` is what does hold.
- The cap bounds what is charged, not what the disk holds: a transfer cut short between its rename and
  its commit leaves an object that no entry, no cap and no sweep ever counts
  (`Witnesses.HangupOrphansAnObject`); `Conservation.DiskBound` has the orphans as a term of their own.
- Expiry is tested only when a transfer begins, so a slow one can be charged after its bytes stopped
  being held (`Witnesses.LateTransferPassesTheLimit`, `Allowance.AllowanceBound`).
- The janitor says that correctness does not depend on it. For accounting that is so
  (`JanitorRuns.JanitorIsInvisible`), with two exceptions. A sweep ends a transfer that has outlived its
  reservation, wherever it has got to (`JanitorRuns.SweepEndsOverdueTransfer`). And an expired
  reservation goes on filling its account's day, filling its model and holding its name until it is
  swept: a sweep turns a refusal into a grant exactly when one of the three stands alone in the way
  (`Rescues.SweepRescuesExactly`), and each of them can (`Witnesses.SweepFreesADay`,
  `Witnesses.SweepFreesAPlace`, `Witnesses.SweepFreesAName`).
- A stem that is cut may end in a hyphen, which the handle grammar forbids (`Handles.CutOnHyphen`).
- The fallback handle is meant never to collide. It does in a run of 999 provider sign-ups
  (`Crowding.NextIsRefused`), and never below 998 accounts (`Accounts.SignUpNeverRunsOut`).
- A refusal by `reserve` leaves a model row in the session in one configuration
  (`Ceilings.RefusalLeavesNothing`, `Witnesses.RefusalLeavesAModel`).
- The declared digest is described as replaced by the measured one. The code leaves it, having
  checked that they are equal.

## Model

| member | source | states |
|---|---|---|
| CrashSafety.StoredRowsHaveTheirBytes | hub_api/uploads/receive.py:81-90 | In every reachable state, through any interleaving and any crash, each uploaded, verifying or published row has an object at its key with exactly its digest, and exactly its size unless two received streams collide |
| CrashSafety.FinalKeysAreHonest | hub_api/storage/volume.py:60-93 | No final key ever holds partial bytes or bytes of another digest, and no staging file ever exceeds its reservation |
| CrashSafety.ObjectsNeverChange | hub_api/storage/volume.py:87-93 | A stored object stays byte for byte for the rest of the run, given that no two streams received in it collide |
| Streaming.UploadIsScript | hub_api/uploads/receive.py:73-90 | Receiving in one step and running its smallest steps one after the other give the same world, for every input, refusal and layer |
| Streaming.WritesLand | hub_api/storage/volume.py:66-77 | Writing chunk by chunk lands the concatenation, or cuts the transfer off and drops its file exactly when the concatenation passes the cap |
| Storage.VolumeStorage.Write | hub_api/storage/volume.py:60-77 | Returns digest and length of the concatenation exactly when it fits; otherwise refuses at the first prefix past the cap with no more than the cap written |
| Storage.VolumeStorage.Stage | hub_api/storage/volume.py:45-58 | A refused stream leaves nothing staged; an accepted one is staged whole; nothing else changes |
| Storage.VolumeStorage.Promote | hub_api/storage/volume.py:79-93 | The staged file goes to its key unless the key exists, and leaves staging in both cases; without a staged file it succeeds exactly on an existing key and changes nothing |
| Storage.VolumeStorage.Discard | hub_api/storage/volume.py:95-98 | Removes one staging file, present or not, and nothing else |
| Streaming.ChunkingIsIrrelevant | hub_api/storage/volume.py:66-77 | Two transfers of the same bytes cut into different chunks, so of different numbers of steps, end in the same world, refused or not |
| Keys.KeyNamesDigest | hub_api/storage/keys.py:18-27 | The digest can be read back from its key, so keys are equal exactly when digests are |
| Keys.KeyShape | hub_api/storage/keys.py:12-27 | A digest is 64 characters by code; its key starts with its first two characters and ends with the suffix |
| Interleaving.TransfersDoNotInterfere | hub_api/storage/volume.py:79-93 | From any reachable state, an upload ends with the row, entries, transfer and file it would end with if all actions on other uploads were removed, racing transfers of one digest included |
| Retries.ResendLands | hub_api/uploads/receive.py:73-90 | From any reachable state with an open reservation and no transfer of it in flight, a transfer of the right bytes ends in the uploaded row, one entry dated at its commit and no file left, however much time passes and whatever sweeps run before the expiry between its steps, beside arbitrary actions on other uploads |
| Retries.RetryAfterCrash | hub_api/uploads/receive.py:73-90 | So after any attempts, a crash and anything that followed, as long as the reservation is open when the resend begins, the row reserved at the outset ends as after an undisturbed receive |
| Retries.WaitsDoNotMatter | hub_api/uploads/receive.py:42-53 | Waits and sweeps before the expiry between the steps of a transfer make no difference to its row, entries, file or state |
| Ledger.LedgerIsExact | hub_api/uploads/receive.py:85-122 | In every reachable state each balance is the summed size of the account's stored rows, the total is the sum over all, and there is one commit entry per stored row and none for a reservation |
| Ledger.LedgerOnlyGrows | hub_api/db/models/quota_entry.py:18-36 | Between any two moments of a run the earlier ledger is a prefix of the later one |
| Conservation.LedgerIsObjectsTimesRefs | hub_api/quota/footprint.py:27-32 | The ledger total is the bytes of every object counted once for each stored row that points at it, orphaned objects included |
| Conservation.Deduplication | hub_api/storage/volume.py:87-93 | In every reachable state the store holds at most what was charged plus what was orphaned, and exactly that if and only if no two stored rows share a digest |
| Conservation.DiskBound | hub_api/quota/footprint.py:35-46 | In every reachable state what the store really holds stays within the cap, the largest overlap of a grant, late charges and orphans |
| Witnesses.HangupOrphansAnObject | hub_api/uploads/receive.py:86-90 | A run whose transfer is cut short between rename and commit, and swept, leaves an object that no row and no entry knows of |
| Conservation.TendedRunHasNoOrphans | hub_api/uploads/receive.py:86-90 | While no transfer is cut short, every object has a stored row or a transfer about to commit one, however transfers are interleaved; so there are no orphans between commits |
| Conservation.TendedDeduplication | hub_api/storage/volume.py:79-93 | So between commits of any run that cuts nothing short the store holds at most what was charged, with equality if and only if no two stored rows share a digest |
| Conservation.WholeRunHasNoOrphans | hub_api/uploads/receive.py:86-88 | Runs in which every receive is one step never orphan an object, crashes between operations included |
| Allowance.AllowanceBound | hub_api/quota/usage.py:25-59 | Used plus live pending bytes stay within the limit plus what transfers charged after their reservation expired, in every run |
| Allowance.FootprintBound | hub_api/quota/footprint.py:35-46 | Ledger total plus all pending bytes stay within the cap plus the largest amount that any grant overlapped plus late charges |
| Allowance.WholeRunBounds | hub_api/uploads/intent.py:95-109 | With uninterrupted receives the allowance holds outright and the footprint bound needs the overlap only |
| Witnesses.OverlappingGrantsPassTheCap | hub_api/quota/footprint.py:35-46 | A run in which two overlapping grants take the ledger total past the cap |
| Witnesses.LateTransferPassesTheLimit | hub_api/uploads/receive.py:48-52 | A reachable run in which a transfer that finishes late takes an account past its limit |
| Ceilings.DailyWindow | hub_api/quota/limits.py:66-90 | For every account and every window of 86 400 seconds, the surviving rows created in it are at most the configured number |
| Ceilings.CeilingsHold | hub_api/quota/limits.py:30-63 | In every reachable state an account has at most as many models, and a model at most as many versions, as configured, by the number of rows; one model per owner and slug, one version per model and name |
| Operations.CeilingRefusals | hub_api/quota/limits.py:40-63 | With everything before in order, a first publish is refused over models exactly when the account has as many as it may, and a further version likewise, each with the number of rows |
| Witnesses.SecondModelIsRefused | hub_api/quota/limits.py:40-45 | A run from empty tables refused with limit 1 and current 1 |
| Figures.ModelsCounted | hub_api/quota/limits.py:34-39 | The model count is the number of the owner's model rows |
| Figures.VersionsCounted | hub_api/quota/limits.py:52-57 | The version count is the number of the model's version rows |
| Figures.StartedCounted | hub_api/quota/limits.py:74-84 | The daily count is the number of rows of the account's models created since then |
| Ceilings.RefusalLeavesNothing | hub_api/uploads/intent.py:82-92 | A refused reservation leaves the tables untouched, except exactly when all checks passed, the model was new and no versions are allowed at all |
| Witnesses.RefusalLeavesAModel | hub_api/uploads/intent.py:90-92 | A first reservation that shows the exception, and that a rolled-back request leaves nothing |
| Intent.ReserveSlot | hub_api/uploads/intent.py:74-194 | The checks and inserts in order equal the one-step reservation: same tables, same reply |
| Intent.FindModel | hub_api/uploads/intent.py:119-125 | Finds a model of that owner and slug exactly when there is one |
| Operations.GrantedExactly | hub_api/uploads/intent.py:74-92 | A slot is granted if and only if publisher, digest, every limit, the number of models, the number of versions and the name allow it |
| Operations.RefusalIsTrue | hub_api/uploads/intent.py:59-162 | Every refusal names a limit that is really passed, with all its figures true, and place refusals come only after all others |
| Operations.FirstFailureWins | hub_api/uploads/intent.py:82-92 | Whatever else fails, the refusal given is that of the first guard that fails, in the fixed order of the checks |
| Operations.GrantAddsOneRow | hub_api/uploads/intent.py:165-184 | A grant adds one reserved row as requested, with its expiry, at most one model, active and public, and changes nothing else |
| Operations.GrantHoldsAllowance | hub_api/quota/usage.py:62-70 | A grant moves the owner's pending bytes by the size, used bytes not at all, other accounts not at all |
| Receiving.ReceiveBytes | hub_api/uploads/receive.py:73-132 | The imperative phase two leaves exactly the session, the files and the result of the one-step receive |
| Operations.ReceiveRefuses | hub_api/uploads/receive.py:93-132 | On the session layer a refusal leaves no object, no charge and nothing staged; the row goes, and its name is free, only when measured bytes were wrong |
| Delivery.RefusedUpload | hub_api/routes/uploads.py:51-70 | Through the whole step: after a refusal on an open slot the name stays taken if and only if the request is rolled back or the stream passed the cap, which the refusal tells; no object, no charge, nothing staged on either layer |
| Delivery.PublishedOnce | hub_api/uploads/publish.py:22-47 | In any run: what was received can be published by its owner however long that takes; the step moves the row on by configuration; from then on the row stays as it is, its owner is told its state and everybody else that there is no such upload |
| Delivery.CommittedIsServed | hub_api/uploads/receive.py:81-90 | Round trip: once a transfer commits, however it was interleaved, the version serves exactly the bytes the transfer wrote for the rest of the run, crashes included |
| Delivery.CommitEnds | hub_api/uploads/receive.py:86-90 | A commit ends its transfer; when the row has been taken away meanwhile nothing is charged and nothing changes |
| Delivery.SentIsServed | hub_api/uploads/receive.py:73-90 | The same of a receive in one step: what was sent and accepted is what is kept |
| Operations.ReceiveMovesAllowance | hub_api/uploads/receive.py:108-122 | On success exactly the received bytes move from pending to used, for the owner alone |
| Witnesses.WrongDigestKeepsTheName | hub_api/uploads/receive.py:93-105 | A wrong digest whose name stays taken over HTTP and is free in a kept session |
| Publishing.PublishVersion | hub_api/uploads/publish.py:22-47 | The row-changing method equals the one-step publish for the caller's own version |
| LifecycleRuns.VersionsOnlyMoveForward | hub_api/db/models/model_version.py:12-36 | Between any two moments rows only advance, dropped identifiers never return, and stored rows stay with digest, size and key fixed |
| LifecycleRuns.StepLists | hub_api/uploads/publish.py:26-34 | A step makes a version listed if and only if it is the owner's publish step on an uploaded row with verification off |
| LifecycleRuns.ListedForGood | hub_api/catalog/queries.py:15-26 | What is listed stays listed as the very row it was, in every run |
| LifecycleRuns.VisibilityIsEarned | hub_api/catalog/trust.py:26-31 | Over any run: listed only after a publish step, nothing listed under required verification, every label unchecked |
| LifecycleRuns.OneVersionIsUnique | hub_api/catalog/queries.py:52-66 | In every reachable state at most one row matches handle, model and version |
| LifecycleRuns.ListedIsFound | hub_api/catalog/queries.py:52-66 | In every reachable state a listed version is selected, alone, under its owner's handle, its model's slug and its name, and under nothing else |
| LifecycleRuns.HiddenIsNotListed | hub_api/catalog/queries.py:15-26 | Listing needs an active model, a public one and a published version; a label claims a check only for a published version whose report passed |
| Janitor.Sweep | hub_api/uploads/janitor.py:18-36 | The deleting loop removes exactly the expired reservations and their staging files and counts them |
| Operations.SweepExactly | hub_api/uploads/janitor.py:24-35 | Sweeping twice is sweeping once: no expired reservation is left, nothing else is gone |
| Reclaiming.SweepReclaims | hub_api/uploads/janitor.py:1-36 | In every run each staging file belongs to a reserved row; after a sweep to a live reservation; once all reservations have expired a sweep leaves no staging file |
| JanitorRuns.JanitorIsInvisible | hub_api/uploads/janitor.py:1-36 | Inserting sweeps anywhere changes no success or refusal, usage, footprint, listing or artifact, if they find no overdue transfer and no reservation was refused that a sweep at that moment would have made grantable; the reason a refusal gives may differ |
| JanitorRuns.ExtraSweepsClean | hub_api/uploads/janitor.py:24-35 | The simulation behind it, under the same two conditions: the two runs differ in dead reservations and their staging files only |
| JanitorRuns.CleanedStep | hub_api/quota/usage.py:44-59 | Every action does the same, with the same outcome, to a world without some dead reservations, except a reservation that only a sweep makes grantable |
| JanitorRuns.SettledExactly | hub_api/uploads/janitor.py:24-35 | The second condition is exact for one reservation: a sweep just before it changes its outcome if and only if the condition fails |
| JanitorRuns.WholeRunsSpare | hub_api/uploads/janitor.py:24-35 | With uninterrupted receives extra sweeps never meet an overdue transfer |
| JanitorRuns.SweepEndsOverdueTransfer | hub_api/uploads/janitor.py:24-33 | The first condition is needed: an overdue transfer in any phase, whose rest would have completed it, ends stored if nothing intervenes, and after a sweep never does |
| Rescues.SweepRescuesExactly | hub_api/uploads/intent.py:82-92 | For all tables: a sweep never takes a grant away, and turns a refusal into a grant if and only if all guards hold once expired reservations are gone and one of these fills the day, fills the model or holds the name |
| Rescues.RescueByGuards | hub_api/uploads/intent.py:82-92 | The same by guards before and after: it is room or place that fails before the sweep |
| Rescues.RescuedRefusal | hub_api/quota/limits.py:48-90 | The refusal that a sweep undoes is over the day, the versions or the name, with true figures and an expired reservation behind it |
| Rescues.SweptCounts | hub_api/uploads/janitor.py:24-33 | The daily count, the version count and the use of a name move by exactly the expired reservations counted or named |
| Witnesses.SweepFreesAName | hub_api/uploads/intent.py:148-162 | A run in which only the name stands in the way until a sweep |
| Witnesses.SweepFreesADay | hub_api/quota/limits.py:66-90 | A run in which only the daily count does |
| Witnesses.SweepFreesAPlace | hub_api/quota/limits.py:48-63 | A run in which only the version count does |
| Changes.ReserveIsChanges | hub_api/uploads/intent.py:74-184 | A reservation is at most one new model and one new slot, each made only when all its checks hold at that moment |
| Changes.ActionIsChanges | hub_api/uploads/receive.py:73-132 | Every action of the service changes the tables by a sequence of the five changes, each allowed when it is made |
| Credentials.TokenTable.IssuePair | hub_api/auth/credentials.py:92-112 | One access and one refresh row on the given or a new chain |
| Credentials.TokenTable.ResolveToken | hub_api/auth/credentials.py:128-140 | The checks in order equal the one-step resolve, result and table |
| Credentials.TokenTable.RotateToken | hub_api/auth/credentials.py:152-196 | The checks, the revocation and the new pair equal the one-step rotation |
| Credentials.TokenTable.BreakChain | hub_api/auth/credentials.py:210-213 | The loop revokes every unrevoked token of the chain and no other |
| Chains.HonouredWasNeverRevoked | hub_api/auth/credentials.py:128-170 | Over any run, a credential honoured now was at every earlier moment unrevoked, of the same account, scopes and expiry |
| Chains.RefreshOverHttp | hub_api/auth/credentials.py:152-170 | Over HTTP a refresh token is honoured if and only if no exchange of it was granted, it has not expired and its account is active, whatever is replayed |
| Lifetimes.PairLivesNoLonger | hub_api/auth/credentials.py:47-82 | In every run, a pair minted by a grant or an exchange: the access token is honoured only for its account and within the access lifetime from its minting, the refresh token only within the refresh lifetime; neither does for the other |
| Lifetimes.PairLivesAsLong | hub_api/auth/credentials.py:47-82 | Over HTTP exactly that long, while the account is active and no exchange of the refresh token was granted |
| Lifetimes.PatLivesUntilRevoked | hub_api/auth/credentials.py:115-125 | In every run a personal token never expires: it is honoured exactly until its own account revokes it, while that is active |
| Lifetimes.SuspendedIsRefused | hub_api/auth/credentials.py:192-199 | In every run, from the moment an account is suspended until its state is set again, no credential of it is honoured |
| Lifetimes.ReplayWrites | hub_api/auth/credentials.py:173-213 | A replay is answered as one and revokes, now, every token of its chain not yet revoked |
| Lifetimes.ReplayEndsNoOther | hub_api/auth/credentials.py:202-213 | A replay leaves every token of every other chain as it was |
| Chains.AccessOverHttp | hub_api/auth/credentials.py:128-149 | Over HTTP an access token is honoured if and only if it has not expired and its account is active: nothing revokes it |
| Chains.ChainsAreOrderly | hub_api/auth/credentials.py:92-112 | With exchanges serialised, in every reachable state a chain has at most one unrevoked refresh token, has one unless it is dead, and has as many access as refresh tokens |
| Chains.AuthorityNeverGrows | hub_api/auth/credentials.py:166-170 | Tokens of one chain share owner and scopes across any two moments of a run |
| Chains.ReplayEndsTheChain | hub_api/auth/credentials.py:173-213 | On the session layer, after a replay no token of the chain ever resolves or rotates and the chain never gains one |
| Chains.OverlappingExchanges | hub_api/auth/credentials.py:152-170 | In every reachable state, `k` exchanges of one live refresh token that all read before any writes leave the chain exactly `k` live refresh tokens, while one after the other all but the first are replays |
| Chains.NoReplayEndsAChain | hub_api/routes/auth.py:95-103 | In every run whose exchanges are requests of their own, every grant's chain keeps a live refresh token, whatever was replayed |
| Chains.ReplayByLayer | hub_api/db/engine.py:32-39 | After such a run one more replay ends its chain if and only if the session is kept |
| Chains.ReplayedAndAlive | hub_api/routes/auth.py:95-103 | A run of grant, exchange and replay after which the replay is refused and both newer tokens are honoured |
| Chains.ExchangedOnce | hub_api/auth/credentials.py:173-192 | A refresh token once exchanged is answered as replayed for ever |
| Sessions.SessionTable.StartSession | hub_api/auth/sessions.py:24-44 | Adds one row with its absolute expiry, last seen now |
| Sessions.SessionTable.ResolveCookie | hub_api/auth/sessions.py:47-74 | Answers with the active owner of a usable row and moves its idle window; changes nothing otherwise |
| Sessions.SessionTable.Revoke | hub_api/auth/sessions.py:77-84 | Revokes the named row, if any, and nothing else |
| Sessions.SessionTable.RevokeAll | hub_api/auth/sessions.py:87-99 | The loop revokes exactly the account's unrevoked rows and returns their number |
| Sessions.OnceDeadAlwaysDead | hub_api/auth/sessions.py:68-74 | In any run, a cookie once revoked, idle or expired never resolves again, whatever follows |
| Cookies.CookieExactly | hub_api/auth/sessions.py:24-99 | In any run after its sign-in a cookie resolves if and only if it was not signed out, alone or with its account, the account is active, the absolute limit has not run out since the sign-in and the idle limit not since the last use |
| Cookies.SignedOutForGood | hub_api/auth/sessions.py:77-84 | In any run, once signed out a cookie never resolves again |
| Cookies.SuspendedIsOut | hub_api/auth/sessions.py:60-62 | In any run, from the moment an account is suspended until its state is set again, no cookie of it resolves |
| Cookies.SignOutWrites | hub_api/auth/sessions.py:77-99 | A sign-out writes the time of revocation into the rows it is about and leaves rows revoked before as they are |
| Cookies.SignOutTouchesNoOther | hub_api/auth/sessions.py:77-99 | In any run every cookie that a sign-out, of one or of all, is not about answers as it would have without it |
| Sessions.SignOutEverywhere | hub_api/auth/sessions.py:87-99 | In any run, after signing out everywhere no cookie the account had ever resolves again |
| Sessions.SessionUseIsBounded | hub_api/auth/sessions.py:47-74 | In any run, from a sign-in on, each use is before the absolute expiry and less than the idle limit after the one before |
| Handles.Allocate | hub_api/auth/handles.py:42-66 | The search loop returns the first free attempt, or the fallback |
| Handles.CleanIsJoinedWords | hub_api/auth/handles.py:34-39 | Cleaning equals an independent description: the words of the local part joined by single hyphens and cut |
| Stems.DomainIsDropped | hub_api/auth/handles.py:36 | Nothing that stands after an at-sign gets into a stem; the local part is what stands before it |
| Stems.AddressGivesHandle | hub_api/auth/accounts.py:55-75 | A registration gets the handle before the at-sign whenever it is legal, fits and is free |
| Stems.FirstWorkable | hub_api/auth/handles.py:25-31 | The stem is the first candidate that leaves anything |
| Stems.NoneWorkable | hub_api/auth/handles.py:31 | If none does, the stem is "user" |
| Stems.StemByCodes | hub_api/auth/handles.py:18-21 | The stem by character codes, at most 30 of them |
| Stems.GrammarByCodes | hub_api/catalog/names.py:16 | The handle grammar by character codes |
| Handles.CleanFitsGrammar | hub_api/catalog/names.py:16 | A cleaned name is legal, and a handle if and only if the cut did not land on a hyphen |
| Handles.CutOnHyphen | hub_api/auth/handles.py:39 | A whole family of candidates whose stem ends in a hyphen |
| Handles.StemIsLegal | hub_api/auth/handles.py:25-31 | The stem is 1 to 30 legal characters and never starts with or doubles a hyphen |
| Handles.SuffixedIsHandle | hub_api/auth/handles.py:52-55 | Every suffixed stem fits the handle grammar |
| Handles.SearchSucceeds | hub_api/auth/handles.py:50-55 | By pigeonhole the search cannot run out below 998 taken handles |
| Handles.AllocationIsLeastFree | hub_api/auth/handles.py:42-66 | Below that bound the handle is free, the least attempt, and a handle unless it is a badly cut stem |
| Handles.AllocationClashes | hub_api/auth/handles.py:56 | A taken handle is returned if and only if all attempts are spent and the fallback is taken |
| Handles.FallbackMayBeTaken | hub_api/auth/handles.py:45-56 | The bound is sharp: the 998 suffixes of a reserved name spend the search, and with the fallback that is 999 handles |
| Stems.CleanIsFixed | hub_api/auth/handles.py:34-39 | Cleaning leaves a legal stem that fits and does not end in a hyphen as it is |
| Crowding.CrowdTakesSuffixes | hub_api/auth/handles.py:50-55 | For every n up to 998, n provider sign-ups under one reserved name hold exactly its first n suffixes |
| Crowding.NextIsRefused | hub_api/auth/handles.py:56 | After 998 of them and one more account, the next such sign-up is given the taken fallback and refused |
| Names.AcceptedHandleIsFixed | hub_api/catalog/names.py:63-78 | An accepted handle fits the grammar, is not reserved, and is accepted again unchanged |
| Names.AcceptedExactly | hub_api/catalog/names.py:63-78 | A text is accepted as the handle it is alike to, refused as reserved or as outside the grammar each for cause, and alike texts are answered alike |
| Names.NobodyIsReserved | hub_api/catalog/names.py:22-53 | In every run no sign-up on either route gives one of the reserved names away, each named |
| Names.AllocatedIsAccepted | hub_api/catalog/names.py:63-78 | However many handles are taken, an allocated handle is accepted as it stands, except exactly a badly cut bare stem and a fallback with a number of 35 digits or more |
| Names.EntryIdNamesModel | hub_api/catalog/names.py:104-106 | An entry identifier determines its owner and its model |
| Text.NormalisedIsFixed | hub_api/auth/accounts.py:31-33 | Normalising an address is idempotent and leaves no capitals or outer blanks |
| Addresses.StoredAlike | hub_api/auth/accounts.py:31-33 | Two addresses are stored alike if and only if they are the same text but for the two cases of a letter, by character codes, and outer blanks |
| Addresses.StoredForm | hub_api/auth/accounts.py:31-33 | What is stored is the address itself in small letters without outer blanks |
| Addresses.StripIsCore | hub_api/auth/accounts.py:31-33 | Stripping takes a blank beginning and a blank end away and nothing else |
| Accounts.AccountTable.RegisterAccount | hub_api/auth/accounts.py:55-75 | The checks and the insert equal the one-step registration |
| Accounts.AccountTable.LinkOrCreateAccount | hub_api/auth/accounts.py:106-125 | The lookups, the insert and the link equal the one-step login |
| Accounts.AccountTable.CreateFromProfile | hub_api/auth/accounts.py:183-201 | The checks and the insert equal the one-step creation |
| Accounts.RegisteredExactly | hub_api/auth/accounts.py:55-75 | Adds one unverified account exactly for a strong password, an address alike to nobody's and a free handle; changes nothing otherwise |
| Accounts.LinkedExactly | hub_api/auth/accounts.py:106-201 | A first provider login ends in the account whose address is alike, if verified; in one new account, if nobody's is; or in a refusal that changes nothing |
| Accounts.SignUpNeverRunsOut | hub_api/auth/handles.py:42-56 | In any run with fewer than 998 accounts so far no sign-up fails for want of a handle |
| Accounts.AddressesStayUnique | hub_api/auth/accounts.py:161-180 | In every run addresses stay in stored form and no two are alike, handles are unique, links lead to real accounts |
| Accounts.LinkIsForever | hub_api/auth/accounts.py:128-144 | After a login, every later login of that provider account ends in the same account or is refused as inactive |
| Accounts.UnverifiedNeverAdopts | hub_api/auth/accounts.py:147-158 | An unverified profile never reaches an account that was there before, except over an existing link |

## Left out

- Two simultaneous transfers to one upload, unlocked concurrent reservations, and a sweep in the middle of another transaction: the code does not guard them, so the model excludes them.
- A sweep that is cut short between its file removals and its commit: the model sweeps files and rows in one step.
- Torn files of transfers that had already hung up before a crash: only files still being written may lose their end. A resend writes the file anew in either case.
- The digest function itself, real filesystem calls and directory creation: maps stand for staging and artifacts, and a rename is one step.
- Routing, cookies, request bodies, settings, rendering of errors and migrations: plumbing. Validation of slugs and version names happens there, so the model takes both as given strings.
- Password hashing and policy, the password sign-in, OAuth clients, signed state and token generation: they come from a library that is not part of this model. A registration says whether its password is strong.
- Authorization-code and device-code tables: no code that steps them is in the repository's core.
- The verification plane, rejection, deletion, takedown, private models, and ledger entries for deletion or adjustment: no operation reaches them. The stored states are therefore uploaded, verifying and published.
- Order and limit of the listing, its text filter, the latest version, download counts and document rendering: they only read, and add easy members.
- Licence, data set and summary columns, display name, avatar, user agent, column length limits and the rounding of the expiry returned to the client: carried along unchanged.
- Changes to accounts during an upload run, such as new users or new storage limits.
- Non-ASCII text: `strip`, `lower` and the handle grammar are modelled for ASCII.
- Credentials.TokenTable.ResolveToken: takes the row a value hashes to, so it does not model guessing or prefixes of token strings.
