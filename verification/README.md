# New_Mud identity, content and connection protocols in Dafny

This project models the protocol and compiler cores of New_Mud, a multi-user dungeon server, and
proves properties of them over all inputs, all interleavings and all runs.

| area | modules |
|---|---|
| Refresh-token families (rotation as in section 10.4 of RFC 6749) | `RefreshChain`, `RefreshTables`, `RefreshService`, `RefreshRuns`, `RefreshTokenText` |
| Refresh coordination of browser tabs, composed with the server | `RefreshBrowser`, `RefreshCoordinator`, `RefreshTabs` |
| Verification challenges, leased delivery, provider circuit breaker, rate limits | `LeaseMachine`, `RowOrder`, `VerificationTickets`, `VerificationDesk`, `SecurityNotifications`, `ProviderCircuit`, `RateLimits` |
| Registry catalog, blueprint compiler, publication and verification of content | `DepthFirst`, `RegistryCatalog`, `LayeredData`, `Ordering`, `BlueprintCompiler`, `ContentRelease`, `ReleaseRoundTrip`, `ContentStartup` |
| Game connection, server and client | `GameServer`, `GameClient` |
| Dependency closure of LPC sources | `SourceClosure` |

The pattern is the same in most areas.  What the rows or fields must amount to is a small value (a
chain of generations, a ticket, a circuit, a connection); classes with the rows as fields carry out
the transactions as they are written and are proved to take the rows of one value to the rows of the
next; the promises are then lemmas about runs of those values.  Each transaction also says what it
does in terms of the rows and fields alone, under the comment "the same, read off the rows", so that
neither side rests on the other's functions.  `dafny verify dfyconfig.toml` checks everything.

Conventions: a database transaction with its locks is one atomic step; time is an integer number of
seconds given to each step; UUIDs are given fresh; canonical hashes and keyed digests are injective,
modelled by what they hash or by an injective function; settings are constants with their defaults;
strings sort by code point, as UTF-8 bytes do.

What the proofs found:

- A tab that crashes after accepting a refreshed session and before clearing its pending key sends
  the settled key with the newer cookie: the server answers IDEMPOTENCY_CONFLICT and the browser logs
  out.  After every such crash this is what the next attempt leads to and no page gets a result
  before (`CrashBeforeClearLogsOut`, `NoResultBeforeLogout`); without one no page is ever refused
  (`RefusedOnlyIfCareless`).
- The replay branch never fires (`ReplayNeverFires`) unless a tab crashes between clearing its slot
  and the logout it owes, while the cookie is used already or about to be: then the next refresh is
  taken for a replay (`StrandedIff`).  A key that outlives the retry window leads there
  (`LapseIsDangerous`).
- At most one challenge per purpose and address stays active exactly as long as finishing workers
  hold the lookup keys of the live rivals whose digests differ from their own (`FinishUnique`).  A
  live rival with the same digest under a retired key makes the unique constraint roll the finish
  back after the mail was sent (`FinishDelivery`).
- A bundle in which some blueprint lists more than ten parents is published by the first start and
  rejected by every later one, because `/parent_keys/10` sorts before `/parent_keys/2`
  (`BootstrapTwice`, `ParentsSortedIffTen`).
- The macro table of one of two headers that include each other depends on which of them was asked
  for first, unless it defines every macro of the other (`CyclicHeadersDependOnOrder`).  In general
  the order never matters if and only if no single header asked for first makes a difference
  (`OrderFreeIff`).
- A frame that is not text, arriving late on an earlier socket, is recorded against the game
  connection: the next ordinary close of the current socket reports INVALID_SERVER_ENVELOPE
  (`StaleFrameThenClose`).
- The refusal for a live family whose presented credential is neither used nor current cannot be
  reached (`FallbackUnreachable`).

## Model

| member | source | states |
|---|---|---|
| RefreshChain.RefreshKeeps | src/new_mud/apps/identity/services.py:766-868 | Every refresh, whether it repeats, replays, is refused or rotates, keeps the family one linear chain of distinct credentials in which current_generation is 1 plus the number of SUCCEEDED terminal records and failures exist only in dead families |
| RefreshChain.RotationKeeps | src/new_mud/apps/identity/services.py:825-860 | A rotation appends exactly one unused credential and one won key, so generations and wins stay in step |
| RefreshChain.EndKeeps | src/new_mud/apps/identity/services.py:665-701 | Ending a family keeps its chain and its won keys |
| RefreshTables.ContractsHold | src/new_mud/apps/identity/migrations/0002_lifetime_contract_guards.py:4-111 | Rows that represent well-formed chains pass, at commit, every deferred constraint trigger on sessions, families and credentials and the unique constraints of the credential table |
| RefreshTables.CredentialContractHolds | src/new_mud/apps/identity/migrations/0002_lifetime_contract_guards.py:54-111 | The greatest generation is the current one, replacements step by one inside the family, an ACTIVE credential exists exactly at the current generation of an ACTIVE family |
| RefreshTables.DistinctRows | src/new_mud/apps/identity/models.py:192-222 | No two credential rows share a generation, a replacement or the ACTIVE state within a family |
| RefreshService.FallbackUnreachable | src/new_mud/apps/identity/services.py:819-823 | In represented rows a live family's credential that is neither used nor current does not exist: the fallback refusal can never be taken |
| RefreshService.AuthService.SaveSession | src/new_mud/apps/identity/migrations/0001_initial.py:60-79 | A session update is only possible if the guard accepts it: the family once set, the expiry and an ended state stay |
| RefreshService.AuthService.SaveFamily | src/new_mud/apps/identity/migrations/0001_initial.py:81-97 | A family update is only possible if the guards accept it: session, expiry and an ended state stay |
| RefreshService.AuthService.SaveCredential | src/new_mud/apps/identity/migrations/0001_initial.py:99-121 | A credential update is only possible if the guards accept it: family, generation, expiry, a state other than ACTIVE and a replacement once set stay |
| RefreshService.AuthService.Login | src/new_mud/apps/identity/services.py:532-601 | Adds one chain of one ACTIVE credential for the account, keeps all other chains, and hands out that credential for fifteen minutes of access and thirty days of refreshing |
| RefreshService.AuthService.Converge | src/new_mud/apps/identity/services.py:665-701 | Credentials, family and session converge to the rows of the ended chain; an already ended chain is untouched and reports no change |
| RefreshService.AuthService.RevokeFamilyForReplay | src/new_mud/apps/identity/services.py:704-718 | The chain ends as replayed and one replay audit event is written |
| RefreshService.AuthService.AuthenticationResult | src/new_mud/apps/identity/services.py:609-629 | The reply names the credential of the row, its session and account, and what is left of both lifetimes, never negative; a row that does not carry the hash of its own token is refused |
| RefreshService.AuthService.Replay | src/new_mud/apps/identity/services.py:766-792 | A call that finds its key settled changes nothing. Read off the rows: another credential conflicts, a failed key repeats its failure, and a won key is answered with its successor exactly while account, session and family are active, no expiry has passed and the successor is the active current credential; it is SUPERSEDED if only the last of these fails and SESSION_REVOKED otherwise |
| RefreshService.AuthService.CreateFailedTerminal | src/new_mud/apps/identity/services.py:640-662 | A refusal settles its key once, in a family that is already dead, and writes that one row |
| RefreshService.AuthService.Rotate | src/new_mud/apps/identity/services.py:825-868 | The predecessor is USED and replaced by the successor, the successor ACTIVE one generation on, the family at that generation, the key settled as won and nothing else is written; these are the rows of the chain one generation longer |
| RefreshService.AuthService.RefreshUnsettled | src/new_mud/apps/identity/services.py:794-868 | A fresh key rotates if and only if account, session and family rows are active, every expiry lies after the moment of the call and the credential is the active current one; otherwise it is refused with SESSION_REVOKED and the family has ended |
| RefreshService.AuthService.RefreshLocked | src/new_mud/apps/identity/services.py:755-878 | The locked transaction takes the rows exactly to the chain the protocol prescribes; read off the rows, a settled key is answered as Replay says and a fresh one as RefreshUnsettled says |
| RefreshService.AuthService.Refresh | src/new_mud/apps/identity/services.py:721-889 | Bad keys and unknown, forged or missing tokens are refused without any change; every other call is one protocol step of the family the token was located in, with success exactly when the rows are active, unexpired and current, and an ended family otherwise |
| RefreshService.AuthService.LogoutOne | src/new_mud/apps/identity/services.py:942-961 | One located session and its family end as logged out, reporting whether that changed anything, with one audit event |
| RefreshService.AuthService.LogoutSessions | src/new_mud/apps/identity/services.py:922-962 | Exactly the chains named by the refresh token or the access token end; read off the rows, sessions, families and credentials named are not active any more and all others stay; the count is the number that were alive; one audit event each |
| RefreshService.AuthService.LogoutLocated | src/new_mud/apps/identity/services.py:936-962 | Looping over the locked sessions ends each located chain once and counts the live ones |
| RefreshService.AuthService.RevokeUser | src/new_mud/apps/identity/services.py:351-446 | After the account part of a reset no session, family or credential of the user is active, and every row of every other user is as it was |
| RefreshService.ConvergeRepresents | src/new_mud/apps/identity/services.py:674-693 | The three row updates of a convergence represent the ended chain and nothing else |
| RefreshService.RotateRepresents | src/new_mud/apps/identity/services.py:825-860 | The five row writes of a rotation represent the longer chain and nothing else |
| RefreshService.LoginRepresents | src/new_mud/apps/identity/services.py:559-585 | The rows a login inserts represent one more chain |
| RefreshService.ResetRepresents | src/new_mud/apps/identity/services.py:386-406 | Revoking the user's credential, family and session rows represents ending all chains of the user |
| RefreshService.EndedRowsOf | src/new_mud/apps/identity/services.py:665-701 | Ending chains, read off the rows: nothing of them is active, a session that was active takes the state of the reason, and no other row changes |
| RefreshRuns.StepKeeps | src/new_mud/apps/identity/services.py:532-962 | Logins, refreshes, logouts and resets keep families apart and every chain well formed |
| RefreshRuns.ReachableChains | src/new_mud/apps/identity/services.py:532-962 | In every state reachable by any interleaving each family has exactly one more generation than won keys |
| RefreshRuns.RunLater | src/new_mud/apps/identity/services.py:665-868 | Over any run a chain only grows, an end and every settled key stay what they are, and a dead chain never grows |
| RefreshRuns.OutcomeStable | src/new_mud/apps/identity/services.py:766-792 | For each family and key the first processed call fixes the outcome: later calls with the same credential change no row and get that outcome, SESSION_REVOKED or SUPERSEDED; any other credential conflicts |
| RefreshRuns.SupersededForever | src/new_mud/apps/identity/services.py:771-792 | Once the successor a key won is not the active current credential, that key never succeeds again |
| RefreshRuns.ExpiredForever | src/new_mud/apps/identity/services.py:782-823 | From the expiry of a family on no key, settled or fresh, is ever answered with success, over any continuation |
| RefreshRuns.ResetIsFinal | src/new_mud/apps/identity/services.py:351-440 | No credential of the user that existed at a committed reset ever refreshes again, under any key, at any later time, in any continuation |
| RefreshRuns.LogoutIsFinal | src/new_mud/apps/identity/services.py:922-962 | No credential of a family that was logged out ever refreshes again, in any continuation |
| RefreshRuns.TablesEnable | src/new_mud/apps/identity/services.py:733-764 | What the service looks up in its rows enables the corresponding step of a run, so the theorems about runs apply to the service |
| RefreshBrowser.ServeRotates | client/src/api/refresh-coordinator.ts:185-223 | A rotation of a request in flight keeps: at most the pending key still matters, and every request in flight is settled or carries the current credential |
| RefreshBrowser.ServeRepeats | src/new_mud/apps/identity/services.py:766-792 | Serving a duplicate or delayed request of a settled key changes no chain and only confirms what the waiting sender may be told |
| RefreshBrowser.SendKeeps | client/src/api/refresh-coordinator.ts:192-201 | A request is only ever sent with a settled pending key or with the current cookie |
| RefreshBrowser.ClearKeeps | client/src/api/refresh-coordinator.ts:202-219 | The slot is cleared only when its key is settled and the cookie is current, or when a logout is due next |
| RefreshBrowser.StepKeeps | client/src/api/refresh-coordinator.ts:185-223 | All steps of tabs, network, clock and server keep the joint invariant, lapsed keys included |
| RefreshBrowser.ReplayNeverFires | client/src/api/refresh-coordinator.ts:185-223 | With requests lost, delayed and duplicated, tabs crashing and keys lapsing, until the first logout attempt, account change, expiry of the family or stranding of a tab: the server never detects a replay, the family stays alive, and each pending key advances the generation at most once |
| RefreshBrowser.AcceptedIsCurrent | client/src/api/refresh-coordinator.ts:201-210 | A page that was handed a result holds the current credential |
| RefreshBrowser.StrandedIff | client/src/api/refresh-coordinator.ts:195-200 | A tab that crashes between clearing its slot and its logout ends the guarantee if and only if the browser then keeps a used credential or a request still in flight will use it: exactly then some undisturbed continuation has a request taken for a replay |
| RefreshBrowser.LapseIsDangerous | client/src/api/refresh-coordinator.ts:195-200 | From every initial state such a moment is reached by a key whose reply never arrived and that outlives the retry window |
| RefreshBrowser.RefusedIff | src/new_mud/apps/identity/services.py:766-778 | A request sent within the retry window and served next is refused if and only if its key is already settled while the cookie is current |
| RefreshBrowser.RefusedOnlyIfCareless | client/src/api/refresh-coordinator.ts:207-219 | Over every run up to the first disturbance: unless a tab crashed between its result and the clearing of its slot, no page is ever told a refusal, and the browser logs itself out only after a lapsed key |
| RefreshBrowser.CrashBeforeClearLogsOut | client/src/api/refresh-coordinator.ts:207-219 | From every state in which a tab holds its result and has not cleared the slot: if it crashes there, the next tab's attempt ends in a logout, told IDEMPOTENCY_CONFLICT while the key is within its retry window |
| RefreshBrowser.NoResultBeforeLogout | client/src/api/refresh-coordinator.ts:185-223 | After such a crash, in every quiet run, no page is handed a result before the browser has logged itself out |
| RefreshCoordinator.LocalSteps | client/src/api/refresh-coordinator.ts:185-223 | The lock holder's events of the composed system are exactly the steps of its loop, and the server, the clock and the account leave the tab alone |
| RefreshCoordinator.Owner.RefreshAsOwner | client/src/api/refresh-coordinator.ts:185-223 | The turns decide: every turn but the last met brought claims that already ran out, the last one fixes the outcome, and exactly the requests and replies of the turns met are taken, along a path through the phases; a result is accepted and posted only with claims that still run, a conflict or superseded request clears the slot and logs out, and only an invalid key or a missing reply leaves the key of the last turn in place |
| RefreshCoordinator.DecidedOnce | client/src/api/refresh-coordinator.ts:194-211 | At most one outcome and one number of turns fit what the loop meets |
| RefreshCoordinator.OutcomeMeans | client/src/api/refresh-coordinator.ts:185-223 | An outcome fits the turns exactly when each earlier one was sent within a day and brought claims that ran out, and the last one was too old, unanswered, refused or brought claims that still run, as the outcome says |
| RefreshCoordinator.Owner.CoordinatedRefresh | client/src/api/refresh-coordinator.ts:225-247 | Only waiting in vain starts over; the first attempt that is granted the lock or gets a message decides; a waiting tab hands the posted result to its page, or fails with the posted code, and touches neither the slot nor the session |
| RefreshCoordinator.Owner.FailWith | client/src/api/refresh-coordinator.ts:212-222 | Each stable error code clears, logs out and posts as prescribed |
| RefreshCoordinator.Owner.Lapse | client/src/api/refresh-coordinator.ts:195-200 | A key past the retry window is dropped, then the session is logged out and the failure posted |
| RefreshCoordinator.Owner.Renew | client/src/api/refresh-coordinator.ts:202-206 | Claims that already ran out replace the pending key by a new one |
| RefreshCoordinator.Owner.Accept | client/src/api/refresh-coordinator.ts:207-210 | Claims that still run are handed to the page, then the key is dropped, then the other tabs are told |
| RefreshCoordinator.Owner.GetOrCreatePending | client/src/api/refresh-coordinator.ts:95-115 | The slot keeps an existing pending key and is filled otherwise |
| RefreshTabs.StepKeeps | client/src/api/refresh-coordinator.ts:135-247 | With any number of tabs that refresh, wait, are told, time out, close and come back, exactly the lock holder runs the loop, its end fits its phase, and every message is what the server answered |
| RefreshTabs.RunProjects | client/src/api/refresh-coordinator.ts:225-247 | Every run of all tabs moves the browser along a run of the composed system, so the theorems about one browser hold for any number of tabs |
| RefreshTabs.ReplayNeverFires | client/src/api/refresh-coordinator.ts:225-247 | For any number of tabs, until the first disturbance: no replay is detected, the family stays alive, and generations and won keys stay in step |
| RefreshTabs.EveryEndIsGenuine | client/src/api/refresh-coordinator.ts:135-152 | In every reachable state at most one tab refreshes, and whatever a tab ended with, holding the lock or waiting, was posted and is what the server answered |
| RefreshTabs.FirstPostDecides | client/src/api/refresh-coordinator.ts:142-150 | Over any run a waiting tab has got exactly the first message posted since it began to wait, and none if nothing was |
| RefreshTabs.HandedOrTakesOver | client/src/api/refresh-coordinator.ts:225-247 | After any run a waiting tab can end with the first message posted since it began to wait, or, if there was none and the lock is free, becomes the holder once its ten seconds are over |
| RefreshTabs.HolderEndsAsPosted | client/src/api/refresh-coordinator.ts:207-223 | The lock holder ends with the very message it posted and frees the lock |
| LeaseMachine.StepDecreases | src/new_mud/apps/identity/verification_delivery.py:189-343 | Claims, re-claims, failures, finishes, exhaustion and cancellation each lower one measure; only a stale report changes nothing |
| LeaseMachine.BoundedSends | src/new_mud/apps/identity/verification_delivery.py:198-245 | Over any run the attempt counter counts exactly the claims, which never exceed the limit, and the row changes finitely often |
| LeaseMachine.NeverStuck | src/new_mud/apps/identity/verification_delivery.py:133-154 | Once its retry or lease time has passed an open row is either claimable or exhaustible, never both, never neither |
| LeaseMachine.NeverHeldAgain | src/new_mud/apps/identity/verification_delivery.py:254-259 | A worker that lost its lease never holds the row again without claiming it |
| LeaseMachine.SupersededClaimIsStale | src/new_mud/apps/identity/verification_delivery.py:254-259 | Whatever a worker reports after another one claimed the row changes nothing, at any later time |
| LeaseMachine.Delays | src/new_mud/apps/identity/verification_delivery.py:319-343 | Retries are delayed by 2, 4, 8, ... seconds, never more than five minutes |
| VerificationTickets.StepOk | src/new_mud/apps/identity/verification_delivery.py:101-343 | Every transaction keeps challenge and outbox coupled, attempts and guesses within their limits |
| VerificationTickets.FinishUnique | src/new_mud/apps/identity/verification_delivery.py:260-278 | A finish by the lease holder keeps live codes unique per purpose and address if and only if its ring holds the key of every live rival whose digest differs from its own; a rival with the same digest is superseded or the unique constraint rolls the finish back |
| VerificationTickets.StepUniqueDigests | src/new_mud/apps/identity/models.py:379-383 | The unique constraint on active destinations holds after every step, whatever the rings hold |
| VerificationTickets.OnlyFinishActivates | src/new_mud/apps/identity/verification_delivery.py:272-278 | No step other than a finished delivery by the lease holder makes a challenge usable |
| VerificationTickets.CoveredRunsNeverAbort | src/new_mud/apps/identity/verification_delivery.py:248-278 | While the rings of finishing workers hold the keys of the live rivals, no finish of a run is rolled back and the condition for uniqueness is met throughout |
| VerificationTickets.RunKeeps | src/new_mud/apps/identity/verification_delivery.py:248-298 | In every reachable state challenge and outbox are coupled and no two live challenges share a digest; while every finish reaches its live rivals of other digests, at most one challenge per purpose and address is ACTIVE, across rotations of the lookup key |
| VerificationTickets.TerminalForever | src/new_mud/apps/identity/migrations/0007_password_reset_cancellation_transitions.py:20-64 | A terminal challenge and its outbox never change again, whatever workers still report |
| VerificationTickets.ResetIsFinal | src/new_mud/apps/identity/services.py:362-440 | Every reset code of the user that was pending or usable at a committed reset is withdrawn, and no continuation makes it usable, even when a worker holding its lease finishes later |
| VerificationTickets.DeliveryBounded | src/new_mud/apps/identity/verification_delivery.py:189-343 | Over any interleaving of workers, registrations and resets the delivery of each challenge is a run of the lease machine, so it is claimed at most five times |
| VerificationTickets.GuessesBounded | src/new_mud/apps/identity/services.py:178-186 | Over any run at most five wrong codes are compared with one challenge |
| VerificationTickets.UsedOnce | src/new_mud/apps/identity/services.py:233-237 | Over any run the code of a challenge is accepted at most once, by a registration or a reset, and then stays consumed |
| VerificationDesk.RowsCoupled | src/new_mud/apps/identity/verification_delivery.py:101-343 | An outbox is pending or leased exactly while its challenge is pending_delivery, keeps its payload exactly while it is open, and each kind of terminal row belongs to its kind of terminal challenge |
| VerificationDesk.Desk.SaveChallenge | src/new_mud/apps/identity/migrations/0007_password_reset_cancellation_transitions.py:4-41 | A challenge write is only possible along a transition the guard trigger, the check constraints and the unique constraint on active destinations accept |
| VerificationDesk.Desk.SaveOutbox | src/new_mud/apps/identity/migrations/0007_password_reset_cancellation_transitions.py:43-68 | An outbox write is only possible along a transition the guard trigger and the check constraints accept |
| VerificationDesk.Desk.RequestVerification | src/new_mud/apps/identity/verification_requests.py:195-228 | Inserts exactly one pending challenge and one outbox that is due at once and carries address, purpose and code |
| RowOrder.First | src/new_mud/apps/identity/verification_delivery.py:205-207 | The row found is the first by both sort columns and its identifier |
| VerificationDesk.Desk.ClaimDelivery | src/new_mud/apps/identity/verification_delivery.py:189-245 | Leases the first unlocked due row, by retry time, creation and identifier, to the worker for thirty seconds, counts the attempt and hands out its payload; nothing is claimed if and only if no unlocked row is due |
| VerificationDesk.Desk.TerminalizeOneExhausted | src/new_mud/apps/identity/verification_delivery.py:133-154 | Fails the outbox whose last lease ran out first together with its pending challenge, or finds that there is none; no other row changes |
| VerificationDesk.Desk.TerminalizeFailure | src/new_mud/apps/identity/verification_delivery.py:101-130 | The outbox fails and loses its payload; the challenge fails only if it was still pending |
| VerificationDesk.Desk.FinishDelivery | src/new_mud/apps/identity/verification_delivery.py:248-299 | Every active rival the worker's keys reach is superseded, the challenge is active from now for ten minutes and the outbox is delivered and loses its payload; a stale claim changes nothing, and a finish that meets an active challenge of its own digest is rolled back |
| VerificationDesk.BlockedRows | src/new_mud/apps/identity/models.py:379-383 | With its rivals superseded, a finish meets an active row at its own destination exactly when its own key is missing from its ring and a live challenge carries the same digest |
| VerificationDesk.AloneAtDestination | src/new_mud/apps/identity/models.py:379-383 | The row of a live challenge stands alone at its destination, so its later writes never meet the unique constraint |
| VerificationDesk.Desk.RecordFailure | src/new_mud/apps/identity/verification_delivery.py:302-343 | Challenge and outbox fail exactly if the failure is permanent or the fifth attempt was made; otherwise the lease is given back and the next attempt is due 2, 4, 8 or 16 seconds later; a stale claim changes nothing |
| VerificationDesk.Desk.Send | src/new_mud/apps/identity/verification_delivery.py:362-363 | A claim's message is handed to the provider once |
| VerificationDesk.Desk.DeliverOne | src/new_mud/apps/identity/verification_delivery.py:346-391 | One round of a worker closes the first exhausted lease, or else claims the first due row, hands over its message once and reports what the provider said; outcome, message and ticket events are exactly these |
| VerificationDesk.SendsBounded | src/new_mud/apps/identity/verification_delivery.py:346-391 | However workers crash, stall and overtake each other, for one challenge at most five messages, and never more than its claims, are handed to the provider |
| VerificationDesk.Desk.FindActive | src/new_mud/apps/identity/services.py:145-156 | The challenge a code is checked against is the first live match by latest activation, then identifier |
| VerificationDesk.LatestIsOnly | src/new_mud/apps/identity/services.py:289-300 | While codes are unique the latest match is the only one |
| VerificationDesk.Desk.CheckCode | src/new_mud/apps/identity/services.py:157-187 | Accepts exactly the right code before the stored expiry; otherwise an expired challenge is closed, a wrong code counted, and the fifth one locks it, each with its time |
| VerificationDesk.Desk.SubmitRegistration | src/new_mud/apps/identity/services.py:141-242 | An accepted code leaves its challenge CONSUMED now; it is accepted exactly if it is right, in time and the registration goes ahead; a registration that cannot leaves it as it is, and a wrong or late code is counted, expired or locked; no other row changes |
| VerificationDesk.Desk.ConfirmReset | src/new_mud/apps/identity/services.py:285-456 | An accepted reset leaves its challenge CONSUMED now, supersedes the other unfinished reset codes of the user, fails their open outboxes and ends every session of the user; it is accepted exactly if the code is right, in time and the password passes; every other outcome leaves sessions and outboxes alone |
| VerificationDesk.Desk.CommitReset | src/new_mud/apps/identity/services.py:345-440 | The committed writes are the reset of the tickets together with the end of all chains of the user, and, row by row, nothing else |
| VerificationDesk.Desk.WithdrawRows | src/new_mud/apps/identity/services.py:407-414 | The loop supersedes exactly the given challenges |
| VerificationDesk.Desk.CancelRows | src/new_mud/apps/identity/services.py:415-433 | The loop fails exactly the given outboxes and removes their payloads |
| VerificationDesk.FinishedChallenges | src/new_mud/apps/identity/verification_delivery.py:260-278 | The bulk update and the activation give the challenge rows of the finished tickets |
| VerificationDesk.ResetChallenges | src/new_mud/apps/identity/services.py:362-440 | Superseding the unfinished rows and consuming the presented one gives the challenge rows of the reset tickets |
| VerificationDesk.ResetOutboxes | src/new_mud/apps/identity/services.py:375-433 | Failing the open outboxes of the superseded challenges gives the outbox rows of the reset tickets |
| VerificationDesk.ClaimStaysGenuine | src/new_mud/apps/identity/verification_delivery.py:93-98 | A claim keeps naming its own challenge, outbox and payload, however late its worker reports |
| SecurityNotifications.Notices.Enqueue | src/new_mud/apps/identity/services.py:447-453 | Inserts one pending notification that is due at once |
| SecurityNotifications.Notices.Claim | src/new_mud/apps/identity/security_notifications.py:163-281 | Leases the first unlocked due notification, by retry time, creation and identifier, for thirty seconds and counts the attempt, or, when its contact cannot be used, fails it with one audit event in the same transaction |
| SecurityNotifications.Notices.GiveUp | src/new_mud/apps/identity/security_notifications.py:112-122 | A failed row and its audit event are written together: every given-up notification has exactly one audit event, no other has any |
| SecurityNotifications.Notices.TerminalizeOneExhausted | src/new_mud/apps/identity/security_notifications.py:125-160 | Gives up the notification whose last lease ran out first, or finds that there is none |
| SecurityNotifications.Notices.Finish | src/new_mud/apps/identity/security_notifications.py:284-316 | Delivers for the lease holder; a stale claim changes nothing |
| SecurityNotifications.Notices.RecordFailure | src/new_mud/apps/identity/security_notifications.py:319-371 | Fails with one audit event exactly if the failure is permanent or the fifth attempt was made; otherwise the next attempt is due 2, 4, 8 or 16 seconds later; a stale claim changes nothing |
| ProviderCircuit.VersionCounts | src/new_mud/apps/identity/authentication_baseline_operations.py:128-175 | Over any run the version advances by one with every change of state, deadline or token, and with nothing else |
| ProviderCircuit.SameVersionIdle | src/new_mud/apps/identity/authentication_baseline_operations.py:213-219 | The same version is seen again exactly when nothing happened in between |
| ProviderCircuit.SendOpensIffIdle | src/new_mud/apps/identity/authentication_baseline_operations.py:262-273 | A send opens the circuit for thirty seconds if and only if it failed transiently and nothing changed since its permit was issued |
| ProviderCircuit.ProbeDecidesIffLatest | src/new_mud/apps/identity/authentication_baseline_operations.py:213-231 | A probe closes or reopens the circuit if and only if it is still the latest one and its lease has not run out |
| ProviderCircuit.WhoMayMove | src/new_mud/apps/identity/authentication_baseline_operations.py:149-176 | Without the test backend only the token holder's unexpired probe closes the circuit, a running probe is replaced only after its lease, and a closed circuit opens exactly for a send under the current version that failed transiently |
| ProviderCircuit.OneReportPerPermit | src/new_mud/apps/identity/authentication_baseline_operations.py:248-273 | However many workers report under one permit, at most one report takes effect |
| ProviderCircuit.AlwaysProbed | src/new_mud/apps/identity/authentication_baseline_operations.py:149-157 | After its deadline a circuit that is not closed gives the next poll a probe |
| ProviderCircuit.Monitor.PreparePoll | src/new_mud/apps/identity/authentication_baseline_operations.py:112-181 | Records the heartbeat and grants a send while the row is CLOSED, closes the row if the test backend is allowed, starts a probe of fifteen seconds exactly if the deadline of the circuit or of the last probe has passed, and grants nothing otherwise; no other field changes |
| ProviderCircuit.Monitor.FinishProbe | src/new_mud/apps/identity/authentication_baseline_operations.py:201-243 | Closes or opens the row exactly if it is PROBING under this version and token and the lease runs; a permit is granted only by a successful probe that took effect |
| ProviderCircuit.Monitor.FinishAttempt | src/new_mud/apps/identity/authentication_baseline_operations.py:248-282 | The row changes if and only if the send failed transiently, the row is CLOSED and its version is that of the permit; then it is OPEN for thirty seconds at the next version |
| RateLimits.TwiceTheLimit | src/new_mud/apps/identity/verification_limits.py:60-65 | With a clock that never goes back any closed interval of one window length admits at most twice the limit, from any window state |
| RateLimits.BoundIsTight | src/new_mud/apps/identity/verification_limits.py:60-65 | Under every policy twice the limit is reached within one window length |
| RateLimits.AcrossOneBoundary | src/new_mud/apps/identity/verification_limits.py:60-65 | With one window boundary ahead, what is left of this window and one full window bound the admissions |
| RateLimits.PersistentLimiter.Count | src/new_mud/apps/identity/verification_limits.py:53-73 | A running window counts one more, an ended or missing one starts with this request; a bucket over its limit tells how long the window still runs, at least one second |
| RateLimits.PersistentLimiter.Consume | src/new_mud/apps/identity/verification_limits.py:35-78 | Every bucket counts one for every limit that names it; the request is allowed if and only if no limit is exceeded afterwards, and is otherwise told the longest time that an exceeded window still runs |
| RateLimits.EveryBucketTwice | src/new_mud/apps/identity/verification_limits.py:35-78 | In runs of decisions over several buckets, each bucket allows at most twice its limit in any interval of its window length |
| RateLimits.ChargeSeenBy | src/new_mud/apps/identity/verification_limits.py:52-73 | A decision charges a bucket once per occurrence and nothing else |
| RateLimits.OrderKeepsHits | src/new_mud/apps/identity/verification_limits.py:41-44 | Sorting the limits changes neither how often a bucket is charged nor its limit |
| GameServer.RunKeeps | src/new_mud/apps/identity/consumers.py:412-542 | Over replays, failures and events the connection sends exactly 1, 2, 3, ..., every cached terminal is one of the envelopes sent, and the cache never exceeds its limit |
| GameServer.StepKeeps | src/new_mud/apps/identity/consumers.py:440-542 | Each request, invalidation and disconnect keeps numbering gapless and the cache sound |
| GameServer.WriteOnce | src/new_mud/apps/identity/consumers.py:471-542 | A stored terminal is never overwritten until the cache is cleared |
| GameServer.ReplaysAgree | src/new_mud/apps/identity/consumers.py:471-484 | Every later envelope for an answered request id carries the payload of the first answer, or reports a conflict or a lost session |
| GameServer.RepeatIsAnswered | src/new_mud/apps/identity/consumers.py:471-484 | An admitted repetition is answered with the cached payload under the next number, or SESSION_REVOKED exactly when the answer rests on a session that is not active any more |
| GameServer.ReadyOnce | src/new_mud/apps/identity/consumers.py:561-627 | Until it is invalidated or closed a connection binds at most one session, announces it exactly once and never changes it |
| GameServer.AnsweredByTable | src/new_mud/apps/identity/consumers.py:492-648 | Which answer a first request gets, code by code: each error, a pong or a session exactly under the conditions of the checks before it |
| GameServer.RequestServed | src/new_mud/apps/identity/consumers.py:440-542 | What one request does to sequence, cache, session and state in each case: closed as too many, turned away with RATE_LIMITED, answered again, or answered and cached |
| GameServer.SameRequestIff | src/new_mud/apps/identity/consumers.py:45-75 | Two requests count as the same exactly if their canonical version, type and payload agree, or, without a canonical form, if the frames are equal |
| GameServer.ConnectionTwice | src/new_mud/apps/identity/consumers.py:164-175 | No interval of one window length processes more than twice the request limit |
| GameServer.GameConsumer.RequestAllowed | src/new_mud/apps/identity/consumers.py:164-175 | Admits and counts exactly as the fixed window prescribes |
| GameServer.GameConsumer.Emit | src/new_mud/apps/identity/consumers.py:412-450 | Every envelope sent takes the next number |
| GameServer.GameConsumer.RejectRateLimited | src/new_mud/apps/identity/consumers.py:208-227 | A refused new request is answered once, cached only while there is room, and closes the connection |
| GameServer.GameConsumer.CloseProtocolError | src/new_mud/apps/identity/consumers.py:275-296 | A bad frame closes without sending or caching anything |
| GameServer.GameConsumer.AuthSessionInvalidated | src/new_mud/apps/identity/consumers.py:327-343 | Invalidation unbinds the session, clears the cache and closes |
| GameServer.GameConsumer.SocketDisconnected | src/new_mud/apps/identity/consumers.py:298-325 | A disconnect unbinds the session and clears the cache |
| GameServer.GameConsumer.AuthenticateRequest | src/new_mud/apps/identity/consumers.py:561-627 | Authentication binds the session and sends the answer and then the ready event, or caches one failure, by the order of its checks |
| GameServer.GameConsumer.PingRequest | src/new_mud/apps/identity/consumers.py:629-648 | A ping is answered with its nonce or PAYLOAD_INVALID, and cached |
| GameServer.GameConsumer.AnswerFirst | src/new_mud/apps/identity/consumers.py:492-542 | A request answered for the first time gets the one answer its fields and the session call for |
| GameServer.GameConsumer.ReceiveJson | src/new_mud/apps/identity/consumers.py:440-542 | One request frame is exactly one step of the connection: limited, repeated, refused for space, or answered and cached |
| GameClient.GameConnection.OpenSocket | client/src/protocol/game-connection.ts:133-164 | A new socket starts counting at 1 with nothing pending |
| GameClient.GameConnection.Connect | client/src/protocol/game-connection.ts:106-119 | A new token closes the current socket and reconnects after its close; the same token does nothing; without a socket one is opened |
| GameClient.GameConnection.Disconnect | client/src/protocol/game-connection.ts:121-131 | Disconnecting drops socket, token and retry and reports it |
| GameClient.GameConnection.OnOpen | client/src/protocol/game-connection.ts:172-177 | The current socket reports connected and authenticating and sends one authentication under its request id; any other socket changes nothing |
| GameClient.GameConnection.SendAuthentication | client/src/protocol/game-connection.ts:179-195 | Authentication is sent again under the same request id, and only on the current socket |
| GameClient.GameConnection.OnMessage | client/src/protocol/game-connection.ts:204-247 | An envelope with the expected number is taken in and any other one reported as a gap; SEQUENCE_GAP is reported on a socket exactly when the numbers received there are not 1, 2, 3, ..., and then the socket is closed for a reconnect; text frames of earlier sockets change nothing |
| GameClient.GameConnection.OnFrame | client/src/protocol/game-connection.ts:140-147 | A frame that is not text is reported and recorded as a failure whichever socket it came from; a text frame is a message of its socket |
| GameClient.GameConnection.StaleFrameThenClose | client/src/protocol/game-connection.ts:140-163 | From every state without a pending reconnect: after a non-text frame of an earlier socket the ordinary close of the current one reports INVALID_SERVER_ENVELOPE |
| GameClient.GameConnection.OnSequenced | client/src/protocol/game-connection.ts:225-262 | For the own authentication request a valid success is reported as authenticated and ends the repetition, a valid failure is reported with its code, and anything malformed closes the socket; every other envelope changes nothing |
| GameClient.ToldTable | client/src/protocol/game-connection.ts:225-262 | What a frame in sequence makes the client report, case by case, and when the repetition of the authentication ends |
| GameClient.GameConnection.OnClose | client/src/protocol/game-connection.ts:149-163 | After a gap or a new token the close opens a fresh socket that expects 1; otherwise the recorded failure is reported |
| GameClient.InOrderDeliveryHasNoGap | client/src/protocol/game-connection.ts:217-224 | Whatever the server was asked to send, any in-order prefix of a connection is what the client expects |
| GameClient.DamagedDeliveryHasGap | client/src/protocol/game-connection.ts:217-224 | Any selection of sent envelopes other than an unbroken prefix shows as a gap |
| DepthFirst.HitAgrees | src/new_mud/apps/content/startup.py:361-363 | A memoized result is what the recursion without memo computes, for every path that really leads to the node |
| DepthFirst.OkReachesNoVisited | src/new_mud/apps/content/startup.py:364-369 | A success means that nothing reachable lies on the path or returns to its start |
| DepthFirst.CycleIsGenuine | src/new_mud/apps/content/startup.py:364-369 | A reported cycle is a path of the graph that continues the path taken and ends in a node it already passed |
| DepthFirst.SuccessIsExact | src/new_mud/apps/content/registry.py:183-252 | Resolving a whole graph succeeds exactly when it is acyclic and no node fails locally |
| DepthFirst.Resolver.Resolve | src/new_mud/apps/content/startup.py:361-477 | The memoized resolver returns exactly what the recursion without memo returns, result or failure, and keeps its table sound |
| DepthFirst.Resolver.ResolveAll | src/new_mud/apps/content/startup.py:479-480 | All nodes resolve or the failure is that of the first failing node in iteration order; the table holds every node's own result |
| RegistryCatalog.FromDefinitions | src/new_mud/apps/content/registry.py:156-277 | A catalog is built if and only if definitions of one identity agree, dependencies run in no circle, active keys are distinct, and every row can be resolved: dependencies by the exact hash of what they name and no hash contradicting one given before; it serves every active definition by kind and key and every definition by identity and hash; otherwise the error is that of the first clash or failure |
| RegistryCatalog.ResolvesIff | src/new_mud/apps/content/registry.py:181-252 | The recursion succeeds on a table if and only if dependencies run in no circle and some table has every row resolved; that table is what it computes |
| RegistryCatalog.CollectIff | src/new_mud/apps/content/registry.py:163-179 | Collecting succeeds exactly when any two definitions of one identity are equal |
| RegistryCatalog.ActivateIff | src/new_mud/apps/content/registry.py:254-266 | Filing succeeds exactly when no two active definitions share a kind and key |
| RegistryCatalog.CollectAll | src/new_mud/apps/content/registry.py:163-179 | The loop finds a clash exactly where the first definition disagrees with an earlier one of its identity, and otherwise holds every definition once |
| RegistryCatalog.ActivateAll | src/new_mud/apps/content/registry.py:254-266 | Active definitions are filed once per kind and key |
| RegistryCatalog.ResolvedIsExact | src/new_mud/apps/content/registry.py:198-249 | Every resolved definition carries the hash of its own content and of the exact references of its dependencies, which are resolved too |
| RegistryCatalog.EqualHashEqualTree | src/new_mud/apps/content/registry.py:125-139 | With a collision-free hash two resolved definitions with equal definition_hash, even of different catalogs, have equal whole dependency trees |
| RegistryCatalog.HasTree | src/new_mud/apps/content/registry.py:183-252 | Every resolved definition has a finite dependency tree |
| RegistryCatalog.ResolveExactOwn | src/new_mud/apps/content/registry.py:578-627 | An exact reference resolves if and only if it is the own reference of a resolved definition, and then to that definition |
| RegistryCatalog.RebuildIsFixpoint | src/new_mud/apps/content/registry.py:530-542 | Rebuilding from the active definitions with all definitions as compatibility, in any order, gives the same catalog |
| RegistryCatalog.ExactResolvesToItself | src/new_mud/apps/content/registry.py:198-249 | Resolving an already resolved definition changes nothing |
| LayeredData.DeepMerge | src/new_mud/apps/content/startup.py:190-196 | The key-by-key update of a copy computes the merge |
| LayeredData.MergeByPath | src/new_mud/apps/content/startup.py:190-196 | A value is found at a path of merged data exactly if the later layer has it there, or the earlier one has it and the later one is silent about the path |
| LayeredData.AssociativeIffNotBlocked | src/new_mud/apps/content/startup.py:190-196 | Merging is associative exactly where no non-object hides an object of the first layer from an object of the last that would have kept something of it |
| LayeredData.CompatibleAssociative | src/new_mud/apps/content/startup.py:190-196 | If no path is an object in one layer and something else in a neighbouring one, merging is associative |
| LayeredData.MixedLayersDoNotAssociate | src/new_mud/apps/content/startup.py:190-196 | A concrete triple of layers for which the order of merging matters |
| LayeredData.MergeIdentity | src/new_mud/apps/content/startup.py:190-196 | The empty object is a left identity, and a right identity on objects |
| LayeredData.MergeFold | src/new_mud/apps/content/startup.py:392-395 | Merging in the fold of compatible layers is merging them in one by one |
| BlueprintCompiler.InheritanceMeaning | src/new_mud/apps/content/startup.py:373-426 | Each compiled resolved_data is the left fold of the raw data along its own source_lineage, diamonds and repeats included, if no two of those layers disagree on where objects are; the lineage ends with the blueprint itself |
| BlueprintCompiler.CompilesIffValid | src/new_mud/apps/content/startup.py:344-481 | A set of blueprints compiles exactly when every parent exists with the same kind, the parent graph is acyclic, every explicit registry reference names an active definition of the version it asks for, and so does every behaviour profile whose place no explicit reference takes |
| BlueprintCompiler.PutAllHolds | src/new_mud/apps/content/startup.py:289-292 | Of several references to one place exactly the last survives |
| BlueprintCompiler.FinishIffOwnResolve | src/new_mud/apps/content/startup.py:199-341 | With inherited dependencies that resolve, a blueprint fails only for its own references |
| BlueprintCompiler.CompiledSettles | src/new_mud/apps/content/startup.py:323-329 | Resolved dependencies name active definitions by exact version and resolve again, so inheriting them never fails |
| BlueprintCompiler.FinishedByPlace | src/new_mud/apps/content/startup.py:199-341 | The registry dependency of a blueprint at each place is its own if it refers to the place, an explicit reference before a profile, and otherwise the one of the last parent that has the place; own profiles shut out all inherited ones; there is one a place, in sorted order |
| BlueprintCompiler.FinishedIsBuilt | src/new_mud/apps/content/startup.py:373-475 | Every field of a prepared blueprint, from its parents: data merged one after another and then its own, lineages joined, numbered parent references, registry dependencies by place, behaviours exactly the behaviour profiles among them, and the hashes of these |
| BlueprintCompiler.FileBlueprints | src/new_mud/apps/content/startup.py:349-357 | Keys are accepted exactly when they are non-empty and unique |
| BlueprintCompiler.PrepareBlueprints | src/new_mud/apps/content/startup.py:344-481 | Every blueprint of the bundle is prepared once, in key order, and built from its prepared parents as FinishedIsBuilt says; or the error is that of the first blueprint, in bundle order, that cannot be compiled |
| ReleaseRoundTrip.ParentsSortedIffTen | src/new_mud/apps/content/startup.py:405 | The compiled list of parents is in the order in which its rows are read back exactly up to ten parents |
| ReleaseRoundTrip.RevisionPassesIffTen | src/new_mud/apps/content/startup.py:541-701 | A published revision, its rows read in any order, passes verification exactly up to ten parents and otherwise fails for its blueprint references |
| ReleaseRoundTrip.CompiledIsSound | src/new_mud/apps/content/startup.py:415-475 | Every compiled blueprint carries hashes of what it holds, numbered parents, sorted registry dependencies at distinct places, each on an active definition by its own exact reference |
| ReleaseRoundTrip.PublishValid | src/new_mud/apps/content/startup.py:888-973 | Publishing keeps foreign keys and unique constraints of the content tables |
| ReleaseRoundTrip.PublishExplicit | src/new_mud/apps/content/startup.py:888-973 | Publishing writes one head, one batch with one item a blueprint and their release hash, and one head and one revision with its dependency rows for every blueprint, and nothing else |
| ReleaseRoundTrip.PublishedVerdict | src/new_mud/apps/content/startup.py:704-820 | Whatever verification may answer on freshly published content is VERIFIED with the published identity up to ten parents, and a reference mismatch beyond |
| ContentRelease.DependencyIff | src/new_mud/apps/content/startup.py:680-700 | A registry row passes exactly if it names the active definition of its kind and key by version and hash, or, for history, a known definition by identity and hash |
| ContentRelease.RevisionIff | src/new_mud/apps/content/startup.py:541-701 | A revision passes exactly if contract, parent and registry rows, source and all three hashes agree with its payloads and every registry row passes |
| ContentRelease.VerifiedIsSound | src/new_mud/apps/content/startup.py:704-820 | VERIFIED means: every published revision agrees with its rows and hashes, the active ones name active definitions by version and hash, the release hash is that of the items, the seed batch holds the bundle, and the identity is that of the active batch |
| ContentStartup.SecondStart | src/new_mud/apps/content/startup.py:855-985 | Whatever verification may answer after a first start with the same bundle and catalog is the identity of that start if no blueprint lists more than ten parents, and a reference mismatch otherwise |
| ContentStartup.ContentStore.BootstrapTwice | src/new_mud/apps/content/startup.py:855-985 | Once the first of two starts has published, the store after both is exactly the publication of the compiled bundle, so the second wrote nothing; it returns Verified with the identity of that publication, which the first returned too, if no blueprint lists more than ten parents, and fails otherwise |
| ContentStartup.BuiltBundles | src/new_mud/apps/content/startup.py:69-93 | A built bundle lists its blueprints by key and carries its own hash |
| ContentStartup.CompiledIsReady | src/new_mud/apps/content/startup.py:481 | The prepared blueprints of a built bundle come in bundle order, with distinct keys and revisions |
| ContentStartup.ContentStore.VerifyRevision | src/new_mud/apps/content/startup.py:541-701 | The check does not depend on the order in which the database returns dependency rows, and a revision that passes is sound |
| ContentStartup.ContentStore.ItemsByKey | src/new_mud/apps/content/startup.py:750-756 | Items are read in key order |
| ContentStartup.ContentStore.VerifyItems | src/new_mud/apps/content/startup.py:771-776 | The first failing item in key order decides |
| ContentStartup.ContentStore.VerifyHistory | src/new_mud/apps/content/startup.py:778-788 | Every published revision of the namespace is checked |
| ContentStartup.ContentStore.FindSeedBatch | src/new_mud/apps/content/startup.py:737-749 | The earliest batch of the head that was seeded with the bundle, if there is one |
| ContentStartup.ContentStore.VerifyExisting | src/new_mud/apps/content/startup.py:704-820 | Every answer is one the verdict allows: nothing yet exactly if target and namespace are empty, a scope mismatch, the first validation failure, or the stored identity of content that is sound row by row |
| ContentStartup.ContentStore.PublishRows | src/new_mud/apps/content/startup.py:889-973 | The row-by-row loop leaves the store with exactly the published rows added |
| ContentStartup.ContentStore.Bootstrap | src/new_mud/apps/content/startup.py:855-985 | Starts either verify sound content and write nothing, fail and write nothing, or publish the bundle, built blueprint by blueprint, into an empty namespace and write exactly its rows |
| SourceClosure.MemoAgrees | scripts/generate_source_contracts.py:266-280 | For acyclic header includes the cached macro table equals the uncached one, whatever was asked before |
| SourceClosure.StackIrrelevant | scripts/generate_source_contracts.py:269-278 | For acyclic header includes the recursion stack plays no role |
| SourceClosure.MemoGrows | scripts/generate_source_contracts.py:266-280 | On every header graph the cache is write-once: it only grows, holds nothing that is still on the stack, and stores every answer given |
| SourceClosure.MemoFailsAgain | scripts/generate_source_contracts.py:266-280 | On every header graph a header that failed fails again in the same way |
| SourceClosure.CyclicHeadersDependOnOrder | scripts/generate_source_contracts.py:266-280 | For two headers that include only each other, the table of either is independent of which was asked for first if and only if it defines every macro of the other itself |
| SourceClosure.OrderFreeIff | scripts/generate_source_contracts.py:266-280 | On every header graph: no table ever depends on what was asked before, in whatever order, if and only if asking for any single header first leaves every header it stores the table that one has alone |
| SourceClosure.SideBySide | scripts/generate_source_contracts.py:266-280 | A run that starts from a cache closed under includes and one that starts from nothing fail alike, and answer alike where the second ends with the tables the first began with |
| SourceClosure.AcyclicIsOrderFree | scripts/generate_source_contracts.py:266-280 | Acyclic headers meet that condition, and alone each has its uncached table |
| SourceClosure.ResolvesIffExpands | scripts/generate_source_contracts.py:290-335 | An inherit resolves exactly when its macros expand to a path literal of a known file: the cycle check rejects nothing else |
| SourceClosure.ResolvesToEnd | scripts/generate_source_contracts.py:290-335 | An inherit resolves to what its expansion ends in: the file of a literal, an unknown file, an unknown macro or no path; a cycle is reported exactly when the expansion never ends |
| SourceClosure.MacrosSeen | scripts/generate_source_contracts.py:282-288 | A name stands for the own definition of a file, else that of the last included header that has it, else that of the global header; a file has no macros exactly if one of these headers fails |
| SourceClosure.HeaderProvides | scripts/generate_source_contracts.py:266-280 | Without a cache a header provides its own definition of a name, else that of the last header it includes that provides one, and nothing from inside itself |
| SourceClosure.DependenciesEach | scripts/generate_source_contracts.py:350-356 | A file has dependencies exactly if it is readable, its headers answer and every inherit leads to a known file; they are then its includes, the global header of a .c file and the files its inherits expand to, and nothing else |
| SourceClosure.ClosureResolver.HeaderMacros | scripts/generate_source_contracts.py:266-280 | The method with its cache and stack computes exactly the cached recursion, for every header graph |
| SourceClosure.ClosureResolver.MacrosFor | scripts/generate_source_contracts.py:282-288 | On every header graph a file sees the macros of the global header, of its included headers in order, and its own, as the cache it leaves behind gives them again |
| SourceClosure.ClosureResolver.Dependencies | scripts/generate_source_contracts.py:350-356 | On every header graph the dependencies of a file are its include, implicit-global and inherit edges, as the cache it leaves behind gives them again |
| SourceClosure.ClosureResolver.Resolve | scripts/generate_source_contracts.py:337-360 | On every header graph roots and result together are exactly the least set that contains the roots and is closed under the edges the final cache gives, and an error is that of a file in that set; where no answer depends on what is asked the same holds of the edges the first cache gives, and on acyclic headers of the edges without a cache |
| SourceClosure.TameAnswers | scripts/generate_source_contracts.py:266-280 | For acyclic headers the answer does not depend on the cache, hence not on the order of roots and includes |
| RefreshTokenText.ParseIffCanonical | src/new_mud/apps/identity/tokens.py:91-117 | Parsing gives a credential and generation if and only if the text is the one materialized for them, despite lenient number and id readers |
| RefreshTokenText.MaterializedParts | src/new_mud/apps/identity/tokens.py:91-96 | A materialized token splits at its separators into exactly its four parts |
| RefreshTokenText.Base64UrlRoundTrip | src/new_mud/apps/identity/tokens.py:16-17 | Unpadded base64url text is read back after restoring the padding and never contains the separator |
| RefreshTokenText.GroupIsNumber | src/new_mud/apps/identity/tokens.py:16-17 | Three bytes and their four characters are the same 24 bits, the first byte highest |
| RefreshTokenText.AlphabetRuns | src/new_mud/apps/identity/tokens.py:16-17 | The alphabet is the capitals, the small letters and the digits, each in order, then minus and underscore |
| RefreshTokenText.PaddedShape | src/new_mud/apps/identity/tokens.py:72-75 | The stripped padding is exactly what the length of the text calls for |

## Left out

- HTTP views, cookies, Origin checks, mail sending and text, metrics, logging and management commands: input and output around the modelled transactions.
- Cryptography, canonical JSON serialization, password hashing and validation: library code; digests enter as injective, passwords as a yes or no.
- PostgreSQL locking and deadlocks: every transaction is one atomic step; rows found locked by others are a parameter where the source skips them.
- Columns that no branch reads: issue, use and revocation times, device and snapshot columns, provider categories, JTI hashes, retention times of terminal records, version counters of verification rows.
- Decryption failures, malformed payloads and unavailable keys: payloads and key rings are given intact.
- The SMS channel: the source offers only e-mail for these flows.
- The idempotency records of verification requests and the lookup of the contact before a reset: parameters say whether the contact is usable and the registration can go ahead.
- RefreshService.AuthService.LogoutLocated: the order of the locked rows is not modelled, because every order gives the same rows.
- RefreshService.AuthService.RevokeUser: the new password and the security notification of a reset are separate steps.
- RefreshBrowser.StepKeeps: IndexedDB appears as a one-slot store whose transactions succeed, and one browser profile holds one family; waiting tabs and the broadcast are in `RefreshTabs`.
- RefreshCoordinator.Owner.RefreshAsOwner: the endless loop is given the turns it meets, and ends as interrupted when they run out.
- RefreshCoordinator.Owner.CoordinatedRefresh: the endless loop is given the attempts it makes, and ends as interrupted when they run out.
- RefreshTables.ContractsHold: the retention trigger of terminal records is not modelled, because nothing reads their expiry.
- VerificationDesk.Desk.DeliverOne: runs without other transactions in between; the runs of `VerificationTickets` interleave its transactions, and the send log of the desk holds for every interleaving. The provider permit is a parameter.
- ProviderCircuit.Monitor.PreparePoll: the health check on heartbeat ages is not modelled.
- GameServer.GameConsumer.ReceiveJson: the periodic revalidation runs between requests, not within one; timestamps of envelopes and the metrics are not modelled.
- GameClient.GameConnection.OnMessage: JSON parsing is reduced to whether the frame is a valid envelope and what the client reads from it.
- RegistryCatalog.FromDefinitions: field-shape checks of definitions and references are not modelled; summary, module, declaration, tags and artifact hash are one opaque content.
- BlueprintCompiler.PrepareBlueprints: blueprints are typed, so the schema errors of malformed payloads are not modelled.
- ContentStartup.ContentStore.Bootstrap: one content namespace per store; drafts and later publications enter only as rows that verification reads.
- SourceClosure.ClosureResolver.Resolve: files are given parsed, with includes resolved; comments, regular expressions, encodings and path normalization are not modelled.
- Character creation, name normalization, the content seed artifact, readiness and recovery scripts: flat checks that would only add easy members.
