# A verified model of the Odysseus server core and of the PLC client's offline queue

This project models, in Dafny 4.11, the stateful core of the repository and proves what that
core is for. Check it with `dafny verify dfyconfig.toml`.

Where the program updates tables, caches or files in place, the model has a class or a method
that does the same, branch for branch, and the method is proved to compute a function of the old
state; the theorems are then about those functions and hold over every run of operations. Where
the program computes a value, the model is functions and lemmas. A property that turned out not
to hold of the code is kept as the code has it: there is a lemma with the state in which it
fails, and one that says exactly when it holds.

| part | files | what it is about |
|---|---|---|
| Accounts and sessions | `Privileges`, `Accounts`, `AuthManager`, `AuthTheorems`, `PlainAccounts` | the account table, the privilege stash, session tokens, as atomic operations |
| The same under threads | `LockFreeReads`, `AuthInterleaving`, `LinearizableReads`, `RenameRace`, `SerializedWriters`, `SessionRaces`, `NamesInFlight`, `SessionWindows`, `SessionEnds` | single dictionary writes, lock-free readers, the two locks taken one after the other, copies written to disk outside of them, restarts |
| The same across crashes | `AtomicFile`, `AuthCrash` | file-system effects one at a time, two files, kills and power losses |
| Chat store | `MessageContent`, `MessageRows`, `ChatDatabase`, `ChatRuns`, `ChatStore` | a lazily filled cache of session objects over two tables |
| Search index | `SearchIndex` | triggers and backfill against the image of the message table |
| API tokens | `TokenCache` | the prefix cache against a scan of all rows |
| Mail | `MailMove`, `DraftMerge`, `ImapQuote`, `AccountCache` | moving, editing drafts, quoting, account resolution |
| Login tokens | `Base64Url` | unpadded base64url and its re-padding |
| Offline queue | `QueueItems`, `QueueRows`, `QueueSteps`, `QueueTheorems`, `QueueDelivery`, `QueueEnds`, `QueueBlocking`, `OfflineQueue` | bounded delivery, the byte budget, blocked topics |

`Common` and `PyText` hold the shared option type and the Python string operations in use.

## What the model found

- `get_privileges` is linearizable for the account whose row it found, but not for the name it
  was asked about: with a rename and an update in between it can answer what the name was
  allowed at no instant (`LinearizableReads.ReadIsLinearizable`,
  `RenameRace.ReadByNameMissesExactlyWhen`).
- Deleting a user takes effect before the sessions are purged. A token of the deleted account is
  refused throughout exactly when no section of another thread gives a name back that the
  session still bears, and no restart finds it in the file under a name that is taken
  (`SessionRaces.DeletionLocksOutExactlyWhen`). Three ways to get there: the name is
  created again before the purge, which then ends it
  (`SessionWindows.ReopenedNameIsReachableUntilPurge`); the new name of a rename is deleted and
  purged before the sessions have followed the rename, and then nothing ends it but the expiry
  (`SessionWindows.OvertakenRenameLeavesSessionsForGood`); and the session table is copied under
  the lock but written outside of it, so the copy of an earlier login can be written last, and
  a restart then brings purged and revoked sessions back
  (`SessionWindows.StaleSaveRevivesPurgedToken`). A dropped session stays out of every restart
  exactly when no restart comes while the copy written last is one from before the drop
  (`SessionEnds.DroppedStaysOutExactlyWhen`).
- A token check between the two halves of a rename logs the user out
  (`SessionEnds.RenameIsOutlivedExactlyWhen`), and a restart between them leaves him refused under
  the old name (`SessionEnds.RestartCutsRenameShort`).
- A crash between the two files of a deletion leaves an orphaned session that the next account
  of that name takes over (`AuthCrash.OrphanIsAdoptedExactlyWhen`), and so does one between the
  two files of a rename (`AuthCrash.InterruptedRenameIsAdopted`). The directory is not synced, so
  a power loss may bring back both old files, or still older ones, even after the call has
  returned; `AuthCrash.PowerLossAdmitsExactlyWhen` says when that lets a token of the deleted user in.
- A message written through an object that is not the filled, cached one breaks the stored
  message count (`ChatStore.SessionManager.AddThroughSession`); after replacing n messages at t
  the next one must be stamped t + n microseconds or later (`ChatRuns.AddAfterReplaceInTimeExactlyWhen`).
- A plain text that reads like a list of content blocks comes back as blocks
  (`MessageContent.ReloadIsExactWhen`), so until the next restart `get_session` may show something
  else than what is stored (`ChatRuns.RunShowsStoredExactlyWhen`).
- The comment above the session purge (`Odysseus/core/auth.py:326-328`) says that token checks do
  not look at the user table; they do, and the model follows the code.
- The cache of mail accounts can be trusted with two selectors of one key, whatever accounts
  there are, only if they are the same text (`AccountCache.CacheIsSafeForTextsExactlyWhen`). The
  selector `__default__` shares its entry with no selector (`AccountCache.DefaultWordIsTaken`),
  and so does a blank text such as a single space, which without the cache selects the first
  account and not the default one; for given accounts and any run of calls
  `AccountCache.AnswerIsRightExactlyWhen` says which selectors are safe after which.
- An invalidation that arrives while the token cache is being rebuilt is lost
  (`TokenCache.AnnouncementCanGetLost`); the rebuilt cache is right all the same exactly when no
  token of a known owner was minted or revoked in between
  (`TokenCache.InterruptedRefreshIsRightExactlyWhen`).
- The number that `_bulk_move` reports is never too large and can be too small: the status of its
  FETCH is ignored, and after a MOVE that failed halfway a refused fallback reports zero
  (`MailMove.ReportsArrivalsExactlyWhen`, `MailMove.ReportsMovesExactlyWhen`). Its EXPUNGE also
  removes messages that somebody had flagged before (`MailMove.OthersDisappearExactlyWhen`).
- Marking a queued message never checks the attempt limit, and messages are marked outside of
  batches too: the client marks what it has just stored
  (`ClientPLC/ClientPLC.Infrastructure/Network/MqttClientService.cs:354`, 597 and 777) while the
  delivery pump is running. The limit holds at every instant exactly when no attempt is started on
  a message that has none left (`QueueTheorems.RunIsOkExactlyWhen`). It is enough that nobody marks
  a message twice without an answer, a failure, or a sweep at which it was due in between
  (`QueueDelivery.MarkingByTitleIsDisciplined`); if the pump and the telemetry loop mark one message
  in a row, the limit survives exactly when it has two attempts left
  (`QueueDelivery.TwoMarksInARowExactlyWhen`). A deadline that falls between the two clock readings
  of a batch is the one way for a batch to hold a message without an attempt
  (`QueueTheorems.BatchHasAttemptsExactlyWhen`).
- Only publishing is bounded (`QueueDelivery.MarksAreBounded`): a late retryable answer revives a
  rejected message without using up an attempt, as often as it comes
  (`QueueItems.RoundsGoOnExactlyWhen`).
- A message that was given up stops blocking its topic not only by the operator's word: giving it
  up again under another topic moves its blocker there, whichever way that happens
  (`QueueBlocking.BlocksAlwaysExactlyWhen`).

## Model

| member | source | states |
|---|---|---|
| Privileges.WithDefaultsFacts | Odysseus/core/auth.py:385-392 | defaults overlaid with a row's map: every known key is there, a stored value wins, and doing it again changes nothing |
| Privileges.AdminMapIsComplete | Odysseus/core/auth.py:43-49 | the admin map decides every known privilege, so nothing can be overlaid on it |
| PyText.StripShape | Odysseus/core/auth.py:72-77 | `strip` gives the piece between the surrounding whitespace, and only whitespace is lost |
| PyText.NormalizeIdempotent | Odysseus/core/auth.py:72-77 | a normalised name normalises to itself, so lookups and stored keys agree |
| AuthManagers.AuthManager.CreateUser | Odysseus/core/auth.py:269-290 | in place, exactly the create step: refused names and existing ones change nothing |
| AuthManagers.AuthManager.Setup | Odysseus/core/auth.py:262-267 | first-run setup creates an admin exactly when there is no user |
| AuthManagers.AuthManager.PopSessionsOf | Odysseus/core/auth.py:330-335 | the loop that pops sessions removes all of that user, nobody else's, and counts them |
| AuthManagers.AuthManager.DeleteUser | Odysseus/core/auth.py:292-339 | deletion with its checks in order, the token store that may be down, and the purge |
| AuthManagers.AuthManager.RenameUser | Odysseus/core/auth.py:341-374 | rename of the row and of every session that names it |
| AuthManagers.AuthManager.FollowRename | Odysseus/core/auth.py:362-370 | the loop over sessions renames exactly those of the old name |
| AuthManagers.AuthManager.Overlay | Odysseus/core/auth.py:394-410 | the loop over updates keeps only known keys and lets them win |
| AuthManagers.AuthManager.SetPrivileges | Odysseus/core/auth.py:394-410 | the update is merged into what the user may do; admins and strangers are refused |
| AuthManagers.AuthManager.SetAdmin | Odysseus/core/auth.py:412-473 | promotion and demotion field by field, with the verdicts in the order of the checks |
| AuthManagers.AuthManager.EnsureFiiSsoUser | Odysseus/core/auth.py:575-594 | a single-sign-on sync overwrites its own shadow rows, never a native one |
| AuthManagers.AuthManager.CreateSessionTrusted | Odysseus/core/auth.py:609-624 | a token is issued only for an existing user and expires after the fixed time |
| AuthManagers.AuthManager.GetUsernameForToken | Odysseus/core/auth.py:651-674 | expired and orphaned sessions are refused and dropped, others name their user |
| AuthManagers.AuthManager.ValidateToken | Odysseus/core/auth.py:626-649 | accepts exactly the tokens that name a user, with the same clean-up |
| AuthManagers.AuthManager.RevokeToken | Odysseus/core/auth.py:676-679 | removes exactly that session |
| AuthManagers.AuthManager.RevokeUserSessions | Odysseus/core/auth.py:681-695 | removes all sessions of the user but the one to keep, and counts them |
| AuthManagers.AuthManager.Reload | Odysseus/core/auth.py:121-166 | a restart brings back the saved tables without the expired sessions |
| AuthTheorems.ChangeIsAllowed | Odysseus/core/auth.py:262-473 | every operation decides on a change of an allowed shape: normal usable names, same account kept |
| AuthTheorems.RunKeepsInv | Odysseus/core/auth.py:262-374 | over every run: names normal, accounts distinct, stash only while admin, sessions bound to their account |
| AuthTheorems.ValidTokenNamesItsAccount | Odysseus/core/auth.py:609-674 | over every run an accepted token names the row of the account it was issued for, through all renames |
| AuthTheorems.RunNeverRevives | Odysseus/core/auth.py:269-374 | an account that is gone never comes back, even if its name does |
| AuthTheorems.GoneAccountNeverAuthenticates | Odysseus/core/auth.py:609-674 | no token of an account that is gone is accepted in any continuation |
| AuthTheorems.DeletedAccountNeverAuthenticates | Odysseus/core/auth.py:292-339 | after a deletion no token of the account is accepted in any continuation, re-creation of the name included |
| AuthTheorems.SessionSurvives | Odysseus/core/auth.py:292-339 | a session outlives an atomic step exactly when the step is not one of the five that end it, and keeps its expiry |
| AuthTheorems.SessionLivesUntilEnded | Odysseus/core/auth.py:626-695 | over every run of atomic operations that does not end it, a session is accepted until its expiry and no longer |
| AuthTheorems.NewTokenLivesForItsTime | Odysseus/core/auth.py:609-624 | a new token is accepted for exactly its time to live, under the normalised name |
| AuthTheorems.NonAdminsChangeNothing | Odysseus/core/auth.py:292-428 | over every run of administrative requests by non-admins nothing changes at all |
| AuthTheorems.SparingChangeKeepsAnAdmin | Odysseus/core/auth.py:430-473 | a change leaves an admin exactly when it spares one |
| AuthTheorems.ChangeSparesAnAdmin | Odysseus/core/auth.py:292-473 | every native operation spares an admin: the deleter, the other admin, or everybody |
| AuthTheorems.RunKeepsAnAdmin | Odysseus/core/auth.py:269-473 | from a state with an admin no run of native operations loses the last one |
| AuthTheorems.SsoLocksOutExactlyWhen | Odysseus/core/auth.py:575-594 | the sync leaves no admin exactly when it downgrades the only one, a shadow user |
| PlainAccounts.StepRefines | Odysseus/core/auth.py:269-473 | every operation on stashed rows is the operation on a table of (admin flag, own map) |
| PlainAccounts.PrivilegesRefine | Odysseus/core/auth.py:385-392 | `get_privileges` is: everything for admins, defaults overlaid with the own map otherwise |
| PlainAccounts.RunRefines | Odysseus/core/auth.py:276-288 | over every run what a name may do is what the stash-free table says |
| AuthInterleaving.BeginOnlyPlans | Odysseus/core/auth.py:430-473 | taking the lock publishes nothing; every operation starts at the first write of its kind |
| AuthInterleaving.WriteKeepsCoherent | Odysseus/core/auth.py:446-471 | every single write keeps the row objects and names coherent |
| LockFreeReads.TwoReadsSeeValueInForce | Odysseus/core/auth.py:446-450 | why the write order works: flag then value, read without a lock, give something that was in force |
| LinearizableReads.PromotionMoves | Odysseus/core/auth.py:446-460 | the three writes of a promotion, one at a time, never show a reader a value out of force |
| LinearizableReads.DemotionMoves | Odysseus/core/auth.py:461-471 | neither do the three writes of a demotion |
| LinearizableReads.ReadIsLinearizable | Odysseus/core/auth.py:385-410 | under every interleaving a read returns what the account allowed at some instant of the call |
| LinearizableReads.ReadIsLinearizableByName | Odysseus/core/auth.py:385-392 | the same for the name, if the account keeps it during the call |
| RenameRace.ReadByNameMissesExactlyWhen | Odysseus/core/auth.py:341-410 | and not otherwise: in a trace with a rename and an update the reader is told what the name was allowed at no instant exactly when the new map differs from the old one and from the defaults |
| RenameRace.SampleRenameIsReal | Odysseus/core/auth.py:341-361 | that trace's rename is one an admin can ask for |
| RenameRace.SampleUpdateIsReal | Odysseus/core/auth.py:394-410 | and so is its privilege update |
| SerializedWriters.WritesAreTheOperation | Odysseus/core/auth.py:269-473 | the single writes of an operation, run to the end, are the atomic operation |
| SerializedWriters.InterleavingKeepsAnAdmin | Odysseus/core/auth.py:292-473 | under every interleaving there is an admin whenever the lock is free |
| SessionRaces.HalvesAreTheDeletion | Odysseus/core/auth.py:324-337 | the two critical sections of a deletion and its save, undisturbed, are the deletion |
| SessionRaces.HalvesAreTheRename | Odysseus/core/auth.py:357-368 | likewise for a rename |
| SessionRaces.SectionIsRightExactlyWhen | Odysseus/core/auth.py:143-374 | a critical section, a save or a restart, whatever is in flight, keeps a token accepted for its own account only exactly when it gives back no name that the session bears, nor the session to a name, of another account, and the restart finds it under no such name |
| SessionRaces.TokenIsRightExactlyWhen | Odysseus/core/auth.py:143-695 | over every interleaving of critical sections, saves and restarts, accepted tokens name their own account at every instant exactly when each section is clean when it comes |
| NamesInFlight.UndisturbedRunIsClean | Odysseus/core/auth.py:143-374 | leaving the names in flight, and names that a copy of the session table still bears, alone is enough: every section of such a run is clean, restarts included, and every session, saved or not, belongs to its account or to nobody |
| NamesInFlight.RacingTokenNamesItsAccount | Odysseus/core/auth.py:626-674 | with second halves and saves outstanding, an accepted token still names its own account |
| SessionRaces.DeletionLocksOutExactlyWhen | Odysseus/core/auth.py:143-339 | from the moment the row is gone, whatever other threads do and over restarts: a token of the account is refused at every instant exactly when no section gives back a name that it bears, and no restart finds it in the file under a name that is taken |
| NamesInFlight.RacingDeletionLocksOut | Odysseus/core/auth.py:324-339 | so it is refused throughout, over restarts too, if no other thread touches a name in flight or gives out one that a session, saved or not, bears |
| SessionWindows.ReopenedNameIsReachableUntilPurge | Odysseus/core/auth.py:269-339 | one window: deleted and created again before the purge, the new account is open to the old tokens until the purge, which ends all sessions of the name |
| SessionWindows.OvertakenRenameLeavesSessionsForGood | Odysseus/core/auth.py:324-374 | another: the new name of a rename is deleted and purged before the sessions follow; whoever is created under it is open to them until they expire, with no second half left to end it |
| SessionWindows.StaleSaveRevivesPurgedToken | Odysseus/core/auth.py:143-164 | the third: a login's copy of the session table, taken before a deletion, is written after its save; a restart brings the purged token back, and a new account of the name is open to it until it expires |
| SessionEnds.SessionOutlivesSectionExactlyWhen | Odysseus/core/auth.py:143-695 | a session outlives a critical section exactly when that is not a purge of its user, a revocation, a check that finds it expired or its user name missing, or a restart that does not find it, unexpired, in the file |
| SessionEnds.RestartFindsLastCopy | Odysseus/core/auth.py:143-164 | what a restart finds: the sessions in the table when the copy that was written last was taken, however the table has changed since, without the expired ones |
| SessionEnds.DroppedStaysOutExactlyWhen | Odysseus/core/auth.py:143-164 | over every run of sections, saves that may fail, and restarts, a dropped session stays out at every instant exactly when no restart comes, before it expires, while the copy written last is one from before the drop |
| SessionEnds.UnwrittenRemainsStayOut | Odysseus/core/auth.py:159-164 | so once the drop is saved it is enough that no copy from before it is written |
| SessionEnds.DroppedTokenIsRefused | Odysseus/core/auth.py:626-695 | and then its token is refused at every instant, whoever is created meanwhile |
| SessionEnds.RenameIsOutlivedExactlyWhen | Odysseus/core/auth.py:357-368 | within one process a session outlives the rename of its user exactly when no check of its token falls between the two halves, and is then accepted under the new name until it expires |
| SessionEnds.RestartCutsRenameShort | Odysseus/core/auth.py:143-370 | a restart between the halves: the second half never runs, and the session is refused under the old name while nobody has it |
| AtomicFiles.RenameShowsOldOrNewExactlyWhen | Odysseus/core/atomic_io.py:29-33 | the rename shows others the old or the complete new text, alive or after a power loss, exactly when the file has been synced, unless anything could come back before |
| AtomicFiles.Machine.OpenForWriting | Odysseus/core/atomic_io.py:28-29 | truncating or creating the temporary file is invisible through any other name |
| AtomicFiles.Machine.Write | Odysseus/core/atomic_io.py:30 | buffered text reaches the temporary file in any portions and nothing else |
| AtomicFiles.Machine.AtomicWrite | Odysseus/core/atomic_io.py:21-33 | at every crash point each file is complete, old or new, and in the end new |
| AuthCrash.SaveBoth | Odysseus/core/auth.py:324-337 | two files in order, time after time: at every crash point each reads as one version, and sessions.json is new only if auth.json is; a power loss adds the new versions to those that could come back before; and the files are ready for the next two writes |
| AuthCrash.AfterPowerLoss | Odysseus/core/auth.py:143-166 | after a power loss, whatever versions of the two files come back, a token of the deleted user is accepted exactly when sessions.json is an older version that has it, unexpired, and auth.json is an older version that has its user name there, or the new one and the name is another user's |
| AuthCrash.PowerLossAdmitsExactlyWhen | Odysseus/core/auth.py:143-166 | so a power loss after the call can let the token in exactly when there is such a pair of older versions |
| AuthCrash.AfterFirstPowerLoss | Odysseus/core/auth.py:143-166 | if nothing older than the last versions can come back, exactly when both files are the old ones and it is unexpired |
| AuthCrash.AfterKill | Odysseus/core/auth.py:143-166 | after a kill, on any disk, exactly when the new auth.json was not swapped in yet |
| AuthCrash.OthersKeepTheirSessions | Odysseus/core/auth.py:143-157 | nobody else is logged out by the crash |
| AuthCrash.OrphanIsAdoptedExactlyWhen | Odysseus/core/auth.py:143-157 | a left-over session is taken over by a new account of that name exactly when sessions.json is still old |
| AuthCrash.AfterInterruptedRename | Odysseus/core/auth.py:357-370 | a crash between the two files of a rename: a token is accepted under the old name exactly when both files are old, under the new one when both are new, and refused in between |
| AuthCrash.InterruptedRenameIsAdopted | Odysseus/core/auth.py:357-370 | if only auth.json is new, a new account of the old name takes the session over, exactly until it expires |
| MessageContent.ReloadIsExactWhen | Odysseus/core/session_manager.py:35-58 | content survives the database exactly when a text is not mistaken for blocks and all blocks are recognised |
| MessageContent.ReloadSettles | Odysseus/core/session_manager.py:35-58 | a second round trip changes nothing |
| MessageRows.ReadBackInOrderExactlyWhen | Odysseus/core/session_manager.py:155-157 | every answer of ORDER BY is conversation order exactly when timestamps strictly increase |
| MessageRows.OrderingOfInOrder | Odysseus/core/session_manager.py:155-157 | with strictly increasing timestamps there is only one answer |
| MessageRows.AppendKeepsOrderExactlyWhen | Odysseus/core/session_manager.py:233-250 | appending keeps the order exactly when the clock is past the last message |
| ChatDatabase.InsertedMessageIsLast | Odysseus/core/session_manager.py:233-262 | the insert is one more message at the end of what was added, whatever the clock; the tables stay in order exactly when it is counted once and the clock is past the stored messages |
| ChatDatabase.CutConversationIsPrefix | Odysseus/core/session_manager.py:287-303 | dropping the rows past a point and counting the rest is the prefix, of that session only |
| ChatDatabase.NewRowsAreTheConversation | Odysseus/core/session_manager.py:325-353 | rows a microsecond apart read back as the given list in the given order |
| ChatDatabase.DeletedSessionIsGone | Odysseus/core/session_manager.py:516-545 | no message row is left without its session, and no other session is touched |
| ChatRuns.RunIsInTimeExactlyWhen | Odysseus/core/session_manager.py:233-368 | over every run of adds, replaces, truncations and the rest, timestamp order is conversation order at every instant exactly when every message is added in time |
| ChatRuns.AddKeepsInTimeExactlyWhen | Odysseus/core/session_manager.py:233-250 | adding keeps it exactly when the clock is past every message of the session |
| ChatRuns.AddAfterReplaceInTimeExactlyWhen | Odysseus/core/session_manager.py:325-344 | after replacing n messages at t, exactly from t + n on |
| ChatRuns.TruncateUndoesAdd | Odysseus/core/session_manager.py:278-318 | truncating to the old length takes off an added message and nothing else |
| ChatRuns.CutIsTruncate | Odysseus/core/session_manager.py:287-303 | cutting the rows is truncating the conversation and its timestamps |
| ChatRuns.RewriteIsReplace | Odysseus/core/session_manager.py:325-353 | rewriting the rows is replacing the conversation |
| ChatRuns.CallShowsItself | Odysseus/core/session_manager.py:374-427 | every call leaves what is shown and what is stored one round trip apart at most |
| ChatRuns.RunShowsStoredExactlyWhen | Odysseus/core/session_manager.py:35-58 | over every run `get_session` returns exactly the stored conversations at every instant exactly when no call gives a message that a round trip changes |
| ChatRuns.ShownIsStoredExactlyWhen | Odysseus/core/session_manager.py:35-58 | in any run, one session is shown as stored exactly when each message shown survives a round trip |
| ChatStore.SessionManager.Run | Odysseus/core/session_manager.py:81-552 | over every run of calls, restarts included, conversations as stored and as shown are what the calls do to plain tables, and each call returns what it would return there; messages are added in time |
| ChatStore.SessionManager.WholeShowsItself | Odysseus/core/session_manager.py:374-427 | the manager shows, for every session, what it stores up to one round trip |
| ChatStore.SessionManager.ReadHistory | Odysseus/core/session_manager.py:138-172 | hydrating in timestamp order gives the conversation, however ties are answered |
| ChatStore.SessionManager.LoadSession | Odysseus/core/session_manager.py:429-454 | a fresh object with the stored messages goes into the cache, or the key error |
| ChatStore.SessionManager.GetSession | Odysseus/core/session_manager.py:374-427 | returns the cached, filled object with exactly the messages shown, or fails exactly for unknown ids; nothing shown or stored changes |
| ChatStore.SessionManager.PersistMessage | Odysseus/core/session_manager.py:220-276 | never writes under a missing session; the stored tables stay right exactly when the cached history has the message and the clock is past the others |
| ChatStore.SessionManager.AddMessage | Odysseus/core/session_manager.py:201-218 | appends to that conversation and no other, as stored and as shown, whatever the clock; cache and tables stay in order exactly when the clock is past the messages of the session |
| ChatStore.SessionManager.DeleteSuffix | Odysseus/core/session_manager.py:287-294 | the loop deletes the rows past the kept ones, of that session only |
| ChatStore.SessionManager.TruncateMessages | Odysseus/core/session_manager.py:278-318 | exactly the suffix goes; a negative count is refused; a large one keeps everything |
| ChatStore.SessionManager.ReplaceMessages | Odysseus/core/session_manager.py:320-368 | the conversation becomes the given list |
| ChatStore.SessionManager.RewriteRows | Odysseus/core/session_manager.py:325-353 | the loop of inserts builds the rows a microsecond apart |
| ChatStore.SessionManager.CreateSession | Odysseus/core/session_manager.py:470-514 | an empty conversation, or an error and no change for an existing id |
| ChatStore.SessionManager.DeleteSessionAndMessages | Odysseus/core/session_manager.py:516-552 | the id is gone from tables and cache |
| ChatStore.SessionManager.LoadSessions | Odysseus/core/session_manager.py:81-112 | a restart changes no conversation and fills the cache with unfilled objects |
| ChatStore.SessionManager.AddThroughSession | Odysseus/core/models.py:94-107 | no orphan row ever; cache, order and counts stay right exactly when the session is gone, or the object is the cached, filled one and the clock is past its messages, and then it is shown with the message |
| SearchIndex.TriggersKeepAgreement | Odysseus/core/database.py:1923-1939 | each trigger keeps the index the image of the table, changes of key included |
| SearchIndex.BackfillAgreesExactlyWhen | Odysseus/core/database.py:1942-1952 | the backfill gets the index right exactly when it held nothing wrong before |
| SearchIndex.BackfillFromEmptyAndAgain | Odysseus/core/database.py:1942-1952 | from an empty index it agrees; run again it adds nothing |
| SearchIndex.RunKeepsAgreement | Odysseus/core/database.py:1914-1953 | migrated once, the index agrees after every run of inserts, updates and deletes |
| SearchIndex.Transcripts.Migrate | Odysseus/core/database.py:1942-1952 | the loop adds one entry for each message without one |
| SearchIndex.Transcripts.Execute | Odysseus/core/database.py:1923-1939 | a statement with its trigger, in place |
| TokenCache.MintedIsFilable | Odysseus/companion/pairing.py:83-106 | a minted row accepts only tokens with its stored prefix |
| TokenCache.LookupIsScan | Odysseus/app.py:437-458 | looking among the candidates of the prefix finds the same row as scanning all active rows of known owners |
| TokenCache.TokenGate.MintPairingToken | Odysseus/companion/routes.py:68-79 | commit, then invalidate, keeps the cache honest |
| TokenCache.TokenGate.RefreshTokenCache | Odysseus/app.py:317-339 | the loop rebuilds the prefix map and cleans the flag |
| TokenCache.TokenGate.Authenticate | Odysseus/app.py:437-458 | a request is let in exactly as a scan of the table would, whatever state the flag is in |
| TokenCache.CleanFlagAnswersLikeScan | Odysseus/app.py:310-339 | in every run of mints, revocations, announcements and refreshes, split into halves as they come, with no token of a known owner minted or revoked between two halves: a clean flag with nothing left to announce means answers as by a full scan |
| TokenCache.InterruptedRefreshIsRightExactlyWhen | Odysseus/app.py:317-339 | from the start of a refresh to its end, whatever is minted, revoked and announced in between: the clean cache answers every token rightly exactly when, since the rows were read, no row of a known owner was switched off and no active one added |
| TokenCache.TokenGate.Revoke | Odysseus/routes/api_token_routes.py:195-207 | the row goes out of use, then the flag is raised |
| TokenCache.AnnouncementCanGetLost | Odysseus/app.py:310-339 | a token minted and announced during the refresh stays unknown behind a clean flag |
| MailMove.NothingIsLost | Odysseus/mcp_servers/email_server.py:1734-1743 | after every command, however it fails, each selected message is in one of the folders and unflagged others are untouched |
| MailMove.MovedMeansArrived | Odysseus/mcp_servers/email_server.py:1734-1746 | success means arrived, and gone or flagged in the source |
| MailMove.MovedArrivesOnceUnless | Odysseus/mcp_servers/email_server.py:1734-1743 | a moved message arrives once, and twice exactly when the failed MOVE had copied it |
| MailMove.OthersDisappearExactlyWhen | Odysseus/mcp_servers/email_server.py:1743 | an unselected message disappears exactly when it was flagged before and the final EXPUNGE took it |
| MailMove.ReportsArrivalsExactlyWhen | Odysseus/mcp_servers/email_server.py:1715-1746 | the reported number is at most that of the messages that arrived, and equal exactly when nothing was listed, or all went well and everything was listed, or MOVE and COPY were both refused and MOVE had got nowhere |
| MailMove.ReportsMovesExactlyWhen | Odysseus/mcp_servers/email_server.py:1715-1746 | and that of the messages that arrived and are gone or flagged at home exactly when nothing was listed, or all went well and everything was listed, or what was refused had completed nothing |
| MailMove.Connection.Transfer | Odysseus/mcp_servers/email_server.py:1734-1743 | the command sequence with its early exits, every intermediate state recorded |
| MailMove.Connection.MoveMessage | Odysseus/mcp_servers/email_server.py:1763-1791 | one message: true, false or an exception, with the states in between |
| MailMove.Connection.BulkMove | Odysseus/mcp_servers/email_server.py:1715-1746 | many messages: the number reported as a function of every reply, the folders afterwards, and the states in between |
| DraftMerge.FirstMarkerFacts | Odysseus/mcp_servers/email_server.py:1323-1332 | the quoted chain begins at the earliest of all markers |
| DraftMerge.EarliestMarker | Odysseus/mcp_servers/email_server.py:1328-1332 | the loop over the markers finds it |
| DraftMerge.MergeReplyBody | Odysseus/mcp_servers/email_server.py:1318-1337 | the program's merge is the merge of the theorems |
| DraftMerge.HeadIsKept | Odysseus/mcp_servers/email_server.py:1322 | the header block is preserved verbatim and is found again |
| DraftMerge.QuoteShape | Odysseus/mcp_servers/email_server.py:1333 | the chain is the tail of the body from the first marker, up to trailing whitespace |
| DraftMerge.LastReplyWinsExactlyWhen | Odysseus/mcp_servers/email_server.py:1318-1337 | merging is last-write-wins exactly when the earlier reply holds no quote marker |
| DraftMerge.SplitsAtHeadExactlyWhen | Odysseus/mcp_servers/email_server.py:1315 | a draft splits where its header block ends exactly when the block holds no separator |
| DraftMerge.MergeKeepsHeadersExactlyWhen | Odysseus/mcp_servers/email_server.py:1289-1315 | merging into a built draft keeps headers and quoted chain, whatever body and reply, exactly when the header block holds no separator; single-line fields hold none |
| ImapQuote.TwoReplacesAreOneEscape | Odysseus/mcp_servers/email_server.py:44-46 | the two replaces in a row are one escape per character |
| ImapQuote.QuoteRoundTripsExactlyWhen | Odysseus/mcp_servers/email_server.py:44-46 | a quoted name with any suffix reads back by the grammar exactly when the grammar has all its characters |
| ImapQuote.SearchReadsBack | Odysseus/mcp_servers/email_server.py:837-840 | the search command reads back as three copies of the query exactly when the grammar has all its characters; otherwise it does not read at all |
| AccountCache.UncachedInScope | Odysseus/mcp_servers/email_server.py:99-130 | resolution gives nothing outside what the owner may see |
| AccountCache.IdSelectsItsAccount | Odysseus/mcp_servers/email_server.py:228-231 | the id of a visible account selects it, whatever names and addresses of others contain |
| AccountCache.CacheHasOrigins | Odysseus/mcp_servers/email_server.py:266-268 | every cache entry comes from an uncached answer to the same owner under the same key |
| AccountCache.AnswersStayInScope | Odysseus/mcp_servers/email_server.py:266-353 | over every run of calls nobody is given an account out of scope |
| AccountCache.CachedIsUncached | Odysseus/mcp_servers/email_server.py:266-353 | for trimmed lower-case selectors the cached answer is the uncached one |
| AccountCache.ResolvedBySort | Odysseus/mcp_servers/email_server.py:216-253 | a selector is an id, or none and gives the default account, or blank and gives the first account, or a text that is searched for |
| AccountCache.AnswersAlikeExactlyWhen | Odysseus/mcp_servers/email_server.py:216-268 | two different selectors of one key get one answer exactly when there is nothing to choose from, or, of ids, blankness and the default word: neither is an id and both are blank, or both are proper texts, or none and a blank with the first account the default one, or the word finds what the other stands for; or exactly one is an id and the other leads to its account |
| AccountCache.AnswerIsRightExactlyWhen | Odysseus/mcp_servers/email_server.py:266-353 | over every run of calls by whomever, a call is answered as without the cache exactly when none of its owner and key was answered before, or the first that was and this one are such a pair or one text |
| AccountCache.CacheIsSafeForTextsExactlyWhen | Odysseus/mcp_servers/email_server.py:266-268 | whatever accounts there are, exactly when they are the same text |
| AccountCache.DefaultWordIsTaken | Odysseus/mcp_servers/email_server.py:266 | the word used for no selector is one that a caller can send |
| AccountCache.Loader.LoadConfig | Odysseus/mcp_servers/email_server.py:258-353 | the cache in place: filled on success only |
| Base64Url.DecodeOfEncode | Odysseus/core/fii_sso.py:47-51 | the decoder inverts the encoder |
| Base64Url.RepaddingRestores | Odysseus/core/fii_sso.py:18 | re-padding restores exactly the padding that was dropped |
| Base64Url.UnpaddedRoundTrip | Odysseus/core/fii_sso.py:16-25 | encode, drop padding, re-pad, decode gives back every byte sequence |
| Base64Url.LengthOneModFourIsRejected | Odysseus/core/fii_sso.py:16-25 | text of length 1 modulo 4 is rejected whatever it holds |
| Base64Url.DigitsAreAcceptedExactlyWhen | Odysseus/core/fii_sso.py:47-51 | other texts of digits are accepted |
| QueueItems.DelayDoublesExactlyWhen | ClientPLC/ClientPLC.Infrastructure/Database/SqliteOfflineQueueRepository.cs:1010-1017 | delays start at the initial one, double up to the cap, and exactly when they do past the thirty-first attempt |
| QueueItems.EvolveKeepsLifeExactlyWhen | ClientPLC/ClientPLC.Infrastructure/Database/SqliteOfflineQueueRepository.cs:227-324 | every event keeps the attempt bound, except publishing a message that has none left |
| QueueItems.AttemptCountsOnce | ClientPLC/ClientPLC.Tests/OfflineQueueRepositoryTests.cs:116-132 | one publish and its failure count once, and the last one buries the message |
| QueueItems.PublishesAreBounded | ClientPLC/ClientPLC.Infrastructure/Database/SqliteOfflineQueueRepository.cs:271-299 | over every run without the operator, late answers that revive a dead message included, in which a live message is published only with an attempt left: attempts used plus publishes stay within the limit |
| QueueItems.RoundsGoOnExactlyWhen | ClientPLC/ClientPLC.Infrastructure/Database/SqliteOfflineQueueRepository.cs:271-299 | a rejection followed by a late retryable answer brings the message back without using an attempt, any number of times, exactly while it has one left |
| QueueItems.ProgressLowersRank | ClientPLC/ClientPLC.Infrastructure/Database/SqliteOfflineQueueRepository.cs:227-299 | no event but a revival or an attempt over the limit raises the rank of a message, and every delivering event lowers it |
| QueueItems.DeliveryEnds | ClientPLC/ClientPLC.Tests/OfflineQueueRepositoryTests.cs:403-440 | over every run in which nothing revives the message, the events that make progress use up its rank, twice the attempts and one for a new message, and then it is dead |
| QueueRows.VictimsAreTheOldest | ClientPLC/ClientPLC.Infrastructure/Database/SqliteOfflineQueueRepository.cs:640-654 | victims are a prefix of the rows by age, enough and no more |
| QueueRows.EvictionMeetsBudget | ClientPLC/ClientPLC.Infrastructure/Database/SqliteOfflineQueueRepository.cs:623-680 | after an eviction the rest and the incoming message fit the budget |
| QueueRows.EvictionIsOldestFirst | ClientPLC/ClientPLC.Infrastructure/Database/SqliteOfflineQueueRepository.cs:640-654 | whatever is evicted is older than whatever stays |
| QueueRows.EvictionIsLeast | ClientPLC/ClientPLC.Infrastructure/Database/SqliteOfflineQueueRepository.cs:640-654 | keeping the youngest victim would exceed the budget |
| QueueTheorems.EnqueueKeepsOk | ClientPLC/ClientPLC.Infrastructure/Database/SqliteOfflineQueueRepository.cs:496-553 | after every enqueue the live bytes are within the budget |
| QueueTheorems.OpeningMeetsBudget | ClientPLC/ClientPLC.Infrastructure/Database/SqliteOfflineQueueRepository.cs:565-573 | opening with new options, whatever they are, makes the queue fit the budget, and keeps it in order if no row has more attempts than they allow |
| QueueTheorems.RunIsOkExactlyWhen | ClientPLC/ClientPLC.Infrastructure/Database/SqliteOfflineQueueRepository.cs:227-680 | over every run budget, attempt bound and unique keys hold at every instant exactly when no attempt is started on a message without one left |
| QueueTheorems.RemovalIsWrittenDown | ClientPLC/ClientPLC.Infrastructure/Database/SqliteOfflineQueueRepository.cs:575-680 | a removed row leaves an event with what it was, and nothing else is removed or logged |
| QueueTheorems.ExpiryIsExact | ClientPLC/ClientPLC.Infrastructure/Database/SqliteOfflineQueueRepository.cs:575-621 | after expiry exactly the rows within the maximum age are left |
| QueueTheorems.BatchIsOldestFirst | ClientPLC/ClientPLC.Infrastructure/Database/SqliteOfflineQueueRepository.cs:70-90 | a due message that misses the batch is younger than all in it, and the batch is full |
| QueueTheorems.BatchHasAttemptsExactlyWhen | ClientPLC/ClientPLC.Infrastructure/Database/SqliteOfflineQueueRepository.cs:56-90 | a message of a batch has an attempt left unless its deadline fell between two clock readings |
| QueueDelivery.RowHasAncestor | ClientPLC/ClientPLC.Infrastructure/Database/SqliteOfflineQueueRepository.cs:227-680 | every row after a step is what the operation makes of an earlier row, or the one just inserted |
| QueueDelivery.MarksAreBounded | ClientPLC/ClientPLC.Infrastructure/Database/SqliteOfflineQueueRepository.cs:227-299 | over every disciplined run, a message that the operator does not revive is marked at most as often as it has attempts left |
| QueueDelivery.MarkingByTitleIsDisciplined | ClientPLC/ClientPLC.Infrastructure/Service/LocalDbService.cs:90-118 | if callers mark only what was stored, answered, failed, taken away, revived or due in a sweep since its last marking, the queue is in order at every instant |
| QueueDelivery.TwoMarksInARowExactlyWhen | ClientPLC/ClientPLC.Infrastructure/Network/MqttClientService.cs:664-690 | two publishers that mark one live message in a row stay within the limit exactly when it has two attempts left |
| QueueEnds.DeliveryEndsInQueue | ClientPLC/ClientPLC.Infrastructure/Database/SqliteOfflineQueueRepository.cs:227-680 | over every disciplined run of the queue in which nothing brings row x back, the steps that bring it on use its rank up, and after that many it is dead or gone |
| QueueEnds.LiveRowIsTaken | ClientPLC/ClientPLC.Infrastructure/Database/SqliteOfflineQueueRepository.cs:252-269 | a live row that a step takes away was completed, deleted by its number, or expired or evicted with an event that says so |
| QueueEnds.DeliveryHasAnEnd | ClientPLC/ClientPLC.Tests/OfflineQueueRepositoryTests.cs:403-440 | so in such a run there is a step at which the message is completed, given up, expired, evicted or deleted |
| QueueBlocking.StepKeepsBlockerExactlyWhen | ClientPLC/ClientPLC.Infrastructure/Database/SqliteOfflineQueueRepository.cs:575-833 | a step keeps the blocker of a topic exactly when it is none of those that let it go: the operator's word, or giving the message up under another topic by rejection, age, budget or deadline |
| QueueBlocking.RemovedDeadBlocksExactlyWhen | ClientPLC/ClientPLC.Tests/OfflineQueueRepositoryTests.cs:613-634 | a dead message removed for age or budget blocks its topic over every run exactly as long as no step lets it go, and none does while the operator leaves it alone and nobody enqueues the same message id under another topic |
| QueueBlocking.BlocksAlwaysExactlyWhen | ClientPLC/ClientPLC.Infrastructure/Database/SqliteOfflineQueueRepository.cs:575-833 | over every run a message blocks its topic at every instant exactly when no step of the run lets it go |
| QueueBlocking.ResolvingFreesTheTopic | ClientPLC/ClientPLC.Infrastructure/Database/SqliteOfflineQueueRepository.cs:368-425 | resolving removes row and blocker and writes one event; no earlier event goes on blocking |
| OfflineQueue.Repository.constructor | ClientPLC/ClientPLC.Infrastructure/Database/SqliteOfflineQueueRepository.cs:20-30 | opening enforces the retention rules over existing tables |
| OfflineQueue.Repository.RemoveExpired | ClientPLC/ClientPLC.Infrastructure/Database/SqliteOfflineQueueRepository.cs:575-621 | old rows go, each with an event, dead ones with a blocker |
| OfflineQueue.Repository.PickVictims | ClientPLC/ClientPLC.Infrastructure/Database/SqliteOfflineQueueRepository.cs:640-654 | the reading loop picks exactly the victims of the theorems |
| OfflineQueue.Repository.EnforcePayloadBudget | ClientPLC/ClientPLC.Infrastructure/Database/SqliteOfflineQueueRepository.cs:623-680 | the deleting loop removes them with one event each and blockers for the dead |
| OfflineQueue.Repository.Enqueue | ClientPLC/ClientPLC.Infrastructure/Database/SqliteOfflineQueueRepository.cs:496-553 | refused messages, oversized ones included, change nothing; duplicates are not inserted again |
| OfflineQueue.Repository.GetDueMessages | ClientPLC/ClientPLC.Infrastructure/Database/SqliteOfflineQueueRepository.cs:56-90 | expiry, missed deadlines, then the due messages, oldest first, up to the limit |
| OfflineQueue.Repository.MarkAwaitingAcknowledgement | ClientPLC/ClientPLC.Infrastructure/Database/SqliteOfflineQueueRepository.cs:227-250 | counts the attempt and sets the deadline, dead messages excepted |
| OfflineQueue.Repository.Complete | ClientPLC/ClientPLC.Infrastructure/Database/SqliteOfflineQueueRepository.cs:252-269 | deletes exactly that message |
| OfflineQueue.Repository.Delete | ClientPLC/ClientPLC.Infrastructure/Database/SqliteOfflineQueueRepository.cs:486-493 | removes the row of that number, with no event and no blocker |
| OfflineQueue.Repository.ScheduleRetry | ClientPLC/ClientPLC.Infrastructure/Database/SqliteOfflineQueueRepository.cs:271-299 | another try after the back-off, or dead at the limit |
| OfflineQueue.Repository.RecordFailure | ClientPLC/ClientPLC.Infrastructure/Database/SqliteOfflineQueueRepository.cs:427-459 | a failure counts unless the attempt was marked already |
| OfflineQueue.Repository.Quarantine | ClientPLC/ClientPLC.Infrastructure/Database/SqliteOfflineQueueRepository.cs:301-324 | dead at once, and the topic is blocked |
| OfflineQueue.Repository.RetryDead | ClientPLC/ClientPLC.Infrastructure/Database/SqliteOfflineQueueRepository.cs:326-366 | the operator's retry starts the attempts over and lifts the blocker |
| OfflineQueue.Repository.ResolveDead | ClientPLC/ClientPLC.Infrastructure/Database/SqliteOfflineQueueRepository.cs:368-425 | the operator's resolution of a dead or removed message; false for live and unknown ones |

## Left out

- The account identity in a row and the list of issued tokens exist in the model only, to say which account a token belongs to; tokens are numbered, which says that the random generator does not repeat one.
- Passwords, TOTP, login, sign-up policy and the migrations of `_load` are not part of this model; a restart reads back what was saved, since saved names are normal already.
- A failure of `_save`, which propagates to the caller and leaves the table ahead of the file; here it succeeds, inside the config lock. A failure of `_save_sessions`, which is logged and ignored, is a `Write` that is not ok.
- The temporary name carries the process number, so two threads of one process that write one file at once share it; here such writes do not overlap, and other processes do not write these files.
- Only ASCII letters are lower-cased; Python lowers other scripts too.
- SessionRaces.DeletionLocksOutExactlyWhen: a critical section is one step, and so is a write, from opening the temporary file to replacing the old one. The lock-free reads inside a section are not interleaved here; LinearizableReads is about those.
- Message metadata other than role and content, document detachment, archiving and the fields that `sync_session_metadata` copies besides the count.
- Database faults and rollbacks of the session manager; the chat theorems are for fault-free calls, one at a time.
- ChatStore.SessionManager.LoadSessions: which hundred unarchived sessions the query selects is a parameter, not computed.
- ChatStore.SessionManager.Run: asks for messages to be added in time, since only then is there one answer to ORDER BY; ChatRuns.AddKeepsInTimeExactlyWhen and ChatStore.SessionManager.AddMessage say what an earlier clock does.
- SELECT, folder lookup and LOGOUT around a mail move, concurrent changes of the folders by other clients, and a destination equal to the source.
- The fields of a mail configuration other than the account that they come from, and changes of the account table while the cache is in use.
- The closest-match search of the standard library, JSON, password hashing and verification are parameters with only the facts that the contracts name.
- `TokenCache` takes the flag that `invalidate` raises and the one that a refresh cleans to be the same variable; the state object of the web framework is not part of this model.
- A token row whose owner starts or stops being known between two refreshes; `TokenCache` keeps the users fixed.
- Trimming and validation of queue arguments beyond equality with the envelope's id, message payloads and error texts other than the missed-deadline one.
- The compaction of the audit log into totals: the model keeps the whole log, in which every event of a removal can be seen.
- QueueItems.DelayDoublesExactlyWhen: whole milliseconds, without the rounding of the floating-point product.
- Base64Url.DecodeOfEncode: the converse does not hold and is not claimed, as the decoder ignores unused bits of the last digit.
- HTTP routes, the desktop client's windows and network code, and everything else outside the files cited above.
