# SynCent: verified models of its state machines

SynCent watches servers over SSH and GSSocket, keeps an audit trail, and guards its own logins.
This project models the parts of its Go backend whose guarantees are about whole runs or about
every interleaving, and proves those guarantees with Dafny 4.11.  `dafny verify dfyconfig.toml`
checks everything.

## What is modelled

Code that changes fields is a class whose methods are proved against specification functions on
plain values; the theorems about runs are lemmas about those functions.  A protocol between
concurrent callers is a state machine: a step is one channel operation, one atomic operation or
one SQL statement, a run is any list of enabled steps, and the theorems are about all runs.

| file | component |
|---|---|
| `SshProtocol.dfy`, `SshManager.dfy` | the two levels of slots of the SSH manager: conservation, deadlock freedom, termination, and the semaphores as objects |
| `Audit.dfy` | the audit hash chain: interleaved writers, the verifier, tampering, deletion |
| `Health.dfy` | the health checker on one server, check by check: counter, status, history |
| `HealthRaces.dfy` | the same statements interleaved on stale reads |
| `Availability.dfy` | the availability computation against the time a server was really online |
| `Auth.dfy`, `AuthService.dfy` | login, credential check, refresh, logout and password change on one database |
| `Lockout.dfy`, `Replay.dfy`, `CodeTable.dfy`, `Sessions.dfy` | what that database guarantees over runs: attempt rate, one-time codes and the size of their table, revocation |
| `Terminal.dfy` | admission of terminal sessions by two handlers that share counters |
| `Gsocket.dfy` | marker framing and line cleaning of remote output |
| `Crypto.dfy`, `Backup.dfy` | nonce framing, export and import of servers |
| `LogBuffers.dfy` | the bounded log buffers |
| `Counting.dfy`, `Text.dfy`, `Lines.dfy` | counting, numbers, separators, lines, trimming |

Some guarantees hold only under a condition, and then the condition is part of the theorem:

* Every call to the SSH manager completes exactly if both slot limits are positive
  (`CompletesIffPositive`); the configuration does not check that.
* The audit chain verifies exactly if no write inserted on a stale read (`InterleavingTheorem`).
* The availability computation uses the real online time exactly if the history is empty, starts
  no later than the window, or starts from a server that was not online; otherwise it misses the
  part of the window before the first row (`AvailabilityIsReal`, `UsedTimeExact`).
* The caps on terminals are exceeded by as many handlers as are between check and increment, less
  one; the bounds are attained (`GlobalCap`, `GlobalCapAttained`, `ServerCap`, `ServerCapAttained`).
* A TOTP code of a time step is accepted by logins at most once exactly if logins can present it
  in one way only, in a text that the ten-character column takes (`OneTimeUseIff`).  The library
  (pquerna/otp 1.4.0) trims white space around a code before it compares it, while the table holds
  the text as presented, and a failed insert is not noticed.  The program admits every text, so it
  accepts a code again with a space after it, and a text padded beyond ten characters again as it
  is (`PaddedReplay`).  The same condition decides how far apart such logins are
  (`AcceptancesApartIff`) and, for the texts that leave rows, how many rows a user can have
  (`TableBoundIff`).  Of the database this uses that `VARCHAR(10)` drops excess spaces at the end
  of a text and refuses any other excess; of the codes, that they are six digits.
* By logins and password changes together a code is used at most once exactly if, besides, no
  password change presents it (`UsedOnceIff`), or on a given run exactly if no password change
  accepted with it shares its step with another use (`UsedOnceOnRun`): a password change neither
  looks into the table of used codes nor adds to it (`ChangeIgnoresTable`, `ChangesUseAgain`).
* The history ends in the stored status, whenever no check is between its two changes, exactly if
  every collection that wrote online over another status without recording it was followed by a
  row (`MirrorTheorem`), as long as no check interrupts another one's two changes; reads may be
  stale.  Under every interleaving it does exactly if the last writer of the status and the last
  writer of a row report the same (`MirrorExact`).  Both conditions can fail, for every threshold
  (`MirrorCanBreak`), although a server is never marked down without enough failures
  (`DownIsEarned`).
* Tampering with a row that has a successor goes unnoticed exactly if id and joined text stay as
  they were (`TamperEvidence`).  For a row as the program writes it that leaves other fields
  exactly if its detail contains a `|` up to which the text fits the action column
  (`UndetectableChange`); executed commands can put one there.
* Output and status of a GSSocket command are cut out as they are exactly if the text before the
  first marker does not contain it and the output does not contain the second (`CutsIff`,
  `FramingRoundTrip`).  If the shell echoes the line that prints the second marker, the output ends
  there and the status is zero (`EndEchoed`); the filter meant for that line never applies
  (`EndFilterNeverApplies`).
* A backup opens with every password that derives its key and with no other
  (`ExportDecryptExactly`); nothing is assumed of the derivation, and PBKDF2 with HMAC gives one key
  to passwords that differ in trailing NUL characters.
* A restored GSSocket server can be used exactly if the master key is the one of the export;
  directly reached servers survive a change of it (`GsocketNeedsMasterKey`, `ServerRoundTrip`).

Assumptions, all visible in the statements: hashes, tokens and password hashes are determined by
their inputs and by nothing else; sealed data opens under its own key only (`IdealExists` shows
that the cipher assumptions can be met); one clock that does not run backwards; database
statements succeed unless said otherwise, and table ids grow in insertion order; rows of one
instant are read in insertion order.

## Model

| member | source | states |
|---|---|---|
| SshProtocol.SlotConservation | internal/services/ssh_manager.go:66-76 | in every reachable state global tokens are the calls past the first send and before the last receive, each server's tokens are the calls running on it, and neither exceeds its capacity |
| SshProtocol.BlockedExactly | internal/services/ssh_manager.go:71-76 | an unfinished call is blocked exactly at the global semaphore held by `maxGlobal` calls, or at its server's held by `maxPerServer` |
| SshProtocol.DeadlockFree | internal/services/ssh_manager.go:71-76 | with positive limits some call can move whenever one is unfinished |
| SshProtocol.MaximalRunCompletes | internal/services/ssh_manager.go:134-140 | with positive limits a run that cannot go on has finished every call in five steps each and left every semaphore empty |
| SshProtocol.CompletesIffPositive | internal/services/ssh_manager.go:28-37 | every maximal run completes if and only if both limits are positive |
| SshProtocol.GiveUndoesTake | internal/services/ssh_manager.go:71-76 | the deferred receives undo the sends; only a server's semaphore is left |
| SshManager.SSHManager.constructor | internal/services/ssh_manager.go:28-37 | a new manager has an empty global semaphore and no server semaphore |
| SshManager.SSHManager.GetServerSem | internal/services/ssh_manager.go:39-46 | the semaphore of a server is the one already there or a new empty one; entries are never replaced and distinct servers never share |
| SshManager.SSHManager.TakeSlots | internal/services/ssh_manager.go:71-75 | the common prologue takes the global token, finds the server's semaphore and takes its token |
| SshManager.SSHManager.ReturnSlots | internal/services/ssh_manager.go:135-140 | the deferred receives give both tokens back |
| SshManager.SSHManager.RunCommands | internal/services/ssh_manager.go:153-174 | the result has exactly the labels of the batch, with the output of each command that ended in time and the empty text for the others |
| SshManager.SSHManager.BatchBody | internal/services/ssh_manager.go:142-174 | key and connection errors are reported in that order, otherwise every label gets what its own command gave |
| SshManager.SSHManager.ExecuteBatch | internal/services/ssh_manager.go:134-175 | a bad key and a failed connection are reported, otherwise each label has the output of its own command, or the empty text if that did not end in time; on every return path the slots are as before, but for the server's semaphore |
| Audit.SameHashSameText | internal/services/audit.go:17-27 | rows hash alike if and only if they agree on the id and on the joined text of action, detail and timestamp, whatever these contain |
| Audit.SameHashSameFields | internal/services/audit.go:17-27 | rows hash alike if and only if they agree on id, action, detail and timestamp, even if the detail contains the separator |
| Audit.HashIsNotGenesis | internal/services/audit.go:15-27 | no row hashes to the value the first row carries |
| Audit.VerifyAuditChain | internal/services/audit.go:59-83 | the verifier accepts exactly the valid chains and reports the least broken link |
| Audit.AuditLog.ReadTail | internal/services/audit.go:35-43 | a write sees the last row, and nothing if the read fails |
| Audit.AuditLog.InsertRow | internal/services/audit.go:39-50 | the inserted row carries the hash of the row seen, or the genesis hash |
| Audit.AuditLog.WriteAuditLog | internal/services/audit.go:29-51 | an undisturbed write appends one row and leaves the chain as valid as it was, unless its read fails on a log that is not empty, which breaks it |
| Audit.InsertCarries | internal/services/audit.go:35-50 | whatever other writes do in between, a write's row carries the hash of the row that was last at its read, or the genesis hash if the log was empty or the read failed |
| Audit.StepValid | internal/services/audit.go:29-51 | one statement of a write keeps the chain valid if and only if it is no insert on a stale read |
| Audit.InterleavingTheorem | internal/services/audit.go:29-83 | for every interleaving, failed reads included, the log verifies if and only if each insert saw the row that was still the tail |
| Audit.SerializedWritersVerify | internal/services/audit.go:29-51 | writes that do not overlap leave a log that verifies |
| Audit.TamperEvidence | internal/services/audit.go:72-82 | a log rewritten in any way but for the hash column verifies if and only if every row but the last keeps its id and its joined text |
| Audit.PlainTamperEvidence | internal/services/audit.go:72-82 | if no action and no timestamp contains the separator, before and after, that means the same id, action, detail and timestamp |
| Audit.ShiftIsUndetected | internal/services/audit.go:17-18 | moving the text up to a separator in the detail over to the action changes both fields and keeps the hash |
| Audit.UndetectableChange | internal/database/database.go:76-85 | a row with a plain action can be replaced by a storable one with other fields and the same hash if and only if its detail has a separator up to which the text fits the action column |
| Audit.KeyChange | internal/services/audit.go:19-24 | a chain written under one key verifies under another only if it has at most one row |
| Audit.GapBreaks | internal/services/audit.go:76-81 | after a gap the first survivor is the least broken link |
| Audit.DeletionTheorem | internal/services/audit.go:59-83 | removing rows from a valid log leaves it valid if and only if they are a suffix; otherwise the first survivor after the first gap is reported |
| Health.RunTraced | internal/services/health_checker.go:445-449 | on every run the recorded rows lead by possible moves from the status before the first one to the current one |
| Health.HealthChecker.HandleFailure | internal/services/health_checker.go:432-443 | the counter becomes one more than the check read; at the threshold a new status is stored and recorded |
| Health.HealthChecker.SaveMetrics | internal/services/health_checker.go:424-430 | the server is online with a zero counter, recorded if the check had read another status |
| Health.HealthChecker.CollectMetrics | internal/services/health_checker.go:318-388 | which collections are skipped, count as failures, and succeed |
| Health.HealthChecker.Perform | internal/services/health_checker.go:247-346 | each kind of check acts on the servers it applies to and on no others |
| Health.PingEffect | internal/services/health_checker.go:273-291 | a failed ping counts against a direct server that is set up: counter one up, at the threshold unreachable with a row; all other pings change nothing |
| Health.PortEffect | internal/services/health_checker.go:294-306 | a closed port counts likewise, as ssh_down, unless the server is unreachable; all other outcomes change nothing |
| Health.CollectionEffect | internal/services/health_checker.go:318-430 | a collection from a server with a readable GSSocket secret, or else a key, brings it online with a clear counter and a row unless it was online, or counts a failure; on all other servers it changes nothing |
| Health.ScheduledEffect | internal/services/health_checker.go:308-316 | a scheduled collection does the same on every server that is set up, and nothing on others |
| Health.CounterExact | internal/services/health_checker.go:424-436 | the counter is the number of failures reported since the last success |
| Health.CheckEffect | internal/services/health_checker.go:267-346 | a check changes the status exactly when it appends a row with the new status, makes only possible moves, and a down status stays backed by the threshold |
| Health.ProbesNeverClear | internal/services/health_checker.go:267-306 | a successful probe changes nothing and no probe clears the counter or brings a server online |
| Health.HistoryShape | internal/services/health_checker.go:294-304 | on any run a down status has at least threshold failures, the last row is the current status, adjacent rows differ, ssh_down never follows unreachable, at most two down rows stand between online ones |
| Health.HistoryLanguage | internal/services/health_checker.go:247-443 | the status sequences that runs can record on a server are exactly the paths of possible moves |
| HealthRaces.AtomicCheck | internal/services/health_checker.go:432-443 | the statements of one check without interruption amount to the atomic check |
| HealthRaces.StepInv | internal/services/health_checker.go:432-443 | every stored count and every count read stays backed by a failed check that had read one less |
| HealthRaces.CounterBounded | internal/services/health_checker.go:247-265 | under every interleaving the counter is the length of a chain of different failed checks, each having read the previous one's count, so it never exceeds the failures found |
| HealthRaces.DownIsEarned | internal/services/health_checker.go:438-441 | a step that makes a server down or records it as down ends such a chain of at least threshold failed checks |
| HealthRaces.StatementMirror | internal/services/health_checker.go:424-443 | a statement keeps history and status in agreement if and only if it touches neither or its check reports the stored status |
| HealthRaces.MirrorTheorem | internal/services/health_checker.go:424-443 | on every run in which no check interrupts another one's two changes, on stale reads too, the history ends in the stored status outside such changes if and only if every unrecorded recovery was followed by a row |
| HealthRaces.MirrorThroughoutTheorem | internal/services/health_checker.go:424-430 | and it does so at all such points of the run if and only if no collection that had read online writes online over another status |
| HealthRaces.MirrorExact | internal/services/health_checker.go:424-443 | under every interleaving and at every state, the history ends in the stored status if and only if the checks that wrote status and row last report the same status |
| HealthRaces.MirrorCanBreak | internal/services/health_checker.go:424-443 | for every threshold, interleaving leaves an online server with a history that ends in unreachable, by an unrecorded recovery and by a row that lands late |
| Availability.OnlineTime | internal/handlers/api.go:143-154 | the loop adds up exactly the instants at which the history shows the server online |
| Availability.CalcAvailability | internal/handlers/api.go:114-159 | the answer is the truncated percentage of that time, or of the current status if the window has no row; zero if the rows cannot be read, and without the rows before the window if only those cannot |
| Availability.TicksSplit | internal/handlers/api.go:143-154 | online time is additive when a window is split |
| Availability.PercentageAccuracy | internal/handlers/api.go:155-158 | the answer lies in [0,100] and is short of the exact percentage by less than 0.01 |
| Availability.ShownIsActual | internal/services/health_checker.go:424-449 | on any run the history shows the real status at every instant from its first row on |
| Availability.UsedTimeExact | internal/handlers/api.go:131-154 | the time behind the answer misses the real online time by exactly the part of the window before the first row, if the server was online then |
| Availability.AvailabilityIsReal | internal/handlers/api.go:131-158 | the answer is computed from the real online time if and only if the history covers the window, and then is accurate to a hundredth |
| AuthService.AuthHandlers.IncrementFailures | internal/handlers/auth.go:206-217 | the given count is stored, no other row changes, and from five on the account is locked for exactly fifteen minutes |
| AuthService.AuthHandlers.VerifyTOTPWithReplay | internal/services/auth.go:115-126 | a valid code whose text has no row of the last 90 seconds is accepted, recorded if the column takes it, and rows older than five minutes are dropped; at once again it is turned away if and only if its text is at most ten characters long |
| AuthService.AuthHandlers.LoginRequest | internal/handlers/auth.go:91-168 | the whole new state and the answer of a login, which succeeds if and only if account, password and code allow it and whose token then works |
| AuthService.LoginOutcome | internal/handlers/auth.go:121-155 | a login succeeds if and only if the account is unlocked and set up, the password right and the code accepted; its token then refreshes this user; otherwise tokens and codes stay, and no other account ever changes |
| AuthService.LoginAnswer | internal/handlers/auth.go:115-148 | which answer a login gets, by the account, the password and the code: locked, failed, not set up, code missing, secret unreadable, logged in |
| AuthService.ValidateAnswer | internal/handlers/settings.go:64-99 | which answer a check of credentials gets; it is valid if and only if the account is not locked and the password right, and then changes nothing |
| AuthService.ChangeAnswer | internal/handlers/settings.go:172-197 | a password change succeeds if and only if all fields are filled, the new password has twelve bytes, the current one is right and the code valid; it changes password and session and nothing else, and otherwise nothing |
| AuthService.RefreshAnswer | internal/handlers/auth.go:170-187 | which answer a refresh gets, by the cookie and the stored hash |
| AuthService.TokenLifetime | internal/services/auth.go:60-76 | a refresh token is valid for its days, cut to the full second |
| AuthService.AuthHandlers.ValidateCredentials | internal/handlers/settings.go:59-99 | the whole new state and the answer of a credential check, which never touches tokens, codes or other accounts |
| AuthService.AuthHandlers.RefreshRequest | internal/handlers/auth.go:170-187 | the answer of a refresh, which changes nothing |
| AuthService.AuthHandlers.LogoutRequest | internal/handlers/auth.go:189-197 | the stored token hash is cleared, and no token of the user refreshes any more |
| AuthService.AuthHandlers.ResetPasswordRequest | internal/handlers/settings.go:166-197 | the whole new state and the answer of a password change, after which the new password holds and no token of the user refreshes any more |
| Lockout.FailureIsAnswered | internal/handlers/auth.go:121-148 | an attempt on a known account is answered as failed if and only if the account is not locked and the password is wrong or, for a login that comes to it, the code not accepted |
| Lockout.LockedAttempts | internal/handlers/auth.go:121-125 | an attempt is turned away as locked if and only if the account is locked, and then changes nothing |
| Lockout.StepCounter | internal/handlers/auth.go:121-150 | a wrong attempt outside a lock advances the counter by one and locks from the fifth on; a successful login clears both; nothing else touches them |
| Lockout.LockedByFailures | internal/handlers/auth.go:121-150 | after any run an account is locked if and only if there were five wrong attempts outside a lock since its last success, the last of them less than fifteen minutes ago |
| Lockout.RateBound | internal/handlers/auth.go:206-217 | without a successful login n wrong attempts outside a lock satisfy n <= 5 + (t_n - t_5) / 15 min once n >= 5, over any mix of requests |
| Replay.RowStays | internal/services/auth.go:124 | the purge never removes a row that a check within its window needs |
| Replay.AcceptancesApart | internal/services/auth.go:117-123 | accepted logins of a user with one text of at most ten characters are at least 90 seconds apart |
| Replay.AcceptancesApartIff | internal/database/database.go:122-127 | with six-digit codes they are on all runs if and only if the text is that short or is no code with white space around it |
| Replay.ValidInWindow | internal/services/auth.go:115-116 | with six-digit codes a text is valid at exactly the instants at which some step, within one step of the present one, has its code |
| Replay.OneTimeUse | internal/services/auth.go:115-126 | if logins present a code in one way only, and the column takes it, the code of a time step is accepted by a login at most once while that step makes it valid |
| Replay.OneTimeUseIff | internal/services/auth.go:115-126 | the texts admitted in logins guarantee this for a code on all runs if and only if they contain one text for it, of at most ten characters |
| Replay.TrimmedOneForm | internal/services/auth.go:111-116 | the texts without white space around them are such a set for every code |
| Replay.PaddedReplay | internal/handlers/auth.go:144-148 | every code is accepted by two logins at once, with a space after it, and again as it is with five spaces before it |
| Replay.ChangeIgnoresTable | internal/handlers/settings.go:188-194 | the answer of a password change does not depend on the table of used codes, which it leaves as it is |
| Replay.ChangesUseAgain | internal/handlers/settings.go:188-194 | a code is accepted by a password change right after a login with it, by a login right after a password change, and by two password changes |
| Replay.UsedOnceOnRun | internal/handlers/settings.go:188-194 | with one way to present a code in logins, a run uses it once per step, by logins and password changes together, if and only if no accepted password change with it shares the step with another use |
| Replay.UsedOnceIff | internal/handlers/settings.go:188-194 | the texts admitted in logins and in password changes guarantee that on all runs if and only if logins have one way to present the code, of at most ten characters, and password changes have none |
| Replay.CheckIsExact | internal/services/auth.go:117-120 | on every run a text is turned away as used if and only if the user logged in less than 90 seconds ago with a text that the column holds as this one |
| CodeTable.TableBound | internal/services/auth.go:123-124 | with six-digit codes, if at most one way to present each code leaves rows, a user never has more than thirteen |
| CodeTable.TableBoundIff | internal/services/auth.go:123-124 | for admission by white space alone, thirteen bounds the rows on all runs with six-digit codes if and only if that is so |
| Sessions.RefreshTheorem | internal/handlers/auth.go:170-187 | a refresh succeeds if and only if the token is ours, unexpired, and the user's session according to the log |
| Sessions.SessionLifetime | internal/handlers/auth.go:152-155 | the token of a login works until it expires or the user logs in again, logs out or changes the password, and no longer |
| Terminal.SessionCounters.EnterServer | internal/websocket/terminal.go:146-148 | a server's counter goes up |
| Terminal.SessionCounters.LeaveServer | internal/websocket/terminal.go:151-154 | it goes down, and the entry goes at zero |
| Terminal.SessionCounters.Advance | internal/websocket/gs_terminal.go:52-106 | a handler's next operation on the shared variables is the protocol's step |
| Terminal.SessionCounters.HandleTerminal | internal/websocket/terminal.go:62-155 | undisturbed, a session is admitted if and only if both checks pass and it can be set up, and afterwards all counters are what they were |
| Terminal.CounterConservation | internal/websocket/terminal.go:145-155 | the counters are the handlers between increment and decrement, and a server has an entry if and only if its count is positive |
| Terminal.GlobalCap | internal/websocket/gs_terminal.go:52-62 | with at most w handlers between check and increment, active and waiting ones are at most 2 + w; with one the cap of three is exact |
| Terminal.ServerCap | internal/websocket/terminal.go:66-72 | the same for each server with its cap of one |
| Terminal.GlobalCapAttained | internal/websocket/terminal.go:62-72 | the global bound is attained for every w |
| Terminal.ServerCapAttained | internal/websocket/terminal.go:66-72 | the bound of a server is attained for every w |
| Gsocket.SanitizeKeeps | internal/services/gsocket.go:36-37 | a command without the marker prefixes is left as it is |
| Gsocket.SanitizeRemoves | internal/services/gsocket.go:36-37 | a marker prefix in an otherwise clean command is taken out |
| Gsocket.WhichLinesGo | internal/services/gsocket.go:83-98 | the lines that go are the blank ones, those of the script and its echoes, the command and prompts; all others stay as they are |
| Gsocket.PromptIff | internal/services/gsocket.go:102-106 | the patterns for prompts match exactly user, host and signs after them, and a lone dollar sign |
| Gsocket.CleanLines | internal/services/gsocket.go:83-98 | the loop keeps exactly the lines that are neither blank nor noise |
| Gsocket.FindBetween | internal/services/gsocket.go:62-81 | output and status are cut out at the first occurrences of the markers |
| Gsocket.GSocketExecute | internal/services/gsocket.go:25-101 | the answer or the error for every outcome of the shell; a connection error is reported if and only if the first marker is missing |
| Gsocket.CleanedLines | internal/services/gsocket.go:83-100 | the lines of the answer are exactly the non-blank non-noise lines in order, trimmed at the two ends |
| Gsocket.CleanIdempotent | internal/services/gsocket.go:83-100 | cleaning cleaned output changes nothing |
| Gsocket.ExitCodeRead | internal/services/gsocket.go:77-78 | a status printed after the second marker is read back |
| Gsocket.CutsIff | internal/services/gsocket.go:62-76 | both cuts are made at the markers put there if and only if the text before the first does not contain it and the output does not contain the second |
| Gsocket.FramingRoundTrip | internal/services/gsocket.go:33-81 | with a clean prefix, the real output and status are cut out if and only if the output does not contain the fresh second marker, and then cleaned output and status are the answer |
| Gsocket.EndMissing | internal/services/gsocket.go:79-81 | without the second marker everything after the first is output, with status zero |
| Gsocket.EndEchoed | internal/services/gsocket.go:71-78 | an echo of the line that prints the second marker ends the output and makes the status zero, whatever follows |
| Gsocket.EndFilterNeverApplies | internal/services/gsocket.go:89 | what is cut out never contains the second marker, and so no line of it meets the filter for its echo |
| Text.SizeIsLength | internal/services/gsocket.go:27-29 | length in bytes is the number of characters if and only if all are ASCII |
| Lines.IndexFinds | internal/services/gsocket.go:62-71 | a search succeeds if and only if the marker is there |
| Lines.MarkerFoundIff | internal/services/gsocket.go:62-71 | the search finds the marker where it was put if and only if the text before does not contain it; it cannot overlap the boundary |
| Crypto.Suite.DecryptExactly | internal/services/crypto.go:46-86 | data is read back under its master key and under no other |
| Crypto.Suite.ExportDecryptExactly | internal/handlers/settings.go:431-461 | backup data is read back with every password that derives its key and with no other |
| Crypto.IdealExists | internal/services/crypto.go:46-86 | the assumptions on ciphers can be met |
| Backup.ExportConfig | internal/handlers/settings.go:221-292 | an export with keys needs a code and a password; the entries are those of all servers, in order |
| Backup.ExportedColumns | internal/handlers/settings.go:246-271 | all columns of an exported entry; a credential goes out sealed under the password, only with keys, and never in clear |
| Backup.OfferedRow | internal/handlers/settings.go:309-393 | all columns of a row that is offered, by the entry and what was generated for it: defaults, sealed private key, public key, secret |
| Backup.ImportOne | internal/handlers/settings.go:309-380 | the loop body offers a row with exactly these columns, skips or drops an entry |
| Backup.EntryVerdict | internal/handlers/settings.go:311-380 | a row is offered if and only if the entry is addressed and its credential usable; with keys an addressed entry is otherwise skipped |
| Backup.ImportConfig | internal/handlers/settings.go:294-412 | the rows inserted, made of accepted entries in order with exactly these columns, and the counts reported |
| Backup.ImportedRows | internal/handlers/settings.go:309-395 | they are made of exactly the addressed entries with a usable credential whose row the database takes |
| Backup.EveryEntryCounted | internal/handlers/settings.go:309-395 | imported are exactly the addressed entries with a usable credential whose row the database takes, skipped exactly the addressed ones of an import with keys without such a credential, and all others are left out in silence |
| Backup.ServerRoundTrip | internal/handlers/settings.go:253-281 | a server comes back with all its columns and its decrypted credential if and only if it is addressed, has a readable credential, and nonces can be had |
| Backup.WrongPassword | internal/handlers/settings.go:335-372 | with a password that derives another key every addressed server is skipped |
| Backup.GsocketNeedsMasterKey | internal/handlers/settings.go:335-340 | a restored GSSocket credential is readable if and only if the master key is the one of the export |
| Backup.KeylessImport | internal/handlers/settings.go:351-380 | without keys a direct server gets a new key, if one can be generated, and a GSSocket server is dropped uncounted |
| Backup.BackupRoundTrip | internal/handlers/settings.go:309-395 | a whole backup restores exactly the restorable servers whose row the database takes, in order, and counts exactly the other addressed ones as skipped |
| Backup.BackupWrongPassword | internal/handlers/settings.go:309-395 | with a password that derives another key it restores nothing and counts every addressed server as skipped |
| LogBuffers.Buffers.AddToBuffer | internal/websocket/logs.go:34-41 | one key's buffer gets the entry and is cut to its last 500; other keys are unchanged |
| LogBuffers.BufferRefinement | internal/websocket/logs.go:28-41 | after any appends each buffer is the last 500 entries of its key, in order |

## Left out

- HTTP routing, JSON, cookies, WebSocket and SSH transport, processes and the frontend: input and output without claims of this kind.
- AES-GCM, PBKDF2, bcrypt, HMAC, JWT signing, HOTP, base64 and hex: library code, taken as ideal functions.
- Text of timestamps: audit rows hold the RFC 3339 text of their timestamp, taken to contain no separator.
- Commands that time out: ExecuteCommand returns and gives its slots back while the remote command may still run; what it does then is not modelled.
- Waiting calls: the methods of SSHManager model the moment at which a send goes through; who waits and for how long is in the protocol.
- Status writes outside the checker (TestConnection, ManualKeySetup, InjectKey) write no history row; the theorems about runs are about runs of checks.
- Health.HealthChecker.Perform: one server at a time, because the loops over servers start one independent task for each.
- Availability.CalcAvailability: exact rationals instead of floating point.
- AuthService.AuthHandlers.VerifyTOTPWithReplay: the TOTP library and the column type are not part of the repository; that the one trims and how the other treats long texts is taken from their documented behaviour.
- Other uses of TOTP codes (setup, terminals, exports, confirmations) check a code as a password change does, without the table; they are not among the requests of the model.
- Requests on accounts are atomic: two logins of one user at the same moment are not interleaved.
- AuthService.AuthHandlers.RefreshRequest: the access tokens it issues are not modelled.
- Gsocket.GSocketExecute: what counts as a colour code is a parameter, and what the shell prints is an input.
- Backup.ServerRoundTrip: JSON columns are given by their text; an import writes NULL columns as empty text and as JSON null, and "the same" is meant up to that.
- Backup.ImportConfig: whether the database takes a row is an input.
- The command classifier, captcha, registration, app settings, metric parsers, dashboards and migrations: they would only add easy members.
