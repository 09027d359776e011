# A verified model of the go-data dashboard server

go-data watches a Linux host and its Docker containers. Under the dashboard sit
several small state machines whose promises span many calls: an account store
with sessions, a login limiter, a ring of samples that shares its memory with
its readers, a log tailer, a reboot history, alarm tracking, connection
logging, port-range labels and counter arithmetic. This project models them in
Dafny 4.11 and proves what holds over every input, every run and every
interleaving. `dafny verify dfyconfig.toml` checks it.

## How the model is built

Where the program changes state step by step, the model does too: objects are
classes whose methods run the same statements, loops are loops, and each
method is proved against a specification. Two kinds of specification are used.

* *An independent definition over the whole history.* The uptime log, the alarm
  evaluator, the event log, the connection watcher, the log tailer and the sample ring carry a
  ghost field with everything they were ever given, and their invariant equates
  their state with a function of that history that does not mention the
  implementation (runs of equal boot times, unbroken firing stretches, the last
  n events, edges between polls, the last 300 samples).
* *An atomic step function.* `Database.Apply` says what one store call does to
  the tables, and `Limiter.Step` what one limiter call does. The methods of
  the store are proved equal to it, and the theorems are about sequences of steps.

`Transactions` models store calls as processes that run one SQL statement per
step and share the only connection. Any number of calls may be in progress, in
any order, and any database operation may fail. `SchedulesAreSerial` shows that every
such schedule has the effect and the answers of atomic calls one after another, with
one log entry for each call that has answered; `EveryLogHappens` is the converse.
`Accounts`, `Answers`, `Passwords` and `Straddling` are then stated for all schedules.
`Answers.Obeys` is the meaning of every call told by the tables alone, without the
statements and guards it is made of, and every entry of every log obeys it. There a
login is two calls, `Authenticate` and later `CreateSession`, and a change of one's own
password is `VerifyPassword` and later `UpdateUser`, with anything in between.

| file | models |
|---|---|
| `Database.dfy`, `Store.dfy`, `Transactions.dfy`, `Accounts.dfy`, `Answers.dfy`, `Passwords.dfy`, `Straddling.dfy` | `internal/users/store.go` |
| `Handlers.dfy`, `Requests.dfy` | `internal/api/handler_users.go`, password change and middleware of `internal/auth/session.go` |
| `Limiter.dfy`, `Blocks.dfy`, `Login.dfy` | login and its rate limiter, `internal/auth/session.go` |
| `Ports.dfy`, `PortLabels.dfy` | `internal/collector/docker_ports.go` |
| `Ring.dfy` | `internal/storage/memory.go` |
| `History.dfy` | `internal/api/handler_stats.go` |
| `Tailer.dfy` | `internal/security/ssh.go` |
| `EventLog.dfy`, `Connections.dfy`, `HexAddr.dfy` | `internal/security/eventlog.go`, `internal/security/connections.go` |
| `Uptime.dfy` | `internal/uptime/log.go` |
| `Alarm.dfy` | `internal/alarm/alarm.go` |
| `MountField.dfy`, `Partitions.dfy` | `internal/collector/host.go` |
| `Cpu.dfy`, `Net.dfy`, `Collector.dfy` | `internal/collector/cpu.go`, `net.go`, `system.go` |
| `Process.dfy`, `Top.dfy` | `internal/collector/process.go` |
| `Wrappers.dfy`, `Sequences.dfy`, `Decimal.dfy`, `Sorting.dfy`, `Words.dfy`, `Reals.dfy` | shared: options, sequence facts, numerals, `sort.Slice`, uint64, quotients |

## Assumptions

* The database enforces its schema: unique names under NOCASE (ASCII letters),
  foreign keys with cascade, and ids that are never handed out twice. A transaction
  holds the only connection from begin to commit or rollback.
* A bcrypt hash matches exactly the password it was made from, of which at most 72
  bytes count; this holds for passwords without a NUL character. A character of a
  password or user name stands for one byte, so that lengths count bytes.
* Session tokens are random: no token hash is issued twice.
* Clock readings, salts and tokens are parameters. The limiter theorems assume a
  clock that does not run backwards; the purge theorem only that no lookup uses an
  older reading than an earlier purge.
* Writing a log file succeeds, and encoding then decoding an event, a session or a
  time gives it back.
* A poll of the tailer sees one consistent state of the file system. An empty log
  line is no event.
* `Published` is set exactly when a Docker port has a host port, as
  `internal/collector/docker.go` builds it, and ports are not negative.
* sysfs has no cycle of slave devices.

## Where code and documentation differ

The model follows the code.

* README.md of the repository says logins are blocked for 15 minutes after five
  failures, a comment says five within 15 minutes. The limiter counts in windows that a
  failure opens (`Opener`, told by the events alone), and blocks to the end of the
  window, not for its length. `RefusedIff` says when a key is refused: exactly when its
  present window has five failures and is not over. `BlockLength` says, over all
  continuations of any failure, when it is refused for the next 15 minutes: if and only
  if the window has five failures, they all came at one time, and no login of the key
  let in before succeeds. Every part can fail: seven failures within a nanosecond
  that fill no window (`SevenWithoutBlock`), a block of one nanosecond
  (`BlockCanBeShort`), a success that ends it at once (`SuccessEndsBlock`).
* It says changing a password or deactivating an account ends the sessions of that
  user. The session that makes the change is kept: a change leaves no session if and
  only if the one to keep is none of theirs (`EndsAllIff`), and of the earlier ones
  exactly the kept one goes on (`SurvivesIffKept`, `LookupIffKept`). A login that checked
  the old password just before opens its session afterwards: after a password change a
  session stems from the old password if and only if its password check comes before the
  change (`LoginStraddles`, `ChangeIsOutlived`); after a deactivation a session is
  opened only by a login checked before it or after a reactivation, and such a session
  resolves once the account is active again (`DeactivationStraddles`, `DeactivationIsOutlived`).
* A change of one's own password needs the current one. It was current when it was
  checked; `OwnChangeRests` says exactly when it still is when the change takes place,
  and in `ResetIsOverwritten` an administrator's reset in between is lost.
* It says a connection event is logged once per remote address, the first time it is
  seen. Every address seen is logged (`SeenIsLogged`), at most once in a run if and only
  if the run has at most one new entry of it over all watched ports (`LoggedOnceIff`);
  an entry is new in a poll if the poll before did not see its address and port.
  `LoggedTwice` shows three ways to fail: two entries in one poll, a connection that
  drops and returns (which the comment on the event type announces), two ports.
* The comment on the tailer promises to reopen a rotated log from its start. A poll
  starts over on a configured log if and only if the poll before found a file and this
  one finds another inode, or less than was read, or the poll before found none and
  the log is empty (`RotationIsRead`; `NewLogIff` and `NewLogStart` cover a log that is
  looked for). In `RotationCanBeMissed` one poll finds no file, and the new log is skipped.
* `MultiStore.Save` saves in goroutines, so "the last 300 samples" means the last 300
  saves executed, not the latest by time.

## Model

| member | source | states |
|---|---|---|
| Store.UserStore.Create | internal/users/store.go:124-159 | The checks in order, then a case-insensitive name test and an insert under the next unused id; on any error the tables are unchanged |
| Store.UserStore.Update | internal/users/store.go:170-225 | The three writes together change one row and drop exactly the sessions the update revokes, or nothing at all |
| Store.UserStore.Delete | internal/users/store.go:227-250 | Removes the user and by cascade the sessions, unless that user is the last active admin |
| Store.UserStore.Authenticate | internal/users/store.go:255-267 | Answers a user if and only if the account with that name, in any letter case, is active and the password matches |
| Store.UserStore.VerifyPassword | internal/users/store.go:270-277 | Confirms the password exactly when the account exists and it matches, active or not, and is the call that schedules interleave |
| Store.UserStore.NewSession | internal/users/store.go:283-293 | Opens a session only for an existing user and an unused token hash |
| Store.UserStore.SessionUser | internal/users/store.go:297-303 | Resolves a token hash as the join of unexpired sessions and active users does |
| Transactions.StatementsMakeCall | internal/users/store.go:135-249 | The statements of a transaction, run without interruption, amount to the atomic call, rollbacks included |
| Transactions.SchedulesAreSerial | internal/users/store.go:81-250 | Every schedule of any number of calls, with failures, has the tables and answers of atomic calls in log order; log entries and answered calls correspond one to one |
| Transactions.EveryLogHappens | internal/users/store.go:81-250 | Conversely every list of calls with the answers they give one after another is the log of some schedule |
| Transactions.SomeoneCanRun | internal/users/store.go:81-83 | While a call is unanswered some process can take a step: the single connection never deadlocks |
| Transactions.TransactionEnds | internal/users/store.go:135-249 | An open transaction left to itself answers within six steps, with the effect its statements add up to |
| Transactions.LogGrows | internal/users/store.go:81-83 | Answers are never withdrawn or reordered, so a call that arrives later takes effect later |
| Transactions.FaultEnds | internal/users/store.go:135-139 | A failed operation of a transaction commits and answers nothing and frees the connection |
| Accounts.TablesStayValid | internal/users/store.go:50-65 | Unique names in any letter case, foreign keys, valid roles and never-reused ids in every committed state of every schedule |
| Accounts.LastAdminSurvives | internal/users/store.go:332-341 | Once a committed state has an active admin every later one has, for all interleavings |
| Answers.EveryCallObeys | internal/users/store.go:124-313 | In every schedule each call answers and does what its tables say: a deletion or demotion is refused as the last admin's exactly when no active admin would be left, and every other refusal has its exact reason |
| Answers.CreatedLogsIn | internal/users/store.go:124-159 | A created account logs in with exactly its password, under its name in any letter case, and has the role asked for, until a call changes it |
| Answers.LogoutHolds | internal/users/store.go:305-308 | After a logout the token resolves to nobody until it is issued again |
| Accounts.DeletedForGood | internal/users/store.go:227-250 | After a deletion no call ever answers with that id again and no password is right for it: cascade, foreign key and ids never reused |
| Accounts.DeletionInLog | internal/users/store.go:227-250 | The same for any list of calls answered one after another |
| Accounts.PurgeNeverShows | internal/users/store.go:297-313 | Every other call is answered as if purges never ran |
| Passwords.RevocationHolds | internal/users/store.go:219-223 | In every schedule, after a password change or a deactivation only the kept token resolves to the user until a new session is opened for them |
| Passwords.EndsAllIff | internal/users/store.go:219-223 | The change leaves the user without a session if and only if the one to keep is none of theirs |
| Passwords.SurvivesIffKept | internal/users/store.go:219-223 | In every schedule, of the sessions open before exactly the kept one goes on until another call ends it |
| Passwords.LookupIffKept | internal/users/store.go:297-303 | A later lookup of a session open before answers with the user if and only if it is the kept one |
| Passwords.OnlyNewAuthenticates | internal/users/store.go:214-218 | After a password change a login is answered with the account if and only if it gives its name and the new password while it is active |
| Straddling.LoginStraddles | internal/users/store.go:255-293 | A session opened after a password change stems from the old password if and only if its password check comes before the change |
| Straddling.ChangeIsOutlived | internal/users/store.go:255-293 | A schedule where the kept session and that of a login with the old password both resolve after the change |
| Straddling.DeactivationStraddles | internal/users/store.go:255-293 | A session opened after a deactivation is that of a login checked before it, or after a reactivation |
| Straddling.DeactivationIsOutlived | internal/users/store.go:255-303 | A schedule where a session opened that way resolves once the account is active again |
| Straddling.OwnChangeRests | internal/auth/session.go:184-188 | When an own change takes place, the password checked is still current if and only if no call ended it in between, or the last that did set it again |
| Straddling.ResetIsOverwritten | internal/auth/session.go:184-188 | A schedule where a reset by an administrator is overwritten by a request that knew only the former password |
| Handlers.Api.Handle | internal/auth/session.go:74-110 | Middleware, role check and handler compose to the status and effect of the request |
| Handlers.Api.Put | internal/api/handler_users.go:53-84 | Refuses to demote or deactivate oneself, and keeps one's own session only when changing oneself |
| Handlers.Api.Remove | internal/api/handler_users.go:86-100 | Refuses to delete oneself |
| Handlers.Api.SetOwnPassword | internal/auth/session.go:173-196 | Needs the current password; keeps the session in use |
| Requests.TurnedAway | internal/auth/session.go:74-99 | Without a session that opens an active account nothing happens, and the answer is 401 |
| Requests.ViewerKeptOut | internal/auth/session.go:101-110 | Listing, creating, changing and deleting accounts answer 403 to an account that is no admin and change nothing; an own password change never does |
| Requests.AdminServed | internal/api/handler_users.go:19-100 | An admin's request is the store call it names, reported with its status, except one that would lock out the own account |
| Requests.OwnPasswordServed | internal/auth/session.go:173-196 | The own password changes exactly when the present one is given and the new one is allowed |
| Requests.ViewerConfined | internal/auth/session.go:74-110 | No sequence of a viewer's requests changes a row other than the own hash, costs another account a session, or opens one |
| Handlers.AdminKeepsAccess | internal/api/handler_users.go:66-98 | No sequence of an admin's own requests, purges in between, costs them their session or role before it expires |
| Limiter.LoginLimiter.Blocked | internal/auth/session.go:232-244 | The remaining wait, and an expired block is dropped |
| Limiter.LoginLimiter.Fail | internal/auth/session.go:246-263 | Evicts every expired entry when there are too many, then counts or starts a new window |
| Limiter.EvictionForgets | internal/auth/session.go:249-256 | A failure that finds more than 10000 entries drops of the other keys exactly those whose window is over |
| Limiter.CountBounded | internal/auth/session.go:232-263 | With at most k logins of a key at once, its count and the logins still in progress never exceed 4 + k together |
| Limiter.FailureRate | internal/auth/session.go:129-143 | Any half-open interval as long as the window has at most 2(4 + k) - 1 failures of a key; 9 for consecutive logins |
| Limiter.BoundIsReached | internal/auth/session.go:129-143 | For every k a legal run with exactly 2(4 + k) - 1 failures in one window: the bound cannot be lowered |
| Blocks.EntryIsWindow | internal/auth/session.go:232-263 | For every run the limiter keeps exactly the number of failures of the present window and when it was opened, unless it is over and was evicted |
| Blocks.RefusedIff | internal/auth/session.go:232-263 | At any time a key is refused if and only if its present window has five failures and is not over, and until it is over |
| Blocks.RefusedHasFailedFive | internal/auth/session.go:217-219 | Who is refused has failed five times within one window |
| Blocks.BlockLength | internal/auth/session.go:232-269 | After any failure, over every continuation: refused to the end of the window iff no login of the key succeeds before; for 15 minutes iff the window has five failures, all at once, and no login succeeds |
| Blocks.SevenWithoutBlock | internal/auth/session.go:217-263 | A run, one login at a time, with seven failures within one nanosecond and no block |
| Blocks.BlockCanBeShort | internal/auth/session.go:232-244 | A run whose block lasts one nanosecond |
| Blocks.SuccessEndsBlock | internal/auth/session.go:129-145 | A run in which a login let in before the fifth failure succeeds after it and ends the block at once |
| Limiter.EvictionUnobservable | internal/auth/session.go:250-256 | On every run an evicting limiter answers as one that never evicts |
| Login.Session.Login | internal/auth/session.go:119-160 | Answered 429, without a look at the password, exactly when the logins so far from this address for this name say so; otherwise one check and one failure or success, and only a success opens a session |
| Login.KeysShared | internal/auth/session.go:129 | Logins share a limiter key exactly when they come from one address and are for one name in any letter case, for addresses without a bar |
| Login.WaitIsOwn | internal/auth/session.go:129-143 | However logins interleave, one is refused exactly when those from its address for its name have five failures in a window of 15 minutes that is not over |
| Login.OthersDoNotMatter | internal/auth/session.go:217-219 | A login from another address or for another name never changes the answer |
| Login.CaseDoesNotMatter | internal/auth/session.go:129 | One for the same name in other letter case counts |
| Sorting.SortSlice | internal/collector/docker_ports.go:26-31 | Some sorted reordering; which one among equals is left open |
| Ports.DedupePorts | internal/collector/docker_ports.go:11-33 | The first port of every key, once, ascending by container port and then by protocol in lexicographic order |
| Ports.ScanRun | internal/collector/docker_ports.go:50-64 | Finds the end of the run of linked ports |
| Ports.PrintRun | internal/collector/docker_ports.go:66-94 | One range label for three or more ports, single labels otherwise |
| Ports.CollectChips | internal/collector/docker_ports.go:49-96 | The greedy loop prints the chips of the runs of its list, in order |
| Ports.BuildPortChips | internal/collector/docker_ports.go:38-98 | The chips are those of the runs of some deduplicated sorted list |
| Ports.RunsAreMaximal | internal/collector/docker_ports.go:49-96 | The runs cut the list without loss, each is linked throughout, and none could take the next port |
| Ports.MaximalRunsUnique | internal/collector/docker_ports.go:49-96 | There is no other such cutting |
| PortLabels.ReadRange | internal/collector/docker_ports.go:66-78 | Both ranges of a label have the same width and read back as the ports of the run |
| PortLabels.Lossless | internal/collector/docker_ports.go:38-98 | Reading all labels back gives every (host, container, protocol) exactly once, for every outcome of the sort |
| PortLabels.ChipsGood | internal/collector/docker_ports.go:66-94 | A chip covers one port or at least three and is marked published exactly when its ports are |
| PortLabels.Compressed | internal/collector/docker_ports.go:49-78 | Three or more successive container ports of one protocol, unpublished or with host ports that advance alike, end up in one chip when no other key lies in their range |
| PortLabels.CompressPorts | internal/collector/docker_ports.go:38-98 | Lossless, good chips, read back in ascending order, and spans compressed into one chip: the contract of the whole pipeline |
| Ring.MemoryStore.Save | internal/storage/memory.go:18-27 | The ring holds the last max saves, and every slice handed out before keeps its contents |
| Ring.MemoryStore.Append | internal/storage/memory.go:25 | Writes past the end of every slice handed out, or into a fresh array |
| Ring.MemoryStore.GetAll | internal/storage/memory.go:29-33 | Returns an alias, not a copy, that shows the last max saves |
| History.History | internal/api/handler_stats.go:31-73 | The points are the averages of the consecutive buckets of the selected samples |
| History.Averages | internal/api/handler_stats.go:57-69 | The bucket loop yields one mean per bucket, the shorter last one included |
| History.BucketsPartition | internal/api/handler_stats.go:57-61 | The buckets are contiguous and contain every sample once |
| History.PointCount | internal/api/handler_stats.go:53-70 | Between min(n, p) and 2p - 1 points for n samples and p requested, none for none |
| History.SelectedSplits | internal/api/handler_stats.go:44-50 | The samples of the metric are those of the parts of the ring, in order |
| History.SelectedOne | internal/api/handler_stats.go:44-50 | A snapshot gives its time and value, or nothing if it lacks the metric |
| History.PointIsMean | internal/api/handler_stats.go:62-68 | A point is the mean of its bucket, at the mean time without its fraction |
| History.SumConserved | internal/api/handler_stats.go:62-68 | The means weighted by bucket sizes sum to the samples |
| History.PointTimeInside | internal/api/handler_stats.go:62-68 | The truncated mean time lies within its bucket |
| History.TimesKeptInOrder | internal/api/handler_stats.go:57-70 | Samples in time order give points in time order |
| EventLog.EventLog.constructor | internal/security/eventlog.go:28-36 | Loading the file resumes the log |
| EventLog.EventLog.Append | internal/security/eventlog.go:38-46 | Memory and file hold the last cap of all events ever appended |
| EventLog.EventLog.Recent | internal/security/eventlog.go:49-60 | The last n events in reverse, all that are kept when n <= 0 or too large |
| EventLog.Restart | internal/security/eventlog.go:62-99 | A restart between any two appends changes nothing |
| Connections.ConnWatcher.DoPoll | internal/security/connections.go:78-108 | The log is what the whole sequence of polls says |
| Connections.KeysInjective | internal/security/connections.go:101 | Distinct (address, port) pairs have distinct keys, whatever the address text |
| Connections.ActiveIff | internal/security/connections.go:83-102 | A poll sees exactly the established connections on ports that are configured or, in auto mode, listened on from outside |
| Connections.LoggedComesFrom | internal/security/connections.go:96-107 | Every event ever logged is such an entry, with its clock reading, in a poll whose predecessor did not see its connection |
| Connections.LoggedOnEdges | internal/security/connections.go:96-107 | Over any run a pair is logged in exactly the polls that see it after one that did not, once per entry |
| Connections.LoggedNewEntries | internal/security/connections.go:96-107 | Over any run an address has as many events as new entries on watched ports, summed over the polls |
| Connections.LoggedOnceIff | internal/security/connections.go:96-107 | An address is logged at most once if and only if the run has at most one new entry of it over all ports; likewise a single connection |
| Connections.SeenIsLogged | internal/security/connections.go:96-107 | A connection that any poll of a run sees is logged, and so is its address |
| Connections.LoggedTwice | internal/security/connections.go:96-107 | Two entries in one poll, seen, gone and seen again, or two ports of one address: two events |
| HexAddr.DecodeHexAddr | internal/security/connections.go:166-182 | The loop over 8-character groups decodes the whole text or rejects it |
| HexAddr.DecodePrinted | internal/security/connections.go:163-182 | What the kernel prints for an address decodes to it |
| HexAddr.DecodedIsPrinted | internal/security/connections.go:163-182 | Only such texts are accepted, up to letter case |
| HexAddr.DecodedIff | internal/security/connections.go:163-182 | A text decodes to an address if and only if it is what the kernel prints for it, in any letter case |
| Tailer.SSHWatcher.DoPoll | internal/security/ssh.go:66-106 | Cursor and log are what the whole sequence of polls says |
| Tailer.SSHWatcher.ReadNew | internal/security/ssh.go:66-99 | Rotation, truncation, missing file, failed open and short read |
| Tailer.SSHWatcher.ResolvePath | internal/security/ssh.go:110-128 | The configured path or the first candidate that exists, from its current end |
| Tailer.SSHWatcher.LogLines | internal/security/ssh.go:101-105 | Appends the events of the lines of a chunk in order |
| Tailer.GenerationReadOnce | internal/security/ssh.go:66-106 | Over any polls the chunks of a generation join to its content from start to cursor: no gap, no repeat |
| Tailer.GenerationEvents | internal/security/ssh.go:94-105 | While reads stop at line ends, what the watcher has logged ends with the events of the content read of the present generation, parsed as a whole |
| Tailer.FollowsWatched | internal/security/ssh.go:66-128 | Path and inode of the cursor are what the files found by the polls determine |
| Tailer.NewLogIff | internal/security/ssh.go:73-86 | A poll starts over if and only if it finds a log that was lost, one with another inode, or one shorter than what was read |
| Tailer.NewLogStart | internal/security/ssh.go:73-128 | A new log is read from its start if the poll before followed one, from its end otherwise; nothing before that point is ever read |
| Tailer.PollReads | internal/security/ssh.go:84-99 | What one poll reads, new log or not: from where reading stood as much as it is handed, nothing if the log does not open |
| Tailer.CaughtUp | internal/security/ssh.go:66-99 | When the last poll opens the log and gets all that is left, the generation has been read to its end |
| Tailer.CaughtUpEvents | internal/security/ssh.go:66-106 | Then what was logged ends with the events of the whole text since the generation began to be read |
| Tailer.LooksInOrder | internal/security/ssh.go:110-119 | A log that is looked for is /var/log/auth.log if it exists, else /var/log/secure |
| Tailer.RotationIsRead | internal/security/ssh.go:66-86 | For a configured path, in terms of the files found: when exactly a poll reads the log from its start |
| Tailer.RotationCanBeMissed | internal/security/ssh.go:73-86 | The same rotation is read without, and skipped with, one poll that finds no file |
| Tailer.OnlyCandidate | internal/security/ssh.go:110-128 | Looking for the log amounts to configuring it when only one candidate ever exists |
| Tailer.ChunkwiseIsWhole | internal/security/ssh.go:101-105 | Chunks that end at newlines parse as their concatenation |
| Tailer.LinesJoin | internal/security/ssh.go:101 | A text is its lines joined by newlines, and no line contains one |
| Tailer.EventsOfLine | internal/security/ssh.go:101-105 | A line that parses is one event, any other line none |
| Uptime.Log.constructor | internal/uptime/log.go:42-53 | Loading the file resumes the history |
| Uptime.Log.Observe | internal/uptime/log.go:58-82 | The sessions are the last 200 runs of the history of rounded boot times |
| Uptime.Log.Sessions | internal/uptime/log.go:85-93 | Newest first, and only the first is ongoing |
| Uptime.Restart | internal/uptime/log.go:95-134 | A restart between any two observations changes nothing |
| Uptime.RunStartsExact | internal/uptime/log.go:64-81 | A run starts exactly where the rounded boot time differs from the observation before |
| Uptime.RoundsToNearest | internal/uptime/log.go:59 | Boot times are rounded to the nearest second, the later one of two |
| Uptime.NewBoot | internal/uptime/log.go:71-76 | Another boot time closes the open session at that observation and opens one |
| Alarm.Evaluator.Evaluate | internal/alarm/alarm.go:69-139 | The active alarms are those the latest snapshot fires, each since the start of its stretch; the list has each once |
| Alarm.EvaluateStep | internal/alarm/alarm.go:73-80 | The raise closure turns the alarms of a history into those of the longer history, repeated ids included |
| Alarm.StretchIsUnbroken | internal/alarm/alarm.go:73-80 | Since is the time of a snapshot from which on every one fires the id, and before which one did not |
| Alarm.ActiveIff | internal/alarm/alarm.go:82-126 | An alarm is active exactly when the latest snapshot has its source at a value that reaches a threshold, and shows such a value with its severity |
| Alarm.IdsInjective | internal/alarm/alarm.go:82-126 | Ids of different sources never collide, whatever mounts, devices and zones are called |
| Alarm.IdFixesMetric | internal/alarm/alarm.go:73-80 | Keeping the metric of the previous alarm is right: equal ids have equal metrics |
| MountField.UnescapeMountField | internal/collector/host.go:420-436 | The loop and its fast path decode every escape, never lengthening the text |
| MountField.NothingToUnescape | internal/collector/host.go:421-423 | The fast path agrees with the loop |
| MountField.LiteralKept | internal/collector/host.go:420-436 | Whatever is not a backslash and three octal digits of a byte stands for itself |
| MountField.UnescapeEscaped | internal/collector/host.go:417-436 | Every byte string comes back from its escaped form |
| Partitions.AttributedIffChain | internal/collector/host.go:296-305 | A device belongs to a disk if and only if a chain of only slaves leads there |
| Cpu.SharesAreTrue | internal/collector/cpu.go:57-75 | Wrapping of the counters and of their sum does not show; shares are in range and usage, idle and iowait make 100 |
| Cpu.PerCoreDeltaPct | internal/collector/system.go:74-84 | The usage of every core both readings have |
| Collector.SystemCollector.Collect | internal/collector/system.go:39-72 | CPU compares the last two readings that succeeded, network the readings of consecutive ticks |
| Net.NetDeltas | internal/collector/net.go:57-78 | Every reportable interface once, in any order |
| Net.RatesTelescope | internal/collector/net.go:64-75 | Rate times elapsed time over a run sums to the last counter minus the first, for both directions |
| Net.CountsTelescope | internal/collector/net.go:64-75 | So do packets, errors and drops of both directions together |
| Net.RatesNotNegative | internal/collector/net.go:64-66 | No reported traffic rate is negative |
| Process.StatRecovered | internal/collector/process.go:86-100 | Any command name, parentheses and spaces included, and utime + stime come back from a stat line |
| Top.RatedOne | internal/collector/process.go:57-68 | A process is rated exactly when the previous call read it earlier with no more ticks, at the time it ran over the time that passed |
| Top.SamplesAre | internal/collector/process.go:49-57 | A call remembers of every process it could read the ticks and the time, and of no other |
| Top.ProcessCollector.Top | internal/collector/process.go:39-78 | A sorted selection of at most n rates; every process left out is no faster than any kept |
| Top.SameRates | internal/collector/process.go:73-76 | Whatever the unstable sort does, the rates shown are the same, rank by rank |

## Left out

- HTTP details, JSON, cookies, redirects, basic authentication and the web pages: presentation without state of its own.
- `internal/collector/diskio.go`: the same rate argument as for network interfaces.
- `internal/api/metric_lookup.go`, configuration, thermal zones, memory, sockets and container memory: lookups and case splits; `History.History` takes the lookup as a parameter.
- Reading and splitting `/proc` and `/sys` files, disk and mount discovery, Docker and Influx access: contents come in as values.
- `Get`, `List` and `Count` of the account store: queries without effect.
- The regular expressions of the SSH line parser: any function from lines to events that ignores the empty line.
- Floating point: rates, shares and averages are over the reals, so rounding is not modelled.
- Limiter.LoginLimiter.Fail: entries are values in a map; the program updates an entry through a pointer nobody else holds.
- Login.Session.Login: password check and session follow each other without interruption; what happens when other calls come between is `Straddling.LoginStraddles`. Folds the letter case of ASCII letters only, where the program folds all of Unicode; account names are ASCII.
- Handlers.Api.SetOwnPassword: password check and update follow each other without interruption; what happens when other calls come between is `Straddling.OwnChangeRests`.
- A failed query ends a call of a schedule without an answer in the log; the program tells the caller of a lookup "no user" then, which says nothing about the tables.
- Handlers.Api.Handle: session lookup and store call of one request are one uninterrupted step, so an admin demoted between the two is not modelled; the origin check of the middleware is left out.
- Collector.SystemCollector.Collect: keeps the CPU and network readings of the previous tick only; the disk I/O sample and the other readings of a tick are left out.
- Ports.DedupePorts: compares protocol names by characters, where the program compares bytes; for UTF-8 text both orders agree.
- HexAddr.DecodeHexAddr: gives the address as groups of four bytes, where the program wraps IPv4 addresses into sixteen.
- Tailer.SSHWatcher.DoPoll: events carry no time; the program stamps them when it parses the line.
- Ring.MemoryStore.Save: the lock is taken as given; calls happen one after another.
- Memory limits, integer overflow of counts, and files that cannot be written.
