# raxd verification model

A Dafny model of the parts of raxd whose correctness depends on order, failure and interleaving: the
upload writer and its tool, the rate limiter, the key store and its file, the request chain, purge, and
the capped output writer. `dafny verify dfyconfig.toml` checks everything.

Where the Go code changes state step by step the model is imperative: `RateLimit.Limiters`,
`KeyDisk.Disk`, `KeyStore.Store`, `UploadWriter.FileUpload`, `UploadTool.Tool`, `Pipeline.Server`,
`Purge.Machine` and `CappedWriter.Writer` have the source's fields, loops and early returns. Each of their
methods is proved equal to a specification function of the old state, and the properties are lemmas about
those functions. What such a function answers is also stated case by case in terms of the inputs alone, on the
method itself or in a lemma (`KeyDb.DecodeExact`, `UploadAnswers.WriteAnswersExactly`,
`PurgeRuns.PurgeSucceedsExactly`). Behaviour that spans several processes or requests is a step machine. The key store and
the request chain are proved to take the steps of theirs (`KeyRuns.StepCreate` and its siblings,
`PipelineRuns.StepHandle`); for uploads, a thread of the machine that nobody interrupts is proved to end with the
result and the tree of `Write` (`UploadSteps.AloneIsWrite`).

Failures are parameters: every operation takes a record that says which of its steps fail, and no theorem
restricts that record unless its row says so. Random values, the clock, the hash, JSON and text libraries are
parameters as well.

| file | content |
|---|---|
| `RateLimit.dfy` | token buckets, eviction, window bounds |
| `KeyDb.dfy`, `KeyDisk.dfy`, `KeyStore.dfy` | the database as a value, the atomic file replacement, the store object |
| `KeyRuns.dfy`, `KeyUsage.dfy`, `KeyLock.dfy` | whole runs of the store, last-used times, the advisory lock |
| `UploadSpec.dfy`, `UploadAnswers.dfy`, `UploadWriter.dfy`, `UploadTool.dfy` | one upload: what it returns and leaves, the code, the tool around it |
| `UploadSteps.dfy`, `UploadRuns.dfy`, `UploadLimit.dfy`, `UploadVisibility.dfy`, `UploadNoClobber.dfy` | concurrent uploads, step by step |
| `Pipeline.dfy`, `PipelineRuns.dfy`, `PipelineSafety.dfy`, `PipelineBound.dfy` | the request chain and whole runs of the server |
| `Paths.dfy`, `Purge.dfy`, `PurgeRuns.dfy` | purge: its path test, its steps, repeated attempts |
| `CappedWriter.dfy` | the bounded capture of command output |

## What the proofs show about the code

Some promises hold only under a condition that the code does not check. Each has its exact condition or a
concrete run:

- Dropping idle limiter entries is invisible, and the rate bound holds, if and only if `ttl * rate >= burst`
  (`RateLimit.EvictionInvisibleIff`, `RateLimit.WindowBoundedIff`; for the whole server
  `PipelineBound.SuccessesBoundedIff`). The configuration does not check it.
- `Overwrite=false` is safe under concurrency if and only if a total limit is configured and no stat of those
  uploads fails (`UploadNoClobber.OneWinnerIffLimitedAndSeen`): a `Stat` that fails for any other reason than a
  missing file is read as "no file", so the target is replaced and reported as new
  (`UploadNoClobber.FailedStatClobbers`).
- A set of concurrent uploads keeps the total limit, on every tree and in every interleaving, if and only if none
  of them can strand bytes: replace a file, fail with data in the temporary file, and fail to remove it
  (`UploadLimit.LimitKeptIff`). As a rule for callers: the limit is kept if and only if removals work or no
  upload overwrites (`UploadLimit.LimitKeptByRule`). What stranded bytes can add is bounded by one file
  (`UploadRuns.LimitWithLeftovers`).
- The two branches of `Write` agree if and only if the limit does not bind, the walk succeeds and no failed
  mkdir hides a denial (`UploadSpec.BranchesAgreeIff`).
- A file of exactly `max_file_bytes` is accepted if and only if that limit is a multiple of three and its base64
  text has fewer than four line-break characters, which the decoder skips and the early size check counts
  (`UploadTool.SizeChecksExact`).
- The flock is on the file that was opened, and `writeDB` replaces that file. Exclusion holds throughout a run if
  and only if no lock on a replaced file is granted (`KeyLock.ExclusiveIffNeverStale`), every such grant beside a
  second process has a continuation that loses a confirmed update (`KeyLock.StaleGrantCanLose`), and n processes
  can come to that if and only if n >= 2 (`KeyLock.CanLoseIffTwoProcesses`).
- For any number of flushers the latest uses stay on record, up to failed writes, if and only if no flush puts an
  older time in front of a newer one (`KeyUsage.ConservedIffUndisturbed`); overlapping flushes can
  (`KeyUsage.TwoFlushersLose`), so the rule for callers is at most one flush at a time
  (`KeyUsage.ConservedIffOneFlusher`). This program never overlaps them: `FlushUsage` is called once, after the drain, at
  internal/server/server.go:236. What a failed write loses is exact too (`KeyUsage.LossIsExact`).
- A request already past its Verify is served after a Revoke (`PipelineSafety.InFlightIsServed`).
- The audit reason "rate limit exceeded (ip)" is never written (`PipelineSafety.AddressReasonUnused`).
- Purge removes the journald drop-in only together with the unit file: a run that fails between the two leaves
  it for good (`PurgeRuns.DropInLeaks`). A purge can succeed while the account exists (missing `getent`, any
  `dscl` error) and while the service still runs: the comment at internal/service/systemd.go:342 says the service
  is stopped when its status is unknown, the code stops it only when it is reported active
  (`PurgeRuns.SuccessExact`).

## Model

The rows come in three groups: the main results, the operations of the objects, and supporting results.

| member | source | states |
|---|---|---|
| RateLimit.EvictionInvisibleIff | internal/server/ratelimit.go:53-122 | over all runs of calls and sweeps, eviction changes no answer if and only if ttl * rate >= burst |
| RateLimit.WindowBoundedIff | internal/server/ratelimit.go:53-122 | the window bound holds for all runs, parties and windows if and only if ttl * rate >= burst |
| RateLimit.StarvedCallsInvisible | internal/server/ratelimit.go:58-71 | with ttl * rate >= burst, taking all calls refused for want of a key token out of a run changes no other answer in it |
| PipelineBound.SuccessesBoundedIff | internal/server/server.go:95-109 | if the gate admits any request, the rate bound on success records holds for all runs, parties and windows of the server if and only if ttl * rate >= burst |
| PipelineSafety.OneRecordEach | internal/server/server.go:95-117 | in every run every request has one audit record or is waiting for its charge, never both, and mux calls are the success records in order |
| PipelineSafety.OnlyGated | internal/server/middleware.go:19-62 | in every run no request with an unlisted host, an unlisted origin or without a bearer token is ever waiting for its charge or served |
| PipelineSafety.OnlyIssuedKeys | internal/server/server.go:95-109 | in every run only issued keys reach the mux, and only their fingerprints take a place in the limiter's key table |
| PipelineSafety.RevokeShutsOut | internal/keystore/keystore.go:152-236 | in every run, after Revoke of an issued key with a write that works, no request whose Verify comes later is served with that key |
| PipelineSafety.InFlightIsServed | internal/server/auth.go:105-152 | a request verified before the Revoke and charged after it is served |
| PipelineSafety.AddressReasonUnused | internal/server/middleware.go:117-122 | no run ever writes the address reason |
| KeyDb.VerifyIsOwnership | internal/keystore/keystore.go:189-236 | under a collision-free hash a presented key verifies if and only if it is the body issued under a still active id, and to that id's record |
| KeyDisk.CrashShowsOldOrNew | internal/keystore/keystore.go:326-381 | death or power loss at any moment of a write shows the entire new database or what could be seen before |
| KeyRuns.HistoryRun | internal/keystore/keystore.go:164-174 | between any two states of any run records are only appended, identity and credentials never change, a revoked record is frozen with its last-used time |
| KeyRuns.RevokedNeverVerifies | internal/keystore/keystore.go:189-236 | once revoked, a key is never found again, after any further operations |
| KeyRuns.RevokeWorks | internal/keystore/keystore.go:152-183 | in every reachable state Revoke of an issued id, with a write that works, leaves it revoked, and succeeds if it was active |
| KeyDb.RevokedExact | internal/keystore/keystore.go:164-179 | not found if and only if no record has the id; already revoked, or only the revocation and its time changed, by the state of the first record that has it |
| KeyDb.DecodeExact | internal/keystore/keystore.go:301-319 | no file and an empty one are the empty database, bytes that do not parse are the corrupt error, others are what they parse to |
| KeyRuns.ActiveVerifies | internal/keystore/keystore.go:189-236 | a created, unrevoked key verifies, to its own record |
| KeyRuns.UnissuedNeverVerifies | internal/keystore/keystore.go:189-236 | a body that was never issued verifies to nothing |
| KeyUsage.UsageConserved | internal/keystore/keystore.go:225-296 | in every run in which no older time is put in front, the latest use of every active key is in the buffer, else in the newest snapshot that has one, else on disk, unless a write of it failed |
| KeyUsage.ConservedIffUndisturbed | internal/keystore/keystore.go:225-296 | on a ticking clock, for every run with any flushers and any failures: always on record, up to failed writes, if and only if no step puts an older time in front |
| KeyUsage.ConservedIffOneFlusher | internal/server/server.go:236-238 | over all runs on a ticking clock with at most k flushes in flight, any failures, the latest uses stay on record, up to failed writes, if and only if k <= 1 |
| KeyUsage.LossIsExact | internal/keystore/keystore.go:283-296 | in runs that put no older time in front, on a ticking clock, the latest use is on record if and only if it did not go down with a failed write |
| KeyUsage.DrainedFlush | internal/server/server.go:219-240 | after a drained shutdown whose flush succeeds, and any earlier failures, every active key's latest use is on disk except those an earlier failed write lost; none is lost if no write failed |
| KeyLock.ExclusiveIffNeverStale | internal/keystore/lock.go:17-54 | in a run of any number of processes from the start, failed and empty operations included, at every moment at most one is between lock and rename and the path holds exactly the updates reported as done, in order, if and only if no stale lock is ever granted |
| KeyLock.StaleGrantCanLose | internal/keystore/keystore.go:366-369 | with a second process, every stale grant has a legal continuation that loses an update reported as done |
| KeyLock.TwoProcessesCanLose | internal/keystore/keystore.go:366-369 | from every state in which exclusion still holds, two or more processes can grant a stale lock and lose an update reported as done |
| KeyLock.CanLoseIffTwoProcesses | internal/keystore/lock.go:17-54 | among n processes started on an empty store an update reported as done can be lost if and only if n >= 2 |
| UploadSpec.WriteEffect | internal/fileupload/upload.go:93-220 | for every call, both branches, every failure: a denial leaves no trace, a failure changes no file, a success changes exactly the target, and the result describes it |
| UploadAnswers.WriteAnswersExactly | internal/fileupload/upload.go:93-291 | for every call, tree and fault: each error, and success, if and only if its condition holds, in both branches |
| UploadAnswers.MkdirSucceedsIff | internal/fileupload/upload.go:179-183 | making directories succeeds if and only if it meets no fault and no file in the way |
| UploadSpec.BranchesAgreeIff | internal/fileupload/upload.go:131-220 | the branch with a limit returns and leaves what the other does if and only if the limit does not bind, the walk succeeds and no failed mkdir hides a denial |
| UploadRuns.LimitKept | internal/fileupload/upload.go:116-190 | in every interleaving of calls that cannot strand bytes, any step failing: total size at most max(limit, initial) when the mutex is free; inside the mutex more only while the temporary file exists, and then by at most the size of the file being replaced |
| UploadLimit.LimitKeptIff | internal/fileupload/upload.go:116-190 | given calls keep the limit on every tree in every interleaving if and only if none of them strands bytes |
| UploadLimit.LimitKeptByRule | internal/fileupload/upload.go:146-190 | over all calls, whatever else fails, the limit is kept if and only if removals work or no upload overwrites |
| UploadRuns.LimitWithLeftovers | internal/fileupload/upload.go:247-254 | with failing cleanups too, the limit is exceeded by at most one file |
| UploadVisibility.AtomicReplacement | internal/fileupload/upload.go:229-291 | at every moment of every interleaving every path but a temporary one is as it was, a new directory, or all of one renamed upload with its mode, and the last once an upload of it has succeeded |
| UploadNoClobber.NoClobber | internal/fileupload/upload.go:146-162 | with a limit, of concurrent Overwrite=false uploads to one path whose stats do not fail at most one succeeds and its bytes stay |
| UploadNoClobber.OneWinnerIffLimitedAndSeen | internal/fileupload/upload.go:107-162 | whatever fails: at most one winner in every run if and only if a total limit is configured and stats of these uploads cannot fail |
| UploadNoClobber.OverwrittenIsExact | internal/fileupload/upload.go:158-162 | with a limit, at the rename the overwritten flag is true exactly when a file is there and its stat did not fail |
| UploadNoClobber.FailedStatClobbers | internal/fileupload/upload.go:146-162 | a failing stat makes an Overwrite=false upload replace the file and report it as new |
| UploadSteps.AloneIsWrite | internal/fileupload/upload.go:93-291 | a thread that nobody interrupts returns and leaves what Write returns and leaves |
| UploadTool.SizeChecksExact | internal/mcp/upload_tool.go:139 | content, with any number of line-break characters in its text, passes both size checks if and only if its groups of three plus one for every four breaks are within the limit |
| UploadTool.AcceptedLimitFits | internal/config/config.go:224-232 | a limit the configuration accepts leaves room in the body for the text of every file within it |
| UploadTool.LimitAcceptedExactly | internal/config/config.go:224-232 | a limit is accepted if and only if it is positive and four thirds of it fit the body less the reserve |
| Paths.InsideIsComponentPrefix | internal/service/purge.go:104-106 | the string prefix test is the prefix relation on path components |
| Paths.AncestorIsComponentPrefix | internal/service/purge.go:121-126 | isEqualOrAncestor decides the same relation |
| Paths.EqualityTestRedundant | internal/service/purge.go:107-110 | the equality test never decides anything |
| Paths.CleanExact | internal/service/purge.go:58 | Clean leaves alone exactly the root and the paths of proper names, and returns one of those |
| PurgeRuns.ChecksBeforeDestruction | internal/service/systemd.go:326-412 | no account and no tree is touched unless privilege, confirmation, stop, uninstall, paths and account have passed, and with a sink not before a record that says whether the account was seen and which configured directories were |
| PurgeRuns.PurgeSucceedsExactly | internal/service/systemd.go:326-428 | the condition of success by privileges, faults, account and the state, configuration and, on Darwin, log directory; then exactly what lies below them is gone, and what else remains |
| PurgeRuns.PurgeReportsExactly | internal/service/systemd.go:405-427 | the report of a success names exactly these directories, each removed or absent by what stat saw, and what was done |
| PurgeRuns.PurgeFailsExactly | internal/service/launchd.go:196-270 | which error is returned for which cause, in order, and what is untouched then |
| PurgeRuns.PurgeStopsExactly | internal/service/systemd.go:405-411 | when the k-th directory cannot be removed: those before it are gone, of it what could not be removed is left, those after it are untouched, and the report says so |
| PurgeRuns.TrailExact | internal/service/systemd.go:326-428 | a success does exactly the effects its inputs call for: stop, unit, drop-in, record, account, and the configured trees |
| PurgeRuns.SuccessExact | internal/service/systemd.go:326-428 | when a run succeeds, and exactly what account, service, drop-in and paths remain |
| PurgeRuns.ReportExact | internal/service/systemd.go:405-427 | on success removed and absent directories split the configured ones, by what stat saw |
| PurgeRuns.OnlyConfiguredPaths | internal/service/launchd.go:196-287 | in every run nothing is created, only checked directories lose paths, and only the daemon's own account is deleted |
| PurgeRuns.RetryConverges | internal/service/launchd.go:196-287 | after any failed attempts a run by root in which no step fails and the path check passes succeeds and leaves no account, no unit and nothing below the directories, unless the account is somebody else's |
| PurgeRuns.RetryFromStart | internal/service/launchd.go:196-287 | the same with nothing assumed of the path check but that it would have passed before the first attempt |
| PurgeRuns.ForeignBlocks | internal/service/systemd.go:378-385 | somebody else's account with the name survives any attempts and stops the faultless run with a mismatch |
| PurgeRuns.DropInLeaks | internal/service/systemd.go:213-221 | a run that fails on the drop-in leaves it behind every later successful run |
| CappedWriter.CapturesPrefix | internal/cmdexec/cappedwriter.go:30-57 | for every cap and every cut into chunks the capture is the first min(cap, total) bytes |
| CappedWriter.ChunkingIrrelevant | internal/cmdexec/cappedwriter.go:30-57 | equal output, cut differently, is captured alike |
| RateLimit.Limiters.Allow | internal/server/ratelimit.go:53-71 | allowed if and only if key and address both hold a token; the key pays whenever it can, the address is charged, or noticed at all, only if the key could pay, and nobody else pays; last-seen times are set |
| RateLimit.Limiters.Gc | internal/server/ratelimit.go:109-122 | exactly the entries idle for longer than the TTL are gone from both tables, and the others are unchanged |
| RateLimit.Limiters.DropIdle | internal/server/ratelimit.go:109-122 | the deletion loop, in any iteration order, keeps exactly the entries that are not idle |
| KeyDisk.Disk.WriteTemp | internal/keystore/keystore.go:326-369 | up to the rename every state the call passes through differs at most in the temporary name, and on success it holds all of the data, synced, mode 0600; the temporary file never holds anything under a mode wider than 0600 |
| KeyDisk.Disk.WriteDB | internal/keystore/keystore.go:326-381 | success and failure decided by the failing step; in every state the call passes through the path is bound to the whole old or the whole new file |
| KeyStore.Store.AcquireLock | internal/keystore/lock.go:25-54 | shared mode on a missing file takes no lock, exclusive mode creates the file, the database seen does not change |
| KeyStore.Store.ReadDB | internal/keystore/keystore.go:301-319 | the empty database for a missing or empty file, the corrupt error for bytes that do not parse or a failed read, else what they parse to |
| KeyStore.Store.WriteDB | internal/keystore/keystore.go:326-381 | nil means the new database is what every reader sees, an error means the old one still is |
| KeyStore.Store.GenerateID | internal/keystore/crypto.go:49-61 | the first random id that is not in use |
| KeyStore.Store.Create | internal/keystore/keystore.go:65-115 | exactly when it succeeds, and then the database is the old one with the new record appended; any error leaves it alone; a crash at any moment, the creation of the lock file included, shows the old or the new database; which error is returned for which cause, and the file byte for byte unchanged on every one; the record holds the hash of body and salt |
| KeyStore.Store.Revoke | internal/keystore/keystore.go:152-183 | not found, already revoked, or one record revoked and all others unchanged; any error leaves the database alone; a crash at any moment shows the old or the new database; which error is returned for which cause, and the file unchanged on every one |
| KeyStore.Store.Verify | internal/keystore/keystore.go:189-236 | the loop over all records reports the last active match; only the buffer changes, and only for a match; a damaged file is the corrupt error |
| KeyStore.Store.TakeSnapshot | internal/keystore/keystore.go:244-255 | the whole buffer moves to the snapshot |
| KeyStore.Store.Restore | internal/keystore/keystore.go:257-268 | a snapshot goes back without overwriting newer entries, in any iteration order |
| KeyStore.Store.Persist | internal/keystore/keystore.go:257-296 | the locked phase: the snapshot is on disk, back in the buffer, or lost, and exactly when; a crash at any moment shows the old or the new database; each active record of the snapshot gets its time and nothing else changes; the file unchanged on every error |
| KeyStore.Store.FlushUsage | internal/keystore/keystore.go:244-296 | both phases together; a crash at any moment shows the old or the new database |
| KeyRuns.StepCreate | internal/keystore/keystore.go:65-115 | a call of Create on the object is one legal step of the key machine |
| KeyRuns.StepRevoke | internal/keystore/keystore.go:152-183 | a call of Revoke on the object is one step of the key machine |
| KeyRuns.StepVerify | internal/keystore/keystore.go:189-236 | a call of Verify on the object is one step of the key machine, or none after an error |
| KeyRuns.StepFlush | internal/keystore/keystore.go:244-296 | a call of FlushUsage on the object is two steps of the key machine |
| UploadWriter.FileUpload.RootMutex | internal/fileupload/quota.go:44-48 | one mutex per root path, the same one for every later call |
| UploadWriter.FileUpload.CurrentBytes | internal/fileupload/quota.go:59-89 | the walk, in any order, adds up the sizes of all regular files, or fails |
| UploadWriter.FileUpload.DoWrite | internal/fileupload/upload.go:229-291 | outcome and tree, with the deferred cleanup on every failing path |
| UploadWriter.FileUpload.WriteWithQuota | internal/fileupload/upload.go:131-190 | stat, walk, compare, mkdir, write: outcome and tree |
| UploadWriter.FileUpload.WriteUnderRoot | internal/fileupload/upload.go:194-220 | mkdir, stat, write: outcome and tree |
| UploadWriter.FileUpload.Write | internal/fileupload/upload.go:93-122 | outcome and tree of the whole call; every mutex is free again on every path |
| UploadTool.Tool.Handle | internal/mcp/upload_tool.go:99-292 | exactly one record besides the root warning; record, answer and tree agree; a denial leaves the tree as it was, a failure every file; each refusal by its cause and in order, the mode that is used, and which errors are recorded as denials |
| Pipeline.Server.Contains | internal/server/middleware.go:139-147 | found if and only if some entry agrees up to case |
| Pipeline.Server.OriginAllowed | internal/server/middleware.go:158-170 | allowed if and only if the origin parses to a non-empty listed host |
| Pipeline.Server.Charge | internal/server/middleware.go:107-136 | one record either way, the limiter charged once, the mux called if and only if the call is allowed |
| Pipeline.Server.Auth | internal/server/auth.go:82-154 | every refusal with its status and record, and what a pass hands on; the usage buffer changes only for a pass |
| Pipeline.Server.Handle | internal/server/server.go:95-117 | the composed chain, by the request, the lists and the records: an unlisted host or origin, a missing token, a store error, an unknown or revoked key each get their status and one record and touch nothing else; a key that opens an active record is charged under its fingerprint and address, and the mux is called if and only if the record is a success |
| PipelineRuns.StepHandle | internal/server/server.go:95-117 | a call of the chain on the object is an arrival and a charge of the server machine |
| Paths.ValidatePurgePath | internal/service/purge.go:56-113 | accepted if and only if the path is absolute without empty or dot pieces, is not $HOME or above it, is none of the fourteen blocked roots, and is missing or resolves to or below an allowed root |
| Purge.Machine.Uninstall | internal/service/systemd.go:194-226 | what is gone and what is left at each failure; nothing happens without a unit file |
| Purge.Machine.CheckPaths | internal/service/systemd.go:369-376 | every directory passes the path check, or the run is refused |
| Purge.Machine.SweepDirs | internal/service/systemd.go:405-424 | the removal loop up to its first failure: paths left, both lists, effects |
| Purge.Machine.Purge | internal/service/systemd.go:326-428 | host, effects, report and error of the whole run for every combination of faults, on both platforms |
| Purge.Machine.Destroy | internal/service/launchd.go:245-287 | the half from the audit record on: host, effects, report and error |
| CappedWriter.Writer.Write | internal/cmdexec/cappedwriter.go:30-57 | reports the full length and adds what still fits |
| CappedWriter.Writer.WriteAll | internal/cmdexec/cappedwriter.go:30-57 | after any writes the buffer is the first cap bytes of all of them, truncated if and only if there were more |
| KeyRuns.StepSnapshot | internal/keystore/keystore.go:244-255 | the first phase of a flush on the object is one step of the key machine |
| KeyRuns.StepPersist | internal/keystore/keystore.go:257-296 | the second phase of any flush in flight on the object is one step of the key machine, whatever came in between |
| RateLimit.SpendLevels | internal/server/ratelimit.go:53-71 | a call passes exactly when its party has a token, costs it one, and costs no other party anything |
| RateLimit.SweepLevels | internal/server/ratelimit.go:109-122 | with ttl * rate >= burst a sweep changes nobody's tokens |
| RateLimit.SimulationRun | internal/server/ratelimit.go:53-122 | from any two tables with equal levels, a run with sweeps and the same run without them give the same answers |
| RateLimit.WindowStart | internal/server/ratelimit.go:53-122 | in every run from empty tables and every window, a key or an address gets at most burst + rate * length |
| KeyDb.ScanFindsLast | internal/keystore/keystore.go:204-223 | Verify finds a key if and only if some active record matches, and reports the last one that does |
| KeyDb.SaltedInjective | internal/keystore/crypto.go:63-72 | with salts of one length, body and salt can be read back from their concatenation |
| KeyUsage.TwoFlushersLose | internal/keystore/keystore.go:244-296 | a run without any failure and never more than two flushes in flight puts an older time over a newer one |
| KeyLock.ExclusiveWithoutStaleGrants | internal/keystore/lock.go:17-54 | from any exclusive state, without a stale grant, exclusion stays and the path holds the confirmed updates in the order of their renames |
| KeyLock.TwoInside | internal/keystore/lock.go:45-54 | a reachable state with two processes inside, one on the replaced file |
| UploadLimit.LimitNeedsCleanup | internal/fileupload/upload.go:247-254 | for every configuration and every call that strands bytes, beside any others, some root and schedule end over the limit with the mutex free |
| UploadNoClobber.BothCanSucceed | internal/fileupload/upload.go:194-220 | without a limit two Overwrite=false uploads of one new path can both report success |
| UploadNoClobber.OneWinnerIffLimited | internal/fileupload/upload.go:107-122 | provided no stat of these uploads fails, at most one winner in every run if and only if a total limit is configured |
| Pipeline.PassIsOwnership | internal/server/auth.go:101-138 | behind host and origin checks a request passes if and only if it presents a body issued under an active id, under that body's fingerprint; otherwise it gets the one 401 answer |
| PipelineSafety.GrantedIsAccepted | internal/server/middleware.go:107-136 | the success records of a run are what the limiter alone would accept |
| PipelineSafety.SuccessesBounded | internal/server/server.go:95-109 | with ttl * rate >= burst, in every run and window the success records of a key, or of an address, number at most burst + rate * length |
| PipelineBound.ServedAsAccepted | internal/server/server.go:95-109 | for any request the gate admits, every run of the limiter with its key and address is a run of the server that serves what the limiter accepts |
| PurgeRuns.ClearStays | internal/service/purge.go:84-92 | what earlier runs removed never makes a later path check fail |

## Left out

- RateLimit.Limiters.Allow: one time per call; the skew between the time taken before the mutex and the one the bucket reads, and floating-point rounding of tokens, are not modelled. Table entries are values, not pointers, which no caller can tell apart here because every access is under the mutex.
- KeyStore.Store.Verify: one atomic step per call; the original reads the clock before it takes the mutex (internal/keystore/keystore.go:227-229), so of two simultaneous calls for one key the earlier time can be buffered last. `latest` in `KeyUsage` is the time buffered last, and only rows that name a ticking clock assume that times increase.
- KeyUsage.ConservedIffUndisturbed: needs a clock that ticks between uses, because with equal times an older copy is as good; without it `KeyUsage.UsageConserved` gives one direction.
- KeyRuns.HistoryRun: the store's own runs take each locked operation as one step, assuming the exclusion lock.go promises; `KeyLock.ExclusiveIffNeverStale` says exactly when it holds and `KeyLock.CanLoseIffTwoProcesses` that it cannot be relied on beside a second writer.
- UploadRuns.LimitKept: assumes that random temporary names are fresh.
- UploadSpec.WriteEffect: the upload tree holds directories and regular files only, and relative paths are cleaned; `os.Root.Stat` follows a symlink that `Rename` replaces, and an uncleaned `a/..` behaves differently in the two branches. Directory modes, umask on directories and the directory sync are not part of the tree.
- Pipeline.Server.Handle: panics, body limits, health endpoint and the handlers behind the mux are one status number; server runs put the success record and the mux call in the step of the charge.
- Purge.Machine.Purge: stat errors other than "does not exist" on the unit file, and directories reached through symlinked parents, are not modelled; the account query answers with a class (own, foreign, none) instead of a passwd or dscl line. The removal loop and the path loop of both platforms are one loop over the platform's list.
- KeyStore.Store.Create: `generateID` draws from a given sequence of random ids that holds a fresh one; the original loops until it finds one.
- SHA-256, base64, JSON, URL parsing, lower-casing and white-space trimming are parameters, assumed collision-free and faithful only where a row or a `requires` says so.
- 64-bit overflow of byte sums and sizes: integers are unbounded; time is an integer in the key store and a real number in the limiter.
- `Open` and `List` of the key store: one-branch reads with nothing beyond `ReadDB`.
- The goroutine that calls `gc` periodically, and graceful shutdown itself: the machines allow a sweep or a flush at any point.
- Process launching and process groups, TLS and certificates, configuration loading other than the size ceiling, install, service templates, status output and all commands of the CLI: interface or kernel behaviour without a property of this kind.
- `ParseMode` and the account-line parsers: chains of checks on one value.
