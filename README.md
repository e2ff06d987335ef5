# Network time sync and USB-gadget file helpers of the JetKVM device, in Dafny

This project models two pieces of the JetKVM firmware:

- **Time synchronisation** (`ntp.go`). It covers four parts:
  - the background loop `TimeSyncLoop`, which waits for the network, syncs, and backs off after failures;
  - the one-shot `SyncSystemTime`;
  - the source policy `queryNetworkTime`: DHCP-advertised NTP servers, or the two default servers when DHCP gave a nil list, then two HTTP `Date` endpoints;
  - the build-timestamp check `isTimeSyncNeeded`.
- **USB-gadget file helpers** (`internal/usbgadget/utils.go`): `writeIfDifferent` and `ensureSymlink`. They run over an abstract file system.

Modules:

| file | module | models |
|---|---|---|
| `wrappers.dfy` | `Wrappers` | `Option`, used for Go's nil and `(value, error)` pairs |
| `atoi.dfy` | `Atoi` | `strconv.Atoi`: optional sign, decimal digits, within the range of Go's `int` (32 or 64 bits, a parameter) |
| `build_check.dfy` | `BuildCheck` | `isTimeSyncNeeded` |
| `time_sources.dfy` | `TimeSources` | `queryNetworkTime`, `SyncSystemTime`, the defaults and the HTTP URLs |
| `time_sync_loop.dfy` | `TimeSyncLoop` | the constants, `TimeSyncLoop` as a class over its two package variables |
| `usbgadget_utils.dfy` | `UsbGadgetUtils` | `writeIfDifferent`, `ensureSymlink`, and the OS calls they issue |

Effects are oracles the caller passes in:
- the NTP and HTTP queries are a function from a source to `Option<Time>`. The answer depends only on the source, so a server that DHCP lists twice gives the same answer both times, whereas the code queries it again and the second query may succeed;
- `date -s` is a function from a time to success;
- the DHCP lookup is a value: a list that may be nil, plus an error flag;
- the network readiness flags are a value;
- each OS call of the file helpers has a failure flag.

The loop is modelled in two forms:
- `TimeSync.Iterate`, one pass of the `for {}` body;
- `TimeSync.RunFor`, a finite prefix of the passes, which also counts its `SyncSystemTime` calls.

Both are proved against the pure `Step`/`Trace` functions, and the backoff properties are lemmas about those functions. All durations are whole milliseconds.

Three behaviours of the code are easy to misread:
- A successful sync does not reset the retry interval (ntp.go:91-93).
- After a failure the interval is raised and slept *before* the over-60 s reset. Failures from 0 therefore sleep 5, 10, ..., 60, 65 s, and only the 14th sleeps 5 s again.
- Only a nil DHCP list selects the default servers (ntp.go:115). A non-nil empty list goes straight to the HTTP endpoints.

## Model

| member | source | states |
|---|---|---|
| `Atoi.ParseInt` | ntp.go:39-43 | parsing succeeds exactly for an optional sign followed by at least one digit whose value fits in Go's `int` of the given width, and then yields that value; the empty string fails |
| `Atoi.ParseFormatRoundTrip` | ntp.go:39 | every value of Go's `int`, of either width, written in decimal parses back to itself |
| `Atoi.WidthDecidesRange` | ntp.go:39-43 | a decimal number above the 32-bit maximum parses with a 64-bit `int` and fails with a 32-bit one |
| `Atoi.NonNumericRejected` | ntp.go:39-43 | a string containing a character that is neither a digit nor a sign does not parse |
| `Atoi.BareSignRejected` | ntp.go:39-43 | a lone `+` or `-` does not parse |
| `BuildCheck.IsTimeSyncNeeded` | ntp.go:33-57 | a sync is needed exactly when the build timestamp is empty, is not a well-formed number within Go's `int` of the given width, or lies strictly after the current time |
| `BuildCheck.NeededIffClockBehindBuild` | ntp.go:45-56 | for a timestamp written as a decimal `int`, a sync is needed exactly when the clock is behind the build time |
| `BuildCheck.WideTimestampOn32Bit` | ntp.go:33-57 | with a 32-bit `int` the timestamp 4102444800 always asks for a sync, while with a 64-bit `int` it asks exactly when the clock is behind it |
| `BuildCheck.UnparsableTimestampNeedsSync` | ntp.go:39-43 | the timestamp "abc" always asks for a sync |
| `TimeSources.DefaultsExactlyWhenNil` | ntp.go:110-120 | a nil DHCP list selects `time.cloudflare.com` then `time.apple.com`; a non-nil list is used as given, even when DHCP also reported an error; an empty one leaves only the HTTP endpoints |
| `TimeSources.CandidatesOrdered` | ntp.go:122-133 | the candidates are the NTP servers in list order followed by `http://apple.com` then `http://cloudflare.com`, so there are always at least two |
| `TimeSources.FirstAnswerAt` | ntp.go:122-138 | if the first k sources fail and source k answers, its time is returned and no later source is queried |
| `TimeSources.FirstAnswerNone` | ntp.go:122-139 | if every source fails, every source is queried once, in order, and no time is returned |
| `TimeSources.FirstAnswerSound` | ntp.go:122-139 | the queried sources are a prefix of the candidates with all but the last failing; a time is returned iff some candidate answers, and it is the last queried source's answer |
| `TimeSources.QueryNetworkTime` | ntp.go:109-140 | the two early-returning loops return the first answer in candidate order and issue exactly the queries of that search |
| `TimeSources.SyncOutcomes` | ntp.go:97-107 | the clock is set only with the time found and never when the query failed; the query error occurs iff every candidate fails; a clock-set failure is reported without trying more sources; success iff both the query and the clock set succeed |
| `TimeSources.SyncSystemTime` | ntp.go:97-107 | the call's report and its queries are those of the specified sync |
| `TimeSyncLoop.NotReadyNoSync` | ntp.go:61-70 | a sync is attempted iff `checked` and `Up` both hold; before `checked` the pass sleeps 100 ms, before `Up` 3 s, and the state is unchanged |
| `TimeSyncLoop.FailureBacksOff` | ntp.go:78-89 | a failed sync sleeps the old interval plus 5 s, keeps that raised interval unless it exceeds 60 s, in which case it becomes 0, and leaves the success flag alone |
| `TimeSyncLoop.SuccessKeepsInterval` | ntp.go:91-93 | a successful sync sets the success flag, sleeps one hour and leaves the retry interval unchanged |
| `TimeSyncLoop.StepPreservesValid` | ntp.go:82-87 | every pass keeps the interval a multiple of 5 s within [0, 60 s] |
| `TimeSyncLoop.TracePreservesValid` | ntp.go:59-95 | at the top of every pass of any run the interval is a multiple of 5 s within [0, 60 s] |
| `TimeSyncLoop.NeverReadyNeverSyncs` | ntp.go:60-70 | while the network is never ready the loop makes no sync attempt, sleeps 100 ms or 3 s per pass according to `checked`, and keeps its state |
| `TimeSyncLoop.SuccessIsSticky` | ntp.go:91 | once a sync has succeeded the success flag stays set |
| `TimeSyncLoop.FailuresSawtooth` | ntp.go:82-87 | from interval 5 s * j, the k-th consecutive failure sleeps 5 s * ((j + k) mod 13 + 1), and the interval ends at 5 s * ((j + n) mod 13) |
| `TimeSyncLoop.FailuresFromStart` | ntp.go:82-87 | from program start consecutive failures sleep 5, 10, ..., 60, 65 s and then 5 s again |
| `TimeSyncLoop.TimeSync.constructor` | ntp.go:25-26 | the retry interval starts at 0 and the success flag false |
| `TimeSyncLoop.TimeSync.Iterate` | ntp.go:60-94 | one pass updates the two variables and sleeps as the step specifies, calls `SyncSystemTime` only when the step attempts a sync, and keeps the interval invariant |
| `TimeSyncLoop.TimeSync.RunFor` | ntp.go:59-95 | a run of passes ends in the state, sleeps and number of `SyncSystemTime` calls the trace specifies |
| `UsbGadgetUtils.ContentMatchesMeaning` | internal/usbgadget/utils.go:47-57 | the skip test holds exactly when the old content equals the new content or the new content followed by one newline |
| `UsbGadgetUtils.NewlineToleranceOneWay` | internal/usbgadget/utils.go:52-57 | old content with one extra trailing newline is skipped, while new content with an extra newline, or old content with two, is not |
| `UsbGadgetUtils.WriteIfDifferentSpec` | internal/usbgadget/utils.go:43-63 | nothing is written iff the file was read and matches; a missing or unreadable file is always written; no other path changes; without an error the path holds matching content |
| `UsbGadgetUtils.FileSystem.WriteIfDifferent` | internal/usbgadget/utils.go:43-63 | the stat, read, compare and write sequence changes the entries, returns the error and issues the calls the specification gives |
| `UsbGadgetUtils.RemovesOnlyStale` | internal/usbgadget/utils.go:24-31 | an existing entry is removed iff `Readlink` fails or names another target; a link already pointing at the target is kept |
| `UsbGadgetUtils.LstatFailureStops` | internal/usbgadget/utils.go:32-34 | an `Lstat` error other than not-exist is returned with nothing removed or created |
| `UsbGadgetUtils.SymlinkAttemptedUnlessEarlyError` | internal/usbgadget/utils.go:23-41 | a failed remove is returned without creating the link; otherwise the link creation is always the last call, and success leaves the link pointing at the target with every other path unchanged |
| `UsbGadgetUtils.AlreadyLinkedFails` | internal/usbgadget/utils.go:24-38 | as written, a link already pointing at the target leads to a failed `Symlink` call and an error |
| `UsbGadgetUtils.CorrectedIsIdempotent` | internal/usbgadget/utils.go:23-41 | with the already-correct case returning success, a fault-free call leaves the link pointing at the target, and a second call succeeds without changing anything |
| `UsbGadgetUtils.FileSystem.EnsureSymlink` | internal/usbgadget/utils.go:23-41 | the lstat, readlink, remove and symlink sequence changes the entries, returns the error and issues the calls the specification gives |

## Findings

| source | as written | input that shows it | evidently intended | confidence | as-written member | corrected member |
|---|---|---|---|---|---|---|
| internal/usbgadget/utils.go:24-38 | an entry that already links to `target` is kept, and then `os.Symlink` is called on the occupied path, which fails | `linkPath` is already a symlink to `target`, and no OS call fails for another reason | return success when the link already points at `target` | not executed; `symlink(2)` refuses an existing path with EEXIST | `UsbGadgetUtils.AlreadyLinkedFails` | `UsbGadgetUtils.CorrectedIsIdempotent` |

## Left out

- `queryNtpServer` (ntp.go:142-148), `queryHttpTime` (ntp.go:150-164) and `setSystemTime` (ntp.go:166-173) are oracles. The NTP wire protocol, HTTP requests, RFC 1123 date parsing, time formatting and the `date -s` process are not modelled.
- `getNTPServersFromDHCPInfo` and `networkState` are not part of this model. They are inputs.
- The 2 s per-query timeout (`SyncTimeoutMs`) is a constant of the model, but it is not passed to the oracle. The oracle stands for a query made with that timeout.
- The endless `for {}` of `TimeSyncLoop` is modelled as finite prefixes of passes. Non-termination is not modelled.
- The `isTimeSyncNeeded()` call at ntp.go:73 is not part of `Iterate`, because its result is discarded and it has no effect on state.
- Logging is not modelled. Neither are the `time.Now`/`time.Since` measurements at ntp.go:76 and ntp.go:92, which only feed a log line.
- `Atoi.ParseInt`: the width of Go's `int` is not fixed by the code; it is a parameter (32 or 64). A 32-bit target accepts only timestamps up to 2147483647 (2038-01-19), and a later build timestamp fails to parse there, so a sync is always reported as needed. `WideTimestampOn32Bit` states this.
- `BuildCheck.IsTimeSyncNeeded`: the current time is an input in Unix nanoseconds. The overflow inside `time.Unix` for timestamps near the int64 limits is not modelled.
- Durations are unbounded integers of milliseconds. Go's int64 nanosecond `Duration` cannot overflow at these magnitudes.
- `abs` (internal/usbgadget/utils.go:11-16) is not modelled. It is floating-point arithmetic.
- `joinPath` (internal/usbgadget/utils.go:18-21) is not modelled. It depends on `filepath.Join`'s path cleaning.
- The file system is a map from paths to entries. It does not follow symlinks: for `writeIfDifferent` on a path that is a symlink, the code's `os.Stat`, `os.ReadFile` and `os.WriteFile` act on the link's target and keep the link, while the model reads such a path as unreadable and a successful write replaces the link with a regular file. It has no directories with contents, permission bits (`permMode`) or concurrent writers. OS failures the map cannot explain are oracle flags.
