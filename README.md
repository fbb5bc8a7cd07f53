# GDB launch test harness: a Dafny model

This project models the sequential logic at the core of the Eclipse CDT GDB test
harness (`LaunchGDB`, `SessionEventListener`, `BreakpointUtil`, `DebugHelper`).
The Eclipse platform, the debugger processes and the file system do not appear in
the model. What their calls return becomes an input: a sequence of lines, a sequence
of events, a probe function or an oracle.

The modules, one file each:

- `Common` (`common.dfy`): `Option` (Java's null), and the `String` operations the
  harness relies on: `indexOf`/`contains`, `startsWith` and `trim`.
- `LineTags` (`line_tags.dfy`): the source-tag scan behind `resolveLineTagLocations`.
  It is given as a specification function `Resolve`, with lemmas for success, "found
  twice" and "not found". A `HashSet`'s iteration order is an explicit parameter
  `order`, and every property holds for every order.
- `LaunchConfig` (`launch_config.dfy`): three pieces of launch configuration.
  - Program-path naming, with its inverse in the version argument.
  - The default launch attributes overlaid by the global ones.
  - The start-mode checks, and the decision to start gdbserver and its command line.
- `GdbServer` (`gdb_server.dfy`): the loop that reads gdbserver's stderr until it is
  ready, proved against "first ready line".
- `SessionListener` (`session_listener.dfy`): the rendezvous detector. It is a class
  whose methods update the listener's fields, proved against a fold `Run` of the pure
  step `Dispatch` over the delivered events.
- `Breakpoints` (`breakpoints.dfy`): the breakpoint manager as a class over a sequence
  of breakpoint values. A `handle` stands for object identity. The module holds find,
  toggle, set-enabled/restore and remove.
- `DebugHelper` (`debug_helper.dfy`): the breakpoint filters, enable-all, remove-all,
  and the launch-manager clean-up.
- `LaunchGdb` (`launch_gdb.dfy`): the parts of `LaunchGDB` that hold state.
  - Class `LaunchStatics` holds the static fields: the global attributes, the version
    cache, `fLaunch` and the gdbserver process.
  - Class `LaunchGdb` holds the per-test fields.
  - The module also has the termination poll, the version cache with negative
    caching, the "first launch wins" rule for the initial stopped event, and
    `doLaunchInner`.

Paths in the table are relative to the repository root. `LaunchGDB.java`,
`DebugHelper.java` and `SessionEventListener.java` are under
`org.eclipse.cdt.tests.dsf.gdb/src/org/eclipse/cdt/tests/dsf/gdb/framework/`.
`BreakpointUtil.java` is under `org.eclipse.cdt.tests.dsf.gdb/src/tde/debug/`.

Behaviours of the code that the model keeps:

- Tag resolution raises "found twice" when a tag matched in the file is already in
  the table from an earlier call that was not followed by `clearLineTags`.
- Because of the `break`, a line that contains two pending tags records only one of
  them. The other tag can only be recorded at a later line that contains it, or it is
  reported as not found, so "earliest occurrence wins" is guaranteed when no line holds
  two requested tags (`ResolveFirstOccurrence`).
- The gdbserver readiness test is "the trimmed line starts with `Listening on
  port`".
- A parsed version and "not found" are cached for good; a cached null version (gdb
  ran but no version was parsed) is probed again.
- A rendezvous failure is not followed by terminating the launch. See Findings.

## Model

| member | source | states |
|---|---|---|
| Common.IndexOf | org.eclipse.cdt.tests.dsf.gdb/src/org/eclipse/cdt/tests/dsf/gdb/framework/SessionEventListener.java:87 | `indexOf` is -1 exactly when the symbol does not occur; otherwise it is the first offset where it occurs |
| Common.TrimEndsUntrimmed | org.eclipse.cdt.tests.dsf.gdb/src/org/eclipse/cdt/tests/dsf/gdb/framework/LaunchGDB.java:570 | a non-empty trimmed line neither starts nor ends with a character up to the space |
| Common.TrimIsSubstring | org.eclipse.cdt.tests.dsf.gdb/src/org/eclipse/cdt/tests/dsf/gdb/framework/LaunchGDB.java:570 | the trimmed line is a contiguous slice of the line, and only trimmable characters lie outside it |
| LineTags.FirstPendingMatch | org.eclipse.cdt.tests.dsf.gdb/src/org/eclipse/cdt/tests/dsf/gdb/framework/LaunchGDB.java:312-320 | the tag the inner loop picks is pending and contained in the line; when none is picked, no pending tag is contained |
| LineTags.ScanLine | org.eclipse.cdt.tests.dsf.gdb/src/org/eclipse/cdt/tests/dsf/gdb/framework/LaunchGDB.java:312-321 | one line keeps the earlier entries and records at most one tag, a pending one the line contains, at this line number; "found twice" names a pending tag of this line already in the table, and then nothing else changes |
| LineTags.Scan | org.eclipse.cdt.tests.dsf.gdb/src/org/eclipse/cdt/tests/dsf/gdb/framework/LaunchGDB.java:308-323 | over any number of lines, pending tags only leave, every tag that left is in the table, and earlier entries keep their line numbers |
| LineTags.ScanKeepsInv | org.eclipse.cdt.tests.dsf.gdb/src/org/eclipse/cdt/tests/dsf/gdb/framework/LaunchGDB.java:308-323 | after any number of lines: earlier entries are kept; each resolved tag sits on a scanned line that contains it; resolved tags have distinct lines; every scanned line that held a pending tag recorded some tag |
| LineTags.ScanStaysAfterTwice | org.eclipse.cdt.tests.dsf.gdb/src/org/eclipse/cdt/tests/dsf/gdb/framework/LaunchGDB.java:314-317 | once a tag is found twice the scan stops: later lines change nothing |
| LineTags.Resolve | org.eclipse.cdt.tests.dsf.gdb/src/org/eclipse/cdt/tests/dsf/gdb/framework/LaunchGDB.java:304-330 | whatever the outcome, table entries from earlier calls keep their line numbers; on success every requested tag is in the table; an error is "found twice" or "not found" with a non-empty set of requested tags |
| LineTags.ResolveSuccess | org.eclipse.cdt.tests.dsf.gdb/src/org/eclipse/cdt/tests/dsf/gdb/framework/LaunchGDB.java:308-323 | on success the new keys are exactly the requested tags; each maps to a line containing it; distinct tags get distinct lines; an earlier line containing a tag recorded a different tag |
| LineTags.ResolveFoundTwice | org.eclipse.cdt.tests.dsf.gdb/src/org/eclipse/cdt/tests/dsf/gdb/framework/LaunchGDB.java:314-317 | "found twice" names a requested tag that was already in the table before the call |
| LineTags.ResolveNotFound | org.eclipse.cdt.tests.dsf.gdb/src/org/eclipse/cdt/tests/dsf/gdb/framework/LaunchGDB.java:325-328 | "not found" names exactly the requested tags left unresolved, never none; each line containing one of them recorded another tag |
| LineTags.ResolveFirstOccurrence | org.eclipse.cdt.tests.dsf.gdb/src/org/eclipse/cdt/tests/dsf/gdb/framework/LaunchGDB.java:308-321 | with fresh tags that all occur and no line holding two of them, resolution succeeds and each tag maps to the first line containing it |
| LaunchConfig.GetProgramPath | org.eclipse.cdt.tests.dsf.gdb/src/org/eclipse/cdt/tests/dsf/gdb/framework/LaunchGDB.java:184-195 | the path starts with `gdbPath + "/"` when the property is set, and ends in ".exe" on Windows |
| LaunchConfig.ProgramPathShape | org.eclipse.cdt.tests.dsf.gdb/src/org/eclipse/cdt/tests/dsf/gdb/framework/LaunchGDB.java:188-193 | the path is the directory prefix, the name, the version postfix and the extension, in that order |
| LaunchConfig.PostfixRoundTrip | org.eclipse.cdt.tests.dsf.gdb/src/org/eclipse/cdt/tests/dsf/gdb/framework/LaunchGDB.java:189 | the version is recovered from its postfix ("default" from the empty postfix) |
| LaunchConfig.ProgramPathRoundTrip | org.eclipse.cdt.tests.dsf.gdb/src/org/eclipse/cdt/tests/dsf/gdb/framework/LaunchGDB.java:184-195 | `VersionOfProgramPath` inverts `GetProgramPath` in its version argument |
| LaunchConfig.DistinctVersionsDistinctPaths | org.eclipse.cdt.tests.dsf.gdb/src/org/eclipse/cdt/tests/dsf/gdb/framework/LaunchGDB.java:184-195 | different versions never name the same program |
| LaunchConfig.DefaultLaunchAttributes | org.eclipse.cdt.tests.dsf.gdb/src/org/eclipse/cdt/tests/dsf/gdb/framework/LaunchGDB.java:272-289 | the fresh map holds exactly the ten default keys |
| LaunchConfig.MergeLaunchAttributes | org.eclipse.cdt.tests.dsf.gdb/src/org/eclipse/cdt/tests/dsf/gdb/framework/LaunchGDB.java:270-293 | after `putAll` the keys are the defaults plus the globals; a global value wins on a shared key; other default keys keep their default |
| LaunchConfig.RemoteIffGlobalRemote | org.eclipse.cdt.tests.dsf.gdb/src/org/eclipse/cdt/tests/dsf/gdb/framework/LaunchGDB.java:224-227 | a launch is remote exactly when a global start mode "remote" was set |
| LaunchConfig.PostMortemIffGlobalCore | org.eclipse.cdt.tests.dsf.gdb/src/org/eclipse/cdt/tests/dsf/gdb/framework/LaunchGDB.java:396-397 | a launch is post-mortem exactly when a global start mode "core" was set, and never both post-mortem and remote |
| LaunchConfig.GdbServerPlan | org.eclipse.cdt.tests.dsf.gdb/src/org/eclipse/cdt/tests/dsf/gdb/framework/LaunchGDB.java:544-558 | nothing is started exactly when the launch-gdbserver flag is false, the session is not remote or remote-TCP is not true; past those gates, a cast fails exactly when the server, port or program attribute is not a string; otherwise the command line is server, " :", port, " ", program, an absent attribute reading as "null" |
| LaunchConfig.DefaultRemoteStartsGdbserver | org.eclipse.cdt.tests.dsf.gdb/src/org/eclipse/cdt/tests/dsf/gdb/framework/LaunchGDB.java:553-558 | with only the start mode set to "remote", the command line is `gdbserver :9999 <default program>` |
| LaunchConfig.LocalLaunchStartsNoServer | org.eclipse.cdt.tests.dsf.gdb/src/org/eclipse/cdt/tests/dsf/gdb/framework/LaunchGDB.java:553 | with the default start mode "run", no gdbserver is started |
| GdbServer.FirstFrom | org.eclipse.cdt.tests.dsf.gdb/src/org/eclipse/cdt/tests/dsf/gdb/framework/LaunchGDB.java:566-573 | the index found satisfies the test and no earlier line does; when none is found, no line does |
| GdbServer.AwaitGdbServerReady | org.eclipse.cdt.tests.dsf.gdb/src/org/eclipse/cdt/tests/dsf/gdb/framework/LaunchGDB.java:563-573 | the loop reads up to and including the first line whose trimmed form starts with "Listening on port"; without one it reads the whole stream, and that is not an error |
| SessionListener.FirstMatch | org.eclipse.cdt.tests.dsf.gdb/src/org/eclipse/cdt/tests/dsf/gdb/framework/SessionEventListener.java:86-87 | the index is the first event that qualifies with a frame whose function contains the symbol; none exists when it is absent |
| SessionListener.LastStopOr | org.eclipse.cdt.tests.dsf.gdb/src/org/eclipse/cdt/tests/dsf/gdb/framework/SessionEventListener.java:73 | a stored event other than the default was carried by one of the events |
| SessionListener.Dispatch | org.eclipse.cdt.tests.dsf.gdb/src/org/eclipse/cdt/tests/dsf/gdb/framework/SessionEventListener.java:66-97 | without a session, or for an event that is not a suspended MI event carrying an MI stopped event, nothing changes; otherwise the carried stop overwrites the stored one whatever its frame, the flag becomes set exactly when it was set or the frame matches, and the listener stays subscribed exactly when it was and the frame does not match |
| SessionListener.SuspendedStaysSet | org.eclipse.cdt.tests.dsf.gdb/src/org/eclipse/cdt/tests/dsf/gdb/framework/SessionEventListener.java:90-93 | the flag is monotone: once set it stays set |
| SessionListener.RunWhileListening | org.eclipse.cdt.tests.dsf.gdb/src/org/eclipse/cdt/tests/dsf/gdb/framework/SessionEventListener.java:73-97 | a listening listener keeps the last stop it sees; the first matching event sets the flag, unsubscribes it and stays stored, and later events change nothing |
| SessionListener.SuspendedIffMatchDelivered | org.eclipse.cdt.tests.dsf.gdb/src/org/eclipse/cdt/tests/dsf/gdb/framework/SessionEventListener.java:86-97 | the flag is set exactly when a matching event was delivered, and then the stored event is the first matching one |
| SessionListener.UnsubscribedIgnoresEvents | org.eclipse.cdt.tests.dsf.gdb/src/org/eclipse/cdt/tests/dsf/gdb/framework/SessionEventListener.java:97 | once removed from the session, the listener sees no further events |
| SessionListener.ConnectStopThenMainStop | org.eclipse.cdt.tests.dsf.gdb/src/org/eclipse/cdt/tests/dsf/gdb/framework/SessionEventListener.java:73-97 | a stop outside main is stored but the wait goes on; a following stop in main is stored and ends the wait |
| SessionListener.SessionEventListener.constructor | org.eclipse.cdt.tests.dsf.gdb/src/org/eclipse/cdt/tests/dsf/gdb/framework/SessionEventListener.java:36-38 | a new listener has no session, nothing stored, the flag clear and no subscription |
| SessionListener.SessionEventListener.SetSession | org.eclipse.cdt.tests.dsf.gdb/src/org/eclipse/cdt/tests/dsf/gdb/framework/SessionEventListener.java:40-43 | records the session; its assertion fails exactly for a null session |
| SessionListener.SessionEventListener.SessionStarted | org.eclipse.cdt.tests.dsf.gdb/src/org/eclipse/cdt/tests/dsf/gdb/framework/LaunchGDB.java:400-405 | the session-started callback attaches the session and subscribes the listener, changing nothing else |
| SessionListener.SessionEventListener.EventDispatched | org.eclipse.cdt.tests.dsf.gdb/src/org/eclipse/cdt/tests/dsf/gdb/framework/SessionEventListener.java:46-102 | the new state is `Dispatch` of the old one; the session assertion fails exactly when no session is set |
| SessionListener.SessionEventListener.DeliverAll | org.eclipse.cdt.tests.dsf.gdb/src/org/eclipse/cdt/tests/dsf/gdb/framework/SessionEventListener.java:46-102 | delivering events one by one, only while subscribed, ends in the state `Run` gives |
| SessionListener.SessionEventListener.WaitUntilTargetSuspended | org.eclipse.cdt.tests.dsf.gdb/src/org/eclipse/cdt/tests/dsf/gdb/framework/SessionEventListener.java:104-111 | the wait passes exactly when the flag is set |
| SessionListener.SessionEventListener.GetInitialStoppedEvent | org.eclipse.cdt.tests.dsf.gdb/src/org/eclipse/cdt/tests/dsf/gdb/framework/SessionEventListener.java:113-115 | returns the stored event |
| Breakpoints.FindFrom | org.eclipse.cdt.tests.dsf.gdb/src/tde/debug/BreakpointUtil.java:40-58 | the index found is the first test-plan line breakpoint at the resource and line; none exists when it is absent |
| Breakpoints.FoundBreakpointIsAtTheLine | org.eclipse.cdt.tests.dsf.gdb/src/tde/debug/BreakpointUtil.java:174-190 | nothing is found or active for a null resource or a negative line; a found breakpoint sits at the requested line with its marker on the requested resource |
| Breakpoints.NewTestplanBreakpoint | org.eclipse.cdt.tests.dsf.gdb/src/tde/debug/BreakpointUtil.java:143-172 | an added breakpoint carries the test-plan id, is enabled with the test message, and sits at the resource and line whenever the line is non-negative |
| Breakpoints.RemoveAt | org.eclipse.cdt.tests.dsf.gdb/src/tde/debug/BreakpointUtil.java:154-164 | removal keeps every other breakpoint, in order |
| Breakpoints.Toggle | org.eclipse.cdt.tests.dsf.gdb/src/tde/debug/BreakpointUtil.java:24-38 | a breakpoint is returned exactly when some registered breakpoint is findable there; it is then the first findable one in manager order, and exactly that breakpoint is removed with the others kept in order; otherwise the list grows by the new test-plan breakpoint |
| Breakpoints.ToggleTwiceRestores | org.eclipse.cdt.tests.dsf.gdb/src/tde/debug/BreakpointUtil.java:24-38 | toggling twice where nothing was found adds a breakpoint, then finds and removes it, restoring the list |
| Breakpoints.ToggleAddActivates | org.eclipse.cdt.tests.dsf.gdb/src/tde/debug/BreakpointUtil.java:135-141 | after a toggle that adds, the line is active |
| Breakpoints.SetEnabledWhere | org.eclipse.cdt.tests.dsf.gdb/src/tde/debug/BreakpointUtil.java:79-100 | only the flag changes; it becomes `enabled` exactly on C line breakpoints whose file name equals the resource location |
| Breakpoints.SameFileByLocation | org.eclipse.cdt.tests.dsf.gdb/src/tde/debug/BreakpointUtil.java:192-203 | for a null resource nothing changes and the returned map is empty; two resources with the same location affect the same breakpoints, since only the location is compared with the file name |
| Breakpoints.PreviousUpToSpec | org.eclipse.cdt.tests.dsf.gdb/src/tde/debug/BreakpointUtil.java:83-90 | the returned map holds the previous flag of every affected breakpoint and no other key |
| Breakpoints.Restore | org.eclipse.cdt.tests.dsf.gdb/src/tde/debug/BreakpointUtil.java:102-119 | only flags change, and a flag changes to the value of its non-null key when that value is non-null |
| Breakpoints.Lift | org.eclipse.cdt.tests.dsf.gdb/src/tde/debug/BreakpointUtil.java:83 | the returned map seen as a map with nullable keys and values: same entries, no null key |
| Breakpoints.RestoreUndoesSetEnabled | org.eclipse.cdt.tests.dsf.gdb/src/tde/debug/BreakpointUtil.java:79-119 | restoring with the returned map gives back the original list |
| Breakpoints.RemoveHandle | org.eclipse.cdt.tests.dsf.gdb/src/tde/debug/BreakpointUtil.java:154-164 | unregistering keeps exactly the breakpoints with another identity, and never adds one |
| Breakpoints.RemoveHandleIsRemoveAt | org.eclipse.cdt.tests.dsf.gdb/src/tde/debug/BreakpointUtil.java:154-164 | with distinct identities, removing the identity of the breakpoint at an index removes exactly that breakpoint and keeps the others in order |
| Breakpoints.RemoveHandleKeepsDistinct | org.eclipse.cdt.tests.dsf.gdb/src/tde/debug/BreakpointUtil.java:154-164 | removal keeps identities distinct |
| Breakpoints.NewBreakpointIsTestplan | org.eclipse.cdt.tests.dsf.gdb/src/tde/debug/BreakpointUtil.java:121-133 | an added breakpoint is a test-plan breakpoint of its resource, and of no null resource; after a toggle that adds one, the breakpoint then found at that resource and line is a test-plan breakpoint of the resource |
| Breakpoints.BreakpointManager.FindBreakpoint | org.eclipse.cdt.tests.dsf.gdb/src/tde/debug/BreakpointUtil.java:40-58 | returns the first matching breakpoint in manager order, or null |
| Breakpoints.BreakpointManager.IsActiveTestplanBreakpoint | org.eclipse.cdt.tests.dsf.gdb/src/tde/debug/BreakpointUtil.java:135-141 | true exactly when a breakpoint is found there and it is enabled |
| Breakpoints.BreakpointManager.IsActiveTestplanBreakpointAny | org.eclipse.cdt.tests.dsf.gdb/src/tde/debug/BreakpointUtil.java:60-71 | fails on a null array; otherwise true exactly when some line of it is active |
| Breakpoints.BreakpointManager.ToggleBreakpoint | org.eclipse.cdt.tests.dsf.gdb/src/tde/debug/BreakpointUtil.java:24-38 | fails, changing nothing, on a null resource or a negative line; otherwise the manager and the result are those of `Toggle`: the first findable breakpoint is removed and returned with the others kept in order, or a new one is added and null returned |
| Breakpoints.BreakpointManager.SetAllLineBreakpointsEnabled | org.eclipse.cdt.tests.dsf.gdb/src/tde/debug/BreakpointUtil.java:79-100 | the list becomes `SetEnabledWhere` of the old one, and the result is the map of previous flags |
| Breakpoints.BreakpointManager.RestoreBreakpointsEnabled | org.eclipse.cdt.tests.dsf.gdb/src/tde/debug/BreakpointUtil.java:102-119 | fails on a null map; otherwise the list becomes `Restore` of the old one, whatever order the keys are visited in |
| Breakpoints.BreakpointManager.RemoveBreakpoint | org.eclipse.cdt.tests.dsf.gdb/src/tde/debug/BreakpointUtil.java:154-164 | unregisters the breakpoint with the given identity and keeps the manager valid |
| Breakpoints.BreakpointManager.SetEnabledOf | org.eclipse.cdt.tests.dsf.gdb/src/tde/debug/BreakpointUtil.java:91 | `setEnabled` changes only the flag of the registered breakpoint with the given identity; an identity no longer registered changes nothing (see Left out) |
| DebugHelper.Filter | org.eclipse.cdt.tests.dsf.gdb/src/org/eclipse/cdt/tests/dsf/gdb/framework/DebugHelper.java:51-54 | the result holds exactly the breakpoints satisfying the predicate |
| DebugHelper.FilterConcat | org.eclipse.cdt.tests.dsf.gdb/src/org/eclipse/cdt/tests/dsf/gdb/framework/DebugHelper.java:51-54 | filtering commutes with concatenation, so manager order is kept |
| DebugHelper.FilterAll | org.eclipse.cdt.tests.dsf.gdb/src/org/eclipse/cdt/tests/dsf/gdb/framework/DebugHelper.java:64-67 | a predicate that holds everywhere keeps the whole list |
| DebugHelper.PlatformCFunctionBreakpoints | org.eclipse.cdt.tests.dsf.gdb/src/org/eclipse/cdt/tests/dsf/gdb/framework/DebugHelper.java:56-58 | exactly the C function breakpoints, so none of the C line breakpoints |
| DebugHelper.PlatformCLineBreakpoints | org.eclipse.cdt.tests.dsf.gdb/src/org/eclipse/cdt/tests/dsf/gdb/framework/DebugHelper.java:60-62 | exactly the C line breakpoints (not the function ones), so the two filters share no breakpoint |
| DebugHelper.AllPlatformBreakpoints | org.eclipse.cdt.tests.dsf.gdb/src/org/eclipse/cdt/tests/dsf/gdb/framework/DebugHelper.java:64-67 | equal to the filter with the always-true predicate |
| DebugHelper.DifferingMembers | org.eclipse.cdt.tests.dsf.gdb/src/org/eclipse/cdt/tests/dsf/gdb/framework/DebugHelper.java:80-82 | the identities written are exactly those of breakpoints whose flag differed |
| DebugHelper.ToggleAllPlatformBreakpoints | org.eclipse.cdt.tests.dsf.gdb/src/org/eclipse/cdt/tests/dsf/gdb/framework/DebugHelper.java:76-84 | every flag becomes `enabled`, every breakpoint is otherwise unchanged and keeps its place; the breakpoints written are exactly those that differed |
| DebugHelper.DeleteAllPlatformBreakpoints | org.eclipse.cdt.tests.dsf.gdb/src/org/eclipse/cdt/tests/dsf/gdb/framework/DebugHelper.java:69-74 | removing the breakpoints one at a time leaves the manager empty |
| DebugHelper.RemoveAllPlatformBreakpoints | org.eclipse.cdt.tests.dsf.gdb/src/org/eclipse/cdt/tests/dsf/gdb/framework/DebugHelper.java:93-97 | leaves the manager empty |
| DebugHelper.LaunchManager.RemoveTerminatedLaunches | org.eclipse.cdt.tests.dsf.gdb/src/org/eclipse/cdt/tests/dsf/gdb/framework/DebugHelper.java:99-110 | fails, removing nothing, exactly when some launch is unterminated; otherwise no launch remains |
| DebugHelper.LaunchManager.RemoveLaunchConfigurations | org.eclipse.cdt.tests.dsf.gdb/src/org/eclipse/cdt/tests/dsf/gdb/framework/DebugHelper.java:112-120 | every configuration is deleted; `ok` reports the final `assertEquals`, which therefore always passes (`ok` is always true) |
| LaunchGdb.PollStopFrom | org.eclipse.cdt.tests.dsf.gdb/src/org/eclipse/cdt/tests/dsf/gdb/framework/LaunchGDB.java:471-474 | the poll stops at the first poll where the launch is terminated or the executor is shut down, and after at most 99 sleeps |
| LaunchGdb.TerminatesInTimeIff | org.eclipse.cdt.tests.dsf.gdb/src/org/eclipse/cdt/tests/dsf/gdb/framework/LaunchGDB.java:468-477 | the termination check passes exactly when the launch terminates within 99 sleeps and no later than the executor shuts down |
| LaunchGdb.AssertLaunchTerminates | org.eclipse.cdt.tests.dsf.gdb/src/org/eclipse/cdt/tests/dsf/gdb/framework/LaunchGDB.java:468-477 | a null launch passes at once; otherwise the loop sleeps `PollStop` times and passes exactly when the launch terminated in time |
| LaunchGdb.ImmediateTerminationPasses | org.eclipse.cdt.tests.dsf.gdb/src/org/eclipse/cdt/tests/dsf/gdb/framework/LaunchGDB.java:472-475 | a launch already terminated passes without sleeping |
| LaunchGdb.NeverTerminatingFails | org.eclipse.cdt.tests.dsf.gdb/src/org/eclipse/cdt/tests/dsf/gdb/framework/LaunchGDB.java:471-475 | a launch that never terminates fails, after 99 sleeps when its executor never shuts down |
| LaunchGdb.LookupSpec | org.eclipse.cdt.tests.dsf.gdb/src/org/eclipse/cdt/tests/dsf/gdb/framework/LaunchGDB.java:505-518 | the version returned is what the cache then holds; no other entry changes; the probe runs exactly when there was no non-null entry; "not found" comes only from a hit or an IOException |
| LaunchGdb.NotFoundIsSticky | org.eclipse.cdt.tests.dsf.gdb/src/org/eclipse/cdt/tests/dsf/gdb/framework/LaunchGDB.java:514-516 | after "not found", later lookups return it without probing, whatever the probe would say |
| LaunchGdb.SecondLookupProbesOnlyAfterNull | org.eclipse.cdt.tests.dsf.gdb/src/org/eclipse/cdt/tests/dsf/gdb/framework/LaunchGDB.java:508-512 | a second lookup probes again exactly when the first returned null |
| LaunchGdb.GateLooksUpVersionedGdb | org.eclipse.cdt.tests.dsf.gdb/src/org/eclipse/cdt/tests/dsf/gdb/framework/LaunchGDB.java:247-249 | after the program names are set, the gate's cast succeeds and it looks up a path from which exactly the requested version is read back; with no gdb name it looks up the null key; the cast fails exactly for a name that is not a string |
| LaunchGdb.KeepFirstAllKeepsSet | org.eclipse.cdt.tests.dsf.gdb/src/org/eclipse/cdt/tests/dsf/gdb/framework/LaunchGDB.java:437-442 | once the initial stopped event is set, no later launch changes it |
| LaunchGdb.FirstOfferWins | org.eclipse.cdt.tests.dsf.gdb/src/org/eclipse/cdt/tests/dsf/gdb/framework/LaunchGDB.java:437-442 | the first launch that offers a stopped event sets the field |
| LaunchGdb.AsWrittenLeavesLaunchRunning | org.eclipse.cdt.tests.dsf.gdb/src/org/eclipse/cdt/tests/dsf/gdb/framework/LaunchGDB.java:446-454 | as written, a session that started but reported no stop fails the wait and the launch is never terminated |
| LaunchGdb.AsWrittenNeverCleansUp | org.eclipse.cdt.tests.dsf.gdb/src/org/eclipse/cdt/tests/dsf/gdb/framework/LaunchGDB.java:446-454 | as written, no failure of `doLaunchInner` is followed by a termination |
| LaunchGdb.IntendedCleansUpAndAgrees | org.eclipse.cdt.tests.dsf.gdb/src/org/eclipse/cdt/tests/dsf/gdb/framework/LaunchGDB.java:446-454 | as intended, every rendezvous failure is followed by the termination check; success, and which check fails, agree with the code as written |
| LaunchGdb.RendezvousIffMatchDelivered | org.eclipse.cdt.tests.dsf.gdb/src/org/eclipse/cdt/tests/dsf/gdb/framework/LaunchGDB.java:428-436 | a live launch passes the rendezvous exactly when its session started and delivered a matching stop; the stop kept is the first matching one |
| LaunchGdb.StopSymbolOfLaunch | org.eclipse.cdt.tests.dsf.gdb/src/org/eclipse/cdt/tests/dsf/gdb/framework/SessionEventListener.java:77-84 | for any globals, the symbol a launch waits for is a global string symbol, "main" for a global symbol that is not a string, and the default symbol when no global symbol is set |
| LaunchGdb.ProgramNamesReachTheLaunch | org.eclipse.cdt.tests.dsf.gdb/src/org/eclipse/cdt/tests/dsf/gdb/framework/LaunchGDB.java:178-182 | after the program names are set, a launch names the versioned gdb, and a gdbserver command line is the versioned gdbserver path, " :", the port and the program |
| LaunchGdb.LaunchStatics.constructor | org.eclipse.cdt.tests.dsf.gdb/src/org/eclipse/cdt/tests/dsf/gdb/framework/LaunchGDB.java:75-90 | the statics start empty: no attributes, no cache entries, no launch, no gdbserver |
| LaunchGdb.LaunchStatics.SetGlobalLaunchAttribute | org.eclipse.cdt.tests.dsf.gdb/src/org/eclipse/cdt/tests/dsf/gdb/framework/LaunchGDB.java:145-147 | puts one global attribute and changes nothing else |
| LaunchGdb.LaunchStatics.SetGdbProgramNamesLaunchAttributes | org.eclipse.cdt.tests.dsf.gdb/src/org/eclipse/cdt/tests/dsf/gdb/framework/LaunchGDB.java:178-182 | records the version and the gdb and gdbserver paths as global attributes |
| LaunchGdb.LaunchStatics.GetGdbVersion | org.eclipse.cdt.tests.dsf.gdb/src/org/eclipse/cdt/tests/dsf/gdb/framework/LaunchGDB.java:505-518 | the version and new cache are those of `Lookup`, and the probe runs exactly when `Lookup` says it does |
| LaunchGdb.LaunchStatics.IgnoreIfGdbMissing | org.eclipse.cdt.tests.dsf.gdb/src/org/eclipse/cdt/tests/dsf/gdb/framework/LaunchGDB.java:247-252 | skips exactly when the global gdb's version is "not found"; a name that is not a string fails before any lookup |
| LaunchGdb.LaunchGdb.constructor | org.eclipse.cdt.tests.dsf.gdb/src/org/eclipse/cdt/tests/dsf/gdb/framework/LaunchGDB.java:77-90 | a new test starts with no attributes, no saved configuration, no initial stopped event and an empty tag table |
| LaunchGdb.LaunchGdb.SetLaunchAttributes | org.eclipse.cdt.tests.dsf.gdb/src/org/eclipse/cdt/tests/dsf/gdb/framework/LaunchGDB.java:270-293 | the attributes become the defaults overlaid by the globals, so every default key is present |
| LaunchGdb.LaunchGdb.IsRemoteSession | org.eclipse.cdt.tests.dsf.gdb/src/org/eclipse/cdt/tests/dsf/gdb/framework/LaunchGDB.java:224-227 | true exactly when the start mode equals "remote" |
| LaunchGdb.LaunchGdb.ClearLineTags | org.eclipse.cdt.tests.dsf.gdb/src/org/eclipse/cdt/tests/dsf/gdb/framework/LaunchGDB.java:239-241 | leaves the tag table empty |
| LaunchGdb.LaunchGdb.GetLineForTag | org.eclipse.cdt.tests.dsf.gdb/src/org/eclipse/cdt/tests/dsf/gdb/framework/LaunchGDB.java:341-347 | returns the recorded line, and fails exactly for an unknown tag |
| LaunchGdb.MatchPendingTag | org.eclipse.cdt.tests.dsf.gdb/src/org/eclipse/cdt/tests/dsf/gdb/framework/LaunchGDB.java:312-320 | the inner loop stops at the tag `FirstPendingMatch` names: the first pending tag, in iteration order, that the line contains |
| LaunchGdb.LaunchGdb.ResolveLineTagLocations | org.eclipse.cdt.tests.dsf.gdb/src/org/eclipse/cdt/tests/dsf/gdb/framework/LaunchGDB.java:304-330 | an unreadable file changes nothing; otherwise the table and the error are those of `Resolve` |
| LaunchGdb.LaunchGdb.LaunchGdbServer | org.eclipse.cdt.tests.dsf.gdb/src/org/eclipse/cdt/tests/dsf/gdb/framework/LaunchGDB.java:544-581 | follows `GdbServerPlan`; a started gdbserver is recorded and its stderr read up to the first ready line; otherwise nothing is read |
| LaunchGdb.LaunchGdb.DoLaunchInner | org.eclipse.cdt.tests.dsf.gdb/src/org/eclipse/cdt/tests/dsf/gdb/framework/LaunchGDB.java:393-457 | the outcome is `DoLaunchInnerAsWritten` for the saved configuration's stop symbol and the current attributes' start mode, so a failed check is not followed by terminating the launch; the initial stopped event is set only while it is unset, and only by a successful rendezvous that is not post-mortem |
| LaunchGdb.LaunchGdb.DoLaunch | org.eclipse.cdt.tests.dsf.gdb/src/org/eclipse/cdt/tests/dsf/gdb/framework/LaunchGDB.java:352-367 | starts gdbserver per the plan and records its command line exactly when the plan starts it; on a cast failure nothing else changes; otherwise the launch attributes become the saved configuration, the outcome is `DoLaunchInnerAsWritten` on that configuration (with `initialStoppedEvent` keeping its first stored event), and `fLaunch` becomes the launch only when that outcome is a launch |
| LaunchGdb.LaunchGdb.TerminateGdbLaunch | org.eclipse.cdt.tests.dsf.gdb/src/org/eclipse/cdt/tests/dsf/gdb/framework/LaunchGDB.java:118-125 | when the termination check passes, `fLaunch` is cleared and the breakpoints are removed; when it fails, neither changes |

## Left out

- Wait/notify and real timeouts: `fTargetSuspendedSem`, `massageTimeout` and `Thread.sleep`.
  The listener's flag is read after the session's events are delivered. The race at
  `waitUntilTargetSuspended`, whose flag test sits outside the lock, is not modelled.
- `waitUntil` polls the wall clock. It is not modelled.
- `InterruptedException` from the sleeps and waits is not modelled.
- Process spawning and stream I/O are not modelled.
  - Running `gdb --version` and parsing its output (`doReadGdbVersion`, `getGDBVersionFromText`)
    is the probe parameter of `GetGdbVersion`.
  - gdbserver's stderr is a sequence of lines.
  - The source file of the tag scan is a sequence of lines, or `None` when it cannot be opened.
- LaunchGdb.LaunchGdb.LaunchGdbServer: a failure to spawn gdbserver, and the `assert false` in its
  handler, are not modelled. The process is recorded by its command line.
- Eclipse launch machinery is not modelled:
  - the configuration type and working copy, `doSave`, `fLaunchConfiguration.launch`;
  - the `DsfSession` listener registration;
  - `DebugPlugin.newProcess`, `SyncUtil.initialize` and `validateGdbVersion`.
  A launch is an identity and how its shutdown unfolds. The session starting and
  delivering events are inputs to `DoLaunchInner`.
- LaunchGdb.LaunchGdb.DoLaunch: the `launch == null` dereference when no launch was returned is not
  modelled. A launch is always returned.
- `doGDBLaunch` calls `removeTeminatedLaunches`, `removeAllPlatformBreakpoints`, `setLaunchAttributes`
  and `doLaunch`. It is not modelled as one operation; each of its steps is modelled.
- `setLaunchAttribute`, `removeLaunchAttribute` and `removeGlobalLaunchAttribute` are single map
  updates. They are not modelled separately from `SetGlobalLaunchAttribute`.
- `getGDBLaunch`, `getLaunchConfiguration`, `getLaunchAttribute` and `getGlobalLaunchAttribite`
  are plain getters and are not modelled.
- `gdbserverProc` is never reset by the harness. The model keeps the last command line the same way.
- Preference-store access (`setGlobalPreferences`, `restoreGlobalPreferences`), `supportsNonStop`
  and tracing through `GdbDebugOptions` are not modelled.
- Attribute keys are a datatype, because only their distinctness matters. Attribute values are
  strings, Booleans or integers. A null attribute value is not modelled.
- `TestplanBreakpoint`'s marker plumbing is reduced to "a breakpoint with these attributes is
  registered". `fireBreakpointChanged` notifications are not modelled.
- The breakpoint manager is never null in the model. The null checks in `findBreakpoint`,
  `setAllLineBreakpointsEnabled`, `restoreBreakpointsEnabled` and `removeBreakpoint` therefore
  always pass.
- The `create*Breakpoint` helpers of `DebugHelper` and `BreakpointUtil` are one-line pass-throughs
  to CDT. They are not modelled.
- UI code (`showDebugPerspective`, `printAllBreakpointType`) is not modelled.
- Breakpoints are values: breakpoint objects shared outside the manager (aliasing) are not modelled.
- SetEnabledOf (`Breakpoints.BreakpointManager.SetEnabledOf`): an identity that is no longer
  registered changes nothing. In the code, `setEnabled` on a deleted breakpoint's marker throws
  `CoreException` (`BreakpointUtil.java:113`), so `restoreBreakpointsEnabled` stops at that key
  with the keys visited so far already restored. `Breakpoints.BreakpointManager.RestoreBreakpointsEnabled`
  is therefore modelled only for maps whose breakpoints are all still registered, or as if the
  exception were ignored. Restoring right after `setAllLineBreakpointsEnabled` (`RestoreUndoesSetEnabled`)
  never meets this case.
- Breakpoints.IsSameFile: every resource has a location string. In the code, a resource whose
  `getLocation()` is null makes `isSame` fail on the null dereference (`BreakpointUtil.java:195`).
- Breakpoints.BreakpointManager.SetAllLineBreakpointsEnabled: `enabled` is a `bool`. In the code it
  is a `Boolean`; a null one fails when it is unboxed for `setEnabled`
  (`BreakpointUtil.java:91`), after the first affected breakpoint's previous flag was recorded.
- DebugHelper.ToggleAllPlatformBreakpoints: `enabled` is a `bool`. In the code a null `Boolean`
  fails when it is unboxed for the comparison (`DebugHelper.java:80`) as soon as there is a
  platform breakpoint.
- Breakpoints.BreakpointManager.ToggleBreakpoint: registering the new breakpoint always succeeds.
  In the code `addBreakpoint` catches a `CoreException` from creating the marker, prints it and
  returns (`BreakpointUtil.java:147-151`); the toggle then returns null with nothing added.
- A `HashSet`'s and a `HashMap`'s iteration order is an explicit parameter or an arbitrary choice,
  never a particular hash order.

## Findings

| source | as written | input that shows it | evidently intended | confidence | as-written member | corrected member |
|---|---|---|---|---|---|---|
| org.eclipse.cdt.tests.dsf.gdb/src/org/eclipse/cdt/tests/dsf/gdb/framework/LaunchGDB.java:446-454 | the handler catches `Exception`, but a failed `waitUntilTargetSuspended` or `assertNotNull` throws `AssertionError`, which is not an `Exception`; the launch is never terminated and keeps running into the next test | a launch that is not post-mortem, whose session starts and reports no stop in main before the wait ends | every rendezvous failure terminates the launch and checks its termination before the failure propagates | not executed | LaunchGdb.AsWrittenLeavesLaunchRunning | LaunchGdb.IntendedCleansUpAndAgrees |
