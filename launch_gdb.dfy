/**
  `LaunchGDB`, the base of the GDB tests: the state it keeps between and
  during launches, and the operations over that state.

  The Java class has static fields shared by every test (the global launch
  attributes, the gdb version cache, the current launch `fLaunch`, the
  gdbserver process) and per-test fields (the launch attributes, the launch
  configuration, the first stopped event, the tag table). The statics are the
  class `LaunchStatics`, which every `LaunchGdb` object shares.

  A launch is represented by `GdbLaunch`: an identity and how its termination
  unfolds once `terminate()` has been called. The version probe (running
  `gdb --version` and parsing its output), the source file and gdbserver's
  standard-error stream are parameters.
 */
module LaunchGdb {
  import opened Common
  import opened LineTags
  import opened LaunchConfig
  import opened GdbServer
  import opened SessionListener
  import opened Breakpoints
  import opened DebugHelper

  // ---------------------------------------------------------------- termination poll

  /**
    How a launch's shutdown unfolds: `isTerminated()` holds from poll number `terminatedAfter`
    on, and the DSF executor's `isShutdown()` from poll number `shutdownAfter` on (`None`: never).
    Poll number k is the check made after k sleeps of 100 ms.
   */
  datatype TerminationProbe = TerminationProbe(terminatedAfter: Option<nat>, shutdownAfter: Option<nat>)

  predicate IsTerminatedAt(p: TerminationProbe, k: nat) {
    p.terminatedAfter.Some? && p.terminatedAfter.value <= k
  }

  predicate IsShutdownAt(p: TerminationProbe, k: nat) {
    p.shutdownAfter.Some? && p.shutdownAfter.value <= k
  }

  /** The poll loop stops waiting at poll `k`. */
  predicate IsStoppedAt(p: TerminationProbe, k: nat) {
    IsTerminatedAt(p, k) || IsShutdownAt(p, k)
  }

  /** The initial value of `waitCount`; the pre-decrement in the loop test allows one sleep fewer. */
  const WaitCount := 100
  const MaxSleeps := WaitCount - 1

  /** The poll at which the loop stops, when it has already slept `k` times. */
  function PollStopFrom(p: TerminationProbe, k: nat): (n: nat)
    requires k <= MaxSleeps
    decreases MaxSleeps - k
    ensures k <= n <= MaxSleeps
    ensures forall j :: k <= j < n ==> !IsStoppedAt(p, j)
    ensures n < MaxSleeps ==> IsStoppedAt(p, n)
  {
    if k == MaxSleeps || IsStoppedAt(p, k) then k else PollStopFrom(p, k + 1)
  }

  /** The number of sleeps the loop makes: the first poll at which it may stop, at most 99. */
  function PollStop(p: TerminationProbe): nat {
    PollStopFrom(p, 0)
  }

  /** The final `assertTrue(launch.isTerminated())` passes. */
  predicate TerminatesInTime(p: TerminationProbe) {
    IsTerminatedAt(p, PollStop(p))
  }

  /**
    The poll passes exactly when the launch terminates within 99 sleeps and the executor does
    not shut down strictly before it terminates (the loop would stop there and fail).
   */
  lemma TerminatesInTimeIff(p: TerminationProbe)
    ensures TerminatesInTime(p) <==>
      && p.terminatedAfter.Some?
      && p.terminatedAfter.value <= MaxSleeps
      && (p.shutdownAfter.None? || p.terminatedAfter.value <= p.shutdownAfter.value)
  {
    if p.shutdownAfter.Some? {
      // the poll cannot pass over a shutdown: the loop stops there at the latest
      assert IsStoppedAt(p, p.shutdownAfter.value);
    }
  }

  /**
    `assertLaunchTerminates(launch)`: nothing is checked for a null launch; otherwise the loop
    sleeps until the launch has terminated, its executor has shut down, or `--waitCount` reaches
    zero, and then asserts the launch terminated. `ok` is false when that assertion fails.
   */
  method AssertLaunchTerminates(launch: Option<TerminationProbe>) returns (ok: bool, sleeps: nat)
    ensures launch.None? ==> ok && sleeps == 0
    ensures launch.Some? ==> sleeps == PollStop(launch.value) && sleeps <= MaxSleeps
    ensures launch.Some? ==> (ok <==> TerminatesInTime(launch.value))
  {
    sleeps := 0;
    if launch.None? {
      return true, 0;
    }
    var p := launch.value;
    var waitCount := WaitCount;
    while true
      invariant sleeps <= MaxSleeps && waitCount == WaitCount - sleeps
      invariant PollStopFrom(p, sleeps) == PollStop(p)
      decreases waitCount
    {
      if IsTerminatedAt(p, sleeps) || IsShutdownAt(p, sleeps) {
        break;
      }
      waitCount := waitCount - 1;
      if waitCount <= 0 {
        break;
      }
      sleeps := sleeps + 1;
    }
    ok := IsTerminatedAt(p, sleeps);
  }

  /** A launch that terminates on the first poll passes without sleeping. */
  lemma ImmediateTerminationPasses(p: TerminationProbe)
    requires p.terminatedAfter == Some(0)
    ensures PollStop(p) == 0 && TerminatesInTime(p)
  {
  }

  /** A launch that never terminates fails after the full 99 sleeps unless the executor shuts down first. */
  lemma NeverTerminatingFails(p: TerminationProbe)
    requires p.terminatedAfter.None?
    ensures !TerminatesInTime(p)
    ensures p.shutdownAfter.None? ==> PollStop(p) == MaxSleeps
  {
  }

  // ---------------------------------------------------------------- version cache

  /** What `getGdbVersion` returns: a version string, null, or the `GDB_NOT_FOUND` object itself. */
  datatype GdbVersion = VersionText(text: string) | NullVersion | NotFoundSentinel

  /** What running and parsing `gdb --version` gives: the parsed version (null when none was found) or an IOException. */
  datatype ProbeResult = ProbeOutput(version: Option<string>) | ProbeIoError

  /** The gdb program, as a key of the cache; `None` is a null name. */
  type GdbKey = Option<string>

  type VersionCache = map<GdbKey, GdbVersion>

  /**
    One `getGdbVersion(gdb)`: the version returned, the cache afterwards, and whether the probe
    ran. A stored null reads as a miss (`get` returns null), so only a non-null entry is a hit.
   */
  function Lookup(cache: VersionCache, gdb: GdbKey, probe: GdbKey -> ProbeResult): (GdbVersion, VersionCache, bool) {
    if gdb in cache && cache[gdb] != NullVersion then (cache[gdb], cache, false)
    else
      match probe(gdb)
      case ProbeIoError => (NotFoundSentinel, cache[gdb := NotFoundSentinel], true)
      case ProbeOutput(v) =>
        var r := if v.Some? then VersionText(v.value) else NullVersion;
        (r, cache[gdb := r], true)
  }

  /**
    A lookup returns what the cache then holds for `gdb`, touches no other entry, and probes
    exactly when the cache held no non-null entry.
   */
  lemma LookupSpec(cache: VersionCache, gdb: GdbKey, probe: GdbKey -> ProbeResult)
    ensures var (v, c, probed) := Lookup(cache, gdb, probe);
      && gdb in c && c[gdb] == v
      && (forall g :: g != gdb ==> (g in c <==> g in cache) && (g in cache ==> c[g] == cache[g]))
      && (probed <==> !(gdb in cache && cache[gdb] != NullVersion))
      && (!probed ==> c == cache)
      && (v == NotFoundSentinel ==> !probed || probe(gdb) == ProbeIoError)
  {
  }

  /**
    Negative caching: once a lookup has returned "not found", every later lookup of the same
    program returns it again without probing, whatever the probe would now say.
   */
  lemma NotFoundIsSticky(cache: VersionCache, gdb: GdbKey, probe: GdbKey -> ProbeResult, later: GdbKey -> ProbeResult)
    requires Lookup(cache, gdb, probe).0 == NotFoundSentinel
    ensures var c := Lookup(cache, gdb, probe).1;
      Lookup(c, gdb, later) == (NotFoundSentinel, c, false)
  {
  }

  /** A second lookup of the same program probes again only when the first one parsed no version. */
  lemma SecondLookupProbesOnlyAfterNull(cache: VersionCache, gdb: GdbKey, probe: GdbKey -> ProbeResult)
    ensures var (v, c, _) := Lookup(cache, gdb, probe);
      Lookup(c, gdb, probe).2 <==> v == NullVersion
  {
  }

  /** How the gdb name is read from the global attributes with a `(String)` cast. */
  datatype GdbName = Named(name: string) | Unset | NotAString

  function GdbNameOf(globals: Attributes): (r: GdbName)
    ensures r.Unset? <==> DebugName !in globals
    ensures r.Named? <==> DebugName in globals && globals[DebugName].Str?
    ensures r.Named? ==> globals[DebugName] == Str(r.name)
  {
    if DebugName !in globals then Unset
    else if globals[DebugName].Str? then Named(globals[DebugName].s)
    else NotAString
  }

  /** The cache key of a gdb name that survived the cast. */
  function KeyOf(n: GdbName): GdbKey
    requires !n.NotAString?
  {
    if n.Named? then Some(n.name) else None
  }

  /** The outcome of `ignoreIfGDBMissing`. */
  datatype Gate = RunTest | SkipTest | CastFails

  /**
    After `setGdbProgramNamesLaunchAttributes(version)` the gate's cast succeeds and it looks up the
    gdb of that version: the cache key is a program path from which exactly that version is read
    back. Without a gdb name the null key is looked up; a name that is not a string fails the cast.
   */
  lemma GateLooksUpVersionedGdb(globals: Attributes, version: string, isWindows: bool, gdbPath: Option<string>)
    ensures var n := GdbNameOf(WithProgramNames(globals, version, isWindows, gdbPath));
      && !n.NotAString?
      && KeyOf(n) == Some(GetProgramPath("gdb", version, isWindows, gdbPath))
      && VersionOfProgramPath(KeyOf(n).value, "gdb", isWindows, gdbPath) == Some(version)
    ensures DebugName !in globals ==> !GdbNameOf(globals).NotAString? && KeyOf(GdbNameOf(globals)) == None
    ensures GdbNameOf(globals).NotAString? <==> DebugName in globals && !globals[DebugName].Str?
  {
    var g := WithProgramNames(globals, version, isWindows, gdbPath);
    assert g[DebugName] == Str(GetProgramPath("gdb", version, isWindows, gdbPath));
    ProgramPathRoundTrip("gdb", version, isWindows, gdbPath);
  }

  // ---------------------------------------------------------------- first stopped event

  /** `fInitialStoppedEvent` after a launch offering `candidate`: it is assigned only while null. */
  function KeepFirst(current: Option<StoppedEvent>, candidate: Option<StoppedEvent>): Option<StoppedEvent> {
    if current.Some? then current else candidate
  }

  /** The field after a series of launches, each offering its stopped event (`None` when it offers none). */
  function KeepFirstAll(current: Option<StoppedEvent>, candidates: seq<Option<StoppedEvent>>): Option<StoppedEvent>
    decreases |candidates|
  {
    if candidates == [] then current
    else KeepFirstAll(KeepFirst(current, candidates[0]), candidates[1..])
  }

  /** Once set, the field never changes again. */
  lemma {:induction false} KeepFirstAllKeepsSet(e: StoppedEvent, candidates: seq<Option<StoppedEvent>>)
    ensures KeepFirstAll(Some(e), candidates) == Some(e)
    decreases |candidates|
  {
    if candidates != [] {
      KeepFirstAllKeepsSet(e, candidates[1..]);
    }
  }

  /** The first launch that offers a stopped event wins; no later launch replaces it. */
  lemma {:induction false} FirstOfferWins(candidates: seq<Option<StoppedEvent>>, i: nat)
    requires i < |candidates| && candidates[i].Some?
    requires forall j :: 0 <= j < i ==> candidates[j].None?
    ensures KeepFirstAll(None, candidates) == candidates[i]
    decreases i
  {
    if i == 0 {
      KeepFirstAllKeepsSet(candidates[0].value, candidates[1..]);
    } else {
      assert candidates[0].None?;
      assert forall j :: 0 <= j < i - 1 ==> candidates[1..][j] == candidates[j + 1];
      FirstOfferWins(candidates[1..], i - 1);
    }
  }

  // ---------------------------------------------------------------- doLaunchInner

  /** A launch: its identity and how its shutdown unfolds once `terminate()` has been called. */
  datatype GdbLaunch = GdbLaunch(id: nat, termination: TerminationProbe)

  /** Why `doLaunchInner` fails. */
  datatype LaunchFailure =
    | ConfigurationMissing   // assertNotNull on the launch configuration
    | TargetNotSuspended     // assertTrue on the listener's flag after the wait
    | NoInitialStoppedEvent  // assertNotNull on the listener's stored event

  /**
    The Java throwable a failure raises: a JUnit assertion throws `AssertionError`, which is not an
    `Exception`. `ExceptionThrown` is what the handler catches (an `InterruptedException` from the
    wait, say); interrupts are not modelled, so no failure here raises one and the handler's branch
    in `DoLaunchInnerAsWritten` is kept only to mirror the code.
   */
  datatype Thrown = AssertionErrorThrown | ExceptionThrown

  function ThrownBy(f: LaunchFailure): Thrown {
    match f
    case ConfigurationMissing => AssertionErrorThrown
    case TargetNotSuspended => AssertionErrorThrown
    case NoInitialStoppedEvent => AssertionErrorThrown
  }

  /** What happened to a launch whose rendezvous failed. */
  datatype Cleanup = NotAttempted | TerminationChecked(terminated: bool)

  datatype InnerOutcome = Launched(launch: GdbLaunch) | LaunchFailed(failure: LaunchFailure, cleanup: Cleanup)

  /** The listener a launch installs, after the session started (or not) and delivered `events`. */
  function ListenerAfter(sessionStarted: bool, events: seq<DmEvent>, symbol: string): ListenerState {
    Run(Fresh.(hasSession := sessionStarted, subscribed := sessionStarted), events, symbol)
  }

  /** The checks inside the `try`: skipped for a post-mortem launch; otherwise the flag, then the stored event. */
  function RendezvousFailure(postMortem: bool, listener: ListenerState): Option<LaunchFailure> {
    if postMortem then None
    else if !listener.suspended then Some(TargetNotSuspended)
    else if listener.stored.None? then Some(NoInitialStoppedEvent)
    else None
  }

  /**
    `doLaunchInner` as written: the `catch (Exception e)` around the rendezvous terminates the
    launch only for an `Exception`, and every rendezvous failure is an `AssertionError`.
   */
  function DoLaunchInnerAsWritten(configured: bool, postMortem: bool, listener: ListenerState, launch: GdbLaunch): InnerOutcome {
    if !configured then LaunchFailed(ConfigurationMissing, NotAttempted)
    else
      var f := RendezvousFailure(postMortem, listener);
      if f.None? then Launched(launch)
      else if ThrownBy(f.value) == ExceptionThrown then LaunchFailed(f.value, TerminationChecked(TerminatesInTime(launch.termination)))
      else LaunchFailed(f.value, NotAttempted)
  }

  /** `doLaunchInner` as intended: a launch whose rendezvous fails is terminated and checked before the failure propagates. */
  function DoLaunchInnerIntended(configured: bool, postMortem: bool, listener: ListenerState, launch: GdbLaunch): InnerOutcome {
    if !configured then LaunchFailed(ConfigurationMissing, NotAttempted)
    else
      var f := RendezvousFailure(postMortem, listener);
      if f.None? then Launched(launch)
      else LaunchFailed(f.value, TerminationChecked(TerminatesInTime(launch.termination)))
  }

  /**
    As written, a launch whose target never reports a stop in main is left running: the wait's
    assertion escapes the handler, so `terminate()` is never called. Here: a session that started
    but delivered no event.
   */
  lemma AsWrittenLeavesLaunchRunning(launch: GdbLaunch)
    ensures ListenerAfter(true, [], DefaultStopSymbol) == ListenerState(true, None, false, true)
    ensures DoLaunchInnerAsWritten(true, false, ListenerAfter(true, [], DefaultStopSymbol), launch)
         == LaunchFailed(TargetNotSuspended, NotAttempted)
  {
  }

  /** As written, no failure at all is ever cleaned up. */
  lemma AsWrittenNeverCleansUp(configured: bool, postMortem: bool, listener: ListenerState, launch: GdbLaunch)
    ensures DoLaunchInnerAsWritten(configured, postMortem, listener, launch).LaunchFailed? ==>
            DoLaunchInnerAsWritten(configured, postMortem, listener, launch).cleanup == NotAttempted
  {
  }

  /**
    As intended, every failure after the launch exists is followed by the termination check, and
    the outcome otherwise agrees with the code as written.
   */
  lemma IntendedCleansUpAndAgrees(configured: bool, postMortem: bool, listener: ListenerState, launch: GdbLaunch)
    ensures var o := DoLaunchInnerIntended(configured, postMortem, listener, launch);
      var w := DoLaunchInnerAsWritten(configured, postMortem, listener, launch);
      && (o.LaunchFailed? && o.failure != ConfigurationMissing ==> o.cleanup == TerminationChecked(TerminatesInTime(launch.termination)))
      && (o.Launched? <==> w.Launched?)
      && (o.Launched? ==> o == w)
      && (o.LaunchFailed? ==> o.failure == w.failure)
  {
  }

  /**
    A live launch passes the rendezvous exactly when the session started and delivered an event the
    listener waits for; the listener then holds the first such stop.
   */
  lemma RendezvousIffMatchDelivered(sessionStarted: bool, events: seq<DmEvent>, symbol: string)
    ensures var l := ListenerAfter(sessionStarted, events, symbol);
      && (RendezvousFailure(false, l).None? <==> sessionStarted && exists j :: 0 <= j < |events| && IsMatch(events[j], symbol))
      && (RendezvousFailure(false, l).None? ==> l.stored == StopOf(events[FirstMatch(events, symbol).value]))
  {
    if sessionStarted {
      SuspendedIffMatchDelivered(events, symbol);
      var l := ListenerAfter(sessionStarted, events, symbol);
      if l.suspended {
        var i := FirstMatch(events, symbol).value;
        assert IsMatch(events[i], symbol);
      }
    } else {
      UnsubscribedIgnoresEvents(Fresh, events, symbol);
    }
  }

  /** How the listener reads the stop-at-main symbol from the saved configuration. */
  function SymbolAttributeOf(attrs: Attributes): (a: SymbolAttribute)
    ensures attrs == MergeLaunchAttributes(map[]) ==> a == SymbolSet(Some(StopAtMainSymbolDefault))
  {
    if StopAtMainSymbol !in attrs then SymbolAbsent
    else if attrs[StopAtMainSymbol].Str? then SymbolSet(Some(attrs[StopAtMainSymbol].s))
    else SymbolUnreadable
  }

  /**
    The symbol a launch waits for, for every set of global attributes: a global string symbol
    wins; a global symbol that is not a string cannot be read and "main" is used; without a
    global symbol the default symbol is used.
   */
  lemma StopSymbolOfLaunch(globals: Attributes)
    ensures TargetSymbol(SymbolAttributeOf(MergeLaunchAttributes(globals))) ==
      if StopAtMainSymbol in globals && globals[StopAtMainSymbol].Str? then globals[StopAtMainSymbol].s
      else if StopAtMainSymbol in globals then "main"
      else StopAtMainSymbolDefault
  {
    var attrs := MergeLaunchAttributes(globals);
    assert StopAtMainSymbol in DefaultKeys;
    if StopAtMainSymbol !in globals {
      assert attrs[StopAtMainSymbol] == Str(StopAtMainSymbolDefault);
    }
  }

  /** Launch attributes in which every default key is present (after `setLaunchAttributes`). */
  predicate HasDefaultKeys(attrs: Attributes) {
    DefaultKeys <= attrs.Keys
  }

  // ---------------------------------------------------------------- program names

  /** The globals after `setGdbProgramNamesLaunchAttributes(version)`. */
  function WithProgramNames(globals: Attributes, version: string, isWindows: bool, gdbPath: Option<string>): Attributes {
    globals[DebugName := Str(GetProgramPath("gdb", version, isWindows, gdbPath))]
           [DebugServerName := Str(GetProgramPath("gdbserver", version, isWindows, gdbPath))]
  }

  /**
    After the program names are set, a launch names the versioned gdb, and a gdbserver it starts is
    the versioned gdbserver: the command line is its path, " :", the port and the program.
   */
  lemma ProgramNamesReachTheLaunch(globals: Attributes, version: string, isWindows: bool, gdbPath: Option<string>)
    ensures var attrs := MergeLaunchAttributes(WithProgramNames(globals, version, isWindows, gdbPath));
      && attrs[DebugName] == Str(GetProgramPath("gdb", version, isWindows, gdbPath))
      && StringAttr(attrs, DebugServerName) == Some(GetProgramPath("gdbserver", version, isWindows, gdbPath))
      && (GdbServerPlan(attrs).StartServer? ==>
            GdbServerPlan(attrs).commandLine
              == GetProgramPath("gdbserver", version, isWindows, gdbPath) + " :"
                 + StringAttr(attrs, Port).value + " " + StringAttr(attrs, ProgramName).value)
  {
    var gdb := GetProgramPath("gdb", version, isWindows, gdbPath);
    var server := GetProgramPath("gdbserver", version, isWindows, gdbPath);
    var g := WithProgramNames(globals, version, isWindows, gdbPath);
    assert g[DebugServerName] == Str(server);
    assert g[DebugName] == Str(gdb);
    var attrs := MergeLaunchAttributes(g);
    assert attrs[DebugServerName] == Str(server);
  }

  /**
    The inner loop of `resolveLineTagLocations`: the pending tags in their iteration order `order`,
    stopping at the first one the line contains.
   */
  method MatchPendingTag(line: string, order: seq<string>, pending: set<string>) returns (matched: Option<string>)
    ensures matched == FirstPendingMatch(line, order, pending)
  {
    matched := None;
    var k := 0;
    while k < |order| && matched.None?
      invariant k <= |order|
      invariant matched.None? ==> FirstPendingMatch(line, order[k..], pending) == FirstPendingMatch(line, order, pending)
      invariant matched.Some? ==> matched == FirstPendingMatch(line, order, pending)
    {
      assert order[k..][1..] == order[k + 1..];
      if order[k] in pending && Contains(line, order[k]) {
        matched := Some(order[k]);
      }
      k := k + 1;
    }
  }

  // ---------------------------------------------------------------- static state

  /** The static fields of `LaunchGDB`, shared by every test. */
  class LaunchStatics {
    var globalLaunchAttributes: Attributes
    var gdbCache: VersionCache
    /** The programs the version probe has been run on, in order. */
    ghost var probed: seq<GdbKey>
    /** `fLaunch`. */
    var launch: Option<GdbLaunch>
    /** The command line of the gdbserver process `gdbserverProc`, once one was started. */
    var gdbserverCommand: Option<string>
    var globalVersion: Option<string>

    constructor ()
      ensures globalLaunchAttributes == map[] && gdbCache == map[] && probed == []
      ensures launch.None? && gdbserverCommand.None? && globalVersion.None?
    {
      globalLaunchAttributes := map[];
      gdbCache := map[];
      probed := [];
      launch := None;
      gdbserverCommand := None;
      globalVersion := None;
    }

    /** `setGlobalLaunchAttribute`. */
    method SetGlobalLaunchAttribute(key: AttrKey, value: AttrValue)
      modifies this`globalLaunchAttributes
      ensures globalLaunchAttributes == old(globalLaunchAttributes)[key := value]
    {
      globalLaunchAttributes := globalLaunchAttributes[key := value];
    }

    /** `setGdbProgramNamesLaunchAttributes(version)`: records the version and the gdb and gdbserver paths. */
    method SetGdbProgramNamesLaunchAttributes(version: string, isWindows: bool, gdbPath: Option<string>)
      modifies this`globalLaunchAttributes, this`globalVersion
      ensures globalVersion == Some(version)
      ensures globalLaunchAttributes == WithProgramNames(old(globalLaunchAttributes), version, isWindows, gdbPath)
    {
      globalVersion := Some(version);
      SetGlobalLaunchAttribute(DebugName, Str(GetProgramPath("gdb", version, isWindows, gdbPath)));
      SetGlobalLaunchAttribute(DebugServerName, Str(GetProgramPath("gdbserver", version, isWindows, gdbPath)));
    }

    /**
      `getGdbVersion(gdb)`: a non-null cached version is returned without probing; otherwise the
      probe runs, and its version (possibly null) or, on an IOException, "not found" is cached.
     */
    method GetGdbVersion(gdb: GdbKey, probe: GdbKey -> ProbeResult) returns (v: GdbVersion)
      modifies this`gdbCache, this`probed
      ensures (v, gdbCache, |probed| > |old(probed)|) == Lookup(old(gdbCache), gdb, probe)
      ensures probed == old(probed) || probed == old(probed) + [gdb]
    {
      if gdb in gdbCache && gdbCache[gdb] != NullVersion {
        return gdbCache[gdb];
      }
      probed := probed + [gdb];
      var result := probe(gdb);
      if result.ProbeIoError? {
        gdbCache := gdbCache[gdb := NotFoundSentinel];
        return NotFoundSentinel;
      }
      v := if result.version.Some? then VersionText(result.version.value) else NullVersion;
      gdbCache := gdbCache[gdb := v];
    }

    /**
      `ignoreIfGDBMissing`: the test is skipped exactly when the version of the global gdb name is
      the "not found" object; a gdb name that is not a string throws before any lookup.
     */
    method IgnoreIfGdbMissing(probe: GdbKey -> ProbeResult) returns (gate: Gate)
      modifies this`gdbCache, this`probed
      ensures gate == CastFails <==> GdbNameOf(globalLaunchAttributes).NotAString?
      ensures gate == CastFails ==> gdbCache == old(gdbCache)
      ensures gate != CastFails ==>
        (gate == SkipTest <==> Lookup(old(gdbCache), KeyOf(GdbNameOf(globalLaunchAttributes)), probe).0 == NotFoundSentinel)
      ensures gate != CastFails ==> gdbCache == Lookup(old(gdbCache), KeyOf(GdbNameOf(globalLaunchAttributes)), probe).1
    {
      var name := GdbNameOf(globalLaunchAttributes);
      if name.NotAString? {
        return CastFails;
      }
      var version := GetGdbVersion(KeyOf(name), probe);
      gate := if version == NotFoundSentinel then SkipTest else RunTest;
    }
  }

  // ---------------------------------------------------------------- per-test state

  /** A test's `LaunchGDB` object. */
  class LaunchGdb {
    const statics: LaunchStatics
    var launchAttributes: Attributes
    /** `fLaunchConfiguration`: the attributes saved with it, or `None` for null. */
    var configuration: Option<Attributes>
    var initialStoppedEvent: Option<StoppedEvent>
    var tagLocations: map<string, int>

    /**
      A configuration is saved only from a full attribute map, and the launch attributes stay full
      from then on (only `setLaunchAttributes` replaces them).
     */
    predicate Valid()
      reads this
    {
      configuration.Some? ==> HasDefaultKeys(configuration.value) && HasDefaultKeys(launchAttributes)
    }

    constructor (statics: LaunchStatics)
      ensures this.statics == statics
      ensures launchAttributes == map[] && configuration.None? && initialStoppedEvent.None? && tagLocations == map[]
      ensures Valid()
    {
      this.statics := statics;
      launchAttributes := map[];
      configuration := None;
      initialStoppedEvent := None;
      tagLocations := map[];
    }

    /** `setLaunchAttributes`: a fresh map of the defaults, then `putAll` of the globals. */
    method SetLaunchAttributes()
      requires Valid()
      modifies this`launchAttributes
      ensures launchAttributes == MergeLaunchAttributes(statics.globalLaunchAttributes)
      ensures HasDefaultKeys(launchAttributes)
      ensures Valid()
    {
      launchAttributes := DefaultLaunchAttributes();
      launchAttributes := launchAttributes + statics.globalLaunchAttributes;
    }

    /** `isRemoteSession`; the start mode must be present (a null one throws). */
    method IsRemoteSession() returns (remote: bool)
      requires StartMode in launchAttributes
      ensures remote <==> launchAttributes[StartMode] == Str(ModeRemote)
    {
      remote := launchAttributes[StartMode] == Str(ModeRemote);
    }

    /** `clearLineTags`. */
    method ClearLineTags()
      modifies this`tagLocations
      ensures tagLocations == map[]
    {
      tagLocations := map[];
    }

    /** `getLineForTag`: the recorded line, or `None` where the source throws NoSuchElementException. */
    method GetLineForTag(tag: string) returns (line: Option<int>)
      ensures line.Some? <==> tag in tagLocations
      ensures line.Some? ==> line.value == tagLocations[tag]
    {
      if tag !in tagLocations {
        return None;
      }
      line := Some(tagLocations[tag]);
    }

    /**
      `resolveLineTagLocations(sourceName, tags...)` on the file's lines (`None`: the file cannot be
      opened). The table and the error are those of `Resolve`, for the iteration order `order` of
      the pending-tag set; on an unreadable file nothing changes.
     */
    method ResolveLineTagLocations(source: Option<seq<string>>, tags: seq<string>, order: seq<string>)
      returns (error: Option<TagError>)
      requires IsIterationOrder(order, (set t | t in tags))
      modifies this`tagLocations
      ensures source.None? ==> error == Some(SourceUnavailable) && tagLocations == old(tagLocations)
      ensures source.Some? ==>
        Resolution(tagLocations, error) == Resolve(source.value, (set t | t in tags), order, old(tagLocations))
    {
      if source.None? {
        return Some(SourceUnavailable);
      }
      var lines := source.value;
      var tagSet := set t | t in tags;
      ghost var start := ScanState(tagLocations, tagSet, None);
      var pending := tagSet;
      var n := 0;
      while n < |lines|
        invariant n <= |lines|
        invariant Scan(lines, n, order, start) == ScanState(tagLocations, pending, None)
      {
        var matched := MatchPendingTag(lines[n], order, pending);
        ScanStep(lines, n, order, start, tagLocations, pending);
        if matched.Some? {
          var tag := matched.value;
          if tag in tagLocations {
            ScanStaysAfterTwice(lines, n + 1, |lines|, order, start);
            ResolveOfScan(lines, tagSet, order, start.table, ScanState(tagLocations, pending, Some(tag)));
            return Some(FoundTwice(tag));
          }
          tagLocations := tagLocations[tag := n + 1];
          pending := pending - {tag};
        }
        n := n + 1;
      }
      ResolveOfScan(lines, tagSet, order, start.table, ScanState(tagLocations, pending, None));
      if pending != {} {
        return Some(NotFound(pending));
      }
      error := None;
    }

    /**
      `launchGdbServer`, on the launch attributes and gdbserver's stderr lines: the plan of
      `GdbServerPlan`; when it starts gdbserver, the process is recorded and its stderr is read up
      to and including the first ready line (`consumed` lines), or to its end.
     */
    method LaunchGdbServer(stderr: seq<string>) returns (plan: ServerPlan, consumed: nat, ready: bool)
      requires HasDefaultKeys(launchAttributes)
      modifies statics`gdbserverCommand
      ensures plan == GdbServerPlan(launchAttributes)
      ensures plan.StartServer? ==> statics.gdbserverCommand == Some(plan.commandLine)
      ensures !plan.StartServer? ==> statics.gdbserverCommand == old(statics.gdbserverCommand) && consumed == 0 && !ready
      ensures plan.StartServer? ==> consumed <= |stderr| && (ready <==> FirstReadyLine(stderr).Some?)
      ensures plan.StartServer? && ready ==> FirstReadyLine(stderr) == Some(consumed - 1)
      ensures plan.StartServer? && !ready ==> consumed == |stderr|
    {
      plan := GdbServerPlan(launchAttributes);
      consumed, ready := 0, false;
      if plan.StartServer? {
        statics.gdbserverCommand := Some(plan.commandLine);
        consumed, ready := AwaitGdbServerReady(stderr);
      }
    }

    /**
      `doLaunchInner`, as written: it fails when no configuration was saved; otherwise the listener
      is created from the saved configuration (whose stop-at-main symbol it waits for), attached
      when the session starts, and shown the session's events. Unless the launch is post-mortem
      (read from the current launch attributes), the flag and then the stored event are checked,
      and the stored event is kept in `initialStoppedEvent` when that is still unset. A failed
      check throws an `AssertionError`, which the `catch (Exception e)` does not catch: the launch
      is not terminated.
     */
    method DoLaunchInner(launch: GdbLaunch, sessionStarted: bool, events: seq<DmEvent>) returns (outcome: InnerOutcome)
      requires Valid()
      modifies this`initialStoppedEvent
      ensures Valid()
      ensures var configured := configuration.Some?;
        var postMortem := configured && IsPostMortem(launchAttributes);
        var symbol := if configured then TargetSymbol(SymbolAttributeOf(configuration.value)) else DefaultStopSymbol;
        var listener := ListenerAfter(sessionStarted, events, symbol);
        && outcome == DoLaunchInnerAsWritten(configured, postMortem, listener, launch)
        && initialStoppedEvent == KeepFirst(old(initialStoppedEvent),
                                            if outcome.Launched? && !postMortem then listener.stored else None)
    {
      if configuration.None? {
        return LaunchFailed(ConfigurationMissing, NotAttempted);
      }
      var postMortem := launchAttributes[StartMode] == Str(ModeCore);
      var listener := new SessionEventListener(SymbolAttributeOf(configuration.value));
      if sessionStarted {
        listener.SessionStarted();
      }
      listener.DeliverAll(events);
      var failure: Option<LaunchFailure> := None;
      if !postMortem {
        var suspended := listener.WaitUntilTargetSuspended();
        if !suspended {
          failure := Some(TargetNotSuspended);
        } else {
          var e := listener.GetInitialStoppedEvent();
          if e.None? {
            failure := Some(NoInitialStoppedEvent);
          } else if initialStoppedEvent.None? {
            initialStoppedEvent := e;
          }
        }
      }
      if failure.Some? {
        // the AssertionError passes by the handler; `terminate()` is not called
        return LaunchFailed(failure.value, NotAttempted);
      }
      outcome := Launched(launch);
    }

    /**
      The part of `doLaunch` that keeps the books: gdbserver is started when the plan says so, the
      launch attributes are saved as the configuration, `doLaunchInner` runs on that configuration,
      and `fLaunch` becomes the launch it returns. A cast failure in `launchGdbServer` changes neither the
      configuration nor `fLaunch`; a failing `doLaunchInner` leaves `fLaunch` as it was.
     */
    method DoLaunch(stderr: seq<string>, launch: GdbLaunch, sessionStarted: bool, events: seq<DmEvent>)
      returns (plan: ServerPlan, outcome: Option<InnerOutcome>)
      requires Valid() && HasDefaultKeys(launchAttributes)
      modifies this`configuration, this`initialStoppedEvent, statics`gdbserverCommand, statics`launch
      ensures Valid()
      ensures plan == GdbServerPlan(launchAttributes)
      ensures plan.CastFailure? <==> outcome.None?
      ensures plan.StartServer? ==> statics.gdbserverCommand == Some(plan.commandLine)
      ensures !plan.StartServer? ==> statics.gdbserverCommand == old(statics.gdbserverCommand)
      ensures outcome.None? ==> configuration == old(configuration) && initialStoppedEvent == old(initialStoppedEvent)
      ensures outcome.Some? ==> configuration == Some(launchAttributes)
      ensures var postMortem := IsPostMortem(launchAttributes);
        var listener := ListenerAfter(sessionStarted, events, TargetSymbol(SymbolAttributeOf(launchAttributes)));
        outcome.Some? ==>
          && outcome.value == DoLaunchInnerAsWritten(true, postMortem, listener, launch)
          && initialStoppedEvent == KeepFirst(old(initialStoppedEvent),
                                              if outcome.value.Launched? && !postMortem then listener.stored else None)
      ensures outcome.Some? && outcome.value.Launched? ==> statics.launch == Some(launch)
      ensures !(outcome.Some? && outcome.value.Launched?) ==> statics.launch == old(statics.launch)
    {
      var consumed, ready;
      plan, consumed, ready := LaunchGdbServer(stderr);
      if plan.CastFailure? {
        return plan, None;
      }
      configuration := Some(launchAttributes);
      var o := DoLaunchInner(launch, sessionStarted, events);
      outcome := Some(o);
      if o.Launched? {
        statics.launch := Some(o.launch);
      }
    }

    /**
      `terminateGDBLaunch`: when there is a current launch, its termination is checked and, when the
      check passes, `fLaunch` is cleared; then every platform breakpoint is removed. `ok` is false
      when the check fails, and then neither `fLaunch` nor the breakpoints change.
     */
    method TerminateGdbLaunch(bm: BreakpointManager) returns (ok: bool)
      requires bm.Valid()
      modifies statics`launch, bm`breakpoints
      ensures bm.Valid()
      ensures ok <==> old(statics.launch).None? || TerminatesInTime(old(statics.launch).value.termination)
      ensures ok ==> statics.launch.None? && bm.breakpoints == []
      ensures !ok ==> statics.launch == old(statics.launch) && bm.breakpoints == old(bm.breakpoints)
    {
      if statics.launch.Some? {
        var terminated, _ := AssertLaunchTerminates(Some(statics.launch.value.termination));
        if !terminated {
          return false;
        }
        statics.launch := None;
      }
      RemoveAllPlatformBreakpoints(bm);
      ok := true;
    }
  }
}
