/**
  The launch decisions of `LaunchGDB` that are plain computations over strings
  and the launch-attribute map: the gdb/gdbserver program name, the default
  attributes overlaid by the global ones, the start-mode checks, and whether
  (and with which command line) gdbserver is started.

  Attribute keys are the constants of CDT's launch-configuration interfaces
  and of the test plug-in; only their distinctness matters here, so they are
  a datatype. The start-mode values are CDT's literal strings.
 */
module LaunchConfig {
  import opened Common

  /** The launch-configuration attributes the harness reads or writes; any other key is `OtherKey`. */
  datatype AttrKey =
    | ProgramName       // ICDTLaunchConfigurationConstants.ATTR_PROGRAM_NAME
    | StopAtMain        // ICDTLaunchConfigurationConstants.ATTR_DEBUGGER_STOP_AT_MAIN
    | StopAtMainSymbol  // ICDTLaunchConfigurationConstants.ATTR_DEBUGGER_STOP_AT_MAIN_SYMBOL
    | GdbInit           // IGDBLaunchConfigurationConstants.ATTR_GDB_INIT
    | StartMode         // ICDTLaunchConfigurationConstants.ATTR_DEBUGGER_START_MODE
    | DebugServerName   // LaunchGDB.ATTR_DEBUG_SERVER_NAME
    | RemoteTcp         // IGDBLaunchConfigurationConstants.ATTR_REMOTE_TCP
    | Host              // IGDBLaunchConfigurationConstants.ATTR_HOST
    | Port              // IGDBLaunchConfigurationConstants.ATTR_PORT
    | LaunchGdbServer   // ITestConstants.LAUNCH_GDB_SERVER
    | DebugName         // IGDBLaunchConfigurationConstants.ATTR_DEBUG_NAME (the gdb program)
    | OtherKey(name: string)

  /** The `Object` values stored in the attribute maps. */
  datatype AttrValue = Str(s: string) | Bool(b: bool) | Int(i: int)

  type Attributes = map<AttrKey, AttrValue>

  const DefaultVersionString := "default"
  const ExecPath := "E:/workspace/gdb-debug/org.eclipse.cdt.tests.dsf.gdb/data/launch/bin/"
  const DefaultExecName := "GDBMIGenericTestApp.exe"
  const DebugServerProgram := "gdbserver"
  const HostName := "localhost"
  const PortNumber := "9999"
  const GdbInitFile := ".gdbinit"
  const StopAtMainSymbolDefault := "main"
  const ModeRun := "run"
  const ModeCore := "core"
  const ModeRemote := "remote"

  /** The keys `setLaunchAttributes` always puts before the global overlay. */
  const DefaultKeys: set<AttrKey> :=
    {ProgramName, StopAtMain, StopAtMainSymbol, GdbInit, StartMode, DebugServerName, RemoteTcp, Host, Port, LaunchGdbServer}

  // ---------------------------------------------------------------- program names

  function VersionPostfix(version: string): string {
    if version != DefaultVersionString then "." + version else ""
  }

  function ExeSuffix(isWindows: bool): string {
    if isWindows then ".exe" else ""
  }

  /**
    `getProgramPath(main, version)`: the program name, the version unless it is "default",
    ".exe" on Windows, and the directory from the `cdt.tests.dsf.gdb.path` system property
    (`gdbPath`) in front when that property is set.
   */
  function GetProgramPath(main: string, version: string, isWindows: bool, gdbPath: Option<string>): (r: string)
    ensures gdbPath.Some? ==> gdbPath.value + "/" <= r
    ensures isWindows ==> |r| >= 4 && r[|r| - 4..] == ".exe"
  {
    var debugName := main + VersionPostfix(version) + ExeSuffix(isWindows);
    if gdbPath.Some? then gdbPath.value + "/" + debugName else debugName
  }

  /** The directory prefix `getProgramPath` puts in front when the path property is set. */
  function DirPrefix(gdbPath: Option<string>): string {
    if gdbPath.Some? then gdbPath.value + "/" else ""
  }

  /** The middle of `s` once `prefix` and `suffix` are cut off, if `s` has both. */
  function StripAffixes(s: string, prefix: string, suffix: string): Option<string> {
    if |prefix| + |suffix| <= |s| && s[..|prefix|] == prefix && s[|s| - |suffix|..] == suffix
    then Some(s[|prefix|..|s| - |suffix|])
    else None
  }

  lemma StripAffixesOfConcat(prefix: string, mid: string, suffix: string)
    ensures StripAffixes(prefix + mid + suffix, prefix, suffix) == Some(mid)
  {
    var s := prefix + mid + suffix;
    assert s[..|prefix|] == prefix;
    assert s[|s| - |suffix|..] == suffix;
    assert s[|prefix|..|s| - |suffix|] == mid;
  }

  /** The version a version postfix was built from, if any. */
  function VersionOfPostfix(post: string): Option<string> {
    if post == [] then Some(DefaultVersionString)
    else if post[0] == '.' && post[1..] != DefaultVersionString then Some(post[1..])
    else None
  }

  lemma PostfixRoundTrip(version: string)
    ensures VersionOfPostfix(VersionPostfix(version)) == Some(version)
  {
    if version != DefaultVersionString {
      assert VersionPostfix(version)[1..] == version;
    }
  }

  /**
    The inverse of `GetProgramPath` in its version argument: given the other three arguments,
    recover the version a path was built for, or `None` when no version builds it.
   */
  function VersionOfProgramPath(path: string, main: string, isWindows: bool, gdbPath: Option<string>): Option<string>
  {
    var mid := StripAffixes(path, DirPrefix(gdbPath) + main, ExeSuffix(isWindows));
    if mid.Some? then VersionOfPostfix(mid.value) else None
  }

  /** Every version is recovered from the path built for it. */
  lemma ProgramPathRoundTrip(main: string, version: string, isWindows: bool, gdbPath: Option<string>)
    ensures VersionOfProgramPath(GetProgramPath(main, version, isWindows, gdbPath), main, isWindows, gdbPath) == Some(version)
  {
    var prefix := DirPrefix(gdbPath) + main;
    ProgramPathShape(main, version, isWindows, gdbPath);
    StripAffixesOfConcat(prefix, VersionPostfix(version), ExeSuffix(isWindows));
    PostfixRoundTrip(version);
  }

  /** The path is the directory prefix, the program name, the version postfix and the extension, in that order. */
  lemma ProgramPathShape(main: string, version: string, isWindows: bool, gdbPath: Option<string>)
    ensures GetProgramPath(main, version, isWindows, gdbPath)
         == (DirPrefix(gdbPath) + main) + VersionPostfix(version) + ExeSuffix(isWindows)
  {
    var v, e := VersionPostfix(version), ExeSuffix(isWindows);
    if gdbPath.Some? {
      var a := gdbPath.value + "/";
      assert main + v + e == main + (v + e);
      assert a + (main + (v + e)) == (a + main) + (v + e);
      assert (a + main) + (v + e) == (a + main) + v + e;
    } else {
      assert DirPrefix(gdbPath) + main == main;
    }
  }

  /** So two different versions never share a program path (gdb 7.11 and "default" name different binaries). */
  lemma DistinctVersionsDistinctPaths(main: string, v1: string, v2: string, isWindows: bool, gdbPath: Option<string>)
    requires v1 != v2
    ensures GetProgramPath(main, v1, isWindows, gdbPath) != GetProgramPath(main, v2, isWindows, gdbPath)
  {
    ProgramPathRoundTrip(main, v1, isWindows, gdbPath);
    ProgramPathRoundTrip(main, v2, isWindows, gdbPath);
  }

  // ---------------------------------------------------------------- attributes

  /** The fixed attributes `setLaunchAttributes` puts into its fresh map. */
  function DefaultLaunchAttributes(): (m: Attributes)
    ensures m.Keys == DefaultKeys
  {
    map[
      ProgramName := Str(ExecPath + DefaultExecName),
      StopAtMain := Bool(true),
      StopAtMainSymbol := Str(StopAtMainSymbolDefault),
      GdbInit := Str(GdbInitFile),
      StartMode := Str(ModeRun),
      DebugServerName := Str(DebugServerProgram),
      RemoteTcp := Bool(true),
      Host := Str(HostName),
      Port := Str(PortNumber),
      LaunchGdbServer := Bool(true)
    ]
  }

  /**
    The attribute map of a launch: the defaults, then `putAll` of the global attributes.
    A global value wins on a shared key, every default key is present, and no key
    outside the defaults and the globals appears.
   */
  function MergeLaunchAttributes(globals: Attributes): (m: Attributes)
    ensures m.Keys == DefaultKeys + globals.Keys
    ensures forall k :: k in globals ==> m[k] == globals[k]
    ensures forall k :: k in DefaultKeys && k !in globals ==> m[k] == DefaultLaunchAttributes()[k]
  {
    DefaultLaunchAttributes() + globals
  }

  /** `isRemoteSession`: the start mode equals (as a Java `equals`) the string "remote". */
  predicate IsRemoteSession(attrs: Attributes)
    requires StartMode in attrs
  {
    attrs[StartMode] == Str(ModeRemote)
  }

  /** The post-mortem check in `doLaunchInner`: the start mode equals the string "core". */
  predicate IsPostMortem(attrs: Attributes)
    requires StartMode in attrs
  {
    attrs[StartMode] == Str(ModeCore)
  }

  /** With the defaults in place, a session is remote exactly when a global start mode "remote" was set. */
  lemma RemoteIffGlobalRemote(globals: Attributes)
    ensures IsRemoteSession(MergeLaunchAttributes(globals)) <==> StartMode in globals && globals[StartMode] == Str(ModeRemote)
  {
  }

  /** A launch is post-mortem exactly when a global start mode "core" was set, and never also remote. */
  lemma PostMortemIffGlobalCore(globals: Attributes)
    ensures IsPostMortem(MergeLaunchAttributes(globals)) <==> StartMode in globals && globals[StartMode] == Str(ModeCore)
    ensures !(IsPostMortem(MergeLaunchAttributes(globals)) && IsRemoteSession(MergeLaunchAttributes(globals)))
  {
  }

  // ---------------------------------------------------------------- gdbserver

  /** What `launchGdbServer` decides to do. */
  datatype ServerPlan =
    | NoServer                      // returns without starting anything
    | StartServer(commandLine: string)
    | CastFailure                   // a `(String)` cast of an attribute throws ClassCastException

  /** `(String) attrs.get(k)` as a piece of a string concatenation: an absent key reads as "null". */
  function StringAttr(attrs: Attributes, k: AttrKey): Option<string>
  {
    if k !in attrs then Some("null")
    else if attrs[k].Str? then Some(attrs[k].s)
    else None
  }

  /**
    `launchGdbServer`'s decision: nothing when the launch-gdbserver flag is the Boolean false,
    when the session is not remote, or when remote-TCP is not the Boolean true; otherwise the
    command line `server + " :" + port + " " + program`.
   */
  function GdbServerPlan(attrs: Attributes): (p: ServerPlan)
    requires LaunchGdbServer in attrs && StartMode in attrs && RemoteTcp in attrs
    ensures p.StartServer? ==> IsRemoteSession(attrs) && attrs[RemoteTcp] == Bool(true) && attrs[LaunchGdbServer] != Bool(false)
    ensures p.NoServer? <==> attrs[LaunchGdbServer] == Bool(false) || !IsRemoteSession(attrs) || attrs[RemoteTcp] != Bool(true)
    ensures p.CastFailure? <==>
      && !p.NoServer?
      && (StringAttr(attrs, DebugServerName).None? || StringAttr(attrs, Port).None? || StringAttr(attrs, ProgramName).None?)
    ensures p.StartServer? ==>
      && StringAttr(attrs, DebugServerName).Some? && StringAttr(attrs, Port).Some? && StringAttr(attrs, ProgramName).Some?
      && p.commandLine == StringAttr(attrs, DebugServerName).value + " :" + StringAttr(attrs, Port).value + " " + StringAttr(attrs, ProgramName).value
  {
    if attrs[LaunchGdbServer] == Bool(false) then NoServer
    else if !IsRemoteSession(attrs) then NoServer
    else if attrs[RemoteTcp] != Bool(true) then NoServer
    else
      var server := StringAttr(attrs, DebugServerName);
      var port := StringAttr(attrs, Port);
      var program := StringAttr(attrs, ProgramName);
      if server.None? || port.None? || program.None? then CastFailure
      else StartServer(server.value + " :" + port.value + " " + program.value)
  }

  /**
    With only the start mode overridden to "remote", the harness starts the default gdbserver on
    port 9999 for the default test program.
   */
  lemma DefaultRemoteStartsGdbserver()
    ensures GdbServerPlan(MergeLaunchAttributes(map[StartMode := Str(ModeRemote)]))
         == StartServer(DebugServerProgram + " :" + PortNumber + " " + (ExecPath + DefaultExecName))
  {
    var attrs := MergeLaunchAttributes(map[StartMode := Str(ModeRemote)]);
    assert attrs[DebugServerName] == Str("gdbserver");
    assert attrs[Port] == Str("9999");
    assert attrs[ProgramName] == Str(ExecPath + DefaultExecName);
  }

  /** With the defaults alone (start mode "run") no gdbserver is started. */
  lemma LocalLaunchStartsNoServer(globals: Attributes)
    requires StartMode !in globals
    ensures GdbServerPlan(MergeLaunchAttributes(globals)) == NoServer
  {
  }
}
