/**
  `DebugHelper`: the clean-state helpers the tests call around each launch —
  listing the platform breakpoints by kind, enabling or disabling all of them,
  removing all of them, and clearing terminated launches and launch
  configurations from the launch manager.
 */
module DebugHelper {
  import opened Breakpoints

  /** The breakpoints of `s` satisfying `p`, in order (a stream `filter` collected into a list). */
  function Filter(s: seq<Breakpoint>, p: Breakpoint -> bool): (r: seq<Breakpoint>)
    ensures forall x :: x in r <==> x in s && p(x)
    ensures |r| <= |s|
  {
    if s == [] then []
    else if p(s[0]) then [s[0]] + Filter(s[1..], p)
    else Filter(s[1..], p)
  }

  /** Filtering a concatenation filters each part, so the filter keeps the order of `s`. */
  lemma {:induction false} FilterConcat(a: seq<Breakpoint>, b: seq<Breakpoint>, p: Breakpoint -> bool)
    ensures Filter(a + b, p) == Filter(a, p) + Filter(b, p)
  {
    if a == [] {
      assert a + b == b;
    } else {
      var ab := a + b;
      assert ab[0] == a[0];
      assert ab[1..] == a[1..] + b;
      FilterConcat(a[1..], b, p);
      if p(a[0]) {
        calc {
          Filter(ab, p);
          [a[0]] + Filter(a[1..] + b, p);
          [a[0]] + (Filter(a[1..], p) + Filter(b, p));
          ([a[0]] + Filter(a[1..], p)) + Filter(b, p);
        }
      }
    }
  }

  /** Filtering with a predicate every element satisfies returns the list itself. */
  lemma {:induction false} FilterAll(s: seq<Breakpoint>, p: Breakpoint -> bool)
    requires forall i :: 0 <= i < |s| ==> p(s[i])
    ensures Filter(s, p) == s
  {
    if s != [] {
      FilterAll(s[1..], p);
    }
  }

  /** `getPlatformBreakpoints(predicate)`: the manager's breakpoints satisfying the predicate, in manager order. */
  function PlatformBreakpoints(bps: seq<Breakpoint>, p: Breakpoint -> bool): seq<Breakpoint> {
    Filter(bps, p)
  }

  predicate IsCFunctionBreakpoint(bp: Breakpoint) {
    bp.kind == CFunctionKind
  }

  predicate IsCLineBreakpoint(bp: Breakpoint) {
    bp.kind == CLineKind
  }

  /** `getPlatformCFunctionBreakpoints`: the C function breakpoints, in manager order. */
  function PlatformCFunctionBreakpoints(bps: seq<Breakpoint>): (r: seq<Breakpoint>)
    ensures forall b :: b in r <==> b in bps && b.kind == CFunctionKind
  {
    PlatformBreakpoints(bps, IsCFunctionBreakpoint)
  }

  /** `getPlatformCLineBreakpoints`: the C line breakpoints (not the function ones), in manager order. */
  function PlatformCLineBreakpoints(bps: seq<Breakpoint>): (r: seq<Breakpoint>)
    ensures forall b :: b in r <==> b in bps && b.kind == CLineKind
  {
    PlatformBreakpoints(bps, IsCLineBreakpoint)
  }

  /** `getAllPlatformBreakpoints`: every registered breakpoint, in manager order. */
  function AllPlatformBreakpoints(bps: seq<Breakpoint>): (r: seq<Breakpoint>)
    ensures r == PlatformBreakpoints(bps, (b: Breakpoint) => true)
  {
    FilterAll(bps, (b: Breakpoint) => true);
    bps
  }

  /** The identities of the breakpoints whose flag differs from `enabled`, in manager order. */
  function Differing(bps: seq<Breakpoint>, enabled: bool): seq<nat>
  {
    if bps == [] then []
    else if bps[0].enabled != enabled then [bps[0].handle] + Differing(bps[1..], enabled)
    else Differing(bps[1..], enabled)
  }

  /** `Differing` lists exactly the breakpoints whose flag differs, each at most once per breakpoint. */
  lemma {:induction false} DifferingMembers(bps: seq<Breakpoint>, enabled: bool)
    ensures |Differing(bps, enabled)| <= |bps|
    ensures forall h :: h in Differing(bps, enabled) <==>
              exists i :: 0 <= i < |bps| && bps[i].handle == h && bps[i].enabled != enabled
  {
    if bps != [] {
      DifferingMembers(bps[1..], enabled);
      assert forall i :: 1 <= i < |bps| ==> bps[1..][i - 1] == bps[i];
      forall h | exists i :: 0 <= i < |bps| && bps[i].handle == h && bps[i].enabled != enabled
        ensures h in Differing(bps, enabled)
      {
        var i :| 0 <= i < |bps| && bps[i].handle == h && bps[i].enabled != enabled;
        if i > 0 {
          assert bps[1..][i - 1] == bps[i];
        }
      }
    }
  }

  /** Appending a breakpoint appends its handle exactly when its flag differs. */
  lemma {:induction false} DifferingSnoc(bps: seq<Breakpoint>, b: Breakpoint, enabled: bool)
    ensures Differing(bps + [b], enabled) == Differing(bps, enabled) + (if b.enabled != enabled then [b.handle] else [])
  {
    if bps == [] {
      assert bps + [b] == [b];
      assert [b][1..] == [];
    } else {
      assert (bps + [b])[0] == bps[0];
      assert (bps + [b])[1..] == bps[1..] + [b];
      DifferingSnoc(bps[1..], b, enabled);
    }
  }

  /** `bps` with the flags of its first `n` breakpoints set to `enabled`. */
  function EnabledUpTo(bps: seq<Breakpoint>, n: nat, enabled: bool): (r: seq<Breakpoint>)
    requires n <= |bps|
    ensures |r| == |bps|
  {
    seq(|bps|, j requires 0 <= j < |bps| => if j < n then bps[j].(enabled := enabled) else bps[j])
  }

  /** Writing the flag of breakpoint `i`, found by its handle, extends the enabled prefix by one. */
  lemma EnableStep(bps: seq<Breakpoint>, i: nat, enabled: bool, after: seq<Breakpoint>)
    requires i < |bps| && DistinctHandles(bps)
    requires |after| == |bps|
    requires forall j :: 0 <= j < |after| ==>
      after[j] == if EnabledUpTo(bps, i, enabled)[j].handle == bps[i].handle
                  then EnabledUpTo(bps, i, enabled)[j].(enabled := enabled)
                  else EnabledUpTo(bps, i, enabled)[j]
    ensures after == EnabledUpTo(bps, i + 1, enabled)
  {
    forall j | 0 <= j < |after|
      ensures after[j] == EnabledUpTo(bps, i + 1, enabled)[j]
    {
      assert EnabledUpTo(bps, i, enabled)[j].handle == bps[j].handle;
    }
  }

  /**
    `toggleAllPlatformBreakpoints(enabled)`: afterwards every breakpoint's flag is `enabled`,
    and nothing else about any breakpoint has changed. `written` lists the breakpoints whose
    flag was written: exactly those whose flag differed.
   */
  method ToggleAllPlatformBreakpoints(bm: BreakpointManager, enabled: bool) returns (ghost written: seq<nat>)
    requires bm.Valid()
    modifies bm`breakpoints
    ensures bm.Valid()
    ensures bm.breakpoints == EnabledUpTo(old(bm.breakpoints), |old(bm.breakpoints)|, enabled)
    ensures |bm.breakpoints| == |old(bm.breakpoints)|
    ensures forall i :: 0 <= i < |bm.breakpoints| ==> bm.breakpoints[i] == old(bm.breakpoints)[i].(enabled := enabled)
    ensures written == Differing(old(bm.breakpoints), enabled)
  {
    var list := bm.breakpoints;
    assert DistinctHandles(list);
    written := [];
    var i := 0;
    while i < |list|
      invariant i <= |list|
      invariant bm.breakpoints == EnabledUpTo(list, i, enabled)
      invariant written == Differing(list[..i], enabled)
    {
      assert list[..i + 1] == list[..i] + [list[i]];
      DifferingSnoc(list[..i], list[i], enabled);
      if list[i].enabled != enabled {
        bm.SetEnabledOf(list[i].handle, enabled);
        EnableStep(list, i, enabled, bm.breakpoints);
        written := written + [list[i].handle];
      } else {
        assert EnabledUpTo(list, i, enabled) == EnabledUpTo(list, i + 1, enabled);
      }
      i := i + 1;
    }
    assert forall j :: 0 <= j < |list| ==> bm.breakpoints[j].handle == list[j].handle;
    assert list[..i] == list;
  }

  /** `deleteAllPlatformBreakpoints`: removes the registered breakpoints one at a time, leaving none. */
  method DeleteAllPlatformBreakpoints(bm: BreakpointManager)
    requires bm.Valid()
    modifies bm`breakpoints
    ensures bm.Valid()
    ensures bm.breakpoints == []
  {
    var list := bm.breakpoints;
    var i := 0;
    while i < |list|
      invariant i <= |list|
      invariant bm.Valid()
      invariant bm.breakpoints == list[i..]
    {
      RemoveHeadHandle(list[i..]);
      assert list[i..][1..] == list[i + 1..];
      bm.RemoveBreakpoint(list[i].handle);
      i := i + 1;
    }
  }

  /** `removeAllPlatformBreakpoints`: removes every registered breakpoint at once, leaving none. */
  method RemoveAllPlatformBreakpoints(bm: BreakpointManager)
    requires bm.Valid()
    modifies bm`breakpoints
    ensures bm.Valid()
    ensures bm.breakpoints == []
  {
    bm.breakpoints := [];
  }

  /** A launch known to the launch manager, by identity, and whether it has terminated. */
  datatype LaunchRecord = LaunchRecord(id: nat, terminated: bool)

  /** The launch manager: its launches and its launch configurations, each in order. */
  class LaunchManager {
    var launches: seq<LaunchRecord>
    var configurations: seq<string>

    constructor (launches: seq<LaunchRecord>, configurations: seq<string>)
      ensures this.launches == launches && this.configurations == configurations
    {
      this.launches := launches;
      this.configurations := configurations;
    }

    /**
      `removeTeminatedLaunches`: `ok` is false, and nothing is removed, when some launch has not
      terminated (the check fails the test); otherwise every launch is removed.
     */
    method RemoveTerminatedLaunches() returns (ok: bool)
      modifies this`launches
      ensures ok <==> forall i :: 0 <= i < |old(launches)| ==> old(launches)[i].terminated
      ensures ok ==> launches == []
      ensures !ok ==> launches == old(launches)
    {
      var all := launches;
      var i := 0;
      while i < |all|
        invariant i <= |all|
        invariant forall j :: 0 <= j < i ==> all[j].terminated
      {
        if !all[i].terminated {
          return false;
        }
        i := i + 1;
      }
      if |all| > 0 {
        launches := [];
      }
      ok := true;
    }

    /**
      `removeLaunchConfigurations`: deletes each configuration in turn and then checks that none
      remain; the check always passes.
     */
    method RemoveLaunchConfigurations() returns (ok: bool)
      modifies this`configurations
      ensures ok
      ensures configurations == []
    {
      var all := configurations;
      var i := 0;
      while i < |all|
        invariant i <= |all|
        invariant configurations == all[i..]
      {
        assert all[i..][1..] == all[i + 1..];
        configurations := configurations[1..];
        i := i + 1;
      }
      ok := |configurations| == 0;
    }
  }
}
