/**
  The breakpoint operations of `BreakpointUtil` over Eclipse's breakpoint manager.

  A breakpoint object is a value carrying a `handle` that stands for its object
  identity; the manager holds the registered breakpoints in registration order
  (the order `getBreakpoints` returns them in). A `TestplanBreakpoint` is a line
  breakpoint of the test-plan model; C line and C function breakpoints are C line
  breakpoints, and every C line breakpoint is a line breakpoint.
 */
module Breakpoints {
  import opened Common

  const BreakpointId := "com.agilent.p9000.specs.tde.tplBreakpoint"
  const MarkerType := "com.agilent.p9000.specs.tde.tplBreakpointMarker"
  const TestMessage := "test message"

  /** A workspace resource; its location is determined by its full path, so comparing both fields compares full paths. */
  datatype Resource = Resource(fullPath: string, location: string)

  /** A breakpoint's marker and the resource it is attached to (possibly null). */
  datatype Marker = Marker(markerType: string, resource: Option<Resource>)

  datatype BreakpointKind = TestplanKind | CLineKind | CFunctionKind | OtherKind

  /** `instanceof ILineBreakpoint`. */
  predicate IsLineKind(k: BreakpointKind) {
    k != OtherKind
  }

  /** `instanceof ICLineBreakpoint` (an `ICFunctionBreakpoint` is one). */
  predicate IsCLineKind(k: BreakpointKind) {
    k == CLineKind || k == CFunctionKind
  }

  /**
    A registered breakpoint: its identity, kind, model identifier, marker (possibly null),
    line number, C source file name (possibly null), enabled flag and message.
   */
  datatype Breakpoint = Breakpoint(
    handle: nat,
    kind: BreakpointKind,
    modelId: string,
    marker: Option<Marker>,
    line: int,
    fileName: Option<string>,
    enabled: bool,
    message: string)

  predicate DistinctHandles(bps: seq<Breakpoint>) {
    forall i, j :: 0 <= i < j < |bps| ==> bps[i].handle != bps[j].handle
  }

  /** `isSame(resource, line, bp)`: a non-null resource, a non-negative line, and a marker on that resource at that line. */
  predicate IsSameLine(resource: Option<Resource>, line: int, bp: Breakpoint) {
    && resource.Some?
    && line >= 0
    && bp.marker.Some?
    && bp.marker.value.resource.Some?
    && bp.line == line
    && bp.marker.value.resource.value == resource.value
  }

  /** `isSame(resource, bp)`: a non-null resource whose location string equals the breakpoint's file name. */
  predicate IsSameFile(resource: Option<Resource>, bp: Breakpoint) {
    resource.Some? && bp.fileName == Some(resource.value.location)
  }

  /** What `findBreakpoint` looks for: a test-plan-model line breakpoint at the resource and line. */
  predicate Findable(resource: Option<Resource>, line: int, bp: Breakpoint) {
    bp.modelId == BreakpointId && IsLineKind(bp.kind) && IsSameLine(resource, line, bp)
  }

  /** The first findable breakpoint at or after index `from`. */
  function FindFrom(bps: seq<Breakpoint>, resource: Option<Resource>, line: int, from: nat): (r: Option<nat>)
    requires from <= |bps|
    decreases |bps| - from
    ensures r.Some? ==> from <= r.value < |bps| && Findable(resource, line, bps[r.value])
                        && forall j :: from <= j < r.value ==> !Findable(resource, line, bps[j])
    ensures r.None? ==> forall j :: from <= j < |bps| ==> !Findable(resource, line, bps[j])
  {
    if from == |bps| then None
    else if Findable(resource, line, bps[from]) then Some(from)
    else FindFrom(bps, resource, line, from + 1)
  }

  /** The index of the breakpoint `findBreakpoint` returns, or `None` for null. */
  function FindIndex(bps: seq<Breakpoint>, resource: Option<Resource>, line: int): Option<nat> {
    FindFrom(bps, resource, line, 0)
  }

  /** `isActiveTestplanBreakpoint(resource, line)`: a breakpoint is found there and it is enabled. */
  predicate IsActiveAt(bps: seq<Breakpoint>, resource: Option<Resource>, line: int) {
    var f := FindIndex(bps, resource, line);
    f.Some? && bps[f.value].enabled
  }

  /** The breakpoint `addBreakpoint` registers: `fillAttributes`' id, line, enabled flag and message. */
  function NewTestplanBreakpoint(handle: nat, resource: Resource, line: int): (bp: Breakpoint)
    ensures bp.modelId == BreakpointId && IsLineKind(bp.kind) && !IsCLineKind(bp.kind)
    ensures bp.enabled && bp.message == TestMessage
    ensures IsSameLine(Some(resource), line, bp) <==> line >= 0
  {
    Breakpoint(handle, TestplanKind, BreakpointId, Some(Marker(MarkerType, Some(resource))), line, None, true, TestMessage)
  }

  /** The manager's list without the breakpoint at index `i`. */
  function RemoveAt(bps: seq<Breakpoint>, i: nat): (r: seq<Breakpoint>)
    requires i < |bps|
    ensures |r| == |bps| - 1
    ensures forall j :: 0 <= j < i ==> r[j] == bps[j]
    ensures forall j :: i <= j < |r| ==> r[j] == bps[j + 1]
  {
    bps[..i] + bps[i + 1..]
  }

  /**
    `toggleBreakpoint` on a non-null resource and a non-negative line: remove the breakpoint
    found there and return it, or register a new one (with handle `h`) and return null.
   */
  function Toggle(bps: seq<Breakpoint>, resource: Resource, line: nat, h: nat): (r: (seq<Breakpoint>, Option<Breakpoint>))
    ensures r.1.Some? <==> exists i :: 0 <= i < |bps| && Findable(Some(resource), line, bps[i])
    ensures r.1.Some? ==> r.1.value in bps && Findable(Some(resource), line, r.1.value) && |r.0| == |bps| - 1
    ensures r.1.Some? ==>
      exists i :: 0 <= i < |bps| && r.1.value == bps[i] && r.0 == bps[..i] + bps[i + 1..]
                  && forall j :: 0 <= j < i ==> !Findable(Some(resource), line, bps[j])
    ensures r.1.None? ==> r.0 == bps + [NewTestplanBreakpoint(h, resource, line)]
  {
    var f := FindIndex(bps, Some(resource), line);
    if f.Some? then (RemoveAt(bps, f.value), Some(bps[f.value]))
    else (bps + [NewTestplanBreakpoint(h, resource, line)], None)
  }

  /**
    `isSame(resource, line, bp)` fails for a null resource and a negative line, so nothing is found
    or active there; a breakpoint that is found sits at that line, with its marker on that resource.
   */
  lemma FoundBreakpointIsAtTheLine(bps: seq<Breakpoint>, resource: Option<Resource>, line: int)
    ensures resource.None? || line < 0 ==> FindIndex(bps, resource, line).None? && !IsActiveAt(bps, resource, line)
    ensures FindIndex(bps, resource, line).Some? ==>
      var bp := bps[FindIndex(bps, resource, line).value];
      && resource.Some? && line >= 0 && bp.line == line
      && bp.marker.Some? && bp.marker.value.resource == resource
  {
  }

  /** A breakpoint appended after a list with no match is the first match of the longer list. */
  lemma FindAppended(bps: seq<Breakpoint>, bp: Breakpoint, resource: Option<Resource>, line: int)
    requires FindIndex(bps, resource, line).None?
    requires Findable(resource, line, bp)
    ensures FindIndex(bps + [bp], resource, line) == Some(|bps|)
  {
    assert (bps + [bp])[|bps|] == bp;
    assert forall j :: 0 <= j < |bps| ==> (bps + [bp])[j] == bps[j];
  }

  /**
    Toggling twice at a resource and line where nothing was found adds a breakpoint and then
    finds and removes that same breakpoint, restoring the manager's list.
   */
  lemma ToggleTwiceRestores(bps: seq<Breakpoint>, resource: Resource, line: nat, h: nat)
    requires FindIndex(bps, Some(resource), line).None?
    ensures var (once, prev1) := Toggle(bps, resource, line, h);
      var (twice, prev2) := Toggle(once, resource, line, h + 1);
      prev1.None? && prev2 == Some(NewTestplanBreakpoint(h, resource, line)) && twice == bps
  {
    var nb := NewTestplanBreakpoint(h, resource, line);
    FindAppended(bps, nb, Some(resource), line);
    assert (bps + [nb])[..|bps|] == bps;
  }

  /** A toggle that adds a breakpoint makes that line active. */
  lemma ToggleAddActivates(bps: seq<Breakpoint>, resource: Resource, line: nat, h: nat)
    requires FindIndex(bps, Some(resource), line).None?
    ensures IsActiveAt(Toggle(bps, resource, line, h).0, Some(resource), line)
  {
    FindAppended(bps, NewTestplanBreakpoint(h, resource, line), Some(resource), line);
  }

  /** The breakpoints `setAllLineBreakpointsEnabled` rewrites: C line breakpoints in the resource's file. */
  predicate Affected(bp: Breakpoint, resource: Option<Resource>) {
    IsCLineKind(bp.kind) && IsSameFile(resource, bp)
  }

  /** The manager's list after `setAllLineBreakpointsEnabled(resource, enabled)`. */
  function SetEnabledWhere(bps: seq<Breakpoint>, resource: Option<Resource>, enabled: bool): (r: seq<Breakpoint>)
    ensures |r| == |bps|
    ensures forall i :: 0 <= i < |bps| ==> r[i] == bps[i].(enabled := r[i].enabled)
    ensures forall i :: 0 <= i < |bps| ==> r[i].enabled == if Affected(bps[i], resource) then enabled else bps[i].enabled
  {
    seq(|bps|, i requires 0 <= i < |bps| => if Affected(bps[i], resource) then bps[i].(enabled := enabled) else bps[i])
  }

  /** `bps` with the affected breakpoints among its first `n` set to `enabled`. */
  function SetEnabledUpTo(bps: seq<Breakpoint>, resource: Option<Resource>, enabled: bool, n: nat): (r: seq<Breakpoint>)
    requires n <= |bps|
    ensures |r| == |bps|
  {
    seq(|bps|, j requires 0 <= j < |bps| => if j < n && Affected(bps[j], resource) then bps[j].(enabled := enabled) else bps[j])
  }

  /** Visiting breakpoint `n` extends the rewritten prefix, and the map of previous flags, by that breakpoint. */
  lemma SetEnabledStep(bps: seq<Breakpoint>, resource: Option<Resource>, enabled: bool, n: nat)
    requires n < |bps|
    ensures SetEnabledUpTo(bps, resource, enabled, n + 1) ==
      if Affected(bps[n], resource)
      then SetEnabledUpTo(bps, resource, enabled, n)[n := bps[n].(enabled := enabled)]
      else SetEnabledUpTo(bps, resource, enabled, n)
    ensures PreviousUpTo(bps, resource, n + 1) ==
      if Affected(bps[n], resource)
      then PreviousUpTo(bps, resource, n)[bps[n].handle := bps[n].enabled]
      else PreviousUpTo(bps, resource, n)
  {
  }

  /** Once the whole list is rewritten, it is the list `SetEnabledWhere` describes, with the same identities. */
  lemma SetEnabledDone(bps: seq<Breakpoint>, resource: Option<Resource>, enabled: bool, bound: nat)
    requires DistinctHandles(bps)
    requires forall j :: 0 <= j < |bps| ==> bps[j].handle < bound
    ensures SetEnabledUpTo(bps, resource, enabled, |bps|) == SetEnabledWhere(bps, resource, enabled)
    ensures DistinctHandles(SetEnabledWhere(bps, resource, enabled))
    ensures forall j :: 0 <= j < |bps| ==> SetEnabledWhere(bps, resource, enabled)[j].handle < bound
  {
    var r := SetEnabledWhere(bps, resource, enabled);
    assert forall j :: 0 <= j < |bps| ==> r[j].handle == bps[j].handle;
  }

  /** The map `setAllLineBreakpointsEnabled` builds over the first `n` breakpoints: identity to previous flag. */
  function PreviousUpTo(bps: seq<Breakpoint>, resource: Option<Resource>, n: nat): map<nat, bool>
    requires n <= |bps|
  {
    if n == 0 then map[]
    else
      var m := PreviousUpTo(bps, resource, n - 1);
      if Affected(bps[n - 1], resource) then m[bps[n - 1].handle := bps[n - 1].enabled] else m
  }

  /** With distinct identities the map holds the previous flag of every affected breakpoint, and nothing else. */
  lemma {:induction false} PreviousUpToSpec(bps: seq<Breakpoint>, resource: Option<Resource>, n: nat)
    requires n <= |bps| && DistinctHandles(bps)
    ensures forall j :: 0 <= j < n && Affected(bps[j], resource) ==>
      bps[j].handle in PreviousUpTo(bps, resource, n) && PreviousUpTo(bps, resource, n)[bps[j].handle] == bps[j].enabled
    ensures forall h :: h in PreviousUpTo(bps, resource, n) ==> exists j :: 0 <= j < n && Affected(bps[j], resource) && bps[j].handle == h
  {
    if n > 0 {
      PreviousUpToSpec(bps, resource, n - 1);
      var m0 := PreviousUpTo(bps, resource, n - 1);
      var m := PreviousUpTo(bps, resource, n);
      forall h | h in m
        ensures exists j :: 0 <= j < n && Affected(bps[j], resource) && bps[j].handle == h
      {
        if h in m0 {
          var j :| 0 <= j < n - 1 && Affected(bps[j], resource) && bps[j].handle == h;
        } else {
          assert Affected(bps[n - 1], resource) && bps[n - 1].handle == h;
        }
      }
    }
  }

  function PreviousEnabled(bps: seq<Breakpoint>, resource: Option<Resource>): map<nat, bool> {
    PreviousUpTo(bps, resource, |bps|)
  }

  /** One breakpoint after `restoreBreakpointsEnabled` has visited the keys in `visited`. */
  function RestoreOne(bp: Breakpoint, m: map<Option<nat>, Option<bool>>, visited: set<Option<nat>>): Breakpoint {
    var k := Some(bp.handle);
    if k in visited && k in m && m[k].Some? then bp.(enabled := m[k].value) else bp
  }

  /** The manager's list after `restoreBreakpointsEnabled(m)`: each non-null key gets its non-null value. */
  function Restore(bps: seq<Breakpoint>, m: map<Option<nat>, Option<bool>>): (r: seq<Breakpoint>)
    ensures |r| == |bps|
    ensures forall i :: 0 <= i < |bps| ==> r[i] == bps[i].(enabled := r[i].enabled)
    ensures forall i :: 0 <= i < |bps| ==> r[i].enabled == if Some(bps[i].handle) in m && m[Some(bps[i].handle)].Some? then m[Some(bps[i].handle)].value else bps[i].enabled
  {
    seq(|bps|, i requires 0 <= i < |bps| => RestoreOne(bps[i], m, m.Keys))
  }

  /** A `Map<ICBreakpoint, Boolean>` as the restore operation sees it: keys and values may be null. */
  function Lift(prev: map<nat, bool>): (m: map<Option<nat>, Option<bool>>)
    ensures forall h :: h in prev <==> Some(h) in m
    ensures forall h :: h in prev ==> m[Some(h)] == Some(prev[h])
    ensures None !in m
  {
    map h | h in prev :: Some(h) := Some(prev[h])
  }

  /** Restoring with the map `setAllLineBreakpointsEnabled` returned gives back every original flag. */
  lemma RestoreUndoesSetEnabled(bps: seq<Breakpoint>, resource: Option<Resource>, enabled: bool)
    requires DistinctHandles(bps)
    ensures Restore(SetEnabledWhere(bps, resource, enabled), Lift(PreviousEnabled(bps, resource))) == bps
  {
    var after := SetEnabledWhere(bps, resource, enabled);
    var prev := PreviousEnabled(bps, resource);
    var r := Restore(after, Lift(prev));
    PreviousUpToSpec(bps, resource, |bps|);
    forall i | 0 <= i < |bps|
      ensures r[i] == bps[i]
    {
      var h := bps[i].handle;
      assert after[i].handle == h;
      if Affected(bps[i], resource) {
        assert h in prev && prev[h] == bps[i].enabled;
      } else {
        assert forall j :: 0 <= j < |bps| && bps[j].handle == h ==> j == i;
        assert h !in prev;
      }
    }
  }

  /** No breakpoint is affected for a null resource: no previous flag is recorded before `n`. */
  lemma {:induction false} NullResourceRecordsNothing(bps: seq<Breakpoint>, n: nat)
    requires n <= |bps|
    ensures PreviousUpTo(bps, None, n) == map[]
  {
    if n > 0 {
      NullResourceRecordsNothing(bps, n - 1);
    }
  }

  /**
    `isSame(resource, bp)` fails for a null resource, so setting the flags for a null resource
    changes nothing and returns an empty map; and it compares only the resource's location with
    the breakpoint's file name, so two resources with the same location affect the same breakpoints.
   */
  lemma SameFileByLocation(bps: seq<Breakpoint>, r1: Resource, r2: Resource, enabled: bool)
    ensures SetEnabledWhere(bps, None, enabled) == bps && PreviousEnabled(bps, None) == map[]
    ensures r1.location == r2.location ==>
      SetEnabledWhere(bps, Some(r1), enabled) == SetEnabledWhere(bps, Some(r2), enabled)
  {
    NullResourceRecordsNothing(bps, |bps|);
  }

  /** The manager's list after `removeBreakpoint` of the breakpoint with identity `h`. */
  function RemoveHandle(bps: seq<Breakpoint>, h: nat): (r: seq<Breakpoint>)
    ensures forall b :: b in r <==> b in bps && b.handle != h
    ensures |r| <= |bps|
  {
    if bps == [] then []
    else if bps[0].handle == h then RemoveHandle(bps[1..], h)
    else [bps[0]] + RemoveHandle(bps[1..], h)
  }

  /** Removing keeps identities distinct and keeps every remaining breakpoint one of the old ones. */
  lemma {:induction false} RemoveHandleKeepsDistinct(bps: seq<Breakpoint>, h: nat)
    requires DistinctHandles(bps)
    ensures DistinctHandles(RemoveHandle(bps, h))
  {
    if bps != [] {
      RemoveHandleKeepsDistinct(bps[1..], h);
      var rest := RemoveHandle(bps[1..], h);
      assert forall b :: b in rest ==> b.handle != bps[0].handle;
    }
  }

  /** Removing an identity no breakpoint has changes nothing. */
  lemma {:induction false} RemoveAbsentHandle(bps: seq<Breakpoint>, h: nat)
    requires forall i :: 0 <= i < |bps| ==> bps[i].handle != h
    ensures RemoveHandle(bps, h) == bps
  {
    if bps != [] {
      RemoveAbsentHandle(bps[1..], h);
    }
  }

  /** With distinct identities, removing the first breakpoint's identity removes exactly that breakpoint. */
  lemma RemoveHeadHandle(bps: seq<Breakpoint>)
    requires bps != [] && DistinctHandles(bps)
    ensures RemoveHandle(bps, bps[0].handle) == bps[1..]
  {
    RemoveAbsentHandle(bps[1..], bps[0].handle);
  }

  /** With distinct identities, removing the identity of the breakpoint at index `i` removes exactly that breakpoint. */
  lemma {:induction false} RemoveHandleIsRemoveAt(bps: seq<Breakpoint>, i: nat)
    requires DistinctHandles(bps) && i < |bps|
    ensures RemoveHandle(bps, bps[i].handle) == RemoveAt(bps, i)
    decreases i
  {
    if i == 0 {
      RemoveHeadHandle(bps);
      assert RemoveAt(bps, 0) == bps[1..];
    } else {
      var tail := bps[1..];
      assert tail[i - 1] == bps[i];
      RemoveHandleIsRemoveAt(tail, i - 1);
      assert bps[0].handle != bps[i].handle;
      assert RemoveAt(bps, i) == [bps[0]] + RemoveAt(tail, i - 1);
    }
  }

  /** `isTestplanBreakpoint`: a test-plan breakpoint whose marker is on the given non-null resource. */
  predicate IsTestplanBreakpoint(bp: Breakpoint, resource: Option<Resource>) {
    bp.kind == TestplanKind && resource.Some? && bp.marker.Some? && bp.marker.value.resource == resource
  }

  /**
    Every breakpoint `toggleBreakpoint` adds is a test-plan breakpoint of its resource (and of no
    null resource); after a toggle that adds one, the breakpoint `findBreakpoint` then returns at
    that resource and line is a test-plan breakpoint of the resource.
   */
  lemma NewBreakpointIsTestplan(bps: seq<Breakpoint>, h: nat, resource: Resource, line: int)
    ensures IsTestplanBreakpoint(NewTestplanBreakpoint(h, resource, line), Some(resource))
    ensures !IsTestplanBreakpoint(NewTestplanBreakpoint(h, resource, line), None)
    ensures line >= 0 && FindIndex(bps, Some(resource), line).None? ==>
      var after := Toggle(bps, resource, line, h).0;
      FindIndex(after, Some(resource), line).Some?
      && IsTestplanBreakpoint(after[FindIndex(after, Some(resource), line).value], Some(resource))
  {
    if line >= 0 && FindIndex(bps, Some(resource), line).None? {
      FindAppended(bps, NewTestplanBreakpoint(h, resource, line), Some(resource), line);
    }
  }

  /** The platform breakpoint manager: registered breakpoints in order, and the next fresh identity. */
  class BreakpointManager {
    var breakpoints: seq<Breakpoint>
    var nextHandle: nat

    /** Identities are distinct and all below `nextHandle`. */
    predicate Valid()
      reads this
    {
      DistinctHandles(breakpoints) && forall i :: 0 <= i < |breakpoints| ==> breakpoints[i].handle < nextHandle
    }

    constructor ()
      ensures Valid() && breakpoints == [] && nextHandle == 0
    {
      breakpoints := [];
      nextHandle := 0;
    }

    /**
      `findBreakpoint`: the first breakpoint, in manager order among those of the test-plan
      model, that is a line breakpoint at the resource and line (`getBreakpoints(id)` keeps the
      manager's order, so this is also the first findable one of the whole list).
     */
    method FindBreakpoint(resource: Option<Resource>, line: int) returns (bp: Option<Breakpoint>)
      ensures FindIndex(breakpoints, resource, line).None? ==> bp.None?
      ensures FindIndex(breakpoints, resource, line).Some? ==> bp == Some(breakpoints[FindIndex(breakpoints, resource, line).value])
    {
      var i := 0;
      while i < |breakpoints|
        invariant i <= |breakpoints|
        invariant FindFrom(breakpoints, resource, line, i) == FindIndex(breakpoints, resource, line)
      {
        var b := breakpoints[i];
        if b.modelId == BreakpointId && IsLineKind(b.kind) {
          if IsSameLine(resource, line, b) {
            return Some(b);
          }
        }
        i := i + 1;
      }
      return None;
    }

    /** `isActiveTestplanBreakpoint(resource, line)`. */
    method IsActiveTestplanBreakpoint(resource: Option<Resource>, line: int) returns (active: bool)
      ensures active <==> IsActiveAt(breakpoints, resource, line)
    {
      var bp := FindBreakpoint(resource, line);
      active := bp.Some? && bp.value.enabled;
    }

    /**
      `isActiveTestplanBreakpoint(resource, lines)`: `ok` is false when the array is null;
      otherwise `active` tells whether some line of it is active.
     */
    method IsActiveTestplanBreakpointAny(resource: Option<Resource>, lines: Option<seq<int>>) returns (ok: bool, active: bool)
      ensures ok <==> lines.Some?
      ensures ok ==> (active <==> exists k :: 0 <= k < |lines.value| && IsActiveAt(breakpoints, resource, lines.value[k]))
      ensures !ok ==> !active
    {
      if lines.None? {
        return false, false;
      }
      ok := true;
      var ls := lines.value;
      var k := 0;
      while k < |ls|
        invariant k <= |ls|
        invariant forall q :: 0 <= q < k ==> !IsActiveAt(breakpoints, resource, ls[q])
      {
        active := IsActiveTestplanBreakpoint(resource, ls[k]);
        if active {
          return;
        }
        k := k + 1;
      }
      active := false;
    }

    /**
      `toggleBreakpoint`: `ok` is false, and nothing changes, when the resource is null or the
      line is negative; otherwise the manager and the result are those of `Toggle`.
     */
    method ToggleBreakpoint(resource: Option<Resource>, line: int) returns (ok: bool, previous: Option<Breakpoint>)
      requires Valid()
      modifies this
      ensures Valid()
      ensures ok <==> resource.Some? && line >= 0
      ensures !ok ==> breakpoints == old(breakpoints) && nextHandle == old(nextHandle) && previous.None?
      ensures ok ==> (breakpoints, previous) == Toggle(old(breakpoints), resource.value, line, old(nextHandle))
    {
      if resource.None? || line < 0 {
        return false, None;
      }
      ok := true;
      previous := FindBreakpoint(resource, line);
      if previous.Some? {
        var i := FindIndex(breakpoints, resource, line).value;
        breakpoints := RemoveAt(breakpoints, i);
      } else {
        breakpoints := breakpoints + [NewTestplanBreakpoint(nextHandle, resource.value, line)];
        nextHandle := nextHandle + 1;
      }
    }

    /**
      `setAllLineBreakpointsEnabled`: sets the flag on exactly the affected breakpoints and
      returns their previous flags keyed by identity.
     */
    method SetAllLineBreakpointsEnabled(resource: Option<Resource>, enabled: bool) returns (previous: map<nat, bool>)
      requires Valid()
      modifies this`breakpoints
      ensures Valid()
      ensures breakpoints == SetEnabledWhere(old(breakpoints), resource, enabled)
      ensures previous == PreviousEnabled(old(breakpoints), resource)
    {
      ghost var bps := breakpoints;
      previous := map[];
      var i := 0;
      while i < |breakpoints|
        invariant i <= |breakpoints| == |bps|
        invariant breakpoints == SetEnabledUpTo(bps, resource, enabled, i)
        invariant previous == PreviousUpTo(bps, resource, i)
      {
        var bp := breakpoints[i];
        assert bp == bps[i];
        SetEnabledStep(bps, resource, enabled, i);
        if Affected(bp, resource) {
          previous := previous[bp.handle := bp.enabled];
          breakpoints := breakpoints[i := bp.(enabled := enabled)];
        }
        i := i + 1;
      }
      SetEnabledDone(bps, resource, enabled, nextHandle);
    }

    /**
      `restoreBreakpointsEnabled`: `ok` is false, and nothing changes, when the map is null;
      otherwise every breakpoint whose identity is a key with a non-null value gets that value.
      The keys are visited in the map's own order, which does not matter.
     */
    method RestoreBreakpointsEnabled(m: Option<map<Option<nat>, Option<bool>>>) returns (ok: bool)
      requires Valid()
      modifies this`breakpoints
      ensures Valid()
      ensures ok <==> m.Some?
      ensures !ok ==> breakpoints == old(breakpoints)
      ensures ok ==> breakpoints == Restore(old(breakpoints), m.value)
    {
      if m.None? {
        return false;
      }
      ok := true;
      var mv := m.value;
      ghost var bps := breakpoints;
      var todo := mv.Keys;
      while todo != {}
        invariant todo <= mv.Keys
        invariant |breakpoints| == |bps|
        invariant forall i :: 0 <= i < |bps| ==> breakpoints[i] == RestoreOne(bps[i], mv, mv.Keys - todo)
        decreases todo
      {
        var k :| k in todo;
        if k.Some? && mv[k].Some? {
          SetEnabledOf(k.value, mv[k].value);
        }
        todo := todo - {k};
      }
    }

    /** `removeBreakpoint(bp, true)`: unregisters the breakpoint with identity `h`. */
    method RemoveBreakpoint(h: nat)
      requires Valid()
      modifies this`breakpoints
      ensures Valid()
      ensures breakpoints == RemoveHandle(old(breakpoints), h)
    {
      breakpoints := RemoveHandle(breakpoints, h);
      RemoveHandleKeepsDistinct(old(breakpoints), h);
    }

    /** `bp.setEnabled(enabled)` on the registered breakpoint with identity `h`, if there is one. */
    method SetEnabledOf(h: nat, enabled: bool)
      modifies this`breakpoints
      ensures |breakpoints| == |old(breakpoints)|
      ensures forall i :: 0 <= i < |breakpoints| ==>
        breakpoints[i] == if old(breakpoints)[i].handle == h then old(breakpoints)[i].(enabled := enabled) else old(breakpoints)[i]
    {
      breakpoints := seq(|breakpoints|, i requires 0 <= i < |breakpoints| reads this =>
        if breakpoints[i].handle == h then breakpoints[i].(enabled := enabled) else breakpoints[i]);
    }
  }
}
