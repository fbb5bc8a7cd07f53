/**
  `SessionEventListener`: the listener a launch installs on its DSF session to
  learn when the target has stopped at the stop-at-main symbol. Every suspended
  event that carries an MI *stopped event overwrites the stored stopped event;
  the first one whose frame's function name contains the symbol sets the
  "target suspended" flag and unsubscribes the listener.

  The session's subscription list is represented by the listener's own
  `subscribed` flag, and the session's dispatching by `Deliver`.
 */
module SessionListener {
  import opened Common

  /** An `MIFrame`; its function name may be null. */
  datatype Frame = Frame(functionName: Option<string>)

  /** An `MIStoppedEvent`, identified by `id`; its frame may be null. */
  datatype StoppedEvent = StoppedEvent(id: nat, frame: Option<Frame>)

  /** What `IMIDMEvent.getMIEvent()` returns. */
  datatype MiPayload = MiStopped(stop: StoppedEvent) | OtherMiEvent

  /**
    A DSF event: whether it is an `ISuspendedDMEvent`, and its MI event when it is an
    `IMIDMEvent` (`None` when it is not).
   */
  datatype DmEvent = DmEvent(isSuspended: bool, mi: Option<MiPayload>)

  /** How reading the stop-at-main-symbol attribute of the launch configuration turns out. */
  datatype SymbolAttribute =
    | SymbolSet(value: Option<string>)  // stored, possibly as null
    | SymbolAbsent                      // not stored: `getAttribute` returns its default
    | SymbolUnreadable                  // `getAttribute` throws CoreException

  const DefaultStopSymbol := "main"

  /** The symbol the listener waits for: the attribute's value, "main" when it is missing, null or unreadable. */
  function TargetSymbol(a: SymbolAttribute): (r: string)
    ensures a.SymbolSet? && a.value.Some? ==> r == a.value.value
    ensures !(a.SymbolSet? && a.value.Some?) ==> r == DefaultStopSymbol
  {
    match a
    case SymbolSet(Some(s)) => s
    case _ => DefaultStopSymbol
  }

  /** The MI *stopped event a suspended event carries, if it carries one. */
  function StopOf(ev: DmEvent): (r: Option<StoppedEvent>)
    ensures r.Some? <==> ev.isSuspended && ev.mi.Some? && ev.mi.value.MiStopped?
    ensures r.Some? ==> ev.mi == Some(MiStopped(r.value))
  {
    if ev.isSuspended && ev.mi.Some? && ev.mi.value.MiStopped? then Some(ev.mi.value.stop) else None
  }

  /** The frame check: a frame, with a function name, in which the symbol occurs (`indexOf != -1`). */
  predicate FrameMatches(stop: StoppedEvent, symbol: string) {
    stop.frame.Some? && stop.frame.value.functionName.Some? && Contains(stop.frame.value.functionName.value, symbol)
  }

  /** The event the listener is waiting for. */
  predicate IsMatch(ev: DmEvent, symbol: string) {
    StopOf(ev).Some? && FrameMatches(StopOf(ev).value, symbol)
  }

  /** The listener's observable state. */
  datatype ListenerState = ListenerState(
    hasSession: bool,
    stored: Option<StoppedEvent>,
    suspended: bool,
    subscribed: bool)

  /** A freshly constructed listener: no session, nothing stored, not suspended, not subscribed. */
  const Fresh := ListenerState(false, None, false, false)

  /**
    `eventDispatched`: nothing happens without a session (the not-null assertion fails first)
    or for an event that does not carry an MI *stopped event inside a suspended event; otherwise
    the carried event overwrites the stored one whatever its frame, and when its frame matches,
    the flag is set and the listener unsubscribes.
   */
  function Dispatch(st: ListenerState, ev: DmEvent, symbol: string): (r: ListenerState)
    ensures !(st.hasSession && ev.isSuspended && ev.mi.Some? && ev.mi.value.MiStopped?) ==> r == st
    ensures st.hasSession && ev.isSuspended && ev.mi.Some? && ev.mi.value.MiStopped? ==>
      && r.hasSession
      && r.stored == Some(ev.mi.value.stop)
      && (r.suspended <==> st.suspended || FrameMatches(ev.mi.value.stop, symbol))
      && (r.subscribed <==> st.subscribed && !FrameMatches(ev.mi.value.stop, symbol))
  {
    if !st.hasSession || StopOf(ev).None? then st
    else
      var st1 := st.(stored := StopOf(ev));
      if FrameMatches(StopOf(ev).value, symbol) then st1.(suspended := true, subscribed := false) else st1
  }

  /** The session hands an event to the listener only while it is subscribed. */
  function Deliver(st: ListenerState, ev: DmEvent, symbol: string): ListenerState {
    if st.subscribed then Dispatch(st, ev, symbol) else st
  }

  /** The session delivering `evs` in order. */
  function Run(st: ListenerState, evs: seq<DmEvent>, symbol: string): ListenerState {
    if evs == [] then st else Deliver(Run(st, evs[..|evs| - 1], symbol), evs[|evs| - 1], symbol)
  }

  /** The index of the first event the listener waits for. */
  function FirstMatch(evs: seq<DmEvent>, symbol: string): (r: Option<nat>)
    ensures r.Some? ==> r.value < |evs| && IsMatch(evs[r.value], symbol)
                        && forall j :: 0 <= j < r.value ==> !IsMatch(evs[j], symbol)
    ensures r.None? ==> forall j :: 0 <= j < |evs| ==> !IsMatch(evs[j], symbol)
  {
    if evs == [] then None
    else
      var f := FirstMatch(evs[..|evs| - 1], symbol);
      if f.Some? then f
      else if IsMatch(evs[|evs| - 1], symbol) then Some(|evs| - 1)
      else None
  }

  /** The last *stopped event carried by a suspended event in `evs`, or `dflt` when there is none. */
  function LastStopOr(evs: seq<DmEvent>, dflt: Option<StoppedEvent>): (r: Option<StoppedEvent>)
    ensures r != dflt ==> exists j :: 0 <= j < |evs| && r == StopOf(evs[j])
  {
    if evs == [] then dflt
    else if StopOf(evs[|evs| - 1]).Some? then StopOf(evs[|evs| - 1])
    else LastStopOr(evs[..|evs| - 1], dflt)
  }

  /** Nothing clears the flag: once set it stays set, whatever events follow. */
  lemma {:induction false} SuspendedStaysSet(st: ListenerState, evs: seq<DmEvent>, symbol: string)
    requires st.suspended
    ensures Run(st, evs, symbol).suspended
    decreases |evs|
  {
    if evs != [] {
      SuspendedStaysSet(st, evs[..|evs| - 1], symbol);
    }
  }

  /** A listener with a session, subscribed and still waiting. */
  predicate Listening(st: ListenerState) {
    st.hasSession && st.subscribed && !st.suspended
  }

  /**
    While it listens, the listener keeps the last *stopped event it is shown, and the first
    matching event ends the wait: after it the flag is set, the listener is unsubscribed,
    the matching event stays stored and later events change nothing.
   */
  lemma {:induction false} RunWhileListening(st: ListenerState, evs: seq<DmEvent>, symbol: string)
    requires Listening(st)
    ensures FirstMatch(evs, symbol).None? ==> Run(st, evs, symbol) == st.(stored := LastStopOr(evs, st.stored))
    ensures FirstMatch(evs, symbol).Some? ==>
      Run(st, evs, symbol) == st.(stored := StopOf(evs[FirstMatch(evs, symbol).value]), suspended := true, subscribed := false)
    decreases |evs|
  {
    if evs != [] {
      var p := evs[..|evs| - 1];
      var last := evs[|evs| - 1];
      RunWhileListening(st, p, symbol);
    }
  }

  /**
    After a session is attached and the listener subscribed, the flag is set exactly when a
    matching event was delivered, and then the stored event is the first matching one.
   */
  lemma SuspendedIffMatchDelivered(evs: seq<DmEvent>, symbol: string)
    ensures var st := Run(ListenerState(true, None, false, true), evs, symbol);
      (st.suspended <==> exists j :: 0 <= j < |evs| && IsMatch(evs[j], symbol))
      && (st.suspended ==> st.stored == StopOf(evs[FirstMatch(evs, symbol).value]) && !st.subscribed)
  {
    RunWhileListening(ListenerState(true, None, false, true), evs, symbol);
  }

  /** An unsubscribed listener (a fresh one, or one that already matched) ignores every event. */
  lemma {:induction false} UnsubscribedIgnoresEvents(st: ListenerState, evs: seq<DmEvent>, symbol: string)
    requires !st.subscribed
    ensures Run(st, evs, symbol) == st
    decreases |evs|
  {
    if evs != [] {
      UnsubscribedIgnoresEvents(st, evs[..|evs| - 1], symbol);
    }
  }

  /**
    A first *stopped event outside main (the one gdb 7 reports on connecting to gdbserver) is
    stored but does not end the wait; the stop in main that follows does.
   */
  lemma ConnectStopThenMainStop(a: StoppedEvent, b: StoppedEvent)
    requires !FrameMatches(a, DefaultStopSymbol) && FrameMatches(b, DefaultStopSymbol)
    ensures var st0 := ListenerState(true, None, false, true);
      var ea := DmEvent(true, Some(MiStopped(a)));
      var eb := DmEvent(true, Some(MiStopped(b)));
      Run(st0, [ea], DefaultStopSymbol) == ListenerState(true, Some(a), false, true)
      && Run(st0, [ea, eb], DefaultStopSymbol) == ListenerState(true, Some(b), true, false)
  {
    var st0 := ListenerState(true, None, false, true);
    var ea := DmEvent(true, Some(MiStopped(a)));
    var eb := DmEvent(true, Some(MiStopped(b)));
    assert [ea, eb][..1] == [ea];
    assert [ea][..0] == [];
  }

  /** The listener object: its session reference, stored event, flag and subscription. */
  class SessionEventListener {
    /** The stop-at-main symbol of the launch configuration the listener was created with. */
    const symbol: string
    var hasSession: bool
    var initialStoppedEvent: Option<StoppedEvent>
    var targetSuspended: bool
    var subscribed: bool

    function State(): ListenerState
      reads this
    {
      ListenerState(hasSession, initialStoppedEvent, targetSuspended, subscribed)
    }

    /** `new SessionEventListener(launchConfiguration)`. */
    constructor (attr: SymbolAttribute)
      ensures symbol == TargetSymbol(attr)
      ensures State() == Fresh
    {
      symbol := TargetSymbol(attr);
      hasSession := false;
      initialStoppedEvent := None;
      targetSuspended := false;
      subscribed := false;
    }

    /** `setSession`: records the session, then asserts it is not null. */
    method SetSession(session: bool) returns (ok: bool)
      modifies this`hasSession
      ensures hasSession == session
      ensures ok <==> session
    {
      hasSession := session;
      ok := hasSession;
    }

    /** The session-started callback `doLaunchInner` installs: attach the session and subscribe. */
    method SessionStarted()
      modifies this`hasSession, this`subscribed
      ensures State() == old(State()).(hasSession := true, subscribed := true)
    {
      var _ := SetSession(true);
      subscribed := true;
    }

    /** `eventDispatched`; `ok` is false when the not-null assertion on the session fails. */
    method EventDispatched(ev: DmEvent) returns (ok: bool)
      modifies this`initialStoppedEvent, this`targetSuspended, this`subscribed
      ensures ok == hasSession
      ensures State() == Dispatch(old(State()), ev, symbol)
    {
      ok := hasSession;
      if !ok {
        return;
      }
      if ev.isSuspended && ev.mi.Some? && ev.mi.value.MiStopped? {
        var stop := ev.mi.value.stop;
        initialStoppedEvent := Some(stop);
        var frame := stop.frame;
        if frame.Some? && frame.value.functionName.Some? && IndexOf(frame.value.functionName.value, symbol) != -1 {
          targetSuspended := true;
          subscribed := false;
        }
      }
    }

    /** The session delivering `evs` one at a time to its subscribed listeners. */
    method DeliverAll(evs: seq<DmEvent>)
      modifies this`initialStoppedEvent, this`targetSuspended, this`subscribed
      ensures State() == Run(old(State()), evs, symbol)
    {
      var i := 0;
      while i < |evs|
        invariant i <= |evs|
        invariant hasSession == old(hasSession)
        invariant State() == Run(old(State()), evs[..i], symbol)
      {
        assert evs[..i + 1][..i] == evs[..i];
        if subscribed {
          var _ := EventDispatched(evs[i]);
        }
        i := i + 1;
      }
      assert evs[..i] == evs;
    }

    /**
      `waitUntilTargetSuspended`, after the session has delivered its events: `ok` is false
      when the assertion on the flag fails.
     */
    method WaitUntilTargetSuspended() returns (ok: bool)
      ensures ok <==> targetSuspended
    {
      ok := targetSuspended;
    }

    /** `getInitialStoppedEvent`. */
    method GetInitialStoppedEvent() returns (e: Option<StoppedEvent>)
      ensures e == initialStoppedEvent
    {
      e := initialStoppedEvent;
    }
  }
}
