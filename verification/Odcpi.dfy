/** On-demand position injection requests and the timer that throttles them
    (gps/gnss/GnssAdapter.cpp). */
module Odcpi {
  import opened Wrappers

  datatype RequestType = REQUEST_START | REQUEST_STOP | REQUEST_INVALID

  datatype Request = Request(kind: RequestType, isEmergencyMode: bool)

  datatype Event =
    | Register(callback: nat, priority: nat)   // a handler offers its callback
    | Ask(request: Request)                    // the modem asks for, or calls off, an injection
    | TimerExpire                              // a timer expiry is processed
    | ModemRestart

  // ----- The machine as steps -----------------------------------------------------------

  const PRIORITY_LOW := 0

  datatype State = State(callback: Option<nat>, priority: nat, requestActive: bool, timerActive: bool, stored: Request)
  {
    predicate Registered() { callback.Some? }
  }

  const START := State(None, PRIORITY_LOW, false, false, Request(REQUEST_START, false))

  /** The next state, and what is forwarded to the framework. */
  function Step(s: State, event: Event): (State, seq<Request>) {
    match event
    case Register(callback, priority) =>
      (if priority >= s.priority then s.(callback := Some(callback), priority := priority) else s, [])
    case Ask(r) =>
      if !s.Registered() then (s, [])
      else if r.kind == REQUEST_START then
        var forwards := (!s.requestActive && !s.timerActive) || (!s.stored.isEmergencyMode && r.isEmergencyMode);
        (s.(requestActive := s.requestActive || s.timerActive || forwards, timerActive := s.timerActive || forwards,
            stored := r),
         if forwards then [r] else [])
      else if r.kind == REQUEST_STOP then (s.(requestActive := false), [r])
      else (s, [])
    case TimerExpire => (s.(timerActive := s.requestActive), if s.requestActive then [s.stored] else [])
    case ModemRestart => (s.(requestActive := false), [])
  }

  function StateAfter(events: seq<Event>): State {
    if events == [] then START else Step(StateAfter(events[..|events| - 1]), events[|events| - 1]).0
  }

  /** What step `i` of a run forwards. */
  function Forwarded(events: seq<Event>, i: nat): seq<Request>
    requires i < |events|
  {
    Step(StateAfter(events[..i]), events[i]).1
  }

  predicate ForwardsStart(events: seq<Event>, i: nat)
    requires i < |events|
  {
    exists r :: r in Forwarded(events, i) && r.kind == REQUEST_START
  }

  predicate ForwardsPlainStart(events: seq<Event>, i: nat)
    requires i < |events|
  {
    exists r :: r in Forwarded(events, i) && r.kind == REQUEST_START && !r.isEmergencyMode
  }

  /** What the underlying timer is told. */
  datatype TimerCall = TimerStart | TimerStop

  function TimerCalls(s: State, event: Event): seq<TimerCall> {
    match event
    case Ask(r) =>
      if r.kind != REQUEST_START || Step(s, event).1 == [] then []
      else if s.timerActive then [TimerStop, TimerStart] else [TimerStart]
    case TimerExpire => if s.requestActive then [TimerStop, TimerStart] else [TimerStop]
    case _ => []
  }

  function TimerCallsIn(events: seq<Event>): seq<TimerCall> {
    if events == [] then []
    else
      var before := events[..|events| - 1];
      TimerCallsIn(before) + TimerCalls(StateAfter(before), events[|events| - 1])
  }

  /** The timer is never started while it runs. */
  ghost predicate StartsWhenIdle(calls: seq<TimerCall>) {
    forall i :: 0 < i < |calls| && calls[i] == TimerStart ==> calls[i - 1] == TimerStop
  }

  predicate LeavesRunning(calls: seq<TimerCall>) {
    calls != [] && calls[|calls| - 1] == TimerStart
  }

  // ----- What every run keeps -----------------------------------------------------------

  /** Some handler has offered its callback. */
  function Offered(events: seq<Event>): bool {
    events != [] && (events[|events| - 1].Register? || Offered(events[..|events| - 1]))
  }

  /** The last START, STOP or modem restart decides whether an injection is wanted. */
  function Wanted(events: seq<Event>): bool {
    if events == [] then false
    else
      var before := events[..|events| - 1];
      match events[|events| - 1]
      case Ask(r) =>
        if !Offered(before) || r.kind == REQUEST_INVALID then Wanted(before)
        else r.kind == REQUEST_START
      case ModemRestart => false
      case _ => Wanted(before)
  }

  /** The last START asked for while there was a handler. */
  function LastStart(events: seq<Event>): Request {
    if events == [] then Request(REQUEST_START, false)
    else
      var before, event := events[..|events| - 1], events[|events| - 1];
      if event.Ask? && event.request.kind == REQUEST_START && Offered(before) then event.request else LastStart(before)
  }

  /** The timer is busy from a START on until an expiry that finds no request wanted. */
  function Busy(events: seq<Event>): bool {
    if events == [] then false
    else
      var before := events[..|events| - 1];
      match events[|events| - 1]
      case Ask(r) => Busy(before) || (r.kind == REQUEST_START && Offered(before))
      case TimerExpire => Wanted(before)
      case _ => Busy(before)
  }

  lemma {:induction false} EveryRunKeeps(events: seq<Event>)
    ensures var s := StateAfter(events);
      && (s.requestActive ==> s.timerActive && s.Registered())
      && s.stored.kind == REQUEST_START
      && s.requestActive == Wanted(events) && s.timerActive == Busy(events)
      && s.Registered() == Offered(events) && s.stored == LastStart(events)
      && (!s.Registered() ==> s.priority == PRIORITY_LOW)
  {
    if events != [] {
      EveryRunKeeps(events[..|events| - 1]);
    }
  }

  // ----- Exactly what is forwarded --------------------------------------------------------

  /** An expiry that finds a request wanted forwards the last START again; any other forwards nothing. */
  lemma ExpiryForwardsIff(events: seq<Event>, i: nat)
    requires i < |events| && events[i].TimerExpire?
    ensures Forwarded(events, i) == if Wanted(events[..i]) then [LastStart(events[..i])] else []
  {
    EveryRunKeeps(events[..i]);
  }

  /** With a handler, a START is forwarded exactly if the timer is not busy, or if it is the first
      emergency; a STOP always is. Without one, nothing is. */
  lemma RequestForwardsIff(events: seq<Event>, i: nat)
    requires i < |events| && events[i].Ask?
    ensures var r, before := events[i].request, events[..i];
      && (Forwarded(events, i) == [r] || Forwarded(events, i) == [])
      && (r.kind == REQUEST_START ==>
          (Forwarded(events, i) == [r] <==>
           Offered(before) && (!Busy(before) || (r.isEmergencyMode && !LastStart(before).isEmergencyMode))))
      && (r.kind == REQUEST_STOP ==> (Forwarded(events, i) == [r] <==> Offered(before)))
      && (r.kind == REQUEST_INVALID ==> Forwarded(events, i) == [])
  {
    EveryRunKeeps(events[..i]);
  }

  /** Registrations and modem restarts forward nothing. */
  lemma OthersForwardNothing(events: seq<Event>, i: nat)
    requires i < |events| && (events[i].Register? || events[i].ModemRestart?)
    ensures Forwarded(events, i) == []
  {
  }

  /** Event `i` offers this callback; none before it has a higher priority, and all after it have a
      lower one. */
  ghost predicate ChosenAt(events: seq<Event>, i: nat, callback: nat, priority: nat) {
    && i < |events| && events[i] == Register(callback, priority)
    && (forall j :: 0 <= j < i && events[j].Register? ==> events[j].priority <= priority)
    && (forall j :: i < j < |events| && events[j].Register? ==> events[j].priority < priority)
  }

  ghost predicate Chosen(events: seq<Event>, callback: Option<nat>, priority: nat) {
    match callback
    case None => priority == PRIORITY_LOW && forall i :: 0 <= i < |events| ==> !events[i].Register?
    case Some(c) => exists i :: ChosenAt(events, i, c, priority)
  }

  lemma ChosenSnoc(events: seq<Event>, event: Event, callback: Option<nat>, priority: nat)
    requires Chosen(events, callback, priority)
    ensures if event.Register? && event.priority >= priority
            then Chosen(events + [event], Some(event.callback), event.priority)
            else Chosen(events + [event], callback, priority)
  {
    var all := events + [event];
    assert all[|events|] == event && forall i :: 0 <= i < |events| ==> all[i] == events[i];
    if callback.Some? {
      var i :| ChosenAt(events, i, callback.value, priority);
      if event.Register? && event.priority >= priority {
        forall j | 0 <= j < |events| && all[j].Register? ensures all[j].priority <= event.priority {
          assert events[j].Register?;
        }
        assert ChosenAt(all, |events|, event.callback, event.priority);
      } else {
        assert ChosenAt(all, i, callback.value, priority);
      }
    } else if event.Register? {
      assert ChosenAt(all, |events|, event.callback, event.priority);
    }
  }

  /** The callback in use is the latest of those of the highest priority offered. */
  lemma {:induction false} LatestOfHighestPriority(events: seq<Event>)
    ensures Chosen(events, StateAfter(events).callback, StateAfter(events).priority)
  {
    if events != [] {
      var before, event := events[..|events| - 1], events[|events| - 1];
      LatestOfHighestPriority(before);
      ChosenSnoc(before, event, StateAfter(before).callback, StateAfter(before).priority);
      assert before + [event] == events;
    }
  }

  lemma ArmedWhenIdle(s: State, event: Event, calls: seq<TimerCall>)
    requires s.requestActive ==> s.timerActive
    requires StartsWhenIdle(calls) && (s.timerActive <==> LeavesRunning(calls))
    ensures StartsWhenIdle(calls + TimerCalls(s, event))
    ensures Step(s, event).0.timerActive <==> LeavesRunning(calls + TimerCalls(s, event))
  {
  }

  /** The active flag tells what the underlying timer was last told, and a start always finds it
      idle. */
  lemma {:induction false} TimerIsArmedWhenIdle(events: seq<Event>)
    ensures StartsWhenIdle(TimerCallsIn(events))
    ensures StateAfter(events).timerActive <==> LeavesRunning(TimerCallsIn(events))
  {
    if events != [] {
      var before := events[..|events| - 1];
      TimerIsArmedWhenIdle(before);
      EveryRunKeeps(before);
      ArmedWhenIdle(StateAfter(before), events[|events| - 1], TimerCallsIn(before));
    }
  }

  /** Every START that is forwarded arms the timer afresh. */
  lemma ForwardedStartsArm(events: seq<Event>, i: nat)
    requires i < |events| && ForwardsStart(events, i)
    ensures LeavesRunning(TimerCalls(StateAfter(events[..i]), events[i]))
  {
  }

  /** And nothing else does: the timer is started exactly with a forwarded START, and stopped before
      that if it was busy, or by an expiry. */
  lemma TimerIsTold(events: seq<Event>, i: nat)
    requires i < |events|
    ensures var starts, expires := ForwardsStart(events, i), events[i].TimerExpire?;
      TimerCalls(StateAfter(events[..i]), events[i]) ==
      (if expires || (starts && Busy(events[..i])) then [TimerStop] else []) + if starts then [TimerStart] else []
  {
    EveryRunKeeps(events[..i]);
    var forwards := Forwarded(events, i);
    if forwards != [] {
      assert forwards[0] in forwards;
    }
  }

  lemma {:induction false} TimerRunsUntilExpiry(events: seq<Event>, i: nat, j: nat)
    requires i < j <= |events| && ForwardsStart(events, i)
    requires forall k :: i < k < j ==> !events[k].TimerExpire?
    ensures StateAfter(events[..j]).timerActive
    decreases j
  {
    var before := StateAfter(events[..j - 1]);
    assert events[..j][..j - 1] == events[..j - 1];
    EveryRunKeeps(events[..j - 1]);
    if i < j - 1 {
      TimerRunsUntilExpiry(events, i, j - 1);
    }
  }

  /** Between a START that reached the framework and a later non-emergency one, a timer expiry
      was processed. */
  lemma PlainStartsAreThrottled(events: seq<Event>, i: nat, j: nat)
    requires i < j < |events| && ForwardsStart(events, i) && ForwardsPlainStart(events, j)
    ensures exists k :: i < k <= j && events[k].TimerExpire?
  {
    if forall k :: i < k <= j ==> !events[k].TimerExpire? {
      TimerRunsUntilExpiry(events, i, j);
      EveryRunKeeps(events[..j]);
    }
  }

  function PlainStarts(events: seq<Event>): nat {
    if events == [] then 0
    else PlainStarts(events[..|events| - 1]) + if ForwardsPlainStart(events, |events| - 1) then 1 else 0
  }

  function Expiries(events: seq<Event>): nat {
    if events == [] then 0
    else Expiries(events[..|events| - 1]) + if events[|events| - 1].TimerExpire? then 1 else 0
  }

  /** So a run forwards at most one non-emergency START more than it processes expiries. */
  lemma {:induction false} PlainStartsAreBounded(events: seq<Event>)
    ensures PlainStarts(events) <= Expiries(events) + if StateAfter(events).timerActive then 1 else 0
  {
    if events != [] {
      PlainStartsAreBounded(events[..|events| - 1]);
      EveryRunKeeps(events[..|events| - 1]);
    }
  }

  /** START requests handed to the framework. */
  function Starts(events: seq<Event>): nat {
    if events == [] then 0
    else Starts(events[..|events| - 1]) + if ForwardsStart(events, |events| - 1) then 1 else 0
  }

  lemma CountsOneMore(events: seq<Event>, j: nat)
    requires j < |events|
    ensures Starts(events[..j + 1]) == Starts(events[..j]) + if ForwardsStart(events, j) then 1 else 0
    ensures Expiries(events[..j + 1]) == Expiries(events[..j]) + if events[j].TimerExpire? then 1 else 0
  {
    assert events[..j + 1][..j] == events[..j];
  }

  /** While a request stays wanted, each expiry is matched by a START that is forwarded again. */
  lemma {:induction false} WantedIsAskedAgain(events: seq<Event>, i: nat, j: nat)
    requires i <= j <= |events| && forall k :: i <= k < j ==> Wanted(events[..k])
    ensures Starts(events[..j]) - Starts(events[..i]) >= Expiries(events[..j]) - Expiries(events[..i])
    decreases j
  {
    if i < j {
      WantedIsAskedAgain(events, i, j - 1);
      CountsOneMore(events, j - 1);
      if events[j - 1].TimerExpire? {
        ExpiryForwardsIff(events, j - 1);
        EveryRunKeeps(events[..j - 1]);
        assert LastStart(events[..j - 1]) in Forwarded(events, j - 1);
      }
    }
  }

  // ----- The adapter's fields -----------------------------------------------------------

  class OdcpiTimer {
    var active: bool
    /** The calls to `LocTimer`. */
    var calls: seq<TimerCall>

    constructor ()
      ensures !active && calls == []
    {
      active := false;
      calls := [];
    }

    method Start()
      modifies this
      ensures active && calls == old(calls) + [TimerStart]
    {
      active := true;
      calls := calls + [TimerStart];
    }

    method Stop()
      modifies this
      ensures !active && calls == old(calls) + [TimerStop]
    {
      active := false;
      calls := calls + [TimerStop];
    }

    method Restart()
      modifies this
      ensures active && calls == old(calls) + [TimerStop, TimerStart]
    {
      Stop();
      Start();
    }
  }

  class OdcpiMachine {
    var odcpiRequestCb: Option<nat>
    var callbackPriority: nat
    var odcpiRequestActive: bool
    const odcpiTimer: OdcpiTimer
    var odcpiRequest: Request
    /** Every request handed to the framework callback. */
    var forwarded: seq<Request>

    constructor ()
      ensures Abs() == START && forwarded == [] && fresh(odcpiTimer) && odcpiTimer.calls == []
    {
      odcpiRequestCb, callbackPriority, odcpiRequestActive := None, PRIORITY_LOW, false;
      odcpiTimer := new OdcpiTimer();
      odcpiRequest := Request(REQUEST_START, false);
      forwarded := [];
    }

    ghost function Abs(): State
      reads this, odcpiTimer
    {
      State(odcpiRequestCb, callbackPriority, odcpiRequestActive, odcpiTimer.active, odcpiRequest)
    }

    /** The machine is in the step's new state and has forwarded its requests after `before`. */
    ghost predicate Took(step: (State, seq<Request>), before: seq<Request>)
      reads this, odcpiTimer
    {
      Abs() == step.0 && forwarded == before + step.1
    }

    method InitOdcpi(callback: nat, priority: nat)
      modifies this
      ensures Took(Step(old(Abs()), Register(callback, priority)), old(forwarded))
    {
      if priority >= callbackPriority {
        odcpiRequestCb := Some(callback);
        callbackPriority := priority;
      }
    }

    method RequestOdcpi(request: Request)
      modifies this, odcpiTimer
      ensures Took(Step(old(Abs()), Ask(request)), old(forwarded))
      ensures odcpiTimer.calls == old(odcpiTimer.calls) + TimerCalls(old(Abs()), Ask(request))
    {
      if odcpiRequestCb.Some? {
        if request.kind == REQUEST_START {
          if !odcpiRequestActive && !odcpiTimer.active {
            forwarded := forwarded + [request];
            odcpiRequestActive := true;
            odcpiTimer.Start();
          } else if !odcpiRequest.isEmergencyMode && request.isEmergencyMode {
            forwarded := forwarded + [request];
            odcpiRequestActive := true;
            if odcpiTimer.active {
              odcpiTimer.Restart();
            } else {
              odcpiTimer.Start();
            }
          } else if !odcpiRequestActive && odcpiTimer.active {
            odcpiRequestActive := true;
          }
          odcpiRequest := request;
        } else if request.kind == REQUEST_STOP {
          forwarded := forwarded + [request];
          odcpiRequestActive := false;
        }
      }
    }

    method OdcpiTimerExpire()
      modifies this, odcpiTimer
      ensures Took(Step(old(Abs()), TimerExpire), old(forwarded))
      ensures forwarded == old(forwarded) + if old(odcpiRequestActive) then [old(odcpiRequest)] else []
      ensures odcpiTimer.calls == old(odcpiTimer.calls) + TimerCalls(old(Abs()), TimerExpire)
    {
      if odcpiRequestActive {
        forwarded := forwarded + [odcpiRequest];
        odcpiTimer.Restart();
      } else {
        odcpiTimer.Stop();
      }
    }

    method RestartSessions(modemSSR: bool)
      modifies this
      ensures Took(if modemSSR then Step(old(Abs()), ModemRestart) else (old(Abs()), []), old(forwarded))
    {
      if modemSSR {
        odcpiRequestActive := false;
      }
    }
  }

  method Handle(machine: OdcpiMachine, event: Event)
    modifies machine, machine.odcpiTimer
    ensures machine.Took(Step(old(machine.Abs()), event), old(machine.forwarded))
    ensures machine.odcpiTimer.calls == old(machine.odcpiTimer.calls) + TimerCalls(old(machine.Abs()), event)
  {
    match event {
      case Register(callback, priority) => machine.InitOdcpi(callback, priority);
      case Ask(request) => machine.RequestOdcpi(request);
      case TimerExpire => machine.OdcpiTimerExpire();
      case ModemRestart => machine.RestartSessions(true);
    }
  }

  /** What each step of a run forwards. */
  function ForwardsIn(events: seq<Event>): seq<seq<Request>> {
    if events == [] then []
    else
      var before := events[..|events| - 1];
      ForwardsIn(before) + [Step(StateAfter(before), events[|events| - 1]).1]
  }

  lemma {:induction false} ForwardsAt(events: seq<Event>, i: nat)
    requires i < |events|
    ensures |ForwardsIn(events)| == |events| && ForwardsIn(events)[i] == Forwarded(events, i)
  {
    var n := |events| - 1;
    if i < n {
      ForwardsAt(events[..n], i);
      assert events[..n][..i] == events[..i];
    } else if n > 0 {
      ForwardsAt(events[..n], 0);
    }
  }

  /** Drives the machine over any run of events. */
  method Drive(events: seq<Event>) returns (forwards: seq<seq<Request>>, timerCalls: seq<TimerCall>)
    ensures forwards == ForwardsIn(events) && |forwards| == |events| && timerCalls == TimerCallsIn(events)
    ensures forall i :: 0 <= i < |events| ==> forwards[i] == Forwarded(events, i)
  {
    var machine := new OdcpiMachine();
    forwards := [];
    for i := 0 to |events|
      invariant fresh(machine) && fresh(machine.odcpiTimer) && machine.Abs() == StateAfter(events[..i])
      invariant machine.odcpiTimer.calls == TimerCallsIn(events[..i])
      invariant forwards == ForwardsIn(events[..i])
    {
      assert events[..i + 1][..i] == events[..i];
      var before := |machine.forwarded|;
      Handle(machine, events[i]);
      forwards := forwards + [machine.forwarded[before..]];
    }
    assert events[..|events|] == events;
    timerCalls := machine.odcpiTimer.calls;
    if events == [] {
      return;
    }
    ForwardsAt(events, 0);
    forall i | 0 <= i < |events| ensures forwards[i] == Forwarded(events, i) {
      ForwardsAt(events, i);
    }
  }
}
