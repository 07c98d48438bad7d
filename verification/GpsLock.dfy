/** Which GPS lock the modem is given (gps/gnss/GnssAdapter.cpp). The adapter behaves as "Q"
    until the framework first sends a lock configuration, and as "P" from then on. */
module GpsLock {
  import opened Wrappers

  /** The two bits of a lock: mobile-originated and network-initiated. */
  datatype Lock = Lock(mo: bool, ni: bool)

  const LOCK_NONE := Lock(false, false)

  datatype LocationError = SUCCESS | INVALID_PARAMETER | ALREADY_STARTED | ID_UNKNOWN

  datatype Event =
    | Enable(sessionId: nat, techTypeIsGnss: bool)
    | Disable(sessionId: nat)
    | NfwControl(enable: bool)
    | LateNfwControl(enable: bool)   // the message posted by an NFW control runs, without a check
    | UpdateConfig(gpsLock: Lock)
    | EngineRestart

  /** The lock the modem should hold: the configured one, unless a framework session is open
      under "P". */
  function ProperLock(supportNfwControl: bool, afwControlId: nat, gpsLock: Lock): Lock {
    if supportNfwControl || afwControlId == 0 then gpsLock else LOCK_NONE
  }

  class GpsLockControl {
    /** `ContextBase::mGps_conf.GPS_LOCK` */
    var gpsLock: Lock
    var supportNfwControl: bool
    /** The open framework session, 0 for none. */
    var afwControlId: nat
    /** Every lock sent to the modem, in order. */
    var sent: seq<Lock>
    ghost const confLock: Lock

    constructor (conf: Lock)
      ensures gpsLock == conf == confLock && supportNfwControl && afwControlId == 0 && sent == []
    {
      gpsLock, supportNfwControl, afwControlId, sent := conf, true, 0, [];
      confLock := conf;
    }

    function Proper(): Lock
      reads this
    {
      ProperLock(supportNfwControl, afwControlId, gpsLock)
    }

    /** Once a lock has been sent, the last one is the proper one. */
    ghost predicate Agrees()
      reads this
    {
      sent != [] ==> sent[|sent| - 1] == Proper()
    }

    /** If the configuration file locks MO, as the default does, then MO is locked exactly while no
        session is open. Under "P" the configuration locks MO. */
    ghost predicate Valid()
      reads this
    {
      && (confLock.mo ==> (Proper().mo <==> afwControlId == 0))
      && (!supportNfwControl ==> gpsLock.mo && (afwControlId != 0 ==> sent != []))
    }

    method EnableCommand(sessionId: nat, techTypeIsGnss: bool) returns (err: LocationError)
      requires Valid() && sessionId > 0
      modifies this
      ensures Valid() && supportNfwControl == old(supportNfwControl)
      ensures err == if !techTypeIsGnss then INVALID_PARAMETER
                     else if old(afwControlId) > 0 then ALREADY_STARTED else SUCCESS
      ensures err != SUCCESS ==> unchanged(this)
      ensures err == SUCCESS ==>
                && afwControlId == sessionId && sent == old(sent) + [Proper()]
                && gpsLock == if supportNfwControl then old(gpsLock).(mo := false) else old(gpsLock)
      ensures err == SUCCESS && !supportNfwControl ==> sent == old(sent) + [Lock(false, false)]
    {
      if !techTypeIsGnss {
        err := INVALID_PARAMETER;
      } else if afwControlId > 0 {
        err := ALREADY_STARTED;
      } else {
        err := SUCCESS;
        afwControlId := sessionId;
        var lock := LOCK_NONE;
        if supportNfwControl {
          gpsLock := gpsLock.(mo := false);
          lock := gpsLock;
        }
        sent := sent + [lock];
      }
    }

    method DisableCommand(sessionId: nat) returns (err: LocationError)
      requires Valid()
      modifies this
      ensures Valid() && supportNfwControl == old(supportNfwControl)
      ensures err == if old(afwControlId) != sessionId then ID_UNKNOWN else SUCCESS
      ensures err != SUCCESS ==> unchanged(this)
      ensures err == SUCCESS ==>
                && afwControlId == 0 && sent == old(sent) + [Proper()]
                && gpsLock == if supportNfwControl then old(gpsLock).(mo := true) else old(gpsLock)
    {
      if afwControlId != sessionId {
        err := ID_UNKNOWN;
      } else {
        err := SUCCESS;
        afwControlId := 0;
        if supportNfwControl {
          gpsLock := gpsLock.(mo := true);
        }
        sent := sent + [gpsLock];
      }
    }

    method NfwControlCommand(enable: bool)
      requires Valid()
      modifies this
      ensures Valid() && supportNfwControl == old(supportNfwControl) && afwControlId == old(afwControlId)
      ensures !supportNfwControl ==> unchanged(this)
      ensures supportNfwControl ==>
                gpsLock == old(gpsLock).(ni := !enable) && sent == old(sent) + [gpsLock]
    {
      if supportNfwControl {
        NfwControlStep(enable);
      }
    }

    /** The message that `nfwControlCommand` posts, which does not check again. Run after a switch
        to "P" it gives the modem the proper lock exactly when no session is open. */
    method NfwControlStep(enable: bool)
      requires Valid()
      modifies this
      ensures supportNfwControl == old(supportNfwControl) && afwControlId == old(afwControlId)
      ensures gpsLock == old(gpsLock).(ni := !enable) && sent == old(sent) + [gpsLock]
      ensures Valid() && (Agrees() <==> supportNfwControl || afwControlId == 0)
    {
      var lock := gpsLock;
      if enable {
        lock := lock.(ni := false);
      } else {
        lock := lock.(ni := true);
      }
      gpsLock := lock;
      sent := sent + [lock];
    }

    /** The GPS_LOCK part of `gnssUpdateConfigCommand`. */
    method UpdateConfigCommand(configured: Lock)
      requires Valid()
      modifies this
      ensures Valid() && !supportNfwControl && afwControlId == old(afwControlId)
      ensures gpsLock == configured.(mo := true)
      ensures sent == old(sent) + if old(supportNfwControl) || afwControlId == 0 then [Proper()] else []
      ensures Agrees() <==> old(supportNfwControl) || afwControlId == 0 || old(Agrees())
    {
      var newGpsLock := configured.(mo := true);
      gpsLock := newGpsLock;
      var needEngineUpdate := true;
      if afwControlId != 0 {
        if supportNfwControl {
          newGpsLock := LOCK_NONE;
        } else {
          needEngineUpdate := false;
        }
      }
      supportNfwControl := false;
      if needEngineUpdate {
        sent := sent + [newGpsLock];
      }
    }

    /** The GPS_LOCK part of `setConfig`, replayed after an engine restart: it changes a lock that has
        been sent exactly if that was not the proper one. */
    method SetConfig()
      requires Valid()
      modifies this`sent
      ensures Valid() && sent == old(sent) + [Proper()]
      ensures old(sent) != [] ==> (sent[|sent| - 1] == old(sent)[|old(sent)| - 1] <==> old(Agrees()))
    {
      if supportNfwControl || afwControlId == 0 {
        sent := sent + [gpsLock];
      } else {
        sent := sent + [LOCK_NONE];
      }
    }
  }

  // ----- Whole runs ---------------------------------------------------------------------

  /** "Q" lasts until the framework configures a lock. */
  predicate SupportsNfw(events: seq<Event>) {
    forall e :: e in events ==> !e.UpdateConfig?
  }

  /** The framework session that is open after a run, 0 for none. */
  function OpenSession(events: seq<Event>): nat {
    if events == [] then 0
    else
      var open := OpenSession(events[..|events| - 1]);
      match events[|events| - 1]
      case Enable(id, gnss) => if gnss && open == 0 then id else open
      case Disable(id) => if id == open then 0 else open
      case _ => open
  }

  /** A session is opened or closed by the last event. */
  predicate Switches(events: seq<Event>)
    requires events != []
  {
    var open := OpenSession(events[..|events| - 1]);
    match events[|events| - 1]
    case Enable(_, gnss) => gnss && open == 0
    case Disable(id) => id == open
    case _ => false
  }

  /** `GPS_LOCK` after a run: under "Q" its MO bit follows the session and its NI bit the last NFW
      control; under "P" it is the configured lock with MO, but for the NI bit of a late control. */
  function LockAfter(conf: Lock, events: seq<Event>): Lock {
    if events == [] then conf
    else
      var before := events[..|events| - 1];
      var lock := LockAfter(conf, before);
      match events[|events| - 1]
      case UpdateConfig(configured) => configured.(mo := true)
      case EngineRestart => lock
      case LateNfwControl(enable) => lock.(ni := !enable)
      case NfwControl(enable) => if SupportsNfw(before) then lock.(ni := !enable) else lock
      case _ => if SupportsNfw(before) && Switches(events) then lock.(mo := OpenSession(events) == 0) else lock
  }

  /** Some event of the run gives the modem a lock. */
  predicate LockGiven(events: seq<Event>) {
    if events == [] then false
    else
      var before := events[..|events| - 1];
      || LockGiven(before)
      || match events[|events| - 1]
         case NfwControl(_) => SupportsNfw(before)
         case LateNfwControl(_) => true
         case UpdateConfig(_) => true
         case EngineRestart => true
         case _ => Switches(events)
  }

  /** A late NFW control has run under "P" with a session open, and neither a switch of the session
      nor an engine restart has come since. */
  predicate Astray(events: seq<Event>) {
    if events == [] then false
    else
      var before := events[..|events| - 1];
      match events[|events| - 1]
      case LateNfwControl(_) => !SupportsNfw(before) && OpenSession(before) != 0
      case EngineRestart => false
      case Enable(_, _) => Astray(before) && !Switches(events)
      case Disable(_) => Astray(before) && !Switches(events)
      case _ => Astray(before)
  }

  /** The lock given by the last late NFW control. */
  function LateLock(conf: Lock, events: seq<Event>): Lock {
    if events == [] then conf
    else if events[|events| - 1].LateNfwControl? then LockAfter(conf, events)
    else LateLock(conf, events[..|events| - 1])
  }

  /** The proper lock for what a run left open and configured. */
  function ProperAfter(conf: Lock, events: seq<Event>): Lock {
    ProperLock(SupportsNfw(events), OpenSession(events), LockAfter(conf, events))
  }

  /** The lock the modem holds after a run: none yet, the proper one, or that of a late control. */
  function ModemLock(conf: Lock, events: seq<Event>): Option<Lock> {
    if !LockGiven(events) then None
    else Some(if Astray(events) then LateLock(conf, events) else ProperAfter(conf, events))
  }

  lemma AfterOneMore(events: seq<Event>, event: Event)
    ensures (events + [event])[..|events|] == events
    ensures SupportsNfw(events + [event]) <==> SupportsNfw(events) && !event.UpdateConfig?
  {
    forall e ensures e in events + [event] <==> e in events || e == event { }
  }

  /** Under "P" an open session has neither bit locked; otherwise the configured lock is proper. */
  lemma ProperMeans(conf: Lock, events: seq<Event>)
    ensures ProperAfter(conf, events) ==
            if !SupportsNfw(events) && OpenSession(events) != 0 then Lock(false, false) else LockAfter(conf, events)
  {
  }

  predicate SetsNi(event: Event) {
    event.NfwControl? || event.LateNfwControl? || event.UpdateConfig?
  }

  /** The NI bit stays where the last NFW control under "Q" put it, whatever sessions come and go. */
  lemma {:induction false} NiFollowsControl(conf: Lock, events: seq<Event>, i: nat)
    requires i < |events| && events[i].NfwControl? && SupportsNfw(events)
    requires forall j :: i < j < |events| ==> !SetsNi(events[j])
    ensures ModemLock(conf, events).Some? && ModemLock(conf, events).value.ni == !events[i].enable
    ensures LockAfter(conf, events).ni == !events[i].enable && !Astray(events)
  {
    var before, event := events[..|events| - 1], events[|events| - 1];
    assert event in events;
    AfterOneMore(before, event);
    assert before + [event] == events;
    NeverAstray(before);
    if i < |events| - 1 {
      NiFollowsControl(conf, before, i);
    }
  }

  /** Under "Q" the modem is never led astray. */
  lemma NeverAstray(events: seq<Event>)
    ensures SupportsNfw(events) ==> !Astray(events)
  {
    if Astray(events) {
      AstrayMeans(LOCK_NONE, events);
    }
  }

  lemma {:induction false} LockedUnderP(conf: Lock, events: seq<Event>)
    ensures !SupportsNfw(events) ==> LockAfter(conf, events).mo
  {
    if events != [] {
      var before, event := events[..|events| - 1], events[|events| - 1];
      LockedUnderP(conf, before);
      AfterOneMore(before, event);
      assert before + [event] == events;
    }
  }

  lemma {:induction false} AstrayMeans(conf: Lock, events: seq<Event>)
    requires Astray(events)
    ensures !SupportsNfw(events) && OpenSession(events) != 0 && LateLock(conf, events).mo
  {
    var before, event := events[..|events| - 1], events[|events| - 1];
    AfterOneMore(before, event);
    assert before + [event] == events;
    if event.LateNfwControl? {
      LockedUnderP(conf, events);
    } else {
      AstrayMeans(conf, before);
    }
  }

  /** Exactly when the modem holds the proper lock: no late NFW control has led it astray. */
  lemma ProperIff(conf: Lock, events: seq<Event>)
    requires LockGiven(events)
    ensures ModemLock(conf, events) == Some(ProperAfter(conf, events)) <==> !Astray(events)
  {
    if Astray(events) {
      AstrayMeans(conf, events);
    }
  }

  /** Replaying the configuration after an engine restart gives the proper lock, so it changes what
      the modem holds exactly if it was led astray. */
  lemma RestartKeepsLockIff(conf: Lock, events: seq<Event>)
    requires LockGiven(events)
    ensures ModemLock(conf, events + [EngineRestart]) == Some(ProperAfter(conf, events))
    ensures ModemLock(conf, events + [EngineRestart]) == ModemLock(conf, events) <==> !Astray(events)
  {
    AfterOneMore(events, EngineRestart);
    ProperIff(conf, events);
  }

  /** If the configuration file locks MO, the proper MO lock follows the framework session. */
  lemma {:induction false} ProperMoFollowsSession(conf: Lock, events: seq<Event>)
    requires conf.mo && forall e :: e in events && e.Enable? ==> e.sessionId > 0
    ensures ProperAfter(conf, events).mo <==> OpenSession(events) == 0
    ensures SupportsNfw(events) ==> (LockAfter(conf, events).mo <==> OpenSession(events) == 0)
  {
    LockedUnderP(conf, events);
    if events != [] {
      var before, event := events[..|events| - 1], events[|events| - 1];
      ProperMoFollowsSession(conf, before);
      AfterOneMore(before, event);
      assert before + [event] == events;
    }
  }

  /** The modem's MO lock follows it exactly while it is not led astray. */
  lemma MoFollowsSessionIff(conf: Lock, events: seq<Event>)
    requires conf.mo && (forall e :: e in events && e.Enable? ==> e.sessionId > 0) && LockGiven(events)
    ensures (ModemLock(conf, events).value.mo <==> OpenSession(events) == 0) <==> !Astray(events)
  {
    ProperMoFollowsSession(conf, events);
    if Astray(events) {
      AstrayMeans(conf, events);
    }
  }

  function WithMo(supportNfwControl: bool, lock: Lock, mo: bool): Lock {
    if supportNfwControl then lock.(mo := mo) else lock
  }

  method Handle(control: GpsLockControl, event: Event)
    requires control.Valid() && (event.Enable? ==> event.sessionId > 0)
    modifies control
    ensures control.Valid() && control.supportNfwControl == (old(control.supportNfwControl) && !event.UpdateConfig?)
    ensures match event
      case Enable(id, gnss) =>
        if gnss && old(control.afwControlId) == 0
        then control.afwControlId == id && control.sent == old(control.sent) + [control.Proper()]
             && control.gpsLock == WithMo(control.supportNfwControl, old(control.gpsLock), false)
        else unchanged(control)
      case Disable(id) =>
        if id == old(control.afwControlId)
        then control.afwControlId == 0 && control.sent == old(control.sent) + [control.Proper()]
             && control.gpsLock == WithMo(control.supportNfwControl, old(control.gpsLock), true)
        else unchanged(control)
      case NfwControl(enable) => if control.supportNfwControl then NiStep(control, enable) else unchanged(control)
      case LateNfwControl(enable) => NiStep(control, enable)
      case UpdateConfig(lock) =>
        && control.afwControlId == old(control.afwControlId) && control.gpsLock == lock.(mo := true)
        && control.sent == if old(control.supportNfwControl) || control.afwControlId == 0
                           then old(control.sent) + [control.Proper()] else old(control.sent)
      case EngineRestart =>
        && control.afwControlId == old(control.afwControlId) && control.gpsLock == old(control.gpsLock)
        && control.sent == old(control.sent) + [control.Proper()]
  {
    match event {
      case Enable(id, gnss) => var _ := control.EnableCommand(id, gnss);
      case Disable(id) => var _ := control.DisableCommand(id);
      case NfwControl(enable) => control.NfwControlCommand(enable);
      case LateNfwControl(enable) => control.NfwControlStep(enable);
      case UpdateConfig(lock) => control.UpdateConfigCommand(lock);
      case EngineRestart => control.SetConfig();
    }
  }

  /** Only the NI bit moves, and the lock is sent. */
  twostate predicate NiStep(control: GpsLockControl, enable: bool)
    reads control
  {
    && control.afwControlId == old(control.afwControlId)
    && control.gpsLock == old(control.gpsLock).(ni := !enable) && control.sent == old(control.sent) + [control.gpsLock]
  }

  /** The adapter stands where the run left it. */
  ghost predicate Follows(control: GpsLockControl, events: seq<Event>)
    reads control
  {
    && control.Valid()
    && control.supportNfwControl == SupportsNfw(events) && control.afwControlId == OpenSession(events)
    && control.gpsLock == LockAfter(control.confLock, events) && (control.sent != [] <==> LockGiven(events))
    && (control.sent != [] ==> Some(control.sent[|control.sent| - 1]) == ModemLock(control.confLock, events))
  }

  method Follow(control: GpsLockControl, event: Event, ghost before: seq<Event>)
    requires Follows(control, before) && (event.Enable? ==> event.sessionId > 0)
    modifies control
    ensures Follows(control, before + [event])
  {
    AfterOneMore(before, event);
    if Astray(before) {
      AstrayMeans(control.confLock, before);
    }
    Handle(control, event);
  }

  /** The last lock sent in any run from start-up. */
  method Drive(confLock: Lock, events: seq<Event>) returns (last: Option<Lock>)
    requires forall e :: e in events && e.Enable? ==> e.sessionId > 0
    ensures last == ModemLock(confLock, events)
  {
    var control := new GpsLockControl(confLock);
    for i := 0 to |events|
      invariant fresh(control) && control.confLock == confLock && Follows(control, events[..i])
    {
      assert events[i] in events;
      assert events[..i + 1] == events[..i] + [events[i]];
      Follow(control, events[i], events[..i]);
    }
    assert events[..|events|] == events;
    var n := |control.sent|;
    last := if n > 0 then Some(control.sent[n - 1]) else None;
  }

  /** An NFW control posted under "Q" and carried out after the switch to "P", with a session open:
      the modem has MO locked although the session needs it. */
  method LateNfwLocksMo() returns (control: GpsLockControl)
    ensures !control.supportNfwControl && control.afwControlId == 1
    ensures control.sent != [] && control.sent[|control.sent| - 1] == Lock(true, false) && !control.Agrees()
  {
    control := new GpsLockControl(Lock(true, false));
    var _ := control.EnableCommand(1, true);
    control.UpdateConfigCommand(LOCK_NONE);
    control.NfwControlStep(true);
  }
}
