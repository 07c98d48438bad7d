/** What an event makes the AGPS machine say and whom it leaves listed, told from the framework's
    side of the connection and the list before it, and the same over every run. */
module AgpsEffects {
  import opened AgpsSpec

  /** How often handle `h` is told that its connection is open, could not be opens or is closed, and
      how often a connection is requested or given up. */
  datatype Tally = Tally(opens: nat, fails: nat, closes: nat, requests: nat, releases: nat)

  function Counted(t: Tally, out: Output, h: int): Tally {
    match out
    case OpenStatus(g, success) =>
      if g != h then t else if success then t.(opens := t.opens + 1) else t.(fails := t.fails + 1)
    case CloseStatus(g) => if g != h then t else t.(closes := t.closes + 1)
    case RequestDataConn => t.(requests := t.requests + 1)
    case ReleaseDataConn => t.(releases := t.releases + 1)
  }

  function TallyOf(outs: seq<Output>, h: int): Tally {
    if outs == [] then Tally(0, 0, 0, 0, 0)
    else Counted(TallyOf(outs[..|outs| - 1], h), outs[|outs| - 1], h)
  }

  function One(b: bool): nat {
    if b then 1 else 0
  }

  /** Handle `h` is listed to wait for the close when it unsubscribes. */
  predicate Waits(subs: seq<Subscriber>, h: int) {
    exists i :: 0 <= i < |subs| && subs[i].connHandle == h && subs[i].waitForCloseComplete
  }

  /** A RELEASED or DENIED that completes a release in progress. */
  predicate Closes(releasing: bool, event: Event) {
    releasing && (event.Released? || event.Denied?)
  }

  /** Everything there is to say to handle `h` and about the connection. A connection that is pending
      fails by a DENIED, one that is held ends by a RELEASED; while one is being released (`releasing`)
      either completes the release. It is given up when an unsubscribe leaves no active subscriber. */
  predicate Says(conn: Conn, releasing: bool, subs: seq<Subscriber>, event: Event, after: seq<Subscriber>,
                 t: Tally, h: int) {
    && t.opens == One((event.Granted? && conn.ConnPending? && ActiveHandle(subs, h))
                       || (event.Subscribe? && event.connHandle == h && conn.ConnHeld?))
    && t.fails == One(event.Denied? && conn.ConnPending? && HasHandle(subs, h))
    && t.closes == One((event.Released? && conn.ConnHeld? && HasHandle(subs, h))
                       || (event == Unsubscribe(h) && HasHandle(subs, h) && !Waits(subs, h))
                       || (Closes(releasing, event) && HasHandle(subs, h) && !ActiveHandle(subs, h)))
    && t.requests == One((event.Subscribe? && conn.NoConn? && !releasing)
                          || (Closes(releasing, event) && AnyActive(subs)))
    && t.releases == One(event.Unsubscribe? && HasHandle(subs, event.connHandle) && !conn.NoConn? && !AnyActive(after))
  }

  /** The end of a connection for everyone, by a DENIED or a RELEASED. */
  predicate EndedBy(conn: Conn, event: Event) {
    (event.Denied? && conn.ConnPending?) || (event.Released? && conn.ConnHeld?)
  }

  /** The connection ended for everyone. */
  predicate EndsForAll(conn: Conn, event: Event) {
    event.ModemSsr? || EndedBy(conn, event)
  }

  /** Whether handle `h` is listed afterwards, and whether as active. */
  ghost predicate Lists(conn: Conn, releasing: bool, subs: seq<Subscriber>, event: Event, after: seq<Subscriber>,
                        h: int) {
    if EndsForAll(conn, event) then after == []
    else if event.Subscribe? && event.connHandle == h then
      HasHandle(after, h) && (ActiveHandle(after, h) <==> !HasHandle(subs, h) || ActiveHandle(subs, h))
    else if event.Unsubscribe? && event.connHandle == h then
      !ActiveHandle(after, h) && (HasHandle(after, h) <==> Waits(subs, h))
    else
      && (ActiveHandle(after, h) <==> ActiveHandle(subs, h))
      && (HasHandle(after, h) <==> if Closes(releasing, event) then ActiveHandle(subs, h) else HasHandle(subs, h))
  }

  /** Handle `h`, if it is listed afterwards, waits if it did before, or if it asks to on being listed. */
  predicate KeepsWaiting(subs: seq<Subscriber>, event: Event, after: seq<Subscriber>, h: int) {
    HasHandle(after, h) ==>
      (Waits(after, h) <==>
       if HasHandle(subs, h) then Waits(subs, h) else event == Subscribe(h, true))
  }

  /** A connection is being released from when it is given up with someone still listed, until the
      release completes or an unsubscribe empties the list. */
  predicate Releasing(conn: Conn, releasing: bool, subs: seq<Subscriber>, event: Event, after: seq<Subscriber>) {
    var left := event.Unsubscribe? && HasHandle(subs, event.connHandle);
    || (left && !conn.NoConn? && !AnyActive(after) && after != [])
    || (releasing && !Closes(releasing, event) && (left ==> after != []))
  }

  // ----- Counting -------------------------------------------------------------------------

  lemma TallySnoc(outs: seq<Output>, last: Output, h: int)
    ensures TallyOf(outs + [last], h) == Counted(TallyOf(outs, h), last, h)
  {
    assert (outs + [last])[..|outs|] == outs;
  }

  lemma TallyOne(only: Output, h: int)
    ensures TallyOf([only], h) == Counted(Tally(0, 0, 0, 0, 0), only, h)
  {
    assert [only][..0] == [];
  }

  /** `n` notices of an event. */
  function TallyFor(event: Event, n: nat): Tally {
    match event
    case Granted => Tally(n, 0, 0, 0, 0)
    case Denied => Tally(0, n, 0, 0, 0)
    case _ => Tally(0, 0, n, 0, 0)
  }

  lemma OneMoreTold(event: Event, told: seq<Output>, n: nat, g: int, h: int)
    requires TallyOf(told, h) == TallyFor(event, n)
    ensures TallyOf(told + [Told(event, g)], h) == TallyFor(event, if g == h then n + 1 else n)
  {
    TallySnoc(told, Told(event, g), h);
  }

  /** How many entries of handle `h` a walk tells. */
  function Passed(subs: seq<Subscriber>, target: NotificationType, h: int): int {
    Listed(subs, h) - Listed(Others(subs, target), h)
  }

  lemma PassedInit(subs: seq<Subscriber>, target: NotificationType, h: int)
    requires subs != []
    ensures var last := subs[|subs| - 1];
      Passed(subs, target, h) ==
      Passed(subs[..|subs| - 1], target, h) + One(Matches(target, last) && last.connHandle == h)
  {
    ListedSnoc(Others(subs[..|subs| - 1], target), subs[|subs| - 1], h);
  }

  /** Whoever is not kept is told, once for each entry, and told the kind of the event only. */
  lemma {:induction false} ToldWhoIsNotKept(event: Event, subs: seq<Subscriber>, target: NotificationType, h: int)
    ensures Passed(subs, target, h) >= 0
    ensures TallyOf(Notices(event, subs, target), h) == TallyFor(event, Passed(subs, target, h))
  {
    if subs != [] {
      var init, last := subs[..|subs| - 1], subs[|subs| - 1];
      var told := Notices(event, init, target);
      ToldWhoIsNotKept(event, init, target, h);
      PassedInit(subs, target, h);
      if Matches(target, last) {
        assert Notices(event, subs, target) == told + [Told(event, last.connHandle)];
        OneMoreTold(event, told, Passed(init, target, h), last.connHandle, h);
      }
    }
  }

  /** Of a handle that is listed once, what is left of it when the active ones are told. */
  lemma {:induction false} ActiveAreTold(subs: seq<Subscriber>, h: int)
    requires Listed(subs, h) <= 1
    ensures HasHandle(Others(subs, FOR_ACTIVE), h) <==> HasHandle(subs, h) && !ActiveHandle(subs, h)
  {
    if subs != [] {
      var init, last := subs[..|subs| - 1], subs[|subs| - 1];
      ActiveAreTold(init, h);
      ActiveInit(subs, h);
      ActiveSnoc(Others(init, FOR_ACTIVE), last, h);
      ListedIsMembership(init, h);
      ActiveIsListed(init, h);
    }
  }

  lemma ActiveIsListed(subs: seq<Subscriber>, h: int)
    ensures ActiveHandle(subs, h) ==> HasHandle(subs, h)
  {
    if ActiveHandle(subs, h) {
      var i :| 0 <= i < |subs| && subs[i].connHandle == h;
      assert HasHandle(subs, h);
    }
  }

  lemma AllAreTold(event: Event, subs: seq<Subscriber>, h: int)
    requires Listed(subs, h) <= 1
    ensures TallyOf(Notices(event, subs, FOR_ALL), h) == TallyFor(event, One(HasHandle(subs, h)))
  {
    ListedIsMembership(subs, h);
    EveryoneIsTold(subs);
    ToldWhoIsNotKept(event, subs, FOR_ALL, h);
  }

  lemma ActiveTold(event: Event, subs: seq<Subscriber>, h: int)
    requires Listed(subs, h) <= 1
    ensures TallyOf(Notices(event, subs, FOR_ACTIVE), h) == TallyFor(event, One(ActiveHandle(subs, h)))
  {
    ToldWhoIsNotKept(event, subs, FOR_ACTIVE, h);
    assert Passed(subs, FOR_ACTIVE, h) == One(ActiveHandle(subs, h)) by {
      ActiveIsListed(subs, h);
      ListedIsMembership(subs, h);
      ActiveAreTold(subs, h);
      ListedIsMembership(Others(subs, FOR_ACTIVE), h);
    }
  }

  lemma InactiveTold(event: Event, subs: seq<Subscriber>, h: int)
    requires Listed(subs, h) <= 1
    ensures TallyOf(Notices(event, subs, FOR_INACTIVE), h) ==
            TallyFor(event, One(HasHandle(subs, h) && !ActiveHandle(subs, h)))
  {
    ToldWhoIsNotKept(event, subs, FOR_INACTIVE, h);
    assert Passed(subs, FOR_INACTIVE, h) == One(HasHandle(subs, h) && !ActiveHandle(subs, h)) by {
      ActiveIsListed(subs, h);
      ListedIsMembership(subs, h);
      OthersHold(subs, h);
      ListedIsMembership(Others(subs, FOR_INACTIVE), h);
    }
  }

  // ----- One event ------------------------------------------------------------------------

  ghost predicate StepSays(m: Machine, event: Event, h: int) {
    var (m', outs) := Step(m, event);
    Says(ConnFor(m.state), m.state.RELEASING?, m.subscribers, event, m'.subscribers, TallyOf(outs, h), h)
  }

  ghost predicate StepLists(m: Machine, event: Event, h: int) {
    Lists(ConnFor(m.state), m.state.RELEASING?, m.subscribers, event, Step(m, event).0.subscribers, h)
  }

  lemma SubscribeSays(m: Machine, g: int, wait: bool, h: int)
    requires Shape(m, h)
    ensures StepSays(m, Subscribe(g, wait), h) && StepLists(m, Subscribe(g, wait), h)
  {
    ActiveSnoc(m.subscribers, Subscriber(g, wait, false), h);
    TallyOne(RequestDataConn, h);
    TallyOne(OpenStatus(g, true), h);
  }

  /** The entry of a handle that is listed once is the one that is found. */
  lemma WaitsIfFound(subs: seq<Subscriber>, h: int)
    requires Listed(subs, h) <= 1 && HasHandle(subs, h)
    ensures Waits(subs, h) <==> subs[IndexOf(subs, h)].waitForCloseComplete
  {
    if Waits(subs, h) {
      var i :| 0 <= i < |subs| && subs[i].connHandle == h && subs[i].waitForCloseComplete;
      ListedOnce(subs, h, i, IndexOf(subs, h));
    }
  }

  lemma UnsubscribeLists(m: Machine, g: int, h: int)
    requires Shape(m, h)
    ensures StepLists(m, Unsubscribe(g), h)
  {
    if HasHandle(m.subscribers, g) {
      if g == h { WaitsIfFound(m.subscribers, h); }
      InactivatedHolds(m.subscribers, IndexOf(m.subscribers, g), h);
      WithoutHolds(m.subscribers, g, h);
    }
  }

  lemma NoneActiveIfEmpty(subs: seq<Subscriber>)
    ensures subs == [] ==> !AnyActive(subs)
  {
  }

  lemma UnsubscribeTally(told: seq<Output>, s: Subscriber, h: int)
    requires told == UnsubscribeNotice(s)
    ensures TallyOf(told, h) == Tally(0, 0, One(s.connHandle == h && !s.waitForCloseComplete), 0, 0)
    ensures TallyOf(told + [ReleaseDataConn], h) == TallyOf(told, h).(releases := 1)
  {
    TallyOne(CloseStatus(s.connHandle), h);
    TallySnoc(told, ReleaseDataConn, h);
  }

  /** The unsubscribe of the entry that is found, while there is a connection or one is released. */
  lemma UnsubscribeOutputs(m: Machine, i: nat)
    requires !m.state.RELEASED? && i < |m.subscribers|
    ensures var (m', outs) := UnsubscribeStep(m, i);
      var told := UnsubscribeNotice(m.subscribers[i]);
      outs == if !ConnFor(m.state).NoConn? && !AnyActive(m'.subscribers) then told + [ReleaseDataConn] else told
  {
    NoneActiveIfEmpty(UnsubscribeStep(m, i).0.subscribers);
  }

  lemma UnsubscribeTalliesUp(m: Machine, i: nat, h: int)
    requires !m.state.RELEASED? && i < |m.subscribers|
    ensures var (m', outs) := UnsubscribeStep(m, i);
      var s := m.subscribers[i];
      TallyOf(outs, h) == Tally(0, 0, One(s.connHandle == h && !s.waitForCloseComplete), 0,
                                One(!ConnFor(m.state).NoConn? && !AnyActive(m'.subscribers)))
  {
    UnsubscribeOutputs(m, i);
    UnsubscribeTally(UnsubscribeNotice(m.subscribers[i]), m.subscribers[i], h);
  }

  lemma UnsubscribeSays(m: Machine, g: int, h: int)
    requires Shape(m, h)
    ensures StepSays(m, Unsubscribe(g), h)
  {
    if HasHandle(m.subscribers, g) {
      UnsubscribeTalliesUp(m, IndexOf(m.subscribers, g), h);
      if g == h { WaitsIfFound(m.subscribers, h); }
    }
  }

  /** GRANTED, or a RELEASED or DENIED that does not complete a release. */
  lemma FrameworkEventSays(m: Machine, event: Event, h: int)
    requires Shape(m, h) && ForEveryone(m, event)
    ensures StepSays(m, event, h) && StepLists(m, event, h)
  {
    if event.Granted? {
      ActiveTold(event, m.subscribers, h);
    } else {
      AllAreTold(event, m.subscribers, h);
    }
  }

  lemma ClosedOutputs(m: Machine)
    ensures var told := Notices(Released, m.subscribers, FOR_INACTIVE);
      ClosedStep(m).1 == if AnyActive(m.subscribers) then told + [RequestDataConn] else told
  {
    ActiveAreLeft(m.subscribers);
  }

  lemma TallyThenRequest(told: seq<Output>, n: nat, request: bool, h: int)
    requires TallyOf(told, h) == Tally(0, 0, n, 0, 0)
    ensures TallyOf(if request then told + [RequestDataConn] else told, h) == Tally(0, 0, n, One(request), 0)
  {
    TallySnoc(told, RequestDataConn, h);
  }

  lemma ClosedTally(m: Machine, h: int)
    requires Shape(m, h)
    ensures TallyOf(ClosedStep(m).1, h) ==
            Tally(0, 0, One(HasHandle(m.subscribers, h) && !ActiveHandle(m.subscribers, h)),
                  One(AnyActive(m.subscribers)), 0)
  {
    InactiveTold(Released, m.subscribers, h);
    ClosedOutputs(m);
    TallyThenRequest(Notices(Released, m.subscribers, FOR_INACTIVE),
                     One(HasHandle(m.subscribers, h) && !ActiveHandle(m.subscribers, h)), AnyActive(m.subscribers), h);
  }

  lemma ClosedSays(m: Machine, event: Event, h: int)
    requires Shape(m, h) && m.state.RELEASING? && (event.Released? || event.Denied?)
    ensures StepSays(m, event, h) && StepLists(m, event, h)
  {
    ClosedTally(m, h);
    OthersHold(m.subscribers, h);
    assert Step(m, event) == ClosedStep(m) && ClosedStep(m).0.subscribers == Others(m.subscribers, FOR_INACTIVE);
  }

  /** Someone is active among those left exactly if someone was. */
  lemma {:induction false} ActiveAreLeft(subs: seq<Subscriber>)
    ensures AnyActive(Others(subs, FOR_INACTIVE)) <==> AnyActive(subs)
  {
    OthersActive(subs);
    var others := Others(subs, FOR_INACTIVE);
    if AnyActive(subs) {
      var i :| 0 <= i < |subs| && !subs[i].isInactive;
      OthersHold(subs, subs[i].connHandle);
      assert ActiveHandle(subs, subs[i].connHandle);
    }
    if others != [] {
      assert others[0] in others;
    }
  }

  /** One event says and leaves exactly what the framework's side and the list before it call for. */
  lemma StepIsTold(m: Machine, event: Event, h: int)
    requires Shape(m, h)
    ensures StepSays(m, event, h) && StepLists(m, event, h)
  {
    match event
    case Subscribe(g, wait) => SubscribeSays(m, g, wait, h);
    case Unsubscribe(g) =>
      UnsubscribeSays(m, g, h);
      UnsubscribeLists(m, g, h);
    case ModemSsr =>
    case _ =>
      if m.state.RELEASING? && !event.Granted? {
        ClosedSays(m, event, h);
      } else {
        FrameworkEventSays(m, event, h);
      }
  }

  lemma StepReleasesWhen(m: Machine, event: Event)
    requires m.state.RELEASED? ==> m.subscribers == []
    ensures var m' := Step(m, event).0;
      m'.state.RELEASING? <==>
      Releasing(ConnFor(m.state), m.state.RELEASING?, m.subscribers, event, m'.subscribers)
  {
    if event.Unsubscribe? && HasHandle(m.subscribers, event.connHandle) {
      NoneActiveIfEmpty(Step(m, event).0.subscribers);
    }
  }

  /** The framework is asked for a connection, or to give it up, after everyone has been told. */
  lemma RequestComesLast(m: Machine, event: Event)
    ensures var outs := Step(m, event).1; outs != [] ==> NoRequests(outs[..|outs| - 1])
  {
    NoticesOnlyTell(event, m.subscribers, FOR_ACTIVE);
    NoticesOnlyTell(event, m.subscribers, FOR_ALL);
    NoticesOnlyTell(Released, m.subscribers, FOR_INACTIVE);
  }

  // ----- Who waits for the close -------------------------------------------------------------

  lemma WaitsSnoc(subs: seq<Subscriber>, s: Subscriber, h: int)
    ensures Waits(subs + [s], h) <==> Waits(subs, h) || (s.connHandle == h && s.waitForCloseComplete)
  {
    var all := subs + [s];
    assert all[|subs|] == s && forall i :: 0 <= i < |subs| ==> all[i] == subs[i];
  }

  lemma WaitsInit(subs: seq<Subscriber>, h: int)
    requires subs != []
    ensures var init, last := subs[..|subs| - 1], subs[|subs| - 1];
      Waits(subs, h) <==> Waits(init, h) || (last.connHandle == h && last.waitForCloseComplete)
  {
    WaitsSnoc(subs[..|subs| - 1], subs[|subs| - 1], h);
    assert subs[..|subs| - 1] + [subs[|subs| - 1]] == subs;
  }

  lemma WaitsIsListed(subs: seq<Subscriber>, h: int)
    ensures Waits(subs, h) ==> HasHandle(subs, h)
  {
    if Waits(subs, h) {
      var i :| 0 <= i < |subs| && subs[i].connHandle == h;
      assert HasHandle(subs, h);
    }
  }

  lemma {:induction false} OthersWait(subs: seq<Subscriber>, target: NotificationType, h: int)
    requires Listed(subs, h) <= 1
    ensures HasHandle(Others(subs, target), h) ==>
            HasHandle(subs, h) && (Waits(Others(subs, target), h) <==> Waits(subs, h))
  {
    if subs != [] {
      var init, last := subs[..|subs| - 1], subs[|subs| - 1];
      OthersWait(init, target, h);
      ListedIsMembership(init, h);
      ActiveInit(subs, h);
      WaitsInit(subs, h);
      WaitsIsListed(init, h);
      WaitsIsListed(Others(init, target), h);
      ActiveSnoc(Others(init, target), last, h);
      WaitsSnoc(Others(init, target), last, h);
    }
  }

  lemma {:induction false} WithoutWaits(subs: seq<Subscriber>, g: int, h: int)
    ensures Waits(Without(subs, g), h) <==> g != h && Waits(subs, h)
  {
    if subs != [] {
      var init, last := subs[..|subs| - 1], subs[|subs| - 1];
      WithoutWaits(init, g, h);
      WaitsInit(subs, h);
      WaitsSnoc(Without(init, g), last, h);
    }
  }

  lemma InactivatedWaits(subs: seq<Subscriber>, i: nat, h: int)
    requires i < |subs|
    ensures Waits(Inactivated(subs, i), h) <==> Waits(subs, h)
  {
    var after := Inactivated(subs, i);
    assert forall k :: 0 <= k < |subs| ==> after[k].connHandle == subs[k].connHandle;
    assert forall k :: 0 <= k < |subs| ==> after[k].waitForCloseComplete == subs[k].waitForCloseComplete;
  }

  lemma StepKeepsWaiting(m: Machine, event: Event, h: int)
    requires Shape(m, h)
    ensures KeepsWaiting(m.subscribers, event, Step(m, event).0.subscribers, h)
  {
    WaitsIsListed(m.subscribers, h);
    match event
    case Subscribe(g, wait) =>
      ActiveSnoc(m.subscribers, Subscriber(g, wait, false), h);
      WaitsSnoc(m.subscribers, Subscriber(g, wait, false), h);
    case Unsubscribe(g) =>
      if HasHandle(m.subscribers, g) {
        WithoutHolds(m.subscribers, g, h);
        WithoutWaits(m.subscribers, g, h);
        InactivatedHolds(m.subscribers, IndexOf(m.subscribers, g), h);
        InactivatedWaits(m.subscribers, IndexOf(m.subscribers, g), h);
      }
    case _ =>
      OthersWait(m.subscribers, FOR_INACTIVE, h);
  }

  /** The end of a connection leaves nobody listed, requests and gives up nothing, and tells each entry
      once and nobody else: of the failed open, or of the close. */
  lemma EndTells(m: Machine, event: Event, h: int)
    requires Shape(m, h) && EndedBy(ConnFor(m.state), event)
    ensures Step(m, event).0 == Machine(RELEASED, [])
    ensures var n := Listed(m.subscribers, h);
      TallyOf(Step(m, event).1, h) == if event.Denied? then Tally(0, n, 0, 0, 0) else Tally(0, 0, n, 0, 0)
  {
    AllAreTold(event, m.subscribers, h);
    ListedIsMembership(m.subscribers, h);
  }

  // ----- Every run ------------------------------------------------------------------------

  /** What the last event of a run makes the machine say, as far as handle `h` and the connection go. */
  function Said(events: seq<Event>, h: int): Tally
    requires events != []
  {
    TallyOf(Step(Run(events[..|events| - 1], h).machine, events[|events| - 1]).1, h)
  }

  /** After any run the last event has said and left exactly what the framework's side, whether a
      release was in progress, and the list before it call for. */
  lemma EveryRunSays(events: seq<Event>, h: int)
    requires events != []
    ensures var event, l, l' := events[|events| - 1], Run(events[..|events| - 1], h), Run(events, h);
      var releasing, subs, after := l.machine.state.RELEASING?, l.machine.subscribers, l'.machine.subscribers;
      && Says(l.conn, releasing, subs, event, after, Said(events, h), h)
      && Lists(l.conn, releasing, subs, event, after, h) && KeepsWaiting(subs, event, after, h)
      && (l'.machine.state.RELEASING? <==> Releasing(l.conn, releasing, subs, event, after))
  {
    var before, event := events[..|events| - 1], events[|events| - 1];
    EveryRunBalances(before, h);
    StepIsTold(Run(before, h).machine, event, h);
    StepKeepsWaiting(Run(before, h).machine, event, h);
    StepReleasesWhen(Run(before, h).machine, event);
  }

  /** In particular a connection is requested by nothing but a subscribe, when there is none and none is
      being released, and the completion of a release, when an active subscriber waits for it. */
  lemma RequestedWhen(events: seq<Event>, h: int)
    requires events != []
    ensures var event, l := events[|events| - 1], Run(events[..|events| - 1], h);
      var releasing, subs := l.machine.state.RELEASING?, l.machine.subscribers;
      Said(events, h).requests ==
      One((event.Subscribe? && l.conn.NoConn? && !releasing) || (Closes(releasing, event) && AnyActive(subs)))
  {
    EveryRunSays(events, h);
  }

  /** Until a modem restart a connection is being released exactly if there is none and someone is
      listed. */
  lemma ReleasingIsTold(events: seq<Event>, h: int)
    ensures var l := Run(events, h);
      !l.ssrSeen ==> (l.machine.state.RELEASING? <==> l.conn.NoConn? && l.machine.subscribers != [])
  {
    EveryRunBalances(events, h);
  }

  /** The end of a connection in any run: a DENIED while it is pending, or a RELEASED while it is
      held. */
  lemma EndTellsEveryone(events: seq<Event>, h: int)
    requires events != [] && EndedBy(Run(events[..|events| - 1], h).conn, events[|events| - 1])
    ensures var event, after := events[|events| - 1], Run(events, h);
      var n := Listed(Run(events[..|events| - 1], h).machine.subscribers, h);
      && after.machine == Machine(RELEASED, []) && after.conn.NoConn?
      && Said(events, h) == if event.Denied? then Tally(0, n, 0, 0, 0) else Tally(0, 0, n, 0, 0)
  {
    EveryRunBalances(events[..|events| - 1], h);
    EveryRunBalances(events, h);
    EndTells(Run(events[..|events| - 1], h).machine, events[|events| - 1], h);
  }

  // ----- The order of notices ---------------------------------------------------------------

  /** A list in two parts is told part by part, and what is kept or left of it is what is kept or left
      of the parts, in their order. */
  lemma {:induction false} InOrder(event: Event, first: seq<Subscriber>, rest: seq<Subscriber>,
                                   target: NotificationType, h: int)
    ensures Notices(event, first + rest, target) == Notices(event, first, target) + Notices(event, rest, target)
    ensures Others(first + rest, target) == Others(first, target) + Others(rest, target)
    ensures Without(first + rest, h) == Without(first, h) + Without(rest, h)
  {
    if rest == [] {
      assert first + rest == first;
    } else {
      var init := rest[..|rest| - 1];
      assert (first + rest)[..|first + rest| - 1] == first + init;
      InOrder(event, first, init, target, h);
    }
  }
}
