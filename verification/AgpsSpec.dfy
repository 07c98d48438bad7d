/** The AGPS connection machine of gps/gnss/Agps.cpp as a step function, and what holds
    over every run of it. */
module AgpsSpec {
  datatype AgpsState = RELEASED | PENDING | ACQUIRED | RELEASING

  datatype Subscriber = Subscriber(connHandle: int, waitForCloseComplete: bool, isInactive: bool)

  /** Callbacks to the subscribers and requests to the framework, in order. */
  datatype Output =
    | OpenStatus(connHandle: int, success: bool)
    | CloseStatus(connHandle: int)
    | RequestDataConn
    | ReleaseDataConn

  datatype Event =
    | Subscribe(connHandle: int, waitForCloseComplete: bool)
    | Unsubscribe(connHandle: int)
    | Granted
    | Released
    | Denied
    | ModemSsr

  datatype NotificationType = FOR_ALL | FOR_INACTIVE | FOR_ACTIVE

  datatype Machine = Machine(state: AgpsState, subscribers: seq<Subscriber>)

  // ----- Subscriber lists ---------------------------------------------------------------

  predicate Matches(target: NotificationType, s: Subscriber) {
    match target
    case FOR_ALL => true
    case FOR_INACTIVE => s.isInactive
    case FOR_ACTIVE => !s.isInactive
  }

  function Others(subs: seq<Subscriber>, target: NotificationType): seq<Subscriber> {
    if subs == [] then []
    else
      var rest := Others(subs[..|subs| - 1], target);
      if Matches(target, subs[|subs| - 1]) then rest else rest + [subs[|subs| - 1]]
  }

  /** What a subscriber is told about an event. */
  function Told(event: Event, connHandle: int): Output {
    match event
    case Granted => OpenStatus(connHandle, true)
    case Denied => OpenStatus(connHandle, false)
    case _ => CloseStatus(connHandle)
  }

  function Notices(event: Event, subs: seq<Subscriber>, target: NotificationType): seq<Output> {
    if subs == [] then []
    else
      var rest := Notices(event, subs[..|subs| - 1], target);
      var last := subs[|subs| - 1];
      if Matches(target, last) then rest + [Told(event, last.connHandle)] else rest
  }

  function Without(subs: seq<Subscriber>, connHandle: int): seq<Subscriber> {
    if subs == [] then []
    else
      var rest := Without(subs[..|subs| - 1], connHandle);
      if subs[|subs| - 1].connHandle == connHandle then rest else rest + [subs[|subs| - 1]]
  }

  predicate HasHandle(subs: seq<Subscriber>, connHandle: int) {
    exists i :: 0 <= i < |subs| && subs[i].connHandle == connHandle
  }

  predicate AnyActive(subs: seq<Subscriber>) {
    exists i :: 0 <= i < |subs| && !subs[i].isInactive
  }

  function IndexOf(subs: seq<Subscriber>, connHandle: int): (i: nat)
    requires HasHandle(subs, connHandle)
    ensures i < |subs| && subs[i].connHandle == connHandle
    ensures forall k :: 0 <= k < i ==> subs[k].connHandle != connHandle
  {
    if subs[0].connHandle == connHandle then 0
    else
      assert HasHandle(subs[1..], connHandle) by {
        var i :| 0 <= i < |subs| && subs[i].connHandle == connHandle;
        assert subs[1..][i - 1].connHandle == connHandle;
      }
      1 + IndexOf(subs[1..], connHandle)
  }

  function Added(subs: seq<Subscriber>, s: Subscriber): (r: seq<Subscriber>)
    ensures subs <= r && |r| <= |subs| + 1
  {
    if HasHandle(subs, s.connHandle) then subs else subs + [s]
  }

  function Inactivated(subs: seq<Subscriber>, i: nat): seq<Subscriber>
    requires i < |subs|
  {
    subs[i := subs[i].(isInactive := true)]
  }

  // ----- One event ----------------------------------------------------------------------

  function Step(m: Machine, event: Event): (Machine, seq<Output>) {
    match event
    case Subscribe(h, wait) => SubscribeStep(m, Subscriber(h, wait, false))
    case Unsubscribe(h) =>
      if HasHandle(m.subscribers, h) then UnsubscribeStep(m, IndexOf(m.subscribers, h)) else (m, [])
    case Granted =>
      if m.state.PENDING? then (Machine(ACQUIRED, m.subscribers), Notices(Granted, m.subscribers, FOR_ACTIVE))
      else (m, [])
    case Released =>
      if m.state.ACQUIRED? then (Machine(RELEASED, []), Notices(Released, m.subscribers, FOR_ALL))
      else if m.state.RELEASING? then ClosedStep(m)
      else (m, [])
    case Denied =>
      if m.state.PENDING? then (Machine(RELEASED, []), Notices(Denied, m.subscribers, FOR_ALL))
      else if m.state.RELEASING? then ClosedStep(m)
      else (m, [])
    case ModemSsr => (m.(subscribers := []), [])
  }

  function SubscribeStep(m: Machine, s: Subscriber): (Machine, seq<Output>) {
    var subs := Added(m.subscribers, s);
    match m.state
    case RELEASED => (Machine(PENDING, subs), [RequestDataConn])
    case ACQUIRED => (Machine(ACQUIRED, subs), [OpenStatus(s.connHandle, true)])
    case _ => (Machine(m.state, subs), [])
  }

  /** The subscriber at `i` unsubscribes; one that waits for the close becomes inactive. */
  function UnsubscribeStep(m: Machine, i: nat): (Machine, seq<Output>)
    requires i < |m.subscribers|
  {
    var s := m.subscribers[i];
    if m.state.RELEASED? then (m, [CloseStatus(s.connHandle)])
    else
      var subs := if s.waitForCloseComplete then Inactivated(m.subscribers, i)
                  else Without(m.subscribers, s.connHandle);
      var told := if s.waitForCloseComplete then [] else [CloseStatus(s.connHandle)];
      var wanted := m.state.PENDING? || m.state.ACQUIRED?;
      if subs == [] then (Machine(RELEASED, subs), told + if wanted then [ReleaseDataConn] else [])
      else if wanted && !AnyActive(subs) then (Machine(RELEASING, subs), told + [ReleaseDataConn])
      else (Machine(m.state, subs), told)
  }

  /** The connection being released is gone: those waiting for it are told, and a new one is
      requested if anyone still needs it. */
  function ClosedStep(m: Machine): (Machine, seq<Output>) {
    var subs := Others(m.subscribers, FOR_INACTIVE);
    var told := Notices(Released, m.subscribers, FOR_INACTIVE);
    if AnyActive(subs) then (Machine(PENDING, subs), told + [RequestDataConn]) else (Machine(RELEASED, subs), told)
  }

  // ----- The ledgers kept beside a run ----------------------------------------------------

  /** The framework's side of the data connection. */
  datatype Conn = NoConn | ConnPending | ConnHeld

  function ConnAfterEvent(c: Conn, event: Event): Conn {
    match event
    case Granted => if c.ConnPending? then ConnHeld else c
    case Released => if c.ConnHeld? then NoConn else c
    case Denied => if c.ConnPending? then NoConn else c
    case _ => c
  }

  function ConnAfterOutput(c: Conn, out: Output): Conn {
    match out
    case RequestDataConn => ConnPending
    case ReleaseDataConn => NoConn
    case _ => c
  }

  function ConnAfter(c: Conn, outs: seq<Output>): Conn {
    if outs == [] then c else ConnAfterOutput(ConnAfter(c, outs[..|outs| - 1]), outs[|outs| - 1])
  }

  /** A connection is requested only when there is none, released only when there is one. */
  predicate WellTimed(c: Conn, outs: seq<Output>) {
    if outs == [] then true
    else
      var init, last := outs[..|outs| - 1], outs[|outs| - 1];
      && WellTimed(c, init)
      && (last.RequestDataConn? ==> ConnAfter(c, init).NoConn?)
      && (last.ReleaseDataConn? ==> !ConnAfter(c, init).NoConn?)
  }

  /** How often handle `h` is listed. */
  function Listed(subs: seq<Subscriber>, h: int): nat {
    if subs == [] then 0
    else Listed(subs[..|subs| - 1], h) + if subs[|subs| - 1].connHandle == h then 1 else 0
  }

  /** The output tells handle `h` that its connection closed or could not be opened. */
  predicate Ends(out: Output, h: int) {
    (out.CloseStatus? || (out.OpenStatus? && !out.success)) && out.connHandle == h
  }

  function Ended(outs: seq<Output>, h: int): nat {
    if outs == [] then 0
    else Ended(outs[..|outs| - 1], h) + if Ends(outs[|outs| - 1], h) then 1 else 0
  }

  /** The machine, the framework's side, and what became of handle `h`. */
  datatype Ledger = Ledger(machine: Machine, conn: Conn, timely: bool, ssrSeen: bool,
                           accepted: nat, ended: nat, dropped: nat)

  predicate Accepts(m: Machine, event: Event, h: int) {
    event.Subscribe? && event.connHandle == h && !HasHandle(m.subscribers, h)
  }

  function LedgerStep(l: Ledger, event: Event, h: int): Ledger {
    var (m, outs) := Step(l.machine, event);
    var conn := ConnAfterEvent(l.conn, event);
    Ledger(m, ConnAfter(conn, outs), l.timely && WellTimed(conn, outs), l.ssrSeen || event.ModemSsr?,
           l.accepted + (if Accepts(l.machine, event, h) then 1 else 0),
           l.ended + Ended(outs, h),
           l.dropped + (if event.ModemSsr? then Listed(l.machine.subscribers, h) else 0))
  }

  function Run(events: seq<Event>, h: int): Ledger {
    if events == [] then Ledger(Machine(RELEASED, []), NoConn, true, false, 0, 0, 0)
    else LedgerStep(Run(events[..|events| - 1], h), events[|events| - 1], h)
  }

  // ----- What every run keeps --------------------------------------------------------------

  ghost predicate Shape(m: Machine, h: int) {
    Listed(m.subscribers, h) <= 1 && (m.state.RELEASED? ==> m.subscribers == [])
  }

  /** While no modem restart has dropped the subscribers. */
  ghost predicate Served(m: Machine) {
    && (m.state.PENDING? || m.state.ACQUIRED? ==> AnyActive(m.subscribers))
    && (m.state.RELEASING? ==> m.subscribers != [])
  }

  function ConnFor(state: AgpsState): Conn {
    match state
    case PENDING => ConnPending
    case ACQUIRED => ConnHeld
    case _ => NoConn
  }

  lemma {:induction false} ListedIsMembership(subs: seq<Subscriber>, h: int)
    ensures Listed(subs, h) > 0 <==> HasHandle(subs, h)
  {
    if subs != [] {
      var init := subs[..|subs| - 1];
      ListedIsMembership(init, h);
      if HasHandle(subs, h) && subs[|subs| - 1].connHandle != h {
        var i :| 0 <= i < |subs| && subs[i].connHandle == h;
        assert init[i].connHandle == h;
      }
      if HasHandle(init, h) {
        var i :| 0 <= i < |init| && init[i].connHandle == h;
        assert subs[i].connHandle == h;
      }
    }
  }

  lemma ListedSnoc(subs: seq<Subscriber>, s: Subscriber, h: int)
    ensures Listed(subs + [s], h) == Listed(subs, h) + if s.connHandle == h then 1 else 0
  {
    assert (subs + [s])[..|subs|] == subs;
  }

  lemma EndedSnoc(outs: seq<Output>, out: Output, h: int)
    ensures Ended(outs + [out], h) == Ended(outs, h) + if Ends(out, h) then 1 else 0
    ensures Ended([out], h) == if Ends(out, h) then 1 else 0
  {
    assert (outs + [out])[..|outs|] == outs;
    assert [out][..0] == [];
  }

  lemma ConnSnoc(c: Conn, outs: seq<Output>, out: Output)
    requires WellTimed(c, outs)
    ensures ConnAfter(c, outs + [out]) == ConnAfterOutput(ConnAfter(c, outs), out)
    ensures (out.RequestDataConn? ==> ConnAfter(c, outs).NoConn?) ==>
            (out.ReleaseDataConn? ==> !ConnAfter(c, outs).NoConn?) ==> WellTimed(c, outs + [out])
  {
    assert (outs + [out])[..|outs|] == outs;
  }

  /** Outputs that only talk to subscribers. */
  ghost predicate NoRequests(outs: seq<Output>) {
    forall i :: 0 <= i < |outs| ==> !outs[i].RequestDataConn? && !outs[i].ReleaseDataConn?
  }

  lemma {:induction false} NoRequestsKeepConn(c: Conn, outs: seq<Output>)
    requires NoRequests(outs)
    ensures ConnAfter(c, outs) == c && WellTimed(c, outs)
  {
    if outs != [] {
      NoRequestsKeepConn(c, outs[..|outs| - 1]);
    }
  }

  /** Everyone is either told and dropped or kept, never both and never neither. */
  lemma {:induction false} NoticesSplitList(event: Event, subs: seq<Subscriber>, target: NotificationType, h: int)
    requires event.Released? || event.Denied?
    ensures Listed(subs, h) == Listed(Others(subs, target), h) + Ended(Notices(event, subs, target), h)
  {
    if subs != [] {
      var init, last := subs[..|subs| - 1], subs[|subs| - 1];
      var kept, told := Others(init, target), Notices(event, init, target);
      NoticesSplitList(event, init, target, h);
      if Matches(target, last) {
        assert Others(subs, target) == kept && Notices(event, subs, target) == told + [Told(event, last.connHandle)];
        EndedSnoc(told, Told(event, last.connHandle), h);
      } else {
        assert Others(subs, target) == kept + [last] && Notices(event, subs, target) == told;
        ListedSnoc(kept, last, h);
      }
    }
  }

  lemma {:induction false} NoticesOnlyTell(event: Event, subs: seq<Subscriber>, target: NotificationType)
    ensures NoRequests(Notices(event, subs, target))
  {
    if subs != [] {
      NoticesOnlyTell(event, subs[..|subs| - 1], target);
    }
  }

  lemma {:induction false} EveryoneIsTold(subs: seq<Subscriber>)
    ensures Others(subs, FOR_ALL) == []
  {
    if subs != [] {
      EveryoneIsTold(subs[..|subs| - 1]);
    }
  }

  lemma {:induction false} GrantedEndsNobody(subs: seq<Subscriber>, target: NotificationType, h: int)
    ensures Ended(Notices(Granted, subs, target), h) == 0
  {
    if subs != [] {
      var init, last := subs[..|subs| - 1], subs[|subs| - 1];
      GrantedEndsNobody(init, target, h);
      EndedSnoc(Notices(Granted, init, target), Told(Granted, last.connHandle), h);
    }
  }

  lemma {:induction false} WithoutListed(subs: seq<Subscriber>, g: int, h: int)
    ensures Listed(Without(subs, g), h) == if g == h then 0 else Listed(subs, h)
  {
    if subs != [] {
      WithoutListed(subs[..|subs| - 1], g, h);
      ListedSnoc(Without(subs[..|subs| - 1], g), subs[|subs| - 1], h);
    }
  }

  lemma {:induction false} InactivatedListed(subs: seq<Subscriber>, i: nat, h: int)
    requires i < |subs|
    ensures Listed(Inactivated(subs, i), h) == Listed(subs, h)
  {
    var n := |subs| - 1;
    var after := Inactivated(subs, i);
    if i < n {
      InactivatedListed(subs[..n], i, h);
      assert after[..n] == Inactivated(subs[..n], i);
    } else {
      assert after[..n] == subs[..n];
    }
  }

  /** Inactive subscribers drop out of a list of the others. */
  lemma {:induction false} OthersActive(subs: seq<Subscriber>)
    ensures forall s :: s in Others(subs, FOR_INACTIVE) ==> s in subs && !s.isInactive
    ensures AnyActive(Others(subs, FOR_INACTIVE)) <==> Others(subs, FOR_INACTIVE) != []
  {
    if subs != [] {
      OthersActive(subs[..|subs| - 1]);
    }
    var others := Others(subs, FOR_INACTIVE);
    if others != [] {
      assert others[0] in others;
    }
  }

  // ----- Each event keeps it -----------------------------------------------------------------

  /** The framework's connection follows the machine's state, and requests are well timed. */
  ghost predicate FollowsConn(m: Machine, event: Event, m': Machine, outs: seq<Output>) {
    var c := ConnAfterEvent(ConnFor(m.state), event);
    ConnAfter(c, outs) == ConnFor(m'.state) && WellTimed(c, outs)
  }

  lemma SubscribeAccounts(m: Machine, s: Subscriber, h: int)
    requires Shape(m, h)
    ensures var (m', outs) := SubscribeStep(m, s);
      && Shape(m', h) && Ended(outs, h) == 0
      && Listed(m'.subscribers, h) ==
         Listed(m.subscribers, h) + if s.connHandle == h && !HasHandle(m.subscribers, h) then 1 else 0
  {
    ListedIsMembership(m.subscribers, h);
    ListedSnoc(m.subscribers, s, h);
    EndedSnoc([], RequestDataConn, h);
    EndedSnoc([], OpenStatus(s.connHandle, true), h);
  }

  lemma SubscribeConnects(m: Machine, s: Subscriber)
    ensures var (m', outs) := SubscribeStep(m, s);
      FollowsConn(m, Subscribe(s.connHandle, s.waitForCloseComplete), m', outs)
  {
    NoRequestsKeepConn(ConnFor(m.state), []);
    if m.state.RELEASED? {
      ConnSnoc(NoConn, [], RequestDataConn);
      assert [] + [RequestDataConn] == [RequestDataConn];
    } else {
      NoRequestsKeepConn(ConnFor(m.state), [OpenStatus(s.connHandle, true)]);
    }
  }

  lemma SubscribeServes(m: Machine, s: Subscriber)
    requires Served(m) && !s.isInactive && (m.state.RELEASED? ==> m.subscribers == [])
    ensures Served(SubscribeStep(m, s).0)
  {
    var subs := Added(m.subscribers, s);
    if AnyActive(m.subscribers) {
      var i :| 0 <= i < |m.subscribers| && !m.subscribers[i].isInactive;
      assert !subs[i].isInactive;
    }
    if m.state.RELEASED? {
      assert !subs[0].isInactive;
    }
  }

  /** The notice an unsubscribing handle gets at once. */
  function UnsubscribeNotice(s: Subscriber): seq<Output> {
    if s.waitForCloseComplete then [] else [CloseStatus(s.connHandle)]
  }

  lemma UnsubscribeAccounts(m: Machine, i: nat, h: int)
    requires Shape(m, h) && i < |m.subscribers|
    ensures var (m', outs) := UnsubscribeStep(m, i);
      Shape(m', h) && Listed(m.subscribers, h) == Listed(m'.subscribers, h) + Ended(outs, h)
  {
    var s := m.subscribers[i];
    var (m', outs) := UnsubscribeStep(m, i);
    var told := UnsubscribeNotice(s);
    EndedSnoc(told, ReleaseDataConn, h);
    assert Ended(outs, h) == Ended(told, h) by {
      assert outs == told || outs == told + [ReleaseDataConn];
    }
    if s.waitForCloseComplete {
      InactivatedListed(m.subscribers, i, h);
    } else {
      EndedSnoc([], CloseStatus(s.connHandle), h);
      WithoutListed(m.subscribers, s.connHandle, h);
      ListedIsMembership(m.subscribers, s.connHandle);
      assert HasHandle(m.subscribers, s.connHandle);
    }
  }

  lemma UnsubscribeConnects(m: Machine, i: nat)
    requires !m.state.RELEASED? && i < |m.subscribers|
    ensures var (m', outs) := UnsubscribeStep(m, i);
      FollowsConn(m, Unsubscribe(m.subscribers[i].connHandle), m', outs)
  {
    var told := UnsubscribeNotice(m.subscribers[i]);
    var (m', outs) := UnsubscribeStep(m, i);
    NoRequestsKeepConn(ConnFor(m.state), told);
    ConnSnoc(ConnFor(m.state), told, ReleaseDataConn);
    assert outs == told || outs == told + [ReleaseDataConn];
  }

  lemma ClosedServes(m: Machine)
    requires m.state.RELEASING?
    ensures var m' := ClosedStep(m).0; Served(m') && (m'.state.RELEASED? ==> m'.subscribers == [])
  {
    OthersActive(m.subscribers);
  }

  /** Some are kept and some told; a request after that ends nobody. */
  lemma RequestEndsNobody(told: seq<Output>, request: bool, h: int)
    ensures Ended(if request then told + [RequestDataConn] else told, h) == Ended(told, h)
  {
    EndedSnoc(told, RequestDataConn, h);
  }

  lemma ClosedAccounts(m: Machine, h: int)
    requires Shape(m, h) && m.state.RELEASING?
    ensures var (m', outs) := ClosedStep(m);
      Shape(m', h) && Listed(m.subscribers, h) == Listed(m'.subscribers, h) + Ended(outs, h)
  {
    var kept, told := Others(m.subscribers, FOR_INACTIVE), Notices(Released, m.subscribers, FOR_INACTIVE);
    ClosedServes(m);
    var request := AnyActive(kept);
    assert ClosedStep(m).0.subscribers == kept && ClosedStep(m).1 == if request then told + [RequestDataConn] else told;
    RequestEndsNobody(told, request, h);
    NoticesSplitList(Released, m.subscribers, FOR_INACTIVE, h);
  }

  lemma ClosedConnects(m: Machine, event: Event)
    requires m.state.RELEASING? && (event.Released? || event.Denied?)
    ensures var (m', outs) := ClosedStep(m); FollowsConn(m, event, m', outs)
  {
    var told := Notices(Released, m.subscribers, FOR_INACTIVE);
    NoticesOnlyTell(Released, m.subscribers, FOR_INACTIVE);
    var c := ConnAfterEvent(ConnFor(m.state), event);
    ToldThenRequested(c, told);
    if AnyActive(Others(m.subscribers, FOR_INACTIVE)) {
      assert ClosedStep(m).0.state == PENDING && ClosedStep(m).1 == told + [RequestDataConn];
    } else {
      assert ClosedStep(m).0.state == RELEASED && ClosedStep(m).1 == told;
    }
  }

  lemma ToldThenRequested(c: Conn, told: seq<Output>)
    requires NoRequests(told) && c.NoConn?
    ensures ConnAfter(c, told) == NoConn && WellTimed(c, told)
    ensures ConnAfter(c, told + [RequestDataConn]) == ConnPending && WellTimed(c, told + [RequestDataConn])
  {
    NoRequestsKeepConn(c, told);
    ConnSnoc(c, told, RequestDataConn);
  }

  predicate ForEveryone(m: Machine, event: Event) {
    event.Granted? || ((event.Released? || event.Denied?) && !m.state.RELEASING?)
  }

  /** GRANTED, or a RELEASED or DENIED that ends the connection for everyone. */
  lemma FrameworkEventAccounts(m: Machine, event: Event, h: int)
    requires Shape(m, h) && ForEveryone(m, event)
    ensures var (m', outs) := Step(m, event);
      && Shape(m', h) && (Served(m) ==> Served(m'))
      && Listed(m.subscribers, h) == Listed(m'.subscribers, h) + Ended(outs, h)
  {
    if event.Granted? {
      GrantedEndsNobody(m.subscribers, FOR_ACTIVE, h);
    } else {
      EveryoneIsTold(m.subscribers);
      NoticesSplitList(event, m.subscribers, FOR_ALL, h);
    }
  }

  lemma FrameworkEventConnects(m: Machine, event: Event)
    requires ForEveryone(m, event)
    ensures var (m', outs) := Step(m, event); FollowsConn(m, event, m', outs)
  {
    var c := ConnAfterEvent(ConnFor(m.state), event);
    var target := if event.Granted? then FOR_ACTIVE else FOR_ALL;
    NoticesOnlyTell(event, m.subscribers, target);
    NoRequestsKeepConn(c, Notices(event, m.subscribers, target));
    NoRequestsKeepConn(c, []);
  }

  /** The accounts of one event balance: what `h` gains and loses in the list is what it is told. */
  ghost predicate Accounts(m: Machine, gained: nat, step: (Machine, seq<Output>), h: int) {
    && Shape(step.0, h)
    && Listed(m.subscribers, h) + gained == Listed(step.0.subscribers, h) + Ended(step.1, h)
  }

  lemma RequestAccounts(m: Machine, event: Event, h: int)
    requires Shape(m, h) && (event.Subscribe? || event.Unsubscribe?)
    ensures Accounts(m, if Accepts(m, event, h) then 1 else 0, Step(m, event), h)
  {
    match event
    case Subscribe(g, wait) => SubscribeAccounts(m, Subscriber(g, wait, false), h);
    case Unsubscribe(g) =>
      if HasHandle(m.subscribers, g) {
        UnsubscribeAccounts(m, IndexOf(m.subscribers, g), h);
      } else {
        assert Step(m, event) == (m, []);
      }
  }

  lemma StepAccounts(m: Machine, event: Event, h: int)
    requires Shape(m, h) && !event.ModemSsr?
    ensures Accounts(m, if Accepts(m, event, h) then 1 else 0, Step(m, event), h)
  {
    if event.Subscribe? || event.Unsubscribe? {
      RequestAccounts(m, event, h);
    } else if m.state.RELEASING? && !event.Granted? {
      ClosedAccounts(m, h);
      assert Step(m, event) == ClosedStep(m);
    } else {
      FrameworkEventAccounts(m, event, h);
    }
  }

  lemma StepConnects(m: Machine, event: Event)
    requires m.state.RELEASED? ==> m.subscribers == []
    ensures var (m', outs) := Step(m, event); FollowsConn(m, event, m', outs)
  {
    NoRequestsKeepConn(ConnFor(m.state), []);
    match event
    case Subscribe(g, wait) => SubscribeConnects(m, Subscriber(g, wait, false));
    case Unsubscribe(g) =>
      if HasHandle(m.subscribers, g) { UnsubscribeConnects(m, IndexOf(m.subscribers, g)); }
    case ModemSsr =>
    case _ =>
      if m.state.RELEASING? && !event.Granted? { ClosedConnects(m, event); } else { FrameworkEventConnects(m, event); }
  }

  lemma StepServes(m: Machine, event: Event)
    requires Served(m) && !event.ModemSsr? && (m.state.RELEASED? ==> m.subscribers == [])
    ensures Served(Step(m, event).0)
  {
    match event
    case Subscribe(g, wait) => SubscribeServes(m, Subscriber(g, wait, false));
    case Unsubscribe(g) =>
    case _ =>
      OthersActive(m.subscribers);
  }

  /** A modem restart empties the list and keeps the state: afterwards nobody is served exactly
      unless the machine was released. */
  lemma SsrServesIff(m: Machine)
    ensures Served(Step(m, ModemSsr).0) <==> m.state.RELEASED?
  {
    assert !AnyActive([]);
  }

  ghost predicate LedgerInv(l: Ledger, h: int) {
    && Shape(l.machine, h) && (!l.ssrSeen ==> Served(l.machine))
    && l.timely && l.conn == ConnFor(l.machine.state)
    && l.accepted == Listed(l.machine.subscribers, h) + l.ended + l.dropped
  }

  /** After any run and for every handle: it is listed at most once; the machine's state is the
      framework's view of the connection, which was only ever requested when absent and released
      when present; and its accepted subscriptions are those still listed, those told of their
      end, and those dropped by a modem restart. */
  lemma {:induction false} EveryRunBalances(events: seq<Event>, h: int)
    ensures LedgerInv(Run(events, h), h)
  {
    if events != [] {
      var l, event := Run(events[..|events| - 1], h), events[|events| - 1];
      EveryRunBalances(events[..|events| - 1], h);
      StepConnects(l.machine, event);
      if !event.ModemSsr? {
        StepAccounts(l.machine, event, h);
        if !l.ssrSeen { StepServes(l.machine, event); }
      }
    }
  }

  // ----- Who has been told that the connection is open ------------------------------------------

  /** Handle `h` is listed as active. */
  predicate ActiveHandle(subs: seq<Subscriber>, h: int) {
    exists i :: 0 <= i < |subs| && subs[i].connHandle == h && !subs[i].isInactive
  }

  /** The output tells handle `h` that its connection is open. */
  predicate Opens(out: Output, h: int) {
    out.OpenStatus? && out.success && out.connHandle == h
  }

  /** Whether the last thing handle `h` was told is that its connection is open. */
  function OpenAfter(open: bool, outs: seq<Output>, h: int): bool {
    if outs == [] then open
    else
      var last := outs[|outs| - 1];
      if Opens(last, h) then true else if Ends(last, h) then false else OpenAfter(open, outs[..|outs| - 1], h)
  }

  function OpenInRun(events: seq<Event>, h: int): bool {
    if events == [] then false
    else
      var before := events[..|events| - 1];
      OpenAfter(OpenInRun(before, h), Step(Run(before, h).machine, events[|events| - 1]).1, h)
  }

  /** Exactly in ACQUIRED have the active subscribers been told that the connection is open; whoever
      is not listed has not, or has been told of the end since. */
  ghost predicate TellsOpen(m: Machine, h: int, open: bool) {
    && (ActiveHandle(m.subscribers, h) ==> (open <==> m.state.ACQUIRED?))
    && (!HasHandle(m.subscribers, h) ==> !open)
  }

  lemma OpenSnoc(open: bool, outs: seq<Output>, out: Output, h: int)
    ensures OpenAfter(open, outs + [out], h) ==
            if Opens(out, h) then true else if Ends(out, h) then false else OpenAfter(open, outs, h)
    ensures OpenAfter(open, [out], h) == if Opens(out, h) then true else if Ends(out, h) then false else open
  {
    assert (outs + [out])[..|outs|] == outs;
    assert [out][..0] == [];
  }

  lemma ActiveSnoc(subs: seq<Subscriber>, s: Subscriber, h: int)
    ensures ActiveHandle(subs + [s], h) <==> ActiveHandle(subs, h) || (s.connHandle == h && !s.isInactive)
    ensures HasHandle(subs + [s], h) <==> HasHandle(subs, h) || s.connHandle == h
  {
    var all := subs + [s];
    assert all[|subs|] == s && forall i :: 0 <= i < |subs| ==> all[i] == subs[i];
  }

  lemma ActiveInit(subs: seq<Subscriber>, h: int)
    requires subs != []
    ensures var init, last := subs[..|subs| - 1], subs[|subs| - 1];
      && (ActiveHandle(subs, h) <==> ActiveHandle(init, h) || (last.connHandle == h && !last.isInactive))
      && (HasHandle(subs, h) <==> HasHandle(init, h) || last.connHandle == h)
  {
    ActiveSnoc(subs[..|subs| - 1], subs[|subs| - 1], h);
    assert subs[..|subs| - 1] + [subs[|subs| - 1]] == subs;
  }

  /** GRANTED opens exactly the active subscribers. */
  lemma {:induction false} GrantedOpens(subs: seq<Subscriber>, open: bool, h: int)
    ensures OpenAfter(open, Notices(Granted, subs, FOR_ACTIVE), h) == (open || ActiveHandle(subs, h))
  {
    if subs != [] {
      var init, last := subs[..|subs| - 1], subs[|subs| - 1];
      GrantedOpens(init, open, h);
      ActiveInit(subs, h);
      if Matches(FOR_ACTIVE, last) {
        OpenSnoc(open, Notices(Granted, init, FOR_ACTIVE), Told(Granted, last.connHandle), h);
      }
    }
  }

  /** The end notices close exactly those told. */
  lemma {:induction false} NoticesClose(event: Event, subs: seq<Subscriber>, target: NotificationType, open: bool,
                                        h: int)
    requires event.Released? || event.Denied?
    ensures OpenAfter(open, Notices(event, subs, target), h) == (open && Ended(Notices(event, subs, target), h) == 0)
  {
    if subs != [] {
      var init, last := subs[..|subs| - 1], subs[|subs| - 1];
      NoticesClose(event, init, target, open, h);
      if Matches(target, last) {
        OpenSnoc(open, Notices(event, init, target), Told(event, last.connHandle), h);
        EndedSnoc(Notices(event, init, target), Told(event, last.connHandle), h);
      }
    }
  }

  lemma {:induction false} OthersHold(subs: seq<Subscriber>, h: int)
    ensures ActiveHandle(Others(subs, FOR_INACTIVE), h) <==> ActiveHandle(subs, h)
    ensures HasHandle(Others(subs, FOR_INACTIVE), h) <==> ActiveHandle(subs, h)
  {
    if subs != [] {
      var init, last := subs[..|subs| - 1], subs[|subs| - 1];
      OthersHold(init, h);
      ActiveInit(subs, h);
      ActiveSnoc(Others(init, FOR_INACTIVE), last, h);
    }
  }

  lemma {:induction false} WithoutHolds(subs: seq<Subscriber>, g: int, h: int)
    ensures ActiveHandle(Without(subs, g), h) <==> g != h && ActiveHandle(subs, h)
    ensures HasHandle(Without(subs, g), h) <==> g != h && HasHandle(subs, h)
  {
    if subs != [] {
      var init, last := subs[..|subs| - 1], subs[|subs| - 1];
      WithoutHolds(init, g, h);
      ActiveInit(subs, h);
      ActiveSnoc(Without(init, g), last, h);
    }
  }

  /** A handle that is listed once is listed at one index only. */
  lemma {:induction false} ListedOnce(subs: seq<Subscriber>, h: int, i: nat, j: nat)
    requires Listed(subs, h) <= 1 && i < |subs| && j < |subs| && subs[i].connHandle == subs[j].connHandle == h
    ensures i == j
  {
    var n := |subs| - 1;
    var init := subs[..n];
    if i < n && j < n {
      ListedOnce(init, h, i, j);
    } else if i != j {
      ListedIsMembership(init, h);
    }
  }

  lemma InactivatedHolds(subs: seq<Subscriber>, i: nat, h: int)
    requires Listed(subs, h) <= 1 && i < |subs|
    ensures ActiveHandle(Inactivated(subs, i), h) <==> subs[i].connHandle != h && ActiveHandle(subs, h)
    ensures HasHandle(Inactivated(subs, i), h) <==> HasHandle(subs, h)
  {
    var after := Inactivated(subs, i);
    assert forall k :: 0 <= k < |subs| ==> after[k].connHandle == subs[k].connHandle;
    if ActiveHandle(after, h) && subs[i].connHandle == h {
      var k :| 0 <= k < |after| && after[k].connHandle == h && !after[k].isInactive;
      ListedOnce(subs, h, i, k);
    }
    if ActiveHandle(subs, h) && subs[i].connHandle != h {
      var k :| 0 <= k < |subs| && subs[k].connHandle == h && !subs[k].isInactive;
      assert after[k] == subs[k];
    }
    if HasHandle(subs, h) {
      var k :| 0 <= k < |subs| && subs[k].connHandle == h;
      assert after[k].connHandle == h;
    }
  }

  lemma SubscribeTells(m: Machine, s: Subscriber, h: int, open: bool)
    requires Shape(m, h) && TellsOpen(m, h, open) && !s.isInactive
    ensures var (m', outs) := SubscribeStep(m, s); TellsOpen(m', h, OpenAfter(open, outs, h))
  {
    ActiveSnoc(m.subscribers, s, h);
    OpenSnoc(open, [], RequestDataConn, h);
    OpenSnoc(open, [], OpenStatus(s.connHandle, true), h);
  }

  /** The list after an unsubscribe, and what the handle is told of it. */
  lemma LeavingTells(m: Machine, i: nat, h: int, open: bool)
    requires Shape(m, h) && TellsOpen(m, h, open) && i < |m.subscribers|
    ensures var s := m.subscribers[i];
      var subs := if s.waitForCloseComplete then Inactivated(m.subscribers, i)
                  else Without(m.subscribers, s.connHandle);
      TellsOpen(Machine(m.state, subs), h, OpenAfter(open, UnsubscribeNotice(s), h))
  {
    InactivatedHolds(m.subscribers, i, h);
    WithoutHolds(m.subscribers, m.subscribers[i].connHandle, h);
    OpenSnoc(open, [], CloseStatus(m.subscribers[i].connHandle), h);
  }

  lemma UnsubscribeTells(m: Machine, i: nat, h: int, open: bool)
    requires Shape(m, h) && TellsOpen(m, h, open) && i < |m.subscribers|
    ensures var (m', outs) := UnsubscribeStep(m, i); TellsOpen(m', h, OpenAfter(open, outs, h))
  {
    var told := UnsubscribeNotice(m.subscribers[i]);
    LeavingTells(m, i, h, open);
    OpenSnoc(open, told, ReleaseDataConn, h);
    var (m', outs) := UnsubscribeStep(m, i);
    assert outs == told || outs == told + [ReleaseDataConn];
    if m'.state != m.state {
      NoneActive(m'.subscribers, h);
    }
  }

  lemma NoneActive(subs: seq<Subscriber>, h: int)
    ensures !AnyActive(subs) ==> !ActiveHandle(subs, h)
  {
  }

  lemma ClosedTells(m: Machine, h: int, open: bool)
    requires Shape(m, h) && TellsOpen(m, h, open) && m.state.RELEASING?
    ensures var (m', outs) := ClosedStep(m); TellsOpen(m', h, OpenAfter(open, outs, h))
  {
    var told := Notices(Released, m.subscribers, FOR_INACTIVE);
    OthersHold(m.subscribers, h);
    NoticesClose(Released, m.subscribers, FOR_INACTIVE, open, h);
    NoticesSplitList(Released, m.subscribers, FOR_INACTIVE, h);
    ListedIsMembership(m.subscribers, h);
    ListedIsMembership(Others(m.subscribers, FOR_INACTIVE), h);
    OpenSnoc(open, told, RequestDataConn, h);
  }

  lemma FrameworkEventTells(m: Machine, event: Event, h: int, open: bool)
    requires Shape(m, h) && TellsOpen(m, h, open) && ForEveryone(m, event)
    ensures var (m', outs) := Step(m, event); TellsOpen(m', h, OpenAfter(open, outs, h))
  {
    if event.Granted? {
      GrantedOpens(m.subscribers, open, h);
      if ActiveHandle(m.subscribers, h) {
        var i :| 0 <= i < |m.subscribers| && m.subscribers[i].connHandle == h;
        assert HasHandle(m.subscribers, h);
      }
    } else {
      EveryoneIsTold(m.subscribers);
      NoticesClose(event, m.subscribers, FOR_ALL, open, h);
      NoticesSplitList(event, m.subscribers, FOR_ALL, h);
      ListedIsMembership(m.subscribers, h);
    }
  }

  lemma StepTells(m: Machine, event: Event, h: int, open: bool)
    requires Shape(m, h) && TellsOpen(m, h, open) && !event.ModemSsr?
    ensures var (m', outs) := Step(m, event); TellsOpen(m', h, OpenAfter(open, outs, h))
  {
    match event
    case Subscribe(g, wait) => SubscribeTells(m, Subscriber(g, wait, false), h, open);
    case Unsubscribe(g) =>
      if HasHandle(m.subscribers, g) { UnsubscribeTells(m, IndexOf(m.subscribers, g), h, open); }
    case _ =>
      if m.state.RELEASING? && !event.Granted? {
        ClosedTells(m, h, open);
      } else {
        FrameworkEventTells(m, event, h, open);
      }
  }

  /** In any run without a modem restart an active subscriber's last word is that the connection is
      open exactly in ACQUIRED, and nobody who has left the list still believes so. */
  lemma {:induction false} ActiveAreToldOpen(events: seq<Event>, h: int)
    requires forall i :: 0 <= i < |events| ==> !events[i].ModemSsr?
    ensures TellsOpen(Run(events, h).machine, h, OpenInRun(events, h))
  {
    if events != [] {
      var before := events[..|events| - 1];
      ActiveAreToldOpen(before, h);
      EveryRunBalances(before, h);
      StepTells(Run(before, h).machine, events[|events| - 1], h, OpenInRun(before, h));
    }
  }

  /** With modem restarts one half is left: in ACQUIRED every active subscriber has been told so. */
  ghost predicate ActiveKnow(m: Machine, h: int, open: bool) {
    m.state.ACQUIRED? && ActiveHandle(m.subscribers, h) ==> open
  }

  lemma StepKeepsKnowing(m: Machine, event: Event, h: int, open: bool)
    requires Shape(m, h) && ActiveKnow(m, h, open)
    ensures var (m', outs) := Step(m, event); ActiveKnow(m', h, OpenAfter(open, outs, h))
  {
    match event
    case Subscribe(g, wait) =>
      ActiveSnoc(m.subscribers, Subscriber(g, wait, false), h);
      OpenSnoc(open, [], OpenStatus(g, true), h);
    case Unsubscribe(g) =>
      if HasHandle(m.subscribers, g) {
        var i := IndexOf(m.subscribers, g);
        InactivatedHolds(m.subscribers, i, h);
        WithoutHolds(m.subscribers, g, h);
        OpenSnoc(open, [], CloseStatus(g), h);
      }
    case Granted => GrantedOpens(m.subscribers, open, h);
    case _ =>
  }

  lemma {:induction false} ActiveKnowInEveryRun(events: seq<Event>, h: int)
    ensures ActiveKnow(Run(events, h).machine, h, OpenInRun(events, h))
  {
    if events != [] {
      var before := events[..|events| - 1];
      ActiveKnowInEveryRun(before, h);
      EveryRunBalances(before, h);
      StepKeepsKnowing(Run(before, h).machine, events[|events| - 1], h, OpenInRun(before, h));
    }
  }

  /** A subscribe makes its handle active unless the handle is listed as inactive, whatever it is
      told. */
  lemma SubscribeActivatesIff(m: Machine, h: int, wait: bool)
    ensures var (m', outs) := Step(m, Subscribe(h, wait));
      && (ActiveHandle(m'.subscribers, h) <==> !HasHandle(m.subscribers, h) || ActiveHandle(m.subscribers, h))
      && (m.state.ACQUIRED? ==> outs == [OpenStatus(h, true)])
  {
    ActiveSnoc(m.subscribers, Subscriber(h, wait, false), h);
  }

  /** So a handle listed as inactive is told that its connection is open, and nothing changes. */
  lemma SwallowedSubscribe(m: Machine, h: int, wait: bool)
    requires m.state.ACQUIRED? && HasHandle(m.subscribers, h) && !ActiveHandle(m.subscribers, h)
    ensures Step(m, Subscribe(h, wait)) == (m, [OpenStatus(h, true)])
  {
  }

  lemma AfterOneMore(events: seq<Event>, event: Event, h: int)
    ensures Run(events + [event], h) == LedgerStep(Run(events, h), event, h)
  {
    assert (events + [event])[..|events|] == events;
  }

  lemma TwoSubscribed()
    ensures Run([Subscribe(1, true), Subscribe(2, false)], 1).machine ==
            Machine(PENDING, [Subscriber(1, true, false), Subscriber(2, false, false)])
  {
    var one, two := Subscriber(1, true, false), Subscriber(2, false, false);
    AfterOneMore([], Subscribe(1, true), 1);
    assert [] + [Subscribe(1, true)] == [Subscribe(1, true)];
    assert Run([Subscribe(1, true)], 1).machine == Machine(PENDING, [one]);
    AfterOneMore([Subscribe(1, true)], Subscribe(2, false), 1);
    assert [Subscribe(1, true)] + [Subscribe(2, false)] == [Subscribe(1, true), Subscribe(2, false)];
    assert Added([one], two) == [one, two];
  }

  /** A run that leads there: handle 1 waits for a close that handle 2 still holds up. */
  lemma InactiveInAcquired()
    ensures Run([Subscribe(1, true), Subscribe(2, false), Granted, Unsubscribe(1)], 1).machine ==
            Machine(ACQUIRED, [Subscriber(1, true, true), Subscriber(2, false, false)])
  {
    var e2, e3 := [Subscribe(1, true), Subscribe(2, false)], [Subscribe(1, true), Subscribe(2, false), Granted];
    TwoSubscribed();
    AfterOneMore(e2, Granted, 1);
    assert e2 + [Granted] == e3;
    AfterOneMore(e3, Unsubscribe(1), 1);
    assert e3 + [Unsubscribe(1)] == [Subscribe(1, true), Subscribe(2, false), Granted, Unsubscribe(1)];
    FirstWaits(Run(e3, 1).machine.subscribers);
  }

  lemma FirstWaits(subs: seq<Subscriber>)
    requires subs == [Subscriber(1, true, false), Subscriber(2, false, false)]
    ensures Step(Machine(ACQUIRED, subs), Unsubscribe(1)).0 ==
            Machine(ACQUIRED, [Subscriber(1, true, true), Subscriber(2, false, false)])
  {
    assert subs[0].connHandle == 1;
    var after := [Subscriber(1, true, true), Subscriber(2, false, false)];
    assert Inactivated(subs, 0) == after && !after[1].isInactive;
  }

  // ----- Runs driven by the manager ------------------------------------------------------------

  /** The manager never lets a subscriber wait for the close. */
  predicate ManagerEvent(event: Event) {
    event.Subscribe? ==> !event.waitForCloseComplete
  }

  ghost predicate NobodyWaits(subs: seq<Subscriber>) {
    forall s :: s in subs ==> !s.waitForCloseComplete && !s.isInactive
  }

  lemma {:induction false} WithoutIsSublist(subs: seq<Subscriber>, h: int)
    ensures forall s :: s in Without(subs, h) ==> s in subs
  {
    if subs != [] {
      WithoutIsSublist(subs[..|subs| - 1], h);
    }
  }

  lemma ManagerStepKeeps(m: Machine, event: Event)
    requires !m.state.RELEASING? && NobodyWaits(m.subscribers) && ManagerEvent(event)
    ensures !Step(m, event).0.state.RELEASING? && NobodyWaits(Step(m, event).0.subscribers)
  {
    if event.Unsubscribe? && HasHandle(m.subscribers, event.connHandle) {
      var s := m.subscribers[IndexOf(m.subscribers, event.connHandle)];
      assert s in m.subscribers;
      var subs := Without(m.subscribers, event.connHandle);
      WithoutIsSublist(m.subscribers, event.connHandle);
      if subs != [] {
        assert subs[0] in m.subscribers;
      }
    }
  }

  lemma {:induction false} NobodyWaitsInManagerRuns(events: seq<Event>)
    requires forall i :: 0 <= i < |events| ==> ManagerEvent(events[i])
    ensures var m := Run(events, 0).machine; !m.state.RELEASING? && NobodyWaits(m.subscribers)
  {
    if events != [] {
      var init, last := events[..|events| - 1], events[|events| - 1];
      NobodyWaitsInManagerRuns(init);
      ManagerStepKeeps(Run(init, 0).machine, last);
    }
  }

  /** Under the manager RELEASING is never reached, and until a modem restart RELEASED holds
      exactly when nobody is subscribed. */
  lemma ManagerRuns(events: seq<Event>)
    requires forall i :: 0 <= i < |events| ==> ManagerEvent(events[i])
    ensures var l := Run(events, 0);
      && !l.machine.state.RELEASING?
      && (!l.ssrSeen ==> (l.machine.state.RELEASED? <==> l.machine.subscribers == []))
  {
    EveryRunBalances(events, 0);
    NobodyWaitsInManagerRuns(events);
  }
}
