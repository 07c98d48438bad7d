/** The AGPS state machine and its manager (gps/gnss/Agps.cpp), with the list walks and
    in-place updates of the original, proved to take the steps of `AgpsSpec`. */
module Agps {
  import opened AgpsSpec

  /** What a walk leaves of one subscriber it passes, and what it says. */
  function LeftOf(s: Subscriber, deletePostNotify: bool, target: NotificationType): seq<Subscriber> {
    if deletePostNotify && Matches(target, s) then [] else [s]
  }

  function NoticeFor(event: Event, s: Subscriber, target: NotificationType): seq<Output> {
    if Matches(target, s) then [Told(event, s.connHandle)] else []
  }

  /** The same for the first `k` subscribers. */
  function LeftUpTo(all: seq<Subscriber>, k: nat, deletePostNotify: bool, target: NotificationType): seq<Subscriber>
    requires k <= |all|
  {
    if k == 0 then []
    else LeftUpTo(all, k - 1, deletePostNotify, target) + LeftOf(all[k - 1], deletePostNotify, target)
  }

  function NoticesUpTo(event: Event, all: seq<Subscriber>, k: nat, target: NotificationType): seq<Output>
    requires k <= |all|
  {
    if k == 0 then [] else NoticesUpTo(event, all, k - 1, target) + NoticeFor(event, all[k - 1], target)
  }

  lemma {:induction false} WholeWalkLeaves(all: seq<Subscriber>, k: nat, target: NotificationType)
    requires k <= |all|
    ensures LeftUpTo(all, k, true, target) == Others(all[..k], target)
  {
    if k > 0 {
      WholeWalkLeaves(all, k - 1, target);
      assert all[..k][..k - 1] == all[..k - 1];
    }
  }

  lemma {:induction false} WholeWalkKeeps(all: seq<Subscriber>, k: nat, target: NotificationType)
    requires k <= |all|
    ensures LeftUpTo(all, k, false, target) == all[..k]
  {
    if k > 0 {
      WholeWalkKeeps(all, k - 1, target);
      assert all[..k] == all[..k - 1] + [all[k - 1]];
    }
  }

  lemma {:induction false} WholeWalkSays(event: Event, all: seq<Subscriber>, k: nat, target: NotificationType)
    requires k <= |all|
    ensures NoticesUpTo(event, all, k, target) == Notices(event, all[..k], target)
  {
    if k > 0 {
      WholeWalkSays(event, all, k - 1, target);
      assert all[..k][..k - 1] == all[..k - 1];
    }
  }

  lemma Splice(list: seq<Subscriber>, done: seq<Subscriber>, left: seq<Subscriber>, rest: seq<Subscriber>)
    requires list == done + rest && rest != []
    ensures list[|done|] == rest[0]
    ensures list[..|done|] + left + list[|done| + 1..] == done + left + rest[1..]
  {
  }

  /** A walk over the list `all`, begun after the callbacks `before`: it has left `done` behind
      it and still has `rest` before it. */
  datatype WalkState = WalkState(event: Event, deletePostNotify: bool, target: NotificationType,
                                 before: seq<Output>, all: seq<Subscriber>,
                                 done: seq<Subscriber>, rest: seq<Subscriber>)

  ghost predicate Walked(w: WalkState, outs: seq<Output>) {
    && |w.rest| <= |w.all| && w.rest == w.all[|w.all| - |w.rest|..]
    && w.done == LeftUpTo(w.all, |w.all| - |w.rest|, w.deletePostNotify, w.target)
    && outs == w.before + NoticesUpTo(w.event, w.all, |w.all| - |w.rest|, w.target)
  }

  ghost function NextWalk(w: WalkState): WalkState {
    if w.rest == [] then w
    else w.(done := w.done + LeftOf(w.rest[0], w.deletePostNotify, w.target), rest := w.rest[1..])
  }

  lemma WalkGoesOn(w: WalkState, outs: seq<Output>)
    requires w.rest != [] && Walked(w, outs)
    ensures Walked(NextWalk(w), outs + NoticeFor(w.event, w.rest[0], w.target))
  {
    var k := |w.all| - |w.rest|;
    DropOne(w.all, k, w.rest);
    Reassociate(w.before, NoticesUpTo(w.event, w.all, k, w.target), NoticeFor(w.event, w.all[k], w.target));
    var next := NextWalk(w);
    assert |w.all| - |next.rest| == k + 1 && next.rest == w.all[k + 1..];
    assert next.done == LeftUpTo(w.all, k + 1, w.deletePostNotify, w.target);
  }

  lemma DropOne(all: seq<Subscriber>, k: nat, rest: seq<Subscriber>)
    requires k < |all| && rest == all[k..]
    ensures rest[0] == all[k] && rest[1..] == all[k + 1..]
  {
  }

  lemma Reassociate(a: seq<Output>, b: seq<Output>, c: seq<Output>)
    ensures a + b + c == a + (b + c)
  {
  }

  lemma WalkBegins(w: WalkState, outs: seq<Output>)
    requires w.done == [] && w.rest == w.all && w.before == outs
    ensures Walked(w, outs)
  {
  }

  lemma WalkEndLeaves(w: WalkState)
    requires w.done == LeftUpTo(w.all, |w.all|, w.deletePostNotify, w.target)
    ensures w.done == if w.deletePostNotify then Others(w.all, w.target) else w.all
  {
    assert w.all[..|w.all|] == w.all;
    if w.deletePostNotify {
      WholeWalkLeaves(w.all, |w.all|, w.target);
    } else {
      WholeWalkKeeps(w.all, |w.all|, w.target);
    }
  }

  lemma WalkEndSays(w: WalkState)
    ensures NoticesUpTo(w.event, w.all, |w.all|, w.target) == Notices(w.event, w.all, w.target)
  {
    assert w.all[..|w.all|] == w.all;
    WholeWalkSays(w.event, w.all, |w.all|, w.target);
  }

  lemma WalkedAll(w: WalkState, outs: seq<Output>)
    requires w.rest == [] && Walked(w, outs)
    ensures w.done == LeftUpTo(w.all, |w.all|, w.deletePostNotify, w.target)
    ensures outs == w.before + NoticesUpTo(w.event, w.all, |w.all|, w.target)
  {
    assert |w.all| - |w.rest| == |w.all|;
  }

  lemma WalkEnds(w: WalkState, outs: seq<Output>)
    requires w.rest == [] && Walked(w, outs)
    ensures w.done == if w.deletePostNotify then Others(w.all, w.target) else w.all
    ensures outs == w.before + Notices(w.event, w.all, w.target)
  {
    WalkedAll(w, outs);
    WalkEndLeaves(w);
    WalkEndSays(w);
  }

  /** The deletion of handle `h` has left `done` behind it and still has `rest` before it. */
  ghost predicate Erased(all: seq<Subscriber>, h: int, done: seq<Subscriber>, rest: seq<Subscriber>) {
    && |rest| <= |all| && rest == all[|all| - |rest|..]
    && done == Without(all[..|all| - |rest|], h)
  }

  function KeptOf(s: Subscriber, h: int): seq<Subscriber> {
    if s.connHandle == h then [] else [s]
  }

  lemma ErasesOn(all: seq<Subscriber>, h: int, done: seq<Subscriber>, rest: seq<Subscriber>)
    requires rest != [] && Erased(all, h, done, rest)
    ensures Erased(all, h, done + KeptOf(rest[0], h), rest[1..])
  {
    var k := |all| - |rest|;
    DropOne(all, k, rest);
    assert all[..k + 1][..k] == all[..k];
    assert Without(all[..k + 1], h) == Without(all[..k], h) + KeptOf(all[k], h);
  }

  class AgpsStateMachine {
    var state: AgpsState
    var subscriberList: seq<Subscriber>
    /** Every callback made so far, in order. */
    var outputs: seq<Output>

    constructor ()
      ensures Abs() == Machine(RELEASED, []) && outputs == []
    {
      state := RELEASED;
      subscriberList := [];
      outputs := [];
    }

    ghost function Abs(): Machine
      reads this
    {
      Machine(state, subscriberList)
    }

    /** The machine is in the step's new state and has made its callbacks after `before`. */
    ghost predicate Took(step: (Machine, seq<Output>), before: seq<Output>)
      reads this
    {
      Abs() == step.0 && outputs == before + step.1
    }

    method GetSubscriber(connHandle: int) returns (found: bool, i: nat)
      ensures found <==> HasHandle(subscriberList, connHandle)
      ensures found ==> HasHandle(subscriberList, connHandle) && i == IndexOf(subscriberList, connHandle)
    {
      i := 0;
      while i < |subscriberList|
        invariant i <= |subscriberList|
        invariant forall k :: 0 <= k < i ==> subscriberList[k].connHandle != connHandle
      {
        if subscriberList[i].connHandle == connHandle {
          return true, i;
        }
        i := i + 1;
      }
      found := false;
    }

    method AnyActiveSubscribers() returns (any: bool)
      ensures any <==> AnyActive(subscriberList)
    {
      var i := 0;
      while i < |subscriberList|
        invariant i <= |subscriberList|
        invariant forall k :: 0 <= k < i ==> subscriberList[k].isInactive
      {
        if !subscriberList[i].isInactive {
          return true;
        }
        i := i + 1;
      }
      return false;
    }

    method AddSubscriber(subscriber: Subscriber)
      modifies `subscriberList
      ensures subscriberList == Added(old(subscriberList), subscriber)
    {
      var present, i := GetSubscriber(subscriber.connHandle);
      if !present {
        subscriberList := subscriberList + [subscriber];
      }
    }

    /** The body of the deletion loop: returns where to go on. */
    method DeleteAt(i: nat, connHandle: int) returns (next: nat)
      requires i < |subscriberList|
      modifies `subscriberList
      ensures var kept := KeptOf(old(subscriberList)[i], connHandle);
        && next == i + |kept|
        && subscriberList == old(subscriberList)[..i] + kept + old(subscriberList)[i + 1..]
    {
      if subscriberList[i].connHandle == connHandle {
        subscriberList := subscriberList[..i] + subscriberList[i + 1..];
        next := i;
      } else {
        next := i + 1;
      }
    }

    ghost predicate ErasedTo(all: seq<Subscriber>, connHandle: int, done: seq<Subscriber>, rest: seq<Subscriber>,
                             i: nat)
      reads this
    {
      i == |done| && subscriberList == done + rest && Erased(all, connHandle, done, rest)
    }

    /** One round of the loop. */
    method DeleteOn(i: nat, connHandle: int, ghost all: seq<Subscriber>, ghost done: seq<Subscriber>,
                    ghost rest: seq<Subscriber>)
      returns (next: nat)
      requires ErasedTo(all, connHandle, done, rest, i) && rest != []
      modifies `subscriberList
      ensures ErasedTo(all, connHandle, done + KeptOf(rest[0], connHandle), rest[1..], next)
    {
      Splice(subscriberList, done, KeptOf(rest[0], connHandle), rest);
      ErasesOn(all, connHandle, done, rest);
      next := DeleteAt(i, connHandle);
    }

    /** Erases every entry with the handle, walking the list as it shrinks. */
    method DeleteSubscriber(connHandle: int)
      modifies `subscriberList
      ensures subscriberList == Without(old(subscriberList), connHandle)
    {
      ghost var all, done, rest := subscriberList, [], subscriberList;
      var i: nat := 0;
      while i < |subscriberList|
        invariant ErasedTo(all, connHandle, done, rest, i)
        decreases |rest|
      {
        i := DeleteOn(i, connHandle, all, done, rest);
        done, rest := done + KeptOf(rest[0], connHandle), rest[1..];
      }
      assert all[..|all|] == all;
    }

    /** The body of the notification loop: returns where to go on. */
    method NotifyAt(event: Event, i: nat, deletePostNotify: bool, target: NotificationType) returns (next: nat)
      requires i < |subscriberList|
      modifies `subscriberList, `outputs
      ensures outputs == old(outputs) + NoticeFor(event, old(subscriberList)[i], target)
      ensures var left := LeftOf(old(subscriberList)[i], deletePostNotify, target);
        && next == i + |left|
        && subscriberList == old(subscriberList)[..i] + left + old(subscriberList)[i + 1..]
    {
      next := i;
      if Matches(target, subscriberList[i]) {
        outputs := outputs + [Told(event, subscriberList[i].connHandle)];
        if deletePostNotify {
          subscriberList := subscriberList[..i] + subscriberList[i + 1..];
        } else {
          next := i + 1;
        }
      } else {
        next := i + 1;
      }
    }

    /** The walk `w` has come to index `i` of the list. */
    ghost predicate WalkedTo(w: WalkState, i: nat)
      reads this
    {
      i == |w.done| && subscriberList == w.done + w.rest && Walked(w, outputs)
    }

    /** One round of the loop. */
    method WalkOn(i: nat, event: Event, deletePostNotify: bool, target: NotificationType, ghost w: WalkState)
      returns (next: nat)
      requires WalkedTo(w, i) && i < |subscriberList|
      requires w.event == event && w.deletePostNotify == deletePostNotify && w.target == target
      modifies `subscriberList, `outputs
      ensures WalkedTo(NextWalk(w), next)
    {
      Splice(subscriberList, w.done, LeftOf(w.rest[0], deletePostNotify, target), w.rest);
      WalkGoesOn(w, outputs);
      next := NotifyAt(event, i, deletePostNotify, target);
    }

    method NotifyAllSubscribers(event: Event, deletePostNotify: bool, target: NotificationType)
      modifies `subscriberList, `outputs
      ensures outputs == old(outputs) + Notices(event, old(subscriberList), target)
      ensures subscriberList == if deletePostNotify then Others(old(subscriberList), target) else old(subscriberList)
    {
      ghost var w := WalkState(event, deletePostNotify, target, outputs, subscriberList, [], subscriberList);
      WalkBegins(w, outputs);
      w := Walk(event, deletePostNotify, target, w);
      WalkEnds(w, outputs);
    }

    method Walk(event: Event, deletePostNotify: bool, target: NotificationType, ghost start: WalkState)
      returns (ghost w: WalkState)
      requires WalkedTo(start, 0)
      requires start.event == event && start.deletePostNotify == deletePostNotify && start.target == target
      modifies `subscriberList, `outputs
      ensures w == start.(done := w.done, rest := []) && subscriberList == w.done && Walked(w, outputs)
    {
      w := start;
      var i: nat := 0;
      while i < |subscriberList|
        invariant WalkedTo(w, i) && w == start.(done := w.done, rest := w.rest)
        decreases |w.rest|
      {
        i := WalkOn(i, event, deletePostNotify, target, w);
        w := NextWalk(w);
      }
    }

    method RequestOrReleaseDataConn(request: bool)
      modifies `outputs
      ensures outputs == old(outputs) + [if request then RequestDataConn else ReleaseDataConn]
    {
      outputs := outputs + [if request then RequestDataConn else ReleaseDataConn];
    }

    method ProcessSubscribe(subscriber: Subscriber)
      modifies this
      ensures Took(SubscribeStep(old(Abs()), subscriber), old(outputs))
    {
      match state
      case RELEASED =>
        AddSubscriber(subscriber);
        RequestOrReleaseDataConn(true);
        state := PENDING;
      case PENDING =>
        AddSubscriber(subscriber);
      case ACQUIRED =>
        outputs := outputs + [OpenStatus(subscriber.connHandle, true)];
        AddSubscriber(subscriber);
      case RELEASING =>
        AddSubscriber(subscriber);
    }

    /** The current subscriber is the list entry at `i`. */
    method ProcessUnsubscribe(i: nat)
      requires i < |subscriberList|
      modifies this
      ensures Took(UnsubscribeStep(old(Abs()), i), old(outputs))
    {
      var current := subscriberList[i];
      match state
      case RELEASED =>
        outputs := outputs + [CloseStatus(current.connHandle)];
      case RELEASING =>
        DeactivateOrDelete(i);
        if subscriberList == [] {
          state := RELEASED;
        }
      case _ =>
        DeactivateOrDelete(i);
        var any := AnyActiveSubscribers();
        if subscriberList == [] {
          state := RELEASED;
          RequestOrReleaseDataConn(false);
        } else if !any {
          state := RELEASING;
          RequestOrReleaseDataConn(false);
        }
    }

    method DeactivateOrDelete(i: nat)
      requires i < |subscriberList|
      modifies `subscriberList, `outputs
      ensures var s := old(subscriberList)[i];
        && subscriberList == (if s.waitForCloseComplete then Inactivated(old(subscriberList), i)
                              else Without(old(subscriberList), s.connHandle))
        && outputs == old(outputs) + if s.waitForCloseComplete then [] else [CloseStatus(s.connHandle)]
    {
      var current := subscriberList[i];
      if current.waitForCloseComplete {
        subscriberList := subscriberList[i := current.(isInactive := true)];
      } else {
        outputs := outputs + [CloseStatus(current.connHandle)];
        DeleteSubscriber(current.connHandle);
      }
    }

    method ProcessGranted()
      modifies this
      ensures Took(Step(old(Abs()), Granted), old(outputs))
    {
      if state == PENDING {
        state := ACQUIRED;
        NotifyAllSubscribers(Granted, false, FOR_ACTIVE);
      }
    }

    method ProcessReleased()
      modifies this
      ensures Took(Step(old(Abs()), Released), old(outputs))
      ensures old(state) == ACQUIRED ==> state == RELEASED && subscriberList == []
    {
      match state
      case ACQUIRED =>
        state := RELEASED;
        EveryoneIsTold(subscriberList);
        NotifyAllSubscribers(Released, true, FOR_ALL);
      case RELEASING =>
        ConnectionClosed();
      case _ =>
    }

    method ProcessDenied()
      modifies this
      ensures Took(Step(old(Abs()), Denied), old(outputs))
      ensures old(state) == PENDING ==> state == RELEASED && subscriberList == []
    {
      match state
      case PENDING =>
        state := RELEASED;
        EveryoneIsTold(subscriberList);
        NotifyAllSubscribers(Denied, true, FOR_ALL);
      case RELEASING =>
        ConnectionClosed();
      case _ =>
    }

    /** The RELEASING case, the same for RELEASED and DENIED. */
    method ConnectionClosed()
      modifies this
      ensures Took(ClosedStep(old(Abs())), old(outputs))
    {
      NotifyAllSubscribers(Released, true, FOR_INACTIVE);
      var any := AnyActiveSubscribers();
      if any {
        state := PENDING;
        RequestOrReleaseDataConn(true);
      } else {
        state := RELEASED;
      }
    }

    method DropAllSubscribers()
      modifies this
      ensures Took(Step(old(Abs()), ModemSsr), old(outputs))
    {
      while |subscriberList| > 0
        invariant state == old(state) && outputs == old(outputs)
        decreases |subscriberList|
      {
        subscriberList := subscriberList[1..];
      }
    }
  }

  datatype AgpsType = TYPE_INVALID | TYPE_ANY | TYPE_SUPL | TYPE_C2K | TYPE_WWAN_ANY | TYPE_WIFI | TYPE_SUPL_ES

  /** What the manager keeps of each machine it drives. */
  ghost predicate Driven(m: Machine) {
    !m.state.RELEASING? && NobodyWaits(m.subscribers) && (m.state.RELEASED? ==> m.subscribers == [])
  }

  lemma DrivenStep(m: Machine, event: Event)
    requires Driven(m) && ManagerEvent(event)
    ensures Driven(Step(m, event).0)
  {
    ManagerStepKeeps(m, event);
    OthersActive(m.subscribers);
  }

  class AgpsManager {
    const agnssNif: AgpsStateMachine?
    const internetNif: AgpsStateMachine?
    /** Failed opens reported for requests that no machine serves. */
    var refused: seq<int>

    ghost predicate Valid()
      reads this, agnssNif, internetNif
    {
      && (agnssNif != null && internetNif != null ==> agnssNif != internetNif)
      && (agnssNif != null ==> Driven(agnssNif.Abs()))
      && (internetNif != null ==> Driven(internetNif.Abs()))
    }

    constructor (agnss: AgpsStateMachine?, internet: AgpsStateMachine?)
      requires agnss != null && internet != null ==> agnss != internet
      requires agnss != null ==> agnss.Abs() == Machine(RELEASED, [])
      requires internet != null ==> internet.Abs() == Machine(RELEASED, [])
      ensures Valid() && agnssNif == agnss && internetNif == internet && refused == []
    {
      agnssNif, internetNif, refused := agnss, internet, [];
    }

    /** SUPL requests go to the AGNSS machine, and so do those without a type; all others to the
        internet machine. */
    function GetAgpsStateMachine(agpsType: AgpsType): (sm: AgpsStateMachine?)
      ensures agpsType in {TYPE_SUPL, TYPE_SUPL_ES, TYPE_INVALID} ==> sm == agnssNif
      ensures agpsType in {TYPE_ANY, TYPE_C2K, TYPE_WWAN_ANY, TYPE_WIFI} ==> sm == internetNif
    {
      match agpsType
      case TYPE_INVALID => agnssNif
      case TYPE_SUPL => agnssNif
      case TYPE_SUPL_ES => agnssNif
      case _ => internetNif
    }

    ghost predicate OthersUnchanged(sm: AgpsStateMachine?, agnss: (Machine, seq<Output>),
                                    internet: (Machine, seq<Output>))
      reads this, agnssNif, internetNif
    {
      && (agnssNif != null && agnssNif != sm ==> (agnssNif.Abs(), agnssNif.outputs) == agnss)
      && (internetNif != null && internetNif != sm ==> (internetNif.Abs(), internetNif.outputs) == internet)
    }

    ghost function Saved(sm: AgpsStateMachine?): (Machine, seq<Output>)
      reads sm
    {
      if sm == null then (Machine(RELEASED, []), []) else (sm.Abs(), sm.outputs)
    }

    method RequestATL(connHandle: int, agpsType: AgpsType, useEmergencyPdn: bool)
      requires Valid()
      modifies this, agnssNif, internetNif
      ensures Valid()
      ensures var t := if !useEmergencyPdn && agpsType == TYPE_SUPL_ES then TYPE_SUPL else agpsType;
              var sm := GetAgpsStateMachine(t);
              && refused == old(refused) + (if sm == null then [connHandle] else [])
              && (sm != null ==> sm.Took(Step(old(Saved(sm)).0, Subscribe(connHandle, false)), old(Saved(sm)).1))
              && OthersUnchanged(sm, old(Saved(agnssNif)), old(Saved(internetNif)))
    {
      var requested := agpsType;
      if !useEmergencyPdn && agpsType == TYPE_SUPL_ES {
        requested := TYPE_SUPL;
      }
      var sm := GetAgpsStateMachine(requested);
      if sm == null {
        refused := refused + [connHandle];
        return;
      }
      DrivenStep(sm.Abs(), Subscribe(connHandle, false));
      sm.ProcessSubscribe(Subscriber(connHandle, false, false));
    }

    /** The machine that lists the handle is told, the AGNSS one first. */
    method ReleaseATL(connHandle: int)
      requires Valid()
      modifies agnssNif, internetNif
      ensures Valid()
      ensures var sm := if agnssNif != null && HasHandle(old(Saved(agnssNif)).0.subscribers, connHandle) then agnssNif
                        else if internetNif != null && HasHandle(old(Saved(internetNif)).0.subscribers, connHandle)
                        then internetNif else null;
              && (sm != null ==> sm.Took(Step(old(Saved(sm)).0, Unsubscribe(connHandle)), old(Saved(sm)).1))
              && OthersUnchanged(sm, old(Saved(agnssNif)), old(Saved(internetNif)))
    {
      if agnssNif != null {
        var found, i := agnssNif.GetSubscriber(connHandle);
        if found {
          DrivenStep(agnssNif.Abs(), Unsubscribe(connHandle));
          agnssNif.ProcessUnsubscribe(i);
          return;
        }
      }
      if internetNif != null {
        var found, i := internetNif.GetSubscriber(connHandle);
        if found {
          DrivenStep(internetNif.Abs(), Unsubscribe(connHandle));
          internetNif.ProcessUnsubscribe(i);
        }
      }
    }

    /** `reportAtlOpenSuccess`, `reportAtlOpenFailed` and `reportAtlClosed`, which use the machine
        of the given type without checking that it exists. */
    method ReportAtl(agpsType: AgpsType, event: Event)
      requires Valid() && GetAgpsStateMachine(agpsType) != null
      requires event.Granted? || event.Denied? || event.Released?
      modifies GetAgpsStateMachine(agpsType)
      ensures Valid()
      ensures var sm := GetAgpsStateMachine(agpsType);
              sm.Took(Step(old(Saved(sm)).0, event), old(Saved(sm)).1)
    {
      var sm := GetAgpsStateMachine(agpsType);
      DrivenStep(sm.Abs(), event);
      match event
      case Granted => sm.ProcessGranted();
      case Denied => sm.ProcessDenied();
      case Released => sm.ProcessReleased();
    }

    method HandleModemSSR()
      requires Valid()
      modifies agnssNif, internetNif
      ensures Valid()
      ensures agnssNif != null ==> agnssNif.Took(Step(old(Saved(agnssNif)).0, ModemSsr), old(Saved(agnssNif)).1)
      ensures internetNif != null ==>
                internetNif.Took(Step(old(Saved(internetNif)).0, ModemSsr), old(Saved(internetNif)).1)
    {
      if agnssNif != null {
        agnssNif.DropAllSubscribers();
      }
      if internetNif != null {
        internetNif.DropAllSubscribers();
      }
    }
  }
}
