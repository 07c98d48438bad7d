/** The geofence index of gps/geofence/GeofenceAdapter.cpp: the modem's hardware ids to
    geofences, and the clients' keys to hardware ids. */
module Geofence {
  import opened Wrappers

  datatype GeofenceKey = GeofenceKey(client: nat, id: nat)

  datatype GeofenceOption = GeofenceOption(breachTypeMask: int, responsiveness: nat, dwellTime: nat)

  datatype GeofenceInfo = GeofenceInfo(latitude: real, longitude: real, radius: real)

  datatype GeofenceObject = GeofenceObject(key: GeofenceKey, options: GeofenceOption, info: GeofenceInfo, paused: bool)

  type GeofencesMap = map<nat, GeofenceObject>
  type GeofenceIdMap = map<GeofenceKey, nat>

  // ----- Agreement of the two maps --------------------------------------------------------

  /** Every indexed key leads to a geofence carrying that key; no two geofences carry the same
      key; and an indexed key leads to the one geofence that carries it. */
  ghost predicate Agree(geofences: GeofencesMap, ids: GeofenceIdMap) {
    && (forall k :: k in ids ==> ids[k] in geofences && geofences[ids[k]].key == k)
    && (forall g, h :: g in geofences && h in geofences && geofences[g].key == geofences[h].key ==> g == h)
  }

  /** Geofences whose client has gone but whose removal is outstanding or has failed. */
  function Orphans(geofences: GeofencesMap, ids: GeofenceIdMap): set<nat> {
    set h | h in geofences && geofences[h].key !in ids
  }

  ghost predicate MutuallyInverse(geofences: GeofencesMap, ids: GeofenceIdMap) {
    && (forall k :: k in ids ==> ids[k] in geofences && geofences[ids[k]].key == k)
    && (forall h :: h in geofences ==> geofences[h].key in ids && ids[geofences[h].key] == h)
  }

  /** The maps are mutual inverses exactly when there are no orphans. */
  lemma InverseIffNoOrphans(geofences: GeofencesMap, ids: GeofenceIdMap)
    requires Agree(geofences, ids)
    ensures MutuallyInverse(geofences, ids) <==> Orphans(geofences, ids) == {}
  {
    if Orphans(geofences, ids) == {} {
      forall h | h in geofences ensures geofences[h].key in ids && ids[geofences[h].key] == h {
        assert h !in Orphans(geofences, ids);
      }
    }
    if h :| h in Orphans(geofences, ids) {
      assert h in geofences && geofences[h].key !in ids;
    }
  }

  // ----- Whole runs -----------------------------------------------------------------------

  /** What happens to the index; the modem's answers are part of the events. */
  datatype Event =
    | Add(key: GeofenceKey, hwId: nat, options: GeofenceOption, info: GeofenceInfo)
    | Remove(hwId: nat)
    | Modify(hwId: nat, options: GeofenceOption)
    | PauseOrResume(hwId: nat, paused: bool)
    | ClientGone(client: nat)
    | RemovalAnswered(hwId: nat, success: bool)
    | EngineRestart(answers: map<nat, Option<nat>>)

  /** The two maps; the removals for departed clients that are outstanding, which outlive an
      engine restart, or have failed; and every key ever used. */
  datatype State = State(geofences: GeofencesMap, ids: GeofenceIdMap,
                         outstanding: multiset<nat>, failed: set<nat>, used: set<GeofenceKey>)

  const EMPTY := State(map[], map[], multiset{}, {}, {})

  /** Keys are generated afresh, the modem never returns a hardware id still in the index, and it
      answers each removal once. It may reuse the hardware id of a removal not yet answered. */
  ghost predicate Allowed(s: State, event: Event) {
    match event
    case Add(key, hwId, _, _) => key !in s.used && hwId !in s.geofences
    case RemovalAnswered(hwId, _) => hwId in s.outstanding
    case EngineRestart(answers) => AnswersAll(s.geofences, answers)
    case _ => true
  }

  /** The modem answers every add with a hardware id of its own, or fails it. */
  ghost predicate AnswersAll(geofences: GeofencesMap, answers: map<nat, Option<nat>>) {
    && geofences.Keys <= answers.Keys
    && forall g, h :: g in geofences && h in geofences && g != h && answers[g].Some? ==> answers[g] != answers[h]
  }

  function NewObject(key: GeofenceKey, options: GeofenceOption, info: GeofenceInfo): GeofenceObject {
    GeofenceObject(key, options, info, false)
  }

  function ClientIds(ids: GeofenceIdMap, client: nat): set<nat> {
    set k | k in ids && k.client == client :: ids[k]
  }

  function WithoutClient(ids: GeofenceIdMap, client: nat): GeofenceIdMap {
    map k | k in ids && k.client != client :: ids[k]
  }

  /** Exactly the geofences whose add succeeded are back, unpaused, under their new ids. */
  ghost predicate Rebuilt(before: GeofencesMap, answers: map<nat, Option<nat>>, after: GeofencesMap, ids: GeofenceIdMap)
    requires before.Keys <= answers.Keys
  {
    && MutuallyInverse(after, ids)
    && (forall h :: h in before && answers[h].Some? ==>
          answers[h].value in after && after[answers[h].value] == before[h].(paused := false))
    && (forall g :: g in after ==>
          exists h :: h in before && answers[h] == Some(g) && after[g] == before[h].(paused := false))
  }

  function Updated(geofences: GeofencesMap, hwId: nat, options: Option<GeofenceOption>, paused: Option<bool>)
    : GeofencesMap
  {
    if hwId !in geofences then geofences
    else
      var o := geofences[hwId];
      geofences[hwId := o.(options := if options.Some? then options.value else o.options,
                           paused := if paused.Some? then paused.value else o.paused)]
  }

  /** The maps after an event; after an engine restart they follow the modem's answers. */
  ghost predicate NextMaps(s: State, event: Event, geofences: GeofencesMap, ids: GeofenceIdMap) {
    match event
    case Add(key, hwId, options, info) =>
      geofences == s.geofences[hwId := NewObject(key, options, info)] && ids == s.ids[key := hwId]
    case Remove(hwId) =>
      if hwId in s.geofences && s.geofences[hwId].key in s.ids
      then geofences == s.geofences - {hwId} && ids == s.ids - {s.geofences[hwId].key}
      else geofences == s.geofences && ids == s.ids
    case Modify(hwId, options) => geofences == Updated(s.geofences, hwId, Some(options), None) && ids == s.ids
    case PauseOrResume(hwId, paused) => geofences == Updated(s.geofences, hwId, None, Some(paused)) && ids == s.ids
    case ClientGone(client) => geofences == s.geofences && ids == WithoutClient(s.ids, client)
    case RemovalAnswered(hwId, success) =>
      geofences == (if success then s.geofences - {hwId} else s.geofences) && ids == s.ids
    case EngineRestart(answers) =>
      s.geofences.Keys <= answers.Keys && Rebuilt(s.geofences, answers, geofences, ids)
  }

  ghost function Outstanding(s: State, event: Event): multiset<nat> {
    match event
    case ClientGone(client) => s.outstanding + multiset(ClientIds(s.ids, client))
    case RemovalAnswered(hwId, _) => s.outstanding - multiset{hwId}
    case _ => s.outstanding
  }

  ghost function Failed(s: State, event: Event): set<nat> {
    match event
    case RemovalAnswered(hwId, success) => if success then s.failed else s.failed + {hwId}
    case EngineRestart(_) => {}
    case _ => s.failed
  }

  ghost function Used(s: State, event: Event): set<GeofenceKey> {
    if event.Add? then s.used + {event.key} else s.used
  }

  ghost predicate Next(s: State, event: Event, s': State) {
    && NextMaps(s, event, s'.geofences, s'.ids)
    && s'.outstanding == Outstanding(s, event) && s'.failed == Failed(s, event) && s'.used == Used(s, event)
  }

  /** A removal for a departed client is outstanding or has failed, and its geofence is still held
      under that hardware id for no client. */
  ghost predicate Awaits(s: State, h: nat) {
    (h in s.outstanding || h in s.failed) && h in s.geofences && h !in s.ids.Values
  }

  /** The maps agree, and the geofences nobody claims are those that await their removal. */
  ghost predicate Indexed(s: State) {
    && Agree(s.geofences, s.ids)
    && (forall h :: h in Orphans(s.geofences, s.ids) <==> Awaits(s, h))
    && forall h :: h in s.geofences ==> s.geofences[h].key in s.used
  }

  /** Whether an event leaves the maps in agreement: the answer to a removal must not find its
      hardware id with a client again. */
  ghost predicate KeepsAgreeing(s: State, event: Event) {
    event.RemovalAnswered? && event.success ==> event.hwId !in s.ids.Values
  }

  lemma ClaimedIds(s: State, h: nat)
    requires Agree(s.geofences, s.ids) && h in s.geofences
    ensures h in s.ids.Values <==> s.geofences[h].key in s.ids
  {
    if h in s.ids.Values {
      var k :| k in s.ids && s.ids[k] == h;
    }
    if s.geofences[h].key in s.ids {
      assert s.ids[s.geofences[h].key] == h;
    }
  }

  /** The geofences awaiting removal, told by the index. */
  lemma AwaitingAreOrphans(s: State, h: nat)
    requires Agree(s.geofences, s.ids)
    ensures Awaits(s, h) <==> (h in s.outstanding || h in s.failed) && h in Orphans(s.geofences, s.ids)
  {
    if h in s.geofences { ClaimedIds(s, h); }
  }

  lemma StillIndexed(s: State)
    requires Agree(s.geofences, s.ids) && forall h :: h in s.geofences ==> s.geofences[h].key in s.used
    requires forall h :: h in Orphans(s.geofences, s.ids) ==> h in s.outstanding || h in s.failed
    ensures Indexed(s)
  {
    forall h ensures h in Orphans(s.geofences, s.ids) <==> Awaits(s, h) { AwaitingAreOrphans(s, h); }
  }

  lemma OrphansAwait(s: State)
    requires Indexed(s)
    ensures forall h :: h in Orphans(s.geofences, s.ids) ==> h in s.outstanding || h in s.failed
  {
  }

  lemma ClientGoneKeeps(s: State, client: nat, s': State)
    requires Indexed(s) && Next(s, ClientGone(client), s')
    ensures Indexed(s')
  {
    OrphansAwait(s);
    forall h | h in Orphans(s'.geofences, s'.ids) ensures h in s'.outstanding || h in s'.failed {
      var key := s.geofences[h].key;
      if key in s.ids {
        assert s.ids[key] == h && h in ClientIds(s.ids, client);
      } else {
        assert h in Orphans(s.geofences, s.ids);
      }
    }
    StillIndexed(s');
  }

  lemma RestartKeeps(s: State, answers: map<nat, Option<nat>>, s': State)
    requires Indexed(s) && Next(s, EngineRestart(answers), s')
    ensures Indexed(s')
  {
    InverseIffNoOrphans(s'.geofences, s'.ids);
    StillIndexed(s');
  }

  lemma AddKeeps(s: State, event: Event, s': State)
    requires event.Add? && Indexed(s) && Allowed(s, event) && Next(s, event, s')
    ensures Indexed(s')
  {
    OrphansAwait(s);
    forall h | h in Orphans(s'.geofences, s'.ids) ensures h in Orphans(s.geofences, s.ids) { }
    StillIndexed(s');
  }

  lemma RemoveKeeps(s: State, hwId: nat, s': State)
    requires Indexed(s) && Next(s, Remove(hwId), s')
    ensures Indexed(s')
  {
    OrphansAwait(s);
    forall h | h in Orphans(s'.geofences, s'.ids) ensures h in Orphans(s.geofences, s.ids) { }
    StillIndexed(s');
  }

  lemma UpdateKeeps(s: State, event: Event, s': State)
    requires (event.Modify? || event.PauseOrResume?) && Indexed(s) && Next(s, event, s')
    ensures Indexed(s')
  {
    OrphansAwait(s);
    assert Orphans(s'.geofences, s'.ids) == Orphans(s.geofences, s.ids);
    StillIndexed(s');
  }

  lemma AnswerKeepsIff(s: State, hwId: nat, success: bool, s': State)
    requires Indexed(s) && Next(s, RemovalAnswered(hwId, success), s')
    ensures Agree(s'.geofences, s'.ids) <==> KeepsAgreeing(s, RemovalAnswered(hwId, success))
    ensures Agree(s'.geofences, s'.ids) ==> Indexed(s')
  {
    OrphansAwait(s);
    if hwId in s.ids.Values && success {
      var k :| k in s.ids && s.ids[k] == hwId;
      assert s'.ids[k] !in s'.geofences;
    } else {
      forall h | h in Orphans(s'.geofences, s'.ids) ensures h in s'.outstanding || h in s'.failed {
        assert h in Orphans(s.geofences, s.ids);
      }
      StillIndexed(s');
    }
  }

  lemma StepKeepsIff(s: State, event: Event, s': State)
    requires Indexed(s) && Allowed(s, event) && Next(s, event, s')
    ensures Agree(s'.geofences, s'.ids) <==> KeepsAgreeing(s, event)
    ensures KeepsAgreeing(s, event) ==> Indexed(s')
  {
    match event
    case Add(_, _, _, _) => AddKeeps(s, event, s');
    case Remove(hwId) => RemoveKeeps(s, hwId, s');
    case Modify(_, _) => UpdateKeeps(s, event, s');
    case PauseOrResume(_, _) => UpdateKeeps(s, event, s');
    case ClientGone(client) => ClientGoneKeeps(s, client, s');
    case RemovalAnswered(hwId, success) => AnswerKeepsIff(s, hwId, success, s');
    case EngineRestart(answers) => RestartKeeps(s, answers, s');
  }

  /** Some run of events leads through these states. */
  ghost predicate IsRun(states: seq<State>, events: seq<Event>) {
    |states| == |events| + 1 && states[0] == EMPTY && forall i :: 0 <= i < |events| ==> StepAt(states, events, i)
  }

  ghost predicate StepAt(states: seq<State>, events: seq<Event>, i: nat)
    requires i < |events| && i + 1 < |states|
  {
    Allowed(states[i], events[i]) && Next(states[i], events[i], states[i + 1])
  }

  ghost predicate KeptUpTo(states: seq<State>, events: seq<Event>, n: nat)
    requires n <= |events| <= |states|
  {
    forall i :: 0 <= i < n ==> KeepsAgreeing(states[i], events[i])
  }

  /** While every answer kept the agreement, an indexed key leads to a geofence that carries it, and
      the two maps are mutual inverses exactly when no geofence awaits its removal. */
  lemma {:induction false} EveryRunAgrees(states: seq<State>, events: seq<Event>, n: nat)
    requires IsRun(states, events) && n <= |events| && KeptUpTo(states, events, n)
    ensures Indexed(states[n])
    ensures var s := states[n]; MutuallyInverse(s.geofences, s.ids) <==> forall h :: !Awaits(s, h)
  {
    if n > 0 {
      EveryRunAgrees(states, events, n - 1);
      OneStep(states, events, n - 1);
    }
    var s := states[n];
    InverseIffNoOrphans(s.geofences, s.ids);
    assert Orphans(s.geofences, s.ids) == {} <==> forall h :: h !in Orphans(s.geofences, s.ids);
  }

  lemma OneStep(states: seq<State>, events: seq<Event>, i: nat)
    requires IsRun(states, events) && i < |events| && Indexed(states[i])
    ensures Agree(states[i + 1].geofences, states[i + 1].ids) <==> KeepsAgreeing(states[i], events[i])
    ensures KeepsAgreeing(states[i], events[i]) ==> Indexed(states[i + 1])
  {
    assert StepAt(states, events, i);
    StepKeepsIff(states[i], events[i], states[i + 1]);
  }

  ghost predicate AgreesUpTo(states: seq<State>, n: nat)
    requires n < |states|
  {
    forall i :: 0 <= i <= n ==> Agree(states[i].geofences, states[i].ids)
  }

  /** Exactly when the maps agree throughout a run: every successful answer to a removal finds its
      hardware id with no client. */
  lemma {:induction false} AgreesThroughoutIff(states: seq<State>, events: seq<Event>, n: nat)
    requires IsRun(states, events) && n <= |events|
    ensures AgreesUpTo(states, n) <==> KeptUpTo(states, events, n)
  {
    if n > 0 {
      AgreesThroughoutIff(states, events, n - 1);
      if KeptUpTo(states, events, n - 1) {
        EveryRunAgrees(states, events, n - 1);
        OneStep(states, events, n - 1);
      }
      assert AgreesUpTo(states, n) ==> AgreesUpTo(states, n - 1);
      assert KeptUpTo(states, events, n) <==>
               KeptUpTo(states, events, n - 1) && KeepsAgreeing(states[n - 1], events[n - 1]);
    }
  }

  /** A new hardware id is not that of a removal still outstanding. */
  ghost predicate AvoidsOutstanding(s: State, event: Event) {
    match event
    case Add(_, hwId, _, _) => hwId !in s.outstanding
    case EngineRestart(answers) => forall g :: g in answers && answers[g].Some? ==> answers[g].value !in s.outstanding
    case _ => true
  }

  ghost predicate OutstandingApart(s: State) {
    forall k :: k in s.ids ==> s.ids[k] !in s.outstanding
  }

  lemma StepKeepsApart(s: State, event: Event, s': State)
    requires Indexed(s) && OutstandingApart(s) && Allowed(s, event) && Next(s, event, s') && AvoidsOutstanding(s, event)
    ensures KeepsAgreeing(s, event) && OutstandingApart(s')
  {
    if event.EngineRestart? {
      forall k | k in s'.ids ensures s'.ids[k] !in s'.outstanding {
        var h :| h in s.geofences && event.answers[h] == Some(s'.ids[k]);
      }
    }
  }

  lemma OneStepApart(states: seq<State>, events: seq<Event>, i: nat)
    requires IsRun(states, events) && i < |events| && Indexed(states[i]) && OutstandingApart(states[i])
    requires AvoidsOutstanding(states[i], events[i])
    ensures KeepsAgreeing(states[i], events[i]) && Indexed(states[i + 1]) && OutstandingApart(states[i + 1])
  {
    assert StepAt(states, events, i);
    StepKeepsApart(states[i], events[i], states[i + 1]);
    StepKeepsIff(states[i], events[i], states[i + 1]);
  }

  lemma KeptSnoc(states: seq<State>, events: seq<Event>, n: nat)
    requires n < |events| <= |states| && KeptUpTo(states, events, n) && KeepsAgreeing(states[n], events[n])
    ensures KeptUpTo(states, events, n + 1)
  {
  }

  /** If the modem never reuses the hardware id of an outstanding removal, the maps agree throughout,
      across engine restarts and answers that come after them. */
  lemma {:induction false} NoReuseAgrees(states: seq<State>, events: seq<Event>, n: nat)
    requires IsRun(states, events) && n <= |events|
    requires forall i :: 0 <= i < n ==> AvoidsOutstanding(states[i], events[i])
    ensures KeptUpTo(states, events, n) && Indexed(states[n]) && OutstandingApart(states[n])
  {
    if n > 0 {
      NoReuseAgrees(states, events, n - 1);
      assert AvoidsOutstanding(states[n - 1], events[n - 1]);
      OneStepApart(states, events, n - 1);
      KeptSnoc(states, events, n - 1);
    }
  }

  // ----- Breaches -------------------------------------------------------------------------

  /** The geofence reported at position `k` belongs to `client`. */
  predicate OwnedAt(geofences: GeofencesMap, client: nat, hwIds: seq<nat>, k: nat)
    requires k < |hwIds|
  {
    hwIds[k] in geofences && geofences[hwIds[k]].key.client == client
  }

  ghost predicate Ascending(a: seq<nat>) {
    forall i, j :: 0 <= i < j < |a| ==> a[i] < a[j]
  }

  /** `told` are the client's own ids of the geofences reported at the positions `at`: these are all its
      positions, once each and in their order. */
  ghost predicate ToldAt(geofences: GeofencesMap, client: nat, hwIds: seq<nat>, told: seq<nat>, at: seq<nat>) {
    && |at| == |told|
    && (forall i :: 0 <= i < |at| ==> at[i] < |hwIds| && OwnedAt(geofences, client, hwIds, at[i]))
    && (forall i :: 0 <= i < |at| ==> geofences[hwIds[at[i]]].key.id == told[i])
    && Ascending(at)
    && (forall k :: 0 <= k < |hwIds| && OwnedAt(geofences, client, hwIds, k) ==> k in at)
  }

  /** `told` is what the client is told of the report. */
  ghost predicate IsTold(geofences: GeofencesMap, client: nat, hwIds: seq<nat>, told: seq<nat>) {
    exists at :: ToldAt(geofences, client, hwIds, told, at)
  }

  /** What `client` is told when the modem reports `hwIds`. */
  function BreachIds(geofences: GeofencesMap, client: nat, hwIds: seq<nat>): seq<nat> {
    if hwIds == [] then []
    else
      var rest, last := BreachIds(geofences, client, hwIds[..|hwIds| - 1]), hwIds[|hwIds| - 1];
      if last in geofences && geofences[last].key.client == client then rest + [geofences[last].key.id] else rest
  }

  lemma {:induction false} BreachIdsInOrder(geofences: GeofencesMap, client: nat, hwIds: seq<nat>)
    ensures IsTold(geofences, client, hwIds, BreachIds(geofences, client, hwIds))
  {
    if hwIds == [] {
      assert ToldAt(geofences, client, hwIds, [], []);
    } else {
      var init, last := hwIds[..|hwIds| - 1], hwIds[|hwIds| - 1];
      BreachIdsInOrder(geofences, client, init);
      var at :| ToldAt(geofences, client, init, BreachIds(geofences, client, init), at);
      ToldSnoc(geofences, client, init, last, BreachIds(geofences, client, init), at);
      assert init + [last] == hwIds;
    }
  }

  /** Some reported geofence is the client's. */
  ghost predicate Concerns(geofences: GeofencesMap, client: nat, hwIds: seq<nat>) {
    exists k :: 0 <= k < |hwIds| && OwnedAt(geofences, client, hwIds, k)
  }

  lemma ToldIfConcerned(geofences: GeofencesMap, client: nat, hwIds: seq<nat>, told: seq<nat>)
    requires IsTold(geofences, client, hwIds, told)
    ensures told != [] <==> Concerns(geofences, client, hwIds)
  {
    var at :| ToldAt(geofences, client, hwIds, told, at);
    if told != [] {
      assert OwnedAt(geofences, client, hwIds, at[0]);
    }
  }

  lemma ToldSnoc(geofences: GeofencesMap, client: nat, hwIds: seq<nat>, last: nat, told: seq<nat>, at: seq<nat>)
    requires ToldAt(geofences, client, hwIds, told, at)
    ensures if last in geofences && geofences[last].key.client == client
            then ToldAt(geofences, client, hwIds + [last], told + [geofences[last].key.id], at + [|hwIds|])
            else ToldAt(geofences, client, hwIds + [last], told, at)
  {
    var all, more := hwIds + [last], at + [|hwIds|];
    assert all[|hwIds|] == last && forall k :: 0 <= k < |hwIds| ==> all[k] == hwIds[k];
    assert forall k :: 0 <= k < |hwIds| ==> OwnedAt(geofences, client, all, k) == OwnedAt(geofences, client, hwIds, k);
    assert more[|at|] == |hwIds| && forall i :: 0 <= i < |at| ==> more[i] == at[i];
  }

  ghost predicate SameElements(a: seq<nat>, b: seq<nat>) {
    forall k :: k in a <==> k in b
  }

  lemma InitOfAscending(a: seq<nat>, k: nat)
    requires a != [] && Ascending(a)
    ensures Ascending(a[..|a| - 1])
    ensures k in a[..|a| - 1] <==> k in a && k < a[|a| - 1]
  {
    var init := a[..|a| - 1];
    if k in init {
      var i :| 0 <= i < |init| && init[i] == k;
      assert a[i] == k;
    }
    if k in a && k < a[|a| - 1] {
      var i :| 0 <= i < |a| && a[i] == k;
      assert init[i] == k;
    }
  }

  lemma LastOfAscending(a: seq<nat>, b: seq<nat>)
    requires a != [] && b != [] && Ascending(b) && SameElements(a, b)
    ensures a[|a| - 1] <= b[|b| - 1]
  {
    assert a[|a| - 1] in a;
    var i :| 0 <= i < |b| && b[i] == a[|a| - 1];
  }

  lemma BothEmpty(a: seq<nat>, b: seq<nat>)
    requires SameElements(a, b)
    ensures a == [] <==> b == []
  {
    if a != [] {
      SomeElement(a);
    }
    if b != [] {
      SomeElement(b);
    }
  }

  lemma SomeElement(a: seq<nat>)
    requires a != []
    ensures a[0] in a
  {
  }

  /** Of two ascending lists of the same elements the last elements are the same, and so are the rest. */
  lemma SameButLast(a: seq<nat>, b: seq<nat>)
    requires a != [] && b != [] && Ascending(a) && Ascending(b) && SameElements(a, b)
    ensures a[|a| - 1] == b[|b| - 1]
    ensures Ascending(a[..|a| - 1]) && Ascending(b[..|b| - 1]) && SameElements(a[..|a| - 1], b[..|b| - 1])
  {
    LastOfAscending(a, b);
    LastOfAscending(b, a);
    InitOfAscending(a, 0);
    InitOfAscending(b, 0);
    var x, y := a[..|a| - 1], b[..|b| - 1];
    forall k: nat ensures k in x <==> k in y {
      InitOfAscending(a, k);
      InitOfAscending(b, k);
    }
  }

  /** Two ascending lists of the same elements are equal. */
  lemma {:induction false} AscendingOnce(a: seq<nat>, b: seq<nat>)
    requires Ascending(a) && Ascending(b) && SameElements(a, b)
    ensures a == b
  {
    BothEmpty(a, b);
    if a != [] {
      SameButLast(a, b);
      AscendingOnce(a[..|a| - 1], b[..|b| - 1]);
      assert a == a[..|a| - 1] + [a[|a| - 1]] && b == b[..|b| - 1] + [b[|b| - 1]];
    }
  }

  /** A reported position is among those told to a client exactly if its geofence is the client's. */
  lemma BreachReachesOwnerOnly(geofences: GeofencesMap, client: nat, hwIds: seq<nat>, told: seq<nat>, at: seq<nat>,
                               k: nat)
    requires ToldAt(geofences, client, hwIds, told, at)
    ensures k in at <==> k < |hwIds| && OwnedAt(geofences, client, hwIds, k)
  {
    if k in at {
      var i :| 0 <= i < |at| && at[i] == k;
    }
  }

  /** Only one list of ids can be told: a report determines what each client hears. */
  lemma BreachIsDetermined(geofences: GeofencesMap, client: nat, hwIds: seq<nat>, told: seq<nat>, at: seq<nat>,
                           told': seq<nat>, at': seq<nat>)
    requires ToldAt(geofences, client, hwIds, told, at) && ToldAt(geofences, client, hwIds, told', at')
    ensures told == told'
  {
    forall k: nat ensures k in at <==> k in at' {
      BreachReachesOwnerOnly(geofences, client, hwIds, told, at, k);
      BreachReachesOwnerOnly(geofences, client, hwIds, told', at', k);
    }
    AscendingOnce(at, at');
    assert forall i :: 0 <= i < |told| ==> told[i] == told'[i];
  }

  /** A client is told of a breach under an id that leads back to the geofence unless its removal is
      under way. */
  lemma BreachIdsResolve(geofences: GeofencesMap, ids: GeofenceIdMap, client: nat, hwIds: seq<nat>,
                         told: seq<nat>, at: seq<nat>, i: nat)
    requires Agree(geofences, ids) && ToldAt(geofences, client, hwIds, told, at) && i < |told|
    ensures var key := GeofenceKey(client, told[i]);
      if key in ids then ids[key] == hwIds[at[i]] else hwIds[at[i]] in Orphans(geofences, ids)
  {
    assert OwnedAt(geofences, client, hwIds, at[i]);
    assert geofences[hwIds[at[i]]].key == GeofenceKey(client, told[i]);
  }

  // ----- The adapter ----------------------------------------------------------------------

  class GeofenceAdapter {
    var geofences: GeofencesMap
    var geofenceIds: GeofenceIdMap

    ghost predicate Valid()
      reads this
    {
      Agree(geofences, geofenceIds)
    }

    ghost function Unclaimed(): set<nat>
      reads this
    {
      Orphans(geofences, geofenceIds)
    }

    constructor ()
      ensures Valid() && geofences == map[] && geofenceIds == map[]
    {
      geofences, geofenceIds := map[], map[];
    }

    method GetHwIdFromClient(client: nat, clientId: nat) returns (hwId: Option<nat>)
      requires Valid()
      ensures hwId.Some? <==> GeofenceKey(client, clientId) in geofenceIds
      ensures hwId.Some? ==> hwId.value in geofences && geofences[hwId.value].key == GeofenceKey(client, clientId)
    {
      var key := GeofenceKey(client, clientId);
      hwId := if key in geofenceIds then Some(geofenceIds[key]) else None;
    }

    /** A geofence is added under a key never used before and a hardware id not in the index. */
    method SaveGeofenceItem(client: nat, clientId: nat, hwId: nat, options: GeofenceOption, info: GeofenceInfo)
      requires Valid() && hwId !in geofences
      requires forall h :: h in geofences ==> geofences[h].key != GeofenceKey(client, clientId)
      modifies this
      ensures Valid() && Unclaimed() == old(Unclaimed())
      ensures geofences == old(geofences)[hwId := NewObject(GeofenceKey(client, clientId), options, info)]
      ensures geofenceIds == old(geofenceIds)[GeofenceKey(client, clientId) := hwId]
    {
      var key := GeofenceKey(client, clientId);
      geofences := geofences[hwId := GeofenceObject(key, options, info, false)];
      geofenceIds := geofenceIds[key := hwId];
    }

    /** Both entries go, unless the client's entry went before. */
    method RemoveGeofenceItem(hwId: nat)
      requires Valid()
      modifies this
      ensures Valid() && Unclaimed() == old(Unclaimed())
      ensures if hwId in old(geofences) && hwId !in old(Unclaimed())
              then geofences == old(geofences) - {hwId} && geofenceIds == old(geofenceIds) - {old(geofences)[hwId].key}
              else geofences == old(geofences) && geofenceIds == old(geofenceIds)
    {
      if hwId in geofences {
        var key := geofences[hwId].key;
        if key in geofenceIds {
          geofenceIds := geofenceIds - {key};
          geofences := geofences - {hwId};
        }
      }
    }

    method ModifyGeofenceItem(hwId: nat, options: GeofenceOption)
      requires Valid()
      modifies this`geofences
      ensures Valid() && Unclaimed() == old(Unclaimed())
      ensures geofences == if hwId in old(geofences)
                           then old(geofences)[hwId := old(geofences)[hwId].(options := options)] else old(geofences)
    {
      if hwId in geofences {
        geofences := geofences[hwId := geofences[hwId].(options := options)];
      }
    }

    method PauseOrResumeGeofenceItem(hwId: nat, paused: bool)
      requires Valid()
      modifies this`geofences
      ensures Valid() && Unclaimed() == old(Unclaimed())
      ensures geofences == if hwId in old(geofences)
                           then old(geofences)[hwId := old(geofences)[hwId].(paused := paused)] else old(geofences)
    {
      if hwId in geofences {
        geofences := geofences[hwId := geofences[hwId].(paused := paused)];
      }
    }

    /** A departing client's keys leave the index at once; its geofences stay until the modem
        has answered the removals, which the result lists. */
    method StopClientSessions(client: nat) returns (removals: set<nat>)
      requires Valid()
      modifies this`geofenceIds
      ensures Valid()
      ensures removals == ClientIds(old(geofenceIds), client)
      ensures geofenceIds == WithoutClient(old(geofenceIds), client)
      ensures forall k :: k in geofenceIds <==> k in old(geofenceIds) && k.client != client
      ensures Unclaimed() == old(Unclaimed()) + removals
    {
      var keys := geofenceIds.Keys;
      removals := {};
      while keys != {}
        invariant keys <= geofenceIds.Keys <= old(geofenceIds).Keys
        invariant forall k :: k in geofenceIds ==> geofenceIds[k] == old(geofenceIds)[k]
        invariant forall k :: k in old(geofenceIds) && k !in keys ==> (k in geofenceIds <==> k.client != client)
        invariant removals == set k | k in old(geofenceIds) && k !in keys && k.client == client :: old(geofenceIds)[k]
        decreases keys
      {
        var k :| k in keys;
        keys := keys - {k};
        if k.client == client {
          removals := removals + {geofenceIds[k]};
          geofenceIds := geofenceIds - {k};
        }
      }
      assert geofenceIds == WithoutClient(old(geofenceIds), client);
      forall h ensures h in Unclaimed() <==> h in old(Unclaimed()) || h in removals {
        if h in geofences && geofences[h].key in old(geofenceIds) {
          assert old(geofenceIds)[geofences[h].key] == h;
        }
      }
    }

    /** The answer to one of those removals, which erases by hardware id alone: the maps stay in
        agreement exactly when no client has that id now. */
    method ClientRemovalAnswered(hwId: nat, success: bool)
      requires Valid()
      modifies this`geofences
      ensures geofences == if success then old(geofences) - {hwId} else old(geofences)
      ensures Valid() <==> !success || hwId !in geofenceIds.Values
      ensures Valid() ==> Unclaimed() == if success then old(Unclaimed()) - {hwId} else old(Unclaimed())
    {
      if success {
        if hwId in geofences {
          geofences := geofences - {hwId};
        }
        if hwId in geofenceIds.Values {
          ghost var k :| k in geofenceIds && geofenceIds[k] == hwId;
        }
      }
    }

    /** After an engine restart every geofence is added again; `answers` are the modem's new
        hardware ids, None where an add fails. */
    method RestartGeofences(answers: map<nat, Option<nat>>)
      requires Valid() && AnswersAll(geofences, answers)
      modifies this
      ensures Valid() && Unclaimed() == {}
      ensures Rebuilt(old(geofences), answers, geofences, geofenceIds)
    {
      if geofences == map[] {
        assert geofenceIds == map[];
        return;
      }
      var oldGeofences := geofences;
      geofences, geofenceIds := map[], map[];
      var todo := oldGeofences.Keys;
      while todo != {}
        invariant todo <= oldGeofences.Keys
        invariant Valid() && Unclaimed() == {}
        invariant forall h :: h in oldGeofences && h !in todo && answers[h].Some? ==>
          && answers[h].value in geofences && geofences[answers[h].value] == oldGeofences[h].(paused := false)
        invariant forall g :: g in geofences ==>
          exists h :: h in oldGeofences && h !in todo && answers[h] == Some(g)
                      && geofences[g] == oldGeofences[h].(paused := false)
        decreases todo
      {
        var h :| h in todo;
        todo := todo - {h};
        var fence := oldGeofences[h];
        if answers[h].Some? {
          SaveGeofenceItem(fence.key.client, fence.key.id, answers[h].value, fence.options, fence.info);
        }
      }
      InverseIffNoOrphans(geofences, geofenceIds);
    }

    /** What one client's breach callback is given: its own ids of the reported geofences, once for each
        report of one and in the order of the report. */
    method GeofenceBreach(client: nat, hwIds: seq<nat>) returns (clientIds: seq<nat>)
      ensures IsTold(geofences, client, hwIds, clientIds)
      ensures clientIds == BreachIds(geofences, client, hwIds)
    {
      clientIds := [];
      for i := 0 to |hwIds|
        invariant clientIds == BreachIds(geofences, client, hwIds[..i])
      {
        assert hwIds[..i + 1][..i] == hwIds[..i];
        if hwIds[i] in geofences {
          var key := geofences[hwIds[i]].key;
          if key.client == client {
            clientIds := clientIds + [key.id];
          }
        }
      }
      assert hwIds[..|hwIds|] == hwIds;
      BreachIdsInOrder(geofences, client, hwIds);
    }

    /** All callbacks made for one report: `callbacks` says of each client whether it has one. Exactly the
        clients with a callback that own a reported geofence are told. */
    method NotifyBreach(callbacks: map<nat, bool>, hwIds: seq<nat>) returns (sent: map<nat, seq<nat>>)
      ensures forall c :: c in sent ==> IsTold(geofences, c, hwIds, sent[c])
      ensures forall c :: c in sent <==> c in callbacks && callbacks[c] && Concerns(geofences, c, hwIds)
    {
      sent := TellEach(callbacks, hwIds);
      forall c | c in callbacks
        ensures IsTold(geofences, c, hwIds, BreachIds(geofences, c, hwIds))
        ensures BreachIds(geofences, c, hwIds) != [] <==> Concerns(geofences, c, hwIds)
      {
        BreachIdsInOrder(geofences, c, hwIds);
        ToldIfConcerned(geofences, c, hwIds, BreachIds(geofences, c, hwIds));
      }
    }

    method TellEach(callbacks: map<nat, bool>, hwIds: seq<nat>) returns (sent: map<nat, seq<nat>>)
      ensures forall c :: c in sent <==> c in callbacks && callbacks[c] && BreachIds(geofences, c, hwIds) != []
      ensures forall c :: c in sent ==> sent[c] == BreachIds(geofences, c, hwIds)
    {
      sent := map[];
      var todo := callbacks.Keys;
      while todo != {}
        invariant todo <= callbacks.Keys
        invariant forall c :: c in sent <==>
          c in callbacks && c !in todo && callbacks[c] && BreachIds(geofences, c, hwIds) != []
        invariant forall c :: c in sent ==> sent[c] == BreachIds(geofences, c, hwIds)
        decreases todo
      {
        var c :| c in todo;
        todo := todo - {c};
        var clientIds := GeofenceBreach(c, hwIds);
        if |clientIds| > 0 && callbacks[c] {
          sent := sent[c := clientIds];
        }
      }
    }
  }

  /** The adapter holds the state's two maps. */
  ghost predicate Holds(adapter: GeofenceAdapter, s: State)
    reads adapter
  {
    adapter.geofences == s.geofences && adapter.geofenceIds == s.ids
  }

  /** The adapter takes the steps of the runs above. */
  method Handle(adapter: GeofenceAdapter, event: Event, ghost s: State) returns (ghost s': State)
    requires Holds(adapter, s) && Indexed(s) && Allowed(s, event)
    modifies adapter
    ensures Next(s, event, s') && Holds(adapter, s') && (KeepsAgreeing(s, event) ==> Indexed(s'))
  {
    var removals: set<nat> := {};
    match event {
      case Add(key, hwId, options, info) =>
        adapter.SaveGeofenceItem(key.client, key.id, hwId, options, info);
      case Remove(hwId) => adapter.RemoveGeofenceItem(hwId);
      case Modify(hwId, options) => adapter.ModifyGeofenceItem(hwId, options);
      case PauseOrResume(hwId, paused) => adapter.PauseOrResumeGeofenceItem(hwId, paused);
      case ClientGone(client) => removals := adapter.StopClientSessions(client);
      case RemovalAnswered(hwId, success) => adapter.ClientRemovalAnswered(hwId, success);
      case EngineRestart(answers) => adapter.RestartGeofences(answers);
    }
    s' := State(adapter.geofences, adapter.geofenceIds, Outstanding(s, event), Failed(s, event), Used(s, event));
    StepKeepsIff(s, event, s');
  }

  /** An answer that comes after an engine restart, when the modem has given the hardware id to
      another client's geofence: the index then leads nowhere. */
  method LateRemovalAnswer(options: GeofenceOption, info: GeofenceInfo) returns (adapter: GeofenceAdapter)
    ensures GeofenceKey(2, 1) in adapter.geofenceIds && adapter.geofenceIds[GeofenceKey(2, 1)] !in adapter.geofences
    ensures !adapter.Valid()
  {
    adapter := new GeofenceAdapter();
    adapter.SaveGeofenceItem(1, 1, 7, options, info);
    var removals := adapter.StopClientSessions(1);
    assert adapter.geofenceIds == map[];
    adapter.RestartGeofences(map[7 := Some(8)]);
    assert forall g :: g in adapter.geofences ==> g == 8;
    adapter.SaveGeofenceItem(2, 1, 7, options, info);
    assert adapter.geofenceIds[GeofenceKey(2, 1)] == 7;
    adapter.ClientRemovalAnswered(7, true);
  }
}
