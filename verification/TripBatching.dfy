/** Trip batching (gps/batching/BatchingAdapter.cpp): several trips share one modem odometer,
    which the modem zeroes whenever batching is started or restarted. Distances are in metres.
    Each exchange with the modem is one step and succeeds. */
module TripBatching {
  import opened OrderedWalk

  const TWO_32 := 0x1_0000_0000

  type uint32 = x: int | 0 <= x < TWO_32

  /** Unsigned arithmetic wraps. */
  function Sub32(a: uint32, b: uint32): uint32 { (a - b) % TWO_32 }

  function Add32(a: uint32, b: uint32): uint32 { (a + b) % TWO_32 }

  function Min(a: uint32, b: uint32): uint32 { if a < b then a else b }

  datatype Trip = Trip(ongoingBatch: uint32, thisTrip: uint32, onTripRestart: uint32,
                       tripDistance: uint32, tripTBFInterval: uint32)

  type Trips = map<nat, Trip>

  /** The distance the counters stand for at an odometer reading. */
  function Counted(t: Trip, odometer: int): int {
    t.onTripRestart + (odometer - t.ongoingBatch)
  }

  /** `accumulatedDistanceThisTrip` as computed at an odometer reading. */
  function Reading(t: Trip, odometer: uint32): uint32 {
    Add32(t.onTripRestart, Sub32(odometer, t.ongoingBatch))
  }

  /** The subtraction never wraps, and the sum falls short only by a whole 2^32. */
  lemma ReadingIsCounted(t: Trip, odometer: uint32)
    requires t.ongoingBatch <= odometer
    ensures Sub32(odometer, t.ongoingBatch) == odometer - t.ongoingBatch
    ensures Reading(t, odometer) <= Counted(t, odometer)
    ensures Counted(t, odometer) < TWO_32 ==> Reading(t, odometer) == Counted(t, odometer)
  {
  }

  // ----- Smallest needs -----------------------------------------------------------------

  ghost function SmallestKey(keys: set<nat>): (k: nat)
    requires keys != {}
    ensures k in keys && forall j :: j in keys ==> k <= j
  {
    var k :| k in keys;
    var others := keys - {k};
    assert forall j :: j in keys ==> j == k || j in others;
    if others == {} then k
    else
      var m := SmallestKey(others);
      if k < m then k else m
  }

  ghost function LargestKey(keys: set<nat>): (k: nat)
    requires keys != {}
    ensures k in keys && forall j :: j in keys ==> j <= k
  {
    var k :| k in keys;
    var others := keys - {k};
    assert forall j :: j in keys ==> j == k || j in others;
    if others == {} then k
    else
      var m := LargestKey(others);
      if k > m then k else m
  }

  predicate Earlier(i: nat, j: nat) { i < j }

  /** The walk in the order of the keys, in which zero counts as not yet set. */
  ghost function Smallest(values: map<nat, nat>): nat
    decreases values.Keys
  {
    if values == map[] then 0
    else
      var k := LargestKey(values.Keys);
      Smaller(Smallest(values - {k}), values[k])
  }

  lemma SmallestNext(values: map<nat, nat>, k: nat, value: nat)
    requires forall j :: j in values ==> j < k
    ensures Smallest(values[k := value]) == Smaller(Smallest(values), value)
  {
    var all := values[k := value];
    assert k in all.Keys && forall j :: j in all ==> j <= k;
    assert LargestKey(all.Keys) == k;
    assert all - {k} == values;
  }

  /** The walk finds the smallest value beyond the last zero, 0 if the last value is zero. */
  lemma {:induction false} SmallestMeans(values: map<nat, nat>)
    ensures IsSmallest(Earlier, Smallest(values), values)
    decreases values.Keys
  {
    if values != map[] {
      var k := LargestKey(values.Keys);
      SmallestMeans(values - {k});
      LargestComesLast(values, k);
      WithLast(Earlier, values, k, Smallest(values - {k}));
    }
  }

  lemma LargestComesLast(values: map<nat, nat>, k: nat)
    requires forall j :: j in values ==> j <= k
    ensures ComesLast(Earlier, values - {k}, k)
  {
  }

  lemma SmallestIsValue(values: map<nat, nat>)
    ensures Smallest(values) == 0 || exists k :: k in values && values[k] == Smallest(values)
  {
    SmallestMeans(values);
  }

  /** As last reported, which on a stop may be behind the odometer. */
  function Remaining(t: Trip): uint32 {
    Sub32(t.tripDistance, t.thisTrip)
  }

  function Remainings(trips: Trips): map<nat, nat> {
    map id | id in trips :: Remaining(trips[id])
  }

  function Intervals(trips: Trips): map<nat, nat> {
    map id | id in trips :: trips[id].tripTBFInterval
  }

  ghost function SmallestRemaining(trips: Trips): uint32 {
    SmallestIsValue(Remainings(trips));
    Smallest(Remainings(trips))
  }

  ghost function SmallestInterval(trips: Trips): uint32 {
    SmallestIsValue(Intervals(trips));
    Smallest(Intervals(trips))
  }

  /** Without zeros they are the minima. */
  lemma RemainingIsMinimum(trips: Trips)
    requires trips != map[] && forall id :: id in trips ==> Remaining(trips[id]) > 0
    ensures forall id :: id in trips ==> SmallestRemaining(trips) <= Remaining(trips[id])
    ensures exists id :: id in trips && SmallestRemaining(trips) == Remaining(trips[id])
  {
    var values := Remainings(trips);
    assert values.Keys == trips.Keys;
    SmallestMeans(values);
    MinimumWithoutZeros(Earlier, Smallest(values), values);
    assert forall id :: id in trips ==> values[id] == Remaining(trips[id]);
  }

  lemma IntervalIsMinimum(trips: Trips)
    requires trips != map[] && forall id :: id in trips ==> trips[id].tripTBFInterval > 0
    ensures forall id :: id in trips ==> SmallestInterval(trips) <= trips[id].tripTBFInterval
    ensures exists id :: id in trips && SmallestInterval(trips) == trips[id].tripTBFInterval
  {
    var values := Intervals(trips);
    assert values.Keys == trips.Keys;
    SmallestMeans(values);
    MinimumWithoutZeros(Earlier, Smallest(values), values);
    assert forall id :: id in trips ==> values[id] == trips[id].tripTBFInterval;
  }

  /** The walk has seen some trips, all before those to do. */
  ghost predicate Walked(seen: Trips, todo: set<nat>, remaining: uint32, interval: uint32) {
    && (forall i, j :: i in seen && j in todo ==> i < j)
    && remaining == SmallestRemaining(seen) && interval == SmallestInterval(seen)
  }

  lemma WalkGoesOn(trips: Trips, todo: set<nat>, id: nat, remaining: uint32, interval: uint32)
    requires todo <= trips.Keys && id in todo && (forall j :: j in todo ==> id <= j)
    requires Walked(trips - todo, todo, remaining, interval)
    ensures Walked(trips - (todo - {id}), todo - {id}, Smaller(remaining, Remaining(trips[id])),
                   Smaller(interval, trips[id].tripTBFInterval))
  {
    assert trips - (todo - {id}) == (trips - todo)[id := trips[id]];
    SeeOneMore(trips - todo, id, trips[id]);
  }

  lemma SeeOneMore(seen: Trips, id: nat, t: Trip)
    requires forall i :: i in seen ==> i < id
    ensures SmallestRemaining(seen[id := t]) == Smaller(SmallestRemaining(seen), Remaining(t))
    ensures SmallestInterval(seen[id := t]) == Smaller(SmallestInterval(seen), t.tripTBFInterval)
  {
    ValuesGrow(seen, id, t);
    SmallestNext(Remainings(seen), id, Remaining(t));
    SmallestNext(Intervals(seen), id, t.tripTBFInterval);
  }

  lemma ValuesGrow(seen: Trips, id: nat, t: Trip)
    ensures Remainings(seen[id := t]) == Remainings(seen)[id := Remaining(t)]
    ensures Intervals(seen[id := t]) == Intervals(seen)[id := t.tripTBFInterval]
  {
  }

  // ----- Steps --------------------------------------------------------------------------

  /** The trips, the modem's odometer, what the modem was last started with, and whether the trip
      that set that distance or interval has been dropped. */
  datatype State = State(trips: Trips, odometer: uint32, distance: uint32, interval: uint32,
                         distanceDropped: bool, intervalDropped: bool)

  const IDLE := State(map[], 0, 0, 0, false, false)

  /** What the counters of a trip keep across a restart: the last report, or the odometer too. */
  function Kept(t: Trip, odometer: uint32, upToDate: bool): uint32 {
    if upToDate then Reading(t, odometer) else t.thisTrip
  }

  function Carried(t: Trip, odometer: uint32, upToDate: bool): Trip {
    t.(ongoingBatch := 0, thisTrip := Kept(t, odometer, upToDate), onTripRestart := Kept(t, odometer, upToDate))
  }

  function CarriedOver(trips: Trips, odometer: uint32, upToDate: bool): Trips {
    map id | id in trips :: Carried(trips[id], odometer, upToDate)
  }

  /** The modem restarts and its odometer starts again from zero. */
  function Restarted(s: State, distance: uint32, interval: uint32, upToDate: bool): State {
    s.(trips := CarriedOver(s.trips, s.odometer, upToDate), odometer := 0, distance := distance, interval := interval)
  }

  /** What the modem still has to go, by the adapter's arithmetic. */
  function Left(s: State): uint32 {
    Sub32(s.distance, s.odometer)
  }

  predicate JoinRestarts(s: State, minDistance: uint32, minInterval: uint32) {
    s.interval > minInterval || minDistance < Left(s)
  }

  /** The modem is restarted when the new trip asks for a shorter interval, or is shorter than what
      is left of the ongoing distance. */
  function Joined(s: State, id: nat, minDistance: uint32, minInterval: uint32): State {
    var joined := s.(trips := s.trips[id := Trip(s.odometer, 0, 0, minDistance, minInterval)]);
    if JoinRestarts(s, minDistance, minInterval)
    then Restarted(joined, Min(minDistance, Left(s)), Min(s.interval, minInterval), false)
    else joined
  }

  function Started(s: State, id: nat, minDistance: uint32, minInterval: uint32): State {
    if s.trips == map[]
    then s.(trips := map[id := Trip(0, 0, 0, minDistance, minInterval)], odometer := 0,
            distance := minDistance, interval := minInterval)
    else Joined(s, id, minDistance, minInterval)
  }

  /** Whether the smallest remaining distance replaces the ongoing one once trips have been dropped. */
  predicate ReplacesDistance(s: State, remaining: uint32) {
    if s.distanceDropped || Left(s) == 0 then remaining != 0 else remaining < Left(s)
  }

  predicate ReplacesInterval(s: State, interval: uint32) {
    interval != s.interval && (s.intervalDropped || interval < s.interval)
  }

  ghost predicate NewDistance(s: State) {
    ReplacesDistance(s, SmallestRemaining(s.trips))
  }

  ghost predicate NewInterval(s: State) {
    ReplacesInterval(s, SmallestInterval(s.trips))
  }

  ghost predicate DropRestarts(s: State) {
    s.trips != map[] && (NewDistance(s) || NewInterval(s))
  }

  /** The distance a restart after a drop gives the modem: the ongoing one, whole, if only the
      interval is replaced. */
  ghost function DropDistance(s: State): uint32 {
    if NewDistance(s) then SmallestRemaining(s.trips) else s.distance
  }

  /** The modem is left idle without trips, and restarted if what is left needs it. */
  ghost function Readjusted(s: State): State {
    if s.trips == map[] then s.(distance := 0, interval := 0)
    else if DropRestarts(s)
    then Restarted(s, DropDistance(s), if NewInterval(s) then SmallestInterval(s.trips) else s.interval, true)
    else s
  }

  predicate IsComplete(t: Trip, odometer: uint32) {
    t.tripDistance <= Reading(t, odometer)
  }

  function CompletedIds(s: State): set<nat> {
    set id | id in s.trips && IsComplete(s.trips[id], s.odometer)
  }

  predicate AnyInterval(trips: Trips, ids: set<nat>, interval: uint32) {
    exists id :: id in ids && id in trips && trips[id].tripTBFInterval == interval
  }

  predicate AnyDistance(trips: Trips, ids: set<nat>, distance: uint32) {
    exists id :: id in ids && id in trips && trips[id].tripDistance == distance
  }

  /** Some trips are dropped. */
  function Dropped(s: State, ids: set<nat>): State {
    s.(trips := s.trips - ids,
       distanceDropped := s.distanceDropped || AnyDistance(s.trips, ids, s.distance),
       intervalDropped := s.intervalDropped || AnyInterval(s.trips, ids, s.interval))
  }

  function Updated(trips: Trips, odometer: uint32): Trips {
    map id | id in trips :: trips[id].(thisTrip := Reading(trips[id], odometer))
  }

  /** The report's loop: the counters are brought up to date and complete trips dropped. */
  function Settled(s: State): State {
    Dropped(s.(trips := Updated(s.trips, s.odometer)), CompletedIds(s))
  }

  ghost function Reported(s: State): State {
    if CompletedIds(s) == {} then Settled(s) else Readjusted(Settled(s))
  }

  ghost function Stopped(s: State, id: nat): State {
    if id in s.trips then Readjusted(Dropped(s, {id})) else s
  }

  datatype Event =
    | Move(distance: uint32)
    | Start(sessionId: nat, minDistance: uint32, minInterval: uint32)
    | Report
    | Stop(sessionId: nat)

  ghost function Step(s: State, event: Event): State {
    match event
    case Move(distance) => s.(odometer := Add32(s.odometer, distance))
    case Start(id, minDistance, minInterval) => Started(s, id, minDistance, minInterval)
    case Report => Reported(s)
    case Stop(id) => Stopped(s, id)
  }

  ghost function StateAfter(events: seq<Event>): State {
    if events == [] then IDLE else Step(StateAfter(events[..|events| - 1]), events[|events| - 1])
  }

  // ----- When the modem is restarted, in plain comparisons ----------------------------------

  /** What the modem still has to go; once the odometer has passed the distance, a whole 2^32 more. */
  function Ahead(s: State): int {
    if s.odometer <= s.distance then s.distance - s.odometer else s.distance - s.odometer + TWO_32
  }

  lemma LeftIsAhead(s: State)
    ensures Left(s) == Ahead(s)
    ensures Left(s) == 0 <==> s.odometer == s.distance
  {
  }

  /** The new trip asks for a shorter interval than the modem's, or for less than it has to go. */
  predicate JoinCuts(s: State, minDistance: uint32, minInterval: uint32) {
    || minInterval < s.interval
    || (s.odometer <= s.distance && minDistance < s.distance - s.odometer)
    || (s.odometer > s.distance && minDistance < s.distance - s.odometer + TWO_32)
  }

  /** What a join changes. Where it cuts, the modem starts again from zero with the smaller of both
      distances and intervals, and every other trip is left with what was last reported of it;
      otherwise nothing changes for anyone. */
  lemma JoinChanges(s: State, id: nat, minDistance: uint32, minInterval: uint32)
    requires id !in s.trips
    ensures var s' := Joined(s, id, minDistance, minInterval);
      if JoinCuts(s, minDistance, minInterval) then
        && s'.odometer == 0 && s'.trips.Keys == s.trips.Keys + {id}
        && s'.trips[id] == Trip(0, 0, 0, minDistance, minInterval)
        && (forall j :: j in s.trips ==>
              s'.trips[j] == s.trips[j].(ongoingBatch := 0, onTripRestart := s.trips[j].thisTrip))
        && s'.distance == (if minDistance < Ahead(s) then minDistance else Ahead(s))
        && s'.interval == (if minInterval < s.interval then minInterval else s.interval)
      else s' == s.(trips := s.trips[id := Trip(s.odometer, 0, 0, minDistance, minInterval)])
  {
    LeftIsAhead(s);
  }

  /** The ordinary join: no shorter interval, and at least as far as the modem still has to go. */
  lemma QuietJoin(s: State, id: nat, minDistance: uint32, minInterval: uint32)
    requires s.trips != map[] && id !in s.trips
    requires s.odometer <= s.distance && s.interval <= minInterval && s.distance - s.odometer <= minDistance
    ensures var s' := Step(s, Start(id, minDistance, minInterval));
      && s'.odometer == s.odometer && s'.distance == s.distance && s'.interval == s.interval
      && forall j :: j in s.trips ==> j in s'.trips && s'.trips[j] == s.trips[j]
  {
    JoinChanges(s, id, minDistance, minInterval);
  }

  /** The first trip sets the modem, whatever was left over from earlier ones. */
  lemma StartAlone(s: State, id: nat, minDistance: uint32, minInterval: uint32)
    requires s.trips == map[]
    ensures var s' := Step(s, Start(id, minDistance, minInterval));
      && (forall j :: j in s'.trips <==> j == id) && Counted(s'.trips[id], s'.odometer) == 0 == s'.odometer
      && s'.distance == Need(s'.trips[id], 0) == minDistance && s'.interval == minInterval
  {
  }

  /** Of trips that are left: the smallest distance replaces the modem's if the trip that set that one
      is gone or the odometer is just there, and otherwise if it is less than the modem has to go. */
  ghost predicate DistanceGoes(s: State) {
    var smallest := SmallestRemaining(s.trips);
    if s.distanceDropped || s.odometer == s.distance then smallest > 0 else smallest < Ahead(s)
  }

  ghost predicate IntervalGoes(s: State) {
    var smallest := SmallestInterval(s.trips);
    smallest < s.interval || (s.intervalDropped && smallest > s.interval)
  }

  ghost predicate DropCuts(s: State) {
    s.trips != map[] && (DistanceGoes(s) || IntervalGoes(s))
  }

  lemma DropCutsIff(s: State)
    ensures NewDistance(s) <==> DistanceGoes(s)
    ensures NewInterval(s) <==> IntervalGoes(s)
    ensures DropRestarts(s) <==> DropCuts(s)
  {
    LeftIsAhead(s);
  }

  /** What a drop changes for the trips that are left. */
  lemma DropChanges(s: State)
    requires s.trips != map[]
    ensures var s' := Readjusted(s);
      if DropCuts(s) then
        && s'.odometer == 0 && s'.trips.Keys == s.trips.Keys
        && (forall j :: j in s.trips ==>
              var reading := Reading(s.trips[j], s.odometer);
              s'.trips[j] == s.trips[j].(ongoingBatch := 0, thisTrip := reading, onTripRestart := reading))
        && s'.distance == (if DistanceGoes(s) then SmallestRemaining(s.trips) else s.distance)
        && s'.interval == (if IntervalGoes(s) then SmallestInterval(s.trips) else s.interval)
      else s' == s
  {
    DropCutsIff(s);
  }

  /** Where every trip left has distance to go and asks for a positive interval, told trip by trip. */
  lemma PendingDropCutsIff(s: State)
    requires s.trips != map[] && Pending(s.trips) && forall j :: j in s.trips ==> s.trips[j].tripTBFInterval > 0
    ensures DistanceGoes(s) <==>
              (s.distanceDropped || s.odometer == s.distance
               || exists j :: j in s.trips && s.trips[j].tripDistance - s.trips[j].thisTrip < Ahead(s))
    ensures IntervalGoes(s) <==>
              ((exists j :: j in s.trips && s.trips[j].tripTBFInterval < s.interval)
               || (s.intervalDropped && forall j :: j in s.trips ==> s.trips[j].tripTBFInterval > s.interval))
  {
    PendingMinimum(s.trips);
    IntervalIsMinimum(s.trips);
  }

  /** The state once trip `id` has gone, before the modem is readjusted. */
  function WithoutTrip(s: State, id: nat): State
    requires id in s.trips
  {
    State(s.trips - {id}, s.odometer, s.distance, s.interval,
          s.distanceDropped || s.trips[id].tripDistance == s.distance,
          s.intervalDropped || s.trips[id].tripTBFInterval == s.interval)
  }

  lemma OneDropped(s: State, id: nat)
    requires id in s.trips
    ensures Dropped(s, {id}) == WithoutTrip(s, id)
  {
    assert id in {id};
  }

  /** The ordinary stop: the trip set neither the distance nor the interval, and no trip left needs
      less than the modem has to go or a shorter interval. */
  lemma QuietStop(s: State, id: nat)
    requires id in s.trips && s.trips - {id} != map[] && !s.distanceDropped && !s.intervalDropped
    requires s.trips[id].tripDistance != s.distance && s.trips[id].tripTBFInterval != s.interval
    requires s.odometer < s.distance && Pending(s.trips - {id})
    requires forall j :: j in s.trips && j != id ==>
      && s.distance - s.odometer <= s.trips[j].tripDistance - s.trips[j].thisTrip
      && 0 < s.trips[j].tripTBFInterval && s.interval <= s.trips[j].tripTBFInterval
    ensures Step(s, Stop(id)) == s.(trips := s.trips - {id})
  {
    OneDropped(s, id);
    PendingDropCutsIff(WithoutTrip(s, id));
    DropChanges(WithoutTrip(s, id));
  }

  /** A report at which no trip is complete changes only what is reported. */
  lemma QuietReport(s: State)
    requires InOrder(s.trips, s.odometer)
    requires forall j :: j in s.trips ==> Need(s.trips[j], s.odometer) > 0
    ensures var s' := Step(s, Report);
      && s' == s.(trips := s'.trips) && s'.trips.Keys == s.trips.Keys
      && forall j :: j in s.trips ==> s'.trips[j] == s.trips[j].(thisTrip := Counted(s.trips[j], s.odometer))
  {
    forall j | j in s.trips ensures Reading(s.trips[j], s.odometer) == Counted(s.trips[j], s.odometer) {
      ReadingIsCounted(s.trips[j], s.odometer);
    }
    assert forall j :: j in s.trips ==> !IsComplete(s.trips[j], s.odometer);
    assert CompletedIds(s) == {};
  }

  /** The trips that are at their goal, and those that are not. */
  ghost function AtGoal(s: State): set<nat> {
    set id | id in s.trips && Need(s.trips[id], s.odometer) <= 0
  }

  ghost function ShortOfGoal(s: State): set<nat> {
    s.trips.Keys - AtGoal(s)
  }

  /** A report brings the trips short of their goal up to date, and drops the others. */
  lemma SettledMeans(s: State)
    requires InOrder(s.trips, s.odometer)
    ensures CompletedIds(s) == AtGoal(s)
    ensures var left := Settled(s);
      && (left.odometer, left.distance, left.interval) == (s.odometer, s.distance, s.interval)
      && left.trips.Keys == ShortOfGoal(s) && Pending(left.trips)
      && (forall j :: j in left.trips ==>
            left.trips[j] == s.trips[j].(thisTrip := Counted(s.trips[j], s.odometer)))
      && (left.distanceDropped <==>
          s.distanceDropped || exists i :: i in AtGoal(s) && s.trips[i].tripDistance == s.distance)
      && (left.intervalDropped <==>
          s.intervalDropped || exists i :: i in AtGoal(s) && s.trips[i].tripTBFInterval == s.interval)
  {
    forall j | j in s.trips ensures Reading(s.trips[j], s.odometer) == Counted(s.trips[j], s.odometer) {
      ReadingIsCounted(s.trips[j], s.odometer);
    }
    UpdatedKeepsGoals(s.trips, CompletedIds(s), s.odometer, s.distance, s.interval);
  }

  /** When the trip that set the distance is complete, the modem starts again with exactly what the
      neediest trip still needs. */
  lemma ReportResets(s: State)
    requires InOrder(s.trips, s.odometer) && ShortOfGoal(s) != {}
    requires exists i :: i in AtGoal(s) && (s.trips[i].tripDistance == s.distance || s.odometer == s.distance)
    ensures var s' := Step(s, Report);
      && s'.odometer == 0 && s'.trips.Keys == ShortOfGoal(s)
      && (forall j :: j in ShortOfGoal(s) ==> s'.distance <= Need(s.trips[j], s.odometer))
      && (exists j :: j in ShortOfGoal(s) && s'.distance == Need(s.trips[j], s.odometer))
  {
    SettledMeans(s);
    var left := Settled(s);
    PendingMinimum(left.trips);
    DropChanges(left);
  }

  // ----- What becomes of one trip --------------------------------------------------------

  /** For one trip: the distance it was started with, the distance travelled since, how much of
      that a restart for a joining trip has forgotten, and how much is not yet reported. */
  datatype Ledger = Ledger(goal: uint32, travelled: nat, forgotten: nat, unreported: nat)

  /** A start that restarts the modem under other trips. */
  predicate RestartingStart(s: State, event: Event) {
    event.Start? && s.trips != map[] && JoinCuts(s, event.minDistance, event.minInterval)
  }

  /** A stop after which the modem is restarted. */
  ghost predicate RestartingStop(s: State, event: Event) {
    event.Stop? && event.sessionId in s.trips && DropCuts(WithoutTrip(s, event.sessionId))
  }

  ghost function LedgerStep(l: Ledger, s: State, event: Event, id: nat): Ledger {
    match event
    case Move(distance) => l.(travelled := l.travelled + distance, unreported := l.unreported + distance)
    case Start(i, minDistance, _) =>
      if i == id then Ledger(minDistance, 0, 0, 0)
      else if RestartingStart(s, event) then l.(forgotten := l.forgotten + l.unreported, unreported := 0)
      else l
    case Report => l.(unreported := 0)
    case Stop(_) => if RestartingStop(s, event) then l.(unreported := 0) else l
  }

  ghost function LedgerAfter(events: seq<Event>, id: nat): Ledger {
    if events == [] then Ledger(0, 0, 0, 0)
    else
      var before := events[..|events| - 1];
      LedgerStep(LedgerAfter(before, id), StateAfter(before), events[|events| - 1], id)
  }

  /** What has been travelled and not forgotten reaches the goal. */
  predicate Due(l: Ledger) {
    l.goal + l.forgotten <= l.travelled
  }

  /** The trips that run: started, and neither stopped nor due at a report since. */
  ghost function Running(events: seq<Event>): set<nat> {
    if events == [] then {}
    else
      var before := events[..|events| - 1];
      match events[|events| - 1]
      case Move(_) => Running(before)
      case Start(id, _, _) => Running(before) + {id}
      case Report => set id | id in Running(before) && !Due(LedgerAfter(before, id))
      case Stop(id) => Running(before) - {id}
  }

  /** The trips reported complete at step `i`. */
  ghost function CompletedAt(events: seq<Event>, i: nat): set<nat>
    requires i < |events|
  {
    if events[i].Report? then CompletedIds(StateAfter(events[..i])) else {}
  }

  /** The counters of a trip tell exactly what was travelled, less what was forgotten. */
  predicate Balanced(t: Trip, odometer: uint32, l: Ledger) {
    && t.tripDistance == l.goal && t.ongoingBatch <= odometer
    && Counted(t, odometer) == l.travelled - l.forgotten
    && t.thisTrip == l.travelled - l.forgotten - l.unreported
  }

  /** A restart for a joining trip forgets exactly what is not yet reported; a restart after a drop
      forgets nothing that a counter can hold. */
  lemma RestartForgets(t: Trip, odometer: uint32, upToDate: bool)
    requires t.ongoingBatch <= odometer
    ensures Counted(Carried(t, odometer, upToDate), 0) ==
            Counted(t, odometer) - if upToDate then Counted(t, odometer) - Reading(t, odometer)
                                   else Counted(t, odometer) - t.thisTrip
    ensures upToDate && Counted(t, odometer) < TWO_32 ==>
              Counted(Carried(t, odometer, upToDate), 0) == Counted(t, odometer)
  {
    ReadingIsCounted(t, odometer);
  }

  lemma ReadjustBalances(s: State, id: nat, l: Ledger)
    requires id in s.trips && Balanced(s.trips[id], s.odometer, l) && l.travelled < TWO_32
    ensures id in Readjusted(s).trips
    ensures Balanced(Readjusted(s).trips[id], Readjusted(s).odometer,
                     if DropCuts(s) then l.(unreported := 0) else l)
  {
    DropCutsIff(s);
    RestartForgets(s.trips[id], s.odometer, true);
  }

  lemma StartBalances(s: State, event: Event, id: nat, l: Ledger)
    requires event.Start? && id in s.trips && Balanced(s.trips[id], s.odometer, l)
    ensures id in Step(s, event).trips || event.sessionId != id
    ensures event.sessionId != id ==>
              var s' := Step(s, event);
              id in s'.trips && Balanced(s'.trips[id], s'.odometer, LedgerStep(l, s, event, id))
  {
    RestartForgets(s.trips[id], s.odometer, false);
    LeftIsAhead(s);
  }

  lemma ReportBalances(s: State, id: nat, l: Ledger)
    requires id in s.trips && Balanced(s.trips[id], s.odometer, l) && l.travelled < TWO_32
    ensures id in CompletedIds(s) <==> Due(l)
    ensures id in Reported(s).trips <==> !Due(l)
    ensures !Due(l) ==> Balanced(Reported(s).trips[id], Reported(s).odometer, l.(unreported := 0))
  {
    ReadingIsCounted(s.trips[id], s.odometer);
    if !Due(l) {
      ReadjustBalances(Settled(s), id, l.(unreported := 0));
    }
  }

  /** One event, for a trip that runs or starts. */
  lemma StepBalances(s: State, event: Event, id: nat, l: Ledger)
    requires id in s.trips ==> Balanced(s.trips[id], s.odometer, l) && l.travelled < TWO_32
    requires event.Move? ==> s.odometer + event.distance < TWO_32
    ensures var s', l' := Step(s, event), LedgerStep(l, s, event, id);
      && (id in s'.trips <==> match event
            case Move(_) => id in s.trips
            case Start(i, _, _) => id in s.trips || i == id
            case Report => id in s.trips && !Due(l)
            case Stop(i) => id in s.trips && i != id)
      && (id in s'.trips ==> Balanced(s'.trips[id], s'.odometer, l'))
  {
    match event
    case Move(_) =>
    case Start(_, _, _) => if id in s.trips { StartBalances(s, event, id, l); }
    case Report => if id in s.trips { ReportBalances(s, id, l); }
    case Stop(i) =>
      if id in s.trips && i in s.trips && i != id {
        OneDropped(s, i);
        ReadjustBalances(WithoutTrip(s, i), id, l);
      }
  }

  function TotalTravel(events: seq<Event>): nat {
    if events == [] then 0
    else TotalTravel(events[..|events| - 1]) + if events[|events| - 1].Move? then events[|events| - 1].distance else 0
  }

  lemma {:induction false} TravelGrows(events: seq<Event>, i: nat)
    requires i <= |events|
    ensures TotalTravel(events[..i]) <= TotalTravel(events)
    decreases |events| - i
  {
    if i < |events| {
      TravelGrows(events, i + 1);
      assert events[..i + 1][..i] == events[..i];
    } else {
      assert events[..i] == events;
    }
  }

  lemma OdometerResets(s: State, event: Event)
    requires event.Move? ==> s.odometer + event.distance < TWO_32
    ensures Step(s, event).odometer <= s.odometer + if event.Move? then event.distance else 0
  {
  }

  /** After any run that the odometer can hold, the trips are those of the events, and each one's
      counters tell exactly what it travelled less what was forgotten. */
  lemma {:induction false} EveryRunBalances(events: seq<Event>, id: nat)
    requires TotalTravel(events) < TWO_32
    ensures var s, l := StateAfter(events), LedgerAfter(events, id);
      && s.odometer <= TotalTravel(events) && l.travelled <= TotalTravel(events)
      && (id in s.trips <==> id in Running(events))
      && (id in s.trips ==> Balanced(s.trips[id], s.odometer, l))
  {
    if events != [] {
      var before, event := events[..|events| - 1], events[|events| - 1];
      EveryRunBalances(before, id);
      StepBalances(StateAfter(before), event, id, LedgerAfter(before, id));
      OdometerResets(StateAfter(before), event);
    }
  }

  /** What is reported, from the events alone: at a report, exactly the running trips that are due. */
  lemma ReportsExactly(events: seq<Event>, i: nat)
    requires TotalTravel(events) < TWO_32 && i < |events|
    ensures CompletedAt(events, i) ==
            if events[i].Report? then set id | id in Running(events[..i]) && Due(LedgerAfter(events[..i], id)) else {}
  {
    TravelGrows(events, i);
    var s := StateAfter(events[..i]);
    forall id | events[i].Report?
      ensures id in CompletedIds(s) <==> id in Running(events[..i]) && Due(LedgerAfter(events[..i], id))
    {
      EveryRunBalances(events[..i], id);
      if id in s.trips { ReportBalances(s, id, LedgerAfter(events[..i], id)); }
    }
  }

  // ----- When a trip is reported on time ---------------------------------------------------

  predicate StartsAfter(events: seq<Event>, j: int, id: nat) {
    exists k :: 0 <= k < |events| && j < k && events[k].Start? && events[k].sessionId == id
  }

  /** Since trip `id` was last started, step `j` restarted the modem for another trip while some
      of its distance was unreported. */
  ghost predicate LossyAt(events: seq<Event>, j: int, id: nat) {
    && 0 <= j < |events| && events[j].Start? && events[j].sessionId != id && !StartsAfter(events, j, id)
    && RestartingStart(StateAfter(events[..j]), events[j]) && LedgerAfter(events[..j], id).unreported > 0
  }

  ghost predicate NoLossyRestart(events: seq<Event>, id: nat) {
    forall j :: !LossyAt(events, j, id)
  }

  lemma LossySnoc(before: seq<Event>, event: Event, id: nat, j: int)
    requires 0 <= j < |before|
    ensures LossyAt(before + [event], j, id) <==> LossyAt(before, j, id) && !(event.Start? && event.sessionId == id)
  {
    var events := before + [event];
    assert events[..j] == before[..j] && events[j] == before[j];
    if StartsAfter(before, j, id) {
      var k :| 0 <= k < |before| && j < k && before[k].Start? && before[k].sessionId == id;
      assert events[k] == before[k];
    }
    if event.Start? && event.sessionId == id {
      assert events[|before|] == event;
    }
  }

  /** Distance of a trip is forgotten exactly by restarts for other trips that catch it unreported. */
  lemma {:induction false} ForgottenIffLossy(events: seq<Event>, id: nat)
    ensures LedgerAfter(events, id).forgotten == 0 <==> NoLossyRestart(events, id)
  {
    if events != [] {
      var n := |events| - 1;
      var before, event := events[..n], events[n];
      ForgottenIffLossy(before, id);
      assert before + [event] == events;
      forall j | 0 <= j < n
        ensures LossyAt(events, j, id) <==> LossyAt(before, j, id) && !(event.Start? && event.sessionId == id)
      {
        LossySnoc(before, event, id, j);
      }
      assert !StartsAfter(events, n, id);
      assert forall j :: LossyAt(events, j, id) ==> 0 <= j <= n;
      assert forall j :: LossyAt(before, j, id) ==> 0 <= j < n;
      if RestartingStart(StateAfter(before), event) && event.sessionId != id && LedgerAfter(before, id).unreported > 0 {
        assert LossyAt(events, n, id);
      }
    }
  }

  /** The trip is reported at the next report, if it is then at its goal after `distance` more. */
  ghost predicate ReportedAfter(events: seq<Event>, id: nat, distance: uint32) {
    id in CompletedAt(events + [Move(distance), Report], |events| + 1)
  }

  lemma MoveAndReport(events: seq<Event>, id: nat, distance: uint32)
    requires TotalTravel(events) + distance < TWO_32 && id in Running(events)
    ensures var l := LedgerAfter(events, id);
            ReportedAfter(events, id, distance) <==> l.goal + l.forgotten <= l.travelled + distance
  {
    var moved := events + [Move(distance)];
    var all := events + [Move(distance), Report];
    assert moved[..|events|] == events && all[..|events| + 1] == moved;
    assert all[..|all| - 1] == moved;
    ReportsExactly(all, |events| + 1);
  }

  /** A running trip short of its goal is reported at the first report at which the distance
      travelled reaches the goal, wherever that report falls, exactly if no restart for another
      trip has caught it with unreported distance since it joined. */
  lemma OnTimeIff(events: seq<Event>, id: nat)
    requires id in Running(events) && LedgerAfter(events, id).travelled <= LedgerAfter(events, id).goal
    requires TotalTravel(events) + LedgerAfter(events, id).goal - LedgerAfter(events, id).travelled < TWO_32
    ensures (forall distance: uint32 ::
               TotalTravel(events) + distance < TWO_32
               && LedgerAfter(events, id).goal <= LedgerAfter(events, id).travelled + distance
               ==> ReportedAfter(events, id, distance))
            <==> NoLossyRestart(events, id)
  {
    var l := LedgerAfter(events, id);
    ForgottenIffLossy(events, id);
    forall distance: uint32 | TotalTravel(events) + distance < TWO_32
      ensures ReportedAfter(events, id, distance) <==> l.goal + l.forgotten <= l.travelled + distance
    {
      MoveAndReport(events, id, distance);
    }
    var exactly: uint32 := l.goal - l.travelled;
    assert ReportedAfter(events, id, exactly) <==> l.forgotten == 0;
  }

  lemma AfterOneMore(before: seq<Event>, event: Event, id: nat)
    ensures StateAfter(before + [event]) == Step(StateAfter(before), event)
    ensures LedgerAfter(before + [event], id) == LedgerStep(LedgerAfter(before, id), StateAfter(before), event, id)
    ensures TotalTravel(before + [event]) == TotalTravel(before) + if event.Move? then event.distance else 0
  {
    assert (before + [event])[..|before|] == before;
  }

  /** The first trip starts the modem. */
  lemma AfterFirst(id: nat, minDistance: uint32, minInterval: uint32)
    ensures StateAfter([Start(id, minDistance, minInterval)]) ==
            State(map[id := Trip(0, 0, 0, minDistance, minInterval)], 0, minDistance, minInterval, false, false)
    ensures LedgerAfter([Start(id, minDistance, minInterval)], id) == Ledger(minDistance, 0, 0, 0)
  {
    AfterOneMore([], Start(id, minDistance, minInterval), id);
    assert [] + [Start(id, minDistance, minInterval)] == [Start(id, minDistance, minInterval)];
  }

  /** Such a restart happens: after this, trip 0 has travelled its 100, and 40 of it is forgotten. */
  lemma ForgottenByJoin()
    ensures var events := [Start(0, 100, 10), Move(40), Start(1, 10, 10), Move(60)];
      && StateAfter(events).trips == map[0 := Trip(0, 0, 0, 100, 10), 1 := Trip(0, 0, 0, 10, 10)]
      && StateAfter(events).odometer == 60 && LedgerAfter(events, 0) == Ledger(100, 100, 40, 60)
  {
    var e1, e2 := [Start(0, 100, 10)], [Start(0, 100, 10), Move(40)];
    var e3 := [Start(0, 100, 10), Move(40), Start(1, 10, 10)];
    var events := [Start(0, 100, 10), Move(40), Start(1, 10, 10), Move(60)];
    AfterFirst(0, 100, 10);
    AfterOneMore(e1, Move(40), 0);
    assert e1 + [Move(40)] == e2;
    AfterOneMore(e2, Start(1, 10, 10), 0);
    assert 0 in StateAfter(e2).trips && StateAfter(e2).odometer == 40 && LedgerAfter(e2, 0) == Ledger(100, 40, 0, 40);
    assert RestartingStart(StateAfter(e2), Start(1, 10, 10));
    assert e2 + [Start(1, 10, 10)] == e3;
    assert CarriedOver(map[0 := Trip(0, 0, 0, 100, 10)][1 := Trip(40, 0, 0, 10, 10)], 40, false) ==
           map[0 := Trip(0, 0, 0, 100, 10), 1 := Trip(0, 0, 0, 10, 10)];
    AfterOneMore(e3, Move(60), 0);
    assert e3 + [Move(60)] == events;
  }

  /** So trip 0 is not reported although it is at its goal. */
  lemma LateTrip()
    ensures var events := [Start(0, 100, 10), Move(40), Start(1, 10, 10), Move(60), Report];
      && LedgerAfter(events[..4], 0) == Ledger(100, 100, 40, 60)
      && 0 in StateAfter(events[..4]).trips && 0 !in CompletedAt(events, 4)
  {
    ForgottenByJoin();
    var events := [Start(0, 100, 10), Move(40), Start(1, 10, 10), Move(60), Report];
    assert events[..4] == [Start(0, 100, 10), Move(40), Start(1, 10, 10), Move(60)];
    var s := StateAfter(events[..4]);
    assert Reading(s.trips[0], 60) == 60;
  }

  // ----- What the modem is set for -----------------------------------------------------------

  /** If every trip asks for a positive interval, the modem reports often enough for each. */
  ghost predicate IntervalServes(s: State) {
    (forall id :: id in s.trips ==> s.trips[id].tripTBFInterval > 0) ==>
      forall id :: id in s.trips ==> s.interval <= s.trips[id].tripTBFInterval
  }

  /** What a trip still needs to be counted complete. */
  function Need(t: Trip, odometer: int): int {
    t.tripDistance - Counted(t, odometer)
  }

  /** What the modem still has to go does not exceed what any trip needs. */
  ghost predicate DistanceServes(s: State) {
    forall id :: id in s.trips ==> s.distance - s.odometer <= Need(s.trips[id], s.odometer)
  }

  /** The counters are not ahead of the odometer, and hold what they count. */
  predicate InOrder(trips: Trips, odometer: uint32) {
    forall id :: id in trips ==>
      trips[id].ongoingBatch <= odometer && trips[id].thisTrip <= Counted(trips[id], odometer) < TWO_32
  }

  lemma KeptIsCounted(trips: Trips, odometer: uint32, id: nat)
    requires InOrder(trips, odometer) && id in trips
    ensures Kept(trips[id], odometer, true) == Reading(trips[id], odometer) == Counted(trips[id], odometer)
  {
    ReadingIsCounted(trips[id], odometer);
  }

  /** The distance given to the modem fits what each trip is left with after the restart. */
  predicate Fits(distance: uint32, trips: Trips, odometer: uint32, upToDate: bool) {
    forall id :: id in trips ==> distance + Kept(trips[id], odometer, upToDate) <= trips[id].tripDistance
  }

  lemma RestartServesIff(s: State, distance: uint32, interval: uint32, upToDate: bool)
    ensures DistanceServes(Restarted(s, distance, interval, upToDate)) <==>
              Fits(distance, s.trips, s.odometer, upToDate)
  {
    var s' := Restarted(s, distance, interval, upToDate);
    forall id | id in s.trips
      ensures s'.distance - s'.odometer <= Need(s'.trips[id], 0) <==>
              distance + Kept(s.trips[id], s.odometer, upToDate) <= s.trips[id].tripDistance
    {
    }
  }

  /** A joining trip: while the odometer has not passed the ongoing distance, the new one fits;
      otherwise it must be checked against the trips there are. */
  lemma JoinServesIff(s: State, id: nat, minDistance: uint32, minInterval: uint32)
    requires DistanceServes(s) && InOrder(s.trips, s.odometer) && id !in s.trips
    ensures DistanceServes(Joined(s, id, minDistance, minInterval)) <==>
              (JoinCuts(s, minDistance, minInterval) ==>
                 Fits(Min(minDistance, Left(s)), s.trips, s.odometer, false))
    ensures s.odometer <= s.distance ==> DistanceServes(Joined(s, id, minDistance, minInterval))
  {
    var joined := s.(trips := s.trips[id := Trip(s.odometer, 0, 0, minDistance, minInterval)]);
    var distance := Min(minDistance, Left(s));
    LeftIsAhead(s);
    RestartServesIff(joined, distance, Min(s.interval, minInterval), false);
    assert Fits(distance, joined.trips, s.odometer, false) <==> Fits(distance, s.trips, s.odometer, false) by {
      assert forall j :: j in s.trips ==> j in joined.trips && joined.trips[j] == s.trips[j];
      assert joined.trips[id].thisTrip == 0;
    }
    if s.odometer <= s.distance {
      JoinFits(s, distance);
    }
  }

  lemma JoinFits(s: State, distance: uint32)
    requires DistanceServes(s) && InOrder(s.trips, s.odometer) && s.odometer <= s.distance && distance <= Left(s)
    ensures Fits(distance, s.trips, s.odometer, false)
  {
    assert Left(s) == s.distance - s.odometer;
    forall j | j in s.trips ensures distance + s.trips[j].thisTrip <= s.trips[j].tripDistance {
      assert s.distance - s.odometer <= Need(s.trips[j], s.odometer);
    }
  }

  lemma DropServesIfFits(s: State)
    requires DistanceServes(s)
    ensures DistanceServes(Readjusted(s)) <==> (DropRestarts(s) ==> Fits(DropDistance(s), s.trips, s.odometer, true))
  {
    if DropRestarts(s) {
      RestartServesIff(s, DropDistance(s), if NewInterval(s) then SmallestInterval(s.trips) else s.interval, true);
    }
  }

  /** No trip has been reported at its goal or beyond. */
  predicate Pending(trips: Trips) {
    forall id :: id in trips ==> trips[id].thisTrip < trips[id].tripDistance
  }

  /** A trip that needs least has nothing unreported. */
  predicate NeediestReported(trips: Trips, odometer: uint32) {
    exists j :: j in trips && trips[j].thisTrip == Counted(trips[j], odometer)
                && forall i :: i in trips ==> Need(trips[j], odometer) <= Need(trips[i], odometer)
  }

  /** The trip with the largest id was last reported exactly at its goal. */
  ghost predicate LastAtGoal(trips: Trips)
    requires trips != map[]
  {
    var k := LargestKey(trips.Keys);
    trips[k].thisTrip == trips[k].tripDistance
  }

  /** The smallest remaining distance as last reported fits what the trips need by now: a trip that
      needs least has nothing unreported; or, if a trip is overdue, no trip is beyond its goal and
      the walk ends at zero. */
  ghost predicate MinimumStillFits(trips: Trips, odometer: uint32)
    requires trips != map[]
  {
    if Pending(trips) then NeediestReported(trips, odometer)
    else LastAtGoal(trips) && forall id :: id in trips ==> 0 <= Need(trips[id], odometer)
  }

  lemma PendingMinimum(trips: Trips)
    requires trips != map[] && Pending(trips)
    ensures forall id :: id in trips ==> SmallestRemaining(trips) <= trips[id].tripDistance - trips[id].thisTrip
    ensures exists id :: id in trips && SmallestRemaining(trips) == trips[id].tripDistance - trips[id].thisTrip
  {
    forall id | id in trips ensures Remaining(trips[id]) == trips[id].tripDistance - trips[id].thisTrip > 0 {
      RemainingPending(trips[id]);
    }
    RemainingIsMinimum(trips);
    assert forall id :: id in trips ==> SmallestRemaining(trips) <= Remaining(trips[id]);
  }

  lemma RemainingPending(t: Trip)
    requires t.thisTrip < t.tripDistance
    ensures Remaining(t) == t.tripDistance - t.thisTrip
  {
  }

  lemma PendingMinimumIff(trips: Trips, odometer: uint32, smallest: nat)
    requires InOrder(trips, odometer)
    requires forall id :: id in trips ==> smallest <= trips[id].tripDistance - trips[id].thisTrip
    requires exists id :: id in trips && smallest == trips[id].tripDistance - trips[id].thisTrip
    ensures (forall id :: id in trips ==> smallest <= Need(trips[id], odometer)) <==> NeediestReported(trips, odometer)
  {
    if forall id :: id in trips ==> smallest <= Need(trips[id], odometer) {
      var j :| j in trips && smallest == trips[j].tripDistance - trips[j].thisTrip;
      assert smallest <= Need(trips[j], odometer);
      assert trips[j].thisTrip == Counted(trips[j], odometer);
    }
  }

  lemma WalkEndsAtZeroIff(trips: Trips)
    requires trips != map[]
    ensures SmallestRemaining(trips) == 0 <==> LastAtGoal(trips)
  {
    var values := Remainings(trips);
    assert values.Keys == trips.Keys;
    UnsetIffLastZero(values);
    RemainingZeroIff(trips[LargestKey(trips.Keys)]);
  }

  lemma UnsetIffLastZero(values: map<nat, nat>)
    requires values != map[]
    ensures Smallest(values) == 0 <==> values[LargestKey(values.Keys)] == 0
  {
  }

  lemma RemainingZeroIff(t: Trip)
    ensures Remaining(t) == 0 <==> t.thisTrip == t.tripDistance
  {
  }

  lemma OverdueMinimumIff(trips: Trips, odometer: uint32, smallest: nat)
    requires trips != map[] && InOrder(trips, odometer) && !Pending(trips) && (smallest == 0 <==> LastAtGoal(trips))
    ensures (forall id :: id in trips ==> smallest <= Need(trips[id], odometer)) <==>
              LastAtGoal(trips) && forall id :: id in trips ==> 0 <= Need(trips[id], odometer)
  {
    var i :| i in trips && trips[i].thisTrip >= trips[i].tripDistance;
    assert Need(trips[i], odometer) <= 0;
  }

  lemma MinimumFitsIff(trips: Trips, odometer: uint32)
    requires trips != map[] && InOrder(trips, odometer)
    ensures Fits(SmallestRemaining(trips), trips, odometer, true) <==> MinimumStillFits(trips, odometer)
  {
    var smallest := SmallestRemaining(trips);
    FitsIsNeed(smallest, trips, odometer);
    if Pending(trips) {
      PendingMinimum(trips);
      PendingMinimumIff(trips, odometer, smallest);
    } else {
      WalkEndsAtZeroIff(trips);
      OverdueMinimumIff(trips, odometer, smallest);
    }
  }

  lemma FitsIsNeed(distance: uint32, trips: Trips, odometer: uint32)
    requires InOrder(trips, odometer)
    ensures Fits(distance, trips, odometer, true) <==>
              forall id :: id in trips ==> distance <= Need(trips[id], odometer)
  {
    forall id | id in trips
      ensures distance + Kept(trips[id], odometer, true) <= trips[id].tripDistance <==>
                distance <= Need(trips[id], odometer)
    {
      KeptIsCounted(trips, odometer, id);
    }
  }

  /** Whether a drop leaves the modem set for no more than the trips need: told, where the distance
      is replaced, from what was reported and what is needed, and where only the interval is, from
      the ongoing distance. */
  ghost predicate DropKeeps(s: State) {
    if s.trips == map[] then true
    else if DistanceGoes(s) then MinimumStillFits(s.trips, s.odometer)
    else IntervalGoes(s) ==> forall id :: id in s.trips ==> s.distance <= Need(s.trips[id], s.odometer)
  }

  lemma DropServesIff(s: State)
    requires DistanceServes(s) && InOrder(s.trips, s.odometer)
    ensures DistanceServes(Readjusted(s)) <==> DropKeeps(s)
  {
    DropServesIfFits(s);
    DropCutsIff(s);
    if s.trips != map[] {
      MinimumFitsIff(s.trips, s.odometer);
      FitsIsNeed(s.distance, s.trips, s.odometer);
    }
  }

  /** Every counter is up to date, and every trip has distance left. */
  predicate UpToDate(trips: Trips, odometer: uint32) {
    forall id :: id in trips ==>
      trips[id].thisTrip == Reading(trips[id], odometer) && trips[id].thisTrip < trips[id].tripDistance
  }

  lemma SmallestUpToDate(trips: Trips, odometer: uint32)
    requires UpToDate(trips, odometer) && trips != map[]
    ensures SmallestRemaining(trips) > 0 && Fits(SmallestRemaining(trips), trips, odometer, true)
  {
    forall id | id in trips
      ensures Remaining(trips[id]) == trips[id].tripDistance - Kept(trips[id], odometer, true) > 0
    {
    }
    RemainingIsMinimum(trips);
  }

  /** With counters up to date, and distance left on each, a replaced distance always fits. */
  lemma UpToDateFits(s: State)
    requires s.trips != map[] && NewDistance(s) && UpToDate(s.trips, s.odometer)
    ensures Fits(DropDistance(s), s.trips, s.odometer, true)
  {
    SmallestUpToDate(s.trips, s.odometer);
  }

  /** A report that drops trips finds the odometer at or beyond the ongoing distance. */
  lemma ReportServes(s: State)
    requires DistanceServes(s) && InOrder(s.trips, s.odometer)
    ensures DistanceServes(Reported(s))
  {
    var settled := Settled(s);
    forall id | id in settled.trips
      ensures id in s.trips && id !in CompletedIds(s)
      ensures Reading(settled.trips[id], s.odometer) == Reading(s.trips[id], s.odometer)
      ensures settled.distance - settled.odometer <= Need(settled.trips[id], s.odometer)
      ensures settled.trips[id].thisTrip == Reading(settled.trips[id], s.odometer) < settled.trips[id].tripDistance
    {
      assert s.distance - s.odometer <= Need(s.trips[id], s.odometer);
    }
    if CompletedIds(s) != {} && settled.trips != map[] {
      DropServesIfFits(settled);
      if NewDistance(settled) {
        UpToDateFits(settled);
      } else {
        PastDistance(s);
        OldDistanceFits(settled);
      }
    }
  }

  /** If the ongoing distance stays although trips were dropped, the others need at least all of it. */
  lemma OldDistanceFits(s: State)
    requires s.trips != map[] && !NewDistance(s) && UpToDate(s.trips, s.odometer) && s.distance <= s.odometer
    ensures Fits(s.distance, s.trips, s.odometer, true)
  {
    SmallestUpToDate(s.trips, s.odometer);
    WholeDistanceFits(s, SmallestRemaining(s.trips));
  }

  lemma PastDistance(s: State)
    requires DistanceServes(s) && InOrder(s.trips, s.odometer) && CompletedIds(s) != {}
    ensures s.distance <= s.odometer
  {
    var c :| c in CompletedIds(s);
    ReadingIsCounted(s.trips[c], s.odometer);
  }

  lemma WholeDistanceFits(s: State, smallest: uint32)
    requires s.distance <= s.odometer && smallest > 0 && !ReplacesDistance(s, smallest)
    requires Fits(smallest, s.trips, s.odometer, true)
    ensures Fits(s.distance, s.trips, s.odometer, true)
  {
    assert s.distance < s.odometer && Left(s) == s.distance - s.odometer + TWO_32;
    assert s.distance <= smallest;
  }

  /** Whether an event leaves the modem set for no more than any trip needs, if it was before. */
  ghost predicate KeepsServing(s: State, event: Event) {
    match event
    case Start(_, minDistance, _) =>
      RestartingStart(s, event) && s.odometer > s.distance ==>
        Fits(Min(minDistance, Left(s)), s.trips, s.odometer, false)
    case Stop(id) => id in s.trips ==> DropKeeps(WithoutTrip(s, id))
    case _ => true
  }

  lemma StepServesIff(s: State, event: Event)
    requires DistanceServes(s) && InOrder(s.trips, s.odometer)
    requires event.Move? ==> s.odometer + event.distance < TWO_32
    requires event.Start? ==> event.sessionId !in s.trips
    ensures DistanceServes(Step(s, event)) <==> KeepsServing(s, event)
  {
    match event
    case Move(_) =>
      var moved := Step(s, event).odometer;
      forall id | id in s.trips ensures s.distance - moved <= Need(s.trips[id], moved) {
        assert s.distance - s.odometer <= Need(s.trips[id], s.odometer);
      }
    case Start(id, minDistance, minInterval) =>
      if s.trips != map[] { JoinServesIff(s, id, minDistance, minInterval); }
    case Report => ReportServes(s);
    case Stop(id) =>
      if id in s.trips {
        var left := WithoutTrip(s, id);
        OneDropped(s, id);
        forall j | j in left.trips ensures left.distance - left.odometer <= Need(left.trips[j], left.odometer) {
          assert s.distance - s.odometer <= Need(s.trips[j], s.odometer);
        }
        DropServesIff(left);
      }
  }

  /** Session ids are generated afresh for every start. */
  ghost predicate FreshIds(events: seq<Event>) {
    forall i :: 0 <= i < |events| && events[i].Start? ==> events[i].sessionId !in StateAfter(events[..i]).trips
  }

  lemma OrderInRuns(events: seq<Event>)
    requires TotalTravel(events) < TWO_32
    ensures InOrder(StateAfter(events).trips, StateAfter(events).odometer)
    ensures StateAfter(events).odometer <= TotalTravel(events)
  {
    EveryRunBalances(events, 0);
    forall id | id in StateAfter(events).trips
      ensures Balanced(StateAfter(events).trips[id], StateAfter(events).odometer, LedgerAfter(events, id))
      ensures LedgerAfter(events, id).travelled <= TotalTravel(events)
    {
      EveryRunBalances(events, id);
    }
    forall id ensures LedgerAfter(events, id).unreported >= 0 { }
  }

  lemma NextServesIff(events: seq<Event>, i: nat)
    requires TotalTravel(events) < TWO_32 && FreshIds(events) && i < |events|
    requires DistanceServes(StateAfter(events[..i]))
    ensures DistanceServes(StateAfter(events[..i + 1])) <==> KeepsServing(StateAfter(events[..i]), events[i])
  {
    TravelGrows(events, i + 1);
    assert events[..i + 1][..i] == events[..i];
    OrderInRuns(events[..i]);
    StepServesIff(StateAfter(events[..i]), events[i]);
  }

  lemma {:induction false} ServesUpTo(events: seq<Event>, n: nat)
    requires TotalTravel(events) < TWO_32 && FreshIds(events) && n <= |events|
    requires forall i :: 0 <= i < n ==> KeepsServing(StateAfter(events[..i]), events[i])
    ensures DistanceServes(StateAfter(events[..n]))
  {
    if n > 0 {
      ServesUpTo(events, n - 1);
      assert KeepsServing(StateAfter(events[..n - 1]), events[n - 1]);
      NextServesIff(events, n - 1);
    } else {
      assert events[..0] == [];
    }
  }

  ghost predicate ServesThroughout(events: seq<Event>) {
    forall n :: 0 <= n <= |events| ==> DistanceServes(StateAfter(events[..n]))
  }

  /** The modem is never set for more than any running trip needs exactly if every restart for a
      joining trip past the ongoing distance, and every restart after a stop, finds the counters so
      that it fits. Travel and reports never break it. */
  lemma ServesThroughoutIff(events: seq<Event>)
    requires TotalTravel(events) < TWO_32 && FreshIds(events)
    ensures ServesThroughout(events) <==>
              forall i :: 0 <= i < |events| ==> KeepsServing(StateAfter(events[..i]), events[i])
  {
    if forall i :: 0 <= i < |events| ==> KeepsServing(StateAfter(events[..i]), events[i]) {
      forall n | 0 <= n <= |events| ensures DistanceServes(StateAfter(events[..n])) { ServesUpTo(events, n); }
    }
    if ServesThroughout(events) {
      forall i | 0 <= i < |events| ensures KeepsServing(StateAfter(events[..i]), events[i]) {
        NextServesIff(events, i);
      }
    }
  }

  lemma ReadjustServesInterval(s: State)
    ensures IntervalServes(Readjusted(s))
  {
    if s.trips != map[] && forall id :: id in s.trips ==> s.trips[id].tripTBFInterval > 0 {
      IntervalIsMinimum(s.trips);
    }
    var s' := Readjusted(s);
    assert forall id :: id in s.trips ==>
      id in s'.trips && s'.trips[id].tripTBFInterval == s.trips[id].tripTBFInterval;
  }

  lemma StepServesInterval(s: State, event: Event)
    requires IntervalServes(s) && (event.Start? ==> event.sessionId !in s.trips)
    ensures IntervalServes(Step(s, event))
  {
    var s' := Step(s, event);
    match event
    case Move(_) =>
    case Start(_, _, _) =>
      assert forall id :: id in s.trips ==>
        id in s'.trips && s'.trips[id].tripTBFInterval == s.trips[id].tripTBFInterval;
    case Report =>
      if CompletedIds(s) != {} {
        ReadjustServesInterval(Settled(s));
      } else {
        assert forall id :: id in s.trips ==> id !in CompletedIds(s);
        assert forall id :: id in s.trips ==>
          id in s'.trips && s'.trips[id].tripTBFInterval == s.trips[id].tripTBFInterval;
      }
    case Stop(id) =>
      if id in s.trips { ReadjustServesInterval(Dropped(s, {id})); }
  }

  /** In every run the modem reports often enough for every trip, if all ask for a positive interval. */
  lemma {:induction false} IntervalServesInRuns(events: seq<Event>)
    requires FreshIds(events)
    ensures IntervalServes(StateAfter(events))
  {
    if events != [] {
      var n := |events| - 1;
      assert forall i :: 0 <= i <= n ==> events[..n][..i] == events[..i];
      IntervalServesInRuns(events[..n]);
      StepServesInterval(StateAfter(events[..n]), events[n]);
    }
  }

  // ----- Three ways to set the modem for too much ----------------------------------------------

  lemma AfterStart(before: seq<Event>, id: nat, minDistance: uint32, minInterval: uint32)
    ensures StateAfter(before + [Start(id, minDistance, minInterval)]) ==
            Started(StateAfter(before), id, minDistance, minInterval)
  {
    AfterOneMore(before, Start(id, minDistance, minInterval), id);
  }

  lemma AfterMove(before: seq<Event>, distance: uint32)
    ensures StateAfter(before + [Move(distance)]) ==
            StateAfter(before).(odometer := Add32(StateAfter(before).odometer, distance))
  {
    AfterOneMore(before, Move(distance), 0);
  }

  /** Two trips, the second joining at once without or with a restart, and some travel. */
  lemma AfterTwo(goal: uint32, interval: uint32, goal': uint32, interval': uint32, distance: uint32)
    requires goal <= goal'
    ensures var s := StateAfter([Start(0, goal, interval), Start(1, goal', interval'), Move(distance)]);
      && s.trips == map[0 := Trip(0, 0, 0, goal, interval)][1 := Trip(0, 0, 0, goal', interval')]
      && s.odometer == distance && s.distance == goal && s.interval == Min(interval, interval')
      && !s.distanceDropped && !s.intervalDropped
  {
    var e1, e2 := [Start(0, goal, interval)], [Start(0, goal, interval), Start(1, goal', interval')];
    AfterFirst(0, goal, interval);
    AfterStart(e1, 1, goal', interval');
    assert e1 + [Start(1, goal', interval')] == e2;
    assert 0 in StateAfter(e1).trips;
    var trips := map[0 := Trip(0, 0, 0, goal, interval)][1 := Trip(0, 0, 0, goal', interval')];
    assert CarriedOver(trips, 0, false) == trips;
    AfterMove(e2, distance);
    assert e2 + [Move(distance)] == [Start(0, goal, interval), Start(1, goal', interval'), Move(distance)];
  }

  lemma SmallestOfOne(trips: Trips, id: nat, t: Trip)
    requires trips == map[id := t]
    ensures SmallestRemaining(trips) == Remaining(t) && SmallestInterval(trips) == t.tripTBFInterval
  {
    SeeOneMore(map[], id, t);
    assert map[][id := t] == trips;
    assert Remainings(map[]) == map[] && Intervals(map[]) == map[];
  }

  /** Of two trips, the one that set the distance is stopped. */
  ghost predicate DistanceSetter(s: State, id: nat, other: nat) {
    && id != other && (forall i :: i in s.trips <==> i == id || i == other)
    && s.trips[id].tripDistance == s.distance && s.trips[other].thisTrip < s.trips[other].tripDistance
  }

  /** The modem is then set for what the other was last reported to have left, which it needs exactly
      if nothing is unreported. */
  lemma StopOfDistance(s: State, id: nat, other: nat)
    requires DistanceSetter(s, id, other)
    ensures Stopped(s, id).distance == s.trips[other].tripDistance - s.trips[other].thisTrip
    ensures Stopped(s, id).trips == map[other := Carried(s.trips[other], s.odometer, true)]
    ensures KeepsServing(s, Stop(id)) <==> s.trips[other].thisTrip == Counted(s.trips[other], s.odometer)
  {
    LeftByDistanceStop(s, id, other);
    OneDropped(s, id);
    DistanceStopAlone(WithoutTrip(s, id), other, s.trips[other]);
  }

  lemma LeftByDistanceStop(s: State, id: nat, other: nat)
    requires DistanceSetter(s, id, other)
    ensures var left := WithoutTrip(s, id);
      left.trips == map[other := s.trips[other]] && left.odometer == s.odometer && left.distanceDropped
  {
    assert s.trips - {id} == map[other := s.trips[other]];
    assert id in {id};
  }

  lemma DistanceStopAlone(left: State, id: nat, t: Trip)
    requires left.trips == map[id := t] && left.distanceDropped && t.thisTrip < t.tripDistance
    ensures Readjusted(left).distance == t.tripDistance - t.thisTrip
    ensures Readjusted(left).trips == map[id := Carried(t, left.odometer, true)]
    ensures DropKeeps(left) <==> t.thisTrip == Counted(t, left.odometer)
  {
    SmallestOfOne(left.trips, id, t);
    RemainingPending(t);
    DropCutsIff(left);
    assert id in left.trips && NewDistance(left);
    StopAlone(left, id, t);
    OneIsNeediest(left.trips, id, t, left.odometer);
  }

  lemma OneIsNeediest(trips: Trips, id: nat, t: Trip, odometer: uint32)
    requires trips == map[id := t] && trips != map[] && t.thisTrip < t.tripDistance
    ensures MinimumStillFits(trips, odometer) <==> t.thisTrip == Counted(t, odometer)
  {
    assert id in trips;
  }

  /** A stop works with what was last reported: trip 1 needs 150 and the modem is set for 200. */
  lemma StaleStop()
    ensures var s := StateAfter([Start(0, 100, 10), Start(1, 200, 10), Move(50)]);
      && DistanceServes(s) && 0 in s.trips
      && Stopped(s, 0).distance == 200 && Stopped(s, 0).trips == map[1 := Trip(0, 50, 50, 200, 10)]
      && !KeepsServing(s, Stop(0))
  {
    AfterTwo(100, 10, 200, 10, 50);
    var s := StateAfter([Start(0, 100, 10), Start(1, 200, 10), Move(50)]);
    ReadingIsCounted(s.trips[1], 50);
    StopOfDistance(s, 0, 1);
  }

  /** A stop that leaves one trip and restarts the modem. */
  lemma StopAlone(left: State, id: nat, t: Trip)
    requires left.trips == map[id := t] && DropRestarts(left)
    ensures Readjusted(left).trips == map[id := Carried(t, left.odometer, true)]
    ensures Readjusted(left).distance == DropDistance(left)
  {
    assert id in left.trips;
  }

  lemma ReportAfterTwo()
    ensures BeforeIntervalStop(StateAfter([Start(0, 100, 10), Start(1, 300, 5), Move(50), Report]))
  {
    var before := [Start(0, 100, 10), Start(1, 300, 5), Move(50)];
    AfterTwo(100, 10, 300, 5, 50);
    AfterQuietReport(before);
    assert before + [Report] == [Start(0, 100, 10), Start(1, 300, 5), Move(50), Report];
  }

  /** A restart for the interval alone gives the modem the whole ongoing distance again: trip 0
      needs 50 and the modem is set for 100, though the counters are up to date. */
  lemma IntervalStop()
    ensures var s := StateAfter([Start(0, 100, 10), Start(1, 300, 5), Move(50), Report]);
      && DistanceServes(s) && UpToDate(s.trips, s.odometer) && 1 in s.trips
      && Stopped(s, 1).distance == 100 && Stopped(s, 1).trips == map[0 := Trip(0, 50, 50, 100, 10)]
      && !KeepsServing(s, Stop(1))
  {
    ReportAfterTwo();
    var s := StateAfter([Start(0, 100, 10), Start(1, 300, 5), Move(50), Report]);
    UpToDateBefore(s);
    assert Remaining(s.trips[0]) == 50 && Left(s) == 50;
    StopOfInterval(s, 1, 0);
    ReadingIsCounted(s.trips[0], 50);
  }

  /** The state before that stop. */
  ghost predicate BeforeIntervalStop(s: State) {
    && (forall id :: id in s.trips <==> id == 0 || id == 1)
    && s.trips[0] == Trip(0, 50, 0, 100, 10) && s.trips[1] == Trip(0, 50, 0, 300, 5)
    && s.odometer == 50 && s.distance == 100 && s.interval == 5 && !s.distanceDropped && !s.intervalDropped
  }

  lemma UpToDateBefore(s: State)
    requires BeforeIntervalStop(s)
    ensures DistanceServes(s) && UpToDate(s.trips, s.odometer)
  {
    forall id | id in s.trips
      ensures s.distance - s.odometer <= Need(s.trips[id], s.odometer)
      ensures s.trips[id].thisTrip == Reading(s.trips[id], s.odometer) < s.trips[id].tripDistance
    {
      ReadingIsCounted(s.trips[id], 50);
      assert id == 0 || id == 1;
    }
  }

  /** A stop that leaves one trip, needing the ongoing distance but another interval. */
  lemma IntervalOnlyStop(left: State, id: nat, t: Trip)
    requires left.trips == map[id := t] && !left.distanceDropped && left.intervalDropped
    requires 0 < Left(left) <= Remaining(t) && t.tripTBFInterval != left.interval
    ensures Readjusted(left).distance == left.distance
    ensures Readjusted(left).trips == map[id := Carried(t, left.odometer, true)]
    ensures DropKeeps(left) <==> left.distance <= Need(t, left.odometer)
  {
    SmallestOfOne(left.trips, id, t);
    DropCutsIff(left);
    assert id in left.trips && !NewDistance(left) && NewInterval(left);
    StopAlone(left, id, t);
  }

  /** Of two trips, the one that set the interval and not the distance is stopped. */
  ghost predicate IntervalOnly(s: State, id: nat, other: nat) {
    && id != other && (forall i :: i in s.trips <==> i == id || i == other) && !s.distanceDropped
    && s.trips[id].tripDistance != s.distance && s.trips[id].tripTBFInterval == s.interval
    && s.trips[other].tripTBFInterval != s.interval && 0 < Left(s) <= Remaining(s.trips[other])
  }

  lemma LeftByIntervalStop(s: State, id: nat, other: nat)
    requires IntervalOnly(s, id, other)
    ensures var left := WithoutTrip(s, id);
      && left.trips == map[other := s.trips[other]] && left.odometer == s.odometer && left.distance == s.distance
      && left.interval == s.interval && !left.distanceDropped && left.intervalDropped
  {
    assert s.trips - {id} == map[other := s.trips[other]];
    assert id in {id};
  }

  /** The modem is then set for the whole ongoing distance again. */
  lemma StopOfInterval(s: State, id: nat, other: nat)
    requires IntervalOnly(s, id, other)
    ensures Stopped(s, id).distance == s.distance
    ensures Stopped(s, id).trips == map[other := Carried(s.trips[other], s.odometer, true)]
    ensures KeepsServing(s, Stop(id)) <==> s.distance <= Need(s.trips[other], s.odometer)
  {
    LeftByIntervalStop(s, id, other);
    OneDropped(s, id);
    IntervalOnlyStop(WithoutTrip(s, id), other, s.trips[other]);
  }

  lemma AfterQuietReport(before: seq<Event>)
    requires var s := StateAfter(before); forall id :: id in s.trips ==> !IsComplete(s.trips[id], s.odometer)
    ensures var s := StateAfter(before); StateAfter(before + [Report]) == s.(trips := Updated(s.trips, s.odometer))
  {
    AfterOneMore(before, Report, 0);
    var s := StateAfter(before);
    assert CompletedIds(s) == {};
    assert Updated(s.trips, s.odometer) - {} == Updated(s.trips, s.odometer);
  }

  /** Past the ongoing distance the difference wraps: trip 0 needs 100 and the modem is set for 500. */
  lemma LateJoin()
    ensures var events := [Start(0, 100, 10), Move(150)];
      && DistanceServes(StateAfter(events))
      && Step(StateAfter(events), Start(1, 500, 10)) ==
         State(map[0 := Trip(0, 0, 0, 100, 10), 1 := Trip(0, 0, 0, 500, 10)], 0, 500, 10, false, false)
      && !KeepsServing(StateAfter(events), Start(1, 500, 10))
  {
    var e1, events := [Start(0, 100, 10)], [Start(0, 100, 10), Move(150)];
    AfterFirst(0, 100, 10);
    AfterOneMore(e1, Move(150), 0);
    assert e1 + [Move(150)] == events;
    var s := StateAfter(events);
    assert s == State(map[0 := Trip(0, 0, 0, 100, 10)], 150, 100, 10, false, false);
    assert Left(s) == TWO_32 - 50;
    assert !Fits(500, s.trips, 150, false) by { assert s.trips[0].thisTrip == 0; }
  }

  // ----- The adapter ----------------------------------------------------------------------------

  lemma AllSettled(s: State, trips: Trips, completed: set<nat>)
    requires forall id :: id in completed <==> id in s.trips && IsComplete(s.trips[id], s.odometer)
    requires forall id :: id in trips <==> id in s.trips && !IsComplete(s.trips[id], s.odometer)
    requires forall id :: id in trips ==> trips[id] == s.trips[id].(thisTrip := Reading(s.trips[id], s.odometer))
    ensures completed == CompletedIds(s) && trips == Updated(s.trips, s.odometer) - completed
  {
  }

  class TripMultiplexer {
    var tripSessions: map<nat, Trip>
    var ongoingTripDistance: uint32
    var ongoingTripTBFInterval: uint32
    var tripWithOngoingTBFDropped: bool
    var tripWithOngoingTripDistanceDropped: bool
    /** The modem's accumulated distance since it was last started or restarted. */
    var odometer: uint32

    constructor ()
      ensures Abs() == IDLE
    {
      tripSessions := map[];
      ongoingTripDistance, ongoingTripTBFInterval, odometer := 0, 0, 0;
      tripWithOngoingTBFDropped, tripWithOngoingTripDistanceDropped := false, false;
    }

    ghost function Abs(): State
      reads this
    {
      State(tripSessions, odometer, ongoingTripDistance, ongoingTripTBFInterval,
            tripWithOngoingTripDistanceDropped, tripWithOngoingTBFDropped)
    }

    /** The vehicle moves on. */
    method Travel(distance: uint32)
      modifies `odometer
      ensures Abs() == Step(old(Abs()), Move(distance))
    {
      odometer := Add32(odometer, distance);
    }

    /** The modem restarts batching, and its odometer starts again from zero. */
    method ReStartOutdoorTripBatching(distance: uint32, interval: uint32, upToDate: bool)
      modifies `tripSessions, `odometer, `ongoingTripDistance, `ongoingTripTBFInterval
      ensures Abs() == Restarted(old(Abs()), distance, interval, upToDate)
    {
      CarryOver(upToDate);
      odometer := 0;
      ongoingTripDistance, ongoingTripTBFInterval := distance, interval;
    }

    method CarryOver(upToDate: bool)
      modifies `tripSessions
      ensures tripSessions == CarriedOver(old(tripSessions), odometer, upToDate)
    {
      var todo := tripSessions.Keys;
      while todo != {}
        invariant todo <= tripSessions.Keys == old(tripSessions).Keys
        invariant forall id :: id in todo ==> tripSessions[id] == old(tripSessions)[id]
        invariant forall id :: id in tripSessions && id !in todo ==>
          tripSessions[id] == Carried(old(tripSessions)[id], odometer, upToDate)
        decreases todo
      {
        var id :| id in todo;
        todo := todo - {id};
        var t := tripSessions[id];
        if upToDate {
          t := t.(thisTrip := Add32(t.onTripRestart, Sub32(odometer, t.ongoingBatch)));
        }
        t := t.(ongoingBatch := 0, onTripRestart := t.thisTrip);
        tripSessions := tripSessions[id := t];
      }
    }

    /** `startTripBatchingMultiplex` */
    method StartTrip(sessionId: nat, minDistance: uint32, minInterval: uint32)
      modifies this
      ensures Abs() == Step(old(Abs()), Start(sessionId, minDistance, minInterval))
    {
      if tripSessions == map[] {
        tripSessions := map[sessionId := Trip(0, 0, 0, minDistance, minInterval)];
        odometer := 0;
        ongoingTripDistance := minDistance;
        ongoingTripTBFInterval := minInterval;
      } else {
        JoinTrip(sessionId, minDistance, minInterval);
      }
    }

    /** The answer to the distance query, for a trip that joins others. */
    method JoinTrip(sessionId: nat, minDistance: uint32, minInterval: uint32)
      modifies this
      ensures Abs() == Joined(old(Abs()), sessionId, minDistance, minInterval)
      ensures JoinCuts(old(Abs()), minDistance, minInterval) ==> odometer == 0
      ensures !JoinCuts(old(Abs()), minDistance, minInterval) ==>
                && odometer == old(odometer) && ongoingTripDistance == old(ongoingTripDistance)
                && ongoingTripTBFInterval == old(ongoingTripTBFInterval)
    {
      LeftIsAhead(Abs());
      var needsRestart, distance, interval := OnJoin(minDistance, minInterval);
      tripSessions := tripSessions[sessionId := Trip(odometer, 0, 0, minDistance, minInterval)];
      if needsRestart {
        ReStartOutdoorTripBatching(distance, interval, false);
      }
    }

    /** Whether the modem must be restarted for a new trip, and with what. */
    method OnJoin(minDistance: uint32, minInterval: uint32)
      returns (needsRestart: bool, distance: uint32, interval: uint32)
      ensures needsRestart <==> JoinCuts(Abs(), minDistance, minInterval)
      ensures needsRestart ==>
                distance == Min(minDistance, Left(Abs())) && interval == Min(ongoingTripTBFInterval, minInterval)
    {
      LeftIsAhead(Abs());
      needsRestart := false;
      distance, interval := ongoingTripDistance, ongoingTripTBFInterval;
      if interval > minInterval {
        interval := minInterval;
        needsRestart := true;
      }
      var remaining := Sub32(distance, odometer);
      if minDistance < remaining {
        distance := minDistance;
        needsRestart := true;
      } else if needsRestart {
        distance := remaining;
      }
    }

    /** The smallest remaining distance and interval, in the order of the session ids. */
    method SmallestNeeds() returns (minRemaining: uint32, minInterval: uint32)
      ensures minRemaining == SmallestRemaining(tripSessions) && minInterval == SmallestInterval(tripSessions)
    {
      minRemaining, minInterval := 0, 0;
      var todo := tripSessions.Keys;
      while todo != {}
        invariant todo <= tripSessions.Keys
        invariant Walked(tripSessions - todo, todo, minRemaining, minInterval)
        decreases todo
      {
        ghost var least := SmallestKey(todo);
        var id :| id in todo && forall j :: j in todo ==> id <= j;
        var t := tripSessions[id];
        WalkGoesOn(tripSessions, todo, id, minRemaining, minInterval);
        todo := todo - {id};
        var remaining := Sub32(t.tripDistance, t.thisTrip);
        if minRemaining == 0 || minRemaining > remaining {
          minRemaining := remaining;
        }
        if minInterval == 0 || minInterval > t.tripTBFInterval {
          minInterval := t.tripTBFInterval;
        }
      }
      assert tripSessions - {} == tripSessions;
    }

    /** `restartTripBatching`; the distance it works with is the odometer's either way. */
    method RestartTripBatching()
      modifies `tripSessions, `odometer, `ongoingTripDistance, `ongoingTripTBFInterval
      ensures Abs() == Readjusted(old(Abs()))
    {
      if tripSessions == map[] {
        ongoingTripDistance, ongoingTripTBFInterval := 0, 0;
        return;
      }
      var minRemaining, minInterval := SmallestNeeds();
      DropCutsIff(Abs());
      var needsRestart, distance, interval := OnDrop(minRemaining, minInterval);
      if needsRestart {
        ReStartOutdoorTripBatching(distance, interval, true);
      }
    }

    /** Whether the modem must be restarted for the trips that are left, and with what. */
    method OnDrop(minRemaining: uint32, minInterval: uint32)
      returns (needsRestart: bool, distance: uint32, interval: uint32)
      requires tripSessions != map[]
      requires minRemaining == SmallestRemaining(tripSessions) && minInterval == SmallestInterval(tripSessions)
      ensures needsRestart <==> DropCuts(Abs())
      ensures needsRestart ==>
                && distance == DropDistance(Abs())
                && interval == if NewInterval(Abs()) then minInterval else ongoingTripTBFInterval
    {
      DropCutsIff(Abs());
      needsRestart := false;
      distance, interval := ongoingTripDistance, ongoingTripTBFInterval;
      var left := Sub32(distance, odometer);
      if !tripWithOngoingTripDistanceDropped && left != 0 {
        if minRemaining < left {
          distance := minRemaining;
          needsRestart := true;
        }
      } else if minRemaining != 0 {
        distance := minRemaining;
        needsRestart := true;
      }
      if minInterval < interval || (minInterval != interval && tripWithOngoingTBFDropped) {
        interval := minInterval;
        needsRestart := true;
      }
    }

    /** The modem reports its accumulated distance; complete trips are dropped. */
    method ReportCompletedTrips() returns (completed: set<nat>)
      modifies this
      ensures completed == CompletedIds(old(Abs())) && Abs() == Step(old(Abs()), Report)
    {
      completed := DropCompleted();
      if completed != {} {
        RestartTripBatching();
      }
    }

    /** The loop over the trips: each is brought up to date, and dropped once it is complete. */
    method DropCompleted() returns (completed: set<nat>)
      modifies `tripSessions, `tripWithOngoingTBFDropped, `tripWithOngoingTripDistanceDropped
      ensures completed == CompletedIds(old(Abs())) && Abs() == Settled(old(Abs()))
    {
      completed := {};
      var todo := tripSessions.Keys;
      ghost var trips := tripSessions;
      while todo != {}
        invariant todo <= tripSessions.Keys
        invariant forall id :: id in completed <==> id in trips && id !in todo && IsComplete(trips[id], odometer)
        invariant forall id :: id in tripSessions <==> id in trips && (id in todo || !IsComplete(trips[id], odometer))
        invariant forall id :: id in tripSessions ==>
          tripSessions[id] == if id in todo then trips[id] else trips[id].(thisTrip := Reading(trips[id], odometer))
        invariant tripWithOngoingTBFDropped ==
          (old(tripWithOngoingTBFDropped) || AnyInterval(trips, completed, ongoingTripTBFInterval))
        invariant tripWithOngoingTripDistanceDropped ==
          (old(tripWithOngoingTripDistanceDropped) || AnyDistance(trips, completed, ongoingTripDistance))
        decreases todo
      {
        var id :| id in todo;
        todo := todo - {id};
        var t := tripSessions[id];
        t := t.(thisTrip := Add32(t.onTripRestart, Sub32(odometer, t.ongoingBatch)));
        if t.tripDistance <= t.thisTrip {
          AnySnoc(trips, completed, id, ongoingTripDistance, ongoingTripTBFInterval);
          completed := completed + {id};
          tripSessions := tripSessions - {id};
          NoteDropped(t);
        } else {
          tripSessions := tripSessions[id := t];
        }
      }
      UpdatedKeepsGoals(trips, completed, odometer, ongoingTripDistance, ongoingTripTBFInterval);
      AllSettled(old(Abs()), tripSessions, completed);
    }

    /** A trip that set the ongoing interval or distance is gone. */
    method NoteDropped(t: Trip)
      modifies `tripWithOngoingTBFDropped, `tripWithOngoingTripDistanceDropped
      ensures tripWithOngoingTBFDropped ==
              (old(tripWithOngoingTBFDropped) || t.tripTBFInterval == ongoingTripTBFInterval)
      ensures tripWithOngoingTripDistanceDropped ==
              (old(tripWithOngoingTripDistanceDropped) || t.tripDistance == ongoingTripDistance)
    {
      if t.tripTBFInterval == ongoingTripTBFInterval {
        tripWithOngoingTBFDropped := true;
      }
      if t.tripDistance == ongoingTripDistance {
        tripWithOngoingTripDistanceDropped := true;
      }
    }

    /** `stopTripBatchingMultiplex`, for a session that `isTripSession`. */
    method StopTrip(sessionId: nat)
      requires sessionId in tripSessions
      modifies this
      ensures Abs() == Step(old(Abs()), Stop(sessionId))
    {
      AnySnoc(tripSessions, {}, sessionId, ongoingTripDistance, ongoingTripTBFInterval);
      assert {} + {sessionId} == {sessionId};
      NoteDropped(tripSessions[sessionId]);
      tripSessions := tripSessions - {sessionId};
      if tripSessions == map[] {
        ongoingTripDistance, ongoingTripTBFInterval := 0, 0;
      } else {
        RestartTripBatching();
      }
    }
  }

  lemma AnySnoc(trips: Trips, ids: set<nat>, id: nat, distance: uint32, interval: uint32)
    requires id in trips
    ensures AnyDistance(trips, ids + {id}, distance) <==>
              AnyDistance(trips, ids, distance) || trips[id].tripDistance == distance
    ensures AnyInterval(trips, ids + {id}, interval) <==>
              AnyInterval(trips, ids, interval) || trips[id].tripTBFInterval == interval
  {
    assert id in ids + {id};
  }

  lemma UpdatedKeepsGoals(trips: Trips, ids: set<nat>, odometer: uint32, distance: uint32, interval: uint32)
    ensures AnyDistance(Updated(trips, odometer), ids, distance) <==> AnyDistance(trips, ids, distance)
    ensures AnyInterval(Updated(trips, odometer), ids, interval) <==> AnyInterval(trips, ids, interval)
  {
    forall id | id in trips
      ensures Updated(trips, odometer)[id].tripDistance == trips[id].tripDistance
      ensures Updated(trips, odometer)[id].tripTBFInterval == trips[id].tripTBFInterval
    {
    }
  }

  method Handle(m: TripMultiplexer, event: Event) returns (completed: set<nat>)
    modifies m
    ensures m.Abs() == Step(old(m.Abs()), event)
    ensures completed == if event.Report? then CompletedIds(old(m.Abs())) else {}
  {
    completed := {};
    match event {
      case Move(distance) => m.Travel(distance);
      case Start(id, minDistance, minInterval) => m.StartTrip(id, minDistance, minInterval);
      case Report => completed := m.ReportCompletedTrips();
      case Stop(id) =>
        if id in m.tripSessions {
          m.StopTrip(id);
        }
    }
  }

  /** Drives the adapter over any run that the odometer can hold. At each report exactly the running
      trips are reported that have travelled their goal and whatever was forgotten of it. */
  method Drive(events: seq<Event>) returns (completed: seq<set<nat>>)
    requires TotalTravel(events) < TWO_32
    ensures |completed| == |events|
    ensures forall i :: 0 <= i < |events| ==>
              completed[i] == if events[i].Report?
                              then set id | id in Running(events[..i]) && Due(LedgerAfter(events[..i], id)) else {}
  {
    var m := new TripMultiplexer();
    completed := [];
    for i := 0 to |events|
      invariant fresh(m) && m.Abs() == StateAfter(events[..i])
      invariant |completed| == i && forall k :: 0 <= k < i ==> completed[k] == CompletedAt(events, k)
    {
      assert events[..i + 1][..i] == events[..i];
      var done := Handle(m, events[i]);
      completed := completed + [done];
    }
    forall i | 0 <= i < |events|
      ensures completed[i] == if events[i].Report?
                              then set id | id in Running(events[..i]) && Due(LedgerAfter(events[..i], id)) else {}
    {
      ReportsExactly(events, i);
    }
  }
}
