/** Many time-based tracking sessions multiplexed onto the one session the modem runs
    (gps/gnss/GnssAdapter.cpp). Intervals are in milliseconds. */
module Tracking {
  import opened OrderedWalk
  import opened Wrappers

  const MIN_TRACKING_INTERVAL := 100
  const POWER_MODE_INVALID := 0

  datatype Key = Key(client: nat, id: nat)

  datatype Options = Options(minInterval: nat, powerMode: nat)

  type Sessions = map<Key, Options>

  /** No session wants reports more often than every `t`. */
  ghost predicate Serves(t: nat, sessions: Sessions) {
    forall k :: k in sessions ==> t <= sessions[k].minInterval
  }

  /** `t` is the smallest interval. */
  ghost predicate IsMinInterval(t: nat, sessions: Sessions) {
    Serves(t, sessions) && exists k :: k in sessions && sessions[k].minInterval == t
  }

  /** The order of the session map: by id, then by client. */
  predicate Before(a: Key, b: Key) {
    a.id < b.id || (a.id == b.id && a.client < b.client)
  }

  ghost function FirstKey(keys: set<Key>): (k: Key)
    requires keys != {}
    ensures k in keys && forall j :: j in keys ==> j == k || Before(k, j)
  {
    var k :| k in keys;
    var others := keys - {k};
    assert forall j :: j in keys ==> j == k || j in others;
    if others == {} then k
    else
      var m := FirstKey(others);
      if Before(k, m) then k else m
  }

  function Modes(sessions: Sessions): map<Key, nat> {
    map k | k in sessions :: sessions[k].powerMode
  }

  /** The power mode is below every stated one that counts: those beyond the last session that
      states none. */
  ghost predicate LowerMode(options: Options, others: Sessions) {
    BelowAll(Before, options.powerMode, Modes(others))
  }

  /** The modem has to be restarted for a session with these options: it is on its own, or asks
      for a shorter interval or a lower power mode than all others. */
  ghost predicate Undercuts(options: Options, others: Sessions) {
    (forall k :: k in others ==> options.minInterval < others[k].minInterval) || LowerMode(options, others)
  }

  lemma UndercutsSmallest(options: Options, others: Sessions, interval: nat, mode: nat)
    requires IsMinInterval(interval, others) && IsSmallest(Before, mode, Modes(others))
    ensures Undercuts(options, others) <==> options.minInterval < interval || options.powerMode < mode
  {
    BelowSmallest(Before, options.powerMode, Modes(others), mode);
  }

  /** If all others state their power mode, the options do not undercut them exactly if one of them asks
      for as short an interval and one for as low a mode. */
  lemma UndercutsNobodyIff(options: Options, others: Sessions)
    requires forall k :: k in others ==> others[k].powerMode > POWER_MODE_INVALID
    ensures !Undercuts(options, others) <==>
              && (exists k :: k in others && others[k].minInterval <= options.minInterval)
              && (exists k :: k in others && others[k].powerMode <= options.powerMode)
  {
    var modes := Modes(others);
    forall k | k in others ensures BeyondZeros(Before, modes, k) && modes[k] == others[k].powerMode {
    }
    assert forall k :: k in modes ==> k in others;
  }

  /** The sessions the walk has seen, all before those to come. */
  ghost predicate Walked(sessions: Sessions, skip: Option<Key>, keys: set<Key>, interval: Option<nat>, mode: nat) {
    var seen := Seen(sessions, skip, keys);
    && (forall i, j :: i in seen && j in keys ==> Before(i, j))
    && (interval.None? <==> seen == map[]) && (interval.Some? ==> IsMinInterval(interval.value, seen))
    && IsSmallest(Before, mode, Modes(seen))
  }

  function Seen(sessions: Sessions, skip: Option<Key>, keys: set<Key>): Sessions {
    map k | k in sessions && k !in keys && skip != Some(k) :: sessions[k]
  }

  lemma NothingSeen(sessions: Sessions, skip: Option<Key>)
    ensures Walked(sessions, skip, sessions.Keys, None, POWER_MODE_INVALID)
  {
    assert Seen(sessions, skip, sessions.Keys) == map[];
  }

  lemma EverythingSeen(sessions: Sessions, skip: Option<Key>)
    ensures Seen(sessions, skip, {}) == if skip.Some? then sessions - {skip.value} else sessions
  {
  }

  lemma SeenGrows(sessions: Sessions, skip: Option<Key>, keys: set<Key>, k: Key)
    requires k in sessions && k in keys
    ensures Seen(sessions, skip, keys - {k}) ==
            if skip == Some(k) then Seen(sessions, skip, keys) else Seen(sessions, skip, keys)[k := sessions[k]]
  {
  }

  lemma ModesGrow(seen: Sessions, k: Key, options: Options, mode: nat)
    requires k !in seen && (forall i :: i in seen ==> Before(i, k)) && IsSmallest(Before, mode, Modes(seen))
    ensures IsSmallest(Before, Smaller(mode, options.powerMode), Modes(seen[k := options]))
  {
    ModeComesLast(seen, k);
    OneMore(Before, Modes(seen), k, options.powerMode, mode);
    ModesOfMore(seen, k, options);
  }

  lemma ModeComesLast(seen: Sessions, k: Key)
    requires k !in seen && forall i :: i in seen ==> Before(i, k)
    ensures ComesLast(Before, Modes(seen), k)
  {
  }

  lemma ModesOfMore(seen: Sessions, k: Key, options: Options)
    ensures Modes(seen[k := options]) == Modes(seen)[k := options.powerMode]
  {
  }

  function NextInterval(interval: Option<nat>, options: Options): Option<nat> {
    Some(if interval.None? then options.minInterval else Min(interval.value, options.minInterval))
  }

  lemma WalkGoesOn(sessions: Sessions, skip: Option<Key>, keys: set<Key>, k: Key, interval: Option<nat>, mode: nat)
    requires keys <= sessions.Keys && k in keys && (forall j :: j in keys ==> j == k || Before(k, j))
    requires Walked(sessions, skip, keys, interval, mode)
    ensures if skip == Some(k) then Walked(sessions, skip, keys - {k}, interval, mode)
            else Walked(sessions, skip, keys - {k}, NextInterval(interval, sessions[k]),
                        Smaller(mode, sessions[k].powerMode))
  {
    var seen := Seen(sessions, skip, keys);
    SeenGrows(sessions, skip, keys, k);
    if skip != Some(k) {
      assert seen - {k} == seen;
      MinAfterSet(seen, k, sessions[k], interval);
      ModesGrow(seen, k, sessions[k], mode);
    }
  }

  function Clamped(t: nat): (r: nat)
    ensures r >= 100 && (t >= 100 ==> r == t) && (t < 100 ==> r == 100)
  {
    if t < MIN_TRACKING_INTERVAL then MIN_TRACKING_INTERVAL else t
  }

  function Min(a: nat, b: nat): nat {
    if a < b then a else b
  }

  /** Setting one session's options moves the smallest interval as expected. */
  lemma MinAfterSet(sessions: Sessions, key: Key, options: Options, others: Option<nat>)
    requires others.None? ==> sessions - {key} == map[]
    requires others.Some? ==> IsMinInterval(others.value, sessions - {key})
    ensures IsMinInterval(if others.None? then options.minInterval else Min(others.value, options.minInterval),
                          sessions[key := options])
  {
    var after := sessions[key := options];
    assert forall k :: k in after && k != key ==> k in sessions - {key} && after[k] == (sessions - {key})[k];
    if others.Some? && others.value < options.minInterval {
      var k :| k in sessions - {key} && (sessions - {key})[k].minInterval == others.value;
      assert after[k].minInterval == others.value;
    } else {
      assert after[key].minInterval == options.minInterval;
    }
  }

  /** Another session wants reports every `t`. */
  ghost predicate WantedByOther(t: nat, key: Key, sessions: Sessions) {
    exists k :: k in sessions && k != key && sessions[k].minInterval == t
  }

  /** The modem is restarted for an update. */
  ghost predicate UpdateRestarts(before: Sessions, key: Key, options: Options)
    requires key in before
  {
    options != before[key] && Undercuts(options, before - {key})
  }

  /** If the modem is not restarted for an update, its interval is still the smallest one exactly
      when some session still asks for it, which is so unless the update raises an interval. */
  lemma RateStillWanted(before: Sessions, key: Key, options: Options, t: nat)
    requires IsMinInterval(t, before) && key in before
    requires t <= options.minInterval
    ensures IsMinInterval(t, before[key := options]) <==>
              options.minInterval == t || WantedByOther(t, key, before)
    ensures options.minInterval <= before[key].minInterval ==> IsMinInterval(t, before[key := options])
  {
    var after := before[key := options];
    assert forall k :: k in after && k != key ==> k in before && after[k] == before[k];
    assert after[key] == options;
    var k :| k in before && before[k].minInterval == t;
    assert k != key ==> after[k].minInterval == t;
  }

  class TrackingMultiplexer {
    var sessions: Sessions
    var nHzNeeded: bool
    var speAlreadyRunningAtHighestInterval: bool
    /** The interval the modem's session runs at, if it runs. */
    var engine: Option<nat>
    /** How often the modem's session was started or restarted. */
    var starts: nat

    constructor ()
      ensures Valid() && Exact() && sessions == map[] && engine == None && !nHzNeeded
    {
      sessions := map[];
      nHzNeeded := false;
      speAlreadyRunningAtHighestInterval := false;
      engine := None;
      starts := 0;
    }

    /** The modem runs exactly while there are sessions, at an interval that serves them all, and
        at the highest rate whenever that is needed or recorded. */
    ghost predicate Valid()
      reads this
    {
      && (forall k :: k in sessions ==> MIN_TRACKING_INTERVAL <= sessions[k].minInterval)
      && (engine.Some? <==> sessions != map[])
      && (engine.Some? ==> Serves(engine.value, sessions))
      && (engine.Some? && nHzNeeded ==> engine.value == MIN_TRACKING_INTERVAL)
      && (speAlreadyRunningAtHighestInterval ==> nHzNeeded && engine == Some(MIN_TRACKING_INTERVAL))
    }

    /** The modem runs no more often than a session asks for. */
    ghost predicate Exact()
      reads this
    {
      engine.Some? ==> IsMinInterval(engine.value, sessions)
    }

    /** `checkAndSetSPEToRunforNHz` followed by the start of the modem's session. */
    method RunEngine(interval: nat)
      requires MIN_TRACKING_INTERVAL <= interval
      requires speAlreadyRunningAtHighestInterval ==> engine == Some(MIN_TRACKING_INTERVAL)
      modifies `speAlreadyRunningAtHighestInterval, `engine, `starts
      ensures engine == Some(if nHzNeeded then MIN_TRACKING_INTERVAL else interval)
      ensures starts == old(starts) + if nHzNeeded && old(speAlreadyRunningAtHighestInterval) then 0 else 1
      ensures speAlreadyRunningAtHighestInterval ==
              (old(speAlreadyRunningAtHighestInterval) || (nHzNeeded && interval > MIN_TRACKING_INTERVAL))
    {
      var outInterval := interval;
      var isRunning := false;
      if !nHzNeeded {
      } else if speAlreadyRunningAtHighestInterval {
        isRunning := true;
      } else if outInterval > MIN_TRACKING_INTERVAL {
        outInterval := MIN_TRACKING_INTERVAL;
        speAlreadyRunningAtHighestInterval := true;
      }
      if !isRunning {
        engine := Some(outInterval);
        starts := starts + 1;
      }
    }

    /** The walk over the sessions other than `key`, in the map's order, for the smallest interval
        and power mode. */
    method Smallest(key: Option<Key>) returns (interval: Option<nat>, powerMode: nat)
      ensures var others := if key.Some? then sessions - {key.value} else sessions;
        && (interval.None? <==> others == map[])
        && (interval.Some? ==> IsMinInterval(interval.value, others))
        && IsSmallest(Before, powerMode, Modes(others))
    {
      interval, powerMode := None, POWER_MODE_INVALID;
      var keys := sessions.Keys;
      NothingSeen(sessions, key);
      while keys != {}
        invariant keys <= sessions.Keys && Walked(sessions, key, keys, interval, powerMode)
        decreases keys
      {
        ghost var first := FirstKey(keys);
        var k :| k in keys && forall j :: j in keys ==> j == k || Before(k, j);
        WalkGoesOn(sessions, key, keys, k, interval, powerMode);
        keys := keys - {k};
        if key != Some(k) {
          interval, powerMode := Consider(sessions[k], interval, powerMode);
        }
      }
      EverythingSeen(sessions, key);
    }

    /** The body of that loop. */
    method Consider(options: Options, interval: Option<nat>, powerMode: nat)
      returns (interval': Option<nat>, powerMode': nat)
      ensures interval' == NextInterval(interval, options) && powerMode' == Smaller(powerMode, options.powerMode)
    {
      interval', powerMode' := interval, powerMode;
      if interval.None? || options.minInterval < interval.value {
        interval' := Some(options.minInterval);
      }
      if powerMode == POWER_MODE_INVALID || options.powerMode < powerMode {
        powerMode' := options.powerMode;
      }
    }

    /** The walk for the session `key`, and what it tells of other options for it; a session that
        starts is not in the map yet, and nothing is skipped. */
    method SmallestOthers(skip: Option<Key>, ghost key: Key, ghost options: Options)
      returns (interval: Option<nat>, powerMode: nat)
      requires skip == if key in sessions then Some(key) else None
      ensures interval.None? <==> sessions - {key} == map[]
      ensures interval.Some? ==> IsMinInterval(interval.value, sessions - {key})
      ensures IsMinInterval(if interval.None? then options.minInterval else Min(interval.value, options.minInterval),
                            sessions[key := options])
      ensures key in sessions ==>
                IsMinInterval(if interval.None? then sessions[key].minInterval
                              else Min(interval.value, sessions[key].minInterval), sessions)
      ensures Undercuts(options, sessions - {key}) <==>
                interval.None? || options.minInterval < interval.value || options.powerMode < powerMode
    {
      interval, powerMode := Smallest(skip);
      assert key !in sessions ==> sessions - {key} == sessions;
      MinAfterSet(sessions, key, options, interval);
      if interval.Some? {
        UndercutsSmallest(options, sessions - {key}, interval.value, powerMode);
      }
      if key in sessions {
        MinAfterSet(sessions, key, sessions[key], interval);
        assert sessions[key := sessions[key]] == sessions;
      }
    }

    method StartTracking(key: Key, requested: Options)
      requires Valid() && key !in sessions
      modifies this
      ensures Valid() && nHzNeeded == old(nHzNeeded)
      ensures sessions == old(sessions)[key := requested.(minInterval := Clamped(requested.minInterval))]
      ensures starts >= old(starts) && (starts == old(starts) ==> engine == old(engine))
      ensures starts > old(starts) && !nHzNeeded ==> Exact()
      ensures !nHzNeeded ==> (starts > old(starts) <==> Undercuts(sessions[key], old(sessions)))
      ensures old(Exact()) && !nHzNeeded ==> Exact()
    {
      var options := requested.(minInterval := Clamped(requested.minInterval));
      assert sessions - {key} == sessions;
      if sessions == map[] {
        MinAfterSet(sessions, key, options, None);
        RunEngine(options.minInterval);
      } else {
        var interval, powerMode := SmallestOthers(None, key, options);
        var multiplexed := Options(interval.value, powerMode);
        var updateOptions := false;
        if options.minInterval < multiplexed.minInterval {
          multiplexed := multiplexed.(minInterval := options.minInterval);
          updateOptions := true;
        }
        if options.powerMode < powerMode {
          updateOptions := true;
        }
        if updateOptions {
          RunEngine(multiplexed.minInterval);
        }
      }
      sessions := sessions[key := options];
    }

    /** `updateTrackingMultiplex`: the modem's session is restarted if the new options call for it. */
    method UpdateMultiplex(key: Key, options: Options)
      requires Valid() && key in sessions && MIN_TRACKING_INTERVAL <= options.minInterval
      modifies `speAlreadyRunningAtHighestInterval, `engine, `starts
      ensures engine.Some? && (nHzNeeded ==> engine.value == MIN_TRACKING_INTERVAL)
      ensures Serves(engine.value, sessions[key := options])
      ensures speAlreadyRunningAtHighestInterval ==> nHzNeeded && engine.value == MIN_TRACKING_INTERVAL
      ensures starts >= old(starts) && (starts == old(starts) ==> engine == old(engine))
      ensures !nHzNeeded && starts > old(starts) ==> IsMinInterval(engine.value, sessions[key := options])
      ensures !nHzNeeded ==> (starts > old(starts) <==> UpdateRestarts(sessions, key, options))
      ensures options == sessions[key] ==> starts == old(starts)
    {
      var current := sessions[key];
      var interval, powerMode := SmallestOthers(Some(key), key, options);
      if current.minInterval != options.minInterval || current.powerMode != options.powerMode {
        if interval.None? {
          RunEngine(options.minInterval);
        } else if options.minInterval < interval.value {
          RunEngine(options.minInterval);
        } else if options.powerMode < powerMode {
          RunEngine(interval.value);
        }
      }
    }

    /** An update of a session, which is then saved; false for an unknown one. */
    method UpdateTracking(key: Key, requested: Options) returns (known: bool)
      requires Valid()
      modifies this
      ensures Valid() && nHzNeeded == old(nHzNeeded) && known == (key in old(sessions))
      ensures !known ==> unchanged(this)
      ensures known ==> sessions == old(sessions)[key := requested.(minInterval := Clamped(requested.minInterval))]
      ensures starts >= old(starts) && (starts == old(starts) ==> engine == old(engine))
      ensures known && old(sessions)[key] == sessions[key] ==> starts == old(starts)
      ensures known && !nHzNeeded ==> (starts > old(starts) <==> UpdateRestarts(old(sessions), key, sessions[key]))
      ensures known && old(Exact()) && !nHzNeeded && sessions[key].minInterval <= old(sessions)[key].minInterval ==>
                Exact()
      ensures known && !nHzNeeded ==>
                if UpdateRestarts(old(sessions), key, sessions[key]) then Exact() else engine == old(engine)
      // A raised interval leaves the modem at the old rate unless the update restarts it or some
      // session still wants that rate.
      ensures known && old(Exact()) && !nHzNeeded ==>
                (Exact() <==> || UpdateRestarts(old(sessions), key, sessions[key])
                              || sessions[key].minInterval == old(engine).value
                              || WantedByOther(old(engine).value, key, old(sessions)))
    {
      known := key in sessions;
      if !known {
        return;
      }
      var options := requested.(minInterval := Clamped(requested.minInterval));
      UpdateMultiplex(key, options);
      assert options == sessions[key := options][key];
      if old(Exact()) && starts == old(starts) {
        RateStillWanted(sessions, key, options, engine.value);
      }
      sessions := sessions[key := options];
    }

    /** `stopTimeBasedTrackingMultiplex` and the erasure after it; false for an unknown session. */
    method StopTracking(key: Key) returns (known: bool)
      requires Valid()
      modifies this
      ensures Valid() && nHzNeeded == old(nHzNeeded) && known == (key in old(sessions))
      ensures sessions == old(sessions) - {key}
      ensures starts >= old(starts) && (starts == old(starts) && sessions != map[] ==> engine == old(engine))
      ensures starts > old(starts) && !nHzNeeded ==> Exact()
      ensures known && !nHzNeeded ==>
                (starts > old(starts) <==> sessions != map[] && Undercuts(old(sessions)[key], sessions))
      ensures !known ==> unchanged(this)
      ensures old(Exact()) && !nHzNeeded ==> Exact()
    {
      known := key in sessions;
      if !known {
        assert sessions - {key} == sessions;
        return;
      }
      var current := sessions[key];
      var interval, powerMode := SmallestOthers(Some(key), key, current);
      if interval.None? {
        engine := None;
        speAlreadyRunningAtHighestInterval := false;
      } else if current.minInterval < interval.value || current.powerMode < powerMode {
        RunEngine(interval.value);
      }
      sessions := sessions - {key};
    }

    /** `checkAndRestartSPESession`: the modem's session is started afresh for the sessions there are. */
    method RestartSPESession()
      requires forall k :: k in sessions ==> MIN_TRACKING_INTERVAL <= sessions[k].minInterval
      requires sessions == map[] ==> engine == None
      modifies `speAlreadyRunningAtHighestInterval, `engine, `starts
      ensures Valid() && (!nHzNeeded ==> Exact())
    {
      speAlreadyRunningAtHighestInterval := false;
      if sessions != map[] {
        var interval, powerMode := Smallest(None);
        RunEngine(interval.value);
      }
    }

    /** The engine hub changes its mind about needing the highest rate. */
    method UpdateNHzRequirement(needed: bool)
      requires Valid()
      modifies this
      ensures Valid() && nHzNeeded == needed && sessions == old(sessions)
      ensures needed == old(nHzNeeded) ==> unchanged(this)
      ensures old(Exact()) && !needed ==> Exact()
      ensures old(nHzNeeded) && !needed ==> Exact()
    {
      if nHzNeeded != needed {
        nHzNeeded := needed;
        RestartSPESession();
      }
    }

    /** Sessions are suspended for a configuration change, or lost in a modem restart, and
        restarted; this also undoes any looseness left by raised intervals. */
    method SuspendAndRestart()
      requires Valid()
      modifies this
      ensures Valid() && nHzNeeded == old(nHzNeeded) && sessions == old(sessions)
      ensures !nHzNeeded ==> Exact()
    {
      if sessions != map[] {
        engine := None;
        speAlreadyRunningAtHighestInterval := false;
      }
      RestartSPESession();
    }

    /** `stopClientSessions`: every session of a client is stopped. */
    method StopClientSessions(client: nat)
      requires Valid()
      modifies this
      ensures Valid() && nHzNeeded == old(nHzNeeded)
      ensures sessions == map k | k in old(sessions) && k.client != client :: old(sessions)[k]
      ensures old(Exact()) && !nHzNeeded ==> Exact()
    {
      var keys := set k | k in sessions && k.client == client;
      while keys != {}
        invariant Valid() && nHzNeeded == old(nHzNeeded)
        invariant forall k :: k in keys ==> k in old(sessions) && k.client == client
        invariant forall k :: k in sessions <==> k in old(sessions) && (k.client != client || k in keys)
        invariant forall k :: k in sessions ==> sessions[k] == old(sessions)[k]
        invariant old(Exact()) && !nHzNeeded ==> Exact()
        decreases keys
      {
        var k :| k in keys;
        keys := keys - {k};
        var known := StopTracking(k);
      }
    }
  }

  datatype Event =
    | Start(key: Key, options: Options)
    | Update(key: Key, options: Options)
    | Stop(key: Key)
    | StopClient(client: nat)
    | NHz(needed: bool)
    | Restart

  /** The sessions after an event; a start under a key in use is ignored. */
  function NextSessions(before: Sessions, event: Event): Sessions {
    match event
    case Start(key, o) => if key in before then before else before[key := Taken(o)]
    case Update(key, o) => if key in before then before[key := Taken(o)] else before
    case Stop(key) => before - {key}
    case StopClient(client) => map k | k in before && k.client != client :: before[k]
    case _ => before
  }

  function SessionsAfter(events: seq<Event>): Sessions {
    if events == [] then map[] else NextSessions(SessionsAfter(events[..|events| - 1]), events[|events| - 1])
  }

  function NHzAfter(events: seq<Event>): bool {
    if events == [] then false
    else if events[|events| - 1].NHz? then events[|events| - 1].needed
    else NHzAfter(events[..|events| - 1])
  }

  function Taken(options: Options): Options {
    options.(minInterval := Clamped(options.minInterval))
  }

  /** Some session still asks for the smallest interval there was. */
  ghost predicate StillAsked(before: Sessions, after: Sessions) {
    exists k :: k in after && IsMinInterval(after[k].minInterval, before)
  }

  /** Whether an event leaves the modem at the smallest interval, if it was there before: an update
      must restart it or leave that interval asked for. */
  ghost predicate KeepsExact(sessions: Sessions, event: Event) {
    event.Update? && event.key in sessions ==>
      || UpdateRestarts(sessions, event.key, Taken(event.options))
      || StillAsked(sessions, sessions[event.key := Taken(event.options)])
  }

  /** Only a raised interval can leave it behind. */
  lemma OnlyRaisesLoosen(sessions: Sessions, event: Event)
    requires event.Update? && event.key in sessions
    requires Clamped(event.options.minInterval) <= sessions[event.key].minInterval
    ensures KeepsExact(sessions, event)
  {
    var after := sessions[event.key := Taken(event.options)];
    if !UpdateRestarts(sessions, event.key, Taken(event.options)) {
      var t := SomeMinimum(sessions);
      if t < sessions[event.key].minInterval || Taken(event.options) == sessions[event.key] {
        var k :| k in sessions && sessions[k].minInterval == t;
        assert after[k].minInterval == t;
      } else {
        OwnMinimumStays(sessions, event.key, Taken(event.options), t);
      }
    }
  }

  lemma SomeMinimum(sessions: Sessions) returns (t: nat)
    requires sessions != map[]
    ensures IsMinInterval(t, sessions)
    decreases sessions.Keys
  {
    var k :| k in sessions;
    var others := sessions - {k};
    assert others[k := sessions[k]] == sessions;
    if others == map[] {
      MinAfterSet(sessions, k, sessions[k], None);
      t := sessions[k].minInterval;
    } else {
      var m := SomeMinimum(others);
      MinAfterSet(sessions, k, sessions[k], Some(m));
      t := Min(m, sessions[k].minInterval);
    }
    assert sessions[k := sessions[k]] == sessions;
  }

  /** A session at the smallest interval that does not undercut the others with a shorter one is not
      alone there. */
  lemma OwnMinimumStays(sessions: Sessions, key: Key, options: Options, t: nat)
    requires key in sessions && IsMinInterval(t, sessions) && sessions[key].minInterval == t
    requires options.minInterval <= t && options != sessions[key] && !Undercuts(options, sessions - {key})
    ensures StillAsked(sessions, sessions[key := options])
  {
    var others := sessions - {key};
    var k :| k in others && others[k].minInterval <= options.minInterval;
    assert k in sessions && sessions[k] == others[k];
    assert sessions[key := options][k].minInterval == t;
  }

  /** Without nHz the modem runs at the smallest interval. */
  ghost predicate ExactAt(engine: Option<nat>, sessions: Sessions, nHz: bool) {
    engine.Some? && !nHz ==> IsMinInterval(engine.value, sessions)
  }

  /** The modem runs exactly while there are sessions, at the highest rate while that is needed, and
      at an interval that serves every session. */
  ghost predicate RunsFor(engine: Option<nat>, sessions: Sessions, nHz: bool) {
    && (engine.None? <==> sessions == map[])
    && (engine.Some? ==> Serves(engine.value, sessions) && (nHz ==> engine.value == MIN_TRACKING_INTERVAL))
  }

  lemma UpdateExactIff(before: Sessions, key: Key, options: Options, t: nat)
    requires key in before && IsMinInterval(t, before)
    ensures StillAsked(before, before[key := options]) <==>
              options.minInterval == t || WantedByOther(t, key, before)
  {
    var after := before[key := options];
    assert forall k :: k in after && k != key ==> k in before && after[k] == before[k];
    assert key in after && after[key] == options;
    if WantedByOther(t, key, before) {
      var k :| k in before && k != key && before[k].minInterval == t;
      assert after[k].minInterval == t;
    }
    if StillAsked(before, after) {
      var k :| k in after && IsMinInterval(after[k].minInterval, before);
      SameMinimum(after[k].minInterval, t, before);
    }
  }

  lemma SameMinimum(t: nat, u: nat, sessions: Sessions)
    requires IsMinInterval(t, sessions) && IsMinInterval(u, sessions)
    ensures t == u
  {
  }

  /** One event of a run. */
  method Step(m: TrackingMultiplexer, event: Event)
    requires m.Valid()
    modifies m
    ensures m.Valid() && m.sessions == NextSessions(old(m.sessions), event)
    ensures m.nHzNeeded == if event.NHz? then event.needed else old(m.nHzNeeded)
    ensures ExactAt(old(m.engine), old(m.sessions), old(m.nHzNeeded)) ==>
              (ExactAt(m.engine, m.sessions, m.nHzNeeded) <==> old(m.nHzNeeded) || KeepsExact(old(m.sessions), event))
  {
    match event {
      case Start(key, options) =>
        if key !in m.sessions {
          m.StartTracking(key, options);
        }
      case Update(key, options) =>
        if key in m.sessions && !m.nHzNeeded && m.Exact() {
          UpdateExactIff(m.sessions, key, Taken(options), m.engine.value);
        }
        var _ := m.UpdateTracking(key, options);
      case Stop(key) => var _ := m.StopTracking(key);
      case StopClient(client) => m.StopClientSessions(client);
      case NHz(needed) => m.UpdateNHzRequirement(needed);
      case Restart => m.SuspendAndRestart();
    }
  }

  /** `ExactAt` before any event and after each of the first `n`. */
  ghost predicate ExactUpTo(engines: seq<Option<nat>>, events: seq<Event>, n: nat)
    requires n <= |events| && n < |engines|
  {
    && (n > 0 ==> ExactUpTo(engines, events, n - 1))
    && ExactAt(engines[n], SessionsAfter(events[..n]), NHzAfter(events[..n]))
  }

  /** Every update among the first `n` events that is made while nHz is not needed keeps the modem at
      the smallest interval. */
  ghost predicate KeptExactUpTo(events: seq<Event>, n: nat)
    requires n <= |events|
  {
    n > 0 ==>
      && KeptExactUpTo(events, n - 1)
      && (NHzAfter(events[..n - 1]) || KeepsExact(SessionsAfter(events[..n - 1]), events[n - 1]))
  }

  /** `RunsFor` before any event and after each of the first `n`. */
  ghost predicate RunsUpTo(engines: seq<Option<nat>>, events: seq<Event>, n: nat)
    requires n <= |events| && n < |engines|
  {
    && (n > 0 ==> RunsUpTo(engines, events, n - 1))
    && RunsFor(engines[n], SessionsAfter(events[..n]), NHzAfter(events[..n]))
  }

  lemma {:induction false} SamePrefix(engines: seq<Option<nat>>, engine: Option<nat>, events: seq<Event>, n: nat)
    requires n <= |events| && n < |engines|
    ensures ExactUpTo(engines + [engine], events, n) <==> ExactUpTo(engines, events, n)
    ensures RunsUpTo(engines + [engine], events, n) <==> RunsUpTo(engines, events, n)
  {
    assert (engines + [engine])[n] == engines[n];
    if n > 0 {
      SamePrefix(engines, engine, events, n - 1);
    }
  }

  lemma AfterOneMore(events: seq<Event>, n: nat)
    requires n < |events|
    ensures SessionsAfter(events[..n + 1]) == NextSessions(SessionsAfter(events[..n]), events[n])
    ensures NHzAfter(events[..n + 1]) == if events[n].NHz? then events[n].needed else NHzAfter(events[..n])
  {
    assert events[..n + 1][..n] == events[..n];
  }

  /** The modem and its intervals so far stand where the first `n` events left them. */
  ghost predicate Follows(m: TrackingMultiplexer, engines: seq<Option<nat>>, events: seq<Event>, n: nat)
    requires n <= |events|
    reads m
  {
    && m.Valid() && m.sessions == SessionsAfter(events[..n]) && m.nHzNeeded == NHzAfter(events[..n])
    && |engines| == n + 1 && engines[n] == m.engine && RunsUpTo(engines, events, n)
    && (ExactUpTo(engines, events, n) <==> KeptExactUpTo(events, n))
  }

  method Follow(m: TrackingMultiplexer, engines: seq<Option<nat>>, events: seq<Event>, n: nat)
    returns (engines': seq<Option<nat>>)
    requires n < |events| && Follows(m, engines, events, n)
    modifies m
    ensures Follows(m, engines', events, n + 1)
  {
    AfterOneMore(events, n);
    Step(m, events[n]);
    SamePrefix(engines, m.engine, events, n);
    engines' := engines + [m.engine];
  }

  method Begin(ghost events: seq<Event>) returns (m: TrackingMultiplexer)
    ensures fresh(m) && Follows(m, [m.engine], events, 0)
  {
    m := new TrackingMultiplexer();
    assert events[..0] == [];
  }

  /** The modem's interval before any event and after each: none without sessions; the highest rate
      while that is needed; always one that serves every session. Without nHz it is the smallest
      interval throughout if and only if every update keeps it so. */
  method Drive(events: seq<Event>) returns (engines: seq<Option<nat>>)
    ensures |engines| == |events| + 1 && RunsUpTo(engines, events, |events|)
    ensures ExactUpTo(engines, events, |events|) <==> KeptExactUpTo(events, |events|)
  {
    var m := Begin(events);
    engines := [m.engine];
    for i := 0 to |events|
      invariant fresh(m) && Follows(m, engines, events, i)
    {
      engines := Follow(m, engines, events, i);
    }
  }

  /** An update that raises an interval and leaves the modem at the old rate. */
  method RaisedInterval() returns (m: TrackingMultiplexer)
    ensures m.sessions == map[Key(0, 0) := Options(5000, 1), Key(0, 1) := Options(2000, 1)]
    ensures m.engine == Some(1000) && !m.nHzNeeded && m.Valid() && !m.Exact()
  {
    m := new TrackingMultiplexer();
    m.StartTracking(Key(0, 0), Options(1000, 1));
    m.StartTracking(Key(0, 1), Options(2000, 1));
    assert m.sessions == map[Key(0, 0) := Options(1000, 1), Key(0, 1) := Options(2000, 1)];
    OldRateStays(m.sessions);
    var _ := m.UpdateTracking(Key(0, 0), Options(5000, 1));
    assert Key(0, 0) in m.sessions && Key(0, 1) in m.sessions;
  }

  lemma OldRateStays(sessions: Sessions)
    requires sessions == map[Key(0, 0) := Options(1000, 1), Key(0, 1) := Options(2000, 1)]
    ensures !UpdateRestarts(sessions, Key(0, 0), Options(5000, 1))
    ensures forall t :: IsMinInterval(t, sessions) ==> t == 1000
  {
    var others := sessions - {Key(0, 0)};
    assert Key(0, 1) in others && others[Key(0, 1)] == Options(2000, 1);
    StatedModesCount(others, Key(0, 1));
    assert Key(0, 1) in Modes(others);
    assert Key(0, 0) in sessions;
  }

  lemma StatedModesCount(others: Sessions, k: Key)
    requires k in others && forall j :: j in others ==> others[j].powerMode > POWER_MODE_INVALID
    ensures BeyondZeros(Before, Modes(others), k)
  {
  }
}
