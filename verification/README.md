# ASUS X00T device tree: verified models

Dafny models of the algorithms and state machines in the ASUS X00T device tree, with proofs of what
they promise. The tree is mostly configuration, but its recovery updater and its GNSS stack hold
real algorithms:

- `BoyerMoore.dfy`: the Boyer-Moore search of the recovery updater, its two table-filling passes
  and the exact class of patterns it searches correctly.
- `SvBlacklist.dfy` (over `Word64.dfy`): satellite blacklists as id lists and as six 64-bit masks.
- `Tracking.dfy`: many time-based tracking sessions multiplexed onto the modem's one session.
- `GpsLock.dfy`: which GPS lock the modem is given under "Q" and "P" behaviour.
- `Odcpi.dfy`: on-demand position injection and the timer that throttles it.
- `ElapsedRealtime.dfy`: the elapsed-realtime estimate for modem fixes.
- `AdapterTable.dfy` and `NetworkTable.dfy` (over `CompactTable.dfy`): two fixed arrays kept
  compact in place.
- `AgpsSpec.dfy`, `AgpsEffects.dfy` and `Agps.dfy`: the AGPS connection machine as a step function
  with its ledgers, what each event says and leaves told from outside the machine, and the classes
  that take those steps by walking and editing subscriber lists.
- `TripBatching.dfy`: several trips counted on one modem odometer.
- `OrderedWalk.dfy`: what a walk in key order finds when zero counts as "not yet set"; trips and
  tracking sessions both look for their smallest needs that way.
- `Geofence.dfy`: the two maps between clients' geofence keys and the modem's hardware ids.

Where the source updates fields, arrays, lists or maps in place, the model is a class with methods
and loops. Each method is proved against a specification (a function of the old state), and the
promises are proved as invariants and lemmas about that specification, for every input and every
run. Each asynchronous exchange with the modem is one step. Callbacks, messages and modem commands
are kept as logs (`sent`, `outputs`, `forwarded`, `calls`), so that what is sent is part of a
method's contract. Walks whose result depends on the order of an ordered map follow that order;
all others take their elements in any order.

## Where the code and its documentation differ

The models follow the code.

- **Prefix pass of the search** (`recovery/recovery_updater.cpp:77-79`). The pass tests the suffix
  at `p` and stores `p + 1`. A bordered pattern can therefore be skipped over: `abXab` is not found
  in `abYabXab`. `SearchIsCompleteIff` gives the exact condition: the search is right on every text
  if and only if the pattern is unbordered or is one character repeated. The pattern the updater
  uses is unbordered.
- **Empty pattern** (`recovery/recovery_updater.cpp:99-104`). The tables are filled before the test
  for an empty pattern, and filling them reads out of range; the model asks for a non-empty one.
- **SBAS ids** (`gps/gnss/GnssAdapter.cpp:1770-1824`). The second range is meant for 183..191, but
  ids up to 246 pass the range test, and from 208 on the shift is by 64 or more, which C++ leaves
  undefined. `InRange` excludes exactly these (`InRangeIff`, with 208 as the first).
- **Completed trips** (`gps/batching/BatchingAdapter.cpp:669-681`). An entry is erased and then
  still read; the model reads the values it had.
- **Late trips** (`gps/batching/BatchingAdapter.cpp:828-838`). The restart for a joining trip keeps
  only the distance last reported of the others and forgets the rest. A trip is never reported early,
  but it can be late: `LateTrip` is such a run, and `OnTimeIff` says that a trip is reported as soon as
  it has travelled its goal exactly if no restart for another trip caught it with unreported distance.
- **Too long a distance for the modem** (`gps/batching/BatchingAdapter.cpp:785-823`,
  `gps/batching/BatchingAdapter.cpp:941-1020`). The distance the modem is restarted with can exceed
  what a trip still needs, in three ways: a stop uses the distances last reported (`StaleStop`); a
  restart for the interval alone gives the whole ongoing distance again (`IntervalStop`); and a trip
  that joins once the odometer has passed the ongoing distance meets a wrapped difference (`LateJoin`).
  `ServesThroughoutIff` says exactly which runs never do so. For a stop that replaces the distance the
  condition is on the counters before it: a trip that needs least must have nothing unreported
  (`MinimumFitsIff`). Reports never break it.
- **Drop flags** (`gps/batching/BatchingAdapter.cpp:674-682`, `gps/batching/BatchingAdapter.cpp:886-894`).
  The flags that note a dropped minimum are never cleared. After the first such drop every later one
  restarts the modem, even where no trip left needs less (`PendingDropCutsIff`).
- **Raised tracking intervals** (`gps/gnss/GnssAdapter.cpp:3243-3305`). An update that raises an
  interval can leave the modem at the old rate, as in `RaisedInterval`; `UpdateTracking` says exactly
  when, in terms of the sessions before the update, and `Drive` which runs never do so.
- **NFW control** (`gps/gnss/GnssAdapter.cpp:5778-5811`). The support check and the posted step are
  not atomic. A late step can lead the modem astray, as in `LateNfwLocksMo`; `ProperIff` says in which
  runs it holds the proper lock: until a switch of the session or an engine restart puts it right.
- **Client removal of geofences** (`gps/geofence/GeofenceAdapter.cpp:57-68`). The answer erases by
  hardware id alone. If it comes after an engine restart, when the id belongs to another geofence, the
  index leads nowhere: `LateRemovalAnswer`. `AgreesThroughoutIff` says exactly which runs keep the maps
  in agreement.
- **Network connects** (`gps/core/SystemStatus.h:524-537`). The type bit is set even if the table
  refuses the entry, as in `RefusedConnect`; `Collate` says exactly when bit and table agree.
- **AGPS reports** (`gps/gnss/Agps.cpp:627-662`). The machine for a type is used without a check
  that it exists.
- **AGPS modem restart** (`gps/gnss/Agps.cpp:495-506`). It empties the list but leaves the state, so
  nobody is served afterwards unless the machine was released (`SsrServesIff`).
- **AGPS subscribe of a waiting handle** (`gps/gnss/Agps.cpp:92-98`). A handle that is listed as inactive
  is told that its connection is open, but it is not made active (`SwallowedSubscribe`,
  `SubscribeActivatesIff`; `InactiveInAcquired` is a run that leads there).
- **AGPS deletion** (`gps/gnss/Agps.cpp:413-430`). The subscriber to delete is the list's own node
  when it comes from `releaseATL`: the loop frees it and goes on comparing later entries with it. The
  model compares with the handle it had, which is what the loop finds if the memory is still intact.

## Model

| member | source | states |
|---|---|---|
| BoyerMoore.MaxSuffixLen | recovery/recovery_updater.cpp:47-55 | the matched suffix ending at `p` is maximal: it matches, and it either reaches `p` or is followed by a mismatch |
| BoyerMoore.MakeDelta1 | recovery/recovery_updater.cpp:60-69 | every entry is the distance from the last character to the rightmost earlier occurrence, or the length |
| BoyerMoore.PrefixPass | recovery/recovery_updater.cpp:72-82 | the first pass leaves, for every index, the prefix-pass shift with the matched part added |
| BoyerMoore.LastPrefixIsNearestBorder | recovery/recovery_updater.cpp:74-82 | the prefix pass remembers the nearest border start at or after an index, plus one, or the length less one if there is none |
| BoyerMoore.SuffixLenGivesShift | recovery/recovery_updater.cpp:84-90 | a round of the second pass finds the one index, if any, whose good-suffix shift is that round's |
| BoyerMoore.SuffixRound | recovery/recovery_updater.cpp:84-90 | one round takes the table for shifts from `s + 1` to the table for shifts from `s`: later rounds overwrite with smaller shifts |
| BoyerMoore.MakeDelta2 | recovery/recovery_updater.cpp:72-91 | every entry encodes the smallest good-suffix shift, or the prefix-pass shift if there is none |
| BoyerMoore.UnborderedShift | recovery/recovery_updater.cpp:71-91 | for an unbordered pattern the entry is the smallest good-suffix shift, or the length less one |
| BoyerMoore.Delta1Exact | recovery/recovery_updater.cpp:60-69 | the first table leads exactly to the nearest earlier place of the character, or past the whole pattern if there is none |
| BoyerMoore.Shift2Exact | recovery/recovery_updater.cpp:71-91 | for every NUL-free pattern the second table is the smallest good-suffix shift, or one more than the nearest border start, or the length less one |
| BoyerMoore.Mismatch | recovery/recovery_updater.cpp:108-113 | the rightmost mismatch of an alignment, or none |
| BoyerMoore.MatchBackwards | recovery/recovery_updater.cpp:108-113 | the inner loop stops at the rightmost mismatch |
| BoyerMoore.NextStart | recovery/recovery_updater.cpp:116 | the alignment strictly moves on, so the search ends |
| BoyerMoore.SearchStep | recovery/recovery_updater.cpp:108-116 | a rightmost mismatch found by any means decides the round of the search |
| BoyerMoore.JumpIsLarger | recovery/recovery_updater.cpp:116 | after a mismatch the pattern moves by exactly the larger of the two shifts, told from the text and the pattern |
| BoyerMoore.Delta1NeverSkips | recovery/recovery_updater.cpp:58-69 | a jump by the first table never passes over an occurrence, for any pattern |
| BoyerMoore.Delta2NeverSkips | recovery/recovery_updater.cpp:71-91 | a jump by the second table never passes over an occurrence of an unbordered or constant pattern |
| BoyerMoore.JumpNeverSkips | recovery/recovery_updater.cpp:116 | no occurrence starts before the next alignment |
| BoyerMoore.SearchReturnsOccurrence | recovery/recovery_updater.cpp:106-119 | whatever the pattern, and with any tables that move on, a result is a true occurrence |
| BoyerMoore.SearchFindsFirst | recovery/recovery_updater.cpp:93-120 | from any alignment with no occurrence before it, the search gives the first occurrence, or none if there is none |
| BoyerMoore.BorderedShift | recovery/recovery_updater.cpp:77-81 | a bordered, non-constant pattern jumps one past its nearest border on a mismatch at index 1 |
| BoyerMoore.MissedOccurrence | recovery/recovery_updater.cpp:77-82 | every bordered, non-constant pattern has a text that holds it and in which it is not found |
| BoyerMoore.SearchIsCompleteIff | recovery/recovery_updater.cpp:93-120 | a NUL-free pattern is searched correctly in every text if and only if it is unbordered or one character repeated |
| BoyerMoore.SearchLoop | recovery/recovery_updater.cpp:106-119 | the loop over 32-bit indices computes the search function, with every read in range and no overflow |
| BoyerMoore.Search | recovery/recovery_updater.cpp:93-120 | the whole search: a result is an occurrence, and for unbordered or constant patterns it is that of a naive search |
| BoyerMoore.TzVersionStringIsSearchable | recovery/recovery_updater.cpp:40-42 | the one pattern in use has the stated length and is found in every text that holds it |
| SvBlacklist.GetNumSvUsed | gps/gnss/GnssAdapter.cpp:337-356 | the number of set bits below `total`, and 0 for a total over 64 |
| SvBlacklist.AddEntry | gps/gnss/GnssAdapter.cpp:1749-1813 | one list entry sets exactly the bits it names (all of them for id 0) and changes no other |
| SvBlacklist.InRangeIff | gps/gnss/GnssAdapter.cpp:1770-1812 | an entry is excluded exactly if its id passes the range tests and is shifted by 64 or more |
| SvBlacklist.ToConfig | gps/gnss/GnssAdapter.cpp:1731-1833 | the masks hold exactly what they held and what the list names; an empty list clears them; the result tells whether anything is set |
| SvBlacklist.MaskToList | gps/gnss/GnssAdapter.cpp:1883-1921 | one mask appends its entries in bit order, or the single id 0 for all ones |
| SvBlacklist.AppendSbasMask | gps/gnss/GnssAdapter.cpp:1859-1875 | the two shifted SBAS calls give the entries of the whole mask over both id ranges |
| SvBlacklist.FromConfig | gps/gnss/GnssAdapter.cpp:1835-1881 | the list of all six masks, constellation by constellation, is appended to the given one |
| SvBlacklist.EntriesAscend | gps/gnss/GnssAdapter.cpp:1883-1921 | the ids of one constellation ascend strictly within its range, one per set bit |
| SvBlacklist.MaskListListed | gps/gnss/GnssAdapter.cpp:1883-1921 | the list of a mask names exactly the satellites of its set bits |
| SvBlacklist.MasksByName | gps/gnss/GnssAdapter.cpp:1749-1833 | mask by mask and id by id: which satellite bit `k` of each of the six masks stands for, SBAS with its two ranges |
| SvBlacklist.MaskListSize | gps/gnss/GnssAdapter.cpp:1883-1921 | a full mask is a single entry, except for SBAS; any other has one entry per set bit |
| SvBlacklist.ConfigListInOrder | gps/gnss/GnssAdapter.cpp:1835-1881 | the list goes by constellation in the order of the calls, and ascends by id within each |
| SvBlacklist.ConfigListMeansConfig | gps/gnss/GnssAdapter.cpp:1835-1881 | the list made from six masks names exactly what the masks hold |
| SvBlacklist.ConfigIsUnique | gps/gnss/GnssAdapter.cpp:1731-1833 | masks depend on the set of entries only, not on order or duplicates |
| SvBlacklist.MaskRoundTrip | gps/gnss/GnssAdapter.cpp:1731-1921 | masks to list and back, from a cleared configuration, restores all six masks |
| SvBlacklist.ListNormalForm | gps/gnss/GnssAdapter.cpp:1731-1921 | list to masks to list names the same satellites and is a normal form: doing it again changes nothing |
| Tracking.MinAfterSet | gps/gnss/GnssAdapter.cpp:3010-3052 | setting one session's options gives the minimum of its interval and the others' smallest |
| Tracking.RateStillWanted | gps/gnss/GnssAdapter.cpp:3243-3305 | without a restart the rate is still the smallest exactly when some session still asks for it |
| Tracking.UndercutsSmallest | gps/gnss/GnssAdapter.cpp:3030-3040 | comparing with the two minima found is undercutting every other session in interval, or in every power mode that counts |
| Tracking.UndercutsNobodyIff | gps/gnss/GnssAdapter.cpp:3030-3040 | where all others state a power mode, options undercut nobody exactly if some other asks for as short an interval and some other for as low a mode |
| OrderedWalk.OneMore | gps/gnss/GnssAdapter.cpp:3022-3027 | one more session of the walk, in the order of the map: the mode found is the smallest beyond the last session that states none |
| OrderedWalk.MinimumWithoutZeros | gps/gnss/GnssAdapter.cpp:3022-3027 | if every session states a mode, it is the minimum |
| Tracking.TrackingMultiplexer.RunEngine | gps/gnss/GnssAdapter.cpp:217-238 | the modem runs at the requested interval, or at 100 ms while nHz is needed, and is not started again when it is recorded to run at that rate |
| Tracking.TrackingMultiplexer.Smallest | gps/gnss/GnssAdapter.cpp:3010-3028 | the walk finds the smallest interval and power mode of the other sessions, also where some state no power mode |
| Tracking.TrackingMultiplexer.SmallestOthers | gps/gnss/GnssAdapter.cpp:3010-3040 | the comparisons with what the walk found decide exactly whether options undercut all other sessions |
| Tracking.TrackingMultiplexer.StartTracking | gps/gnss/GnssAdapter.cpp:2999-3052 | the clamped session is added, the modem still serves all; without nHz it is restarted exactly when the new session undercuts all others, at the exact minimum, and else left alone |
| Tracking.TrackingMultiplexer.UpdateMultiplex | gps/gnss/GnssAdapter.cpp:3243-3305 | the modem serves the sessions with the new options, and is restarted exactly when they changed and undercut all others |
| Tracking.TrackingMultiplexer.UpdateTracking | gps/gnss/GnssAdapter.cpp:3243-3305 | the new options are saved, and options already saved change nothing; without nHz the modem is restarted exactly when they changed and undercut all others, and an exact interval stays exact if and only if the update restarts the modem, asks for its rate, or another session does, all told from the state before |
| Tracking.RaisedInterval | gps/gnss/GnssAdapter.cpp:3243-3305 | an update from 1000 to 5000 beside a session at 2000 leaves the modem at 1000 |
| Tracking.TrackingMultiplexer.StopTracking | gps/gnss/GnssAdapter.cpp:3360-3427 | the session goes, the modem stops with the last one; without nHz it is restarted exactly when the session undercut all others, at the exact minimum, and else left alone |
| Tracking.TrackingMultiplexer.RestartSPESession | gps/gnss/GnssAdapter.cpp:2616-2683 | a fresh start re-establishes the invariant and, without nHz, the exact minimum |
| Tracking.TrackingMultiplexer.UpdateNHzRequirement | gps/gnss/GnssAdapter.cpp:6555-6558 | a change of the nHz need keeps the invariant; its end gives the exact minimum |
| Tracking.TrackingMultiplexer.SuspendAndRestart | gps/gnss/GnssAdapter.cpp:2593-2649 | suspension and restart keep the sessions and give the exact minimum without nHz |
| Tracking.TrackingMultiplexer.StopClientSessions | gps/gnss/GnssAdapter.cpp:2450-2465 | exactly the client's sessions are stopped |
| Tracking.OnlyRaisesLoosen | gps/gnss/GnssAdapter.cpp:3243-3305 | an update that raises no interval always keeps the smallest rate |
| Tracking.UpdateExactIff | gps/gnss/GnssAdapter.cpp:3243-3305 | some session still asks for the smallest interval exactly if the update or another session does |
| Tracking.Step | gps/gnss/GnssAdapter.cpp:2999-3427 | one event keeps the modem at the smallest interval exactly if it is no update that leaves that interval unasked for without a restart, or nHz is needed |
| Tracking.Drive | gps/gnss/GnssAdapter.cpp:2999-3427 | after each event of any run the modem runs exactly if there are sessions, serves each, and runs at 100 ms while nHz is needed; without nHz it is at the smallest interval throughout if and only if every update keeps it so |
| GpsLock.GpsLockControl.EnableCommand | gps/gnss/GnssAdapter.cpp:3556-3578 | errors change nothing; a new session sends the proper lock and, under "Q", unlocks MO |
| GpsLock.GpsLockControl.DisableCommand | gps/gnss/GnssAdapter.cpp:3609-3629 | a foreign id changes nothing; closing sends the proper lock and, under "Q", locks MO |
| GpsLock.GpsLockControl.NfwControlCommand | gps/gnss/GnssAdapter.cpp:5778-5811 | under "P" nothing happens; under "Q" only the NI bit moves and the lock is sent |
| GpsLock.GpsLockControl.NfwControlStep | gps/gnss/GnssAdapter.cpp:5790-5803 | the posted step moves only the NI bit, and leaves the proper lock exactly under "Q" or without a session, however the lock was before |
| GpsLock.GpsLockControl.UpdateConfigCommand | gps/gnss/GnssAdapter.cpp:1313-1343 | the switch to "P": the configured lock with MO; the proper lock is sent exactly under "Q" or without a session |
| GpsLock.GpsLockControl.SetConfig | gps/gnss/GnssAdapter.cpp:897-917 | the proper lock is sent, which changes the last one exactly if that was not proper |
| GpsLock.LateNfwLocksMo | gps/gnss/GnssAdapter.cpp:5790-5811 | a step posted under "Q" and run under "P" with a session open leaves MO locked |
| GpsLock.AstrayMeans | gps/gnss/GnssAdapter.cpp:5790-5811 | a run is led astray only under "P" with a session open, and then the modem has MO locked |
| GpsLock.ProperIff | gps/gnss/GnssAdapter.cpp:897-917 | after any run, late steps included, the modem holds the proper lock exactly if no late step has led it astray since the last switch of the session or engine restart |
| GpsLock.ProperMeans | gps/gnss/GnssAdapter.cpp:897-917 | the proper lock locks nothing under "P" with a session open, and is the configured one otherwise |
| GpsLock.NiFollowsControl | gps/gnss/GnssAdapter.cpp:5778-5811 | under "Q" the modem's NI bit stays where the last NFW control put it, whatever sessions come and go |
| GpsLock.RestartKeepsLockIff | gps/gnss/GnssAdapter.cpp:897-917 | an engine restart gives the proper lock, and changes what the modem holds exactly if it was led astray |
| GpsLock.ProperMoFollowsSession | gps/gnss/GnssAdapter.cpp:3556-3629 | if the configuration file locks MO, the proper MO lock is on exactly while no session is open |
| GpsLock.MoFollowsSessionIff | gps/gnss/GnssAdapter.cpp:3556-3629 | the modem's MO lock then follows the session exactly if it is not led astray |
| GpsLock.Handle | gps/gnss/GnssAdapter.cpp:3556-3629 | the adapter's methods change behaviour, session, lock and sent locks as the run functions say |
| GpsLock.Drive | gps/gnss/GnssAdapter.cpp:897-917 | the last lock sent in any run is exactly the one the events determine, and none was sent only if no event gives one |
| Odcpi.EveryRunKeeps | gps/gnss/GnssAdapter.cpp:4814-4861 | request, timer, handler and stored request are told from the events: wanted by the last START, STOP or modem restart; busy from a START to an expiry that finds none wanted; the last START asked for; and an active request implies an active timer |
| Odcpi.ExpiryForwardsIff | gps/gnss/GnssAdapter.cpp:4993-5006 | an expiry with a wanted request forwards exactly the last START asked for, and one without forwards nothing |
| Odcpi.RequestForwardsIff | gps/gnss/GnssAdapter.cpp:4814-4861 | with a handler, a START is forwarded exactly if the timer is not busy or it is an emergency and the last START was not; every STOP is; without a handler nothing is |
| Odcpi.WantedIsAskedAgain | gps/gnss/GnssAdapter.cpp:4993-5006 | while a request stays wanted, each expiry processed is matched by a START that is forwarded |
| Odcpi.LatestOfHighestPriority | gps/gnss/GnssAdapter.cpp:4931-4942 | in any run the callback in use is the latest of those of the highest priority offered |
| Odcpi.TimerIsArmedWhenIdle | gps/gnss/GnssAdapter.h:60-87 | the active flag tells what the underlying timer was last told, and it is never started while it runs |
| Odcpi.ForwardedStartsArm | gps/gnss/GnssAdapter.cpp:4826-4843 | every START that is forwarded arms the timer afresh |
| Odcpi.TimerIsTold | gps/gnss/GnssAdapter.h:60-87 | the timer is started exactly with a forwarded START, and stopped exactly by an expiry or before such a start if it is busy |
| Odcpi.TimerRunsUntilExpiry | gps/gnss/GnssAdapter.cpp:4814-4861 | after a forwarded START the timer stays active until an expiry is processed |
| Odcpi.PlainStartsAreThrottled | gps/gnss/GnssAdapter.cpp:4814-4861 | between a forwarded START and a later non-emergency one an expiry was processed, across STOP, upgrade and restart |
| Odcpi.PlainStartsAreBounded | gps/gnss/GnssAdapter.cpp:4993-5006 | a run forwards at most one non-emergency START more than it processes expiries |
| Odcpi.OdcpiTimer.Restart | gps/gnss/GnssAdapter.h:73-76 | a restart stops the underlying timer and starts it again |
| Odcpi.OdcpiMachine.InitOdcpi | gps/gnss/GnssAdapter.cpp:4931-4942 | a callback is taken exactly if its priority is not below that of the one in use |
| Odcpi.OdcpiMachine.RequestOdcpi | gps/gnss/GnssAdapter.cpp:4814-4861 | takes the specified step for a request: state, forwarded requests and timer calls |
| Odcpi.OdcpiMachine.OdcpiTimerExpire | gps/gnss/GnssAdapter.cpp:4993-5006 | an active request is forwarded again and the timer restarted; otherwise the timer is stopped |
| Odcpi.OdcpiMachine.RestartSessions | gps/gnss/GnssAdapter.cpp:2593-2601 | a modem restart calls the request off and leaves the timer |
| Odcpi.Drive | gps/gnss/GnssAdapter.cpp:4814-5006 | any run forwards, and tells the timer, exactly what the steps say |
| ElapsedRealtime.ElapsedRealtimeEstimator.GetElapsedRealtimeEstimate | gps/core/LocApiBase.cpp:932-983 | -1 without clocks; boot less travel time for an untrusted, settling or jumping fix; otherwise the data time plus the difference kept: the estimator refines a reference that never reads the wall clock |
| ElapsedRealtime.ElapsedRealtimeEstimator.Reset | gps/core/LocApiBase.cpp:985-991 | a reset starts settling afresh |
| ElapsedRealtime.Estimates | gps/core/LocApiBase.cpp:932-991 | every estimate of any run from the reset, told from the reports: -1 without clocks, boot less travel time for untrusted fixes and for the first six usable ones since the reset or a jump, and from then on the sixth one's moved on by data time; also wherever settling started |
| ElapsedRealtime.EstimateIsDated | gps/core/LocApiBase.cpp:932-983 | the same for the last report of a run |
| ElapsedRealtime.RunIsTold | gps/core/LocApiBase.cpp:947-977 | anchor and settling count are those of the usable reports since the reset or the last jump |
| ElapsedRealtime.JumpsAreTold | gps/core/LocApiBase.cpp:948-950 | a fix jumps exactly if its time between fixes is known and differs from its step in data time since the last usable report, 0 if there is none |
| ElapsedRealtime.SettledEstimates | gps/core/LocApiBase.cpp:947-977 | in a run from the reset, after six usable fixes the estimate is boot6 - travel time + (data - data6) |
| ElapsedRealtime.SettlesThenAnchors | gps/core/LocApiBase.cpp:948-971 | settling counts down from the reset or a jump, then the anchor stays |
| ElapsedRealtime.WallClockIsIrrelevant | gps/core/LocApiBase.cpp:952-966 | runs that differ in wall-clock readings only give the same estimates |
| ElapsedRealtime.AnchorStays | gps/core/LocApiBase.cpp:947-971 | without data-time jumps the anchor is never lost |
| ElapsedRealtime.AnchoredEstimates | gps/core/LocApiBase.cpp:955-977 | after the anchor every trusted fix gives boot0 - travel time + (data - data0), whatever untrusted fixes came between |
| ElapsedRealtime.SettlesAfterFixes | gps/core/LocApiBase.cpp:948-971 | the sixth trusted fix in a row without a jump becomes the anchor |
| CompactTable.RemovedElements | gps/core/LocApiBase.cpp:242-276 | moving the last entry into the gap removes exactly one element and keeps the rest distinct |
| AdapterTable.TableRefinesSet | gps/core/LocApiBase.cpp:231-276 | any run of registrations and removals keeps a duplicate-free table of exactly the registered set, up to capacity |
| AdapterTable.LocApiBase.AddAdapter | gps/core/LocApiBase.cpp:231-240 | a new adapter is appended and announced if there is room; a known one changes nothing |
| AdapterTable.LocApiBase.RemoveAdapter | gps/core/LocApiBase.cpp:242-276 | the array stays a hole-free prefix without the adapter; a close is sent exactly when it empties |
| AdapterTable.LocApiBase.RemoveAt | gps/core/LocApiBase.cpp:247-273 | the last adapter fills the gap |
| AdapterTable.LocApiBase.GetEvtMask | gps/core/LocApiBase.cpp:168-175 | the union over all registered adapters less the excluded mask |
| NetworkTable.TableRefinesSet | gps/core/SystemStatus.h:514-575 | any run of connects and disconnects keeps one entry per handle, and the table is the plain set of connections |
| NetworkTable.ConnectRefinesSet | gps/core/SystemStatus.h:524-537 | a connect inserts into the set if there is room and the handle is new |
| NetworkTable.DisconnectRefinesSet | gps/core/SystemStatus.h:538-566 | a disconnect removes exactly the (type, handle) pair |
| NetworkTable.TypeMaskMeans | gps/core/data-items/DataItemConcreteTypesBase.h:324-326 | a type has its own bit and no other, and none if it is out of range |
| NetworkTable.TypeLeft | gps/core/SystemStatus.h:545-571 | a type remains after removal exactly when another handle has it |
| NetworkTable.NetworkInfo.constructor | gps/core/data-items/DataItemConcreteTypesBase.h:283-326 | a new item holds its own handle, if known, and its own type bit |
| NetworkTable.NetworkInfo.Collate | gps/core/SystemStatus.h:514-584 | the cached table is taken over with the change applied, and exactly when the own type bit agrees with the table |
| NetworkTable.RefusedConnect | gps/core/SystemStatus.h:524-537 | a handle connected as another type is refused and the bit of the new type is set |
| NetworkTable.NetworkInfo.Insert | gps/core/SystemStatus.h:526-537 | the loop inserts at the first free slot unless the handle is present |
| NetworkTable.NetworkInfo.Delete | gps/core/SystemStatus.h:539-566 | the last entry takes the removed one's slot, and the count tells whether the type remains |
| AgpsSpec.NoticesSplitList | gps/gnss/Agps.cpp:310-343 | in a notify-and-delete walk every listed handle is either told its end or kept |
| AgpsSpec.StepAccounts | gps/gnss/Agps.cpp:73-283 | one event keeps handles distinct, RELEASED empty, and each removal told exactly once |
| AgpsSpec.StepConnects | gps/gnss/Agps.cpp:73-308 | one event keeps the state equal to the framework's view of the connection, with requests well timed |
| AgpsSpec.StepServes | gps/gnss/Agps.cpp:73-283 | one event other than a modem restart leaves PENDING and ACQUIRED with an active subscriber and RELEASING with a subscriber |
| AgpsSpec.SsrServesIff | gps/gnss/Agps.cpp:495-506 | after a modem restart the machine serves exactly if it was released |
| AgpsSpec.EveryRunBalances | gps/gnss/Agps.cpp:41-283 | over any run accepted subscriptions are those listed, told of their end, or dropped by a modem restart; a connection is requested only when absent and released only when present |
| AgpsSpec.GrantedOpens | gps/gnss/Agps.cpp:173-194 | GRANTED tells exactly the active subscribers that the connection is open |
| AgpsSpec.NoticesClose | gps/gnss/Agps.cpp:310-343 | the notices of an end close exactly the handles told |
| AgpsSpec.StepTells | gps/gnss/Agps.cpp:73-283 | one event other than a modem restart keeps it that exactly in ACQUIRED an active subscriber's last word is open |
| AgpsSpec.ActiveAreToldOpen | gps/gnss/Agps.cpp:41-283 | in any run without a modem restart an active subscriber's last word is that the connection is open exactly in ACQUIRED, and nobody who left the list still believes so |
| AgpsSpec.ActiveKnowInEveryRun | gps/gnss/Agps.cpp:41-283 | in every run, modem restarts included, every active subscriber in ACQUIRED has been told so |
| AgpsSpec.SubscribeActivatesIff | gps/gnss/Agps.cpp:73-107 | a subscribe makes its handle active unless the handle is listed as inactive, and in ACQUIRED tells it success either way |
| AgpsSpec.SwallowedSubscribe | gps/gnss/Agps.cpp:92-98 | in ACQUIRED a subscribe of an inactive handle tells it success and changes nothing |
| AgpsSpec.InactiveInAcquired | gps/gnss/Agps.cpp:109-194 | a run that leaves a handle inactive in ACQUIRED |
| AgpsSpec.ManagerRuns | gps/gnss/Agps.cpp:563-676 | under the manager RELEASING is never reached, and before a modem restart RELEASED is exactly an empty list |
| AgpsEffects.ToldWhoIsNotKept | gps/gnss/Agps.cpp:310-343 | a walk tells each entry it does not keep once, and only the kind of the event |
| AgpsEffects.StepIsTold | gps/gnss/Agps.cpp:73-283 | for every event and handle, from the framework's side and the list before: how often it is told of an open, a failed open and a close; when a connection is requested and given up; whether it is listed, and active, afterwards |
| AgpsEffects.StepKeepsWaiting | gps/gnss/Agps.cpp:109-171 | who waits for the close is settled when a handle is listed, and kept |
| AgpsEffects.StepReleasesWhen | gps/gnss/Agps.cpp:109-283 | a connection is being released from when it is given up with someone listed until the release completes or an unsubscribe empties the list |
| AgpsEffects.EndTells | gps/gnss/Agps.cpp:196-283 | a DENIED while the connection is pending, or a RELEASED while it is held, leaves nobody listed, requests and gives up nothing, and tells each entry exactly once of the failed open, or of the close, and nobody else |
| AgpsEffects.EveryRunSays | gps/gnss/Agps.cpp:41-283 | the same for the last event of any run, told from the framework's side of the connection in the ledger, with who waits for the close and whether a connection is being released |
| AgpsEffects.RequestedWhen | gps/gnss/Agps.cpp:73-308 | in any run a connection is requested only by a subscribe when there is none and none is being released, or when a release completes with an active subscriber waiting |
| AgpsEffects.ReleasingIsTold | gps/gnss/Agps.cpp:109-283 | until a modem restart, a connection is being released exactly if there is none and someone is listed |
| AgpsEffects.EndTellsEveryone | gps/gnss/Agps.cpp:196-283 | the same after any run, told from the framework's side of the connection in its ledger |
| AgpsEffects.RequestComesLast | gps/gnss/Agps.cpp:109-283 | a connection is requested or given up after everyone has been told |
| AgpsEffects.InOrder | gps/gnss/Agps.cpp:310-343 | a list in two parts is told, and left, part by part in their order |
| Agps.AgpsStateMachine.GetSubscriber | gps/gnss/Agps.cpp:465-478 | the first entry with the handle, if any |
| Agps.AgpsStateMachine.AnyActiveSubscribers | gps/gnss/Agps.cpp:432-442 | whether some subscriber is active |
| Agps.AgpsStateMachine.AddSubscriber | gps/gnss/Agps.cpp:392-411 | appended unless the handle is listed |
| Agps.AgpsStateMachine.DeleteSubscriber | gps/gnss/Agps.cpp:413-430 | the erasing walk removes every entry with the handle and keeps the order |
| Agps.AgpsStateMachine.NotifyAllSubscribers | gps/gnss/Agps.cpp:310-343 | every targeted subscriber is told in order, and dropped if so asked, by a walk over a shrinking list |
| Agps.AgpsStateMachine.ProcessSubscribe | gps/gnss/Agps.cpp:73-107 | takes the specified subscribe step in every state |
| Agps.AgpsStateMachine.ProcessUnsubscribe | gps/gnss/Agps.cpp:109-171 | takes the specified unsubscribe step in every state |
| Agps.AgpsStateMachine.ProcessGranted | gps/gnss/Agps.cpp:173-194 | takes the specified step |
| Agps.AgpsStateMachine.ProcessReleased | gps/gnss/Agps.cpp:196-241 | takes the specified step: in ACQUIRED everyone is told of the close and the list is emptied |
| Agps.AgpsStateMachine.ProcessDenied | gps/gnss/Agps.cpp:243-283 | takes the specified step: in PENDING everyone is told of the failed open and the list is emptied |
| Agps.AgpsStateMachine.DropAllSubscribers | gps/gnss/Agps.cpp:495-506 | empties the list, tells nobody, keeps the state |
| Agps.AgpsManager.GetAgpsStateMachine | gps/gnss/Agps.cpp:537-561 | SUPL requests and those without a type go to the AGNSS machine, all others to the internet machine |
| Agps.AgpsManager.RequestATL | gps/gnss/Agps.cpp:563-597 | the machine of the type takes the subscribe step, or the open fails at once; the other machine is untouched |
| Agps.AgpsManager.ReleaseATL | gps/gnss/Agps.cpp:599-625 | the first machine that lists the handle takes the unsubscribe step; the other is untouched |
| Agps.AgpsManager.ReportAtl | gps/gnss/Agps.cpp:627-662 | the machine of the type takes the reported step |
| Agps.AgpsManager.HandleModemSSR | gps/gnss/Agps.cpp:664-675 | every machine drops its subscribers |
| TripBatching.ReadingIsCounted | gps/batching/BatchingAdapter.cpp:669-671 | the unsigned subtraction does not wrap, and the reading falls short of the count only by overflow of the sum |
| TripBatching.SmallestMeans | gps/batching/BatchingAdapter.cpp:941-957 | the walk in the order of the session ids finds the smallest value beyond the last zero, and 0 if the last one is zero |
| TripBatching.RemainingIsMinimum | gps/batching/BatchingAdapter.cpp:941-957 | where every trip has distance left, as last reported, the walk finds the minimum |
| TripBatching.IntervalIsMinimum | gps/batching/BatchingAdapter.cpp:941-957 | where every trip asks for a positive interval, the walk finds the minimum |
| TripBatching.WalkEndsAtZeroIff | gps/batching/BatchingAdapter.cpp:941-957 | the walk for the distance ends unset exactly if the trip with the largest id was last reported at its goal |
| TripBatching.RestartForgets | gps/batching/BatchingAdapter.cpp:828-838 | a restart for a joining trip forgets exactly what is not yet reported; one after a drop forgets nothing a counter can hold |
| TripBatching.ReportBalances | gps/batching/BatchingAdapter.cpp:665-689 | at a report a trip completes exactly if what was travelled and not forgotten reaches its goal |
| TripBatching.StepBalances | gps/batching/BatchingAdapter.cpp:656-1023 | one event keeps a trip's counters equal to what it travelled less what was forgotten |
| TripBatching.EveryRunBalances | gps/batching/BatchingAdapter.cpp:656-1023 | after any run the running trips are those of the events and each one's counters balance |
| TripBatching.ReportsExactly | gps/batching/BatchingAdapter.cpp:656-695 | each report names exactly the running trips whose goal and forgotten distance are travelled, told from the events |
| TripBatching.ForgottenIffLossy | gps/batching/BatchingAdapter.cpp:828-838 | distance is forgotten exactly by restarts for other trips that catch a trip with unreported distance |
| TripBatching.OnTimeIff | gps/batching/BatchingAdapter.cpp:656-852 | a trip is reported at the first report at which it has travelled its goal, wherever that falls, if and only if no such restart happened since it joined |
| TripBatching.JoinChanges | gps/batching/BatchingAdapter.cpp:785-838 | a join with a shorter interval, or for less than the modem has to go, starts the modem from zero with the smaller of both distances and intervals and leaves the others what was last reported; any other changes nothing for anyone |
| TripBatching.QuietJoin | gps/batching/BatchingAdapter.cpp:785-838 | the ordinary join leaves odometer, distance, interval and every other trip as they were |
| TripBatching.DropChanges | gps/batching/BatchingAdapter.cpp:962-1020 | what a drop changes for the trips left, in plain comparisons |
| TripBatching.PendingDropCutsIff | gps/batching/BatchingAdapter.cpp:941-997 | trip by trip: when the distance and the interval are replaced after a drop |
| TripBatching.QuietStop | gps/batching/BatchingAdapter.cpp:880-997 | stopping a trip that set neither distance nor interval, with nothing smaller left, changes nothing for the others |
| TripBatching.QuietReport | gps/batching/BatchingAdapter.cpp:662-691 | a report that completes no trip changes only what is reported |
| TripBatching.SettledMeans | gps/batching/BatchingAdapter.cpp:662-686 | a report brings the trips short of their goal up to date, drops exactly the others, and notes whether they set distance or interval |
| TripBatching.ReportResets | gps/batching/BatchingAdapter.cpp:656-1020 | when the trip that set the distance completes, the modem starts again with exactly what the neediest trip needs |
| TripBatching.LateTrip | gps/batching/BatchingAdapter.cpp:785-838 | a run in which a trip has travelled its goal of 100 and is not reported, 40 being forgotten |
| TripBatching.JoinServesIff | gps/batching/BatchingAdapter.cpp:785-838 | for a joining trip the modem is set for no more than any trip needs whenever the odometer has not passed the ongoing distance, and otherwise exactly if the new distance fits what was last reported of each |
| TripBatching.DropServesIff | gps/batching/BatchingAdapter.cpp:962-1020 | after a drop it is, where the distance is replaced, exactly if a trip that needs least has nothing unreported (or, with an overdue trip, none is beyond its goal and the walk ends at zero), and where only the interval is, exactly if every trip needs the whole ongoing distance |
| TripBatching.MinimumFitsIff | gps/batching/BatchingAdapter.cpp:941-957 | the smallest remaining distance as last reported fits what all trips need exactly under that condition on the counters |
| TripBatching.PendingMinimumIff | gps/batching/BatchingAdapter.cpp:941-957 | with every trip short of its goal: exactly if a trip that needs least has nothing unreported |
| TripBatching.UpToDateFits | gps/batching/BatchingAdapter.cpp:941-997 | with counters up to date and distance left, a replaced distance always fits |
| TripBatching.ReportServes | gps/batching/BatchingAdapter.cpp:656-695 | a report never sets the modem for more than any trip needs |
| TripBatching.ServesThroughoutIff | gps/batching/BatchingAdapter.cpp:656-1023 | in any run the modem is never set for more than a trip needs if and only if each restart for a join past the ongoing distance, and each after a stop, finds the counters so that it fits |
| TripBatching.StaleStop | gps/batching/BatchingAdapter.cpp:941-957 | a stop before any report sets the modem for 200 where the trip left needs 150 |
| TripBatching.StopOfDistance | gps/batching/BatchingAdapter.cpp:880-1020 | stopping the one of two trips that set the distance sets the modem for what the other was last reported to have left, right exactly if nothing of it is unreported |
| TripBatching.IntervalStop | gps/batching/BatchingAdapter.cpp:988-1000 | a stop with all counters up to date sets the modem for 100 where the trip left needs 50 |
| TripBatching.StopOfInterval | gps/batching/BatchingAdapter.cpp:880-1020 | stopping the one of two trips that set only the interval sets the modem for the whole ongoing distance, right exactly if the other needs that much |
| TripBatching.LateJoin | gps/batching/BatchingAdapter.cpp:810-823 | a join past the ongoing distance sets the modem for 500 where a trip needs 100 |
| TripBatching.StepServesInterval | gps/batching/BatchingAdapter.cpp:785-1003 | one event keeps the interval no longer than any trip's, if all ask for a positive one |
| TripBatching.IntervalServesInRuns | gps/batching/BatchingAdapter.cpp:785-1003 | every run keeps the interval no longer than any trip's, if all ask for a positive one |
| TripBatching.TripMultiplexer.StartTrip | gps/batching/BatchingAdapter.cpp:743-852 | takes the specified start step: the first trip starts the modem, a later one joins |
| TripBatching.TripMultiplexer.JoinTrip | gps/batching/BatchingAdapter.cpp:780-852 | takes the specified join step: odometer, distance and interval stay exactly unless the trip asks for a shorter interval or for less than the modem has to go |
| TripBatching.TripMultiplexer.OnJoin | gps/batching/BatchingAdapter.cpp:785-823 | a restart exactly for a shorter interval, or for less than the modem has to go, in plain comparisons, with the minimum of both and of what is left |
| TripBatching.TripMultiplexer.CarryOver | gps/batching/BatchingAdapter.cpp:832-838 | every trip's counters are carried over the restart |
| TripBatching.TripMultiplexer.ReportCompletedTrips | gps/batching/BatchingAdapter.cpp:656-695 | takes the specified report step and returns exactly the complete trips |
| TripBatching.TripMultiplexer.DropCompleted | gps/batching/BatchingAdapter.cpp:662-686 | the loop updates every trip, drops exactly the complete ones and notes dropped minima |
| TripBatching.TripMultiplexer.StopTrip | gps/batching/BatchingAdapter.cpp:880-896 | takes the specified stop step: that trip goes, and the modem is readjusted from the distances last reported |
| TripBatching.TripMultiplexer.SmallestNeeds | gps/batching/BatchingAdapter.cpp:941-957 | the walk finds the smallest remaining distance, as last reported, and the smallest interval |
| TripBatching.TripMultiplexer.OnDrop | gps/batching/BatchingAdapter.cpp:962-997 | when the trips left need a restart, in plain comparisons, and at what distance and interval |
| TripBatching.TripMultiplexer.RestartTripBatching | gps/batching/BatchingAdapter.cpp:917-1023 | without trips the modem is idle; otherwise it is readjusted from the distances last reported, as specified |
| TripBatching.Handle | gps/batching/BatchingAdapter.cpp:656-1023 | the adapter takes the steps of the runs |
| TripBatching.Drive | gps/batching/BatchingAdapter.cpp:656-1023 | in any run, at each report exactly those running trips are reported that have travelled their goal and whatever was forgotten of it |
| Geofence.InverseIffNoOrphans | gps/geofence/GeofenceAdapter.cpp:640-682 | maps that agree are mutual inverses exactly when every geofence held is claimed by a client |
| Geofence.StepKeepsIff | gps/geofence/GeofenceAdapter.cpp:46-172 | one event keeps the maps in agreement exactly if it is no successful answer that finds its hardware id with a client, and then the unclaimed geofences are those awaiting removal |
| Geofence.EveryRunAgrees | gps/geofence/GeofenceAdapter.cpp:46-682 | while answers keep the agreement an indexed key leads to a geofence that carries it, and the maps are mutual inverses exactly when no geofence awaits its removal |
| Geofence.AgreesThroughoutIff | gps/geofence/GeofenceAdapter.cpp:46-682 | in runs with fresh keys, engine restarts and late answers included, the maps agree throughout if and only if every successful removal answer finds its hardware id with no client |
| Geofence.NoReuseAgrees | gps/geofence/GeofenceAdapter.cpp:46-682 | they do if the modem never reuses the hardware id of an outstanding removal |
| Geofence.LateRemovalAnswer | gps/geofence/GeofenceAdapter.cpp:57-68 | an answer after an engine restart leaves a key that leads to no geofence |
| Geofence.Handle | gps/geofence/GeofenceAdapter.cpp:46-682 | the adapter's methods take exactly the steps of those runs |
| Geofence.BreachIdsResolve | gps/geofence/GeofenceAdapter.cpp:782-814 | an id told to a client leads back to the geofence reported, unless its removal is under way |
| Geofence.BreachReachesOwnerOnly | gps/geofence/GeofenceAdapter.cpp:782-814 | a reported position is told to a client exactly if its geofence is the client's |
| Geofence.BreachIdsInOrder | gps/geofence/GeofenceAdapter.cpp:788-799 | the same for the list as a function of the report |
| Geofence.BreachIsDetermined | gps/geofence/GeofenceAdapter.cpp:782-814 | only one list can be told: order and repetitions follow from the report |
| Geofence.GeofenceAdapter.GetHwIdFromClient | gps/geofence/GeofenceAdapter.cpp:92-102 | a key resolves exactly when indexed, to a geofence that carries it |
| Geofence.GeofenceAdapter.SaveGeofenceItem | gps/geofence/GeofenceAdapter.cpp:640-657 | a fresh key and hardware id are indexed both ways, unpaused |
| Geofence.GeofenceAdapter.RemoveGeofenceItem | gps/geofence/GeofenceAdapter.cpp:659-682 | both entries go, unless the client's entry went before |
| Geofence.GeofenceAdapter.PauseOrResumeGeofenceItem | gps/geofence/GeofenceAdapter.cpp:684-706 | only the paused flag of that geofence changes |
| Geofence.GeofenceAdapter.ModifyGeofenceItem | gps/geofence/GeofenceAdapter.cpp:708-720 | only the options of that geofence change |
| Geofence.GeofenceAdapter.StopClientSessions | gps/geofence/GeofenceAdapter.cpp:46-74 | exactly the client's keys leave the index, and exactly their geofences become unclaimed |
| Geofence.GeofenceAdapter.ClientRemovalAnswered | gps/geofence/GeofenceAdapter.cpp:57-68 | the answer erases by hardware id, and the maps agree after it exactly when no client holds that id |
| Geofence.GeofenceAdapter.RestartGeofences | gps/geofence/GeofenceAdapter.cpp:137-172 | after an engine restart the maps are rebuilt as mutual inverses from the modem's new ids |
| Geofence.GeofenceAdapter.GeofenceBreach | gps/geofence/GeofenceAdapter.cpp:782-814 | the ids told are the client's own of the positions of the report it owns: all of them, once each and in their order |
| Geofence.GeofenceAdapter.NotifyBreach | gps/geofence/GeofenceAdapter.cpp:782-814 | exactly the clients with a callback that own a reported geofence are called, each with that list |

## Left out

- Fingerprint, lights, camera, audio, init and release code: HAL plumbing, file access and fixed tables.
- NMEA text, positions and antenna corrections: floating point and external libraries.
- Message queues, dynamic loading and configuration files; the partition that the updater reads is a parameter of the search.
- `gps/core/SystemStatusOsObserver.cpp`: its central container, `LocUnorderedSetMap`, is not part of this model.
- The power mode the modem is given: an interval-only restart takes that of the session with the smallest interval, so no minimum is kept. The fallback from mode M4 to M2 for a large time between measurements is outside the model too.
- Distance-based tracking, roll-back after a failed modem start, and a second start while the first is unanswered.
- TripBatching.Drive: requires a total distance below 2^32, which the odometer's width gives.
- TripBatching.TripMultiplexer.JoinTrip: the branch for a failed distance query is left out.
- Trips across an engine restart, failed queries and restarts, event masks, and the order of the list of completed trips.
- ElapsedRealtime.ElapsedRealtimeEstimator.GetElapsedRealtimeEstimate: nanosecond times are unbounded integers, so 64-bit overflow is not modelled; the retries of the clock read and the Qtimer variant are outside.
- Agps.AgpsStateMachine.ProcessUnsubscribe: the current subscriber is an index into a list of values, so aliasing is not captured; APN and bearer are left out.
- GPS lock bits other than MO and NI.
- SvBlacklist.ToConfig: lists with SBAS ids 208..246 are excluded, because C++ leaves their shift undefined.
- SvBlacklist.AddEntry: as for `ToConfig`.
- Agps.AgpsStateMachine.DeleteSubscriber: the comparison with the freed node is replaced by one with the handle it had.
- Agps.AgpsManager.RequestATL: the type and APN mask stored in the machine are left out.
- Agps.AgpsManager.ReportAtl: the bearer and APN settings of a success are left out.
- Masks are sequences of 64 booleans, with the shifts written out, and not machine words.
- NetworkTable.NetworkInfo.Collate: of `mAllTypes` only the item's own type bit is related to the table; the copy back to the source object and `equals` are left out.
- Geofence.GeofenceAdapter.RestartGeofences: the modem's answers are a parameter and arrive together.
