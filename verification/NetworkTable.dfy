/** The table of connected networks (`SystemStatusNetworkInfo::collate` of
    gps/core/SystemStatus.h). */
module NetworkTable {
  import opened CompactTable
  import opened Word64

  const MAX_NETWORK_HANDLES := 10
  const NETWORK_HANDLE_UNKNOWN := 0xFFFF_FFFF_FFFF_FFFF
  const TYPE_MOBILE := 0
  const TYPE_UNKNOWN := 10

  datatype Entry = Entry(handle: nat, networkType: int)

  /** The bit of a network type, none for a type out of range. */
  function TypeMask(networkType: int): Word {
    if TYPE_MOBILE <= networkType < TYPE_UNKNOWN then OneBit(networkType) else ZERO
  }

  lemma TypeMaskMeans(networkType: int, k: nat)
    requires k < 64
    ensures TypeMask(networkType)[k] <==> networkType == k && k < 10
    ensures TypeMask(networkType) == ZERO <==> !(0 <= networkType < 10)
  {
    if 0 <= networkType < 10 {
      assert TypeMask(networkType)[networkType];
    }
  }

  // ----- Tables as sequences ------------------------------------------------------------

  ghost predicate UniqueHandles(s: seq<Entry>) {
    && (forall i :: 0 <= i < |s| ==> s[i].handle != NETWORK_HANDLE_UNKNOWN)
    && forall i, j :: 0 <= i < j < |s| ==> s[i].handle != s[j].handle
  }

  predicate HasHandle(s: seq<Entry>, handle: nat) {
    exists i :: 0 <= i < |s| && s[i].handle == handle
  }

  predicate HasType(s: seq<Entry>, networkType: int) {
    exists i :: 0 <= i < |s| && s[i].networkType == networkType
  }

  /** One of the first `n` entries has the type of `e` but another handle. */
  predicate HasOtherOfType(s: seq<Entry>, n: nat, e: Entry)
    requires n <= |s|
  {
    exists i :: 0 <= i < n && s[i].networkType == e.networkType && s[i].handle != e.handle
  }

  /** The array holds `s` and then unused slots only. */
  ghost predicate Holds(slots: array<Entry>, s: seq<Entry>)
    reads slots
  {
    && slots.Length == MAX_NETWORK_HANDLES && |s| <= MAX_NETWORK_HANDLES && UniqueHandles(s)
    && (forall i :: 0 <= i < |s| ==> slots[i] == s[i])
    && forall i :: |s| <= i < MAX_NETWORK_HANDLES ==> slots[i].handle == NETWORK_HANDLE_UNKNOWN
  }

  predicate Accepts(s: seq<Entry>, handle: nat) {
    |s| < MAX_NETWORK_HANDLES && handle != NETWORK_HANDLE_UNKNOWN && !HasHandle(s, handle)
  }

  datatype Event = Connect(e: Entry) | Disconnect(e: Entry)

  function NextTable(s: seq<Entry>, event: Event): seq<Entry> {
    match event
    case Connect(e) => if Accepts(s, e.handle) then s + [e] else s
    case Disconnect(e) => if TypeMask(e.networkType) == ZERO then s else Removed(s, e)
  }

  function TableAfter(events: seq<Event>): seq<Entry> {
    if events == [] then [] else NextTable(TableAfter(events[..|events| - 1]), events[|events| - 1])
  }

  /** The plain set of connected (handle, type) pairs. */
  function NextSet(s: set<Entry>, event: Event): set<Entry> {
    match event
    case Connect(e) =>
      if |s| < MAX_NETWORK_HANDLES && e.handle != NETWORK_HANDLE_UNKNOWN
         && (forall f :: f in s ==> f.handle != e.handle)
      then s + {e} else s
    case Disconnect(e) => if TYPE_MOBILE <= e.networkType < TYPE_UNKNOWN then s - {e} else s
  }

  function SetAfter(events: seq<Event>): set<Entry> {
    if events == [] then {} else NextSet(SetAfter(events[..|events| - 1]), events[|events| - 1])
  }

  lemma RemovedKeepsHandles(s: seq<Entry>, e: Entry)
    requires UniqueHandles(s)
    ensures UniqueHandles(Removed(s, e)) && NoDuplicates(s)
  {
  }

  lemma TypeLeft(s: seq<Entry>, e: Entry)
    requires UniqueHandles(s)
    ensures HasType(Removed(s, e), e.networkType) <==> HasOtherOfType(s, |s|, e)
  {
    RemovedKeepsHandles(s, e);
    RemovedElements(s, e);
    var r := Removed(s, e);
    if i :| 0 <= i < |s| && s[i].networkType == e.networkType && s[i].handle != e.handle {
      assert s[i] in Elements(r);
    }
    if i :| 0 <= i < |r| && r[i].networkType == e.networkType {
      assert r[i] in Elements(s);
    }
  }

  lemma TypeAfterConnect(s: seq<Entry>, e: Entry)
    ensures HasType(NextTable(s, Connect(e)), e.networkType) <==> Accepts(s, e.handle) || HasType(s, e.networkType)
  {
    var after := NextTable(s, Connect(e));
    if Accepts(s, e.handle) {
      assert after[|s|].networkType == e.networkType;
    }
  }

  lemma HandleTaken(s: seq<Entry>, handle: nat)
    ensures HasHandle(s, handle) <==> exists f :: f in Elements(s) && f.handle == handle
  {
    if i :| 0 <= i < |s| && s[i].handle == handle {
      assert s[i] in Elements(s);
    }
  }

  lemma ConnectRefinesSet(s: seq<Entry>, e: Entry)
    requires UniqueHandles(s) && |s| <= MAX_NETWORK_HANDLES
    ensures var after := NextTable(s, Connect(e));
            && UniqueHandles(after) && |after| <= MAX_NETWORK_HANDLES
            && Elements(after) == NextSet(Elements(s), Connect(e))
  {
    assert NoDuplicates(s);
    SizeIsLength(s);
    HandleTaken(s, e.handle);
    if Accepts(s, e.handle) {
      AppendedElements(s, e);
    }
  }

  lemma DisconnectRefinesSet(s: seq<Entry>, e: Entry)
    requires UniqueHandles(s) && |s| <= MAX_NETWORK_HANDLES
    ensures var after := NextTable(s, Disconnect(e));
            && UniqueHandles(after) && |after| <= MAX_NETWORK_HANDLES
            && Elements(after) == NextSet(Elements(s), Disconnect(e))
  {
    TypeMaskMeans(e.networkType, 0);
    RemovedKeepsHandles(s, e);
    RemovedElements(s, e);
  }

  /** Every run keeps one compact entry per connected network. */
  lemma {:induction false} TableRefinesSet(events: seq<Event>)
    ensures UniqueHandles(TableAfter(events)) && |TableAfter(events)| <= MAX_NETWORK_HANDLES
    ensures Elements(TableAfter(events)) == SetAfter(events)
  {
    if events != [] {
      TableRefinesSet(events[..|events| - 1]);
      var before := TableAfter(events[..|events| - 1]);
      match events[|events| - 1]
      case Connect(e) => ConnectRefinesSet(before, e);
      case Disconnect(e) => DisconnectRefinesSet(before, e);
    }
  }

  // ----- The network item ---------------------------------------------------------------

  class NetworkInfo {
    var allTypes: Word
    const networkType: int
    const connected: bool
    const networkHandle: nat
    var apn: string
    const allNetworkHandles: array<Entry>

    constructor (networkType: int, connected: bool, networkHandle: nat, apn: string)
      ensures this.networkType == networkType && this.connected == connected
      ensures this.networkHandle == networkHandle && this.apn == apn
      ensures allTypes == TypeMask(networkType) && fresh(allNetworkHandles)
      ensures Holds(allNetworkHandles,
                    if networkHandle == NETWORK_HANDLE_UNKNOWN then [] else [Entry(networkHandle, networkType)])
    {
      this.networkType := networkType;
      this.connected := connected;
      this.networkHandle := networkHandle;
      this.apn := apn;
      allTypes := TypeMask(networkType);
      allNetworkHandles := new Entry[MAX_NETWORK_HANDLES](_ => Entry(NETWORK_HANDLE_UNKNOWN, TYPE_UNKNOWN));
      new;
      allNetworkHandles[0] := Entry(networkHandle, networkType);
    }

    ghost function AsEvent(): Event {
      if connected then Connect(Entry(networkHandle, networkType)) else Disconnect(Entry(networkHandle, networkType))
    }

    /** The item takes over the cached table and applies its own change to it. */
    method Collate(curInfo: NetworkInfo, ghost cached: seq<Entry>) returns (ghost table: seq<Entry>)
      requires allNetworkHandles != curInfo.allNetworkHandles && this != curInfo
      requires allNetworkHandles.Length == MAX_NETWORK_HANDLES
      requires Holds(curInfo.allNetworkHandles, cached)
      requires allTypes == TypeMask(networkType)
      modifies this, allNetworkHandles
      ensures table == NextTable(cached, AsEvent()) && Holds(allNetworkHandles, table)
      ensures apn == if networkType != TYPE_MOBILE && curInfo.apn != "" then curInfo.apn else old(apn)
      ensures connected ==> allTypes == Or(TypeMask(networkType), curInfo.allTypes)
      ensures !connected && TypeMask(networkType) != ZERO ==>
                allTypes == if HasType(table, networkType) then TypeMask(networkType)
                            else And(curInfo.allTypes, Not(TypeMask(networkType)))
      ensures !connected && TypeMask(networkType) == ZERO ==> allTypes == ZERO
      // The bit of the item's own type agrees with the table, except when a connect that the
      // table refuses brings a type the table does not hold.
      ensures TYPE_MOBILE <= networkType < TYPE_UNKNOWN ==>
                ((allTypes[networkType] <==> HasType(table, networkType)) <==>
                 (!connected || Accepts(cached, networkHandle) || HasType(cached, networkType)))
    {
      TypeAfterConnect(cached, Entry(networkHandle, networkType));
      assert TYPE_MOBILE <= networkType < TYPE_UNKNOWN ==> TypeMask(networkType)[networkType];
      var curTypes := curInfo.allTypes;
      forall i | 0 <= i < MAX_NETWORK_HANDLES {
        allNetworkHandles[i] := curInfo.allNetworkHandles[i];
      }
      if networkType != TYPE_MOBILE && curInfo.apn != "" {
        apn := curInfo.apn;
      }
      table := NextTable(cached, AsEvent());
      if connected {
        allTypes := Or(allTypes, curTypes);
        Insert(cached);
      } else if allTypes != ZERO {
        var typeCount := Delete(cached);
        if typeCount == 0 {
          allTypes := And(curTypes, Not(allTypes));
        }
      }
    }

    /** The connect loop of `collate`. */
    method Insert(ghost s: seq<Entry>)
      requires Holds(allNetworkHandles, s)
      modifies allNetworkHandles
      ensures Holds(allNetworkHandles, NextTable(s, Connect(Entry(networkHandle, networkType))))
    {
      var i := 0;
      while i < MAX_NETWORK_HANDLES
        invariant 0 <= i <= |s| && Holds(allNetworkHandles, s)
        invariant forall k :: 0 <= k < i ==> s[k].handle != networkHandle
      {
        if networkHandle == allNetworkHandles[i].handle {
          break;
        }
        if allNetworkHandles[i].handle == NETWORK_HANDLE_UNKNOWN {
          allNetworkHandles[i] := Entry(networkHandle, networkType);
          break;
        }
        i := i + 1;
      }
    }

    /** The disconnect loop of `collate`; returns how many other handles share the type. */
    method Delete(ghost s: seq<Entry>) returns (typeCount: nat)
      requires Holds(allNetworkHandles, s)
      modifies allNetworkHandles
      ensures var table := Removed(s, Entry(networkHandle, networkType));
              Holds(allNetworkHandles, table) && (typeCount > 0 <==> HasType(table, networkType))
    {
      var deletedIndex, lastValidIndex := MAX_NETWORK_HANDLES, 0;
      typeCount := 0;
      ghost var e := Entry(networkHandle, networkType);
      while lastValidIndex < MAX_NETWORK_HANDLES && allNetworkHandles[lastValidIndex].handle != NETWORK_HANDLE_UNKNOWN
        invariant 0 <= lastValidIndex <= |s| && Holds(allNetworkHandles, s)
        invariant deletedIndex == MAX_NETWORK_HANDLES ==> e !in s[..lastValidIndex]
        invariant deletedIndex != MAX_NETWORK_HANDLES ==> 0 <= deletedIndex < lastValidIndex && s[deletedIndex] == e
        invariant typeCount > 0 <==> HasOtherOfType(s, lastValidIndex, e)
      {
        if networkType == allNetworkHandles[lastValidIndex].networkType {
          if networkHandle == allNetworkHandles[lastValidIndex].handle {
            deletedIndex := lastValidIndex;
          } else {
            typeCount := typeCount + 1;
          }
        }
        lastValidIndex := lastValidIndex + 1;
      }
      assert s[..lastValidIndex] == s;
      TypeLeft(s, e);
      RemovedKeepsHandles(s, e);
      if lastValidIndex > 0 {
        lastValidIndex := lastValidIndex - 1;
      }
      if deletedIndex != MAX_NETWORK_HANDLES {
        allNetworkHandles[deletedIndex] := allNetworkHandles[lastValidIndex];
        allNetworkHandles[lastValidIndex] := Entry(NETWORK_HANDLE_UNKNOWN, TYPE_UNKNOWN);
      }
    }
  }

  /** A handle that is already connected as another type: the table refuses the entry, and the bit of
      the new type is set all the same. */
  method RefusedConnect() returns (item: NetworkInfo)
    ensures Holds(item.allNetworkHandles, [Entry(5, 0)]) && !HasType([Entry(5, 0)], 1) && item.allTypes[1]
  {
    var cached := new NetworkInfo(0, true, 5, "");
    item := new NetworkInfo(1, true, 5, "");
    assert [Entry(5, 0)][0].handle == 5;
    var table := item.Collate(cached, [Entry(5, 0)]);
    assert TypeMask(1)[1];
  }
}
