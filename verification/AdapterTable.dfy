/** The table of adapters registered with the modem interface (gps/core/LocApiBase.cpp). */
module AdapterTable {
  import opened CompactTable
  import opened Word64

  const MAX_ADAPTERS := 10

  // ----- The table over whole runs ------------------------------------------------------

  function Added<T(==)>(s: seq<T>, x: T): seq<T> {
    if x in s || |s| >= MAX_ADAPTERS then s else s + [x]
  }

  datatype Op<T> = Add(x: T) | Remove(x: T)

  function Table<T(==)>(ops: seq<Op<T>>): seq<T> {
    if ops == [] then []
    else
      var before := Table(ops[..|ops| - 1]);
      match ops[|ops| - 1]
      case Add(x) => Added(before, x)
      case Remove(x) => Removed(before, x)
  }

  /** The plain set of registered adapters: adding to a full set is the only thing refused. */
  function Registered<T(==)>(ops: seq<Op<T>>): set<T> {
    if ops == [] then {}
    else
      var before := Registered(ops[..|ops| - 1]);
      match ops[|ops| - 1]
      case Add(x) => if |before| >= MAX_ADAPTERS then before else before + {x}
      case Remove(x) => before - {x}
  }

  /** Any sequence of registrations and removals keeps a duplicate-free table of exactly the
      registered adapters. */
  lemma {:induction false} TableRefinesSet<T>(ops: seq<Op<T>>)
    ensures NoDuplicates(Table(ops)) && |Table(ops)| <= MAX_ADAPTERS
    ensures Elements(Table(ops)) == Registered(ops)
  {
    if ops != [] {
      var init := ops[..|ops| - 1];
      TableRefinesSet(init);
      SizeIsLength(Table(init));
      if ops[|ops| - 1].x !in Table(init) {
        AppendedElements(Table(init), ops[|ops| - 1].x);
      }
      RemovedElements(Table(init), ops[|ops| - 1].x);
    }
  }

  // ----- The array ----------------------------------------------------------------------

  class LocAdapter {
    var evtMask: Word
  }

  /** Messages sent to the modem thread; an open may name the adapter to be told. */
  datatype Message = OpenMsg(adapter: LocAdapter?) | CloseMsg

  class LocApiBase {
    const locAdapters: array<LocAdapter?>
    const excludedMask: Word
    var sent: seq<Message>
    ghost var table: seq<LocAdapter>

    /** The array is a hole-free, duplicate-free prefix. */
    ghost predicate Valid()
      reads this, locAdapters
    {
      && locAdapters.Length == MAX_ADAPTERS
      && |table| <= MAX_ADAPTERS && NoDuplicates(table)
      && forall i :: 0 <= i < MAX_ADAPTERS ==> locAdapters[i] == if i < |table| then table[i] else null
    }

    constructor (excluded: Word)
      ensures Valid() && table == [] && sent == [] && excludedMask == excluded && fresh(locAdapters)
    {
      locAdapters := new LocAdapter?[MAX_ADAPTERS](_ => null);
      excludedMask := excluded;
      sent := [];
      table := [];
    }

    method AddAdapter(adapter: LocAdapter)
      requires Valid()
      modifies this, locAdapters
      ensures Valid() && table == Added(old(table), adapter)
      ensures sent == old(sent) + if table != old(table) then [OpenMsg(adapter)] else []
    {
      var i := 0;
      while i < MAX_ADAPTERS && locAdapters[i] != adapter
        invariant 0 <= i <= |table| && adapter !in table[..i]
        invariant Valid() && table == old(table) && sent == old(sent)
      {
        if locAdapters[i] == null {
          locAdapters[i] := adapter;
          sent := sent + [OpenMsg(adapter)];
          table := table + [adapter];
          break;
        }
        i := i + 1;
      }
    }

    method RemoveAdapter(adapter: LocAdapter)
      requires Valid()
      modifies this, locAdapters
      ensures Valid() && table == Removed(old(table), adapter)
      ensures adapter !in old(table) ==> sent == old(sent)
      ensures adapter in old(table) ==> sent == old(sent) + [if table == [] then CloseMsg else OpenMsg(null)]
    {
      ghost var n := |table|;
      var i := 0;
      while i < MAX_ADAPTERS && locAdapters[i] != null
        invariant 0 <= i <= n && Valid()
        invariant table == old(table) ==> adapter !in table[..i] && sent == old(sent)
        invariant table != old(table) ==> i == n && adapter in old(table) && table == Removed(old(table), adapter)
        invariant table != old(table) ==> sent == old(sent) + [if table == [] then CloseMsg else OpenMsg(null)]
      {
        if locAdapters[i] == adapter {
          i := RemoveAt(i);
        }
        i := i + 1;
      }
    }

    /** The last adapter fills the gap at `j`; returns where it was. */
    method RemoveAt(j: nat) returns (i: nat)
      requires Valid() && j < |table|
      modifies this, locAdapters
      ensures Valid() && table == SwapRemoved(old(table), j) && i == |old(table)| - 1
      ensures sent == old(sent) + [if table == [] then CloseMsg else OpenMsg(null)]
    {
      locAdapters[j] := null;
      i := j + 1;
      while i < MAX_ADAPTERS && locAdapters[i] != null
        invariant j < i <= |table|
      {
        i := i + 1;
      }
      i := i - 1;
      locAdapters[j] := locAdapters[i];
      locAdapters[i] := null;
      if 0 == i {
        sent := sent + [CloseMsg];
      } else {
        sent := sent + [OpenMsg(null)];
      }
      table := SwapRemoved(table, j);
    }

    method GetEvtMask() returns (mask: Word)
      requires Valid()
      ensures forall b :: 0 <= b < 64 ==>
                (mask[b] <==> (exists a :: a in table && a.evtMask[b]) && !excludedMask[b])
    {
      mask := ZERO;
      var i := 0;
      while i < MAX_ADAPTERS && locAdapters[i] != null
        invariant 0 <= i <= |table|
        invariant forall b :: 0 <= b < 64 ==> (mask[b] <==> exists a :: a in table[..i] && a.evtMask[b])
      {
        assert table[..i + 1] == table[..i] + [table[i]];
        mask := Or(mask, locAdapters[i].evtMask);
        i := i + 1;
      }
      assert table[..i] == table;
      mask := And(mask, Not(excludedMask));
    }
  }
}
