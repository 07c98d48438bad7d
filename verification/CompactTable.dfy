/** Fixed-capacity tables kept as a hole-free prefix: entries are appended at the end, and
    the last entry takes the place of a removed one. */
module CompactTable {
  ghost predicate NoDuplicates<T>(s: seq<T>) {
    forall i, j :: 0 <= i < j < |s| ==> s[i] != s[j]
  }

  function Elements<T>(s: seq<T>): set<T> {
    set x | x in s
  }

  function SwapRemoved<T>(s: seq<T>, j: nat): seq<T>
    requires j < |s|
  {
    s[j := s[|s| - 1]][..|s| - 1]
  }

  function IndexOf<T(==)>(s: seq<T>, x: T): (j: nat)
    requires x in s
    ensures j < |s| && s[j] == x && x !in s[..j]
  {
    if s[0] == x then 0 else 1 + IndexOf(s[1..], x)
  }

  function Removed<T(==)>(s: seq<T>, x: T): seq<T> {
    if x in s then SwapRemoved(s, IndexOf(s, x)) else s
  }

  lemma AppendedElements<T>(s: seq<T>, x: T)
    requires NoDuplicates(s) && x !in s
    ensures NoDuplicates(s + [x])
    ensures Elements(s + [x]) == Elements(s) + {x}
  {
    assert forall y :: y in s + [x] <==> y in s || y == x;
  }

  lemma RemovedElements<T>(s: seq<T>, x: T)
    requires NoDuplicates(s)
    ensures NoDuplicates(Removed(s, x))
    ensures Elements(Removed(s, x)) == Elements(s) - {x}
    ensures |Removed(s, x)| == if x in s then |s| - 1 else |s|
  {
    if x in s {
      var j, n := IndexOf(s, x), |s| - 1;
      var r := Removed(s, x);
      forall y ensures y in r <==> y in s && y != x {
        if y in s && y != x {
          var i :| 0 <= i < |s| && s[i] == y;
          assert r[if i == n then j else i] == y;
        }
        if y in r {
          var i :| 0 <= i < |r| && r[i] == y;
          assert y == s[if i == j then n else i];
        }
      }
    }
  }

  lemma {:induction false} SizeIsLength<T>(s: seq<T>)
    requires NoDuplicates(s)
    ensures |Elements(s)| == |s|
  {
    if s != [] {
      var n := |s| - 1;
      SizeIsLength(s[..n]);
      assert Elements(s) == Elements(s[..n]) + {s[n]};
    }
  }
}
