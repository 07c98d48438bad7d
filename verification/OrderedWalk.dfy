/** A walk over a map in the order of its keys that keeps the smallest value so far, with zero
    counting as not yet set. */
module OrderedWalk {
  function Smaller(smallest: nat, value: nat): nat {
    if smallest == 0 || smallest > value then value else smallest
  }

  /** A key beyond every zero. */
  ghost predicate BeyondZeros<K>(before: (K, K) -> bool, values: map<K, nat>, k: K) {
    k in values && forall z :: z in values && values[z] == 0 ==> before(z, k)
  }

  /** What the walk finds: the smallest value beyond the last zero, 0 if the last value is zero. */
  ghost predicate IsSmallest<K>(before: (K, K) -> bool, smallest: nat, values: map<K, nat>) {
    && (forall k :: k in values && BeyondZeros(before, values, k) ==> smallest <= values[k])
    && (if exists k :: k in values && BeyondZeros(before, values, k)
        then exists k :: k in values && BeyondZeros(before, values, k) && values[k] == smallest
        else smallest == 0)
  }

  lemma NothingBeyond<K>(before: (K, K) -> bool, values: map<K, nat>)
    requires IsSmallest(before, 0, values) && forall k :: k in values ==> !before(k, k)
    ensures forall k :: k in values ==> !BeyondZeros(before, values, k)
  {
  }

  lemma BeyondWithLast<K>(before: (K, K) -> bool, values: map<K, nat>, k: K, value: nat, j: K)
    requires k !in values && !before(k, k) && forall i :: i in values ==> before(i, k) && !before(k, i)
    requires j == k || j in values
    ensures BeyondZeros(before, values[k := value], j) <==> value != 0 && (j == k || BeyondZeros(before, values, j))
  {
    var all := values[k := value];
    assert k in all && all[k] == value;
    assert forall z :: z in values ==> z in all && all[z] == values[z];
  }

  /** Every key seen comes before the next one. */
  ghost predicate ComesLast<K>(before: (K, K) -> bool, values: map<K, nat>, k: K) {
    && k !in values && !before(k, k)
    && forall i :: i in values ==> !before(i, i) && before(i, k) && !before(k, i)
  }

  lemma OneMoreBounds<K>(before: (K, K) -> bool, values: map<K, nat>, k: K, value: nat, smallest: nat, j: K)
    requires IsSmallest(before, smallest, values) && ComesLast(before, values, k)
    requires (j == k || j in values) && BeyondZeros(before, values[k := value], j)
    ensures Smaller(smallest, value) <= values[k := value][j]
  {
    BeyondWithLast(before, values, k, value, j);
    if smallest == 0 { NothingBeyond(before, values); }
  }

  lemma OneMoreWitness<K>(before: (K, K) -> bool, values: map<K, nat>, k: K, value: nat, smallest: nat) returns (j: K)
    requires IsSmallest(before, smallest, values) && ComesLast(before, values, k) && value != 0
    ensures j in values[k := value] && BeyondZeros(before, values[k := value], j)
    ensures values[k := value][j] == Smaller(smallest, value)
  {
    j := k;
    if smallest != 0 && smallest <= value {
      j := Witness(before, values, smallest);
    }
    BeyondWithLast(before, values, k, value, j);
  }

  /** The walk goes on to one more key, beyond those seen. */
  lemma OneMore<K>(before: (K, K) -> bool, values: map<K, nat>, k: K, value: nat, smallest: nat)
    requires IsSmallest(before, smallest, values) && ComesLast(before, values, k)
    ensures IsSmallest(before, Smaller(smallest, value), values[k := value])
  {
    var all := values[k := value];
    forall j | j in all && BeyondZeros(before, all, j) ensures Smaller(smallest, value) <= all[j] {
      OneMoreBounds(before, values, k, value, smallest, j);
    }
    if value == 0 {
      forall j | j in all ensures !BeyondZeros(before, all, j) { BeyondWithLast(before, values, k, value, j); }
    } else {
      var j := OneMoreWitness(before, values, k, value, smallest);
    }
  }

  /** The same, told of the whole map and its last key. */
  lemma WithLast<K>(before: (K, K) -> bool, values: map<K, nat>, k: K, smallest: nat)
    requires k in values && ComesLast(before, values - {k}, k) && IsSmallest(before, smallest, values - {k})
    ensures IsSmallest(before, Smaller(smallest, values[k]), values)
  {
    OneMore(before, values - {k}, k, values[k], smallest);
    assert (values - {k})[k := values[k]] == values;
  }

  lemma Witness<K>(before: (K, K) -> bool, values: map<K, nat>, smallest: nat) returns (k: K)
    requires IsSmallest(before, smallest, values) && smallest > 0
    ensures k in values && BeyondZeros(before, values, k) && values[k] == smallest
  {
    k :| k in values && BeyondZeros(before, values, k) && values[k] == smallest;
  }

  /** Without zeros it is the minimum. */
  lemma MinimumWithoutZeros<K>(before: (K, K) -> bool, smallest: nat, values: map<K, nat>)
    requires IsSmallest(before, smallest, values) && values != map[]
    requires forall k :: k in values ==> values[k] > 0
    ensures forall k :: k in values ==> smallest <= values[k]
    ensures exists k :: k in values && values[k] == smallest
  {
    assert forall k :: k in values ==> BeyondZeros(before, values, k);
    var k :| k in values;
  }

  /** A value below all that count: those beyond the last zero. */
  ghost predicate BelowAll<K>(before: (K, K) -> bool, value: nat, values: map<K, nat>) {
    && (exists k :: k in values && BeyondZeros(before, values, k))
    && forall k :: k in values && BeyondZeros(before, values, k) ==> value < values[k]
  }

  lemma BelowSmallest<K>(before: (K, K) -> bool, value: nat, values: map<K, nat>, smallest: nat)
    requires IsSmallest(before, smallest, values)
    ensures value < smallest <==> BelowAll(before, value, values)
  {
  }
}
