/** The Boyer-Moore search of recovery/recovery_updater.cpp: the two shift tables,
    the skipping search, and exactly which patterns it searches correctly. */
module BoyerMoore {
  import opened Wrappers

  /** A C `char`, seen as the unsigned value the tables are indexed by. */
  type byte = x: int | 0 <= x < 256
  /** A C `int`: assigning to a variable of this type is checked not to overflow. */
  type int32 = x: int | -0x8000_0000 <= x < 0x8000_0000

  const ALPHABET_LEN := 256

  // ----- What a search should return ------------------------------------------------

  ghost predicate OccursAt(text: seq<byte>, pat: seq<byte>, k: int) {
    && 0 <= k <= |text| - |pat|
    && forall q :: 0 <= q < |pat| ==> text[k + q] == pat[q]
  }

  /** `r` is what a naive left-to-right search returns. */
  ghost predicate IsFirstOccurrence(text: seq<byte>, pat: seq<byte>, r: Option<nat>) {
    match r
    case None => forall k :: !OccursAt(text, pat, k)
    case Some(k) => OccursAt(text, pat, k) && forall m :: m < k ==> !OccursAt(text, pat, m)
  }

  // ----- What the tables should hold ------------------------------------------------

  /** The largest index below `k` holding `c`, or -1. */
  function LastBefore(pat: seq<byte>, c: byte, k: nat): (r: int)
    requires k <= |pat|
    ensures -1 <= r < k
    ensures r >= 0 ==> pat[r] == c
    ensures forall q :: r < q < k ==> pat[q] != c
  {
    if k == 0 then -1 else if pat[k - 1] == c then k - 1 else LastBefore(pat, c, k - 1)
  }

  /** Distance from the last character to the rightmost earlier `c`; the length if there is none. */
  function Delta1(pat: seq<byte>, c: byte): int
    requires |pat| > 0
  {
    |pat| - 1 - LastBefore(pat, c, |pat| - 1)
  }

  /** The suffix starting at `from` also occurs `s` places to the left. */
  predicate Recurs(pat: seq<byte>, s: int, from: int)
    requires 0 <= s <= from
  {
    forall k :: from <= k < |pat| ==> pat[k - s] == pat[k]
  }

  /** Shifting by `s` keeps the part after `j` matched and changes the character at `j`. */
  predicate GoodSuffixShift(pat: seq<byte>, j: int, s: int) {
    1 <= s <= j < |pat| && pat[j - s] != pat[j] && Recurs(pat, s, j + 1)
  }

  /** The smallest good-suffix shift that is at least `s`, if there is one. */
  function MinGoodShift(pat: seq<byte>, j: int, s: int): (r: Option<nat>)
    requires 1 <= s
    ensures r.Some? ==> s <= r.value && GoodSuffixShift(pat, j, r.value)
    ensures r.Some? ==> forall t :: s <= t < r.value ==> !GoodSuffixShift(pat, j, t)
    ensures r.None? ==> forall t :: s <= t ==> !GoodSuffixShift(pat, j, t)
    decreases j - s
  {
    if s > j then None
    else if GoodSuffixShift(pat, j, s) then Some(s)
    else MinGoodShift(pat, j, s + 1)
  }

  /** C's strncmp(pat + p, pat, pat_len - p) == 0, from offset `k` on: equal up to the
      end or up to a shared NUL. */
  predicate StrncmpZero(pat: seq<byte>, p: nat, k: nat)
    requires p + k <= |pat|
    decreases |pat| - k
  {
    p + k == |pat| || (pat[p + k] == pat[k] && (pat[k] == 0 || StrncmpZero(pat, p, k + 1)))
  }

  /** The prefix pass's `last_prefix` once positions `p` and above have been visited. */
  function LastPrefix(pat: seq<byte>, p: nat): (r: int)
    requires 0 < |pat| && p <= |pat|
    decreases |pat| - p
  {
    if p == |pat| then |pat| - 1
    else if StrncmpZero(pat, p, 0) then p + 1
    else LastPrefix(pat, p + 1)
  }

  /** The smallest good-suffix shift from `s` on, else what the prefix pass left. */
  function ShiftFrom(pat: seq<byte>, j: nat, s: int): int
    requires j < |pat| && 1 <= s
  {
    var good := MinGoodShift(pat, j, s);
    if good.Some? then good.value else LastPrefix(pat, j)
  }

  /** How far the pattern moves when `pat[j]` mismatches, by the second table. */
  function Shift2(pat: seq<byte>, j: nat): int
    requires j < |pat|
  {
    ShiftFrom(pat, j, 1)
  }

  /** The table stores the advance of the text index, so the matched part is added. */
  function Delta2(pat: seq<byte>, j: nat): int
    requires j < |pat|
  {
    Shift2(pat, j) + (|pat| - 1 - j)
  }

  function Max(a: int, b: int): int { if a > b then a else b }

  // ----- The search as a function of text and pattern --------------------------------

  /** The rightmost mismatch at or below `j` for the alignment starting at `start`, or -1. */
  function Mismatch(text: seq<byte>, pat: seq<byte>, start: nat, j: int): (r: int)
    requires -1 <= j < |pat| && start + |pat| <= |text|
    ensures -1 <= r <= j
    ensures r >= 0 ==> text[start + r] != pat[r]
    ensures forall q :: r < q <= j ==> text[start + q] == pat[q]
    decreases j + 1
  {
    if j < 0 || text[start + j] != pat[j] then j else Mismatch(text, pat, start, j - 1)
  }

  /** The contents of the two arrays. */
  datatype Tables = Tables(delta1: seq<int>, delta2: seq<int>)

  function TablesFor(pat: seq<byte>): (t: Tables)
    requires 0 < |pat|
    ensures Advances(t, pat)
  {
    var t := Tables(seq(ALPHABET_LEN, c requires 0 <= c < ALPHABET_LEN => Delta1(pat, c)),
                    seq(|pat|, j requires 0 <= j < |pat| => Delta2(pat, j)));
    assert Advances(t, pat) by {
      forall j | 0 <= j < |pat| ensures t.delta2[j] >= |pat| - j { LastPrefixBounds(pat, j); }
    }
    t
  }

  /** What makes the search terminate: the second table always moves the alignment on. */
  predicate Advances(t: Tables, pat: seq<byte>) {
    && |t.delta1| == ALPHABET_LEN && |t.delta2| == |pat|
    && forall j :: 0 <= j < |pat| ==> t.delta2[j] >= |pat| - j
  }

  /** The start of the next alignment after a mismatch at `j`. */
  function NextStart(text: seq<byte>, pat: seq<byte>, t: Tables, start: nat, j: nat): (r: nat)
    requires j < |pat| && start + |pat| <= |text| && Advances(t, pat)
    ensures start < r
  {
    start + j + Max(t.delta1[text[start + j]], t.delta2[j]) - (|pat| - 1)
  }

  function SearchFrom(text: seq<byte>, pat: seq<byte>, t: Tables, start: nat): Option<nat>
    requires 0 < |pat| && Advances(t, pat)
    decreases |text| - start
  {
    if start + |pat| > |text| then None
    else
      var j := Mismatch(text, pat, start, |pat| - 1);
      if j < 0 then Some(start) else SearchFrom(text, pat, t, NextStart(text, pat, t, start, j))
  }

  /** The whole of `bm_search` as a function. */
  function BmSearch(text: seq<byte>, pat: seq<byte>): Option<nat>
    requires 0 < |pat|
  {
    SearchFrom(text, pat, TablesFor(pat), 0)
  }

  /** One round of the search, for the mismatch position found by any means. */
  lemma SearchStep(text: seq<byte>, pat: seq<byte>, t: Tables, start: nat, j: int)
    requires 0 < |pat| && start + |pat| <= |text| && -1 <= j < |pat| && Advances(t, pat)
    requires j >= 0 ==> text[start + j] != pat[j]
    requires forall q :: j < q < |pat| ==> text[start + q] == pat[q]
    ensures SearchFrom(text, pat, t, start) ==
            if j < 0 then Some(start) else SearchFrom(text, pat, t, NextStart(text, pat, t, start, j))
  {
    var m := Mismatch(text, pat, start, |pat| - 1);
    assert m >= 0 ==> text[start + m] != pat[m];
    assert m == j;
  }

  lemma {:induction false} LastPrefixBounds(pat: seq<byte>, p: nat)
    requires p < |pat|
    ensures 1 <= LastPrefix(pat, p) <= |pat|
    decreases |pat| - p
  {
    if !StrncmpZero(pat, p, 0) {
      if p + 1 < |pat| {
        LastPrefixBounds(pat, p + 1);
      } else if p == 0 {
        assert StrncmpZero(pat, 0, 1);
      }
    }
  }

  // ----- Which patterns are searched correctly ---------------------------------------

  predicate NulFree(pat: seq<byte>) {
    forall q :: 0 <= q < |pat| ==> pat[q] != 0
  }

  /** The proper suffix starting at `p` is also a prefix. */
  predicate BorderAt(pat: seq<byte>, p: int) {
    0 < p < |pat| && Recurs(pat, p, p)
  }

  predicate Unbordered(pat: seq<byte>) {
    forall p :: 0 < p < |pat| ==> !BorderAt(pat, p)
  }

  predicate AllSame(pat: seq<byte>) {
    forall q :: 0 <= q < |pat| ==> pat[q] == pat[0]
  }

  /** The search is right on every text. */
  ghost predicate AlwaysFindsFirst(pat: seq<byte>)
    requires 0 < |pat|
  {
    forall text: seq<byte> :: IsFirstOccurrence(text, pat, BmSearch(text, pat))
  }

  lemma {:induction false} StrncmpIsBorder(pat: seq<byte>, p: nat, k: nat)
    requires NulFree(pat) && p + k <= |pat|
    ensures StrncmpZero(pat, p, k) <==> Recurs(pat, p, p + k)
    decreases |pat| - k
  {
    if p + k < |pat| {
      StrncmpIsBorder(pat, p, k + 1);
      assert pat[p + k] == pat[(p + k) - p] <==> pat[p + k] == pat[k];
    }
  }

  lemma BorderTest(pat: seq<byte>, p: nat)
    requires NulFree(pat) && 0 < p < |pat|
    ensures BorderAt(pat, p) <==> StrncmpZero(pat, p, 0)
    ensures BorderAt(pat, p) ==> LastPrefix(pat, p) == p + 1
    ensures !BorderAt(pat, p) ==> LastPrefix(pat, p) == LastPrefix(pat, p + 1)
  {
    StrncmpIsBorder(pat, p, 0);
  }

  ghost predicate NoBorderIn(pat: seq<byte>, lo: int, hi: int) {
    forall q :: lo <= q < hi ==> !BorderAt(pat, q)
  }

  /** The prefix pass remembers the nearest border start at or beyond `p`, plus one. */
  lemma {:induction false} LastPrefixIsNearestBorder(pat: seq<byte>, p: nat)
    requires NulFree(pat) && 0 < p <= |pat|
    ensures var b := LastPrefix(pat, p) - 1;
            || (p <= b && BorderAt(pat, b) && NoBorderIn(pat, p, b))
            || (b == |pat| - 2 && NoBorderIn(pat, p, |pat|))
    decreases |pat| - p
  {
    if p < |pat| {
      BorderTest(pat, p);
      if !BorderAt(pat, p) {
        LastPrefixIsNearestBorder(pat, p + 1);
      }
    }
  }

  /** For an unbordered pattern the second table holds the smallest good-suffix shift, or all
      but one of the pattern's length. */
  lemma UnborderedShift(pat: seq<byte>, j: nat)
    requires NulFree(pat) && Unbordered(pat) && 0 < j < |pat|
    ensures Delta2(pat, j) - (|pat| - 1 - j) ==
            var good := MinGoodShift(pat, j, 1);
            if good.Some? then good.value else |pat| - 1
  {
    LastPrefixIsNearestBorder(pat, j);
  }

  /** The first table takes the last character back exactly to the nearest earlier one of its kind, or
      the whole pattern past it if there is none. */
  lemma Delta1Exact(pat: seq<byte>, c: byte)
    requires 0 < |pat|
    ensures var q := |pat| - 1 - Delta1(pat, c);
      && -1 <= q < |pat| - 1 && (q >= 0 ==> pat[q] == c)
      && forall k :: q < k < |pat| - 1 ==> pat[k] != c
  {
  }

  /** The second table holds the smallest good-suffix shift where there is one, and otherwise one more
      than the nearest border start, or all but one of the length. */
  lemma Shift2Exact(pat: seq<byte>, j: nat)
    requires NulFree(pat) && 0 < j < |pat|
    ensures var s := Shift2(pat, j);
      if exists t :: GoodSuffixShift(pat, j, t) then
        GoodSuffixShift(pat, j, s) && forall t :: 1 <= t < s ==> !GoodSuffixShift(pat, j, t)
      else
        || (j < s && BorderAt(pat, s - 1) && NoBorderIn(pat, j, s - 1))
        || (s == |pat| - 1 && NoBorderIn(pat, j, |pat|))
  {
    LastPrefixIsNearestBorder(pat, j);
  }

  /** After a mismatch the pattern moves by the larger of two shifts: the one that brings its last such
      character, if any before the end, under the text's, and the one of the second table. */
  lemma JumpIsLarger(text: seq<byte>, pat: seq<byte>, start: nat, j: nat, q: int)
    requires j < |pat| && start + |pat| <= |text|
    requires -1 <= q < |pat| - 1 && (q >= 0 ==> pat[q] == text[start + j])
    requires forall k :: q < k < |pat| - 1 ==> pat[k] != text[start + j]
    ensures var jump := NextStart(text, pat, TablesFor(pat), start, j) - start;
      && jump >= j - q && jump >= Shift2(pat, j) && (jump == j - q || jump == Shift2(pat, j))
  {
    Delta1Exact(pat, text[start + j]);
    assert LastBefore(pat, text[start + j], |pat| - 1) == q;
  }

  /** A jump by the first table never passes over an occurrence. */
  lemma Delta1NeverSkips(text: seq<byte>, pat: seq<byte>, start: nat, j: nat, s: nat)
    requires j < |pat| && start + |pat| <= |text|
    requires 0 < s && OccursAt(text, pat, start + s)
    ensures j + Delta1(pat, text[start + j]) - (|pat| - 1) <= s
  {
    if s <= j {
      assert text[(start + s) + (j - s)] == pat[j - s];
    }
  }

  /** A jump by the second table never passes over an occurrence, if the pattern is
      unbordered or a run of one character. */
  lemma Delta2NeverSkips(text: seq<byte>, pat: seq<byte>, start: nat, j: nat, s: nat)
    requires NulFree(pat) && (Unbordered(pat) || AllSame(pat))
    requires j < |pat| && start + |pat| <= |text| && text[start + j] != pat[j]
    requires forall q :: j < q < |pat| ==> text[start + q] == pat[q]
    requires 0 < s && OccursAt(text, pat, start + s)
    ensures Shift2(pat, j) <= s
  {
    forall k | s <= k < |pat| && j < k ensures pat[k - s] == pat[k] {
      assert text[(start + s) + (k - s)] == pat[k - s];
      assert text[start + k] == pat[k];
    }
    if s <= j {
      assert text[(start + s) + (j - s)] == pat[j - s];
      assert GoodSuffixShift(pat, j, s);
    } else {
      LastPrefixBounds(pat, j);
      if s < |pat| {
        assert BorderAt(pat, s);
        StrncmpIsBorder(pat, j, 0);
        assert LastPrefix(pat, j) == j + 1;
      }
    }
  }

  /** With the real tables, no occurrence starts before the next alignment. */
  lemma JumpNeverSkips(text: seq<byte>, pat: seq<byte>, start: nat, j: nat, m: nat)
    requires NulFree(pat) && (Unbordered(pat) || AllSame(pat))
    requires j < |pat| && start + |pat| <= |text| && text[start + j] != pat[j]
    requires forall q :: j < q < |pat| ==> text[start + q] == pat[q]
    requires start <= m < NextStart(text, pat, TablesFor(pat), start, j)
    ensures !OccursAt(text, pat, m)
  {
    if m == start {
      assert text[m + j] != pat[j];
    } else if OccursAt(text, pat, m) {
      Delta1NeverSkips(text, pat, start, j, m - start);
      Delta2NeverSkips(text, pat, start, j, m - start);
    }
  }

  lemma {:induction false} SearchFindsFirst(text: seq<byte>, pat: seq<byte>, start: nat)
    requires 0 < |pat| && NulFree(pat) && (Unbordered(pat) || AllSame(pat))
    requires forall m :: m < start ==> !OccursAt(text, pat, m)
    ensures IsFirstOccurrence(text, pat, SearchFrom(text, pat, TablesFor(pat), start))
    decreases |text| - start
  {
    if start + |pat| <= |text| {
      var j := Mismatch(text, pat, start, |pat| - 1);
      SearchStep(text, pat, TablesFor(pat), start, j);
      if j < 0 {
        assert OccursAt(text, pat, start);
      } else {
        var next := NextStart(text, pat, TablesFor(pat), start, j);
        forall m | start <= m < next ensures !OccursAt(text, pat, m) {
          JumpNeverSkips(text, pat, start, j, m);
        }
        SearchFindsFirst(text, pat, next);
      }
    }
  }

  /** Soundness needs no condition on the pattern, only tables that move on. */
  lemma {:induction false} SearchReturnsOccurrence(text: seq<byte>, pat: seq<byte>, t: Tables, start: nat)
    requires 0 < |pat| && Advances(t, pat)
    ensures var r := SearchFrom(text, pat, t, start); r.Some? ==> OccursAt(text, pat, r.value)
    decreases |text| - start
  {
    if start + |pat| <= |text| {
      var j := Mismatch(text, pat, start, |pat| - 1);
      SearchStep(text, pat, t, start, j);
      if j >= 0 {
        SearchReturnsOccurrence(text, pat, t, NextStart(text, pat, t, start, j));
      }
    }
  }

  lemma {:induction false} RunFrom(pat: seq<byte>, i: nat, k: nat)
    requires i <= k < |pat|
    requires forall q :: i < q < |pat| ==> pat[q - 1] == pat[q]
    ensures pat[k] == pat[i]
  {
    if i < k {
      RunFrom(pat, i, k - 1);
      assert pat[k - 1] == pat[k];
    }
  }

  lemma JumpPastEnd(text: seq<byte>, pat: seq<byte>, t: Tables, j: nat)
    requires j < |pat| <= |text| && Advances(t, pat)
    requires text[j] != pat[j] && forall q :: j < q < |pat| ==> text[q] == pat[q]
    requires |text| <= j + t.delta2[j]
    ensures SearchFrom(text, pat, t, 0).None?
  {
    SearchStep(text, pat, t, 0, j);
  }

  /** In a bordered, non-constant pattern, a mismatch at index 1 jumps one past the
      nearest border. */
  lemma BorderedShift(pat: seq<byte>, b: int) returns (p: nat)
    requires NulFree(pat) && !AllSame(pat) && BorderAt(pat, b)
    ensures 2 <= p && BorderAt(pat, p) && Delta2(pat, 1) == p + |pat| - 1
  {
    if BorderAt(pat, 1) {
      forall q | 0 <= q < |pat| ensures pat[q] == pat[0] { RunFrom(pat, 0, q); }
      assert false;
    }
    LastPrefixIsNearestBorder(pat, 1);
    p := LastPrefix(pat, 1) - 1;
    assert pat[p - p] == pat[p];
    if GoodSuffixShift(pat, 1, 1) {
      RunFrom(pat, 1, p);
      assert false;
    }
  }

  /** A text that mismatches at index 1 and then holds the pattern at its border `p`. */
  lemma MissedText(pat: seq<byte>, p: nat) returns (text: seq<byte>)
    requires 2 <= p && BorderAt(pat, p)
    ensures |text| == p + |pat| && OccursAt(text, pat, p)
    ensures text[1] != pat[1] && forall q :: 1 < q < |pat| ==> text[q] == pat[q]
  {
    var other: byte := if pat[1] == 0 then 1 else 0;
    text := [pat[0], other] + pat[2..p] + pat;
    forall q | 1 < q < |pat| ensures text[q] == pat[q] {
      assert q < p || pat[q - p] == pat[q];
    }
  }

  lemma MissedOccurrence(pat: seq<byte>, b: int) returns (text: seq<byte>)
    requires NulFree(pat) && !AllSame(pat) && BorderAt(pat, b)
    ensures 0 < |pat| && |text| < 2 * |pat|
    ensures BmSearch(text, pat).None?
    ensures exists k :: OccursAt(text, pat, k)
  {
    var p := BorderedShift(pat, b);
    text := MissedText(pat, p);
    JumpPastEnd(text, pat, TablesFor(pat), 1);
  }

  /** Exactly which patterns are always searched correctly. */
  lemma SearchIsCompleteIff(pat: seq<byte>)
    requires 0 < |pat| && NulFree(pat)
    ensures AlwaysFindsFirst(pat) <==> Unbordered(pat) || AllSame(pat)
  {
    if Unbordered(pat) || AllSame(pat) {
      forall text: seq<byte> ensures IsFirstOccurrence(text, pat, BmSearch(text, pat)) {
        SearchFindsFirst(text, pat, 0);
      }
    } else {
      var b :| BorderAt(pat, b);
      var text := MissedOccurrence(pat, b);
      assert !IsFirstOccurrence(text, pat, BmSearch(text, pat));
    }
  }

  // ----- The table-filling and searching loops ----------------------------------------

  method MaxSuffixLen(str: seq<byte>, p: nat) returns (i: nat)
    requires p < |str|
    ensures i <= p
    ensures Recurs(str, |str| - 1 - p, |str| - i)
    ensures i == p || str[p - i] != str[|str| - 1 - i]
  {
    i := 0;
    while str[p - i] == str[|str| - 1 - i] && i < p
      invariant i <= p
      invariant Recurs(str, |str| - 1 - p, |str| - i)
    {
      i := i + 1;
    }
  }

  method MakeDelta1(delta1: array<int32>, pat: seq<byte>)
    requires delta1.Length == ALPHABET_LEN && 0 < |pat| < 0x8000_0000
    modifies delta1
    ensures forall c: byte :: delta1[c] == Delta1(pat, c)
  {
    for i := 0 to ALPHABET_LEN
      invariant forall c :: 0 <= c < i ==> delta1[c] == |pat|
    {
      delta1[i] := |pat|;
    }
    for i := 0 to |pat| - 1
      invariant forall c: byte :: delta1[c] == |pat| - 1 - LastBefore(pat, c, i)
    {
      delta1[pat[i]] := |pat| - 1 - i;
    }
  }

  /** One round of the second pass finds the only index whose good-suffix shift is |pat| - 1 - p. */
  lemma SuffixLenGivesShift(pat: seq<byte>, p: nat, s: nat, len: nat)
    requires p < |pat| - 1 && s == |pat| - 1 - p && len <= p
    requires Recurs(pat, s, |pat| - len)
    requires len == p || pat[p - len] != pat[|pat| - 1 - len]
    ensures forall j :: GoodSuffixShift(pat, j, s) <==>
              j == |pat| - 1 - len && pat[p - len] != pat[|pat| - 1 - len]
  {
  }

  lemma OneShiftMore(pat: seq<byte>, j: nat, s: nat)
    requires j < |pat| && 1 <= s
    ensures ShiftFrom(pat, j, s) == if GoodSuffixShift(pat, j, s) then s else ShiftFrom(pat, j, s + 1)
  {
  }

  /** What one round of the second pass does to the whole table. */
  lemma SuffixRound(pat: seq<byte>, p: nat, s: nat, len: nat, before: seq<int>, after: seq<int>)
    requires p < |pat| - 1 && s == |pat| - 1 - p && len <= p
    requires Recurs(pat, s, |pat| - len)
    requires len == p || pat[p - len] != pat[|pat| - 1 - len]
    requires |before| == |pat|
    requires forall j :: 0 <= j < |pat| ==> before[j] == ShiftFrom(pat, j, s + 1) + (|pat| - 1 - j)
    requires after == if pat[p - len] != pat[|pat| - 1 - len] then before[|pat| - 1 - len := s + len] else before
    ensures forall j :: 0 <= j < |pat| ==> after[j] == ShiftFrom(pat, j, s) + (|pat| - 1 - j)
  {
    SuffixLenGivesShift(pat, p, s, len);
    forall j | 0 <= j < |pat| ensures after[j] == ShiftFrom(pat, j, s) + (|pat| - 1 - j) {
      OneShiftMore(pat, j, s);
      assert before[j] == ShiftFrom(pat, j, s + 1) + (|pat| - 1 - j);
    }
  }

  /** The second table once the shifts from `s` on have been entered. */
  ghost predicate Delta2From(pat: seq<byte>, d: seq<int>, s: nat)
    requires 1 <= s
  {
    |d| == |pat| && forall j :: 0 <= j < |pat| ==> d[j] == ShiftFrom(pat, j, s) + (|pat| - 1 - j)
  }

  method PrefixPass(delta2: array<int32>, pat: seq<byte>)
    requires delta2.Length == |pat| && 0 < |pat| < 0x4000_0000
    modifies delta2
    ensures Delta2From(pat, delta2[..], |pat|)
  {
    var lastPrefix := |pat| - 1;
    var p := |pat| - 1;
    while p >= 0
      invariant -1 <= p < |pat| && lastPrefix == LastPrefix(pat, p + 1)
      invariant forall j :: p < j < |pat| ==> delta2[j] == LastPrefix(pat, j) + (|pat| - 1 - j)
    {
      if StrncmpZero(pat, p, 0) {
        lastPrefix := p + 1;
      }
      LastPrefixBounds(pat, p);
      delta2[p] := lastPrefix + (|pat| - 1 - p);
      p := p - 1;
    }
  }

  method MakeDelta2(delta2: array<int32>, pat: seq<byte>)
    requires delta2.Length == |pat| && 0 < |pat| < 0x4000_0000
    modifies delta2
    ensures Delta2From(pat, delta2[..], 1)
  {
    PrefixPass(delta2, pat);
    var p := 0;
    while p < |pat| - 1
      invariant 0 <= p <= |pat| - 1
      invariant Delta2From(pat, delta2[..], |pat| - p)
    {
      var len := MaxSuffixLen(pat, p);
      ghost var before := delta2[..];
      if pat[p - len] != pat[|pat| - 1 - len] {
        delta2[|pat| - 1 - len] := |pat| - 1 - p + len;
      }
      SuffixRound(pat, p, |pat| - 1 - p, len, before, delta2[..]);
      p := p + 1;
    }
  }

  /** The inner loop of `bm_search`, from the end of the alignment at `start`. */
  method MatchBackwards(text: seq<byte>, pat: seq<byte>, from: int32, ghost start: nat) returns (i: int32, j: int32)
    requires 0 < |pat| && |text| < 0x8000_0000 && start + |pat| <= |text| && from == start + |pat| - 1
    ensures -1 <= j < |pat| && i == start + j && (j >= 0 ==> text[start + j] != pat[j])
    ensures forall q :: j < q < |pat| ==> text[start + q] == pat[q]
  {
    i, j := from, |pat| - 1;
    while j >= 0 && text[i] == pat[j]
      invariant -1 <= j < |pat| && i == start + j
      invariant forall q :: j < q < |pat| ==> text[start + q] == pat[q]
    {
      i := i - 1;
      j := j - 1;
    }
  }

  /** The loop of `bm_search`, for tables that move on and stay in range. */
  method SearchLoop(text: seq<byte>, pat: seq<byte>, delta1: array<int32>, delta2: array<int32>)
    returns (r: Option<nat>)
    requires 0 < |pat| && |text| + 2 * |pat| < 0x8000_0000
    requires Advances(Tables(delta1[..], delta2[..]), pat)
    requires forall c :: 0 <= c < ALPHABET_LEN ==> delta1[c] < 2 * |pat|
    requires forall j :: 0 <= j < |pat| ==> delta2[j] < 2 * |pat|
    ensures r == SearchFrom(text, pat, Tables(delta1[..], delta2[..]), 0)
  {
    ghost var t := Tables(delta1[..], delta2[..]);
    ghost var start, result := 0, SearchFrom(text, pat, t, 0);
    var i: int32 := |pat| - 1;
    while i < |text|
      invariant 0 <= start && i == start + |pat| - 1
      invariant result == SearchFrom(text, pat, t, start)
      decreases |text| - i
    {
      var j: int32;
      i, j := MatchBackwards(text, pat, i, start);
      SearchStep(text, pat, t, start, j);
      if j < 0 {
        return Some(i + 1);
      }
      start := NextStart(text, pat, t, start, j);
      i := i + Max(delta1[text[i]], delta2[j]);
    }
    return None;
  }

  lemma TablesFilled(pat: seq<byte>, t: Tables)
    requires 0 < |pat| && |t.delta1| == ALPHABET_LEN
    requires forall c: byte :: t.delta1[c] == Delta1(pat, c)
    requires Delta2From(pat, t.delta2, 1)
    ensures t == TablesFor(pat)
    ensures forall c :: 0 <= c < ALPHABET_LEN ==> t.delta1[c] < 2 * |pat|
    ensures forall j :: 0 <= j < |pat| ==> t.delta2[j] < 2 * |pat|
  {
    forall j | 0 <= j < |pat| ensures t.delta2[j] == Delta2(pat, j) < 2 * |pat| {
      LastPrefixBounds(pat, j);
    }
    assert t.delta2 == TablesFor(pat).delta2;
    assert t.delta1 == TablesFor(pat).delta1;
  }

  /** `bm_search`: the result is the offset of the returned pointer. */
  method Search(text: seq<byte>, pat: seq<byte>) returns (r: Option<nat>)
    requires 0 < |pat| && |text| + 2 * |pat| < 0x8000_0000
    ensures r == BmSearch(text, pat)
    ensures r.Some? ==> OccursAt(text, pat, r.value)
    ensures NulFree(pat) && (Unbordered(pat) || AllSame(pat)) ==> IsFirstOccurrence(text, pat, r)
  {
    var delta1 := new int32[ALPHABET_LEN];
    var delta2 := new int32[|pat|];
    MakeDelta1(delta1, pat);
    MakeDelta2(delta2, pat);
    TablesFilled(pat, Tables(delta1[..], delta2[..]));
    r := SearchLoop(text, pat, delta1, delta2);
    SearchReturnsOccurrence(text, pat, TablesFor(pat), 0);
    if NulFree(pat) && (Unbordered(pat) || AllSame(pat)) {
      SearchFindsFirst(text, pat, 0);
    }
  }

  // ----- The one pattern the repository searches for -----------------------------------

  const TZ_VER_STR: string := "QC_IMAGE_VERSION_STRING="

  function Bytes(s: string): seq<byte>
    requires forall q :: 0 <= q < |s| ==> s[q] as int < 256
  {
    seq(|s|, q requires 0 <= q < |s| => s[q] as int)
  }

  lemma TzVersionStringIsSearchable()
    ensures |TZ_VER_STR| == 24
    ensures forall q :: 0 <= q < |TZ_VER_STR| ==> TZ_VER_STR[q] as int < 256
    ensures NulFree(Bytes(TZ_VER_STR)) && AlwaysFindsFirst(Bytes(TZ_VER_STR))
  {
    var pat := Bytes(TZ_VER_STR);
    forall p | 0 < p < |pat| ensures !BorderAt(pat, p) {
      assert pat[23] != pat[23 - p];
    }
    SearchIsCompleteIff(pat);
  }
}
