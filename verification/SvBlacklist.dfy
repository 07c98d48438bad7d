/** Satellite blacklists, as lists of satellite ids and as one 64-bit mask per
    constellation (gps/gnss/GnssAdapter.cpp). */
module SvBlacklist {
  import opened Word64
  import opened Wrappers

  datatype SvType = UNKNOWN | GPS | SBAS | GLONASS | QZSS | BEIDOU | GALILEO | NAVIC

  datatype SvSource = SvSource(constellation: SvType, svId: nat)

  const SBAS_INITIAL_SV_ID := 120
  const SBAS_INITIAL_SV_LENGTH := 39
  const SBAS_INITIAL2_SV_ID := 183

  datatype SvConfig = SvConfig(glo: Word, bds: Word, qzss: Word, gal: Word, sbas: Word, navic: Word) {
    function Mask(t: SvType): Word
      requires Supported(t)
    {
      match t
      case GLONASS => glo
      case BEIDOU => bds
      case QZSS => qzss
      case GALILEO => gal
      case SBAS => sbas
      case NAVIC => navic
    }

    function With(t: SvType, m: Word): (c: SvConfig)
      requires Supported(t)
      ensures forall u :: Supported(u) ==> c.Mask(u) == if u == t then m else Mask(u)
    {
      match t
      case GLONASS => this.(glo := m)
      case BEIDOU => this.(bds := m)
      case QZSS => this.(qzss := m)
      case GALILEO => this.(gal := m)
      case SBAS => this.(sbas := m)
      case NAVIC => this.(navic := m)
    }
  }

  const CLEARED := SvConfig(ZERO, ZERO, ZERO, ZERO, ZERO, ZERO)

  /** The constellations that can be blacklisted. */
  predicate Supported(t: SvType) {
    t != UNKNOWN && t != GPS
  }

  function InitialSvId(t: SvType): nat {
    match t
    case GLONASS => 65
    case BEIDOU => 201
    case QZSS => 193
    case GALILEO => 301
    case SBAS => SBAS_INITIAL_SV_ID
    case NAVIC => 401
    case _ => 0
  }

  // ----- What masks and lists mean ------------------------------------------------------

  /** The satellite that bit `k` stands for; SBAS has two id ranges. */
  function SvIdOfBit(t: SvType, k: nat): nat {
    if t == SBAS && k >= SBAS_INITIAL_SV_LENGTH then SBAS_INITIAL2_SV_ID + (k - SBAS_INITIAL_SV_LENGTH)
    else InitialSvId(t) + k
  }

  /** Entry `e` blacklists bit `k` of constellation `t`; id 0 stands for every satellite. */
  predicate Names(e: SvSource, t: SvType, k: nat) {
    e.constellation == t && (e.svId == 0 || e.svId == SvIdOfBit(t, k))
  }

  ghost predicate Listed(list: seq<SvSource>, t: SvType, k: nat) {
    exists e :: e in list && Names(e, t, k)
  }

  /** The masks hold exactly the satellites of the list. */
  ghost predicate IsConfigOf(list: seq<SvSource>, c: SvConfig) {
    forall t, k :: Supported(t) && 0 <= k < 64 ==> (c.Mask(t)[k] <==> Listed(list, t, k))
  }

  /** Shifting by 64 or more is undefined, so an SBAS id must not lie in 208..246. */
  predicate InRange(e: SvSource) {
    e.constellation == SBAS ==> e.svId < 208 || e.svId >= 247
  }

  /** By how much the conversion shifts for an entry, if its id passes the range tests; an SBAS id of
      183 or more is tested as one of the 64 that follow. */
  function ShiftCount(e: SvSource): Option<nat> {
    if !Supported(e.constellation) || e.svId == 0 then None
    else if e.constellation != SBAS then
      if InitialSvId(e.constellation) <= e.svId < InitialSvId(e.constellation) + 64
      then Some(e.svId - InitialSvId(e.constellation)) else None
    else if SBAS_INITIAL_SV_ID <= e.svId < SBAS_INITIAL_SV_ID + SBAS_INITIAL_SV_LENGTH
    then Some(e.svId - SBAS_INITIAL_SV_ID)
    else if SBAS_INITIAL2_SV_ID <= e.svId < SBAS_INITIAL2_SV_ID + 64
    then Some(e.svId + SBAS_INITIAL_SV_LENGTH - SBAS_INITIAL2_SV_ID)
    else None
  }

  /** `InRange` excludes exactly the entries whose shift is undefined; 208 is one of them, and 207
      gives the highest bit. */
  lemma InRangeIff(e: SvSource)
    ensures InRange(e) <==> (ShiftCount(e).Some? ==> ShiftCount(e).value < 64)
    ensures ShiftCount(SvSource(SBAS, 208)) == Some(64) && ShiftCount(SvSource(SBAS, 207)) == Some(63)
  {
  }

  /** The entries for bits `lo` to `hi - 1` of one mask, ascending. */
  function Entries(m: Word, t: SvType, lo: nat, hi: nat): (list: seq<SvSource>)
    requires lo <= hi <= 64
    decreases hi - lo
  {
    if lo == hi then []
    else (if m[lo] then [SvSource(t, SvIdOfBit(t, lo))] else []) + Entries(m, t, lo + 1, hi)
  }

  /** One mask as a list; a full mask collapses to id 0, except for SBAS. */
  function MaskList(m: Word, t: SvType): seq<SvSource> {
    if m == ALL_BITS && t != SBAS then [SvSource(t, 0)] else Entries(m, t, 0, |m|)
  }

  function ConfigList(c: SvConfig): seq<SvSource> {
    MaskList(c.bds, BEIDOU) + MaskList(c.gal, GALILEO) + MaskList(c.glo, GLONASS) +
    MaskList(c.qzss, QZSS) + MaskList(c.sbas, SBAS) + MaskList(c.navic, NAVIC)
  }

  function CountBits(m: Word, lo: nat, hi: nat): nat
    requires lo <= hi <= 64
    decreases hi - lo
  {
    if lo == hi then 0 else (if m[lo] then 1 else 0) + CountBits(m, lo + 1, hi)
  }

  // ----- Properties of masks and lists --------------------------------------------------

  /** The masks depend on the set of entries only, not on order or duplicates. */
  lemma ConfigIsUnique(list: seq<SvSource>, list': seq<SvSource>, c: SvConfig, c': SvConfig)
    requires forall e :: e in list <==> e in list'
    requires IsConfigOf(list, c) && IsConfigOf(list', c')
    ensures c == c'
  {
    forall t | Supported(t) ensures c.Mask(t) == c'.Mask(t) {
      forall k | 0 <= k < 64 ensures c.Mask(t)[k] == c'.Mask(t)[k] {
        assert Listed(list, t, k) <==> Listed(list', t, k);
      }
    }
    assert c.Mask(GLONASS) == c'.Mask(GLONASS) && c.Mask(BEIDOU) == c'.Mask(BEIDOU);
    assert c.Mask(QZSS) == c'.Mask(QZSS) && c.Mask(GALILEO) == c'.Mask(GALILEO);
    assert c.Mask(SBAS) == c'.Mask(SBAS) && c.Mask(NAVIC) == c'.Mask(NAVIC);
  }

  /** Entry `e` is of constellation `t` and stands for all of it or for satellite `svId`. */
  predicate Is(e: SvSource, t: SvType, svId: nat) {
    e.constellation == t && (e.svId == 0 || e.svId == svId)
  }

  /** Mask by mask and id by id. */
  lemma MasksByName(list: seq<SvSource>, c: SvConfig, k: nat)
    requires IsConfigOf(list, c) && k < 64
    ensures c.glo[k] <==> exists e :: e in list && Is(e, GLONASS, 65 + k)
    ensures c.qzss[k] <==> exists e :: e in list && Is(e, QZSS, 193 + k)
    ensures c.bds[k] <==> exists e :: e in list && Is(e, BEIDOU, 201 + k)
    ensures c.gal[k] <==> exists e :: e in list && Is(e, GALILEO, 301 + k)
    ensures c.navic[k] <==> exists e :: e in list && Is(e, NAVIC, 401 + k)
    ensures c.sbas[k] <==> exists e :: e in list && Is(e, SBAS, if k < 39 then 120 + k else 144 + k)
  {
    NamesByName(list, GLONASS, 65 + k, k);
    NamesByName(list, QZSS, 193 + k, k);
    NamesByName(list, BEIDOU, 201 + k, k);
    NamesByName(list, GALILEO, 301 + k, k);
    NamesByName(list, NAVIC, 401 + k, k);
    NamesByName(list, SBAS, if k < 39 then 120 + k else 144 + k, k);
    assert c.Mask(GLONASS)[k] <==> Listed(list, GLONASS, k);
    assert c.Mask(QZSS)[k] <==> Listed(list, QZSS, k);
    assert c.Mask(BEIDOU)[k] <==> Listed(list, BEIDOU, k);
    assert c.Mask(GALILEO)[k] <==> Listed(list, GALILEO, k);
    assert c.Mask(NAVIC)[k] <==> Listed(list, NAVIC, k);
    assert c.Mask(SBAS)[k] <==> Listed(list, SBAS, k);
  }

  lemma NamesByName(list: seq<SvSource>, t: SvType, svId: nat, k: nat)
    requires svId == SvIdOfBit(t, k)
    ensures Listed(list, t, k) <==> exists e :: e in list && Is(e, t, svId)
  {
    assert forall e :: Names(e, t, k) <==> Is(e, t, svId);
  }

  lemma ListedConcat(a: seq<SvSource>, b: seq<SvSource>, t: SvType, k: nat)
    ensures Listed(a + b, t, k) <==> Listed(a, t, k) || Listed(b, t, k)
  {
    forall e ensures e in a + b <==> e in a || e in b { }
  }

  lemma ListedSingle(e: SvSource, t: SvType, k: nat)
    ensures Listed([e], t, k) <==> Names(e, t, k)
    ensures !Listed([], t, k)
  {
    assert e in [e];
  }

  lemma NamesOneBit(t: SvType, lo: nat, u: SvType, k: nat)
    requires Supported(t)
    ensures Names(SvSource(t, SvIdOfBit(t, lo)), u, k) <==> t == u && lo == k
  {
  }

  lemma {:induction false} EntriesListed(m: Word, t: SvType, lo: nat, u: SvType, k: nat)
    requires Supported(t) && k < 64 && lo <= 64
    ensures Listed(Entries(m, t, lo, 64), u, k) <==> t == u && lo <= k && m[k]
    decreases 64 - lo
  {
    var e := SvSource(t, SvIdOfBit(t, lo));
    ListedSingle(e, u, k);
    if lo < 64 {
      var rest := Entries(m, t, lo + 1, 64);
      EntriesListed(m, t, lo + 1, u, k);
      NamesOneBit(t, lo, u, k);
      if m[lo] {
        ListedConcat([e], rest, u, k);
        assert Entries(m, t, lo, 64) == [e] + rest;
      } else {
        assert Entries(m, t, lo, 64) == rest;
      }
    }
  }

  lemma MaskListListed(m: Word, t: SvType, u: SvType, k: nat)
    requires Supported(t) && k < 64
    ensures Listed(MaskList(m, t), u, k) <==> t == u && m[k]
  {
    if m == ALL_BITS && t != SBAS {
      ListedSingle(SvSource(t, 0), u, k);
    } else {
      EntriesListed(m, t, 0, u, k);
    }
  }

  lemma ConfigListListed(c: SvConfig, t: SvType, k: nat)
    requires Supported(t) && k < 64
    ensures c.Mask(t)[k] <==> Listed(ConfigList(c), t, k)
  {
    var l1, l2, l3 := MaskList(c.bds, BEIDOU), MaskList(c.gal, GALILEO), MaskList(c.glo, GLONASS);
    var l4, l5, l6 := MaskList(c.qzss, QZSS), MaskList(c.sbas, SBAS), MaskList(c.navic, NAVIC);
    ListedConcat(l1, l2, t, k);
    ListedConcat(l1 + l2, l3, t, k);
    ListedConcat(l1 + l2 + l3, l4, t, k);
    ListedConcat(l1 + l2 + l3 + l4, l5, t, k);
    ListedConcat(l1 + l2 + l3 + l4 + l5, l6, t, k);
    MaskListListed(c.bds, BEIDOU, t, k);
    MaskListListed(c.gal, GALILEO, t, k);
    MaskListListed(c.glo, GLONASS, t, k);
    MaskListListed(c.qzss, QZSS, t, k);
    MaskListListed(c.sbas, SBAS, t, k);
    MaskListListed(c.navic, NAVIC, t, k);
  }

  /** The list made from the masks means the masks again. */
  lemma ConfigListMeansConfig(c: SvConfig)
    ensures IsConfigOf(ConfigList(c), c)
  {
    forall t, k | Supported(t) && 0 <= k < 64
      ensures c.Mask(t)[k] <==> Listed(ConfigList(c), t, k)
    {
      ConfigListListed(c, t, k);
    }
  }

  /** Strictly ascending ids of `t`, from `lo` up to below `hi`. */
  ghost predicate Ascends(list: seq<SvSource>, t: SvType, lo: int, hi: int) {
    && (forall i :: 0 <= i < |list| ==> list[i].constellation == t && lo <= list[i].svId < hi)
    && (forall i, j :: 0 <= i < j < |list| ==> list[i].svId < list[j].svId)
  }

  lemma AscendsPrepend(e: SvSource, list: seq<SvSource>, t: SvType, lo: int, hi: int)
    requires Ascends(list, t, lo, hi) && e.constellation == t && e.svId < lo <= hi
    ensures Ascends([e] + list, t, e.svId, hi)
  {
  }

  lemma AscendsFrom(list: seq<SvSource>, t: SvType, lo: int, lo': int, hi: int)
    requires Ascends(list, t, lo, hi) && lo' <= lo
    ensures Ascends(list, t, lo', hi)
  {
  }

  lemma IdsGrow(t: SvType, lo: nat, hi: nat)
    requires lo < hi
    ensures SvIdOfBit(t, lo) < SvIdOfBit(t, lo + 1) <= SvIdOfBit(t, hi)
  {
  }

  /** One constellation's list ascends strictly and has one entry per set bit. */
  lemma {:induction false} EntriesAscend(m: Word, t: SvType, lo: nat, hi: nat)
    requires lo <= hi <= 64
    ensures |Entries(m, t, lo, hi)| == CountBits(m, lo, hi)
    ensures Ascends(Entries(m, t, lo, hi), t, SvIdOfBit(t, lo), SvIdOfBit(t, hi))
    decreases hi - lo
  {
    if lo < hi {
      var rest := Entries(m, t, lo + 1, hi);
      EntriesAscend(m, t, lo + 1, hi);
      IdsGrow(t, lo, hi);
      if m[lo] {
        assert Entries(m, t, lo, hi) == [SvSource(t, SvIdOfBit(t, lo))] + rest;
        AscendsPrepend(SvSource(t, SvIdOfBit(t, lo)), rest, t, SvIdOfBit(t, lo + 1), SvIdOfBit(t, hi));
      } else {
        assert Entries(m, t, lo, hi) == rest;
        AscendsFrom(rest, t, SvIdOfBit(t, lo + 1), SvIdOfBit(t, lo), SvIdOfBit(t, hi));
      }
    }
  }

  /** A full mask is a single entry, except for SBAS; any other has one entry per set bit. */
  lemma MaskListSize(m: Word, t: SvType)
    ensures |MaskList(m, t)| == if m == ALL_BITS && t != SBAS then 1 else CountBits(m, 0, |m|)
  {
    EntriesAscend(m, t, 0, |m|);
  }

  /** Where the constellations stand in the list. */
  function Rank(t: SvType): nat {
    match t
    case BEIDOU => 1
    case GALILEO => 2
    case GLONASS => 3
    case QZSS => 4
    case SBAS => 5
    case NAVIC => 6
    case _ => 0
  }

  predicate ComesBefore(a: SvSource, b: SvSource) {
    || Rank(a.constellation) < Rank(b.constellation)
    || (a.constellation == b.constellation && a.svId < b.svId)
  }

  /** By constellation, and by id within each; all of ranks from `lo` up to below `hi`. */
  ghost predicate InOrder(list: seq<SvSource>, lo: nat, hi: nat) {
    && (forall i :: 0 <= i < |list| ==> lo <= Rank(list[i].constellation) < hi)
    && (forall i, j :: 0 <= i < j < |list| ==> ComesBefore(list[i], list[j]))
  }

  lemma AscendingInOrder(list: seq<SvSource>, t: SvType, lo: int, hi: int)
    requires Ascends(list, t, lo, hi)
    ensures InOrder(list, Rank(t), Rank(t) + 1)
  {
  }

  lemma OneInOrder(e: SvSource)
    ensures InOrder([e], Rank(e.constellation), Rank(e.constellation) + 1)
  {
  }

  lemma EntriesInOrder(m: Word, t: SvType, lo: nat, hi: nat)
    requires lo <= hi <= 64
    ensures InOrder(Entries(m, t, lo, hi), Rank(t), Rank(t) + 1)
  {
    EntriesAscend(m, t, lo, hi);
    AscendingInOrder(Entries(m, t, lo, hi), t, SvIdOfBit(t, lo), SvIdOfBit(t, hi));
  }

  lemma MaskInOrder(m: Word, t: SvType)
    ensures InOrder(MaskList(m, t), Rank(t), Rank(t) + 1)
  {
    if m == ALL_BITS && t != SBAS {
      OneInOrder(SvSource(t, 0));
    } else {
      EntriesInOrder(m, t, 0, |m|);
    }
  }

  lemma OrderedConcat(a: seq<SvSource>, b: seq<SvSource>, lo: nat, mid: nat, hi: nat)
    requires lo <= mid <= hi && InOrder(a, lo, mid) && InOrder(b, mid, hi)
    ensures InOrder(a + b, lo, hi)
  {
    var all := a + b;
    assert forall i :: 0 <= i < |a| ==> all[i] == a[i];
    assert forall i :: |a| <= i < |all| ==> all[i] == b[i - |a|];
  }

  lemma SixInOrder(l1: seq<SvSource>, l2: seq<SvSource>, l3: seq<SvSource>, l4: seq<SvSource>, l5: seq<SvSource>,
                   l6: seq<SvSource>)
    requires InOrder(l1, 1, 2) && InOrder(l2, 2, 3) && InOrder(l3, 3, 4)
    requires InOrder(l4, 4, 5) && InOrder(l5, 5, 6) && InOrder(l6, 6, 7)
    ensures InOrder(l1 + l2 + l3 + l4 + l5 + l6, 1, 7)
  {
    OrderedConcat(l1, l2, 1, 2, 3);
    OrderedConcat(l1 + l2, l3, 1, 3, 4);
    OrderedConcat(l1 + l2 + l3, l4, 1, 4, 5);
    OrderedConcat(l1 + l2 + l3 + l4, l5, 1, 5, 6);
    OrderedConcat(l1 + l2 + l3 + l4 + l5, l6, 1, 6, 7);
  }

  /** The list of all masks goes by constellation, and ascends within each. */
  lemma ConfigListInOrder(c: SvConfig)
    ensures InOrder(ConfigList(c), 1, 7)
  {
    MaskInOrder(c.bds, BEIDOU);
    MaskInOrder(c.gal, GALILEO);
    MaskInOrder(c.glo, GLONASS);
    MaskInOrder(c.qzss, QZSS);
    MaskInOrder(c.sbas, SBAS);
    MaskInOrder(c.navic, NAVIC);
    SixInOrder(MaskList(c.bds, BEIDOU), MaskList(c.gal, GALILEO), MaskList(c.glo, GLONASS),
               MaskList(c.qzss, QZSS), MaskList(c.sbas, SBAS), MaskList(c.navic, NAVIC));
  }

  lemma {:induction false} EntriesSplit(m: Word, t: SvType, lo: nat, mid: nat, hi: nat)
    requires lo <= mid <= hi <= 64
    ensures Entries(m, t, lo, hi) == Entries(m, t, lo, mid) + Entries(m, t, mid, hi)
    decreases mid - lo
  {
    if lo < mid {
      EntriesSplit(m, t, lo + 1, mid, hi);
    }
  }

  // ----- The conversions ------------------------------------------------------------------

  /** The id the loop gives bit `k` when bit 0 stands for `initial`. */
  function IdAt(initial: nat, t: SvType, k: nat): nat {
    if t == SBAS && k >= SBAS_INITIAL_SV_LENGTH then k - SBAS_INITIAL_SV_LENGTH + SBAS_INITIAL2_SV_ID
    else k + initial
  }

  function EntriesAt(m: Word, initial: nat, t: SvType, k: nat): seq<SvSource>
    requires k <= 64
    decreases 64 - k
  {
    if k == 64 then [] else EntryAt(m, initial, t, k) + EntriesAt(m, initial, t, k + 1)
  }

  function EntryAt(m: Word, initial: nat, t: SvType, k: nat): seq<SvSource>
    requires k < 64
  {
    if m[k] then [SvSource(t, IdAt(initial, t, k))] else []
  }

  lemma ShiftedOnce(m: Word, k: nat)
    ensures Shr(Shr(m, k), 1) == Shr(m, k + 1)
    ensures k == 64 ==> Shr(m, k) == ZERO
    ensures k < 64 ==> Shr(m, k)[0] == m[k]
  {
  }

  lemma {:induction false} NoEntriesLeft(m: Word, initial: nat, t: SvType, k: nat)
    requires k <= 64 && Shr(m, k) == ZERO
    ensures EntriesAt(m, initial, t, k) == []
    decreases 64 - k
  {
    if k < 64 {
      assert Shr(m, k)[0] == m[k];
      ShiftedOnce(m, k);
      assert Shr(ZERO, 1) == ZERO;
      NoEntriesLeft(m, initial, t, k + 1);
    }
  }

  /** The entries pushed once the loop has looked at the bits below `k`. */
  function EntriesBelow(m: Word, initial: nat, t: SvType, k: nat): seq<SvSource>
    requires k <= 64
  {
    if k == 0 then [] else EntriesBelow(m, initial, t, k - 1) + EntryAt(m, initial, t, k - 1)
  }

  lemma {:induction false} BelowAndAt(m: Word, initial: nat, t: SvType, k: nat)
    requires k <= 64
    ensures EntriesBelow(m, initial, t, k) + EntriesAt(m, initial, t, k) == EntriesAt(m, initial, t, 0)
  {
    if k > 0 {
      BelowAndAt(m, initial, t, k - 1);
      Reassociate(EntriesBelow(m, initial, t, k - 1), EntryAt(m, initial, t, k - 1), EntriesAt(m, initial, t, k));
    }
  }

  lemma AllEntriesPushed(m: Word, initial: nat, t: SvType, k: nat)
    requires k <= 64 && Shr(m, k) == ZERO
    ensures EntriesBelow(m, initial, t, k) == EntriesAt(m, initial, t, 0)
  {
    NoEntriesLeft(m, initial, t, k);
    BelowAndAt(m, initial, t, k);
  }

  lemma Reassociate(a: seq<SvSource>, b: seq<SvSource>, c: seq<SvSource>)
    ensures a + (b + c) == (a + b) + c
  {
  }

  /** `convertGnssSvIdMaskToList` */
  method MaskToList(mask: Word, list: seq<SvSource>, initial: nat, t: SvType)
    returns (svIds: seq<SvSource>)
    ensures svIds == list + if mask == ALL_BITS then [SvSource(t, 0)] else EntriesAt(mask, initial, t, 0)
  {
    if mask == ALL_BITS {
      return list + [SvSource(t, 0)];
    }
    var pushed := PushEntries(mask, initial, t);
    svIds := list + pushed;
  }

  /** Its loop. */
  method PushEntries(mask: Word, initial: nat, t: SvType) returns (pushed: seq<SvSource>)
    ensures pushed == EntriesAt(mask, initial, t, 0)
  {
    pushed := [];
    var svIdMask, bitNumber := mask, 0;
    assert Shr(mask, 0) == mask;
    while svIdMask != ZERO
      invariant bitNumber <= 64 && svIdMask == Shr(mask, bitNumber)
      invariant pushed == EntriesBelow(mask, initial, t, bitNumber)
      decreases 64 - bitNumber
    {
      ShiftedOnce(mask, bitNumber);
      if svIdMask[0] {
        var svId := bitNumber + initial;
        if t == SBAS && bitNumber >= SBAS_INITIAL_SV_LENGTH {
          svId := bitNumber - SBAS_INITIAL_SV_LENGTH + SBAS_INITIAL2_SV_ID;
        }
        pushed := pushed + [SvSource(t, svId)];
      }
      bitNumber := bitNumber + 1;
      svIdMask := Shr(svIdMask, 1);
    }
    AllEntriesPushed(mask, initial, t, bitNumber);
  }

  lemma {:induction false} EntriesAtIsEntries(m: Word, t: SvType, k: nat)
    requires k <= 64
    ensures EntriesAt(m, InitialSvId(t), t, k) == Entries(m, t, k, 64)
    decreases 64 - k
  {
    if k < 64 {
      EntriesAtIsEntries(m, t, k + 1);
      assert EntryAt(m, InitialSvId(t), t, k) == if m[k] then [SvSource(t, SvIdOfBit(t, k))] else [];
      assert EntriesAt(m, InitialSvId(t), t, k) == EntryAt(m, InitialSvId(t), t, k) + Entries(m, t, k + 1, 64);
    }
  }

  /** The first SBAS call sees the low 39 bits only. */
  lemma {:induction false} LowEntries(m: Word, low: Word, k: nat)
    requires k <= SBAS_INITIAL_SV_LENGTH
    requires forall i :: 0 <= i < 64 ==> low[i] == (i < SBAS_INITIAL_SV_LENGTH && m[i])
    ensures EntriesAt(low, SBAS_INITIAL_SV_ID, SBAS, k) == Entries(m, SBAS, k, SBAS_INITIAL_SV_LENGTH)
    decreases SBAS_INITIAL_SV_LENGTH - k
  {
    if k < SBAS_INITIAL_SV_LENGTH {
      LowEntries(m, low, k + 1);
    } else {
      assert Shr(low, k) == ZERO;
      NoEntriesLeft(low, SBAS_INITIAL_SV_ID, SBAS, k);
    }
  }

  /** The second SBAS call sees the high bits, moved down by 39. */
  lemma {:induction false} HighEntries(m: Word, high: Word, k: nat)
    requires SBAS_INITIAL_SV_LENGTH <= k <= 64 && high == Shr(m, SBAS_INITIAL_SV_LENGTH)
    ensures EntriesAt(high, SBAS_INITIAL2_SV_ID, SBAS, k - SBAS_INITIAL_SV_LENGTH) == Entries(m, SBAS, k, 64)
    decreases 64 - k
  {
    var j := k - SBAS_INITIAL_SV_LENGTH;
    if k < 64 {
      HighEntries(m, high, k + 1);
      assert EntryAt(high, SBAS_INITIAL2_SV_ID, SBAS, j) ==
             if m[k] then [SvSource(SBAS, SvIdOfBit(SBAS, k))] else [];
    } else {
      assert Shr(high, j) == ZERO;
      NoEntriesLeft(high, SBAS_INITIAL2_SV_ID, SBAS, j);
    }
  }

  method AppendMask(mask: Word, list: seq<SvSource>, t: SvType) returns (svIds: seq<SvSource>)
    requires t != SBAS
    ensures svIds == list + MaskList(mask, t)
  {
    svIds := list;
    if mask != ZERO {
      svIds := MaskToList(mask, svIds, InitialSvId(t), t);
      EntriesAtIsEntries(mask, t, 0);
    } else {
      ZeroHasNoEntries(t);
    }
  }

  method AppendSbasMask(mask: Word, list: seq<SvSource>) returns (svIds: seq<SvSource>)
    ensures svIds == list + MaskList(mask, SBAS)
  {
    var low := Shr(Shl(mask, 64 - SBAS_INITIAL_SV_LENGTH), 64 - SBAS_INITIAL_SV_LENGTH);
    var high := Shr(mask, SBAS_INITIAL_SV_LENGTH);
    svIds := list;
    SbasEntries(mask, low, high);
    if mask != ZERO {
      assert !low[63] && !high[63];
      svIds := MaskToList(low, svIds, SBAS_INITIAL_SV_ID, SBAS);
      svIds := MaskToList(high, svIds, SBAS_INITIAL2_SV_ID, SBAS);
      Reassociate(list, EntriesAt(low, SBAS_INITIAL_SV_ID, SBAS, 0), EntriesAt(high, SBAS_INITIAL2_SV_ID, SBAS, 0));
    } else {
      ZeroHasNoEntries(SBAS);
    }
  }

  lemma SbasEntries(mask: Word, low: Word, high: Word)
    requires low == Shr(Shl(mask, 64 - SBAS_INITIAL_SV_LENGTH), 64 - SBAS_INITIAL_SV_LENGTH)
    requires high == Shr(mask, SBAS_INITIAL_SV_LENGTH)
    ensures MaskList(mask, SBAS) ==
            EntriesAt(low, SBAS_INITIAL_SV_ID, SBAS, 0) + EntriesAt(high, SBAS_INITIAL2_SV_ID, SBAS, 0)
  {
    LowEntries(mask, low, 0);
    HighEntries(mask, high, SBAS_INITIAL_SV_LENGTH);
    EntriesSplit(mask, SBAS, 0, SBAS_INITIAL_SV_LENGTH, 64);
  }

  lemma ZeroHasNoEntries(t: SvType)
    ensures MaskList(ZERO, t) == []
  {
    assert Shr(ZERO, 0) == ZERO;
    assert !ZERO[0];
    NoEntriesLeft(ZERO, InitialSvId(t), t, 0);
    EntriesAtIsEntries(ZERO, t, 0);
  }

  lemma ReassociateSix(list: seq<SvSource>, l1: seq<SvSource>, l2: seq<SvSource>, l3: seq<SvSource>,
                       l4: seq<SvSource>, l5: seq<SvSource>, l6: seq<SvSource>)
    ensures list + l1 + l2 + l3 + l4 + l5 + l6 == list + (l1 + l2 + l3 + l4 + l5 + l6)
  {
    Reassociate(list, l1, l2);
    Reassociate(list, l1 + l2, l3);
    Reassociate(list, l1 + l2 + l3, l4);
    Reassociate(list, l1 + l2 + l3 + l4, l5);
    Reassociate(list, l1 + l2 + l3 + l4 + l5, l6);
  }

  /** `convertFromGnssSvIdConfig`, which appends to the list it is given */
  method FromConfig(c: SvConfig, blacklisted: seq<SvSource>) returns (svIds: seq<SvSource>)
    ensures svIds == blacklisted + ConfigList(c)
  {
    svIds := AppendMask(c.bds, blacklisted, BEIDOU);
    svIds := AppendMask(c.gal, svIds, GALILEO);
    svIds := AppendMask(c.glo, svIds, GLONASS);
    svIds := AppendMask(c.qzss, svIds, QZSS);
    svIds := AppendSbasMask(c.sbas, svIds);
    svIds := AppendMask(c.navic, svIds, NAVIC);
    ReassociateSix(blacklisted, MaskList(c.bds, BEIDOU), MaskList(c.gal, GALILEO), MaskList(c.glo, GLONASS),
                   MaskList(c.qzss, QZSS), MaskList(c.sbas, SBAS), MaskList(c.navic, NAVIC));
  }

  /** What one entry does to the masks: its named bits are set, nothing else changes. */
  ghost predicate AddsEntry(e: SvSource, before: SvConfig, after: SvConfig) {
    forall t, k :: Supported(t) && 0 <= k < 64 ==> (after.Mask(t)[k] <==> before.Mask(t)[k] || Names(e, t, k))
  }

  /** The body of the loop of `convertToGnssSvIdConfig`. */
  method AddEntry(source: SvSource, config: SvConfig) returns (c: SvConfig)
    requires InRange(source)
    ensures AddsEntry(source, config, c)
  {
    c := config;
    var found := Supported(source.constellation);
    var initialSvId, svIndexOffset := InitialSvId(source.constellation), 0;
    if source.constellation == SBAS {
      if source.svId == 0 {
        initialSvId := 0;
      } else if source.svId >= SBAS_INITIAL2_SV_ID {
        initialSvId := SBAS_INITIAL2_SV_ID;
        svIndexOffset := SBAS_INITIAL_SV_LENGTH;
      } else if SBAS_INITIAL_SV_ID <= source.svId < SBAS_INITIAL_SV_ID + SBAS_INITIAL_SV_LENGTH {
        initialSvId := SBAS_INITIAL_SV_ID;
      } else {
        found := false;
      }
    }
    if found {
      if source.svId == 0 {
        c := config.With(source.constellation, ALL_BITS);
      } else if source.svId < initialSvId || source.svId >= initialSvId + 64 {
      } else {
        var shiftCnt := source.svId + svIndexOffset - initialSvId;
        assert ShiftCount(source) == Some(shiftCnt);
        c := config.With(source.constellation, Or(config.Mask(source.constellation), OneBit(shiftCnt)));
      }
    }
  }

  /** `convertToGnssSvIdConfig`: an empty list clears the masks, any other list adds to them.
      The result tells whether there is anything to send. */
  method ToConfig(svIds: seq<SvSource>, config: SvConfig) returns (valid: bool, c: SvConfig)
    requires AllInRange(svIds)
    ensures svIds == [] ==> valid && c == CLEARED
    ensures svIds != [] ==> (valid <==> c != CLEARED)
    ensures svIds != [] ==> forall t, k :: Supported(t) && 0 <= k < 64 ==>
              (c.Mask(t)[k] <==> config.Mask(t)[k] || Listed(svIds, t, k))
    ensures config == CLEARED ==> IsConfigOf(svIds, c)
  {
    if svIds == [] {
      return true, CLEARED;
    }
    c := config;
    for i := 0 to |svIds|
      invariant forall t, k :: Supported(t) && 0 <= k < 64 ==>
        (c.Mask(t)[k] <==> config.Mask(t)[k] || Listed(svIds[..i], t, k))
    {
      c := AddEntry(svIds[i], c);
      assert svIds[..i + 1] == svIds[..i] + [svIds[i]];
      forall t, k | Supported(t) && 0 <= k < 64
        ensures Listed(svIds[..i + 1], t, k) <==> Listed(svIds[..i], t, k) || Names(svIds[i], t, k)
      {
        ListedConcat(svIds[..i], [svIds[i]], t, k);
        ListedSingle(svIds[i], t, k);
      }
    }
    assert svIds[..|svIds|] == svIds;
    valid := c.glo != ZERO || c.bds != ZERO || c.gal != ZERO || c.qzss != ZERO || c.sbas != ZERO || c.navic != ZERO;
  }

  /** `getNumSvUsed` */
  method GetNumSvUsed(mask: Word, total: int) returns (num: nat)
    ensures total > 64 || total < 0 ==> num == 0
    ensures 0 <= total <= 64 ==> num == CountBits(mask, 0, total)
  {
    if total > 64 {
      return 0;
    }
    num := 0;
    var probe := OneBit(0);
    var i := 0;
    while i < total
      invariant 0 <= i && (0 <= total ==> i <= total) && (total < 0 ==> i == 0)
      invariant forall b :: 0 <= b < 64 ==> probe[b] == (b == i)
      invariant total < 0 ==> num == 0
      invariant 0 <= total ==> num + CountBits(mask, i, total) == CountBits(mask, 0, total)
    {
      assert And(mask, probe)[i] == mask[i];
      if And(mask, probe) != ZERO {
        num := num + 1;
      }
      probe := Shl(probe, 1);
      i := i + 1;
    }
  }

  /** Masks to list and back are the same masks, for every six 64-bit masks. */
  method MaskRoundTrip(c: SvConfig) returns (again: SvConfig)
    ensures again == c
  {
    var svIds := FromConfig(c, []);
    assert svIds == ConfigList(c);
    ConfigListInRange(c);
    var valid;
    valid, again := ToConfig(svIds, CLEARED);
    ConfigListMeansConfig(c);
    ConfigIsUnique(svIds, svIds, c, again);
  }

  /** List to masks to list is a normal form: it depends only on which satellites the list
      names, and doing it again changes nothing. */
  method ListNormalForm(svIds: seq<SvSource>) returns (normal: seq<SvSource>)
    requires AllInRange(svIds)
    ensures forall t, k :: Supported(t) && 0 <= k < 64 ==> (Listed(normal, t, k) <==> Listed(svIds, t, k))
    ensures forall c :: IsConfigOf(normal, c) ==> ConfigList(c) == normal
  {
    var valid, c := ToConfig(svIds, CLEARED);
    normal := FromConfig(c, []);
    assert normal == ConfigList(c);
    ConfigListMeansConfig(c);
    forall c' | IsConfigOf(normal, c') ensures ConfigList(c') == normal {
      ConfigIsUnique(normal, normal, c, c');
    }
  }

  ghost predicate AllInRange(list: seq<SvSource>) {
    forall e :: e in list ==> InRange(e)
  }

  lemma MaskListInRange(m: Word, t: SvType)
    ensures AllInRange(MaskList(m, t))
  {
    if m != ALL_BITS || t == SBAS {
      EntriesAscend(m, t, 0, 64);
      assert SvIdOfBit(SBAS, 64) == 208;
    }
  }

  lemma ConfigListInRange(c: SvConfig)
    ensures AllInRange(ConfigList(c))
  {
    MaskListInRange(c.bds, BEIDOU);
    MaskListInRange(c.gal, GALILEO);
    MaskListInRange(c.glo, GLONASS);
    MaskListInRange(c.qzss, QZSS);
    MaskListInRange(c.sbas, SBAS);
    MaskListInRange(c.navic, NAVIC);
    InRangeConcat(MaskList(c.bds, BEIDOU), MaskList(c.gal, GALILEO), MaskList(c.glo, GLONASS),
                  MaskList(c.qzss, QZSS), MaskList(c.sbas, SBAS), MaskList(c.navic, NAVIC));
  }

  lemma InRangeConcat(l1: seq<SvSource>, l2: seq<SvSource>, l3: seq<SvSource>,
                      l4: seq<SvSource>, l5: seq<SvSource>, l6: seq<SvSource>)
    requires AllInRange(l1) && AllInRange(l2) && AllInRange(l3)
    requires AllInRange(l4) && AllInRange(l5) && AllInRange(l6)
    ensures AllInRange(l1 + l2 + l3 + l4 + l5 + l6)
  {
  }
}
