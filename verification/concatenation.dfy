/** The `ConcatenatedTimeline` snapshot a concatenating source publishes,
    the floor search it resolves indices with, and the translation of
    period uids and window indices between the concatenation and one
    child. */
module Concatenation {
  import opened Wrappers
  import opened Timelines
  import opened Holders

  predicate Sorted(a: seq<int>) {
    forall i, j :: 0 <= i <= j < |a| ==> a[i] <= a[j]
  }

  /** The last index whose element is below `v`, or -1: what
      `Util.binarySearchFloor(a, v, false, false)` returns on a sorted
      array. */
  function FloorIndex(a: seq<int>, v: int): (r: int)
    ensures -1 <= r < |a|
    ensures r >= 0 ==> a[r] < v
    ensures forall j :: r < j < |a| ==> a[j] >= v
  {
    if |a| == 0 then -1
    else if a[|a| - 1] < v then |a| - 1
    else FloorIndex(a[..|a| - 1], v)
  }

  /** The two conditions pin the floor index down. */
  lemma FloorIndexUnique(a: seq<int>, v: int, r: int)
    requires -1 <= r < |a|
    requires r >= 0 ==> a[r] < v
    requires forall j :: r < j < |a| ==> a[j] >= v
    ensures r == FloorIndex(a, v)
  {
  }

  /** A larger bound never finds an earlier index. */
  lemma FloorIndexMonotone(a: seq<int>, v: int, w: int)
    requires v <= w
    ensures FloorIndex(a, v) <= FloorIndex(a, w)
  {
  }

  /** Binary search for the floor index of a sorted array: the lower
      bound only passes elements below `v`, the upper bound only elements
      at or above it. */
  method BinarySearchFloor(a: seq<int>, v: int) returns (r: int)
    requires Sorted(a)
    ensures r == FloorIndex(a, v)
  {
    var lo, hi := 0, |a|;
    while lo < hi
      invariant 0 <= lo <= hi <= |a|
      invariant forall j :: 0 <= j < lo ==> a[j] < v
      invariant forall j :: hi <= j < |a| ==> a[j] >= v
      decreases hi - lo
    {
      var mid := lo + (hi - lo) / 2;
      if a[mid] < v {
        lo := mid + 1;
      } else {
        hi := mid;
      }
    }
    r := lo - 1;
    FloorIndexUnique(a, v, r);
  }

  /** `childIndexByUid`: filled in list order, so a repeated uid keeps its
      last position. */
  function ChildIndexMap(uids: seq<nat>): (m: map<nat, int>)
    ensures forall u :: u in m <==> u in uids
    ensures forall u :: u in m ==> 0 <= m[u] < |uids| && uids[m[u]] == u
    ensures forall u, j :: u in m && m[u] < j < |uids| ==> uids[j] != u
  {
    if |uids| == 0 then map[]
    else
      var n := |uids| - 1;
      assert forall j :: 0 <= j < n ==> uids[..n][j] == uids[j];
      ChildIndexMap(uids[..n])[uids[n] := n]
  }

  /** A `ConcatenatedTimeline`: the holders' timelines, uids and first
      indices copied into arrays when it is built, plus the totals. */
  datatype Snapshot = Snapshot(
    windowCount: int,
    periodCount: int,
    firstPeriods: seq<int>,
    firstWindows: seq<int>,
    timelines: seq<Deferred>,
    uids: seq<nat>,
    childIndexByUid: map<nat, int>,
    shuffleLength: int,
    isAtomic: bool)
  {
    function ChildCount(): nat {
      |uids|
    }

    predicate WellFormed() {
      && |firstPeriods| == |uids| && |firstWindows| == |uids| && |timelines| == |uids|
    }
  }

  /** `s` holds the holders' first indices, position by position. */
  predicate MirrorsLayout(s: Snapshot, hs: seq<Holder>) {
    && |s.firstPeriods| == |hs| && |s.firstWindows| == |hs|
    && (forall i :: 0 <= i < |hs| ==>
          s.firstPeriods[i] == hs[i].firstPeriod && s.firstWindows[i] == hs[i].firstWindow)
  }

  /** `s` holds the holders' timelines and uids, and the uid index over
      them. */
  predicate MirrorsContents(s: Snapshot, hs: seq<Holder>) {
    && s.WellFormed() && s.ChildCount() == |hs|
    && (forall i :: 0 <= i < |hs| ==> s.timelines[i] == hs[i].timeline && s.uids[i] == hs[i].uid)
    && s.childIndexByUid == ChildIndexMap(s.uids)
  }

  /** `s` holds, position by position, what the holders held when it was
      built. */
  predicate Mirrors(s: Snapshot, hs: seq<Holder>) {
    MirrorsLayout(s, hs) && MirrorsContents(s, hs)
  }

  /** The `ConcatenatedTimeline` constructor. */
  function Snap(hs: seq<Holder>, windowCount: int, periodCount: int, shuffleLength: int, isAtomic: bool): (s: Snapshot)
    ensures Mirrors(s, hs)
    ensures s.windowCount == windowCount && s.periodCount == periodCount
  {
    var uids := seq(|hs|, i requires 0 <= i < |hs| => hs[i].uid);
    Snapshot(
      windowCount, periodCount,
      seq(|hs|, i requires 0 <= i < |hs| => hs[i].firstPeriod),
      seq(|hs|, i requires 0 <= i < |hs| => hs[i].firstWindow),
      seq(|hs|, i requires 0 <= i < |hs| => hs[i].timeline),
      uids, ChildIndexMap(uids), shuffleLength, isAtomic)
  }

  /** `getChildIndexByPeriodIndex`. */
  function ChildIndexByPeriodIndex(s: Snapshot, periodIndex: int): int {
    FloorIndex(s.firstPeriods, periodIndex + 1)
  }

  /** `getChildIndexByWindowIndex`. */
  function ChildIndexByWindowIndex(s: Snapshot, windowIndex: int): int {
    FloorIndex(s.firstWindows, windowIndex + 1)
  }

  /** `getChildIndexByChildUid`: the holder's position, or `INDEX_UNSET`
      for a uid the snapshot does not know. */
  function ChildIndexByChildUid(s: Snapshot, uid: nat): (r: int)
    requires s.WellFormed() && s.childIndexByUid == ChildIndexMap(s.uids)
    ensures r == INDEX_UNSET <==> uid !in s.uids
    ensures r != INDEX_UNSET ==> 0 <= r < s.ChildCount() && s.uids[r] == uid
  {
    if uid in s.childIndexByUid then s.childIndexByUid[uid] else INDEX_UNSET
  }

  /** With distinct holder uids, looking up the uid of child `i` gives
      back `i`. */
  lemma ChildUidRoundTrip(s: Snapshot, i: nat)
    requires s.WellFormed() && s.childIndexByUid == ChildIndexMap(s.uids)
    requires Distinct(s.uids) && i < s.ChildCount()
    ensures ChildIndexByChildUid(s, s.uids[i]) == i
  {
  }

  /** A snapshot of a laid-out list has non-decreasing first indices, the
      precondition of the floor search. */
  lemma SnapshotIsSorted(hs: seq<Holder>, s: Snapshot)
    requires Laid(hs) && MirrorsLayout(s, hs)
    ensures Sorted(s.firstPeriods) && Sorted(s.firstWindows)
  {
    forall i, j, a | 0 <= i <= j < |hs|
      ensures SpanSum(hs[..i], a) <= SpanSum(hs[..j], a)
    {
      SpanSumSplit(hs, i, j, a);
    }
    forall i | 0 <= i < |hs|
      ensures s.firstPeriods[i] == SpanSum(hs[..i], Periods)
      ensures s.firstWindows[i] == SpanSum(hs[..i], Windows)
    {
      assert LaidAt(hs, i);
    }
  }

  /** In a laid-out list, each global index in range resolves to the one
      holder whose span covers it. */
  lemma FloorFindsCoveringHolder(hs: seq<Holder>, firsts: seq<int>, x: int, a: Axis)
    requires Laid(hs) && |firsts| == |hs|
    requires forall i :: 0 <= i < |hs| ==> firsts[i] == First(hs[i], a)
    requires 0 <= x < SpanSum(hs, a)
    ensures 0 <= FloorIndex(firsts, x + 1) < |hs|
    ensures First(hs[FloorIndex(firsts, x + 1)], a) <= x
    ensures x < First(hs[FloorIndex(firsts, x + 1)], a) + Span(hs[FloorIndex(firsts, x + 1)], a)
  {
    var c := FloorIndex(firsts, x + 1);
    assert |hs| > 0;
    assert First(hs[0], a) == 0 by { assert LaidAt(hs, 0); }
    assert c >= 0;
    LaidIffContiguous(hs);
    if c + 1 < |hs| {
      assert firsts[c + 1] >= x + 1;
      assert StepAt(hs, c + 1);
    } else {
      LaidEnd(hs, a);
    }
  }

  /** `getChildIndexByPeriodIndex` finds the child that holds the period. */
  lemma PeriodResolvesToItsChild(hs: seq<Holder>, s: Snapshot, p: int)
    requires Laid(hs) && MirrorsLayout(s, hs) && 0 <= p < SpanSum(hs, Periods)
    ensures 0 <= ChildIndexByPeriodIndex(s, p) < |hs|
    ensures hs[ChildIndexByPeriodIndex(s, p)].firstPeriod <= p
    ensures p < hs[ChildIndexByPeriodIndex(s, p)].firstPeriod
              + hs[ChildIndexByPeriodIndex(s, p)].timeline.PeriodCount()
  {
    assert forall i :: 0 <= i < |hs| ==> s.firstPeriods[i] == First(hs[i], Periods);
    FloorFindsCoveringHolder(hs, s.firstPeriods, p, Periods);
  }

  /** `getChildIndexByWindowIndex` finds the child that holds the window. */
  lemma WindowResolvesToItsChild(hs: seq<Holder>, s: Snapshot, w: int)
    requires Laid(hs) && MirrorsLayout(s, hs) && 0 <= w < SpanSum(hs, Windows)
    ensures 0 <= ChildIndexByWindowIndex(s, w) < |hs|
    ensures hs[ChildIndexByWindowIndex(s, w)].firstWindow <= w
    ensures w < hs[ChildIndexByWindowIndex(s, w)].firstWindow
              + hs[ChildIndexByWindowIndex(s, w)].timeline.WindowCount()
  {
    assert forall i :: 0 <= i < |hs| ==> s.firstWindows[i] == First(hs[i], Windows);
    FloorFindsCoveringHolder(hs, s.firstWindows, w, Windows);
  }

  /** In a laid-out list, the floor search for any index inside holder
      `c`'s span finds `c`. */
  lemma FloorFindsOwner(hs: seq<Holder>, firsts: seq<int>, c: nat, x: int, a: Axis)
    requires Laid(hs) && |firsts| == |hs| && c < |hs|
    requires forall i :: 0 <= i < |hs| ==> firsts[i] == First(hs[i], a)
    requires First(hs[c], a) <= x < First(hs[c], a) + Span(hs[c], a)
    ensures FloorIndex(firsts, x + 1) == c
  {
    forall j | c < j < |hs|
      ensures firsts[j] >= x + 1
    {
      LaidPrefixSum(hs, c, a);
      SpanSumSplit(hs, c + 1, j, a);
      assert LaidAt(hs, j);
    }
    FloorIndexUnique(firsts, x + 1, c);
  }

  /** Every period of child `c` resolves back to child `c`. */
  lemma ChildPeriodsResolveToChild(hs: seq<Holder>, s: Snapshot, c: nat, q: nat)
    requires Laid(hs) && MirrorsLayout(s, hs) && c < |hs| && q < hs[c].timeline.PeriodCount()
    ensures ChildIndexByPeriodIndex(s, hs[c].firstPeriod + q) == c
  {
    FloorFindsOwner(hs, s.firstPeriods, c, hs[c].firstPeriod + q, Periods);
  }

  /** Every window of child `c`, moved into the concatenation, resolves
      back to child `c`. */
  lemma ChildWindowsResolveToChild(hs: seq<Holder>, s: Snapshot, c: nat, w: nat)
    requires Laid(hs) && MirrorsLayout(s, hs) && c < |hs| && w < hs[c].timeline.WindowCount()
    ensures ChildIndexByWindowIndex(s, WindowIndexForChild(hs[c], w)) == c
  {
    FloorFindsOwner(hs, s.firstWindows, c, hs[c].firstWindow + w, Windows);
  }

  // ------------------------------------------------- uids across the boundary

  /** `getMediaSourceHolderUid`: the holder part of a concatenated uid. */
  function HolderUidOf(periodUid: ConcatUid): nat {
    periodUid.holder
  }

  /** `getChildPeriodUid`: the child's own uid for a concatenated period
      uid; the placeholder stands for the holder's `replacedId`. */
  function ChildPeriodUid(h: Holder, periodUid: ConcatUid): (u: Uid)
    ensures periodUid.child != DummyId ==> u == periodUid.child
    ensures periodUid.child == DummyId ==> u == h.timeline.replacedId
  {
    if periodUid.child == DummyId then h.timeline.replacedId else periodUid.child
  }

  /** `getPeriodUid`: the concatenated uid for a child period uid; the
      holder's `replacedId` is shown as the placeholder. */
  function PeriodUid(h: Holder, childUid: Uid): (p: ConcatUid)
    ensures p.holder == h.uid
    ensures p.child == DummyId || p.child != h.timeline.replacedId
  {
    ConcatUid(h.uid, if h.timeline.replacedId == childUid then DummyId else childUid)
  }

  /** A child uid that goes out into the concatenation comes back as
      itself. */
  lemma ChildUidSurvivesConcatenation(h: Holder, childUid: Uid)
    requires childUid != DummyId
    ensures ChildPeriodUid(h, PeriodUid(h, childUid)) == childUid
  {
  }

  /** A concatenated uid of this holder that the concatenation can show
      (never the bare `replacedId`) comes back as itself. */
  lemma ConcatUidSurvivesChild(h: Holder, periodUid: ConcatUid)
    requires periodUid.holder == h.uid
    requires periodUid.child == DummyId || periodUid.child != h.timeline.replacedId
    ensures PeriodUid(h, ChildPeriodUid(h, periodUid)) == periodUid
  {
  }

  /** A `MediaPeriodId` as a child reports it. */
  datatype ChildPeriodId = ChildPeriodId(uid: Uid, windowSequence: int)

  /** `getMediaPeriodIdForChildMediaPeriodId`: a child's period id is
      translated only when one of the holder's active periods has the same
      window sequence number; otherwise it does not belong here. */
  function MediaPeriodIdForChild(h: Holder, id: ChildPeriodId): (r: Option<(ConcatUid, int)>)
    ensures r.Some? <==> exists i :: 0 <= i < |h.activePeriods| && h.activePeriods[i].windowSequence == id.windowSequence
    ensures r.Some? ==> r.value == (PeriodUid(h, id.uid), id.windowSequence)
  {
    if exists i :: 0 <= i < |h.activePeriods| && h.activePeriods[i].windowSequence == id.windowSequence
    then Some((PeriodUid(h, id.uid), id.windowSequence))
    else None
  }

  /** `getWindowIndexForChildWindowIndex`: in any laid-out list that holds
      `h` at position `c`, the concatenated index of one of `h`'s windows
      resolves back to `c`. */
  function WindowIndexForChild(h: Holder, windowIndex: int): (r: int)
    ensures r - h.firstWindow == windowIndex
    ensures forall hs: seq<Holder>, s: Snapshot, c: nat
      | Laid(hs) && MirrorsLayout(s, hs) && c < |hs| && hs[c] == h
        && 0 <= windowIndex < h.timeline.WindowCount()
      :: ChildIndexByWindowIndex(s, r) == c
  {
    HolderWindowsResolve(h, windowIndex);
    windowIndex + h.firstWindow
  }

  lemma HolderWindowsResolve(h: Holder, w: int)
    ensures forall hs: seq<Holder>, s: Snapshot, c: nat
      | Laid(hs) && MirrorsLayout(s, hs) && c < |hs| && hs[c] == h && 0 <= w < h.timeline.WindowCount()
      :: ChildIndexByWindowIndex(s, h.firstWindow + w) == c
  {
    forall hs: seq<Holder>, s: Snapshot, c: nat
      | Laid(hs) && MirrorsLayout(s, hs) && c < |hs| && hs[c] == h && 0 <= w < h.timeline.WindowCount()
      ensures ChildIndexByWindowIndex(s, h.firstWindow + w) == c
    {
      FloorFindsOwner(hs, s.firstWindows, c, h.firstWindow + w, Windows);
    }
  }
}
