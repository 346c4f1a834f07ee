/** The timelines a playlist item can expose: the `DummyTimeline` an item
    shows before its source is prepared, the timelines its child source
    reports, and the `DeferredTimeline` wrapper that keeps the placeholder
    period uid stable across the switch from one to the other. */
module Timelines {

  /** `C.INDEX_UNSET`. */
  const INDEX_UNSET: int := -1

  /** A period uid: the private placeholder `DUMMY_ID`, or a uid handed out
      by a child timeline. Child timelines never hand out `DUMMY_ID`. */
  datatype Uid = DummyId | ChildUid(id: nat)

  predicate Distinct<T(==)>(s: seq<T>) {
    forall i, j :: 0 <= i < j < |s| ==> s[i] != s[j]
  }

  /** Position of `x` in `s`, or `INDEX_UNSET`. */
  function IndexOf<T(==)>(s: seq<T>, x: T): (r: int)
    ensures -1 <= r < |s|
    ensures r >= 0 ==> s[r] == x
    ensures r == -1 <==> x !in s
    ensures r >= 0 ==> forall j :: 0 <= j < r ==> s[j] != x
  {
    if |s| == 0 then -1
    else if s[0] == x then 0
    else
      var k := IndexOf(s[1..], x);
      if k < 0 then -1 else k + 1
  }

  /** `DummyTimeline`, or a timeline a child source reported. `ref` is the
      identity of the Java object: two reports with equal contents are still
      two timelines. */
  datatype Timeline =
    | DummyTimeline
    | ChildTimeline(ref: nat, windows: nat, periodUids: seq<Uid>)
  {
    /** A child timeline's period uids are distinct and never `DUMMY_ID`. */
    predicate Valid() {
      ChildTimeline? ==> Distinct(periodUids) && DummyId !in periodUids
    }

    /** `DummyTimeline` has one window and one period. */
    function WindowCount(): nat {
      if DummyTimeline? then 1 else windows
    }

    function PeriodCount(): nat {
      if DummyTimeline? then 1 else |periodUids|
    }

    /** `Timeline.isEmpty`: no windows. */
    predicate IsEmpty() {
      WindowCount() == 0
    }

    /** `getUidOfPeriod`: the dummy timeline's only period is `DUMMY_ID`. */
    function UidOfPeriod(i: nat): Uid
      requires i < PeriodCount()
    {
      if DummyTimeline? then DummyId else periodUids[i]
    }

    /** `getIndexOfPeriod`: the position of a uid, or `INDEX_UNSET`. */
    function IndexOfPeriod(uid: Uid): (r: int)
      ensures -1 <= r < PeriodCount()
      ensures r >= 0 ==> UidOfPeriod(r) == uid
      ensures r == -1 ==> forall i :: 0 <= i < PeriodCount() ==> UidOfPeriod(i) != uid
    {
      if DummyTimeline? then (if uid == DummyId then 0 else INDEX_UNSET)
      else IndexOf(periodUids, uid)
    }
  }

  /** `DeferredTimeline`: a timeline plus the uid (`replacedId`) that stands
      behind `DUMMY_ID`. A fresh one wraps `DummyTimeline` with
      `replacedId = DUMMY_ID`. */
  datatype Deferred = Deferred(timeline: Timeline, replacedId: Uid)
  {
    predicate Valid() {
      timeline.Valid() && (timeline.DummyTimeline? ==> replacedId == DummyId)
    }

    function WindowCount(): nat {
      timeline.WindowCount()
    }

    function PeriodCount(): nat {
      timeline.PeriodCount()
    }

    /** `getUidOfPeriod` (and the uid `getPeriod` reports): `replacedId` is
        shown as `DUMMY_ID`. */
    function UidOfPeriod(i: nat): (u: Uid)
      requires i < PeriodCount()
      ensures u != replacedId || u == DummyId
    {
      var uid := timeline.UidOfPeriod(i);
      if uid == replacedId then DummyId else uid
    }

    /** `getIndexOfPeriod`: `DUMMY_ID` is looked up as `replacedId`. */
    function IndexOfPeriod(uid: Uid): (r: int)
      ensures -1 <= r < PeriodCount()
    {
      timeline.IndexOfPeriod(if uid == DummyId then replacedId else uid)
    }
  }

  /** `new DeferredTimeline()`. */
  const PLACEHOLDER: Deferred := Deferred(DummyTimeline, DummyId)

  /** `cloneWithNewTimeline`: the first period uid of the first real
      timeline with periods becomes `replacedId`; once set, it never
      changes. */
  function CloneWithNewTimeline(d: Deferred, t: Timeline): (r: Deferred)
    requires t.ChildTimeline?
    ensures r.timeline == t
    ensures d.replacedId != DummyId ==> r.replacedId == d.replacedId
    ensures d.replacedId == DummyId ==>
      r.replacedId == (if t.PeriodCount() > 0 then t.UidOfPeriod(0) else DummyId)
    ensures d.Valid() && t.Valid() ==> r.Valid()
  {
    Deferred(t, if d.replacedId == DummyId && t.PeriodCount() > 0 then t.UidOfPeriod(0) else d.replacedId)
  }

  /** Every period's reported uid leads back to that period. */
  lemma UidOfPeriodRoundTrip(d: Deferred, i: nat)
    requires d.Valid() && i < d.PeriodCount()
    ensures d.IndexOfPeriod(d.UidOfPeriod(i)) == i
  {
    var t := d.timeline;
    if t.ChildTimeline? {
      var u := t.periodUids[i];
      assert u != DummyId by { assert t.periodUids[i] in t.periodUids; }
      var k := IndexOf(t.periodUids, u);
      assert k == i;
    }
  }

  /** A uid that finds a period is that period's reported uid, except that
      `replacedId` itself is reported as `DUMMY_ID`. */
  lemma IndexOfPeriodRoundTrip(d: Deferred, uid: Uid)
    requires d.Valid() && d.IndexOfPeriod(uid) >= 0
    ensures d.UidOfPeriod(d.IndexOfPeriod(uid)) == (if uid == d.replacedId then DummyId else uid)
  {
  }

  /** The placeholder keeps naming the first period across preparation: a
      fresh wrapper finds `DUMMY_ID` at period 0, and so does its clone
      around the first reported timeline that has periods, where period 0
      is still reported as `DUMMY_ID`. */
  lemma PlaceholderSurvivesPreparation(t: Timeline)
    requires t.ChildTimeline? && t.Valid() && t.PeriodCount() > 0
    ensures PLACEHOLDER.IndexOfPeriod(DummyId) == 0
    ensures CloneWithNewTimeline(PLACEHOLDER, t).IndexOfPeriod(DummyId) == 0
    ensures CloneWithNewTimeline(PLACEHOLDER, t).UidOfPeriod(0) == DummyId
  {
    var d := CloneWithNewTimeline(PLACEHOLDER, t);
    UidOfPeriodRoundTrip(d, 0);
  }

  /** Later timelines keep the first `replacedId`: whatever a child reports
      next, `DUMMY_ID` still stands for the period first seen at index 0. */
  lemma ReplacedIdIsSticky(d: Deferred, t1: Timeline, t2: Timeline)
    requires t1.ChildTimeline? && t1.Valid() && t1.PeriodCount() > 0 && t2.ChildTimeline?
    ensures var d1 := CloneWithNewTimeline(d, t1);
      && d1.replacedId != DummyId
      && CloneWithNewTimeline(d1, t2).replacedId == d1.replacedId
  {
    assert t1.periodUids[0] in t1.periodUids;
  }
}
