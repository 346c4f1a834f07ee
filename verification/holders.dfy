/** `MediaSourceHolder` and the list of holders a concatenating source
    keeps on its playback thread. Each holder records where its child's
    windows and periods start in the concatenation (`firstWindowIndexInChild`,
    `firstPeriodIndexInChild`) and its own position (`childIndex`). The list
    operations here are the list-level effect of `addMediaSourceInternal`,
    `removeMediaSourceInternal`, `moveMediaSourceInternal` and the offset
    part of `updateMediaSourceInternal`, each built on `correctOffsets`. */
module Holders {
  import opened Timelines

  /** The uid a concatenated timeline gives a period: the holder's uid
      paired with the period's uid inside the holder's deferred timeline. */
  datatype ConcatUid = ConcatUid(holder: nat, child: Uid)

  /** A `DeferredMediaPeriod`: its identity and the `MediaPeriodId` it was
      created for (period uid and window sequence number). */
  datatype Period = Period(handle: nat, uid: ConcatUid, windowSequence: int)

  /** What the application side knows of a holder: its child source and
      its uid (`new Object()` at construction). */
  datatype Item = Item(source: nat, uid: nat)

  datatype Holder = Holder(
    source: nat,
    uid: nat,
    timeline: Deferred,
    childIndex: int,
    firstWindow: int,
    firstPeriod: int,
    hasStartedPreparing: bool,
    isPrepared: bool,
    isRemoved: bool,
    activePeriods: seq<Period>)

  function ItemOf(h: Holder): Item {
    Item(h.source, h.uid)
  }

  function Items(hs: seq<Holder>): seq<Item> {
    seq(|hs|, i requires 0 <= i < |hs| => ItemOf(hs[i]))
  }

  function Uids(s: seq<Item>): (r: seq<nat>)
    ensures |r| == |s| && forall i :: 0 <= i < |s| ==> r[i] == s[i].uid
  {
    seq(|s|, i requires 0 <= i < |s| => s[i].uid)
  }

  /** Replacing a holder by one for the same item keeps the items. */
  lemma ItemsOfReplace(hs: seq<Holder>, k: nat, h: Holder)
    requires k < |hs| && ItemOf(h) == ItemOf(hs[k])
    ensures Items(hs[k := h]) == Items(hs)
  {
  }

  /** `new MediaSourceHolder(mediaSource)`: a placeholder timeline and no
      periods. */
  function NewHolder(item: Item): (h: Holder)
    ensures ItemOf(h) == item && h.timeline == PLACEHOLDER && h.activePeriods == []
    ensures !h.hasStartedPreparing && !h.isPrepared && !h.isRemoved
  {
    Holder(item.source, item.uid, PLACEHOLDER, 0, 0, 0, false, false, false, [])
  }

  /** `MediaSourceHolder.reset`: new position, flags cleared, no periods;
      the timeline is kept. */
  function Reset(h: Holder, childIndex: int, firstWindow: int, firstPeriod: int): Holder {
    h.(childIndex := childIndex, firstWindow := firstWindow, firstPeriod := firstPeriod,
       hasStartedPreparing := false, isPrepared := false, isRemoved := false,
       activePeriods := [])
  }

  /** The two index spaces a concatenation lays out. */
  datatype Axis = Windows | Periods

  /** How many windows or periods a holder contributes. */
  function Span(h: Holder, a: Axis): nat {
    if a == Windows then h.timeline.WindowCount() else h.timeline.PeriodCount()
  }

  /** Where a holder's windows or periods start. */
  function First(h: Holder, a: Axis): int {
    if a == Windows then h.firstWindow else h.firstPeriod
  }

  /** Total windows or periods of a list of holders. */
  function SpanSum(hs: seq<Holder>, a: Axis): nat {
    if |hs| == 0 then 0 else SpanSum(hs[..|hs| - 1], a) + Span(hs[|hs| - 1], a)
  }

  lemma {:induction false} SpanSumAppend(xs: seq<Holder>, ys: seq<Holder>, a: Axis)
    ensures SpanSum(xs + ys, a) == SpanSum(xs, a) + SpanSum(ys, a)
    decreases |ys|
  {
    if |ys| == 0 {
      assert xs + ys == xs;
    } else {
      var zs := xs + ys;
      assert zs[..|zs| - 1] == xs + ys[..|ys| - 1];
      SpanSumAppend(xs, ys[..|ys| - 1], a);
    }
  }

  /** Holders with the same timelines, in the same order, have the same
      total. */
  lemma {:induction false} SpanSumOfSameTimelines(xs: seq<Holder>, ys: seq<Holder>, a: Axis)
    requires |xs| == |ys|
    requires forall i :: 0 <= i < |xs| ==> xs[i].timeline == ys[i].timeline
    ensures SpanSum(xs, a) == SpanSum(ys, a)
    decreases |xs|
  {
    if |xs| > 0 {
      SpanSumOfSameTimelines(xs[..|xs| - 1], ys[..|ys| - 1], a);
    }
  }

  lemma SamePrefixSums(xs: seq<Holder>, ys: seq<Holder>, n: nat, a: Axis)
    requires |xs| == |ys| && n <= |xs|
    requires forall j :: 0 <= j < |xs| ==> xs[j].timeline == ys[j].timeline
    ensures SpanSum(xs[..n], a) == SpanSum(ys[..n], a)
  {
    SpanSumOfSameTimelines(xs[..n], ys[..n], a);
  }

  /** The layout the offsets encode: every holder knows its own position,
      and its first window and first period are the totals of the holders
      before it. */
  predicate Laid(hs: seq<Holder>) {
    forall i :: 0 <= i < |hs| ==> LaidAt(hs, i)
  }

  /** Holder `i` knows its position and starts after the ones before it. */
  predicate LaidAt(hs: seq<Holder>, i: int)
    requires 0 <= i < |hs|
  {
    && hs[i].childIndex == i
    && hs[i].firstWindow == SpanSum(hs[..i], Windows)
    && hs[i].firstPeriod == SpanSum(hs[..i], Periods)
  }

  /** The same layout stated locally: the first holder starts at zero and
      each next one starts where its predecessor ends. */
  predicate Contiguous(hs: seq<Holder>) {
    && (forall i :: 0 <= i < |hs| ==> hs[i].childIndex == i)
    && (|hs| > 0 ==> hs[0].firstWindow == 0 && hs[0].firstPeriod == 0)
    && (forall i :: 0 < i < |hs| ==> StepAt(hs, i))
  }

  /** Holder `i` starts where holder `i - 1` ends. */
  predicate StepAt(hs: seq<Holder>, i: int)
    requires 0 < i < |hs|
  {
    && hs[i].firstWindow == hs[i - 1].firstWindow + Span(hs[i - 1], Windows)
    && hs[i].firstPeriod == hs[i - 1].firstPeriod + Span(hs[i - 1], Periods)
  }

  lemma {:induction false} ContiguousPrefix(hs: seq<Holder>, i: nat)
    requires Contiguous(hs) && i < |hs|
    ensures hs[i].firstWindow == SpanSum(hs[..i], Windows)
    ensures hs[i].firstPeriod == SpanSum(hs[..i], Periods)
  {
    if i > 0 {
      ContiguousPrefix(hs, i - 1);
      assert StepAt(hs, i);
      assert hs[..i][..i - 1] == hs[..i - 1];
    }
  }

  lemma LaidIsContiguous(hs: seq<Holder>)
    requires Laid(hs)
    ensures Contiguous(hs)
  {
    forall i | 0 <= i < |hs| ensures hs[i].childIndex == i {
      assert LaidAt(hs, i);
    }
    if |hs| > 0 {
      assert LaidAt(hs, 0);
    }
    forall i | 0 < i < |hs| ensures StepAt(hs, i) {
      assert LaidAt(hs, i) && LaidAt(hs, i - 1);
      assert hs[..i][..i - 1] == hs[..i - 1];
    }
  }

  lemma ContiguousIsLaid(hs: seq<Holder>)
    requires Contiguous(hs)
    ensures Laid(hs)
  {
    forall i | 0 <= i < |hs| ensures LaidAt(hs, i) {
      ContiguousPrefix(hs, i);
    }
  }

  /** The prefix-sum layout and the local one are the same thing. */
  lemma LaidIffContiguous(hs: seq<Holder>)
    ensures Laid(hs) <==> Contiguous(hs)
  {
    if Laid(hs) {
      LaidIsContiguous(hs);
    }
    if Contiguous(hs) {
      ContiguousIsLaid(hs);
    }
  }

  /** In a laid-out list, the total of the first `i` holders is where
      holder `i` starts, or the grand total at the end. */
  lemma LaidPrefixSum(hs: seq<Holder>, i: nat, a: Axis)
    requires Laid(hs) && i < |hs|
    ensures SpanSum(hs[..i + 1], a) == First(hs[i], a) + Span(hs[i], a)
  {
    assert LaidAt(hs, i);
    assert hs[..i + 1][..i] == hs[..i];
  }

  /** Where the last holder ends: zero for an empty list. */
  function End(hs: seq<Holder>, a: Axis): int {
    if |hs| == 0 then 0 else First(hs[|hs| - 1], a) + Span(hs[|hs| - 1], a)
  }

  /** In a laid-out list the end is the total. */
  lemma LaidEnd(hs: seq<Holder>, a: Axis)
    requires Laid(hs)
    ensures End(hs, a) == SpanSum(hs, a)
  {
    if |hs| > 0 {
      assert LaidAt(hs, |hs| - 1);
    }
  }

  function Shift(h: Holder, dc: int, dw: int, dp: int): Holder {
    h.(childIndex := h.childIndex + dc, firstWindow := h.firstWindow + dw,
       firstPeriod := h.firstPeriod + dp)
  }

  /** The list part of `correctOffsets`: every holder from `start` on moves
      its child index by `dc`, its first window by `dw` and its first period
      by `dp`; holders before `start` are untouched. */
  function CorrectOffsets(hs: seq<Holder>, start: nat, dc: int, dw: int, dp: int): (r: seq<Holder>)
    ensures |r| == |hs|
    ensures forall i :: 0 <= i < |hs| ==>
      r[i] == (if i < start then hs[i] else Shift(hs[i], dc, dw, dp))
    decreases |hs|
  {
    if |hs| <= start then hs
    else CorrectOffsets(hs[..|hs| - 1], start, dc, dw, dp) + [Shift(hs[|hs| - 1], dc, dw, dp)]
  }

  lemma ItemsOfCorrectOffsets(hs: seq<Holder>, start: nat, dc: int, dw: int, dp: int)
    ensures Items(CorrectOffsets(hs, start, dc, dw, dp)) == Items(hs)
  {
  }

  // ---------------------------------------------------------------- add

  /** The list effect of `addMediaSourceInternal(k, h)`: `h` is reset to
      start where holder `k - 1` ends (or at zero), everything from `k` on
      is shifted past it, and it is inserted at `k`. `eager` is the
      `!useLazyPreparation` branch that starts preparing it at once. */
  function AddHolder(hs: seq<Holder>, k: nat, h: Holder, eager: bool): (r: seq<Holder>)
    requires k <= |hs|
    ensures |r| == |hs| + 1 && ItemOf(r[k]) == ItemOf(h)
    ensures r[k].timeline == h.timeline && r[k].activePeriods == []
    ensures r[k].hasStartedPreparing == eager && !r[k].isPrepared && !r[k].isRemoved
    ensures forall i :: 0 <= i < k ==> r[i] == hs[i]
    ensures forall i :: k < i < |r| ==>
      r[i] == Shift(hs[i - 1], 1, Span(h, Windows), Span(h, Periods))
  {
    var placed :=
      if k > 0 then
        Reset(h, k, hs[k - 1].firstWindow + Span(hs[k - 1], Windows),
                    hs[k - 1].firstPeriod + Span(hs[k - 1], Periods))
      else Reset(h, k, 0, 0);
    var shifted := CorrectOffsets(hs, k, 1, Span(h, Windows), Span(h, Periods));
    var inserted := placed.(hasStartedPreparing := eager);
    shifted[..k] + [inserted] + shifted[k..]
  }

  /** Adding puts the new item at `k` and keeps the others in order. */
  lemma ItemsOfAdd(hs: seq<Holder>, k: nat, h: Holder, eager: bool)
    requires k <= |hs|
    ensures Items(AddHolder(hs, k, h, eager)) == Items(hs)[..k] + [ItemOf(h)] + Items(hs)[k..]
  {
  }

  lemma AddContiguousAt(hs: seq<Holder>, k: nat, h: Holder, eager: bool, i: nat, a: Axis)
    requires Contiguous(hs) && k <= |hs| && 0 < i <= |hs|
    ensures var r := AddHolder(hs, k, h, eager);
      First(r[i], a) == First(r[i - 1], a) + Span(r[i - 1], a)
  {
    var r := AddHolder(hs, k, h, eager);
    if i < k {
      assert StepAt(hs, i);
    } else if i == k + 1 && k > 0 {
      assert StepAt(hs, k);
      assert First(r[k], a) == First(hs[k], a);
    } else if i > k + 1 {
      assert StepAt(hs, i - 1);
    }
  }

  lemma AddMovesEnd(hs: seq<Holder>, k: nat, h: Holder, eager: bool, a: Axis)
    requires Contiguous(hs) && k <= |hs|
    ensures End(AddHolder(hs, k, h, eager), a) == End(hs, a) + Span(h, a)
  {
  }

  lemma AddKeepsContiguous(hs: seq<Holder>, k: nat, h: Holder, eager: bool)
    requires Contiguous(hs) && k <= |hs|
    ensures Contiguous(AddHolder(hs, k, h, eager))
    ensures forall a :: End(AddHolder(hs, k, h, eager), a) == End(hs, a) + Span(h, a)
  {
    var r := AddHolder(hs, k, h, eager);
    forall i | 0 < i < |r| ensures StepAt(r, i) {
      AddContiguousAt(hs, k, h, eager, i, Windows);
      AddContiguousAt(hs, k, h, eager, i, Periods);
    }
    forall a: Axis ensures End(r, a) == End(hs, a) + Span(h, a) {
      AddMovesEnd(hs, k, h, eager, a);
    }
  }

  /** Adding a holder keeps the layout, and the totals grow by its span. */
  lemma AddKeepsLayout(hs: seq<Holder>, k: nat, h: Holder, eager: bool)
    requires Laid(hs) && k <= |hs|
    ensures Laid(AddHolder(hs, k, h, eager))
    ensures forall a :: SpanSum(AddHolder(hs, k, h, eager), a) == SpanSum(hs, a) + Span(h, a)
  {
    var r := AddHolder(hs, k, h, eager);
    LaidIsContiguous(hs);
    AddKeepsContiguous(hs, k, h, eager);
    ContiguousIsLaid(r);
    forall a: Axis ensures SpanSum(r, a) == SpanSum(hs, a) + Span(h, a) {
      LaidEnd(hs, a);
      LaidEnd(r, a);
    }
  }

  // ---------------------------------------------------------------- remove

  /** The list effect of `removeMediaSourceInternal(k)`: the holder leaves
      the list and everything after it moves back by its span. */
  function RemoveHolder(hs: seq<Holder>, k: nat): (r: seq<Holder>)
    requires k < |hs|
    ensures |r| == |hs| - 1
    ensures forall i :: 0 <= i < k ==> r[i] == hs[i]
    ensures forall i :: k <= i < |r| ==>
      r[i] == Shift(hs[i + 1], -1, -(Span(hs[k], Windows) as int), -(Span(hs[k], Periods) as int))
  {
    var h := hs[k];
    var rest := hs[..k] + hs[k + 1..];
    CorrectOffsets(rest, k, -1, -(Span(h, Windows) as int), -(Span(h, Periods) as int))
  }

  /** Removing drops the item at `k` and keeps the others in order. */
  lemma ItemsOfRemove(hs: seq<Holder>, k: nat)
    requires k < |hs|
    ensures Items(RemoveHolder(hs, k)) == Items(hs)[..k] + Items(hs)[k + 1..]
  {
  }

  lemma RemoveContiguousAt(hs: seq<Holder>, k: nat, i: nat, a: Axis)
    requires Contiguous(hs) && k < |hs| && 0 < i < |hs| - 1
    ensures var r := RemoveHolder(hs, k);
      First(r[i], a) == First(r[i - 1], a) + Span(r[i - 1], a)
  {
    if i < k {
      assert StepAt(hs, i);
    } else if i == k {
      assert StepAt(hs, k) && StepAt(hs, k + 1);
    } else {
      assert StepAt(hs, i + 1);
    }
  }

  lemma RemoveKeepsStart(hs: seq<Holder>, k: nat, a: Axis)
    requires Contiguous(hs) && k < |hs| && 1 < |hs|
    ensures First(RemoveHolder(hs, k)[0], a) == 0
  {
    if k == 0 {
      assert StepAt(hs, 1);
    }
  }

  lemma RemoveMovesEnd(hs: seq<Holder>, k: nat, a: Axis)
    requires Contiguous(hs) && k < |hs|
    ensures End(RemoveHolder(hs, k), a) + Span(hs[k], a) == End(hs, a)
  {
    if k > 0 && k == |hs| - 1 {
      assert StepAt(hs, k);
    }
  }

  lemma RemoveKeepsContiguous(hs: seq<Holder>, k: nat)
    requires Contiguous(hs) && k < |hs|
    ensures Contiguous(RemoveHolder(hs, k))
    ensures forall a :: End(RemoveHolder(hs, k), a) + Span(hs[k], a) == End(hs, a)
  {
    var r := RemoveHolder(hs, k);
    if 1 < |hs| {
      RemoveKeepsStart(hs, k, Windows);
      RemoveKeepsStart(hs, k, Periods);
    }
    forall i | 0 < i < |r| ensures StepAt(r, i) {
      RemoveContiguousAt(hs, k, i, Windows);
      RemoveContiguousAt(hs, k, i, Periods);
    }
    forall a: Axis ensures End(r, a) + Span(hs[k], a) == End(hs, a) {
      RemoveMovesEnd(hs, k, a);
    }
  }

  /** Removing a holder keeps the layout, and the totals shrink by its
      span. */
  lemma RemoveKeepsLayout(hs: seq<Holder>, k: nat)
    requires Laid(hs) && k < |hs|
    ensures Laid(RemoveHolder(hs, k))
    ensures forall a :: SpanSum(RemoveHolder(hs, k), a) + Span(hs[k], a) == SpanSum(hs, a)
  {
    var r := RemoveHolder(hs, k);
    LaidIsContiguous(hs);
    RemoveKeepsContiguous(hs, k);
    ContiguousIsLaid(r);
    forall a: Axis ensures SpanSum(r, a) + Span(hs[k], a) == SpanSum(hs, a) {
      LaidEnd(hs, a);
      LaidEnd(r, a);
    }
  }

  /** Removing what was just added gives back the original list, offsets
      included. */
  lemma RemoveUndoesAdd(hs: seq<Holder>, k: nat, h: Holder, eager: bool)
    requires k <= |hs|
    ensures RemoveHolder(AddHolder(hs, k, h, eager), k) == hs
  {
    var r := RemoveHolder(AddHolder(hs, k, h, eager), k);
    assert |r| == |hs|;
    forall i | 0 <= i < |hs| ensures r[i] == hs[i] {}
  }

  // ---------------------------------------------------------------- move

  /** `list.add(to, list.remove(from))`: the element at `from` lands at
      `to`, the ones in between close up, the rest stay put. */
  /** Inserting `xs` at `k` is inserting its head at `k` and then its
      tail right after it. */
  lemma InsertStep<T>(s: seq<T>, k: nat, xs: seq<T>)
    requires k <= |s| && |xs| > 0
    ensures var t := s[..k] + [xs[0]] + s[k..];
      t[..k + 1] + xs[1..] + t[k + 1..] == s[..k] + xs + s[k..]
  {
    var t := s[..k] + [xs[0]] + s[k..];
    assert t[..k + 1] == s[..k] + [xs[0]];
    assert t[k + 1..] == s[k..];
    assert [xs[0]] + xs[1..] == xs;
  }

  /** Cutting `from .. to` is cutting position `to - 1` and then
      `from .. to - 1`. */
  lemma CutStep<T>(s: seq<T>, from: nat, to: nat)
    requires from < to <= |s|
    ensures var t := s[..to - 1] + s[to..];
      t[..from] + t[to - 1..] == s[..from] + s[to..]
  {
    var t := s[..to - 1] + s[to..];
    assert t[..from] == s[..from];
    assert t[to - 1..] == s[to..];
  }

  lemma InsertAtFront<T>(s: seq<T>, xs: seq<T>)
    ensures s[..0] + xs + s[0..] == xs + s
  {
    assert s[..0] == [] && s[0..] == s;
  }

  lemma InsertNothing<T>(s: seq<T>, k: nat, xs: seq<T>)
    requires k <= |s| && xs == []
    ensures s[..k] + xs + s[k..] == s
  {
    assert s == s[..k] + s[k..];
  }

  function MoveItem<T>(s: seq<T>, from: nat, to: nat): (r: seq<T>)
    requires from < |s| && to < |s|
    ensures |r| == |s| && r[to] == s[from]
    ensures forall j :: 0 <= j < |s| && j < from && j < to ==> r[j] == s[j]
    ensures forall j :: 0 <= j < |s| && from < j && to < j ==> r[j] == s[j]
    ensures forall j :: from <= j < to ==> r[j] == s[j + 1]
    ensures forall j :: to < j <= from ==> r[j] == s[j - 1]
  {
    var rest := s[..from] + s[from + 1..];
    rest[..to] + [s[from]] + rest[to..]
  }

  /** Moving an element back where it came from restores the list. */
  lemma MoveItemRoundTrip<T>(s: seq<T>, from: nat, to: nat)
    requires from < |s| && to < |s|
    ensures MoveItem(MoveItem(s, from, to), to, from) == s
  {
  }

  lemma ItemsOfMove(hs: seq<Holder>, from: nat, to: nat)
    requires from < |hs| && to < |hs|
    ensures Items(MoveItem(hs, from, to)) == MoveItem(Items(hs), from, to)
  {
  }

  /** The rewrite loop of `moveMediaSourceInternal` over positions `i..hi`:
      each holder starts where the previous one ends, from `(w, p)` on.
      `fix` also sets `childIndex` to the position, which the code as
      written never does. */
  function Restack(hs: seq<Holder>, i: nat, hi: int, w: int, p: int, fix: bool): (r: seq<Holder>)
    requires hi < |hs|
    ensures |r| == |hs|
    ensures forall j :: 0 <= j < |hs| ==> r[j].timeline == hs[j].timeline
    ensures forall j :: 0 <= j < |hs| && (j < i || hi < j) ==> r[j] == hs[j]
    ensures forall j :: i <= j <= hi ==>
      && r[j].childIndex == (if fix then j else hs[j].childIndex)
      && r[j].firstWindow == w + SpanSum(hs[i..j], Windows)
      && r[j].firstPeriod == p + SpanSum(hs[i..j], Periods)
      && r[j] == hs[j].(childIndex := r[j].childIndex, firstWindow := r[j].firstWindow,
                        firstPeriod := r[j].firstPeriod)
    decreases hi + 1 - i
  {
    if hi < i then hs
    else
      var h := hs[i];
      var placed := h.(childIndex := if fix then i else h.childIndex, firstWindow := w, firstPeriod := p);
      var next := hs[i := placed];
      RestackStep(hs, next, i, hi);
      Restack(next, i + 1, hi, w + Span(h, Windows), p + Span(h, Periods), fix)
  }

  lemma RestackStep(hs: seq<Holder>, next: seq<Holder>, i: nat, hi: int)
    requires i <= hi < |hs| && |next| == |hs|
    requires next[i].timeline == hs[i].timeline
    requires forall j :: 0 <= j < |hs| && j != i ==> next[j] == hs[j]
    ensures forall j, a :: i < j <= hi ==>
      SpanSum(hs[i..j], a) == Span(hs[i], a) + SpanSum(next[i + 1..j], a)
  {
    forall j, a | i < j <= hi
      ensures SpanSum(hs[i..j], a) == Span(hs[i], a) + SpanSum(next[i + 1..j], a)
    {
      assert hs[i..j] == [hs[i]] + hs[i + 1..j];
      assert next[i + 1..j] == hs[i + 1..j];
      SpanSumAppend([hs[i]], hs[i + 1..j], a);
      assert [hs[i]][..0] == [];
    }
  }

  function MoveRange(hs: seq<Holder>, from: nat, to: nat, fix: bool): (r: seq<Holder>)
    requires from < |hs| && to < |hs|
    ensures |r| == |hs| && Items(r) == MoveItem(Items(hs), from, to)
  {
    var lo := if from < to then from else to;
    var hi := if from < to then to else from;
    var m := MoveItem(hs, from, to);
    ItemsOfMove(hs, from, to);
    var r := Restack(m, lo, hi, hs[lo].firstWindow, hs[lo].firstPeriod, fix);
    assert Items(r) == Items(m);
    r
  }

  /** `moveMediaSourceInternal` as written: the holders between the two
      positions get new first indices, but their `childIndex` is left
      as it was. */
  function MoveAsWritten(hs: seq<Holder>, from: nat, to: nat): (r: seq<Holder>)
    requires from < |hs| && to < |hs|
    ensures |r| == |hs| && Items(r) == MoveItem(Items(hs), from, to)
  {
    MoveRange(hs, from, to, false)
  }

  /** `moveMediaSourceInternal` with the position of every holder it
      touches brought up to date. */
  function Move(hs: seq<Holder>, from: nat, to: nat): (r: seq<Holder>)
    requires from < |hs| && to < |hs|
    ensures |r| == |hs| && Items(r) == MoveItem(Items(hs), from, to)
  {
    MoveRange(hs, from, to, true)
  }

  /** The moved list holds the same timelines on every prefix that ends
      outside the moved range. */
  lemma MovePrefixSums(hs: seq<Holder>, from: nat, to: nat, j: nat, a: Axis)
    requires from < |hs| && to < |hs| && j <= |hs|
    requires (j <= from && j <= to) || (from < j && to < j)
    ensures SpanSum(MoveItem(hs, from, to)[..j], a) == SpanSum(hs[..j], a)
  {
    var m := MoveItem(hs, from, to);
    if j <= from && j <= to {
      assert m[..j] == hs[..j];
    } else if from <= to {
      MoveForwardPrefixSums(hs, from, to, j, a);
    } else {
      MoveBackwardPrefixSums(hs, from, to, j, a);
    }
  }

  lemma MoveForwardPrefixSums(hs: seq<Holder>, from: nat, to: nat, j: nat, a: Axis)
    requires from <= to < j <= |hs|
    ensures SpanSum(MoveItem(hs, from, to)[..j], a) == SpanSum(hs[..j], a)
  {
    var x, mid, tail := [hs[from]], hs[from + 1..to + 1], hs[to + 1..j];
    assert MoveItem(hs, from, to)[..j] == hs[..from] + mid + x + tail;
    assert hs[..j] == hs[..from] + x + mid + tail;
    RotateSum(hs[..from], x, mid, tail, a);
  }

  lemma MoveBackwardPrefixSums(hs: seq<Holder>, from: nat, to: nat, j: nat, a: Axis)
    requires to < from < j <= |hs|
    ensures SpanSum(MoveItem(hs, from, to)[..j], a) == SpanSum(hs[..j], a)
  {
    var x, mid, tail := [hs[from]], hs[to..from], hs[from + 1..j];
    assert MoveItem(hs, from, to)[..j] == hs[..to] + x + mid + tail;
    assert hs[..j] == hs[..to] + mid + x + tail;
    RotateSum(hs[..to], x, mid, tail, a);
  }

  lemma RotateSum(pre: seq<Holder>, x: seq<Holder>, mid: seq<Holder>, tail: seq<Holder>, a: Axis)
    ensures SpanSum(pre + mid + x + tail, a) == SpanSum(pre + x + mid + tail, a)
  {
    SpanSumAppend(pre + mid + x, tail, a);
    SpanSumAppend(pre + mid, x, a);
    SpanSumAppend(pre, mid, a);
    SpanSumAppend(pre + x + mid, tail, a);
    SpanSumAppend(pre + x, mid, a);
    SpanSumAppend(pre, x, a);
  }

  lemma SpanSumSplit(s: seq<Holder>, lo: nat, i: nat, a: Axis)
    requires lo <= i <= |s|
    ensures SpanSum(s[..i], a) == SpanSum(s[..lo], a) + SpanSum(s[lo..i], a)
  {
    assert s[..i] == s[..lo] + s[lo..i];
    SpanSumAppend(s[..lo], s[lo..i], a);
  }

  /** A holder the rewrite loop placed at `w` plus the spans before it in
      the range sits at the total of everything before it. */
  lemma PlacedInRange(r: seq<Holder>, m: seq<Holder>, lo: nat, i: nat, w: int, a: Axis)
    requires lo <= i < |r| == |m|
    requires forall j :: 0 <= j < |m| ==> r[j].timeline == m[j].timeline
    requires First(r[i], a) == w + SpanSum(m[lo..i], a)
    requires w == SpanSum(m[..lo], a)
    ensures First(r[i], a) == SpanSum(r[..i], a)
  {
    SpanSumSplit(m, lo, i, a);
    SpanSumOfSameTimelines(r[..i], m[..i], a);
  }

  /** Either version of the move gives the holder at position `i` the
      right first window and first period. */
  lemma MovePlacesHolder(hs: seq<Holder>, from: nat, to: nat, fix: bool, i: nat, a: Axis)
    requires Laid(hs) && from < |hs| && to < |hs| && i < |hs|
    ensures var r := MoveRange(hs, from, to, fix);
      First(r[i], a) == SpanSum(r[..i], a)
  {
    var lo := if from < to then from else to;
    var hi := if from < to then to else from;
    if i < lo || hi < i {
      assert LaidAt(hs, i);
      MovePlacesOutside(hs, from, to, fix, i, a);
    } else {
      assert LaidAt(hs, lo);
      MovePlacesInside(hs, from, to, fix, i, a);
    }
  }

  lemma MovePlacesOutside(hs: seq<Holder>, from: nat, to: nat, fix: bool, i: nat, a: Axis)
    requires from < |hs| && to < |hs| && i < |hs|
    requires (i < from && i < to) || (from < i && to < i)
    requires First(hs[i], a) == SpanSum(hs[..i], a)
    ensures var r := MoveRange(hs, from, to, fix);
      First(r[i], a) == SpanSum(r[..i], a)
  {
    var lo := if from < to then from else to;
    var hi := if from < to then to else from;
    var m := MoveItem(hs, from, to);
    var r := MoveRange(hs, from, to, fix);
    assert r == Restack(m, lo, hi, hs[lo].firstWindow, hs[lo].firstPeriod, fix);
    MovePrefixSums(hs, from, to, i, a);
    SamePrefixSums(r, m, i, a);
  }

  lemma MovePlacesInside(hs: seq<Holder>, from: nat, to: nat, fix: bool, i: nat, a: Axis)
    requires from < |hs| && to < |hs| && i < |hs|
    requires (from <= i <= to) || (to <= i <= from)
    requires var lo := if from < to then from else to;
      First(hs[lo], a) == SpanSum(hs[..lo], a)
    ensures var r := MoveRange(hs, from, to, fix);
      First(r[i], a) == SpanSum(r[..i], a)
  {
    var lo := if from < to then from else to;
    var hi := if from < to then to else from;
    var m := MoveItem(hs, from, to);
    var r := MoveRange(hs, from, to, fix);
    assert r == Restack(m, lo, hi, hs[lo].firstWindow, hs[lo].firstPeriod, fix);
    MovePrefixSums(hs, from, to, lo, a);
    PlacedInRange(r, m, lo, i, First(hs[lo], a), a);
  }

  lemma MoveKeepsTotal(hs: seq<Holder>, from: nat, to: nat, fix: bool, a: Axis)
    requires from < |hs| && to < |hs|
    ensures SpanSum(MoveRange(hs, from, to, fix), a) == SpanSum(hs, a)
  {
    var m := MoveItem(hs, from, to);
    MoveRangeTimelines(hs, from, to, fix);
    SpanSumOfSameTimelines(MoveRange(hs, from, to, fix), m, a);
    MovePrefixSums(hs, from, to, |hs|, a);
    assert m[..|hs|] == m && hs[..|hs|] == hs;
  }

  /** Either move only rewrites positions: each slot keeps the timeline the
      reordered list put there. */
  lemma MoveRangeTimelines(hs: seq<Holder>, from: nat, to: nat, fix: bool)
    requires from < |hs| && to < |hs|
    ensures var r, m := MoveRange(hs, from, to, fix), MoveItem(hs, from, to);
      forall j :: 0 <= j < |m| ==> r[j].timeline == m[j].timeline
  {
    var lo := if from < to then from else to;
    var hi := if from < to then to else from;
    var m := MoveItem(hs, from, to);
    assert MoveRange(hs, from, to, fix) == Restack(m, lo, hi, hs[lo].firstWindow, hs[lo].firstPeriod, fix);
  }

  lemma MoveFixesIndex(hs: seq<Holder>, from: nat, to: nat, i: nat)
    requires Laid(hs) && from < |hs| && to < |hs| && i < |hs|
    ensures Move(hs, from, to)[i].childIndex == i
  {
    var lo := if from < to then from else to;
    var hi := if from < to then to else from;
    var m := MoveItem(hs, from, to);
    assert Move(hs, from, to) == Restack(m, lo, hi, hs[lo].firstWindow, hs[lo].firstPeriod, true);
    if i < lo || hi < i {
      assert LaidAt(hs, i);
      assert m[i] == hs[i];
    }
  }

  /** The corrected move keeps the layout and the totals. */
  lemma MoveKeepsLayout(hs: seq<Holder>, from: nat, to: nat)
    requires Laid(hs) && from < |hs| && to < |hs|
    ensures Laid(Move(hs, from, to))
    ensures forall a :: SpanSum(Move(hs, from, to), a) == SpanSum(hs, a)
  {
    var r := Move(hs, from, to);
    forall i | 0 <= i < |r| ensures LaidAt(r, i) {
      MovePlacesHolder(hs, from, to, true, i, Windows);
      MovePlacesHolder(hs, from, to, true, i, Periods);
      MoveFixesIndex(hs, from, to, i);
    }
    forall a: Axis ensures SpanSum(r, a) == SpanSum(hs, a) {
      MoveKeepsTotal(hs, from, to, true, a);
    }
  }

  /** As written, a real move leaves the moved holder claiming its old
      position, so the list is no longer laid out. */
  lemma MoveAsWrittenKeepsStaleIndex(hs: seq<Holder>, from: nat, to: nat)
    requires Laid(hs) && from < |hs| && to < |hs| && from != to
    ensures MoveAsWritten(hs, from, to)[to].childIndex == from
    ensures !Laid(MoveAsWritten(hs, from, to))
  {
    var lo := if from < to then from else to;
    var hi := if from < to then to else from;
    var m := MoveItem(hs, from, to);
    var r := MoveAsWritten(hs, from, to);
    assert r == Restack(m, lo, hi, hs[lo].firstWindow, hs[lo].firstPeriod, false);
    assert LaidAt(hs, from);
    assert !LaidAt(r, to);
  }

  // ---------------------------------------------------------------- refresh

  /** How much a holder's span changes when its timeline becomes `d`. */
  function Delta(h: Holder, d: Deferred, a: Axis): int {
    Span(h.(timeline := d), a) - Span(h, a)
  }

  /** The offset part of `updateMediaSourceInternal` for the holder at
      position `k`: the new deferred timeline `d` replaces the old one, and
      if its window or period count differs, every holder from
      `childIndex + 1` on is shifted by the difference. */
  function RefreshAt(hs: seq<Holder>, k: nat, d: Deferred): (r: seq<Holder>)
    requires k < |hs| && hs[k].childIndex >= -1
    ensures |r| == |hs| && Items(r) == Items(hs)
    ensures r[k].timeline == d
    ensures forall i :: 0 <= i < |hs| && i != k ==>
      r[i] == (if i <= hs[k].childIndex then hs[i]
               else Shift(hs[i], 0, Delta(hs[k], d, Windows), Delta(hs[k], d, Periods)))
    ensures r[k] == (if k <= hs[k].childIndex then hs[k]
                     else Shift(hs[k], 0, Delta(hs[k], d, Windows), Delta(hs[k], d, Periods))).(timeline := d)
  {
    var h := hs[k];
    var dw := Delta(h, d, Windows);
    var dp := Delta(h, d, Periods);
    var shifted := if dw != 0 || dp != 0 then CorrectOffsets(hs, h.childIndex + 1, 0, dw, dp) else hs;
    ItemsOfCorrectOffsets(hs, h.childIndex + 1, 0, dw, dp);
    ItemsOfReplace(shifted, k, shifted[k].(timeline := d));
    shifted[k := shifted[k].(timeline := d)]
  }

  lemma RefreshContiguousAt(hs: seq<Holder>, k: nat, d: Deferred, i: nat, a: Axis)
    requires Contiguous(hs) && k < |hs| && 0 < i < |hs|
    ensures var r := RefreshAt(hs, k, d);
      First(r[i], a) == First(r[i - 1], a) + Span(r[i - 1], a)
  {
    assert StepAt(hs, i);
  }

  lemma RefreshKeepsContiguous(hs: seq<Holder>, k: nat, d: Deferred)
    requires Contiguous(hs) && k < |hs|
    ensures Contiguous(RefreshAt(hs, k, d))
  {
    var r := RefreshAt(hs, k, d);
    forall i | 0 < i < |r| ensures StepAt(r, i) {
      RefreshContiguousAt(hs, k, d, i, Windows);
      RefreshContiguousAt(hs, k, d, i, Periods);
    }
  }

  /** The end of a refreshed list moves by the change in the holder's span. */
  lemma RefreshMovesEnd(hs: seq<Holder>, k: nat, d: Deferred, a: Axis)
    requires Contiguous(hs) && k < |hs|
    ensures End(RefreshAt(hs, k, d), a) == End(hs, a) + Delta(hs[k], d, a)
  {
  }

  /** A refresh keeps the layout, and the totals move by the change in the
      holder's own span. */
  lemma RefreshKeepsLayout(hs: seq<Holder>, k: nat, d: Deferred)
    requires Laid(hs) && k < |hs| && hs[k].childIndex == k
    ensures Laid(RefreshAt(hs, k, d))
    ensures forall a :: SpanSum(RefreshAt(hs, k, d), a) == SpanSum(hs, a) + Delta(hs[k], d, a)
  {
    var r := RefreshAt(hs, k, d);
    LaidIsContiguous(hs);
    RefreshKeepsContiguous(hs, k, d);
    ContiguousIsLaid(r);
    forall a: Axis ensures SpanSum(r, a) == SpanSum(hs, a) + Delta(hs[k], d, a) {
      RefreshMovesEnd(hs, k, d, a);
      LaidEnd(hs, a);
      LaidEnd(r, a);
    }
  }

  /** The stale position left by the move as written sends a later refresh
      to the wrong holders: after moving holder `from` forward to `to`, a
      refresh that changes its window count shifts the holder at
      `from + 1`, which lies before it. */
  lemma StaleIndexMisplacesRefresh(hs: seq<Holder>, from: nat, to: nat, d: Deferred)
    requires Laid(hs) && from < to < |hs|
    requires d.WindowCount() != hs[from].timeline.WindowCount()
    ensures MoveAsWritten(hs, from, to)[to].childIndex == from
    ensures !Laid(RefreshAt(MoveAsWritten(hs, from, to), to, d))
  {
    var m := MoveAsWritten(hs, from, to);
    MoveAsWrittenKeepsStaleIndex(hs, from, to);
    MovePlacesHolder(hs, from, to, false, from + 1, Windows);
    assert m[to].timeline == hs[from].timeline by {
      var mi := MoveItem(hs, from, to);
      assert m == Restack(mi, from, to, hs[from].firstWindow, hs[from].firstPeriod, false);
    }
    RefreshShiftsPastStaleIndex(m, from, to, d);
  }

  /** A refresh at `to` of a holder that claims position `from < to`
      shifts the holder at `from + 1` while the ones before it stay. */
  lemma RefreshShiftsPastStaleIndex(m: seq<Holder>, from: nat, to: nat, d: Deferred)
    requires from < to < |m| && m[to].childIndex == from
    requires Delta(m[to], d, Windows) != 0
    requires m[from + 1].firstWindow == SpanSum(m[..from + 1], Windows)
    ensures !Laid(RefreshAt(m, to, d))
  {
    var r := RefreshAt(m, to, d);
    assert r[..from + 1] == m[..from + 1];
    assert r[from + 1].firstWindow == m[from + 1].firstWindow + Delta(m[to], d, Windows);
    assert !LaidAt(r, from + 1);
  }
}
