/** The playback-thread side of a concatenating source: the holder list
    with its running totals, the periods handed out to the player, the
    holders that were removed while they still had periods, and the
    message handler that applies the playlist changes sent by the
    application thread.

    Calls out of the source (preparing or releasing a child source,
    creating or releasing a child period, publishing a timeline, posting a
    completion action) are recorded as `Effect`s in the order they happen.
    Messages the source sends to itself are collected in `outbox`. */
module Engine {
  import opened Wrappers
  import opened Timelines
  import opened Holders
  import opened Concatenation

  /** Who a `DeferredMediaPeriod` belongs to: a holder, or the throwaway
      holder around a `DummyMediaSource` that `createPeriod` makes for a
      period of an item that is already gone. */
  datatype Owner = OwnedBy(uid: nat) | StaleOwner

  /** The messages `handleMessage` understands. Completion actions are
      named by number. */
  datatype Command =
    | AddMsg(index: int, items: seq<Item>, action: Option<nat>)
    | RemoveMsg(from: int, to: int, action: Option<nat>)
    | MoveMsg(from: int, to: int, action: Option<nat>)
    | ShuffleMsg(length: int, action: Option<nat>)
    | NotifyMsg
    | CompletionMsg(actions: seq<nat>)

  /** Calls the source makes into code outside it. */
  datatype Effect =
    | PrepareChild(uid: nat)
    | ReleaseChild(uid: nat)
    | CreateChildPeriod(handle: nat, childUid: Uid, windowSequence: int)
    | ReleaseChildPeriod(handle: nat)
    | Publish(timeline: Snapshot)
    | Post(action: nat)

  datatype Engine = Engine(
    holders: seq<Holder>,           // mediaSourceHolders
    detached: map<nat, Holder>,     // removed holders kept alive by their periods
    owners: map<nat, Owner>,        // mediaSourceByMediaPeriod
    windowCount: int,
    periodCount: int,
    shuffleLength: int,             // the shuffle order, reduced to its length
    attached: bool,                 // player != null
    lazyPreparation: bool,          // useLazyPreparation
    isAtomic: bool,
    notificationScheduled: bool,    // listenerNotificationScheduled
    pending: seq<nat>,              // pendingOnCompletionActions
    outbox: seq<Command>,
    effects: seq<Effect>)

  /** A source that has not been prepared yet. */
  function Initial(lazyPreparation: bool, isAtomic: bool): (e: Engine)
    ensures Inv(e) && !e.attached && e.holders == []
  {
    Engine([], map[], map[], 0, 0, 0, false, lazyPreparation, isAtomic, false, [], [], [])
  }

  /** Offsets are laid out, the totals are the sums of the spans, and the
      shuffle order has one entry per holder. */
  predicate Inv(e: Engine) {
    && Laid(e.holders)
    && e.windowCount == SpanSum(e.holders, Windows)
    && e.periodCount == SpanSum(e.holders, Periods)
    && e.shuffleLength == |e.holders|
  }

  /** `mediaSourceByUid.get(uid)`, as a position in the list: the map holds
      exactly the listed holders, under their own uids. */
  function HolderIndex(hs: seq<Holder>, uid: nat): (k: int)
    ensures -1 <= k < |hs|
    ensures k >= 0 ==> hs[k].uid == uid
    ensures k == -1 <==> forall i :: 0 <= i < |hs| ==> hs[i].uid != uid
  {
    var k := IndexOf(Uids(Items(hs)), uid);
    assert k == -1 ==> forall i :: 0 <= i < |hs| ==> Uids(Items(hs))[i] != uid;
    assert forall i :: 0 <= i < |hs| ==> Uids(Items(hs))[i] == hs[i].uid;
    k
  }

  function OptionList(action: Option<nat>): seq<nat> {
    if action.Some? then [action.value] else []
  }

  // ------------------------------------------------------------ notification

  /** `scheduleListenerNotification`: at most one notification message is
      in flight; the action waits for it. */
  function Schedule(e: Engine, action: Option<nat>): (r: Engine)
    ensures r.notificationScheduled
    ensures r.holders == e.holders && r.windowCount == e.windowCount && r.periodCount == e.periodCount
    ensures r.shuffleLength == e.shuffleLength && r.effects == e.effects && r.attached == e.attached
    ensures r.detached == e.detached && r.owners == e.owners
    ensures |r.outbox| == |e.outbox| + (if e.notificationScheduled then 0 else 1)
    ensures r.outbox[..|e.outbox|] == e.outbox
    ensures !e.notificationScheduled ==> r.outbox[|e.outbox|] == NotifyMsg
    ensures r.pending == e.pending + OptionList(action)
  {
    var sent := if e.notificationScheduled then e.outbox else e.outbox + [NotifyMsg];
    e.(notificationScheduled := true, outbox := sent, pending := e.pending + OptionList(action))
  }

  /** The timeline `notifyListener` publishes. */
  function Current(e: Engine): Snapshot {
    Snap(e.holders, e.windowCount, e.periodCount, e.shuffleLength, e.isAtomic)
  }

  /** `notifyListener`: publishes the current timeline and hands every
      waiting action to one completion message. */
  function NotifyListener(e: Engine): (r: Engine)
    ensures !r.notificationScheduled && r.pending == []
    ensures r.effects == e.effects + [Publish(Current(e))]
    ensures r.outbox == e.outbox + (if e.pending == [] then [] else [CompletionMsg(e.pending)])
    ensures r.holders == e.holders && r.windowCount == e.windowCount && r.periodCount == e.periodCount
    ensures r.shuffleLength == e.shuffleLength && r.attached == e.attached
    ensures r.detached == e.detached && r.owners == e.owners
  {
    var sent := if e.pending == [] then e.outbox else e.outbox + [CompletionMsg(e.pending)];
    e.(notificationScheduled := false, pending := [], outbox := sent,
       effects := e.effects + [Publish(Current(e))])
  }

  /** Every action waiting when a notification goes out is delivered by
      the one completion message it sends, and the published timeline
      mirrors the holders. */
  lemma NotificationCarriesPendingActions(e: Engine, action: nat)
    ensures var r := NotifyListener(Schedule(e, Some(action)));
      && r.outbox[|r.outbox| - 1] == CompletionMsg(e.pending + [action])
      && r.pending == []
      && Mirrors(r.effects[|r.effects| - 1].timeline, e.holders)
  {
  }

  // ------------------------------------------------------------ add

  /** `addMediaSourceInternal(k, holder)`, with the totals `correctOffsets`
      moves and the eager preparation of `useLazyPreparation == false`. */
  function AddOne(e: Engine, k: nat, item: Item): (r: Engine)
    requires k <= |e.holders|
    ensures |r.holders| == |e.holders| + 1 && ItemOf(r.holders[k]) == item
    ensures r.holders[k].timeline == PLACEHOLDER
    ensures r.holders[k].hasStartedPreparing == !e.lazyPreparation
    ensures r.effects == e.effects + (if e.lazyPreparation then [] else [PrepareChild(item.uid)])
    ensures r.shuffleLength == e.shuffleLength && r.attached == e.attached
    ensures r.lazyPreparation == e.lazyPreparation && r.outbox == e.outbox && r.pending == e.pending
    ensures r.notificationScheduled == e.notificationScheduled
  {
    var h := NewHolder(item);
    e.(holders := AddHolder(e.holders, k, h, !e.lazyPreparation),
       windowCount := e.windowCount + Span(h, Windows),
       periodCount := e.periodCount + Span(h, Periods),
       effects := e.effects + (if e.lazyPreparation then [] else [PrepareChild(item.uid)]))
  }

  lemma ItemsOfAddOne(e: Engine, k: nat, item: Item)
    requires k <= |e.holders|
    ensures Items(AddOne(e, k, item).holders) == Items(e.holders)[..k] + [item] + Items(e.holders)[k..]
  {
    ItemsOfAdd(e.holders, k, NewHolder(item), !e.lazyPreparation);
  }

  /** Adding keeps the offsets laid out and the totals equal to the spans:
      the new holder's placeholder adds one window and one period. */
  lemma AddOneKeepsLayout(e: Engine, k: nat, item: Item)
    requires Laid(e.holders) && k <= |e.holders|
    requires e.windowCount == SpanSum(e.holders, Windows) && e.periodCount == SpanSum(e.holders, Periods)
    ensures var r := AddOne(e, k, item);
      && Laid(r.holders)
      && r.windowCount == SpanSum(r.holders, Windows) && r.windowCount == e.windowCount + 1
      && r.periodCount == SpanSum(r.holders, Periods) && r.periodCount == e.periodCount + 1
  {
    AddKeepsLayout(e.holders, k, NewHolder(item), !e.lazyPreparation);
  }

  /** `addMediaSourcesInternal`: the items go in one after another from
      `k` on. */
  function AddAll(e: Engine, k: nat, items: seq<Item>): (r: Engine)
    requires k <= |e.holders|
    ensures |r.holders| == |e.holders| + |items|
    ensures r.shuffleLength == e.shuffleLength && r.attached == e.attached
    ensures r.lazyPreparation == e.lazyPreparation && r.outbox == e.outbox && r.pending == e.pending
    ensures r.notificationScheduled == e.notificationScheduled
    decreases |items|
  {
    if |items| == 0 then e
    else
      AddAll(AddOne(e, k, items[0]), k + 1, items[1..])
  }

  /** The items go in, in order, at `k`. */
  lemma {:induction false} ItemsOfAddAll(e: Engine, k: nat, items: seq<Item>)
    requires k <= |e.holders|
    ensures Items(AddAll(e, k, items).holders) == Items(e.holders)[..k] + items + Items(e.holders)[k..]
    decreases |items|
  {
    if |items| > 0 {
      var next := AddOne(e, k, items[0]);
      ItemsOfAddOne(e, k, items[0]);
      ItemsOfAddAll(next, k + 1, items[1..]);
      InsertStep(Items(e.holders), k, items);
    } else {
      InsertNothing(Items(e.holders), k, items);
    }
  }

  lemma {:induction false} AddAllKeepsLayout(e: Engine, k: nat, items: seq<Item>)
    requires Laid(e.holders) && k <= |e.holders|
    requires e.windowCount == SpanSum(e.holders, Windows) && e.periodCount == SpanSum(e.holders, Periods)
    ensures var r := AddAll(e, k, items);
      && Laid(r.holders)
      && r.windowCount == SpanSum(r.holders, Windows) && r.periodCount == SpanSum(r.holders, Periods)
    decreases |items|
  {
    if |items| > 0 {
      AddOneKeepsLayout(e, k, items[0]);
      AddAllKeepsLayout(AddOne(e, k, items[0]), k + 1, items[1..]);
    }
  }

  // ------------------------------------------------------------ remove

  /** `removeMediaSourceInternal(k)`: the holder leaves the list and the
      uid map, the totals shrink by its span, and it is marked removed. Its
      child is released now if it has no periods; otherwise it stays
      alive, detached, until `releasePeriod` takes its last period. */
  function RemoveOne(e: Engine, k: nat): (r: Engine)
    requires k < |e.holders|
    ensures |r.holders| == |e.holders| - 1
    ensures var h := e.holders[k];
      && r.windowCount == e.windowCount - Span(h, Windows)
      && r.periodCount == e.periodCount - Span(h, Periods)
      && (h.activePeriods == [] ==>
            r.effects == e.effects + [ReleaseChild(h.uid)] && r.detached == e.detached)
      && (h.activePeriods != [] ==>
            r.effects == e.effects && r.detached == e.detached[h.uid := h.(isRemoved := true)])
    ensures r.shuffleLength == e.shuffleLength && r.attached == e.attached && r.owners == e.owners
    ensures r.lazyPreparation == e.lazyPreparation && r.outbox == e.outbox && r.pending == e.pending
    ensures r.notificationScheduled == e.notificationScheduled
  {
    var h := e.holders[k];
    var shrunk := e.(holders := RemoveHolder(e.holders, k),
                     windowCount := e.windowCount - Span(h, Windows),
                     periodCount := e.periodCount - Span(h, Periods));
    if h.activePeriods == [] then shrunk.(effects := e.effects + [ReleaseChild(h.uid)])
    else shrunk.(detached := e.detached[h.uid := h.(isRemoved := true)])
  }

  lemma ItemsOfRemoveOne(e: Engine, k: nat)
    requires k < |e.holders|
    ensures Items(RemoveOne(e, k).holders) == Items(e.holders)[..k] + Items(e.holders)[k + 1..]
  {
    ItemsOfRemove(e.holders, k);
  }

  lemma RemoveOneKeepsLayout(e: Engine, k: nat)
    requires Laid(e.holders) && k < |e.holders|
    requires e.windowCount == SpanSum(e.holders, Windows) && e.periodCount == SpanSum(e.holders, Periods)
    ensures var r := RemoveOne(e, k);
      && Laid(r.holders)
      && r.windowCount == SpanSum(r.holders, Windows) && r.periodCount == SpanSum(r.holders, Periods)
  {
    RemoveKeepsLayout(e.holders, k);
  }

  /** With distinct uids, a removed holder's uid no longer resolves. */
  lemma RemoveOneDropsUid(e: Engine, k: nat)
    requires k < |e.holders| && Distinct(Uids(Items(e.holders)))
    ensures HolderIndex(RemoveOne(e, k).holders, e.holders[k].uid) == -1
  {
    var r := RemoveOne(e, k);
    ItemsOfRemoveOne(e, k);
    forall i | 0 <= i < |r.holders|
      ensures r.holders[i].uid != e.holders[k].uid
    {
      var j := if i < k then i else i + 1;
      assert Items(r.holders)[i] == Items(e.holders)[j];
      assert Uids(Items(e.holders))[j] != Uids(Items(e.holders))[k];
    }
  }

  /** The loop of `MSG_REMOVE`: positions `to - 1` down to `from`. */
  function RemoveRange(e: Engine, from: nat, to: nat): (r: Engine)
    requires from <= to <= |e.holders|
    ensures |r.holders| == |e.holders| - (to - from)
    ensures r.shuffleLength == e.shuffleLength && r.attached == e.attached
    ensures r.lazyPreparation == e.lazyPreparation && r.outbox == e.outbox && r.pending == e.pending
    ensures r.notificationScheduled == e.notificationScheduled
    decreases (to)
  {
    if from == to then e
    else
      RemoveRange(RemoveOne(e, to - 1), from, to - 1)
  }

  /** Exactly the items at `from .. to - 1` go. */
  lemma {:induction false} ItemsOfRemoveRange(e: Engine, from: nat, to: nat)
    requires from <= to <= |e.holders|
    ensures Items(RemoveRange(e, from, to).holders) == Items(e.holders)[..from] + Items(e.holders)[to..]
    decreases (to)
  {
    if from < to {
      var next := RemoveOne(e, to - 1);
      assert RemoveRange(e, from, to) == RemoveRange(next, from, to - 1);
      ItemsOfRemoveOne(e, to - 1);
      ItemsOfRemoveRange(next, from, to - 1);
      CutStep(Items(e.holders), from, to);
    } else {
      InsertNothing(Items(e.holders), from, []);
    }
  }

  lemma {:induction false} RemoveRangeKeepsLayout(e: Engine, from: nat, to: nat)
    requires Laid(e.holders) && from <= to <= |e.holders|
    requires e.windowCount == SpanSum(e.holders, Windows) && e.periodCount == SpanSum(e.holders, Periods)
    ensures (var r := RemoveRange(e, from, to);
      && Laid(r.holders)
      && r.windowCount == SpanSum(r.holders, Windows) && r.periodCount == SpanSum(r.holders, Periods))
    decreases (to)
  {
    if from < to {
      RemoveOneKeepsLayout(e, to - 1);
      RemoveRangeKeepsLayout(RemoveOne(e, to - 1), from, to - 1);
    }
  }

  // ------------------------------------------------------------ messages

  /** The length `MSG_REMOVE` leaves the shuffle order with: cleared when
      the whole order goes, one `cloneAndRemove` per position otherwise. */
  function ShuffleAfterRemove(length: int, from: int, to: int): int {
    if from == 0 && to == length then 0 else length - (to - from)
  }

  /** `MSG_ADD`: the shuffle order grows by the number of items, which go
      in from `index` on. */
  function AddMessage(e: Engine, index: nat, items: seq<Item>, action: Option<nat>): (r: Engine)
    requires index <= |e.holders|
    ensures r.shuffleLength == e.shuffleLength + |items| && r.attached == e.attached
  {
    Schedule(AddAll(e, index, items).(shuffleLength := e.shuffleLength + |items|), action)
  }

  /** `MSG_REMOVE`: the shuffle order and the list lose positions
      `from .. to - 1`, from the top down. */
  function RemoveMessage(e: Engine, from: nat, to: nat, action: Option<nat>): (r: Engine)
    requires from <= to <= |e.holders|
    ensures r.shuffleLength == ShuffleAfterRemove(e.shuffleLength, from, to) && r.attached == e.attached
  {
    Schedule(RemoveRange(e, from, to).(shuffleLength := ShuffleAfterRemove(e.shuffleLength, from, to)), action)
  }

  /** `MSG_MOVE`: one `cloneAndRemove` and one `cloneAndInsert` leave the
      shuffle length as it was. */
  function MoveMessage(e: Engine, from: nat, to: nat, action: Option<nat>): (r: Engine)
    requires from < |e.holders| && to < |e.holders|
    ensures r.shuffleLength == e.shuffleLength && r.attached == e.attached
  {
    Schedule(e.(holders := Move(e.holders, from, to)), action)
  }

  /** `handleMessage`. A message that reaches a released source is
      dropped. A removal whose `to` lies below its `from` runs neither
      loop, so it only schedules a notification. Any other message whose
      indices do not fit the list fails the way the list access would. */
  function HandleMessage(e: Engine, cmd: Command): (r: Result<Engine>)
    ensures !e.attached ==> r == Success(e)
    ensures r.Failure? <==> e.attached && !Fits(|e.holders|, cmd) && !BackwardsRemove(cmd)
    ensures r.Failure? ==> r.error == IndexOutOfBounds
    ensures r.Success? ==> r.value.attached == e.attached
    ensures e.attached && BackwardsRemove(cmd) ==>
      && r.Success? && r.value.holders == e.holders && r.value.shuffleLength == e.shuffleLength
      && r.value.windowCount == e.windowCount && r.value.periodCount == e.periodCount
      && r.value.pending == e.pending + OptionList(cmd.action)
  {
    if !e.attached then Success(e)
    else if BackwardsRemove(cmd) then Success(Schedule(e, cmd.action))
    else if !Fits(|e.holders|, cmd) then Failure(IndexOutOfBounds)
    else match cmd
      case AddMsg(index, items, action) => Success(AddMessage(e, index, items, action))
      case RemoveMsg(from, to, action) => Success(RemoveMessage(e, from, to, action))
      case MoveMsg(from, to, action) => Success(MoveMessage(e, from, to, action))
      case ShuffleMsg(length, action) =>
        Success(Schedule(e.(shuffleLength := length), action))
      case NotifyMsg =>
        Success(NotifyListener(e))
      case CompletionMsg(actions) =>
        Success(e.(effects := e.effects + PostAll(actions)))
  }

  /** A removal from `from` up to a `to` below it: both of `MSG_REMOVE`'s
      loops count down from `to - 1` and stop at once. */
  predicate BackwardsRemove(cmd: Command) {
    cmd.RemoveMsg? && cmd.to < cmd.from
  }

  /** Whether a message's indices fit a list of `n` holders. */
  predicate Fits(n: int, cmd: Command) {
    match cmd
      case AddMsg(index, _, _) => 0 <= index <= n
      case RemoveMsg(from, to, _) => 0 <= from <= to <= n
      case MoveMsg(from, to, _) => 0 <= from < n && 0 <= to < n
      case _ => true
  }

  /** `handler.post` for each action, in order. */
  function PostAll(actions: seq<nat>): (r: seq<Effect>)
    ensures |r| == |actions| && forall i :: 0 <= i < |r| ==> r[i] == Post(actions[i])
  {
    seq(|actions|, i requires 0 <= i < |actions| => Post(actions[i]))
  }

  /** The list effect of a message on the items. */
  function ApplyToItems(s: seq<Item>, cmd: Command): seq<Item>
    requires Fits(|s|, cmd)
  {
    match cmd
      case AddMsg(index, items, _) => s[..index] + items + s[index..]
      case RemoveMsg(from, to, _) => s[..from] + s[to..]
      case MoveMsg(from, to, _) => MoveItem(s, from, to)
      case _ => s
  }

  /** Each message changes the holders' items exactly as its list effect
      says. */
  lemma HandleMessageAppliesItems(e: Engine, cmd: Command)
    requires e.attached && Fits(|e.holders|, cmd)
    ensures Items(HandleMessage(e, cmd).value.holders) == ApplyToItems(Items(e.holders), cmd)
  {
    match cmd
      case AddMsg(index, items, action) =>
        assert HandleMessage(e, cmd).value == AddMessage(e, index, items, action);
        AddMessageAppliesItems(e, index, items, action);
      case RemoveMsg(from, to, action) =>
        assert HandleMessage(e, cmd).value == RemoveMessage(e, from, to, action);
        RemoveMessageAppliesItems(e, from, to, action);
      case MoveMsg(from, to, action) =>
        assert HandleMessage(e, cmd).value == MoveMessage(e, from, to, action);
        MoveMessageAppliesItems(e, from, to, action);
      case _ =>
  }

  lemma AddMessageAppliesItems(e: Engine, index: nat, items: seq<Item>, action: Option<nat>)
    requires index <= |e.holders|
    ensures Items(AddMessage(e, index, items, action).holders) == Items(e.holders)[..index] + items + Items(e.holders)[index..]
  {
    ItemsOfAddAll(e, index, items);
  }

  lemma RemoveMessageAppliesItems(e: Engine, from: nat, to: nat, action: Option<nat>)
    requires from <= to <= |e.holders|
    ensures Items(RemoveMessage(e, from, to, action).holders) == Items(e.holders)[..from] + Items(e.holders)[to..]
  {
    ItemsOfRemoveRange(e, from, to);
  }

  lemma MoveMessageAppliesItems(e: Engine, from: nat, to: nat, action: Option<nat>)
    requires from < |e.holders| && to < |e.holders|
    ensures Items(MoveMessage(e, from, to, action).holders) == MoveItem(Items(e.holders), from, to)
  {
    ItemsOfMove(e.holders, from, to);
  }

  lemma ScheduleKeepsInv(e: Engine, action: Option<nat>)
    requires Inv(e)
    ensures Inv(Schedule(e, action))
  {
  }

  lemma AddMessageKeepsInv(e: Engine, index: nat, items: seq<Item>, action: Option<nat>)
    requires Inv(e) && index <= |e.holders|
    ensures Inv(AddMessage(e, index, items, action))
  {
    AddAllKeepsLayout(e, index, items);
    ScheduleKeepsInv(AddAll(e, index, items).(shuffleLength := e.shuffleLength + |items|), action);
  }

  lemma RemoveMessageKeepsInv(e: Engine, from: nat, to: nat, action: Option<nat>)
    requires Inv(e) && from <= to <= |e.holders|
    ensures Inv(RemoveMessage(e, from, to, action))
  {
    RemoveRangeKeepsLayout(e, from, to);
    ScheduleKeepsInv(RemoveRange(e, from, to).(shuffleLength := ShuffleAfterRemove(e.shuffleLength, from, to)), action);
  }

  lemma MoveMessageKeepsInv(e: Engine, from: nat, to: nat, action: Option<nat>)
    requires Inv(e) && from < |e.holders| && to < |e.holders|
    ensures Inv(MoveMessage(e, from, to, action))
  {
    MoveKeepsLayout(e.holders, from, to);
    MoveKeepsTotal(e.holders, from, to, true, Windows);
    MoveKeepsTotal(e.holders, from, to, true, Periods);
  }

  /** Every message that fits keeps the invariant, provided a new shuffle
      order has one entry per holder (the application thread sizes it so). */
  lemma HandleMessageKeepsInv(e: Engine, cmd: Command)
    requires Inv(e) && e.attached && Fits(|e.holders|, cmd)
    requires cmd.ShuffleMsg? ==> cmd.length == |e.holders|
    ensures Inv(HandleMessage(e, cmd).value)
  {
    match cmd
      case AddMsg(index, items, action) => AddMessageKeepsInv(e, index, items, action);
      case RemoveMsg(from, to, action) => RemoveMessageKeepsInv(e, from, to, action);
      case MoveMsg(from, to, action) => MoveMessageKeepsInv(e, from, to, action);
      case ShuffleMsg(length, action) =>
      case NotifyMsg =>
      case CompletionMsg(actions) =>
  }

  // ------------------------------------------------------------ periods

  /** `createPeriod`: the period joins its holder (found through the uid
      map) and the holder starts preparing if it has not; a prepared
      holder creates the child period at once, under the child's own uid.
      A period for an item that is gone gets a throwaway holder. */
  function CreatePeriod(e: Engine, handle: nat, id: ConcatUid, windowSequence: int): (r: Engine)
    requires handle !in e.owners
    ensures Items(r.holders) == Items(e.holders)
    ensures r.windowCount == e.windowCount && r.periodCount == e.periodCount
    ensures r.shuffleLength == e.shuffleLength && r.attached == e.attached
    ensures handle in r.owners
    ensures var k := HolderIndex(e.holders, id.holder);
      && (k == -1 ==> r.owners[handle] == StaleOwner && r.effects == e.effects)
      && (k >= 0 ==>
            && r.owners[handle] == OwnedBy(id.holder)
            && r.holders[k].activePeriods == e.holders[k].activePeriods + [Period(handle, id, windowSequence)]
            && r.holders[k].hasStartedPreparing
            && (!e.holders[k].hasStartedPreparing ==> r.effects == e.effects + [PrepareChild(id.holder)])
            && (e.holders[k].hasStartedPreparing && e.holders[k].isPrepared ==>
                  r.effects == e.effects + [CreateChildPeriod(handle, ChildPeriodUid(e.holders[k], id), windowSequence)]))
  {
    var k := HolderIndex(e.holders, id.holder);
    if k == -1 then
      e.(owners := e.owners[handle := StaleOwner])
    else
      var h := e.holders[k];
      var joined := h.(activePeriods := h.activePeriods + [Period(handle, id, windowSequence)],
                       hasStartedPreparing := true);
      var calls :=
        if !h.hasStartedPreparing then [PrepareChild(h.uid)]
        else if h.isPrepared then [CreateChildPeriod(handle, ChildPeriodUid(h, id), windowSequence)]
        else [];
      var r := e.(holders := e.holders[k := joined], owners := e.owners[handle := OwnedBy(h.uid)],
                  effects := e.effects + calls);
      ItemsOfReplace(e.holders, k, joined);
      r
  }

  /** Replacing one holder by another with the same timeline and offsets
      keeps the layout. */
  lemma ReplaceKeepsLayout(hs: seq<Holder>, k: nat, h: Holder)
    requires Laid(hs) && k < |hs|
    requires h.timeline == hs[k].timeline && h.childIndex == hs[k].childIndex
    requires h.firstWindow == hs[k].firstWindow && h.firstPeriod == hs[k].firstPeriod
    ensures Laid(hs[k := h])
    ensures forall a :: SpanSum(hs[k := h], a) == SpanSum(hs, a)
  {
    var r := hs[k := h];
    forall i, a | 0 <= i <= |hs|
      ensures SpanSum(r[..i], a) == SpanSum(hs[..i], a)
    {
      SpanSumOfSameTimelines(r[..i], hs[..i], a);
    }
    forall i | 0 <= i < |r| ensures LaidAt(r, i) {
      assert LaidAt(hs, i);
    }
    assert r[..|r|] == r && hs[..|hs|] == hs;
  }

  lemma CreatePeriodKeepsInv(e: Engine, handle: nat, id: ConcatUid, windowSequence: int)
    requires Inv(e) && handle !in e.owners
    ensures Inv(CreatePeriod(e, handle, id, windowSequence))
  {
    var k := HolderIndex(e.holders, id.holder);
    if k >= 0 {
      var h := e.holders[k];
      ReplaceKeepsLayout(e.holders, k,
        h.(activePeriods := h.activePeriods + [Period(handle, id, windowSequence)], hasStartedPreparing := true));
    }
  }

  /** `activeMediaPeriods.remove(period)`: the first entry with that
      handle goes. */
  function RemovePeriod(ps: seq<Period>, handle: nat): (r: seq<Period>)
    ensures (exists i :: 0 <= i < |ps| && ps[i].handle == handle) ==> |r| == |ps| - 1
    ensures (forall i :: 0 <= i < |ps| ==> ps[i].handle != handle) ==> r == ps
    ensures forall p :: p in r ==> p in ps
  {
    if |ps| == 0 then []
    else if ps[0].handle == handle then ps[1..]
    else [ps[0]] + RemovePeriod(ps[1..], handle)
  }

  /** `releasePeriod`: an unknown period is a `NullPointerException`; a
      known one leaves its holder, and a removed holder whose last period
      this was has its child released now. */
  function ReleasePeriod(e: Engine, handle: nat): (r: Result<Engine>)
    ensures r.Failure? <==> handle !in e.owners
    ensures r.Failure? ==> r.error == NullPointer
    ensures r.Success? ==>
      && handle !in r.value.owners && r.value.owners == e.owners - {handle}
      && Items(r.value.holders) == Items(e.holders)
      && r.value.windowCount == e.windowCount && r.value.periodCount == e.periodCount
      && r.value.shuffleLength == e.shuffleLength && r.value.attached == e.attached
      && r.value.outbox == e.outbox && r.value.pending == e.pending
      && r.value.notificationScheduled == e.notificationScheduled
      && |r.value.effects| > |e.effects| && r.value.effects[..|e.effects| + 1] == e.effects + [ReleaseChildPeriod(handle)]
  {
    if handle !in e.owners then Failure(NullPointer)
    else
      var left := e.(owners := e.owners - {handle}, effects := e.effects + [ReleaseChildPeriod(handle)]);
      match e.owners[handle]
        case StaleOwner => Success(left)
        case OwnedBy(uid) =>
          var k := HolderIndex(e.holders, uid);
          if k >= 0 then Success(LeaveListed(left, k, handle))
          else Success(LeaveDetached(left, uid, handle))
  }

  /** A period leaves holder `k` of the list; a removed holder left without
      periods has its child released. */
  function LeaveListed(e: Engine, k: nat, handle: nat): (r: Engine)
    requires k < |e.holders|
    ensures Items(r.holders) == Items(e.holders) && |r.holders| == |e.holders|
    ensures r == e.(holders := r.holders, effects := r.effects)
    ensures r.holders == e.holders[k := e.holders[k].(activePeriods := RemovePeriod(e.holders[k].activePeriods, handle))]
    ensures |r.effects| >= |e.effects| && r.effects[..|e.effects|] == e.effects
  {
    var h := e.holders[k];
    var h1 := h.(activePeriods := RemovePeriod(h.activePeriods, handle));
    var released := if h1.activePeriods == [] && h1.isRemoved then [ReleaseChild(h.uid)] else [];
    ItemsOfReplace(e.holders, k, h1);
    e.(holders := e.holders[k := h1], effects := e.effects + released)
  }

  /** A period leaves the removed holder `uid`; the last one to go
      releases its child and forgets the holder. */
  function LeaveDetached(e: Engine, uid: nat, handle: nat): (r: Engine)
    ensures r == e.(detached := r.detached, effects := r.effects)
    ensures |r.effects| >= |e.effects| && r.effects[..|e.effects|] == e.effects
  {
    if uid in e.detached then
      var h := e.detached[uid];
      var h1 := h.(activePeriods := RemovePeriod(h.activePeriods, handle));
      if h1.activePeriods == [] && h1.isRemoved then
        e.(detached := e.detached - {uid}, effects := e.effects + [ReleaseChild(uid)])
      else
        e.(detached := e.detached[uid := h1])
    else e
  }

  lemma ReleasePeriodKeepsInv(e: Engine, handle: nat)
    requires Inv(e) && handle in e.owners
    ensures Inv(ReleasePeriod(e, handle).value)
  {
    if e.owners[handle].OwnedBy? {
      var uid := e.owners[handle].uid;
      var k := HolderIndex(e.holders, uid);
      if k >= 0 {
        var h := e.holders[k];
        ReplaceKeepsLayout(e.holders, k, h.(activePeriods := RemovePeriod(h.activePeriods, handle)));
      }
    }
  }

  /** The removed holder `uid` is kept alive by the periods with handles
      `handles`, each owned by it and nowhere else listed. */
  predicate KeptAliveBy(e: Engine, uid: nat, handles: seq<nat>) {
    && uid in e.detached && e.detached[uid].isRemoved
    && HolderIndex(e.holders, uid) == -1
    && |e.detached[uid].activePeriods| == |handles|
    && (forall i :: 0 <= i < |handles| ==> e.detached[uid].activePeriods[i].handle == handles[i])
    && Distinct(handles)
    && (forall i :: 0 <= i < |handles| ==> handles[i] in e.owners && e.owners[handles[i]] == OwnedBy(uid))
  }

  /** `releasePeriod` for each handle in turn, stopping at the first
      failure. */
  function ReleaseAll(e: Engine, handles: seq<nat>): (r: Result<Engine>)
    ensures r.Success? ==> |r.value.effects| >= |e.effects| && r.value.effects[..|e.effects|] == e.effects
    decreases |handles|
  {
    if |handles| == 0 then Success(e)
    else
      var next :- ReleasePeriod(e, handles[0]);
      ReleaseAll(next, handles[1..])
  }

  function Count(s: seq<Effect>, x: Effect): nat {
    if |s| == 0 then 0 else Count(s[..|s| - 1], x) + (if s[|s| - 1] == x then 1 else 0)
  }

  /** What a run appended after `a` starts with the step `x` that made `b`. */
  lemma SuffixAfterStep(a: seq<Effect>, b: seq<Effect>, c: seq<Effect>, x: Effect)
    requires b == a + [x] && |c| >= |b| && c[..|b|] == b
    ensures c[|a|..] == [x] + c[|b|..]
  {
    assert c[|a|] == b[|a|];
  }

  lemma CountAppend(s: seq<Effect>, t: seq<Effect>, x: Effect)
    ensures Count(s + t, x) == Count(s, x) + Count(t, x)
    decreases |t|
  {
    if |t| > 0 {
      assert (s + t)[..|s + t| - 1] == s + t[..|t| - 1];
      assert (s + t)[|s + t| - 1] == t[|t| - 1];
      CountAppend(s, t[..|t| - 1], x);
      calc {
        Count(s + t, x);
        Count((s + t)[..|s + t| - 1], x) + (if (s + t)[|s + t| - 1] == x then 1 else 0);
        Count(s + t[..|t| - 1], x) + (if t[|t| - 1] == x then 1 else 0);
        Count(s, x) + Count(t[..|t| - 1], x) + (if t[|t| - 1] == x then 1 else 0);
        Count(s, x) + Count(t, x);
      }
    } else {
      assert s + t == s;
    }
  }

  /** One `releasePeriod` on a holder kept alive by its periods: the
      last one releases the child, any other leaves it alive by the rest. */
  lemma ReleaseKeptAliveStep(e: Engine, uid: nat, handles: seq<nat>)
    requires |handles| > 0 && KeptAliveBy(e, uid, handles)
    ensures ReleasePeriod(e, handles[0]).Success?
    ensures var next := ReleasePeriod(e, handles[0]).value;
      && (|handles| == 1 ==>
            next.effects == e.effects + [ReleaseChildPeriod(handles[0]), ReleaseChild(uid)]
            && uid !in next.detached)
      && (|handles| > 1 ==>
            next.effects == e.effects + [ReleaseChildPeriod(handles[0])]
            && KeptAliveBy(next, uid, handles[1..]))
  {
    var handle := handles[0];
    var h := e.detached[uid];
    assert RemovePeriod(h.activePeriods, handle) == h.activePeriods[1..];
    var next := ReleasePeriod(e, handle).value;
    if |handles| > 1 {
      assert next.detached == e.detached[uid := h.(activePeriods := h.activePeriods[1..])];
      assert next.holders == e.holders;
      forall i | 0 <= i < |handles| - 1
        ensures handles[1..][i] in next.owners && next.owners[handles[1..][i]] == OwnedBy(uid)
      {
        assert handles[1..][i] == handles[i + 1] != handles[0];
      }
    }
  }

  lemma LastPeriodReleases(e: Engine, uid: nat, handles: seq<nat>)
    requires |handles| == 1 && KeptAliveBy(e, uid, handles)
    ensures ReleaseAll(e, handles).Success?
    ensures var r := ReleaseAll(e, handles).value;
      && |r.effects| > |e.effects|
      && Count(r.effects[|e.effects|..], ReleaseChild(uid)) == 1
      && r.effects[|r.effects| - 1] == ReleaseChild(uid)
      && uid !in r.detached
  {
    ReleaseKeptAliveStep(e, uid, handles);
    var handle := handles[0];
    var next := ReleasePeriod(e, handle).value;
    var tail := [ReleaseChildPeriod(handle), ReleaseChild(uid)];
    assert next.effects[|e.effects|..] == tail;
    assert tail[..1][..0] == [] && tail[..1] == [ReleaseChildPeriod(handle)];
    assert Count(tail[..1], ReleaseChild(uid)) == 0;
    assert Count(tail, ReleaseChild(uid)) == 1;
    assert ReleaseAll(next, handles[1..]) == Success(next);
  }

  /** Deferred release: a removed holder kept alive by its periods has its
      child released exactly once, by the release of its last period, and
      then leaves the detached holders. */
  lemma {:induction false} LastPeriodReleasesRemovedChild(e: Engine, uid: nat, handles: seq<nat>)
    requires |handles| > 0 && KeptAliveBy(e, uid, handles)
    ensures ReleaseAll(e, handles).Success?
    ensures var r := ReleaseAll(e, handles).value;
      && |r.effects| > |e.effects|
      && Count(r.effects[|e.effects|..], ReleaseChild(uid)) == 1
      && r.effects[|r.effects| - 1] == ReleaseChild(uid)
      && uid !in r.detached
    decreases |handles|
  {
    if |handles| == 1 {
      LastPeriodReleases(e, uid, handles);
    } else {
      ReleaseKeptAliveStep(e, uid, handles);
      var handle := handles[0];
      var next := ReleasePeriod(e, handle).value;
      LastPeriodReleasesRemovedChild(next, uid, handles[1..]);
      var r := ReleaseAll(next, handles[1..]).value;
      SuffixAfterStep(e.effects, next.effects, r.effects, ReleaseChildPeriod(handle));
      CountAppend([ReleaseChildPeriod(handle)], r.effects[|next.effects|..], ReleaseChild(uid));
      assert Count([ReleaseChildPeriod(handle)], ReleaseChild(uid)) == 0 by {
        assert [ReleaseChildPeriod(handle)][..0] == [];
      }
    }
  }

  // ------------------------------------------------------------ refresh

  /** The child periods a holder creates when its first non-empty
      timeline arrives: one per active period, under the child's own uid. */
  function PeriodRequests(h: Holder): (r: seq<Effect>)
    ensures |r| == |h.activePeriods|
    ensures forall i :: 0 <= i < |r| ==>
      r[i] == CreateChildPeriod(h.activePeriods[i].handle,
                                ChildPeriodUid(h, h.activePeriods[i].uid),
                                h.activePeriods[i].windowSequence)
  {
    seq(|h.activePeriods|, i requires 0 <= i < |h.activePeriods| =>
      CreateChildPeriod(h.activePeriods[i].handle, ChildPeriodUid(h, h.activePeriods[i].uid),
                        h.activePeriods[i].windowSequence))
  }

  /** Whether a refresh to `t` prepares `h`: only the first timeline with
      windows does. */
  predicate PreparesNow(h: Holder, t: Timeline) {
    !h.isPrepared && !t.IsEmpty()
  }

  /** The per-holder part of `updateMediaSourceInternal`: the deferred
      timeline takes `t`, and the first non-empty one prepares the
      holder and creates its waiting periods. */
  function Adopt(h: Holder, t: Timeline): (r: Holder)
    requires t.ChildTimeline?
    ensures r.timeline == CloneWithNewTimeline(h.timeline, t)
    ensures r.isPrepared == (h.isPrepared || !t.IsEmpty())
    ensures ItemOf(r) == ItemOf(h) && r.activePeriods == h.activePeriods
    ensures r.childIndex == h.childIndex && r.firstWindow == h.firstWindow && r.firstPeriod == h.firstPeriod
  {
    var cloned := h.(timeline := CloneWithNewTimeline(h.timeline, t));
    if PreparesNow(h, t) then cloned.(isPrepared := true) else cloned
  }

  /** The child calls `Adopt` makes: period requests use the holder's new
      `replacedId`. */
  function AdoptCalls(h: Holder, t: Timeline): seq<Effect>
    requires t.ChildTimeline?
  {
    if PreparesNow(h, t) then PeriodRequests(h.(timeline := CloneWithNewTimeline(h.timeline, t))) else []
  }

  /** `onChildSourceInfoRefreshed` / `updateMediaSourceInternal`, with the
      offset and total update limited to holders still in the list. The
      same timeline object again changes nothing. */
  function Refresh(e: Engine, uid: nat, t: Timeline): (r: Engine)
    requires Laid(e.holders) && t.ChildTimeline?
    ensures Items(r.holders) == Items(e.holders)
    ensures r.shuffleLength == e.shuffleLength && r.attached == e.attached
    ensures var k := HolderIndex(e.holders, uid);
      && (k >= 0 && e.holders[k].timeline.timeline == t ==> r == e)
      && (k >= 0 && e.holders[k].timeline.timeline != t ==>
            && r.holders[k] == Adopt(e.holders[k], t)
            && r.effects == e.effects + AdoptCalls(e.holders[k], t)
            && r.notificationScheduled)
      && (k == -1 && uid !in e.detached ==> r == e)
      && (k == -1 ==> r.holders == e.holders && r.windowCount == e.windowCount && r.periodCount == e.periodCount)
  {
    var k := HolderIndex(e.holders, uid);
    if k >= 0 then
      var h := e.holders[k];
      if h.timeline.timeline == t then e
      else
        var d := CloneWithNewTimeline(h.timeline, t);
        assert LaidAt(e.holders, k);
        var shifted := RefreshAt(e.holders, k, d);
        var adopted := Adopt(h, t);
        ItemsOfReplace(shifted, k, adopted);
        Schedule(e.(holders := shifted[k := adopted],
                    windowCount := e.windowCount + d.WindowCount() - h.timeline.WindowCount(),
                    periodCount := e.periodCount + d.PeriodCount() - h.timeline.PeriodCount(),
                    effects := e.effects + AdoptCalls(h, t)), None)
    else if uid in e.detached then
      var h := e.detached[uid];
      if h.timeline.timeline == t then e
      else
        Schedule(e.(detached := e.detached[uid := Adopt(h, t)], effects := e.effects + AdoptCalls(h, t)), None)
    else e
  }

  lemma RefreshKeepsInv(e: Engine, uid: nat, t: Timeline)
    requires Inv(e) && t.ChildTimeline?
    ensures Inv(Refresh(e, uid, t))
  {
    var k := HolderIndex(e.holders, uid);
    if k >= 0 && e.holders[k].timeline.timeline != t {
      var h := e.holders[k];
      var d := CloneWithNewTimeline(h.timeline, t);
      assert LaidAt(e.holders, k);
      var shifted := RefreshAt(e.holders, k, d);
      RefreshKeepsLayout(e.holders, k, d);
      ReplaceKeepsLayout(shifted, k, Adopt(h, t));
    }
  }

  /** A refreshed holder asks its child for every waiting period under a
      uid that maps back to the period's own concatenated uid. */
  lemma PeriodRequestsRoundTrip(h: Holder, i: nat)
    requires i < |h.activePeriods|
    requires h.activePeriods[i].uid.holder == h.uid
    requires h.activePeriods[i].uid.child == DummyId || h.activePeriods[i].uid.child != h.timeline.replacedId
    ensures PeriodUid(h, PeriodRequests(h)[i].childUid) == h.activePeriods[i].uid
  {
    ConcatUidSurvivesChild(h, h.activePeriods[i].uid);
  }

  /** `updateMediaSourceInternal` as written, on a holder that has been
      removed but is kept alive by its periods: its stale `childIndex`
      still drives `correctOffsets`, so the live totals move. */
  function RefreshRemovedAsWritten(e: Engine, h: Holder, t: Timeline): (r: Engine)
    requires h.childIndex >= -1 && t.ChildTimeline?
    ensures h.timeline.timeline != t ==>
      && r.windowCount == e.windowCount + t.WindowCount() - h.timeline.WindowCount()
      && r.periodCount == e.periodCount + t.PeriodCount() - h.timeline.PeriodCount()
  {
    if h.timeline.timeline == t then e
    else
      var d := CloneWithNewTimeline(h.timeline, t);
      var dw := d.WindowCount() - h.timeline.WindowCount();
      var dp := d.PeriodCount() - h.timeline.PeriodCount();
      var shifted := if dw != 0 || dp != 0 then CorrectOffsets(e.holders, h.childIndex + 1, 0, dw, dp) else e.holders;
      Schedule(e.(holders := shifted, windowCount := e.windowCount + dw, periodCount := e.periodCount + dp,
                  detached := e.detached[h.uid := Adopt(h, t)], effects := e.effects + AdoptCalls(h, t)), None)
  }

  /** The input that shows it: item A (uid 0) is removed from [A, B] while
      the player still holds one of its periods; when A's child then
      reports a two-window timeline, the code as written counts two
      windows for a list whose only item has one. The corrected refresh
      keeps the totals. */
  lemma RemovedHolderRefreshCorruptsTotals()
    ensures var e, a, t := Example(), ExampleRemoved(), ExampleTimeline();
      && Inv(e)
      && !Inv(RefreshRemovedAsWritten(e, a, t))
      && RefreshRemovedAsWritten(e, a, t).windowCount == 2
      && Inv(Refresh(e, 0, t))
  {
    var e, a, t := Example(), ExampleRemoved(), ExampleTimeline();
    ExampleIsValid();
    ExampleAsWrittenCountsTwo();
    RefreshKeepsInv(e, 0, t);
  }

  /** Item B alone in the list, item A removed but holding period 5. */
  function Example(): Engine {
    var b := Holder(1, 1, PLACEHOLDER, 0, 0, 0, false, false, false, []);
    Engine([b], map[0 := ExampleRemoved()], map[5 := OwnedBy(0)], 1, 1, 1, true, false, false, false, [], [], [])
  }

  function ExampleRemoved(): Holder {
    Holder(0, 0, PLACEHOLDER, 0, 0, 0, true, false, true, [Period(5, ConcatUid(0, DummyId), 0)])
  }

  function ExampleTimeline(): Timeline {
    ChildTimeline(7, 2, [ChildUid(0), ChildUid(1)])
  }

  lemma ExampleIsValid()
    ensures Inv(Example())
  {
    var hs := Example().holders;
    assert hs[..0] == [];
    assert LaidAt(hs, 0);
    assert SpanSum(hs, Windows) == 1 by { assert hs[..|hs| - 1] == []; }
  }

  lemma ExampleAsWrittenCountsTwo()
    ensures var r := RefreshRemovedAsWritten(Example(), ExampleRemoved(), ExampleTimeline());
      && r.windowCount == 2 && r.holders == Example().holders
  {
    var hs := Example().holders;
    assert CorrectOffsets(hs, 1, 0, 1, 1) == hs;
  }

  // ------------------------------------------------------------ lifecycle

  /** `prepareSourceInternal`: the source attaches to a player. An empty
      playlist publishes its (empty) timeline at once; otherwise every
      item is added and one notification is scheduled. */
  function Prepare(e: Engine, items: seq<Item>): (r: Engine)
    ensures r.attached && |r.holders| == |e.holders| + |items|
    ensures items == [] ==> r.effects == e.effects + [Publish(Current(e))] && !r.notificationScheduled
    ensures items != [] ==> r.notificationScheduled
  {
    var attached := e.(attached := true);
    if items == [] then
      assert Current(attached) == Current(e);
      NotifyListener(attached)
    else
      Schedule(AddAll(e, 0, items).(attached := true, shuffleLength := e.shuffleLength + |items|), None)
  }

  /** Preparing puts the playlist's items in front of whatever the list
      held. */
  lemma PrepareAdoptsPlaylist(e: Engine, items: seq<Item>)
    ensures Items(Prepare(e, items).holders) == items + Items(e.holders)
  {
    if items != [] {
      ItemsOfAddAll(e, 0, items);
      InsertAtFront(Items(e.holders), items);
    }
  }

  lemma PrepareKeepsInv(e: Engine, items: seq<Item>)
    requires Inv(e)
    ensures Inv(Prepare(e, items))
  {
    if items != [] {
      AddAllKeepsLayout(e, 0, items);
      ScheduleKeepsInv(AddAll(e, 0, items).(attached := true, shuffleLength := e.shuffleLength + |items|), None);
    }
  }

  /** `releaseSourceInternal` as written: the list, the totals and the
      shuffle order are cleared and the player is dropped, but the
      scheduled-notification flag and the waiting actions are kept. */
  function ReleaseAsWritten(e: Engine): (r: Engine)
    ensures Inv(r) && !r.attached && r.holders == []
    ensures r.notificationScheduled == e.notificationScheduled && r.pending == e.pending
  {
    e.(holders := [], windowCount := 0, periodCount := 0, shuffleLength := 0, attached := false)
  }

  /** `releaseSourceInternal` with the notification state reset: no
      notification is left in flight and the waiting actions are posted. */
  function Release(e: Engine): (r: Engine)
    ensures Inv(r) && !r.attached && r.holders == []
    ensures !r.notificationScheduled && r.pending == []
    ensures r.effects == e.effects + PostAll(e.pending)
  {
    e.(holders := [], windowCount := 0, periodCount := 0, shuffleLength := 0, attached := false,
       notificationScheduled := false, pending := [], effects := e.effects + PostAll(e.pending))
  }

  /** As written, a source released while its notification was in flight
      never schedules another one when it is prepared again with items:
      the message that would publish their timeline is never sent. */
  lemma ReprepareAfterReleaseSendsNoNotification(e: Engine, items: seq<Item>)
    requires e.notificationScheduled && items != []
    ensures Prepare(ReleaseAsWritten(e), items).outbox == e.outbox
  {
  }

  /** With the flag reset, preparing again with items always schedules the
      notification that publishes their timeline. */
  lemma ReprepareAfterReleaseNotifies(e: Engine, items: seq<Item>)
    requires items != []
    ensures var r := Prepare(Release(e), items);
      |r.outbox| == |e.outbox| + 1 && r.outbox[|e.outbox|] == NotifyMsg
  {
  }

  // ------------------------------------------------------------ outbox

  /** The messages the source sends to itself: neither touches the list. */
  predicate SelfSent(c: Command) {
    c.NotifyMsg? || c.CompletionMsg?
  }

  predicate OnlySelfSent(q: seq<Command>) {
    forall i :: 0 <= i < |q| ==> SelfSent(q[i])
  }

  /** Handling a message sends at most a notification or a completion
      message, never a list change. */
  lemma HandleMessageSendsOnlySelfSent(e: Engine, cmd: Command)
    requires e.outbox == [] && HandleMessage(e, cmd).Success?
    ensures OnlySelfSent(HandleMessage(e, cmd).value.outbox)
  {
    if e.attached {
      match cmd
        case AddMsg(index, items, action) =>
          assert HandleMessage(e, cmd).value == AddMessage(e, index, items, action);
          ScheduleSendsOnlySelfSent(AddAll(e, index, items).(shuffleLength := e.shuffleLength + |items|), action);
        case RemoveMsg(from, to, action) =>
          if to < from {
            ScheduleSendsOnlySelfSent(e, action);
          } else {
            assert HandleMessage(e, cmd).value == RemoveMessage(e, from, to, action);
            ScheduleSendsOnlySelfSent(
              RemoveRange(e, from, to).(shuffleLength := ShuffleAfterRemove(e.shuffleLength, from, to)), action);
          }
        case MoveMsg(from, to, action) =>
          assert HandleMessage(e, cmd).value == MoveMessage(e, from, to, action);
          ScheduleSendsOnlySelfSent(e.(holders := Move(e.holders, from, to)), action);
        case ShuffleMsg(length, action) =>
          ScheduleSendsOnlySelfSent(e.(shuffleLength := length), action);
        case _ =>
    }
  }

  lemma ScheduleSendsOnlySelfSent(e: Engine, action: Option<nat>)
    requires e.outbox == []
    ensures OnlySelfSent(Schedule(e, action).outbox)
  {
  }

  lemma RefreshSendsOnlySelfSent(e: Engine, uid: nat, t: Timeline)
    requires e.outbox == [] && Laid(e.holders) && t.ChildTimeline?
    ensures OnlySelfSent(Refresh(e, uid, t).outbox)
  {
  }

  lemma PrepareSendsOnlySelfSent(e: Engine, items: seq<Item>)
    requires e.outbox == []
    ensures OnlySelfSent(Prepare(e, items).outbox)
  {
  }
}
