/** The application-thread side of a concatenating source: the public
    playlist (`mediaSourcesPublic`), which every mutation changes at once,
    and the messages that carry each change to the playback thread, where
    the engine applies them in order.

    The player's message queue is `queue`; completion actions the
    application thread runs itself are logged in `ran`. The central fact
    is `Consistent`: replaying the queue over the engine's list gives the
    public list, so once the queue drains the two agree. */
module Playlist {
  import opened Wrappers
  import opened Timelines
  import opened Holders
  import E = Engine

  // ------------------------------------------------------------ replay

  /** The list effect of one message on a list of items; `None` when the
      message does not fit, or carries a shuffle order of the wrong size. */
  function Apply(s: seq<Item>, c: E.Command): (r: Option<seq<Item>>)
    ensures r.Some? <==> E.Fits(|s|, c) && (c.ShuffleMsg? ==> c.length == |s|)
  {
    if E.Fits(|s|, c) && (c.ShuffleMsg? ==> c.length == |s|) then Some(E.ApplyToItems(s, c)) else None
  }

  /** Applying a queue of messages in order, first message first. */
  function Replay(s: seq<Item>, q: seq<E.Command>): Option<seq<Item>>
    decreases |q|
  {
    if q == [] then Some(s)
    else match Apply(s, q[0])
      case None => None
      case Some(t) => Replay(t, q[1..])
  }

  /** Sending one more message replays it after the others. */
  lemma {:induction false} ReplaySnoc(s: seq<Item>, q: seq<E.Command>, c: E.Command)
    ensures Replay(s, q + [c]) == (match Replay(s, q) case None => None case Some(t) => Apply(t, c))
    decreases |q|
  {
    if q == [] {
      assert q + [c] == [c] && [c][1..] == [];
    } else {
      assert (q + [c])[0] == q[0] && (q + [c])[1..] == q[1..] + [c];
      match Apply(s, q[0])
        case None =>
        case Some(t) => ReplaySnoc(t, q[1..], c);
    }
  }

  /** Notifications and completion messages leave the list alone. */
  lemma {:induction false} ReplaySelfSent(s: seq<Item>, t: seq<E.Command>)
    requires E.OnlySelfSent(t)
    ensures Replay(s, t) == Some(s)
    decreases |t|
  {
    if t != [] {
      assert E.OnlySelfSent(t[1..]) by {
        forall i | 0 <= i < |t[1..]| ensures E.SelfSent(t[1..][i]) {
          assert t[1..][i] == t[i + 1];
        }
      }
      ReplaySelfSent(s, t[1..]);
    }
  }

  lemma {:induction false} ReplayAppendSelfSent(s: seq<Item>, q: seq<E.Command>, t: seq<E.Command>)
    requires E.OnlySelfSent(t)
    ensures Replay(s, q + t) == Replay(s, q)
    decreases |q|
  {
    if q == [] {
      assert q + t == t;
      ReplaySelfSent(s, t);
    } else {
      assert (q + t)[0] == q[0] && (q + t)[1..] == q[1..] + t;
      match Apply(s, q[0])
        case None =>
        case Some(u) => ReplayAppendSelfSent(u, q[1..], t);
    }
  }

  // ------------------------------------------------------------ uids

  function Sources(s: seq<Item>): (r: seq<nat>)
    ensures |r| == |s| && forall i :: 0 <= i < |s| ==> r[i] == s[i].source
  {
    seq(|s|, i requires 0 <= i < |s| => s[i].source)
  }

  /** `new MediaSourceHolder(mediaSource)` for each source: every holder
      gets a uid no earlier holder had. */
  function Fresh(sources: seq<nat>, next: nat): (r: seq<Item>)
    ensures Sources(r) == sources
    ensures forall i :: 0 <= i < |r| ==> r[i].uid == next + i
  {
    seq(|sources|, i requires 0 <= i < |sources| => Item(sources[i], next + i))
  }

  /** Every uid was handed out before `next`, and no two items share one. */
  predicate UidsFresh(s: seq<Item>, next: nat) {
    && Distinct(Uids(s))
    && forall i :: 0 <= i < |s| ==> s[i].uid < next
  }

  lemma InsertKeepsUidsFresh(s: seq<Item>, k: nat, sources: seq<nat>, next: nat)
    requires k <= |s| && UidsFresh(s, next)
    ensures UidsFresh(s[..k] + Fresh(sources, next) + s[k..], next + |sources|)
  {
    var f := Fresh(sources, next);
    var r := s[..k] + f + s[k..];
    forall i | 0 <= i < |r| ensures r[i].uid < next + |sources| &&
      (i < k ==> r[i] == s[i]) && (k <= i < k + |f| ==> r[i].uid == next + i - k) &&
      (k + |f| <= i ==> r[i] == s[i - |f|])
    {
    }
    forall i, j | 0 <= i < j < |r| ensures Uids(r)[i] != Uids(r)[j] {
      if j < k || k + |f| <= i || (i < k && k + |f| <= j) {
        var a := if i < k then i else i - |f|;
        var b := if j < k then j else j - |f|;
        assert Uids(s)[a] != Uids(s)[b];
      }
    }
  }

  lemma RemoveKeepsUidsFresh(s: seq<Item>, from: nat, to: nat, next: nat)
    requires from <= to <= |s| && UidsFresh(s, next)
    ensures UidsFresh(s[..from] + s[to..], next)
  {
    var r := s[..from] + s[to..];
    forall i | 0 <= i < |r| ensures r[i] == s[if i < from then i else i + (to - from)] {}
    forall i, j | 0 <= i < j < |r| ensures Uids(r)[i] != Uids(r)[j] {
      var a := if i < from then i else i + (to - from);
      var b := if j < from then j else j + (to - from);
      assert Uids(s)[a] != Uids(s)[b];
    }
  }

  /** Where `MoveItem` takes the element at position `j` from. */
  function MovedFrom(from: nat, to: nat, j: nat): nat {
    if j == to then from
    else if from <= j < to then j + 1
    else if to < j <= from then j - 1
    else j
  }

  lemma MoveKeepsUidsFresh(s: seq<Item>, from: nat, to: nat, next: nat)
    requires from < |s| && to < |s| && UidsFresh(s, next)
    ensures UidsFresh(MoveItem(s, from, to), next)
  {
    var r := MoveItem(s, from, to);
    forall j | 0 <= j < |r| ensures MovedFrom(from, to, j) < |s| && r[j] == s[MovedFrom(from, to, j)] {}
    forall i, j | 0 <= i < j < |r| ensures Uids(r)[i] != Uids(r)[j] {
      var a, b := MovedFrom(from, to, i), MovedFrom(from, to, j);
      assert a != b;
      if a < b { assert Uids(s)[a] != Uids(s)[b]; } else { assert Uids(s)[b] != Uids(s)[a]; }
    }
  }

  // ------------------------------------------------------------ system

  datatype System = System(
    items: seq<Item>,              // mediaSourcesPublic
    engine: E.Engine,
    queue: seq<E.Command>,         // messages on their way to the playback thread
    ran: seq<nat>,                 // completion actions run on the calling thread
    nextUid: nat)

  /** The public list is what the engine's list becomes once every queued
      message is applied; a released source holds nothing and owes no
      notification. */
  predicate Consistent(sys: System) {
    var e := sys.engine;
    && E.Inv(e) && e.outbox == []
    && UidsFresh(sys.items, sys.nextUid)
    && (e.attached ==> Replay(Items(e.holders), sys.queue) == Some(sys.items))
    && (!e.attached ==> e.holders == [] && !e.notificationScheduled && e.pending == [])
  }

  /** Once the queue is empty the engine's list is the public list. */
  lemma DrainedEngineMatchesPlaylist(sys: System)
    requires Consistent(sys) && sys.engine.attached && sys.queue == []
    ensures Items(sys.engine.holders) == sys.items
  {
  }

  function Send(sys: System, c: E.Command): (r: System)
    ensures r.queue == sys.queue + [c]
  {
    sys.(queue := sys.queue + [c])
  }

  function RunInline(sys: System, action: Option<nat>): (r: System)
    ensures r.ran == sys.ran + E.OptionList(action)
  {
    sys.(ran := sys.ran + E.OptionList(action))
  }

  /** The constructor: the sources become the playlist, nothing is sent. */
  function Create(lazyPreparation: bool, isAtomic: bool, sources: seq<nat>): (r: System)
    ensures Consistent(r) && Sources(r.items) == sources && !r.engine.attached
    ensures r.engine.lazyPreparation == lazyPreparation && r.engine.isAtomic == isAtomic
  {
    var r := System(Fresh(sources, 0), E.Initial(lazyPreparation, isAtomic), [], [], |sources|);
    InsertKeepsUidsFresh([], 0, sources, 0);
    assert [][..0] + Fresh(sources, 0) + [][0..] == Fresh(sources, 0);
    r
  }

  // ------------------------------------------------------------ mutations

  /** `addMediaSources(index, mediaSources, actionOnCompletion)`. */
  function AddMediaSources(sys: System, index: int, sources: seq<nat>, action: Option<nat>): (r: Result<System>)
    ensures r.Failure? <==> !(0 <= index <= |sys.items|)
    ensures r.Failure? ==> r.error == IndexOutOfBounds
    ensures r.Success? ==>
      var added := Fresh(sources, sys.nextUid);
      && r.value.items == sys.items[..index] + added + sys.items[index..]
      && r.value.engine == sys.engine
      && (sys.engine.attached && sources != [] ==>
            r.value.queue == sys.queue + [E.AddMsg(index, added, action)] && r.value.ran == sys.ran)
      && (!sys.engine.attached || sources == [] ==>
            r.value.queue == sys.queue && r.value.ran == sys.ran + E.OptionList(action))
  {
    if !(0 <= index <= |sys.items|) then Failure(IndexOutOfBounds)
    else
      var added := Fresh(sources, sys.nextUid);
      var grown := sys.(items := sys.items[..index] + added + sys.items[index..], nextUid := sys.nextUid + |sources|);
      if sys.engine.attached && sources != [] then Success(Send(grown, E.AddMsg(index, added, action)))
      else Success(RunInline(grown, action))
  }

  /** `removeMediaSourceRange(fromIndex, toIndex, actionOnCompletion)`;
      an empty range removes nothing and runs the action at once. */
  function RemoveMediaSourceRange(sys: System, from: int, to: int, action: Option<nat>): (r: Result<System>)
    ensures r.Failure? <==> !(0 <= from <= to <= |sys.items|)
    ensures r.Failure? ==> r.error == IllegalArgument
    ensures r.Success? ==>
      && r.value.items == sys.items[..from] + sys.items[to..]
      && r.value.engine == sys.engine
      && (sys.engine.attached && from != to ==>
            r.value.queue == sys.queue + [E.RemoveMsg(from, to, action)] && r.value.ran == sys.ran)
      && (!sys.engine.attached || from == to ==>
            r.value.queue == sys.queue && r.value.ran == sys.ran + E.OptionList(action))
  {
    if !(0 <= from <= to <= |sys.items|) then Failure(IllegalArgument)
    else
      var shrunk := sys.(items := sys.items[..from] + sys.items[to..]);
      if from == to then Success(RunInline(shrunk, action))
      else if sys.engine.attached then Success(Send(shrunk, E.RemoveMsg(from, to, action)))
      else Success(RunInline(shrunk, action))
  }

  /** `clear(actionOnCompletion)`: never fails, and leaves the playlist empty. */
  function Clear(sys: System, action: Option<nat>): (r: System)
    ensures r.items == [] && r.engine == sys.engine
    ensures sys.engine.attached && sys.items != [] ==>
      r.queue == sys.queue + [E.RemoveMsg(0, |sys.items|, action)] && r.ran == sys.ran
  {
    RemoveMediaSourceRange(sys, 0, |sys.items|, action).value
  }

  /** A thrown exception together with the state it leaves behind. */
  datatype Outcome = Outcome(sys: System, thrown: Option<Error>)

  /** `moveMediaSource(currentIndex, newIndex, actionOnCompletion)` as
      written: equal indices return before anything else happens, so the
      action is never run. An invalid `newIndex` throws after the item has
      already been taken out of the public list. */
  function MoveMediaSourceAsWritten(sys: System, from: int, to: int, action: Option<nat>): (r: Outcome)
    ensures from == to ==> r == Outcome(sys, None)
    ensures from != to && !(0 <= from < |sys.items|) ==> r == Outcome(sys, Some(IndexOutOfBounds))
    ensures from != to && 0 <= from < |sys.items| && !(0 <= to < |sys.items|) ==>
      r.thrown == Some(IndexOutOfBounds) && r.sys.items == sys.items[..from] + sys.items[from + 1..]
    ensures from != to && 0 <= from < |sys.items| && 0 <= to < |sys.items| ==>
      && r.thrown == None
      && r.sys.items == MoveItem(sys.items, from, to)
      && (sys.engine.attached ==> r.sys.queue == sys.queue + [E.MoveMsg(from, to, action)] && r.sys.ran == sys.ran)
      && (!sys.engine.attached ==> r.sys.queue == sys.queue && r.sys.ran == sys.ran + E.OptionList(action))
  {
    if from == to then Outcome(sys, None)
    else MoveChecked(sys, from, to, action)
  }

  /** The part of `moveMediaSource` after the equal-index test. */
  function MoveChecked(sys: System, from: int, to: int, action: Option<nat>): (r: Outcome)
    ensures !(0 <= from < |sys.items|) ==> r == Outcome(sys, Some(IndexOutOfBounds))
    ensures 0 <= from < |sys.items| && !(0 <= to < |sys.items|) ==>
      r.thrown == Some(IndexOutOfBounds) && r.sys.items == sys.items[..from] + sys.items[from + 1..]
    ensures 0 <= from < |sys.items| && 0 <= to < |sys.items| ==>
      && r.thrown == None
      && r.sys.items == MoveItem(sys.items, from, to)
      && r.sys.engine == sys.engine && r.sys.nextUid == sys.nextUid
      && (sys.engine.attached ==> r.sys.queue == sys.queue + [E.MoveMsg(from, to, action)] && r.sys.ran == sys.ran)
      && (!sys.engine.attached ==> r.sys.queue == sys.queue && r.sys.ran == sys.ran + E.OptionList(action))
  {
    if !(0 <= from < |sys.items|) then Outcome(sys, Some(IndexOutOfBounds))
    else
      var rest := sys.items[..from] + sys.items[from + 1..];
      if !(0 <= to <= |rest|) then Outcome(sys.(items := rest), Some(IndexOutOfBounds))
      else
        var moved := sys.(items := rest[..to] + [sys.items[from]] + rest[to..]);
        if sys.engine.attached then Outcome(Send(moved, E.MoveMsg(from, to, action)), None)
        else Outcome(RunInline(moved, action), None)
  }

  /** `moveMediaSource` with the action run for equal indices too, as its
      documentation promises ("executed immediately after the media source
      has been moved"). */
  function MoveMediaSource(sys: System, from: int, to: int, action: Option<nat>): (r: Outcome)
    ensures from == to ==> r == Outcome(RunInline(sys, action), None)
    ensures from != to ==> r == MoveMediaSourceAsWritten(sys, from, to, action)
  {
    if from == to then Outcome(RunInline(sys, action), None)
    else MoveChecked(sys, from, to, action)
  }

  /** As written, moving an item onto its own position drops its action. */
  lemma MoveToSameIndexDropsAction(sys: System, i: int, action: nat)
    ensures var r := MoveMediaSourceAsWritten(sys, i, i, Some(action)).sys;
      r.ran == sys.ran && r.queue == sys.queue
  {
  }

  /** A move that does not throw always completes: its action is either run
      at once or travels with the message that applies it. */
  lemma MoveAlwaysCompletes(sys: System, from: int, to: int, action: nat)
    requires MoveMediaSource(sys, from, to, Some(action)).thrown == None
    ensures var r := MoveMediaSource(sys, from, to, Some(action)).sys;
      || r.ran == sys.ran + [action]
      || (r.ran == sys.ran && r.queue == sys.queue + [E.MoveMsg(from, to, Some(action))])
  {
  }

  /** `setShuffleOrder(shuffleOrder, actionOnCompletion)`, with the order
      reduced to its length: a prepared source resizes a mismatched order
      to the playlist and sends it; an unprepared one keeps it cleared. */
  function SetShuffleOrder(sys: System, length: nat, action: Option<nat>): (r: System)
    ensures r.items == sys.items
    ensures sys.engine.attached ==>
      r.queue == sys.queue + [E.ShuffleMsg(|sys.items|, action)] && r.engine == sys.engine && r.ran == sys.ran
    ensures !sys.engine.attached ==>
      r.engine.shuffleLength == 0 && r.ran == sys.ran + E.OptionList(action) && r.queue == sys.queue
  {
    if sys.engine.attached then
      Send(sys, E.ShuffleMsg(if length != |sys.items| then |sys.items| else length, action))
    else
      RunInline(sys.(engine := sys.engine.(shuffleLength := 0)), action)
  }

  /** `getSize`. */
  function GetSize(sys: System): (r: nat)
    ensures r == |Sources(sys.items)|
  {
    |sys.items|
  }

  /** `getMediaSource(index)`: the documentation allows `index == getSize()`,
      but the list access throws there. */
  function GetMediaSource(sys: System, index: int): (r: Result<nat>)
    ensures r.Success? <==> 0 <= index < GetSize(sys)
    ensures r.Success? ==> r.value == Sources(sys.items)[index]
    ensures r.Failure? ==> r.error == IndexOutOfBounds
  {
    if 0 <= index < |sys.items| then Success(sys.items[index].source) else Failure(IndexOutOfBounds)
  }

  // ------------------------------------------------------------ playback thread

  /** Hands the messages the engine sent itself to the player's queue. */
  function Drain(sys: System, e: E.Engine): (r: System)
    ensures r.engine == e.(outbox := []) && r.queue == sys.queue + e.outbox
    ensures r.items == sys.items && r.ran == sys.ran && r.nextUid == sys.nextUid
  {
    sys.(engine := e.(outbox := []), queue := sys.queue + e.outbox)
  }

  /** `prepareSource` on the source: a source that already has a player
      only gains a listener; otherwise the engine adopts the public list.
      Every message still queued from an earlier life reaches a released
      source and is ignored, so the queue starts afresh. */
  function Prepare(sys: System): (r: System)
    ensures r.engine.attached && r.items == sys.items
    ensures !sys.engine.attached ==> Items(r.engine.holders) == sys.items + Items(sys.engine.holders)
  {
    if sys.engine.attached then sys
    else
      E.PrepareAdoptsPlaylist(sys.engine, sys.items);
      Drain(sys.(queue := []), E.Prepare(sys.engine, sys.items))
  }

  /** `releaseSource`, with the notification state reset (see
      `Engine.Release`); the queue is dropped. */
  function Release(sys: System): (r: System)
    ensures !r.engine.attached && r.engine.holders == [] && r.queue == [] && r.items == sys.items
    ensures !r.engine.notificationScheduled && r.engine.pending == []
  {
    sys.(engine := E.Release(sys.engine), queue := [])
  }

  /** `releaseSource` as written. */
  function ReleaseAsWritten(sys: System): (r: System)
    ensures !r.engine.attached && r.engine.holders == [] && r.queue == [] && r.items == sys.items
    ensures r.engine.notificationScheduled == sys.engine.notificationScheduled
    ensures r.engine.pending == sys.engine.pending
  {
    sys.(engine := E.ReleaseAsWritten(sys.engine), queue := [])
  }

  /** The player delivers the first queued message. */
  function Step(sys: System): (r: Result<System>)
    requires sys.queue != []
    ensures r.Failure? <==> E.HandleMessage(sys.engine, sys.queue[0]).Failure?
    ensures r.Success? ==> r.value.items == sys.items && |r.value.queue| >= |sys.queue| - 1
  {
    var handled :- E.HandleMessage(sys.engine, sys.queue[0]);
    Success(Drain(sys.(queue := sys.queue[1..]), handled))
  }

  /** `createPeriod` from the player. */
  function CreatePeriod(sys: System, handle: nat, id: ConcatUid, windowSequence: int): (r: System)
    requires handle !in sys.engine.owners
    ensures handle in r.engine.owners && r.items == sys.items && r.queue == sys.queue
  {
    sys.(engine := E.CreatePeriod(sys.engine, handle, id, windowSequence))
  }

  /** `releasePeriod` from the player. */
  function ReleasePeriod(sys: System, handle: nat): (r: Result<System>)
    ensures r.Failure? <==> handle !in sys.engine.owners
    ensures r.Success? ==> handle !in r.value.engine.owners && r.value.items == sys.items && r.value.queue == sys.queue
  {
    var e :- E.ReleasePeriod(sys.engine, handle);
    Success(sys.(engine := e))
  }

  /** A child reports a timeline. Children report only while the source
      is prepared: releasing the source releases them. */
  function Refresh(sys: System, uid: nat, t: Timeline): (r: System)
    requires sys.engine.attached && Laid(sys.engine.holders) && t.ChildTimeline?
    ensures r.items == sys.items && Items(r.engine.holders) == Items(sys.engine.holders)
  {
    Drain(sys, E.Refresh(sys.engine, uid, t))
  }

  // ------------------------------------------------------------ consistency

  lemma AddKeepsConsistent(sys: System, index: int, sources: seq<nat>, action: Option<nat>)
    requires Consistent(sys) && AddMediaSources(sys, index, sources, action).Success?
    ensures Consistent(AddMediaSources(sys, index, sources, action).value)
  {
    var r := AddMediaSources(sys, index, sources, action).value;
    InsertKeepsUidsFresh(sys.items, index, sources, sys.nextUid);
    var added := Fresh(sources, sys.nextUid);
    if sys.engine.attached && sources != [] {
      var c := E.AddMsg(index, added, action);
      ReplaySnoc(Items(sys.engine.holders), sys.queue, c);
      assert Apply(sys.items, c) == Some(r.items);
    } else if sources == [] {
      assert sys.items[..index] + added + sys.items[index..] == sys.items;
    }
  }

  lemma RemoveKeepsConsistent(sys: System, from: int, to: int, action: Option<nat>)
    requires Consistent(sys) && RemoveMediaSourceRange(sys, from, to, action).Success?
    ensures Consistent(RemoveMediaSourceRange(sys, from, to, action).value)
  {
    RemoveKeepsUidsFresh(sys.items, from, to, sys.nextUid);
    if sys.engine.attached && from != to {
      ReplaySnoc(Items(sys.engine.holders), sys.queue, E.RemoveMsg(from, to, action));
    } else if from == to {
      assert sys.items[..from] + sys.items[to..] == sys.items;
    }
  }

  lemma MoveKeepsConsistent(sys: System, from: int, to: int, action: Option<nat>)
    requires Consistent(sys)
    requires MoveMediaSource(sys, from, to, action).thrown == None
    ensures Consistent(MoveMediaSource(sys, from, to, action).sys)
  {
    if from != to {
      MoveKeepsUidsFresh(sys.items, from, to, sys.nextUid);
      if sys.engine.attached {
        ReplaySnoc(Items(sys.engine.holders), sys.queue, E.MoveMsg(from, to, action));
      }
    }
  }

  lemma SetShuffleOrderKeepsConsistent(sys: System, length: nat, action: Option<nat>)
    requires Consistent(sys)
    ensures Consistent(SetShuffleOrder(sys, length, action))
  {
    if sys.engine.attached {
      ReplaySnoc(Items(sys.engine.holders), sys.queue, E.ShuffleMsg(|sys.items|, action));
    }
  }

  lemma PrepareKeepsConsistent(sys: System)
    requires Consistent(sys)
    ensures Consistent(Prepare(sys))
  {
    if !sys.engine.attached {
      var e := E.Prepare(sys.engine, sys.items);
      E.PrepareKeepsInv(sys.engine, sys.items);
      E.PrepareSendsOnlySelfSent(sys.engine, sys.items);
      E.PrepareAdoptsPlaylist(sys.engine, sys.items);
      assert Items(e.holders) == sys.items;
      ReplaySelfSent(sys.items, e.outbox);
      assert [] + e.outbox == e.outbox;
    }
  }

  lemma ReleaseKeepsConsistent(sys: System)
    requires Consistent(sys)
    ensures Consistent(Release(sys))
  {
  }

  /** Every queued message fits the list it reaches, so delivering one never
      fails, and consistency survives it. */
  lemma StepKeepsConsistent(sys: System)
    requires Consistent(sys) && sys.queue != []
    ensures Step(sys).Success?
    ensures Consistent(Step(sys).value)
  {
    var e := sys.engine;
    var c := sys.queue[0];
    if e.attached {
      var s := Items(e.holders);
      assert Apply(s, c).Some?;
      E.HandleMessageAppliesItems(e, c);
      E.HandleMessageKeepsInv(e, c);
      var handled := E.HandleMessage(e, c).value;
      E.HandleMessageSendsOnlySelfSent(e, c);
      ReplayAppendSelfSent(Items(handled.holders), sys.queue[1..], handled.outbox);
    }
  }

  lemma CreatePeriodKeepsConsistent(sys: System, handle: nat, id: ConcatUid, windowSequence: int)
    requires Consistent(sys) && handle !in sys.engine.owners
    ensures Consistent(CreatePeriod(sys, handle, id, windowSequence))
  {
    E.CreatePeriodKeepsInv(sys.engine, handle, id, windowSequence);
  }

  lemma ReleasePeriodKeepsConsistent(sys: System, handle: nat)
    requires Consistent(sys) && handle in sys.engine.owners
    ensures Consistent(ReleasePeriod(sys, handle).value)
  {
    E.ReleasePeriodKeepsInv(sys.engine, handle);
  }

  lemma RefreshKeepsConsistent(sys: System, uid: nat, t: Timeline)
    requires Consistent(sys) && sys.engine.attached && t.ChildTimeline?
    ensures Consistent(Refresh(sys, uid, t))
  {
    var e := E.Refresh(sys.engine, uid, t);
    E.RefreshKeepsInv(sys.engine, uid, t);
    E.RefreshSendsOnlySelfSent(sys.engine, uid, t);
    ReplayAppendSelfSent(Items(e.holders), sys.queue, e.outbox);
  }

  // ------------------------------------------------------------ re-preparation

  /** As written, a source released while a notification was on its way
      and then prepared again with a non-empty playlist queues nothing at
      all: its timeline is never published. */
  lemma ReprepareAsWrittenNeverNotifies(sys: System)
    requires Consistent(sys) && sys.engine.notificationScheduled && sys.items != []
    ensures Prepare(ReleaseAsWritten(sys)).queue == []
  {
  }

  /** With the notification state reset on release, preparing again queues
      exactly the notification that publishes the playlist. */
  lemma ReprepareNotifies(sys: System)
    requires Consistent(sys) && sys.items != []
    ensures Prepare(Release(sys)).queue == [E.NotifyMsg]
  {
  }
}
