# Concatenating playlist and APE header decoding, in Dafny

This project models two parts of an Android audio player built on ExoPlayer.

**The concatenating media source** (`ConcatenatingMediaSource`) plays an
ordered, mutable list of child media sources as one timeline. It has two
halves:

- The application thread keeps a public list (`mediaSourcesPublic`). Every
  mutation changes that list at once, and sends a message describing the
  change to the playback thread.
- The playback thread keeps the real holder list (`mediaSourceHolders`).
  - Each holder records its position (`childIndex`) and where its windows
    and periods start in the concatenation (`firstWindowIndexInChild`,
    `firstPeriodIndexInChild`).
  - The running totals (`windowCount`, `periodCount`) sit beside the list.
  - Each holder also has a `DeferredTimeline`. This wrapper keeps the
    placeholder period uid of an unprepared child stable after the child's
    real timeline arrives.
  - The thread publishes `ConcatenatedTimeline` snapshots, which resolve
    global window and period indices back to a child by a floor search.

**The Monkey's Audio (APE) reader** recognises an APE stream by its
`"MAC "` magic. It then decodes one of two layouts:

- the 52-byte `APEDescriptor` followed by the 24-byte `APEHeaderNew`, for
  version 3.98 and later;
- the 32-byte `APEHeaderOld`, for earlier versions.

Either way it fills an `APEFileInfo` with block counts, sizes, duration and
bitrate. All integers are read little-endian through `ExtractorInputWrapper`.

The Dafny modules follow the source:

| module | file | models |
|---|---|---|
| `Wrappers` | `wrappers.dfy` | `Result`/`Option`; Java exceptions become `Failure(kind)` |
| `JavaInt` | `java_int.dfy` | Java's `byte`/`short`/`int`/`long` casts and truncating division |
| `Timelines` | `timelines.dfy` | `DummyTimeline`, child timelines, `DeferredTimeline` |
| `Holders` | `holders.dfy` | `MediaSourceHolder`, `correctOffsets` and the add/remove/move/refresh list effects |
| `Concatenation` | `concatenation.dfy` | `ConcatenatedTimeline`, `binarySearchFloor`, the period-uid translations |
| `Engine` | `engine.dfy` | the playback-thread state, `handleMessage`, `createPeriod`/`releasePeriod`, `onChildSourceInfoRefreshed`, prepare and release |
| `Playlist` | `playlist.dfy` | the public API on the application thread, the message queue, and the invariant linking the two threads |
| `ExtractorInput` | `extractor_input.dfy` | the byte source: data, read cursor, peek cursor |
| `InputWrapper` | `extractor_input_wrapper.dfy` | `ExtractorInputWrapper`'s little-endian decoders and `readString` |
| `ApeDescriptor`, `ApeHeaderNew`, `ApeHeaderOld` | `ape_descriptor.dfy`, `ape_header_new.dfy`, `ape_header_old.dfy` | the three header parsers |
| `ApeReader` | `ape_reader.dfy` | `sniff`, `read`, `readNew`, `readOld`, `APEFileInfo`, the compression-level constant `COMPRESSION_LEVEL_EXTRA_HIGH = 4000` |

Side effects are recorded rather than performed:

- Calls out of the concatenating source are appended to an `effects` log as
  `Effect`s. These are preparing or releasing a child, creating or releasing
  a child period, publishing a timeline, and posting a completion action.
- Messages the source sends to itself go to an `outbox`.
- The player's message queue is a sequence of `Command`s.

Where the code evidently differs from what its authors meant, the model keeps
both versions:

- a member for the code as written;
- a corrected member, which the rest of the model uses.

Both are listed under "## Findings". On the APE side, every reading operation
takes a `Variant` (`AsWritten` or `Intended`) that selects which parsers are
composed.

Error paths of the public methods, as the code has them:

- **Exception kinds.** An invalid index in `addMediaSources` or
  `moveMediaSource` throws `IndexOutOfBoundsException`, from the list
  access in `ConcatenatingMediaSource.java`. An invalid range in
  `removeMediaSourceRange` throws `IllegalArgumentException`, from
  `Util.removeRange`.
- **Move with an invalid target.** `moveMediaSource` with a valid
  `currentIndex` but an invalid `newIndex` throws only after it has taken
  the item out of the public list (`Playlist.MoveMediaSourceAsWritten`).
- **Move to the same index.** `moveMediaSource(i, i, action)` returns at
  lines 364-366 without running `action`, although its Javadoc says the
  action runs once the move is done (Finding 7).
- **`getMediaSource` at the end.** The Javadoc of `getMediaSource` allows
  `index == getSize()`, but the list access throws there
  (`Playlist.GetMediaSource`).

## Model

| member | source | states |
|---|---|---|
| Timelines.CloneWithNewTimeline | ExoPlayer/library/core/src/main/java/com/google/android/exoplayer2/source/ConcatenatingMediaSource.java:919-925 | The clone wraps the new timeline. A wrapper still on the placeholder adopts the first period uid of the new timeline, if it has periods. Once set, `replacedId` never changes. A valid wrapper stays valid: distinct child uids, and a placeholder id only over the dummy timeline. |
| Timelines.UidOfPeriodRoundTrip | ExoPlayer/library/core/src/main/java/com/google/android/exoplayer2/source/ConcatenatingMediaSource.java:940-949 | For every period, looking up the uid the deferred timeline reports for it finds that same period. |
| Timelines.IndexOfPeriodRoundTrip | ExoPlayer/library/core/src/main/java/com/google/android/exoplayer2/source/ConcatenatingMediaSource.java:941-943 | Any uid that finds a period is the uid reported for that period, except that `replacedId` itself is reported as `DUMMY_ID`. |
| Timelines.PlaceholderSurvivesPreparation | ExoPlayer/library/core/src/main/java/com/google/android/exoplayer2/source/ConcatenatingMediaSource.java:899-925 | A fresh deferred timeline finds `DUMMY_ID` at period 0. After the first real timeline with periods arrives, `DUMMY_ID` still finds period 0, and period 0 is still reported as `DUMMY_ID`. |
| Timelines.ReplacedIdIsSticky | ExoPlayer/library/core/src/main/java/com/google/android/exoplayer2/source/ConcatenatingMediaSource.java:919-925 | After a first timeline with periods, no later timeline changes `replacedId`. |
| Holders.CorrectOffsets | ExoPlayer/library/core/src/main/java/com/google/android/exoplayer2/source/ConcatenatingMediaSource.java:735-744 | Holders before `startIndex` are untouched. Every holder from it on moves its child index, first window and first period by the three deltas. |
| Holders.ItemsOfCorrectOffsets | ExoPlayer/library/core/src/main/java/com/google/android/exoplayer2/source/ConcatenatingMediaSource.java:739-743 | Correcting offsets never changes which items are listed, or their order. |
| Holders.AddHolder | ExoPlayer/library/core/src/main/java/com/google/android/exoplayer2/source/ConcatenatingMediaSource.java:646-668 | The new holder sits at `k`. It has no periods and is not prepared. It has started preparing only when preparation is eager. Earlier holders are unchanged. Every later holder moves one position up and by the new holder's window and period counts. |
| Holders.ItemsOfAdd | ExoPlayer/library/core/src/main/java/com/google/android/exoplayer2/source/ConcatenatingMediaSource.java:662 | The item list gains exactly the new item, at position `k`. |
| Holders.AddKeepsLayout | ExoPlayer/library/core/src/main/java/com/google/android/exoplayer2/source/ConcatenatingMediaSource.java:646-661 | Suppose every holder knows its position and starts at the totals of the holders before it. That stays true after an add, and the totals grow by the new holder's counts. |
| Holders.LaidIffContiguous | ExoPlayer/library/core/src/main/java/com/google/android/exoplayer2/source/ConcatenatingMediaSource.java:647-656 | The prefix-sum layout is equivalent to the local rule the add uses: the first holder starts at zero, and each holder starts where its predecessor ends. |
| Holders.RemoveHolder | ExoPlayer/library/core/src/main/java/com/google/android/exoplayer2/source/ConcatenatingMediaSource.java:705-713 | The holder at `k` leaves. Earlier holders are unchanged. Later ones move back one position and by the removed holder's counts. |
| Holders.ItemsOfRemove | ExoPlayer/library/core/src/main/java/com/google/android/exoplayer2/source/ConcatenatingMediaSource.java:706 | Exactly the item at `k` leaves the item list. |
| Holders.RemoveKeepsLayout | ExoPlayer/library/core/src/main/java/com/google/android/exoplayer2/source/ConcatenatingMediaSource.java:705-713 | A removal keeps the layout, and the totals shrink by the removed holder's counts. |
| Holders.RemoveUndoesAdd | ExoPlayer/library/core/src/main/java/com/google/android/exoplayer2/source/ConcatenatingMediaSource.java:646-713 | Removing the holder just added at `k` restores the original list, offsets included. |
| Holders.MoveItem | ExoPlayer/library/core/src/main/java/com/google/android/exoplayer2/source/ConcatenatingMediaSource.java:725 | `add(to, remove(from))`: the element from `from` lands at `to`, the elements between them close up, and the rest stay where they were. |
| Holders.MoveItemRoundTrip | ExoPlayer/library/core/src/main/java/com/google/android/exoplayer2/source/ConcatenatingMediaSource.java:725 | Moving the element back from `to` to `from` restores the list. |
| Holders.Restack | ExoPlayer/library/core/src/main/java/com/google/android/exoplayer2/source/ConcatenatingMediaSource.java:726-732 | Inside the rewritten range, each holder starts at the range's start offset plus the counts of the range's holders before it. Nothing outside the range changes, and no timeline changes. `childIndex` is rewritten only in the corrected variant. |
| Holders.MoveAsWritten | ExoPlayer/library/core/src/main/java/com/google/android/exoplayer2/source/ConcatenatingMediaSource.java:720-733 | The move as written reorders the items exactly as `MoveItem` does. |
| Holders.Move | ExoPlayer/library/core/src/main/java/com/google/android/exoplayer2/source/ConcatenatingMediaSource.java:721-725 | The corrected move reorders the items exactly as `MoveItem` does. |
| Holders.MovePlacesHolder | ExoPlayer/library/core/src/main/java/com/google/android/exoplayer2/source/ConcatenatingMediaSource.java:723-732 | Either variant of the move leaves every holder starting at the total of the holders before it. |
| Holders.MoveKeepsTotal | ExoPlayer/library/core/src/main/java/com/google/android/exoplayer2/source/ConcatenatingMediaSource.java:726-731 | A move never changes the window or period totals. |
| Holders.MoveFixesIndex | ExoPlayer/library/core/src/main/java/com/google/android/exoplayer2/source/ConcatenatingMediaSource.java:726-729 | After the corrected move, every holder's `childIndex` is its position. |
| Holders.MoveKeepsLayout | ExoPlayer/library/core/src/main/java/com/google/android/exoplayer2/source/ConcatenatingMediaSource.java:720-733 | The corrected move keeps the full layout and the totals. |
| Holders.MoveAsWrittenKeepsStaleIndex | ExoPlayer/library/core/src/main/java/com/google/android/exoplayer2/source/ConcatenatingMediaSource.java:727-729 | As written, a move between distinct positions leaves the moved holder claiming its old position, so the layout no longer holds. |
| Holders.RefreshAt | ExoPlayer/library/core/src/main/java/com/google/android/exoplayer2/source/ConcatenatingMediaSource.java:678-687 | The holder at `k` takes the new timeline. Holders after its recorded `childIndex` shift by the change in its window and period counts; the others are unchanged. The items are unchanged. |
| Holders.RefreshKeepsLayout | ExoPlayer/library/core/src/main/java/com/google/android/exoplayer2/source/ConcatenatingMediaSource.java:680-687 | When the holder's `childIndex` is right, a refresh keeps the layout and moves the totals by the change in the holder's own counts. |
| Holders.StaleIndexMisplacesRefresh | ExoPlayer/library/core/src/main/java/com/google/android/exoplayer2/source/ConcatenatingMediaSource.java:681-685 | Take a forward move as written, then a refresh that changes the moved holder's window count. The list is then no longer laid out. |
| Holders.RefreshShiftsPastStaleIndex | ExoPlayer/library/core/src/main/java/com/google/android/exoplayer2/source/ConcatenatingMediaSource.java:682 | A refresh of a holder that claims an earlier position shifts a holder that lies before it. That breaks the layout. |
| Concatenation.FloorIndex | ExoPlayer/library/core/src/main/java/com/google/android/exoplayer2/source/ConcatenatingMediaSource.java:852-860 | The result is an index whose element is below the bound, or -1. Every element after it is at or above the bound. |
| Concatenation.FloorIndexUnique | ExoPlayer/library/core/src/main/java/com/google/android/exoplayer2/source/ConcatenatingMediaSource.java:854 | Those two conditions determine the floor index: any index meeting them is it. |
| Concatenation.FloorIndexMonotone | ExoPlayer/library/core/src/main/java/com/google/android/exoplayer2/source/ConcatenatingMediaSource.java:859 | A larger bound never finds an earlier index. |
| Concatenation.BinarySearchFloor | ExoPlayer/library/core/src/main/java/com/google/android/exoplayer2/source/ConcatenatingMediaSource.java:853-855 | On a sorted array, the binary search returns the floor index. |
| Concatenation.ChildIndexMap | ExoPlayer/library/core/src/main/java/com/google/android/exoplayer2/source/ConcatenatingMediaSource.java:841-849 | The keys are exactly the listed uids. Each maps to a position that holds that uid, and no later position holds it: a repeated uid keeps its last position. |
| Concatenation.Snap | ExoPlayer/library/core/src/main/java/com/google/android/exoplayer2/source/ConcatenatingMediaSource.java:827-850 | The snapshot holds each holder's first indices, timeline and uid, position by position, indexes those uids, and carries the totals it was given. |
| Concatenation.ChildIndexByChildUid | ExoPlayer/library/core/src/main/java/com/google/android/exoplayer2/source/ConcatenatingMediaSource.java:862-866 | The result is `INDEX_UNSET` exactly for a uid the snapshot does not hold. Otherwise it is a position holding that uid. |
| Concatenation.ChildUidRoundTrip | ExoPlayer/library/core/src/main/java/com/google/android/exoplayer2/source/ConcatenatingMediaSource.java:863-865 | With distinct uids, looking up child `i`'s uid gives back `i`. |
| Concatenation.SnapshotIsSorted | ExoPlayer/library/core/src/main/java/com/google/android/exoplayer2/source/ConcatenatingMediaSource.java:843-849 | A snapshot of a laid-out list has non-decreasing first indices, which is what the floor search requires. |
| Concatenation.FloorFindsCoveringHolder | ExoPlayer/library/core/src/main/java/com/google/android/exoplayer2/source/ConcatenatingMediaSource.java:852-860 | In a laid-out list, every global index below the total resolves to a holder whose span covers it. |
| Concatenation.PeriodResolvesToItsChild | ExoPlayer/library/core/src/main/java/com/google/android/exoplayer2/source/ConcatenatingMediaSource.java:852-855 | Every period index below the period total resolves to the child whose periods cover it. |
| Concatenation.WindowResolvesToItsChild | ExoPlayer/library/core/src/main/java/com/google/android/exoplayer2/source/ConcatenatingMediaSource.java:857-860 | Every window index below the window total resolves to the child whose windows cover it. |
| Concatenation.FloorFindsOwner | ExoPlayer/library/core/src/main/java/com/google/android/exoplayer2/source/ConcatenatingMediaSource.java:853-860 | Any index inside holder `c`'s span resolves to `c`. |
| Concatenation.ChildPeriodsResolveToChild | ExoPlayer/library/core/src/main/java/com/google/android/exoplayer2/source/ConcatenatingMediaSource.java:873-876 | Every period of child `c`, offset by `c`'s first period, resolves back to `c`. |
| Concatenation.ChildWindowsResolveToChild | ExoPlayer/library/core/src/main/java/com/google/android/exoplayer2/source/ConcatenatingMediaSource.java:544-547 | Every window of child `c`, translated into the concatenation, resolves back to `c`. |
| Concatenation.WindowIndexForChild | ExoPlayer/library/core/src/main/java/com/google/android/exoplayer2/source/ConcatenatingMediaSource.java:544-547 | In any laid-out list that holds the holder at position `c`, the concatenated index of each of the holder's windows resolves back to `c`. |
| Concatenation.PeriodUid | ExoPlayer/library/core/src/main/java/com/google/android/exoplayer2/source/ConcatenatingMediaSource.java:757-762 | The concatenated uid names the holder. It never carries the holder's bare `replacedId`: that is shown as `DUMMY_ID`. |
| Concatenation.ChildUidSurvivesConcatenation | ExoPlayer/library/core/src/main/java/com/google/android/exoplayer2/source/ConcatenatingMediaSource.java:752-762 | A child uid translated into a concatenated uid and back comes out unchanged. |
| Concatenation.ConcatUidSurvivesChild | ExoPlayer/library/core/src/main/java/com/google/android/exoplayer2/source/ConcatenatingMediaSource.java:752-755 | Take any concatenated uid of the holder that the concatenation can show. Translated to the child and back, it comes out unchanged. |
| Concatenation.MediaPeriodIdForChild | ExoPlayer/library/core/src/main/java/com/google/android/exoplayer2/source/ConcatenatingMediaSource.java:529-541 | A child's period id is translated exactly when one of the holder's active periods has the same window sequence number. It then becomes the holder's concatenated uid with that sequence number. |
| Engine.Initial | ExoPlayer/library/core/src/main/java/com/google/android/exoplayer2/source/ConcatenatingMediaSource.java:125-133 | A new source is detached from any player, holds no holders, and satisfies the invariant. |
| Engine.HolderIndex | ExoPlayer/library/core/src/main/java/com/google/android/exoplayer2/source/ConcatenatingMediaSource.java:476-477 | The result is the position of a listed holder with that uid. It is -1 exactly when no listed holder has the uid. |
| Engine.Schedule | ExoPlayer/library/core/src/main/java/com/google/android/exoplayer2/source/ConcatenatingMediaSource.java:609-617 | At most one notification message is in flight: one is sent only if none was pending. The action joins the waiting ones, and nothing else changes. |
| Engine.NotifyListener | ExoPlayer/library/core/src/main/java/com/google/android/exoplayer2/source/ConcatenatingMediaSource.java:619-637 | The current timeline is published and the scheduled flag clears. Every waiting action leaves in one completion message; there is none if no action was waiting. |
| Engine.NotificationCarriesPendingActions | ExoPlayer/library/core/src/main/java/com/google/android/exoplayer2/source/ConcatenatingMediaSource.java:614-635 | An action scheduled before a notification is delivered by that notification's completion message, together with the actions already waiting. This happens after a timeline mirroring the holders is published. |
| Engine.AddOne | ExoPlayer/library/core/src/main/java/com/google/android/exoplayer2/source/ConcatenatingMediaSource.java:646-668 | The new holder at `k` carries the item and the placeholder timeline. Its child is prepared at once exactly when preparation is not lazy. |
| Engine.AddOneKeepsLayout | ExoPlayer/library/core/src/main/java/com/google/android/exoplayer2/source/ConcatenatingMediaSource.java:657-661 | An add keeps the layout and the totals consistent. The totals grow by one window and one period, those of the placeholder. |
| Engine.AddAll | ExoPlayer/library/core/src/main/java/com/google/android/exoplayer2/source/ConcatenatingMediaSource.java:639-644 | The list grows by the number of items. The shuffle order, the outbox and the waiting actions are untouched. |
| Engine.ItemsOfAddAll | ExoPlayer/library/core/src/main/java/com/google/android/exoplayer2/source/ConcatenatingMediaSource.java:641-643 | The items go in, in order, starting at `k`. |
| Engine.AddAllKeepsLayout | ExoPlayer/library/core/src/main/java/com/google/android/exoplayer2/source/ConcatenatingMediaSource.java:639-644 | The layout and the totals stay consistent after any number of adds. |
| Engine.RemoveOne | ExoPlayer/library/core/src/main/java/com/google/android/exoplayer2/source/ConcatenatingMediaSource.java:705-718 | The totals shrink by the holder's counts. A holder without periods has its child released now. A holder with periods is kept aside, marked removed, and its child is not released yet. |
| Engine.RemoveOneKeepsLayout | ExoPlayer/library/core/src/main/java/com/google/android/exoplayer2/source/ConcatenatingMediaSource.java:709-713 | A removal keeps the layout and the totals consistent. |
| Engine.RemoveOneDropsUid | ExoPlayer/library/core/src/main/java/com/google/android/exoplayer2/source/ConcatenatingMediaSource.java:707 | With distinct uids, the removed holder's uid no longer resolves to any listed holder. |
| Engine.RemoveRange | ExoPlayer/library/core/src/main/java/com/google/android/exoplayer2/source/ConcatenatingMediaSource.java:576-578 | The list shrinks by the length of the range. |
| Engine.ItemsOfRemoveRange | ExoPlayer/library/core/src/main/java/com/google/android/exoplayer2/source/ConcatenatingMediaSource.java:576-578 | Exactly the items in `from .. to - 1` go, and the others keep their order. |
| Engine.RemoveRangeKeepsLayout | ExoPlayer/library/core/src/main/java/com/google/android/exoplayer2/source/ConcatenatingMediaSource.java:572-578 | The layout and the totals stay consistent after a range is removed. |
| Engine.AddMessage | ExoPlayer/library/core/src/main/java/com/google/android/exoplayer2/source/ConcatenatingMediaSource.java:558-564 | `MSG_ADD` grows the shuffle order by the number of items. |
| Engine.RemoveMessage | ExoPlayer/library/core/src/main/java/com/google/android/exoplayer2/source/ConcatenatingMediaSource.java:565-580 | `MSG_REMOVE` clears the shuffle order when the whole order goes. Otherwise the order loses one entry per removed position. |
| Engine.MoveMessage | ExoPlayer/library/core/src/main/java/com/google/android/exoplayer2/source/ConcatenatingMediaSource.java:581-587 | `MSG_MOVE` leaves the shuffle order's length as it was. |
| Engine.HandleMessage | ExoPlayer/library/core/src/main/java/com/google/android/exoplayer2/source/ConcatenatingMediaSource.java:551-606 | A released source ignores every message. A removal whose `to` is below its `from` runs neither loop: the list, totals and shuffle length stay as they were, and only a notification is scheduled with its action. Any other message fails, with an index error, exactly when its indices do not fit the list. |
| Engine.HandleMessageAppliesItems | ExoPlayer/library/core/src/main/java/com/google/android/exoplayer2/source/ConcatenatingMediaSource.java:557-593 | Every message changes the holders' items exactly as its list effect says: insert, remove a range, move, or nothing. |
| Engine.AddMessageAppliesItems | ExoPlayer/library/core/src/main/java/com/google/android/exoplayer2/source/ConcatenatingMediaSource.java:561-562 | `MSG_ADD` inserts its items, in order, at its index. |
| Engine.RemoveMessageAppliesItems | ExoPlayer/library/core/src/main/java/com/google/android/exoplayer2/source/ConcatenatingMediaSource.java:576-578 | `MSG_REMOVE` takes out exactly its range. |
| Engine.MoveMessageAppliesItems | ExoPlayer/library/core/src/main/java/com/google/android/exoplayer2/source/ConcatenatingMediaSource.java:583-585 | `MSG_MOVE` moves one item, as `MoveItem` says. |
| Engine.ScheduleKeepsInv | ExoPlayer/library/core/src/main/java/com/google/android/exoplayer2/source/ConcatenatingMediaSource.java:609-617 | Scheduling a notification keeps the layout, the totals and the shuffle length. |
| Engine.AddMessageKeepsInv | ExoPlayer/library/core/src/main/java/com/google/android/exoplayer2/source/ConcatenatingMediaSource.java:558-564 | `MSG_ADD` keeps the layout, the totals equal to the spans, and one shuffle entry per holder. |
| Engine.RemoveMessageKeepsInv | ExoPlayer/library/core/src/main/java/com/google/android/exoplayer2/source/ConcatenatingMediaSource.java:565-580 | `MSG_REMOVE` keeps the invariant, including the cleared-order case. |
| Engine.MoveMessageKeepsInv | ExoPlayer/library/core/src/main/java/com/google/android/exoplayer2/source/ConcatenatingMediaSource.java:581-587 | `MSG_MOVE`, with the corrected move, keeps the invariant. |
| Engine.HandleMessageKeepsInv | ExoPlayer/library/core/src/main/java/com/google/android/exoplayer2/source/ConcatenatingMediaSource.java:551-606 | Every message that fits keeps the invariant, given that a new shuffle order has one entry per holder. |
| Engine.CreatePeriod | ExoPlayer/library/core/src/main/java/com/google/android/exoplayer2/source/ConcatenatingMediaSource.java:475-494 | A period for a listed holder joins that holder's periods. An unstarted holder starts preparing. A prepared holder creates the child period at once, under the child's own uid. A period of a vanished item gets a throwaway owner and causes no child call. Items and totals are unchanged. |
| Engine.CreatePeriodKeepsInv | ExoPlayer/library/core/src/main/java/com/google/android/exoplayer2/source/ConcatenatingMediaSource.java:483-492 | Creating a period keeps the invariant. |
| Engine.RemovePeriod | ExoPlayer/library/core/src/main/java/com/google/android/exoplayer2/source/ConcatenatingMediaSource.java:501 | One entry goes if some entry has the handle. Otherwise the list is unchanged. No entry is ever added. |
| Engine.ReleasePeriod | ExoPlayer/library/core/src/main/java/com/google/android/exoplayer2/source/ConcatenatingMediaSource.java:497-505 | An unknown period is a null-pointer error. A known period is forgotten and its child period released first; items, totals and the message state are unchanged. |
| Engine.LeaveListed | ExoPlayer/library/core/src/main/java/com/google/android/exoplayer2/source/ConcatenatingMediaSource.java:501-504 | Only holder `k`'s period list changes, losing that period, and the effects only grow. |
| Engine.LeaveDetached | ExoPlayer/library/core/src/main/java/com/google/android/exoplayer2/source/ConcatenatingMediaSource.java:502-504 | Only the removed holders kept aside and the effects change, and the effects only grow. |
| Engine.ReleasePeriodKeepsInv | ExoPlayer/library/core/src/main/java/com/google/android/exoplayer2/source/ConcatenatingMediaSource.java:497-505 | Releasing a known period keeps the invariant. |
| Engine.ReleaseKeptAliveStep | ExoPlayer/library/core/src/main/java/com/google/android/exoplayer2/source/ConcatenatingMediaSource.java:501-503 | Consider a removed holder kept alive by its periods. Releasing its last period releases its child and forgets the holder. Releasing any other period leaves it kept alive by the rest. |
| Engine.LastPeriodReleases | ExoPlayer/library/core/src/main/java/com/google/android/exoplayer2/source/ConcatenatingMediaSource.java:502-504 | A removed holder with one period left releases its child exactly once, when that period goes. |
| Engine.LastPeriodReleasesRemovedChild | ExoPlayer/library/core/src/main/java/com/google/android/exoplayer2/source/ConcatenatingMediaSource.java:714-717 | A removed holder kept alive by its periods has its child released exactly once, as the last effect of releasing all of them. |
| Engine.PeriodRequests | ExoPlayer/library/core/src/main/java/com/google/android/exoplayer2/source/ConcatenatingMediaSource.java:692-699 | There is one child-period request per active period, in order, each under the child's own uid and the period's window sequence number. |
| Engine.Adopt | ExoPlayer/library/core/src/main/java/com/google/android/exoplayer2/source/ConcatenatingMediaSource.java:687-701 | The holder's deferred timeline is cloned around the new timeline. The holder counts as prepared once any timeline with windows has arrived. Its item, periods and offsets are kept. |
| Engine.Refresh | ExoPlayer/library/core/src/main/java/com/google/android/exoplayer2/source/ConcatenatingMediaSource.java:670-703 | The same timeline object again changes nothing. A new one is adopted, the child calls are made and a notification is scheduled. An unknown uid changes nothing. A removed holder never moves the listed holders or the totals. |
| Engine.RefreshKeepsInv | ExoPlayer/library/core/src/main/java/com/google/android/exoplayer2/source/ConcatenatingMediaSource.java:678-687 | A child timeline refresh keeps the invariant. |
| Engine.PeriodRequestsRoundTrip | ExoPlayer/library/core/src/main/java/com/google/android/exoplayer2/source/ConcatenatingMediaSource.java:695-697 | The child uid a waiting period is requested under translates back to the period's own concatenated uid. |
| Engine.RefreshRemovedAsWritten | ExoPlayer/library/core/src/main/java/com/google/android/exoplayer2/source/ConcatenatingMediaSource.java:678-686 | As written, refreshing a removed holder moves the live totals by the change in that holder's counts. |
| Engine.RemovedHolderRefreshCorruptsTotals | ExoPlayer/library/core/src/main/java/com/google/android/exoplayer2/source/ConcatenatingMediaSource.java:680-686 | Remove item A from [A, B] while the player holds a period of A. A then reports two windows. As written, the totals count two windows for a list whose one item has one. The corrected refresh keeps the invariant. |
| Engine.Prepare | ExoPlayer/library/core/src/main/java/com/google/android/exoplayer2/source/ConcatenatingMediaSource.java:451-465 | Preparing attaches the source. An empty playlist publishes at once and schedules nothing. A non-empty one adds every item and schedules a notification. |
| Engine.PrepareAdoptsPlaylist | ExoPlayer/library/core/src/main/java/com/google/android/exoplayer2/source/ConcatenatingMediaSource.java:461-462 | Preparing puts the playlist's items, in order, in front of whatever the list held. |
| Engine.PrepareKeepsInv | ExoPlayer/library/core/src/main/java/com/google/android/exoplayer2/source/ConcatenatingMediaSource.java:458-464 | Preparing keeps the invariant. |
| Engine.ReleaseAsWritten | ExoPlayer/library/core/src/main/java/com/google/android/exoplayer2/source/ConcatenatingMediaSource.java:508-517 | As written, release empties the list, totals and shuffle order and detaches the player. It keeps the scheduled flag and the waiting actions. |
| Engine.Release | ExoPlayer/library/core/src/main/java/com/google/android/exoplayer2/source/ConcatenatingMediaSource.java:510-516 | The corrected release empties everything and leaves no notification in flight. The waiting actions are posted, in order. |
| Engine.ReprepareAfterReleaseSendsNoNotification | ExoPlayer/library/core/src/main/java/com/google/android/exoplayer2/source/ConcatenatingMediaSource.java:509-516 | As written, a source released with a notification in flight sends nothing when prepared again with items. |
| Engine.ReprepareAfterReleaseNotifies | ExoPlayer/library/core/src/main/java/com/google/android/exoplayer2/source/ConcatenatingMediaSource.java:463 | With the flag reset, preparing again with items sends exactly one notification message. |
| Engine.HandleMessageSendsOnlySelfSent | ExoPlayer/library/core/src/main/java/com/google/android/exoplayer2/source/ConcatenatingMediaSource.java:557-603 | Handling a message sends the source only notification or completion messages, never a list change. |
| Engine.ScheduleSendsOnlySelfSent | ExoPlayer/library/core/src/main/java/com/google/android/exoplayer2/source/ConcatenatingMediaSource.java:611 | Scheduling sends at most a notification message. |
| Engine.RefreshSendsOnlySelfSent | ExoPlayer/library/core/src/main/java/com/google/android/exoplayer2/source/ConcatenatingMediaSource.java:702 | A refresh sends at most a notification message. |
| Engine.PrepareSendsOnlySelfSent | ExoPlayer/library/core/src/main/java/com/google/android/exoplayer2/source/ConcatenatingMediaSource.java:458-464 | Preparing sends at most a notification message. |
| Playlist.Apply | ExoPlayer/library/core/src/main/java/com/google/android/exoplayer2/source/ConcatenatingMediaSource.java:558-593 | A message has a list effect exactly when its indices fit the list and any shuffle order it carries has one entry per item. |
| Playlist.ReplaySnoc | ExoPlayer/library/core/src/main/java/com/google/android/exoplayer2/source/ConcatenatingMediaSource.java:551-557 | Messages apply strictly in order: one more message applies after all the earlier ones. |
| Playlist.ReplaySelfSent | ExoPlayer/library/core/src/main/java/com/google/android/exoplayer2/source/ConcatenatingMediaSource.java:594-603 | Notifications and completion messages leave the list as it is. |
| Playlist.ReplayAppendSelfSent | ExoPlayer/library/core/src/main/java/com/google/android/exoplayer2/source/ConcatenatingMediaSource.java:594-596 | Queueing the source's own messages after others does not change what the queue does to the list. |
| Playlist.DrainedEngineMatchesPlaylist | ExoPlayer/library/core/src/main/java/com/google/android/exoplayer2/source/ConcatenatingMediaSource.java:57-61 | Once no message is in flight, the playback thread's list holds exactly the public list's items. |
| Playlist.Fresh | ExoPlayer/library/core/src/main/java/com/google/android/exoplayer2/source/ConcatenatingMediaSource.java:234-237 | There is one new holder per source, in order, each with a uid no earlier holder had. |
| Playlist.InsertKeepsUidsFresh | ExoPlayer/library/core/src/main/java/com/google/android/exoplayer2/source/ConcatenatingMediaSource.java:234-238 | Inserting new holders keeps every uid in the list distinct. |
| Playlist.RemoveKeepsUidsFresh | ExoPlayer/library/core/src/main/java/com/google/android/exoplayer2/source/ConcatenatingMediaSource.java:321 | Removing a range keeps every uid distinct. |
| Playlist.MoveKeepsUidsFresh | ExoPlayer/library/core/src/main/java/com/google/android/exoplayer2/source/ConcatenatingMediaSource.java:367 | Moving an item keeps every uid distinct. |
| Playlist.Create | ExoPlayer/library/core/src/main/java/com/google/android/exoplayer2/source/ConcatenatingMediaSource.java:117-135 | The constructor makes the given sources the playlist, sends nothing, and starts consistent and unprepared with the given flags. |
| Playlist.AddMediaSources | ExoPlayer/library/core/src/main/java/com/google/android/exoplayer2/source/ConcatenatingMediaSource.java:229-248 | An index outside `[0, size]` throws. Otherwise the new items appear at once at the index. A prepared source with sources to add sends one `MSG_ADD` carrying the action. Otherwise the action runs inline. |
| Playlist.RemoveMediaSourceRange | ExoPlayer/library/core/src/main/java/com/google/android/exoplayer2/source/ConcatenatingMediaSource.java:319-337 | A range outside `0 <= from <= to <= size` throws an argument error. Otherwise the range leaves at once. A prepared source with a non-empty range sends one `MSG_REMOVE`. Otherwise the action runs inline. |
| Playlist.Clear | ExoPlayer/library/core/src/main/java/com/google/android/exoplayer2/source/ConcatenatingMediaSource.java:390-392 | Clearing never fails and leaves the playlist empty. A prepared, non-empty source sends one removal of the whole list. |
| Playlist.MoveMediaSourceAsWritten | ExoPlayer/library/core/src/main/java/com/google/android/exoplayer2/source/ConcatenatingMediaSource.java:362-377 | As written, equal indices change nothing and drop the action. A bad `currentIndex` throws before any change. A bad `newIndex` throws after the item has left the list. Otherwise the item moves at once, and either one `MSG_MOVE` is sent or the action runs inline. |
| Playlist.MoveChecked | ExoPlayer/library/core/src/main/java/com/google/android/exoplayer2/source/ConcatenatingMediaSource.java:367-376 | The move after the equal-index test: the same three outcomes, with the playback side untouched. |
| Playlist.MoveMediaSource | ExoPlayer/library/core/src/main/java/com/google/android/exoplayer2/source/ConcatenatingMediaSource.java:351-363 | The corrected move runs the action inline for equal indices, and otherwise behaves as written. |
| Playlist.MoveToSameIndexDropsAction | ExoPlayer/library/core/src/main/java/com/google/android/exoplayer2/source/ConcatenatingMediaSource.java:364-366 | As written, moving an item onto its own index neither runs nor sends its action. |
| Playlist.MoveAlwaysCompletes | ExoPlayer/library/core/src/main/java/com/google/android/exoplayer2/source/ConcatenatingMediaSource.java:358-360 | A corrected move that does not throw always completes. Either its action runs at once, or it travels with the message that applies the move. |
| Playlist.SetShuffleOrder | ExoPlayer/library/core/src/main/java/com/google/android/exoplayer2/source/ConcatenatingMediaSource.java:425-447 | A prepared source sends an order sized to the playlist. An unprepared source keeps a cleared order and runs the action inline. |
| Playlist.GetMediaSource | ExoPlayer/library/core/src/main/java/com/google/android/exoplayer2/source/ConcatenatingMediaSource.java:405-407 | The lookup succeeds exactly for `0 <= index < size` and then returns that item's source. Otherwise it throws an index error. |
| Playlist.Prepare | ExoPlayer/library/core/src/main/java/com/google/android/exoplayer2/source/ConcatenatingMediaSource.java:451-465 | Preparing attaches the source and keeps the public list. An unprepared source's playback list takes the public items in front. |
| Playlist.Release | ExoPlayer/library/core/src/main/java/com/google/android/exoplayer2/source/ConcatenatingMediaSource.java:510-516 | The corrected release detaches the source and empties its playback list. Queued messages are dropped and the public list is kept. |
| Playlist.ReleaseAsWritten | ExoPlayer/library/core/src/main/java/com/google/android/exoplayer2/source/ConcatenatingMediaSource.java:508-517 | The release as written does the same to the list and the queue. |
| Playlist.Step | ExoPlayer/library/core/src/main/java/com/google/android/exoplayer2/source/ConcatenatingMediaSource.java:551-606 | Delivering a message fails exactly when the handler fails on it. It never changes the public list. |
| Playlist.CreatePeriod | ExoPlayer/library/core/src/main/java/com/google/android/exoplayer2/source/ConcatenatingMediaSource.java:475-494 | The new period becomes known. The public list and the queue are untouched. |
| Playlist.ReleasePeriod | ExoPlayer/library/core/src/main/java/com/google/android/exoplayer2/source/ConcatenatingMediaSource.java:497-505 | Releasing fails exactly for an unknown period. Otherwise the period is forgotten and the public list and queue are untouched. |
| Playlist.Refresh | ExoPlayer/library/core/src/main/java/com/google/android/exoplayer2/source/ConcatenatingMediaSource.java:520-526 | A child's refresh changes neither the public list nor the playback list's items. |
| Playlist.AddKeepsConsistent | ExoPlayer/library/core/src/main/java/com/google/android/exoplayer2/source/ConcatenatingMediaSource.java:238-244 | After an add, replaying the queue over the playback list still gives the public list, and uids stay distinct. |
| Playlist.RemoveKeepsConsistent | ExoPlayer/library/core/src/main/java/com/google/android/exoplayer2/source/ConcatenatingMediaSource.java:321-333 | The same after a range removal. |
| Playlist.MoveKeepsConsistent | ExoPlayer/library/core/src/main/java/com/google/android/exoplayer2/source/ConcatenatingMediaSource.java:367-373 | The same after a move that does not throw. |
| Playlist.SetShuffleOrderKeepsConsistent | ExoPlayer/library/core/src/main/java/com/google/android/exoplayer2/source/ConcatenatingMediaSource.java:428-443 | The same after a shuffle-order change. |
| Playlist.PrepareKeepsConsistent | ExoPlayer/library/core/src/main/java/com/google/android/exoplayer2/source/ConcatenatingMediaSource.java:456-464 | Preparing leaves the two lists consistent. |
| Playlist.ReleaseKeepsConsistent | ExoPlayer/library/core/src/main/java/com/google/android/exoplayer2/source/ConcatenatingMediaSource.java:509-516 | The corrected release leaves a released source that holds nothing and owes no notification. |
| Playlist.StepKeepsConsistent | ExoPlayer/library/core/src/main/java/com/google/android/exoplayer2/source/ConcatenatingMediaSource.java:557-606 | Every queued message fits the list it reaches, so delivery never fails, and consistency survives it. |
| Playlist.CreatePeriodKeepsConsistent | ExoPlayer/library/core/src/main/java/com/google/android/exoplayer2/source/ConcatenatingMediaSource.java:476-492 | Creating a period keeps the two lists consistent. |
| Playlist.ReleasePeriodKeepsConsistent | ExoPlayer/library/core/src/main/java/com/google/android/exoplayer2/source/ConcatenatingMediaSource.java:498-504 | Releasing a period keeps the two lists consistent. |
| Playlist.RefreshKeepsConsistent | ExoPlayer/library/core/src/main/java/com/google/android/exoplayer2/source/ConcatenatingMediaSource.java:525 | A child refresh keeps the two lists consistent. |
| Playlist.ReprepareAsWrittenNeverNotifies | ExoPlayer/library/core/src/main/java/com/google/android/exoplayer2/source/ConcatenatingMediaSource.java:512-516 | As written, a source released with a notification on its way, then prepared again with items, queues nothing. Its timeline is never published. |
| Playlist.ReprepareNotifies | ExoPlayer/library/core/src/main/java/com/google/android/exoplayer2/source/ConcatenatingMediaSource.java:458-463 | With the corrected release, preparing again with items queues exactly the notification that publishes them. |
| ExtractorInput.PeekFully | app/src/main/java/com/glee/exoffmpeg/util/ExtractorInputWrapper.java:121-124 | The peek succeeds exactly when `n` bytes remain after the peek cursor. It returns those bytes and moves only the peek cursor. Otherwise it fails at end of input. |
| ExtractorInput.AdvancePeekPosition | app/src/main/java/com/glee/exoffmpeg/util/ExtractorInputWrapper.java:131-134 | The advance succeeds exactly for `0 <= n <=` the bytes remaining, and then moves the peek cursor by `n`. |
| ExtractorInput.Skip | app/src/main/java/com/glee/exoffmpeg/util/ExtractorInputWrapper.java:101-104 | The read cursor moves by `n`, or to the end of the data when fewer than `n` bytes remain. The peek cursor is reset to the new read cursor, so whatever was peeked beyond it is given up. |
| ExtractorInput.ResetPeekPosition | app/src/main/java/com/glee/exoffmpeg/util/ExtractorInputWrapper.java:136-139 | The peek cursor returns to the read cursor. |
| InputWrapper.LittleEndianBound | app/src/main/java/com/glee/exoffmpeg/util/ExtractorInputWrapper.java:46-52 | A `k`-byte little-endian value is below 256^k. |
| InputWrapper.LittleEndianAppend | app/src/main/java/com/glee/exoffmpeg/util/ExtractorInputWrapper.java:76-83 | Appended bytes count above the existing ones, weighted by 256 to the length of the prefix. |
| InputWrapper.ByteLandsInItsBits | app/src/main/java/com/glee/exoffmpeg/util/ExtractorInputWrapper.java:76-83 | Byte `k` is the `k`-th base-256 digit of the decoded value, so the shifted lanes never overlap and the bitwise or is a sum. |
| InputWrapper.DecodeEncode | app/src/main/java/com/glee/exoffmpeg/util/ExtractorInputWrapper.java:41-52 | Decoding the little-endian encoding of any value that fits the width gives the value back. |
| InputWrapper.EncodeDecode | app/src/main/java/com/glee/exoffmpeg/util/ExtractorInputWrapper.java:46-51 | Every byte sequence is the encoding of its decoded value. |
| InputWrapper.ReadUnsignedByte | app/src/main/java/com/glee/exoffmpeg/util/ExtractorInputWrapper.java:36-39 | The read succeeds exactly when a byte remains. It gives that byte in `[0, 256)` and moves only the peek cursor, by one. |
| InputWrapper.ReadByte | app/src/main/java/com/glee/exoffmpeg/util/ExtractorInputWrapper.java:54-57 | The byte is read as a signed Java `byte`. |
| InputWrapper.ReadUnsignedShort | app/src/main/java/com/glee/exoffmpeg/util/ExtractorInputWrapper.java:41-44 | The read succeeds exactly when two bytes remain. It gives their little-endian value in `[0, 2^16)` and moves the peek cursor by two. |
| InputWrapper.ReadUnsignedInt | app/src/main/java/com/glee/exoffmpeg/util/ExtractorInputWrapper.java:46-52 | The same with four bytes, giving a value in `[0, 2^32)`. |
| InputWrapper.ReadShort | app/src/main/java/com/glee/exoffmpeg/util/ExtractorInputWrapper.java:59-63 | The 16-bit little-endian value is read as a signed `short`. |
| InputWrapper.ReadInt | app/src/main/java/com/glee/exoffmpeg/util/ExtractorInputWrapper.java:65-72 | The 32-bit little-endian value is read as a signed `int`. |
| InputWrapper.ReadLong | app/src/main/java/com/glee/exoffmpeg/util/ExtractorInputWrapper.java:74-84 | The 64-bit little-endian value is read as a signed `long`; the top byte's high bit is the sign. |
| InputWrapper.ReadString | app/src/main/java/com/glee/exoffmpeg/util/ExtractorInputWrapper.java:25-34 | As written, the string has `size` characters: the first byte's character, then NULs. The peek cursor moves by one whatever `size` is. |
| InputWrapper.ReadStringIntended | app/src/main/java/com/glee/exoffmpeg/util/ExtractorInputWrapper.java:31-33 | The intended read decodes all `size` bytes at the peek cursor and moves past them. |
| InputWrapper.ReadStringIntendedRoundTrip | app/src/main/java/com/glee/exoffmpeg/util/ExtractorInputWrapper.java:25-34 | The intended read returns any ASCII string that was written, and stops exactly after it. |
| InputWrapper.ReadStringKeepsOneByte | app/src/main/java/com/glee/exoffmpeg/util/ExtractorInputWrapper.java:32 | As written, reading four characters of `"MAC "` gives `"M"` and three NULs, and consumes one byte. |
| JavaInt.ToByte | app/src/main/java/com/glee/exoffmpeg/util/ExtractorInputWrapper.java:56 | The result is the value in `[-2^7, 2^7)` with the same low 8 bits, and any value already in range is kept. |
| JavaInt.ToShort | app/src/main/java/com/glee/exoffmpeg/util/ExtractorInputWrapper.java:62 | The same for `short` and 16 bits. |
| JavaInt.ToInt | app/src/main/java/com/glee/exoffmpeg/util/ExtractorInputWrapper.java:68-71 | The same for `int` and 32 bits. |
| JavaInt.ToLong | app/src/main/java/com/glee/exoffmpeg/util/ExtractorInputWrapper.java:76-83 | The same for `long` and 64 bits. |
| JavaInt.QuotOfNonNegative | app/src/main/java/com/glee/exoffmpeg/ape/APEReader.java:100 | For a non-negative dividend and a positive divisor, Java's truncating division is floor division. |
| JavaInt.ToIntOfSum | app/src/main/java/com/glee/exoffmpeg/ape/APEReader.java:152 | Narrowing after each addition equals narrowing once at the end. |
| JavaInt.NarrowedU32NonZero | app/src/main/java/com/glee/exoffmpeg/ape/APEReader.java:138 | A non-zero u32 frame count stays non-zero when cast to `int`. |
| ApeDescriptor.DeclaredWidthsFillDescriptor | app/src/main/java/com/glee/exoffmpeg/ape/APEDescriptor.java:15-28 | The declared field widths (ID, version, padding, seven counters, MD5) add up to `APE_DESCRIPTOR_BYTES = 52`. |
| ApeDescriptor.ReadCounters | app/src/main/java/com/glee/exoffmpeg/ape/APEDescriptor.java:35-42 | The seven u32 counters and the 16-byte MD5 are read from consecutive offsets, 44 bytes in all, failing exactly when fewer remain. |
| ApeDescriptor.ReadIdAndVersion | app/src/main/java/com/glee/exoffmpeg/ape/APEDescriptor.java:32-33 | As written, the ID is the byte at the peek cursor followed by three NULs, and the version is the u16 in the next two bytes. Three bytes are peeked, and the read fails exactly when fewer remain. |
| ApeDescriptor.SkipThenReadCounters | app/src/main/java/com/glee/exoffmpeg/ape/APEDescriptor.java:34-42 | `skip(2)` then the counters: whatever was peeked, the counters and MD5 are the 44 bytes two past the read cursor, and both cursors end 46 bytes past it. The step fails exactly when fewer than 46 bytes follow the read cursor. |
| ApeDescriptor.Read | app/src/main/java/com/glee/exoffmpeg/ape/APEDescriptor.java:30-44 | As written, the ID and version come from the three bytes at the peek cursor. The counters and MD5 come from the 44 bytes two past the read cursor, which overlap the magic when nothing was read before. Both cursors end 46 bytes past the read cursor. The read succeeds exactly when 3 bytes follow the peek cursor and 46 follow the read cursor. |
| ApeDescriptor.ReadIntended | app/src/main/java/com/glee/exoffmpeg/ape/APEDescriptor.java:28-44 | The intended layout: a 4-byte ID, the version at 4, padding, the counters from 8 and the MD5 at 36. That is exactly 52 bytes on the peek cursor. |
| ApeDescriptor.ReadIntendedWrite | app/src/main/java/com/glee/exoffmpeg/ape/APEDescriptor.java:32-42 | The intended reader gives back every written descriptor and stops right after its 52 bytes. |
| ApeDescriptor.ReadMisplacesVersion | app/src/main/java/com/glee/exoffmpeg/ape/APEDescriptor.java:32-33 | As written, any file starting with `"MAC "` reports version 0x4341, from the magic's "AC", and ID `"M\0\0\0"`, whatever version it carries. |
| ApeDescriptor.MagicMisread | app/src/main/java/com/glee/exoffmpeg/ape/APEDescriptor.java:33 | Any 46 bytes starting with `"MAC "` read as written with version 0x4341 and ID `"M\0\0\0"`. |
| ApeHeaderNew.Read | app/src/main/java/com/glee/exoffmpeg/ape/APEHeaderNew.java:26-37 | The eight fields come from their offsets in the 24 bytes at the peek cursor, failing exactly when fewer remain. |
| ApeHeaderNew.ReadWrite | app/src/main/java/com/glee/exoffmpeg/ape/APEHeaderNew.java:24-37 | Reading a written header gives it back and stops right after its 24 bytes. |
| ApeHeaderOld.ReadFields | app/src/main/java/com/glee/exoffmpeg/ape/APEHeaderOld.java:29-37 | The fields after the ID come from consecutive offsets, 28 bytes in all. |
| ApeHeaderOld.Read | app/src/main/java/com/glee/exoffmpeg/ape/APEHeaderOld.java:26-39 | As written, the header spans 29 bytes, with every field three bytes early. |
| ApeHeaderOld.ReadIntended | app/src/main/java/com/glee/exoffmpeg/ape/APEHeaderOld.java:24-39 | The intended layout is exactly `APE_HEADER_OLD_BYTES = 32` bytes, with the version at offset 4. |
| ApeHeaderOld.ReadIntendedWrite | app/src/main/java/com/glee/exoffmpeg/ape/APEHeaderOld.java:28-37 | The intended reader gives back every written header and stops right after its 32 bytes. |
| ApeHeaderOld.ReadMisplacesVersion | app/src/main/java/com/glee/exoffmpeg/ape/APEHeaderOld.java:28-29 | As written, every header starting with `"MAC "` reports version 0x4341 and ID `"M\0\0\0"`. |
| ApeHeaderOld.MagicMisread | app/src/main/java/com/glee/exoffmpeg/ape/APEHeaderOld.java:29 | Any 29 bytes starting with `"MAC "` read as written with version 0x4341. |
| ApeReader.MagicDecodes | app/src/main/java/com/glee/exoffmpeg/ape/APEReader.java:50 | Four bytes decode to `"MAC "` exactly when they are the bytes of `"MAC "`. |
| ApeReader.Sniff | app/src/main/java/com/glee/exoffmpeg/ape/APEReader.java:48-57 | A reader comes back exactly when the stream starts with `"MAC "` and has a version after it; its version is that u16. Other complete magics give `null`, and short input is an end-of-input error. The peek cursor is reset in every outcome. |
| ApeReader.PeekInt | app/src/main/java/com/glee/exoffmpeg/ape/APEReader.java:109 | One u32, cast to `int`, is read at the peek cursor. |
| ApeReader.PeekInts | app/src/main/java/com/glee/exoffmpeg/ape/APEReader.java:107-109 | `n` consecutive u32 entries, each cast to `int`, are read. The read fails exactly when fewer than `4n` bytes remain. |
| ApeReader.PassExtra | app/src/main/java/com/glee/exoffmpeg/ape/APEReader.java:74-80 | A non-positive excess changes nothing. A positive one that fits an `int` succeeds exactly when that many bytes remain. Only the peek cursor moves. |
| ApeReader.BlocksPerFrameOld | app/src/main/java/com/glee/exoffmpeg/ape/APEReader.java:140-142 | The result is one of 9216, 73728 or 4 × 73728. It is 4 × 73728 exactly from version 3.95. It is 9216 exactly before 3.80, or before 3.90 without extra-high compression. |
| ApeReader.BlocksPerFrameGrowsWithVersion | app/src/main/java/com/glee/exoffmpeg/ape/APEReader.java:140-142 | A later version never has fewer blocks per frame. |
| ApeReader.BitsPerSampleOld | app/src/main/java/com/glee/exoffmpeg/ape/APEReader.java:145 | 8 bits exactly with the 8-bit flag. 24 exactly with the 24-bit flag and not the 8-bit one. 16 exactly with neither. |
| ApeReader.TotalBlocksSumsFrames | app/src/main/java/com/glee/exoffmpeg/ape/APEReader.java:148 | The closed form `(frames - 1) * blocksPerFrame + finalFrameBlocks` is the sum of the blocks of every frame. |
| ApeReader.FullFrames | app/src/main/java/com/glee/exoffmpeg/ape/APEReader.java:94 | `n` full frames hold `n * blocksPerFrame` blocks. |
| ApeReader.LongArithmeticNeverWraps | app/src/main/java/com/glee/exoffmpeg/ape/APEReader.java:94-101 | The `long` block count and the `long` products behind the length and the bitrate never overflow a `long`. |
| ApeReader.BlockAlignIsExact | app/src/main/java/com/glee/exoffmpeg/ape/APEReader.java:92-93 | For u16 sample widths and channel counts, the `int` block alignment is exactly bytes per sample times channels. |
| ApeReader.TotalBlocksCountsEveryFrame | app/src/main/java/com/glee/exoffmpeg/ape/APEReader.java:94 | The block count is the sum over frames, narrowed to an `int`. |
| ApeReader.WavTotalAddsParts | app/src/main/java/com/glee/exoffmpeg/ape/APEReader.java:98 | The two wrapping `int` additions wrap like one exact sum of the three parts. |
| ApeReader.LengthRoundsDown | app/src/main/java/com/glee/exoffmpeg/ape/APEReader.java:100 | The length in milliseconds is the duration rounded down, whenever it fits an `int`. |
| ApeReader.AverageBitrate | app/src/main/java/com/glee/exoffmpeg/ape/APEReader.java:101 | The bitrate is zero for a non-positive length and always an `int`. |
| ApeReader.Fill | app/src/main/java/com/glee/exoffmpeg/ape/APEReader.java:83-102 | The shared arithmetic fails, with an arithmetic error, exactly when the sample rate narrows to zero. Otherwise the header fields are copied, and the block alignment, block count and length are the values above. The WAV header size is 44 when CREATE_WAV_HEADER is set and the stored size otherwise. The data size is blocks times alignment, and the total adds header, data and terminating bytes. The file size is the input's length, and the bitrate is `AverageBitrate` of size and length, every value narrowed to an `int`. |
| ApeReader.WaveHeaderAsWritten | app/src/main/java/com/glee/exoffmpeg/ape/APEReader.java:111-116 | As written, the copy succeeds only when the wave header is not stored. With a stored header and 44 bytes left it fails with a null pointer. |
| ApeReader.WaveHeaderIntended | app/src/main/java/com/glee/exoffmpeg/ape/APEReader.java:159-164 | The intended copy reads nothing when the header is not stored. Otherwise it reads the declared number of header bytes, failing exactly when they are not there. |
| ApeReader.ReadNewLayout | app/src/main/java/com/glee/exoffmpeg/ape/APEReader.java:72-80 | The descriptor and the new header are read in range, with any declared extra bytes passed over on the peek cursor. |
| ApeReader.ReadNew | app/src/main/java/com/glee/exoffmpeg/ape/APEReader.java:71-117 | A new-layout read is `Fill` of the descriptor and new header it read, with the descriptor kept and its version taken. The peak level is unknown (-1). The seek table has `seekTableBytes / 4` entries, and there is no seek-bit table. Wave-header data is present exactly when stored. As written, success needs an unstored header. |
| ApeReader.ReadOldExtras | app/src/main/java/com/glee/exoffmpeg/ape/APEReader.java:125-132 | Without the flag, the peak level is -1. Without the seek-elements flag, there is one seek element per frame. |
| ApeReader.ReadOldSeekTables | app/src/main/java/com/glee/exoffmpeg/ape/APEReader.java:166-174 | There are `seekElements` byte-table entries, plus a bit table of the same length exactly up to version 3.80. A negative count fails. |
| ApeReader.ReadOldFrames | app/src/main/java/com/glee/exoffmpeg/ape/APEReader.java:134-174 | The result is `Fill` of the old header, with blocks per frame and bits per sample derived from version and flags; only the peak level, the seek tables and the wave header are set apart, as above. There is no descriptor. |
| ApeReader.ReadOld | app/src/main/java/com/glee/exoffmpeg/ape/APEReader.java:119-175 | A stream with no frames returns the untouched info. Otherwise the info is `Fill` of the old header it read, obeys the rules of the old layout for the peak level, seek tables and wave header, and has no descriptor. |
| ApeReader.Read | app/src/main/java/com/glee/exoffmpeg/ape/APEReader.java:59-67 | A successful read has a descriptor exactly when the sniffed version is 3.98 or later. As written, it succeeds only for an empty old stream or an unstored wave header. |

## Left out

- Threads and the `Handler`. Messages are a FIFO queue of `Command`s delivered one at a time by `Playlist.Step`. The player's own message plumbing is not modelled.
- `synchronized`: each public call is one atomic step.
- The child sources' own behaviour (`CompositeMediaSource`, `prepareChildSource`, `releaseChildSource`, `DeferredMediaPeriod`). These calls are recorded as `Effect`s.
- `ShuffleOrder`, reduced to its length. Its order of indices is not modelled.
- `AbstractConcatenatedTimeline` is not part of this model. It covers the window/period getters built on the child-index lookups and the shuffle traversal. The lookups it relies on are modelled.
- `Util.binarySearchFloor` and `Util.removeRange` are not part of this model. The first is given by its specification, `Concatenation.FloorIndex`, with a verified binary search. The second is given by its effect on the list and its `IllegalArgumentException`.
- `defaultPeriodPositionUs` and `setDefaultPreparePositionUs`: window positions are time values that do not affect the bookkeeping.
- `maybeThrowSourceInfoRefreshError`, manifests, and the `TransferListener`.
- `MSG_SET_SHUFFLE_ORDER` with a wrongly sized order: the public API always resizes it, so `Engine.HandleMessageKeepsInv` assumes a correctly sized one.
- The `default: throw new IllegalStateException()` branch of `handleMessage`. `Command` has exactly the six message kinds, so there is no unknown kind.
- Java `int` overflow of `windowCount`, `periodCount` and the first indices. These are unbounded integers here. A playlist with more than 2^31 windows is not considered.
- `mediaSourceByUid` is modelled as a lookup in the holder list (`Engine.HolderIndex`). Uids are distinct, as `new Object()` makes them (`Playlist.UidsFresh`).
- A second `prepareSource` while prepared only adds a listener in `BaseMediaSource`. `Playlist.Prepare` keeps such a source as it is.
- Engine.HandleMessage: a message whose indices do not fit the list (other than a backwards removal) fails with no change at all. In Java the outcome depends on the shuffle order's own implementation, which is not part of this model. It can leave partial changes: `MSG_MOVE` removes the holder before `add` throws. An `MSG_ADD` with no items and a bad index adds nothing and throws nothing. The public methods never send such messages (`Playlist.StepKeepsConsistent`).
- Engine.Prepare: builds a fresh placeholder holder for each playlist item. Java re-adds the same `MediaSourceHolder` objects, and `reset` keeps their timelines, so after release and a second prepare the totals start from each child's last timeline and its `replacedId`. The identical timeline object, reported again, would then leave the holder unprepared. Holder state does not survive release here.
- Playlist.Prepare: inherits the same simplification from `Engine.Prepare`: a second prepare after release starts every item from the placeholder timeline.
- Engine.Refresh: a child reports timelines only while the source is prepared, so the refresh requires the layout invariant. It does not model a refresh arriving after release.
- Holders.RefreshKeepsLayout: requires the refreshed holder's `childIndex` to be its position. The layout implies this for every listed holder.
- Holders.MoveAsWritten: the contract states only the reordering of items. Its offsets are stated by `Holders.MovePlacesHolder`, and its stale `childIndex` by `Holders.MoveAsWrittenKeepsStaleIndex`.
- Holders.Move: the contract states only the reordering of items. The layout is stated by `Holders.MoveKeepsLayout`.
- Engine.AddMessage: the contract states only the shuffle length. The items and invariant are stated by `Engine.AddMessageAppliesItems` and `Engine.AddMessageKeepsInv`.
- Engine.RemoveMessage: the contract states only the shuffle length. The items and invariant are stated by `Engine.RemoveMessageAppliesItems` and `Engine.RemoveMessageKeepsInv`.
- Engine.MoveMessage: the contract states only the shuffle length. The items and invariant are stated by `Engine.MoveMessageAppliesItems` and `Engine.MoveMessageKeepsInv`.
- Engine.RemovePeriod: states how many entries remain and that none is new, not which entry went.
- Engine.LeaveDetached: states only what it leaves alone. The release of the child is stated by `Engine.ReleaseKeptAliveStep`.
- Playlist.Step: states only failure and the public list. Consistency is stated by `Playlist.StepKeepsConsistent`.
- Playlist.ReleaseAsWritten: states only the list and queue. The kept notification state is stated by `Playlist.ReprepareAsWrittenNeverNotifies`.
- The `ExtractorInput` implementation is not part of this model. It is reduced to data, a read cursor and a peek cursor. `skip` returns how far it got and resets the peek cursor to the new read cursor, as ExoPlayer's `ExtractorInput` contract has it. Short reads otherwise fail with end of input. `getLength` is a parameter (`length`).
- `ExtractorInputWrapper`'s pass-through methods (`read`, `readFully`, `skipFully`, `getPeekPosition`, `getPosition`, `setRetryPosition`). They only forward to the input.
- `APEReader` calls `peekString`, `peekUnsignedShort` and `peekUnsignedInt`, which the wrapper as shown does not declare. They are modelled as full-width peeks, like the wrapper's `read*` decoders, which also peek.
- Charsets other than US-ASCII. The empty-encoding branch of `readString` is left out because the reader always passes `"US-ASCII"`.
- `nDecompressedBitrate` is computed but stated by no contract. `FindDescriptor` is commented out in the source and is not part of this model.
- ApeReader.PassExtra: says nothing about an excess of 2^31 or more, whose `(int)` cast turns negative. In that case the model fails like `advancePeekPosition` with a negative length.
- ApeReader.AverageBitrate: does not restate the quotient for a positive length; `JavaInt.QuotOfNonNegative` relates Java's division to Dafny's.

## Findings

| source | as written | input that shows it | evidently intended | confidence | as-written member | corrected member |
|---|---|---|---|---|---|---|
| app/src/main/java/com/glee/exoffmpeg/util/ExtractorInputWrapper.java:31-33 | `readString` allocates `size` bytes but peeks only one, so the string is its first character followed by NULs | reading 4 characters of the bytes `"MAC "` gives `"M\0\0\0"` and moves the peek cursor by 1 | peek all `size` bytes and decode them | not executed; high | InputWrapper.ReadStringKeepsOneByte | InputWrapper.ReadStringIntendedRoundTrip |
| app/src/main/java/com/glee/exoffmpeg/ape/APEDescriptor.java:32-34 | the ID read consumes one byte, so the version is read from bytes 1-2. `skip(2)` then moves the read cursor two bytes on and resets the peek cursor there, so the counters are read from the read cursor plus two, overlapping the magic's `"C "`. The record spans 46 bytes from the read cursor | any descriptor starting with `"MAC "` reports version 0x4341 and ID `"M\0\0\0"` | a 4-byte ID, the version, 2 bytes of padding passed on the peek cursor, 52 bytes in all | not executed; high | ApeDescriptor.ReadMisplacesVersion | ApeDescriptor.ReadIntendedWrite |
| app/src/main/java/com/glee/exoffmpeg/ape/APEHeaderOld.java:28-29 | the ID read consumes one byte, so every field is read three bytes early and the header spans 29 bytes | any old header starting with `"MAC "` reports version 0x4341 | the 32-byte layout of `APE_HEADER_OLD_BYTES` | not executed; high | ApeHeaderOld.ReadMisplacesVersion | ApeHeaderOld.ReadIntendedWrite |
| app/src/main/java/com/glee/exoffmpeg/ape/APEReader.java:112-115 | the wave-header buffer is allocated only when its size exceeds `Integer.MAX_VALUE`, so 44 bytes are peeked into `null`; `readOld` (lines 160-163) is the same | any stream whose CREATE_WAV_HEADER flag is clear, with 44 bytes left: `NullPointerException` | allocate the declared header size and peek that many bytes | not executed; high | ApeReader.WaveHeaderAsWritten | ApeReader.WaveHeaderIntended |
| ExoPlayer/library/core/src/main/java/com/google/android/exoplayer2/source/ConcatenatingMediaSource.java:726-732 | `moveMediaSourceInternal` rewrites first indices but never `childIndex` | move holder 0 of three to position 2: it still claims position 0, and a later refresh of it shifts the holder at position 1 | set each rewritten holder's `childIndex` to its position | not executed; medium | Holders.MoveAsWrittenKeepsStaleIndex | Holders.MoveKeepsLayout |
| ExoPlayer/library/core/src/main/java/com/google/android/exoplayer2/source/ConcatenatingMediaSource.java:678-686 | a removed holder kept alive by its periods still runs `correctOffsets` from its stale `childIndex` and changes the live totals | remove A from [A, B] while A has a period, then A reports a 2-window timeline: `windowCount` becomes 2 for the one-item list [B] | a removed holder's refresh leaves the list and the totals alone | not executed; medium | Engine.RemovedHolderRefreshCorruptsTotals | Engine.RefreshKeepsInv |
| ExoPlayer/library/core/src/main/java/com/google/android/exoplayer2/source/ConcatenatingMediaSource.java:364-366 | `moveMediaSource(i, i, action)` returns before running or sending `action` | any `moveMediaSource(0, 0, action)`: the action never runs | run the action, as the documentation promises and as `removeMediaSourceRange(i, i, action)` does | not executed; medium | Playlist.MoveToSameIndexDropsAction | Playlist.MoveAlwaysCompletes |
| ExoPlayer/library/core/src/main/java/com/google/android/exoplayer2/source/ConcatenatingMediaSource.java:508-517 | `releaseSourceInternal` keeps `listenerNotificationScheduled` and the pending actions | release while a notification is in flight (it is then dropped as stale), then prepare again with items: no notification is ever sent | reset the flag and hand over the pending actions on release | not executed; medium | Engine.ReprepareAfterReleaseSendsNoNotification | Engine.ReprepareAfterReleaseNotifies |
