# Marker and segment engine of the MP3 annotation player, in Dafny

The player keeps a list of time markers for an audio file. Two of them are
fixed: `Marker0` at the start and `Marker500` at the end. User markers are
added, moved and deleted. Every change is checked against a marker cap, the
end of the file and a one-second spacing rule. User markers are renumbered
`Marker1..MarkerN` in time order, and most changes are logged on a bounded
undo stack that has a redo stack beside it.

Consecutive markers cut the file into segments. Each time the markers
change, the segments are rebuilt. Content typed into an old segment is
carried over to the new segment that matches it exactly, to the left part
of a split, or to a segment formed by merging two old neighbours. Read-only
queries find a segment by index, by time, and before or after a time. A
small validator checks a start/end pair before audio is cut.

The project models these parts:

- `wrappers.dfy`: `Option`.
- `marker_records.dfy` (`MarkerRecords`): the marker record, the fixed-marker test and a stable sort by time (Python's `sort(key=time)`), with its multiset, ordering and stability laws.
- `renumbering.dfy` (`Renumbering`): what `_renumber_user_markers` leaves and its laws.
- `segment.dfy` (`Segments`): `Segment`, content migration as functions, the `SegmentManager` class, whose loops are proved against those functions, and the queries.
- `marker_manager.dfy` (`MarkerStore`): the checks and results of every marker operation as functions, and the `MarkerManager` class, whose methods update `markers`, `undoStack`, `redoStack` and `selectedMarkerIndex` in place and recompute the segments each time the source fires its change callback.
- `marker_laws.dfy` (`MarkerLaws`): properties that relate several operations: round trips through undo and redo, fixed markers surviving deletes, and two places where the bookkeeping misbehaves.
- `audio_utils.dfy` (`AudioUtils`): `validate_segment_times`.

The player's state becomes parameters of the operations:
- whether a file is loaded;
- the duration and the playback position;
- the time already parsed from the entry fields;
- the yes/no answer to a confirmation dialog;
- the list-box selection.

Times are exact reals. A status value stands for each status-line message,
and `Done` for success.

## Model

| member | source | states |
|---|---|---|
| Segments.NewSegment | mp3player/segment.py:40-68 | building a segment fails exactly when start > end, with that error; otherwise all fields are as given and duration is end - start |
| Segments.ContainsTimeClosed | mp3player/segment.py:78-88 | containment is the closed interval: both ends are inside, anything before the start or after the end is outside |
| Segments.FirstCarrier | mp3player/segment.py:153-172 | the first scan picks the first unused old segment, in list order, that has the same range or starts at the same time and contains the new range; none when no unused one does |
| Segments.MergePartner | mp3player/segment.py:179-195 | the inner merge scan finds the first unused partner, in list order, other than the first segment, that starts where the first segment ends and ends at the new end; none if no such partner exists |
| Segments.MergedContentCases | mp3player/segment.py:185-190 | merged content is both parts joined by a newline, or the non-empty one alone |
| Segments.MergeScanContent | mp3player/segment.py:174-195 | a merge scan that takes nothing keeps the content the first scan chose. Otherwise the content is the merge made last: two old segments it took, the first starting at the new start and meeting the second, which ends at the new end |
| Segments.MergeScanTakesAvailable | mp3player/segment.py:174-195 | when some merge pair is still available, the merge scan takes one |
| Segments.MigrateFacts | mp3player/segment.py:151-195 | migrating one new segment only adds old indices to the used set, always including the first-scan match. With no merge available afterwards, the content is that match's (or `""`) and nothing else is taken; with one available, the content is a merge |
| Segments.ConsumedOnce | mp3player/segment.py:151-195 | the old segments consumed by two different new segments are disjoint: each old segment's content is carried at most once |
| Segments.UsedBeforeGrows | mp3player/segment.py:151 | the used set only grows across the new segments |
| Segments.CalculatedShape | mp3player/segment.py:131-209 | fewer than two markers give no segments; otherwise there are markers - 1 segments, and segment i has index i, runs from sorted marker i to i+1, takes marker i's comment, and is well formed |
| Segments.CalculatedContent | mp3player/segment.py:151-209 | a new segment that consumed no old segment has empty content; otherwise its content is empty, the content of an old segment it consumed, or a merge of two it consumed |
| Segments.FirstCalculationEmpty | mp3player/segment.py:107-108 | the first calculation, with no old segments, gives every segment empty content |
| Segments.CalculatedCarriesFirstMatch | mp3player/segment.py:153-172 | when the first scan matches old segment j and no merge is open afterwards, the new segment takes j's content and consumes exactly j |
| Segments.CalculatedMerges | mp3player/segment.py:174-195 | when the first scan finds nothing and two unused old segments span the new range, the content is the merge of two such segments, and both are consumed |
| Segments.RecalculationStable | mp3player/segment.py:119-213 | with distinct marker times, recalculating from an already calculated list changes nothing |
| Segments.CalculatedContiguous | mp3player/segment.py:141-149 | adjacent calculated segments share a boundary |
| Segments.SegmentManager.constructor | mp3player/segment.py:99-113 | the manager starts with the calculation from an empty old list |
| Segments.SegmentManager.CalculateSegments | mp3player/segment.py:119-213 | the loop leaves exactly the calculated list for the old segments and the markers |
| Segments.SegmentManager.MatchOldSegment | mp3player/segment.py:151-195 | the two scans over old segments compute the migration function's content and used set |
| Segments.SegmentManager.ExactOrSplitScan | mp3player/segment.py:152-171 | the first scan takes the content of the first unused old segment that matches exactly or contains the new one from its start, and marks it used |
| Segments.SegmentManager.MergeWithPartner | mp3player/segment.py:177-193 | the inner scan merges old segment `j` with the first unused partner that ends at the new end and starts where `j` ends, or changes nothing |
| Segments.SegmentByIndex | mp3player/segment.py:233-245 | a segment exactly for indices 0..len-1, and it is the one at that index |
| Segments.LatestContaining | mp3player/segment.py:257-269 | the scan finds a containing segment exactly when one exists, and no containing segment has a higher index |
| Segments.SegmentAtTime | mp3player/segment.py:247-269 | None exactly when no segment contains the time; otherwise a containing segment with the highest index |
| Segments.CurrentSegmentIndex | mp3player/segment.py:271-282 | the index of the segment at that time, under the same conditions |
| Segments.FirstStartingAfter | mp3player/segment.py:296-304 | the first segment starting strictly after the time, or None when every start is at or before it |
| Segments.LastEndingBefore | mp3player/segment.py:320-329 | the last segment ending strictly before the time, or None when every end is at or after it |
| Segments.NextSegment | mp3player/segment.py:284-306 | inside a segment: the one at index + 1 by the checked lookup. Outside: the first segment starting after the time, or None only when none starts after it |
| Segments.PreviousSegment | mp3player/segment.py:308-331 | inside a segment: the one at index - 1. Outside: the last segment ending before the time, or None only when none ends before it |
| Segments.SegmentStartTime | mp3player/segment.py:333-344 | the start of segment `index`, None out of range |
| Segments.SegmentEndTime | mp3player/segment.py:346-357 | the end of segment `index`, None out of range |
| Segments.SegmentDuration | mp3player/segment.py:359-370 | the duration of segment `index`, None out of range |
| Segments.DurationIsEndMinusStart | mp3player/segment.py:359-370 | for well-formed segments the reported duration is end - start |
| Segments.CurrentSegmentHalfOpen | mp3player/segment.py:247-282 | on contiguous segments a time is in some segment exactly when it lies between the first start and the last end, and on a shared boundary the later segment wins |
| Segments.NavigateBeforeFirst | mp3player/segment.py:284-331 | before the first segment, next is the first segment and previous is None |
| Segments.NavigateAfterLast | mp3player/segment.py:284-331 | after the last segment, next is None and previous is the last segment |
| Segments.NavigateInside | mp3player/segment.py:284-331 | inside the covered range, next and previous are the neighbours of the segment at that time |
| Segments.SplitExample | mp3player/segment.py:161-170 | a marker added inside an old segment keeps the content in the left part only |
| Segments.MergeExample | mp3player/segment.py:174-195 | deleting the marker between two old segments joins their contents with a newline |
| Segments.BoundaryExample | mp3player/segment.py:257-282 | at a time shared by two segments the later one is current |
| MarkerRecords.SortMultiset | mp3player/marker_manager.py:153 | sorting by time keeps exactly the same records |
| MarkerRecords.SortSorted | mp3player/marker_manager.py:153 | the sorted list is ordered by time |
| MarkerRecords.SortIdentity | mp3player/marker_manager.py:448-449 | sorting a list already in time order leaves it as it is (stability) |
| MarkerRecords.SelectSort | mp3player/marker_manager.py:436-449 | the user (or fixed) markers of a sorted list are the sorted user (or fixed) markers |
| MarkerRecords.IndexOf | mp3player/marker_manager.py:163 | `list.index`: the first position holding an equal record; None stands for the ValueError Python raises when there is none, which no caller in this model reaches |
| Renumbering.NatToStringInjective | mp3player/marker_manager.py:445 | different numbers give different `Marker{k}` suffixes |
| Renumbering.MarkerNameNotFixed | mp3player/marker_manager.py:445 | no number other than 0 and 500 names a marker like a fixed one |
| Renumbering.RenumberedSorted | mp3player/marker_manager.py:430-454 | the renumbered list is ordered by time |
| Renumbering.RenumberedParts | mp3player/marker_manager.py:430-454 | with fewer than 500 user markers, the renumbered users are the old users in time order renamed `Marker1..MarkerN`, and the fixed markers are the old ones, names kept |
| Renumbering.RenumberedNames | mp3player/marker_manager.py:443-445 | the k-th user marker in time order is named `Marker{k}` |
| Renumbering.RenumberedIdempotent | mp3player/marker_manager.py:430-454 | renumbering twice equals renumbering once |
| Renumbering.NewMarkerSurvivesRenumbering | mp3player/marker_manager.py:150-163 | the record appended by an add is, renamed after its rank, in the renumbered list, so `markers.index(new_marker)` finds it |
| MarkerStore.FirstBlocking | mp3player/marker_manager.py:110-129 | the spacing scan returns the first marker that blocks the time, and none exactly when none blocks it |
| MarkerStore.AddStatus | mp3player/marker_manager.py:50-129 | an add is accepted exactly when a file is loaded, fewer than 100 markers exist (fixed included), the time is not past duration - 0.5 (with a known duration), and no user marker is under a second away; a refusal by spacing names a blocking user marker |
| MarkerStore.AwayFromZero | mp3player/marker_manager.py:140-143 | a time within a millisecond of 0 becomes 0.001; any other time is kept |
| MarkerStore.AtLeastMinTime | mp3player/marker_manager.py:1049-1051 | a move target below 0.001 becomes 0.001; any other is kept |
| MarkerStore.UpdateStatus | mp3player/marker_manager.py:994-1043 | a move is accepted exactly when a file is loaded, the selected index is valid, the time is in range, and no user marker other than one equal to the selected record is under a second away |
| MarkerStore.Deletable | mp3player/marker_manager.py:193-203 | exactly the selected positions that are in range and hold a user marker |
| MarkerStore.DeletedData | mp3player/marker_manager.py:205-230 | the deleted records, highest position first |
| MarkerStore.DeleteStep | mp3player/marker_manager.py:207-211 | deleting from the highest position down: removing position d after all higher ones leaves what dropping the whole set leaves |
| MarkerStore.KeepFixed | mp3player/marker_manager.py:193-211 | deleting only user positions keeps every fixed marker, in order |
| MarkerStore.DeletableIncreasing | mp3player/marker_manager.py:188-205 | an increasing list-box selection gives increasing deletable positions |
| MarkerStore.RemoveAt | mp3player/marker_manager.py:962 | `del markers[i]` drops one copy of entry i and keeps the rest |
| MarkerStore.Nearest | mp3player/marker_manager.py:930-939 | the nearest-marker scan returns a position at minimal distance, with every earlier position strictly farther |
| MarkerStore.FirstLater | mp3player/marker_manager.py:813-817 | the first sorted marker strictly later than the position, none exactly when all are at or before it |
| MarkerStore.LastEarlier | mp3player/marker_manager.py:871-877 | the last sorted marker strictly earlier than the position, none exactly when all are at or after it |
| MarkerStore.Pushed | mp3player/marker_manager.py:462-471 | a push appends the record and, once over 50, drops the oldest, never exceeding 50 |
| MarkerStore.FirstMatching | mp3player/marker_manager.py:522-529 | the undo of an add finds the first marker within a millisecond of the recorded time with the same name |
| MarkerStore.InsertAt | mp3player/marker_manager.py:546 | `list.insert(i, x)` puts x at i, or appends it past the end |
| MarkerStore.MoveTop | mp3player/marker_manager.py:475-481 | popping one stack and pushing the record on the other keeps the total size, and leaves an empty source alone |
| MarkerStore.MarkerNameByPosition | mp3player/marker_manager.py:415-428 | the name band for each ratio range, each as an if-and-only-if |
| MarkerStore.AdjustedMarkerTime | mp3player/marker_manager.py:1131-1151 | with a known duration the adjusted time is at most duration - 0.5, and exactly that once displayed + delta reaches it; it is at least 0.001 (exactly 0.001 when displayed + delta is below it) unless the file is shorter than 0.501 s; inside those bounds it is displayed + delta |
| MarkerStore.MarkerManager.constructor | mp3player/marker_manager.py:11-28 | no markers, empty stacks, nothing selected |
| MarkerStore.MarkerManager.TriggerMarkerChangeCallbacks | mp3player/segment.py:115-117 | the registered callback recalculates the segments from the current markers |
| MarkerStore.MarkerManager.PushToUndoStack | mp3player/marker_manager.py:462-471 | the undo stack becomes the bounded push of the record, the redo stack is emptied, the history bound is kept |
| MarkerStore.MarkerManager.RenumberUserMarkers | mp3player/marker_manager.py:430-460 | the partition and rename loops leave exactly the renumbered list, and the segments are recalculated once |
| MarkerStore.MarkerManager.PlaceMarker | mp3player/marker_manager.py:50-163 | the checks in source order give the add status; on success the list is the renumbered sorted list with the new record and the selection is that record's position |
| MarkerStore.MarkerManager.AddMarkerAt | mp3player/marker_manager.py:47-182 | the add with its status; on refusal nothing changes; on success the new list and selection, no undo record and two recalculations |
| MarkerStore.MarkerManager.AddMarkerAtTime | mp3player/marker_manager.py:685-798 | the same add, plus an `add_marker` record with the new index and the renamed record, and an emptied redo stack |
| MarkerStore.MarkerManager.UpdateSelectedMarkerTime | mp3player/marker_manager.py:986-1100 | the move with its status; on success a `move_marker` record with the old index and times, the moved list, and the selection on the moved record |
| MarkerStore.MarkerManager.FindTooClose | mp3player/marker_manager.py:1026-1043 | the spacing loop returns the position of the first non-fixed marker, other than one equal to the skipped value, that lies less than one second from the time, or none |
| MarkerStore.MarkerManager.MoveMarkerTo | mp3player/marker_manager.py:1063-1071 | the selected record is retimed, the list re-sorted, and the selection is the first position holding the retimed record |
| MarkerStore.MarkerManager.CollectDeletable | mp3player/marker_manager.py:193-203 | the collecting loop returns the deletable positions |
| MarkerStore.MarkerManager.RemoveDescending | mp3player/marker_manager.py:207-211 | the deleting loop, from the highest position down, leaves the list without exactly those positions |
| MarkerStore.DescendingStep | mp3player/marker_manager.py:207-211 | deleting position `k` after all later selected positions is the same as deleting positions `k..` at once |
| MarkerStore.MarkerManager.DeleteSelectedMarker | mp3player/marker_manager.py:184-248 | nothing selected, only fixed markers selected, or not confirmed changes nothing; otherwise a `delete_markers` record, the list without the deletable positions renumbered, the selection kept, and two recalculations |
| MarkerStore.MarkerManager.DeleteNearestMarker | mp3player/marker_manager.py:918-984 | no file or no markers, a fixed nearest marker (named in the status), or no confirmation changes nothing; otherwise a `delete_marker` record and the nearest marker removed without renumbering |
| MarkerStore.MarkerManager.DeleteAllMarkersAction | mp3player/marker_manager.py:250-300 | no user markers or no confirmation changes nothing; otherwise a copy of the whole list is logged and only the fixed markers remain |
| MarkerStore.MarkerManager.JumpToNextMarker | mp3player/marker_manager.py:800-856 | the list and stacks do not change; the selection and new position are the first sorted marker later than the position, or stay as they were |
| MarkerStore.MarkerManager.JumpToPreviousMarker | mp3player/marker_manager.py:858-916 | the same with the last sorted marker earlier than the position |
| MarkerStore.MarkerManager.ApplyUndo | mp3player/marker_manager.py:484-574 | each undo branch leaves the undo effect of the record and fires the callback as often as that branch does |
| MarkerStore.MarkerManager.RemoveFirstMatching | mp3player/marker_manager.py:522-529 | the loop removes the first matching marker, or nothing |
| MarkerStore.MarkerManager.UndoAction | mp3player/marker_manager.py:473-582 | empty undo stack: nothing changes; otherwise the top record moves to the redo stack, the list becomes its undo effect, the selection is kept and the bound holds |
| MarkerStore.MarkerManager.ApplyRedo | mp3player/marker_manager.py:595-677 | each redo branch leaves the redo effect of the record and fires the callback as often as that branch does |
| MarkerStore.MarkerManager.RedoAction | mp3player/marker_manager.py:584-683 | empty redo stack: nothing changes; otherwise the top record moves back to the undo stack and the list becomes its redo effect |
| MarkerLaws.AddedMarkersFacts | mp3player/marker_manager.py:140-163 | with fewer than 100 markers an accepted add gives one more marker, in time order, with the fixed markers kept, one more user marker, users named `Marker1..MarkerN`, and the new user record present at the time with empty comment and content |
| MarkerLaws.MovedMarkersFacts | mp3player/marker_manager.py:1063-1068 | a move keeps the list in time order and changes only the moved record's time |
| MarkerLaws.SelectionDeletedKeepsFixed | mp3player/marker_manager.py:193-244 | a selection delete never removes a fixed marker, and leaves a list in time order with the users renumbered |
| MarkerLaws.DeleteNearestKeepsFixed | mp3player/marker_manager.py:930-962 | deleting a nearest user marker keeps every fixed marker |
| MarkerRecords.SelectKeepsOrder | mp3player/marker_manager.py:282-287 | keeping only the fixed (or only the user) markers of a list ordered by time leaves it ordered |
| MarkerLaws.DeleteAllRoundTrip | mp3player/marker_manager.py:253-287 | delete-all leaves no user marker and fewer markers, and keeps a list ordered by time ordered; undo restores the logged copy exactly; redo then empties the list, fixed markers included |
| MarkerLaws.RemoveAtSorted | mp3player/marker_manager.py:962 | removing an entry keeps a list in time order |
| MarkerLaws.DeleteMarkerRoundTrip | mp3player/marker_manager.py:543-546 | on a list in time order, undoing the delete of entry i restores the list, and redoing it removes the same entry again |
| MarkerLaws.StackRoundTrip | mp3player/marker_manager.py:479-481 | undo then redo leaves both stacks as they were |
| MarkerLaws.PushDropsOldest | mp3player/marker_manager.py:462-471 | a push onto a full stack keeps 50 records, dropping exactly the oldest; otherwise it only appends |
| MarkerLaws.UndoRedoKeepSorted | mp3player/marker_manager.py:484-677 | undo and redo keep a list in time order (a restored delete-all copy taken as ordered) |
| MarkerLaws.DeleteMarkersRecordIsInert | mp3player/marker_manager.py:484-574 | a `delete_markers` record has no undo or redo branch: both leave the list unchanged and recalculate nothing, so undoing a selection delete that removed a marker does not give the old list back |
| MarkerLaws.NextMarkerIsEarliestLater | mp3player/marker_manager.py:809-817 | the next jump finds a marker exactly when one lies later, and it is the earliest such |
| MarkerLaws.PreviousMarkerIsLatestEarlier | mp3player/marker_manager.py:867-877 | the previous jump finds a marker exactly when one lies earlier, and it is the latest such |
| MarkerLaws.UndoMoveCanRetimeAnother | mp3player/marker_manager.py:1053-1068 | move record indices are taken before the re-sort: undoing a move past a neighbour retimes the neighbour, not the moved marker |
| MarkerLaws.SpacingSkipsEqualTwin | mp3player/marker_manager.py:1026-1033 | the move spacing check skips every record equal to the selected one, so an identical twin half a second away does not block |
| AudioUtils.ValidateSegmentTimes | mp3player/audio_utils.py:95-122 | accepted exactly when start >= 0, end > start and end - start <= max; otherwise a negative start first, then a non-positive range, then an over-long one, which carries the duration and the limit |
| AudioUtils.AcceptedRangeMakesSegment | mp3player/audio_utils.py:95-122 | an accepted range builds a segment with positive duration within the limit |
| AudioUtils.NegativeStartReportedFirst | mp3player/audio_utils.py:109-113 | a negative start is reported even when the end is invalid too |

## Left out

- The tkinter user interface is not modelled. This covers the list box, the entry fields, the status line, `update_marker_list`, `select_all_markers`, `on_marker_select`, `edit_marker_by_index` and the progress display. The seek command and position update in the jumps are left out too.
- `player.update_segment_list`, `save_marker_data`, auto-save scheduling and the loader that creates the fixed markers are not part of this model. Every method is therefore specified for any marker list. `MarkerManager.Valid` holds only the history bound, because time order cannot be shown for a list the model never creates. `MarkerLaws.UndoRedoKeepSorted` states time order separately.
- Parsing the entry fields with `int()` and its `ValueError` fallbacks is left out. So is the choice between the preview time, the entered time and the playback position. The method receives the resulting time.
- The rounding of times into minute/second/centisecond text is left out, along with other floating-point behaviour: times are exact reals.
- Exceptions raised inside a change callback are swallowed by the source. The model calls the single registered callback (the segment recalculation) directly.
- Dictionary identity is not modelled. Records are values. An undo record that shares a dictionary with a list entry (after redo of an add or undo of a delete) does not see later renames of that entry.
- `get_segments` and `get_segment_count` only return the field and its length; they are read as `segments` and `|segments|`.
- `MarkerStore.MarkerManager.constructor`: the segment manager is created together with the marker manager and starts from the empty list. The player wires the two objects together elsewhere.
- `AudioUtils.Message`: the third message interpolates the durations with float formatting. Its verdict carries the two numbers instead.
- `MarkerStore.MarkerManager.DeleteSelectedMarker` requires a strictly increasing selection, which is what the list box returns.
- The undo of an add is not proved to restore the list from before the add. It removes the first record with the matching time and name and then renumbers; only that step is stated.
- `Renumbering.RenumberedParts` and the lemmas built on it assume fewer than 500 user markers. With 500 or more, renumbering itself would produce the name `Marker500`. The 100-marker cap keeps lists far below that.
