/**
 * `MarkerManager`: the time-sorted marker list with its two fixed markers
 * (`Marker0`, `Marker500`), the add / move / delete operations with their
 * checks, the renumbering of user markers, and the bounded undo and redo
 * stacks. Every change to the list recomputes the segments, as the change
 * callback registered by `SegmentManager` does.
 *
 * The player's state the operations read (whether a file is loaded, the
 * duration, the playback position, the time typed into the entry fields) and
 * the answers to the confirmation dialogs are parameters.
 */
module MarkerStore {
  import opened Wrappers
  import opened MarkerRecords
  import opened Renumbering
  import opened Segments

  /** `max_markers`: the fixed markers count towards it. */
  const MAX_MARKERS: nat := 100
  /** `max_history`: the undo stack keeps at most this many records. */
  const MAX_HISTORY: nat := 50
  /** `END_TOLERANCE`: no marker may be placed later than this before the end of the file. */
  const END_TOLERANCE: real := 0.5
  /** A new or moved marker keeps at least this distance from every user marker. */
  const MIN_SPACING: real := 1.0
  /** The earliest time a user marker may take; 0.0 belongs to `Marker0`. */
  const MIN_TIME: real := 0.001

  /** The records pushed on the undo stack, one per `action` tag. */
  datatype UndoRecord =
    | MoveMarker(index: nat, fromTime: real, toTime: real)
    | AddMarker(index: nat, markerData: Marker)
    | DeleteMarker(index: nat, markerData: Marker)
    | DeleteMarkers(markersData: seq<Marker>)
    | DeleteAllMarkers(markersData: seq<Marker>)

  /** What an operation reports in the status line, or `Done`. */
  datatype Status =
    | Done
    | NoFileLoaded
    | NoFileOrNoMarkers
    | MaximumReached
    | BeyondEnd
    | TooClose(existing: Marker)
    | NothingSelected
    | SelectionProtected
    | Protected(name: string)
    | NotConfirmed
    | NoUserMarkers
    | NotFound
    | NothingToUndo
    | NothingToRedo

  // ---------------------------------------------------------------------
  // The checks on a new time
  // ---------------------------------------------------------------------

  /** The end-of-file check: with a known duration, a time past `duration - END_TOLERANCE` is refused. */
  predicate PastEnd(duration: real, t: real) {
    duration > 0.0 && t > duration - END_TOLERANCE
  }

  /** A marker that forbids time `t`: a user marker less than a second away, other than one equal to `skip`. */
  predicate Blocks(m: Marker, t: real, skip: Option<Marker>) {
    skip != Some(m) && !IsFixed(m) && Abs(m.time - t) < MIN_SPACING
  }

  /** The spacing scan: the first marker at or after `from` that blocks `t`. */
  function FirstBlocking(ms: seq<Marker>, t: real, skip: Option<Marker>, from: nat): (r: Option<nat>)
    requires from <= |ms|
    ensures r.None? <==> forall i :: from <= i < |ms| ==> !Blocks(ms[i], t, skip)
    ensures r.Some? ==> from <= r.value < |ms| && Blocks(ms[r.value], t, skip)
    ensures r.Some? ==> forall i :: from <= i < r.value ==> !Blocks(ms[i], t, skip)
    decreases |ms| - from
  {
    if from == |ms| then None
    else if Blocks(ms[from], t, skip) then Some(from)
    else FirstBlocking(ms, t, skip, from + 1)
  }

  /** The checks of `add_marker` and `add_marker_at_time`, in the order they run. */
  function AddStatus(ms: seq<Marker>, fileLoaded: bool, duration: real, t: real): (r: Status)
    ensures r == Done <==>
              fileLoaded && |ms| < MAX_MARKERS && !PastEnd(duration, t)
              && forall i :: 0 <= i < |ms| ==> !Blocks(ms[i], t, None)
    ensures r.TooClose? ==> r.existing in ms && Blocks(r.existing, t, None)
  {
    if !fileLoaded then NoFileLoaded
    else if |ms| >= MAX_MARKERS then MaximumReached
    else if PastEnd(duration, t) then BeyondEnd
    else
      var b := FirstBlocking(ms, t, None, 0);
      if b.Some? then TooClose(ms[b.value]) else Done
  }

  /** An added marker is never put within a millisecond of 0.0, where `Marker0` sits. */
  function AwayFromZero(t: real): (r: real)
    ensures Abs(r) >= MIN_TIME
    ensures Abs(t) < MIN_TIME ==> r == MIN_TIME
    ensures Abs(t) >= MIN_TIME ==> r == t
  {
    if Abs(t) < MIN_TIME then MIN_TIME else t
  }

  /** A moved marker is never put earlier than a millisecond. */
  function AtLeastMinTime(t: real): (r: real)
    ensures r >= MIN_TIME
    ensures t < MIN_TIME ==> r == MIN_TIME
    ensures t >= MIN_TIME ==> r == t
  {
    if t < MIN_TIME then MIN_TIME else t
  }

  /** The record an add creates before renumbering names it. */
  function NewMarker(t: real): Marker {
    Marker(t, "TempMarker", "", "")
  }

  /** The list after an accepted add of time `t`. */
  function AddedMarkers(ms: seq<Marker>, t: real): seq<Marker> {
    Renumbered(SortByTime(ms + [NewMarker(t)]))
  }

  /** The new record as it stands in that list, renamed after its rank. */
  function AddedMarker(ms: seq<Marker>, t: real): Marker {
    RenamedNewMarker(ms, NewMarker(t))
  }

  /** The checks of `update_selected_marker_time`, in the order they run. */
  function UpdateStatus(ms: seq<Marker>, selected: Option<nat>, fileLoaded: bool, duration: real, t: real): (r: Status)
    ensures r == Done <==>
              fileLoaded && selected.Some? && selected.value < |ms| && !PastEnd(duration, t)
              && forall i :: 0 <= i < |ms| ==> !Blocks(ms[i], t, Some(ms[selected.value]))
    ensures r.TooClose? ==> selected.Some? && selected.value < |ms|
                            && r.existing in ms && r.existing != ms[selected.value] && Blocks(r.existing, t, None)
  {
    if !fileLoaded then NoFileLoaded
    else if selected.None? || selected.value >= |ms| then NothingSelected
    else if PastEnd(duration, t) then BeyondEnd
    else
      var b := FirstBlocking(ms, t, Some(ms[selected.value]), 0);
      if b.Some? then TooClose(ms[b.value]) else Done
  }

  /** The list after marker `i` is moved to `t`: set in place, then sorted. */
  function MovedMarkers(ms: seq<Marker>, i: nat, t: real): seq<Marker>
    requires i < |ms|
  {
    SortByTime(ms[i := ms[i].(time := t)])
  }

  // ---------------------------------------------------------------------
  // Deleting
  // ---------------------------------------------------------------------

  /** The entries of `ms` from position `i` on whose positions are not in `gone`. */
  function Keep(ms: seq<Marker>, gone: set<nat>, i: nat): (r: seq<Marker>)
    requires i <= |ms|
    ensures |r| <= |ms| - i
    decreases |ms| - i
  {
    if i == |ms| then [] else (if i in gone then [] else [ms[i]]) + Keep(ms, gone, i + 1)
  }

  /** The positions, in selection order, that `delete_selected_marker` deletes: in range and not fixed. */
  function Deletable(ms: seq<Marker>, selection: seq<nat>): (r: seq<nat>)
    ensures forall k :: 0 <= k < |r| ==> r[k] in selection && r[k] < |ms| && !IsFixed(ms[r[k]])
    ensures forall p :: p in selection && p < |ms| && !IsFixed(ms[p]) ==> p in r
  {
    if selection == [] then []
    else
      var n := |selection| - 1;
      var p := selection[n];
      assert forall x :: x in selection[..n] ==> x in selection;
      assert forall x :: x in selection ==> x in selection[..n] || x == p;
      Deletable(ms, selection[..n]) + (if p < |ms| && !IsFixed(ms[p]) then [p] else [])
  }

  predicate Increasing(s: seq<nat>) {
    forall i, j :: 0 <= i < j < |s| ==> s[i] < s[j]
  }

  function Positions(s: seq<nat>): set<nat> {
    set x | x in s
  }

  /** In an increasing list, every position after entry `k` is larger than it. */
  lemma LaterPositions(s: seq<nat>, k: nat, later: set<nat>)
    requires Increasing(s) && k < |s| && later == Positions(s[k + 1..])
    ensures forall x :: x in later ==> x > s[k]
  {
    forall x | x in later ensures x > s[k] {
      var m :| 0 <= m < |s[k + 1..]| && s[k + 1..][m] == x;
      assert s[k + 1 + m] == x;
    }
  }

  /** One turn of the descending delete loop: removing entry `k` after all later ones. */
  lemma DescendingStep(ms: seq<Marker>, toDelete: seq<nat>, k: nat)
    requires Increasing(toDelete) && k < |toDelete| && toDelete[k] < |ms|
    ensures toDelete[k] < |Keep(ms, Positions(toDelete[k + 1..]), 0)|
    ensures RemoveAt(Keep(ms, Positions(toDelete[k + 1..]), 0), toDelete[k]) == Keep(ms, Positions(toDelete[k..]), 0)
  {
    LaterPositions(toDelete, k, Positions(toDelete[k + 1..]));
    DeleteStep(ms, Positions(toDelete[k + 1..]), toDelete[k]);
    assert Positions(toDelete[k..]) == Positions(toDelete[k + 1..]) + {toDelete[k]};
  }

  /** The `markers_data` of a `delete_markers` record: the deleted markers, highest position first. */
  function DeletedData(ms: seq<Marker>, positions: seq<nat>): (r: seq<Marker>)
    requires forall k :: 0 <= k < |positions| ==> positions[k] < |ms|
    ensures |r| == |positions|
    ensures forall k :: 0 <= k < |r| ==> r[k] == ms[positions[|positions| - 1 - k]]
  {
    seq(|positions|, k requires 0 <= k < |positions| => ms[positions[|positions| - 1 - k]])
  }

  /** The list after `delete_selected_marker` deletes the `Deletable` positions and renumbers. */
  function SelectionDeleted(ms: seq<Marker>, selection: seq<nat>): seq<Marker> {
    Renumbered(Keep(ms, Positions(Deletable(ms, selection)), 0))
  }

  /** Deleting at least one position in range makes the list shorter. */
  lemma {:induction false} KeepShorter(ms: seq<Marker>, gone: set<nat>, i: nat, x: nat)
    requires i <= x < |ms| && x in gone
    ensures |Keep(ms, gone, i)| < |ms| - i
    decreases |ms| - i
  {
    if i < x {
      KeepShorter(ms, gone, i + 1, x);
    }
  }

  /** Positions before `d` that are not deleted stay as they are. */
  lemma {:induction false} KeepUntouched(ms: seq<Marker>, gone: set<nat>, i: nat, d: nat)
    requires i <= d <= |ms| && forall x :: x in gone ==> !(i <= x < d)
    ensures Keep(ms, gone, i) == ms[i..d] + Keep(ms, gone, d)
    decreases d - i
  {
    if i < d {
      KeepUntouched(ms, gone, i + 1, d);
      assert i !in gone;
      assert Keep(ms, gone, i) == [ms[i]] + Keep(ms, gone, i + 1);
      assert ms[i..d] == [ms[i]] + ms[i + 1..d];
    }
  }

  /** `Keep` only looks at the positions from `i` on. */
  lemma {:induction false} KeepAgrees(ms: seq<Marker>, g1: set<nat>, g2: set<nat>, i: nat)
    requires i <= |ms| && forall x: nat :: i <= x < |ms| ==> (x in g1 <==> x in g2)
    ensures Keep(ms, g1, i) == Keep(ms, g2, i)
    decreases |ms| - i
  {
    if i < |ms| {
      KeepAgrees(ms, g1, g2, i + 1);
    }
  }

  /**
   * Deleting position `d` of the list that remains after deleting the
   * (higher) positions `gone` is the same as deleting `gone + {d}` at once:
   * why deleting from the highest position down is correct.
   */
  lemma DeleteStep(ms: seq<Marker>, gone: set<nat>, d: nat)
    requires d < |ms| && forall x :: x in gone ==> x > d
    ensures d < |Keep(ms, gone, 0)| && Keep(ms, gone, 0)[d] == ms[d]
    ensures RemoveAt(Keep(ms, gone, 0), d) == Keep(ms, gone + {d}, 0)
  {
    var rest := Keep(ms, gone, d + 1);
    KeepBefore(ms, gone, d);
    KeepDropping(ms, gone, d);
    var k := Keep(ms, gone, 0);
    assert k[..d] == ms[..d] && k[d] == ms[d] && k[d + 1..] == rest;
  }

  lemma KeepBefore(ms: seq<Marker>, gone: set<nat>, d: nat)
    requires d < |ms| && forall x :: x in gone ==> x > d
    ensures Keep(ms, gone, 0) == ms[..d] + [ms[d]] + Keep(ms, gone, d + 1)
  {
    KeepUntouched(ms, gone, 0, d);
  }

  lemma KeepDropping(ms: seq<Marker>, gone: set<nat>, d: nat)
    requires d < |ms| && forall x :: x in gone ==> x > d
    ensures Keep(ms, gone + {d}, 0) == ms[..d] + Keep(ms, gone, d + 1)
  {
    var more := gone + {d};
    assert Keep(ms, more, 0) == ms[..d] + Keep(ms, more, d) by {
      KeepUntouched(ms, more, 0, d);
      assert ms[0..d] == ms[..d];
    }
    assert Keep(ms, more, d) == Keep(ms, more, d + 1) by {
      assert d in more;
    }
    assert Keep(ms, more, d + 1) == Keep(ms, gone, d + 1) by {
      KeepAgrees(ms, more, gone, d + 1);
    }
  }

  /** Deleting only user markers leaves the fixed markers as they were, in order. */
  lemma {:induction false} KeepFixed(ms: seq<Marker>, gone: set<nat>, i: nat)
    requires i <= |ms| && forall x :: x in gone && x < |ms| ==> !IsFixed(ms[x])
    ensures FixedMarkers(Keep(ms, gone, i)) == FixedMarkers(ms[i..])
    decreases |ms| - i
  {
    if i < |ms| {
      KeepFixed(ms, gone, i + 1);
      KeepFixedStep(ms, gone, i);
      FixedSuffixStep(ms, i);
    }
  }

  /** One position of `KeepFixed`: position `i` contributes the same fixed marker, kept or not. */
  lemma KeepFixedStep(ms: seq<Marker>, gone: set<nat>, i: nat)
    requires i < |ms| && (i in gone ==> !IsFixed(ms[i]))
    ensures FixedMarkers(Keep(ms, gone, i)) == (if IsFixed(ms[i]) then [ms[i]] else []) + FixedMarkers(Keep(ms, gone, i + 1))
  {
    var rest := Keep(ms, gone, i + 1);
    if i in gone {
      assert Keep(ms, gone, i) == [] + rest == rest;
    } else {
      assert Keep(ms, gone, i) == [ms[i]] + rest;
      SelectCons(ms[i], rest, true);
    }
  }

  lemma FixedSuffixStep(ms: seq<Marker>, i: nat)
    requires i < |ms|
    ensures FixedMarkers(ms[i..]) == (if IsFixed(ms[i]) then [ms[i]] else []) + FixedMarkers(ms[i + 1..])
  {
    assert ms[i..] == [ms[i]] + ms[i + 1..];
    SelectCons(ms[i], ms[i + 1..], true);
  }

  /** A strictly increasing selection yields strictly increasing deletable positions. */
  lemma {:induction false} DeletableIncreasing(ms: seq<Marker>, selection: seq<nat>)
    requires Increasing(selection)
    ensures Increasing(Deletable(ms, selection))
  {
    if selection != [] {
      var n := |selection| - 1;
      DeletableIncreasing(ms, selection[..n]);
      var r := Deletable(ms, selection[..n]);
      forall k | 0 <= k < |r| ensures r[k] < selection[n] {
        assert r[k] in selection[..n];
      }
    }
  }

  /** `del ms[i]`. */
  function RemoveAt(ms: seq<Marker>, i: nat): (r: seq<Marker>)
    requires i < |ms|
    ensures |r| == |ms| - 1
    ensures multiset(r) + multiset{ms[i]} == multiset(ms)
  {
    assert ms == ms[..i] + [ms[i]] + ms[i + 1..];
    ms[..i] + ms[i + 1..]
  }

  /** Distance of a marker from the playback position. */
  function Distance(m: Marker, pos: real): real {
    Abs(m.time - pos)
  }

  /** The nearest-marker scan: the first position at strictly minimal distance. */
  function Nearest(ms: seq<Marker>, pos: real): (r: nat)
    requires ms != []
    ensures r < |ms|
    ensures forall i :: 0 <= i < |ms| ==> Distance(ms[r], pos) <= Distance(ms[i], pos)
    ensures forall i :: 0 <= i < r ==> Distance(ms[r], pos) < Distance(ms[i], pos)
  {
    if |ms| == 1 then 0
    else
      var n := |ms| - 1;
      var b := Nearest(ms[..n], pos);
      assert forall i :: 0 <= i < n ==> ms[..n][i] == ms[i];
      if Distance(ms[n], pos) < Distance(ms[b], pos) then n else b
  }

  // ---------------------------------------------------------------------
  // Jumping
  // ---------------------------------------------------------------------

  /** The forward scan of `jump_to_next_marker`: the first marker at or after `from` later than `pos`. */
  function FirstLater(ms: seq<Marker>, pos: real, from: nat): (r: Option<nat>)
    requires from <= |ms|
    ensures r.None? <==> forall i :: from <= i < |ms| ==> ms[i].time <= pos
    ensures r.Some? ==> from <= r.value < |ms| && ms[r.value].time > pos
    ensures r.Some? ==> forall i :: from <= i < r.value ==> ms[i].time <= pos
    decreases |ms| - from
  {
    if from == |ms| then None
    else if ms[from].time > pos then Some(from)
    else FirstLater(ms, pos, from + 1)
  }

  /** The backward scan of `jump_to_previous_marker`: the last marker before `upTo` earlier than `pos`. */
  function LastEarlier(ms: seq<Marker>, pos: real, upTo: nat): (r: Option<nat>)
    requires upTo <= |ms|
    ensures r.None? <==> forall i :: 0 <= i < upTo ==> pos <= ms[i].time
    ensures r.Some? ==> r.value < upTo && ms[r.value].time < pos
    ensures r.Some? ==> forall i :: r.value < i < upTo ==> pos <= ms[i].time
  {
    if upTo == 0 then None
    else if ms[upTo - 1].time < pos then Some(upTo - 1)
    else LastEarlier(ms, pos, upTo - 1)
  }

  // ---------------------------------------------------------------------
  // Undo and redo
  // ---------------------------------------------------------------------

  /** `push_to_undo_stack`'s new undo stack: append, then drop the oldest once over `MAX_HISTORY`. */
  function Pushed(stack: seq<UndoRecord>, op: UndoRecord): (r: seq<UndoRecord>)
    ensures r != [] && r[|r| - 1] == op
    ensures |stack| < MAX_HISTORY ==> r == stack + [op]
    ensures |stack| <= MAX_HISTORY ==> |r| <= MAX_HISTORY
    ensures |stack| == MAX_HISTORY ==> r == stack[1..] + [op]
  {
    var s := stack + [op];
    if |s| > MAX_HISTORY then s[1..] else s
  }

  /** The test `undo_action` uses to find the marker an add created. */
  predicate SameAddedMarker(m: Marker, data: Marker) {
    Abs(m.time - data.time) < MIN_TIME && m.name == data.name
  }

  /** The scan of the undo of an add: the first marker at or after `from` that matches `data`. */
  function FirstMatching(ms: seq<Marker>, data: Marker, from: nat): (r: Option<nat>)
    requires from <= |ms|
    ensures r.None? <==> forall i :: from <= i < |ms| ==> !SameAddedMarker(ms[i], data)
    ensures r.Some? ==> from <= r.value < |ms| && SameAddedMarker(ms[r.value], data)
    ensures r.Some? ==> forall i :: from <= i < r.value ==> !SameAddedMarker(ms[i], data)
    decreases |ms| - from
  {
    if from == |ms| then None
    else if SameAddedMarker(ms[from], data) then Some(from)
    else FirstMatching(ms, data, from + 1)
  }

  /** Python's `list.insert(i, x)`: past the end it appends. */
  function InsertAt(ms: seq<Marker>, i: nat, x: Marker): (r: seq<Marker>)
    ensures |r| == |ms| + 1
    ensures multiset(r) == multiset(ms) + multiset{x}
    ensures i <= |ms| ==> r[i] == x && r[..i] == ms[..i] && r[i + 1..] == ms[i..]
  {
    if i <= |ms| then
      assert ms == ms[..i] + ms[i..];
      ms[..i] + [x] + ms[i..]
    else ms + [x]
  }

  /** The marker list after `undo_action` undoes `op`. */
  function UndoEffect(ms: seq<Marker>, op: UndoRecord): seq<Marker> {
    match op
    case MoveMarker(i, fromTime, _) => if i < |ms| then MovedMarkers(ms, i, fromTime) else ms
    case AddMarker(_, data) =>
      var found := FirstMatching(ms, data, 0);
      Renumbered(SortByTime(if found.Some? then RemoveAt(ms, found.value) else ms))
    case DeleteMarker(i, data) => SortByTime(InsertAt(ms, i, data))
    case DeleteMarkers(_) => ms
    case DeleteAllMarkers(data) => data
  }

  /** How many times undoing `op` fires the change callback. */
  function UndoRecalculations(ms: seq<Marker>, op: UndoRecord): nat {
    match op
    case MoveMarker(i, _, _) => if i < |ms| then 1 else 0
    case AddMarker(_, _) => 2
    case DeleteMarker(_, _) => 1
    case DeleteMarkers(_) => 0
    case DeleteAllMarkers(_) => 1
  }

  /** The marker list after `redo_action` redoes `op`. */
  function RedoEffect(ms: seq<Marker>, op: UndoRecord): seq<Marker> {
    match op
    case MoveMarker(i, _, toTime) => if i < |ms| then MovedMarkers(ms, i, toTime) else ms
    case AddMarker(_, data) => Renumbered(SortByTime(ms + [data]))
    case DeleteMarker(i, _) => if i < |ms| then SortByTime(RemoveAt(ms, i)) else ms
    case DeleteMarkers(_) => ms
    case DeleteAllMarkers(_) => []
  }

  /** How many times redoing `op` fires the change callback. */
  function RedoRecalculations(ms: seq<Marker>, op: UndoRecord): nat {
    match op
    case MoveMarker(i, _, _) => if i < |ms| then 1 else 0
    case AddMarker(_, _) => 2
    case DeleteMarker(i, _) => if i < |ms| then 1 else 0
    case DeleteMarkers(_) => 0
    case DeleteAllMarkers(_) => 1
  }

  /** Pop the top of `src` and push it on `dst`; empty `src` leaves both alone. */
  function MoveTop(src: seq<UndoRecord>, dst: seq<UndoRecord>): (r: (seq<UndoRecord>, seq<UndoRecord>))
    ensures |r.0| + |r.1| == |src| + |dst|
    ensures src == [] ==> r == (src, dst)
    ensures src != [] ==> r.0 + [src[|src| - 1]] == src && r.1 == dst + [src[|src| - 1]]
  {
    if src == [] then (src, dst)
    else
      assert src[..|src| - 1] + [src[|src| - 1]] == src;
      (src[..|src| - 1], dst + [src[|src| - 1]])
  }

  // ---------------------------------------------------------------------
  // Pure helpers of the entry fields
  // ---------------------------------------------------------------------

  /** `_get_marker_name_by_position`: a name for a position given as a fraction of the file. */
  function MarkerNameByPosition(ratio: real): (r: string)
    ensures r == "Marker0" <==> ratio <= 0.01
    ensures r == "Marker500" <==> 0.01 < ratio && ratio >= 0.99
    ensures r == "MarkerSmall" <==> 0.01 < ratio <= 0.1
    ensures r == "MarkerLarge" <==> 0.1 < ratio && 0.9 <= ratio < 0.99
    ensures r == "MarkerMid" <==> 0.1 < ratio < 0.9
  {
    if ratio <= 0.01 then "Marker0"
    else if ratio >= 0.99 then "Marker500"
    else if ratio <= 0.1 then "MarkerSmall"
    else if ratio >= 0.9 then "MarkerLarge"
    else "MarkerMid"
  }

  /** `adjust_marker_time`: the displayed time moved by `delta`, kept inside the file. */
  function AdjustedMarkerTime(displayed: real, delta: real, duration: real): (r: real)
    ensures duration <= 0.0 ==> r >= MIN_TIME
    ensures duration > 0.0 ==> r <= duration - END_TOLERANCE
    ensures duration > 0.0 && duration - END_TOLERANCE >= MIN_TIME ==> r >= MIN_TIME
    ensures MIN_TIME <= displayed + delta && (duration <= 0.0 || displayed + delta <= duration - END_TOLERANCE)
            ==> r == displayed + delta
    ensures duration > 0.0 && displayed + delta >= duration - END_TOLERANCE ==> r == duration - END_TOLERANCE
    ensures displayed + delta < MIN_TIME && (duration <= 0.0 || MIN_TIME <= duration - END_TOLERANCE) ==> r == MIN_TIME
  {
    var moved := if displayed + delta > 0.0 then displayed + delta else 0.0;
    var clamped := if moved < MIN_TIME then MIN_TIME else moved;
    if duration > 0.0 then (if clamped < duration - END_TOLERANCE then clamped else duration - END_TOLERANCE)
    else clamped
  }

  // ---------------------------------------------------------------------
  // The manager
  // ---------------------------------------------------------------------

  class MarkerManager {
    var markers: seq<Marker>
    var undoStack: seq<UndoRecord>
    var redoStack: seq<UndoRecord>
    var selectedMarkerIndex: Option<nat>
    /** The segment manager whose `_on_markers_changed` is the one registered change callback. */
    const segmentManager: SegmentManager

    /** The history bound: together the two stacks never hold more than `MAX_HISTORY` records. */
    predicate Valid()
      reads this
    {
      |undoStack| + |redoStack| <= MAX_HISTORY
    }

    /** No markers, empty stacks, nothing selected; the segment manager starts from the empty list. */
    constructor ()
      ensures Valid()
      ensures markers == [] && undoStack == [] && redoStack == [] && selectedMarkerIndex == None
      ensures fresh(segmentManager) && segmentManager.segments == []
    {
      markers := [];
      undoStack := [];
      redoStack := [];
      selectedMarkerIndex := None;
      segmentManager := new SegmentManager([]);
    }

    /** `_trigger_marker_change_callbacks`: the one registered callback recomputes the segments. */
    method TriggerMarkerChangeCallbacks()
      modifies segmentManager
      ensures segmentManager.segments == Calculated(old(segmentManager.segments), markers)
    {
      segmentManager.CalculateSegments(markers);
    }

    /** `push_to_undo_stack`. */
    method PushToUndoStack(op: UndoRecord)
      requires Valid()
      modifies this
      ensures Valid()
      ensures undoStack == Pushed(old(undoStack), op) && redoStack == []
      ensures markers == old(markers) && selectedMarkerIndex == old(selectedMarkerIndex)
    {
      undoStack := undoStack + [op];
      if |undoStack| > MAX_HISTORY {
        undoStack := undoStack[1..];
      }
      redoStack := [];
    }

    /** `_renumber_user_markers`, which also fires the change callback once. */
    method RenumberUserMarkers()
      modifies this, segmentManager
      ensures markers == Renumbered(old(markers))
      ensures undoStack == old(undoStack) && redoStack == old(redoStack)
      ensures selectedMarkerIndex == old(selectedMarkerIndex)
      ensures segmentManager.segments == Calculated(old(segmentManager.segments), markers)
    {
      var userMarkers: seq<Marker> := [];
      var fixedMarkers: seq<Marker> := [];
      var i := 0;
      while i < |markers|
        invariant 0 <= i <= |markers|
        invariant userMarkers == UserMarkers(markers[..i])
        invariant fixedMarkers == FixedMarkers(markers[..i])
      {
        assert markers[..i + 1][..i] == markers[..i];
        if IsFixed(markers[i]) {
          fixedMarkers := fixedMarkers + [markers[i]];
        } else {
          userMarkers := userMarkers + [markers[i]];
        }
        i := i + 1;
      }
      assert markers[..i] == markers;
      userMarkers := SortByTime(userMarkers);
      ghost var sortedUsers := userMarkers;
      var k := 0;
      while k < |userMarkers|
        invariant 0 <= k <= |userMarkers| == |sortedUsers|
        invariant forall j :: 0 <= j < k ==> userMarkers[j] == sortedUsers[j].(name := MarkerName(j + 1))
        invariant forall j :: k <= j < |userMarkers| ==> userMarkers[j] == sortedUsers[j]
      {
        userMarkers := userMarkers[k := userMarkers[k].(name := MarkerName(k + 1))];
        k := k + 1;
      }
      assert userMarkers == NamedInOrder(sortedUsers);
      markers := SortByTime(userMarkers + fixedMarkers);
      segmentManager.CalculateSegments(markers);
    }

    /**
     * The one-second spacing loop of the add and move operations: the first
     * marker, other than fixed ones and ones equal to `skip`, less than a
     * second from `t`.
     */
    static method FindTooClose(ms: seq<Marker>, t: real, skip: Option<Marker>) returns (r: Option<nat>)
      ensures r == FirstBlocking(ms, t, skip, 0)
    {
      var j := 0;
      while j < |ms|
        invariant 0 <= j <= |ms|
        invariant FirstBlocking(ms, t, skip, 0) == FirstBlocking(ms, t, skip, j)
      {
        var existing := ms[j];
        if Some(existing) == skip || IsFixed(existing) {
          j := j + 1;
          continue;
        }
        if Abs(existing.time - t) < MIN_SPACING {
          return Some(j);
        }
        j := j + 1;
      }
      return None;
    }

    /** What `add_marker` and `add_marker_at_time` share: the checks, then append, sort, renumber and select. */
    method PlaceMarker(fileLoaded: bool, duration: real, t: real) returns (status: Status)
      modifies this, segmentManager
      ensures status == AddStatus(old(markers), fileLoaded, duration, t)
      ensures status != Done ==> unchanged(this) && unchanged(segmentManager)
      ensures status == Done ==>
                markers == AddedMarkers(old(markers), AwayFromZero(t))
                && selectedMarkerIndex == IndexOf(markers, AddedMarker(old(markers), AwayFromZero(t)))
                && selectedMarkerIndex.Some?
                && undoStack == old(undoStack) && redoStack == old(redoStack)
                && segmentManager.segments == Calculated(old(segmentManager.segments), markers)
    {
      if !fileLoaded {
        return NoFileLoaded;
      }
      if |markers| >= MAX_MARKERS {
        return MaximumReached;
      }
      if PastEnd(duration, t) {
        return BeyondEnd;
      }
      var conflict := FindTooClose(markers, t, None);
      if conflict.Some? {
        return TooClose(markers[conflict.value]);
      }
      var newMarker := NewMarker(AwayFromZero(t));
      var before := markers;
      markers := SortByTime(markers + [newMarker]);
      RenumberUserMarkers();
      NewMarkerSurvivesRenumbering(before, newMarker);
      selectedMarkerIndex := IndexOf(markers, RenamedNewMarker(before, newMarker));
      status := Done;
    }

    /** `add_marker`: the time is the preview time, the typed time or the playback position; no undo record is pushed. */
    method AddMarkerAt(fileLoaded: bool, duration: real, markerTime: real) returns (status: Status)
      modifies this, segmentManager
      ensures status == AddStatus(old(markers), fileLoaded, duration, markerTime)
      ensures status != Done ==> unchanged(this) && unchanged(segmentManager)
      ensures status == Done ==>
                markers == AddedMarkers(old(markers), AwayFromZero(markerTime))
                && selectedMarkerIndex == IndexOf(markers, AddedMarker(old(markers), AwayFromZero(markerTime)))
                && selectedMarkerIndex.Some?
                && undoStack == old(undoStack) && redoStack == old(redoStack)
                && segmentManager.segments == Recalculated(old(segmentManager.segments), markers, 2)
    {
      ghost var segs := segmentManager.segments;
      status := PlaceMarker(fileLoaded, duration, markerTime);
      if status == Done {
        RecalculatedAgain(segs, markers, 0);
        RecalculatedAgain(segs, markers, 1);
        TriggerMarkerChangeCallbacks();
      }
    }

    /** `add_marker_at_time`: as `add_marker` with the typed time, and it pushes an `add_marker` record. */
    method AddMarkerAtTime(fileLoaded: bool, duration: real, enteredTime: real) returns (status: Status)
      requires Valid()
      modifies this, segmentManager
      ensures Valid()
      ensures status == AddStatus(old(markers), fileLoaded, duration, enteredTime)
      ensures status != Done ==> unchanged(this) && unchanged(segmentManager)
      ensures status == Done ==>
                markers == AddedMarkers(old(markers), AwayFromZero(enteredTime))
                && selectedMarkerIndex == IndexOf(markers, AddedMarker(old(markers), AwayFromZero(enteredTime)))
                && selectedMarkerIndex.Some?
                && undoStack == Pushed(old(undoStack), AddMarker(selectedMarkerIndex.value,
                                                                 AddedMarker(old(markers), AwayFromZero(enteredTime))))
                && redoStack == []
                && segmentManager.segments == Recalculated(old(segmentManager.segments), markers, 2)
    {
      ghost var segs := segmentManager.segments;
      status := PlaceMarker(fileLoaded, duration, enteredTime);
      if status == Done {
        var index := selectedMarkerIndex.value;
        PushToUndoStack(AddMarker(index, markers[index]));
        RecalculatedAgain(segs, markers, 0);
        RecalculatedAgain(segs, markers, 1);
        TriggerMarkerChangeCallbacks();
      }
    }

    /** `update_selected_marker_time`: move the selected marker to the typed time. */
    method UpdateSelectedMarkerTime(fileLoaded: bool, duration: real, enteredTime: real) returns (status: Status)
      requires Valid()
      modifies this, segmentManager
      ensures Valid()
      ensures status == UpdateStatus(old(markers), old(selectedMarkerIndex), fileLoaded, duration, enteredTime)
      ensures status != Done ==> unchanged(this) && unchanged(segmentManager)
      ensures status == Done ==>
                var sel := old(selectedMarkerIndex).value;
                var moved := old(markers)[sel].(time := AtLeastMinTime(enteredTime));
                markers == MovedMarkers(old(markers), sel, AtLeastMinTime(enteredTime))
                && selectedMarkerIndex == IndexOf(markers, moved)
                && selectedMarkerIndex.Some?
                && undoStack == Pushed(old(undoStack), MoveMarker(sel, old(markers)[sel].time, AtLeastMinTime(enteredTime)))
                && redoStack == []
                && segmentManager.segments == Calculated(old(segmentManager.segments), markers)
    {
      if !fileLoaded {
        return NoFileLoaded;
      }
      if selectedMarkerIndex.None? || selectedMarkerIndex.value >= |markers| {
        return NothingSelected;
      }
      var sel := selectedMarkerIndex.value;
      if PastEnd(duration, enteredTime) {
        return BeyondEnd;
      }
      var conflict := FindTooClose(markers, enteredTime, Some(markers[sel]));
      if conflict.Some? {
        return TooClose(markers[conflict.value]);
      }
      var originalTime := markers[sel].time;
      var newTime := AtLeastMinTime(enteredTime);
      PushToUndoStack(MoveMarker(sel, originalTime, newTime));
      MoveMarkerTo(sel, newTime);
      TriggerMarkerChangeCallbacks();
      status := Done;
    }

    /** The first loop of `delete_selected_marker`: the selected positions that hold a user marker. */
    static method CollectDeletable(ms: seq<Marker>, selection: seq<nat>) returns (toDelete: seq<nat>)
      ensures toDelete == Deletable(ms, selection)
    {
      toDelete := [];
      var i := 0;
      while i < |selection|
        invariant 0 <= i <= |selection|
        invariant toDelete == Deletable(ms, selection[..i])
      {
        assert selection[..i + 1][..i] == selection[..i];
        var idx := selection[i];
        if idx < |ms| && !IsFixed(ms[idx]) {
          toDelete := toDelete + [idx];
        }
        i := i + 1;
      }
      assert selection[..i] == selection;
    }

    /** The second loop of `delete_selected_marker`: `del self.markers[idx]`, highest position first. */
    method RemoveDescending(toDelete: seq<nat>)
      requires Increasing(toDelete) && forall k :: 0 <= k < |toDelete| ==> toDelete[k] < |markers|
      modifies this
      ensures markers == Keep(old(markers), Positions(toDelete), 0)
      ensures undoStack == old(undoStack) && redoStack == old(redoStack)
      ensures selectedMarkerIndex == old(selectedMarkerIndex)
    {
      var original := markers;
      var remaining := markers;
      var k := |toDelete|;
      assert Positions(toDelete[k..]) == {};
      KeepUntouched(original, {}, 0, |original|);
      assert original[0..|original|] == original;
      while k > 0
        invariant 0 <= k <= |toDelete|
        invariant remaining == Keep(original, Positions(toDelete[k..]), 0)
        invariant unchanged(this)
      {
        k := k - 1;
        var idx := toDelete[k];
        DescendingStep(original, toDelete, k);
        remaining := RemoveAt(remaining, idx);
      }
      markers := remaining;
      assert toDelete[0..] == toDelete;
    }

    /** The tail of `update_selected_marker_time`: set the time in place, re-sort, and select the moved record again. */
    method MoveMarkerTo(sel: nat, newTime: real)
      requires sel < |markers|
      modifies this
      ensures markers == MovedMarkers(old(markers), sel, newTime)
      ensures selectedMarkerIndex == IndexOf(markers, old(markers)[sel].(time := newTime))
      ensures selectedMarkerIndex.Some?
      ensures undoStack == old(undoStack) && redoStack == old(redoStack)
    {
      var updated := markers[sel].(time := newTime);
      ghost var placed := markers[sel := updated];
      markers := SortByTime(markers[sel := updated]);
      SortMultiset(placed);
      assert updated in multiset(placed);
      selectedMarkerIndex := IndexOf(markers, updated);
    }

    /** `delete_selected_marker`: delete the selected user markers, renumber, and push a `delete_markers` record. */
    method DeleteSelectedMarker(selection: seq<nat>, confirmed: bool) returns (status: Status)
      requires Valid() && Increasing(selection)
      modifies this, segmentManager
      ensures Valid()
      ensures selection == [] ==> status == NothingSelected
      ensures selection != [] && Deletable(old(markers), selection) == [] ==> status == SelectionProtected
      ensures selection != [] && Deletable(old(markers), selection) != [] && !confirmed ==> status == NotConfirmed
      ensures status != Done ==> unchanged(this) && unchanged(segmentManager)
      ensures status == Done ==>
                selection != [] && Deletable(old(markers), selection) != [] && confirmed
                && markers == SelectionDeleted(old(markers), selection)
                && undoStack == Pushed(old(undoStack),
                                       DeleteMarkers(DeletedData(old(markers), Deletable(old(markers), selection))))
                && redoStack == []
                && selectedMarkerIndex == old(selectedMarkerIndex)
                && segmentManager.segments == Recalculated(old(segmentManager.segments), markers, 2)
    {
      if selection == [] {
        return NothingSelected;
      }
      var toDelete := CollectDeletable(markers, selection);
      if toDelete == [] {
        return SelectionProtected;
      }
      if !confirmed {
        return NotConfirmed;
      }
      PushToUndoStack(DeleteMarkers(DeletedData(markers, toDelete)));
      DeletableIncreasing(markers, selection);
      RemoveDescending(toDelete);
      ghost var segs := segmentManager.segments;
      RenumberUserMarkers();
      RecalculatedAgain(segs, markers, 0);
      RecalculatedAgain(segs, markers, 1);
      TriggerMarkerChangeCallbacks();
      status := Done;
    }

    /** `delete_nearest_marker`: delete the marker nearest the playback position, unless it is fixed; no renumbering. */
    method DeleteNearestMarker(fileLoaded: bool, currentPos: real, confirmed: bool) returns (status: Status)
      requires Valid()
      modifies this, segmentManager
      ensures Valid()
      ensures status != Done ==> unchanged(this) && unchanged(segmentManager)
      ensures !fileLoaded || old(markers) == [] ==> status == NoFileOrNoMarkers
      ensures fileLoaded && old(markers) != [] ==>
                var i := Nearest(old(markers), currentPos);
                (IsFixed(old(markers)[i]) ==> status == Protected(old(markers)[i].name))
                && (!IsFixed(old(markers)[i]) && !confirmed ==> status == NotConfirmed)
                && (!IsFixed(old(markers)[i]) && confirmed ==>
                      status == Done
                      && markers == RemoveAt(old(markers), i)
                      && undoStack == Pushed(old(undoStack), DeleteMarker(i, old(markers)[i]))
                      && redoStack == []
                      && selectedMarkerIndex == old(selectedMarkerIndex)
                      && segmentManager.segments == Calculated(old(segmentManager.segments), markers))
    {
      if !fileLoaded || markers == [] {
        return NoFileOrNoMarkers;
      }
      // `minDistance` stands for `float("inf")` until `nearest` is set
      var nearest: Option<nat> := None;
      var minDistance: real := 0.0;
      var i := 0;
      while i < |markers|
        invariant 0 <= i <= |markers|
        invariant nearest.None? <==> i == 0
        invariant nearest.Some? ==> nearest.value == Nearest(markers[..i], currentPos)
                                    && minDistance == Distance(markers[nearest.value], currentPos)
      {
        assert markers[..i + 1][..i] == markers[..i];
        var distance := Distance(markers[i], currentPos);
        if nearest.None? || distance < minDistance {
          minDistance := distance;
          nearest := Some(i);
        }
        i := i + 1;
      }
      assert markers[..i] == markers;
      var markerIdx := nearest.value;
      var marker := markers[markerIdx];
      if IsFixed(marker) {
        return Protected(marker.name);
      }
      if !confirmed {
        return NotConfirmed;
      }
      PushToUndoStack(DeleteMarker(markerIdx, marker));
      markers := RemoveAt(markers, markerIdx);
      segmentManager.CalculateSegments(markers);
      status := Done;
    }

    /** `delete_all_markers`: keep only the fixed markers, pushing a copy of the whole list; no renumbering. */
    method DeleteAllMarkersAction(confirmed: bool) returns (status: Status)
      requires Valid()
      modifies this, segmentManager
      ensures Valid()
      ensures UserMarkers(old(markers)) == [] ==> status == NoUserMarkers
      ensures UserMarkers(old(markers)) != [] && !confirmed ==> status == NotConfirmed
      ensures status != Done ==> unchanged(this) && unchanged(segmentManager)
      ensures status == Done ==>
                UserMarkers(old(markers)) != [] && confirmed
                && markers == FixedMarkers(old(markers))
                && undoStack == Pushed(old(undoStack), DeleteAllMarkers(old(markers)))
                && redoStack == []
                && selectedMarkerIndex == old(selectedMarkerIndex)
                && segmentManager.segments == Calculated(old(segmentManager.segments), markers)
    {
      var userMarkers := UserMarkers(markers);
      if userMarkers == [] {
        return NoUserMarkers;
      }
      if !confirmed {
        return NotConfirmed;
      }
      PushToUndoStack(DeleteAllMarkers(markers));
      markers := FixedMarkers(markers);
      segmentManager.CalculateSegments(markers);
      status := Done;
    }

    /** `jump_to_next_marker`, selection only: the first marker in time order later than the position. */
    method JumpToNextMarker(fileLoaded: bool, currentPos: real) returns (status: Status, newPos: real)
      modifies this
      ensures markers == old(markers) && undoStack == old(undoStack) && redoStack == old(redoStack)
      ensures status != Done ==> newPos == currentPos && selectedMarkerIndex == old(selectedMarkerIndex)
      ensures !fileLoaded || markers == [] ==> status == NoFileOrNoMarkers
      ensures fileLoaded && markers != [] ==>
                var sorted := SortByTime(markers);
                var found := FirstLater(sorted, currentPos, 0);
                (found.None? ==> status == NotFound)
                && (found.Some? ==> status == Done && newPos == sorted[found.value].time
                                    && selectedMarkerIndex == Some(found.value))
    {
      if !fileLoaded || markers == [] {
        return NoFileOrNoMarkers, currentPos;
      }
      var sortedMarkers := SortByTime(markers);
      var i := 0;
      while i < |sortedMarkers|
        invariant 0 <= i <= |sortedMarkers|
        invariant FirstLater(sortedMarkers, currentPos, 0) == FirstLater(sortedMarkers, currentPos, i)
      {
        if sortedMarkers[i].time > currentPos {
          selectedMarkerIndex := Some(i);
          return Done, sortedMarkers[i].time;
        }
        i := i + 1;
      }
      return NotFound, currentPos;
    }

    /** `jump_to_previous_marker`, selection only: the last marker in time order earlier than the position. */
    method JumpToPreviousMarker(fileLoaded: bool, currentPos: real) returns (status: Status, newPos: real)
      modifies this
      ensures markers == old(markers) && undoStack == old(undoStack) && redoStack == old(redoStack)
      ensures status != Done ==> newPos == currentPos && selectedMarkerIndex == old(selectedMarkerIndex)
      ensures !fileLoaded || markers == [] ==> status == NoFileOrNoMarkers
      ensures fileLoaded && markers != [] ==>
                var sorted := SortByTime(markers);
                var found := LastEarlier(sorted, currentPos, |sorted|);
                (found.None? ==> status == NotFound)
                && (found.Some? ==> status == Done && newPos == sorted[found.value].time
                                    && selectedMarkerIndex == Some(found.value))
    {
      if !fileLoaded || markers == [] {
        return NoFileOrNoMarkers, currentPos;
      }
      var sortedMarkers := SortByTime(markers);
      var i := |sortedMarkers|;
      while i > 0
        invariant 0 <= i <= |sortedMarkers|
        invariant LastEarlier(sortedMarkers, currentPos, |sortedMarkers|) == LastEarlier(sortedMarkers, currentPos, i)
      {
        i := i - 1;
        if sortedMarkers[i].time < currentPos {
          selectedMarkerIndex := Some(i);
          return Done, sortedMarkers[i].time;
        }
      }
      return NotFound, currentPos;
    }

    /** The part of `undo_action` that works on the marker list once the record has moved to the redo stack. */
    method ApplyUndo(op: UndoRecord)
      modifies this, segmentManager
      ensures markers == UndoEffect(old(markers), op)
      ensures segmentManager.segments
              == Recalculated(old(segmentManager.segments), markers, UndoRecalculations(old(markers), op))
      ensures undoStack == old(undoStack) && redoStack == old(redoStack)
      ensures selectedMarkerIndex == old(selectedMarkerIndex)
    {
      ghost var segs := segmentManager.segments;
      match op {
        case MoveMarker(i, fromTime, _) =>
          if i < |markers| {
            markers := SortByTime(markers[i := markers[i].(time := fromTime)]);
            RecalculatedAgain(segs, markers, 0);
            TriggerMarkerChangeCallbacks();
          }
        case AddMarker(_, data) =>
          RemoveFirstMatching(data);
          markers := SortByTime(markers);
          RenumberUserMarkers();
          RecalculatedAgain(segs, markers, 0);
          RecalculatedAgain(segs, markers, 1);
          TriggerMarkerChangeCallbacks();
        case DeleteMarker(i, data) =>
          markers := SortByTime(InsertAt(markers, i, data));
          RecalculatedAgain(segs, markers, 0);
          TriggerMarkerChangeCallbacks();
        case DeleteMarkers(_) =>
        case DeleteAllMarkers(data) =>
          markers := data;
          RecalculatedAgain(segs, markers, 0);
          TriggerMarkerChangeCallbacks();
      }
    }

    /** The loop in the `add_marker` branch of `undo_action`: remove the first entry with the added marker's time and comment. */
    method RemoveFirstMatching(data: Marker)
      modifies this
      ensures var found := FirstMatching(old(markers), data, 0);
              markers == if found.Some? then RemoveAt(old(markers), found.value) else old(markers)
      ensures undoStack == old(undoStack) && redoStack == old(redoStack)
      ensures selectedMarkerIndex == old(selectedMarkerIndex)
    {
      var j := 0;
      while j < |markers|
        invariant 0 <= j <= |markers| && markers == old(markers)
        invariant FirstMatching(markers, data, 0) == FirstMatching(markers, data, j)
        invariant undoStack == old(undoStack) && redoStack == old(redoStack)
        invariant selectedMarkerIndex == old(selectedMarkerIndex)
      {
        if SameAddedMarker(markers[j], data) {
          markers := RemoveAt(markers, j);
          return;
        }
        j := j + 1;
      }
    }

    /** `undo_action`: move the top record to the redo stack and undo it. */
    method UndoAction() returns (status: Status)
      requires Valid()
      modifies this, segmentManager
      ensures Valid()
      ensures old(undoStack) == [] ==> status == NothingToUndo && unchanged(this) && unchanged(segmentManager)
      ensures old(undoStack) != [] ==>
                var op := old(undoStack)[|old(undoStack)| - 1];
                status == Done
                && (undoStack, redoStack) == MoveTop(old(undoStack), old(redoStack))
                && markers == UndoEffect(old(markers), op)
                && selectedMarkerIndex == old(selectedMarkerIndex)
                && segmentManager.segments
                   == Recalculated(old(segmentManager.segments), markers, UndoRecalculations(old(markers), op))
    {
      if undoStack == [] {
        return NothingToUndo;
      }
      var op := undoStack[|undoStack| - 1];
      undoStack := undoStack[..|undoStack| - 1];
      redoStack := redoStack + [op];
      ApplyUndo(op);
      status := Done;
    }

    /** The part of `redo_action` that works on the marker list once the record is back on the undo stack. */
    method ApplyRedo(op: UndoRecord)
      modifies this, segmentManager
      ensures markers == RedoEffect(old(markers), op)
      ensures segmentManager.segments
              == Recalculated(old(segmentManager.segments), markers, RedoRecalculations(old(markers), op))
      ensures undoStack == old(undoStack) && redoStack == old(redoStack)
      ensures selectedMarkerIndex == old(selectedMarkerIndex)
    {
      ghost var segs := segmentManager.segments;
      match op {
        case MoveMarker(i, _, toTime) =>
          if i < |markers| {
            markers := SortByTime(markers[i := markers[i].(time := toTime)]);
            RecalculatedAgain(segs, markers, 0);
            TriggerMarkerChangeCallbacks();
          }
        case AddMarker(_, data) =>
          markers := SortByTime(markers + [data]);
          RenumberUserMarkers();
          RecalculatedAgain(segs, markers, 0);
          RecalculatedAgain(segs, markers, 1);
          TriggerMarkerChangeCallbacks();
        case DeleteMarker(i, _) =>
          if i < |markers| {
            markers := SortByTime(RemoveAt(markers, i));
            RecalculatedAgain(segs, markers, 0);
            TriggerMarkerChangeCallbacks();
          }
        case DeleteMarkers(_) =>
        case DeleteAllMarkers(_) =>
          markers := [];
          RecalculatedAgain(segs, markers, 0);
          TriggerMarkerChangeCallbacks();
      }
    }

    /** `redo_action`: move the top record back to the undo stack and apply it again. */
    method RedoAction() returns (status: Status)
      requires Valid()
      modifies this, segmentManager
      ensures Valid()
      ensures old(redoStack) == [] ==> status == NothingToRedo && unchanged(this) && unchanged(segmentManager)
      ensures old(redoStack) != [] ==>
                var op := old(redoStack)[|old(redoStack)| - 1];
                status == Done
                && (redoStack, undoStack) == MoveTop(old(redoStack), old(undoStack))
                && markers == RedoEffect(old(markers), op)
                && selectedMarkerIndex == old(selectedMarkerIndex)
                && segmentManager.segments
                   == Recalculated(old(segmentManager.segments), markers, RedoRecalculations(old(markers), op))
    {
      if redoStack == [] {
        return NothingToRedo;
      }
      var op := redoStack[|redoStack| - 1];
      redoStack := redoStack[..|redoStack| - 1];
      undoStack := undoStack + [op];
      ApplyRedo(op);
      status := Done;
    }
  }
}
