/**
 * What the marker operations promise when they are looked at together:
 * the shape of the list an add or a move leaves, that no delete touches a
 * fixed marker, which undo records restore what they recorded, that the
 * history moves one record at a time, and the two places where the
 * bookkeeping does not do what its comments say.
 */
module MarkerLaws {
  import opened Wrappers
  import opened MarkerRecords
  import opened Renumbering
  import opened MarkerStore

  // ---------------------------------------------------------------------
  // Adding and moving
  // ---------------------------------------------------------------------

  /** A single user marker is the whole of its own user list. */
  lemma UserSingleton(x: Marker)
    requires !IsFixed(x)
    ensures UserMarkers([x]) == [x] && FixedMarkers([x]) == []
  {
    SelectCons(x, [], false);
    SelectCons(x, [], true);
    assert [x] + [] == [x];
  }

  /**
   * An accepted add leaves one more marker, ordered by time; the fixed
   * markers are still there under their own names; the user markers are
   * `Marker1..MarkerN` in time order, one more than before; and the new
   * record is in the list at the requested time with empty comment and
   * content.
   */
  lemma AddedMarkersFacts(ms: seq<Marker>, t: real)
    requires |ms| < MAX_MARKERS
    ensures var r := AddedMarkers(ms, t);
            Sorted(r) && |r| == |ms| + 1
            && FixedMarkers(r) == SortByTime(FixedMarkers(ms))
            && |UserMarkers(r)| == |UserMarkers(ms)| + 1
            && (forall i :: 0 <= i < |UserMarkers(r)| ==> UserMarkers(r)[i].name == MarkerName(i + 1))
    ensures var x := AddedMarker(ms, t);
            x in AddedMarkers(ms, t) && !IsFixed(x) && x.time == t && x.comment == "" && x.content == ""
  {
    var x := NewMarker(t);
    var s := SortByTime(ms + [x]);
    RenumberedSorted(s);
    UserSingleton(x);
    SelectSort(ms + [x], false);
    SelectSort(ms + [x], true);
    SelectAppend(ms, [x], false);
    SelectAppend(ms, [x], true);
    assert FixedMarkers(ms) + [] == FixedMarkers(ms);
    SelectSizes(ms);
    assert |UserMarkers(s)| == |UserMarkers(ms)| + 1;
    RenumberedParts(s);
    RenumberedNames(s);
    SortTwice(FixedMarkers(ms));
    NewMarkerSurvivesRenumbering(ms, x);
    var y := AddedMarker(ms, t);
    assert !IsFixed(y) by {
      MarkerNameNotFixed(InsertPos(SortByTime(UserMarkers(ms)), x) + 1);
    }
  }

  /** Replacing entry `i` swaps one copy of the old entry for the new one. */
  lemma ReplaceMultiset(ms: seq<Marker>, i: nat, v: Marker)
    requires i < |ms|
    ensures multiset(ms[i := v]) == multiset(ms) - multiset{ms[i]} + multiset{v}
  {
    assert ms == ms[..i] + [ms[i]] + ms[i + 1..];
    assert ms[i := v] == ms[..i] + [v] + ms[i + 1..];
  }

  /**
   * A move leaves the list ordered by time with the same records, except
   * that the moved one now has the new time and everything else about it
   * kept.
   */
  lemma MovedMarkersFacts(ms: seq<Marker>, i: nat, t: real)
    requires i < |ms|
    ensures var r := MovedMarkers(ms, i, t);
            Sorted(r) && |r| == |ms|
            && multiset(r) == multiset(ms) - multiset{ms[i]} + multiset{ms[i].(time := t)}
            && ms[i].(time := t) in r
  {
    var placed := ms[i := ms[i].(time := t)];
    SortSorted(placed);
    SortMultiset(placed);
    ReplaceMultiset(ms, i, ms[i].(time := t));
    assert placed[i] in multiset(placed);
  }

  // ---------------------------------------------------------------------
  // Deleting never removes a fixed marker
  // ---------------------------------------------------------------------

  /**
   * After a delete of a selection, the fixed markers are the old ones in
   * time order, and the user markers are renumbered `Marker1..MarkerN`.
   */
  lemma SelectionDeletedKeepsFixed(ms: seq<Marker>, selection: seq<nat>)
    requires |ms| < 500
    ensures var r := SelectionDeleted(ms, selection);
            Sorted(r) && FixedMarkers(r) == SortByTime(FixedMarkers(ms))
            && forall i :: 0 <= i < |UserMarkers(r)| ==> UserMarkers(r)[i].name == MarkerName(i + 1)
  {
    var gone := Positions(Deletable(ms, selection));
    forall x | x in gone && x < |ms| ensures !IsFixed(ms[x]) {
      var k :| 0 <= k < |Deletable(ms, selection)| && Deletable(ms, selection)[k] == x;
    }
    var kept := Keep(ms, gone, 0);
    KeepFixed(ms, gone, 0);
    assert ms[0..] == ms;
    RenumberedSorted(kept);
    RenumberedParts(kept);
    RenumberedNames(kept);
  }

  /** Deleting the nearest marker, when it is a user marker, keeps every fixed marker in place. */
  lemma DeleteNearestKeepsFixed(ms: seq<Marker>, pos: real)
    requires ms != [] && !IsFixed(ms[Nearest(ms, pos)])
    ensures FixedMarkers(RemoveAt(ms, Nearest(ms, pos))) == FixedMarkers(ms)
  {
    var i := Nearest(ms, pos);
    var before, after := ms[..i], ms[i + 1..];
    assert FixedMarkers(ms) == FixedMarkers(before) + FixedMarkers(after) by {
      assert ms == before + ([ms[i]] + after);
      SelectAppend(before, [ms[i]] + after, true);
      SelectCons(ms[i], after, true);
      assert [] + FixedMarkers(after) == FixedMarkers(after);
    }
    assert FixedMarkers(RemoveAt(ms, i)) == FixedMarkers(before) + FixedMarkers(after) by {
      assert RemoveAt(ms, i) == before + after;
      SelectAppend(before, after, true);
    }
  }

  // ---------------------------------------------------------------------
  // Round trips through undo and redo
  // ---------------------------------------------------------------------

  /**
   * Delete-all followed by undo gives back the recorded list exactly;
   * redo then clears the list, fixed markers included. What the delete
   * itself leaves has no user marker, strictly fewer markers, and, taken
   * from a list ordered by time, a list still ordered by time.
   */
  lemma DeleteAllRoundTrip(ms: seq<Marker>)
    requires UserMarkers(ms) != []
    ensures UserMarkers(FixedMarkers(ms)) == [] && FixedMarkers(FixedMarkers(ms)) == FixedMarkers(ms)
    ensures |FixedMarkers(ms)| < |ms|
    ensures Sorted(ms) ==> Sorted(FixedMarkers(ms))
    ensures UndoEffect(FixedMarkers(ms), DeleteAllMarkers(ms)) == ms
    ensures RedoEffect(UndoEffect(FixedMarkers(ms), DeleteAllMarkers(ms)), DeleteAllMarkers(ms)) == []
  {
    SelectOfSelect(ms, true);
    SelectSizes(ms);
    if Sorted(ms) {
      SelectKeepsOrder(ms, true);
    }
  }

  /** Removing an entry from a list ordered by time keeps it ordered. */
  lemma RemoveAtSorted(ms: seq<Marker>, i: nat)
    requires Sorted(ms) && i < |ms|
    ensures Sorted(RemoveAt(ms, i))
  {
    var r := RemoveAt(ms, i);
    forall a, b | 0 <= a < b < |r| ensures r[a].time <= r[b].time {
      var a' := if a < i then a else a + 1;
      var b' := if b < i then b else b + 1;
      assert r[a] == ms[a'] && r[b] == ms[b'];
    }
  }

  /**
   * On a list ordered by time, undoing the delete of entry `i` puts the
   * very same list back, and redoing it removes the same entry again.
   */
  lemma DeleteMarkerRoundTrip(ms: seq<Marker>, i: nat)
    requires Sorted(ms) && i < |ms|
    ensures UndoEffect(RemoveAt(ms, i), DeleteMarker(i, ms[i])) == ms
    ensures RedoEffect(ms, DeleteMarker(i, ms[i])) == RemoveAt(ms, i)
  {
    var r := RemoveAt(ms, i);
    var back := InsertAt(r, i, ms[i]);
    assert back == ms;
    SortIdentity(ms);
    RemoveAtSorted(ms, i);
    SortIdentity(r);
  }

  /** Undo then redo hands the top record back: both stacks are as they were. */
  lemma StackRoundTrip(undo: seq<UndoRecord>, redo: seq<UndoRecord>)
    requires undo != []
    ensures var (u, r) := MoveTop(undo, redo);
            MoveTop(r, u) == (redo, undo)
  {
    var (u, r) := MoveTop(undo, redo);
    var top := undo[|undo| - 1];
    assert r[..|r| - 1] == redo;
    assert u + [top] == undo;
  }

  /** A push onto a full stack drops exactly the oldest record; otherwise it only appends. */
  lemma PushDropsOldest(undo: seq<UndoRecord>, op: UndoRecord)
    requires |undo| <= MAX_HISTORY
    ensures |Pushed(undo, op)| == if |undo| == MAX_HISTORY then MAX_HISTORY else |undo| + 1
    ensures Pushed(undo, op)[..|Pushed(undo, op)| - 1] == (if |undo| == MAX_HISTORY then undo[1..] else undo)
  {
    var p := Pushed(undo, op);
    if |undo| == MAX_HISTORY {
      assert p == undo[1..] + [op];
    } else {
      assert p == undo + [op];
    }
  }

  /**
   * Every undo and every redo leaves a list ordered by time when it finds
   * one, provided a restored delete-all copy was itself ordered.
   */
  lemma UndoRedoKeepSorted(ms: seq<Marker>, op: UndoRecord)
    requires Sorted(ms)
    requires op.DeleteAllMarkers? ==> Sorted(op.markersData)
    ensures Sorted(UndoEffect(ms, op)) && Sorted(RedoEffect(ms, op))
  {
    match op {
      case MoveMarker(i, fromTime, toTime) =>
        if i < |ms| {
          SortSorted(ms[i := ms[i].(time := fromTime)]);
          SortSorted(ms[i := ms[i].(time := toTime)]);
        }
      case AddMarker(_, data) =>
        var found := FirstMatching(ms, data, 0);
        RenumberedSorted(SortByTime(if found.Some? then RemoveAt(ms, found.value) else ms));
        RenumberedSorted(SortByTime(ms + [data]));
      case DeleteMarker(i, data) =>
        SortSorted(InsertAt(ms, i, data));
        if i < |ms| {
          SortSorted(RemoveAt(ms, i));
        }
      case DeleteMarkers(_) =>
      case DeleteAllMarkers(_) =>
    }
  }

  /**
   * A `delete_markers` record has no undo or redo branch: both leave the
   * list and the segments alone. So undoing a selection delete that removed
   * anything does not give the old list back.
   */
  lemma DeleteMarkersRecordIsInert(ms: seq<Marker>, selection: seq<nat>, data: seq<Marker>)
    requires Deletable(ms, selection) != []
    ensures UndoEffect(ms, DeleteMarkers(data)) == ms && UndoRecalculations(ms, DeleteMarkers(data)) == 0
    ensures RedoEffect(ms, DeleteMarkers(data)) == ms && RedoRecalculations(ms, DeleteMarkers(data)) == 0
    ensures var toDelete := Deletable(ms, selection);
            UndoEffect(SelectionDeleted(ms, selection), DeleteMarkers(DeletedData(ms, toDelete))) != ms
  {
    var toDelete := Deletable(ms, selection);
    assert toDelete[0] in Positions(toDelete);
    KeepShorter(ms, Positions(toDelete), 0, toDelete[0]);
  }

  // ---------------------------------------------------------------------
  // Jumping
  // ---------------------------------------------------------------------

  /**
   * The next-marker jump finds a marker exactly when some marker lies later
   * than the position, and then the one it finds is the earliest of those.
   */
  lemma NextMarkerIsEarliestLater(ms: seq<Marker>, pos: real)
    ensures var s := SortByTime(ms);
            var f := FirstLater(s, pos, 0);
            (f.None? <==> forall m :: m in ms ==> m.time <= pos)
            && (f.Some? ==> s[f.value].time > pos
                            && forall m :: m in ms && m.time > pos ==> s[f.value].time <= m.time)
  {
    var s := SortByTime(ms);
    SortSorted(ms);
    SortMultiset(ms);
    assert forall m :: m in ms <==> m in s by {
      forall m ensures m in ms <==> m in s {
        assert m in ms <==> m in multiset(ms);
        assert m in s <==> m in multiset(s);
      }
    }
    var f := FirstLater(s, pos, 0);
    if f.Some? {
      forall m | m in ms && m.time > pos ensures s[f.value].time <= m.time {
        var k :| 0 <= k < |s| && s[k] == m;
        assert f.value <= k;
      }
    }
  }

  /**
   * The previous-marker jump finds a marker exactly when some marker lies
   * earlier than the position, and then the one it finds is the latest of
   * those.
   */
  lemma PreviousMarkerIsLatestEarlier(ms: seq<Marker>, pos: real)
    ensures var s := SortByTime(ms);
            var f := LastEarlier(s, pos, |s|);
            (f.None? <==> forall m :: m in ms ==> pos <= m.time)
            && (f.Some? ==> s[f.value].time < pos
                            && forall m :: m in ms && m.time < pos ==> m.time <= s[f.value].time)
  {
    var s := SortByTime(ms);
    SortSorted(ms);
    SortMultiset(ms);
    assert forall m :: m in ms <==> m in s by {
      forall m ensures m in ms <==> m in s {
        assert m in ms <==> m in multiset(ms);
        assert m in s <==> m in multiset(s);
      }
    }
    var f := LastEarlier(s, pos, |s|);
    if f.Some? {
      forall m | m in ms && m.time < pos ensures m.time <= s[f.value].time {
        var k :| 0 <= k < |s| && s[k] == m;
        assert k <= f.value;
      }
    }
  }

  // ---------------------------------------------------------------------
  // Where the bookkeeping does not do what its comments say
  // ---------------------------------------------------------------------

  /**
   * A move record keeps the index the marker had before the re-sort. Move
   * the first of two markers past the second and undo: the undo writes the
   * old time into whichever marker now sits at that index, so the moved
   * marker stays where it went and the other one is retimed. This is a
   * single concrete example, not a law over all inputs.
   */
  lemma UndoMoveCanRetimeAnother()
    ensures var a := Marker(5.0, "Marker1", "", "");
            var b := Marker(10.0, "Marker2", "", "");
            var moved := MovedMarkers([a, b], 0, 20.0);
            moved == [b, a.(time := 20.0)]
            && UndoEffect(moved, MoveMarker(0, 5.0, 20.0)) == [b.(time := 5.0), a.(time := 20.0)]
            && UndoEffect(moved, MoveMarker(0, 5.0, 20.0)) != [a, b]
  {
    var a := Marker(5.0, "Marker1", "", "");
    var b := Marker(10.0, "Marker2", "", "");
    var a' := a.(time := 20.0);
    var b' := b.(time := 5.0);
    assert [a, b][0 := [a, b][0].(time := 20.0)] == [a', b];
    assert [a', b][..1] == [a'] && [a'][..0] == [];
    assert SortByTime([a']) == [a'];
    assert SortByTime([a', b]) == Insert([a'], b) == [b, a'];
    var moved := [b, a'];
    assert moved[0 := moved[0].(time := 5.0)] == [b', a'];
    SortIdentity([b', a']);
    assert [b', a'][0] != [a, b][0];
  }

  /**
   * The spacing check of a move skips every marker equal in value to the
   * selected one, so an identical twin half a second away does not block
   * the move. This is a single concrete example, not a law over all inputs.
   */
  lemma SpacingSkipsEqualTwin()
    ensures var a := Marker(5.0, "Marker1", "", "");
            UpdateStatus([a, a], Some(0), true, 0.0, 5.5) == Done
            && Abs(a.time - 5.5) < MIN_SPACING && !IsFixed(a)
  {
    var a := Marker(5.0, "Marker1", "", "");
    assert FirstBlocking([a, a], 5.5, Some(a), 0) == None;
  }
}
