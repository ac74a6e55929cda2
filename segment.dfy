/**
 * Segments of an audio file, each one running from a marker to the next
 * marker in time order, and the manager that rebuilds them whenever the
 * markers change while carrying each old segment's `content` over to the
 * new list (exact match, left-aligned split, two-segment merge).
 */
module Segments {
  import opened Wrappers
  import opened MarkerRecords

  /** A segment; `duration` is stored, and the constructor sets it to `endTime - startTime`. */
  datatype Segment = Segment(
    index: int,
    startTime: real,
    endTime: real,
    duration: real,
    comment: string,
    content: string)

  /** The `ValueError` the constructor raises. */
  datatype SegmentError = StartAfterEnd(startTime: real, endTime: real)

  datatype Result<T> = Ok(value: T) | Err(error: SegmentError)

  /** The one rule a segment obeys. */
  predicate WellFormed(s: Segment) {
    s.startTime <= s.endTime && s.duration == s.endTime - s.startTime
  }

  /** `Segment(index, start_time, end_time, comment, content)`. */
  function NewSegment(index: int, startTime: real, endTime: real,
                      comment: string := "", content: string := ""): (r: Result<Segment>)
    ensures r.Err? <==> startTime > endTime
    ensures r.Err? ==> r.error == StartAfterEnd(startTime, endTime)
    ensures r.Ok? ==> WellFormed(r.value)
    ensures r.Ok? ==> r.value.index == index && r.value.startTime == startTime && r.value.endTime == endTime
                      && r.value.comment == comment && r.value.content == content
  {
    if startTime > endTime then Err(StartAfterEnd(startTime, endTime))
    else Ok(Segment(index, startTime, endTime, endTime - startTime, comment, content))
  }

  /** `contains_time`: the closed interval from start to end. */
  predicate ContainsTime(s: Segment, t: real) {
    s.startTime <= t <= s.endTime
  }

  /** Both ends of a segment belong to it, and nothing outside does. */
  lemma ContainsTimeClosed(s: Segment, t: real)
    requires s.startTime <= s.endTime
    ensures ContainsTime(s, s.startTime) && ContainsTime(s, s.endTime)
    ensures t < s.startTime || t > s.endTime ==> !ContainsTime(s, t)
  {
  }

  // ---------------------------------------------------------------------
  // Content migration: one new segment [ns, ne] against the old list
  // ---------------------------------------------------------------------

  /** The test of the first scan: the same range, or a left-aligned sub-range. */
  predicate CarriesOver(o: Segment, ns: real, ne: real) {
    (o.startTime == ns && o.endTime == ne)
    || (o.startTime <= ns < ne <= o.endTime && ns == o.startTime)
  }

  /** The first scan: the first unused old segment at or after `j` that passes `CarriesOver`. */
  function FirstCarrier(olds: seq<Segment>, used: set<nat>, ns: real, ne: real, j: nat): (r: Option<nat>)
    requires j <= |olds|
    ensures r.Some? ==> j <= r.value < |olds| && r.value !in used && CarriesOver(olds[r.value], ns, ne)
    ensures r.Some? ==> forall k :: j <= k < r.value ==> k in used || !CarriesOver(olds[k], ns, ne)
    ensures r.None? ==> forall k :: j <= k < |olds| ==> k in used || !CarriesOver(olds[k], ns, ne)
    decreases |olds| - j
  {
    if j == |olds| then None
    else if j !in used && CarriesOver(olds[j], ns, ne) then Some(j)
    else FirstCarrier(olds, used, ns, ne, j + 1)
  }

  /** The second segment of a merge: both are old segments, `a` ends where `b` starts, `b` ends at `ne`. */
  predicate MergesWith(olds: seq<Segment>, a: nat, b: nat, ne: real)
    requires a < |olds| && b < |olds|
  {
    olds[b].endTime == ne && olds[a].endTime == olds[b].startTime
  }

  /** The inner loop of the merge scan: the first unused `k` at or after `from`, other than `j`, that completes a merge with `j`. */
  function MergePartner(olds: seq<Segment>, used: set<nat>, j: nat, ne: real, from: nat): (r: Option<nat>)
    requires j < |olds| && from <= |olds|
    ensures r.Some? ==> from <= r.value < |olds| && r.value !in used && r.value != j && MergesWith(olds, j, r.value, ne)
    ensures r.Some? ==> forall k :: from <= k < r.value && k !in used && k != j ==> !MergesWith(olds, j, k, ne)
    ensures r.None? ==> forall k :: from <= k < |olds| && k !in used && k != j ==> !MergesWith(olds, j, k, ne)
    decreases |olds| - from
  {
    if from == |olds| then None
    else if from !in used && from != j && MergesWith(olds, j, from, ne) then Some(from)
    else MergePartner(olds, used, j, ne, from + 1)
  }

  /** `"\n".join(...)` of a list of strings. */
  function JoinLines(parts: seq<string>): string {
    if parts == [] then ""
    else if |parts| == 1 then parts[0]
    else parts[0] + "\n" + JoinLines(parts[1..])
  }

  /** The merged content: the non-empty ones of `a` and `b`, joined by a newline. */
  function MergedContent(a: string, b: string): string {
    JoinLines((if a != "" then [a] else []) + (if b != "" then [b] else []))
  }

  lemma MergedContentCases(a: string, b: string)
    ensures a != "" && b != "" ==> MergedContent(a, b) == a + "\n" + b
    ensures a == "" ==> MergedContent(a, b) == b
    ensures b == "" ==> MergedContent(a, b) == a
  {
    if a != "" && b != "" {
      var parts := [a] + [b];
      assert parts[1..] == [b];
      assert JoinLines(parts) == a + "\n" + JoinLines([b]);
    }
  }

  /** The merge scan over `j, j+1, ...`: the content and the used set it ends with. */
  function MergeScan(olds: seq<Segment>, used: set<nat>, ns: real, ne: real, content: string, j: nat)
    : (string, set<nat>)
    requires j <= |olds|
    decreases |olds| - j
  {
    if j == |olds| then (content, used)
    else if j in used || olds[j].startTime != ns then MergeScan(olds, used, ns, ne, content, j + 1)
    else match MergePartner(olds, used, j, ne, 0)
      case None => MergeScan(olds, used, ns, ne, content, j + 1)
      case Some(k) =>
        MergeScan(olds, used + {j, k}, ns, ne, MergedContent(olds[j].content, olds[k].content), j + 1)
  }

  /** Both scans for one new segment: its content, and the used set afterwards. */
  function Migrate(olds: seq<Segment>, used: set<nat>, ns: real, ne: real): (string, set<nat>) {
    var first := FirstCarrier(olds, used, ns, ne, 0);
    var content := if first.Some? then olds[first.value].content else "";
    var afterFirst := if first.Some? then used + {first.value} else used;
    MergeScan(olds, afterFirst, ns, ne, content, 0)
  }

  // ---------------------------------------------------------------------
  // The whole recalculation
  // ---------------------------------------------------------------------

  /** The old segments already used before new segment `i` is built. */
  function UsedBefore(olds: seq<Segment>, ms: seq<Marker>, i: nat): set<nat>
    requires i < |ms|
  {
    if i == 0 then {}
    else Migrate(olds, UsedBefore(olds, ms, i - 1), ms[i - 1].time, ms[i].time).1
  }

  /** New segment `i`, from sorted marker `i` to sorted marker `i + 1`. */
  function BuiltSegment(olds: seq<Segment>, ms: seq<Marker>, i: nat): Segment
    requires Sorted(ms) && i + 1 < |ms|
  {
    var content := Migrate(olds, UsedBefore(olds, ms, i), ms[i].time, ms[i + 1].time).0;
    NewSegment(i, ms[i].time, ms[i + 1].time, ms[i].comment, content).value
  }

  /** The segment list `_calculate_segments` builds from `markers`, given the previous list `olds`. */
  function Calculated(olds: seq<Segment>, markers: seq<Marker>): seq<Segment> {
    var ms := SortByTime(markers);
    SortSorted(markers);
    if |ms| < 2 then []
    else seq(|ms| - 1, i requires 0 <= i < |ms| - 1 => BuiltSegment(olds, ms, i))
  }

  /** `n` recalculations in a row against the same marker list. */
  function Recalculated(olds: seq<Segment>, markers: seq<Marker>, n: nat): seq<Segment> {
    if n == 0 then olds else Calculated(Recalculated(olds, markers, n - 1), markers)
  }

  /** One more recalculation against the same list. */
  lemma RecalculatedAgain(olds: seq<Segment>, markers: seq<Marker>, n: nat)
    ensures Calculated(Recalculated(olds, markers, n), markers) == Recalculated(olds, markers, n + 1)
  {
  }

  /** The positions `0 .. n - 1`. */
  function Indices(n: nat): (r: set<nat>)
    ensures forall x: nat :: x in r <==> x < n
  {
    if n == 0 then {} else Indices(n - 1) + {n - 1}
  }

  // ---------------------------------------------------------------------
  // What the migration promises
  // ---------------------------------------------------------------------

  /** Some unused old segment at or after `j` starting at `ns` has an unused partner that completes a merge up to `ne`. */
  ghost predicate MergeAvailableFrom(olds: seq<Segment>, used: set<nat>, ns: real, ne: real, j: nat) {
    exists a: nat, b: nat :: j <= a < |olds| && b < |olds| && a != b && a !in used && b !in used
      && olds[a].startTime == ns && MergesWith(olds, a, b, ne)
  }

  /** The last merge made: two old segments, consumed by it, whose merged content is `c`. */
  ghost predicate MergedFrom(olds: seq<Segment>, consumed: set<nat>, ns: real, ne: real, c: string) {
    exists a: nat, b: nat :: a in consumed && b in consumed && a != b && a < |olds| && b < |olds|
      && olds[a].startTime == ns && MergesWith(olds, a, b, ne)
      && c == MergedContent(olds[a].content, olds[b].content)
  }

  /** The merge scan only adds positions of old segments to the used set. */
  lemma {:induction false} MergeScanUsed(olds: seq<Segment>, used: set<nat>, ns: real, ne: real, content: string, j: nat)
    requires j <= |olds|
    ensures used <= MergeScan(olds, used, ns, ne, content, j).1
    ensures MergeScan(olds, used, ns, ne, content, j).1 - used <= Indices(|olds|)
    decreases |olds| - j
  {
    if j < |olds| {
      if j in used || olds[j].startTime != ns {
        MergeScanUsed(olds, used, ns, ne, content, j + 1);
      } else {
        match MergePartner(olds, used, j, ne, 0)
        case None =>
          MergeScanUsed(olds, used, ns, ne, content, j + 1);
        case Some(k) =>
          var used2 := used + {j, k};
          var content2 := MergedContent(olds[j].content, olds[k].content);
          MergeScanUsed(olds, used2, ns, ne, content2, j + 1);
          var u := MergeScan(olds, used2, ns, ne, content2, j + 1).1;
          assert u - used <= (u - used2) + {j, k};
      }
    }
  }

  /**
   * The merge scan changes the content only when it merges, and then the
   * content is that of the last pair merged.
   */
  lemma {:induction false} MergeScanContent(olds: seq<Segment>, used: set<nat>, ns: real, ne: real, content: string, j: nat)
    requires j <= |olds|
    ensures var (c, u) := MergeScan(olds, used, ns, ne, content, j);
      (u == used ==> c == content) && (u != used ==> MergedFrom(olds, u - used, ns, ne, c))
    decreases |olds| - j
  {
    if j < |olds| {
      if j in used || olds[j].startTime != ns {
        MergeScanContent(olds, used, ns, ne, content, j + 1);
      } else {
        match MergePartner(olds, used, j, ne, 0)
        case None =>
          MergeScanContent(olds, used, ns, ne, content, j + 1);
        case Some(k) =>
          var used2 := used + {j, k};
          var content2 := MergedContent(olds[j].content, olds[k].content);
          MergeScanContent(olds, used2, ns, ne, content2, j + 1);
          MergeScanUsed(olds, used2, ns, ne, content2, j + 1);
          var (c, u) := MergeScan(olds, used2, ns, ne, content2, j + 1);
          assert j in u - used && k in u - used;
          if u == used2 {
            assert MergedFrom(olds, u - used, ns, ne, c);
          } else {
            var a: nat, b: nat :| a in u - used2 && b in u - used2 && a != b && a < |olds| && b < |olds|
              && olds[a].startTime == ns && MergesWith(olds, a, b, ne)
              && c == MergedContent(olds[a].content, olds[b].content);
            assert a in u - used && b in u - used;
          }
      }
    }
  }

  /** The merge scan merges whenever some pair is available. */
  lemma {:induction false} MergeScanTakesAvailable(olds: seq<Segment>, used: set<nat>, ns: real, ne: real,
                                                   content: string, j: nat)
    requires j <= |olds| && MergeAvailableFrom(olds, used, ns, ne, j)
    ensures MergeScan(olds, used, ns, ne, content, j).1 != used
    decreases |olds| - j
  {
    var a: nat, b: nat :| j <= a < |olds| && b < |olds| && a != b && a !in used && b !in used
      && olds[a].startTime == ns && MergesWith(olds, a, b, ne);
    if j in used || olds[j].startTime != ns {
      assert MergeAvailableFrom(olds, used, ns, ne, j + 1);
      MergeScanTakesAvailable(olds, used, ns, ne, content, j + 1);
    } else {
      match MergePartner(olds, used, j, ne, 0)
      case None =>
        assert MergeAvailableFrom(olds, used, ns, ne, j + 1);
        MergeScanTakesAvailable(olds, used, ns, ne, content, j + 1);
      case Some(k) =>
        var used2 := used + {j, k};
        MergeScanUsed(olds, used2, ns, ne, MergedContent(olds[j].content, olds[k].content), j + 1);
        assert j in MergeScan(olds, used, ns, ne, content, j).1;
    }
  }

  /**
   * One new segment's migration: it consumes only old segments that were
   * unused; the first scan takes the first unused carrier in list order; the
   * content is the first carrier's unless a merge follows, in which case it is
   * the merged content of the last pair merged; with no carrier and no merge
   * the content is empty.
   */
  lemma MigrateFacts(olds: seq<Segment>, used: set<nat>, ns: real, ne: real)
    ensures var (c, u) := Migrate(olds, used, ns, ne);
      used <= u && u - used <= Indices(|olds|)
      && (FirstCarrier(olds, used, ns, ne, 0).Some? ==> FirstCarrier(olds, used, ns, ne, 0).value in u)
      && (FirstCarrier(olds, used, ns, ne, 0).None? && u == used ==> c == "")
      && (var first := FirstCarrier(olds, used, ns, ne, 0);
          var afterFirst := if first.Some? then used + {first.value} else used;
          (MergeAvailableFrom(olds, afterFirst, ns, ne, 0) ==> MergedFrom(olds, u - used, ns, ne, c))
          && (!MergeAvailableFrom(olds, afterFirst, ns, ne, 0) ==>
                u == afterFirst && c == (if first.Some? then olds[first.value].content else "")))
  {
    var first := FirstCarrier(olds, used, ns, ne, 0);
    var content := if first.Some? then olds[first.value].content else "";
    var afterFirst := if first.Some? then used + {first.value} else used;
    MergeScanUsed(olds, afterFirst, ns, ne, content, 0);
    MergeScanContent(olds, afterFirst, ns, ne, content, 0);
    if MergeAvailableFrom(olds, afterFirst, ns, ne, 0) {
      MergeScanTakesAvailable(olds, afterFirst, ns, ne, content, 0);
    }
    var (c, u) := MergeScan(olds, afterFirst, ns, ne, content, 0);
    assert u - used <= (u - afterFirst) + (afterFirst - used);
    if u != afterFirst {
      var a: nat, b: nat :| a in u - afterFirst && b in u - afterFirst && a != b && a < |olds| && b < |olds|
        && olds[a].startTime == ns && MergesWith(olds, a, b, ne)
        && c == MergedContent(olds[a].content, olds[b].content);
      assert a in u - used && b in u - used;
      assert MergeAvailableFrom(olds, afterFirst, ns, ne, 0);
    }
  }

  /** The old segments new segment `i` consumes. */
  function Consumed(olds: seq<Segment>, ms: seq<Marker>, i: nat): set<nat>
    requires i + 1 < |ms|
  {
    UsedBefore(olds, ms, i + 1) - UsedBefore(olds, ms, i)
  }

  lemma MigrateUsed(olds: seq<Segment>, used: set<nat>, ns: real, ne: real)
    ensures used <= Migrate(olds, used, ns, ne).1
    ensures Migrate(olds, used, ns, ne).1 - used <= Indices(|olds|)
  {
    var first := FirstCarrier(olds, used, ns, ne, 0);
    var content := if first.Some? then olds[first.value].content else "";
    var afterFirst := if first.Some? then used + {first.value} else used;
    MergeScanUsed(olds, afterFirst, ns, ne, content, 0);
    var u := MergeScan(olds, afterFirst, ns, ne, content, 0).1;
    assert u - used <= (u - afterFirst) + (afterFirst - used);
  }

  lemma {:induction false} UsedBeforeGrows(olds: seq<Segment>, ms: seq<Marker>, i: nat, k: nat)
    requires i <= k < |ms|
    ensures UsedBefore(olds, ms, i) <= UsedBefore(olds, ms, k)
    decreases k - i
  {
    if i < k {
      UsedBeforeGrows(olds, ms, i, k - 1);
      MigrateUsed(olds, UsedBefore(olds, ms, k - 1), ms[k - 1].time, ms[k].time);
    }
  }

  /** No old segment is consumed by two different new segments. */
  lemma ConsumedOnce(olds: seq<Segment>, ms: seq<Marker>, i1: nat, i2: nat)
    requires i1 < i2 && i2 + 1 < |ms|
    ensures Consumed(olds, ms, i1) !! Consumed(olds, ms, i2)
    ensures Consumed(olds, ms, i1) <= Indices(|olds|)
  {
    var before1, after1 := UsedBefore(olds, ms, i1), UsedBefore(olds, ms, i1 + 1);
    var before2, after2 := UsedBefore(olds, ms, i2), UsedBefore(olds, ms, i2 + 1);
    assert after1 <= before2 by {
      UsedBeforeGrows(olds, ms, i1 + 1, i2);
    }
    assert after1 - before1 <= Indices(|olds|) by {
      assert after1 == Migrate(olds, before1, ms[i1].time, ms[i1 + 1].time).1;
      MigrateUsed(olds, before1, ms[i1].time, ms[i1 + 1].time);
    }
    DifferencesDisjoint(before1, after1, before2, after2);
  }

  lemma DifferencesDisjoint(a1: set<nat>, b1: set<nat>, a2: set<nat>, b2: set<nat>)
    requires b1 <= a2
    ensures (b1 - a1) !! (b2 - a2)
  {
  }

  /** Segment `i` of a recalculation, read off `BuiltSegment`. */
  lemma CalculatedAt(olds: seq<Segment>, markers: seq<Marker>, i: nat)
    requires i < |Calculated(olds, markers)|
    ensures var r := Calculated(olds, markers); var ms := SortByTime(markers);
      i + 1 < |ms| && r[i].index == i && r[i].startTime == ms[i].time && r[i].endTime == ms[i + 1].time
      && r[i].comment == ms[i].comment && WellFormed(r[i])
  {
    SortSorted(markers);
  }

  /**
   * The shape of a recalculation: fewer than two markers give no segments;
   * otherwise segment `i` has index `i`, runs from sorted marker `i` to sorted
   * marker `i + 1`, takes its comment from marker `i`, is well formed, and
   * ends where the next one starts.
   */
  lemma CalculatedShape(olds: seq<Segment>, markers: seq<Marker>)
    ensures var r := Calculated(olds, markers); var ms := SortByTime(markers);
      (|markers| < 2 ==> r == [])
      && (|markers| >= 2 ==> |r| == |markers| - 1)
      && (forall i :: 0 <= i < |r| ==>
            r[i].index == i && r[i].startTime == ms[i].time && r[i].endTime == ms[i + 1].time
            && r[i].comment == ms[i].comment && WellFormed(r[i]))
      && (forall i :: 0 <= i < |r| - 1 ==> r[i].endTime == r[i + 1].startTime)
  {
    var r := Calculated(olds, markers);
    var ms := SortByTime(markers);
    forall i | 0 <= i < |r|
      ensures r[i].index == i && r[i].startTime == ms[i].time && r[i].endTime == ms[i + 1].time
              && r[i].comment == ms[i].comment && WellFormed(r[i])
    {
      CalculatedAt(olds, markers, i);
    }
  }

  /**
   * Where a new segment's content comes from: nothing (the empty string), the
   * one old segment the first scan matched, or two old segments merged; and
   * every one of those was consumed by this new segment and by no other.
   */
  lemma CalculatedContent(olds: seq<Segment>, markers: seq<Marker>, i: nat)
    requires i < |Calculated(olds, markers)|
    ensures var r := Calculated(olds, markers); var ms := SortByTime(markers);
      var consumed := Consumed(olds, ms, i);
      (consumed == {} ==> r[i].content == "")
      && (r[i].content == ""
          || (exists j :: j in consumed && j < |olds| && r[i].content == olds[j].content)
          || MergedFrom(olds, consumed, r[i].startTime, r[i].endTime, r[i].content))
  {
    var ms := SortByTime(markers);
    SortSorted(markers);
    var used := UsedBefore(olds, ms, i);
    MigrateFacts(olds, used, ms[i].time, ms[i + 1].time);
    var first := FirstCarrier(olds, used, ms[i].time, ms[i + 1].time, 0);
    var afterFirst := if first.Some? then used + {first.value} else used;
    if !MergeAvailableFrom(olds, afterFirst, ms[i].time, ms[i + 1].time, 0) && first.Some? {
      assert first.value in Consumed(olds, ms, i);
    }
  }

  /** The first calculation, with no previous segments, gives every segment empty content. */
  lemma FirstCalculationEmpty(markers: seq<Marker>)
    ensures forall i :: 0 <= i < |Calculated([], markers)| ==> Calculated([], markers)[i].content == ""
  {
    var r := Calculated([], markers);
    forall i | 0 <= i < |r| ensures r[i].content == "" {
      CalculatedContent([], markers, i);
    }
  }

  /** One migration in which the first scan finds `j` and no merge follows. */
  lemma MigrateCarries(olds: seq<Segment>, used: set<nat>, ns: real, ne: real, j: nat)
    requires j < |olds| && j !in used && CarriesOver(olds[j], ns, ne)
    requires forall k :: 0 <= k < j ==> k in used || !CarriesOver(olds[k], ns, ne)
    requires !MergeAvailableFrom(olds, used + {j}, ns, ne, 0)
    ensures Migrate(olds, used, ns, ne) == (olds[j].content, used + {j})
  {
    assert FirstCarrier(olds, used, ns, ne, 0) == Some(j);
    MigrateFacts(olds, used, ns, ne);
  }

  /** The first scan's rule for new segment `i`: it takes the first unused old segment, in list order, with the same range or a left-aligned larger one, unless a merge follows. */
  lemma CalculatedCarriesFirstMatch(olds: seq<Segment>, markers: seq<Marker>, i: nat, j: nat)
    requires i < |Calculated(olds, markers)|
    requires var ms := SortByTime(markers); var used := UsedBefore(olds, ms, i);
      j < |olds| && j !in used && CarriesOver(olds[j], ms[i].time, ms[i + 1].time)
      && (forall k :: 0 <= k < j ==> k in used || !CarriesOver(olds[k], ms[i].time, ms[i + 1].time))
      && !MergeAvailableFrom(olds, used + {j}, ms[i].time, ms[i + 1].time, 0)
    ensures Calculated(olds, markers)[i].content == olds[j].content
    ensures Consumed(olds, SortByTime(markers), i) == {j}
  {
    var ms := SortByTime(markers);
    SortSorted(markers);
    var used := UsedBefore(olds, ms, i);
    MigrateCarries(olds, used, ms[i].time, ms[i + 1].time, j);
    assert Calculated(olds, markers)[i] == BuiltSegment(olds, ms, i);
  }

  /** The merge rule for new segment `i`: when a pair of unused old segments spans it exactly, its content is a merge of such a pair. */
  lemma CalculatedMerges(olds: seq<Segment>, markers: seq<Marker>, i: nat)
    requires i < |Calculated(olds, markers)|
    requires var ms := SortByTime(markers); var used := UsedBefore(olds, ms, i);
      FirstCarrier(olds, used, ms[i].time, ms[i + 1].time, 0).None?
      && MergeAvailableFrom(olds, used, ms[i].time, ms[i + 1].time, 0)
    ensures var r := Calculated(olds, markers);
      MergedFrom(olds, Consumed(olds, SortByTime(markers), i), r[i].startTime, r[i].endTime, r[i].content)
  {
    var ms := SortByTime(markers);
    SortSorted(markers);
    MigrateFacts(olds, UsedBefore(olds, ms, i), ms[i].time, ms[i + 1].time);
  }

  // ---------------------------------------------------------------------
  // Recalculating against unchanged markers
  // ---------------------------------------------------------------------

  predicate StrictlySorted(ms: seq<Marker>) {
    forall i, j :: 0 <= i < j < |ms| ==> ms[i].time < ms[j].time
  }

  lemma {:induction false} StableUsedBefore(prev: seq<Segment>, ms: seq<Marker>, i: nat)
    requires StrictlySorted(ms) && 2 <= |ms| && i < |ms|
    ensures UsedBefore(Calculated(prev, ms), ms, i) == Indices(i)
  {
    if i > 0 {
      StableUsedBefore(prev, ms, i - 1);
      StableMigrate(prev, ms, i - 1);
    }
  }

  /** Against its own previous output, new segment `i` takes old segment `i` and nothing else. */
  lemma StableMigrate(prev: seq<Segment>, ms: seq<Marker>, i: nat)
    requires StrictlySorted(ms) && i + 1 < |ms|
    requires UsedBefore(Calculated(prev, ms), ms, i) == Indices(i)
    ensures var r := Calculated(prev, ms);
      |r| == |ms| - 1
      && Migrate(r, Indices(i), ms[i].time, ms[i + 1].time) == (r[i].content, Indices(i + 1))
  {
    var r := Calculated(prev, ms);
    SortIdentity(ms);
    CalculatedShape(prev, ms);
    var used := Indices(i);
    var ns, ne := ms[i].time, ms[i + 1].time;
    FirstCarrierSkipsUsed(r, used, ns, ne, i);
    assert CarriesOver(r[i], ns, ne);
    assert FirstCarrier(r, used, ns, ne, i) == Some(i);
    var after := used + {i};
    assert after == Indices(i + 1);
    MergeScanStable(r, ms, after, ns, ne, r[i].content, 0, i);
  }

  lemma {:induction false} FirstCarrierSkipsUsed(olds: seq<Segment>, used: set<nat>, ns: real, ne: real, i: nat)
    requires i <= |olds| && forall k :: 0 <= k < i ==> k in used
    ensures FirstCarrier(olds, used, ns, ne, 0) == FirstCarrier(olds, used, ns, ne, i)
  {
    var j := i;
    while j > 0
      invariant 0 <= j <= i
      invariant FirstCarrier(olds, used, ns, ne, j) == FirstCarrier(olds, used, ns, ne, i)
    {
      j := j - 1;
    }
  }

  lemma {:induction false} MergeScanStable(r: seq<Segment>, ms: seq<Marker>, used: set<nat>, ns: real, ne: real,
                                           content: string, j: nat, i: nat)
    requires StrictlySorted(ms) && |r| == |ms| - 1 && i < |r| && j <= |r| && ns == ms[i].time
    requires forall x :: 0 <= x < |r| ==> r[x].startTime == ms[x].time
    requires used == Indices(i + 1)
    ensures MergeScan(r, used, ns, ne, content, j) == (content, used)
    decreases |r| - j
  {
    if j < |r| {
      if j !in used {
        assert r[j].startTime == ms[j].time && j > i;
      }
      MergeScanStable(r, ms, used, ns, ne, content, j + 1, i);
    }
  }

  /**
   * With markers strictly ordered by time, recalculating keeps every segment,
   * content included: each new segment meets its own old copy first.
   */
  lemma RecalculationStable(prev: seq<Segment>, ms: seq<Marker>)
    requires StrictlySorted(ms)
    ensures Calculated(Calculated(prev, ms), ms) == Calculated(prev, ms)
  {
    var r := Calculated(prev, ms);
    var r2 := Calculated(r, ms);
    CalculatedShape(prev, ms);
    CalculatedShape(r, ms);
    forall i | 0 <= i < |r| ensures r2[i] == r[i] {
      StableAt(prev, ms, i);
    }
  }

  /** Segment `i` of the second recalculation equals segment `i` of the first. */
  lemma StableAt(prev: seq<Segment>, ms: seq<Marker>, i: nat)
    requires StrictlySorted(ms) && i < |Calculated(prev, ms)|
    ensures i < |Calculated(Calculated(prev, ms), ms)|
    ensures Calculated(Calculated(prev, ms), ms)[i] == Calculated(prev, ms)[i]
  {
    var r := Calculated(prev, ms);
    SortIdentity(ms);
    CalculatedShape(prev, ms);
    CalculatedShape(r, ms);
    StableUsedBefore(prev, ms, i);
    StableMigrate(prev, ms, i);
  }

  class SegmentManager {
    var segments: seq<Segment>

    /** Starts from no segments and calculates them once from `markers`. */
    constructor (markers: seq<Marker>)
      ensures segments == Calculated([], markers)
    {
      segments := [];
      new;
      CalculateSegments(markers);
    }

    /** `_calculate_segments`: rebuilds `segments` from `markers`, carrying content over. */
    method CalculateSegments(markers: seq<Marker>)
      modifies this
      ensures segments == Calculated(old(segments), markers)
    {
      var sortedMarkers := SortByTime(markers);
      SortSorted(markers);
      var existing := segments;
      segments := [];
      if |sortedMarkers| < 2 {
        return;
      }
      var used: set<nat> := {};
      var i := 0;
      while i < |sortedMarkers| - 1
        invariant 0 <= i <= |sortedMarkers| - 1
        invariant used == UsedBefore(existing, sortedMarkers, i)
        invariant segments == seq(i, k requires 0 <= k < i => BuiltSegment(existing, sortedMarkers, k))
      {
        var startMarker, endMarker := sortedMarkers[i], sortedMarkers[i + 1];
        var comment := startMarker.comment;
        var newStart, newEnd := startMarker.time, endMarker.time;
        ghost var usedAtStart := used;
        var preserved, usedAfter := MatchOldSegment(existing, used, newStart, newEnd);
        used := usedAfter;
        assert (preserved, used) == Migrate(existing, usedAtStart, newStart, newEnd);
        var segment := NewSegment(i, newStart, newEnd, comment, preserved).value;
        segments := segments + [segment];
        i := i + 1;
      }
    }

    /** The two scans of `_calculate_segments` for one new segment. */
    static method MatchOldSegment(existing: seq<Segment>, used0: set<nat>, newStart: real, newEnd: real)
      returns (preserved: string, used: set<nat>)
      ensures (preserved, used) == Migrate(existing, used0, newStart, newEnd)
    {
      preserved, used := ExactOrSplitScan(existing, used0, newStart, newEnd);
      ghost var contentAfterFirst, usedAfterFirst := preserved, used;
      var j := 0;
      while j < |existing|
        invariant 0 <= j <= |existing|
        invariant MergeScan(existing, usedAfterFirst, newStart, newEnd, contentAfterFirst, 0)
               == MergeScan(existing, used, newStart, newEnd, preserved, j)
      {
        var oldSeg := existing[j];
        if j in used {
          j := j + 1;
          continue;
        }
        if oldSeg.startTime == newStart {
          preserved, used := MergeWithPartner(existing, used, preserved, j, newEnd);
        }
        j := j + 1;
      }
    }

    /** The first scan: the first unused old segment that matches exactly, or contains the new one and starts with it. */
    static method ExactOrSplitScan(existing: seq<Segment>, used0: set<nat>, newStart: real, newEnd: real)
      returns (preserved: string, used: set<nat>)
      ensures var first := FirstCarrier(existing, used0, newStart, newEnd, 0);
        preserved == (if first.Some? then existing[first.value].content else "")
        && used == (if first.Some? then used0 + {first.value} else used0)
    {
      preserved := "";
      used := used0;
      var j := 0;
      while j < |existing|
        invariant 0 <= j <= |existing|
        invariant used == used0 && preserved == ""
        invariant FirstCarrier(existing, used0, newStart, newEnd, 0)
               == FirstCarrier(existing, used0, newStart, newEnd, j)
      {
        var oldSeg := existing[j];
        if j in used {
          j := j + 1;
          continue;
        }
        if oldSeg.startTime == newStart && oldSeg.endTime == newEnd {
          preserved := oldSeg.content;
          used := used + {j};
          return;
        }
        if oldSeg.startTime <= newStart < newEnd <= oldSeg.endTime {
          if newStart == oldSeg.startTime {
            preserved := oldSeg.content;
            used := used + {j};
            return;
          }
        }
        j := j + 1;
      }
    }

    /** The inner loop of the merge scan: merges old segment `j` with the first unused old segment that completes it. */
    static method MergeWithPartner(existing: seq<Segment>, used0: set<nat>, preserved0: string, j: nat, newEnd: real)
      returns (preserved: string, used: set<nat>)
      requires j < |existing|
      ensures match MergePartner(existing, used0, j, newEnd, 0)
        case None => preserved == preserved0 && used == used0
        case Some(k) => preserved == MergedContent(existing[j].content, existing[k].content) && used == used0 + {j, k}
    {
      preserved, used := preserved0, used0;
      var oldSeg := existing[j];
      var k := 0;
      while k < |existing|
        invariant 0 <= k <= |existing|
        invariant used == used0 && preserved == preserved0
        invariant MergePartner(existing, used0, j, newEnd, 0)
               == MergePartner(existing, used0, j, newEnd, k)
      {
        var oldSeg2 := existing[k];
        if k in used || k == j {
          k := k + 1;
          continue;
        }
        if oldSeg2.endTime == newEnd && oldSeg.endTime == oldSeg2.startTime {
          var parts: seq<string> := [];
          if oldSeg.content != "" {
            parts := parts + [oldSeg.content];
          }
          if oldSeg2.content != "" {
            parts := parts + [oldSeg2.content];
          }
          preserved := JoinLines(parts);
          used := used + {j, k};
          return;
        }
        k := k + 1;
      }
    }
  }

  // ---------------------------------------------------------------------
  // Read-only queries over the segment list
  // ---------------------------------------------------------------------

  /** `get_segment_by_index`: a bounds-checked lookup by list position. */
  function SegmentByIndex(segs: seq<Segment>, index: int): (r: Option<Segment>)
    ensures r.Some? <==> 0 <= index < |segs|
    ensures r.Some? ==> r.value == segs[index]
  {
    if 0 <= index < |segs| then Some(segs[index]) else None
  }

  /**
   * The position `get_segment_at_time` answers with: among the segments that
   * contain `t`, one with the highest `index`, and of those the first in the
   * list (Python's `max` keeps the first maximum).
   */
  function LatestContaining(segs: seq<Segment>, t: real): (r: Option<nat>)
    ensures r.None? <==> forall i :: 0 <= i < |segs| ==> !ContainsTime(segs[i], t)
    ensures r.Some? ==> r.value < |segs| && ContainsTime(segs[r.value], t)
    ensures r.Some? ==> forall i :: 0 <= i < |segs| && ContainsTime(segs[i], t) ==> segs[i].index <= segs[r.value].index
    ensures r.Some? ==> forall i :: 0 <= i < r.value && ContainsTime(segs[i], t) ==> segs[i].index < segs[r.value].index
  {
    if segs == [] then None
    else
      var n := |segs| - 1;
      var prev := LatestContaining(segs[..n], t);
      assert forall i :: 0 <= i < n ==> segs[..n][i] == segs[i];
      if !ContainsTime(segs[n], t) then prev
      else if prev.None? || segs[n].index > segs[prev.value].index then Some(n)
      else prev
  }

  /** `get_segment_at_time`. */
  function SegmentAtTime(segs: seq<Segment>, t: real): (r: Option<Segment>)
    ensures r.None? <==> forall i :: 0 <= i < |segs| ==> !ContainsTime(segs[i], t)
    ensures r.Some? ==> r.value in segs && ContainsTime(r.value, t)
    ensures r.Some? ==> forall s :: s in segs && ContainsTime(s, t) ==> s.index <= r.value.index
  {
    var p := LatestContaining(segs, t);
    if p.None? then None else Some(segs[p.value])
  }

  /** `get_current_segment_index`. */
  function CurrentSegmentIndex(segs: seq<Segment>, t: real): (r: Option<int>)
    ensures r.None? <==> forall i :: 0 <= i < |segs| ==> !ContainsTime(segs[i], t)
    ensures r.Some? ==> exists s :: s in segs && ContainsTime(s, t) && s.index == r.value
    ensures r.Some? ==> forall s :: s in segs && ContainsTime(s, t) ==> s.index <= r.value
  {
    var s := SegmentAtTime(segs, t);
    if s.None? then None else Some(s.value.index)
  }

  /** The fallback scan of `get_next_segment`: the first segment starting strictly after `t`. */
  function FirstStartingAfter(segs: seq<Segment>, t: real, from: nat): (r: Option<nat>)
    requires from <= |segs|
    ensures r.None? <==> forall i :: from <= i < |segs| ==> segs[i].startTime <= t
    ensures r.Some? ==> from <= r.value < |segs| && t < segs[r.value].startTime
    ensures r.Some? ==> forall i :: from <= i < r.value ==> segs[i].startTime <= t
    decreases |segs| - from
  {
    if from == |segs| then None
    else if t < segs[from].startTime then Some(from)
    else FirstStartingAfter(segs, t, from + 1)
  }

  /** The fallback scan of `get_previous_segment`, from the end: the last segment ending strictly before `t`. */
  function LastEndingBefore(segs: seq<Segment>, t: real, upTo: nat): (r: Option<nat>)
    requires upTo <= |segs|
    ensures r.None? <==> forall i :: 0 <= i < upTo ==> t <= segs[i].endTime
    ensures r.Some? ==> r.value < upTo && segs[r.value].endTime < t
    ensures r.Some? ==> forall i :: r.value < i < upTo ==> t <= segs[i].endTime
  {
    if upTo == 0 then None
    else if t > segs[upTo - 1].endTime then Some(upTo - 1)
    else LastEndingBefore(segs, t, upTo - 1)
  }

  /** `get_next_segment`. */
  function NextSegment(segs: seq<Segment>, t: real): (r: Option<Segment>)
    ensures SegmentAtTime(segs, t).Some? ==> r == SegmentByIndex(segs, SegmentAtTime(segs, t).value.index + 1)
    ensures SegmentAtTime(segs, t).None? && r.Some? ==>
              exists p :: 0 <= p < |segs| && r.value == segs[p] && t < segs[p].startTime
                          && forall i :: 0 <= i < p ==> segs[i].startTime <= t
    ensures SegmentAtTime(segs, t).None? && r.None? ==> forall i :: 0 <= i < |segs| ==> segs[i].startTime <= t
  {
    var current := SegmentAtTime(segs, t);
    if current.None? then
      var p := FirstStartingAfter(segs, t, 0);
      if p.None? then None else Some(segs[p.value])
    else SegmentByIndex(segs, current.value.index + 1)
  }

  /** `get_previous_segment`. */
  function PreviousSegment(segs: seq<Segment>, t: real): (r: Option<Segment>)
    ensures SegmentAtTime(segs, t).Some? ==> r == SegmentByIndex(segs, SegmentAtTime(segs, t).value.index - 1)
    ensures SegmentAtTime(segs, t).None? && r.Some? ==>
              exists p :: 0 <= p < |segs| && r.value == segs[p] && segs[p].endTime < t
                          && forall i :: p < i < |segs| ==> t <= segs[i].endTime
    ensures SegmentAtTime(segs, t).None? && r.None? ==> forall i :: 0 <= i < |segs| ==> t <= segs[i].endTime
  {
    var current := SegmentAtTime(segs, t);
    if current.None? then
      var p := LastEndingBefore(segs, t, |segs|);
      if p.None? then None else Some(segs[p.value])
    else SegmentByIndex(segs, current.value.index - 1)
  }

  /** `get_segment_start_time`. */
  function SegmentStartTime(segs: seq<Segment>, index: int): (r: Option<real>)
    ensures r.Some? <==> 0 <= index < |segs|
    ensures r.Some? ==> r.value == segs[index].startTime
  {
    var s := SegmentByIndex(segs, index);
    if s.None? then None else Some(s.value.startTime)
  }

  /** `get_segment_end_time`. */
  function SegmentEndTime(segs: seq<Segment>, index: int): (r: Option<real>)
    ensures r.Some? <==> 0 <= index < |segs|
    ensures r.Some? ==> r.value == segs[index].endTime
  {
    var s := SegmentByIndex(segs, index);
    if s.None? then None else Some(s.value.endTime)
  }

  /** `get_segment_duration`. */
  function SegmentDuration(segs: seq<Segment>, index: int): (r: Option<real>)
    ensures r.Some? <==> 0 <= index < |segs|
    ensures r.Some? ==> r.value == segs[index].duration
  {
    var s := SegmentByIndex(segs, index);
    if s.None? then None else Some(s.value.duration)
  }

  // ---------------------------------------------------------------------
  // Navigation over a list that recalculation produced
  // ---------------------------------------------------------------------

  /** Segment `i` has index `i`, is well formed, and ends where segment `i + 1` starts. */
  predicate Contiguous(segs: seq<Segment>) {
    (forall i :: 0 <= i < |segs| ==> segs[i].index == i && WellFormed(segs[i]))
    && (forall i :: 0 <= i < |segs| - 1 ==> segs[i].endTime == segs[i + 1].startTime)
  }

  /** Every list a recalculation produces is contiguous. */
  lemma CalculatedContiguous(olds: seq<Segment>, markers: seq<Marker>)
    ensures Contiguous(Calculated(olds, markers))
  {
    CalculatedShape(olds, markers);
  }

  /** In a contiguous list, a segment ends no later than any later one starts. */
  lemma {:induction false} ContiguousOrdered(segs: seq<Segment>, i: nat, j: nat)
    requires Contiguous(segs) && i < j < |segs|
    ensures segs[i].endTime <= segs[j].startTime
    decreases j - i
  {
    if i + 1 < j {
      ContiguousOrdered(segs, i + 1, j);
    }
  }

  /** A contiguous list leaves no gap: every time from the first start to the last end lies in a segment. */
  lemma {:induction false} ContiguousCovers(segs: seq<Segment>, t: real, k: nat)
    requires Contiguous(segs) && k < |segs| && segs[0].startTime <= t <= segs[k].endTime
    ensures exists i :: 0 <= i <= k && ContainsTime(segs[i], t)
    decreases k
  {
    if !ContainsTime(segs[k], t) {
      assert k > 0 && t < segs[k].startTime;
      ContiguousCovers(segs, t, k - 1);
    }
  }

  /**
   * On a contiguous list, the segment at `t` is the one whose half-open range
   * `[start, end)` holds `t`, the last segment's range being closed: a time on
   * a shared boundary belongs to the later segment.
   */
  lemma CurrentSegmentHalfOpen(segs: seq<Segment>, t: real)
    requires Contiguous(segs) && |segs| > 0
    ensures SegmentAtTime(segs, t).Some? <==> segs[0].startTime <= t <= segs[|segs| - 1].endTime
    ensures SegmentAtTime(segs, t).Some? ==>
              var p := SegmentAtTime(segs, t).value.index;
              0 <= p < |segs| && SegmentAtTime(segs, t).value == segs[p]
              && segs[p].startTime <= t && (p + 1 < |segs| ==> t < segs[p].endTime)
  {
    var last := |segs| - 1;
    if segs[0].startTime <= t <= segs[last].endTime {
      ContiguousCovers(segs, t, last);
      var s := SegmentAtTime(segs, t).value;
      var p := s.index;
      var q :| 0 <= q < |segs| && segs[q] == s;
      assert p == q;
      if p + 1 < |segs| {
        assert segs[p + 1] in segs;
        assert !ContainsTime(segs[p + 1], t);
      }
    } else if SegmentAtTime(segs, t).Some? {
      var s := SegmentAtTime(segs, t).value;
      var q :| 0 <= q < |segs| && segs[q] == s;
      if q > 0 {
        ContiguousOrdered(segs, 0, q);
      }
      if q < last {
        ContiguousOrdered(segs, q, last);
      }
    }
  }

  /** Before the first segment: `get_next_segment` gives the first segment and `get_previous_segment` nothing. */
  lemma NavigateBeforeFirst(segs: seq<Segment>, t: real)
    requires Contiguous(segs) && |segs| > 0 && t < segs[0].startTime
    ensures NextSegment(segs, t) == Some(segs[0])
    ensures PreviousSegment(segs, t) == None
  {
    CurrentSegmentHalfOpen(segs, t);
    forall i | 0 <= i < |segs| ensures t <= segs[i].endTime {
      if i > 0 {
        ContiguousOrdered(segs, 0, i);
      }
    }
  }

  /** After the last segment: `get_next_segment` gives nothing and `get_previous_segment` the last segment. */
  lemma NavigateAfterLast(segs: seq<Segment>, t: real)
    requires Contiguous(segs) && |segs| > 0 && t > segs[|segs| - 1].endTime
    ensures NextSegment(segs, t) == None
    ensures PreviousSegment(segs, t) == Some(segs[|segs| - 1])
  {
    CurrentSegmentHalfOpen(segs, t);
    forall i | 0 <= i < |segs| ensures segs[i].startTime <= t {
      if i < |segs| - 1 {
        ContiguousOrdered(segs, i, |segs| - 1);
      }
    }
  }

  /** Inside the covered range: next and previous are the neighbours of the segment at `t`, if any. */
  lemma NavigateInside(segs: seq<Segment>, t: real)
    requires Contiguous(segs) && |segs| > 0 && segs[0].startTime <= t <= segs[|segs| - 1].endTime
    ensures SegmentAtTime(segs, t).Some?
    ensures var p := SegmentAtTime(segs, t).value.index;
      0 <= p < |segs|
      && NextSegment(segs, t) == (if p + 1 < |segs| then Some(segs[p + 1]) else None)
      && PreviousSegment(segs, t) == (if p > 0 then Some(segs[p - 1]) else None)
  {
    CurrentSegmentHalfOpen(segs, t);
  }

  /** On well-formed segments the duration getter is the end getter minus the start getter. */
  lemma DurationIsEndMinusStart(segs: seq<Segment>, index: int)
    requires forall s :: s in segs ==> WellFormed(s)
    ensures SegmentDuration(segs, index).Some? ==>
              SegmentDuration(segs, index).value == SegmentEndTime(segs, index).value - SegmentStartTime(segs, index).value
  {
    if 0 <= index < |segs| {
      assert segs[index] in segs;
    }
  }

  // ---------------------------------------------------------------------
  // Worked examples
  // ---------------------------------------------------------------------

  /** Markers at 10 s, 25 s and 40 s, already in time order. */
  function ThreeMarkers(): seq<Marker> {
    [Marker(10.0, "Marker1", "", ""), Marker(25.0, "Marker2", "", ""), Marker(40.0, "Marker3", "", "")]
  }

  /** Splitting [10, 40] with a marker at 25: the left part keeps the content, the right part starts empty. */
  lemma SplitExample()
    ensures var r := Calculated([Segment(0, 10.0, 40.0, 30.0, "", "X")], ThreeMarkers());
      |r| == 2 && r[0].content == "X" && r[1].content == ""
  {
    var ms := ThreeMarkers();
    var olds := [Segment(0, 10.0, 40.0, 30.0, "", "X")];
    SortIdentity(ms);
    assert FirstCarrier(olds, {}, 10.0, 25.0, 0) == Some(0);
    assert MergeScan(olds, {0}, 10.0, 25.0, "X", 1) == ("X", {0});
    assert MergeScan(olds, {0}, 10.0, 25.0, "X", 0) == ("X", {0});
    assert {} + {0} == {0};
    assert Migrate(olds, {}, 10.0, 25.0) == ("X", {0});
    assert FirstCarrier(olds, {0}, 25.0, 40.0, 0) == None;
    assert MergeScan(olds, {0}, 25.0, 40.0, "", 0) == ("", {0});
    assert Migrate(olds, {0}, 25.0, 40.0) == ("", {0});
    assert BuiltSegment(olds, ms, 0).content == "X";
    assert BuiltSegment(olds, ms, 1).content == "";
  }

  /** Removing the marker at 25 again: the two halves [10, 25] and [25, 40] merge, contents joined by a newline. */
  lemma MergeExample()
    ensures var olds := [Segment(0, 10.0, 25.0, 15.0, "", "A"), Segment(1, 25.0, 40.0, 15.0, "", "B")];
      var r := Calculated(olds, [ThreeMarkers()[0], ThreeMarkers()[2]]);
      |r| == 1 && r[0].content == "A\nB"
  {
    var ms := [ThreeMarkers()[0], ThreeMarkers()[2]];
    var olds := [Segment(0, 10.0, 25.0, 15.0, "", "A"), Segment(1, 25.0, 40.0, 15.0, "", "B")];
    SortIdentity(ms);
    MergedContentCases("A", "B");
    assert FirstCarrier(olds, {}, 10.0, 40.0, 0) == None;
    assert MergePartner(olds, {}, 0, 40.0, 0) == Some(1);
  }

  /** At 25 s, the boundary of the two segments, the later segment is current. */
  lemma BoundaryExample(olds: seq<Segment>)
    ensures CurrentSegmentIndex(Calculated(olds, ThreeMarkers()), 25.0) == Some(1)
  {
    var ms := ThreeMarkers();
    SortIdentity(ms);
    var r := Calculated(olds, ms);
    CalculatedShape(olds, ms);
    CalculatedContiguous(olds, ms);
    CurrentSegmentHalfOpen(r, 25.0);
  }
}
