/**
 * The marker records that `MarkerManager.markers` holds, and the stable
 * sort by time that the marker manager and the segment manager apply to
 * them (`sorted(markers, key=lambda m: m["time"])` and
 * `markers.sort(key=lambda m: m["time"])`).
 *
 * Python's sort is stable; the insertion sort here inserts each record after
 * every earlier record of equal time, so it is stable too. What is proved
 * about it: it is a permutation, its result is ordered by time, it leaves an
 * ordered list unchanged, and it commutes with keeping only the user (or
 * only the fixed) markers.
 */
module MarkerRecords {
  import opened Wrappers

  /** One marker dict: the keys `time`, `name`, `comment` and `content`. */
  datatype Marker = Marker(time: real, name: string, comment: string, content: string)

  /** The two fixed markers are recognised by their names alone. */
  predicate IsFixed(m: Marker) {
    m.name == "Marker0" || m.name == "Marker500"
  }

  function Abs(x: real): (r: real)
    ensures r >= 0.0 && (r == x || r == -x)
  {
    if x < 0.0 then -x else x
  }

  predicate Sorted(s: seq<Marker>) {
    forall i, j :: 0 <= i < j < |s| ==> s[i].time <= s[j].time
  }

  /** Inserts `x` after the leading run of entries whose time is at most `x.time`. */
  function Insert(t: seq<Marker>, x: Marker): (r: seq<Marker>)
    ensures |r| == |t| + 1
  {
    if t == [] then [x]
    else if t[0].time <= x.time then [t[0]] + Insert(t[1..], x)
    else [x] + t
  }

  /** The position at which `Insert(t, x)` places `x`. */
  function InsertPos(t: seq<Marker>, x: Marker): (p: nat)
    ensures p <= |t|
  {
    if t == [] then 0
    else if t[0].time <= x.time then 1 + InsertPos(t[1..], x)
    else 0
  }

  /** Stable sort by `time`: each entry in turn is inserted after every earlier entry with a time not above its own. */
  function SortByTime(s: seq<Marker>): (r: seq<Marker>)
    ensures |r| == |s|
  {
    if s == [] then [] else Insert(SortByTime(s[..|s| - 1]), s[|s| - 1])
  }

  /** Stable merge of two sequences; on equal times the entry of `a` comes first. */
  function Merge(a: seq<Marker>, b: seq<Marker>): (r: seq<Marker>)
    ensures |r| == |a| + |b|
    decreases |a| + |b|
  {
    if a == [] then b
    else if b == [] then a
    else if a[0].time <= b[0].time then [a[0]] + Merge(a[1..], b)
    else [b[0]] + Merge(a, b[1..])
  }

  /** The entries whose fixedness is `fixed`, in their original order. */
  function Select(s: seq<Marker>, fixed: bool): (r: seq<Marker>)
    ensures |r| <= |s|
    ensures forall m :: m in r ==> m in s && IsFixed(m) == fixed
  {
    if s == [] then []
    else if IsFixed(s[|s| - 1]) == fixed then Select(s[..|s| - 1], fixed) + [s[|s| - 1]]
    else Select(s[..|s| - 1], fixed)
  }

  function UserMarkers(s: seq<Marker>): seq<Marker> { Select(s, false) }

  function FixedMarkers(s: seq<Marker>): seq<Marker> { Select(s, true) }

  /** Python's `list.index(v)`: the first position holding a value equal to `v`. */
  function IndexOf(s: seq<Marker>, v: Marker): (r: Option<nat>)
    ensures r.None? <==> v !in s
    ensures r.Some? ==> r.value < |s| && s[r.value] == v && v !in s[..r.value]
  {
    if s == [] then None
    else if s[0] == v then Some(0)
    else match IndexOf(s[1..], v)
      case None => None
      case Some(k) => assert s[1..][..k] == s[1..k + 1]; Some(k + 1)
  }

  // ---------------------------------------------------------------------
  // Properties of the sort
  // ---------------------------------------------------------------------

  lemma {:induction false} InsertMultiset(t: seq<Marker>, x: Marker)
    ensures multiset(Insert(t, x)) == multiset(t) + multiset{x}
  {
    if t != [] && t[0].time <= x.time {
      InsertMultiset(t[1..], x);
      assert t == [t[0]] + t[1..];
    }
  }

  lemma {:induction false} SortMultiset(s: seq<Marker>)
    ensures multiset(SortByTime(s)) == multiset(s)
  {
    if s != [] {
      var n := |s| - 1;
      SortMultiset(s[..n]);
      InsertMultiset(SortByTime(s[..n]), s[n]);
      assert s == s[..n] + [s[n]];
    }
  }

  lemma {:induction false} InsertSorted(t: seq<Marker>, x: Marker)
    requires Sorted(t)
    ensures Sorted(Insert(t, x))
  {
    if t != [] && t[0].time <= x.time {
      InsertSorted(t[1..], x);
      InsertMultiset(t[1..], x);
      var r := Insert(t[1..], x);
      forall j | 0 <= j < |r| ensures t[0].time <= r[j].time {
        assert r[j] in multiset(r);
        assert r[j] in multiset(t[1..]) || r[j] == x;
      }
    }
  }

  /** The sort's output is ordered by time. */
  lemma {:induction false} SortSorted(s: seq<Marker>)
    ensures Sorted(SortByTime(s))
  {
    if s != [] {
      SortSorted(s[..|s| - 1]);
      InsertSorted(SortByTime(s[..|s| - 1]), s[|s| - 1]);
    }
  }

  lemma {:induction false} InsertAtEnd(t: seq<Marker>, x: Marker)
    requires forall i :: 0 <= i < |t| ==> t[i].time <= x.time
    ensures Insert(t, x) == t + [x]
  {
    if t != [] {
      InsertAtEnd(t[1..], x);
    }
  }

  /** Sorting a sequence that is already ordered by time leaves it as it is. */
  lemma {:induction false} SortIdentity(s: seq<Marker>)
    requires Sorted(s)
    ensures SortByTime(s) == s
  {
    if s != [] {
      var n := |s| - 1;
      SortIdentity(s[..n]);
      InsertAtEnd(s[..n], s[n]);
      assert s[..n] + [s[n]] == s;
    }
  }

  lemma SortTwice(s: seq<Marker>)
    ensures SortByTime(SortByTime(s)) == SortByTime(s)
  {
    SortSorted(s);
    SortIdentity(SortByTime(s));
  }

  /** `Insert` splits `t` at `InsertPos(t, x)` and puts `x` there. */
  lemma {:induction false} InsertSplit(t: seq<Marker>, x: Marker)
    ensures Insert(t, x) == t[..InsertPos(t, x)] + [x] + t[InsertPos(t, x)..]
  {
    if t != [] && t[0].time <= x.time {
      InsertSplit(t[1..], x);
      var p := InsertPos(t[1..], x);
      assert t[..p + 1] == [t[0]] + t[1..][..p];
      assert t[p + 1..] == t[1..][p..];
    }
  }

  lemma {:induction false} InsertIsMergeWithSingleton(a: seq<Marker>, x: Marker)
    ensures Insert(a, x) == Merge(a, [x])
  {
    if a != [] && a[0].time <= x.time {
      InsertIsMergeWithSingleton(a[1..], x);
    }
  }

  lemma {:induction false} InsertIntoMerge(a: seq<Marker>, b: seq<Marker>, x: Marker)
    ensures Insert(Merge(a, b), x) == Merge(a, Insert(b, x))
    decreases |a| + |b|
  {
    if a == [] {
    } else if b == [] {
      InsertIsMergeWithSingleton(a, x);
    } else if a[0].time <= b[0].time {
      if a[0].time <= x.time {
        InsertIntoMerge(a[1..], b, x);
      }
    } else {
      if b[0].time <= x.time {
        InsertIntoMerge(a, b[1..], x);
      }
    }
  }

  /** Sorting a concatenation is the stable merge of the sorted parts. */
  lemma {:induction false} SortAppend(a: seq<Marker>, b: seq<Marker>)
    ensures SortByTime(a + b) == Merge(SortByTime(a), SortByTime(b))
    decreases |b|
  {
    if b == [] {
      assert a + b == a;
    } else {
      var n := |b| - 1;
      SortAppend(a, b[..n]);
      assert (a + b)[..|a + b| - 1] == a + b[..n];
      InsertIntoMerge(SortByTime(a), SortByTime(b[..n]), b[n]);
    }
  }

  /** Pre-sorting the right-hand part of a concatenation makes no difference. */
  lemma SortAppendSorted(a: seq<Marker>, b: seq<Marker>)
    ensures SortByTime(a + SortByTime(b)) == SortByTime(a + b)
  {
    SortAppend(a, SortByTime(b));
    SortAppend(a, b);
    SortTwice(b);
  }

  // ---------------------------------------------------------------------
  // Selecting the fixed or the user markers commutes with the sort
  // ---------------------------------------------------------------------

  lemma {:induction false} SelectAppend(a: seq<Marker>, b: seq<Marker>, fixed: bool)
    ensures Select(a + b, fixed) == Select(a, fixed) + Select(b, fixed)
    decreases |b|
  {
    if b == [] {
      assert a + b == a;
    } else {
      var n := |b| - 1;
      assert (a + b)[..|a + b| - 1] == a + b[..n];
      SelectAppend(a, b[..n], fixed);
    }
  }

  /** Keeping only the user (or only the fixed) markers keeps a list ordered by time. */
  lemma {:induction false} SelectKeepsOrder(s: seq<Marker>, fixed: bool)
    requires Sorted(s)
    ensures Sorted(Select(s, fixed))
  {
    if s != [] {
      var n := |s| - 1;
      var front := Select(s[..n], fixed);
      SelectKeepsOrder(s[..n], fixed);
      if IsFixed(s[n]) == fixed {
        forall m | m in front ensures m.time <= s[n].time {
          var k :| 0 <= k < n && s[..n][k] == m;
          assert s[k] == m;
        }
        assert forall a :: 0 <= a < |front| ==> front[a] in front;
      }
    }
  }

  lemma SelectCons(m: Marker, s: seq<Marker>, fixed: bool)
    ensures Select([m] + s, fixed) == (if IsFixed(m) == fixed then [m] else []) + Select(s, fixed)
  {
    SelectAppend([m], s, fixed);
    assert [m][..0] == [];
  }

  lemma InsertBeforeAll(t: seq<Marker>, x: Marker)
    requires forall i :: 0 <= i < |t| ==> x.time < t[i].time
    ensures Insert(t, x) == [x] + t
  {
  }

  lemma SelectInsertFront(t: seq<Marker>, x: Marker, fixed: bool)
    requires Sorted(t) && t != [] && x.time < t[0].time
    ensures Select(Insert(t, x), fixed)
         == if IsFixed(x) == fixed then Insert(Select(t, fixed), x) else Select(t, fixed)
  {
    assert Insert(t, x) == [x] + t;
    SelectCons(x, t, fixed);
    var st := Select(t, fixed);
    forall i | 0 <= i < |st| ensures x.time < st[i].time {
      assert st[i] in st;
      var k :| 0 <= k < |t| && t[k] == st[i];
      assert t[0].time <= t[k].time;
    }
    InsertBeforeAll(st, x);
  }

  lemma SelectInsertStep(t: seq<Marker>, x: Marker, fixed: bool)
    requires t != [] && t[0].time <= x.time
    requires Select(Insert(t[1..], x), fixed)
          == if IsFixed(x) == fixed then Insert(Select(t[1..], fixed), x) else Select(t[1..], fixed)
    ensures Select(Insert(t, x), fixed)
         == if IsFixed(x) == fixed then Insert(Select(t, fixed), x) else Select(t, fixed)
  {
    var head := if IsFixed(t[0]) == fixed then [t[0]] else [];
    var rest := Select(t[1..], fixed);
    var ins := Insert(t[1..], x);
    assert Select(Insert(t, x), fixed) == head + Select(ins, fixed) by {
      assert Insert(t, x) == [t[0]] + ins;
      SelectCons(t[0], ins, fixed);
    }
    assert Select(t, fixed) == head + rest by {
      assert t == [t[0]] + t[1..];
      SelectCons(t[0], t[1..], fixed);
    }
    if IsFixed(x) == fixed {
      assert Insert(head + rest, x) == head + Insert(rest, x) by {
        if IsFixed(t[0]) == fixed {
          assert (head + rest)[0] == t[0] && (head + rest)[1..] == rest;
        } else {
          assert head + rest == rest;
        }
      }
    }
  }

  lemma {:induction false} SelectInsert(t: seq<Marker>, x: Marker, fixed: bool)
    requires Sorted(t)
    ensures Select(Insert(t, x), fixed)
         == if IsFixed(x) == fixed then Insert(Select(t, fixed), x) else Select(t, fixed)
  {
    if t == [] {
      assert Insert(t, x) == [] + [x];
    } else if t[0].time <= x.time {
      SelectInsert(t[1..], x, fixed);
      SelectInsertStep(t, x, fixed);
    } else {
      SelectInsertFront(t, x, fixed);
    }
  }

  /** Sorting and then selecting equals selecting and then sorting (the sort is stable). */
  lemma {:induction false} SelectSort(s: seq<Marker>, fixed: bool)
    ensures Select(SortByTime(s), fixed) == SortByTime(Select(s, fixed))
  {
    if s != [] {
      var n := |s| - 1;
      SelectSort(s[..n], fixed);
      SortSorted(s[..n]);
      SelectInsert(SortByTime(s[..n]), s[n], fixed);
    }
  }
}
