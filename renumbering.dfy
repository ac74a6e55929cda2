/**
 * `MarkerManager._renumber_user_markers` as a specification: the user
 * markers, sorted by time, are renamed `Marker1`, `Marker2`, ... and the
 * whole list is sorted by time again; `Marker0` and `Marker500` keep their
 * names.
 */
module Renumbering {
  import opened MarkerRecords

  const DIGITS := "0123456789"

  /** Python's `str(n)` for a natural number. */
  function NatToString(n: nat): (r: string)
    ensures |r| >= 1
    ensures n < 10 <==> |r| == 1
  {
    if n < 10 then [DIGITS[n]] else NatToString(n / 10) + [DIGITS[n % 10]]
  }

  lemma DigitInjective(a: nat, b: nat)
    requires a < 10 && b < 10 && DIGITS[a] == DIGITS[b]
    ensures a == b
  {
  }

  /** Different numbers are printed differently. */
  lemma {:induction false} NatToStringInjective(a: nat, b: nat)
    requires NatToString(a) == NatToString(b)
    ensures a == b
  {
    if a >= 10 && b >= 10 {
      var sa, sb := NatToString(a), NatToString(b);
      assert sa[|sa| - 1] == DIGITS[a % 10];
      assert sb[|sb| - 1] == DIGITS[b % 10];
      DigitInjective(a % 10, b % 10);
      assert sa[..|sa| - 1] == NatToString(a / 10);
      assert sb[..|sb| - 1] == NatToString(b / 10);
      NatToStringInjective(a / 10, b / 10);
    } else if a < 10 && b < 10 {
      DigitInjective(a, b);
    }
  }

  /** `f"Marker{k}"`. */
  function MarkerName(k: nat): string {
    "Marker" + NatToString(k)
  }

  /** A number other than 0 and 500 never yields the name of a fixed marker. */
  lemma MarkerNameNotFixed(k: nat)
    requires k != 0 && k != 500
    ensures MarkerName(k) != "Marker0" && MarkerName(k) != "Marker500"
  {
    assert NatToString(0) == "0";
    assert NatToString(500) == "500" by {
      assert NatToString(50) == "50";
    }
    if MarkerName(k) == "Marker0" {
      assert NatToString(k) == MarkerName(k)[6..];
      NatToStringInjective(k, 0);
    }
    if MarkerName(k) == "Marker500" {
      assert NatToString(k) == MarkerName(k)[6..];
      NatToStringInjective(k, 500);
    }
  }

  /** Entry `i` of a list of user markers is renamed `Marker{i + 1}`. */
  function NamedInOrder(u: seq<Marker>): (r: seq<Marker>)
    ensures |r| == |u|
  {
    seq(|u|, i requires 0 <= i < |u| => u[i].(name := MarkerName(i + 1)))
  }

  /** The list `_renumber_user_markers` leaves in `self.markers`. */
  function Renumbered(s: seq<Marker>): (r: seq<Marker>)
    ensures |r| == |s|
  {
    SortMultiset(UserMarkers(s));
    SortMultiset(NamedInOrder(SortByTime(UserMarkers(s))) + FixedMarkers(s));
    SelectSizes(s);
    SortByTime(NamedInOrder(SortByTime(UserMarkers(s))) + FixedMarkers(s))
  }

  // ---------------------------------------------------------------------
  // Helpers about Select
  // ---------------------------------------------------------------------

  lemma {:induction false} SelectSizes(s: seq<Marker>)
    ensures |UserMarkers(s)| + |FixedMarkers(s)| == |s|
  {
    if s != [] {
      SelectSizes(s[..|s| - 1]);
    }
  }

  lemma {:induction false} SelectWhenAll(s: seq<Marker>, fixed: bool)
    requires forall i :: 0 <= i < |s| ==> IsFixed(s[i]) == fixed
    ensures Select(s, fixed) == s && Select(s, !fixed) == []
  {
    if s != [] {
      var n := |s| - 1;
      SelectWhenAll(s[..n], fixed);
      assert s[..n] + [s[n]] == s;
    }
  }

  lemma SelectOfSelect(s: seq<Marker>, fixed: bool)
    ensures Select(Select(s, fixed), fixed) == Select(s, fixed)
    ensures Select(Select(s, fixed), !fixed) == []
  {
    var t := Select(s, fixed);
    forall i | 0 <= i < |t| ensures IsFixed(t[i]) == fixed {
      assert t[i] in t;
    }
    SelectWhenAll(t, fixed);
  }

  lemma NamedSorted(u: seq<Marker>)
    requires Sorted(u)
    ensures Sorted(NamedInOrder(u))
  {
  }

  lemma NamedAreUsers(u: seq<Marker>)
    requires |u| < 500
    ensures forall i :: 0 <= i < |u| ==> !IsFixed(NamedInOrder(u)[i])
  {
    forall i | 0 <= i < |u| ensures !IsFixed(NamedInOrder(u)[i]) {
      MarkerNameNotFixed(i + 1);
    }
  }

  lemma NamedTwice(u: seq<Marker>)
    ensures NamedInOrder(NamedInOrder(u)) == NamedInOrder(u)
  {
  }

  // ---------------------------------------------------------------------
  // What renumbering promises
  // ---------------------------------------------------------------------

  /** The renumbered list is ordered by time. */
  lemma RenumberedSorted(s: seq<Marker>)
    ensures Sorted(Renumbered(s))
  {
    SortSorted(NamedInOrder(SortByTime(UserMarkers(s))) + FixedMarkers(s));
  }

  /**
   * Renumbering splits the list exactly: its user markers are the old user
   * markers in ascending time named `Marker1..MarkerN`, and its fixed markers
   * are the old fixed markers, names unchanged, in time order.
   */
  lemma RenumberedParts(s: seq<Marker>)
    requires |UserMarkers(s)| < 500
    ensures UserMarkers(Renumbered(s)) == NamedInOrder(SortByTime(UserMarkers(s)))
    ensures FixedMarkers(Renumbered(s)) == SortByTime(FixedMarkers(s))
  {
    var su := SortByTime(UserMarkers(s));
    var n := NamedInOrder(su);
    var f := FixedMarkers(s);
    NamedAreUsers(su);
    SelectWhenAll(n, false);
    SelectOfSelect(s, true);
    SelectSort(n + f, false);
    SelectSort(n + f, true);
    SelectAppend(n, f, false);
    SelectAppend(n, f, true);
    assert n + [] == n && [] + f == f;
    SortSorted(UserMarkers(s));
    NamedSorted(su);
    SortIdentity(n);
  }

  /** Every user marker of the renumbered list is named after its rank in time order. */
  lemma RenumberedNames(s: seq<Marker>)
    requires |UserMarkers(s)| < 500
    ensures forall i :: 0 <= i < |UserMarkers(Renumbered(s))| ==>
              UserMarkers(Renumbered(s))[i].name == MarkerName(i + 1)
    ensures Sorted(UserMarkers(Renumbered(s)))
  {
    var su := SortByTime(UserMarkers(s));
    RenumberedParts(s);
    SortSorted(UserMarkers(s));
    NamedFacts(su);
  }

  lemma NamedFacts(u: seq<Marker>)
    requires Sorted(u)
    ensures Sorted(NamedInOrder(u))
    ensures forall i :: 0 <= i < |NamedInOrder(u)| ==> NamedInOrder(u)[i].name == MarkerName(i + 1)
  {
    NamedSorted(u);
  }

  /** Running the renumbering twice gives the same list as running it once. */
  lemma RenumberedIdempotent(s: seq<Marker>)
    requires |UserMarkers(s)| < 500
    ensures Renumbered(Renumbered(s)) == Renumbered(s)
  {
    var r := Renumbered(s);
    var n := NamedInOrder(SortByTime(UserMarkers(s)));
    RenumberedParts(s);
    SortSorted(UserMarkers(s));
    NamedSorted(SortByTime(UserMarkers(s)));
    SortIdentity(n);
    NamedTwice(SortByTime(UserMarkers(s)));
    SortAppendSorted(n, FixedMarkers(s));
  }

  /**
   * A user marker `x` appended to `s` and sorted in ends up, after
   * renumbering, named after its position among the sorted user markers.
   * This is the value that the appended record holds once
   * `_renumber_user_markers` has renamed it in place.
   */
  function RenamedNewMarker(s: seq<Marker>, x: Marker): Marker {
    x.(name := MarkerName(InsertPos(SortByTime(UserMarkers(s)), x) + 1))
  }

  lemma NewMarkerSurvivesRenumbering(s: seq<Marker>, x: Marker)
    requires !IsFixed(x)
    ensures RenamedNewMarker(s, x) in Renumbered(SortByTime(s + [x]))
  {
    var u := SortByTime(UserMarkers(s));
    var ins := Insert(u, x);
    var p := InsertPos(u, x);
    UsersAfterAppend(s, x);
    assert p < |ins| && ins[p] == x by {
      SortSorted(UserMarkers(s));
      InsertSplit(u, x);
    }
    assert SortByTime(ins) == ins by {
      SortSorted(UserMarkers(s));
      InsertSorted(u, x);
      SortIdentity(ins);
    }
    var named := NamedInOrder(ins);
    assert named[p] == RenamedNewMarker(s, x);
    var all := named + FixedMarkers(SortByTime(s + [x]));
    assert all[p] == named[p];
    SortMultiset(all);
    assert all[p] in multiset(all);
  }

  /** The user markers of `s + [x]`, sorted, are those of `s`, sorted, with `x` inserted. */
  lemma UsersAfterAppend(s: seq<Marker>, x: Marker)
    requires !IsFixed(x)
    ensures UserMarkers(SortByTime(s + [x])) == Insert(SortByTime(UserMarkers(s)), x)
  {
    assert (s + [x])[..|s + [x]| - 1] == s;
    SelectSort(s + [x], false);
    SelectAppend(s, [x], false);
    assert Select([x], false) == [x] by {
      assert [x][..0] == [];
    }
    assert (UserMarkers(s) + [x])[..|UserMarkers(s) + [x]| - 1] == UserMarkers(s);
  }
}
