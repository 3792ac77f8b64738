/**
 * The resolution lists built from the primary display's modes
 * (WindowsDisplayInfo.java:152-185). The operating-system queries become
 * parameters: `modes` stands for the (width, height) of every
 * `DisplayMode` the graphics device reports, `effective` and `native` for
 * the results of `retrieveEffectiveResolution` and
 * `retrieveNativeResolution`, with `None` for Java's `null`.
 */
module DisplayModes {
  import opened Wrappers
  import opened AspectRatio
  import opened Resolutions

  /** The smallest display mode kept, 800 x 600 (WindowsDisplayInfo.java:178). */
  const MinWidth := 800
  const MinHeight := 600

  predicate MeetsFloor(mode: (int, int)) {
    mode.0 >= MinWidth && mode.1 >= MinHeight
  }

  /** `r` is a mode of `modes` that meets the floor, labelled by the classifier. */
  ghost predicate FromModes(modes: seq<(int, int)>, r: Resolution) {
    && MeetsFloor((r.width, r.height))
    && (r.width, r.height) in modes
    && r.aspectRatio == AspectRatioOf(r.width, r.height)
  }

  /** `a` comes before `b`: natural order when ascending, reverse order otherwise. */
  predicate Before(a: Resolution, b: Resolution, ascending: bool) {
    if ascending then CompareTo(a, b) < 0 else CompareTo(b, a) < 0
  }

  /** Every element comes strictly before every later one. */
  ghost predicate Ordered(s: seq<Resolution>, ascending: bool) {
    forall i, j :: 0 <= i < j < |s| ==> Before(s[i], s[j], ascending)
  }

  /** A strictly ordered list holds no element twice. */
  lemma OrderedHasNoDuplicates(s: seq<Resolution>, ascending: bool)
    requires Ordered(s, ascending)
    ensures forall i, j :: 0 <= i < j < |s| ==> s[i] != s[j]
  {
  }

  /**
   * Insertion of `x` into an ordered list that holds nothing comparing equal
   * to it; the sort step of the list builder.
   */
  function Insert(s: seq<Resolution>, x: Resolution, ascending: bool): (r: seq<Resolution>)
    requires Ordered(s, ascending)
    requires forall k :: 0 <= k < |s| ==> CompareTo(s[k], x) != 0
    ensures |r| == |s| + 1
    ensures forall y :: y in r <==> y in s || y == x
    ensures Ordered(r, ascending)
  {
    if s == [] then [x]
    else if Before(x, s[0], ascending) then
      assert forall k :: 0 < k < |s| ==> Before(s[0], s[k], ascending);
      [x] + s
    else
      var rest := Insert(s[1..], x, ascending);
      assert forall y :: y in rest ==> Before(s[0], y, ascending);
      [s[0]] + rest
  }

  /**
   * `retrieveAllScreenResolutions` (WindowsDisplayInfo.java:173-185): keep
   * the modes meeting the floor, label them, drop duplicates through a set,
   * and sort the set's elements ascending or descending.
   */
  method RetrieveAllScreenResolutions(modes: seq<(int, int)>, ascending: bool) returns (list: seq<Resolution>)
    ensures forall r :: r in list <==> FromModes(modes, r)
    ensures Ordered(list, ascending)
  {
    var resolutionSet: set<Resolution> := {};
    for i := 0 to |modes|
      invariant forall r :: r in resolutionSet <==> FromModes(modes[..i], r)
    {
      var (width, height) := modes[i];
      assert modes[..i + 1] == modes[..i] + [modes[i]];
      if width >= MinWidth && height >= MinHeight {
        var ratio := DetermineAspectRatio(width, height);
        resolutionSet := resolutionSet + {Resolution(width, height, ratio)};
      }
    }
    assert modes[..|modes|] == modes;

    // new ArrayList<>(resolutionSet), then sort: the set is drained in an
    // unspecified order and each element is inserted in its place.
    list := [];
    var remaining := resolutionSet;
    while remaining != {}
      invariant remaining <= resolutionSet
      invariant forall r :: r in list <==> r in resolutionSet && r !in remaining
      invariant Ordered(list, ascending)
      decreases |remaining|
    {
      var x :| x in remaining;
      forall k | 0 <= k < |list| ensures CompareTo(list[k], x) != 0 {
        assert list[k] in resolutionSet && list[k] != x;
      }
      list := Insert(list, x, ascending);
      remaining := remaining - {x};
    }
  }

  /**
   * `retrieveMaximumResolution` (WindowsDisplayInfo.java:168-171): the head
   * of the descending list, or `None` when it is empty.
   */
  method RetrieveMaximumResolution(modes: seq<(int, int)>) returns (max: Option<Resolution>)
    ensures max.None? <==> forall m :: m in modes ==> !MeetsFloor(m)
    ensures max.Some? ==> FromModes(modes, max.value)
    ensures max.Some? ==> forall r :: FromModes(modes, r) ==> CompareTo(max.value, r) >= 0
  {
    var resolutions := RetrieveAllScreenResolutions(modes, false);
    max := if |resolutions| == 0 then None else Some(resolutions[0]);

    forall m | m in modes && MeetsFloor(m) ensures max.Some? {
      assert FromModes(modes, Classified(m.0, m.1));
    }
    if max.Some? {
      assert resolutions[0] in resolutions;
      forall r | FromModes(modes, r) ensures CompareTo(max.value, r) >= 0 {
        var j :| 0 <= j < |resolutions| && resolutions[j] == r;
        if j > 0 {
          assert Before(resolutions[0], resolutions[j], false);
        }
      }
    }
  }

  /** `res` may replace `effective`: same aspect-ratio label and at least as wide. */
  predicate Candidate(effective: Option<Resolution>, res: Resolution) {
    effective.Some? && res.aspectRatio == effective.value.aspectRatio && res.width >= effective.value.width
  }

  /** `k` is the first candidate of `all`. */
  ghost predicate IsFirstCandidate(effective: Option<Resolution>, all: seq<Resolution>, k: int) {
    && 0 <= k < |all|
    && Candidate(effective, all[k])
    && forall j :: 0 <= j < k ==> !Candidate(effective, all[j])
  }

  /**
   * The selection inside `retrieveAdjustedResolution`
   * (WindowsDisplayInfo.java:156-165): the effective resolution when the
   * list holds it, else the first same-ratio entry at least as wide, else
   * the native resolution.
   */
  method SelectAdjusted(effective: Option<Resolution>, all: seq<Resolution>, native: Option<Resolution>)
    returns (r: Option<Resolution>)
    ensures effective.Some? && effective.value in all ==> r == effective
    ensures !(effective.Some? && effective.value in all) && (exists k :: 0 <= k < |all| && Candidate(effective, all[k])) ==>
              exists k :: IsFirstCandidate(effective, all, k) && r == Some(all[k])
    ensures !(effective.Some? && effective.value in all) && (forall k :: 0 <= k < |all| ==> !Candidate(effective, all[k])) ==>
              r == native
    ensures r == effective || r == native || (r.Some? && r.value in all && Candidate(effective, r.value))
  {
    if effective.Some? && effective.value in all {
      return effective;
    }
    for i := 0 to |all|
      invariant forall k :: 0 <= k < i ==> !Candidate(effective, all[k])
    {
      if effective.Some? && all[i].aspectRatio == effective.value.aspectRatio {
        if all[i].width >= effective.value.width {
          assert IsFirstCandidate(effective, all, i);
          return Some(all[i]);
        }
      }
    }
    return native;
  }

  /**
   * `retrieveAdjustedResolution` (WindowsDisplayInfo.java:152-166) over the
   * ascending list built from `modes`. Its second tier picks the smallest
   * same-ratio mode at least as wide as the effective resolution.
   */
  method RetrieveAdjustedResolution(effective: Option<Resolution>, modes: seq<(int, int)>, native: Option<Resolution>)
    returns (r: Option<Resolution>)
    ensures effective.Some? && FromModes(modes, effective.value) ==> r == effective
    ensures !(effective.Some? && FromModes(modes, effective.value)) && (exists c :: FromModes(modes, c) && Candidate(effective, c)) ==>
              && r.Some? && FromModes(modes, r.value) && Candidate(effective, r.value)
              && forall c :: FromModes(modes, c) && Candidate(effective, c) ==> CompareTo(r.value, c) <= 0
    ensures !(effective.Some? && FromModes(modes, effective.value)) && (forall c :: FromModes(modes, c) ==> !Candidate(effective, c)) ==>
              r == native
  {
    var allResolutions := RetrieveAllScreenResolutions(modes, true);
    r := SelectAdjusted(effective, allResolutions, native);

    if !(effective.Some? && FromModes(modes, effective.value)) {
      if c :| FromModes(modes, c) && Candidate(effective, c) {
        var i :| 0 <= i < |allResolutions| && allResolutions[i] == c;
        var k :| IsFirstCandidate(effective, allResolutions, k) && r == Some(allResolutions[k]);
        forall d | FromModes(modes, d) && Candidate(effective, d) ensures CompareTo(r.value, d) <= 0 {
          var j :| 0 <= j < |allResolutions| && allResolutions[j] == d;
          if j != k {
            assert Before(allResolutions[k], allResolutions[j], true);
          }
        }
      } else {
        forall k | 0 <= k < |allResolutions| ensures !Candidate(effective, allResolutions[k]) {
          assert allResolutions[k] in allResolutions;
        }
      }
    }
  }

  /**
   * A 1366x768 effective resolution that is not a display mode is raised to
   * the 16:9 mode 1920x1080, the only 16:9 mode at least as wide.
   */
  method AdjustedResolutionExample() returns (r: Option<Resolution>)
    ensures r == Some(Resolution(1920, 1080, "16:9"))
  {
    var modes := [(800, 600), (1280, 1024), (1920, 1080)];
    var wide := Resolution(1920, 1080, "16:9");
    var effective := Some(Resolution(1366, 768, "16:9"));
    Example1920x1080();
    assert FromModes(modes, wide) && Candidate(effective, wide);
    r := RetrieveAdjustedResolution(effective, modes, None);
    assert (r.value.width, r.value.height) in modes && r.value.width >= 1366;
    assert (r.value.width, r.value.height) == (1920, 1080);
  }

  /** The reverse of a sequence. */
  function Reverse(s: seq<Resolution>): (r: seq<Resolution>)
    ensures |r| == |s|
    ensures forall i :: 0 <= i < |s| ==> r[i] == s[|s| - 1 - i]
  {
    if s == [] then [] else Reverse(s[1..]) + [s[0]]
  }

  /**
   * An ordered list is determined by its elements: whatever order the set
   * is drained in, the builder's result is the same.
   */
  lemma {:induction false} OrderedUnique(s1: seq<Resolution>, s2: seq<Resolution>, ascending: bool)
    requires Ordered(s1, ascending) && Ordered(s2, ascending)
    requires forall r :: r in s1 <==> r in s2
    ensures s1 == s2
  {
    assert s1 != [] ==> s1[0] in s2;
    assert s2 != [] ==> s2[0] in s1;
    if s1 != [] && s2 != [] {
      var i :| 0 <= i < |s1| && s1[i] == s2[0];
      var j :| 0 <= j < |s2| && s2[j] == s1[0];
      assert i > 0 ==> Before(s1[0], s2[0], ascending);
      assert j > 0 ==> Before(s2[0], s1[0], ascending);
      assert s1[0] == s2[0];
      forall r ensures r in s1[1..] <==> r in s2[1..] {
        if r in s1[1..] {
          var i :| 1 <= i < |s1| && s1[i] == r;
          assert Before(s1[0], s1[i], ascending);
          assert r in s2;
        }
        if r in s2[1..] {
          var j :| 1 <= j < |s2| && s2[j] == r;
          assert Before(s2[0], s2[j], ascending);
          assert r in s1;
        }
      }
      OrderedUnique(s1[1..], s2[1..], ascending);
      assert s1 == [s1[0]] + s1[1..] && s2 == [s2[0]] + s2[1..];
    }
  }

  /**
   * The descending list is the reverse of the ascending one
   * (Comparator.reverseOrder against Comparator.naturalOrder).
   */
  lemma DescendingIsReverseOfAscending(modes: seq<(int, int)>, up: seq<Resolution>, down: seq<Resolution>)
    requires forall r :: r in up <==> FromModes(modes, r)
    requires Ordered(up, true)
    requires forall r :: r in down <==> FromModes(modes, r)
    requires Ordered(down, false)
    ensures down == Reverse(up)
  {
    var rev := Reverse(up);
    forall r ensures r in rev <==> r in up {
      if r in rev {
        var i :| 0 <= i < |rev| && rev[i] == r;
        assert up[|up| - 1 - i] == r;
      }
      if r in up {
        var i :| 0 <= i < |up| && up[i] == r;
        assert rev[|up| - 1 - i] == r;
      }
    }
    forall i, j | 0 <= i < j < |rev| ensures Before(rev[i], rev[j], false) {
      assert Before(up[|up| - 1 - j], up[|up| - 1 - i], true);
    }
    OrderedUnique(rev, down, false);
  }
}
