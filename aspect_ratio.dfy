/**
 * `determineAspectRatio` (WindowsDisplayInfo.java:200-217): snap a width and
 * height to the nearest entry of a fixed, ordered catalog of nine display
 * aspect ratios. The source compares `double` quotients; this model uses
 * exact `real` arithmetic.
 */
module AspectRatio {
  import opened Wrappers
  import opened RatioParsing

  type Positive = n: int | n > 0 witness 1

  /** A catalog entry as the pair of numbers its label names. */
  datatype Ratio = Ratio(num: nat, den: Positive)

  /** The catalog's labels, in declaration order. */
  const Ratios: seq<string> := ["1:1", "5:4", "4:3", "3:2", "16:10", "16:9", "17:9", "21:9", "32:9"]

  /** The same catalog, entry by entry, as the pairs those labels name. */
  const Catalog: seq<Ratio> := [Ratio(1, 1), Ratio(5, 4), Ratio(4, 3), Ratio(3, 2), Ratio(16, 10),
                                Ratio(16, 9), Ratio(17, 9), Ratio(21, 9), Ratio(32, 9)]

  /** Each label is the printed form of its catalog pair. */
  lemma CatalogLabels()
    ensures |Ratios| == |Catalog|
    ensures forall i :: 0 <= i < |Catalog| ==> Ratios[i] == FormatRatio(Catalog[i].num, Catalog[i].den)
  {
  }

  /** Each label parses to its catalog pair, so parsing the labels yields the catalog. */
  lemma RatiosParseToCatalog()
    ensures |Ratios| == |Catalog|
    ensures forall i :: 0 <= i < |Ratios| ==> ParseRatio(Ratios[i]) == Some((Catalog[i].num, Catalog[i].den as nat))
  {
    CatalogLabels();
    forall i | 0 <= i < |Ratios|
      ensures ParseRatio(Ratios[i]) == Some((Catalog[i].num, Catalog[i].den as nat))
    {
      ParseFormatRoundTrip(Catalog[i].num, Catalog[i].den);
    }
  }

  function Quotient(p: nat, q: nat): real
    requires q > 0
  {
    p as real / q as real
  }

  /** True when every label parses to a pair with a non-zero denominator. */
  predicate ParsesToRatios(ratios: seq<string>) {
    forall i :: 0 <= i < |ratios| ==> ParseRatio(ratios[i]).Some? && ParseRatio(ratios[i]).value.1 > 0
  }

  /**
   * `ratioDecimalFromStrings` (WindowsDisplayInfo.java:219-227): the quotient
   * of every label, appended in order.
   */
  method RatioDecimalFromStrings(ratios: seq<string>) returns (decimals: seq<real>)
    requires ParsesToRatios(ratios)
    ensures |decimals| == |ratios|
    ensures forall i :: 0 <= i < |ratios| ==>
              decimals[i] == Quotient(ParseRatio(ratios[i]).value.0, ParseRatio(ratios[i]).value.1)
  {
    decimals := [];
    for i := 0 to |ratios|
      invariant |decimals| == i
      invariant forall k :: 0 <= k < i ==>
                  decimals[k] == Quotient(ParseRatio(ratios[k]).value.0, ParseRatio(ratios[k]).value.1)
    {
      var pq := ParseRatio(ratios[i]).value;
      decimals := decimals + [Quotient(pq.0, pq.1)];
    }
  }

  function Abs(x: real): real {
    if x < 0.0 then -x else x
  }

  /** Distance between width/height and the i-th catalog ratio (Math.abs(ratioArgs - ratioDec)). */
  function Diff(width: int, height: int, i: nat): (d: real)
    requires height > 0 && i < |Catalog|
    ensures d >= 0.0
    ensures d == 0.0 <==> width * Catalog[i].den == Catalog[i].num * height
  {
    Abs(width as real / height as real - Quotient(Catalog[i].num, Catalog[i].den))
  }

  /** `k` is a nearest catalog entry and no earlier entry is as near. */
  ghost predicate IsNearest(width: int, height: int, k: nat)
    requires height > 0
  {
    && k < |Catalog|
    && (forall j :: 0 <= j < |Catalog| ==> Diff(width, height, k) <= Diff(width, height, j))
    && (forall j :: 0 <= j < k ==> Diff(width, height, j) > Diff(width, height, k))
  }

  /** Index of the first nearest entry among the first `n` catalog entries. */
  function NearestUpTo(width: int, height: int, n: nat): (k: nat)
    requires height > 0 && 0 < n <= |Catalog|
    ensures k < n
    ensures forall j :: 0 <= j < n ==> Diff(width, height, k) <= Diff(width, height, j)
    ensures forall j :: 0 <= j < k ==> Diff(width, height, j) > Diff(width, height, k)
  {
    if n == 1 then 0
    else
      var k := NearestUpTo(width, height, n - 1);
      if Diff(width, height, n - 1) < Diff(width, height, k) then n - 1 else k
  }

  /** Index of the entry `determineAspectRatio` picks: Collections.min, then indexOf. */
  function NearestIndex(width: int, height: int): (k: nat)
    requires height > 0
    ensures IsNearest(width, height, k)
  {
    NearestUpTo(width, height, |Catalog|)
  }

  /** The label `determineAspectRatio` returns for width x height. */
  function AspectRatioOf(width: int, height: int): (ratio: string)
    requires height > 0
    ensures ratio in Ratios
  {
    Ratios[NearestIndex(width, height)]
  }

  /** Minimality with first-index tie-break determines the index uniquely. */
  lemma NearestIsUnique(width: int, height: int, k: nat)
    requires height > 0 && IsNearest(width, height, k)
    ensures NearestIndex(width, height) == k
  {
  }

  /**
   * The decimal quotients of the catalog, obtained as the source does by
   * parsing its labels (WindowsDisplayInfo.java:204-205).
   */
  method CatalogDecimals() returns (decimals: seq<real>)
    ensures |decimals| == |Catalog|
    ensures forall i :: 0 <= i < |Catalog| ==> decimals[i] == Quotient(Catalog[i].num, Catalog[i].den)
  {
    RatiosParseToCatalog();
    decimals := RatioDecimalFromStrings(Ratios);
  }

  /**
   * `determineAspectRatio`: fill the list of distances, take its minimum and
   * return the label at the first index holding it.
   */
  method DetermineAspectRatio(width: int, height: int) returns (ratio: string)
    requires height > 0
    ensures ratio == AspectRatioOf(width, height)
  {
    var ratios := Ratios;
    var decimals := CatalogDecimals();

    var ratioArgs := width as real / height as real;
    var diffs: seq<real> := [];
    for i := 0 to |decimals|
      invariant |diffs| == i
      invariant forall k :: 0 <= k < i ==> diffs[k] == Diff(width, height, k)
    {
      diffs := diffs + [Abs(ratioArgs - decimals[i])];
    }

    // Collections.min
    var min := diffs[0];
    ghost var at := 0;
    for i := 1 to |diffs|
      invariant 0 <= at < i && diffs[at] == min
      invariant forall k :: 0 <= k < i ==> min <= diffs[k]
    {
      if diffs[i] < min {
        min, at := diffs[i], i;
      }
    }

    // indexOf
    var index := 0;
    while diffs[index] != min
      invariant 0 <= index <= at
      invariant forall k :: 0 <= k < index ==> diffs[k] != min
      decreases at - index
    {
      index := index + 1;
    }

    NearestIsUnique(width, height, index);
    ratio := ratios[index];
  }

  /** Entry `j` does not displace `k`: it is farther, or as far but later. */
  ghost predicate Loses(width: int, height: int, k: nat, j: nat)
    requires height > 0 && k < |Catalog| && j < |Catalog|
  {
    if j < k then Diff(width, height, j) > Diff(width, height, k)
    else Diff(width, height, k) <= Diff(width, height, j)
  }

  /** `k` is the classifier's choice once every entry is checked against it. */
  lemma NearestByCases(width: int, height: int, k: nat)
    requires height > 0 && k < |Catalog|
    requires Loses(width, height, k, 0) && Loses(width, height, k, 1) && Loses(width, height, k, 2)
    requires Loses(width, height, k, 3) && Loses(width, height, k, 4) && Loses(width, height, k, 5)
    requires Loses(width, height, k, 6) && Loses(width, height, k, 7) && Loses(width, height, k, 8)
    ensures AspectRatioOf(width, height) == Ratios[k]
  {
  }

  /** 1024x768 is exactly 4:3 (WindowsDisplayInfo.java:190). */
  lemma Example1024x768()
    ensures AspectRatioOf(1024, 768) == "4:3"
  {
    NearestByCases(1024, 768, 2);
  }

  /** 1920x1080 is exactly 16:9 (WindowsDisplayInfo.java:191). */
  lemma Example1920x1080()
    ensures AspectRatioOf(1920, 1080) == "16:9"
  {
    NearestByCases(1920, 1080, 5);
  }

  /** 3440x1440 (43:18) is nearest to 21:9 (WindowsDisplayInfo.java:192). */
  lemma Example3440x1440()
    ensures AspectRatioOf(3440, 1440) == "21:9"
  {
    NearestByCases(3440, 1440, 7);
  }

  /** 1366x768 is not exactly 16:9 but is classified as such (WindowsDisplayInfo.java:194). */
  lemma Example1366x768()
    ensures AspectRatioOf(1366, 768) == "16:9"
  {
    NearestByCases(1366, 768, 5);
  }

  /**
   * 900x800 (9/8) lies exactly midway between 1:1 and 5:4; the earlier entry
   * wins. All three quotients are exact binary fractions, so the tie is a
   * tie in `double` as well.
   */
  lemma ExactTieGoesToEarlierEntry()
    ensures AspectRatioOf(900, 800) == "1:1"
  {
    NearestByCases(900, 800, 0);
  }

  /** The tie in `ExactTieGoesToEarlierEntry` is exact: 9/8 is 1/8 from both 1 and 5/4. */
  lemma ExactTieAt900x800()
    ensures Diff(900, 800, 0) == Diff(900, 800, 1) == 0.125
  {
  }

  /** The label depends on the quotient width/height only. */
  lemma SameQuotientSameLabel(w1: int, h1: int, w2: int, h2: int)
    requires h1 > 0 && h2 > 0 && w1 * h2 == w2 * h1
    ensures AspectRatioOf(w1, h1) == AspectRatioOf(w2, h2)
  {
    assert w1 as real / h1 as real == w2 as real / h2 as real;
    forall j | 0 <= j < |Catalog| ensures Diff(w1, h1, j) == Diff(w2, h2, j) { }
    var k := NearestIndex(w2, h2);
    NearestIsUnique(w1, h1, k);
  }
}
