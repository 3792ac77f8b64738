/**
 * `WindowsDisplayInfo.Resolution` (WindowsDisplayInfo.java:229-277): an
 * immutable width, height and aspect-ratio label. Java's `equals` compares
 * all three fields, which is exactly `==` on this datatype; `compareTo`
 * orders by width, then by height, and ignores the label.
 */
module Resolutions {
  import opened AspectRatio

  datatype Resolution = Resolution(width: int, height: int, aspectRatio: string)

  /** Integer.compare: the sign of x - y. */
  function CompareInt(x: int, y: int): (r: int)
    ensures r == -1 || r == 0 || r == 1
    ensures r < 0 <==> x < y
    ensures r == 0 <==> x == y
  {
    if x < y then -1 else if x == y then 0 else 1
  }

  /** `compareTo`: Comparator.comparingInt(width).thenComparingInt(height). */
  function CompareTo(a: Resolution, b: Resolution): (r: int)
    ensures r == -1 || r == 0 || r == 1
    ensures r == 0 <==> a.width == b.width && a.height == b.height
    ensures r < 0 <==> a.width < b.width || (a.width == b.width && a.height < b.height)
  {
    var byWidth := CompareInt(a.width, b.width);
    if byWidth != 0 then byWidth else CompareInt(a.height, b.height)
  }

  /** Swapping the arguments flips the sign of the comparison. */
  lemma CompareToAntisymmetric(a: Resolution, b: Resolution)
    ensures CompareTo(a, b) == -CompareTo(b, a)
  {
  }

  /** The strict order `CompareTo(a, b) < 0` is transitive. */
  lemma CompareToTransitive(a: Resolution, b: Resolution, c: Resolution)
    requires CompareTo(a, b) < 0 && CompareTo(b, c) < 0
    ensures CompareTo(a, c) < 0
  {
  }

  /** The resolution `new Resolution(w, h, determineAspectRatio(w, h))` builds. */
  function Classified(width: int, height: int): (r: Resolution)
    requires height > 0
    ensures r.width == width && r.height == height && r.aspectRatio in Ratios
  {
    Resolution(width, height, AspectRatioOf(width, height))
  }

  /** `r` carries the label the classifier gives its own dimensions. */
  ghost predicate WellLabelled(r: Resolution) {
    r.height > 0 && r == Classified(r.width, r.height)
  }

  /**
   * On classified resolutions `compareTo` is consistent with `equals`:
   * equal dimensions imply an equal label.
   */
  lemma CompareToConsistentWithEquals(a: Resolution, b: Resolution)
    requires WellLabelled(a) && WellLabelled(b)
    ensures CompareTo(a, b) == 0 <==> a == b
  {
  }
}
