# WindowsDisplayInfo: resolution classification, in Dafny

`WindowsDisplayInfo` reports the primary display's resolutions, aspect
ratios and scale factor on Windows. Most of it is calls into GDI and AWT.
This project models the part that works on the numbers those calls return:

- the aspect-ratio classifier `determineAspectRatio`, which snaps a width and
  height to the nearest entry of a fixed, ordered catalog of nine ratios
  (1:1, 5:4, 4:3, 3:2, 16:10, 16:9, 17:9, 21:9, 32:9), the first entry
  winning a tie, together with `ratioDecimalFromStrings`, which turns the
  catalog's labels into quotients by splitting on ':' and parsing both halves;
- the `Resolution` value (width, height, label) with its structural
  `equals` and its `compareTo`, lexicographic on (width, height);
- `retrieveAllScreenResolutions`, which keeps the display modes of at least
  800 x 600, labels them, removes duplicates through a set and sorts them
  ascending or descending;
- `retrieveMaximumResolution`, the head of the descending list;
- `retrieveAdjustedResolution`, which returns the effective resolution when
  it is one of the listed modes (at least 800 x 600), else the first
  same-ratio listed mode at least as wide, else the native resolution.

Layout, one module per file:

- `wrappers.dfy` (`Wrappers`): `Option`, standing for Java's nullable references.
- `ratio_parsing.dfy` (`RatioParsing`): `String.split(":")` (trailing empty
  pieces removed), unsigned `Integer.parseInt`, and the printing of a pair
  as "p:q", with the round-trip lemmas between them.
- `aspect_ratio.dfy` (`AspectRatio`): the catalog, `RatioDecimalFromStrings`,
  the classifier as a method with the source's three loops (fill the
  distances, `Collections.min`, `indexOf`), and `AspectRatioOf`, the function
  that specifies it.
- `resolution.dfy` (`Resolutions`): the `Resolution` datatype and `CompareTo`.
- `display_modes.dfy` (`DisplayModes`): the list builder, maximum and
  adjusted-resolution selection.

The operating-system queries are parameters. `modes` is the sequence of
(width, height) pairs of the display modes AWT reports. `effective` and
`native` are the results of `retrieveEffectiveResolution` and
`retrieveNativeResolution`, with `None` for `null`. The `double` arithmetic of
the classifier is modelled with exact `real` arithmetic.

## Model

| member | source | states |
|---|---|---|
| `AspectRatio.CatalogLabels` | src/WindowsDisplayInfo.java:204 | each of the nine catalog labels is the pair it names printed as "p:q" |
| `AspectRatio.RatiosParseToCatalog` | src/WindowsDisplayInfo.java:219-227 | splitting each catalog label on ':' and parsing both halves yields exactly the catalog's (numerator, denominator) pair |
| `AspectRatio.RatioDecimalFromStrings` | src/WindowsDisplayInfo.java:219-227 | one quotient per label, in label order, each equal to p/q for the label's parsed pair |
| `AspectRatio.CatalogDecimals` | src/WindowsDisplayInfo.java:204-205 | the decimals computed from the labels are the quotients of the catalog entries, entry by entry |
| `AspectRatio.NearestUpTo` | src/WindowsDisplayInfo.java:208-215 | among the first n entries the chosen index has the smallest distance to width/height, and every earlier index is strictly farther |
| `AspectRatio.NearestIndex` | src/WindowsDisplayInfo.java:215 | the index chosen by `indexOf(Collections.min(...))` is a minimum of the distances with no earlier entry as near |
| `AspectRatio.AspectRatioOf` | src/WindowsDisplayInfo.java:215-216 | for every width and every height > 0 the label is one of the nine catalog labels |
| `AspectRatio.NearestIsUnique` | src/WindowsDisplayInfo.java:215 | minimality plus first-index tie-break determine the chosen entry uniquely |
| `AspectRatio.DetermineAspectRatio` | src/WindowsDisplayInfo.java:200-217 | the three loops (distances, minimum, first index of the minimum) return the label of the nearest catalog entry, earliest on a tie |
| `AspectRatio.NearestByCases` | src/WindowsDisplayInfo.java:208-216 | an entry that beats every later entry or ties it, and is strictly nearer than every earlier entry, is the label returned |
| `AspectRatio.Example1024x768` | src/WindowsDisplayInfo.java:190 | 1024 x 768 is classified "4:3" |
| `AspectRatio.Example1920x1080` | src/WindowsDisplayInfo.java:191 | 1920 x 1080 is classified "16:9" |
| `AspectRatio.Example3440x1440` | src/WindowsDisplayInfo.java:192 | 3440 x 1440 is classified "21:9" |
| `AspectRatio.Example1366x768` | src/WindowsDisplayInfo.java:194 | 1366 x 768, not exactly 16:9, is classified "16:9" |
| `AspectRatio.Diff` | src/WindowsDisplayInfo.java:208-211 | the distance to a catalog ratio is never negative, and is zero exactly when width x den == num x height |
| `AspectRatio.ExactTieAt900x800` | src/WindowsDisplayInfo.java:208-211 | 900 x 800 is at distance exactly 1/8 from both 1:1 and 5:4 |
| `AspectRatio.ExactTieGoesToEarlierEntry` | src/WindowsDisplayInfo.java:215 | on that exact tie the earlier catalog entry, "1:1", wins |
| `AspectRatio.SameQuotientSameLabel` | src/WindowsDisplayInfo.java:208 | two sizes with the same quotient width/height get the same label |
| `RatioParsing.Split` | src/WindowsDisplayInfo.java:222-223 | the raw pieces between colons, all kept: at least one piece, none containing ':' |
| `RatioParsing.DropTrailingEmpty` | src/WindowsDisplayInfo.java:222-223 | the result is a prefix of the pieces, does not end in an empty piece, and only empty pieces were dropped |
| `RatioParsing.SplitOnColon` | src/WindowsDisplayInfo.java:222-223 | `split(":")`: a string without ':' is its own single piece; otherwise the raw pieces less trailing empty ones; no piece contains ':' |
| `RatioParsing.ParseRatio` | src/WindowsDisplayInfo.java:222-223 | a pair exactly when the split has at least two pieces and the first two are numerals, and then the pair is their two values; otherwise `None` for the source's exception |
| `RatioParsing.ParseNat` | src/WindowsDisplayInfo.java:222-223 | a numeral is accepted exactly when it is non-empty and all digits |
| `RatioParsing.JoinSplit` | src/WindowsDisplayInfo.java:222-223 | joining the raw pieces with ':' gives back the original string |
| `RatioParsing.SplitJoin` | src/WindowsDisplayInfo.java:222-223 | the raw split of a ':'-join of colon-free pieces gives back the pieces |
| `RatioParsing.SplitOnColonRoundTrip` | src/WindowsDisplayInfo.java:222-223 | on a string containing ':' and not ending in ':', `split(":")` keeps every raw piece and joining them gives the string back |
| `RatioParsing.ParseFormatRoundTrip` | src/WindowsDisplayInfo.java:221-224 | any pair printed as "p:q" parses back to (p, q) |
| `Resolutions.CompareTo` | src/WindowsDisplayInfo.java:266-271 | the result is -1, 0 or 1; 0 exactly on equal width and height; negative exactly when smaller in (width, height) lexicographic order |
| `Resolutions.CompareToAntisymmetric` | src/WindowsDisplayInfo.java:266-271 | swapping the arguments negates the comparison |
| `Resolutions.CompareToTransitive` | src/WindowsDisplayInfo.java:266-271 | the strict order given by the comparison is transitive |
| `Resolutions.Classified` | src/WindowsDisplayInfo.java:179 | a resolution built from a mode keeps its width and height and carries a catalog label |
| `Resolutions.CompareToConsistentWithEquals` | src/WindowsDisplayInfo.java:253-258 | on resolutions labelled by the classifier, comparing equal is the same as structural equality |
| `DisplayModes.Insert` | src/WindowsDisplayInfo.java:181-182 | inserting into an ordered list keeps it ordered and adds exactly the new element |
| `DisplayModes.RetrieveAllScreenResolutions` | src/WindowsDisplayInfo.java:173-185 | the list holds exactly the modes of at least 800 x 600, each with the label the classifier gives its own size, strictly increasing under `compareTo` when ascending and strictly decreasing otherwise |
| `DisplayModes.OrderedHasNoDuplicates` | src/WindowsDisplayInfo.java:174 | a list in that strict order holds no resolution twice |
| `DisplayModes.OrderedUnique` | src/WindowsDisplayInfo.java:181-182 | two lists in the same strict order with the same elements are equal, so the set's iteration order does not matter |
| `DisplayModes.DescendingIsReverseOfAscending` | src/WindowsDisplayInfo.java:181-182 | the descending list is the reverse of the ascending one |
| `DisplayModes.RetrieveMaximumResolution` | src/WindowsDisplayInfo.java:168-171 | `None` exactly when no mode reaches 800 x 600; otherwise a listed resolution that compares at least as large as every listed resolution |
| `DisplayModes.SelectAdjusted` | src/WindowsDisplayInfo.java:156-165 | the effective resolution if the list holds it; else the first entry with the same label and width at least the effective width; else native; the scan never returns an entry with a different label, while the native fallback may have any label |
| `DisplayModes.RetrieveAdjustedResolution` | src/WindowsDisplayInfo.java:152-166 | effective if it is a listed mode (so at least 800 x 600); else the smallest listed mode under `compareTo` with the effective label and at least its width; else native (also when effective is `None`) |
| `DisplayModes.AdjustedResolutionExample` | src/WindowsDisplayInfo.java:152-166 | a 1366 x 768 16:9 effective resolution with modes 800 x 600, 1280 x 1024 and 1920 x 1080 is adjusted to 1920 x 1080 "16:9" |

## Left out

- `retrieveScaleFactor` and `retrieveScaleFactorPercentage` (src/WindowsDisplayInfo.java:48-105): floating-point DPI arithmetic, `BigDecimal` half-up rounding and a truncating cast, all fed by GDI and AWT calls.
- `retrieveNativeResolution` and `retrieveEffectiveResolution` (src/WindowsDisplayInfo.java:107-150): GDI queries and a float division by the AWT scale followed by an `(int)` cast; their results are the `native` and `effective` parameters.
- The AWT display-mode enumeration (src/WindowsDisplayInfo.java:175-177): replaced by the `modes` parameter.
- `main` and `update` (src/WindowsDisplayInfo.java:30-46): a scheduled executor and console output.
- `Resolution.hashCode` and `Resolution.toString`: library hashing and formatting; the hash set is modelled by a Dafny `set`.
- `AspectRatio.AspectRatioOf`: quotients and distances are exact reals, not `double`. At three exact real midpoints, width/height equal to 17/12 (between 4:3 and 3:2), 31/24 (between 5:4 and 4:3) and 53/18 (between 21:9 and 32:9), the two `double` distances differ in their last bits and the program returns the later entry ("3:2", "4:3", "32:9"). The model applies the first-index rule and returns the earlier one ("4:3", "5:4", "21:9"). 850 x 600 is such a size that meets the 800 x 600 floor. At midpoints exact in binary, such as 900 x 800, both agree.
- The library sort (`List.sort` on an `ArrayList` copy of the set) is modelled by inserting the set's elements one by one into an ordered sequence; `OrderedUnique` shows the result does not depend on how it is produced.
- `RatioParsing.ParseNat`: models `Integer.parseInt` only on unsigned ASCII decimal numerals; a leading sign, the 32-bit range and the non-ASCII Unicode decimal digits that `Character.digit` accepts are not modelled, because only the nine constant labels are ever parsed.
- `AspectRatio.RatioDecimalFromStrings`: requires every label to parse with a non-zero denominator; the source would throw on a malformed label or produce an infinite or NaN quotient for a zero denominator, and is only ever called on the constant catalog.
- `AspectRatio.DetermineAspectRatio`: requires height > 0. The source does not fail on height 0: `(double) width / 0` is an infinity or NaN, all nine distances are then equal, and it returns "1:1"; that case is not modelled. The display-mode caller (src/WindowsDisplayInfo.java:178) and the native-resolution caller (src/WindowsDisplayInfo.java:119) pass only non-zero heights. The effective-resolution caller checks VERTRES for zero (src/WindowsDisplayInfo.java:142) before dividing it by the AWT scale and truncating it (src/WindowsDisplayInfo.java:147, 149), so it passes height 0 when VERTRES is positive but below the scale.
