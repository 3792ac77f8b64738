/**
 * The string handling behind `ratioDecimalFromStrings`: a catalog label such
 * as "16:10" is split on ':' and both halves are read with Integer.parseInt.
 * `FormatRatio` is the inverse direction, used to tie the catalog's labels
 * to its numeric pairs.
 */
module RatioParsing {
  import opened Wrappers

  predicate IsDigit(c: char) {
    '0' <= c <= '9'
  }

  predicate AllDigits(s: string) {
    forall k :: 0 <= k < |s| ==> IsDigit(s[k])
  }

  function DigitChar(d: nat): char
    requires d < 10
  {
    ('0' as int + d) as char
  }

  /** Value of a string of decimal digits, most significant digit first. */
  function DigitsValue(s: string): nat
    requires AllDigits(s)
  {
    if |s| == 0 then 0
    else DigitsValue(s[..|s| - 1]) * 10 + (s[|s| - 1] as int - '0' as int)
  }

  /** Decimal representation of `n` without leading zeros. */
  function NatToString(n: nat): (s: string)
    ensures |s| > 0 && AllDigits(s)
    decreases n
  {
    if n < 10 then [DigitChar(n)]
    else NatToString(n / 10) + [DigitChar(n % 10)]
  }

  /**
   * Integer.parseInt restricted to unsigned decimal numerals: the empty
   * string and any non-digit are a format error (`None`).
   */
  function ParseNat(s: string): (r: Option<nat>)
    ensures r.Some? <==> |s| > 0 && AllDigits(s)
  {
    if |s| > 0 && AllDigits(s) then Some(DigitsValue(s)) else None
  }

  /**
   * The pieces of `s` between its ':' characters, in order, every piece kept.
   * String.split(":") is this list with its trailing empty pieces removed
   * (`SplitOnColon`).
   */
  function Split(s: string): (parts: seq<string>)
    ensures |parts| >= 1
    ensures forall k :: 0 <= k < |parts| ==> ':' !in parts[k]
  {
    if |s| == 0 then [""]
    else
      var rest := Split(s[1..]);
      if s[0] == ':' then [""] + rest
      else [[s[0]] + rest[0]] + rest[1..]
  }

  /** Concatenation of `parts` with ':' between consecutive pieces. */
  function Join(parts: seq<string>): string
    requires |parts| >= 1
  {
    if |parts| == 1 then parts[0] else parts[0] + ":" + Join(parts[1..])
  }

  /** `parts` without its trailing empty pieces. */
  function DropTrailingEmpty(parts: seq<string>): (r: seq<string>)
    ensures |r| <= |parts| && r == parts[..|r|]
    ensures r == [] || r[|r| - 1] != ""
    ensures forall k :: |r| <= k < |parts| ==> parts[k] == ""
  {
    if parts == [] || parts[|parts| - 1] != "" then parts
    else DropTrailingEmpty(parts[..|parts| - 1])
  }

  /**
   * String.split(":"): a string without ':' is its own single piece;
   * otherwise the pieces between the colons, trailing empty pieces removed,
   * so that ":" gives no piece and "1:" gives only "1".
   */
  function SplitOnColon(s: string): (parts: seq<string>)
    ensures ':' !in s ==> parts == [s]
    ensures ':' in s ==> parts == DropTrailingEmpty(Split(s))
    ensures forall k :: 0 <= k < |parts| ==> ':' !in parts[k]
  {
    if ':' !in s then [s] else DropTrailingEmpty(Split(s))
  }

  /**
   * The (numerator, denominator) pair named by a label: the first two pieces
   * of the split, each parsed as a number. Fewer than two pieces or a piece
   * that is not a numeral is the source's exception, here `None`.
   */
  function ParseRatio(s: string): (r: Option<(nat, nat)>)
    ensures r.Some? <==> var parts := SplitOnColon(s);
              |parts| >= 2 && ParseNat(parts[0]).Some? && ParseNat(parts[1]).Some?
    ensures r.Some? ==> var parts := SplitOnColon(s);
              r.value == (ParseNat(parts[0]).value, ParseNat(parts[1]).value)
  {
    var parts := SplitOnColon(s);
    if |parts| < 2 then None
    else
      match (ParseNat(parts[0]), ParseNat(parts[1]))
      case (Some(p), Some(q)) => Some((p, q))
      case _ => None
  }

  /** The label "p:q" of the pair (p, q). */
  function FormatRatio(p: nat, q: nat): string {
    NatToString(p) + ":" + NatToString(q)
  }

  lemma {:induction false} DigitsValueOfNatToString(n: nat)
    ensures DigitsValue(NatToString(n)) == n
    decreases n
  {
    if n >= 10 {
      DigitsValueOfNatToString(n / 10);
      var s := NatToString(n);
      assert s[..|s| - 1] == NatToString(n / 10);
    }
  }

  /** Reading back a printed number gives the number. */
  lemma ParseNatOfNatToString(n: nat)
    ensures ParseNat(NatToString(n)) == Some(n)
  {
    DigitsValueOfNatToString(n);
  }

  /** Splitting and joining again gives back the original string. */
  lemma {:induction false} JoinSplit(s: string)
    ensures Join(Split(s)) == s
  {
    if |s| > 0 {
      JoinSplit(s[1..]);
      var rest := Split(s[1..]);
      if s[0] == ':' {
        assert Split(s)[1..] == rest;
        assert s == [':'] + s[1..];
      } else if |rest| == 1 {
        assert s == [s[0]] + s[1..];
      } else {
        assert Split(s)[1..] == rest[1..];
        assert s == [s[0]] + s[1..];
      }
    }
  }

  /** A colon-free prefix joins the first piece of whatever follows it. */
  lemma {:induction false} SplitColonFreePrefix(a: string, s: string)
    requires ':' !in a
    ensures Split(a + s) == [a + Split(s)[0]] + Split(s)[1..]
  {
    if |a| > 0 {
      SplitColonFreePrefix(a[1..], s);
      assert (a + s)[0] == a[0] != ':';
      assert (a + s)[1..] == a[1..] + s;
      var rest := Split(a[1..] + s);
      assert Split(a + s) == [[a[0]] + rest[0]] + rest[1..];
      assert [a[0]] + (a[1..] + Split(s)[0]) == a + Split(s)[0];
    } else {
      assert a + s == s;
      var parts := Split(s);
      assert a + parts[0] == parts[0];
      assert parts == [parts[0]] + parts[1..];
    }
  }

  /** Splitting a join of colon-free pieces gives back the pieces. */
  lemma {:induction false} SplitJoin(parts: seq<string>)
    requires |parts| >= 1
    requires forall k :: 0 <= k < |parts| ==> ':' !in parts[k]
    ensures Split(Join(parts)) == parts
  {
    if |parts| == 1 {
      SplitColonFreePrefix(parts[0], "");
      assert parts[0] + "" == parts[0];
    } else {
      SplitJoin(parts[1..]);
      var tail := ":" + Join(parts[1..]);
      assert Join(parts) == parts[0] + tail;
      SplitColonFreePrefix(parts[0], tail);
      assert tail[1..] == Join(parts[1..]);
      assert Split(tail) == [""] + parts[1..];
      assert parts[0] + "" == parts[0];
      assert parts == [parts[0]] + parts[1..];
    }
  }

  /** Every label written by `FormatRatio` parses back to its pair. */
  lemma ParseFormatRoundTrip(p: nat, q: nat)
    ensures ParseRatio(FormatRatio(p, q)) == Some((p, q))
  {
    var a, b := NatToString(p), NatToString(q);
    forall k | 0 <= k < |a| ensures a[k] != ':' { assert IsDigit(a[k]); }
    forall k | 0 <= k < |b| ensures b[k] != ':' { assert IsDigit(b[k]); }
    SplitJoin([a, b]);
    assert Join([a, b]) == FormatRatio(p, q);
    assert FormatRatio(p, q)[|a|] == ':';
    assert SplitOnColon(FormatRatio(p, q)) == [a, b];
    ParseNatOfNatToString(p);
    ParseNatOfNatToString(q);
  }

  /** When `s` does not end in ':', no piece of its split is a trailing empty one. */
  lemma {:induction false} LastPieceNotEmpty(s: string)
    requires |s| > 0 && s[|s| - 1] != ':'
    ensures Split(s)[|Split(s)| - 1] != ""
  {
    var rest := Split(s[1..]);
    if |s| > 1 {
      LastPieceNotEmpty(s[1..]);
    }
    if s[0] == ':' {
      assert Split(s) == [""] + rest;
    } else if |rest| > 1 {
      assert Split(s)[|Split(s)| - 1] == rest[|rest| - 1];
    }
  }

  /**
   * String.split(":") loses nothing on a string that contains ':' and does
   * not end in one: joining its pieces gives the string back.
   */
  lemma SplitOnColonRoundTrip(s: string)
    requires ':' in s && s[|s| - 1] != ':'
    ensures SplitOnColon(s) == Split(s)
    ensures Join(SplitOnColon(s)) == s
  {
    LastPieceNotEmpty(s);
    JoinSplit(s);
  }
}
