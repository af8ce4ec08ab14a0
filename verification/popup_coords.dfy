/**
 * The popup's coordinate-string parser (`extractCoordinates`): label characters are
 * blanked out, the text is trimmed, and three patterns are tried in order; the first
 * whose latitude is within [-90, 90] and whose longitude is a number wins.
 */
module PopupCoords {
  import opened Wrappers
  import opened Text
  import opened Numerals
  import opened Scan

  /**
   * The class `[()°'"NSEWnsew:lat longitude]` under the `i` flag: brackets, degree sign,
   * quotes, colon, space, and the letters of "NSEW", "lat" and "longitude" in either case.
   */
  predicate IsLabelChar(c: char)
  {
    c in "()\U{00B0}'\": " || LowerChar(c) in "nsewlatogiud"
  }

  /** Every label character becomes a space. */
  function Clean(s: string): (r: string)
    ensures |r| == |s|
    ensures forall i :: 0 <= i < |s| ==> r[i] == (if IsLabelChar(s[i]) then ' ' else s[i])
  {
    if |s| == 0 then "" else [if IsLabelChar(s[0]) then ' ' else s[0]] + Clean(s[1..])
  }

  /** Pattern 1: the whole text is `\s*(N)\s*,\s*(N)\s*`. */
  function WholeTextPair(s: string): (r: Option<Pair>)
  {
    match CommaPairAt(s, RunFrom(s, 0, IsSpace), false)
    case Some(p) => if p.end + RunFrom(s, p.end, IsSpace) == |s| then Some(p) else None
    case None => None
  }

  predicate IsSeparator(c: char)
  {
    IsSpace(c) || c == ',' || c == ';'
  }

  /** Pattern 3 at `i`: `(N)[\s,;]+(N)`. */
  function SeparatedPairAt(s: string, i: nat): (r: Option<Pair>)
  {
    match NumberEnd(s, i, false)
    case None => None
    case Some(e1) =>
      var k := e1 + RunFrom(s, e1, IsSeparator);
      if k == e1 then None
      else match NumberEnd(s, k, false)
        case None => None
        case Some(e2) => Some(Pair(s[i..e1], s[k..e2], e2))
  }

  /** The three patterns' matches on the cleaned text, in the order they are tried. */
  function Candidates(c: string): (r: seq<Option<Pair>>)
    ensures |r| == 3
  {
    [WholeTextPair(c), FirstMatch(c, (i: nat) => CommaPairAt(c, i, false)), FirstMatch(c, (i: nat) => SeparatedPairAt(c, i))]
  }

  /** A match is accepted when its latitude lies in [-90, 90] and its longitude is a number. */
  function Accept(p: Pair): (r: Option<Coordinates>)
    ensures r.Some? <==> ParseFloat(p.first).Some? && -90.0 <= ParseFloat(p.first).value <= 90.0 && ParseFloat(p.second).Some?
    ensures r.Some? ==> r.value == Coordinates(ParseFloat(p.first).value, ParseFloat(p.second).value)
  {
    var lat := ParseFloat(p.first);
    var lng := ParseFloat(p.second);
    if lat.Some? && -90.0 <= lat.value <= 90.0 && lng.Some? then Some(Coordinates(lat.value, lng.value)) else None
  }

  /**
   * `extractCoordinates`: `None` for a missing input or one shorter than three characters;
   * otherwise the first accepted pattern match. The latitude is always in range; the
   * longitude is not range-checked.
   */
  function ExtractCoordinates(input: Option<string>): (r: Option<Coordinates>)
    ensures input.None? || |input.value| < 3 ==> r.None?
    ensures r.Some? ==> -90.0 <= r.value.latitude <= 90.0
    ensures r.Some? ==> exists k :: (0 <= k < 3 && Candidates(Trim(Clean(input.value)))[k].Some?
      && Accept(Candidates(Trim(Clean(input.value)))[k].value) == r
      && forall j :: 0 <= j < k ==> Rejected(Candidates(Trim(Clean(input.value)))[j], Accept))
    ensures input.Some? && |input.value| >= 3 && r.None? ==>
      forall k :: 0 <= k < 3 ==> Rejected(Candidates(Trim(Clean(input.value)))[k], Accept)
    ensures input.Some? && |input.value| >= 3 && (forall k :: 0 <= k < 3 ==> Rejected(Candidates(Trim(Clean(input.value)))[k], Accept))
      ==> r.None?
  {
    if input.None? || |input.value| < 3 then None
    else
      var matches := Candidates(Trim(Clean(input.value)));
      var r := FirstAccepted(matches, Accept);
      r
  }

  /** Characters of a rendered integer pair: digits, minus signs and the comma. */
  predicate PairChar(c: char)
  {
    IsDigit(c) || c == '-' || c == ','
  }

  lemma PairCharKept(c: char)
    requires PairChar(c)
    ensures !IsLabelChar(c) && !IsSpace(c)
  {
  }

  lemma {:induction false} CleanKeeps(s: string)
    requires forall k :: 0 <= k < |s| ==> PairChar(s[k])
    ensures Clean(s) == s
  {
    if |s| > 0 {
      PairCharKept(s[0]);
      CleanKeeps(s[1..]);
    }
  }

  lemma TrimKeeps(s: string)
    requires |s| > 0 && !IsSpace(s[0]) && !IsSpace(s[|s| - 1])
    ensures Trim(s) == s
  {
    assert LeadingSpaces(s) == 0;
    assert TrailingSpaces(s) == 0;
  }

  /** The end of a rendered integer followed by a character that cannot continue a number. */
  lemma NumberEndOfInt(s: string, i: int, rest: string)
    requires s == IntToString(i) + rest
    requires |rest| > 0 && !IsDigit(rest[0]) && rest[0] != '.'
    ensures NumberEnd(s, 0, false) == Some(|IntToString(i)|)
  {
    var t := IntToString(i);
    var j := if s[0] == '-' then 1 else 0;
    assert t[0] == s[0];
    RunFromExact(s, j, IsDigit, |t| - j);
  }

  /** The end of a rendered integer that runs to the end of the text. */
  lemma NumberEndOfIntAtEnd(s: string, at: nat, i: int)
    requires at <= |s| && s[at..] == IntToString(i)
    ensures NumberEnd(s, at, false) == Some(|s|)
  {
    var t := IntToString(i);
    assert s[at] == t[0];
    var j := if s[at] == '-' then at + 1 else at;
    assert forall k :: j <= k < |s| ==> s[k] == t[k - at];
    RunFromExact(s, j, IsDigit, |s| - j);
  }

  /** The text `a,b` of two rendered integers. */
  function IntegerPairText(a: int, b: int): (s: string)
    ensures |s| == |IntToString(a)| + 1 + |IntToString(b)|
    ensures s[..|IntToString(a)|] == IntToString(a) && s[|IntToString(a)|] == ',' && s[|IntToString(a)| + 1..] == IntToString(b)
    ensures forall k :: 0 <= k < |s| ==> PairChar(s[k])
  {
    var ta, tb := IntToString(a), IntToString(b);
    var s := ta + ("," + tb);
    assert forall k :: 0 <= k < |ta| ==> s[k] == ta[k];
    assert forall k :: |ta| < k < |s| ==> s[k] == tb[k - |ta| - 1];
    s
  }

  lemma IntegerPairClean(a: int, b: int)
    ensures Trim(Clean(IntegerPairText(a, b))) == IntegerPairText(a, b)
  {
    var s := IntegerPairText(a, b);
    CleanKeeps(s);
    PairCharKept(s[0]);
    PairCharKept(s[|s| - 1]);
    TrimKeeps(s);
  }

  /** The first number of `a,b` ends at the comma. */
  lemma IntegerPairFirstEnd(a: int, b: int)
    ensures NumberEnd(IntegerPairText(a, b), 0, false) == Some(|IntToString(a)|)
  {
    NumberEndOfInt(IntegerPairText(a, b), a, "," + IntToString(b));
  }

  /** The second number of `a,b` starts right after the comma and runs to the end. */
  lemma IntegerPairSecondEnd(a: int, b: int)
    ensures NumberEnd(IntegerPairText(a, b), |IntToString(a)| + 1, false) == Some(|IntegerPairText(a, b)|)
    ensures !IsSpace(IntegerPairText(a, b)[|IntToString(a)| + 1])
  {
    var s := IntegerPairText(a, b);
    NumberEndOfIntAtEnd(s, |IntToString(a)| + 1, b);
    PairCharKept(s[|IntToString(a)| + 1]);
  }

  lemma IntegerPairComma(a: int, b: int)
    ensures CommaPairAt(IntegerPairText(a, b), 0, false) == Some(Pair(IntToString(a), IntToString(b), |IntegerPairText(a, b)|))
  {
    IntegerPairFirstEnd(a, b);
    IntegerPairSecondEnd(a, b);
    CommaPairOfParts(IntegerPairText(a, b), IntToString(a), IntToString(b), false);
  }

  /** `ta,tb` with both halves read whole as numbers is the comma pattern's match of `ta` and `tb`. */
  lemma CommaPairOfParts(s: string, ta: string, tb: string, needPoint: bool)
    requires |s| == |ta| + 1 + |tb| && |tb| >= 1
    requires s[..|ta|] == ta && s[|ta|] == ',' && s[|ta| + 1..] == tb
    requires NumberEnd(s, 0, needPoint) == Some(|ta|) && !IsSpace(s[|ta| + 1])
    requires NumberEnd(s, |ta| + 1, needPoint) == Some(|s|)
    ensures CommaPairAt(s, 0, needPoint) == Some(Pair(ta, tb, |s|))
  {
    CommaPairTight(s, 0, |ta|, |s|, needPoint);
    assert s[0..|ta|] == ta;
    assert s[|ta| + 1..|s|] == s[|ta| + 1..];
  }

  lemma IntegerPairMatch(a: int, b: int)
    ensures WholeTextPair(IntegerPairText(a, b)) == Some(Pair(IntToString(a), IntToString(b), |IntegerPairText(a, b)|))
  {
    var s := IntegerPairText(a, b);
    PairCharKept(s[0]);
    RunFromExact(s, 0, IsSpace, 0);
    IntegerPairComma(a, b);
    RunFromExact(s, |s|, IsSpace, 0);
  }

  lemma AcceptIntegers(a: int, b: int, end: nat)
    requires -90 <= a <= 90
    ensures Accept(Pair(IntToString(a), IntToString(b), end)) == Some(Coordinates(a as real, b as real))
  {
    ParseFloatIntToString(a);
    ParseFloatIntToString(b);
  }

  lemma FirstCandidateWins(c: string, p: Pair)
    requires Candidates(c)[0] == Some(p) && Accept(p).Some?
    ensures FirstAccepted(Candidates(c), Accept) == Accept(p)
  {
  }

  /** The text `a,b` of two integers is read back as (a, b) whenever a is a valid latitude. */
  lemma IntegerPairRoundTrip(a: int, b: int)
    requires -90 <= a <= 90
    ensures ExtractCoordinates(Some(IntegerPairText(a, b))) == Some(Coordinates(a as real, b as real))
  {
    var s := IntegerPairText(a, b);
    IntegerPairClean(a, b);
    IntegerPairMatch(a, b);
    var p := Pair(IntToString(a), IntToString(b), |s|);
    AcceptIntegers(a, b, |s|);
    FirstCandidateWins(s, p);
  }
}
