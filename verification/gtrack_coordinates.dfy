/**
 * Coordinates read off a GPS-coordinates panel: four patterns tried in order, the first
 * whose match passes range validation wins.
 */
module GtrackCoordinates {
  import opened Wrappers
  import opened Text
  import opened Numerals
  import opened Scan

  /** `[-\d.]`: the characters a captured number is made of. */
  predicate IsNumberChar(c: char)
  {
    c == '-' || IsDigit(c) || c == '.'
  }

  /** `[\s\n]`: white space, with the line feed named again. */
  predicate IsBreakOrSpace(c: char)
  {
    IsSpace(c) || c == '\n'
  }

  /** No line terminator between `from` and `to`: a lazy `.*?` can cross the stretch. */
  predicate OnLine(s: string, from: nat, to: nat)
    requires from <= to <= |s|
  {
    forall m :: from <= m < to ==> !IsLineTerminator(s[m])
  }

  /**
   * `.*?` followed by whatever `hit` recognises: the first position from `from` on at
   * which `hit` holds, provided no line terminator comes first.
   */
  function NextOnLine(s: string, from: nat, hit: nat -> bool): (r: Option<nat>)
    requires from <= |s|
    ensures r.Some? ==> from <= r.value <= |s| && hit(r.value) && OnLine(s, from, r.value)
    ensures r.Some? ==> forall k :: from <= k < r.value ==> !hit(k)
    ensures r.None? ==> forall k :: from <= k <= |s| && hit(k) ==> !OnLine(s, from, k)
    decreases |s| - from
  {
    if hit(from) then Some(from)
    else if from == |s| || IsLineTerminator(s[from]) then None
    else NextOnLine(s, from + 1, hit)
  }

  /** Positions holding a number character. */
  function NumberHit(s: string): nat -> bool
  {
    (k: nat) => k < |s| && IsNumberChar(s[k])
  }

  /** Positions where `Longitude:` begins. */
  function LongitudeHit(s: string): nat -> bool
  {
    (k: nat) => OccursAt(s, "Longitude:", k)
  }

  /** The number run captured from `g`. */
  function RunAt(s: string, g: nat): (r: string)
    requires g <= |s|
    ensures g + |r| <= |s|
  {
    s[g..g + RunFrom(s, g, IsNumberChar)]
  }

  /** The captured run is all number characters, and no number character follows it. */
  lemma RunAtFacts(s: string, g: nat)
    requires g <= |s|
    ensures forall k :: 0 <= k < |RunAt(s, g)| ==> IsNumberChar(RunAt(s, g)[k])
    ensures g + |RunAt(s, g)| < |s| ==> !IsNumberChar(s[g + |RunAt(s, g)|])
  {
    RunFromFacts(s, g, IsNumberChar);
  }

  /**
   * Patterns 1 and 2, `Latitude:\s*([-\d.]+)G*Longitude:\s*([-\d.]+)` with `G` the class
   * `gap`. Every quantifier there is greedy and borders a disjoint class or a letter, so no
   * backtracking changes the captures: each is the whole run.
   */
  function LabelledAt(s: string, i: nat, gap: char -> bool): (r: Option<Pair>)
    ensures r.Some? ==> OccursAt(s, "Latitude:", i) && r.value.first != "" && r.value.second != ""
  {
    if OccursAt(s, "Latitude:", i) then AfterLatitude(s, i + 9, gap) else None
  }

  /** Patterns 1 and 2 after `Latitude:`: `\s*([-\d.]+)G*` and then `LongitudeAt`. */
  function AfterLatitude(s: string, a: nat, gap: char -> bool): (r: Option<Pair>)
    ensures r.Some? ==> r.value.first != "" && r.value.second != ""
  {
    if a > |s| then None else NumberThenLongitude(s, a + RunFrom(s, a, IsSpace), gap)
  }

  /** The first number `([-\d.]+)` at `g`, then the gap `G*`, then `LongitudeAt`. */
  function NumberThenLongitude(s: string, g: nat, gap: char -> bool): (r: Option<Pair>)
    requires g <= |s|
    ensures r.Some? ==> r.value.first != "" && r.value.second != ""
  {
    var first := RunAt(s, g);
    LongitudeAt(s, first, g + |first| + RunFrom(s, g + |first|, gap))
  }

  /** The rest of patterns 1 and 2 once the first number is captured: `Longitude:\s*([-\d.]+)` at `b`. */
  function LongitudeAt(s: string, first: string, b: nat): (r: Option<Pair>)
    ensures r.Some? ==> r.value.first == first != "" && r.value.second != ""
  {
    if first != "" && OccursAt(s, "Longitude:", b) then AfterLongitude(s, first, b + 10) else None
  }

  /** The end of patterns 1 and 2 after `Longitude:`: `\s*([-\d.]+)`. */
  function AfterLongitude(s: string, first: string, b: nat): (r: Option<Pair>)
    ensures r.Some? ==> r.value.first == first && r.value.second != ""
  {
    if b > |s| then None
    else
      var c := b + RunFrom(s, b, IsSpace);
      var second := RunAt(s, c);
      if second == "" then None else Some(Pair(first, second, c + |second|))
  }

  /**
   * Pattern 3, `Latitude:.*?([-\d.]+).*?Longitude:.*?([-\d.]+)`: the first number on the
   * line after `Latitude:`, the first `Longitude:` after it, and the first number after
   * that. When that `Longitude:` has no number after it on the line, no later choice has
   * one either, so the start position fails.
   */
  function LooseAt(s: string, i: nat): (r: Option<Pair>)
    ensures r.Some? ==> OccursAt(s, "Latitude:", i) && r.value.first != "" && r.value.second != ""
  {
    if !OccursAt(s, "Latitude:", i) then None
    else match NextOnLine(s, i + 9, NumberHit(s))
      case None => None
      case Some(g1) =>
        var first := RunAt(s, g1);
        match NextOnLine(s, g1 + |first|, LongitudeHit(s))
        case None => None
        case Some(l) =>
          match NextOnLine(s, l + 10, NumberHit(s))
          case None => None
          case Some(g2) =>
            var second := RunAt(s, g2);
            Some(Pair(first, second, g2 + |second|))
  }

  /**
   * Pattern 4 as written, `([-\d.]+).*?([-\d.]+)`: a number run and the next number on the
   * line. With no later number on the line, backtracking shortens the first run by one
   * character and captures that character as the second number.
   */
  function AnyTwoAsWrittenAt(s: string, p: nat): (r: Option<Pair>)
  {
    if p >= |s| || !IsNumberChar(s[p]) then None
    else
      var first := RunAt(s, p);
      var e1 := p + |first|;
      match NextOnLine(s, e1, NumberHit(s))
      case Some(g2) => Some(Pair(first, RunAt(s, g2), g2 + |RunAt(s, g2)|))
      case None => if |first| >= 2 then Some(Pair(first[..|first| - 1], first[|first| - 1..], e1)) else None
  }

  /** Pattern 4 as its comment intends: two separate number runs on one line. */
  function AnyTwoAt(s: string, p: nat): (r: Option<Pair>)
    ensures r.Some? ==> p < |s| && r.value.first == RunAt(s, p)
    ensures r.Some? ==> exists g :: (p + |r.value.first| < g < |s| && r.value.second == RunAt(s, g)
      && !IsNumberChar(s[g - 1]) && r.value.second != "")
  {
    if p >= |s| || !IsNumberChar(s[p]) then None
    else
      var first := RunAt(s, p);
      var e1 := p + |first|;
      RunAtFacts(s, p);
      match NextOnLine(s, e1, NumberHit(s))
      case Some(g2) =>
        assert e1 < g2 by {
          assert !NumberHit(s)(e1);
        }
        assert NumberHit(s)(g2);
        assert !NumberHit(s)(g2 - 1);
        Some(Pair(first, RunAt(s, g2), g2 + |RunAt(s, g2)|))
      case None => None
  }

  /** The four patterns, pattern 4 either as written or corrected. */
  datatype Pattern = LabelledSpaces | LabelledBreaks | Loose | AnyTwoAsWritten | AnyTwo

  function PatternAt(pattern: Pattern, s: string, i: nat): (r: Option<Pair>)
  {
    match pattern
    case LabelledSpaces => LabelledAt(s, i, IsSpace)
    case LabelledBreaks => LabelledAt(s, i, IsBreakOrSpace)
    case Loose => LooseAt(s, i)
    case AnyTwoAsWritten => AnyTwoAsWrittenAt(s, i)
    case AnyTwo => AnyTwoAt(s, i)
  }

  /** `text.match(pattern)`: the captures at the leftmost position where the pattern matches. */
  function Match(pattern: Pattern, s: string): (r: Option<Pair>)
    ensures r.Some? ==> exists i :: (0 <= i <= |s| && PatternAt(pattern, s, i) == r
      && forall j :: 0 <= j < i ==> PatternAt(pattern, s, j).None?)
    ensures r.None? ==> forall i :: 0 <= i <= |s| ==> PatternAt(pattern, s, i).None?
    ensures PatternAt(pattern, s, 0).Some? ==> r == PatternAt(pattern, s, 0)
  {
    var at := (i: nat) => PatternAt(pattern, s, i);
    assert forall i: nat :: at(i) == PatternAt(pattern, s, i);
    match Leftmost(|s|, 0, at)
    case Some(i) => PatternAt(pattern, s, i)
    case None => None
  }

  const AsWrittenPatterns: seq<Pattern> := [LabelledSpaces, LabelledBreaks, Loose, AnyTwoAsWritten]

  const Patterns: seq<Pattern> := [LabelledSpaces, LabelledBreaks, Loose, AnyTwo]

  /** The match of each pattern, in order. */
  function Matches(patterns: seq<Pattern>, text: string): (r: seq<Option<Pair>>)
    ensures |r| == |patterns|
    ensures forall k :: 0 <= k < |patterns| ==> r[k] == Match(patterns[k], text)
  {
    seq(|patterns|, k requires 0 <= k < |patterns| => Match(patterns[k], text))
  }

  /** The patterns tried in order; the first match passing validation wins. */
  function ExtractWith(patterns: seq<Pattern>, text: string): (r: Option<Coordinates>)
    ensures r.Some? ==> -90.0 <= r.value.latitude <= 90.0 && -180.0 <= r.value.longitude <= 180.0
    ensures r.Some? ==> exists k :: (0 <= k < |patterns| && Match(patterns[k], text).Some?
      && AcceptInRange(Match(patterns[k], text).value) == r
      && forall j :: 0 <= j < k ==> Rejected(Match(patterns[j], text), AcceptInRange))
    ensures r.None? <==> forall k :: 0 <= k < |patterns| ==> Rejected(Match(patterns[k], text), AcceptInRange)
  {
    var matches := Matches(patterns, text);
    var r := FirstAccepted(matches, AcceptInRange);
    assert r.Some? ==> -90.0 <= r.value.latitude <= 90.0 && -180.0 <= r.value.longitude <= 180.0 by {
      if r.Some? {
        var k :| 0 <= k < |matches| && matches[k].Some? && AcceptInRange(matches[k].value) == r;
      }
    }
    r
  }

  /** `extractCoordinatesFromText` exactly as written, including pattern 4's split of a lone number. */
  function ExtractCoordinatesFromTextAsWritten(text: string): (r: Option<Coordinates>)
    ensures r.Some? ==> -90.0 <= r.value.latitude <= 90.0 && -180.0 <= r.value.longitude <= 180.0
    ensures r.Some? ==> exists k :: (0 <= k < 4 && Match(AsWrittenPatterns[k], text).Some?
      && AcceptInRange(Match(AsWrittenPatterns[k], text).value) == r
      && forall j :: 0 <= j < k ==> Rejected(Match(AsWrittenPatterns[j], text), AcceptInRange))
    ensures r.None? <==> forall k :: 0 <= k < 4 ==> Rejected(Match(AsWrittenPatterns[k], text), AcceptInRange)
  {
    ExtractWith(AsWrittenPatterns, text)
  }

  /** `extractCoordinatesFromText` with pattern 4 taking two separate numbers. */
  function ExtractCoordinatesFromText(text: string): (r: Option<Coordinates>)
    ensures r.Some? ==> -90.0 <= r.value.latitude <= 90.0 && -180.0 <= r.value.longitude <= 180.0
    ensures r.Some? ==> exists k :: (0 <= k < 4 && Match(Patterns[k], text).Some?
      && AcceptInRange(Match(Patterns[k], text).value) == r
      && forall j :: 0 <= j < k ==> Rejected(Match(Patterns[j], text), AcceptInRange))
    ensures r.None? <==> forall k :: 0 <= k < 4 ==> Rejected(Match(Patterns[k], text), AcceptInRange)
  {
    ExtractWith(Patterns, text)
  }

  /**
   * Pattern 2's `[\s\n]*` consumes exactly what pattern 1's `\s*` consumes, since the line
   * feed is already white space.
   */
  lemma GapRunsAgree(s: string, e: nat)
    requires e <= |s|
    ensures RunFrom(s, e, IsBreakOrSpace) == RunFrom(s, e, IsSpace)
  {
    RunFromAgree(s, e, IsBreakOrSpace, IsSpace);
  }

  /** The panel's own format, `Latitude: a Longitude: b`. */
  function PanelText(lat: string, lng: string): string
  {
    "Latitude: " + lat + " Longitude: " + lng
  }

  /** A non-empty stretch of number characters, such as a rendered coordinate. */
  predicate IsNumberRun(t: string)
  {
    t != "" && forall k :: 0 <= k < |t| ==> IsNumberChar(t[k])
  }

  /** An integer rendering is a number run. */
  lemma IntToStringNumberRun(i: int)
    ensures IsNumberRun(IntToString(i))
  {
    var n := if i < 0 then -i else i;
    assert AllDigits(NatToString(n));
    if i < 0 {
      assert IntToString(i) == "-" + NatToString(n);
    }
  }

  /** A number run followed by a non-number character (or the end) is captured whole. */
  lemma RunAtExact(s: string, g: nat, t: string)
    requires IsNumberRun(t) && g + |t| <= |s| && s[g..g + |t|] == t
    requires g + |t| == |s| || !IsNumberChar(s[g + |t|])
    ensures RunAt(s, g) == t
  {
    assert forall k :: g <= k < g + |t| ==> s[k] == t[k - g];
    RunFromExact(s, g, IsNumberChar, |t|);
  }

  /** One space and then a number run: `\s*([-\d.]+)` skips the space and captures the run. */
  lemma SpaceThenRun(s: string, b: nat, t: string)
    requires IsNumberRun(t) && b + 1 + |t| <= |s| && s[b] == ' ' && s[b + 1..b + 1 + |t|] == t
    requires b + 1 + |t| == |s| || !IsNumberChar(s[b + 1 + |t|])
    ensures RunFrom(s, b, IsSpace) == 1
    ensures RunAt(s, b + 1) == t
  {
    assert s[b + 1] == t[0];
    RunFromExact(s, b, IsSpace, 1);
    RunAtExact(s, b + 1, t);
  }

  /** The panel format from its `Longitude:` on: the second number, whole. */
  lemma PanelLongitude(ta: string, tb: string)
    requires IsNumberRun(ta) && IsNumberRun(tb)
    ensures LongitudeAt(PanelText(ta, tb), ta, 11 + |ta|) == Some(Pair(ta, tb, |PanelText(ta, tb)|))
  {
    var s := PanelText(ta, tb);
    var b := 11 + |ta|;
    assert s[b..b + 10] == "Longitude:";
    assert s[b + 11..b + 11 + |tb|] == tb;
    SpaceThenRun(s, b + 10, tb);
  }

  /** In the panel format, one space follows `Latitude:` and then the first number comes whole. */
  lemma PanelFirstNumber(ta: string, tb: string)
    requires IsNumberRun(ta) && IsNumberRun(tb)
    ensures RunFrom(PanelText(ta, tb), 9, IsSpace) == 1 && RunAt(PanelText(ta, tb), 10) == ta
  {
    var s := PanelText(ta, tb);
    assert s[10..10 + |ta|] == ta;
    assert s[10 + |ta|] == ' ';
    SpaceThenRun(s, 9, ta);
  }

  /** In the panel format, one space separates the first number from `Longitude:`. */
  lemma PanelMiddleGap(ta: string, tb: string)
    requires IsNumberRun(ta) && IsNumberRun(tb)
    ensures RunFrom(PanelText(ta, tb), 10 + |ta|, IsSpace) == 1
  {
    var head := "Latitude: " + ta;
    var tail := " Longitude: " + tb;
    assert PanelText(ta, tb) == head + tail;
    LongitudeWordStart();
    assert tail[0] == " Longitude: "[0] && tail[1] == " Longitude: "[1];
    assert (head + tail)[|head|] == tail[0] && (head + tail)[|head| + 1] == tail[1];
    SingleSpace(head + tail, |head|);
  }

  lemma LongitudeWordStart()
    ensures " Longitude: "[0] == ' ' && " Longitude: "[1] == 'L'
  {
  }

  /** A lone space before a character that is not white space is a run of one. */
  lemma SingleSpace(s: string, e: nat)
    requires e + 1 < |s| && s[e] == ' ' && !IsSpace(s[e + 1])
    ensures RunFrom(s, e, IsSpace) == 1
  {
    assert RunFrom(s, e + 1, IsSpace) == 0;
  }

  /** The panel format after `Latitude:`: the first number, whole, then `Longitude:` and the second number. */
  lemma PanelLatitude(ta: string, tb: string)
    requires IsNumberRun(ta) && IsNumberRun(tb)
    ensures AfterLatitude(PanelText(ta, tb), 9, IsSpace) == Some(Pair(ta, tb, |PanelText(ta, tb)|))
  {
    var s := PanelText(ta, tb);
    assert |s| == 22 + |ta| + |tb|;
    PanelFirstNumber(ta, tb);
    PanelMiddleGap(ta, tb);
    PanelLongitude(ta, tb);
    AfterLatitudeUnfold(s, 9, IsSpace);
    assert 9 + RunFrom(s, 9, IsSpace) == 10;
    NumberThenLongitudeUnfold(s, 10, IsSpace);
    assert 10 + |RunAt(s, 10)| + RunFrom(s, 10 + |RunAt(s, 10)|, IsSpace) == 11 + |ta|;
  }

  lemma AfterLatitudeUnfold(s: string, a: nat, gap: char -> bool)
    requires a <= |s|
    ensures AfterLatitude(s, a, gap) == NumberThenLongitude(s, a + RunFrom(s, a, IsSpace), gap)
  {
  }

  lemma NumberThenLongitudeUnfold(s: string, g: nat, gap: char -> bool)
    requires g <= |s|
    ensures NumberThenLongitude(s, g, gap) == LongitudeAt(s, RunAt(s, g), g + |RunAt(s, g)| + RunFrom(s, g + |RunAt(s, g)|, gap))
  {
  }

  /** Pattern 1 captures both numbers of the panel format, whole. */
  lemma PanelTextPattern(ta: string, tb: string)
    requires IsNumberRun(ta) && IsNumberRun(tb)
    ensures PatternAt(LabelledSpaces, PanelText(ta, tb), 0) == Some(Pair(ta, tb, |PanelText(ta, tb)|))
  {
    var s := PanelText(ta, tb);
    assert s[..9] == "Latitude:";
    PanelLatitude(ta, tb);
  }

  /** White space only. */
  predicate AllSpaces(t: string)
  {
    forall k :: 0 <= k < |t| ==> IsSpace(t[k])
  }

  /** Text that patterns 1 and 2 are written for: `Latitude:`, spaces, a number, a gap, `Longitude:`, spaces, a number. */
  function LabelledText(sp1: string, lat: string, gap: string, sp2: string, lng: string): (t: string)
    ensures |t| == 19 + |sp1| + |lat| + |gap| + |sp2| + |lng|
  {
    "Latitude:" + sp1 + lat + gap + "Longitude:" + sp2 + lng
  }

  /** A stretch of `w` found at `i` in `s` puts each of its parts at the matching offset. */
  lemma OccursInside(s: string, w: string, i: nat, off: nat, part: string)
    requires OccursAt(s, w, i) && off + |part| <= |w| && w[off..off + |part|] == part
    ensures OccursAt(s, part, i + off)
  {
    forall k | 0 <= k < |part|
      ensures s[i + off + k] == part[k]
    {
      assert w[off..off + |part|][k] == w[off + k];
    }
  }

  /** White space found at `a` and followed by something else is the whole `\s*` run. */
  lemma SpacesRun(s: string, a: nat, sp: string)
    requires AllSpaces(sp) && OccursAt(s, sp, a)
    requires a + |sp| < |s| && !IsSpace(s[a + |sp|])
    ensures RunFrom(s, a, IsSpace) == |sp|
  {
    assert forall k :: a <= k < a + |sp| ==> s[k] == sp[k - a];
    RunFromExact(s, a, IsSpace, |sp|);
  }

  /**
   * Every occurrence of the labelled format is a match of patterns 1 and 2 at its start,
   * capturing both numbers whole, provided the second number is not followed by another
   * number character.
   */
  lemma LabelledFound(pattern: Pattern, s: string, i: nat, sp1: string, lat: string, gap: string, sp2: string, lng: string)
    requires pattern == LabelledSpaces || pattern == LabelledBreaks
    requires AllSpaces(sp1) && AllSpaces(gap) && AllSpaces(sp2) && IsNumberRun(lat) && IsNumberRun(lng)
    requires OccursAt(s, LabelledText(sp1, lat, gap, sp2, lng), i)
    requires i + |LabelledText(sp1, lat, gap, sp2, lng)| == |s| || !IsNumberChar(s[i + |LabelledText(sp1, lat, gap, sp2, lng)|])
    ensures PatternAt(pattern, s, i) == Some(Pair(lat, lng, i + |LabelledText(sp1, lat, gap, sp2, lng)|))
  {
    LabelledFoundEnd(pattern, s, i, sp1, lat, gap, sp2, lng, i + |LabelledText(sp1, lat, gap, sp2, lng)|);
  }

  /** `LabelledFound` with the end of the match named. */
  lemma LabelledFoundEnd(pattern: Pattern, s: string, i: nat, sp1: string, lat: string, gap: string, sp2: string, lng: string, end: nat)
    requires pattern == LabelledSpaces || pattern == LabelledBreaks
    requires AllSpaces(sp1) && AllSpaces(gap) && AllSpaces(sp2) && IsNumberRun(lat) && IsNumberRun(lng)
    requires OccursAt(s, LabelledText(sp1, lat, gap, sp2, lng), i)
    requires end == i + |LabelledText(sp1, lat, gap, sp2, lng)|
    requires end == |s| || !IsNumberChar(s[end])
    ensures PatternAt(pattern, s, i) == Some(Pair(lat, lng, end))
  {
    var g := i + 9 + |sp1|;
    var e := g + |lat|;
    var b := e + |gap|;
    var d := b + 10;
    var c := d + |sp2|;
    LabelledPieces(s, i, sp1, lat, gap, sp2, lng);
    SpacesThenNumber(s, i + 9, sp1, lat, g);
    NumberThenSpaces(s, g, lat, gap, e, b);
    SpacesThenNumber(s, d, sp2, lng, c);
    NumberRunAt(s, c, lng);
    if pattern == LabelledSpaces {
      LabelledChain(s, i, IsSpace, g, lat, e, b, d, c, lng, end);
    } else {
      GapRunsAgree(s, e);
      LabelledChain(s, i, IsBreakOrSpace, g, lat, e, b, d, c, lng, end);
    }
  }

  /** The parts of an occurrence of the labelled format, each at its offset. */
  lemma LabelledPieces(s: string, i: nat, sp1: string, lat: string, gap: string, sp2: string, lng: string)
    requires OccursAt(s, LabelledText(sp1, lat, gap, sp2, lng), i)
    ensures OccursAt(s, "Latitude:", i) && OccursAt(s, sp1, i + 9)
    ensures OccursAt(s, lat, i + 9 + |sp1|) && OccursAt(s, gap, i + 9 + |sp1| + |lat|)
    ensures OccursAt(s, "Longitude:", i + 9 + |sp1| + |lat| + |gap|)
    ensures OccursAt(s, sp2, i + 9 + |sp1| + |lat| + |gap| + 10)
    ensures OccursAt(s, lng, i + 9 + |sp1| + |lat| + |gap| + 10 + |sp2|)
  {
    LabelledHeadPieces(s, i, sp1, lat, gap, sp2, lng);
    LabelledTailPieces(s, i, sp1, lat, gap, sp2, lng);
  }

  lemma LabelledHeadPieces(s: string, i: nat, sp1: string, lat: string, gap: string, sp2: string, lng: string)
    requires OccursAt(s, LabelledText(sp1, lat, gap, sp2, lng), i)
    ensures OccursAt(s, "Latitude:", i) && OccursAt(s, sp1, i + 9)
    ensures OccursAt(s, lat, i + 9 + |sp1|) && OccursAt(s, gap, i + 9 + |sp1| + |lat|)
  {
    var w := LabelledText(sp1, lat, gap, sp2, lng);
    LabelledParts(sp1, lat, gap, sp2, lng);
    OccursInside(s, w, i, 0, "Latitude:");
    OccursInside(s, w, i, 9, sp1);
    OccursInside(s, w, i, 9 + |sp1|, lat);
    OccursInside(s, w, i, 9 + |sp1| + |lat|, gap);
  }

  lemma LabelledTailPieces(s: string, i: nat, sp1: string, lat: string, gap: string, sp2: string, lng: string)
    requires OccursAt(s, LabelledText(sp1, lat, gap, sp2, lng), i)
    ensures OccursAt(s, "Longitude:", i + 9 + |sp1| + |lat| + |gap|)
    ensures OccursAt(s, sp2, i + 9 + |sp1| + |lat| + |gap| + 10)
    ensures OccursAt(s, lng, i + 9 + |sp1| + |lat| + |gap| + 10 + |sp2|)
  {
    var w := LabelledText(sp1, lat, gap, sp2, lng);
    LabelledParts(sp1, lat, gap, sp2, lng);
    OccursInside(s, w, i, 9 + |sp1| + |lat| + |gap|, "Longitude:");
    OccursInside(s, w, i, 19 + |sp1| + |lat| + |gap|, sp2);
    OccursInside(s, w, i, 19 + |sp1| + |lat| + |gap| + |sp2|, lng);
  }

  /** White space and then a number: `\s*` stops where the number begins. */
  lemma SpacesThenNumber(s: string, a: nat, sp: string, t: string, g: nat)
    requires AllSpaces(sp) && IsNumberRun(t) && g == a + |sp|
    requires OccursAt(s, sp, a) && OccursAt(s, t, g)
    ensures a + RunFrom(s, a, IsSpace) == g
  {
    assert s[g] == t[0];
    SpacesRun(s, a, sp);
  }

  /** A number, white space and `L`: the number is captured whole and the gap is the whole space run. */
  lemma NumberThenSpaces(s: string, g: nat, t: string, sp: string, e: nat, b: nat)
    requires IsNumberRun(t) && AllSpaces(sp) && e == g + |t| && b == e + |sp|
    requires OccursAt(s, t, g) && OccursAt(s, sp, e) && OccursAt(s, "Longitude:", b)
    ensures RunAt(s, g) == t
    ensures e + RunFrom(s, e, IsSpace) == b
  {
    assert s[b] == "Longitude:"[0];
    assert !IsNumberChar(s[e]) by {
      if |sp| > 0 {
        assert s[e] == sp[0];
      }
    }
    NumberRunAt(s, g, t);
    SpacesRun(s, e, sp);
  }

  /** A number run found at `c` and not followed by a number character is captured whole. */
  lemma NumberRunAt(s: string, c: nat, t: string)
    requires IsNumberRun(t) && OccursAt(s, t, c)
    requires c + |t| == |s| || !IsNumberChar(s[c + |t|])
    ensures RunAt(s, c) == t
  {
    assert s[c..c + |t|] == t by {
      assert forall k :: 0 <= k < |t| ==> s[c..c + |t|][k] == t[k];
    }
    RunAtExact(s, c, t);
  }

  /** The captures once every run of patterns 1 and 2 is known. */
  lemma LabelledChain(s: string, i: nat, gap: char -> bool, g: nat, lat: string, e: nat, b: nat, d: nat, c: nat, lng: string, end: nat)
    requires OccursAt(s, "Latitude:", i)
    requires i + 9 + RunFrom(s, i + 9, IsSpace) == g
    requires g <= |s| && RunAt(s, g) == lat && lat != "" && e == g + |lat|
    requires e + RunFrom(s, e, gap) == b
    requires OccursAt(s, "Longitude:", b) && d == b + 10
    requires d + RunFrom(s, d, IsSpace) == c
    requires c <= |s| && RunAt(s, c) == lng && lng != "" && end == c + |lng|
    ensures LabelledAt(s, i, gap) == Some(Pair(lat, lng, end))
  {
    LatitudeStep(s, i, gap, g);
    GapEnd(s, g, gap, lat, e, b);
    FirstNumberStep(s, g, gap, b);
    assert NumberThenLongitude(s, g, gap) == LongitudeAt(s, lat, b);
    LongitudeTail(s, lat, b, c, lng);
  }

  lemma GapEnd(s: string, g: nat, gap: char -> bool, lat: string, e: nat, b: nat)
    requires g <= |s| && RunAt(s, g) == lat && e == g + |lat|
    requires e + RunFrom(s, e, gap) == b
    ensures g + |RunAt(s, g)| + RunFrom(s, g + |RunAt(s, g)|, gap) == b
  {
  }

  lemma LatitudeStep(s: string, i: nat, gap: char -> bool, g: nat)
    requires OccursAt(s, "Latitude:", i)
    requires i + 9 + RunFrom(s, i + 9, IsSpace) == g
    ensures LabelledAt(s, i, gap) == NumberThenLongitude(s, g, gap)
  {
    LabelStep(s, i, gap);
    AfterLatitudeUnfold(s, i + 9, gap);
  }

  lemma LabelStep(s: string, i: nat, gap: char -> bool)
    requires OccursAt(s, "Latitude:", i)
    ensures LabelledAt(s, i, gap) == AfterLatitude(s, i + 9, gap)
  {
  }

  lemma FirstNumberStep(s: string, g: nat, gap: char -> bool, b: nat)
    requires g <= |s|
    requires g + |RunAt(s, g)| + RunFrom(s, g + |RunAt(s, g)|, gap) == b
    ensures NumberThenLongitude(s, g, gap) == LongitudeAt(s, RunAt(s, g), b)
  {
  }

  /** Patterns 1 and 2 from `Longitude:` on, given the space run and the second number. */
  lemma LongitudeTail(s: string, lat: string, b: nat, c: nat, lng: string)
    requires lat != "" && OccursAt(s, "Longitude:", b)
    requires b + 10 + RunFrom(s, b + 10, IsSpace) == c
    requires c <= |s| && RunAt(s, c) == lng && lng != ""
    ensures LongitudeAt(s, lat, b) == Some(Pair(lat, lng, c + |lng|))
  {
  }

  /** Characters that `.*?` skips before a number: neither number characters nor line ends. */
  predicate IsFiller(t: string)
  {
    forall k :: 0 <= k < |t| ==> !IsNumberChar(t[k]) && !IsLineTerminator(t[k])
  }

  /** What may sit between the first number and `Longitude:` on the line: no `L`, no line end. */
  predicate IsLooseGap(t: string)
  {
    (|t| > 0 ==> !IsNumberChar(t[0])) && forall k :: 0 <= k < |t| ==> t[k] != 'L' && !IsLineTerminator(t[k])
  }

  /** The first position on the line at which `hit` holds is what `NextOnLine` finds. */
  lemma NextOnLineAt(s: string, from: nat, hit: nat -> bool, t: nat)
    requires from <= t <= |s| && hit(t) && OnLine(s, from, t)
    requires forall k :: from <= k < t ==> !hit(k)
    ensures NextOnLine(s, from, hit) == Some(t)
  {
  }

  /**
   * Pattern 3 matches `Latitude:`, filler, a number, a gap on the same line, `Longitude:`,
   * filler and a number, capturing both numbers whole.
   */
  lemma LooseFound(s: string, i: nat, p1: string, lat: string, p2: string, p3: string, lng: string)
    requires IsFiller(p1) && IsLooseGap(p2) && IsFiller(p3) && IsNumberRun(lat) && IsNumberRun(lng)
    requires OccursAt(s, LabelledText(p1, lat, p2, p3, lng), i)
    requires i + |LabelledText(p1, lat, p2, p3, lng)| == |s| || !IsNumberChar(s[i + |LabelledText(p1, lat, p2, p3, lng)|])
    ensures LooseAt(s, i) == Some(Pair(lat, lng, i + |LabelledText(p1, lat, p2, p3, lng)|))
  {
    LooseFoundEnd(s, i, p1, lat, p2, p3, lng, i + |LabelledText(p1, lat, p2, p3, lng)|);
  }

  /** `LooseFound` with the end of the match named. */
  lemma LooseFoundEnd(s: string, i: nat, p1: string, lat: string, p2: string, p3: string, lng: string, end: nat)
    requires IsFiller(p1) && IsLooseGap(p2) && IsFiller(p3) && IsNumberRun(lat) && IsNumberRun(lng)
    requires OccursAt(s, LabelledText(p1, lat, p2, p3, lng), i)
    requires end == i + |LabelledText(p1, lat, p2, p3, lng)|
    requires end == |s| || !IsNumberChar(s[end])
    ensures LooseAt(s, i) == Some(Pair(lat, lng, end))
  {
    var g := i + 9 + |p1|;
    var e := g + |lat|;
    var b := e + |p2|;
    var d := b + 10;
    var c := d + |p3|;
    LabelledPieces(s, i, p1, lat, p2, p3, lng);
    FillerThenNumber(s, i + 9, p1, lat, g);
    LooseGapThenLabel(s, g, lat, p2, e, b);
    FillerThenNumber(s, d, p3, lng, c);
    NumberRunAt(s, c, lng);
    LooseChain(s, i, g, lat, e, b, d, c, lng, end);
  }

  /** Filler and then a number: the lazy `.*?` stops where the number begins. */
  lemma FillerThenNumber(s: string, a: nat, p: string, t: string, g: nat)
    requires IsFiller(p) && IsNumberRun(t) && g == a + |p|
    requires OccursAt(s, p, a) && OccursAt(s, t, g)
    ensures NextOnLine(s, a, NumberHit(s)) == Some(g)
  {
    assert s[g] == t[0];
    forall k | a <= k < g
      ensures !NumberHit(s)(k) && !IsLineTerminator(s[k])
    {
      assert s[k] == p[k - a];
    }
    NextOnLineAt(s, a, NumberHit(s), g);
  }

  /** A number, a gap without `L` and `Longitude:`: the number is whole and the label is the next one. */
  lemma LooseGapThenLabel(s: string, g: nat, t: string, p: string, e: nat, b: nat)
    requires IsNumberRun(t) && IsLooseGap(p) && e == g + |t| && b == e + |p|
    requires OccursAt(s, t, g) && OccursAt(s, p, e) && OccursAt(s, "Longitude:", b)
    ensures RunAt(s, g) == t
    ensures NextOnLine(s, e, LongitudeHit(s)) == Some(b)
  {
    assert s[b] == "Longitude:"[0];
    assert !IsNumberChar(s[e]) by {
      if |p| > 0 {
        assert s[e] == p[0];
      }
    }
    NumberRunAt(s, g, t);
    forall k | e <= k < b
      ensures !LongitudeHit(s)(k) && !IsLineTerminator(s[k])
    {
      assert s[k] == p[k - e];
      assert "Longitude:"[0] == 'L';
    }
    NextOnLineAt(s, e, LongitudeHit(s), b);
  }

  /** The captures of pattern 3 once each lazy skip is known. */
  lemma LooseChain(s: string, i: nat, g: nat, lat: string, e: nat, b: nat, d: nat, c: nat, lng: string, end: nat)
    requires OccursAt(s, "Latitude:", i)
    requires NextOnLine(s, i + 9, NumberHit(s)) == Some(g)
    requires RunAt(s, g) == lat && e == g + |lat|
    requires NextOnLine(s, e, LongitudeHit(s)) == Some(b) && d == b + 10
    requires d <= |s| && NextOnLine(s, d, NumberHit(s)) == Some(c)
    requires RunAt(s, c) == lng && end == c + |lng|
    ensures LooseAt(s, i) == Some(Pair(lat, lng, end))
  {
  }

  /** Where each part of the labelled format sits. */
  lemma LabelledParts(sp1: string, lat: string, gap: string, sp2: string, lng: string)
    ensures var w := LabelledText(sp1, lat, gap, sp2, lng);
      && w[0..9] == "Latitude:"
      && w[9..9 + |sp1|] == sp1
      && w[9 + |sp1|..9 + |sp1| + |lat|] == lat
      && w[9 + |sp1| + |lat|..9 + |sp1| + |lat| + |gap|] == gap
      && w[9 + |sp1| + |lat| + |gap|..19 + |sp1| + |lat| + |gap|] == "Longitude:"
      && w[19 + |sp1| + |lat| + |gap|..19 + |sp1| + |lat| + |gap| + |sp2|] == sp2
      && w[19 + |sp1| + |lat| + |gap| + |sp2|..] == lng
  {
  }

  /** Integer coordinates in range, in the panel's format, are read back exactly by pattern 1. */
  lemma PanelTextRoundTrip(a: int, b: int)
    requires -90 <= a <= 90 && -180 <= b <= 180
    ensures ExtractCoordinatesFromText(PanelText(IntToString(a), IntToString(b))) == Some(Coordinates(a as real, b as real))
    ensures ExtractCoordinatesFromTextAsWritten(PanelText(IntToString(a), IntToString(b))) == Some(Coordinates(a as real, b as real))
  {
    IntToStringNumberRun(a);
    IntToStringNumberRun(b);
    ParseFloatIntToString(a);
    ParseFloatIntToString(b);
    PanelTextRead(IntToString(a), IntToString(b), a as real, b as real);
  }

  /**
   * Any two number runs in the panel's format whose `parseFloat` values are in range are read
   * back as those values by pattern 1.
   */
  lemma PanelTextRead(ta: string, tb: string, x: real, y: real)
    requires IsNumberRun(ta) && IsNumberRun(tb)
    requires ParseFloat(ta) == Some(x) && ParseFloat(tb) == Some(y)
    requires -90.0 <= x <= 90.0 && -180.0 <= y <= 180.0
    ensures ExtractCoordinatesFromText(PanelText(ta, tb)) == Some(Coordinates(x, y))
    ensures ExtractCoordinatesFromTextAsWritten(PanelText(ta, tb)) == Some(Coordinates(x, y))
  {
    var s := PanelText(ta, tb);
    var p := Pair(ta, tb, |s|);
    assert Match(LabelledSpaces, s) == Some(p) by {
      PanelTextPattern(ta, tb);
    }
    assert AcceptInRange(p) == Some(Coordinates(x, y));
    FirstPatternWins(Patterns, s);
    FirstPatternWins(AsWrittenPatterns, s);
  }

  /** When the first pattern's match passes validation, it is the result. */
  lemma FirstPatternWins(patterns: seq<Pattern>, text: string)
    requires |patterns| > 0 && Match(patterns[0], text).Some?
    requires AcceptInRange(Match(patterns[0], text).value).Some?
    ensures ExtractWith(patterns, text) == AcceptInRange(Match(patterns[0], text).value)
  {
    assert Matches(patterns, text)[0] == Match(patterns[0], text);
  }

  /** Text made only of number characters holds no `Latitude:` label. */
  lemma NoLabelInNumberRun(s: string, i: nat)
    requires forall k :: 0 <= k < |s| ==> IsNumberChar(s[k])
    ensures !OccursAt(s, "Latitude:", i)
  {
    if i + 9 <= |s| {
      assert s[i + 0] != "Latitude:"[0];
    }
  }

  /** In text made only of number characters, the run from any position reaches the end. */
  lemma RunToEnd(s: string, i: nat)
    requires i < |s|
    requires forall k :: 0 <= k < |s| ==> IsNumberChar(s[k])
    ensures RunAt(s, i) == s[i..]
    ensures NextOnLine(s, |s|, NumberHit(s)).None?
  {
    RunAtExact(s, i, s[i..]);
  }

  /** As written, pattern 4 splits `45` into the captures `4` and `5`. */
  lemma LoneNumberSplitMatch()
    ensures Match(AnyTwoAsWritten, "45") == Some(Pair("4", "5", 2))
  {
    var s := "45";
    RunToEnd(s, 0);
    var first := RunAt(s, 0);
    assert first[..1] == "4" && first[1..] == "5";
  }

  /** A single digit reads back as its value. */
  lemma ParseFloatDigit(d: nat)
    requires d < 10
    ensures ParseFloat([DigitChar(d)]) == Some(d as real)
  {
    assert IntToString(d) == [DigitChar(d)];
    ParseFloatIntToString(d);
  }

  /** As written, only pattern 4 matches `45`. */
  lemma LoneNumberMatchesAsWritten()
    ensures Matches(AsWrittenPatterns, "45") == [None, None, None, Some(Pair("4", "5", 2))]
  {
    var s := "45";
    LoneNumberMissesLabelled();
    LoneNumberSplitMatch();
    FourMatches(AsWrittenPatterns, s, None, None, None, Some(Pair("4", "5", 2)));
  }

  /** The matches of four patterns, one by one. */
  lemma FourMatches(patterns: seq<Pattern>, s: string, a: Option<Pair>, b: Option<Pair>, c: Option<Pair>, d: Option<Pair>)
    requires |patterns| == 4
    requires Match(patterns[0], s) == a && Match(patterns[1], s) == b
    requires Match(patterns[2], s) == c && Match(patterns[3], s) == d
    ensures Matches(patterns, s) == [a, b, c, d]
  {
  }

  /** The three label-based patterns find nothing in `45`. */
  lemma LoneNumberMissesLabelled()
    ensures Match(LabelledSpaces, "45") == None && Match(LabelledBreaks, "45") == None
    ensures Match(Loose, "45") == None
  {
    var s := "45";
    forall i: nat | i <= |s|
      ensures PatternAt(LabelledSpaces, s, i).None? && PatternAt(LabelledBreaks, s, i).None?
      ensures PatternAt(Loose, s, i).None?
    {
      NoLabelInNumberRun(s, i);
    }
    NoMatch(LabelledSpaces, s);
    NoMatch(LabelledBreaks, s);
    NoMatch(Loose, s);
  }

  /** A pattern that matches at no position has no match. */
  lemma NoMatch(pattern: Pattern, s: string)
    requires forall i: nat :: i <= |s| ==> PatternAt(pattern, s, i).None?
    ensures Match(pattern, s) == None
  {
  }

  /** Pattern 4's split captures pass validation. */
  lemma SplitCapturesAccepted()
    ensures AcceptInRange(Pair("4", "5", 2)) == Some(Coordinates(4.0, 5.0))
  {
    ParseFloatDigit(4);
    ParseFloatDigit(5);
    assert DigitChar(4) == '4' && DigitChar(5) == '5';
  }

  /** As written, a text holding one two-digit number is read as two coordinates: `45` gives (4, 5). */
  lemma LoneNumberSplitAsWritten()
    ensures ExtractCoordinatesFromTextAsWritten("45") == Some(Coordinates(4.0, 5.0))
  {
    var p := Pair("4", "5", 2);
    var m := Matches(AsWrittenPatterns, "45");
    LoneNumberMatchesAsWritten();
    assert m == [None, None, None] + [Some(p)];
    FirstAcceptedSkipsMisses([None, None, None], [Some(p)], AcceptInRange);
    SplitCapturesAccepted();
  }

  /** Corrected, a text made only of number characters holds no pair at all. */
  lemma LoneNumberRejected(s: string)
    requires forall k :: 0 <= k < |s| ==> IsNumberChar(s[k])
    ensures ExtractCoordinatesFromText(s).None?
  {
    forall k | 0 <= k < |Patterns|
      ensures Match(Patterns[k], s).None?
    {
      NoPatternInNumberRun(Patterns[k], s);
    }
  }

  /** Corrected, no pattern matches text made only of number characters. */
  lemma NoPatternInNumberRun(pattern: Pattern, s: string)
    requires pattern != AnyTwoAsWritten
    requires forall k :: 0 <= k < |s| ==> IsNumberChar(s[k])
    ensures Match(pattern, s).None?
  {
    forall i: nat | i <= |s|
      ensures PatternAt(pattern, s, i).None?
    {
      if pattern == AnyTwo {
        if i < |s| {
          RunToEnd(s, i);
        }
      } else {
        NoLabelInNumberRun(s, i);
      }
    }
  }
}
