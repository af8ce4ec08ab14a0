/**
 * Scanners standing in for the regular expressions that pull two numbers out of a text.
 * Each pattern used is of a shape whose backtracking order settles on one candidate per
 * start position (greedy runs that cannot give anything back, lazy gaps that take the
 * first opportunity), so a pattern becomes a function from a start position to its
 * captures, and `String.prototype.match` becomes the leftmost start position that matches.
 */
module Scan {
  import opened Wrappers
  import opened Text
  import opened Numerals

  /** The two captured texts of a two-number pattern, and where the match ends. */
  datatype Pair = Pair(first: string, second: string, end: nat)

  /** A latitude/longitude result. */
  datatype Coordinates = Coordinates(latitude: real, longitude: real)

  /** Length of the longest run of characters satisfying `p` that starts at `i`. */
  function RunFrom(s: string, i: nat, p: char -> bool): (n: nat)
    requires i <= |s|
    ensures i + n <= |s|
    decreases |s| - i
  {
    if i == |s| || !p(s[i]) then 0 else 1 + RunFrom(s, i + 1, p)
  }

  /**
   * The run is made of characters in the class and stops at one outside it. Kept apart
   * from `RunFrom` so that functions chaining several runs stay cheap to unfold.
   */
  lemma {:induction false} RunFromFacts(s: string, i: nat, p: char -> bool)
    requires i <= |s|
    ensures forall k :: i <= k < i + RunFrom(s, i, p) ==> p(s[k])
    ensures i + RunFrom(s, i, p) < |s| ==> !p(s[i + RunFrom(s, i, p)])
    decreases |s| - i
  {
    if i < |s| && p(s[i]) {
      RunFromFacts(s, i + 1, p);
    }
  }

  /** Two character classes that agree on a stretch of text give the same run over it. */
  lemma {:induction false} RunFromAgree(s: string, i: nat, p: char -> bool, q: char -> bool)
    requires i <= |s|
    requires forall k :: i <= k < |s| ==> p(s[k]) == q(s[k])
    ensures RunFrom(s, i, p) == RunFrom(s, i, q)
    decreases |s| - i
  {
    if i < |s| && p(s[i]) {
      RunFromAgree(s, i + 1, p, q);
    }
  }

  /** The run is exactly the stretch up to the first character outside the class. */
  lemma {:induction false} RunFromExact(s: string, i: nat, p: char -> bool, n: nat)
    requires i + n <= |s|
    requires forall k :: i <= k < i + n ==> p(s[k])
    requires i + n == |s| || !p(s[i + n])
    ensures RunFrom(s, i, p) == n
    decreases n
  {
    if n > 0 {
      RunFromExact(s, i + 1, p, n - 1);
    }
  }

  /** `-?\d+(\.\d+)?` at `i` (or `-?\d+\.\d+` when `needPoint`): where the number ends. */
  function NumberEnd(s: string, i: nat, needPoint: bool): (r: Option<nat>)
    ensures r.Some? ==> i < r.value <= |s|
    ensures r.Some? ==> r.value == |s| || !IsDigit(s[r.value])
  {
    if i >= |s| then None
    else
      var j := if s[i] == '-' then i + 1 else i;
      var d := RunFrom(s, j, IsDigit);
      RunFromFacts(s, j, IsDigit);
      if d == 0 then None
      else
        var k := j + d;
        var hasFraction := k + 1 < |s| && s[k] == '.' && IsDigit(s[k + 1]);
        if hasFraction then
          RunFromFacts(s, k + 1, IsDigit);
          Some(k + 1 + RunFrom(s, k + 1, IsDigit))
        else if needPoint then None
        else Some(k)
  }

  /**
   * `(N)\s*,\s*(N)` at `i`, with `N` the number of `NumberEnd`: two numbers around a comma,
   * optional white space on either side of it.
   */
  function CommaPairAt(s: string, i: nat, needPoint: bool): (r: Option<Pair>)
    ensures r.Some? ==> r.value.end <= |s|
  {
    match NumberEnd(s, i, needPoint)
    case None => None
    case Some(e1) => CommaThenNumber(s, i, e1, needPoint)
  }

  /** The rest of `CommaPairAt` once the first number is known to span `i .. e1`. */
  function CommaThenNumber(s: string, i: nat, e1: nat, needPoint: bool): (r: Option<Pair>)
    requires i < e1 <= |s|
    ensures r.Some? ==> r.value.end <= |s|
  {
    var j := e1 + RunFrom(s, e1, IsSpace);
    if j < |s| && s[j] == ',' then
      var k := j + 1 + RunFrom(s, j + 1, IsSpace);
      match NumberEnd(s, k, needPoint)
      case None => None
      case Some(e2) => Some(Pair(s[i..e1], s[k..e2], e2))
    else None
  }

  /** Two numbers separated by a bare comma match the comma pattern. */
  lemma CommaPairTight(s: string, i: nat, e1: nat, e2: nat, needPoint: bool)
    requires NumberEnd(s, i, needPoint) == Some(e1)
    requires e1 + 1 < |s| && s[e1] == ',' && !IsSpace(s[e1 + 1])
    requires NumberEnd(s, e1 + 1, needPoint) == Some(e2)
    ensures CommaPairAt(s, i, needPoint) == Some(Pair(s[i..e1], s[e1 + 1..e2], e2))
  {
    assert !IsSpace(s[e1]);
    RunFromExact(s, e1, IsSpace, 0);
    RunFromExact(s, e1 + 1, IsSpace, 0);
    CommaThenNumberTight(s, i, e1, e2, needPoint);
  }

  lemma CommaThenNumberTight(s: string, i: nat, e1: nat, e2: nat, needPoint: bool)
    requires i < e1 && e1 + 1 < |s| && s[e1] == ','
    requires RunFrom(s, e1, IsSpace) == 0 && RunFrom(s, e1 + 1, IsSpace) == 0
    requires NumberEnd(s, e1 + 1, needPoint) == Some(e2)
    ensures CommaThenNumber(s, i, e1, needPoint) == Some(Pair(s[i..e1], s[e1 + 1..e2], e2))
  {
  }

  /** The leftmost position in `from .. n` at which `at` matches. */
  function Leftmost<T>(n: nat, from: nat, at: nat -> Option<T>): (r: Option<nat>)
    ensures r.Some? ==> from <= r.value <= n && at(r.value).Some?
    ensures r.Some? ==> forall j :: from <= j < r.value ==> at(j).None?
    ensures r.None? ==> forall j :: from <= j <= n ==> at(j).None?
    decreases n + 1 - from
  {
    if from > n then None
    else if at(from).Some? then Some(from)
    else Leftmost(n, from + 1, at)
  }

  /** `text.match(pattern)` for an unanchored pattern: the captures at the leftmost matching position. */
  function FirstMatch<T>(s: string, at: nat -> Option<T>): (r: Option<T>)
    ensures r.Some? <==> exists j :: 0 <= j <= |s| && at(j).Some?
    ensures r.Some? ==> exists j :: 0 <= j <= |s| && at(j) == r && forall k :: 0 <= k < j ==> at(k).None?
  {
    match Leftmost(|s|, 0, at)
    case Some(j) => at(j)
    case None => None
  }

  /**
   * The validation both coordinate parsers apply to a matched pair: latitude in [-90, 90]
   * and longitude in [-180, 180], and neither `NaN`.
   */
  function AcceptInRange(p: Pair): (r: Option<Coordinates>)
    ensures r.Some? <==> (ParseFloat(p.first).Some? && ParseFloat(p.second).Some?
      && -90.0 <= ParseFloat(p.first).value <= 90.0 && -180.0 <= ParseFloat(p.second).value <= 180.0)
    ensures r.Some? ==> r.value == Coordinates(ParseFloat(p.first).value, ParseFloat(p.second).value)
  {
    var lat := ParseFloat(p.first);
    var lng := ParseFloat(p.second);
    if lat.Some? && lng.Some? && -90.0 <= lat.value <= 90.0 && -180.0 <= lng.value <= 180.0
    then Some(Coordinates(lat.value, lng.value))
    else None
  }

  /** A pattern that matched nothing, or whose match `accept` turned down. */
  predicate Rejected(m: Option<Pair>, accept: Pair -> Option<Coordinates>)
  {
    m.None? || accept(m.value).None?
  }

  /** Patterns tried in order: the first match that `accept` turns into coordinates. */
  function FirstAccepted(matches: seq<Option<Pair>>, accept: Pair -> Option<Coordinates>): (r: Option<Coordinates>)
    ensures r.Some? ==> exists k :: 0 <= k < |matches| && matches[k].Some? && accept(matches[k].value) == r &&
                                    forall j :: 0 <= j < k ==> Rejected(matches[j], accept)
    ensures r.None? <==> forall k :: 0 <= k < |matches| ==> Rejected(matches[k], accept)
  {
    if |matches| == 0 then None
    else if matches[0].Some? && accept(matches[0].value).Some? then accept(matches[0].value)
    else
      var r := FirstAccepted(matches[1..], accept);
      assert forall k :: 1 <= k < |matches| ==> matches[k] == matches[1..][k - 1];
      assert r.Some? ==> exists k :: 1 <= k < |matches| && matches[k].Some? && accept(matches[k].value) == r &&
                                     forall j :: 0 <= j < k ==> Rejected(matches[j], accept);
      r
  }

  /** Patterns that matched nothing are passed over: the result is decided by the ones after them. */
  lemma {:induction false} FirstAcceptedSkipsMisses(misses: seq<Option<Pair>>, rest: seq<Option<Pair>>,
                                                    accept: Pair -> Option<Coordinates>)
    requires forall k :: 0 <= k < |misses| ==> misses[k].None?
    ensures FirstAccepted(misses + rest, accept) == FirstAccepted(rest, accept)
    decreases |misses|
  {
    if |misses| > 0 {
      var all := misses + rest;
      assert all[0] == misses[0] && all[0].None?;
      assert all[1..] == misses[1..] + rest;
      assert FirstAccepted(all, accept) == FirstAccepted(all[1..], accept);
      FirstAcceptedSkipsMisses(misses[1..], rest, accept);
    } else {
      assert misses + rest == rest;
    }
  }
}
