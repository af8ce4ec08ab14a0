/**
 * Result numbering on Maps search pages: regular results get badges 1, 2, … up to 20,
 * sponsored results get their own ad badges, and both counters restart on a new query or
 * when every card has lost its badges.
 */
module MapsCounter {
  import opened Wrappers
  import opened Text
  import opened Scan

  /**
   * A result card as the numbering loops see it: the identifier `getPlaceId` finds in it,
   * whether `isSponsored` holds for it, and the numbers of the badges it carries.
   */
  datatype Card = Card(placeId: Option<string>, sponsored: bool, regular: Option<nat>, ad: Option<nat>)

  /** The numbering counters and the numbering setting. */
  datatype Counter = Counter(enabled: bool, lastSearchQuery: string, lastNumberUsed: nat, lastAdNumberUsed: nat)

  const InitialCounter := Counter(true, "", 0, 0)

  /** The numbering cap for regular results. */
  const Limit: nat := 20

  function Min(a: int, b: int): int
  {
    if a <= b then a else b
  }

  predicate IsIdChar(c: char)
  {
    ('a' <= c <= 'z') || ('A' <= c <= 'Z') || IsDigit(c) || c == '_' || c == '-'
  }

  /** `ChIJ[a-zA-Z0-9_-]+(?:\?|$)` at `i`, with the trailing `?` dropped. */
  function CardIdAt(href: string, i: nat): (r: Option<string>)
    ensures r.Some? ==> OccursAt(href, r.value, i) && |r.value| > 4 && r.value[..4] == "ChIJ"
    ensures r.Some? ==> forall k :: 4 <= k < |r.value| ==> IsIdChar(r.value[k])
    ensures r.Some? ==> i + |r.value| == |href| || href[i + |r.value|] == '?'
  {
    if OccursAt(href, "ChIJ", i) then
      var n := RunFrom(href, i + 4, IsIdChar);
      RunFromFacts(href, i + 4, IsIdChar);
      var e := i + 4 + n;
      if n > 0 && (e == |href| || href[e] == '?') then Some(href[i..e]) else None
    else None
  }

  /** `ChIJ` and identifier characters that end the link or are followed by `?` always match. */
  lemma CardIdFound(href: string, i: nat, id: string)
    requires |id| > 0 && forall k :: 0 <= k < |id| ==> IsIdChar(id[k])
    requires OccursAt(href, "ChIJ" + id, i)
    requires i + 4 + |id| == |href| || href[i + 4 + |id|] == '?'
    ensures CardIdAt(href, i) == Some("ChIJ" + id)
  {
    var w := "ChIJ" + id;
    assert forall k :: 0 <= k < |w| ==> href[i + k] == w[k];
    assert w[..4] == "ChIJ";
    assert OccursAt(href, "ChIJ", i);
    forall k | i + 4 <= k < i + 4 + |id|
      ensures IsIdChar(href[k])
    {
      assert href[k] == w[k - i] == id[k - i - 4];
    }
    RunFromExact(href, i + 4, IsIdChar, |id|);
    assert forall k :: 0 <= k < |w| ==> href[i..i + |w|][k] == w[k];
    assert href[i..i + |w|] == w;
  }

  /** `getPlaceId`: the leftmost identifier that ends the link or is followed by `?`. */
  function GetPlaceId(href: string): (r: Option<string>)
    ensures r.Some? ==> exists i :: 0 <= i <= |href| && CardIdAt(href, i) == r && forall j :: 0 <= j < i ==> CardIdAt(href, j).None?
    ensures r.None? ==> forall i :: 0 <= i <= |href| ==> CardIdAt(href, i).None?
  {
    var at := (i: nat) => CardIdAt(href, i);
    assert forall i: nat :: at(i) == CardIdAt(href, i);
    match Leftmost(|href|, 0, at)
    case Some(i) => CardIdAt(href, i)
    case None => None
  }

  /** A link that ends in an identifier yields it. */
  lemma GetPlaceIdAtEnd(prefix: string, id: string)
    requires |id| > 0 && forall k :: 0 <= k < |id| ==> IsIdChar(id[k])
    requires forall i :: 0 <= i < |prefix| ==> CardIdAt(prefix + "ChIJ" + id, i).None?
    ensures GetPlaceId(prefix + "ChIJ" + id) == Some("ChIJ" + id)
  {
    var href := prefix + "ChIJ" + id;
    var i := |prefix|;
    assert href[i..i + 4] == "ChIJ";
    assert forall k :: i + 4 <= k < |href| ==> href[k] == id[k - i - 4];
    RunFromExact(href, i + 4, IsIdChar, |id|);
    assert href[i..|href|] == "ChIJ" + id;
    assert CardIdAt(href, i) == Some("ChIJ" + id);
    LeftmostCardId(href, i);
  }

  /** An identifier with none before it is the one `getPlaceId` returns. */
  lemma LeftmostCardId(href: string, i: nat)
    requires i <= |href| && CardIdAt(href, i).Some?
    requires forall j :: 0 <= j < i ==> CardIdAt(href, j).None?
    ensures GetPlaceId(href) == CardIdAt(href, i)
  {
    var r := GetPlaceId(href);
    assert r.Some?;
    var k :| 0 <= k <= |href| && CardIdAt(href, k) == r && forall j :: 0 <= j < k ==> CardIdAt(href, j).None?;
    assert k == i;
  }

  predicate SponsoredText(text: string)
  {
    Lower(Trim(text)) == "sponsored"
  }

  /** `isSponsored`: some element's trimmed, lower-cased text is exactly `sponsored`. */
  function IsSponsored(texts: seq<string>): (r: bool)
    ensures r <==> exists k :: 0 <= k < |texts| && SponsoredText(texts[k])
  {
    if |texts| == 0 then false
    else
      var rest := IsSponsored(texts[1..]);
      assert forall k :: 1 <= k < |texts| ==> texts[k] == texts[1..][k - 1];
      SponsoredText(texts[0]) || rest
  }

  /**
   * A card read from the page: the link of its `a.hfpxzc` anchor (empty when absent), the
   * texts of its `span`/`div`/`label`/`p` elements, and its badges.
   */
  function ReadCard(href: string, texts: seq<string>, regular: Option<nat>, ad: Option<nat>): Card
  {
    Card(GetPlaceId(href), IsSponsored(texts), regular, ad)
  }

  predicate HasBadge(c: Card)
  {
    c.regular.Some? || c.ad.Some?
  }

  /** A card the regular pass numbers: it has an identifier, is not sponsored and has no badge. */
  predicate RegularEligible(c: Card)
  {
    c.placeId.Some? && !c.sponsored && !HasBadge(c)
  }

  /** A card the ad pass numbers: it has an identifier, is sponsored and has no ad badge. */
  predicate AdEligible(c: Card)
  {
    c.placeId.Some? && c.sponsored && c.ad.None?
  }

  /** How many cards satisfy `p`. */
  function Count(cards: seq<Card>, p: Card -> bool): (n: nat)
    ensures n <= |cards|
  {
    if |cards| == 0 then 0 else (if p(cards[0]) then 1 else 0) + Count(cards[1..], p)
  }

  lemma CountHead(cards: seq<Card>, i: nat, p: Card -> bool)
    requires 1 <= i <= |cards|
    ensures Count(cards[..i], p) == (if p(cards[0]) then 1 else 0) + Count(cards[1..][..i - 1], p)
  {
    assert cards[..i][1..] == cards[1..][..i - 1];
  }

  /** A prefix never counts more than the whole list, and a counted element adds one. */
  lemma {:induction false} CountPrefix(cards: seq<Card>, i: nat, p: Card -> bool)
    requires i < |cards|
    ensures Count(cards[..i], p) + (if p(cards[i]) then 1 else 0) <= Count(cards, p)
  {
    if i > 0 {
      CountHead(cards, i, p);
      CountPrefix(cards[1..], i - 1, p);
    }
  }

  /** A counter value is allowed under an optional cap. */
  predicate Within(n: nat, cap: Option<nat>)
  {
    cap.None? || n <= cap.value
  }

  /** How many of `eligible` cards a pass starting at `next` numbers. */
  function Taken(eligible: nat, next: nat, cap: Option<nat>): nat
    requires cap.Some? ==> next <= cap.value + 1
  {
    if cap.None? then eligible else Min(eligible, cap.value + 1 - next)
  }

  /** A card as a numbering loop leaves it when the counter shows `n` for it. */
  function Numbered(c: Card, n: nat, eligible: Card -> bool, mark: (Card, nat) -> Card, cap: Option<nat>): Card
  {
    if eligible(c) && Within(n, cap) then mark(c, n) else c
  }

  /**
   * One numbering loop from counter `next`: each eligible card, in order, takes the next
   * number while the number is within the cap. The card at `i` gets `next` plus the number
   * of eligible cards before it.
   */
  function Pass(cards: seq<Card>, next: nat, eligible: Card -> bool, mark: (Card, nat) -> Card, cap: Option<nat>): (r: (seq<Card>, nat))
    requires cap.Some? ==> next <= cap.value + 1
    ensures |r.0| == |cards|
    ensures r.1 == next + Taken(Count(cards, eligible), next, cap)
  {
    if |cards| == 0 then ([], next)
    else
      var taken := eligible(cards[0]) && Within(next, cap);
      var rest := Pass(cards[1..], if taken then next + 1 else next, eligible, mark, cap);
      assert rest.1 == next + Taken(Count(cards, eligible), next, cap) by {
        if cap.Some? && eligible(cards[0]) && !taken {
          assert next == cap.value + 1;
        }
      }
      ([Numbered(cards[0], next, eligible, mark, cap)] + rest.0, rest.1)
  }

  /** The card at `i` after a pass is numbered by how many eligible cards come before it. */
  lemma {:induction false} PassCards(cards: seq<Card>, next: nat, eligible: Card -> bool, mark: (Card, nat) -> Card, cap: Option<nat>, i: nat)
    requires cap.Some? ==> next <= cap.value + 1
    requires i < |cards|
    ensures Pass(cards, next, eligible, mark, cap).0[i] == Numbered(cards[i], next + Count(cards[..i], eligible), eligible, mark, cap)
  {
    if i > 0 {
      var taken := eligible(cards[0]) && Within(next, cap);
      var next' := if taken then next + 1 else next;
      PassCards(cards[1..], next', eligible, mark, cap, i - 1);
      CountHead(cards, i, eligible);
      var before := Count(cards[1..][..i - 1], eligible);
      assert cards[1..][i - 1] == cards[i];
      if eligible(cards[0]) && !taken {
        assert !Within(next + 1 + before, cap);
      }
    }
  }

  function RegularMark(c: Card, n: nat): Card
  {
    c.(regular := Some(n))
  }

  /** An ad badge replaces any regular badge the card had. */
  function AdMark(c: Card, n: nat): Card
  {
    c.(regular := None, ad := Some(n))
  }

  /**
   * `numberRegularResults`: nothing happens without cards or once 20 numbers are used;
   * otherwise eligible cards are numbered from `last + 1` up to 20 and the counter becomes
   * the last number given.
   */
  function NumberRegularResults(cards: seq<Card>, last: nat): (r: (seq<Card>, nat))
    ensures |r.0| == |cards|
    ensures last >= Limit ==> r == (cards, last)
    ensures last < Limit ==> r.1 == Min(last + Count(cards, RegularEligible), Limit)
  {
    if |cards| == 0 || last >= Limit then (cards, last)
    else
      var (numbered, next) := Pass(cards, last + 1, RegularEligible, RegularMark, Some(Limit));
      (numbered, Min(next - 1, Limit))
  }

  /**
   * `numberMapsAds`: gated on the regular counter, not the ad counter; otherwise every
   * eligible ad is numbered from `lastAd + 1`, with no cap on the numbers shown, and the ad
   * counter is capped at 20 afterwards.
   */
  function NumberMapsAds(cards: seq<Card>, lastRegular: nat, lastAd: nat): (r: (seq<Card>, nat))
    ensures |r.0| == |cards|
    ensures lastRegular >= Limit || |cards| == 0 ==> r == (cards, lastAd)
    ensures lastRegular < Limit && |cards| > 0 ==> r.1 == Min(lastAd + Count(cards, AdEligible), Limit)
  {
    if |cards| == 0 || lastRegular >= Limit then (cards, lastAd)
    else
      var (numbered, next) := Pass(cards, lastAd + 1, AdEligible, AdMark, None);
      (numbered, Min(next - 1, Limit))
  }

  /**
   * The card at `i` after regular numbering: an eligible card gets `last + 1` plus the
   * number of eligible cards before it, when that is at most 20; every other card is kept.
   */
  lemma RegularCard(cards: seq<Card>, last: nat, i: nat)
    requires last < Limit && i < |cards|
    ensures NumberRegularResults(cards, last).0[i] == (var n := last + 1 + Count(cards[..i], RegularEligible);
      if RegularEligible(cards[i]) && n <= Limit then RegularMark(cards[i], n) else cards[i])
  {
    PassCards(cards, last + 1, RegularEligible, RegularMark, Some(Limit), i);
  }

  /** The card at `i` after ad numbering: an eligible ad gets `lastAd + 1` plus the number of eligible ads before it. */
  lemma AdCard(cards: seq<Card>, lastRegular: nat, lastAd: nat, i: nat)
    requires lastRegular < Limit && i < |cards|
    ensures NumberMapsAds(cards, lastRegular, lastAd).0[i] == (var n := lastAd + 1 + Count(cards[..i], AdEligible);
      if AdEligible(cards[i]) then AdMark(cards[i], n) else cards[i])
  {
    PassCards(cards, lastAd + 1, AdEligible, AdMark, None, i);
  }

  /** Every badge the regular pass adds lies between the old counter and the new one. */
  lemma RegularBadgesInRange(cards: seq<Card>, last: nat, i: nat)
    requires last < Limit && i < |cards|
    ensures var r := NumberRegularResults(cards, last);
      r.0[i] != cards[i] ==> r.0[i].regular.Some? && last < r.0[i].regular.value <= r.1 <= Limit
  {
    RegularCard(cards, last, i);
    CountPrefix(cards, i, RegularEligible);
  }

  /** Regular numbering leaves no eligible card unnumbered unless the counter has reached 20. */
  lemma RegularExhausts(cards: seq<Card>, last: nat)
    requires last < Limit
    ensures var r := NumberRegularResults(cards, last);
      r.1 == Limit || forall i :: 0 <= i < |cards| ==> !RegularEligible(r.0[i])
  {
    var r := NumberRegularResults(cards, last);
    if r.1 < Limit {
      forall i | 0 <= i < |cards|
        ensures !RegularEligible(r.0[i])
      {
        RegularCard(cards, last, i);
        CountPrefix(cards, i, RegularEligible);
      }
    }
  }

  /** `isContentRefreshed`: there are cards and none carries either badge. */
  predicate IsContentRefreshed(cards: seq<Card>)
  {
    |cards| > 0 && forall i :: 0 <= i < |cards| ==> !HasBadge(cards[i])
  }

  /** The number of cards carrying neither badge, as `isContentRefreshed` tallies them. */
  function BadgelessCount(cards: seq<Card>): (n: nat)
    ensures n <= |cards|
  {
    if |cards| == 0 then 0 else (if HasBadge(cards[0]) then 0 else 1) + BadgelessCount(cards[1..])
  }

  /** Only a card without a badge adds to the tally, so the tally is full exactly when no card has one. */
  lemma {:induction false} BadgelessCountFull(cards: seq<Card>)
    ensures BadgelessCount(cards) == |cards| <==> forall i :: 0 <= i < |cards| ==> !HasBadge(cards[i])
  {
    if |cards| > 0 {
      BadgelessCountFull(cards[1..]);
      assert forall i :: 1 <= i < |cards| ==> cards[i] == cards[1..][i - 1];
    }
  }

  /** The tally of `isContentRefreshed` (cards without a badge equal all cards, and there is a card) agrees with the predicate. */
  lemma ContentRefreshedByCount(cards: seq<Card>)
    ensures IsContentRefreshed(cards) <==> |cards| > 0 && BadgelessCount(cards) == |cards|
  {
    BadgelessCountFull(cards);
  }

  function StripBadges(cards: seq<Card>): (r: seq<Card>)
    ensures |r| == |cards|
    ensures forall i :: 0 <= i < |cards| ==> r[i] == cards[i].(regular := None, ad := None)
  {
    seq(|cards|, i requires 0 <= i < |cards| => cards[i].(regular := None, ad := None))
  }

  /** Both counters stay within the cap. */
  predicate CountersBounded(s: Counter)
  {
    s.lastNumberUsed <= Limit && s.lastAdNumberUsed <= Limit
  }

  /** The counters after the new-query and refreshed-content resets. */
  function ResetCounters(s: Counter, cards: seq<Card>, query: string): (r: Counter)
    ensures r.enabled == s.enabled && r.lastSearchQuery == query
    ensures query != s.lastSearchQuery || IsContentRefreshed(cards) ==> r.lastNumberUsed == 0 && r.lastAdNumberUsed == 0
    ensures query == s.lastSearchQuery && !IsContentRefreshed(cards) ==> r == s
  {
    var s1 := if query != s.lastSearchQuery then s.(lastSearchQuery := query, lastNumberUsed := 0, lastAdNumberUsed := 0) else s;
    if IsContentRefreshed(cards) then s1.(lastNumberUsed := 0, lastAdNumberUsed := 0) else s1
  }

  /**
   * `runNumbering` on the page's cards and current query: with numbering off every badge is
   * removed and the counters are kept; otherwise the counters are reset as needed, then the
   * regular pass and the ad pass run in that order.
   */
  function RunNumbering(s: Counter, cards: seq<Card>, query: string): (r: (Counter, seq<Card>))
    ensures |r.1| == |cards|
    ensures !s.enabled ==> r.0 == s && forall i :: 0 <= i < |cards| ==> !HasBadge(r.1[i])
    ensures s.enabled ==> r.0.enabled && r.0.lastSearchQuery == query
    ensures CountersBounded(s) ==> CountersBounded(r.0)
  {
    if !s.enabled then (s, StripBadges(cards))
    else
      var s2 := ResetCounters(s, cards, query);
      var (regular, n1) := NumberRegularResults(cards, s2.lastNumberUsed);
      var (both, n2) := NumberMapsAds(regular, n1, s2.lastAdNumberUsed);
      (s2.(lastNumberUsed := n1, lastAdNumberUsed := n2), both)
  }

  /** The ad pass leaves a card that is not sponsored as it is. */
  lemma AdPassKeepsUnsponsored(cards: seq<Card>, lastRegular: nat, lastAd: nat, i: nat)
    requires i < |cards| && !cards[i].sponsored
    ensures NumberMapsAds(cards, lastRegular, lastAd).0[i] == cards[i]
  {
    if lastRegular < Limit {
      AdCard(cards, lastRegular, lastAd, i);
    }
  }

  /** From a zero counter, an eligible card within the cap gets one more than the eligible cards before it. */
  lemma FirstRunCard(cards: seq<Card>, i: nat)
    requires i < |cards| && RegularEligible(cards[i]) && Count(cards[..i], RegularEligible) < Limit
    ensures NumberRegularResults(cards, 0).0[i] == RegularMark(cards[i], 1 + Count(cards[..i], RegularEligible))
  {
    RegularCard(cards, 0, i);
  }

  /** On a new query the regular numbers restart at 1: the counter ends at the eligible count, capped at 20. */
  lemma NewQueryRestarts(s: Counter, cards: seq<Card>, query: string, i: nat)
    requires s.enabled && query != s.lastSearchQuery
    requires i < |cards| && RegularEligible(cards[i]) && Count(cards[..i], RegularEligible) < Limit
    ensures RunNumbering(s, cards, query).0.lastNumberUsed == Min(Count(cards, RegularEligible), Limit)
    ensures RunNumbering(s, cards, query).1[i].regular == Some(1 + Count(cards[..i], RegularEligible))
  {
    NewQueryCounter(s, cards, query);
    NewQueryCardNumber(s, cards, query, i);
  }

  /** On a new query the regular counter ends at the eligible count, capped at 20. */
  lemma NewQueryCounter(s: Counter, cards: seq<Card>, query: string)
    requires s.enabled && query != s.lastSearchQuery
    ensures RunNumbering(s, cards, query).0.lastNumberUsed == Min(Count(cards, RegularEligible), Limit)
  {
    var first := NumberRegularResults(cards, 0);
    RunNumberingRestart(s, cards, query, first, NumberMapsAds(first.0, first.1, 0));
  }

  /** On a new query an eligible card within the cap is numbered from 1. */
  lemma NewQueryCardNumber(s: Counter, cards: seq<Card>, query: string, i: nat)
    requires s.enabled && query != s.lastSearchQuery
    requires i < |cards| && RegularEligible(cards[i]) && Count(cards[..i], RegularEligible) < Limit
    ensures RunNumbering(s, cards, query).1[i].regular == Some(1 + Count(cards[..i], RegularEligible))
  {
    var first := NumberRegularResults(cards, 0);
    var second := NumberMapsAds(first.0, first.1, 0);
    RunNumberingRestart(s, cards, query, first, second);
    FirstRunCard(cards, i);
    AdPassKeepsUnsponsored(first.0, first.1, 0, i);
  }

  /** On a new query both passes start from zero counters. */
  lemma RunNumberingRestart(s: Counter, cards: seq<Card>, query: string, first: (seq<Card>, nat), second: (seq<Card>, nat))
    requires s.enabled && query != s.lastSearchQuery
    requires first == NumberRegularResults(cards, 0) && second == NumberMapsAds(first.0, first.1, 0)
    ensures RunNumbering(s, cards, query).0.lastNumberUsed == first.1
    ensures RunNumbering(s, cards, query).1 == second.0
  {
    var s2 := ResetCounters(s, cards, query);
    RunNumberingEnabled(s, cards, query, s2, first, second);
  }

  /** With numbering on, a run is the reset, then the regular pass, then the ad pass. */
  lemma RunNumberingEnabled(s: Counter, cards: seq<Card>, query: string, s2: Counter, first: (seq<Card>, nat), second: (seq<Card>, nat))
    requires s.enabled && s2 == ResetCounters(s, cards, query)
    requires first == NumberRegularResults(cards, s2.lastNumberUsed)
    requires second == NumberMapsAds(first.0, first.1, s2.lastAdNumberUsed)
    ensures RunNumbering(s, cards, query) == (s2.(lastNumberUsed := first.1, lastAdNumberUsed := second.1), second.0)
  {
  }

  /** When the regular numbers reach 20 in a run, no ad is numbered in that run. */
  lemma FullRegularBlocksAds(s: Counter, cards: seq<Card>, query: string, i: nat)
    requires s.enabled && i < |cards|
    requires RunNumbering(s, cards, query).0.lastNumberUsed >= Limit
    ensures RunNumbering(s, cards, query).1[i].ad == cards[i].ad
  {
    var s2 := ResetCounters(s, cards, query);
    if s2.lastNumberUsed < Limit {
      RegularCard(cards, s2.lastNumberUsed, i);
    }
  }

  lemma {:induction false} CountNone(cards: seq<Card>, p: Card -> bool)
    requires forall i :: 0 <= i < |cards| ==> !p(cards[i])
    ensures Count(cards, p) == 0
  {
    if |cards| > 0 {
      assert forall i :: 0 <= i < |cards| - 1 ==> cards[1..][i] == cards[i + 1];
      CountNone(cards[1..], p);
    }
  }

  /** A list with something counted has a first counted element. */
  lemma {:induction false} FirstCounted(cards: seq<Card>, p: Card -> bool) returns (k: nat)
    requires Count(cards, p) > 0
    ensures k < |cards| && p(cards[k]) && Count(cards[..k], p) == 0
  {
    if p(cards[0]) {
      k := 0;
      assert cards[..0] == [];
    } else {
      var k' := FirstCounted(cards[1..], p);
      k := k' + 1;
      CountHead(cards, k, p);
    }
  }

  /** A pass over cards none of which is eligible changes none of them. */
  lemma PassIdle(cards: seq<Card>, next: nat, eligible: Card -> bool, mark: (Card, nat) -> Card, cap: Option<nat>)
    requires cap.Some? ==> next <= cap.value + 1
    requires forall i :: 0 <= i < |cards| ==> !eligible(cards[i])
    ensures Pass(cards, next, eligible, mark, cap).0 == cards
  {
    var r := Pass(cards, next, eligible, mark, cap).0;
    forall i | 0 <= i < |cards|
      ensures r[i] == cards[i]
    {
      PassCards(cards, next, eligible, mark, cap, i);
    }
  }

  /** After a run of the ad pass no card is an eligible ad, and no card has become eligible for a regular number. */
  lemma AdExhausts(cards: seq<Card>, lastRegular: nat, lastAd: nat, i: nat)
    requires lastRegular < Limit && i < |cards|
    ensures !AdEligible(NumberMapsAds(cards, lastRegular, lastAd).0[i])
    ensures RegularEligible(NumberMapsAds(cards, lastRegular, lastAd).0[i]) ==> RegularEligible(cards[i])
  {
    AdCard(cards, lastRegular, lastAd, i);
  }

  /** Numbering a page on which no card is eligible changes no card. */
  lemma NumberingIdle(cards: seq<Card>, last: nat, lastAd: nat)
    requires forall i :: 0 <= i < |cards| ==> !RegularEligible(cards[i]) && !AdEligible(cards[i])
    ensures NumberRegularResults(cards, last).0 == cards
    ensures NumberMapsAds(cards, NumberRegularResults(cards, last).1, lastAd).0 == cards
  {
    if |cards| > 0 && last < Limit {
      PassIdle(cards, last + 1, RegularEligible, RegularMark, Some(Limit));
    }
    var n1 := NumberRegularResults(cards, last).1;
    if |cards| > 0 && n1 < Limit {
      PassIdle(cards, lastAd + 1, AdEligible, AdMark, None);
    }
  }

  /** Regular numbering that reaches 20 from below has numbered some card. */
  lemma ReachingLimitNumbers(cards: seq<Card>, last: nat)
    requires last < Limit && NumberRegularResults(cards, last).1 == Limit
    ensures exists k :: 0 <= k < |cards| && HasBadge(NumberRegularResults(cards, last).0[k])
  {
    var k := FirstCounted(cards, RegularEligible);
    RegularCard(cards, last, k);
  }

  /**
   * Running the numbering a second time on the page it produced, with the same query,
   * changes no card: every eligible card was numbered, or the regular counter is at 20.
   */
  lemma RunTwiceKeepsCards(s: Counter, cards: seq<Card>, query: string)
    requires s.enabled && CountersBounded(s)
    ensures var (s1, c1) := RunNumbering(s, cards, query);
      RunNumbering(s1, c1, query).1 == c1
  {
    var (s1, c1) := RunNumbering(s, cards, query);
    var s2 := ResetCounters(s, cards, query);
    var (regular, n1) := NumberRegularResults(cards, s2.lastNumberUsed);
    assert c1 == NumberMapsAds(regular, n1, s2.lastAdNumberUsed).0;
    var t2 := ResetCounters(s1, c1, query);
    if n1 < Limit {
      RegularExhausts(cards, s2.lastNumberUsed);
      forall i | 0 <= i < |c1|
        ensures !RegularEligible(c1[i]) && !AdEligible(c1[i])
      {
        AdExhausts(regular, n1, s2.lastAdNumberUsed, i);
      }
      NumberingIdle(c1, t2.lastNumberUsed, t2.lastAdNumberUsed);
    } else {
      assert c1 == regular;
      if IsContentRefreshed(c1) {
        if s2.lastNumberUsed < Limit {
          ReachingLimitNumbers(cards, s2.lastNumberUsed);
        }
        assert false;
      }
      assert t2 == s1;
    }
  }
}
