/**
 * Result numbering on Google search pages: query-string lookup, the search-type gate,
 * consecutive numbers for organic headings, and position numbers for sponsored ads.
 */
module SerpCounter {
  import opened Wrappers
  import opened Text
  import opened Scan

  predicate IsHexDigit(c: char)
  {
    IsDigit(c) || ('a' <= c <= 'f') || ('A' <= c <= 'F')
  }

  function HexValue(c: char): (v: nat)
    requires IsHexDigit(c)
    ensures v < 16
  {
    if IsDigit(c) then c as int - '0' as int
    else if 'a' <= c <= 'f' then c as int - 'a' as int + 10
    else c as int - 'A' as int + 10
  }

  /** The code unit of a `%uXXXX` escape, when it starts at `i`. */
  function WideEscape(s: string, i: nat): Option<int>
  {
    if i + 6 <= |s| && s[i] == '%' && s[i + 1] == 'u'
      && IsHexDigit(s[i + 2]) && IsHexDigit(s[i + 3]) && IsHexDigit(s[i + 4]) && IsHexDigit(s[i + 5])
    then Some(((HexValue(s[i + 2]) * 16 + HexValue(s[i + 3])) * 16 + HexValue(s[i + 4])) * 16 + HexValue(s[i + 5]))
    else None
  }

  /**
   * `unescape`: `%uXXXX` and `%XX` become the character with that code; every other
   * character, including a `%` that starts neither, is kept. A `%uXXXX` naming a surrogate
   * code unit is kept as text.
   */
  function Unescape(s: string): (r: string)
    ensures '%' !in s ==> r == s
    ensures |r| <= |s|
    decreases |s|
  {
    if |s| == 0 then ""
    else
      var wide := WideEscape(s, 0);
      if wide.Some? && !(0xD800 <= wide.value < 0xE000) then [wide.value as char] + Unescape(s[6..])
      else if 3 <= |s| && s[0] == '%' && IsHexDigit(s[1]) && IsHexDigit(s[2]) then
        [(HexValue(s[1]) * 16 + HexValue(s[2])) as char] + Unescape(s[3..])
      else [s[0]] + Unescape(s[1..])
  }

  predicate NotAmpersand(c: char)
  {
    c != '&'
  }

  /**
   * `(^|&)name=([^&]*)(&|$)` at `i`: the start of the text or an `&`, the key, and then the
   * value, which runs to the next `&` or the end.
   */
  function ParamAt(query: string, key: string, i: nat): (r: Option<string>)
    ensures r.Some? ==> '&' !in r.value
  {
    if i == 0 && OccursAt(query, key, 0) then
      RunFromFacts(query, |key|, NotAmpersand);
      Some(query[|key|..|key| + RunFrom(query, |key|, NotAmpersand)])
    else if i < |query| && query[i] == '&' && OccursAt(query, key, i + 1) then
      var start := i + 1 + |key|;
      RunFromFacts(query, start, NotAmpersand);
      Some(query[start..start + RunFrom(query, start, NotAmpersand)])
    else None
  }

  /**
   * `getQueryString(name)` on the page's `location.search`: the leading `?` is dropped, the
   * leftmost `name=` at the start or after an `&` gives its value, unescaped; `None` when
   * the parameter is absent.
   */
  function GetQueryString(search: string, name: string): (r: Option<string>)
    ensures r.None? <==> (var query := if |search| > 0 then search[1..] else "";
      forall i :: 0 <= i <= |query| ==> ParamAt(query, name + "=", i).None?)
    ensures r.Some? ==> var query := if |search| > 0 then search[1..] else "";
      exists i :: 0 <= i <= |query| && ParamAt(query, name + "=", i).Some?
        && (forall j :: 0 <= j < i ==> ParamAt(query, name + "=", j).None?)
        && r.value == Unescape(ParamAt(query, name + "=", i).value)
  {
    var query := if |search| > 0 then search[1..] else "";
    var key := name + "=";
    var at := (i: nat) => ParamAt(query, key, i);
    assert forall i: nat :: at(i) == ParamAt(query, key, i);
    match Leftmost(|query|, 0, at)
    case Some(i) => Some(Unescape(ParamAt(query, key, i).value))
    case None => None
  }

  /** The leftmost occurrence of the parameter is the one whose value is returned, unescaped. */
  lemma LeftmostParameterWins(search: string, name: string, i: nat)
    requires var query := if |search| > 0 then search[1..] else "";
      i <= |query| && ParamAt(query, name + "=", i).Some?
      && forall j :: 0 <= j < i ==> ParamAt(query, name + "=", j).None?
    ensures var query := if |search| > 0 then search[1..] else "";
      GetQueryString(search, name) == Some(Unescape(ParamAt(query, name + "=", i).value))
  {
    var query := if |search| > 0 then search[1..] else "";
    var key := name + "=";
    var at := (j: nat) => ParamAt(query, key, j);
    assert forall j: nat :: at(j) == ParamAt(query, key, j);
    assert Leftmost(|query|, 0, at) == Some(i);
  }

  /** A parameter first in the query string is found, up to the next `&`. */
  lemma FirstParameterFound(name: string, value: string, rest: string)
    requires '&' !in value && '%' !in value
    requires rest == "" || rest[0] == '&'
    ensures GetQueryString("?" + name + "=" + value + rest, name) == Some(value)
  {
    var search := "?" + name + "=" + value + rest;
    var query := search[1..];
    var key := name + "=";
    assert query == key + value + rest;
    assert query[..|key|] == key;
    assert OccursAt(query, key, 0);
    assert forall k :: |key| <= k < |key| + |value| ==> query[k] == value[k - |key|];
    RunFromExact(query, |key|, NotAmpersand, |value|);
    assert query[|key|..|key| + |value|] == value;
    assert ParamAt(query, key, 0) == Some(value);
    var at := (i: nat) => ParamAt(query, key, i);
    assert at(0).Some?;
    assert Leftmost(|query|, 0, at) == Some(0);
  }

  /** Without `name=` anywhere in the query string the parameter is absent. */
  lemma AbsentParameter(search: string, name: string)
    requires !Contains(search, name + "=")
    ensures GetQueryString(search, name).None?
  {
    var query := if |search| > 0 then search[1..] else "";
    var key := name + "=";
    forall i | 0 <= i <= |query|
      ensures ParamAt(query, key, i).None?
    {
      if i == 0 && OccursAt(query, key, 0) {
        OccursAfterFirst(search, key, 0);
      } else if i < |query| && query[i] == '&' && OccursAt(query, key, i + 1) {
        OccursAfterFirst(search, key, i + 1);
      }
    }
  }

  /** An occurrence in the text after the first character is an occurrence in the whole text. */
  lemma OccursAfterFirst(search: string, key: string, j: nat)
    requires |search| > 0 && OccursAt(search[1..], key, j)
    ensures Contains(search, key)
  {
    assert OccursAt(search, key, j + 1) by {
      forall k | 0 <= k < |key|
        ensures search[j + 1 + k] == key[k]
      {
        assert search[1..][j + k] == key[k];
      }
    }
    ContainsAt(search, key, j + 1);
  }

  datatype SearchType = All | Images

  /** `getCurrentSearchType`: `Images` exactly when `udm` is `2`. */
  function GetCurrentSearchType(search: string): (r: SearchType)
    ensures r == Images <==> GetQueryString(search, "udm") == Some("2")
  {
    var udm := GetQueryString(search, "udm");
    if udm.None? || udm.value == "" then All
    else if udm.value == "2" then Images
    else All
  }

  /**
   * An organic result heading as the numbering reads it: its text trimmed and lower-cased,
   * and the number badge it carries.
   */
  datatype Heading = Heading(text: string, badge: Option<nat>)

  /** A heading read off the page, from its text content. */
  function ReadHeading(textContent: string, badge: Option<nat>): (h: Heading)
    ensures h.badge == badge && h.text == Lower(Trim(textContent))
  {
    Heading(Lower(Trim(textContent)), badge)
  }

  /** Navigation headings that take no number. */
  predicate IsNavigation(h: Heading)
  {
    h.text == "refine results" || h.text == "map"
  }

  /** Surrounding spaces and letter case do not matter to the navigation rule. */
  lemma PaddedMapIsNavigation()
    ensures IsNavigation(ReadHeading("  Map ", None))
  {
    var padded := "  Map ";
    assert LeadingSpaces(padded[2..]) == 0;
    assert LeadingSpaces(padded[1..]) == 1 + LeadingSpaces(padded[1..][1..]);
    assert LeadingSpaces(padded) == 2;
    assert TrailingSpaces(padded[..5]) == 0;
    assert TrailingSpaces(padded) == 1;
    assert Trim(padded) == "Map";
    assert Lower("Map") == "map";
  }

  /** Only the whole text counts: a heading that merely starts with `Map` is numbered. */
  lemma MapsIsNotNavigation()
    ensures !IsNavigation(ReadHeading("Maps", None))
  {
    assert LeadingSpaces("Maps") == 0 && TrailingSpaces("Maps") == 0;
    assert Trim("Maps") == "Maps";
    assert |Lower("Maps")| == 4;
  }

  /** How many headings in `hs` take a number when the headings `skip` holds of take none. */
  function Numbered(hs: seq<Heading>, skip: Heading -> bool): (n: nat)
    ensures n <= |hs|
  {
    if |hs| == 0 then 0 else (if skip(hs[0]) then 0 else 1) + Numbered(hs[1..], skip)
  }

  /**
   * The numbering loop with the counter at `counter`: each heading `skip` does not hold of
   * takes the next number; the others lose any badge and take none.
   */
  function NumberFrom(hs: seq<Heading>, counter: nat, skip: Heading -> bool): (r: seq<Heading>)
    ensures |r| == |hs|
  {
    if |hs| == 0 then []
    else
      var counted := !skip(hs[0]);
      [Heading(hs[0].text, if counted then Some(counter + 1) else None)]
        + NumberFrom(hs[1..], if counted then counter + 1 else counter, skip)
  }

  /** The badge `NumberFrom` gives a heading: none if skipped, else the next number after those before it. */
  function BadgeFor(hs: seq<Heading>, counter: nat, skip: Heading -> bool, i: nat): Option<nat>
    requires i < |hs|
  {
    if skip(hs[i]) then None else Some(counter + 1 + Numbered(hs[..i], skip))
  }

  /** The `i`-th heading keeps its text and is numbered after the counter plus the numbered headings before it. */
  lemma {:induction false} NumberFromBadge(hs: seq<Heading>, counter: nat, skip: Heading -> bool, i: nat)
    requires i < |hs|
    ensures NumberFrom(hs, counter, skip)[i] == Heading(hs[i].text, BadgeFor(hs, counter, skip, i))
  {
    if i > 0 {
      var next := if skip(hs[0]) then counter else counter + 1;
      assert NumberFrom(hs, counter, skip)[i] == NumberFrom(hs[1..], next, skip)[i - 1];
      NumberFromBadge(hs[1..], next, skip, i - 1);
      assert hs[1..][i - 1] == hs[i];
      assert Numbered(hs[..i], skip) == (if skip(hs[0]) then 0 else 1) + Numbered(hs[1..][..i - 1], skip) by {
        assert hs[..i][0] == hs[0];
        assert hs[..i][1..] == hs[1..][..i - 1];
      }
    } else {
      assert hs[..i] == [];
    }
  }

  /** Every heading as `NumberFromBadge` gives it, from a counter of 0. */
  lemma NumberFromBadges(hs: seq<Heading>, skip: Heading -> bool)
    ensures forall i :: 0 <= i < |hs| ==> NumberFrom(hs, 0, skip)[i] == Heading(hs[i].text, BadgeFor(hs, 0, skip, i))
  {
    forall i | 0 <= i < |hs|
      ensures NumberFrom(hs, 0, skip)[i] == Heading(hs[i].text, BadgeFor(hs, 0, skip, i))
    {
      NumberFromBadge(hs, 0, skip, i);
    }
  }

  /**
   * `numberOrganicResults`: every badge is removed, then the headings that are not
   * navigation are numbered 1, 2, … in page order.
   */
  function NumberOrganicResults(hs: seq<Heading>): (r: seq<Heading>)
    ensures |r| == |hs|
    ensures forall i :: 0 <= i < |hs| ==> r[i].text == hs[i].text
    ensures forall i :: 0 <= i < |hs| ==> r[i].badge == (if IsNavigation(hs[i]) then None else Some(1 + Numbered(hs[..i], IsNavigation)))
  {
    NumberFromBadges(hs, IsNavigation);
    NumberFrom(hs, 0, IsNavigation)
  }

  /** Which headings are skipped depends only on their texts. */
  lemma {:induction false} NumberedSameTexts(a: seq<Heading>, b: seq<Heading>)
    requires |a| == |b| && forall i :: 0 <= i < |a| ==> a[i].text == b[i].text
    ensures Numbered(a, IsNavigation) == Numbered(b, IsNavigation)
  {
    if |a| > 0 {
      assert IsNavigation(a[0]) == IsNavigation(b[0]);
      NumberedSameTexts(a[1..], b[1..]);
    }
  }

  /** Numbering twice gives the same page as numbering once. */
  lemma NumberOrganicTwice(hs: seq<Heading>)
    ensures NumberOrganicResults(NumberOrganicResults(hs)) == NumberOrganicResults(hs)
  {
    var once := NumberOrganicResults(hs);
    var twice := NumberOrganicResults(once);
    forall i | 0 <= i < |hs|
      ensures twice[i] == once[i]
    {
      assert IsNavigation(once[i]) == IsNavigation(hs[i]);
      NumberedSameTexts(once[..i], hs[..i]);
    }
  }

  lemma {:induction false} NumberedSnoc(hs: seq<Heading>, skip: Heading -> bool, i: nat)
    requires i < |hs|
    ensures Numbered(hs[..i + 1], skip) == Numbered(hs[..i], skip) + (if skip(hs[i]) then 0 else 1)
  {
    if i > 0 {
      assert hs[..i + 1][1..] == hs[1..][..i];
      assert hs[..i][1..] == hs[1..][..i - 1];
      NumberedSnoc(hs[1..], skip, i - 1);
    } else {
      assert hs[..1][1..] == [];
    }
  }

  lemma {:induction false} NumberedPrefix(hs: seq<Heading>, skip: Heading -> bool, i: nat, j: nat)
    requires i <= j <= |hs|
    ensures Numbered(hs[..i], skip) <= Numbered(hs[..j], skip)
    ensures i < j && !skip(hs[i]) ==> Numbered(hs[..i], skip) < Numbered(hs[..j], skip)
    decreases j
  {
    if i < j {
      NumberedPrefix(hs, skip, i, j - 1);
      NumberedSnoc(hs, skip, j - 1);
    }
  }

  /** Counted headings later on the page have more counted headings before them, and none has more than the total. */
  lemma NumberedConsecutive(hs: seq<Heading>, skip: Heading -> bool, i: nat, j: nat)
    requires i < j < |hs| && !skip(hs[i])
    ensures Numbered(hs[..i], skip) < Numbered(hs[..j], skip)
    ensures !skip(hs[j]) ==> Numbered(hs[..j], skip) < Numbered(hs, skip)
  {
    NumberedPrefix(hs, skip, i, j);
    if !skip(hs[j]) {
      NumberedSnoc(hs, skip, j);
      NumberedWithin(hs, skip, j + 1);
    }
  }

  /** A prefix has no more counted headings than the whole page. */
  lemma NumberedWithin(hs: seq<Heading>, skip: Heading -> bool, k: nat)
    requires k <= |hs|
    ensures Numbered(hs[..k], skip) <= Numbered(hs, skip)
  {
    NumberedPrefix(hs, skip, k, |hs|);
    assert hs[..|hs|] == hs;
  }

  /** The numbers run 1 … n in page order: later headings get larger numbers, none above the count. */
  lemma OrganicNumbersConsecutive(hs: seq<Heading>, i: nat, j: nat)
    requires i < j < |hs| && !IsNavigation(hs[i]) && !IsNavigation(hs[j])
    ensures NumberOrganicResults(hs)[i].badge.value < NumberOrganicResults(hs)[j].badge.value <= Numbered(hs, IsNavigation)
  {
    NumberedConsecutive(hs, IsNavigation, i, j);
  }

  /** The heading at `i` is counted and has exactly `n - 1` counted headings before it. */
  predicate NumberedAs(hs: seq<Heading>, skip: Heading -> bool, i: nat, n: nat)
  {
    i < |hs| && !skip(hs[i]) && 1 + Numbered(hs[..i], skip) == n
  }

  /** Every number from 1 to the count belongs to some heading: the `i` returned. */
  lemma {:induction false} NumberedNoGaps(hs: seq<Heading>, skip: Heading -> bool, n: nat) returns (i: nat)
    requires 1 <= n <= Numbered(hs, skip)
    ensures NumberedAs(hs, skip, i, n)
    decreases |hs|
  {
    var last := |hs| - 1;
    NumberedSnoc(hs, skip, last);
    assert hs[..last + 1] == hs;
    if n == Numbered(hs, skip) && !skip(hs[last]) {
      i := last;
    } else {
      var front := hs[..last];
      i := NumberedNoGaps(front, skip, n);
      assert front[..i] == hs[..i];
    }
  }

  /** Every number from 1 to the count is given to some heading: the `i` returned. */
  lemma OrganicNumbersNoGaps(hs: seq<Heading>, n: nat) returns (i: nat)
    requires 1 <= n <= Numbered(hs, IsNavigation)
    ensures i < |hs| && NumberOrganicResults(hs)[i].badge == Some(n)
  {
    i := NumberedNoGaps(hs, IsNavigation, n);
    NumberFromBadge(hs, 0, IsNavigation, i);
  }

  /**
   * An ad heading: the text of its container's `.U3A9Ac`/`.qV8iec` element, if there is
   * one, and the ad badge it carries.
   */
  datatype AdHeading = AdHeading(sponsoredText: Option<string>, badge: Option<nat>)

  predicate HasSponsoredText(h: AdHeading)
  {
    h.sponsoredText.Some? && Contains(Lower(h.sponsoredText.value), "sponsored")
  }

  /**
   * `numberGoogleAds`: every ad badge is removed, then each ad heading whose container
   * says sponsored is badged with its 1-based position among all ad headings.
   */
  function NumberGoogleAds(ads: seq<AdHeading>): (r: seq<AdHeading>)
    ensures |r| == |ads|
    ensures forall i :: 0 <= i < |ads| ==> r[i].sponsoredText == ads[i].sponsoredText
    ensures forall i :: 0 <= i < |ads| ==> (r[i].badge.Some? <==> HasSponsoredText(ads[i]))
    ensures forall i :: 0 <= i < |ads| && r[i].badge.Some? ==> r[i].badge.value == i + 1
  {
    seq(|ads|, i requires 0 <= i < |ads| => ads[i].(badge := if HasSponsoredText(ads[i]) then Some(i + 1) else None))
  }

  /** The page as the counter sees it. */
  datatype SerpPage = SerpPage(href: string, search: string, headings: seq<Heading>, ads: seq<AdHeading>)

  /** Whether `renderCounterHtml` numbers anything on the page. */
  predicate NumbersPage(page: SerpPage, enabled: bool)
  {
    StartsWith(page.href, "https://www.google.com/search") && enabled && GetCurrentSearchType(page.search) != Images
  }

  /** `renderCounterHtml`: the page numbered, or left as it is when a gate closes. */
  function RenderCounterHtml(page: SerpPage, enabled: bool): (r: SerpPage)
    ensures !NumbersPage(page, enabled) ==> r == page
    ensures NumbersPage(page, enabled) ==> r.headings == NumberOrganicResults(page.headings) && r.ads == NumberGoogleAds(page.ads)
    ensures r.href == page.href && r.search == page.search
  {
    if !StartsWith(page.href, "https://www.google.com/search") then page
    else if !enabled then page
    else if GetCurrentSearchType(page.search) == Images then page
    else page.(headings := NumberOrganicResults(page.headings), ads := NumberGoogleAds(page.ads))
  }

  /** Every badge removed, organic and ad alike. */
  function RemoveAllCounters(page: SerpPage): (r: SerpPage)
    ensures |r.headings| == |page.headings| && |r.ads| == |page.ads|
    ensures forall i :: 0 <= i < |r.headings| ==> r.headings[i] == page.headings[i].(badge := None)
    ensures forall i :: 0 <= i < |r.ads| ==> r.ads[i] == page.ads[i].(badge := None)
  {
    page.(headings := seq(|page.headings|, i requires 0 <= i < |page.headings| => page.headings[i].(badge := None)),
          ads := seq(|page.ads|, i requires 0 <= i < |page.ads| => page.ads[i].(badge := None)))
  }

  /** The storage listener for `serpNumberingEnabled`: numbering runs when it is switched on, every badge goes when it is switched off. */
  function OnNumberingSettingChanged(page: SerpPage, newValue: bool): (r: SerpPage)
    ensures !newValue ==> forall i :: 0 <= i < |r.headings| ==> r.headings[i].badge.None?
    ensures !newValue ==> forall i :: 0 <= i < |r.ads| ==> r.ads[i].badge.None?
    ensures newValue ==> r == RenderCounterHtml(page, true)
  {
    if newValue then RenderCounterHtml(page, true) else RemoveAllCounters(page)
  }

  /**
   * Switching numbering off and on again numbers a search page as if it had never been
   * switched off; on any other page it leaves no badge behind.
   */
  lemma OffThenOn(page: SerpPage)
    ensures NumbersPage(page, true) ==> OnNumberingSettingChanged(OnNumberingSettingChanged(page, false), true) == RenderCounterHtml(page, true)
    ensures !NumbersPage(page, true) ==> OnNumberingSettingChanged(OnNumberingSettingChanged(page, false), true) == RemoveAllCounters(page)
  {
    var off := OnNumberingSettingChanged(page, false);
    if NumbersPage(page, true) {
      assert NumbersPage(off, true);
      NumberedSameTexts(off.headings, page.headings);
      forall i | 0 <= i < |page.headings|
        ensures NumberOrganicResults(off.headings)[i] == NumberOrganicResults(page.headings)[i]
      {
        NumberedSameTexts(off.headings[..i], page.headings[..i]);
      }
    }
  }

  /** An Images search is never numbered. */
  lemma ImagesNeverNumbered(page: SerpPage, enabled: bool, rest: string)
    requires page.search == "?udm=2" + rest && (rest == "" || rest[0] == '&')
    ensures RenderCounterHtml(page, enabled) == page
  {
    FirstParameterFound("udm", "2", rest);
    ImagesSearchSplit(rest);
  }

  lemma ImagesSearchSplit(rest: string)
    ensures "?udm=2" + rest == "?" + "udm" + "=" + "2" + rest
  {
    assert "?" + "udm" + "=" + "2" == "?udm=2";
  }
}
