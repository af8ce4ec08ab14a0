/**
 * The place panel's helpers on Maps pages: the place identifier read from the URL, the
 * URL watcher and navigation/cache state, the 24-hour to 12-hour time conversion, the
 * opening-hours tables, and the star, website and restaurant display rules.
 */
module PlaceTracker {
  import opened Wrappers
  import opened Text
  import opened Numerals
  import opened Scan

  /** Characters that end a `ChIJ…` or `/g/…` identifier. */
  predicate IsIdStop(c: char)
  {
    c == '/' || c == '?' || c == '&' || c == '!'
  }

  /** Characters that end a `place/…` identifier (`!` is allowed there). */
  predicate IsPathStop(c: char)
  {
    c == '/' || c == '?' || c == '&'
  }

  predicate NotIdStop(c: char)
  {
    !IsIdStop(c)
  }

  predicate NotPathStop(c: char)
  {
    !IsPathStop(c)
  }

  predicate NotColonOrBang(c: char)
  {
    c != ':' && c != '!'
  }

  /** Pattern 1 at `i`: `ChIJ` and at least one more character up to the first stop; the whole match. */
  function ChijAt(url: string, i: nat): (r: Option<string>)
    ensures r.Some? ==> OccursAt(url, r.value, i) && |r.value| > 4 && r.value[..4] == "ChIJ"
    ensures r.Some? ==> forall k :: 4 <= k < |r.value| ==> !IsIdStop(r.value[k])
    ensures r.Some? ==> i + |r.value| == |url| || IsIdStop(url[i + |r.value|])
    ensures r.Some? <==> OccursAt(url, "ChIJ", i) && i + 4 < |url| && !IsIdStop(url[i + 4])
  {
    if OccursAt(url, "ChIJ", i) then
      var n := RunFrom(url, i + 4, NotIdStop);
      RunFromFacts(url, i + 4, NotIdStop);
      if n > 0 then Some(url[i..i + 4 + n]) else None
    else None
  }

  /** Pattern 2 at `i`: `/g/` and at least one more character up to the first stop; `'/g/'` is kept. */
  function ShortIdAt(url: string, i: nat): (r: Option<string>)
    ensures r.Some? ==> OccursAt(url, r.value, i) && |r.value| > 3 && r.value[..3] == "/g/"
    ensures r.Some? ==> forall k :: 3 <= k < |r.value| ==> !IsIdStop(r.value[k])
    ensures r.Some? ==> i + |r.value| == |url| || IsIdStop(url[i + |r.value|])
    ensures r.Some? <==> OccursAt(url, "/g/", i) && i + 3 < |url| && !IsIdStop(url[i + 3])
  {
    if OccursAt(url, "/g/", i) then
      var n := RunFrom(url, i + 3, NotIdStop);
      RunFromFacts(url, i + 3, NotIdStop);
      if n > 0 then Some(url[i..i + 3 + n]) else None
    else None
  }

  /** Pattern 3 at `i`: `1s`, then at least one character other than `:` and `!`, then `:`. */
  function EncodedIdAt(url: string, i: nat): (r: Option<string>)
    ensures r.Some? ==> |r.value| > 0 && OccursAt(url, "1s" + r.value + ":", i)
    ensures r.Some? ==> ':' !in r.value && '!' !in r.value
  {
    if OccursAt(url, "1s", i) then
      var n := RunFrom(url, i + 2, NotColonOrBang);
      RunFromFacts(url, i + 2, NotColonOrBang);
      var e := i + 2 + n;
      if n > 0 && e < |url| && url[e] == ':' then
        assert url[i..e + 1] == "1s" + url[i + 2..e] + ":";
        Some(url[i + 2..e])
      else None
    else None
  }

  /**
   * Every occurrence of `1s`, a value free of `:` and `!`, and `:` is a match of pattern 3
   * whose capture is that value.
   */
  lemma EncodedIdFound(url: string, i: nat, v: string)
    requires |v| > 0 && ':' !in v && '!' !in v
    requires OccursAt(url, "1s" + v + ":", i)
    ensures EncodedIdAt(url, i) == Some(v)
  {
    var w := "1s" + v + ":";
    assert forall k :: 0 <= k < |w| ==> url[i + k] == w[k];
    assert w[0] == '1' && w[1] == 's';
    assert OccursAt(url, "1s", i);
    forall k | i + 2 <= k < i + 2 + |v|
      ensures NotColonOrBang(url[k])
    {
      assert url[k] == w[k - i] == v[k - i - 2];
    }
    assert url[i + 2 + |v|] == w[2 + |v|] == ':';
    RunFromExact(url, i + 2, NotColonOrBang, |v|);
    assert forall k :: 0 <= k < |v| ==> url[i + 2..i + 2 + |v|][k] == w[k + 2] == v[k];
    assert url[i + 2..i + 2 + |v|] == v;
  }

  /** Pattern 4 at `i`: `place/`, then at least one character up to the first `/`, `?` or `&`. */
  function PathIdAt(url: string, i: nat): (r: Option<string>)
    ensures r.Some? ==> |r.value| > 0 && OccursAt(url, "place/" + r.value, i)
    ensures r.Some? ==> forall k :: 0 <= k < |r.value| ==> !IsPathStop(r.value[k])
    ensures r.Some? ==> i + 6 + |r.value| == |url| || IsPathStop(url[i + 6 + |r.value|])
    ensures r.Some? <==> OccursAt(url, "place/", i) && i + 6 < |url| && !IsPathStop(url[i + 6])
  {
    if OccursAt(url, "place/", i) then
      var n := RunFrom(url, i + 6, NotPathStop);
      RunFromFacts(url, i + 6, NotPathStop);
      if n > 0 then
        assert url[i..i + 6 + n] == "place/" + url[i + 6..i + 6 + n];
        Some(url[i + 6..i + 6 + n])
      else None
    else None
  }

  /** The four patterns' leftmost matches, in priority order. */
  function PlaceIdHits(url: string): seq<Option<string>>
  {
    [FirstMatch(url, (i: nat) => ChijAt(url, i)), FirstMatch(url, (i: nat) => ShortIdAt(url, i)),
     FirstMatch(url, (i: nat) => EncodedIdAt(url, i)), FirstMatch(url, (i: nat) => PathIdAt(url, i))]
  }

  /** The first present value of a list of alternatives. */
  function FirstSome(hits: seq<Option<string>>): (r: Option<string>)
    ensures r.Some? <==> exists k :: 0 <= k < |hits| && hits[k].Some?
    ensures r.Some? ==> exists k :: 0 <= k < |hits| && hits[k] == r && forall j :: 0 <= j < k ==> hits[j].None?
  {
    if |hits| == 0 then None
    else if hits[0].Some? then hits[0]
    else
      var r := FirstSome(hits[1..]);
      assert forall k :: 1 <= k < |hits| ==> hits[k] == hits[1..][k - 1];
      r
  }

  /**
   * `extractPlaceIdFromURL`: the first pattern, in the order ChIJ, `/g/`, `1s…:`, `place/`,
   * that matches anywhere in the URL gives the identifier; `None` when none does.
   */
  function ExtractPlaceIdFromURL(url: string): (r: Option<string>)
    ensures r.Some? <==> exists k :: 0 <= k < 4 && PlaceIdHits(url)[k].Some?
    ensures r.Some? ==> exists k :: 0 <= k < 4 && PlaceIdHits(url)[k] == r && forall j :: 0 <= j < k ==> PlaceIdHits(url)[j].None?
    ensures r.Some? ==> |r.value| > 0
  {
    FirstSome(PlaceIdHits(url))
  }

  /** A URL that begins with a classic identifier yields exactly that identifier. */
  lemma ClassicIdRoundTrip(id: string, rest: string)
    requires |id| > 0 && forall k :: 0 <= k < |id| ==> !IsIdStop(id[k])
    requires |rest| > 0 && IsIdStop(rest[0])
    ensures ExtractPlaceIdFromURL("ChIJ" + id + rest) == Some("ChIJ" + id)
  {
    var url := "ChIJ" + id + rest;
    assert url[..4] == "ChIJ";
    assert OccursAt(url, "ChIJ", 0);
    assert forall k :: 4 <= k < 4 + |id| ==> url[k] == id[k - 4];
    assert url[4 + |id|] == rest[0];
    RunFromExact(url, 4, NotIdStop, |id|);
    assert url[0..4 + |id|] == "ChIJ" + id;
    assert ChijAt(url, 0) == Some("ChIJ" + id);
    assert PlaceIdHits(url)[0] == Some("ChIJ" + id);
  }

  /** The URL watcher's and navigation handler's variables, and the per-page cache of place data. */
  datatype Tracker<D> = Tracker(lastUrl: string, currentPlaceId: Option<string>, lastProcessedPlaceId: Option<string>, cache: map<string, D>)

  const PlacePagePrefix: string := "https://www.google.com/maps/place/"

  /**
   * One poll of the URL watcher: a changed URL on a place page whose identifier differs from
   * the current one becomes current and is handed to the navigation handler.
   */
  function CheckUrlChange<D>(t: Tracker<D>, url: string): (r: (Tracker<D>, Option<string>))
    ensures url == t.lastUrl ==> r == (t, None)
    ensures url != t.lastUrl ==> r.0.lastUrl == url && r.0.cache == t.cache && r.0.lastProcessedPlaceId == t.lastProcessedPlaceId
    ensures r.1.Some? <==> (url != t.lastUrl && Contains(url, PlacePagePrefix)
      && ExtractPlaceIdFromURL(url).Some? && ExtractPlaceIdFromURL(url) != t.currentPlaceId)
    ensures r.1.Some? ==> r.1 == ExtractPlaceIdFromURL(url) && r.0.currentPlaceId == r.1
    ensures r.1.None? ==> r.0.currentPlaceId == t.currentPlaceId
  {
    if url == t.lastUrl then (t, None)
    else
      var t1 := t.(lastUrl := url);
      if Contains(url, PlacePagePrefix) then
        var id := ExtractPlaceIdFromURL(url);
        if id.Some? && id != t.currentPlaceId then (t1.(currentPlaceId := id), id) else (t1, None)
      else (t1, None)
  }

  /**
   * `handlePlaceNavigation`: the identifier last handled is ignored; any other is recorded,
   * and its cached data, if any, is shown.
   */
  function HandlePlaceNavigation<D>(t: Tracker<D>, id: string): (r: (Tracker<D>, Option<D>))
    ensures Some(id) == t.lastProcessedPlaceId ==> r == (t, None)
    ensures Some(id) != t.lastProcessedPlaceId ==> r.0 == t.(lastProcessedPlaceId := Some(id))
    ensures Some(id) != t.lastProcessedPlaceId ==> (r.1.Some? <==> id in t.cache)
    ensures r.1.Some? ==> id in t.cache && r.1.value == t.cache[id]
  {
    if Some(id) == t.lastProcessedPlaceId then (t, None)
    else (t.(lastProcessedPlaceId := Some(id)), if id in t.cache then Some(t.cache[id]) else None)
  }

  /**
   * Place data arriving from the background worker: it is cached under the current
   * identifier, or failing that the one in the page URL, and it is shown (the second
   * component is the data the panel displays) whether or not it could be cached.
   */
  function OnPlaceData<D>(t: Tracker<D>, pageUrl: string, data: D): (r: (Tracker<D>, D))
    ensures r.0.lastUrl == t.lastUrl && r.0.currentPlaceId == t.currentPlaceId && r.0.lastProcessedPlaceId == t.lastProcessedPlaceId
    ensures t.currentPlaceId.Some? ==> r.0.cache == t.cache[t.currentPlaceId.value := data]
    ensures t.currentPlaceId.None? && ExtractPlaceIdFromURL(pageUrl).Some? ==> r.0.cache == t.cache[ExtractPlaceIdFromURL(pageUrl).value := data]
    ensures t.currentPlaceId.None? && ExtractPlaceIdFromURL(pageUrl).None? ==> r.0.cache == t.cache
    ensures r.1 == data
  {
    var key := if t.currentPlaceId.Some? then t.currentPlaceId else ExtractPlaceIdFromURL(pageUrl);
    (if key.Some? then t.(cache := t.cache[key.value := data]) else t, data)
  }

  /** Data that arrived for the current place is shown when the panel later navigates to it. */
  lemma CachedDataShownOnNavigation<D>(t: Tracker<D>, pageUrl: string, data: D, id: string)
    requires t.currentPlaceId == Some(id) && t.lastProcessedPlaceId != Some(id)
    ensures HandlePlaceNavigation(OnPlaceData(t, pageUrl, data).0, id).1 == Some(data)
  {
  }

  /** Navigating to the same place twice in a row shows it at most once. */
  lemma NavigateTwice<D>(t: Tracker<D>, id: string)
    ensures var first := HandlePlaceNavigation(t, id);
      HandlePlaceNavigation(first.0, id) == (first.0, None)
  {
  }

  /** Hour and minute text captured by `(\d{1,2}):(\d{2})`. */
  datatype Clock = Clock(hours: nat, minutes: string)

  /** The time pattern at `i`: two hour digits are tried before one. */
  function ClockAt(s: string, i: nat): (r: Option<Clock>)
    ensures r.Some? ==> r.value.hours < 100 && |r.value.minutes| == 2
  {
    if i + 5 <= |s| && IsDigit(s[i]) && IsDigit(s[i + 1]) && s[i + 2] == ':' && IsDigit(s[i + 3]) && IsDigit(s[i + 4]) then
      Some(Clock(10 * DigitValue(s[i]) + DigitValue(s[i + 1]), s[i + 3..i + 5]))
    else if i + 4 <= |s| && IsDigit(s[i]) && s[i + 1] == ':' && IsDigit(s[i + 2]) && IsDigit(s[i + 3]) then
      Some(Clock(DigitValue(s[i]), s[i + 2..i + 4]))
    else None
  }

  /** The 12-hour clock's hour for a parsed hour (which may exceed 23). */
  function TwelveHour(h: nat): (r: nat)
    ensures h == 0 ==> r == 12
    ensures 1 <= h <= 12 ==> r == h
    ensures h > 12 ==> r == h - 12
  {
    if h == 0 then 12 else if h > 12 then h - 12 else h
  }

  /**
   * `formatTime`: empty or missing gives `'N/A'`; text already in 12-hour form is returned as
   * is; the first `h:mm`/`hh:mm` is rewritten as `h:mm a.m.` or `h:mm p.m.`; anything else is
   * returned as is.
   */
  function FormatTime(time: Option<string>): (r: string)
    ensures time.None? || time.value == "" ==> r == "N/A"
    ensures time.Some? && (Contains(time.value, "a.m.") || Contains(time.value, "p.m.")) ==> r == time.value
    ensures time.Some? && time.value != "" && FirstMatch(time.value, (i: nat) => ClockAt(time.value, i)).None? ==> r == time.value
  {
    if time.None? || time.value == "" then "N/A"
    else if Contains(time.value, "a.m.") || Contains(time.value, "p.m.") then time.value
    else match FirstMatch(time.value, (i: nat) => ClockAt(time.value, i))
      case None => time.value
      case Some(c) => NatToString(TwelveHour(c.hours)) + ":" + c.minutes + " " + (if c.hours >= 12 then "p.m." else "a.m.")
  }

  /** Two-digit rendering with a leading zero. */
  function TwoDigits(n: nat): (r: string)
    requires n < 100
    ensures |r| == 2 && IsDigit(r[0]) && IsDigit(r[1])
    ensures 10 * DigitValue(r[0]) + DigitValue(r[1]) == n
  {
    [DigitChar(n / 10), DigitChar(n % 10)]
  }

  lemma DigitsHaveNoMeridiem(s: string)
    requires forall k :: 0 <= k < |s| ==> IsDigit(s[k]) || s[k] == ':'
    ensures !Contains(s, "a.m.") && !Contains(s, "p.m.")
  {
    forall k: nat | k + 4 <= |s|
      ensures !OccursAt(s, "a.m.", k) && !OccursAt(s, "p.m.", k)
    {
      assert s[k + 0] != "a.m."[0] && s[k + 0] != "p.m."[0];
    }
  }

  /** A 24-hour `hh:mm` reading becomes the 12-hour reading: midnight and noon show as 12. */
  lemma FormatTwentyFourHour(h: nat, m: nat)
    requires h < 24 && m < 60
    ensures FormatTime(Some(TwoDigits(h) + ":" + TwoDigits(m))) == Reading(h, m)
  {
    var s := TwoDigits(h) + ":" + TwoDigits(m);
    assert forall k :: 0 <= k < |s| ==> IsDigit(s[k]) || s[k] == ':';
    DigitsHaveNoMeridiem(s);
    assert s[3..5] == TwoDigits(m);
    assert ClockAt(s, 0) == Some(Clock(h, TwoDigits(m)));
  }

  /** One row of an hours table: the day, the text shown, and whether it is styled as closed. */
  datatype HoursRow = HoursRow(day: string, time: string, closed: bool)

  /** Text that reads `Closed` contains `closed` once lower-cased. */
  lemma ClosedWordIsClosed(time: string)
    ensures time == "Closed" ==> Contains(Lower(time), "closed")
  {
    if time == "Closed" {
      assert Lower(time) == "closed";
      assert OccursAt(Lower(time), "closed", 0);
      ContainsAt(Lower(time), "closed", 0);
    }
  }

  /**
   * One `Day: Time` entry of an hours string, if its first colon is not its first character:
   * the day is the trimmed text before that colon, and the time is the trimmed text after it,
   * shown as `Closed` when it contains `closed` in any letter case.
   */
  function StringHoursRow(entry: string): (r: Option<HoursRow>)
    ensures r.Some? <==> IndexOfChar(entry, ':').Some? && IndexOfChar(entry, ':').value > 0
    ensures r.Some? ==> (r.value.closed <==> r.value.time == "Closed")
  {
    match IndexOfChar(entry, ':')
    case Some(colon) =>
      if colon > 0 then
        var time := Trim(entry[colon + 1..]);
        var closed := Contains(Lower(time), "closed");
        ClosedWordIsClosed(time);
        Some(HoursRow(Trim(entry[..colon]), if closed then "Closed" else time, closed))
      else None
    case None => None
  }

  /**
   * An entry whose first colon sits at `c > 0` yields the row of the trimmed day before it and
   * the trimmed time after it, and an entry whose first character is its first colon yields none.
   */
  lemma StringHoursRowAt(entry: string, c: nat)
    requires c < |entry| && entry[c] == ':' && ':' !in entry[..c]
    ensures c == 0 ==> StringHoursRow(entry).None?
    ensures c > 0 ==> StringHoursRow(entry).Some? && StringHoursRow(entry).value.day == Trim(entry[..c])
    ensures c > 0 ==> StringHoursRow(entry).value.closed == Contains(Lower(Trim(entry[c + 1..])), "closed")
    ensures c > 0 && !Contains(Lower(Trim(entry[c + 1..])), "closed") ==> StringHoursRow(entry).value.time == Trim(entry[c + 1..])
  {
    FirstIndexUnique(entry, ':', c);
  }

  /** What one entry of the split string contributes once trimmed: its row, or nothing. */
  function EntryRows(entry: string): (r: seq<HoursRow>)
    ensures |r| <= 1
    ensures |r| == 0 <==> StringHoursRow(Trim(entry)).None?
    ensures forall row :: row in r <==> StringHoursRow(Trim(entry)) == Some(row)
    ensures forall k :: 0 <= k < |r| ==> (r[k].closed <==> r[k].time == "Closed")
  {
    var row := StringHoursRow(Trim(entry));
    if row.Some? then [row.value] else []
  }

  function StringHoursRows(entries: seq<string>): (r: seq<HoursRow>)
    ensures |r| <= |entries|
    ensures forall k :: 0 <= k < |r| ==> (r[k].closed <==> r[k].time == "Closed")
  {
    if |entries| == 0 then [] else EntryRows(entries[0]) + StringHoursRows(entries[1..])
  }

  /** An hours table, or the `'N/A'` text. */
  datatype HoursTable = NotAvailable | Rows(rows: seq<HoursRow>)

  /**
   * `parseStringHours`: missing, empty or `'N/A'` input, or input with no usable entry, gives
   * `'N/A'`; otherwise one row per comma-separated entry that has a colon after its first
   * character.
   */
  function ParseStringHours(hours: Option<string>): (r: HoursTable)
    ensures hours.None? || hours.value == "" || hours.value == "N/A" ==> r.NotAvailable?
    ensures r.Rows? ==> 0 < |r.rows| <= |Split(hours.value, ',')|
    ensures r.Rows? ==> forall k :: 0 <= k < |r.rows| ==> (r.rows[k].closed <==> r.rows[k].time == "Closed")
    ensures r.Rows? ==> r.rows == StringHoursRows(Split(hours.value, ','))
    ensures r.NotAvailable? <==> (hours.None? || hours.value == "" || hours.value == "N/A"
      || forall j :: 0 <= j < |Split(hours.value, ',')| ==> StringHoursRow(Trim(Split(hours.value, ',')[j])).None?)
  {
    if hours.None? || hours.value == "" || hours.value == "N/A" then NotAvailable
    else
      var rows := StringHoursRows(Split(hours.value, ','));
      StringHoursRowsEmpty(Split(hours.value, ','));
      if |rows| == 0 then NotAvailable else Rows(rows)
  }

  /** The rows are `flatMap` of `EntryRows` over the entries. */
  lemma {:induction false} StringHoursRowsFlat(entries: seq<string>)
    ensures StringHoursRows(entries) == ConcatMap(EntryRows, entries)
  {
    if |entries| > 0 {
      StringHoursRowsFlat(entries[1..]);
    }
  }

  /** No row at all exactly when no entry yields one. */
  lemma StringHoursRowsEmpty(entries: seq<string>)
    ensures |StringHoursRows(entries)| == 0 <==> forall j :: 0 <= j < |entries| ==> StringHoursRow(Trim(entries[j])).None?
  {
    StringHoursRowsFlat(entries);
    ConcatMapEmpty(EntryRows, entries);
  }

  /** The rows of a concatenation of entry lists are the rows of each, in order. */
  lemma StringHoursRowsAppend(a: seq<string>, b: seq<string>)
    ensures StringHoursRows(a + b) == StringHoursRows(a) + StringHoursRows(b)
  {
    StringHoursRowsFlat(a + b);
    StringHoursRowsFlat(a);
    StringHoursRowsFlat(b);
    ConcatMapAppend(EntryRows, a, b);
  }

  /** A row is listed exactly when some entry, trimmed, yields it. */
  lemma StringHoursRowsExact(entries: seq<string>, row: HoursRow)
    ensures row in StringHoursRows(entries) <==> exists j :: 0 <= j < |entries| && StringHoursRow(Trim(entries[j])) == Some(row)
  {
    StringHoursRowsFlat(entries);
    ConcatMapExact(EntryRows, entries, row);
  }

  /** An entry without a colon contributes nothing. */
  lemma NoColonNoRow(entry: string)
    requires ':' !in entry
    ensures StringHoursRow(entry).None?
  {
  }

  const DayNames: seq<string> := ["Sunday", "Monday", "Tuesday", "Wednesday", "Thursday", "Friday", "Saturday"]

  /** `days[index] || 'Day index+1'`. */
  function DayName(index: nat): (r: string)
    ensures index < 7 ==> r == DayNames[index]
    ensures index >= 7 ==> r == "Day " + NatToString(index + 1)
  {
    if index < |DayNames| then DayNames[index] else "Day " + NatToString(index + 1)
  }

  /** The `open–close` text of one day's pair, or `Closed`. */
  function DaySpan(dayHours: Option<seq<Option<string>>>): (r: string)
    ensures r != "Closed" <==> (dayHours.Some? && |dayHours.value| >= 2 && dayHours.value[0].Some? && dayHours.value[1].Some?
      && FormatTime(dayHours.value[0]) != "N/A" && FormatTime(dayHours.value[1]) != "N/A")
    ensures r != "Closed" ==> (dayHours.Some? && |dayHours.value| >= 2
      && r == FormatTime(dayHours.value[0]) + "–" + FormatTime(dayHours.value[1]))
  {
    if dayHours.Some? && |dayHours.value| >= 2 && dayHours.value[0].Some? && dayHours.value[1].Some?
      && FormatTime(dayHours.value[0]) != "N/A" && FormatTime(dayHours.value[1]) != "N/A"
    then
      var span := FormatTime(dayHours.value[0]) + "–" + FormatTime(dayHours.value[1]);
      assert span != "Closed" by {
        if |FormatTime(dayHours.value[0])| <= 6 {
          assert span[|FormatTime(dayHours.value[0])|] == '–';
        } else {
          assert |span| > 6;
        }
      }
      span
    else "Closed"
  }

  /** The twelve-hour reading `formatTime` gives for `HH:MM`. */
  function Reading(h: nat, m: nat): string
    requires m < 60
  {
    NatToString(TwelveHour(h)) + ":" + TwoDigits(m) + " " + (if h >= 12 then "p.m." else "a.m.")
  }

  /** Two times that both format to something other than `N/A` are shown joined by `–`. */
  lemma DaySpanOpen(a: string, b: string)
    requires FormatTime(Some(a)) != "N/A" && FormatTime(Some(b)) != "N/A"
    ensures DaySpan(Some([Some(a), Some(b)])) == FormatTime(Some(a)) + "–" + FormatTime(Some(b))
  {
  }

  /** A day open from `h1:m1` to `h2:m2` (24-hour `HH:MM` text) shows both twelve-hour readings joined by `–`. */
  lemma DaySpanTwentyFourHour(h1: nat, m1: nat, h2: nat, m2: nat)
    requires h1 < 24 && m1 < 60 && h2 < 24 && m2 < 60
    ensures DaySpan(Some([Some(TwoDigits(h1) + ":" + TwoDigits(m1)), Some(TwoDigits(h2) + ":" + TwoDigits(m2))]))
      == Reading(h1, m1) + "–" + Reading(h2, m2)
  {
    FormatTwentyFourHour(h1, m1);
    FormatTwentyFourHour(h2, m2);
    ReadingNotNA(h1, m1);
    ReadingNotNA(h2, m2);
    DaySpanOpen(TwoDigits(h1) + ":" + TwoDigits(m1), TwoDigits(h2) + ":" + TwoDigits(m2));
  }

  lemma ReadingNotNA(h: nat, m: nat)
    requires m < 60
    ensures Reading(h, m) != "N/A"
  {
    assert |Reading(h, m)| > 3;
  }

  /** The hours value of a place: missing/falsy, a string, an array of day pairs (a missing day is `None`), or something else. */
  datatype HoursData = NoHours | HoursText(text: string) | HoursList(days: seq<Option<seq<Option<string>>>>) | OtherHours

  /** The row of the day at `index`: its label and span, styled as closed when the span is `Closed`. */
  function DayRow(index: nat, dayHours: Option<seq<Option<string>>>): (r: HoursRow)
    ensures r.day == DayName(index) && r.time == DaySpan(dayHours)
    ensures r.closed <==> r.time == "Closed"
  {
    var span := DaySpan(dayHours);
    HoursRow(DayName(index), span, span == "Closed")
  }

  /**
   * `formatOpeningHours`: a string goes through `parseStringHours`; an array gives one row
   * per entry, labelled Sunday to Saturday and then `Day n`; anything else is `'N/A'`.
   */
  function FormatOpeningHours(data: HoursData): (r: HoursTable)
    ensures data.NoHours? || data.OtherHours? || data == HoursText("N/A") ==> r.NotAvailable?
    ensures data.HoursText? ==> r == ParseStringHours(Some(data.text))
    ensures data.HoursList? ==> (r.Rows? <==> |data.days| > 0)
    ensures data.HoursList? && r.Rows? ==> (|r.rows| == |data.days|
      && forall i :: 0 <= i < |data.days| ==> r.rows[i] == DayRow(i, data.days[i]))
  {
    match data
    case NoHours => NotAvailable
    case OtherHours => NotAvailable
    case HoursText(text) => if text == "N/A" then NotAvailable else ParseStringHours(Some(text))
    case HoursList(days) =>
      if |days| == 0 then NotAvailable else Rows(seq(|days|, i requires 0 <= i < |days| => DayRow(i, days[i])))
  }

  /** The rating as the panel receives it: a number, or a value `Math.floor` turns into NaN. */
  datatype Rating = RatingNumber(value: real) | NotANumber

  /**
   * The star string: `floor(r)` filled stars and `5 - floor(r)` empty ones. `repeat` with a
   * negative count throws, which is `None` here; a NaN count repeats nothing.
   */
  function Stars(rating: Rating): (r: Option<string>)
    ensures rating.NotANumber? ==> r == Some("")
    ensures rating.RatingNumber? ==> (r.Some? <==> 0.0 <= rating.value < 6.0)
    ensures rating.RatingNumber? && r.Some? ==> (|r.value| == 5
      && forall k :: 0 <= k < 5 ==> (r.value[k] == '★' <==> k < rating.value.Floor))
  {
    match rating
    case NotANumber => Some("")
    case RatingNumber(v) =>
      var filled := v.Floor;
      if filled < 0 || 5 - filled < 0 then None
      else Some(Repeat('★', filled) + Repeat('☆', 5 - filled))
  }

  function Repeat(c: char, n: nat): (r: string)
    ensures |r| == n && forall k :: 0 <= k < n ==> r[k] == c
  {
    if n == 0 then "" else [c] + Repeat(c, n - 1)
  }

  /** Links longer than 35 characters are shown as their first 35 characters and `...`. */
  function DisplayUrl(website: string): (r: string)
    ensures |website| <= 35 ==> r == website
    ensures |website| > 35 ==> |r| == 38 && r[..35] == website[..35] && r[35..] == "..."
  {
    if |website| > 35 then website[..35] + "..." else website
  }

  const RestaurantKeywords: seq<string> := ["restaurant", "food", "meal", "dining", "cafe", "bar"]

  predicate MentionsFood(category: string)
  {
    exists k :: 0 <= k < |RestaurantKeywords| && Contains(Lower(category), RestaurantKeywords[k])
  }

  function AnyKeyword(category: string, from: nat): (r: bool)
    requires from <= |RestaurantKeywords|
    ensures r <==> exists k :: from <= k < |RestaurantKeywords| && Contains(Lower(category), RestaurantKeywords[k])
    decreases |RestaurantKeywords| - from
  {
    if from == |RestaurantKeywords| then false
    else Contains(Lower(category), RestaurantKeywords[from]) || AnyKeyword(category, from + 1)
  }

  function AnyCategory(categories: seq<string>): (r: bool)
    ensures r <==> exists i :: 0 <= i < |categories| && MentionsFood(categories[i])
  {
    if |categories| == 0 then false
    else
      var rest := AnyCategory(categories[1..]);
      assert forall i :: 1 <= i < |categories| ==> categories[i] == categories[1..][i - 1];
      AnyKeyword(categories[0], 0) || rest
  }

  /** `isRestaurant`: some category, lower-cased, contains one of the six keywords; false without a list. */
  function IsRestaurant(categories: Option<seq<string>>): (r: bool)
    ensures categories.None? ==> !r
    ensures categories.Some? ==> (r <==> exists i :: 0 <= i < |categories.value| && MentionsFood(categories.value[i]))
  {
    categories.Some? && AnyCategory(categories.value)
  }
}
