# Local pack explorer: a Dafny model of the extension's core logic

This project models the deterministic logic under the local-pack-explorer Chrome extension:

- the background service worker that keeps a browser-wide `x-geo` header in step with the
  chosen location;
- the popup's coordinate parser, settings merge, search history and saved-location list;
- the place panel on Google Maps: place-id extraction, its data cache, time and
  opening-hours formatting, and restaurant detection;
- the numbering of Maps cards and of Google search results;
- the clipboard watcher that picks up copied GPS coordinates;
- the GTrack coordinate-text parser;
- the feedback prompt's eligibility rules.

Chrome and DOM effects become returned values: rule updates, icon and title changes, panels
shown, badges on cards or headings. Clocks, focus and the current page enter as plain
parameters. Each module follows one source file or one component of a file:

| module | models |
|---|---|
| `Wrappers` | the `Option` type used for `null` and missing values |
| `Text` | whitespace trimming, ASCII lower-casing, substring search, `split` and `indexOf` |
| `Numerals` | integer-to-text and the JavaScript `parseFloat` prefix parser on `[-0-9.]` tokens |
| `Base64` | `btoa` (section 4 of RFC 4648, with `=` padding) and a decoder for its output |
| `Scan` | the building blocks the coordinate regular expressions are modelled with |
| `GeoRules` | the `x-geo` header value and the declarative rule set that sets it |
| `GeoSync` | `applyGeolocation` as a guarded state machine, the suspend reset and the hotkey toggle |
| `PlaceRequests` | the place-request dedup window, `getNestedValue`, services and opening-hours extraction |
| `PlaceTracker` | place-id extraction, navigation and cache, `formatTime`, hours formatting, stars, URLs, restaurant detection |
| `MapsCounter` | regular and sponsored card numbering with its 20-card cap and counter resets |
| `MapsClipboard` | the GPS text parser and the clipboard poller's decision procedure |
| `Popup` | search history, settings merge, tooltip refresh, saved locations, ordering and chip styles |
| `PopupCoords` | the popup's `extractCoordinates` |
| `SerpCounter` | query-string lookup, search type, organic and ad numbering, and the numbering switch |
| `GtrackCoordinates` | `extractCoordinatesFromText` as written, and as evidently intended |
| `Feedback` | the feedback record, eligibility, and a run of events over the prompt |

Regular expressions become explicit scanners. A greedy JavaScript regex backtracks, so for
each pattern the comments say which maximal-run choice the scanner makes and why it picks the
same match. The one exception is the fourth GTrack pattern, where the shorter first group
matters (see Findings).

Where the code and its written description disagree, the model follows the code:

- The first enabled `applyGeolocation` after start-up or suspend throws at background.js:217,
  because `currentSettings` is still `null` when its `tooltip` is read. So the header cache is
  updated but the settings cache stays `null`. The next call therefore re-runs the enabled
  branch, which skips the rule update because the header is unchanged.
- `updateRulesWithRetry` returns the update promise without awaiting it, so its retry branch
  can never run. Exactly one rule update is attempted, and a failure reaches the caller.
- Every rule replacement removes ids 1 to 5, although only ids 1 to 4 are ever added.
- Saving a location whose coordinates and name both match an existing entry reports it as
  already saved. The timestamp is refreshed only on the in-memory copy, which is never
  written back, so the stored list is left as it was.

## Model

| member | source | states |
|---|---|---|
| Base64.Btoa | background.js:130-135 | `btoa` succeeds exactly when every character is below 256 |
| Base64.Encode | background.js:130-135 | the encoding has 4 characters for every started group of 3 input characters |
| Base64.SextetRoundTrip | background.js:130-135 | each of the 64 alphabet characters decodes back to its 6-bit value |
| Base64.GroupRoundTrip | background.js:130-135 | a full 3-byte group decodes back to the same three bytes |
| Base64.Tail1RoundTrip | background.js:130-135 | a one-byte tail with `==` padding decodes back to that byte |
| Base64.Tail2RoundTrip | background.js:130-135 | a two-byte tail with `=` padding decodes back to those bytes |
| Base64.DecodeEncode | background.js:130-135 | decoding the encoding of any Latin-1 text gives that text back |
| Numerals.IntToString | background.js:130-135 | decimal text of an integer: digits only, with a leading `-` exactly for negatives |
| Numerals.NatToStringRoundTrip | background.js:130-135 | the digits written for a natural number have that number as their value |
| Numerals.DigitRun | popup.js:124-126 | the longest all-digit prefix: it ends at the text's end or at a non-digit |
| Numerals.ParseFloatIntToString | popup.js:124-126 | `parseFloat` of an integer's decimal text is that integer |
| Numerals.ParseFloatPointZero | maps_counter.js:504-532 | `parseFloat` of an integer's text followed by `.0` is that integer |
| Numerals.ParseUnsignedWithFraction | popup.js:124-126 | digits, a point and fraction digits parse to the whole part plus the fraction's value |
| Text.Trim | serp_counter.js:84 | the trimmed text starts and ends with a non-space and is the input minus its leading and trailing whitespace; it is empty only for all-space input |
| Text.Lower | serp_counter.js:84 | same length as the input, each character lower-cased |
| Text.Find | serp_counter.js:12-17 | the first position at or after `from` where the pattern occurs, or none if it never does |
| Text.IndexOfChar | place_tracker.js:526 | the first index of the character, or none exactly when it is absent |
| Text.FirstIndexUnique | place_tracker.js:526 | a position holding the character with none before it is what `indexOf` reports |
| Text.Split | place_tracker.js:521 | `split(',')` gives at least one part and no part contains the separator |
| Text.SplitJoin | place_tracker.js:521 | joining the parts of a split with the separator gives the original text |
| Scan.FirstMatch | popup.js:121-135 | a regex match is the leftmost position where the pattern matches, and one exists exactly when some position matches |
| Scan.AcceptInRange | gtrack_coordinates.js:20-31 | a pair is accepted exactly when both numbers parse, latitude lies in [-90, 90] and longitude in [-180, 180]; the result carries the parsed values |
| Scan.FirstAccepted | gtrack_coordinates.js:18-36 | the result is the accepted value of the first pattern whose match is accepted, every earlier pattern having missed or been rejected; none exactly when every pattern misses or is rejected |
| Scan.FirstAcceptedSkipsMisses | gtrack_coordinates.js:18-33 | patterns that did not match do not change which result wins |
| Scan.CommaPairTight | popup.js:109-118 | two numbers joined by a comma with no spaces are captured whole, ending at the second number |
| GeoRules.E7 | background.js:130-135 | the e7 value is the floor of the coordinate times 10^7 |
| GeoRules.TemplateIsLatin1 | background.js:130-135 | the header template is Latin-1 for any e7 values and radius, so `btoa` cannot fail on it |
| GeoRules.CreateXgeoHeader | background.js:130-135 | the header starts with `a ` and the rest decodes to the template with floor-e7 coordinates and the radius, 6400 by default |
| GeoRules.CreateRules | background.js:138-152 | four rules: the first three, ids 1 to 3, set `x-geo` to the given header; the fourth, id 4, is the allow rule (CreateRulesShape states the rest) |
| GeoRules.CreateRulesShape | background.js:65-152 | exactly four rules with ids 1 to 4: the header rules set `x-geo` to the header, and the allow rule for the auth URL outranks every header rule |
| GeoSync.TitleFor | background.js:212-214 | the tooltip names the location when there is one, otherwise the coordinates |
| GeoSync.Begin | background.js:181-207 | a busy call is dropped and an unchanged target is skipped; otherwise the call marks itself busy, always clears the rules when disabled, and replaces them when enabled only if the header differs from the cached one |
| GeoSync.Finish | background.js:198-237 | busy is cleared on every exit; a failed update leaves the caches alone and has no effects; success updates the caches, icon and title as each branch says |
| GeoSync.Apply | background.js:181-238 | at most one rule update per call, always removing ids 1 to 5 |
| GeoSync.ApplyWhileBusy | background.js:183-185 | a call made while another runs changes nothing and issues nothing |
| GeoSync.InFlightExclusion | background.js:183-195 | once a call has started, any other call is dropped until it finishes |
| GeoSync.ProcessingCleared | background.js:233-237 | `isProcessing` is false after every exit path |
| GeoSync.UnchangedTargetIsNoop | background.js:188-193 | equal `enabled`, latitude and longitude make the call a no-op, whatever the radius or location |
| GeoSync.EnabledUpdatesOnlyOnNewHeader | background.js:198-208 | enabled: a replacement with the new rules is issued exactly when the header changed, and the cached header is the new one after success |
| GeoSync.DisabledClears | background.js:218-227 | disabled: the rules are always removed with nothing added, and the cached header becomes null |
| GeoSync.FailureKeepsCache | background.js:198-237 | a failed update leaves the state exactly as it was, so the same settings run again next time |
| GeoSync.EnabledFromEmptyCache | background.js:198-231 | with no cached settings, an enabled call leaves the settings cache null |
| GeoSync.ApplyTwice | background.js:181-238 | after a successful call, the same settings again change nothing and issue no update |
| GeoSync.Suspend | background.js:483-489 | suspend clears both caches |
| GeoSync.SuspendForcesReapply | background.js:483-489 | after suspend, the next call runs and issues exactly one rule update |
| GeoSync.HotkeyToggle | background.js:392-411 | with the hotkey enabled the stored `enabled` flag flips and nothing else changes; otherwise nothing is written |
| GeoSync.HotkeyToggleTwice | background.js:392-407 | toggling twice restores the stored settings |
| PlaceRequests.OnCompleted | background.js:511-531 | non-place URLs and URLs ending `pf=t` are ignored; a URL seen within 2000 ms is a duplicate; only a processed URL has its time recorded |
| PlaceRequests.Purge | background.js:799-806 | exactly the entries at most 10000 ms old survive, with their times unchanged |
| PlaceRequests.RepeatWithinWindowSuppressed | background.js:518-531 | the same URL again within the window is a duplicate |
| PlaceRequests.PurgeKeepsDecision | background.js:799-806 | purging never changes the decision taken at the same moment |
| PlaceRequests.PurgedUrlProcessedAgain | background.js:799-806 | once purged, a place URL is processed again |
| PlaceRequests.GetNestedValue | background.js:572-574 | the empty path gives the object itself; any path from a falsy value gives null; one step from a truthy value gives the element, string character or object member the key names, and null when there is none |
| PlaceRequests.ObjectLookup | background.js:572-574 | an object met on the path is read by the key's decimal text, as `acc[6]` reads the member `"6"` |
| PlaceRequests.GetNestedValueAppend | background.js:572-574 | following `p` then `q` is the same as following `p + q` |
| PlaceRequests.OrNA | background.js:640-696 | the `|| "N/A"` fallback is always truthy and keeps any truthy value |
| PlaceRequests.ServiceNameOf | background.js:663-673 | a service's name is the string at `[0][0]` and is not blank |
| PlaceRequests.ServiceNamesExact | background.js:657-676 | a name is listed exactly when some service entry carries it |
| PlaceRequests.ServiceNamesNonBlank | background.js:671-672 | no listed name is blank |
| PlaceRequests.ServiceNamesNonEmpty | background.js:657-680 | the name list is non-empty exactly when some service entry is well-formed |
| PlaceRequests.Services | background.js:645-680 | the services are the names listed at the services path, and `N/A` exactly when that value is not an array or yields no name |
| PlaceRequests.ServicesFromEntries | background.js:645-680 | services are `N/A` exactly when no entry at the services path is well-formed; otherwise a name is listed exactly when some well-formed entry carries it |
| PlaceRequests.DayLabel | background.js:711 | a falsy day label becomes `Day i+1`; a non-empty string label is kept |
| PlaceRequests.DayLine | background.js:709-723 | a line exists exactly when the day entry qualifies; it is the label, `: ` and then the first opening time when that is truthy, the hours text when the hours are a string, and `Closed` otherwise |
| PlaceRequests.QualifyingDaysSpec | background.js:708-710 | the days that get a line are exactly the array entries among the first seven with at least two items, each once, in day order |
| PlaceRequests.DayLinesFollowQualifyingDays | background.js:708-724 | the lines correspond one-to-one, in order, to the qualifying days among the first seven |
| PlaceRequests.OpeningHours | background.js:696-729 | the hours are the day lines joined by `, `, and `N/A` exactly when the hours data is not an array with an array at `[1]` or no day among the first seven qualifies |
| PlaceRequests.LastUpdate | background.js:731-737 | the last update is the trimmed, non-empty string at `[9][0]` of the hours data, and `N/A` exactly when there is no non-blank string there |
| PlaceTracker.ChijAt | place_tracker.js:37-42 | a classic id starts with `ChIJ` and runs up to the first `/`, `?`, `&` or `!` or the end; one is found exactly when `ChIJ` is followed by at least one other character |
| PlaceTracker.ShortIdAt | place_tracker.js:45-50 | a short id keeps its `/g/` prefix and runs up to the first `/`, `?`, `&` or `!` or the end; one is found exactly when `/g/` is followed by at least one other character |
| PlaceTracker.EncodedIdAt | place_tracker.js:53-58 | an encoded id sits between `1s` and `:` and contains no `:` or `!` |
| PlaceTracker.EncodedIdFound | place_tracker.js:53-58 | `1s`, a non-empty run without `:` or `!`, and then `:` yields that run |
| PlaceTracker.PathIdAt | place_tracker.js:61-66 | a path id follows `place/` and runs up to the first `/`, `?` or `&` or the end; one is found exactly when `place/` is followed by at least one other character |
| PlaceTracker.ExtractPlaceIdFromURL | place_tracker.js:30-70 | the result is the hit of the first of the four patterns in order that matches, or null when none does |
| PlaceTracker.ClassicIdRoundTrip | place_tracker.js:37-42 | a URL starting with a classic id yields that id |
| PlaceTracker.CheckUrlChange | place_tracker.js:96-117 | an unchanged URL does nothing; a new place URL with a new id records it and schedules navigation; the cache is never touched |
| PlaceTracker.HandlePlaceNavigation | place_tracker.js:72-89 | the same id as last processed does nothing; otherwise the id is recorded and the panel is shown exactly when the cache holds it |
| PlaceTracker.OnPlaceData | place_tracker.js:700-714 | arriving data is cached under the current id, or under the id read from the page URL, and is shown in the panel whether or not it was cached; nothing else changes |
| PlaceTracker.CachedDataShownOnNavigation | place_tracker.js:83-86 | data cached for the current place is what navigation to it shows |
| PlaceTracker.NavigateTwice | place_tracker.js:75-80 | navigating to the same place twice shows nothing the second time |
| PlaceTracker.TwelveHour | place_tracker.js:622-623 | hour 0 becomes 12, hours 1 to 12 stay, hours above 12 lose 12 |
| PlaceTracker.FormatTime | place_tracker.js:607-629 | a missing or empty time is `N/A`; a time already marked `a.m.` or `p.m.` and one that is not a clock time come back unchanged |
| PlaceTracker.FormatTwentyFourHour | place_tracker.js:607-629 | `HH:MM` becomes the twelve-hour hour, the same minutes and `a.m.` before noon or `p.m.` from noon |
| PlaceTracker.TwoDigits | place_tracker.js:607-629 | a number below 100 written as two digits with that value |
| PlaceTracker.StringHoursRow | place_tracker.js:524-539 | an entry gives a row exactly when its first colon is past position 0; the row is closed exactly when its time reads `Closed` |
| PlaceTracker.StringHoursRowAt | place_tracker.js:526-533 | with the first colon at position c > 0, the day is the trimmed text before it, the row is closed exactly when the trimmed text after it contains `closed` in any case, and an open row shows that text |
| PlaceTracker.NoColonNoRow | place_tracker.js:526-527 | an entry without a colon is dropped |
| PlaceTracker.ParseStringHours | place_tracker.js:515-544 | `N/A` exactly when the input is missing, empty or `N/A`, or no comma-separated entry yields a row; otherwise the rows are those of the entries, at least one and no more than the entries |
| PlaceTracker.StringHoursRowsEmpty | place_tracker.js:524-543 | there is no row exactly when no trimmed entry yields one |
| PlaceTracker.StringHoursRowsExact | place_tracker.js:524-539 | a row is listed exactly when some trimmed entry yields it |
| PlaceTracker.StringHoursRowsAppend | place_tracker.js:524-539 | the rows of two runs of entries are the rows of the first followed by those of the second, so entry order is kept |
| PlaceTracker.DayName | place_tracker.js:573-597 | indices 0 to 6 are Sunday to Saturday and later ones are `Day i+1` |
| PlaceTracker.DaySpan | place_tracker.js:579-589 | a day is `Closed` unless both times are present and neither formats to `N/A`; otherwise it shows the opening time and the closing time, each formatted, joined by `–` |
| PlaceTracker.DaySpanOpen | place_tracker.js:582-589 | two times that both format to something other than `N/A` are shown as `open–close` |
| PlaceTracker.DaySpanTwentyFourHour | place_tracker.js:582-589 | a day open from one `HH:MM` time to another shows the two twelve-hour readings, with `a.m.`/`p.m.`, joined by `–` |
| PlaceTracker.DayRow | place_tracker.js:573-597 | a row has the day's name and span, and is closed exactly when the span reads `Closed` |
| PlaceTracker.FormatOpeningHours | place_tracker.js:559-604 | no hours or a non-list gives `N/A`; text goes to the string parser; a non-empty list gives one row per day, in order |
| PlaceTracker.Stars | place_tracker.js:231 | a rating in [0, 6) gives five stars of which the first floor(rating) are filled; NaN gives the empty string; other ratings make `repeat` throw |
| PlaceTracker.DisplayUrl | place_tracker.js:214-216 | a website of up to 35 characters is shown whole; a longer one shows its first 35 characters followed by `...` |
| PlaceTracker.AnyKeyword | place_tracker.js:547-556 | true exactly when the lower-cased category contains one of the keywords |
| PlaceTracker.IsRestaurant | place_tracker.js:547-556 | false for missing categories; otherwise true exactly when some category mentions a food keyword |
| MapsCounter.CardIdAt | maps_counter.js:70-78 | a card's id starts with `ChIJ`, consists of id characters and ends at `?` or the end of the link |
| MapsCounter.CardIdFound | maps_counter.js:70-78 | `ChIJ` followed by id characters up to `?` or the end of the link is read as that id |
| MapsCounter.GetPlaceId | maps_counter.js:70-78 | the id is the leftmost match in the link, or none when there is none |
| MapsCounter.GetPlaceIdAtEnd | maps_counter.js:70-78 | a link ending in a classic id, with no earlier id, yields that id |
| MapsCounter.IsSponsored | maps_counter.js:61-68 | a card is sponsored exactly when one of its texts reads as sponsored |
| MapsCounter.Pass | maps_counter.js:126-275 | a numbering pass keeps the card count and advances the counter by the eligible cards, up to the cap |
| MapsCounter.PassCards | maps_counter.js:126-275 | each card is marked with the counter plus the eligible cards before it, when eligible and within the cap |
| MapsCounter.NumberRegularResults | maps_counter.js:126-195 | nothing happens at 20 or more; otherwise the counter becomes min(last + eligible cards, 20) |
| MapsCounter.NumberMapsAds | maps_counter.js:197-275 | nothing happens when the regular counter is at 20 or more or there are no cards; otherwise the ad counter becomes min(last + eligible ads, 20) |
| MapsCounter.RegularCard | maps_counter.js:139-185 | an eligible card gets the next regular number when it is at most 20; every other card is unchanged |
| MapsCounter.AdCard | maps_counter.js:214-273 | an eligible sponsored card gets the next ad number and loses any regular badge; every other card is unchanged |
| MapsCounter.RegularBadgesInRange | maps_counter.js:154-157 | every newly numbered card's badge lies above the old counter and at most the new counter, which is at most 20 |
| MapsCounter.RegularExhausts | maps_counter.js:126-195 | after numbering, either the counter is at 20 or no eligible card is left |
| MapsCounter.StripBadges | maps_counter.js:278-301 | every card loses both its regular and its ad badge and is otherwise unchanged |
| MapsCounter.ContentRefreshedByCount | maps_counter.js:91-112 | content counts as refreshed exactly when there are cards and the tally of cards with neither a regular nor an ad badge equals the number of cards, that is, when no card carries a badge |
| MapsCounter.BadgelessCountFull | maps_counter.js:96-108 | the tally of cards without a badge reaches the number of cards exactly when no card carries a regular or ad badge |
| MapsCounter.ResetCounters | maps_counter.js:287-301 | a new query or refreshed content resets both counters to 0; otherwise the counters stay |
| MapsCounter.RunNumbering | maps_counter.js:278-301 | when disabled, no card keeps a badge and the counters are untouched; the counters stay within 20 |
| MapsCounter.AdPassKeepsUnsponsored | maps_counter.js:214-273 | the ad pass never changes an unsponsored card |
| MapsCounter.FirstRunCard | maps_counter.js:139-185 | from a fresh counter, the k-th eligible card is numbered k |
| MapsCounter.NewQueryRestarts | maps_counter.js:278-301 | a new query numbers from 1 again and the counter ends at min(eligible cards, 20) |
| MapsCounter.FullRegularBlocksAds | maps_counter.js:202 | once the regular counter reaches 20 no ad badge changes |
| MapsCounter.AdExhausts | maps_counter.js:214-273 | after the ad pass no card is eligible for an ad number, and none has become eligible for a regular one |
| MapsCounter.NumberingIdle | maps_counter.js:126-275 | with no eligible cards, both passes leave the cards unchanged |
| MapsCounter.ReachingLimitNumbers | maps_counter.js:154-157 | reaching the cap means some card carries a badge |
| MapsCounter.RunTwiceKeepsCards | maps_counter.js:278-301 | running the numbering again on the same query leaves the cards as they are |
| MapsClipboard.ExtractGPSCoordinates | maps_counter.js:504-531 | empty text or text over 100 characters gives none; any result is in range and comes from the leftmost match of two pointed numbers; with text of allowed length, none means that leftmost match is absent or out of range |
| MapsClipboard.GpsLeftmost | maps_counter.js:513-515 | the match found is the leftmost position where two pointed numbers match, and none means no position matches |
| MapsClipboard.GpsMatchAtStart | maps_counter.js:504-532 | a pair matched at the start of the text decides the result |
| MapsClipboard.GpsTextRoundTrip | maps_counter.js:504-532 | the text `a.0, b.0` of in-range integers gives back (a, b) |
| MapsClipboard.CheckClipboard | maps_counter.js:593-689 | unfocused, empty or unchanged text does nothing; other text is recorded; coordinates are applied exactly when every skip rule passes and the pair is not the last one applied |
| MapsClipboard.MarkReady | maps_counter.js:710-713 | monitoring becomes ready; the last text, last pair and start-up flag are kept |
| MapsClipboard.StopMonitoring | maps_counter.js:720-728 | monitoring stops being ready; the last text, last pair and start-up flag are kept |
| MapsClipboard.ForgetCoordinates | maps_counter.js:674-677 | the timer forgets the last applied pair |
| MapsClipboard.CheckClipboardTwice | maps_counter.js:614-616 | reading the same clipboard text twice does nothing the second time |
| MapsClipboard.FirstReadingOnlyRecorded | maps_counter.js:618-624 | the first reading after start-up is only recorded |
| MapsClipboard.AppliedPairNotRepeated | maps_counter.js:657-663 | text giving the pair just applied is not applied again |
| MapsClipboard.NotReadyRecordsOnly | maps_counter.js:626-631 | a reading before monitoring is ready is only recorded, and is not applied once ready either |
| Popup.RemoveAll | popup.js:816 | every occurrence of the item is removed; the rest keep their counts and order |
| Popup.AddToSearchHistory | popup.js:809-822 | an empty location changes nothing; otherwise the new history starts with the location, holds it once, has at most 5 entries and continues with the earlier entries in order |
| Popup.AddToSearchHistoryTwice | popup.js:816-822 | adding the same location twice in a row is the same as adding it once |
| Popup.DeleteFromSearchHistory | popup.js:1021-1040 | every occurrence of the item is removed and the order of the rest is kept |
| Popup.DeleteAbsent | popup.js:1021-1040 | deleting an item that is not there changes nothing |
| Popup.MergeSettings | popup.js:709-719 | each field comes from the update when present, otherwise from the stored record or the defaults |
| Popup.MergeNothing | popup.js:709-719 | an empty update gives back the stored record, or the defaults |
| Popup.MergeIdempotent | popup.js:709-719 | applying the same update twice is the same as applying it once |
| Popup.PopupRecordsUseDefaultRadius | popup.js:711-716 | a record saved without a radius falls back to 6400 m when the header is built |
| Popup.TooltipRefresh | popup.js:725-739 | the tooltip is refreshed exactly when the update names a location or a non-zero coordinate, and then shows the merged settings |
| Popup.ToggleKeepsTooltip | popup.js:725-739 | an update carrying only the on/off switch leaves the tooltip alone |
| Popup.FindByCoordinates | popup.js:1077-1080 | the first saved entry within 10^-6 on both coordinates, or none when there is none |
| Popup.FindByName | popup.js:1083 | the first saved entry with the same name, or none when there is none |
| Popup.CheckAndSaveLocation | popup.js:1072-1148 | a coordinate match is checked first: the same name means already saved, a different name saves only when confirmed; otherwise a name match is replaced in place, and a new location is appended |
| Popup.SaveKeepsOthers | popup.js:1072-1148 | saving adds at most one entry, contains the new entry and keeps every entry with another name |
| Popup.SaveTwice | popup.js:1072-1148 | saving the same new location twice reports it as already saved the second time |
| Popup.Insert | popup.js:1183-1187 | inserting into a newest-first list keeps it newest-first and adds exactly that entry |
| Popup.SortByRecency | popup.js:1183-1187 | the sorted list is newest-first (a missing timestamp counts as 0) and a permutation of the input |
| Popup.SortByRecencyStable | popup.js:1183-1187 | entries with the same timestamp keep their relative order |
| Popup.ChipStyleFor | popup.js:1207-1223 | a chip is active exactly when both fields match its coordinates; otherwise it is highlighted exactly when the trimmed, lower-cased search equals its lower-cased name |
| Popup.ChipIgnoresCase | popup.js:1213-1216 | the chip style does not depend on the case of the search text |
| Popup.EmptyFieldsMeanOrigin | popup.js:1208-1211 | empty coordinate fields read as 0, so a chip at (0, 0) is active |
| PopupCoords.Clean | popup.js:106 | every label character becomes a space and every other character is kept |
| PopupCoords.Accept | popup.js:122-133 | a pair is accepted exactly when the latitude parses within [-90, 90] and the longitude parses |
| PopupCoords.ExtractCoordinates | popup.js:101-135 | missing input or input shorter than 3 gives none; otherwise the result is the accepted value of the first of the three patterns whose match is accepted, after earlier patterns missed or were rejected, and none exactly when all three miss or are rejected |
| PopupCoords.IntegerPairMatch | popup.js:111 | `a,b` for integers matches the whole-text pattern with a and b as its groups |
| PopupCoords.IntegerPairRoundTrip | popup.js:101-135 | `a,b` with latitude a in [-90, 90] gives back (a, b) |
| SerpCounter.Unescape | serp_counter.js:12-17 | text without `%` is unchanged and unescaping never lengthens text |
| SerpCounter.GetQueryString | serp_counter.js:12-17 | the query after `?` gives none exactly when `name=` occurs neither at its start nor right after an `&`; otherwise the value is the unescaped text after the leftmost such occurrence, up to the next `&` |
| SerpCounter.LeftmostParameterWins | serp_counter.js:12-17 | the leftmost occurrence of the parameter decides the value, whatever follows it |
| SerpCounter.FirstParameterFound | serp_counter.js:12-17 | the first parameter's value runs up to the next `&` |
| SerpCounter.AbsentParameter | serp_counter.js:12-17 | a query without `name=` gives none |
| SerpCounter.GetCurrentSearchType | serp_counter.js:26-35 | the search type is Images exactly when `udm` is `2` |
| SerpCounter.ReadHeading | serp_counter.js:84 | a heading's text is compared trimmed and lower-cased |
| SerpCounter.PaddedMapIsNavigation | serp_counter.js:84-90 | a padded, capitalised `Map` heading is skipped |
| SerpCounter.MapsIsNotNavigation | serp_counter.js:87-90 | only the exact words are skipped: `Maps` is numbered |
| SerpCounter.NumberOrganicResults | serp_counter.js:69-108 | navigation headings get no number; every other heading gets one more than the headings numbered before it; texts are unchanged |
| SerpCounter.NumberFromBadge | serp_counter.js:81-104 | each heading's badge is the one the running counter assigns at its position |
| SerpCounter.NumberOrganicTwice | serp_counter.js:69-104 | numbering twice gives the same headings as numbering once |
| SerpCounter.OrganicNumbersConsecutive | serp_counter.js:81-95 | numbers grow strictly down the page and never exceed the count of numbered headings |
| SerpCounter.OrganicNumbersNoGaps | serp_counter.js:81-95 | every number from 1 to the count of numbered headings is used |
| SerpCounter.NumberGoogleAds | serp_counter.js:111-141 | an ad gets a badge exactly when it has sponsored text, and the badge is its 1-based position among ad headings |
| SerpCounter.RenderCounterHtml | serp_counter.js:37-66 | off the search page, when disabled or for Images searches nothing changes; otherwise both numberings run |
| SerpCounter.RemoveAllCounters | serp_counter.js:198-199 | every organic and ad badge is removed and nothing else changes |
| SerpCounter.OnNumberingSettingChanged | serp_counter.js:187-200 | switching off removes every badge; switching on renders the numbering |
| SerpCounter.OffThenOn | serp_counter.js:187-200 | off then on is the same as rendering once, or as removing every badge where the page is not numbered |
| SerpCounter.ImagesNeverNumbered | serp_counter.js:26-58 | an Images search is never numbered |
| GtrackCoordinates.LabelledAt | gtrack_coordinates.js:9-11 | a labelled match starts at `Latitude:` and captures two non-empty number runs |
| GtrackCoordinates.LabelledFound | gtrack_coordinates.js:9-11 | `Latitude:`, spaces, a number run, spaces, `Longitude:`, spaces and a number run ending the number is matched by the first and second patterns with those two runs |
| GtrackCoordinates.LooseAt | gtrack_coordinates.js:13 | a loose match starts at `Latitude:` and captures two non-empty number runs |
| GtrackCoordinates.LooseFound | gtrack_coordinates.js:13 | `Latitude:`, filler without digits, a number run, a same-line gap without `L`, `Longitude:`, filler and a number run is matched by the third pattern with those two runs |
| GtrackCoordinates.AnyTwoAt | gtrack_coordinates.js:15 | the corrected fourth pattern captures two separate maximal number runs |
| GtrackCoordinates.Match | gtrack_coordinates.js:19 | a pattern matches at the leftmost position where it can, and a match at the start wins |
| GtrackCoordinates.ExtractWith | gtrack_coordinates.js:18-36 | the result is the accepted value of the first pattern whose match is accepted, after every earlier pattern missed or was rejected; none exactly when every pattern misses or is rejected |
| GtrackCoordinates.ExtractCoordinatesFromTextAsWritten | gtrack_coordinates.js:2-37 | the result is in range and comes from the first of the four patterns, as written, whose match is accepted; none exactly when all four miss or are rejected |
| GtrackCoordinates.ExtractCoordinatesFromText | gtrack_coordinates.js:2-37 | the result is in range and comes from the first of the four patterns, with the corrected fourth, whose match is accepted; none exactly when all four miss or are rejected |
| GtrackCoordinates.GapRunsAgree | gtrack_coordinates.js:9-11 | the second pattern's `[\s\n]*` gap is the same run as the first pattern's `\s*` |
| GtrackCoordinates.PanelTextRoundTrip | gtrack_coordinates.js:8-9 | `Latitude: a Longitude: b` with in-range integers gives (a, b), both as written and corrected |
| GtrackCoordinates.PanelTextRead | gtrack_coordinates.js:8-33 | `Latitude: x Longitude: y` with two number runs whose values are in range gives those values, both as written and corrected |
| GtrackCoordinates.FirstPatternWins | gtrack_coordinates.js:18-33 | an accepted match of the first pattern is the result |
| GtrackCoordinates.LoneNumberSplitAsWritten | gtrack_coordinates.js:15 | as written, the lone number `45` is split into the pair (4, 5) |
| GtrackCoordinates.LoneNumberRejected | gtrack_coordinates.js:15 | corrected, text made only of number characters gives none |
| GtrackCoordinates.NoPatternInNumberRun | gtrack_coordinates.js:9-15 | no pattern other than the as-written fourth one matches inside a bare number run |
| Feedback.ShowFeedbackPopup | feedback_system.js:106-119 | nothing when the prompt is open; otherwise it opens, the show count rises by one and the last-shown time is now |
| Feedback.CheckFeedbackEligibility | feedback_system.js:83-104 | the prompt is shown exactly when there is no answer, fewer than 3 shows, none in the last 7 days, at least 5 uses and no open prompt |
| Feedback.IncrementUsageCount | feedback_system.js:74-81 | usage rises by exactly one, the last active date is now and the answer is kept |
| Feedback.HandleFeedbackSelection | feedback_system.js:393-396 | the answer is recorded and nothing else in the record changes |
| Feedback.ClearFeedbackRecord | feedback_system.js:504-508 | only the answer is cleared |
| Feedback.ClosePopup | feedback_system.js:457-465 | the prompt closes and the record is unchanged |
| Feedback.LoadFeedbackData | feedback_system.js:29-38 | each stored field overrides the current one and absent fields keep it |
| Feedback.LoadEmptyKeepsDefaults | feedback_system.js:29-38 | an empty stored record keeps the defaults |
| Feedback.RunCountsShows | feedback_system.js:90-113 | over any run of events, the show count rises by exactly the prompts shown and never passes 3 |
| Feedback.ShownAtMostThreeTimes | feedback_system.js:90-113 | from the defaults, the prompt is shown at most 3 times in any run |
| Feedback.AnswerSilences | feedback_system.js:85-87 | once answered, the prompt is never shown until the answer is cleared |
| Feedback.SelectThenClear | feedback_system.js:504-508 | an answer blocks the prompt; clearing it restores eligibility exactly when the other guards pass |
| Feedback.ShownBlocksForAWeek | feedback_system.js:95-98 | a shown prompt is not offered again within seven days |
| Feedback.FewUsesNoPrompt | feedback_system.js:101-103 | below 5 uses the prompt is never shown |

## Left out

- Chrome APIs are not modelled as APIs: storage, `declarativeNetRequest`, tabs, context menus,
  notifications, the icon and the title. Their effects are returned as values.
- DOM construction, HTML templates, CSS, observers and timers are left out. Time is an integer
  `now` parameter, and a timer firing is its own operation, as in `MapsClipboard.ForgetCoordinates`.
- The network fetches are left out: the place-endpoint request and the popup's suggestion
  search. Only the extraction from an already-parsed response is modelled. The decoded value may
  hold objects, which the lookup reads by the key's decimal text.
- Coordinates and ratings are exact reals, not IEEE doubles. `E7` is the floor of the exact
  product, which can differ from `Math.floor` on doubles. NaN appears only where the source
  branches on it (`PlaceTracker.Stars`).
- `parseFloat` is modelled on the `[-0-9.]` tokens the patterns capture, with no exponent
  forms, so numbers such as `1e5` are not covered.
- `Text.Lower` lower-cases ASCII letters only, not all of Unicode.
- Lengths are counted in Dafny characters (code points), while JavaScript's `length` and
  `substring` count UTF-16 code units. Text holding characters outside the Basic Multilingual
  Plane can therefore differ at the length limits: the popup's 3-character minimum
  (popup.js:103), the 35-character website cut (place_tracker.js:214-216) and the clipboard's
  100-character limit (maps_counter.js:505).
- `SerpCounter.Unescape`: its contract only bounds the result and fixes `%`-free text. What
  each escape turns into is stated by its body alone. A `%uXXXX` escape naming a lone surrogate
  is kept as text, because Dafny's `char` cannot hold a surrogate code unit.
- `PlaceRequests.DayLabel`: a non-string, truthy label goes through a host text conversion that
  is a parameter (`hostText`), so the contract says nothing about that case.
- `PlaceTracker.FormatTime`: the twelve-hour rewrite is stated only for a whole `HH:MM` text with
  an hour below 24 (`PlaceTracker.FormatTwentyFourHour`). A one-digit hour such as `9:30`, a time
  inside longer text and hours of 24 or more are stated by the body alone.
- `PlaceTracker.ParseStringHours`: the rows are returned as records (day, shown time, closed
  flag), not as the HTML the source builds from them.
- `MapsCounter.RunNumbering`: the enabled path is stated by `MapsCounter.NewQueryRestarts`,
  `MapsCounter.FullRegularBlocksAds` and `MapsCounter.RunTwiceKeepsCards`, not in its own
  contract.
- Which DOM nodes count as cards, headings or ad headings (the CSS selectors) is left out. The
  model starts from the list the selectors would return.
- `showSearchResultCount` and the result-count setting are left out: they only write DOM text.
- `Feedback.AnswerText` maps the three buttons to their recorded strings. The prompt's markup,
  styles and the web-store redirect are left out.
- The feedback system's testing hooks `triggerFeedback` and `resetFeedbackData` are left out.
  They are not called by the extension itself.
- Concurrency is not modelled. `isProcessing` is a guard on an explicit state record, and an
  interleaving is a sequence of separate calls.
- The retry and backoff loop of `updateRulesWithRetry` is not modelled. It cannot run (see
  above), so a single attempt with a success flag stands for the call.
- The shallow copy in `createRules` that writes into the templates is left out. It has no
  effect on the returned rules.
- The Maps DOM card cache (`getCachedCards`) is left out, and so is the `processedCards` set,
  which is written but never read. Badge state lives on the card records.
- search_console_context.js, the context menu and the test scripts are not part of this model.

## Findings

| source | as written | input that shows it | evidently intended | confidence | as-written member | corrected member |
|---|---|---|---|---|---|---|
| gtrack_coordinates.js:15 | the fourth pattern `([-\d.]+).*?([-\d.]+)` may end its first group early, so a single number is split into two | the text `45` yields latitude 4 and longitude 5 | two separate numbers are needed; text holding one number yields null | not executed | GtrackCoordinates.LoneNumberSplitAsWritten | GtrackCoordinates.LoneNumberRejected |
