/**
 * The popup's list and settings logic: the recent-search list, the settings merge and
 * tooltip refresh, saving a named location with its duplicate checks, the newest-first
 * ordering of saved locations, and the state of each location chip.
 */
module Popup {
  import opened Wrappers
  import opened Text
  import opened Numerals
  import opened GeoRules
  import GeoSync

  /** At most this many recent searches are kept. */
  const HistoryLimit: nat := 5

  /** `a` is made of some of `b`'s elements, in `b`'s order. */
  predicate Subsequence(a: seq<string>, b: seq<string>)
    decreases |b|
  {
    |a| == 0 || (|b| > 0 && ((a[0] == b[0] && Subsequence(a[1..], b[1..])) || Subsequence(a, b[1..])))
  }

  lemma {:induction false} SubsequencePrefix(a: seq<string>, b: seq<string>, k: nat)
    requires Subsequence(a, b) && k <= |a|
    ensures Subsequence(a[..k], b)
    decreases |b|
  {
    if k > 0 {
      if a[0] == b[0] && Subsequence(a[1..], b[1..]) {
        SubsequencePrefix(a[1..], b[1..], k - 1);
        assert a[..k][1..] == a[1..][..k - 1];
      } else {
        SubsequencePrefix(a, b[1..], k);
      }
    }
  }

  /** `filter(item => item !== x)`. */
  function RemoveAll(h: seq<string>, x: string): (r: seq<string>)
    ensures x !in r
    ensures forall y :: y != x ==> multiset(r)[y] == multiset(h)[y]
    ensures Subsequence(r, h)
  {
    if |h| == 0 then []
    else
      assert h == [h[0]] + h[1..];
      if h[0] == x then RemoveAll(h[1..], x) else [h[0]] + RemoveAll(h[1..], x)
  }

  lemma {:induction false} RemoveAllAbsent(h: seq<string>, x: string)
    requires x !in h
    ensures RemoveAll(h, x) == h
  {
    if |h| > 0 {
      RemoveAllAbsent(h[1..], x);
      assert h == [h[0]] + h[1..];
    }
  }

  /**
   * `addToSearchHistory`: a missing, non-string or empty location changes nothing; otherwise
   * the location moves to the front, appears once, and the list is cut to five entries,
   * the others keeping their order.
   */
  function AddToSearchHistory(history: seq<string>, location: Option<string>): (r: seq<string>)
    ensures location.None? || location.value == "" ==> r == history
    ensures location.Some? && location.value != "" ==>
      && 1 <= |r| <= HistoryLimit
      && r[0] == location.value
      && location.value !in r[1..]
      && |r| == (if 1 + |RemoveAll(history, location.value)| < HistoryLimit then 1 + |RemoveAll(history, location.value)| else HistoryLimit)
      && Subsequence(r[1..], history)
      && r[1..] == RemoveAll(history, location.value)[..|r| - 1]
  {
    if location.None? || location.value == "" then history
    else
      var rest := RemoveAll(history, location.value);
      var l := [location.value] + rest;
      var r := if |l| > HistoryLimit then l[..HistoryLimit] else l;
      assert r[1..] == rest[..|r| - 1];
      SubsequencePrefix(rest, history, |r| - 1);
      r
  }

  /** Adding the same location twice in a row gives the same list as adding it once. */
  lemma AddToSearchHistoryTwice(history: seq<string>, location: string)
    ensures var once := AddToSearchHistory(history, Some(location));
      AddToSearchHistory(once, Some(location)) == once
  {
    var once := AddToSearchHistory(history, Some(location));
    if location != "" {
      RemoveAllAbsent(once[1..], location);
      assert once == [location] + once[1..];
      assert RemoveAll(once, location) == RemoveAll(once[1..], location);
    }
  }

  /** `deleteFromSearchHistory`: every occurrence of the item goes, every other entry stays, in order. */
  function DeleteFromSearchHistory(history: seq<string>, item: string): (r: seq<string>)
    ensures item !in r
    ensures forall y :: y != item ==> multiset(r)[y] == multiset(history)[y]
    ensures Subsequence(r, history)
  {
    RemoveAll(history, item)
  }

  /** Deleting an item that is not there leaves the list as it was. */
  lemma DeleteAbsent(history: seq<string>, item: string)
    requires item !in history
    ensures DeleteFromSearchHistory(history, item) == history
  {
    RemoveAllAbsent(history, item);
  }

  /** The fields a caller of `saveSettings` passes; absent fields are `None`. */
  datatype SettingsUpdate = SettingsUpdate(
    enabled: Option<bool>, latitude: Option<real>, longitude: Option<real>,
    location: Option<string>, radius: Option<Option<int>>)

  const NoUpdate: SettingsUpdate := SettingsUpdate(None, None, None, None, None)

  /** The popup's fallback record; unlike the background worker's, it has no radius. */
  const PopupDefaultSettings: Settings := Settings(false, 40.7580, -73.9855, "Times Square, New York, NY, USA", None)

  /** `{ ...settings, ...updates }` over the stored record or the popup's fallback. */
  function MergeSettings(stored: Option<Settings>, u: SettingsUpdate): (r: Settings)
    ensures var base := stored.GetOr(PopupDefaultSettings);
      && r.enabled == u.enabled.GetOr(base.enabled)
      && r.latitude == u.latitude.GetOr(base.latitude)
      && r.longitude == u.longitude.GetOr(base.longitude)
      && r.location == u.location.GetOr(base.location)
      && r.radius == u.radius.GetOr(base.radius)
  {
    var base := stored.GetOr(PopupDefaultSettings);
    Settings(u.enabled.GetOr(base.enabled), u.latitude.GetOr(base.latitude), u.longitude.GetOr(base.longitude),
      u.location.GetOr(base.location), u.radius.GetOr(base.radius))
  }

  /** An empty update writes back the stored record (or the fallback) unchanged. */
  lemma MergeNothing(stored: Option<Settings>)
    ensures MergeSettings(stored, NoUpdate) == stored.GetOr(PopupDefaultSettings)
  {
  }

  /** Saving the same update again changes nothing. */
  lemma MergeIdempotent(stored: Option<Settings>, u: SettingsUpdate)
    ensures MergeSettings(Some(MergeSettings(stored, u)), u) == MergeSettings(stored, u)
  {
  }

  /** A record first saved by the popup has no radius, so its header uses the default radius. */
  lemma PopupRecordsUseDefaultRadius(u: SettingsUpdate)
    requires u.radius.None?
    ensures MergeSettings(None, u).radius.GetOr(DefaultRadius) == DefaultRadius
  {
  }

  /**
   * The tooltip is refreshed only when the update carries a truthy location, latitude or
   * longitude; it then shows the merged record's title.
   */
  function TooltipRefresh(merged: Settings, u: SettingsUpdate): (r: Option<GeoSync.Title>)
    ensures r.Some? <==> ((u.location.Some? && u.location.value != "")
      || (u.latitude.Some? && u.latitude.value != 0.0) || (u.longitude.Some? && u.longitude.value != 0.0))
    ensures r.Some? ==> r.value == GeoSync.TitleFor(merged)
  {
    if (u.location.Some? && u.location.value != "") || (u.latitude.Some? && u.latitude.value != 0.0)
      || (u.longitude.Some? && u.longitude.value != 0.0)
    then Some(GeoSync.TitleFor(merged))
    else None
  }

  /** Toggling spoofing alone, or moving a coordinate to exactly 0, leaves the tooltip alone. */
  lemma ToggleKeepsTooltip(merged: Settings, enabled: bool, latitude: Option<real>)
    requires latitude.Some? ==> latitude.value == 0.0
    ensures TooltipRefresh(merged, SettingsUpdate(Some(enabled), latitude, None, None, None)).None?
  {
  }

  /** One entry of the saved-locations list; a missing timestamp is `None`. */
  datatype SavedLocation = SavedLocation(name: string, latitude: real, longitude: real, location: string, timestamp: Option<int>)

  /** The popup's coordinate tolerance. */
  const Tolerance: real := 0.000001

  predicate Near(a: real, b: real)
  {
    (if a >= b then a - b else b - a) < Tolerance
  }

  predicate SameCoordinates(l: SavedLocation, latitude: real, longitude: real)
  {
    Near(l.latitude, latitude) && Near(l.longitude, longitude)
  }

  /** `findIndex` of the first entry at the given coordinates. */
  function FindByCoordinates(saved: seq<SavedLocation>, latitude: real, longitude: real): (r: Option<nat>)
    ensures r.Some? ==> r.value < |saved| && SameCoordinates(saved[r.value], latitude, longitude)
    ensures r.Some? ==> forall j :: 0 <= j < r.value ==> !SameCoordinates(saved[j], latitude, longitude)
    ensures r.None? ==> forall j :: 0 <= j < |saved| ==> !SameCoordinates(saved[j], latitude, longitude)
  {
    if |saved| == 0 then None
    else if SameCoordinates(saved[0], latitude, longitude) then Some(0)
    else match FindByCoordinates(saved[1..], latitude, longitude)
      case None => None
      case Some(k) => Some(k + 1)
  }

  /** `findIndex` of the first entry with the given name. */
  function FindByName(saved: seq<SavedLocation>, name: string): (r: Option<nat>)
    ensures r.Some? ==> r.value < |saved| && saved[r.value].name == name
    ensures r.Some? ==> forall j :: 0 <= j < r.value ==> saved[j].name != name
    ensures r.None? ==> forall j :: 0 <= j < |saved| ==> saved[j].name != name
  {
    if |saved| == 0 then None
    else if saved[0].name == name then Some(0)
    else match FindByName(saved[1..], name)
      case None => None
      case Some(k) => Some(k + 1)
  }

  /** What `checkAndSaveLocation` writes: nothing (already saved, or declined), or a new list. */
  datatype SaveOutcome = AlreadySaved | Declined | Saved(locations: seq<SavedLocation>)

  /**
   * `checkAndSaveLocation`. The coordinate check comes first: the first entry at the same
   * coordinates with the same name means nothing is stored (its refreshed timestamp is
   * never written back); with another name the user's answer decides between appending
   * and doing nothing. Failing that, the first entry with the same name is replaced in
   * place; failing that, the entry is appended. `now` is `Date.now()`.
   */
  function CheckAndSaveLocation(saved: seq<SavedLocation>, name: string, latitude: real, longitude: real,
                                location: string, now: int, confirmed: bool): (r: SaveOutcome)
    ensures var entry := SavedLocation(name, latitude, longitude, location, Some(now));
      match FindByCoordinates(saved, latitude, longitude)
      case Some(i) =>
        && (r.AlreadySaved? <==> saved[i].name == name)
        && (r.Declined? <==> saved[i].name != name && !confirmed)
        && (r.Saved? ==> r.locations == saved + [entry])
      case None =>
        match FindByName(saved, name)
        case Some(j) => r == Saved(saved[j := entry])
        case None => r == Saved(saved + [entry])
  {
    var entry := SavedLocation(name, latitude, longitude, location, Some(now));
    match FindByCoordinates(saved, latitude, longitude)
    case Some(i) =>
      if saved[i].name == name then AlreadySaved
      else if confirmed then Saved(saved + [entry])
      else Declined
    case None =>
      match FindByName(saved, name)
      case Some(j) => Saved(saved[j := entry])
      case None => Saved(saved + [entry])
  }

  /** A save never drops an entry: the list grows by at most one, and the new entry is in it. */
  lemma SaveKeepsOthers(saved: seq<SavedLocation>, name: string, latitude: real, longitude: real,
                        location: string, now: int, confirmed: bool)
    ensures var r := CheckAndSaveLocation(saved, name, latitude, longitude, location, now, confirmed);
      r.Saved? ==>
        && |saved| <= |r.locations| <= |saved| + 1
        && SavedLocation(name, latitude, longitude, location, Some(now)) in r.locations
        && (forall j :: 0 <= j < |saved| && saved[j].name != name ==> saved[j] in r.locations)
  {
    var entry := SavedLocation(name, latitude, longitude, location, Some(now));
    var r := CheckAndSaveLocation(saved, name, latitude, longitude, location, now, confirmed);
    if r.Saved? {
      if r.locations == saved + [entry] {
        assert r.locations[|saved|] == entry;
        assert forall j :: 0 <= j < |saved| ==> r.locations[j] == saved[j];
      } else {
        var j0 := FindByName(saved, name).value;
        assert r.locations == saved[j0 := entry];
        assert r.locations[j0] == entry;
        assert forall j :: 0 <= j < |saved| && saved[j].name != name ==> r.locations[j] == saved[j];
      }
    }
  }

  /**
   * Saving again straight after a save that found no entry at those coordinates reports
   * the location as already saved.
   */
  lemma SaveTwice(saved: seq<SavedLocation>, name: string, latitude: real, longitude: real,
                  location: string, now: int, later: int, confirmed: bool)
    requires FindByCoordinates(saved, latitude, longitude).None?
    ensures var r := CheckAndSaveLocation(saved, name, latitude, longitude, location, now, confirmed);
      r.Saved? && CheckAndSaveLocation(r.locations, name, latitude, longitude, location, later, confirmed).AlreadySaved?
  {
    var entry := SavedLocation(name, latitude, longitude, location, Some(now));
    var r := CheckAndSaveLocation(saved, name, latitude, longitude, location, now, confirmed);
    var idx: nat := match FindByName(saved, name) case Some(j) => j case None => |saved|;
    assert r.Saved? && idx < |r.locations| && r.locations[idx] == entry
        && forall k :: 0 <= k < idx ==> r.locations[k] == saved[k];
    EntryFoundAt(saved, r.locations, idx, latitude, longitude);
  }

  /**
   * An entry at the searched coordinates placed at `idx`, with nothing ahead of it changed,
   * is what the coordinate lookup finds when the old list had no entry there.
   */
  lemma EntryFoundAt(saved: seq<SavedLocation>, l: seq<SavedLocation>, idx: nat, latitude: real, longitude: real)
    requires FindByCoordinates(saved, latitude, longitude).None?
    requires idx < |l| && idx <= |saved| && SameCoordinates(l[idx], latitude, longitude)
    requires forall k :: 0 <= k < idx ==> l[k] == saved[k]
    ensures FindByCoordinates(l, latitude, longitude) == Some(idx)
  {
    assert forall j :: 0 <= j < idx ==> !SameCoordinates(l[j], latitude, longitude) by {
      forall j | 0 <= j < idx
        ensures !SameCoordinates(l[j], latitude, longitude)
      {
        assert l[j] == saved[j];
      }
    }
  }

  /** `a.timestamp || 0`. */
  function Recency(l: SavedLocation): int
  {
    l.timestamp.GetOr(0)
  }

  predicate NewestFirst(s: seq<SavedLocation>)
  {
    forall i, j :: 0 <= i < j < |s| ==> Recency(s[i]) >= Recency(s[j])
  }

  /** Inserts `x` ahead of every entry that is not newer, so that earlier input stays ahead on ties. */
  function Insert(x: SavedLocation, s: seq<SavedLocation>): (r: seq<SavedLocation>)
    requires NewestFirst(s)
    ensures NewestFirst(r)
    ensures multiset(r) == multiset(s) + multiset{x}
    ensures forall k :: 0 <= k < |r| ==> r[k] == x || r[k] in s
  {
    if |s| == 0 then [x]
    else if Recency(s[0]) <= Recency(x) then [x] + s
    else
      var t := Insert(x, s[1..]);
      assert s == [s[0]] + s[1..];
      InsertBelowHead(x, s, t);
      [s[0]] + t
  }

  /** Entries that come from `x` or the tail of `s` are no newer than the head of `s`, when `x` is older. */
  lemma InsertBelowHead(x: SavedLocation, s: seq<SavedLocation>, t: seq<SavedLocation>)
    requires NewestFirst(s) && |s| > 0 && Recency(x) < Recency(s[0]) && NewestFirst(t)
    requires forall k :: 0 <= k < |t| ==> t[k] == x || t[k] in s[1..]
    ensures NewestFirst([s[0]] + t)
    ensures forall k :: 0 <= k < |[s[0]] + t| ==> ([s[0]] + t)[k] == x || ([s[0]] + t)[k] in s
  {
    forall k | 0 <= k < |t|
      ensures Recency(t[k]) <= Recency(s[0])
    {
      if t[k] != x {
        var j :| 0 <= j < |s[1..]| && s[1..][j] == t[k];
        assert s[j + 1] == t[k];
      }
    }
    forall k | 0 <= k < |t| && t[k] != x
      ensures t[k] in s
    {
      var j :| 0 <= j < |s[1..]| && s[1..][j] == t[k];
      assert s[j + 1] == t[k];
    }
  }

  /** The saved locations as `displaySavedLocations` lists them: newest first, ties in stored order. */
  function SortByRecency(l: seq<SavedLocation>): (r: seq<SavedLocation>)
    ensures NewestFirst(r)
    ensures multiset(r) == multiset(l)
  {
    if |l| == 0 then []
    else
      assert l == [l[0]] + l[1..];
      Insert(l[0], SortByRecency(l[1..]))
  }

  /** Inserting an entry older than the head keeps the head first; returns the insertion into the tail. */
  lemma InsertBelow(x: SavedLocation, s: seq<SavedLocation>) returns (u: seq<SavedLocation>)
    requires NewestFirst(s) && |s| > 0 && Recency(x) < Recency(s[0])
    ensures NewestFirst(s[1..]) && u == Insert(x, s[1..])
    ensures Insert(x, s) == [s[0]] + u
  {
    u := Insert(x, s[1..]);
  }

  /** The entries with a given recency, in order. */
  function WithRecency(s: seq<SavedLocation>, t: int): seq<SavedLocation>
  {
    if |s| == 0 then [] else (if Recency(s[0]) == t then [s[0]] else []) + WithRecency(s[1..], t)
  }

  /** The entries of a given recency in a sequence with `a` put in front. */
  lemma WithRecencyCons(a: SavedLocation, u: seq<SavedLocation>, t: int)
    ensures WithRecency([a] + u, t) == (if Recency(a) == t then [a] else []) + WithRecency(u, t)
  {
    assert ([a] + u)[0] == a;
    assert ([a] + u)[1..] == u;
  }

  lemma {:induction false} InsertWithRecency(x: SavedLocation, s: seq<SavedLocation>, t: int)
    requires NewestFirst(s)
    ensures WithRecency(Insert(x, s), t) == (if Recency(x) == t then [x] else []) + WithRecency(s, t)
  {
    if |s| == 0 || Recency(s[0]) <= Recency(x) {
      assert Insert(x, s) == [x] + s;
      WithRecencyCons(x, s, t);
    } else {
      var hx := if Recency(x) == t then [x] else [];
      var h0 := if Recency(s[0]) == t then [s[0]] else [];
      var w := WithRecency(s[1..], t);
      assert WithRecency(Insert(x, s), t) == h0 + (hx + w) by {
        var u := InsertBelow(x, s);
        InsertWithRecency(x, s[1..], t);
        WithRecencyCons(s[0], u, t);
      }
      assert WithRecency(s, t) == h0 + w;
      if Recency(x) == t {
        assert h0 == [];
        assert h0 + (hx + w) == hx + w;
        assert hx + (h0 + w) == hx + w;
      } else {
        assert hx == [];
        assert h0 + (hx + w) == h0 + w;
        assert hx + (h0 + w) == h0 + w;
      }
    }
  }

  /** The sort is stable: among entries of equal recency, the stored order is kept. */
  lemma {:induction false} SortByRecencyStable(l: seq<SavedLocation>, t: int)
    ensures WithRecency(SortByRecency(l), t) == WithRecency(l, t)
  {
    if |l| > 0 {
      SortByRecencyStable(l[1..], t);
      InsertWithRecency(l[0], SortByRecency(l[1..]), t);
    }
  }

  /** A chip is styled active, highlighted, or neither. */
  datatype ChipStyle = Active | Highlight | Plain

  /** `parseFloat(field) || 0`. */
  function FieldNumber(field: string): real
  {
    ParseFloat(field).GetOr(0.0)
  }

  /**
   * `createLocationChip`: active when the coordinate fields match the entry, otherwise
   * highlighted when the trimmed, lower-cased search text is non-empty and equals the
   * lower-cased name.
   */
  function ChipStyleFor(l: SavedLocation, latitudeField: string, longitudeField: string, searchText: string): (r: ChipStyle)
    ensures r.Active? <==> SameCoordinates(l, FieldNumber(latitudeField), FieldNumber(longitudeField))
    ensures r.Highlight? <==> (!SameCoordinates(l, FieldNumber(latitudeField), FieldNumber(longitudeField))
      && Trim(Lower(searchText)) != "" && Trim(Lower(searchText)) == Lower(l.name))
  {
    var query := Trim(Lower(searchText));
    if SameCoordinates(l, FieldNumber(latitudeField), FieldNumber(longitudeField)) then Active
    else if query != "" && query == Lower(l.name) then Highlight
    else Plain
  }

  lemma LowerIdempotent(s: string)
    ensures Lower(Lower(s)) == Lower(s)
  {
  }

  /** Highlighting ignores the case of the search text. */
  lemma ChipIgnoresCase(l: SavedLocation, latitudeField: string, longitudeField: string, searchText: string)
    ensures ChipStyleFor(l, latitudeField, longitudeField, Lower(searchText)) == ChipStyleFor(l, latitudeField, longitudeField, searchText)
  {
    LowerIdempotent(searchText);
  }

  /** Empty coordinate fields count as 0, so a chip saved at (0, 0) is then active. */
  lemma EmptyFieldsMeanOrigin(l: SavedLocation, searchText: string)
    requires l.latitude == 0.0 && l.longitude == 0.0
    ensures ChipStyleFor(l, "", "", searchText).Active?
  {
  }
}
