/**
 * Coordinates copied on a Maps page: the GPS text parser and the polling procedure that
 * decides whether a clipboard reading is applied to the extension, recorded, or ignored.
 */
module MapsClipboard {
  import opened Wrappers
  import opened Text
  import opened Numerals
  import opened Scan
  import Popup

  /** Longest clipboard text that is looked at. */
  const MaxTextLength: nat := 100

  /** `(-?\d+\.\d+)\s*,\s*(-?\d+\.\d+)`: both numbers need a decimal point. */
  function GpsPairAt(text: string, i: nat): (r: Option<Pair>)
  {
    CommaPairAt(text, i, true)
  }

  /**
   * `extractGPSCoordinates`: `None` for empty text or text over 100 characters; otherwise
   * only the leftmost match of the pattern is considered, and it is kept when in range.
   */
  function ExtractGPSCoordinates(text: string): (r: Option<Coordinates>)
    ensures |text| == 0 || |text| > MaxTextLength ==> r.None?
    ensures r.Some? ==> -90.0 <= r.value.latitude <= 90.0 && -180.0 <= r.value.longitude <= 180.0
    ensures r.Some? ==> exists i :: (0 <= i <= |text| && GpsPairAt(text, i).Some? && AcceptInRange(GpsPairAt(text, i).value) == r
      && forall j :: 0 <= j < i ==> GpsPairAt(text, j).None?)
    ensures |text| > 0 && |text| <= MaxTextLength && r.None? ==>
      forall i :: (0 <= i <= |text| && GpsPairAt(text, i).Some?
        && (forall j :: 0 <= j < i ==> GpsPairAt(text, j).None?)) ==> AcceptInRange(GpsPairAt(text, i).value).None?
  {
    if |text| == 0 || |text| > MaxTextLength then None
    else
      match GpsLeftmost(text)
      case None => None
      case Some(i) =>
        assert forall k :: (0 <= k <= |text| && GpsPairAt(text, k).Some?
          && (forall j :: 0 <= j < k ==> GpsPairAt(text, j).None?)) ==> k == i;
        AcceptInRange(GpsPairAt(text, i).value)
  }

  /** The leftmost position at which the pattern matches. */
  function GpsLeftmost(text: string): (r: Option<nat>)
    ensures r.Some? ==> r.value <= |text| && GpsPairAt(text, r.value).Some?
    ensures r.Some? ==> forall j :: 0 <= j < r.value ==> GpsPairAt(text, j).None?
    ensures r.None? ==> forall j :: 0 <= j <= |text| ==> GpsPairAt(text, j).None?
  {
    var at := (i: nat) => GpsPairAt(text, i);
    assert forall i: nat :: at(i) == GpsPairAt(text, i);
    Leftmost(|text|, 0, at)
  }

  /** `a.0,b.0`: two integers written with a decimal point. */
  function GpsText(a: int, b: int): (s: string)
    ensures |s| == |IntToString(a)| + 2 + 1 + |IntToString(b)| + 2
  {
    IntToString(a) + ".0" + "," + (IntToString(b) + ".0")
  }

  /** A rendered integer followed by `.0` and a non-digit is a number with a decimal point. */
  lemma NumberEndPointZero(s: string, at: nat, i: int)
    requires at + |IntToString(i)| + 2 <= |s|
    requires s[at..at + |IntToString(i)| + 2] == IntToString(i) + ".0"
    requires at + |IntToString(i)| + 2 == |s| || !IsDigit(s[at + |IntToString(i)| + 2])
    ensures NumberEnd(s, at, true) == Some(at + |IntToString(i)| + 2)
  {
    var t := IntToString(i);
    var e := at + |t|;
    assert forall k :: at <= k < e + 2 ==> s[k] == (t + ".0")[k - at];
    var j := if s[at] == '-' then at + 1 else at;
    assert forall k :: j <= k < e ==> IsDigit(s[k]);
    RunFromExact(s, j, IsDigit, e - j);
    assert s[e] == '.' && s[e + 1] == '0';
    RunFromExact(s, e + 1, IsDigit, 1);
  }

  lemma GpsTextPair(a: int, b: int)
    ensures var s := GpsText(a, b);
      GpsPairAt(s, 0) == Some(Pair(IntToString(a) + ".0", IntToString(b) + ".0", |s|))
  {
    var s := GpsText(a, b);
    var ta, tb := IntToString(a), IntToString(b);
    var e1 := |ta| + 2;
    assert s[0..e1] == ta + ".0";
    assert s[e1] == ',';
    NumberEndPointZero(s, 0, a);
    assert s[e1 + 1..|s|] == tb + ".0";
    assert s[e1 + 1] == tb[0];
    NumberEndPointZero(s, e1 + 1, b);
    CommaPairTight(s, 0, e1, |s|, true);
  }

  /** A match at the very start of short text is the one considered. */
  lemma GpsMatchAtStart(s: string)
    requires s != "" && |s| <= MaxTextLength && GpsPairAt(s, 0).Some?
    ensures ExtractGPSCoordinates(s) == AcceptInRange(GpsPairAt(s, 0).value)
  {
    var at := (i: nat) => GpsPairAt(s, i);
    assert at(0).Some?;
    assert Leftmost(|s|, 0, at) == Some(0);
  }

  /** Integer coordinates in range, copied as `a.0,b.0`, are read back exactly. */
  lemma GpsTextRoundTrip(a: int, b: int)
    requires -90 <= a <= 90 && -180 <= b <= 180
    ensures ExtractGPSCoordinates(GpsText(a, b)) == Some(Coordinates(a as real, b as real))
  {
    var s := GpsText(a, b);
    NatToStringShort(if a < 0 then -a else a);
    NatToStringShort(if b < 0 then -b else b);
    GpsTextPair(a, b);
    GpsMatchAtStart(s);
    ParseFloatPointZero(a);
    ParseFloatPointZero(b);
  }

  /** The monitoring variables of the clipboard poller. */
  datatype Clipboard = Clipboard(lastText: string, lastCoordinates: Option<Coordinates>, initialStartup: bool, ready: bool)

  const InitialClipboard := Clipboard("", None, true, false)

  /** Texts that look like the extension's own log lines. */
  predicate HasLogMarker(text: string)
  {
    Contains(text, "[Maps Clipboard]") || Contains(text, "Content script loaded") || Contains(text, "Clipboard monitoring started")
  }

  /** Coordinates within the tolerance of the pair processed last. */
  predicate SameAsLast(last: Option<Coordinates>, c: Coordinates)
  {
    last.Some? && Popup.Near(last.value.latitude, c.latitude) && Popup.Near(last.value.longitude, c.longitude)
  }

  /** A reading the poller looks at: focused, non-empty and different from the last one recorded. */
  predicate Fresh(st: Clipboard, focused: bool, text: string)
  {
    focused && text != "" && text != st.lastText
  }

  /** A fresh reading that passes every skip rule and holds coordinates not just processed. */
  predicate Applies(st: Clipboard, text: string)
  {
    !st.initialStartup && st.ready && |text| <= MaxTextLength && !HasLogMarker(text)
    && ExtractGPSCoordinates(text).Some? && !SameAsLast(st.lastCoordinates, ExtractGPSCoordinates(text).value)
  }

  /**
   * `checkClipboardForCoordinates` on one reading: the coordinates to apply, if any, and the
   * new variables. A fresh reading is always recorded as the last text; the first one also
   * ends the start-up phase.
   */
  function CheckClipboard(st: Clipboard, focused: bool, text: string): (r: (Clipboard, Option<Coordinates>))
    ensures !Fresh(st, focused, text) ==> r == (st, None)
    ensures Fresh(st, focused, text) ==> r.0.lastText == text && r.0.ready == st.ready && !r.0.initialStartup
    ensures r.1.Some? <==> (Fresh(st, focused, text) && Applies(st, text))
    ensures r.1.Some? ==> r.1 == ExtractGPSCoordinates(text) && r.0.lastCoordinates == r.1
    ensures r.1.None? ==> r.0.lastCoordinates == st.lastCoordinates
  {
    if !focused || text == "" || text == st.lastText then (st, None)
    else
      var recorded := st.(lastText := text);
      if st.initialStartup then (recorded.(initialStartup := false), None)
      else if !st.ready then (recorded, None)
      else if |text| > MaxTextLength then (recorded, None)
      else if HasLogMarker(text) then (recorded, None)
      else match ExtractGPSCoordinates(text)
        case None => (recorded, None)
        case Some(c) =>
          if SameAsLast(st.lastCoordinates, c) then (recorded, None)
          else (recorded.(lastCoordinates := Some(c)), Some(c))
  }

  /** Monitoring becomes ready a second after it starts. */
  function MarkReady(st: Clipboard): (r: Clipboard)
    ensures r.ready && r.lastText == st.lastText && r.lastCoordinates == st.lastCoordinates
    ensures r.initialStartup == st.initialStartup
  {
    st.(ready := true)
  }

  /** Stopping the monitor clears the ready flag; the other variables are kept. */
  function StopMonitoring(st: Clipboard): (r: Clipboard)
    ensures !r.ready && r.lastText == st.lastText && r.lastCoordinates == st.lastCoordinates
    ensures r.initialStartup == st.initialStartup
  {
    st.(ready := false)
  }

  /** Five seconds after a pair is applied it is forgotten. */
  function ForgetCoordinates(st: Clipboard): (r: Clipboard)
    ensures r.lastCoordinates.None? && r.lastText == st.lastText
  {
    st.(lastCoordinates := None)
  }

  /** Reading the same text again does nothing. */
  lemma CheckClipboardTwice(st: Clipboard, focused: bool, text: string)
    ensures CheckClipboard(CheckClipboard(st, focused, text).0, focused, text) == (CheckClipboard(st, focused, text).0, None)
  {
  }

  /** The first reading after start-up is only recorded, whatever it holds. */
  lemma FirstReadingOnlyRecorded(text: string)
    ensures CheckClipboard(InitialClipboard, true, text).1.None?
  {
  }

  /** Once a pair is applied, another text holding the same pair is not applied again until it is forgotten. */
  lemma AppliedPairNotRepeated(st: Clipboard, text1: string, text2: string)
    requires CheckClipboard(st, true, text1).1.Some?
    requires ExtractGPSCoordinates(text2) == ExtractGPSCoordinates(text1)
    ensures CheckClipboard(CheckClipboard(st, true, text1).0, true, text2).1.None?
  {
    var c := ExtractGPSCoordinates(text1).value;
    assert Popup.Near(c.latitude, c.latitude) && Popup.Near(c.longitude, c.longitude);
  }

  /** A reading made before monitoring is ready is never applied, even later. */
  lemma NotReadyRecordsOnly(st: Clipboard, text: string)
    requires !st.ready
    ensures CheckClipboard(st, true, text).1.None?
    ensures CheckClipboard(MarkReady(CheckClipboard(st, true, text).0), true, text).1.None?
  {
  }
}
