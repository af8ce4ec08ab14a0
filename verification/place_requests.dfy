/**
 * The background worker's handling of place-detail responses: the window that suppresses
 * repeated requests for one URL, the periodic purge of that window, the guarded path
 * lookup into the decoded response, and the services and opening-hours extraction.
 */
module PlaceRequests {
  import opened Wrappers
  import opened Text
  import opened Numerals

  /** Only completed requests whose URL starts with this are handled. */
  const PlacePrefix: string := "https://www.google.com/maps/preview/place?authuser="

  /** A repeat of a URL seen less than this many milliseconds ago is ignored. */
  const DedupWindow: int := 2000

  /** The purge drops entries older than this many milliseconds. */
  const RetainWindow: int := 10000

  datatype Decision = Ignored | Duplicate | Process

  /** The decision for one completed request and the request map after it. */
  datatype Seen = Seen(decision: Decision, seen: map<string, int>)

  /**
   * The last-processed time counts only when it is truthy, so a recorded time of 0 never
   * suppresses a repeat.
   */
  predicate RecentlySeen(seen: map<string, int>, url: string, now: int)
  {
    url in seen && seen[url] != 0 && now - seen[url] < DedupWindow
  }

  /** The `onCompleted` listener: which requests are fetched, and the time recorded for them. */
  function OnCompleted(seen: map<string, int>, url: string, now: int): (r: Seen)
    ensures r.decision.Ignored? <==> !StartsWith(url, PlacePrefix) || EndsWith(url, "pf=t")
    ensures r.decision.Duplicate? <==> !r.decision.Ignored? && RecentlySeen(seen, url, now)
    ensures r.decision.Process? ==> r.seen == seen[url := now]
    ensures !r.decision.Process? ==> r.seen == seen
  {
    if !StartsWith(url, PlacePrefix) || EndsWith(url, "pf=t") then Seen(Ignored, seen)
    else if RecentlySeen(seen, url, now) then Seen(Duplicate, seen)
    else Seen(Process, seen[url := now])
  }

  /** The purge timer: entries more than ten seconds old are removed, the rest kept as they were. */
  function Purge(seen: map<string, int>, now: int): (r: map<string, int>)
    ensures forall u :: u in r <==> u in seen && now - seen[u] <= RetainWindow
    ensures forall u :: u in r ==> r[u] == seen[u]
  {
    map u | u in seen && now - seen[u] <= RetainWindow :: seen[u]
  }

  /** A URL processed at a nonzero time is suppressed for the next two seconds. */
  lemma RepeatWithinWindowSuppressed(seen: map<string, int>, url: string, t: int, later: int)
    requires OnCompleted(seen, url, t).decision.Process?
    requires t != 0 && t <= later < t + DedupWindow
    ensures OnCompleted(OnCompleted(seen, url, t).seen, url, later).decision.Duplicate?
  {
  }

  /** Purging at the current time never changes what the listener decides at that time. */
  lemma PurgeKeepsDecision(seen: map<string, int>, url: string, now: int)
    ensures OnCompleted(Purge(seen, now), url, now).decision == OnCompleted(seen, url, now).decision
  {
  }

  /** Once its entry is purged, a URL is fetched again. */
  lemma PurgedUrlProcessedAgain(seen: map<string, int>, url: string, now: int, later: int)
    requires url in seen && now - seen[url] > RetainWindow
    requires StartsWith(url, PlacePrefix) && !EndsWith(url, "pf=t")
    ensures OnCompleted(Purge(seen, now), url, later).decision.Process?
  {
  }

  /** The decoded response body, as far as the extraction looks at it. */
  datatype Json = JNull | JBool(b: bool) | JNum(n: real) | JStr(s: string) | JArr(items: seq<Json>) | JObj(fields: map<string, Json>)

  /** JavaScript truthiness (NaN is not modelled). */
  predicate Truthy(j: Json)
  {
    match j
    case JNull => false
    case JBool(b) => b
    case JNum(n) => n != 0.0
    case JStr(s) => s != ""
    case JArr(_) => true
    case JObj(_) => true
  }

  /**
   * `j[key]` when it is not `undefined`: an array element, one character of a string, or the
   * member of an object whose name is the key's decimal text.
   */
  function Index(j: Json, key: nat): (r: Option<Json>)
    ensures r.Some? <==> (j.JArr? && key < |j.items|) || (j.JStr? && key < |j.s|) || (j.JObj? && NatToString(key) in j.fields)
    ensures j.JArr? && key < |j.items| ==> r == Some(j.items[key])
    ensures j.JObj? && NatToString(key) in j.fields ==> r == Some(j.fields[NatToString(key)])
  {
    match j
    case JArr(items) => if key < |items| then Some(items[key]) else None
    case JStr(s) => if key < |s| then Some(JStr([s[key]])) else None
    case JObj(fields) => if NatToString(key) in fields then Some(fields[NatToString(key)]) else None
    case _ => None
  }

  /** One step of the lookup: a falsy or missing value becomes null. */
  function LookupStep(acc: Json, key: nat): Json
  {
    if Truthy(acc) && Index(acc, key).Some? then Index(acc, key).value else JNull
  }

  /** `getNestedValue`: follow `path` from `obj`, collapsing to null at the first falsy or missing step. */
  function GetNestedValue(obj: Json, path: seq<nat>): (r: Json)
    ensures path == [] ==> r == obj
    ensures path != [] && !Truthy(obj) ==> r == JNull
    ensures |path| == 1 && Truthy(obj) && Index(obj, path[0]).Some? ==> r == Index(obj, path[0]).value
    ensures |path| == 1 && Index(obj, path[0]).None? ==> r == JNull
    decreases |path|
  {
    if |path| == 0 then obj else GetNestedValue(LookupStep(obj, path[0]), path[1..])
  }

  lemma {:induction false} NullStaysNull(path: seq<nat>)
    ensures GetNestedValue(JNull, path) == JNull
  {
    if |path| > 0 {
      NullStaysNull(path[1..]);
    }
  }

  /** Looking up `p + q` is looking up `p`, then `q` from there. */
  lemma {:induction false} GetNestedValueAppend(obj: Json, p: seq<nat>, q: seq<nat>)
    ensures GetNestedValue(obj, p + q) == GetNestedValue(GetNestedValue(obj, p), q)
    decreases |p|
  {
    if |p| == 0 {
      assert p + q == q;
    } else {
      assert (p + q)[0] == p[0];
      assert (p + q)[1..] == p[1..] + q;
      GetNestedValueAppend(LookupStep(obj, p[0]), p[1..], q);
    }
  }

  /** Along a path through arrays whose every step is in range, the lookup returns the element reached. */
  lemma ArrayLookup(items: seq<Json>, key: nat)
    requires key < |items|
    ensures GetNestedValue(JArr(items), [key]) == items[key]
  {
  }

  /** An object reached by the lookup is indexed by the key's decimal text, as `acc[6]` reads `acc["6"]`. */
  lemma ObjectLookup(fields: map<string, Json>, key: nat)
    requires NatToString(key) in fields
    ensures GetNestedValue(JObj(fields), [key]) == fields[NatToString(key)]
  {
  }

  /** `x || "N/A"`. */
  function OrNA(j: Json): (r: Json)
    ensures Truthy(r)
    ensures Truthy(j) ==> r == j
  {
    if Truthy(j) then j else JStr("N/A")
  }

  const ServicesPath: seq<nat> := [6, 125, 0, 0, 1, 0, 1, 0]

  const HoursPath: seq<nat> := [6, 34]

  /** The name of one service entry: the first element of its first element, a non-blank string. */
  function ServiceNameOf(service: Json): (r: Option<string>)
    ensures r.Some? ==> Trim(r.value) != ""
    ensures r.Some? ==> GetNestedValue(service, [0, 0]) == JStr(r.value)
  {
    if service.JArr? && |service.items| > 0 && service.items[0].JArr? && |service.items[0].items| > 0
      && service.items[0].items[0].JStr? && Trim(service.items[0].items[0].s) != ""
    then Some(service.items[0].items[0].s)
    else None
  }

  /** The names of the well-formed entries, in order, untrimmed. */
  function ServiceNames(items: seq<Json>): (r: seq<string>)
    ensures |r| <= |items|
  {
    if |items| == 0 then []
    else match ServiceNameOf(items[0])
      case Some(name) => [name] + ServiceNames(items[1..])
      case None => ServiceNames(items[1..])
  }

  lemma {:induction false} ServiceNamesAppend(a: seq<Json>, b: seq<Json>)
    ensures ServiceNames(a + b) == ServiceNames(a) + ServiceNames(b)
  {
    if |a| == 0 {
      assert a + b == b;
    } else {
      assert (a + b)[0] == a[0];
      assert (a + b)[1..] == a[1..] + b;
      ServiceNamesAppend(a[1..], b);
    }
  }

  /** Every well-formed entry contributes its name. */
  lemma {:induction false} ServiceNameListed(items: seq<Json>, i: nat, name: string)
    requires i < |items| && ServiceNameOf(items[i]) == Some(name)
    ensures name in ServiceNames(items)
  {
    ServiceNamesCons(items);
    if i > 0 {
      assert items[1..][i - 1] == items[i];
      ServiceNameListed(items[1..], i - 1, name);
    }
  }

  /** The first entry's name, if any, followed by the names of the rest. */
  lemma ServiceNamesCons(items: seq<Json>)
    requires |items| > 0
    ensures ServiceNames(items) == ServiceNameList(ServiceNameOf(items[0])) + ServiceNames(items[1..])
  {
  }

  function ServiceNameList(name: Option<string>): seq<string>
  {
    match name
    case Some(n) => [n]
    case None => []
  }

  /** Every listed name comes from a well-formed entry. */
  lemma {:induction false} ServiceNameSource(items: seq<Json>, name: string) returns (i: nat)
    requires name in ServiceNames(items)
    ensures i < |items| && ServiceNameOf(items[i]) == Some(name)
  {
    var first := ServiceNameOf(items[0]);
    if first == Some(name) {
      i := 0;
    } else {
      assert name in ServiceNames(items[1..]) by {
        if first.Some? {
          assert ServiceNames(items) == [first.value] + ServiceNames(items[1..]);
        }
      }
      var j := ServiceNameSource(items[1..], name);
      assert items[1..][j] == items[j + 1];
      i := j + 1;
    }
  }

  /** No listed name is blank once trimmed. */
  lemma ServiceNamesNonBlank(items: seq<Json>)
    ensures forall k :: 0 <= k < |ServiceNames(items)| ==> Trim(ServiceNames(items)[k]) != ""
  {
    forall k | 0 <= k < |ServiceNames(items)|
      ensures Trim(ServiceNames(items)[k]) != ""
    {
      var i := ServiceNameSource(items, ServiceNames(items)[k]);
    }
  }

  /** Every well-formed entry contributes its name, and every name comes from a well-formed entry. */
  lemma ServiceNamesExact(items: seq<Json>, name: string)
    ensures name in ServiceNames(items) <==> exists i :: 0 <= i < |items| && ServiceNameOf(items[i]) == Some(name)
  {
    if name in ServiceNames(items) {
      var i := ServiceNameSource(items, name);
    }
    if exists i :: 0 <= i < |items| && ServiceNameOf(items[i]) == Some(name) {
      var i :| 0 <= i < |items| && ServiceNameOf(items[i]) == Some(name);
      ServiceNameListed(items, i, name);
    }
  }

  /** The services field: the list of names, or `None` for the `"N/A"` fallback. */
  function Services(parsed: Json): (r: Option<seq<string>>)
    ensures r.Some? ==> |r.value| > 0
    ensures r.Some? ==> var raw := GetNestedValue(parsed, ServicesPath);
      raw.JArr? && r.value == ServiceNames(raw.items)
    ensures r.None? <==> var raw := GetNestedValue(parsed, ServicesPath);
      !(raw.JArr? && |ServiceNames(raw.items)| > 0)
  {
    var raw := OrNA(GetNestedValue(parsed, ServicesPath));
    if raw.JArr? && |raw.items| > 0 && |ServiceNames(raw.items)| > 0 then Some(ServiceNames(raw.items)) else None
  }

  /** Some entry yields a name exactly when the list of names is non-empty. */
  lemma ServiceNamesNonEmpty(items: seq<Json>)
    ensures |ServiceNames(items)| > 0 <==> exists i :: 0 <= i < |items| && ServiceNameOf(items[i]).Some?
  {
    if |ServiceNames(items)| > 0 {
      var i := ServiceNameSource(items, ServiceNames(items)[0]);
    }
    if exists i :: 0 <= i < |items| && ServiceNameOf(items[i]).Some? {
      var i :| 0 <= i < |items| && ServiceNameOf(items[i]).Some?;
      ServiceNameListed(items, i, ServiceNameOf(items[i]).value);
    }
  }

  /**
   * The services field is `"N/A"` exactly when no entry of the raw list is well-formed; otherwise
   * it lists a name exactly when some well-formed entry carries it.
   */
  lemma ServicesFromEntries(parsed: Json, name: string)
    ensures var raw := GetNestedValue(parsed, ServicesPath);
      Services(parsed).None? <==> !(raw.JArr? && exists i :: 0 <= i < |raw.items| && ServiceNameOf(raw.items[i]).Some?)
    ensures var raw := GetNestedValue(parsed, ServicesPath);
      Services(parsed).Some? ==>
        (name in Services(parsed).value <==> exists i :: 0 <= i < |raw.items| && ServiceNameOf(raw.items[i]) == Some(name))
  {
    var raw := GetNestedValue(parsed, ServicesPath);
    if raw.JArr? {
      ServiceNamesNonEmpty(raw.items);
      ServiceNamesExact(raw.items, name);
    }
  }

  /** Template-literal text of a value; how the host prints a non-string is a parameter. */
  function Display(j: Json, hostText: Json -> string): string
  {
    if j.JStr? then j.s else hostText(j)
  }

  /** `dayData[0] || 'Day i+1'`. */
  function DayLabel(i: nat, first: Json, hostText: Json -> string): (r: string)
    ensures !Truthy(first) ==> r == "Day " + NatToString(i + 1)
    ensures first.JStr? && first.s != "" ==> r == first.s
  {
    if Truthy(first) then Display(first, hostText) else "Day " + NatToString(i + 1)
  }

  /** A day entry qualifies when it is an array with at least two elements. */
  predicate Qualifies(dayData: Json)
  {
    dayData.JArr? && |dayData.items| > 1
  }

  /** The line for day `i`: its label, `": "`, and its first hours value, the hours string, or `Closed`. */
  function DayLine(i: nat, dayData: Json, hostText: Json -> string): (r: Option<string>)
    ensures r.Some? <==> Qualifies(dayData)
    ensures r.Some? ==> StartsWith(r.value, DayLabel(i, dayData.items[0], hostText) + ": ")
    ensures r.Some? && !(dayData.items[1].JArr? && |dayData.items[1].items| > 0) && !dayData.items[1].JStr?
      ==> r.value == DayLabel(i, dayData.items[0], hostText) + ": Closed"
    ensures r.Some? && dayData.items[1].JArr? && |dayData.items[1].items| > 0 && !Truthy(dayData.items[1].items[0])
      ==> r.value == DayLabel(i, dayData.items[0], hostText) + ": Closed"
    ensures r.Some? && dayData.items[1].JArr? && |dayData.items[1].items| > 0 && Truthy(dayData.items[1].items[0])
      ==> r.value == DayLabel(i, dayData.items[0], hostText) + ": " + Display(dayData.items[1].items[0], hostText)
    ensures r.Some? && dayData.items[1].JStr? ==> r.value == DayLabel(i, dayData.items[0], hostText) + ": " + dayData.items[1].s
  {
    if !Qualifies(dayData) then None
    else
      var name := DayLabel(i, dayData.items[0], hostText);
      var hours := dayData.items[1];
      var text :=
        if hours.JArr? && |hours.items| > 0 then (if Truthy(hours.items[0]) then Display(hours.items[0], hostText) else "Closed")
        else if hours.JStr? then hours.s
        else "Closed";
      Some(name + ": " + text)
  }

  /** The lines for days `0 .. n-1`. */
  function DayLines(days: seq<Json>, n: nat, hostText: Json -> string): (r: seq<string>)
    requires n <= |days|
    ensures |r| <= n
  {
    if n == 0 then []
    else DayLines(days, n - 1, hostText) + (match DayLine(n - 1, days[n - 1], hostText) case Some(l) => [l] case None => [])
  }

  /** Reference definition: the indices below `n` of the qualifying days, in increasing order. */
  function QualifyingDays(days: seq<Json>, n: nat): seq<nat>
    requires n <= |days|
  {
    if n == 0 then [] else QualifyingDays(days, n - 1) + (if Qualifies(days[n - 1]) then [n - 1] else [])
  }

  /** The reference list holds exactly the qualifying days below `n`, each once, in increasing order. */
  lemma QualifyingDaysSpec(days: seq<Json>, n: nat)
    requires n <= |days|
    ensures forall k :: 0 <= k < |QualifyingDays(days, n)| ==> QualifyingDays(days, n)[k] < n && Qualifies(days[QualifyingDays(days, n)[k]])
    ensures forall k, l :: 0 <= k < l < |QualifyingDays(days, n)| ==> QualifyingDays(days, n)[k] < QualifyingDays(days, n)[l]
    ensures forall i :: 0 <= i < n && Qualifies(days[i]) ==> i in QualifyingDays(days, n)
  {
    QualifyingDaysSound(days, n);
    QualifyingDaysIncreasing(days, n);
    QualifyingDaysComplete(days, n);
  }

  /** Every listed index is below `n` and names a qualifying day. */
  predicate ListsQualifying(days: seq<Json>, idx: seq<nat>, n: nat)
  {
    forall k :: 0 <= k < |idx| ==> idx[k] < n && n <= |days| && Qualifies(days[idx[k]])
  }

  lemma {:induction false} QualifyingDaysSound(days: seq<Json>, n: nat)
    requires n <= |days|
    ensures ListsQualifying(days, QualifyingDays(days, n), n)
  {
    if n > 0 {
      QualifyingDaysSound(days, n - 1);
      var idx := QualifyingDays(days, n - 1);
      if Qualifies(days[n - 1]) {
        assert QualifyingDays(days, n) == idx + [n - 1];
        SoundAppend(days, idx, n - 1);
      } else {
        assert QualifyingDays(days, n) == idx;
        SoundWiden(days, idx, n - 1);
      }
    }
  }

  lemma SoundAppend(days: seq<Json>, idx: seq<nat>, m: nat)
    requires ListsQualifying(days, idx, m) && m < |days| && Qualifies(days[m])
    ensures ListsQualifying(days, idx + [m], m + 1)
  {
  }

  lemma SoundWiden(days: seq<Json>, idx: seq<nat>, m: nat)
    requires ListsQualifying(days, idx, m) && m < |days|
    ensures ListsQualifying(days, idx, m + 1)
  {
  }

  /** Every listed index is below `n`, and the list increases strictly. */
  predicate IncreasingBelow(idx: seq<nat>, n: nat)
  {
    (forall k :: 0 <= k < |idx| ==> idx[k] < n) && forall k, l :: 0 <= k < l < |idx| ==> idx[k] < idx[l]
  }

  lemma {:induction false} QualifyingDaysIncreasing(days: seq<Json>, n: nat)
    requires n <= |days|
    ensures IncreasingBelow(QualifyingDays(days, n), n)
  {
    if n > 0 {
      QualifyingDaysIncreasing(days, n - 1);
      var idx := QualifyingDays(days, n - 1);
      if Qualifies(days[n - 1]) {
        assert QualifyingDays(days, n) == idx + [n - 1];
        IncreasingAppend(idx, n - 1);
      } else {
        assert QualifyingDays(days, n) == idx;
      }
    }
  }

  lemma IncreasingAppend(idx: seq<nat>, m: nat)
    requires IncreasingBelow(idx, m)
    ensures IncreasingBelow(idx + [m], m + 1)
  {
  }

  lemma {:induction false} QualifyingDaysComplete(days: seq<Json>, n: nat)
    requires n <= |days|
    ensures forall i :: 0 <= i < n && Qualifies(days[i]) ==> i in QualifyingDays(days, n)
  {
    if n > 0 {
      QualifyingDaysComplete(days, n - 1);
      var idx := QualifyingDays(days, n - 1);
      if Qualifies(days[n - 1]) {
        assert QualifyingDays(days, n) == idx + [n - 1];
      } else {
        assert QualifyingDays(days, n) == idx;
      }
    }
  }

  /** `lines[k]` is the line of day `idx[k]`, for every `k`: one line per listed day, in the same order. */
  predicate LinesOfDays(days: seq<Json>, hostText: Json -> string, lines: seq<string>, idx: seq<nat>)
  {
    |lines| == |idx|
    && forall k :: 0 <= k < |idx| ==> idx[k] < |days| && DayLine(idx[k], days[idx[k]], hostText) == Some(lines[k])
  }

  /** The k-th line is the line of the k-th qualifying day: one line per qualifying day, in day order. */
  lemma DayLinesFollowQualifyingDays(days: seq<Json>, n: nat, hostText: Json -> string)
    requires n <= |days|
    ensures LinesOfDays(days, hostText, DayLines(days, n, hostText), QualifyingDays(days, n))
  {
    DayLinesCount(days, n, hostText);
    var lines, idx := DayLines(days, n, hostText), QualifyingDays(days, n);
    forall k | 0 <= k < |idx|
      ensures idx[k] < |days| && DayLine(idx[k], days[idx[k]], hostText) == Some(lines[k])
    {
      DayLineAt(days, n, hostText, k);
    }
  }

  /** One line per qualifying day. */
  lemma {:induction false} DayLinesCount(days: seq<Json>, n: nat, hostText: Json -> string)
    requires n <= |days|
    ensures |DayLines(days, n, hostText)| == |QualifyingDays(days, n)|
  {
    if n > 0 {
      DayLinesCount(days, n - 1, hostText);
    }
  }

  /** The k-th line is the line of the k-th qualifying day. */
  lemma {:induction false} DayLineAt(days: seq<Json>, n: nat, hostText: Json -> string, k: nat)
    requires n <= |days| && k < |QualifyingDays(days, n)|
    ensures QualifyingDays(days, n)[k] < n && k < |DayLines(days, n, hostText)|
    ensures DayLine(QualifyingDays(days, n)[k], days[QualifyingDays(days, n)[k]], hostText) == Some(DayLines(days, n, hostText)[k])
  {
    DayLinesCount(days, n, hostText);
    DayLinesCount(days, n - 1, hostText);
    var lines: seq<string>, idx: seq<nat> := DayLines(days, n - 1, hostText), QualifyingDays(days, n - 1);
    if Qualifies(days[n - 1]) {
      var l := DayLine(n - 1, days[n - 1], hostText).value;
      assert DayLines(days, n, hostText) == lines + [l];
      assert QualifyingDays(days, n) == idx + [n - 1];
      if k < |idx| {
        DayLineAt(days, n - 1, hostText, k);
      }
    } else {
      assert DayLines(days, n, hostText) == lines;
      assert QualifyingDays(days, n) == idx;
      DayLineAt(days, n - 1, hostText, k);
    }
  }

  /** The opening-hours field: the lines of the first seven days joined by `", "`, or `None` for `"N/A"`. */
  function OpeningHours(parsed: Json, hostText: Json -> string): (r: Option<string>)
    ensures r.Some? ==> var data := GetNestedValue(parsed, HoursPath);
      && data.JArr? && |data.items| > 1 && data.items[1].JArr?
      && var days := data.items[1].items;
        var n := if |days| < 7 then |days| else 7;
        |QualifyingDays(days, n)| > 0 && r.value == Join(DayLines(days, n, hostText), ", ")
    ensures r.None? <==> var data := GetNestedValue(parsed, HoursPath);
      !(data.JArr? && |data.items| > 1 && data.items[1].JArr?
        && |QualifyingDays(data.items[1].items, if |data.items[1].items| < 7 then |data.items[1].items| else 7)| > 0)
  {
    var data := OrNA(GetNestedValue(parsed, HoursPath));
    if data.JArr? && |data.items| > 1 && data.items[1].JArr? then
      var days := data.items[1].items;
      var n := if |days| < 7 then |days| else 7;
      var lines := DayLines(days, n, hostText);
      DayLinesFollowQualifyingDays(days, n, hostText);
      if |lines| > 0 then Some(Join(lines, ", ")) else None
    else None
  }

  /** The last-update note: the trimmed first element of entry 9, when it is a non-blank string. */
  function LastUpdate(parsed: Json): (r: Option<string>)
    ensures r.Some? ==> r.value != "" && Trim(r.value) == r.value
    ensures r.Some? ==> var raw := GetNestedValue(parsed, HoursPath + [9, 0]);
      raw.JStr? && Trim(raw.s) == r.value
    ensures r.None? <==> var data := GetNestedValue(parsed, HoursPath);
      !(data.JArr? && |data.items| > 9 && data.items[9].JArr? && |data.items[9].items| > 0
        && data.items[9].items[0].JStr? && Trim(data.items[9].items[0].s) != "")
  {
    var data := OrNA(GetNestedValue(parsed, HoursPath));
    if data.JArr? && |data.items| > 9 && data.items[9].JArr? && |data.items[9].items| > 0
      && data.items[9].items[0].JStr? && Trim(data.items[9].items[0].s) != ""
    then
      var s := data.items[9].items[0].s;
      LastUpdateFound(parsed);
      TrimIdempotent(s);
      Some(Trim(s))
    else None
  }

  /** Where the last-update note sits below the hours entry. */
  lemma LastUpdateFound(parsed: Json)
    requires var data := GetNestedValue(parsed, HoursPath);
      data.JArr? && |data.items| > 9 && data.items[9].JArr? && |data.items[9].items| > 0
    ensures var data := GetNestedValue(parsed, HoursPath);
      GetNestedValue(parsed, HoursPath + [9, 0]) == data.items[9].items[0]
  {
    var data := GetNestedValue(parsed, HoursPath);
    GetNestedValueAppend(parsed, HoursPath, [9, 0]);
    TwoStepLookup(data, 9, 0);
  }

  /** Two in-range steps through nested arrays reach the inner element. */
  lemma TwoStepLookup(j: Json, a: nat, b: nat)
    requires j.JArr? && a < |j.items| && j.items[a].JArr? && b < |j.items[a].items|
    ensures GetNestedValue(j, [a, b]) == j.items[a].items[b]
  {
    assert [a, b][1..] == [b];
    assert GetNestedValue(j, [a, b]) == GetNestedValue(j.items[a], [b]);
    ArrayLookup(j.items[a].items, b);
  }

  lemma TrimIdempotent(s: string)
    requires Trim(s) != ""
    ensures Trim(Trim(s)) == Trim(s)
  {
    var t := Trim(s);
    assert LeadingSpaces(t) == 0;
    assert TrailingSpaces(t) == 0;
  }
}
