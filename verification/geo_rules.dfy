/**
 * The geolocation payload and the declarative rule set that injects it: the `x-geo`
 * header text, its Base64 wrapping, and the four session rules built around it.
 */
module GeoRules {
  import opened Wrappers
  import opened Numerals
  import Base64

  /** The `geoSettings` record kept in synced storage. `radius` is absent in records written by the popup. */
  datatype Settings = Settings(enabled: bool, latitude: real, longitude: real, location: string, radius: Option<int>)

  /** Radius used when the settings carry none. */
  const DefaultRadius: int := 6400

  /** The background worker's fallback when nothing is stored. */
  const DefaultSettings: Settings := Settings(false, 40.7580, -73.9855, "Times Square, New York, NY, USA", Some(6400))

  /** A coordinate in units of 1e-7 degrees, rounded down. */
  function E7(coordinate: real): (e: int)
    ensures e as real <= coordinate * 10000000.0 < e as real + 1.0
  {
    (coordinate * 10000000.0).Floor
  }

  /** The text block the header carries before Base64 wrapping. */
  function HeaderTemplate(latitudeE7: int, longitudeE7: int, radius: int): string
  {
    "role: CURRENT_LOCATION\n" + "producer: DEVICE_LOCATION\n" + "radius: " + IntToString(radius)
      + "\nlatlng <\n  latitude_e7: " + IntToString(latitudeE7)
      + "\n  longitude_e7: " + IntToString(longitudeE7) + "\n>"
  }

  lemma IntToStringIsLatin1(i: int)
    ensures Base64.IsLatin1(IntToString(i))
  {
  }

  /** The fixed lines of the template are plain ASCII. */
  lemma TemplateLinesAreLatin1()
    ensures Base64.IsLatin1("role: CURRENT_LOCATION\n" + "producer: DEVICE_LOCATION\n" + "radius: ")
    ensures Base64.IsLatin1("\nlatlng <\n  latitude_e7: ")
    ensures Base64.IsLatin1("\n  longitude_e7: ")
    ensures Base64.IsLatin1("\n>")
  {
    RoleLineIsLatin1();
    ProducerLineIsLatin1();
    assert Base64.IsLatin1("radius: ");
    Base64.Latin1Concat("role: CURRENT_LOCATION\n", "producer: DEVICE_LOCATION\n");
    Base64.Latin1Concat("role: CURRENT_LOCATION\n" + "producer: DEVICE_LOCATION\n", "radius: ");
    LatlngLineIsLatin1();
    assert Base64.IsLatin1("\n  longitude_e7: ");
    assert Base64.IsLatin1("\n>");
  }

  lemma RoleLineIsLatin1()
    ensures Base64.IsLatin1("role: CURRENT_LOCATION\n")
  {
  }

  lemma ProducerLineIsLatin1()
    ensures Base64.IsLatin1("producer: DEVICE_LOCATION\n")
  {
  }

  lemma LatlngLineIsLatin1()
    ensures Base64.IsLatin1("\nlatlng <\n  latitude_e7: ")
  {
  }

  lemma TemplateIsLatin1(latitudeE7: int, longitudeE7: int, radius: int)
    ensures Base64.IsLatin1(HeaderTemplate(latitudeE7, longitudeE7, radius))
  {
    var head := "role: CURRENT_LOCATION\n" + "producer: DEVICE_LOCATION\n" + "radius: ";
    var mid1, mid2, tail := "\nlatlng <\n  latitude_e7: ", "\n  longitude_e7: ", "\n>";
    var r, la, lo := IntToString(radius), IntToString(latitudeE7), IntToString(longitudeE7);
    TemplateLinesAreLatin1();
    IntToStringIsLatin1(radius);
    IntToStringIsLatin1(latitudeE7);
    IntToStringIsLatin1(longitudeE7);
    Base64.Latin1Concat(head, r);
    Base64.Latin1Concat(head + r, mid1);
    Base64.Latin1Concat(head + r + mid1, la);
    Base64.Latin1Concat(head + r + mid1 + la, mid2);
    Base64.Latin1Concat(head + r + mid1 + la + mid2, lo);
    Base64.Latin1Concat(head + r + mid1 + la + mid2 + lo, tail);
  }

  /**
   * `createXgeoHeader`: `'a '` followed by the Base64 form of the template. Stripping the prefix
   * and decoding gives the template back, with the floored e7 coordinates and the radius
   * (6400 when absent).
   */
  function CreateXgeoHeader(latitude: real, longitude: real, radius: Option<int>): (h: string)
    ensures |h| >= 2 && h[..2] == "a "
    ensures Base64.Decode(h[2..]) == Some(HeaderTemplate(E7(latitude), E7(longitude), radius.GetOr(DefaultRadius)))
  {
    var template := HeaderTemplate(E7(latitude), E7(longitude), radius.GetOr(DefaultRadius));
    TemplateIsLatin1(E7(latitude), E7(longitude), radius.GetOr(DefaultRadius));
    var encoded := Base64.Btoa(template).value;
    Base64.DecodeEncode(template);
    assert ("a " + encoded)[2..] == encoded;
    "a " + encoded
  }

  function HeaderFor(s: Settings): string
  {
    CreateXgeoHeader(s.latitude, s.longitude, s.radius)
  }

  datatype HeaderOperation = HeaderOperation(header: string, operation: string, value: string)

  datatype RuleAction = ModifyHeaders(requestHeaders: seq<HeaderOperation>) | Allow

  datatype UrlMatch = UrlFilter(pattern: string) | RegexFilter(regex: string)

  datatype RuleCondition = RuleCondition(filter: UrlMatch, excludedRequestDomains: seq<string>, resourceTypes: seq<string>)

  datatype Rule = Rule(id: int, priority: int, action: RuleAction, condition: RuleCondition)

  const FrameTypes: seq<string> := ["main_frame", "sub_frame", "xmlhttprequest"]

  const AllResourceTypes: seq<string> :=
    ["main_frame", "sub_frame", "xmlhttprequest", "script", "image", "font", "stylesheet", "ping", "csp_report", "media", "websocket", "other"]

  const AuthDomains: seq<string> := ["accounts.google.com", "myaccount.google.com", "oauth2.googleapis.com", "business.google.com"]

  const AuthRegex: string := ".*(accounts|signin|oauth|myaccount|business\\.google\\.com).*"

  const HeaderPriority: int := 1

  const AllowPriority: int := 100

  function SetGeoHeader(h: string): RuleAction
  {
    ModifyHeaders([HeaderOperation("x-geo", "set", h)])
  }

  /** The three header rules (`*.google.com`, `google.com`, `www.google.com`) and the auth allow rule. */
  function CreateRules(h: string): (rules: seq<Rule>)
    ensures |rules| == 4
    ensures forall i :: 0 <= i < 3 ==> rules[i].id == i + 1 && SetsHeader(rules[i], "x-geo", h)
    ensures rules[3].id == 4 && rules[3].action.Allow?
  {
    [ Rule(1, HeaderPriority, SetGeoHeader(h), RuleCondition(UrlFilter("*://*.google.com/*"), AuthDomains, FrameTypes)),
      Rule(2, HeaderPriority, SetGeoHeader(h), RuleCondition(UrlFilter("*://google.com/*"), [], FrameTypes)),
      Rule(3, HeaderPriority, SetGeoHeader(h), RuleCondition(UrlFilter("*://www.google.com/*"), [], FrameTypes)),
      Rule(4, AllowPriority, Allow, RuleCondition(RegexFilter(AuthRegex), [], AllResourceTypes)) ]
  }

  /** Every header a rule sets to a value. */
  predicate SetsHeader(r: Rule, name: string, value: string)
  {
    r.action.ModifyHeaders? && HeaderOperation(name, "set", value) in r.action.requestHeaders
  }

  /**
   * The rule set has ids 1 to 4; every header rule sets `x-geo` to `h` and nothing else;
   * every rule is either such a header rule or the allow rule; and the allow rule
   * outranks every header rule.
   */
  lemma CreateRulesShape(h: string)
    ensures var rules := CreateRules(h);
      && |rules| == 4
      && (forall i :: 0 <= i < |rules| ==> rules[i].id == i + 1)
      && (forall i :: 0 <= i < |rules| ==> rules[i].action.Allow? || rules[i].action == SetGeoHeader(h))
      && (forall i :: 0 <= i < |rules| && rules[i].action.ModifyHeaders? ==> SetsHeader(rules[i], "x-geo", h))
      && (forall i, j :: 0 <= i < |rules| && 0 <= j < |rules| && rules[i].action.Allow? && rules[j].action.ModifyHeaders?
            ==> rules[i].priority > rules[j].priority)
      && (exists i :: 0 <= i < |rules| && rules[i].action.Allow? && rules[i].condition.filter == RegexFilter(AuthRegex))
  {
    var rules := CreateRules(h);
    assert rules[3].action.Allow?;
  }
}
