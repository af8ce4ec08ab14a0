/**
 * The background worker's synchroniser: `applyGeolocation` as a guarded transition over
 * the worker's three globals, the hotkey toggle that feeds it, and the suspend reset.
 *
 * One call of `applyGeolocation` is split at its only `await`: `Begin` runs the guards and
 * decides which rule update (if any) to issue; `Finish` takes the outcome of that update
 * and performs the rest of the body, the `catch` and the `finally`. Another call can only
 * interleave between the two, and then it sees `isProcessing` set.
 */
module GeoSync {
  import opened Wrappers
  import opened GeoRules

  /** `isProcessing`, `currentSettings` and `currentHeaderValue` (null is `None`). */
  datatype SyncState = SyncState(isProcessing: bool, currentSettings: Option<Settings>, currentHeaderValue: Option<string>)

  const InitialState: SyncState := SyncState(false, None, None)

  /** Rule ids removed by every update: one more than the rule set ever adds. */
  const AllRuleIds: seq<int> := [1, 2, 3, 4, 5]

  /** One `updateSessionRules` call. */
  datatype RuleUpdate = RuleUpdate(removeRuleIds: seq<int>, addRules: seq<Rule>)

  /** The toolbar title: the location name, the coordinates, or the disabled notice. */
  datatype Title = LocationTitle(name: string) | CoordinatesTitle(latitude: real, longitude: real) | DisabledTitle

  datatype Effect = SetIcon(enabled: bool) | SetTitle(title: Title)

  /** How a call proceeds past its guards. */
  datatype Started =
    | Busy
    | Unchanged
    | Running(busy: SyncState, call: Option<RuleUpdate>)

  /** The result of one whole call: the new globals, the rule updates issued, the other effects. */
  datatype Step = Step(state: SyncState, updates: seq<RuleUpdate>, effects: seq<Effect>)

  /** The skip test: the cached settings agree on `enabled`, `latitude` and `longitude`. */
  predicate SameTarget(cached: Option<Settings>, s: Settings)
  {
    cached.Some? && cached.value.enabled == s.enabled
    && cached.value.latitude == s.latitude && cached.value.longitude == s.longitude
  }

  /** An empty location name is falsy, so the title falls back to the coordinates. */
  function TitleFor(s: Settings): (t: Title)
    ensures t.LocationTitle? <==> s.location != ""
    ensures t.LocationTitle? ==> t.name == s.location
    ensures t.CoordinatesTitle? ==> t.latitude == s.latitude && t.longitude == s.longitude
  {
    if s.location != "" then LocationTitle(s.location) else CoordinatesTitle(s.latitude, s.longitude)
  }

  /** The guards and the decision up to the `await`. */
  function Begin(st: SyncState, s: Settings): (r: Started)
    ensures r.Busy? <==> st.isProcessing
    ensures r.Unchanged? <==> !st.isProcessing && SameTarget(st.currentSettings, s)
    ensures r.Running? ==> r.busy == st.(isProcessing := true)
    ensures r.Running? && !s.enabled ==> r.call == Some(RuleUpdate(AllRuleIds, []))
    ensures r.Running? && s.enabled ==>
      (r.call.Some? <==> st.currentHeaderValue != Some(HeaderFor(s)))
    ensures r.Running? && r.call.Some? && s.enabled ==> r.call.value == RuleUpdate(AllRuleIds, CreateRules(HeaderFor(s)))
  {
    if st.isProcessing then Busy
    else if SameTarget(st.currentSettings, s) then Unchanged
    else
      var call :=
        if !s.enabled then Some(RuleUpdate(AllRuleIds, []))
        else if st.currentHeaderValue != Some(HeaderFor(s)) then Some(RuleUpdate(AllRuleIds, CreateRules(HeaderFor(s))))
        else None;
      Running(st.(isProcessing := true), call)
  }

  /**
   * The rest of the call once the awaited update settles (`succeeded` is ignored when no
   * update was issued). A failed update is swallowed by the `catch`: nothing but
   * `isProcessing` changes. In the enabled branch the title is written into the cached
   * settings record before it is replaced; with no record cached that write throws,
   * so the header cache advances but the settings cache stays empty.
   */
  function Finish(busy: SyncState, s: Settings, call: Option<RuleUpdate>, succeeded: bool): (r: Step)
    ensures !r.state.isProcessing
    ensures r.updates == if call.Some? then [call.value] else []
    ensures call.Some? && !succeeded ==> r.state == busy.(isProcessing := false) && r.effects == []
    ensures (call.None? || succeeded) && s.enabled ==>
      && r.state.currentHeaderValue == (if call.Some? then Some(HeaderFor(s)) else busy.currentHeaderValue)
      && r.state.currentSettings == (if busy.currentSettings.Some? then Some(s) else None)
      && r.effects == [SetIcon(true), SetTitle(TitleFor(s))]
    ensures (call.None? || succeeded) && !s.enabled ==>
      r.state == SyncState(false, Some(s), None) && r.effects == [SetIcon(false), SetTitle(DisabledTitle)]
  {
    var updates := if call.Some? then [call.value] else [];
    if call.Some? && !succeeded then
      Step(busy.(isProcessing := false), updates, [])
    else if s.enabled then
      var header := if call.Some? then Some(HeaderFor(s)) else busy.currentHeaderValue;
      var effects := [SetIcon(true), SetTitle(TitleFor(s))];
      if busy.currentSettings.None? then
        Step(SyncState(false, None, header), updates, effects)
      else
        Step(SyncState(false, Some(s), header), updates, effects)
    else
      Step(SyncState(false, Some(s), None), updates, [SetIcon(false), SetTitle(DisabledTitle)])
  }

  /** One uninterrupted call of `applyGeolocation`; `succeeded` is the outcome of its rule update. */
  function Apply(st: SyncState, s: Settings, succeeded: bool): (r: Step)
    ensures |r.updates| <= 1
    ensures forall i :: 0 <= i < |r.updates| ==> r.updates[i].removeRuleIds == AllRuleIds
  {
    match Begin(st, s)
    case Busy => Step(st, [], [])
    case Unchanged => Step(st, [], [])
    case Running(busy, call) => Finish(busy, s, call, succeeded)
  }

  /** A call made while another is in flight returns with no update and no change. */
  lemma ApplyWhileBusy(st: SyncState, s: Settings, succeeded: bool)
    requires st.isProcessing
    ensures Apply(st, s, succeeded) == Step(st, [], [])
  {
  }

  /** Between `Begin` and `Finish`, every other call is dropped. */
  lemma InFlightExclusion(st: SyncState, s: Settings, other: Settings)
    requires Begin(st, s).Running?
    ensures Begin(Begin(st, s).busy, other).Busy?
  {
  }

  /** `isProcessing` is clear after every call that started idle, whichever way it ends. */
  lemma ProcessingCleared(st: SyncState, s: Settings, succeeded: bool)
    requires !st.isProcessing
    ensures !Apply(st, s, succeeded).state.isProcessing
  {
  }

  /** Same `enabled` and coordinates as the cache: nothing happens, whatever the radius or name. */
  lemma UnchangedTargetIsNoop(st: SyncState, s: Settings, succeeded: bool)
    requires !st.isProcessing && st.currentSettings.Some?
    requires st.currentSettings.value.enabled == s.enabled
    requires st.currentSettings.value.latitude == s.latitude && st.currentSettings.value.longitude == s.longitude
    ensures Apply(st, s, succeeded) == Step(st, [], [])
  {
  }

  /**
   * Enabled and not skipped: the rule set is replaced exactly when the new header differs
   * from the cached one, and the replacement removes ids 1 to 5 and adds the four rules.
   */
  lemma EnabledUpdatesOnlyOnNewHeader(st: SyncState, s: Settings, succeeded: bool)
    requires !st.isProcessing && !SameTarget(st.currentSettings, s) && s.enabled
    ensures var r := Apply(st, s, succeeded);
      && (|r.updates| == 1 <==> st.currentHeaderValue != Some(HeaderFor(s)))
      && (|r.updates| == 1 ==> r.updates[0] == RuleUpdate(AllRuleIds, CreateRules(HeaderFor(s))))
      && (succeeded ==> r.state.currentHeaderValue == Some(HeaderFor(s)))
  {
  }

  /** Disabled and not skipped: every rule is removed and the header cache is cleared. */
  lemma DisabledClears(st: SyncState, s: Settings)
    requires !st.isProcessing && !SameTarget(st.currentSettings, s) && !s.enabled
    ensures var r := Apply(st, s, true);
      && r.updates == [RuleUpdate(AllRuleIds, [])]
      && r.state == SyncState(false, Some(s), None)
  {
  }

  /** A failed rule update leaves both caches where they were, so the next call retries. */
  lemma FailureKeepsCache(st: SyncState, s: Settings)
    requires !st.isProcessing && !SameTarget(st.currentSettings, s)
    requires s.enabled ==> st.currentHeaderValue != Some(HeaderFor(s))
    ensures Apply(st, s, false).state == st
    ensures Begin(Apply(st, s, false).state, s).Running?
  {
  }

  /**
   * With no settings cached, an enabled call never fills the settings cache (the title
   * write throws first), so the skip test cannot fire for it afterwards.
   */
  lemma EnabledFromEmptyCache(st: SyncState, s: Settings, succeeded: bool)
    requires !st.isProcessing && st.currentSettings.None? && s.enabled
    ensures Apply(st, s, succeeded).state.currentSettings.None?
    ensures !Apply(st, s, succeeded).state.isProcessing
  {
  }

  /**
   * Applying the same settings again after a successful call changes no state and issues
   * no rule update, whichever branch the first call took.
   */
  lemma {:induction false} ApplyTwice(st: SyncState, s: Settings)
    requires !st.isProcessing
    ensures var once := Apply(st, s, true);
      var twice := Apply(once.state, s, true);
      twice.state == once.state && twice.updates == []
  {
    var once := Apply(st, s, true);
    match Begin(st, s)
    case Busy =>
    case Unchanged =>
    case Running(busy, call) =>
      if s.enabled {
        assert once.state.currentHeaderValue == Some(HeaderFor(s));
      }
  }

  /** `onSuspend` drops both caches; `isProcessing` is left alone. */
  function Suspend(st: SyncState): (r: SyncState)
    ensures r.isProcessing == st.isProcessing
    ensures r.currentSettings.None? && r.currentHeaderValue.None?
  {
    st.(currentSettings := None, currentHeaderValue := None)
  }

  /** After a suspend the next idle call always gets past the skip test and, if enabled, reissues the rules. */
  lemma SuspendForcesReapply(st: SyncState, s: Settings, succeeded: bool)
    requires !st.isProcessing
    ensures Begin(Suspend(st), s).Running?
    ensures |Apply(Suspend(st), s, succeeded).updates| == 1
  {
  }

  /** The stored hotkey preferences. */
  datatype HotkeySettings = HotkeySettings(enabled: bool, key: string, ctrl: bool, alt: bool, shift: bool)

  const DefaultHotkeySettings: HotkeySettings := HotkeySettings(true, "L", true, false, true)

  /**
   * The toggle command: with the hotkey enabled, the stored settings (or the defaults) are
   * written back with `enabled` flipped and applied; otherwise nothing is written.
   */
  function HotkeyToggle(stored: Option<Settings>, hotkey: Option<HotkeySettings>): (r: Option<Settings>)
    ensures r.Some? <==> hotkey.GetOr(DefaultHotkeySettings).enabled
    ensures r.Some? ==> r.value.enabled != stored.GetOr(DefaultSettings).enabled
    ensures r.Some? ==> r.value.(enabled := stored.GetOr(DefaultSettings).enabled) == stored.GetOr(DefaultSettings)
  {
    var settings := stored.GetOr(DefaultSettings);
    if hotkey.GetOr(DefaultHotkeySettings).enabled then Some(settings.(enabled := !settings.enabled)) else None
  }

  /** Toggling twice restores the stored record. */
  lemma HotkeyToggleTwice(stored: Settings, hotkey: Option<HotkeySettings>)
    requires hotkey.GetOr(DefaultHotkeySettings).enabled
    ensures HotkeyToggle(HotkeyToggle(Some(stored), hotkey), hotkey) == Some(stored)
  {
  }
}
