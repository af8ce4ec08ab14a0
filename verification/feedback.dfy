/**
 * The feedback prompt: a record of usage and prompt history, the eligibility rule that
 * decides when the prompt is shown, and the events that change the record.
 */
module Feedback {
  import opened Wrappers

  /** The stored feedback record; `None` stands for `null`. */
  datatype FeedbackData = FeedbackData(
    hasShownFeedback: bool,
    feedbackShownCount: nat,
    lastFeedbackShown: Option<int>,
    userFeedback: Option<string>,
    extensionUsageCount: nat,
    lastActiveDate: Option<int>)

  const DefaultFeedbackData := FeedbackData(false, 0, None, None, 0, None)

  /** The prompt is offered at most this many times. */
  const MaxShows: nat := 3

  /** Uses needed before the prompt is offered. */
  const MinUsage: nat := 5

  /** Seven days in milliseconds. */
  const SevenDays: int := 7 * 24 * 60 * 60 * 1000

  /** The answers the prompt's buttons record. */
  datatype Answer = Bad | Ok | Love

  function AnswerText(a: Answer): (s: string)
    ensures s != ""
  {
    match a
    case Bad => "bad"
    case Ok => "ok"
    case Love => "love"
  }

  /** A recorded answer counts only when it is a non-empty string. */
  predicate HasAnswer(d: FeedbackData)
  {
    d.userFeedback.Some? && d.userFeedback.value != ""
  }

  /** A last-shown time counts only when it is non-zero. */
  predicate ShownRecently(d: FeedbackData, now: int)
  {
    d.lastFeedbackShown.Some? && d.lastFeedbackShown.value != 0 && d.lastFeedbackShown.value > now - SevenDays
  }

  /** `checkFeedbackEligibility`'s guards, in order: no answer, fewer than 3 shows, none in 7 days, 5 uses. */
  predicate Eligible(d: FeedbackData, now: int)
  {
    !HasAnswer(d) && d.feedbackShownCount < MaxShows && !ShownRecently(d, now) && d.extensionUsageCount >= MinUsage
  }

  /** The feedback system: its record and whether the prompt is on the page. */
  datatype System = System(data: FeedbackData, popupOpen: bool)

  /**
   * `showFeedbackPopup`: nothing when the prompt is already on the page; otherwise the show
   * count goes up by one, the last-shown time becomes `now`, and the prompt opens.
   */
  function ShowFeedbackPopup(s: System, now: int): (r: (System, bool))
    ensures s.popupOpen ==> r == (s, false)
    ensures !s.popupOpen ==> (r.1 && r.0.popupOpen
      && r.0.data == s.data.(feedbackShownCount := s.data.feedbackShownCount + 1, lastFeedbackShown := Some(now)))
  {
    if s.popupOpen then (s, false)
    else (System(s.data.(feedbackShownCount := s.data.feedbackShownCount + 1, lastFeedbackShown := Some(now)), true), true)
  }

  /** `checkFeedbackEligibility`: shows the prompt when the record is eligible. */
  function CheckFeedbackEligibility(s: System, now: int): (r: (System, bool))
    ensures r.1 <==> Eligible(s.data, now) && !s.popupOpen
    ensures !r.1 ==> r.0 == s
    ensures r.1 ==> r.0.data.feedbackShownCount == s.data.feedbackShownCount + 1 && r.0.data.feedbackShownCount <= MaxShows
  {
    if Eligible(s.data, now) then ShowFeedbackPopup(s, now) else (s, false)
  }

  /** `incrementUsageCount`: one more use at `now`, then the eligibility check. */
  function IncrementUsageCount(s: System, now: int): (r: (System, bool))
    ensures r.0.data.extensionUsageCount == s.data.extensionUsageCount + 1
    ensures r.0.data.lastActiveDate == Some(now)
    ensures r.0.data.userFeedback == s.data.userFeedback
  {
    var used := s.(data := s.data.(extensionUsageCount := s.data.extensionUsageCount + 1, lastActiveDate := Some(now)));
    CheckFeedbackEligibility(used, now)
  }

  /** `handleFeedbackSelection`: the answer is recorded; nothing else in the record changes. */
  function HandleFeedbackSelection(s: System, answer: Answer): (r: System)
    ensures HasAnswer(r.data)
    ensures r.data == s.data.(userFeedback := Some(AnswerText(answer)))
  {
    s.(data := s.data.(userFeedback := Some(AnswerText(answer))))
  }

  /** `clearFeedbackRecord`: the answer is forgotten so the prompt may show again. */
  function ClearFeedbackRecord(s: System): (r: System)
    ensures !HasAnswer(r.data)
    ensures r.data == s.data.(userFeedback := None)
  {
    s.(data := s.data.(userFeedback := None))
  }

  /** The prompt is removed from the page. */
  function ClosePopup(s: System): (r: System)
    ensures !r.popupOpen && r.data == s.data
  {
    s.(popupOpen := false)
  }

  /** A stored record: each field present or absent; a present field may itself be `null`. */
  datatype StoredFeedback = StoredFeedback(
    hasShownFeedback: Option<bool>,
    feedbackShownCount: Option<nat>,
    lastFeedbackShown: Option<Option<int>>,
    userFeedback: Option<Option<string>>,
    extensionUsageCount: Option<nat>,
    lastActiveDate: Option<Option<int>>)

  /** `loadFeedbackData`: the stored record spread over the current one. */
  function LoadFeedbackData(current: FeedbackData, stored: Option<StoredFeedback>): (r: FeedbackData)
    ensures stored.None? ==> r == current
    ensures stored.Some? ==> r.hasShownFeedback == stored.value.hasShownFeedback.GetOr(current.hasShownFeedback)
    ensures stored.Some? ==> r.feedbackShownCount == stored.value.feedbackShownCount.GetOr(current.feedbackShownCount)
    ensures stored.Some? ==> r.lastFeedbackShown == stored.value.lastFeedbackShown.GetOr(current.lastFeedbackShown)
    ensures stored.Some? ==> r.userFeedback == stored.value.userFeedback.GetOr(current.userFeedback)
    ensures stored.Some? ==> r.extensionUsageCount == stored.value.extensionUsageCount.GetOr(current.extensionUsageCount)
    ensures stored.Some? ==> r.lastActiveDate == stored.value.lastActiveDate.GetOr(current.lastActiveDate)
  {
    match stored
    case None => current
    case Some(st) =>
      FeedbackData(
        st.hasShownFeedback.GetOr(current.hasShownFeedback),
        st.feedbackShownCount.GetOr(current.feedbackShownCount),
        st.lastFeedbackShown.GetOr(current.lastFeedbackShown),
        st.userFeedback.GetOr(current.userFeedback),
        st.extensionUsageCount.GetOr(current.extensionUsageCount),
        st.lastActiveDate.GetOr(current.lastActiveDate))
  }

  /** Loading a record with every field absent keeps the defaults. */
  lemma LoadEmptyKeepsDefaults()
    ensures LoadFeedbackData(DefaultFeedbackData, Some(StoredFeedback(None, None, None, None, None, None))) == DefaultFeedbackData
  {
  }

  /** What can happen to the feedback system. */
  datatype Event = Use(now: int) | Check(now: int) | Select(answer: Answer) | Clear | Close

  /** One event: the new system and whether the prompt was shown. */
  function Step(s: System, e: Event): (r: (System, bool))
  {
    match e
    case Use(now) => IncrementUsageCount(s, now)
    case Check(now) => CheckFeedbackEligibility(s, now)
    case Select(answer) => (HandleFeedbackSelection(s, answer), false)
    case Clear => (ClearFeedbackRecord(s), false)
    case Close => (ClosePopup(s), false)
  }

  /** A run of events: the final system and how many times the prompt was shown. */
  function Run(s: System, events: seq<Event>): (r: (System, nat))
    decreases |events|
  {
    if |events| == 0 then (s, 0)
    else
      var (next, shown) := Step(s, events[0]);
      var rest := Run(next, events[1..]);
      (rest.0, rest.1 + if shown then 1 else 0)
  }

  /** The show count only changes by the shows, and never passes 3 on its own. */
  lemma {:induction false} RunCountsShows(s: System, events: seq<Event>)
    requires s.data.feedbackShownCount <= MaxShows
    ensures Run(s, events).0.data.feedbackShownCount == s.data.feedbackShownCount + Run(s, events).1
    ensures Run(s, events).0.data.feedbackShownCount <= MaxShows
    decreases |events|
  {
    if |events| > 0 {
      var (next, shown) := Step(s, events[0]);
      assert next.data.feedbackShownCount == s.data.feedbackShownCount + (if shown then 1 else 0);
      RunCountsShows(next, events[1..]);
    }
  }

  /** From a fresh record the prompt is shown at most three times, whatever happens. */
  lemma ShownAtMostThreeTimes(events: seq<Event>)
    ensures Run(System(DefaultFeedbackData, false), events).1 <= MaxShows
  {
    RunCountsShows(System(DefaultFeedbackData, false), events);
  }

  /** Once an answer is recorded, no prompt is shown until the record is cleared. */
  lemma {:induction false} AnswerSilences(s: System, events: seq<Event>)
    requires HasAnswer(s.data)
    requires forall k :: 0 <= k < |events| ==> events[k] != Clear
    ensures Run(s, events).1 == 0
    decreases |events|
  {
    if |events| > 0 {
      var (next, shown) := Step(s, events[0]);
      assert !shown && HasAnswer(next.data);
      assert forall k :: 0 <= k < |events| - 1 ==> events[1..][k] == events[k + 1];
      AnswerSilences(next, events[1..]);
    }
  }

  /** After a selection the prompt stays away until cleared; after clearing, eligibility depends on the other guards only. */
  lemma SelectThenClear(s: System, answer: Answer, now: int)
    ensures !Eligible(HandleFeedbackSelection(s, answer).data, now)
    ensures Eligible(ClearFeedbackRecord(HandleFeedbackSelection(s, answer)).data, now)
      <==> (s.data.feedbackShownCount < MaxShows && !ShownRecently(s.data, now) && s.data.extensionUsageCount >= MinUsage)
  {
  }

  /** A prompt shown at a non-zero time blocks another for the next seven days. */
  lemma ShownBlocksForAWeek(s: System, now: int, later: int)
    requires !s.popupOpen && now != 0 && later < now + SevenDays
    ensures !Eligible(ShowFeedbackPopup(s, now).0.data, later)
  {
  }

  /** Fewer than five uses never show the prompt. */
  lemma FewUsesNoPrompt(s: System, now: int)
    requires s.data.extensionUsageCount < MinUsage
    ensures !CheckFeedbackEligibility(s, now).1
  {
  }
}
