/** The survey detail page (src/pages/SurveyDetails.tsx): its own copy of
    the status colour switch, the rule that only a survey in "Draft" may be
    edited or deleted (in the handlers and on the buttons), the Results tab
    that needs at least one response, and the avatar initials. */
module SurveyDetails {
  import opened Types
  import opened Toasts
  import opened Text
  import SurveyCard

  const DraftClass := "bg-survey-draft text-white"
  const ActiveClass := "bg-survey-active text-white"
  const ClosedClass := "bg-survey-closed text-white"
  const DefaultClass := "bg-gray-500 text-white"

  /** getStatusColor, this page's copy. */
  function StatusColor(status: string): (r: string)
    ensures r == DraftClass <==> Lower(status) == "draft"
    ensures r == ActiveClass <==> Lower(status) == "active"
    ensures r == ClosedClass <==> Lower(status) == "closed"
    ensures r == DefaultClass <==> Lower(status) !in {"draft", "active", "closed"}
  {
    match Lower(status)
    case "draft" => DraftClass
    case "active" => ActiveClass
    case "closed" => ClosedClass
    case _ => DefaultClass
  }

  /** The two copies of getStatusColor agree on every string. */
  lemma StatusColorMatchesCard(status: string)
    ensures StatusColor(status) == SurveyCard.StatusColor(status)
  {
  }

  /** Case does not matter to the colour. */
  lemma StatusColorIgnoresCase(status: string)
    ensures StatusColor(Upper(status)) == StatusColor(status)
    ensures StatusColor(Lower(status)) == StatusColor(status)
  {
    LowerOfUpper(status);
    LowerIdempotent(status);
  }

  /** What a handler did: the toast it showed and whether it got past its guard. */
  datatype HandlerResult = HandlerResult(toast: Toast, proceeds: bool)

  /** `survey?.status !== "Draft"`: a page without a survey refuses too. */
  predicate NotDraft(survey: Option<Survey>)
  {
    !(survey.Some? && StatusName(survey.value.status) == "Draft")
  }

  /** handleEditSurvey. */
  function HandleEdit(survey: Option<Survey>): (r: HandlerResult)
    ensures r.proceeds <==> survey.Some? && survey.value.status == Draft
    ensures !r.proceeds ==> r.toast == Toast(Some("Cannot Edit"), Destructive)
    ensures r.proceeds ==> r.toast == Toast(Some("Edit Survey"), Default)
  {
    if NotDraft(survey) then HandlerResult(Toast(Some("Cannot Edit"), Destructive), false)
    else HandlerResult(Toast(Some("Edit Survey"), Default), true)
  }

  /** handleDeleteSurvey. */
  function HandleDelete(survey: Option<Survey>): (r: HandlerResult)
    ensures r.proceeds <==> survey.Some? && survey.value.status == Draft
    ensures !r.proceeds ==> r.toast == Toast(Some("Cannot Delete"), Destructive)
    ensures r.proceeds ==> r.toast == Toast(None, Default)
  {
    if NotDraft(survey) then HandlerResult(Toast(Some("Cannot Delete"), Destructive), false)
    else HandlerResult(Toast(None, Default), true)
  }

  /** `disabled={survey.status !== "Draft"}` on the Edit and Delete buttons. */
  predicate EditDisabled(survey: Survey)
  {
    StatusName(survey.status) != "Draft"
  }

  predicate DeleteDisabled(survey: Survey)
  {
    StatusName(survey.status) != "Draft"
  }

  /** The buttons and the handlers apply the same rule: a click that the
      button allows always gets past the handler's guard, and vice versa. */
  lemma ButtonsMatchHandlers(survey: Survey)
    ensures EditDisabled(survey) <==> !HandleEdit(Some(survey)).proceeds
    ensures DeleteDisabled(survey) <==> !HandleDelete(Some(survey)).proceeds
    ensures EditDisabled(survey) <==> survey.status != Draft
  {
  }

  /** The three tabs of the page. */
  datatype Tab = DetailsTab | ShareTab | ResultsTab

  /** `<Tabs defaultValue="details">`: the page opens on Details. */
  const FirstTab := DetailsTab

  /** `disabled={survey.responses === 0}` on the Results tab. */
  predicate ResultsTabDisabled(survey: Survey)
  {
    survey.responses == 0
  }

  /** A click on a tab trigger while `current` is shown: a disabled trigger
      ignores the click, any other trigger shows its tab. */
  function Click(survey: Survey, current: Tab, clicked: Tab): (r: Tab)
    ensures r == clicked || r == current
    ensures clicked != ResultsTab || !ResultsTabDisabled(survey) ==> r == clicked
    ensures clicked == ResultsTab && ResultsTabDisabled(survey) ==> r == current
  {
    if clicked == ResultsTab && ResultsTabDisabled(survey) then current else clicked
  }

  /** The tab shown after the clicks in `clicks`, starting from `current`. */
  function TabAfter(survey: Survey, current: Tab, clicks: seq<Tab>): Tab
    decreases |clicks|
  {
    if clicks == [] then current
    else TabAfter(survey, Click(survey, current, clicks[0]), clicks[1..])
  }

  /** Without responses the Results content (the report charts) is never
      shown, whatever the user clicks, starting from the first tab. */
  lemma {:induction false} NoResponsesNoResults(survey: Survey, current: Tab, clicks: seq<Tab>)
    requires survey.responses == 0
    requires current != ResultsTab
    ensures TabAfter(survey, current, clicks) != ResultsTab
    decreases |clicks|
  {
    if clicks != [] {
      NoResponsesNoResults(survey, Click(survey, current, clicks[0]), clicks[1..]);
    }
  }

  /** The page never shows Results for a survey without responses. */
  lemma ResultsHiddenWithoutResponses(survey: Survey, clicks: seq<Tab>)
    requires survey.responses == 0
    ensures TabAfter(survey, FirstTab, clicks) != ResultsTab
  {
    NoResponsesNoResults(survey, FirstTab, clicks);
  }

  /** The last click decides the tab, unless it is on a disabled trigger;
      so with at least one response every tab, Results included, is one
      click away. */
  lemma {:induction false} LastEnabledClickWins(survey: Survey, current: Tab, clicks: seq<Tab>)
    requires clicks != []
    requires clicks[|clicks| - 1] != ResultsTab || !ResultsTabDisabled(survey)
    ensures TabAfter(survey, current, clicks) == clicks[|clicks| - 1]
    decreases |clicks|
  {
    if |clicks| > 1 {
      var rest := clicks[1..];
      assert rest[|rest| - 1] == clicks[|clicks| - 1];
      LastEnabledClickWins(survey, Click(survey, current, clicks[0]), rest);
    }
  }

  /** `name.split(' ').map(n => n[0]).join('').toUpperCase()`, written out
      for assigned employees and for the employee ratings. */
  function AvatarInitials(name: string): (r: string)
    ensures r == Upper(SurveyCard.WordStarts(name))
    ensures |r| <= |name|
  {
    SurveyCard.FirstLettersOfSplit(name);
    Upper(SurveyCard.FirstLetters(SurveyCard.Split(name, ' ')))
  }

  /** The page's initials agree with the card's getInitials. */
  lemma AvatarInitialsMatchCard(name: string)
    ensures AvatarInitials(name) == SurveyCard.GetInitials(name)
  {
  }
}
