/** The template detail page (src/pages/TemplateDetails.tsx): a template in
    use by surveys may not be deleted and its questions may not be added,
    moved or removed; editing proceeds with a warning. The same rule
    disables the buttons, and the move buttons are also disabled at the
    ends of the list. */
module TemplateDetails {
  import opened Types
  import opened Toasts

  /** What a handler did: the toasts it showed, in order, and whether it got
      past its guard. */
  datatype HandlerResult = HandlerResult(toasts: seq<Toast>, proceeds: bool)

  datatype Direction = Up | Down

  /** `template?.isUsedInSurveys`: a page without a template counts as unused. */
  predicate Used(template: Option<Template>)
  {
    template.Some? && template.value.isUsedInSurveys
  }

  /** A guarded handler: the refusal toast, or the toast of the action. */
  function Guarded(template: Option<Template>, refusal: string, action: Option<string>): (r: HandlerResult)
    ensures r.proceeds <==> !Used(template)
    ensures !r.proceeds ==> r.toasts == [Toast(Some(refusal), Destructive)]
    ensures r.proceeds ==> r.toasts == [Toast(action, Default)]
  {
    if Used(template) then HandlerResult([Toast(Some(refusal), Destructive)], false)
    else HandlerResult([Toast(action, Default)], true)
  }

  /** handleEditTemplate: never refused; a used template first gets the
      "Limited Editing" notice. */
  function HandleEdit(template: Option<Template>): (r: HandlerResult)
    ensures r.proceeds
    ensures |r.toasts| == (if Used(template) then 2 else 1)
    ensures r.toasts[|r.toasts| - 1] == Toast(Some("Edit Template"), Default)
    ensures Used(template) ==> r.toasts[0] == Toast(Some("Limited Editing"), Default)
    ensures forall i :: 0 <= i < |r.toasts| ==> r.toasts[i].variant == Default
  {
    var notice := if Used(template) then [Toast(Some("Limited Editing"), Default)] else [];
    HandlerResult(notice + [Toast(Some("Edit Template"), Default)], true)
  }

  /** handleDeleteTemplate. */
  function HandleDelete(template: Option<Template>): (r: HandlerResult)
    ensures r.proceeds <==> !Used(template)
    ensures !r.proceeds ==> r.toasts == [Toast(Some("Cannot Delete"), Destructive)]
  {
    Guarded(template, "Cannot Delete", None)
  }

  /** handleAddQuestion. */
  function HandleAddQuestion(template: Option<Template>): (r: HandlerResult)
    ensures r.proceeds <==> !Used(template)
    ensures !r.proceeds ==> r.toasts == [Toast(Some("Cannot Modify Questions"), Destructive)]
  {
    Guarded(template, "Cannot Modify Questions", Some("Add Question"))
  }

  /** handleMoveQuestion(index, direction): the refusal depends on the
      template alone, not on where the question is. */
  function HandleMoveQuestion(template: Option<Template>, index: int, direction: Direction): (r: HandlerResult)
    ensures r.proceeds <==> !Used(template)
    ensures !r.proceeds ==> r.toasts == [Toast(Some("Cannot Reorder Questions"), Destructive)]
  {
    Guarded(template, "Cannot Reorder Questions", Some("Move Question"))
  }

  /** handleRemoveQuestion(index). */
  function HandleRemoveQuestion(template: Option<Template>, index: int): (r: HandlerResult)
    ensures r.proceeds <==> !Used(template)
    ensures !r.proceeds ==> r.toasts == [Toast(Some("Cannot Remove Questions"), Destructive)]
  {
    Guarded(template, "Cannot Remove Questions", Some("Remove Question"))
  }

  /** The `disabled` props of the rendered page. */
  predicate DeleteDisabled(t: Template) { t.isUsedInSurveys }
  predicate AddDisabled(t: Template) { t.isUsedInSurveys }
  predicate RemoveDisabled(t: Template) { t.isUsedInSurveys }
  predicate MoveUpDisabled(t: Template, index: int) { t.isUsedInSurveys || index == 0 }
  predicate MoveDownDisabled(t: Template, index: int) { t.isUsedInSurveys || index == |t.questions| - 1 }

  /** A button is disabled exactly when its handler would refuse. */
  lemma ButtonsMatchHandlers(t: Template, index: int)
    ensures DeleteDisabled(t) <==> !HandleDelete(Some(t)).proceeds
    ensures AddDisabled(t) <==> !HandleAddQuestion(Some(t)).proceeds
    ensures RemoveDisabled(t) <==> !HandleRemoveQuestion(Some(t), index).proceeds
    ensures !MoveUpDisabled(t, index) ==> HandleMoveQuestion(Some(t), index, Up).proceeds
    ensures !MoveDownDisabled(t, index) ==> HandleMoveQuestion(Some(t), index, Down).proceeds
  {
  }

  /** An enabled move button never moves a question off the list: up is
      offered only where there is a previous question, down only where
      there is a next one. For an unused template both are offered
      everywhere else. */
  lemma EnabledMovesStayInList(t: Template, index: int)
    requires 0 <= index < |t.questions|
    ensures !MoveUpDisabled(t, index) ==> 0 <= index - 1
    ensures !MoveDownDisabled(t, index) ==> index + 1 < |t.questions|
    ensures !t.isUsedInSurveys ==> (MoveUpDisabled(t, index) <==> index == 0)
    ensures !t.isUsedInSurveys ==> (MoveDownDisabled(t, index) <==> index == |t.questions| - 1)
    ensures t.isUsedInSurveys ==> MoveUpDisabled(t, index) && MoveDownDisabled(t, index)
  {
  }
}
