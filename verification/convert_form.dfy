/**
  The "Convert to FAQ" form shown for an unanswered question: an answer and
  a category, guarded like the add form but without a question field (the
  question text is the unanswered one).
 */
module ConvertForm {
  import opened Wrappers
  import opened Text
  import opened Forms

  datatype ConvertDraft = ConvertDraft(answer: string, choice: CategoryChoice)

  /** `POST /api/unansweredquestion/{id}/convert-to-faq` with body `{answer, category}`. */
  datatype ConvertRequest = ConvertRequest(id: int, answer: string, category: string)

  function Open(categories: seq<string>): (d: ConvertDraft)
    ensures d.answer == "" && d.choice == InitialChoice(categories)
  {
    ConvertDraft("", InitialChoice(categories))
  }

  /**
    `handleSubmit` for question `id`: nothing is sent unless the answer and
    the final category are non-blank; then both are sent as typed.
   */
  function SubmitRequest(d: ConvertDraft, id: int): (r: Option<ConvertRequest>)
    ensures r.Some? <==> !IsBlank(d.answer) && !IsBlank(FinalCategory(d.choice))
    ensures r.Some? ==> r.value.id == id && r.value.answer == d.answer
    ensures r.Some? ==> r.value.category == (if d.choice.isNew then d.choice.newName else d.choice.selected)
  {
    var category := FinalCategory(d.choice);
    if IsBlank(d.answer) || IsBlank(category) then None
    else Some(ConvertRequest(id, d.answer, category))
  }

  /**
    The "Convert to FAQ" button's `disabled` expression: disabled while a request
    is pending, and otherwise disabled exactly when the answer or an open
    new-category name is white space only.
   */
  predicate SubmitDisabled(d: ConvertDraft, loading: bool): (r: bool)
    ensures loading ==> r
    ensures !loading ==> (r <==> AllSpace(d.answer) || (d.choice.isNew && AllSpace(d.choice.newName)))
  {
    loading || IsBlank(d.answer) || (d.choice.isNew && IsBlank(d.choice.newName))
  }

  /**
    An enabled button sends a request unless a white-space-only existing
    category is selected; a sent request implies the button was enabled.
   */
  lemma ButtonAgreesWithGuard(d: ConvertDraft, id: int)
    ensures SubmitRequest(d, id).Some? ==> !SubmitDisabled(d, false)
    ensures (!SubmitDisabled(d, false) && (d.choice.isNew || !IsBlank(d.choice.selected)))
      ==> SubmitRequest(d, id).Some?
  {
  }
}
