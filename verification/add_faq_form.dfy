/**
  The "Add New FAQ" form: its fields, the guard that decides whether
  pressing the button sends anything, and the button's disabled state.
 */
module AddFaqForm {
  import opened Wrappers
  import opened Text
  import opened Forms

  datatype AddForm = AddForm(question: string, answer: string, choice: CategoryChoice)

  /** The body of `POST /api/faq`. */
  datatype NewFaq = NewFaq(question: string, answer: string, category: string)

  /** The form as it opens, offered the given categories. */
  function Open(categories: seq<string>): (form: AddForm)
    ensures form.question == "" && form.answer == ""
    ensures form.choice == InitialChoice(categories)
  {
    AddForm("", "", InitialChoice(categories))
  }

  /**
    `handleSubmit`: nothing is sent unless the question, the answer and the
    final category are all non-blank; otherwise the fields are sent as typed
    (untrimmed) with the final category.
   */
  function SubmitRequest(form: AddForm): (r: Option<NewFaq>)
    ensures r.Some? <==> !IsBlank(form.question) && !IsBlank(form.answer) && !IsBlank(FinalCategory(form.choice))
    ensures r.Some? ==> r.value.question == form.question && r.value.answer == form.answer
    ensures r.Some? ==> r.value.category == (if form.choice.isNew then form.choice.newName else form.choice.selected)
  {
    var category := FinalCategory(form.choice);
    if IsBlank(form.question) || IsBlank(form.answer) || IsBlank(category) then None
    else Some(NewFaq(form.question, form.answer, category))
  }

  /**
    The "Add FAQ" button's `disabled` expression: disabled while a request is
    pending, and otherwise disabled exactly when the question, the answer or an
    open new-category name is white space only.
   */
  predicate SubmitDisabled(form: AddForm, loading: bool): (r: bool)
    ensures loading ==> r
    ensures !loading ==> (r <==> AllSpace(form.question) || AllSpace(form.answer)
                                 || (form.choice.isNew && AllSpace(form.choice.newName)))
  {
    || loading
    || IsBlank(form.question)
    || IsBlank(form.answer)
    || (form.choice.isNew && IsBlank(form.choice.newName))
  }

  /**
    The button and the guard agree except on one corner: when an existing
    category made only of white space is selected, the button is enabled but
    pressing it sends nothing.
   */
  lemma ButtonAgreesWithGuard(form: AddForm)
    ensures SubmitRequest(form).Some? ==> !SubmitDisabled(form, false)
    ensures (!SubmitDisabled(form, false) && (form.choice.isNew || !IsBlank(form.choice.selected)))
      ==> SubmitRequest(form).Some?
    ensures (!SubmitDisabled(form, false) && SubmitRequest(form).None?)
      ==> !form.choice.isNew && IsBlank(form.choice.selected)
  {
  }

  /** A question or answer made of white space only never reaches the server. */
  lemma WhiteSpaceOnlyIsNotSent(form: AddForm)
    requires AllSpace(form.question)
    ensures SubmitRequest(form).None?
  {
  }
}
