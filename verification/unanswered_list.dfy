/**
  The unanswered-questions list controller: it owns the question
  collection, loads it and the known FAQ categories on mount, and removes a
  question locally after a confirmed convert or delete.
 */
module UnansweredList {
  import opened Wrappers
  import opened Seqs
  import opened Remote
  import opened Faqs
  import ConvertForm

  datatype Question = Question(id: int, question: string, frequency: int, timestamp: string, reviewed: bool)

  /** The collection with its load status, and the categories offered by the convert form. */
  datatype UnansweredPage = UnansweredPage(list: Listing<Question>, categories: seq<string>)

  const LoadFailed := "Failed to fetch unanswered questions"
  const ConvertFailed := "Failed to convert to FAQ"
  const DeleteFailed := "Failed to delete question"

  function MountPage(): (page: UnansweredPage)
    ensures page.categories == [General] && page.list.loading && page.list.items == []
    ensures page.list.error == None
  {
    UnansweredPage(Remote.Mounted(), [General])
  }

  /** `fetchQuestions`: questions are replaced only on success. */
  function LoadQuestions(page: UnansweredPage, resp: Fetched<seq<Question>>): (r: UnansweredPage)
    ensures !r.list.loading && r.categories == page.categories
    ensures resp.Ok? ==> r.list.items == resp.body && r.list.error == page.list.error
    ensures resp.NotOk? ==> r.list.items == page.list.items && r.list.error == Some(LoadFailed)
    ensures resp.Threw? ==> r.list.items == page.list.items && r.list.error == Some(CaughtMessage(resp.message))
  {
    page.(list := Load(page.list, resp, LoadFailed))
  }

  /**
    `fetchCategories`, given the outcome of `GET /api/faq`: the derived
    category list replaces the current one only when it is non-empty, which
    is exactly when the FAQ collection is non-empty; a failed request changes
    nothing (errors are swallowed).
   */
  function LoadCategories(page: UnansweredPage, resp: Fetched<seq<Faq>>): (r: UnansweredPage)
    ensures r.list == page.list
    ensures resp.Ok? && |resp.body| > 0 ==> r.categories == Categories(resp.body)
    ensures !(resp.Ok? && |resp.body| > 0) ==> r.categories == page.categories
  {
    if resp.Ok? then
      CategoriesSpec(resp.body);
      var cats := Categories(resp.body);
      if |cats| > 0 then page.(categories := cats) else page
    else page
  }

  /** The form's category list is never empty and never repeats a name. */
  ghost predicate UsableCategories(cats: seq<string>) {
    |cats| > 0 && NoDuplicates(cats)
  }

  /** Mounting establishes usable categories and every category load keeps them usable. */
  lemma CategoriesStayUsable(page: UnansweredPage, resp: Fetched<seq<Faq>>)
    requires UsableCategories(page.categories)
    ensures UsableCategories(LoadCategories(page, resp).categories)
    ensures UsableCategories(MountPage().categories)
  {
    if resp.Ok? {
      CategoriesSpec(resp.body);
    }
  }

  function QuestionId(q: Question): int {
    q.id
  }

  /**
    `handleConvert`, given the outcome of the convert POST: on success the
    question with that id leaves the list and the rest keep their order;
    otherwise it rejects and nothing changes.
   */
  function Convert(page: UnansweredPage, id: int, resp: Fetched<()>): (r: Result<UnansweredPage>)
    ensures r.Done? <==> resp.Ok?
    ensures r.Done? ==> r.value == page.(list := page.list.(items := WithoutKey(page.list.items, QuestionId, id)))
    ensures r.Done? ==> forall q :: q in r.value.list.items ==> q.id != id && q in page.list.items
    ensures r.Done? ==> forall q :: q in page.list.items && q.id != id ==> q in r.value.list.items
    ensures r.Rejected? ==> r.reason == RejectionReason(resp, ConvertFailed)
  {
    WithoutKeyMembers(page.list.items, QuestionId, id);
    if resp.Ok? then Done(page.(list := page.list.(items := WithoutKey(page.list.items, QuestionId, id))))
    else Rejected(RejectionReason(resp, ConvertFailed))
  }

  /** `handleDelete`: as `Convert`, for the DELETE request. */
  function Delete(page: UnansweredPage, id: int, resp: Fetched<()>): (r: Result<UnansweredPage>)
    ensures r.Done? <==> resp.Ok?
    ensures r.Done? ==> r.value == page.(list := page.list.(items := WithoutKey(page.list.items, QuestionId, id)))
    ensures r.Done? ==> forall q :: q in r.value.list.items ==> q.id != id && q in page.list.items
    ensures r.Done? ==> forall q :: q in page.list.items && q.id != id ==> q in r.value.list.items
    ensures r.Rejected? ==> r.reason == RejectionReason(resp, DeleteFailed)
  {
    WithoutKeyMembers(page.list.items, QuestionId, id);
    if resp.Ok? then Done(page.(list := page.list.(items := WithoutKey(page.list.items, QuestionId, id))))
    else Rejected(RejectionReason(resp, DeleteFailed))
  }

  /**
    Submitting the convert form of question `id`: a failed guard sends
    nothing and changes nothing; otherwise the POST's outcome decides as in
    `Convert`, and a successful convert removes the question even though
    the form's own state is never reset.
   */
  function SubmitConvert(page: UnansweredPage, id: int, d: ConvertForm.ConvertDraft, resp: Fetched<()>): (r: Result<UnansweredPage>)
    ensures ConvertForm.SubmitRequest(d, id).None? ==> r == Done(page)
    ensures ConvertForm.SubmitRequest(d, id).Some? && resp.Ok? ==>
      r.Done? && forall q :: q in r.value.list.items ==> q.id != id
    ensures ConvertForm.SubmitRequest(d, id).Some? ==> r == Convert(page, id, resp)
    ensures ConvertForm.SubmitRequest(d, id).Some? && !resp.Ok? ==> r.Rejected?
  {
    if ConvertForm.SubmitRequest(d, id).None? then Done(page) else Convert(page, id, resp)
  }
}
