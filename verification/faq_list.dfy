/**
  The FAQ list controller: it owns the FAQ collection, loads it on mount and
  patches it locally after each confirmed create, update and delete (it never
  refetches).
 */
module FaqList {
  import opened Wrappers
  import opened Seqs
  import opened Remote
  import opened Faqs
  import AddFaqForm
  import FaqItem

  /** The controller's state: the collection with its load status, and whether the add form is open. */
  datatype FaqPage = FaqPage(list: Listing<Faq>, adding: bool)

  const LoadFailed := "Failed to fetch FAQs"
  const AddFailed := "Failed to add FAQ"
  const UpdateFailed := "Failed to update FAQ"
  const DeleteFailed := "Failed to delete FAQ"

  function MountPage(): (page: FaqPage)
    ensures page.list.loading && page.list.items == [] && page.list.error == None
    ensures !page.adding
  {
    FaqPage(Remote.Mounted(), false)
  }

  /** `fetchFaqs`. */
  function LoadFaqs(page: FaqPage, resp: Fetched<seq<Faq>>): (r: FaqPage)
    ensures !r.list.loading && r.adding == page.adding
    ensures resp.Ok? ==> r.list.items == resp.body && r.list.error == page.list.error
    ensures resp.NotOk? ==> r.list.items == page.list.items && r.list.error == Some(LoadFailed)
    ensures resp.Threw? ==> r.list.items == page.list.items && r.list.error == Some(CaughtMessage(resp.message))
  {
    page.(list := Load(page.list, resp, LoadFailed))
  }

  /**
    `handleAdd`, given the outcome of the POST: on success the returned FAQ
    becomes the first record, the old records follow in their old order, and
    the form closes; otherwise it rejects and nothing changes.
   */
  function Add(page: FaqPage, resp: Fetched<Faq>): (r: Result<FaqPage>)
    ensures r.Done? <==> resp.Ok?
    ensures r.Done? ==>
      && |r.value.list.items| == |page.list.items| + 1
      && r.value.list.items[0] == resp.body
      && r.value.list.items[1..] == page.list.items
      && !r.value.adding
      && r.value.list.loading == page.list.loading && r.value.list.error == page.list.error
    ensures r.Rejected? ==> r.reason == RejectionReason(resp, AddFailed)
  {
    match resp
    case Ok(created) => Done(FaqPage(page.list.(items := [created] + page.list.items), false))
    case _ => Rejected(RejectionReason(resp, AddFailed))
  }

  /** `faqs.find((f) => f.id === id)`: the first record with that id. */
  function Find(faqs: seq<Faq>, id: int): (r: Option<Faq>)
    ensures r.None? <==> forall i :: 0 <= i < |faqs| ==> faqs[i].id != id
    ensures r.Some? ==> exists i :: 0 <= i < |faqs| && faqs[i] == r.value && r.value.id == id &&
                          forall j :: 0 <= j < i ==> faqs[j].id != id
    decreases |faqs|
  {
    if |faqs| == 0 then None
    else if faqs[0].id == id then Some(faqs[0])
    else Find(faqs[1..], id)
  }

  /** `prev.map((f) => (f.id === id ? { ...f, question, answer } : f))`. */
  function Patch(faqs: seq<Faq>, id: int, question: string, answer: string): (r: seq<Faq>)
    ensures |r| == |faqs|
    ensures forall i :: 0 <= i < |faqs| && faqs[i].id == id ==>
              r[i] == faqs[i].(question := question, answer := answer)
    ensures forall i :: 0 <= i < |faqs| && faqs[i].id != id ==> r[i] == faqs[i]
    decreases |faqs|
  {
    if |faqs| == 0 then []
    else
      var f := faqs[0];
      [if f.id == id then f.(question := question, answer := answer) else f] + Patch(faqs[1..], id, question, answer)
  }

  /** The body of `PUT /api/faq/{id}`. */
  datatype UpdateBody = UpdateBody(question: string, answer: string, category: Option<string>)

  /**
    The request `handleUpdate` sends, if any: none when no record has the id;
    otherwise the new question and answer with the record's existing
    category (not a user-supplied one).
   */
  function UpdateRequest(faqs: seq<Faq>, id: int, question: string, answer: string): (r: Option<UpdateBody>)
    ensures r.None? <==> forall i :: 0 <= i < |faqs| ==> faqs[i].id != id
    ensures r.Some? ==> r.value.question == question && r.value.answer == answer
    ensures r.Some? ==> exists i :: 0 <= i < |faqs| && faqs[i].id == id && r.value.category == faqs[i].category &&
                          forall j :: 0 <= j < i ==> faqs[j].id != id
  {
    match Find(faqs, id)
    case None => None
    case Some(f) => Some(UpdateBody(question, answer, f.category))
  }

  /**
    `handleUpdate`, given the outcome of the PUT (ignored when no request is
    sent): an unknown id is a silent no-op; on success only the matching
    records' question and answer change; otherwise it rejects and nothing
    changes.
   */
  function Update(page: FaqPage, id: int, question: string, answer: string, resp: Fetched<()>): (r: Result<FaqPage>)
    ensures UpdateRequest(page.list.items, id, question, answer).None? ==> r == Done(page)
    ensures UpdateRequest(page.list.items, id, question, answer).Some? ==>
      (r.Done? <==> resp.Ok?) &&
      (r.Done? ==> r.value == page.(list := page.list.(items := Patch(page.list.items, id, question, answer)))) &&
      (r.Rejected? ==> r.reason == RejectionReason(resp, UpdateFailed))
  {
    if UpdateRequest(page.list.items, id, question, answer).None? then Done(page)
    else if resp.Ok? then Done(page.(list := page.list.(items := Patch(page.list.items, id, question, answer))))
    else Rejected(RejectionReason(resp, UpdateFailed))
  }

  function FaqId(f: Faq): int {
    f.id
  }

  /**
    `handleDelete`, given the outcome of the DELETE: on success no record
    with that id is left, every other record stays, in its relative order;
    otherwise it rejects and nothing changes.
   */
  function Delete(page: FaqPage, id: int, resp: Fetched<()>): (r: Result<FaqPage>)
    ensures r.Done? <==> resp.Ok?
    ensures r.Done? ==> r.value == page.(list := page.list.(items := WithoutKey(page.list.items, FaqId, id)))
    ensures r.Done? ==> forall f :: f in r.value.list.items ==> f.id != id && f in page.list.items
    ensures r.Done? ==> forall f :: f in page.list.items && f.id != id ==> f in r.value.list.items
    ensures r.Rejected? ==> r.reason == RejectionReason(resp, DeleteFailed)
  {
    WithoutKeyMembers(page.list.items, FaqId, id);
    if resp.Ok? then Done(page.(list := page.list.(items := WithoutKey(page.list.items, FaqId, id))))
    else Rejected(RejectionReason(resp, DeleteFailed))
  }

  /**
    An update never moves a record between categories: the derived category
    list and the grouping keys are the same before and after.
   */
  lemma UpdateKeepsCategories(faqs: seq<Faq>, id: int, question: string, answer: string)
    ensures Categories(Patch(faqs, id, question, answer)) == Categories(faqs)
    ensures GroupKeys(Grouped(Patch(faqs, id, question, answer))) == GroupKeys(Grouped(faqs))
  {
    assert CategoryKeys(Patch(faqs, id, question, answer)) == CategoryKeys(faqs);
    GroupedKeys(faqs);
    GroupedKeys(Patch(faqs, id, question, answer));
  }

  /**
    The category of a newly added FAQ heads the derived category list,
    since the new record is scanned first.
   */
  lemma AddedCategoryComesFirst(page: FaqPage, created: Faq)
    ensures var r := Add(page, Ok(created));
      r.Done? && Categories(r.value.list.items)[0] == CategoryOf(created)
  {
    var items := Add(page, Ok(created)).value.list.items;
    DistinctStartsWithHead(CategoryKeys(items));
  }

  /**
    Submitting the add form: nothing is sent and nothing changes when the
    guard fails; otherwise the POST's outcome decides as in `Add`.
   */
  function SubmitAdd(page: FaqPage, form: AddFaqForm.AddForm, resp: Fetched<Faq>): (r: Result<FaqPage>)
    ensures AddFaqForm.SubmitRequest(form).None? ==> r == Done(page)
    ensures AddFaqForm.SubmitRequest(form).Some? ==> r == Add(page, resp)
  {
    if AddFaqForm.SubmitRequest(form).None? then Done(page) else Add(page, resp)
  }

  /**
    Saving an edit through the controller: the row leaves edit mode exactly
    when the PUT succeeded, and then the record shows the draft while keeping
    its id, category and creation time.
   */
  lemma SaveFromItem(page: FaqPage, faq: Faq, st: FaqItem.ItemState, resp: Fetched<()>)
    requires faq in page.list.items
    requires FaqItem.ScreenOf(st) == FaqItem.Editing
    ensures var res := Update(page, faq.id, st.draftQuestion, st.draftAnswer, resp);
      var st' := FaqItem.Press(st, faq, FaqItem.Save, res.Done?);
      && (!st'.editing <==> resp.Ok?)
      && (resp.Ok? ==> forall f :: f in res.value.list.items && f.id == faq.id ==>
            f.question == st.draftQuestion && f.answer == st.draftAnswer)
  {
    var faqs := page.list.items;
    var k :| 0 <= k < |faqs| && faqs[k] == faq;
    assert UpdateRequest(faqs, faq.id, st.draftQuestion, st.draftAnswer).Some?;
  }
}
