/**
  The REST boundary as seen by the list controllers. A network call is not
  performed: its outcome is an input of type `Fetched`. The shared
  "load the collection on mount" contract lives here too, since the three
  list controllers implement it identically.
 */
module Remote {
  import opened Wrappers

  /**
    What a `fetch` (followed by reading the body) hands back to a handler:
    a 2xx response with its decoded body, a non-2xx response
    (`response.ok` false), or an exception from `fetch` or the body reader
    (`message` as for `Result.Rejected`).
   */
  datatype Fetched<+T> = Ok(body: T) | NotOk | Threw(message: Option<string>)

  /** Text shown for a caught value that is not an `Error`. */
  const GenericError := "An error occurred"

  /**
    The reason a mutation handler rejects with when its request did not
    succeed: `failMessage` for a non-2xx status, the exception otherwise.
   */
  function RejectionReason<T>(resp: Fetched<T>, failMessage: string): (reason: Option<string>)
    requires !resp.Ok?
    ensures resp.NotOk? ==> reason == Some(failMessage)
    ensures resp.Threw? ==> reason == resp.message
  {
    if resp.NotOk? then Some(failMessage) else resp.message
  }

  /** `err instanceof Error ? err.message : 'An error occurred'`. */
  function CaughtMessage(reason: Option<string>): (m: string)
    ensures reason.Some? ==> m == reason.value
    ensures reason.None? ==> m == GenericError
  {
    reason.GetOr(GenericError)
  }

  /** A list controller's collection together with its load status. */
  datatype Listing<T> = Listing(items: seq<T>, loading: bool, error: Option<string>)

  /** State on mount, before the initial GET has settled. */
  function Mounted<T>(): Listing<T> {
    Listing([], true, None)
  }

  /**
    The initial GET of the full collection (`fetchFaqs`, `fetchQuestions`,
    `fetchVoices`): on success the collection is replaced by the response;
    on failure the error text is recorded and the collection is left as it
    was; loading ends in both cases.
   */
  function Load<T>(st: Listing<T>, resp: Fetched<seq<T>>, failMessage: string): (r: Listing<T>)
    ensures !r.loading
    ensures resp.Ok? ==> r.items == resp.body && r.error == st.error
    ensures resp.NotOk? ==> r.items == st.items && r.error == Some(failMessage)
    ensures resp.Threw? ==> r.items == st.items && r.error == Some(CaughtMessage(resp.message))
  {
    match resp
    case Ok(data) => st.(items := data, loading := false)
    case _ => st.(loading := false, error := Some(CaughtMessage(RejectionReason(resp, failMessage))))
  }

  /** What a list view renders, in the order its guards are checked. */
  datatype Screen = Spinner | ErrorBanner(message: string) | Rows

  /**
    The spinner exactly while loading; after that the error banner, with the
    recorded text, exactly when that text is truthy (non-empty); the rows
    otherwise.
   */
  function ScreenOf<T>(st: Listing<T>): (v: Screen)
    ensures v.Spinner? <==> st.loading
    ensures v.ErrorBanner? <==> !st.loading && st.error.Some? && st.error.value != ""
    ensures v.ErrorBanner? ==> st.error == Some(v.message)
  {
    if st.loading then Spinner
    else if st.error.Some? && st.error.value != "" then ErrorBanner(st.error.value)
    else Rows
  }

  /**
    After the initial load the view never shows the spinner. It shows the
    error banner exactly when the load failed, except that a caught `Error`
    with an empty message records `''`, which is falsy, so the banner is
    skipped and the (empty) rows show. A failed
    load never merges partial data.
   */
  lemma LoadOnMountSettles<T>(resp: Fetched<seq<T>>, failMessage: string)
    requires failMessage != ""
    ensures var r := Load(Mounted<T>(), resp, failMessage);
      && ScreenOf(r) != Spinner
      && (ScreenOf(r) == Rows <==> resp.Ok? || resp == Threw(Some("")))
      && (resp.Ok? ==> r.items == resp.body)
      && (!resp.Ok? ==> r.items == [])
  {
  }
}
