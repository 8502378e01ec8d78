# Admin dashboard list controllers, in Dafny

A verified model of the client-side logic of a small administrative
dashboard with three views: FAQ entries, unanswered customer questions and
text-to-speech voices. Each view has a list controller. The controller loads
its collection once and then patches the local copy after every confirmed
create, update, delete, convert or set-default call. It never refetches.
Around the controllers sit small per-row mode machines (view, edit,
confirm-delete, convert), two form submit guards, the category list and
grouping derived from the FAQs, and the voice-preview player with its audio
cache.

Every network call is an input to the model, not an action. For the list
controllers' calls the outcome is a `Remote.Fetched` value: a 2xx response
with its body, a non-2xx response, or an exception with its message. For the
voice preview request it is the boolean `fetchOk` of `Preview.PlayPreview`
(and `Preview.Resolve`), with `playOk` saying whether `audio.play()` resolved. An `async` handler that resolves or throws
becomes a `Wrappers.Result` (`Done` or `Rejected`).

Modules, in dependency order:

- `Wrappers`: `Option` and `Result`.
- `Seqs`: the sequence operations the controllers use. `Filter`
  (`Array.prototype.filter`), `WithoutKey` (the remove-by-id patch) and
  `Distinct` (`[...new Set(xs)]`), with their order, multiplicity and
  first-seen properties.
- `Text`: JavaScript `trim` and the blank test `!s.trim()` used by every
  form guard.
- `Remote`: fetch outcomes and the load-on-mount contract, which all three
  controllers share.
- `Faqs`: the FAQ record, the derived category key (`category || 'general'`),
  the category list and the `reduce` that groups FAQs by category.
- `Forms`: the category picker shared by the add form and the convert form.
- `AddFaqForm`, `FaqItem`, `FaqList`: the FAQ view.
- `ConvertForm`, `QuestionItem`, `UnansweredList`: the unanswered-questions
  view.
- `Voices`: voice records and the default-voice selection.
- `Preview`: the preview player and cache state machine.

The preview player records three things the dashboard itself does not keep:
- how many object URLs were created (`minted`); handles are numbered in
  creation order, so a new one is always fresh;
- how many preview requests were sent (`fetches`);
- which handles were revoked (`released`).

These are ordinary fields, so that the properties "a cache hit sends no
request" and "teardown revokes every handle exactly once" can be stated.

Behaviours of the code that the model keeps as they are:

- A failed set-default is logged and swallowed. It is not re-thrown to the
  card. `Voices.SetDefault` never rejects.
- Set-default leaves exactly one default voice only when the chosen id is
  present and ids are unique. With an absent id it leaves none.
- No code checks that a created FAQ's id differs from the existing ids. The
  model prepends whatever record the server returns.
- A caught `Error` with an empty message records `''`, and that recorded
  message is falsy, so the error banner is skipped and the view falls
  through to its rows (`Remote.LoadOnMountSettles`).
- When `play()` is refused, `audioRef` keeps that audio element. Only the
  playing id and the loading flag are cleared.

## Model

| member | source | states |
|---|---|---|
| Seqs.Filter | components/faq/faq-list.tsx:364 | every element of the filter result passes the test, every element of the input that passes is kept, and no element gets more copies than it has in the input |
| Seqs.FilterIsSubsequence | components/unanswered/unanswered-list.tsx:254 | filtering keeps the survivors in their original relative order |
| Seqs.FilterAppend | components/faq/faq-list.tsx:385-394 | filtering a collection extended at the end is filtering the old part and then the new part |
| Seqs.FilterSplits | components/unanswered/unanswered-list.tsx:266 | a test and its complement split the collection: the two filter results together give back every element with its multiplicity |
| Seqs.WithoutKey | components/unanswered/unanswered-list.tsx:266 | after removing by id, no element with that id is left, every other element is still there, and order is kept |
| Seqs.WithoutKeyMembers | components/faq/faq-list.tsx:364 | an element survives removal by id if and only if it was in the collection and has another id |
| Seqs.WithoutAbsentKey | components/faq/faq-list.tsx:355-365 | removing an id that no record has leaves the collection unchanged |
| Seqs.WithoutKeyDropsExactly | components/unanswered/unanswered-list.tsx:250-254 | the removed records are exactly those with the id: survivors plus removed records give back the old collection, with multiplicities |
| Seqs.Distinct | components/unanswered/unanswered-list.tsx:229 | the de-duplicated list has no repeats, has the same members as the input, and is empty only for an empty input |
| Seqs.DistinctOrderStep | components/faq/faq-list.tsx:367 | extending the input by one element keeps any two de-duplicated elements in the order of their first occurrence |
| Seqs.DistinctIsFirstSeenOrder | components/faq/faq-list.tsx:367 | the de-duplicated list is in order of first occurrence |
| Seqs.DistinctStartsWithHead | components/faq/faq-list.tsx:334 | the first element scanned is the first element of the de-duplicated list |
| Text.TrimStart | components/faq/faq-list.tsx:39 | the leading white space, and only that, is removed; what is left starts with a non-space character |
| Text.TrimEnd | components/unanswered/unanswered-list.tsx:30 | the trailing white space, and only that, is removed |
| Text.Trim | components/faq/faq-list.tsx:39 | what `trim` leaves neither starts nor ends with white space, and nothing is left exactly when the string is white space only |
| Text.IsBlank | components/faq/faq-list.tsx:39 | a string fails the `!s.trim()` test exactly when every character is white space |
| Text.TrimIsSlice | components/unanswered/unanswered-list.tsx:91 | the trimmed string is a contiguous slice of the original, and everything cut off before and after it is white space |
| Remote.RejectionReason | components/faq/faq-list.tsx:329-331 | a non-2xx response rejects with the operation's fixed message; an exception propagates with its own message |
| Remote.Load | components/faq/faq-list.tsx:303-316 | a successful load replaces the collection; a failed one records the error and keeps the old collection; loading always ends |
| Remote.CaughtMessage | components/faq/faq-list.tsx:312 | a caught `Error` contributes its own message; any other thrown value gives "An error occurred" |
| Remote.ScreenOf | components/faq/faq-list.tsx:369-383 | the spinner shows exactly while loading; after that the error banner shows, with the recorded text, exactly when that text is non-empty; the rows show otherwise |
| Remote.LoadOnMountSettles | components/faq/faq-list.tsx:369-383 | after the initial load the spinner is gone; the rows show exactly when the load succeeded (or threw an empty message); a failure never merges data |
| Faqs.CategoryOf | components/faq/faq-list.tsx:387 | a record's derived category is its own category when that is non-empty, and "general" when it is null or empty; never empty |
| Faqs.CategoryKeys | components/faq/faq-list.tsx:367 | one category key per FAQ, in collection order, each the FAQ's derived category |
| Faqs.Categories | components/faq/faq-list.tsx:367 | the category list has no repeats and is no longer than the collection |
| Faqs.CategoriesSpec | components/faq/faq-list.tsx:367 | the category list has no repeats, names exactly the categories derived from the FAQs, is in first-seen order, and is empty iff there are no FAQs |
| Faqs.Push | components/faq/faq-list.tsx:386-393 | one reduce step keeps the number of groups or adds one, and never leaves the grouping empty |
| Faqs.Grouped | components/faq/faq-list.tsx:385-395 | the grouping has no more groups than there are FAQs, and is empty exactly for an empty collection |
| Faqs.PushKeys | components/faq/faq-list.tsx:386-392 | one reduce step keeps the group keys and their order, adding the FAQ's category at the end exactly when it had no group |
| Faqs.PushExisting | components/faq/faq-list.tsx:388-391 | on distinct keys, an existing group gains the FAQ at its end if it is the FAQ's category and is otherwise untouched |
| Faqs.PushNew | components/faq/faq-list.tsx:388-391 | a FAQ of a category with no group opens a new last group holding only that FAQ |
| Faqs.PushGrowsOnlyForNew | components/faq/faq-list.tsx:388-390 | the number of groups grows only when the FAQ's category has no group yet |
| Faqs.PushOntoExistingGroup | components/faq/faq-list.tsx:391 | if an existing group held the filter of its category before the step, it holds the filter of its category over the extended collection after it |
| Faqs.PushOpensNewGroup | components/faq/faq-list.tsx:388-391 | the group opened for a new category is the filter of that category over the extended collection |
| Faqs.PushKeepsGroupAt | components/faq/faq-list.tsx:386-392 | after one reduce step, any single group equals the order-preserving filter of its category |
| Faqs.CategoriesSnoc | components/faq/faq-list.tsx:367 | appending a FAQ adds its category at the end of the category list exactly when the category is new |
| Faqs.GroupedKeys | components/faq/faq-list.tsx:385-395 | the group keys, in order, are exactly the derived category list |
| Faqs.PushKeepsGroupsByFilter | components/faq/faq-list.tsx:385-394 | appending one FAQ keeps every group equal to the order-preserving filter of its category |
| Faqs.GroupedContents | components/faq/faq-list.tsx:385-394 | each group holds exactly the FAQs of its category, in their original relative order |
| Faqs.GroupedPlacesEachFaq | components/faq/faq-list.tsx:421 | every FAQ appears in the group keyed by its derived category |
| Faqs.GroupedPlacesEachFaqOnce | components/faq/faq-list.tsx:388-391 | a FAQ appears in no other group, and groups hold nothing but FAQs of the collection |
| Faqs.PushAsWritten | components/faq/faq-list.tsx:386-392 | one reduce step on the `{}` accumulator throws exactly when the FAQ's category is a key `Object.prototype` supplies, and is `Push` otherwise |
| Faqs.GroupedAsWritten | components/faq/faq-list.tsx:385-395 | the reduce as written throws exactly when some FAQ's derived category is an inherited key, and otherwise yields `Grouped` |
| Faqs.ConstructorCategoryThrows | components/faq/faq-list.tsx:367-391 | a FAQ with category "constructor" is listed in the categories, yet the reduce as written throws on it, while the intended grouping gives it its own group |
| Faqs.FormCategories | components/faq/faq-list.tsx:403 | the add form always gets a non-empty category list, falling back to ["general"] when there are no FAQs |
| Forms.InitialChoice | components/faq/faq-list.tsx:32-34 | the form opens on the first offered category, or "general" when there is none or it is empty, with the new-name field closed and empty |
| Forms.Select | components/faq/faq-list.tsx:76-84 | choosing "+ New Category" opens an empty name field; choosing a category selects it and closes the field |
| Forms.TypeNewName | components/faq/faq-list.tsx:99 | typing replaces the new-category name and leaves the selection and the new-category mode as they were |
| Forms.FinalCategory | components/unanswered/unanswered-list.tsx:29 | the final category is the typed new name in new-category mode, and the selected category otherwise |
| Forms.FinalCategoryFollowsLastPick | components/unanswered/unanswered-list.tsx:60-68 | the last pick decides the final category, whatever was chosen before |
| AddFaqForm.Open | components/faq/faq-list.tsx:30-34 | the add form opens with an empty question and answer |
| AddFaqForm.SubmitRequest | components/faq/faq-list.tsx:37-42 | a request is sent iff question, answer and final category are all non-blank; it carries the fields untrimmed, with the final category |
| AddFaqForm.SubmitDisabled | components/faq/faq-list.tsx:108-113 | the button is disabled while a request is pending, and otherwise exactly when the question, the answer or an open new-category name is white space only |
| AddFaqForm.ButtonAgreesWithGuard | components/faq/faq-list.tsx:106-113 | a sendable form has an enabled button; an enabled button sends unless a white-space-only existing category is selected |
| AddFaqForm.WhiteSpaceOnlyIsNotSent | components/faq/faq-list.tsx:39 | a question made only of white space is never sent |
| FaqItem.Mount | components/faq/faq-list.tsx:132-135 | a new row starts in view mode with the draft equal to the record |
| FaqItem.ScreenOf | components/faq/faq-list.tsx:164-189 | the delete confirmation takes precedence over edit mode |
| FaqItem.Press | components/faq/faq-list.tsx:138-254 | Edit enters edit mode and Delete enters the delete confirmation, changing nothing else; Cancel restores the draft to the record and leaves edit mode; Save leaves edit mode iff the update did not throw and keeps the draft; Confirm Delete and Cancel Delete clear the delete flag and change nothing else; a button not on screen does nothing |
| FaqItem.PressKeepsModesExclusive | components/faq/faq-list.tsx:242-254 | edit and delete are only entered from the plain view, so they are never both on |
| FaqItem.ConfirmDeleteAlwaysReturnsToView | components/faq/faq-list.tsx:158-161 | whatever the outcome of the delete, the row returns to the plain view |
| FaqItem.CancelThenEditShowsRecord | components/faq/faq-list.tsx:148-152 | after Cancel, editing again starts from the record's values |
| FaqList.MountPage | components/faq/faq-list.tsx:298-301 | the page starts loading, with no FAQs, no error and the add form closed |
| FaqList.LoadFaqs | components/faq/faq-list.tsx:303-316 | FAQs are replaced only by a successful load; a non-2xx status records "Failed to fetch FAQs", an exception its own message; loading ends |
| FaqList.Add | components/faq/faq-list.tsx:322-336 | success puts the returned FAQ at index 0, keeps the old records in order behind it, and closes the form; failure rejects and changes nothing |
| FaqList.Find | components/faq/faq-list.tsx:339 | find returns the first record with the id, and nothing iff no record has it |
| FaqList.Patch | components/faq/faq-list.tsx:352 | only records with the id get the new question and answer; their other fields, all other records and the order are unchanged |
| FaqList.UpdateRequest | components/faq/faq-list.tsx:339-346 | no request for an unknown id; otherwise the new question and answer with the first matching record's existing category |
| FaqList.Update | components/faq/faq-list.tsx:338-353 | an unknown id is a no-op that resolves; a successful PUT patches the record; a failed one rejects and changes nothing |
| FaqList.Delete | components/faq/faq-list.tsx:355-365 | success removes exactly the records with the id, keeping the rest in order; failure rejects and changes nothing |
| FaqList.UpdateKeepsCategories | components/faq/faq-list.tsx:345-352 | an update never changes the category list or the group keys |
| FaqList.AddedCategoryComesFirst | components/faq/faq-list.tsx:322-334 | after an add, the new FAQ's category heads the category list |
| FaqList.SubmitAdd | components/faq/faq-list.tsx:37-46 | a failed guard sends nothing and changes nothing; otherwise the POST outcome decides as in Add |
| FaqList.SaveFromItem | components/faq/faq-list.tsx:138-146 | saving an edit leaves edit mode iff the PUT succeeded, and then the record shows the draft |
| ConvertForm.Open | components/unanswered/unanswered-list.tsx:22-26 | the convert form opens with an empty answer and the initial category choice |
| ConvertForm.SubmitRequest | components/unanswered/unanswered-list.tsx:28-37 | a request is sent iff the answer and final category are non-blank; it carries them untrimmed, for the question's id |
| ConvertForm.SubmitDisabled | components/unanswered/unanswered-list.tsx:91 | the button is disabled while a request is pending, and otherwise exactly when the answer or an open new-category name is white space only |
| ConvertForm.ButtonAgreesWithGuard | components/unanswered/unanswered-list.tsx:89-91 | the button and the guard agree except for a selected white-space-only category |
| QuestionItem.ScreenOf | components/unanswered/unanswered-list.tsx:132-143 | the convert form takes precedence over the delete confirmation |
| QuestionItem.Mounted | components/unanswered/unanswered-list.tsx:118-119 | a question row starts in the plain view, neither converting nor deleting |
| QuestionItem.Press | components/unanswered/unanswered-list.tsx:122-195 | Convert opens the convert form and Delete the delete confirmation; Confirm Delete and Cancel always clear the deleting flag; cancelling the form clears the converting flag; a button not on screen does nothing |
| QuestionItem.PressKeepsModesExclusive | components/unanswered/unanswered-list.tsx:183-195 | convert and delete modes are never both on |
| QuestionItem.EveryModeCanReturn | components/unanswered/unanswered-list.tsx:138 | one press on an active screen returns the row to the plain view |
| UnansweredList.MountPage | components/unanswered/unanswered-list.tsx:204-207 | the categories start as ["general"] and the page starts loading with no questions and no error |
| UnansweredList.LoadQuestions | components/unanswered/unanswered-list.tsx:209-222 | questions are replaced only on success; a failure sets the error to the thrown message; loading always ends |
| UnansweredList.LoadCategories | components/unanswered/unanswered-list.tsx:224-236 | the derived list replaces the categories only when it is non-empty; a non-OK response or an exception leaves them unchanged |
| UnansweredList.CategoriesStayUsable | components/unanswered/unanswered-list.tsx:230-232 | the convert form's category list is never empty and never repeats a name |
| UnansweredList.Convert | components/unanswered/unanswered-list.tsx:243-255 | success removes exactly the question with the id, keeping order; failure rejects and the list is untouched |
| UnansweredList.Delete | components/unanswered/unanswered-list.tsx:257-267 | success removes exactly the question with the id, keeping order; failure rejects first |
| UnansweredList.SubmitConvert | components/unanswered/unanswered-list.tsx:28-33 | a failed guard sends nothing; a sent request is exactly `Convert`, so success removes the id's questions and keeps the rest in order, and failure rejects |
| Voices.MountPage | components/voices/voices-list.tsx:107-110 | the page starts loading, with no voices, no error and no default change in flight |
| Voices.LoadVoices | components/voices/voices-list.tsx:116-129 | voices are replaced only by a successful load; a non-2xx status records "Failed to fetch voices", an exception its own message; loading ends |
| Voices.MarkDefault | components/voices/voices-list.tsx:159-164 | every voice is default iff it has the id; no other field and no position changes |
| Voices.MarkDefaultCount | components/voices/voices-list.tsx:160-163 | after the rewrite, the number of defaults equals the number of voices with the id |
| Voices.UniqueIdCount | components/voices/voices-list.tsx:266-268 | with unique ids an id occurs once if present, else never |
| Voices.MarkDefaultLeavesOneDefault | components/voices/voices-list.tsx:158-164 | with unique ids, exactly one voice is default after a set-default on a present id, and none otherwise, whatever the earlier defaults |
| Voices.MarkDefaultIdempotent | components/voices/voices-list.tsx:162 | setting the same default twice is the same as once |
| Voices.SetDefault | components/voices/voices-list.tsx:147-170 | success rewrites every flag in one pass; failure is swallowed and leaves voices unchanged; the in-progress flag is always cleared |
| Voices.CardSetDefault | components/voices/voices-list.tsx:31-39 | a voice already default sends no request and changes nothing |
| Preview.MountedIsValid | components/voices/voices-list.tsx:111-114 | the player starts with nothing playing, cached or fetched, in a consistent state |
| Preview.BeginPreview | components/voices/voices-list.tsx:183-189 | the previous audio is stopped and the new voice is marked playing before any resource is resolved |
| Preview.Resolve | components/voices/voices-list.tsx:191-225 | a hit plays the cached handle with no request; a miss sends one request and only a successful one caches and plays a fresh handle; a failed request or a refused `play()` clears the playing id and the loading flag |
| Preview.PlayPreview | components/voices/voices-list.tsx:172-226 | pressing the playing voice stops it with no request; at most this voice plays, from its model's cached handle; a hit sends nothing; a miss sends one request, caches a fresh handle only on success, and always ends with the loading flag cleared; a failed request or a refused `play()` clears the playing id and the loading flag; the previous element is dropped, and `audioRef` ends holding this voice's element, even a refused one, or none after a failed request; nothing is evicted |
| Preview.PlaybackFinished | components/voices/voices-list.tsx:209-218 | ending or erroring clears the playing id and the audio element and changes nothing else: the loading flag and the cache are kept |
| Preview.Teardown | components/voices/voices-list.tsx:136-145 | teardown stops the audio, revokes every cached handle and empties the cache |
| Preview.TeardownReleasesEverything | components/voices/voices-list.tsx:142-143 | every handle ever created is revoked at teardown, each exactly once |
| Preview.PlayPreviewKeepsValid | components/voices/voices-list.tsx:192-207 | every press and every playback end keeps the cache bookkeeping consistent |
| Preview.SharedModelFetchesOnce | components/voices/voices-list.tsx:192-202 | two voices sharing a model cause at most one preview request when the first succeeds |
| Preview.ToggleStops | components/voices/voices-list.tsx:174-181 | pressing a playing voice again leaves nothing playing and sends no request |

## Left out

- Faqs.GroupedKeys: states the intended grouping; the code as written throws instead when a derived category is a key inherited from `Object.prototype` (see Findings), and agrees with `Grouped` on every other collection (`Faqs.GroupedAsWritten`).
- Faqs.GroupedContents: the same; it holds of the code as written only for collections without an inherited category key.
- Faqs.GroupedPlacesEachFaq: the same; with an inherited category key the view throws while rendering and places no FAQ.
- Faqs.GroupedPlacesEachFaqOnce: the same restriction to collections without an inherited category key.
- HTTP, JSON decoding, URLs and status codes: each call is an input outcome (`Remote.Fetched`).
- React hooks, rendering and markup: only the guard order of what each view renders is modelled.
- The `Audio` element, blobs and `URL.createObjectURL` / `revokeObjectURL`. Object URLs are abstract numbered handles. Revocation is a set of revoked handles.
- Async interleavings: stale closures, a second press while a preview request is pending, settlements after unmount, and handlers racing on different rows. Each handler is modelled as one step that includes its awaited outcome.
- The per-row and per-form `isLoading` flags and the `isLoadingAudio` banner timing. These only disable controls while a request is pending, which is an interleaving concern. The final value of the loading-audio flag is modelled.
- Logging (`console.error`) is left out.
- Object key order for integer-like category names (`Object.entries` lists those first). Groups are in first-seen order.
- `toLocaleDateString` formatting of question timestamps.
- Navigation tabs and the page wrappers, which hold no logic.

## Findings

| source | as written | input that shows it | evidently intended | confidence | as-written member | corrected member |
|---|---|---|---|---|---|---|
| components/faq/faq-list.tsx:385-394 | `groupedFaqs` accumulates into `{}`, so for a category named like an `Object.prototype` member `!acc[category]` is false and `acc[category].push(faq)` throws while rendering | one FAQ with category "constructor", a name the add and convert forms both accept | every FAQ is pushed onto the group of its category, whatever its name | high, not executed | Faqs.GroupedAsWritten, Faqs.ConstructorCategoryThrows | Faqs.Grouped, Faqs.GroupedContents |
