# Notes front end — a Dafny model

This project models the logic of a single-page notes application written in
React. A note has an id, a title, a content and an `updatedAt` timestamp. The
model covers three parts of the front end.

- **The persistence adapter** (`notes_frontend/src/api/notes.js`). It covers
  note normalization, the feature-flag and base-URL configuration, and the
  local-storage mock store. Each mock operation that changes the list loads the
  stored list, builds a new list and writes it back; listing only loads and
  sorts. It also covers the `withFallback` decision that
  picks between the backend and the mock, and the four public operations
  (`listNotes`, `createNote`, `updateNote`, `deleteNote`) built on it.
- **The root component** `App` (`notes_frontend/src/App.js`). Its state is the
  notes list, the id of the note being edited and a status line. The handlers
  create, start editing, cancel, update and delete. The component derives the
  note being edited, the form's props and the count subtitle from that state.
- **The form** `NoteForm` (`notes_frontend/src/components/NoteForm.js`). Its
  state is a title, a content and a `touched` flag. It validates the trimmed
  title, shows a title error, submits, and resets when its props change.

Modules, one per concern:

| file | module | models |
|---|---|---|
| `js_string.dfy` | `JsString` | `trim`, `split`, `toUpperCase`, string `<`, decimal rendering |
| `note_data.dfy` | `NoteData` | `Note`, `normalizeNote`, find / filter / map / sort over note lists |
| `notes_config.dfy` | `NotesConfig` | `getFeatureFlags`, `isMockForced`, `getBaseUrl`, `buildUrl`, `getNotesApiMode` |
| `mock_store.dfy` | `MockStore` | `loadMockNotes` / `saveMockNotes` and the class `Store` with `mockList`, `mockCreate`, `mockUpdate`, `mockDelete` |
| `notes_api.dfy` | `NotesApi` | `withFallback` and the four public operations |
| `note_form.dfy` | `Form` | the class `NoteForm` |
| `app.dfy` | `AppRoot` | the class `App` and the submit wiring between the form and the root |

The state that changes becomes a class. `Store.slot` is the storage entry,
`App.notes`, `App.editingId` and `App.statusMessage` are the root's state
cells, and `NoteForm` holds the form's fields and its last props. The list
transforms inside the handlers (prepend, `map`, `filter`, `find`, `sort`) are
pure functions, and lemmas prove their properties.

Parameters stand in for things the model cannot see:
- the clock (`now`, an ISO timestamp string);
- the generated id;
- the storage contents (`Slot`: absent, unreadable, or a saved JSON array);
- the user's answer to `window.confirm`;
- the backend's answer: a parsed body, an error carrying an HTTP status, a
  network `TypeError`, or another error.

Where the code and its own comments disagree, the model follows the code:
- `withFallback`'s comment says it falls back only on network failures. The
  code falls back on every error that carries no `status` (`RouteFor`).
- An empty (null) success body for a create or update is not surfaced.
  `normalizeNote(null)` throws a `TypeError` inside the backend function, and
  `withFallback` treats that as a failure and calls the mock. A create then
  stores the note in the mock store as well (`NullCreateBodyFallsBack`). An
  update either rewrites the first mock note with the id or, when the mock
  store has no such note, throws NOT_FOUND (`UpdateNote`).
- `handleUpdate` returns early on any falsy `editingId`. So an editing id of
  `""` is a no-op even when a note has that id (`App.HandleUpdate`,
  `SubmitForm`).

## Model

| member | source | states |
|---|---|---|
| JsString.TrimShape | notes_frontend/src/api/notes.js:24 | `trim` returns a slice of its input with no white space at either end, and only white space is cut off before and after it |
| JsString.TrimUnique | notes_frontend/src/api/notes.js:24 | a trimmed non-empty core padded with white space on both sides always trims back to that core |
| JsString.TrimIdempotent | notes_frontend/src/App.js:61-62 | trimming an already trimmed string changes nothing |
| JsString.TrimStartShape | notes_frontend/src/api/notes.js:24 | the leading part `trim` removes is all white space and what remains does not start with white space |
| JsString.TrimEndShape | notes_frontend/src/api/notes.js:24 | the trailing part `trim` removes is all white space and what remains does not end with white space |
| JsString.TrimEmptyIff | notes_frontend/src/components/NoteForm.js:37 | a string trims to "" exactly when every character of it is white space |
| JsString.ToUpper | notes_frontend/src/api/notes.js:26 | upper-casing keeps the length and maps each character on its own |
| JsString.UpperKeepsShape | notes_frontend/src/api/notes.js:26 | upper-cased text has no lower-case letter; upper-casing is idempotent, keeps emptiness, and keeps a trimmed string trimmed |
| JsString.Split | notes_frontend/src/api/notes.js:23 | `split(",")` yields at least one piece, and no piece contains the separator |
| JsString.JoinSplit | notes_frontend/src/api/notes.js:23 | joining the pieces of a split with the separator gives back the original string |
| JsString.SplitJoin | notes_frontend/src/api/notes.js:23 | splitting a join of separator-free pieces gives back the pieces |
| JsString.LessIrreflexive | notes_frontend/src/api/notes.js:88 | the string `<` used by the sort comparator is irreflexive |
| JsString.LessTransitive | notes_frontend/src/api/notes.js:88 | the string `<` used by the sort comparator is transitive |
| JsString.LessTotal | notes_frontend/src/api/notes.js:88 | any two different strings are ordered one way or the other |
| JsString.LessAsymmetric | notes_frontend/src/api/notes.js:88 | the string `<` never holds both ways |
| JsString.NatToString | notes_frontend/src/App.js:155 | a count renders as a non-empty string of decimal digits without a leading zero |
| JsString.NatToStringValue | notes_frontend/src/App.js:155 | reading the rendered digits back gives the count |
| NoteData.Normalize | notes_frontend/src/api/notes.js:8-15 | id is kept; a missing title or content becomes ""; a truthy `updatedAt` is kept and a falsy one becomes "now" |
| NoteData.NormalizeStored | notes_frontend/src/api/notes.js:73 | a saved note comes back unchanged from normalization exactly when its timestamp is non-empty (or the clock reads "") |
| NoteData.NormalizeIdempotent | notes_frontend/src/api/notes.js:73 | normalizing a note that was normalized with a real clock reading changes nothing, at any later time |
| NoteData.ToRaw | notes_frontend/src/api/notes.js:80 | the stored form keeps the id and has a title and a content; a timestamped note normalizes back to itself at any time |
| NoteData.FirstIndex | notes_frontend/src/api/notes.js:108 | `findIndex` gives an index whose note has the id and before which no note has it, or none exactly when no note has the id |
| NoteData.FindById | notes_frontend/src/App.js:106 | `find` gives a note exactly when some note has the id, and then it is the first note with the id |
| NoteData.RemoveId | notes_frontend/src/api/notes.js:132 | after the filter no note has the id, and every note of the list with another id is still there |
| NoteData.RemoveIdAppend | notes_frontend/src/App.js:112 | filtering distributes over concatenation, so the remaining notes keep their relative order |
| NoteData.RemoveIdAbsent | notes_frontend/src/api/notes.js:130-134 | deleting an id that no note carries leaves the list unchanged |
| NoteData.RemoveIdCount | notes_frontend/src/App.js:112 | every note with another id is kept as many times as it occurred; notes with the id occur zero times |
| NoteData.Edited | notes_frontend/src/App.js:90-95 | an edited note keeps its id |
| NoteData.EditMatching | notes_frontend/src/App.js:87-98 | the update map keeps the length and every id; notes with another id are unchanged; notes with the id take the new fields and time |
| NoteData.EditMatchingOnlyTouchesId | notes_frontend/src/App.js:87-98 | with the edited id filtered out, the list before and after the update is identical |
| NoteData.InsertNewestFirst | notes_frontend/src/api/notes.js:88 | inserting into a newest-first list keeps it newest first and adds exactly that note |
| NoteData.SortNewestFirst | notes_frontend/src/api/notes.js:88 | the sort returns a permutation of its input ordered by `updatedAt`, greatest string first |
| NoteData.SortSortedDistinct | notes_frontend/src/api/notes.js:191 | a list already in strictly decreasing timestamp order is left as it is |
| NotesConfig.FeatureFlags | notes_frontend/src/api/notes.js:18-28 | an empty or blank flag list gives no flags; every flag is non-empty, trimmed and upper-case |
| NotesConfig.RawFlags | notes_frontend/src/api/notes.js:19 | the flag list is trimmed, and an unset variable gives "" |
| NotesConfig.FlagSet | notes_frontend/src/api/notes.js:22-27 | every member of the collected set is non-empty, trimmed and upper-case |
| NotesConfig.FlagOfToken | notes_frontend/src/api/notes.js:21-27 | every non-blank comma-separated token contributes its trimmed, upper-cased form |
| NotesConfig.IsMockForced | notes_frontend/src/api/notes.js:30-32 | mock can be forced only when the flag variable is set and not blank |
| NotesConfig.MockForcedIff | notes_frontend/src/api/notes.js:30-32 | mock is forced exactly when some comma-separated token, trimmed and upper-cased, reads MOCK_API |
| NotesConfig.MixedCaseTokenForcesMock | notes_frontend/src/api/notes.js:30-32 | the flag list "beta, Mock_Api" forces mock |
| NotesConfig.ApiMode | notes_frontend/src/api/notes.js:241-244 | the mode is "mock" exactly when mock is forced and "auto" otherwise |
| NotesConfig.StripTrailingSlashes | notes_frontend/src/api/notes.js:38 | the result is a prefix of the input, everything cut off is "/", and it does not end in "/" |
| NotesConfig.FirstTruthy | notes_frontend/src/api/notes.js:36 | the API base when it is truthy, else the backend URL when that is truthy, else ""; "" exactly when neither is truthy |
| NotesConfig.BaseUrl | notes_frontend/src/api/notes.js:34-40 | the base URL never ends in "/" |
| NotesConfig.BlankApiBaseWins | notes_frontend/src/api/notes.js:35-37 | a blank but set API base is chosen over the backend URL and gives a relative (empty) base |
| NotesConfig.BuildUrl | notes_frontend/src/api/notes.js:42-47 | with no base the path is returned unchanged; otherwise the URL is the base, exactly one "/" (the base has none at its end), then the path without its own leading "/" |
| MockStore.NormalizeAll | notes_frontend/src/api/notes.js:73 | each loaded note is its stored entry normalized, in the same order |
| MockStore.LoadNotes | notes_frontend/src/api/notes.js:67-77 | an absent or unreadable entry loads as the empty list; a saved array loads as its entries normalized, in order, with the same length and ids |
| MockStore.ToRaws | notes_frontend/src/api/notes.js:79-81 | the saved array holds every note's four fields, in order |
| MockStore.LoadIsStamped | notes_frontend/src/api/notes.js:67-77 | with a real clock reading, every loaded note carries a timestamp |
| MockStore.LoadAfterSave | notes_frontend/src/api/notes.js:67-81 | saving timestamped notes and loading them at any later time gives back the same list |
| MockStore.Written | notes_frontend/src/api/notes.js:93-98 | a created or updated note has the given id, the clock's time, and the trimmed given title and content ("" when missing) |
| MockStore.ReplaceFirstIsEditAllWhenUnique | notes_frontend/src/api/notes.js:105-128 | when ids are unique, the mock's replace-first-match update equals the root component's edit-every-match |
| MockStore.ReplaceFirstDiffersOnDuplicates | notes_frontend/src/api/notes.js:124-125 | with two notes sharing an id, the mock rewrites only the first, unlike the root component's edit |
| MockStore.Store.constructor | notes_frontend/src/api/notes.js:67-69 | a store starts out holding the given storage entry |
| MockStore.Store.Notes | notes_frontend/src/api/notes.js:67-77 | the notes the store holds now: none unless an array is saved, one per saved entry, and all timestamped when the clock reads a real time |
| MockStore.Store.Save | notes_frontend/src/api/notes.js:79-81 | the entry becomes the saved list, and timestamped notes load back unchanged |
| MockStore.Store.List | notes_frontend/src/api/notes.js:87-89 | the listed notes are a permutation of the stored ones, newest first |
| MockStore.Store.Create | notes_frontend/src/api/notes.js:91-103 | the new note (trimmed fields, the clock's time) is stored in front of the existing notes, which keep their order |
| MockStore.Store.Update | notes_frontend/src/api/notes.js:105-128 | no note with the id: throws NOT_FOUND and storage is unchanged; otherwise only the first match is replaced, keeping its id, and the length and all other entries are unchanged |
| MockStore.Store.Delete | notes_frontend/src/api/notes.js:130-134 | the stored list becomes the loaded list without any note with the id, in the same order |
| NotesApi.RouteFor | notes_frontend/src/api/notes.js:168-181 | the mock is used exactly when mock is forced or the backend failed without a status |
| NotesApi.WithFallback | notes_frontend/src/api/notes.js:168-181 | the result is the backend's or the mock's; a backend success is returned when not forced; a status error reaching the caller comes from the backend |
| NotesApi.ForcedIgnoresBackend | notes_frontend/src/api/notes.js:169 | with mock forced, the backend's outcome has no influence: the mock's result is returned |
| NotesApi.WithFallbackSources | notes_frontend/src/api/notes.js:171-180 | a backend failure without a status never reaches the caller; a status failure is rethrown only when mock is not forced |
| NotesApi.BackendList | notes_frontend/src/api/notes.js:187-192 | a listed body gives a newest-first permutation of its normalized notes; a body holding no array gives []; a null entry throws a TypeError; a backend error passes through unchanged |
| NotesApi.BackendNote | notes_frontend/src/api/notes.js:201-206 | a bare or wrapped note is normalized; a null body throws a TypeError; a backend error passes through |
| NotesApi.NullCreateBodyFallsBack | notes_frontend/src/api/notes.js:206 | an empty success body for a create always routes to the mock |
| NotesApi.NullListEntryFallsBack | notes_frontend/src/api/notes.js:191 | a listed body with a null entry always routes to the mock |
| NotesApi.ListNotes | notes_frontend/src/api/notes.js:184-195 | a successful list is always newest first; on the mock route it is a permutation of the stored notes; it throws only a backend status error |
| NotesApi.CreateNote | notes_frontend/src/api/notes.js:198-210 | on the mock route the trimmed note is stored in front; on the backend route storage is unchanged and the backend's result is returned |
| NotesApi.UpdateNote | notes_frontend/src/api/notes.js:213-225 | on the mock route, either NOT_FOUND with storage unchanged or only the first match is replaced; on the backend route storage is unchanged |
| NotesApi.DeleteNote | notes_frontend/src/api/notes.js:228-238 | on the mock route every note with the id leaves storage; on the backend route storage is unchanged |
| Form.TitleErrorFor | notes_frontend/src/components/NoteForm.js:31-35 | the error is "" or "Title is required.", and the latter exactly when touched with an empty trimmed title |
| Form.ValidTitle | notes_frontend/src/components/NoteForm.js:37 | a title is valid exactly when it is not all white space |
| Form.NoteForm.constructor | notes_frontend/src/components/NoteForm.js:17-19 | the fields start from the initial props ("" when missing) and `touched` starts false |
| Form.NoteForm.IsValid | notes_frontend/src/components/NoteForm.js:37 | the form is valid exactly when its title is not all white space |
| Form.NoteForm.TitleError | notes_frontend/src/components/NoteForm.js:31-35 | the form shows "" or "Title is required.", the latter exactly when touched with an all-white-space title |
| Form.NoteForm.ChangeTitle | notes_frontend/src/components/NoteForm.js:72 | only the title changes |
| Form.NoteForm.ChangeContent | notes_frontend/src/components/NoteForm.js:97 | only the content changes |
| Form.NoteForm.BlurTitle | notes_frontend/src/components/NoteForm.js:73 | the form becomes touched, so the error shows exactly when the title is invalid |
| Form.NoteForm.ReceiveProps | notes_frontend/src/components/NoteForm.js:22-29 | a change of mode or initial values resets title and content to the new initial values ("" when missing) and clears `touched`; unchanged props change nothing |
| Form.NoteForm.HandleSubmit | notes_frontend/src/components/NoteForm.js:39-57 | an invalid title only sets `touched` and submits nothing; a valid one submits the untrimmed fields, then create mode clears the form and edit mode keeps it |
| AppRoot.SeedNotes | notes_frontend/src/App.js:15-30 | the list starts with two notes with different ids |
| AppRoot.SeedNotesTitled | notes_frontend/src/App.js:15-30 | both seed notes have non-empty, trimmed titles |
| AppRoot.EditingNoteOf | notes_frontend/src/App.js:47-50 | the note being edited is the first note whose id is the editing id, or none when there is no editing id or no such note |
| AppRoot.CountText | notes_frontend/src/App.js:153-155 | the subtitle is "No notes yet. Add one above." exactly when there are no notes |
| AppRoot.CountTextShape | notes_frontend/src/App.js:153-155 | for n > 0 the subtitle is n in decimal followed by " note", plus an "s" exactly when n is not 1 |
| AppRoot.DeletePrompt | notes_frontend/src/App.js:106-109 | the confirmation starts with `Delete "`, quotes the first matching note's title, or says "this note" when no note has the id |
| AppRoot.App.constructor | notes_frontend/src/App.js:38-40 | the root starts with the seed notes, no editing id and an empty status |
| AppRoot.App.EditingNote | notes_frontend/src/App.js:47-50 | the note being edited is a note of the list carrying the editing id, and there is none exactly when there is no editing id or no note has it |
| AppRoot.App.Props | notes_frontend/src/App.js:135-140 | edit mode with the edited note's title and content exactly when a note is being edited; otherwise create mode with empty initial values |
| AppRoot.App.HandleCreate | notes_frontend/src/App.js:57-69 | exactly one note with trimmed title and content is prepended, the old notes follow in order, and the editing id is unchanged |
| AppRoot.App.HandleStartEdit | notes_frontend/src/App.js:71-75 | the editing id becomes the given id and the notes are unchanged |
| AppRoot.App.HandleCancelEdit | notes_frontend/src/App.js:77-81 | the editing id is cleared, no note is being edited, and the notes are unchanged |
| AppRoot.App.HandleUpdate | notes_frontend/src/App.js:83-103 | without a truthy editing id nothing changes; otherwise only notes with that id change, keeping their ids and the list length, and editing ends |
| AppRoot.App.HandleDelete | notes_frontend/src/App.js:105-118 | declined: nothing changes; confirmed: every note with the id is removed and the rest keep their order, and the editing id is cleared exactly when it was that id |
| AppRoot.SubmitForm | notes_frontend/src/App.js:139 | a submit reaches the root exactly when the form's title is valid, carrying the typed title and content; while a note is being edited they go, trimmed, to update (editing ends, "Note updated."), otherwise to create (a new note in front, "Note added."); an invalid title changes nothing in the root; the form resets in create mode and keeps its fields in edit mode, and its recorded props stay as they were; a list whose titles are all non-empty and trimmed stays so |
| AppRoot.CreateKeepsTitled | notes_frontend/src/App.js:66 | prepending a note with a non-empty trimmed title keeps every title non-empty and trimmed |
| AppRoot.EditKeepsTitled | notes_frontend/src/App.js:87-98 | an update with a non-empty trimmed title keeps every title non-empty and trimmed |

## Left out

- `fetch`, `requestJson` and `parseJsonSafe` are network I/O and JSON parsing.
  The backend's answer is a parameter: a body shape, an error with a status,
  a network error, or another error.
- The request bodies sent to the backend (`JSON.stringify({ title, content })`,
  with the fields untrimmed) and `encodeURIComponent` on ids are not modelled.
  Only what comes back matters to the model.
- `async`/`await`: every operation is modelled as one synchronous step.
- The clock is read once per operation (`now`). The source reads it again in
  every `normalizeNote` call, so stored notes without a timestamp may get
  slightly different times within one load. The model gives them all the
  same `now`, so its equalities with `now` are exact only for that single
  reading. Every reading is a non-empty ISO string, which is all the
  proofs about timestamps use.
- A stored array with a null entry is folded into the unreadable `Slot`. The
  throw inside `loadMockNotes`'s `try` makes it load as [], just like an
  unreadable entry.
- `Date`, `toISOString`, `Math.random`, `generateId` and `mockGenerateId`
  read a clock or randomness. The time and the new id are parameters.
- `window.localStorage`, `JSON.stringify` and `JSON.parse` are storage I/O.
  The storage entry is the `Slot` value, and a JSON round trip is `ToRaw`.
  `STORAGE_KEY` only names the entry.
- `window.confirm` is the `confirmed` parameter. The `clearStatusSoon` timer
  that blanks the status line after 2.5 s is not modelled.
- `isNetworkError` is left out: both branches after the status check fall
  back to the mock, so it does not change behaviour.
- Focus handling, refs, `useId`, the theme effect and all JSX rendering are
  presentation only. So are `NoteItem.js` (date formatting through `Date` and
  the locale), `NoteList.js`, `Header.js` and the DOM test `App.test.js`.
- React's render and batching machinery is not modelled. Each handler is one
  atomic update of the class's fields, and `ReceiveProps` is the effect
  running after a render whose props differ.
- NoteData.RawNote: stored and backend fields are taken to be strings or
  missing. `String(...)` applied to numbers or objects is not modelled.
- JsString.ToUpper: upper-cases the ASCII letters only, because JavaScript's
  full Unicode case mapping is not modelled. A flag such as "mock_apı"
  (dotless i) upper-cases to MOCK_API in JavaScript but not here.
- JsString.Less: compares code points where JavaScript compares UTF-16 code
  units. The two orders differ only for characters outside the Basic
  Multilingual Plane.
- NoteData.SortNewestFirst: the source's comparator never returns 0, so the
  order among notes with equal timestamps is left to the JavaScript engine.
  The model fixes one such order; its contract speaks only of the order by
  timestamp and of the permutation.
- NotesConfig.MockForcedIff: stated over the tokens of the trimmed flag list,
  as the code splits it. The whole list is trimmed before splitting, and each
  token is trimmed again.
