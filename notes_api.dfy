/** The public notes API: each operation tries the backend and, through
    `withFallback`, falls back to the local mock store. The HTTP exchange itself
    is abstracted to the outcome it produces. */
module NotesApi {
  import opened NoteData
  import opened NotesConfig
  import opened MockStore

  /** Which function's result `withFallback` hands back. */
  datatype Route = UseMock | UseBackend

  /** The decision inside `withFallback`: a forced mock never consults the
      backend; a backend error carrying a status is surfaced; any other backend
      error (network or not) falls back to the mock. */
  function RouteFor<T>(forced: bool, backend: Outcome<T>): (route: Route)
    ensures route == UseMock <==> forced || (backend.Thrown? && !backend.failure.HttpStatus?)
  {
    if forced then UseMock
    else match backend
      case Value(_) => UseBackend
      case Thrown(HttpStatus(_)) => UseBackend
      case Thrown(_) => UseMock
  }

  /** `withFallback(backendFn, mockFn)`, given what each function would produce. */
  function WithFallback<T>(forced: bool, backend: Outcome<T>, mock: Outcome<T>): (r: Outcome<T>)
    ensures r == backend || r == mock
    ensures backend.Value? && !forced ==> r == backend
    ensures !(mock.Thrown? && mock.failure.HttpStatus?) && r.Thrown? && r.failure.HttpStatus? ==> !forced && r == backend
  {
    if RouteFor(forced, backend) == UseMock then mock else backend
  }

  /** With mock forced the backend's outcome is irrelevant: whatever it would
      have been, the mock's result is what the caller gets. */
  lemma ForcedIgnoresBackend<T>(backend: Outcome<T>, other: Outcome<T>, mock: Outcome<T>)
    ensures WithFallback(true, backend, mock) == WithFallback(true, other, mock) == mock
  {
  }

  /** The result is always one of the two calls' results; a status error that
      reaches the caller comes from the backend, never from the mock, and a
      backend failure without a status never reaches the caller. */
  lemma WithFallbackSources<T>(forced: bool, backend: Outcome<T>, mock: Outcome<T>)
    requires !(mock.Thrown? && mock.failure.HttpStatus?)
    ensures var r := WithFallback(forced, backend, mock);
      && (r == backend || r == mock)
      && (r.Thrown? && r.failure.HttpStatus? ==> !forced && r == backend)
      && (!forced && backend.Thrown? && !backend.failure.HttpStatus? ==> r == mock)
      && (forced ==> r == mock)
  {
  }

  /** The JSON body of a successful list request: an array, an object with a
      `notes` array, or anything else. An entry is `None` when it is null. */
  datatype ListBody = ListArray(items: seq<Option<RawNote>>) | NotesField(items: seq<Option<RawNote>>) | OtherListBody

  /** No entry of the list is null. */
  predicate AllPresent(items: seq<Option<RawNote>>) {
    forall k :: 0 <= k < |items| ==> items[k].Some?
  }

  /** The entries of a list without nulls. */
  function Present(items: seq<Option<RawNote>>): (raw: seq<RawNote>)
    requires AllPresent(items)
    ensures |raw| == |items|
    ensures forall k :: 0 <= k < |items| ==> items[k] == Some(raw[k])
  {
    seq(|items|, k requires 0 <= k < |items| => items[k].value)
  }

  /** The JSON body of a successful create or update request: null (an empty
      body), a bare note, or an object with a non-null `note` field. */
  datatype NoteBody = NullBody | BareNote(raw: RawNote) | NoteField(raw: RawNote)

  /** The backend function of `listNotes`: normalize and sort whatever list
      the body holds; a body holding no list gives the empty list. A null
      entry makes `normalizeNote` read a property of null, which throws a
      `TypeError`. */
  function BackendList(response: Outcome<ListBody>, now: string): (r: Outcome<seq<Note>>)
    ensures r.Value? ==> NewestFirst(r.value)
    ensures response.Thrown? ==> r == Thrown(response.failure)
    ensures response == Value(OtherListBody) ==> r == Value([])
    ensures response.Value? && !response.value.OtherListBody? && !AllPresent(response.value.items) ==>
      r == Thrown(TypeError)
    ensures response.Value? && !response.value.OtherListBody? && AllPresent(response.value.items) ==>
      r.Value? && multiset(r.value) == multiset(NormalizeAll(Present(response.value.items), now))
  {
    match response
    case Thrown(f) => Thrown(f)
    case Value(OtherListBody) => Value([])
    case Value(body) =>
      if AllPresent(body.items) then Value(SortNewestFirst(NormalizeAll(Present(body.items), now)))
      else Thrown(TypeError)
  }

  /** A list holding a null entry is not surfaced: the adapter serves the
      mock's list instead. */
  lemma NullListEntryFallsBack(env: Env, items: seq<Option<RawNote>>, now: string)
    requires None in items
    ensures RouteFor(IsMockForced(env), BackendList(Value(ListArray(items)), now)) == UseMock
    ensures RouteFor(IsMockForced(env), BackendList(Value(NotesField(items)), now)) == UseMock
  {
  }

  /** The backend function of `createNote` and `updateNote`:
      `normalizeNote(data?.note ?? data)`. A null body makes `normalizeNote`
      read a property of null, which throws a `TypeError`. */
  function BackendNote(response: Outcome<NoteBody>, now: string): (r: Outcome<Note>)
    ensures response.Value? && !response.value.NullBody? ==> r == Value(Normalize(response.value.raw, now))
    ensures response.Value? && response.value.NullBody? ==> r == Thrown(TypeError)
    ensures response.Thrown? ==> r == Thrown(response.failure)
  {
    match response
    case Thrown(f) => Thrown(f)
    case Value(NullBody) => Thrown(TypeError)
    case Value(BareNote(raw)) => Value(Normalize(raw, now))
    case Value(NoteField(raw)) => Value(Normalize(raw, now))
  }

  /** An empty success body for a create is not surfaced: the adapter falls
      back and creates the note in the mock store as well. */
  lemma NullCreateBodyFallsBack(env: Env, now: string)
    ensures RouteFor(IsMockForced(env), BackendNote(Value(NullBody), now)) == UseMock
  {
  }

  /** `listNotes`. */
  method ListNotes(env: Env, response: Outcome<ListBody>, store: Store, now: string) returns (r: Outcome<seq<Note>>)
    ensures RouteFor(IsMockForced(env), BackendList(response, now)) == UseBackend ==>
      r == BackendList(response, now)
    ensures RouteFor(IsMockForced(env), BackendList(response, now)) == UseMock ==>
      r.Value? && multiset(r.value) == multiset(store.Notes(now))
    ensures r.Value? ==> NewestFirst(r.value)
    ensures r.Thrown? ==> !IsMockForced(env) && response == Thrown(r.failure) && r.failure.HttpStatus?
  {
    var backend := BackendList(response, now);
    if RouteFor(IsMockForced(env), backend) == UseMock {
      var notes := store.List(now);
      r := Value(notes);
    } else {
      r := backend;
    }
  }

  /** `createNote`: on the mock route the store gains the note in front. */
  method CreateNote(env: Env, response: Outcome<NoteBody>, store: Store,
                    id: string, title: Option<string>, content: Option<string>, now: string)
    returns (r: Outcome<Note>)
    modifies store
    ensures var backend := BackendNote(response, now);
      if RouteFor(IsMockForced(env), backend) == UseMock then
        && r == Value(Written(id, title, content, now))
        && store.slot == Saved(ToRaws([r.value] + old(store.Notes(now))))
      else
        r == backend && store.slot == old(store.slot)
  {
    var backend := BackendNote(response, now);
    if RouteFor(IsMockForced(env), backend) == UseMock {
      var n := store.Create(id, title, content, now);
      r := Value(n);
    } else {
      r := backend;
    }
  }

  /** `updateNote`: on the mock route the first note with the id is rewritten,
      or NOT_FOUND is thrown with the store left alone. */
  method UpdateNote(env: Env, response: Outcome<NoteBody>, store: Store,
                    id: string, title: Option<string>, content: Option<string>, now: string)
    returns (r: Outcome<Note>)
    modifies store
    ensures var backend := BackendNote(response, now);
      if RouteFor(IsMockForced(env), backend) == UseMock then
        match FirstIndex(old(store.Notes(now)), id)
        case None => r == Thrown(NotFound) && store.slot == old(store.slot)
        case Some(k) =>
          && r == Value(Written(old(store.Notes(now))[k].id, title, content, now))
          && store.slot == Saved(ToRaws(old(store.Notes(now))[k := r.value]))
      else
        r == backend && store.slot == old(store.slot)
  {
    var backend := BackendNote(response, now);
    if RouteFor(IsMockForced(env), backend) == UseMock {
      r := store.Update(id, title, content, now);
    } else {
      r := backend;
    }
  }

  /** `deleteNote`: on the mock route every note with the id leaves the store. */
  method DeleteNote(env: Env, response: Outcome<()>, store: Store, id: string, now: string)
    returns (r: Outcome<()>)
    modifies store
    ensures if RouteFor(IsMockForced(env), response) == UseMock then
        r == Value(()) && store.slot == Saved(ToRaws(RemoveId(old(store.Notes(now)), id)))
      else
        r == response && store.slot == old(store.slot)
  {
    if RouteFor(IsMockForced(env), response) == UseMock {
      store.Delete(id, now);
      r := Value(());
    } else {
      r := response;
    }
  }
}
