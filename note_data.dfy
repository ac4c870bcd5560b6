/** The note record shared by the persistence adapter and the root component,
    and the pure list operations both of them apply to a list of notes. */
module NoteData {
  import opened JsString

  datatype Option<T> = None | Some(value: T)

  /** `x ?? ""` / `x || ""` for an optional string. */
  function OrEmpty(s: Option<string>): string {
    if s.Some? then s.value else ""
  }

  /** A note as every component holds it after normalization. */
  datatype Note = Note(id: string, title: string, content: string, updatedAt: string)

  /** A note as it arrives from the backend or from storage: fields may be
      missing (`None`, standing for null or undefined). The id is taken already
      converted with `String(...)`. */
  datatype RawNote = RawNote(id: string, title: Option<string>, content: Option<string>, updatedAt: Option<string>)

  /** A JavaScript truthiness test on an optional string. */
  predicate Truthy(s: Option<string>) {
    s.Some? && s.value != ""
  }

  /** `normalizeNote`: missing title or content becomes "", a falsy
      `updatedAt` is replaced by the current time. */
  function Normalize(raw: RawNote, now: string): (n: Note)
    ensures n.id == raw.id
    ensures raw.title.Some? ==> n.title == raw.title.value
    ensures raw.title.None? ==> n.title == ""
    ensures raw.content.Some? ==> n.content == raw.content.value
    ensures raw.content.None? ==> n.content == ""
    ensures Truthy(raw.updatedAt) ==> n.updatedAt == raw.updatedAt.value
    ensures !Truthy(raw.updatedAt) ==> n.updatedAt == now
  {
    Note(raw.id, OrEmpty(raw.title), OrEmpty(raw.content),
         if Truthy(raw.updatedAt) then raw.updatedAt.value else now)
  }

  /** What `JSON.stringify` followed by `JSON.parse` turns a normalized note into. */
  function ToRaw(n: Note): (raw: RawNote)
    ensures raw.id == n.id && raw.title.Some? && raw.content.Some?
    ensures n.updatedAt != "" ==> forall now :: Normalize(raw, now) == n
  {
    RawNote(n.id, Some(n.title), Some(n.content), Some(n.updatedAt))
  }

  /** A normalized note survives a save and a later normalization exactly
      when it carries a timestamp (or the later clock reads "" as well). */
  lemma NormalizeStored(n: Note, now: string)
    ensures Normalize(ToRaw(n), now) == n <==> (n.updatedAt != "" || now == "")
  {
  }

  /** Normalization is idempotent once a non-empty clock reading was used. */
  lemma NormalizeIdempotent(raw: RawNote, now: string, later: string)
    requires now != ""
    ensures Normalize(ToRaw(Normalize(raw, now)), later) == Normalize(raw, now)
  {
    NormalizeStored(Normalize(raw, now), later);
  }

  /** `notes.findIndex(n => n.id === id)`, as an option. */
  function FirstIndex(notes: seq<Note>, id: string): (r: Option<nat>)
    ensures r.Some? ==> r.value < |notes| && notes[r.value].id == id
    ensures r.Some? ==> forall k :: 0 <= k < r.value ==> notes[k].id != id
    ensures r.None? <==> forall k :: 0 <= k < |notes| ==> notes[k].id != id
  {
    if notes == [] then None
    else if notes[0].id == id then Some(0)
    else
      match FirstIndex(notes[1..], id)
      case None => None
      case Some(k) => Some(k + 1)
  }

  /** `notes.find(n => n.id === id)`: the first note with that id, if any. */
  function FindById(notes: seq<Note>, id: string): (r: Option<Note>)
    ensures r.Some? <==> exists k :: 0 <= k < |notes| && notes[k].id == id
    ensures r.Some? ==> r.value in notes && r.value.id == id
    ensures r.Some? ==> FirstIndex(notes, id).Some? && r.value == notes[FirstIndex(notes, id).value]
  {
    match FirstIndex(notes, id)
    case None => None
    case Some(k) => Some(notes[k])
  }

  /** `notes.filter(n => n.id !== id)`. */
  function RemoveId(notes: seq<Note>, id: string): (r: seq<Note>)
    ensures |r| <= |notes|
    ensures forall n :: n in r <==> n in notes && n.id != id
  {
    if notes == [] then []
    else if notes[0].id == id then RemoveId(notes[1..], id)
    else [notes[0]] + RemoveId(notes[1..], id)
  }

  /** Filtering keeps relative order: it distributes over concatenation. */
  lemma {:induction false} RemoveIdAppend(a: seq<Note>, b: seq<Note>, id: string)
    ensures RemoveId(a + b, id) == RemoveId(a, id) + RemoveId(b, id)
  {
    if a != [] {
      assert (a + b)[1..] == a[1..] + b;
      RemoveIdAppend(a[1..], b, id);
    } else {
      assert a + b == b;
    }
  }

  /** Removing an id no note carries changes nothing. */
  lemma {:induction false} RemoveIdAbsent(notes: seq<Note>, id: string)
    requires forall k :: 0 <= k < |notes| ==> notes[k].id != id
    ensures RemoveId(notes, id) == notes
  {
    if notes != [] {
      RemoveIdAbsent(notes[1..], id);
      assert [notes[0]] + notes[1..] == notes;
    }
  }

  /** Exactly the notes with that id are dropped: the multiset of what is
      kept is the multiset of notes with any other id. */
  lemma {:induction false} RemoveIdCount(notes: seq<Note>, id: string, n: Note)
    ensures multiset(RemoveId(notes, id))[n] == if n.id == id then 0 else multiset(notes)[n]
  {
    if notes != [] {
      RemoveIdCount(notes[1..], id, n);
      assert notes == [notes[0]] + notes[1..];
    }
  }

  /** The note `n` after an edit of its title and content at time `now`
      (`{...n, title, content, updatedAt: now}`). */
  function Edited(n: Note, title: string, content: string, now: string): (e: Note)
    ensures e.id == n.id
  {
    n.(title := title, content := content, updatedAt := now)
  }

  /** `notes.map(n => n.id === id ? {...n, title, content, updatedAt: now} : n)`. */
  function EditMatching(notes: seq<Note>, id: string, title: string, content: string, now: string): (r: seq<Note>)
    ensures |r| == |notes|
    ensures forall k :: 0 <= k < |notes| ==> r[k].id == notes[k].id
    ensures forall k :: 0 <= k < |notes| && notes[k].id != id ==> r[k] == notes[k]
    ensures forall k :: 0 <= k < |notes| && notes[k].id == id ==> r[k] == Edited(notes[k], title, content, now)
  {
    seq(|notes|, k requires 0 <= k < |notes| =>
      if notes[k].id == id then Edited(notes[k], title, content, now) else notes[k])
  }

  /** An edit touches nothing but the notes with that id: once those are
      filtered out, the list before and after the edit is the same. */
  lemma {:induction false} EditMatchingOnlyTouchesId(notes: seq<Note>, id: string, title: string, content: string, now: string)
    ensures RemoveId(EditMatching(notes, id, title, content, now), id) == RemoveId(notes, id)
  {
    if notes != [] {
      var r := EditMatching(notes, id, title, content, now);
      assert r[1..] == EditMatching(notes[1..], id, title, content, now);
      EditMatchingOnlyTouchesId(notes[1..], id, title, content, now);
    }
  }

  /** The list is ordered by `updatedAt`, newest (greatest string) first. */
  predicate NewestFirst(notes: seq<Note>) {
    forall i, j :: 0 <= i < j < |notes| ==> !Less(notes[i].updatedAt, notes[j].updatedAt)
  }

  /** One insertion step of a sort with comparator
      `(a, b) => a.updatedAt < b.updatedAt ? 1 : -1`. */
  function InsertNewestFirst(x: Note, notes: seq<Note>): (r: seq<Note>)
    requires NewestFirst(notes)
    ensures NewestFirst(r)
    ensures multiset(r) == multiset(notes) + multiset{x}
  {
    if notes == [] then [x]
    else if Less(notes[0].updatedAt, x.updatedAt) then
      InsertFront(x, notes);
      [x] + notes
    else
      var rest := InsertNewestFirst(x, notes[1..]);
      HeadStaysFirst(notes, x, rest);
      assert notes == [notes[0]] + notes[1..];
      [notes[0]] + rest
  }

  lemma HeadStaysFirst(notes: seq<Note>, x: Note, rest: seq<Note>)
    requires notes != [] && NewestFirst(notes) && NewestFirst(rest)
    requires !Less(notes[0].updatedAt, x.updatedAt)
    requires multiset(rest) == multiset(notes[1..]) + multiset{x}
    ensures NewestFirst([notes[0]] + rest)
  {
    forall k | 0 <= k < |rest| ensures !Less(notes[0].updatedAt, rest[k].updatedAt) {
      assert rest[k] in multiset(rest);
      if rest[k] != x {
        assert rest[k] in multiset(notes[1..]);
        var j :| 0 <= j < |notes| - 1 && notes[1..][j] == rest[k];
        assert notes[j + 1] == rest[k];
      }
    }
    var r := [notes[0]] + rest;
    forall i, j | 0 <= i < j < |r| ensures !Less(r[i].updatedAt, r[j].updatedAt) {
      if i > 0 {
        assert r[i] == rest[i - 1] && r[j] == rest[j - 1];
      } else {
        assert r[j] == rest[j - 1];
      }
    }
  }

  lemma InsertFront(x: Note, notes: seq<Note>)
    requires NewestFirst(notes) && notes != [] && Less(notes[0].updatedAt, x.updatedAt)
    ensures NewestFirst([x] + notes)
  {
    forall j | 0 <= j < |notes| ensures !Less(x.updatedAt, notes[j].updatedAt) {
      if Less(x.updatedAt, notes[j].updatedAt) {
        LessTransitive(notes[0].updatedAt, x.updatedAt, notes[j].updatedAt);
        if j == 0 {
          LessIrreflexive(notes[0].updatedAt);
        }
      }
    }
  }

  /** `notes.sort((a, b) => a.updatedAt < b.updatedAt ? 1 : -1)`: newest first.
      The comparator never answers 0, so the source leaves the order of notes
      with equal timestamps to the engine; this one keeps later ones first. */
  function SortNewestFirst(notes: seq<Note>): (r: seq<Note>)
    ensures NewestFirst(r)
    ensures multiset(r) == multiset(notes)
  {
    if notes == [] then []
    else
      assert notes == [notes[0]] + notes[1..];
      InsertNewestFirst(notes[0], SortNewestFirst(notes[1..]))
  }

  /** A list already ordered newest first with distinct timestamps is left as it is. */
  lemma {:induction false} SortSortedDistinct(notes: seq<Note>)
    requires forall i, j :: 0 <= i < j < |notes| ==> Less(notes[j].updatedAt, notes[i].updatedAt)
    ensures SortNewestFirst(notes) == notes
  {
    if notes != [] {
      SortSortedDistinct(notes[1..]);
      var rest := notes[1..];
      if rest != [] {
        LessAsymmetric(rest[0].updatedAt, notes[0].updatedAt);
      }
    }
  }
}
