/** The local-storage mock backend: a list of notes kept under one storage key,
    loaded, changed and written back whole by every operation that changes it;
    listing only loads. */
module MockStore {
  import opened JsString
  import opened NoteData

  /** Why an adapter call failed. `HttpStatus` is the error `requestJson` throws
      for a non-ok response (it carries `status`); `TypeError` is what
      `fetch` throws when the network fails, and also what reading a property
      of a null body or entry throws;
      `OtherError` is any other thrown value; `NotFound` is the mock's
      `code: "NOT_FOUND"` error. */
  datatype Failure = HttpStatus(status: int) | TypeError | OtherError | NotFound

  /** A call that returns a value or throws. */
  datatype Outcome<T> = Value(value: T) | Thrown(failure: Failure)

  /** What storage holds under the mock key: nothing (null or ""), something
      that is not a JSON array (or cannot be read, or holds a null entry, on
      which `normalizeNote` throws inside the same `try`), or a JSON array of
      notes. */
  datatype Slot = Absent | Unreadable | Saved(raw: seq<RawNote>)

  /** `notes.map(normalizeNote)`. */
  function NormalizeAll(raw: seq<RawNote>, now: string): (notes: seq<Note>)
    ensures |notes| == |raw|
    ensures forall k :: 0 <= k < |raw| ==> notes[k] == Normalize(raw[k], now)
  {
    seq(|raw|, k requires 0 <= k < |raw| => Normalize(raw[k], now))
  }

  /** `loadMockNotes`: an absent or unreadable slot loads as the empty list. */
  function LoadNotes(slot: Slot, now: string): (notes: seq<Note>)
    ensures !slot.Saved? ==> notes == []
    ensures slot.Saved? ==> |notes| == |slot.raw| && forall k :: 0 <= k < |notes| ==> notes[k].id == slot.raw[k].id
    ensures slot.Saved? ==> notes == NormalizeAll(slot.raw, now)
  {
    if slot.Saved? then NormalizeAll(slot.raw, now) else []
  }

  /** The JSON written by `saveMockNotes`, as it parses back. */
  function ToRaws(notes: seq<Note>): (raw: seq<RawNote>)
    ensures |raw| == |notes|
    ensures forall k :: 0 <= k < |notes| ==> raw[k] == ToRaw(notes[k])
  {
    seq(|notes|, k requires 0 <= k < |notes| => ToRaw(notes[k]))
  }

  /** Every note carries a (truthy) timestamp. */
  predicate Stamped(notes: seq<Note>) {
    forall n :: n in notes ==> n.updatedAt != ""
  }

  /** With a real clock reading, everything loaded carries a timestamp. */
  lemma LoadIsStamped(slot: Slot, now: string)
    requires now != ""
    ensures Stamped(LoadNotes(slot, now))
  {
  }

  /** Saving stamped notes and loading them again, at any later time, gives them back. */
  lemma LoadAfterSave(notes: seq<Note>, later: string)
    requires Stamped(notes)
    ensures LoadNotes(Saved(ToRaws(notes)), later) == notes
  {
    var loaded := LoadNotes(Saved(ToRaws(notes)), later);
    forall k | 0 <= k < |notes| ensures loaded[k] == notes[k] {
      NormalizeStored(notes[k], later);
    }
  }

  /** The note a create or an update writes:
      `normalizeNote({..., title: title.trim(), content: content.trim(), updatedAt: now})`,
      where a missing title or content trims to "". */
  function Written(id: string, title: Option<string>, content: Option<string>, now: string): (n: Note)
    ensures n.id == id && n.updatedAt == now
    ensures n.title == Trim(OrEmpty(title)) && n.content == Trim(OrEmpty(content))
    ensures IsTrimmed(n.title) && IsTrimmed(n.content)
  {
    TrimShape(OrEmpty(title));
    TrimShape(OrEmpty(content));
    Normalize(RawNote(id, Some(Trim(OrEmpty(title))), Some(Trim(OrEmpty(content))), Some(now)), now)
  }

  /** On a list whose ids are unique, replacing the first note with the id
      (what the mock does) is the same as editing every note with it (what the
      root component does). */
  lemma {:induction false} ReplaceFirstIsEditAllWhenUnique(notes: seq<Note>, id: string, title: Option<string>, content: Option<string>, now: string)
    requires forall i, j :: 0 <= i < j < |notes| ==> notes[i].id != notes[j].id
    requires FirstIndex(notes, id).Some?
    ensures var k := FirstIndex(notes, id).value;
      notes[k := Written(id, title, content, now)]
        == EditMatching(notes, id, Trim(OrEmpty(title)), Trim(OrEmpty(content)), now)
  {
    var k := FirstIndex(notes, id).value;
    var r := notes[k := Written(id, title, content, now)];
    var e := EditMatching(notes, id, Trim(OrEmpty(title)), Trim(OrEmpty(content)), now);
    forall j | 0 <= j < |notes| ensures r[j] == e[j] {
      if j < k {
        assert notes[j].id != id;
      } else if j > k {
        assert notes[k].id != notes[j].id;
      }
    }
  }

  /** Two notes with the same id: the mock's update changes only the first,
      the root component's edit changes both. */
  lemma ReplaceFirstDiffersOnDuplicates()
    ensures var notes := [Note("a", "x", "", "t0"), Note("a", "y", "", "t0")];
      notes[0 := Written("a", Some("z"), None, "t1")]
        != EditMatching(notes, "a", "z", "", "t1")
  {
    var notes := [Note("a", "x", "", "t0"), Note("a", "y", "", "t0")];
    WrittenExample();
    var r := notes[0 := Note("a", "z", "", "t1")];
    assert r[1].title == "y";
    assert EditMatching(notes, "a", "z", "", "t1")[1].title == "z";
  }

  lemma WrittenExample()
    ensures Written("a", Some("z"), None, "t1") == Note("a", "z", "", "t1")
  {
    assert Trim("z") == "z" by {
      TrimUnique([], "z", []);
      assert [] + "z" + [] == "z";
    }
    assert Trim([]) == [];
  }

  /** The storage the mock adapter reads and writes. */
  class Store {
    var slot: Slot

    constructor (initial: Slot)
      ensures slot == initial
    {
      slot := initial;
    }

    /** `loadMockNotes()` at time `now`. */
    function Notes(now: string): (notes: seq<Note>)
      reads this
      ensures !slot.Saved? ==> notes == []
      ensures slot.Saved? ==> |notes| == |slot.raw|
      ensures now != "" ==> Stamped(notes)
    {
      LoadNotes(slot, now)
    }

    /** `saveMockNotes(notes)`. */
    method Save(notes: seq<Note>)
      modifies this
      ensures slot == Saved(ToRaws(notes))
      ensures Stamped(notes) ==> forall later :: Notes(later) == notes
    {
      slot := Saved(ToRaws(notes));
      if Stamped(notes) {
        forall later {
          LoadAfterSave(notes, later);
        }
      }
    }

    /** `mockList`: the stored notes, newest first. */
    method List(now: string) returns (notes: seq<Note>)
      ensures NewestFirst(notes)
      ensures multiset(notes) == multiset(Notes(now))
    {
      notes := SortNewestFirst(Notes(now));
    }

    /** `mockCreate`: the new note goes in front of the stored ones. */
    method Create(id: string, title: Option<string>, content: Option<string>, now: string) returns (n: Note)
      modifies this
      ensures n == Written(id, title, content, now)
      ensures slot == Saved(ToRaws([n] + old(Notes(now))))
      ensures now != "" ==> forall later :: Notes(later) == [n] + old(Notes(now))
    {
      n := Written(id, title, content, now);
      var existing := Notes(now);
      if now != "" {
        LoadIsStamped(slot, now);
      }
      Save([n] + existing);
    }

    /** `mockUpdate`: the first note with the id is rewritten in place; with
        no such note the call throws NOT_FOUND and storage is left alone. */
    method Update(id: string, title: Option<string>, content: Option<string>, now: string) returns (r: Outcome<Note>)
      modifies this
      ensures FirstIndex(old(Notes(now)), id).None? ==> r == Thrown(NotFound) && slot == old(slot)
      ensures FirstIndex(old(Notes(now)), id).Some? ==>
        var k := FirstIndex(old(Notes(now)), id).value;
        && r == Value(Written(old(Notes(now))[k].id, title, content, now))
        && slot == Saved(ToRaws(old(Notes(now))[k := r.value]))
        && (now != "" ==> forall later :: Notes(later) == old(Notes(now))[k := r.value])
    {
      var existing := Notes(now);
      var idx := FirstIndex(existing, id);
      if idx.None? {
        return Thrown(NotFound);
      }
      var updated := Written(existing[idx.value].id, title, content, now);
      var next := existing[idx.value := updated];
      if now != "" {
        LoadIsStamped(slot, now);
      }
      Save(next);
      r := Value(updated);
    }

    /** `mockDelete`: every note with the id is dropped, the rest keep their order. */
    method Delete(id: string, now: string)
      modifies this
      ensures slot == Saved(ToRaws(RemoveId(old(Notes(now)), id)))
      ensures now != "" ==> forall later :: Notes(later) == RemoveId(old(Notes(now)), id)
    {
      var existing := Notes(now);
      if now != "" {
        LoadIsStamped(slot, now);
      }
      Save(RemoveId(existing, id));
    }
  }
}
