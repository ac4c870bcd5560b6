/** The root component: the notes list, the id of the note being edited and a
    status line, changed by the create, edit, cancel, update and delete handlers. */
module AppRoot {
  import opened JsString
  import opened NoteData
  import opened Form

  /** The two notes the list starts with, stamped with the load time. */
  function SeedNotes(now: string): (seeds: seq<Note>)
    ensures |seeds| == 2 && seeds[0].id != seeds[1].id
  {
    [ Note("seed-1", "Welcome to Notes",
           "Add a new note, edit an existing one, or delete notes you no longer need.", now),
      Note("seed-2", "Keyboard tips",
           "Use Tab to move between controls. Press Enter on buttons/links to activate them.", now) ]
  }

  /** Every title is non-empty and trimmed: what a list fed only through the form holds. */
  predicate AllTitled(notes: seq<Note>) {
    forall n :: n in notes ==> n.title != [] && IsTrimmed(n.title)
  }

  lemma SeedNotesTitled(now: string)
    ensures AllTitled(SeedNotes(now))
  {
  }

  /** `editingNote`: the first note whose id is the editing id, or null. */
  function EditingNoteOf(notes: seq<Note>, editingId: Option<string>): (r: Option<Note>)
    ensures r.Some? ==> r.value in notes && editingId == Some(r.value.id)
    ensures r.None? <==> editingId.None? || forall k :: 0 <= k < |notes| ==> notes[k].id != editingId.value
    ensures r.Some? ==> exists k :: 0 <= k < |notes| && notes[k] == r.value && forall j :: 0 <= j < k ==> notes[j].id != editingId.value
  {
    if editingId.None? then None
    else
      match FirstIndex(notes, editingId.value)
      case None => None
      case Some(k) => Some(notes[k])
  }

  /** The subtitle of the list panel. */
  function CountText(count: nat): (text: string)
    ensures count == 0 <==> text == "No notes yet. Add one above."
  {
    if count == 0 then "No notes yet. Add one above."
    else
      var text := NatToString(count) + " note" + (if count == 1 then "" else "s");
      assert text[0] == NatToString(count)[0];
      text
  }

  /** For a non-empty list the subtitle starts with the count in decimal,
      followed by " note", and ends in "s" unless the count is one. */
  lemma CountTextShape(count: nat)
    requires count > 0
    ensures var digits := NatToString(count); var text := CountText(count);
      && text[..|digits|] == digits && DecimalValue(digits) == count
      && text[|digits|..|digits| + 5] == " note"
      && (text[|text| - 1] == 's' <==> count != 1)
      && |text| == |digits| + (if count == 1 then 5 else 6)
  {
    NatToStringValue(count);
    var digits := NatToString(count);
    var text := CountText(count);
    assert text == digits + " note" + (if count == 1 then "" else "s");
    assert text[|digits|..|digits| + 5] == " note";
  }

  /** "Delete "<subject>"? This cannot be undone." */
  function PromptAbout(subject: string): string {
    "Delete \"" + subject + "\"? This cannot be undone."
  }

  lemma PromptAboutShape(subject: string)
    ensures var prompt := PromptAbout(subject);
      && |prompt| == |subject| + 33
      && prompt[..8] == "Delete \""
      && prompt[8..8 + |subject|] == subject
  {
    var prompt := PromptAbout(subject);
    assert prompt == ("Delete \"" + subject) + "\"? This cannot be undone.";
    assert prompt[..8 + |subject|] == "Delete \"" + subject;
  }

  /** The confirmation question of `handleDelete`: it quotes the title of the
      first note with the id, or says "this note" when there is none. */
  function DeletePrompt(notes: seq<Note>, id: string): (prompt: string)
    ensures |prompt| >= 33 && prompt[..8] == "Delete \""
    ensures (forall k :: 0 <= k < |notes| ==> notes[k].id != id) ==> prompt == PromptAbout("this note")
    ensures FirstIndex(notes, id).Some? ==>
      var title := notes[FirstIndex(notes, id).value].title;
      |prompt| == |title| + 33 && prompt[8..8 + |title|] == title
  {
    match FindById(notes, id)
    case Some(n) => PromptAboutShape(n.title); PromptAbout(n.title)
    case None => PromptAboutShape("this note"); PromptAbout("this note")
  }

  /** The props the root passes to the form. */
  datatype FormProps = FormProps(mode: Mode, initialTitle: Option<string>, initialContent: Option<string>)

  class App {
    var notes: seq<Note>
    var editingId: Option<string>
    var statusMessage: string

    constructor (now: string)
      ensures notes == SeedNotes(now) && editingId == None && statusMessage == ""
      ensures AllTitled(notes)
    {
      notes := SeedNotes(now);
      editingId := None;
      statusMessage := "";
      SeedNotesTitled(now);
    }

    /** `editingNote`. */
    function EditingNote(): (r: Option<Note>)
      reads this
      ensures r.Some? ==> r.value in notes && editingId == Some(r.value.id)
      ensures r.None? <==> editingId.None? || forall k :: 0 <= k < |notes| ==> notes[k].id != editingId.value
    {
      EditingNoteOf(notes, editingId)
    }

    /** The form's props: edit mode with the edited note's fields, or an empty create form. */
    function Props(): (props: FormProps)
      reads this
      ensures props.mode == Edit <==> EditingNote().Some?
      ensures props.mode == Create ==> props == FormProps(Create, Some(""), Some(""))
      ensures EditingNote().Some? ==>
        props == FormProps(Edit, Some(EditingNote().value.title), Some(EditingNote().value.content))
    {
      match EditingNote()
      case Some(n) => FormProps(Edit, Some(n.title), Some(n.content))
      case None => FormProps(Create, Some(""), Some(""))
    }

    /** `handleCreate`: a new note, trimmed, goes in front of the list. */
    method HandleCreate(id: string, title: string, content: string, now: string)
      modifies this
      ensures notes == [Note(id, Trim(title), Trim(content), now)] + old(notes)
      ensures editingId == old(editingId) && statusMessage == "Note added."
    {
      var newNote := Note(id, Trim(title), Trim(content), now);
      notes := [newNote] + notes;
      statusMessage := "Note added.";
    }

    /** `handleStartEdit`. */
    method HandleStartEdit(id: string)
      modifies this
      ensures editingId == Some(id) && notes == old(notes) && statusMessage == "Editing note."
    {
      editingId := Some(id);
      statusMessage := "Editing note.";
    }

    /** `handleCancelEdit`. */
    method HandleCancelEdit()
      modifies this
      ensures editingId == None && notes == old(notes) && statusMessage == "Edit cancelled."
      ensures EditingNote() == None
    {
      editingId := None;
      statusMessage := "Edit cancelled.";
    }

    /** `handleUpdate`: without a (truthy) editing id nothing happens; otherwise
        every note with that id takes the trimmed fields and the new time,
        and editing ends. */
    method HandleUpdate(title: string, content: string, now: string)
      modifies this
      ensures !Truthy(old(editingId)) ==>
        notes == old(notes) && editingId == old(editingId) && statusMessage == old(statusMessage)
      ensures Truthy(old(editingId)) ==>
        && notes == EditMatching(old(notes), old(editingId).value, Trim(title), Trim(content), now)
        && editingId == None && statusMessage == "Note updated."
    {
      if !Truthy(editingId) {
        return;
      }
      notes := EditMatching(notes, editingId.value, Trim(title), Trim(content), now);
      editingId := None;
      statusMessage := "Note updated.";
    }

    /** `handleDelete`: a declined confirmation changes nothing; a confirmed
        one drops every note with the id and stops editing it. */
    method HandleDelete(id: string, confirmed: bool)
      modifies this
      ensures !confirmed ==>
        notes == old(notes) && editingId == old(editingId) && statusMessage == old(statusMessage)
      ensures confirmed ==>
        && notes == RemoveId(old(notes), id)
        && editingId == (if old(editingId) == Some(id) then None else old(editingId))
        && statusMessage == "Note deleted."
    {
      if !confirmed {
        return;
      }
      notes := RemoveId(notes, id);
      if editingId == Some(id) {
        editingId := None;
      }
      statusMessage := "Note deleted.";
    }
  }

  /** Submitting the form: the root wires `onSubmit` to `handleUpdate` while
      a note is being edited and to `handleCreate` otherwise. Whatever the
      form lets through, the list keeps only non-empty trimmed titles. */
  method SubmitForm(app: App, form: NoteForm, id: string, now: string) returns (sent: Option<Submission>)
    modifies app, form
    ensures sent.Some? <==> old(form.IsValid())
    ensures sent.Some? ==> sent.value == Submission(old(form.title), old(form.content))
    ensures form.mode == old(form.mode)
    ensures form.initialTitle == old(form.initialTitle) && form.initialContent == old(form.initialContent)
    ensures sent.None? ==> form.touched && form.title == old(form.title) && form.content == old(form.content)
    ensures sent.Some? && form.mode == Create ==> form.title == "" && form.content == "" && !form.touched
    ensures sent.Some? && form.mode == Edit ==>
      form.title == old(form.title) && form.content == old(form.content) && form.touched
    ensures sent.None? ==>
      app.notes == old(app.notes) && app.editingId == old(app.editingId) && app.statusMessage == old(app.statusMessage)
    ensures sent.Some? && old(app.EditingNote()).None? ==>
      && app.notes == [Note(id, Trim(old(form.title)), Trim(old(form.content)), now)] + old(app.notes)
      && app.editingId == old(app.editingId) && app.statusMessage == "Note added."
    ensures sent.Some? && old(app.EditingNote()).Some? && Truthy(old(app.editingId)) ==>
      && app.notes == EditMatching(old(app.notes), old(app.editingId).value,
                                   Trim(old(form.title)), Trim(old(form.content)), now)
      && app.editingId == None && app.statusMessage == "Note updated."
    ensures sent.Some? && old(app.EditingNote()).Some? && !Truthy(old(app.editingId)) ==>
      app.notes == old(app.notes) && app.editingId == old(app.editingId) && app.statusMessage == old(app.statusMessage)
    ensures old(AllTitled(app.notes)) ==> AllTitled(app.notes)
  {
    var editing := app.EditingNote();
    sent := form.HandleSubmit();
    if sent.None? {
      return;
    }
    var title, content := sent.value.title, sent.value.content;
    TrimShape(title);
    ghost var before := app.notes;
    ghost var editingId := app.editingId;
    if editing.Some? {
      app.HandleUpdate(title, content, now);
      if Truthy(editingId) && AllTitled(before) {
        EditKeepsTitled(before, editingId.value, Trim(title), Trim(content), now);
      }
    } else {
      app.HandleCreate(id, title, content, now);
      if AllTitled(before) {
        CreateKeepsTitled(before, Note(id, Trim(title), Trim(content), now));
      }
    }
  }

  lemma CreateKeepsTitled(notes: seq<Note>, n: Note)
    requires AllTitled(notes) && n.title != [] && IsTrimmed(n.title)
    ensures AllTitled([n] + notes)
  {
  }

  lemma EditKeepsTitled(notes: seq<Note>, id: string, title: string, content: string, now: string)
    requires AllTitled(notes) && title != [] && IsTrimmed(title)
    ensures AllTitled(EditMatching(notes, id, title, content, now))
  {
    var r := EditMatching(notes, id, title, content, now);
    forall n | n in r ensures n.title != [] && IsTrimmed(n.title) {
      var k :| 0 <= k < |r| && r[k] == n;
      assert notes[k] in notes;
    }
  }
}
