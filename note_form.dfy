/** The note form: a title, a content and a `touched` flag, validated on the
    trimmed title, submitted to the parent, and reset when its props change. */
module Form {
  import opened JsString
  import opened NoteData

  /** The `mode` prop. */
  datatype Mode = Create | Edit

  /** What `onSubmit` receives: the fields exactly as typed, untrimmed. */
  datatype Submission = Submission(title: string, content: string)

  const TitleRequired: string := "Title is required."

  /** `title.trim().length > 0`: the title holds a character that is not white space. */
  predicate ValidTitle(title: string): (valid: bool)
    ensures valid <==> !AllSpace(title)
  {
    TrimEmptyIff(title);
    |Trim(title)| > 0
  }

  /** The `titleError` memo: silent until touched, then a message exactly
      when the trimmed title is empty. */
  function TitleErrorFor(title: string, touched: bool): (message: string)
    ensures message == "" || message == TitleRequired
    ensures message == TitleRequired <==> touched && !ValidTitle(title)
  {
    if !touched then ""
    else if Trim(title) == [] then TitleRequired
    else ""
  }

  class NoteForm {
    /** The props last rendered with, the dependencies of the reset effect. */
    var mode: Mode
    var initialTitle: Option<string>
    var initialContent: Option<string>
    /** The component's state. */
    var title: string
    var content: string
    var touched: bool

    /** First render: the state starts from the props (`initialTitle || ""`). */
    constructor (mode: Mode, initialTitle: Option<string>, initialContent: Option<string>)
      ensures this.mode == mode && this.initialTitle == initialTitle && this.initialContent == initialContent
      ensures title == OrEmpty(initialTitle) && content == OrEmpty(initialContent) && !touched
    {
      this.mode := mode;
      this.initialTitle := initialTitle;
      this.initialContent := initialContent;
      title := OrEmpty(initialTitle);
      content := OrEmpty(initialContent);
      touched := false;
    }

    /** `isValid`. */
    function IsValid(): (valid: bool)
      reads this
      ensures valid <==> !AllSpace(title)
    {
      ValidTitle(title)
    }

    /** `titleError`. */
    function TitleError(): (message: string)
      reads this
      ensures message == "" || message == TitleRequired
      ensures message == TitleRequired <==> touched && AllSpace(title)
    {
      TitleErrorFor(title, touched)
    }

    /** The title input's `onChange`. */
    method ChangeTitle(value: string)
      modifies this
      ensures title == value
      ensures content == old(content) && touched == old(touched)
      ensures mode == old(mode) && initialTitle == old(initialTitle) && initialContent == old(initialContent)
    {
      title := value;
    }

    /** The content textarea's `onChange`. */
    method ChangeContent(value: string)
      modifies this
      ensures content == value
      ensures title == old(title) && touched == old(touched)
      ensures mode == old(mode) && initialTitle == old(initialTitle) && initialContent == old(initialContent)
    {
      content := value;
    }

    /** The title input's `onBlur`. */
    method BlurTitle()
      modifies this
      ensures touched
      ensures title == old(title) && content == old(content)
      ensures mode == old(mode) && initialTitle == old(initialTitle) && initialContent == old(initialContent)
      ensures TitleError() == TitleRequired <==> !IsValid()
    {
      touched := true;
    }

    /** A re-render with new props: when `initialTitle`, `initialContent` or
        `mode` differ from the last ones, the effect resets the fields to the
        new initial values and clears `touched`; otherwise nothing changes. */
    method ReceiveProps(mode': Mode, initialTitle': Option<string>, initialContent': Option<string>)
      modifies this
      ensures mode == mode' && initialTitle == initialTitle' && initialContent == initialContent'
      ensures (mode', initialTitle', initialContent') != old((mode, initialTitle, initialContent)) ==>
        title == OrEmpty(initialTitle') && content == OrEmpty(initialContent') && !touched && TitleError() == ""
      ensures (mode', initialTitle', initialContent') == old((mode, initialTitle, initialContent)) ==>
        title == old(title) && content == old(content) && touched == old(touched)
    {
      var changed := (mode', initialTitle', initialContent') != (mode, initialTitle, initialContent);
      mode, initialTitle, initialContent := mode', initialTitle', initialContent';
      if changed {
        title := OrEmpty(initialTitle');
        content := OrEmpty(initialContent');
        touched := false;
      }
    }

    /** `handleSubmit`. An invalid title only marks the form touched, so the
        error shows. A valid one is handed to `onSubmit` untrimmed; then a
        create form is cleared and an edit form keeps its fields. */
    method HandleSubmit() returns (sent: Option<Submission>)
      modifies this
      ensures mode == old(mode) && initialTitle == old(initialTitle) && initialContent == old(initialContent)
      ensures !old(IsValid()) ==>
        sent.None? && touched && title == old(title) && content == old(content) && TitleError() == TitleRequired
      ensures old(IsValid()) ==> sent == Some(Submission(old(title), old(content))) && ValidTitle(sent.value.title)
      ensures old(IsValid()) && mode == Create ==> title == "" && content == "" && !touched
      ensures old(IsValid()) && mode == Edit ==> title == old(title) && content == old(content) && touched
    {
      var valid := IsValid();
      touched := true;
      if !valid {
        return None;
      }
      sent := Some(Submission(title, content));
      if mode == Create {
        title := "";
        content := "";
        touched := false;
      }
    }
  }
}
