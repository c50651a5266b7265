/** The add/edit note form (`AddNoteForm`): a modal holding the title, the
    content and the tags being written, which validates on submit, hands the
    data to the add or the edit callback, and resets.

    The callbacks are the component's props; each handler returns the calls
    it makes, in order, instead of making them. Whether `onEditNote` and
    `onCancelEdit` were given is fixed when the form is created. */
module AddNotesForm {
  import opened Notes
  import opened Text
  import opened Wrappers

  /** A call the form makes to one of its callback props. */
  datatype Callback =
    | OnAddNote(data: NoteFormData)
    | OnEditNote(edit: EditNoteData)
    | OnCancelEdit

  /** The empty form `resetForm` restores. */
  const EmptyForm := NoteFormData("", "", [])

  /** The validation gate of `handleSubmit`: neither the title nor the content
      is blank once trimmed. */
  predicate CanSubmit(data: NoteFormData) {
    !IsBlank(data.title) && !IsBlank(data.content)
  }

  /** The gate passes exactly when both the title and the content hold a
      character that is not white space. */
  lemma CanSubmitIff(data: NoteFormData)
    ensures CanSubmit(data) <==>
      (exists i :: 0 <= i < |data.title| && !IsWhitespace(data.title[i])) &&
      (exists i :: 0 <= i < |data.content| && !IsWhitespace(data.content[i]))
  {
    BlankIff(data.title);
    BlankIff(data.content);
  }

  /** The call a submit that passes the gate makes: `onEditNote` with the
      edited note's id when a note is being edited and `onEditNote` was
      given, `onAddNote` otherwise. Either gets the form values as they
      are, untrimmed. */
  function SubmitCallback(editingNote: Option<Note>, hasOnEditNote: bool, data: NoteFormData): (c: Callback)
    ensures c.OnAddNote? || c.OnEditNote?
    ensures c.OnEditNote? <==> editingNote.Some? && hasOnEditNote
    ensures c.OnEditNote? ==>
      c.edit.id == editingNote.value.id &&
      c.edit.title == data.title && c.edit.content == data.content && c.edit.tags == data.tags
    ensures c.OnAddNote? ==> c.data == data
  {
    if editingNote.Some? && hasOnEditNote then
      OnEditNote(EditNoteData(editingNote.value.id, data.title, data.content, data.tags))
    else
      OnAddNote(data)
  }

  /** The calls `resetForm` makes: `onCancelEdit`, when it was given, and
      never a note callback. */
  function ResetCallbacks(hasOnCancelEdit: bool): (calls: seq<Callback>)
    ensures forall c :: c in calls ==> c == OnCancelEdit
    ensures OnCancelEdit in calls <==> hasOnCancelEdit
    ensures |calls| <= 1
  {
    if hasOnCancelEdit then [OnCancelEdit] else []
  }

  /** The form's state hooks, `isOpen` and `formData`, beside its
      `editingNote` prop. */
  class Form {
    var isOpen: bool
    var formData: NoteFormData
    var editingNote: Option<Note>
    const hasOnEditNote: bool
    const hasOnCancelEdit: bool

    constructor (hasOnEditNote: bool, hasOnCancelEdit: bool)
      ensures !isOpen && formData == EmptyForm && editingNote == None
      ensures this.hasOnEditNote == hasOnEditNote && this.hasOnCancelEdit == hasOnCancelEdit
    {
      isOpen := false;
      formData := EmptyForm;
      editingNote := None;
      this.hasOnEditNote := hasOnEditNote;
      this.hasOnCancelEdit := hasOnCancelEdit;
    }

    /** `isEditing`. */
    predicate IsEditing()
      reads this
    {
      editingNote.Some?
    }

    /** A new `editingNote` prop and the effect that follows it: a note fills
      the form with its title, content and tags and opens the modal; no note
      leaves the form alone. */
    method SetEditingNote(note: Option<Note>)
      modifies this
      ensures editingNote == note
      ensures note.Some? ==>
        isOpen && formData == NoteFormData(note.value.title, note.value.content, note.value.tags)
      ensures note.None? ==> isOpen == old(isOpen) && formData == old(formData)
    {
      editingNote := note;
      if note.Some? {
        formData := NoteFormData(note.value.title, note.value.content, note.value.tags);
        isOpen := true;
      }
    }

    /** The "Add New Note" button, which is only shown while no note is
      being edited. */
    method Open()
      requires !IsEditing()
      modifies this
      ensures isOpen && formData == old(formData) && editingNote == old(editingNote)
    {
      isOpen := true;
    }

    /** The title input's `onChange`. */
    method HandleTitleChange(value: string)
      modifies this
      ensures formData == old(formData).(title := value)
      ensures isOpen == old(isOpen) && editingNote == old(editingNote)
    {
      formData := formData.(title := value);
    }

    /** The content textarea's `onChange`. */
    method HandleContentChange(value: string)
      modifies this
      ensures formData == old(formData).(content := value)
      ensures isOpen == old(isOpen) && editingNote == old(editingNote)
    {
      formData := formData.(content := value);
    }

    /** `handleTagsChange`, the tag input's `onTagsChange`: only the tags change. */
    method HandleTagsChange(newTags: seq<string>)
      modifies this
      ensures formData == old(formData).(tags := newTags)
      ensures isOpen == old(isOpen) && editingNote == old(editingNote)
    {
      formData := formData.(tags := newTags);
    }

    /** `resetForm`: empties the form, closes the modal and reports the cancel. */
    method ResetForm() returns (calls: seq<Callback>)
      modifies this
      ensures formData == EmptyForm && !isOpen && editingNote == old(editingNote)
      ensures calls == ResetCallbacks(hasOnCancelEdit)
    {
      formData := EmptyForm;
      isOpen := false;
      calls := [];
      if hasOnCancelEdit {
        calls := calls + [OnCancelEdit];
      }
    }

    /** `closeModal`: the close button, the Cancel button, and what Escape and
      a backdrop click do. Neither note callback is called. */
    method CloseModal() returns (calls: seq<Callback>)
      modifies this
      ensures formData == EmptyForm && !isOpen && editingNote == old(editingNote)
      ensures calls == ResetCallbacks(hasOnCancelEdit)
    {
      calls := ResetForm();
    }

    /** The document's `keydown` listener, registered while the modal is
      open: Escape closes it. */
    method HandleDocumentKeyDown(isEscape: bool) returns (calls: seq<Callback>)
      modifies this
      ensures isEscape && old(isOpen) ==>
        formData == EmptyForm && !isOpen && calls == ResetCallbacks(hasOnCancelEdit)
      ensures !(isEscape && old(isOpen)) ==>
        formData == old(formData) && isOpen == old(isOpen) && calls == []
      ensures editingNote == old(editingNote)
    {
      calls := [];
      if isEscape && isOpen {
        calls := CloseModal();
      }
    }

    /** `handleBackdropClick`: a click on the backdrop itself, not on the
      modal inside it, closes the modal. */
    method HandleBackdropClick(targetIsBackdrop: bool) returns (calls: seq<Callback>)
      modifies this
      ensures targetIsBackdrop ==>
        formData == EmptyForm && !isOpen && calls == ResetCallbacks(hasOnCancelEdit)
      ensures !targetIsBackdrop ==>
        formData == old(formData) && isOpen == old(isOpen) && calls == []
      ensures editingNote == old(editingNote)
    {
      calls := [];
      if targetIsBackdrop {
        calls := CloseModal();
      }
    }

    /** `handleSubmit`: a blank title or content is refused with no call and
      no change; otherwise exactly one of the note callbacks gets the form
      values, and the form is reset. */
    method HandleSubmit() returns (calls: seq<Callback>)
      modifies this
      ensures !CanSubmit(old(formData)) ==>
        calls == [] && formData == old(formData) && isOpen == old(isOpen)
      ensures CanSubmit(old(formData)) ==>
        calls == [SubmitCallback(editingNote, hasOnEditNote, old(formData))] + ResetCallbacks(hasOnCancelEdit) &&
        formData == EmptyForm && !isOpen
      ensures editingNote == old(editingNote)
    {
      if Trim(formData.title) == "" || Trim(formData.content) == "" {
        return [];
      }
      var call;
      if IsEditing() && hasOnEditNote {
        call := OnEditNote(EditNoteData(editingNote.value.id, formData.title, formData.content, formData.tags));
      } else {
        call := OnAddNote(formData);
      }
      var resetCalls := ResetForm();
      calls := [call] + resetCalls;
    }
  }
}
