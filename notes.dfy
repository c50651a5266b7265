/** The records the note list is made of. */
module Notes {

  /** A `Date`, as the milliseconds since the epoch it holds. */
  type Timestamp = int

  /** A stored note. The list operations give no meaning to `tags` beyond the
      strings themselves: they neither trim, lower-case nor de-duplicate them. */
  datatype Note = Note(
    id: string,
    title: string,
    content: string,
    tags: seq<string>,
    createdAt: Timestamp,
    updatedAt: Timestamp)

  /** What the add/edit form collects. */
  datatype NoteFormData = NoteFormData(title: string, content: string, tags: seq<string>)

  /** What an edit hands to the note list: the form data and the id of the note it replaces. */
  datatype EditNoteData = EditNoteData(id: string, title: string, content: string, tags: seq<string>)
}
