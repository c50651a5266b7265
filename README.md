# Notes client: note list, search, tag autocomplete and note form

A Dafny model of the in-memory logic of a React notes client.

- **The note list** (`useNotes`). Notes are added at the front, edited in place by id and deleted by id. The tag index is every tag of every note, each once, sorted.
- **The search filter** (`useSearch`). It keeps the notes whose title or content contains the search term, ignoring case, and whose tags include the selected tag exactly.
- **The tag autocomplete widget** (`TagAutocomplete`). It has a suggestion list and a small keyboard state machine over the input text, the open flag, the focused suggestion and the selected tags. Adding a tag trims it, lower-cases it and refuses duplicates.
- **The add/edit note form** (`AddNoteForm`). Submission is refused when the title or the content is blank. Otherwise it calls the add or the edit callback, then resets. Escape, a backdrop click, the close button and Cancel all reset the form.

Modules, one per concern:

- `Notes`: the `Note`, `NoteFormData` and `EditNoteData` records.
- `Text`: `trim`, `toLowerCase` and `includes` on strings.
- `Seqs`: `Array.prototype.filter`, de-duplication through a `Set`, and subsequences.
- `Sorting`: the default `sort` order on strings and an insertion sort.
- `Wrappers`: `Option`.
- `UseNotes`: the `NoteStore` class, whose methods replace `notes`, and the pure list functions it is proved against.
- `UseSearch`: the pure filter.
- `TagAutocomplete`: the pure `Suggestions` function and one state-step function per handler on `WidgetState`. The `Widget` class has one method per handler, each proved to equal its step function and to keep the widget well formed.
- `AddNotesForm`: the `Form` class. Its handlers return the callback calls they make, in order, as a `seq<Callback>`.

Clock readings and the `Date.now()` id are parameters of the store's methods. Fresh ids and clock readings taken in order are hypotheses of the invariant-preservation clauses. They are not preconditions, because the source does not check them.

## Model

| member | source | states |
|---|---|---|
| Text.LowerChar | react-app/src/components/TagAutocomplete.tsx:25 | lower-casing a character changes only `A`-`Z`, to the matching `a`-`z`, and never yields an upper-case letter |
| Text.ToLower | react-app/src/hooks/useSearch.tsx:11-12 | `toLowerCase` keeps the length and lower-cases each character in place |
| Text.ToLowerHasNoUpper | react-app/src/hooks/useSearch.tsx:11-12 | a lower-cased string has no upper-case letter |
| Text.ToLowerIdempotent | react-app/src/hooks/useSearch.tsx:11-12 | lower-casing twice is lower-casing once |
| Text.ToLowerOfNoUpper | react-app/src/components/TagAutocomplete.tsx:42 | a string without upper-case letters is its own lower-case form |
| Text.TrimStart | react-app/src/components/TagAutocomplete.tsx:42 | drops exactly the leading white space: a suffix of the input, all of it white space before, not white space at the start |
| Text.TrimEnd | react-app/src/components/TagAutocomplete.tsx:42 | drops exactly the trailing white space: a prefix of the input, all of it white space after, not white space at the end |
| Text.Trim | react-app/src/components/AddNotesForm.tsx:63 | `trim` is the slice of the input left when white space is stripped from both ends; the slice starts and ends with a non-white-space character, and everything cut off is white space |
| Text.TrimOfTrimmed | react-app/src/components/TagAutocomplete.tsx:42 | `trim` leaves a string alone when it neither starts nor ends with white space |
| Text.BlankIff | react-app/src/components/AddNotesForm.tsx:63 | `!s.trim()` holds exactly when every character of `s` is white space |
| Text.IncludesEmpty | react-app/src/components/TagAutocomplete.tsx:25 | every string includes the empty string |
| Text.IncludesIff | react-app/src/hooks/useSearch.tsx:11-12 | `Includes`, the model of `includes`, holds exactly when the substring occurs at some index |
| Seqs.Filter | react-app/src/hooks/useNotes.tsx:56 | `filter` never lengthens the list |
| Seqs.FilterMembers | react-app/src/hooks/useNotes.tsx:56 | `filter` keeps exactly the elements satisfying the predicate |
| Seqs.FilterCounts | react-app/src/hooks/useNotes.tsx:56 | `filter` keeps each satisfying element as often as it occurs, and no other |
| Seqs.FilterIsSubsequence | react-app/src/hooks/useSearch.tsx:9 | `filter` only deletes: its result is a subsequence of its input, in order |
| Seqs.FilterMonotone | react-app/src/hooks/useSearch.tsx:9 | a stronger predicate filters to a subsequence of what a weaker one filters to |
| Seqs.FilterIdempotent | react-app/src/hooks/useSearch.tsx:9 | filtering twice by the same predicate is filtering once |
| Seqs.FilterKeepsAll | react-app/src/hooks/useNotes.tsx:56 | a predicate true of every element filters nothing out |
| Seqs.FilterAgreeing | react-app/src/hooks/useSearch.tsx:9 | predicates that agree on the elements filter alike |
| Seqs.FilterAppend | react-app/src/components/TagAutocomplete.tsx:52 | filtering a concatenation filters each part |
| Seqs.FilterDropsMiddle | react-app/src/components/TagAutocomplete.tsx:52 | a predicate false of one element and true of all around it removes just that element |
| Seqs.SubsequenceMembers | react-app/src/hooks/useSearch.tsx:9 | a subsequence is no longer than the sequence and has only its elements |
| Seqs.SubsequenceReflexive | react-app/src/hooks/useSearch.tsx:9 | every sequence is a subsequence of itself |
| Seqs.SubsequenceNoDup | react-app/src/components/TagAutocomplete.tsx:52 | a subsequence of a duplicate-free sequence is duplicate-free |
| Seqs.Distinct | react-app/src/hooks/useNotes.tsx:61 | `[...new Set(s)]` has no duplicates, has the same elements as `s`, is a subsequence of `s`, and lists the elements in the order of their first occurrence in `s` |
| Seqs.SubsequenceAppend | react-app/src/hooks/useNotes.tsx:61 | appending an element keeps a subsequence a subsequence |
| Seqs.SubsequenceDropFront | react-app/src/hooks/useNotes.tsx:61 | a sequence is a subsequence of itself with anything put in front |
| Seqs.NoDupIffCounts | react-app/src/hooks/useNotes.tsx:61 | a sequence has no duplicates exactly when every element is counted at most once |
| Seqs.IndexOf | react-app/src/hooks/useNotes.tsx:61 | the first occurrence of an element: the element is at that index and at no earlier index |
| Seqs.IndexOfExtend | react-app/src/hooks/useNotes.tsx:61 | appending keeps the first occurrence of every element already present; a new element first occurs at the old length |
| Sorting.LessEqReflexive | react-app/src/hooks/useNotes.tsx:61 | the code-unit order of `sort` is reflexive |
| Sorting.LessEqAntisymmetric | react-app/src/hooks/useNotes.tsx:61 | the code-unit order is antisymmetric |
| Sorting.LessEqTransitive | react-app/src/hooks/useNotes.tsx:61 | the code-unit order is transitive |
| Sorting.LessEqTotal | react-app/src/hooks/useNotes.tsx:61 | any two strings are comparable |
| Sorting.LessEqIff | react-app/src/hooks/useNotes.tsx:61 | `LessEq`, the order `sort` uses, holds exactly when the first string is a prefix of the second or has the smaller character where they first differ |
| Sorting.PrependSorted | react-app/src/hooks/useNotes.tsx:61 | putting a least element in front of a sorted list keeps it sorted |
| Sorting.LeastOfSorted | react-app/src/hooks/useNotes.tsx:61 | an element no greater than a sorted list's head is no greater than all of it |
| Sorting.Insert | react-app/src/hooks/useNotes.tsx:61 | inserting into a sorted list keeps it sorted and adds exactly that element |
| Sorting.Sort | react-app/src/hooks/useNotes.tsx:61 | `sort` returns a sorted permutation of its input |
| Sorting.SortedNoRepeatsIsStrict | react-app/src/hooks/useNotes.tsx:61 | a sorted list without repetitions is strictly ascending |
| Sorting.StrictlySortedUnique | react-app/src/hooks/useNotes.tsx:61 | two strictly ascending lists of the same strings are equal |
| UseNotes.WithAdded | react-app/src/hooks/useNotes.tsx:31-39 | `addNote` puts one note in front of the old list, which follows unchanged; the note carries the form's title, content and tags, untouched, and the given id and clock readings |
| UseNotes.AddKeepsInvariants | react-app/src/hooks/useNotes.tsx:32-38 | adding with a fresh id keeps ids unique, and clock readings in order keep every note's timestamps in order |
| UseNotes.WithEdited | react-app/src/hooks/useNotes.tsx:41-53 | `editNote` keeps the length, every id, every `createdAt` and every place; matching notes get the edited title, content, tags and the new `updatedAt`; all other notes are unchanged |
| UseNotes.EditAbsentIsNoOp | react-app/src/hooks/useNotes.tsx:42-52 | editing an id no note has leaves the list unchanged, with no error |
| UseNotes.EditKeepsInvariants | react-app/src/hooks/useNotes.tsx:41-53 | an edit keeps ids unique, and keeps timestamps in order when the clock is no earlier than the edited note's creation |
| UseNotes.WithDeleted | react-app/src/hooks/useNotes.tsx:55-57 | `deleteNote` keeps, in order and as often as before, exactly the notes with another id |
| UseNotes.DeleteAbsentIsNoOp | react-app/src/hooks/useNotes.tsx:56 | deleting an id no note has leaves the list unchanged |
| UseNotes.FilterKeepsIdsUnique | react-app/src/hooks/useNotes.tsx:56 | filtering a list with unique ids keeps them unique |
| UseNotes.DeleteRemovesOne | react-app/src/hooks/useNotes.tsx:56 | with unique ids, deleting a present id removes exactly one note |
| UseNotes.DeleteKeepsInvariants | react-app/src/hooks/useNotes.tsx:55-57 | a deletion keeps ids unique and timestamps in order |
| UseNotes.FlatTags | react-app/src/hooks/useNotes.tsx:60 | `flatMap(note => note.tags)` holds exactly the tags of some note |
| UseNotes.SortOfDistinct | react-app/src/hooks/useNotes.tsx:61 | sorting a duplicate-free list gives a strictly ascending list of the same strings |
| UseNotes.AllTags | react-app/src/hooks/useNotes.tsx:59-62 | `getAllTags` is strictly ascending (sorted, no duplicates) and holds a string exactly when some note has it as a tag, as written |
| UseNotes.AllTagsDependsOnlyOnTagSet | react-app/src/hooks/useNotes.tsx:59-62 | lists of notes with the same tags give the same tag index, whatever the order or repetition |
| UseNotes.NoteStore.constructor | react-app/src/hooks/useNotes.tsx:7 | the store starts with no notes, and valid |
| UseNotes.NoteStore.AddNote | react-app/src/hooks/useNotes.tsx:31-39 | the new list is `WithAdded` of the old; validity is kept given a fresh id and ordered clock readings |
| UseNotes.NoteStore.EditNote | react-app/src/hooks/useNotes.tsx:41-53 | the new list is `WithEdited` of the old; validity is kept given a clock no earlier than the edited note's creation |
| UseNotes.NoteStore.DeleteNote | react-app/src/hooks/useNotes.tsx:55-57 | the new list is `WithDeleted` of the old; validity is kept |
| UseNotes.NoteStore.GetAllTags | react-app/src/hooks/useNotes.tsx:59-62 | the current list's tags, each once, strictly ascending |
| UseSearch.FilteredNotes | react-app/src/hooks/useSearch.tsx:8-18 | the shown notes are a subsequence of the notes; a note is shown exactly when the term is empty or occurs, ignoring case, in its title or content, and the tag is empty or one of its tags; shown notes keep their multiplicity |
| UseSearch.MatchesSearchIff | react-app/src/hooks/useSearch.tsx:10-12 | `MatchesSearch`, the text condition, holds exactly when the term is empty or its lower-case form occurs at some index of the lower-cased title or the lower-cased content |
| UseSearch.NoConstraintsShowsAll | react-app/src/hooks/useSearch.tsx:10-15 | no term and no tag show every note, in order |
| UseSearch.FilterAgainIsSame | react-app/src/hooks/useSearch.tsx:9-18 | filtering the shown notes again shows the same notes |
| UseSearch.SelectingTagNarrows | react-app/src/hooks/useSearch.tsx:14-17 | the notes shown for a tag are a subsequence of those shown for no tag |
| UseSearch.SearchIgnoresCase | react-app/src/hooks/useSearch.tsx:10-12 | a term and its lower-case form show the same notes |
| UseSearch.TagMatchIsCaseSensitive | react-app/src/hooks/useSearch.tsx:14-15 | `MatchesTag`, the tag condition, compares exactly: "Work" does not match a note tagged "work", though the term "WORK" finds it |
| TagAutocomplete.Normalize | react-app/src/components/TagAutocomplete.tsx:42 | a normalised tag has no upper-case letter and no white space at either end, and is empty exactly when the tag is blank |
| TagAutocomplete.NormalizeIdempotent | react-app/src/components/TagAutocomplete.tsx:42 | normalising twice is normalising once |
| TagAutocomplete.Suggestions | react-app/src/components/TagAutocomplete.tsx:24-27 | the suggestions are a subsequence of the available tags, holding a tag exactly when its lower-case form contains the lower-cased input and it is not selected; such a tag is suggested as often as it is available |
| TagAutocomplete.EmptyInputSuggestsUnselected | react-app/src/components/TagAutocomplete.tsx:24-27 | with no input, every unselected available tag is suggested |
| TagAutocomplete.FewerTagsMoreSuggestions | react-app/src/components/TagAutocomplete.tsx:26 | deselecting tags makes the old suggestions a subsequence of the new ones |
| TagAutocomplete.AfterAddTag | react-app/src/components/TagAutocomplete.tsx:41-49 | `addTag` changes nothing exactly when the tag is blank or its normalised form is selected; otherwise the new state is the old tags with the normalised tag appended, an empty input, a closed list and no focus; it keeps the tags duplicate-free |
| TagAutocomplete.AddTagKeepsNormalized | react-app/src/components/TagAutocomplete.tsx:42-44 | `addTag` keeps every selected tag in normal form |
| TagAutocomplete.AfterRemoveTag | react-app/src/components/TagAutocomplete.tsx:51-53 | `removeTag` removes every copy of the tag and keeps the others in order and as often; duplicate-free tags stay duplicate-free; the input, list and focus stay |
| TagAutocomplete.RemoveAbsentIsNoOp | react-app/src/components/TagAutocomplete.tsx:51-53 | removing a tag that is not selected changes nothing |
| TagAutocomplete.RemoveSingleOccurrence | react-app/src/components/TagAutocomplete.tsx:52 | in a duplicate-free list, removing the tag at one place takes out just that place |
| TagAutocomplete.AfterInputChange | react-app/src/components/TagAutocomplete.tsx:55-60 | typing sets the input, opens the list exactly when the value is not empty, and resets the focus |
| TagAutocomplete.AfterFocus | react-app/src/components/TagAutocomplete.tsx:120 | focusing the input opens the list when there is input, and changes nothing else |
| TagAutocomplete.AfterMouseDown | react-app/src/components/TagAutocomplete.tsx:30-34 | a press outside closes the list and resets the focus; tags and input stay; a press inside changes nothing |
| TagAutocomplete.FocusDown | react-app/src/components/TagAutocomplete.tsx:70-74 | ArrowDown moves the focus down exactly when it is above the last suggestion, keeps it in range, and changes nothing else |
| TagAutocomplete.FocusUp | react-app/src/components/TagAutocomplete.tsx:75-77 | ArrowUp moves the focus up by one, with a floor of -1, and changes nothing else |
| TagAutocomplete.Close | react-app/src/components/TagAutocomplete.tsx:78-80 | Escape closes the list and resets the focus; tags and input stay |
| TagAutocomplete.EnterCandidate | react-app/src/components/TagAutocomplete.tsx:63-69 | the tag Enter would add is never empty and is a current suggestion or the input; with no focus there is none exactly when the input is blank |
| TagAutocomplete.AfterEnter | react-app/src/components/TagAutocomplete.tsx:63-69 | Enter changes nothing, or appends exactly one tag after the unchanged old ones, clears the input, closes the list and resets the focus; tags stay duplicate-free; with no focus and a blank input it changes nothing |
| TagAutocomplete.AfterBackspace | react-app/src/components/TagAutocomplete.tsx:81-82 | Backspace with input, or with no tags, changes nothing; it never touches the input, list or focus |
| TagAutocomplete.AfterKeyDown | react-app/src/components/TagAutocomplete.tsx:62-84 | only Enter and Backspace touch the tags or the input; the input is kept or cleared; tags stay duplicate-free; an unhandled key changes nothing |
| TagAutocomplete.ArrowKeysKeepFocusInRange | react-app/src/components/TagAutocomplete.tsx:70-77 | the arrow keys keep the focus in [-1, suggestions - 1] when it starts there, and change nothing else |
| TagAutocomplete.EscapeOnlyCloses | react-app/src/components/TagAutocomplete.tsx:78-80 | Escape gives the same tags and input, a closed list and no focus |
| TagAutocomplete.BackspaceRemovesLast | react-app/src/components/TagAutocomplete.tsx:81-82 | Backspace on an empty input removes the last of duplicate-free tags, and changes nothing else |
| TagAutocomplete.EnterCommitsFocused | react-app/src/components/TagAutocomplete.tsx:65-66 | Enter with a focused, non-empty suggestion adds that suggestion |
| TagAutocomplete.EnterWithoutFocus | react-app/src/components/TagAutocomplete.tsx:67-69 | Enter without focus adds the input when it is not blank, and does nothing when it is |
| TagAutocomplete.AddTagKeepsWellFormed | react-app/src/components/TagAutocomplete.tsx:41-49 | `addTag` keeps the focus in range and the list closed when there is no input |
| TagAutocomplete.RemoveTagKeepsWellFormed | react-app/src/components/TagAutocomplete.tsx:51-53 | `removeTag` keeps the focus in range, since suggestions only grow |
| TagAutocomplete.EnterKeepsWellFormed | react-app/src/components/TagAutocomplete.tsx:63-69 | Enter keeps the focus in range and the list closed when there is no input |
| TagAutocomplete.BackspaceKeepsWellFormed | react-app/src/components/TagAutocomplete.tsx:81-82 | Backspace keeps the focus in range and the list closed when there is no input |
| TagAutocomplete.KeyDownKeepsWellFormed | react-app/src/components/TagAutocomplete.tsx:62-84 | every key keeps the focus in range and the list closed when there is no input |
| TagAutocomplete.Widget.constructor | react-app/src/components/TagAutocomplete.tsx:17-19 | the widget starts with empty input, closed list, no focus, the given tags, and well formed |
| TagAutocomplete.Widget.AddTag | react-app/src/components/TagAutocomplete.tsx:41-49 | the new state is `AfterAddTag` of the old; well-formedness is kept |
| TagAutocomplete.Widget.RemoveTag | react-app/src/components/TagAutocomplete.tsx:51-53 | the new state is `AfterRemoveTag` of the old; well-formedness is kept |
| TagAutocomplete.Widget.HandleInputChange | react-app/src/components/TagAutocomplete.tsx:55-60 | the new state is `AfterInputChange` of the old, and well formed |
| TagAutocomplete.Widget.HandleFocus | react-app/src/components/TagAutocomplete.tsx:120 | the new state is `AfterFocus` of the old; well-formedness is kept |
| TagAutocomplete.Widget.HandleMouseDown | react-app/src/components/TagAutocomplete.tsx:30-34 | the new state is `AfterMouseDown` of the old; well-formedness is kept |
| TagAutocomplete.Widget.HandleKeyDown | react-app/src/components/TagAutocomplete.tsx:62-84 | the new state is `AfterKeyDown` of the old; well-formedness is kept |
| TagAutocomplete.Widget.PressEnter | react-app/src/components/TagAutocomplete.tsx:63-69 | the new state is `AfterEnter` of the old |
| TagAutocomplete.Widget.PressArrowDown | react-app/src/components/TagAutocomplete.tsx:70-74 | the new state is `FocusDown` of the old, over the current suggestions |
| TagAutocomplete.Widget.PressArrowUp | react-app/src/components/TagAutocomplete.tsx:75-77 | the new state is `FocusUp` of the old |
| TagAutocomplete.Widget.PressEscape | react-app/src/components/TagAutocomplete.tsx:78-80 | the new state is `Close` of the old |
| TagAutocomplete.Widget.PressBackspace | react-app/src/components/TagAutocomplete.tsx:81-82 | the new state is `AfterBackspace` of the old |
| TagAutocomplete.Widget.HandleSuggestionClick | react-app/src/components/TagAutocomplete.tsx:86-89 | the new state is `AfterAddTag` of the old with the clicked tag |
| TagAutocomplete.Widget.HandleAddClick | react-app/src/components/TagAutocomplete.tsx:130 | the new state is `AfterAddTag` of the old with the input |
| AddNotesForm.CanSubmitIff | react-app/src/components/AddNotesForm.tsx:63-65 | `CanSubmit`, the submit gate, holds exactly when both title and content hold a character that is not white space |
| AddNotesForm.SubmitCallback | react-app/src/components/AddNotesForm.tsx:67-71 | a passing submit calls exactly one of `onEditNote` and `onAddNote`; `onEditNote` exactly when a note is being edited and the callback was given, with that note's id; both get the raw, untrimmed form values |
| AddNotesForm.ResetCallbacks | react-app/src/components/AddNotesForm.tsx:79-81 | a reset calls `onCancelEdit` exactly when it was given, at most once, and no note callback |
| AddNotesForm.Form.constructor | react-app/src/components/AddNotesForm.tsx:21-26 | the form starts closed and empty |
| AddNotesForm.Form.SetEditingNote | react-app/src/components/AddNotesForm.tsx:31-40 | a new editing note fills the form with its title, content and tags and opens the modal; none leaves the form alone |
| AddNotesForm.Form.Open | react-app/src/components/AddNotesForm.tsx:101-104 | the "Add New Note" button opens the modal and changes nothing else |
| AddNotesForm.Form.HandleTitleChange | react-app/src/components/AddNotesForm.tsx:147 | typing a title replaces only the title |
| AddNotesForm.Form.HandleContentChange | react-app/src/components/AddNotesForm.tsx:165 | typing content replaces only the content |
| AddNotesForm.Form.HandleTagsChange | react-app/src/components/AddNotesForm.tsx:94-96 | a tag change replaces only the tags |
| AddNotesForm.Form.ResetForm | react-app/src/components/AddNotesForm.tsx:76-82 | the form is emptied and closed, and the reset calls are made |
| AddNotesForm.Form.CloseModal | react-app/src/components/AddNotesForm.tsx:90-92 | closing (the close button, Cancel) empties and closes the form and calls no note callback |
| AddNotesForm.Form.HandleDocumentKeyDown | react-app/src/components/AddNotesForm.tsx:43-59 | Escape while open empties and closes the form; anything else changes nothing and calls nothing |
| AddNotesForm.Form.HandleBackdropClick | react-app/src/components/AddNotesForm.tsx:84-88 | a click on the backdrop itself empties and closes the form; a click inside changes nothing and calls nothing |
| AddNotesForm.Form.HandleSubmit | react-app/src/components/AddNotesForm.tsx:61-74 | a blank title or content makes no call and changes nothing; otherwise the form makes the one submit call, then the reset calls, and ends empty and closed |

## Left out

- Loading notes from and saving them to `localStorage`, with the JSON revival of dates (`useNotes.tsx:9-29`): browser storage and untyped JSON.
- The Markdown renderer, the note card (locale date formatting, `window.confirm`), the delete-confirmation modal, the tag filter, the search bar, the application shell and the Express/Prisma server: UI wiring, foreign libraries, network and database I/O, with no list logic of their own.
- The setters `setSearchTerm` and `setSelectedTag`: the filter takes the term and the tag as arguments.
- DOM side effects: registering and removing listeners, `document.body.style.overflow`, refs, `preventDefault`, and moving the focus back to the input after a suggestion click.
- The click-outside test `dropdownRef.current.contains(target)` is the `insideWidget` argument of `HandleMouseDown`. A press while the ref is not yet attached is modelled as a press inside.
- `toLowerCase` lower-cases only the ASCII letters `A`-`Z`. Unicode case mapping, including mappings that change a string's length, is not modelled.
- `sort` compares strings as sequences of `char`. This is the UTF-16 code-unit order for characters of the basic plane. Surrogate pairs are not modelled.
- Each `new Date()` and `Date.now()` reading is a parameter. `addNote` takes two readings, `createdAt` and `updatedAt`.
- UseNotes.WithEdited: takes one clock reading for all matching notes. The source reads the clock once per matching note; the readings can differ only when two notes share the edited id.
- UseNotes.NoteStore.AddNote: keeps the invariants only when the caller supplies a fresh id. `Date.now().toString()` does not guarantee one.
- TagAutocomplete.Widget: `availableTags` is fixed for the widget's lifetime, although the parent may pass a new list on any render.
- TagAutocomplete.Widget: the `tags` prop is a field that the handlers assign. This stands for the parent feeding `onTagsChange`'s argument straight back in, as the form does at `AddNotesForm.tsx:94-96`.
- TagAutocomplete.BackspaceRemovesLast: stated for duplicate-free tags only. With a repeated last tag, Backspace removes every copy (see `AfterRemoveTag`). The widget itself never adds a duplicate.
- Rendering conditions are not modelled: the suggestion list shows only while open and non-empty; the modal and its handlers exist only while open. Only `Open` carries its button's condition, as a precondition.
- AddNotesForm.Form: the callback props are not invoked. Each handler returns the calls it would make, in order.
