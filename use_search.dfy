/** The search filter of the client (`useSearch`): the notes shown for a
    search term and a selected tag. */
module UseSearch {
  import opened Notes
  import opened Text
  import opened Seqs

  /** The text condition: no term, or the lower-cased term occurs in the
      lower-cased title or the lower-cased content. */
  predicate MatchesSearch(note: Note, searchTerm: string) {
    searchTerm == "" ||
    Includes(ToLower(note.title), ToLower(searchTerm)) ||
    Includes(ToLower(note.content), ToLower(searchTerm))
  }

  /** The tag condition: no tag selected, or the selected tag is, exactly, one of the note's tags. */
  predicate MatchesTag(note: Note, selectedTag: string) {
    selectedTag == "" || selectedTag in note.tags
  }

  /** The text condition in terms of positions: no term, or the lower-cased
      term found at some offset of the lower-cased title or content. */
  lemma MatchesSearchIff(note: Note, searchTerm: string)
    ensures MatchesSearch(note, searchTerm) <==>
      searchTerm == "" ||
      (exists i :: OccursAt(ToLower(note.title), ToLower(searchTerm), i)) ||
      (exists i :: OccursAt(ToLower(note.content), ToLower(searchTerm), i))
  {
    LowerIncludesInEither(note.title, note.content, searchTerm);
  }

  lemma LowerIncludesInEither(title: string, content: string, term: string)
    ensures Includes(ToLower(title), ToLower(term)) || Includes(ToLower(content), ToLower(term)) <==>
      (exists i :: OccursAt(ToLower(title), ToLower(term), i)) ||
      (exists i :: OccursAt(ToLower(content), ToLower(term), i))
  {
    var lt, lc, lq := ToLower(title), ToLower(content), ToLower(term);
    IncludesInEither(lt, lc, lq);
    if exists i :: OccursAt(lt, lq, i) {
      var i :| OccursAt(lt, lq, i);
      assert OccursAt(ToLower(title), ToLower(term), i);
    }
    if exists i :: OccursAt(lc, lq, i) {
      var i :| OccursAt(lc, lq, i);
      assert OccursAt(ToLower(content), ToLower(term), i);
    }
    if exists i :: OccursAt(ToLower(title), ToLower(term), i) {
      var i :| OccursAt(ToLower(title), ToLower(term), i);
      assert OccursAt(lt, lq, i);
    }
    if exists i :: OccursAt(ToLower(content), ToLower(term), i) {
      var i :| OccursAt(ToLower(content), ToLower(term), i);
      assert OccursAt(lc, lq, i);
    }
  }

  lemma IncludesInEither(title: string, content: string, term: string)
    ensures Includes(title, term) || Includes(content, term) <==>
      (exists i :: OccursAt(title, term, i)) || (exists i :: OccursAt(content, term, i))
  {
    IncludesIff(title, term);
    IncludesIff(content, term);
  }

  /** The predicate handed to `notes.filter`. */
  function Matches(searchTerm: string, selectedTag: string): Note -> bool {
    (n: Note) => MatchesSearch(n, searchTerm) && MatchesTag(n, selectedTag)
  }

  /** `filteredNotes`: the notes meeting both conditions, in the order of
      `notes` and as often as they occur there; nothing is re-sorted. */
  function FilteredNotes(notes: seq<Note>, searchTerm: string, selectedTag: string): (r: seq<Note>)
    ensures IsSubsequence(r, notes)
    ensures forall n :: n in r <==> n in notes && MatchesSearch(n, searchTerm) && MatchesTag(n, selectedTag)
    ensures forall n: Note :: MatchesSearch(n, searchTerm) && MatchesTag(n, selectedTag) ==>
      multiset(r)[n] == multiset(notes)[n]
  {
    FilterIsSubsequence(notes, Matches(searchTerm, selectedTag));
    FilterMembers(notes, Matches(searchTerm, selectedTag));
    FilterCounts(notes, Matches(searchTerm, selectedTag));
    Filter(notes, Matches(searchTerm, selectedTag))
  }

  /** With no term and no tag every note is shown, in its order. */
  lemma NoConstraintsShowsAll(notes: seq<Note>)
    ensures FilteredNotes(notes, "", "") == notes
  {
    FilterKeepsAll(notes, Matches("", ""));
  }

  /** Filtering the shown notes again with the same term and tag shows the same notes. */
  lemma FilterAgainIsSame(notes: seq<Note>, searchTerm: string, selectedTag: string)
    ensures FilteredNotes(FilteredNotes(notes, searchTerm, selectedTag), searchTerm, selectedTag)
         == FilteredNotes(notes, searchTerm, selectedTag)
  {
    FilterIdempotent(notes, Matches(searchTerm, selectedTag));
  }

  /** Selecting a tag only hides notes: the result is a subsequence of the
      result for the same term with no tag. */
  lemma SelectingTagNarrows(notes: seq<Note>, searchTerm: string, selectedTag: string)
    ensures IsSubsequence(FilteredNotes(notes, searchTerm, selectedTag), FilteredNotes(notes, searchTerm, ""))
  {
    FilterMonotone(notes, Matches(searchTerm, selectedTag), Matches(searchTerm, ""));
  }

  /** The term is compared without regard to case: any term finds what its
      lower-case form finds. */
  lemma SearchIgnoresCase(notes: seq<Note>, searchTerm: string, selectedTag: string)
    ensures FilteredNotes(notes, searchTerm, selectedTag) == FilteredNotes(notes, ToLower(searchTerm), selectedTag)
  {
    ToLowerIdempotent(searchTerm);
    assert searchTerm == "" <==> ToLower(searchTerm) == "";
    FilterAgreeing(notes, Matches(searchTerm, selectedTag), Matches(ToLower(searchTerm), selectedTag));
  }

  /** The tag is compared exactly: a note tagged "work" is hidden when "Work"
      is selected, though the term "WORK" finds its title "work". */
  lemma TagMatchIsCaseSensitive()
    ensures var n := Note("1", "work", "", ["work"], 0, 0);
      !MatchesTag(n, "Work") && MatchesSearch(n, "WORK")
  {
    var n := Note("1", "work", "", ["work"], 0, 0);
    assert ToLower("WORK") == "work";
    assert ToLower("work") == "work";
    assert IsPrefix("work", "work");
  }
}
