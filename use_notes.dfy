/** The note list of the client (`useNotes`): a store whose `notes` each
    mutation replaces with a new list, and the tag index derived from it.
    The clock readings and the `Date.now()` id are parameters. */
module UseNotes {
  import opened Notes
  import opened Seqs
  import opened Sorting

  /** No two notes share an id. */
  predicate UniqueIds(notes: seq<Note>) {
    forall i, j :: 0 <= i < j < |notes| ==> notes[i].id != notes[j].id
  }

  /** `id` is not the id of any note in the list. */
  predicate FreshId(notes: seq<Note>, id: string) {
    forall n :: n in notes ==> n.id != id
  }

  /** Every note was last updated no earlier than it was created. */
  predicate TimesOrdered(notes: seq<Note>) {
    forall n :: n in notes ==> n.createdAt <= n.updatedAt
  }

  // ---------------------------------------------------------------- addNote

  /** The list `addNote` sets: the new note, built from the form data, a
      fresh id and two clock readings, in front of the old list. */
  function WithAdded(notes: seq<Note>, data: NoteFormData, id: string, createdAt: Timestamp, updatedAt: Timestamp): (r: seq<Note>)
    ensures |r| == |notes| + 1 && r[1..] == notes
    ensures r[0] == Note(id, data.title, data.content, data.tags, createdAt, updatedAt)
  {
    [Note(id, data.title, data.content, data.tags, createdAt, updatedAt)] + notes
  }

  /** A fresh id keeps the ids unique, and clock readings taken in order keep
      every note's timestamps in order. */
  lemma AddKeepsInvariants(notes: seq<Note>, data: NoteFormData, id: string, createdAt: Timestamp, updatedAt: Timestamp)
    requires UniqueIds(notes) && TimesOrdered(notes)
    requires FreshId(notes, id) && createdAt <= updatedAt
    ensures UniqueIds(WithAdded(notes, data, id, createdAt, updatedAt))
    ensures TimesOrdered(WithAdded(notes, data, id, createdAt, updatedAt))
  {
    var r := WithAdded(notes, data, id, createdAt, updatedAt);
    forall i, j | 0 <= i < j < |r|
      ensures r[i].id != r[j].id
    {
      assert r[j] == notes[j - 1];
      if i > 0 {
        assert r[i] == notes[i - 1];
      }
    }
  }

  // --------------------------------------------------------------- editNote

  /** The list `editNote` sets: every note whose id matches gets the edited
      title, content and tags and the clock reading as `updatedAt`; its id,
      `createdAt` and place stay, and every other note stays as it was. */
  function WithEdited(notes: seq<Note>, edit: EditNoteData, now: Timestamp): (r: seq<Note>)
    ensures |r| == |notes|
    ensures forall i :: 0 <= i < |notes| ==>
      r[i].id == notes[i].id && r[i].createdAt == notes[i].createdAt
    ensures forall i :: 0 <= i < |notes| && notes[i].id != edit.id ==> r[i] == notes[i]
    ensures forall i :: 0 <= i < |notes| && notes[i].id == edit.id ==>
      r[i].title == edit.title && r[i].content == edit.content &&
      r[i].tags == edit.tags && r[i].updatedAt == now
    decreases |notes|
  {
    if notes == [] then []
    else
      var n := notes[0];
      var n' := if n.id == edit.id
        then n.(title := edit.title, content := edit.content, tags := edit.tags, updatedAt := now)
        else n;
      [n'] + WithEdited(notes[1..], edit, now)
  }

  /** Editing an id that no note has changes nothing, and raises no error. */
  lemma EditAbsentIsNoOp(notes: seq<Note>, edit: EditNoteData, now: Timestamp)
    requires FreshId(notes, edit.id)
    ensures WithEdited(notes, edit, now) == notes
  {
    var r := WithEdited(notes, edit, now);
    forall i | 0 <= i < |notes|
      ensures r[i] == notes[i]
    {
      assert notes[i] in notes;
    }
  }

  /** An edit keeps the ids unique, and keeps every note's timestamps in order
      when the clock reading is no earlier than the edited notes' creation. */
  lemma EditKeepsInvariants(notes: seq<Note>, edit: EditNoteData, now: Timestamp)
    requires UniqueIds(notes) && TimesOrdered(notes)
    requires forall n :: n in notes && n.id == edit.id ==> n.createdAt <= now
    ensures UniqueIds(WithEdited(notes, edit, now))
    ensures TimesOrdered(WithEdited(notes, edit, now))
  {
    var r := WithEdited(notes, edit, now);
    forall n | n in r
      ensures n.createdAt <= n.updatedAt
    {
      var i :| 0 <= i < |r| && r[i] == n;
      assert notes[i] in notes;
    }
  }

  // ------------------------------------------------------------- deleteNote

  /** The filter `deleteNote` applies: keep the notes whose id differs. */
  function IdDiffers(id: string): Note -> bool {
    (n: Note) => n.id != id
  }

  /** The list `deleteNote` sets: the notes with another id, in their order,
      each as often as before; the notes with that id are gone. */
  function WithDeleted(notes: seq<Note>, id: string): (r: seq<Note>)
    ensures IsSubsequence(r, notes)
    ensures forall n :: n in r <==> n in notes && n.id != id
    ensures forall n: Note :: n.id != id ==> multiset(r)[n] == multiset(notes)[n]
  {
    FilterIsSubsequence(notes, IdDiffers(id));
    FilterMembers(notes, IdDiffers(id));
    FilterCounts(notes, IdDiffers(id));
    Filter(notes, IdDiffers(id))
  }

  /** Deleting an id that no note has changes nothing, and raises no error. */
  lemma DeleteAbsentIsNoOp(notes: seq<Note>, id: string)
    requires FreshId(notes, id)
    ensures WithDeleted(notes, id) == notes
  {
    FilterKeepsAll(notes, IdDiffers(id));
  }

  /** Keeping only some notes keeps the ids unique. */
  lemma {:induction false} FilterKeepsIdsUnique(notes: seq<Note>, p: Note -> bool)
    requires UniqueIds(notes)
    ensures UniqueIds(Filter(notes, p))
    decreases |notes|
  {
    if notes != [] {
      FilterKeepsIdsUnique(notes[1..], p);
      if p(notes[0]) {
        var rest := Filter(notes[1..], p);
        FilterMembers(notes[1..], p);
        var r := [notes[0]] + rest;
        forall j | 0 < j < |r|
          ensures r[0].id != r[j].id
        {
          assert r[j] in rest;
          var k :| 0 <= k < |notes[1..]| && notes[1..][k] == r[j];
          assert notes[k + 1] == r[j];
        }
      }
    }
  }

  /** With unique ids, deleting an id that is present removes exactly one note. */
  lemma {:induction false} DeleteRemovesOne(notes: seq<Note>, id: string)
    requires UniqueIds(notes) && !FreshId(notes, id)
    ensures |WithDeleted(notes, id)| == |notes| - 1
    decreases |notes|
  {
    var rest := notes[1..];
    assert UniqueIds(rest);
    if notes[0].id == id {
      forall n | n in rest
        ensures n.id != id
      {
        var k :| 0 <= k < |rest| && rest[k] == n;
        assert notes[k + 1] == n;
      }
      FilterKeepsAll(rest, IdDiffers(id));
    } else {
      var n :| n in notes && n.id == id;
      assert n in rest;
      DeleteRemovesOne(rest, id);
    }
  }

  /** A deletion keeps the ids unique and the timestamps in order. */
  lemma DeleteKeepsInvariants(notes: seq<Note>, id: string)
    requires UniqueIds(notes) && TimesOrdered(notes)
    ensures UniqueIds(WithDeleted(notes, id))
    ensures TimesOrdered(WithDeleted(notes, id))
  {
    FilterKeepsIdsUnique(notes, IdDiffers(id));
  }

  // ------------------------------------------------------------- getAllTags

  /** `t` is a tag of some note in the list. */
  predicate IsTagOf(notes: seq<Note>, t: string) {
    exists n :: n in notes && t in n.tags
  }

  /** `notes.flatMap(note => note.tags)`: every note's tags, in list order. */
  function FlatTags(notes: seq<Note>): (r: seq<string>)
    ensures forall t :: t in r <==> IsTagOf(notes, t)
    decreases |notes|
  {
    if notes == [] then []
    else
      assert forall n :: n in notes <==> n == notes[0] || n in notes[1..];
      notes[0].tags + FlatTags(notes[1..])
  }

  /** Sorting a duplicate-free list gives a strictly ascending list of the same strings. */
  lemma SortOfDistinct(d: seq<string>)
    requires NoDup(d)
    ensures StrictlySorted(Sort(d))
    ensures forall t :: t in Sort(d) <==> t in d
  {
    var r := Sort(d);
    NoDupIffCounts(d);
    NoDupIffCounts(r);
    SortedNoRepeatsIsStrict(r);
    forall t
      ensures t in r <==> t in d
    {
      assert t in r <==> t in multiset(r);
      assert t in d <==> t in multiset(d);
    }
  }

  /** `getAllTags()`: the tags of all notes, each once, in ascending
      code-unit order, and exactly as written on the notes. */
  function AllTags(notes: seq<Note>): (r: seq<string>)
    ensures StrictlySorted(r)
    ensures forall t :: t in r <==> IsTagOf(notes, t)
  {
    var d := Distinct(FlatTags(notes));
    SortOfDistinct(d);
    Sort(d)
  }

  /** The tag index depends only on which tags occur, not on how the notes
      are ordered or how often a tag is repeated. */
  lemma AllTagsDependsOnlyOnTagSet(notes1: seq<Note>, notes2: seq<Note>)
    requires forall t :: IsTagOf(notes1, t) <==> IsTagOf(notes2, t)
    ensures AllTags(notes1) == AllTags(notes2)
  {
    StrictlySortedUnique(AllTags(notes1), AllTags(notes2));
  }

  // ------------------------------------------------------------ the store

  /** The `notes` state of the hook: each mutation replaces the whole list. */
  class NoteStore {
    var notes: seq<Note>

    /** What every mutation keeps, given fresh ids and an ordered clock. */
    ghost predicate Valid()
      reads this
    {
      UniqueIds(notes) && TimesOrdered(notes)
    }

    constructor ()
      ensures notes == [] && Valid()
    {
      notes := [];
    }

    /** `addNote`: `setNotes(prev => [newNote, ...prev])`. */
    method AddNote(data: NoteFormData, id: string, createdAt: Timestamp, updatedAt: Timestamp)
      modifies this
      ensures notes == WithAdded(old(notes), data, id, createdAt, updatedAt)
      ensures old(Valid()) && FreshId(old(notes), id) && createdAt <= updatedAt ==> Valid()
    {
      var newNote := Note(id, data.title, data.content, data.tags, createdAt, updatedAt);
      notes := [newNote] + notes;
      if old(Valid()) && FreshId(old(notes), id) && createdAt <= updatedAt {
        AddKeepsInvariants(old(notes), data, id, createdAt, updatedAt);
      }
    }

    /** `editNote`: `setNotes(prev => prev.map(...))`. */
    method EditNote(edit: EditNoteData, now: Timestamp)
      modifies this
      ensures notes == WithEdited(old(notes), edit, now)
      ensures old(Valid()) && (forall n :: n in old(notes) && n.id == edit.id ==> n.createdAt <= now) ==> Valid()
    {
      notes := WithEdited(notes, edit, now);
      if old(Valid()) && (forall n :: n in old(notes) && n.id == edit.id ==> n.createdAt <= now) {
        EditKeepsInvariants(old(notes), edit, now);
      }
    }

    /** `deleteNote`: `setNotes(prev => prev.filter(note => note.id !== id))`. */
    method DeleteNote(id: string)
      modifies this
      ensures notes == WithDeleted(old(notes), id)
      ensures old(Valid()) ==> Valid()
    {
      notes := WithDeleted(notes, id);
      if old(Valid()) {
        DeleteKeepsInvariants(old(notes), id);
      }
    }

    /** `getAllTags`: reads the current list. */
    function GetAllTags(): (r: seq<string>)
      reads this
      ensures StrictlySorted(r)
      ensures forall t :: t in r <==> IsTagOf(notes, t)
    {
      AllTags(notes)
    }
  }
}
