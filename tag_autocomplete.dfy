/** The tag input of the note form (`TagAutocomplete`): the suggestion list
    and the handlers that update the input text, the open flag, the focused
    suggestion and the selected tags.

    The selected tags are the component's `tags` prop; every change the
    widget makes to them goes out through `onTagsChange`, and the form feeds
    the new list straight back in, so they are modelled as a field the
    handlers assign. */
module TagAutocomplete {
  import opened Text
  import opened Seqs
  import opened Wrappers

  /** `tag.trim().toLowerCase()`: the form in which a tag is added. */
  function Normalize(tag: string): (r: string)
    ensures NoUpper(r)
    ensures r != [] ==> !IsWhitespace(r[0]) && !IsWhitespace(r[|r| - 1])
    ensures r == [] <==> IsBlank(tag)
  {
    ToLowerHasNoUpper(Trim(tag));
    ToLower(Trim(tag))
  }

  /** A normalised tag normalises to itself. */
  lemma NormalizeIdempotent(tag: string)
    ensures Normalize(Normalize(tag)) == Normalize(tag)
  {
    var n := Normalize(tag);
    TrimOfTrimmed(n);
    ToLowerOfNoUpper(n);
  }

  /** The filter behind `suggestions`: the tag contains the input, ignoring
      case, and is not selected yet. */
  function Suggestible(inputValue: string, tags: seq<string>): string -> bool {
    (t: string) => Includes(ToLower(t), ToLower(inputValue)) && t !in tags
  }

  /** `suggestions`: the available tags that contain the input, ignoring case,
      and are not selected yet, in the order they are available. */
  function Suggestions(availableTags: seq<string>, inputValue: string, tags: seq<string>): (r: seq<string>)
    ensures IsSubsequence(r, availableTags)
    ensures forall t :: t in r <==>
      t in availableTags && Includes(ToLower(t), ToLower(inputValue)) && t !in tags
    ensures forall t :: Includes(ToLower(t), ToLower(inputValue)) && t !in tags ==>
      multiset(r)[t] == multiset(availableTags)[t]
  {
    FilterIsSubsequence(availableTags, Suggestible(inputValue, tags));
    FilterMembers(availableTags, Suggestible(inputValue, tags));
    FilterCounts(availableTags, Suggestible(inputValue, tags));
    Filter(availableTags, Suggestible(inputValue, tags))
  }

  function Unselected(tags: seq<string>): string -> bool {
    (t: string) => t !in tags
  }

  /** With an empty input every available tag not yet selected is suggested. */
  lemma EmptyInputSuggestsUnselected(availableTags: seq<string>, tags: seq<string>)
    ensures Suggestions(availableTags, "", tags) == Filter(availableTags, Unselected(tags))
  {
    forall t
      ensures Includes(ToLower(t), ToLower(""))
    {
      IncludesEmpty(ToLower(t));
    }
    FilterAgreeing(availableTags, Suggestible("", tags), Unselected(tags));
  }

  /** Deselecting tags only brings suggestions back: with fewer selected tags
      the old suggestions are a subsequence of the new ones. */
  lemma FewerTagsMoreSuggestions(availableTags: seq<string>, inputValue: string, tags: seq<string>, fewer: seq<string>)
    requires forall t :: t in fewer ==> t in tags
    ensures IsSubsequence(Suggestions(availableTags, inputValue, tags), Suggestions(availableTags, inputValue, fewer))
    ensures |Suggestions(availableTags, inputValue, tags)| <= |Suggestions(availableTags, inputValue, fewer)|
  {
    FilterMonotone(availableTags, Suggestible(inputValue, tags), Suggestible(inputValue, fewer));
    SubsequenceMembers(Suggestions(availableTags, inputValue, tags), Suggestions(availableTags, inputValue, fewer));
  }

  /** The component's own state together with the selected tags. */
  datatype WidgetState = WidgetState(tags: seq<string>, inputValue: string, isOpen: bool, focusedIndex: int)

  /** The keys `handleKeyDown` tells apart; any other key does nothing. */
  datatype Key = Enter | ArrowDown | ArrowUp | Escape | Backspace | OtherKey

  /** What the handlers keep: the focus is "none" or on a suggestion, and the
      list is only open while there is input. */
  predicate WellFormed(s: WidgetState, availableTags: seq<string>) {
    -1 <= s.focusedIndex < |Suggestions(availableTags, s.inputValue, s.tags)| &&
    (s.isOpen ==> s.inputValue != "")
  }

  /** `addTag(tag)`: a blank or already selected tag changes nothing; any other
      tag is appended, normalised, and the input is cleared, the list closed
      and the focus reset. */
  function AfterAddTag(s: WidgetState, tag: string): (r: WidgetState)
    ensures r.tags == s.tags || r.tags == s.tags + [Normalize(tag)]
    ensures r == s <==> IsBlank(tag) || Normalize(tag) in s.tags
    ensures !(IsBlank(tag) || Normalize(tag) in s.tags) ==>
      r == WidgetState(s.tags + [Normalize(tag)], "", false, -1)
    ensures r != s ==> r.inputValue == "" && !r.isOpen && r.focusedIndex == -1
    ensures NoDup(s.tags) ==> NoDup(r.tags)
  {
    var trimmedTag := Normalize(tag);
    if trimmedTag != "" && trimmedTag !in s.tags then
      WidgetState(s.tags + [trimmedTag], "", false, -1)
    else
      s
  }

  predicate AllNormalized(tags: seq<string>) {
    forall t :: t in tags ==> Normalize(t) == t
  }

  /** Tags that arrive through `addTag` are normalised. */
  lemma AddTagKeepsNormalized(s: WidgetState, tag: string)
    requires AllNormalized(s.tags)
    ensures AllNormalized(AfterAddTag(s, tag).tags)
  {
    NormalizeIdempotent(tag);
  }

  /** The filter `removeTag` applies. */
  function Differs(tagToRemove: string): string -> bool {
    (t: string) => t != tagToRemove
  }

  /** `removeTag(t)`: every copy of `t` leaves the selected tags, the others
      stay in order and as often; nothing else changes. */
  function AfterRemoveTag(s: WidgetState, tagToRemove: string): (r: WidgetState)
    ensures r.inputValue == s.inputValue && r.isOpen == s.isOpen && r.focusedIndex == s.focusedIndex
    ensures IsSubsequence(r.tags, s.tags)
    ensures forall t :: t in r.tags <==> t in s.tags && t != tagToRemove
    ensures forall t :: t != tagToRemove ==> multiset(r.tags)[t] == multiset(s.tags)[t]
    ensures NoDup(s.tags) ==> NoDup(r.tags)
  {
    var kept := Filter(s.tags, Differs(tagToRemove));
    FilterIsSubsequence(s.tags, Differs(tagToRemove));
    FilterMembers(s.tags, Differs(tagToRemove));
    FilterCounts(s.tags, Differs(tagToRemove));
    if NoDup(s.tags) then
      SubsequenceNoDup(kept, s.tags);
      s.(tags := kept)
    else
      s.(tags := kept)
  }

  /** Removing a tag that is not selected changes nothing. */
  lemma RemoveAbsentIsNoOp(s: WidgetState, tagToRemove: string)
    requires tagToRemove !in s.tags
    ensures AfterRemoveTag(s, tagToRemove) == s
  {
    FilterKeepsAll(s.tags, Differs(tagToRemove));
  }

  /** Removing a tag selected once takes out just that occurrence. */
  lemma RemoveSingleOccurrence(tags: seq<string>, i: nat)
    requires i < |tags| && NoDup(tags)
    ensures Filter(tags, Differs(tags[i])) == tags[..i] + tags[i + 1..]
  {
    var front, back := tags[..i], tags[i + 1..];
    assert tags == front + [tags[i]] + back;
    forall t | t in front
      ensures t != tags[i]
    {
      var k :| 0 <= k < |front| && front[k] == t;
      assert tags[k] == t;
    }
    forall t | t in back
      ensures t != tags[i]
    {
      var k :| 0 <= k < |back| && back[k] == t;
      assert tags[i + 1 + k] == t;
    }
    FilterDropsMiddle(front, tags[i], back, Differs(tags[i]));
  }

  /** `handleInputChange(value)`: the input takes the value, the list opens
      exactly when the value is not empty, and the focus is reset. */
  function AfterInputChange(s: WidgetState, value: string): (r: WidgetState)
    ensures r.tags == s.tags && r.inputValue == value
    ensures r.isOpen <==> |value| > 0
    ensures r.focusedIndex == -1
  {
    WidgetState(s.tags, value, |value| > 0, -1)
  }

  /** The input's `onFocus`: reopens the list when there is input. */
  function AfterFocus(s: WidgetState): (r: WidgetState)
    ensures r.tags == s.tags && r.inputValue == s.inputValue && r.focusedIndex == s.focusedIndex
    ensures r.isOpen <==> s.isOpen || s.inputValue != ""
  {
    if s.inputValue != "" then s.(isOpen := true) else s
  }

  /** The document's `mousedown` listener: a press outside the widget closes
      the list and resets the focus; the input is not committed. */
  function AfterMouseDown(s: WidgetState, insideWidget: bool): (r: WidgetState)
    ensures r.tags == s.tags && r.inputValue == s.inputValue
    ensures insideWidget ==> r == s
    ensures !insideWidget ==> !r.isOpen && r.focusedIndex == -1
  {
    if insideWidget then s else Close(s)
  }

  /** The suggestion Enter commits: the focused one if it exists and is a
      non-empty string (`suggestions[focusedIndex]` is truthy), otherwise
      the input if it is not blank, otherwise none. */
  function EnterCandidate(s: WidgetState, availableTags: seq<string>): (c: Option<string>)
    ensures c.Some? ==> c.value != ""
    ensures c.Some? ==> c.value in Suggestions(availableTags, s.inputValue, s.tags) || c.value == s.inputValue
    ensures s.focusedIndex < 0 ==> (c.None? <==> IsBlank(s.inputValue))
  {
    var sugg := Suggestions(availableTags, s.inputValue, s.tags);
    if 0 <= s.focusedIndex < |sugg| && sugg[s.focusedIndex] != "" then Some(sugg[s.focusedIndex])
    else if !IsBlank(s.inputValue) then Some(s.inputValue)
    else None
  }

  /** ArrowDown: the focus moves down one place unless it is on the last of
      `count` suggestions. */
  function FocusDown(s: WidgetState, count: int): (r: WidgetState)
    ensures r.tags == s.tags && r.inputValue == s.inputValue && r.isOpen == s.isOpen
    ensures -1 <= s.focusedIndex < count ==> -1 <= r.focusedIndex < count
    ensures r.focusedIndex == s.focusedIndex + 1 <==> s.focusedIndex < count - 1
    ensures r.focusedIndex != s.focusedIndex + 1 ==> r.focusedIndex == s.focusedIndex
  {
    s.(focusedIndex := if s.focusedIndex < count - 1 then s.focusedIndex + 1 else s.focusedIndex)
  }

  /** ArrowUp: the focus moves up one place, and from the first suggestion
      (or none) to none. */
  function FocusUp(s: WidgetState): (r: WidgetState)
    ensures r.tags == s.tags && r.inputValue == s.inputValue && r.isOpen == s.isOpen
    ensures r.focusedIndex >= -1
    ensures s.focusedIndex >= -1 ==> r.focusedIndex <= s.focusedIndex
    ensures s.focusedIndex >= 0 ==> r.focusedIndex == s.focusedIndex - 1
  {
    s.(focusedIndex := if s.focusedIndex > 0 then s.focusedIndex - 1 else -1)
  }

  /** Escape, and a press outside: closes the list and resets the focus. */
  function Close(s: WidgetState): (r: WidgetState)
    ensures r.tags == s.tags && r.inputValue == s.inputValue
    ensures !r.isOpen && r.focusedIndex == -1
  {
    s.(isOpen := false, focusedIndex := -1)
  }

  /** Enter: commits the candidate, if there is one. */
  function AfterEnter(s: WidgetState, availableTags: seq<string>): (r: WidgetState)
    ensures r == s || (|r.tags| == |s.tags| + 1 && r.inputValue == "" && !r.isOpen && r.focusedIndex == -1)
    ensures r.tags[..|s.tags|] == s.tags
    ensures NoDup(s.tags) ==> NoDup(r.tags)
    ensures s.focusedIndex < 0 && IsBlank(s.inputValue) ==> r == s
  {
    match EnterCandidate(s, availableTags)
    case Some(tag) => AfterAddTag(s, tag)
    case None => s
  }

  /** Backspace: on an empty input, removes (every copy of) the last tag. */
  function AfterBackspace(s: WidgetState): (r: WidgetState)
    ensures r.inputValue == s.inputValue && r.isOpen == s.isOpen && r.focusedIndex == s.focusedIndex
    ensures s.inputValue != "" || s.tags == [] ==> r == s
  {
    if s.inputValue == "" && |s.tags| > 0 then AfterRemoveTag(s, s.tags[|s.tags| - 1]) else s
  }

  /** `handleKeyDown(key)`. */
  function AfterKeyDown(s: WidgetState, availableTags: seq<string>, key: Key): (r: WidgetState)
    ensures key != Enter && key != Backspace ==> r.tags == s.tags && r.inputValue == s.inputValue
    ensures r.inputValue == s.inputValue || r.inputValue == ""
    ensures NoDup(s.tags) ==> NoDup(r.tags)
    ensures key == OtherKey ==> r == s
  {
    match key
    case Enter => AfterEnter(s, availableTags)
    case ArrowDown => FocusDown(s, |Suggestions(availableTags, s.inputValue, s.tags)|)
    case ArrowUp => FocusUp(s)
    case Escape => Close(s)
    case Backspace => AfterBackspace(s)
    case OtherKey => s
  }

  /** The arrow keys move only the focus, and keep it within
      [-1, |suggestions| - 1] when it starts there. */
  lemma ArrowKeysKeepFocusInRange(s: WidgetState, availableTags: seq<string>, key: Key)
    requires key == ArrowDown || key == ArrowUp
    requires -1 <= s.focusedIndex < |Suggestions(availableTags, s.inputValue, s.tags)|
    ensures var r := AfterKeyDown(s, availableTags, key);
      r.tags == s.tags && r.inputValue == s.inputValue && r.isOpen == s.isOpen &&
      -1 <= r.focusedIndex < |Suggestions(availableTags, s.inputValue, s.tags)|
  {
    var count := |Suggestions(availableTags, s.inputValue, s.tags)|;
    if key == ArrowDown {
      ArrowDownStep(s, availableTags, count);
    } else {
      ArrowUpStep(s, availableTags);
    }
  }

  lemma ArrowDownStep(s: WidgetState, availableTags: seq<string>, count: int)
    requires count == |Suggestions(availableTags, s.inputValue, s.tags)|
    ensures AfterKeyDown(s, availableTags, ArrowDown) == FocusDown(s, count)
  {
  }

  lemma ArrowUpStep(s: WidgetState, availableTags: seq<string>)
    ensures AfterKeyDown(s, availableTags, ArrowUp) == FocusUp(s)
  {
  }

  /** Escape closes the list and resets the focus, and leaves the tags and
      the input alone. */
  lemma EscapeOnlyCloses(s: WidgetState, availableTags: seq<string>)
    ensures AfterKeyDown(s, availableTags, Escape) == WidgetState(s.tags, s.inputValue, false, -1)
  {
  }

  /** Backspace on an empty input removes the last tag when tags are selected
      once each, and leaves everything else alone. */
  lemma BackspaceRemovesLast(s: WidgetState, availableTags: seq<string>)
    requires s.inputValue == "" && |s.tags| > 0 && NoDup(s.tags)
    ensures AfterKeyDown(s, availableTags, Backspace) == s.(tags := s.tags[..|s.tags| - 1])
  {
    assert AfterKeyDown(s, availableTags, Backspace) == AfterRemoveTag(s, s.tags[|s.tags| - 1]);
    RemoveSingleOccurrence(s.tags, |s.tags| - 1);
    assert s.tags[|s.tags|..] == [];
    assert s.tags[..|s.tags| - 1] + [] == s.tags[..|s.tags| - 1];
  }

  /** Enter commits the focused suggestion when there is one. */
  lemma EnterCommitsFocused(s: WidgetState, availableTags: seq<string>)
    requires var sugg := Suggestions(availableTags, s.inputValue, s.tags);
      0 <= s.focusedIndex < |sugg| && sugg[s.focusedIndex] != ""
    ensures var sugg := Suggestions(availableTags, s.inputValue, s.tags);
      AfterKeyDown(s, availableTags, Enter) == AfterAddTag(s, sugg[s.focusedIndex])
  {
    var sugg := Suggestions(availableTags, s.inputValue, s.tags);
    assert EnterCandidate(s, availableTags) == Some(sugg[s.focusedIndex]);
  }

  /** Enter with no usable focus commits the input when it is not blank, and
      does nothing when it is. */
  lemma EnterWithoutFocus(s: WidgetState, availableTags: seq<string>)
    requires s.focusedIndex < 0
    ensures !IsBlank(s.inputValue) ==> AfterKeyDown(s, availableTags, Enter) == AfterAddTag(s, s.inputValue)
    ensures IsBlank(s.inputValue) ==> AfterKeyDown(s, availableTags, Enter) == s
  {
  }

  /** Every handler keeps the widget well formed. */
  lemma AddTagKeepsWellFormed(s: WidgetState, availableTags: seq<string>, tag: string)
    requires WellFormed(s, availableTags)
    ensures WellFormed(AfterAddTag(s, tag), availableTags)
  {
  }

  lemma RemoveTagKeepsWellFormed(s: WidgetState, availableTags: seq<string>, tagToRemove: string)
    requires WellFormed(s, availableTags)
    ensures WellFormed(AfterRemoveTag(s, tagToRemove), availableTags)
  {
    var r := AfterRemoveTag(s, tagToRemove);
    FewerTagsMoreSuggestions(availableTags, s.inputValue, s.tags, r.tags);
  }

  lemma EnterKeepsWellFormed(s: WidgetState, availableTags: seq<string>)
    requires WellFormed(s, availableTags)
    ensures WellFormed(AfterEnter(s, availableTags), availableTags)
  {
    match EnterCandidate(s, availableTags) {
      case Some(tag) => AddTagKeepsWellFormed(s, availableTags, tag);
      case None =>
    }
  }

  lemma BackspaceKeepsWellFormed(s: WidgetState, availableTags: seq<string>)
    requires WellFormed(s, availableTags)
    ensures WellFormed(AfterBackspace(s), availableTags)
  {
    if s.inputValue == "" && |s.tags| > 0 {
      RemoveTagKeepsWellFormed(s, availableTags, s.tags[|s.tags| - 1]);
    }
  }

  lemma KeyDownKeepsWellFormed(s: WidgetState, availableTags: seq<string>, key: Key)
    requires WellFormed(s, availableTags)
    ensures WellFormed(AfterKeyDown(s, availableTags, key), availableTags)
  {
    match key {
      case Enter => EnterKeepsWellFormed(s, availableTags);
      case Backspace => BackspaceKeepsWellFormed(s, availableTags);
      case _ =>
    }
  }

  /** The widget: its state hooks and its handlers. */
  class Widget {
    const availableTags: seq<string>
    var tags: seq<string>
    var inputValue: string
    var isOpen: bool
    var focusedIndex: int

    function State(): WidgetState
      reads this
    {
      WidgetState(tags, inputValue, isOpen, focusedIndex)
    }

    ghost predicate Valid()
      reads this
    {
      WellFormed(State(), availableTags)
    }

    /** Mounting: `useState('')`, `useState(false)`, `useState(-1)`. */
    constructor (tags: seq<string>, availableTags: seq<string>)
      ensures this.availableTags == availableTags
      ensures State() == WidgetState(tags, "", false, -1)
      ensures Valid()
    {
      this.availableTags := availableTags;
      this.tags := tags;
      inputValue := "";
      isOpen := false;
      focusedIndex := -1;
    }

    function CurrentSuggestions(): (r: seq<string>)
      reads this
    {
      Suggestions(availableTags, inputValue, tags)
    }

    method AddTag(tag: string)
      modifies this
      ensures State() == AfterAddTag(old(State()), tag)
      ensures old(Valid()) ==> Valid()
    {
      var trimmedTag := ToLower(Trim(tag));
      assert trimmedTag == Normalize(tag);
      if trimmedTag != "" && trimmedTag !in tags {
        tags := tags + [trimmedTag];
        inputValue := "";
        isOpen := false;
        focusedIndex := -1;
      }
    }

    /** `removeTag`, also the remove button on a selected tag. */
    method RemoveTag(tagToRemove: string)
      modifies this
      ensures State() == AfterRemoveTag(old(State()), tagToRemove)
      ensures old(Valid()) ==> Valid()
    {
      if old(Valid()) {
        RemoveTagKeepsWellFormed(State(), availableTags, tagToRemove);
      }
      tags := Filter(tags, Differs(tagToRemove));
    }

    method HandleInputChange(value: string)
      modifies this
      ensures State() == AfterInputChange(old(State()), value)
      ensures Valid()
    {
      inputValue := value;
      isOpen := |value| > 0;
      focusedIndex := -1;
    }

    method HandleFocus()
      modifies this
      ensures State() == AfterFocus(old(State()))
      ensures old(Valid()) ==> Valid()
    {
      if inputValue != "" {
        isOpen := true;
      }
    }

    /** `handleClickOutside`, called for every press on the document. */
    method HandleMouseDown(insideWidget: bool)
      modifies this
      ensures State() == AfterMouseDown(old(State()), insideWidget)
      ensures old(Valid()) ==> Valid()
    {
      if !insideWidget {
        isOpen := false;
        focusedIndex := -1;
      }
    }

    method HandleKeyDown(key: Key)
      modifies this
      ensures State() == AfterKeyDown(old(State()), availableTags, key)
      ensures old(Valid()) ==> Valid()
    {
      ghost var s := State();
      if Valid() {
        KeyDownKeepsWellFormed(s, availableTags, key);
      }
      match key {
        case Enter => PressEnter();
        case ArrowDown => PressArrowDown();
        case ArrowUp => PressArrowUp();
        case Escape => PressEscape();
        case Backspace => PressBackspace();
        case OtherKey =>
      }
    }

    /** The ArrowDown branch of `handleKeyDown`. */
    method PressArrowDown()
      modifies this
      ensures State() == FocusDown(old(State()), |old(CurrentSuggestions())|)
    {
      var count := |CurrentSuggestions()|;
      if focusedIndex < count - 1 {
        focusedIndex := focusedIndex + 1;
      }
    }

    /** The ArrowUp branch of `handleKeyDown`. */
    method PressArrowUp()
      modifies this
      ensures State() == FocusUp(old(State()))
    {
      focusedIndex := if focusedIndex > 0 then focusedIndex - 1 else -1;
    }

    /** The Escape branch of `handleKeyDown`. */
    method PressEscape()
      modifies this
      ensures State() == Close(old(State()))
    {
      isOpen := false;
      focusedIndex := -1;
    }

    /** The Backspace branch of `handleKeyDown`. */
    method PressBackspace()
      modifies this
      ensures State() == AfterBackspace(old(State()))
    {
      if inputValue == "" && |tags| > 0 {
        RemoveTag(tags[|tags| - 1]);
      }
    }

    /** The Enter branch of `handleKeyDown`. */
    method PressEnter()
      modifies this
      ensures State() == AfterEnter(old(State()), availableTags)
    {
      ghost var s := State();
      var suggestions := CurrentSuggestions();
      var candidate: Option<string> := None;
      if 0 <= focusedIndex < |suggestions| && suggestions[focusedIndex] != "" {
        candidate := Some(suggestions[focusedIndex]);
      } else if Trim(inputValue) != "" {
        candidate := Some(inputValue);
      }
      assert candidate == EnterCandidate(s, availableTags);
      if candidate.Some? {
        assert AfterEnter(s, availableTags) == AfterAddTag(s, candidate.value);
        AddTag(candidate.value);
      } else {
        assert AfterEnter(s, availableTags) == s;
      }
    }

    /** `handleSuggestionClick(tag)`; moving the focus back to the input is not modelled. */
    method HandleSuggestionClick(tag: string)
      modifies this
      ensures State() == AfterAddTag(old(State()), tag)
      ensures old(Valid()) ==> Valid()
    {
      AddTag(tag);
    }

    /** The Add button, shown while there is input: `addTag(inputValue)`. */
    method HandleAddClick()
      modifies this
      ensures State() == AfterAddTag(old(State()), old(inputValue))
      ensures old(Valid()) ==> Valid()
    {
      AddTag(inputValue);
    }
  }
}
