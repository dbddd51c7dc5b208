/**
 The `NotesApp` component as a state machine. Its three pieces of React
 state become one immutable value: the note list, the form draft, and the id
 of the note being edited (`null` is `None`). Each handler is a function from
 the state (and its argument) to the next state; the clock read that makes a
 new note's id is the `stamp` argument of `Add` and `Submit`.
 */
module NotesApp {
  import opened Text
  import opened Notes

  datatype AppState = AppState(notes: seq<Note>, draft: Draft, editing: Option<int>)

  /** First render: the seed notes, an empty form, nothing being edited.
      The form is unpinned and holds no text (`FirstSubmitChangesNothing`). */
  function Init(): (r: AppState)
    ensures r.notes == DefaultNotes && r.editing == None
    ensures r.draft.title == [] && r.draft.content == [] && !r.draft.pinned
    ensures ComposeUnpinned(r)
  {
    AppState(DefaultNotes, EmptyDraft, None)
  }

  /** The guard of both submit handlers: title and content both have text after trimming. */
  predicate Accepts(d: Draft) {
    HasText(d.title) && HasText(d.content)
  }

  /** The draft fails the guard exactly when its title or its content is blank. */
  lemma AcceptsIffNotBlank(d: Draft)
    ensures Accepts(d) <==> !IsBlank(d.title) && !IsBlank(d.content)
  {
  }

  /** The title input's change handler. */
  function SetTitle(s: AppState, title: string): (r: AppState)
    ensures r.draft.title == title
    ensures r.draft.content == s.draft.content && r.draft.pinned == s.draft.pinned
    ensures r.notes == s.notes && r.editing == s.editing
  {
    s.(draft := s.draft.(title := title))
  }

  /** The content text area's change handler. */
  function SetContent(s: AppState, content: string): (r: AppState)
    ensures r.draft.content == content
    ensures r.draft.title == s.draft.title && r.draft.pinned == s.draft.pinned
    ensures r.notes == s.notes && r.editing == s.editing
  {
    s.(draft := s.draft.(content := content))
  }

  /** `handleAddNote`: with a blank title or content nothing changes; otherwise
      the draft, untrimmed, is appended as one note with id `stamp` and the
      form is cleared. The edit target is left alone. */
  function Add(s: AppState, stamp: int): (r: AppState)
    ensures IsBlank(s.draft.title) || IsBlank(s.draft.content) ==> r == s
    ensures !IsBlank(s.draft.title) && !IsBlank(s.draft.content) ==>
      && r.notes == s.notes + [Note(stamp, s.draft.title, s.draft.content, s.draft.pinned)]
      && r.draft == EmptyDraft
      && r.editing == s.editing
  {
    if Accepts(s.draft) then
      AppState(s.notes + [Note(stamp, s.draft.title, s.draft.content, s.draft.pinned)], EmptyDraft, s.editing)
    else s
  }

  /** `handleEditNote`: when some note carries `id`, the form receives a copy
      of the FIRST such note and `id` becomes the edit target; otherwise
      nothing changes. The list itself is never touched. */
  function BeginEdit(s: AppState, id: int): (r: AppState)
    ensures r.notes == s.notes
    ensures Absent(s.notes, id) ==> r == s
    ensures !Absent(s.notes, id) ==> r.editing == Some(id)
    ensures !Absent(s.notes, id) ==>
      exists k :: FirstAt(s.notes, id, k) &&
        r.draft == Draft(s.notes[k].title, s.notes[k].content, s.notes[k].pinned)
  {
    match Find(s.notes, id)
    case None => s
    case Some(n) => AppState(s.notes, Draft(n.title, n.content, n.pinned), Some(id))
  }

  /** `handleUpdateNote`: with a blank title or content nothing changes.
      Otherwise every note whose id is the edit target takes the draft's
      title, content and pin flag and keeps its id, every other note stays
      as and where it was, and the form and the edit target are cleared.
      With no edit target the list is unchanged. */
  function Update(s: AppState): (r: AppState)
    ensures IsBlank(s.draft.title) || IsBlank(s.draft.content) ==> r == s
    ensures !IsBlank(s.draft.title) && !IsBlank(s.draft.content) ==>
      && |r.notes| == |s.notes|
      && (forall i :: 0 <= i < |s.notes| ==> r.notes[i].id == s.notes[i].id)
      && (forall i :: 0 <= i < |s.notes| && s.editing == Some(s.notes[i].id) ==>
            && r.notes[i].title == s.draft.title
            && r.notes[i].content == s.draft.content
            && r.notes[i].pinned == s.draft.pinned)
      && (forall i :: 0 <= i < |s.notes| && s.editing != Some(s.notes[i].id) ==>
            r.notes[i] == s.notes[i])
      && r.draft == EmptyDraft
      && r.editing == None
    ensures s.editing.None? ==> r.notes == s.notes
  {
    AcceptsIffNotBlank(s.draft);
    if Accepts(s.draft) then
      var notes := ApplyEdit(s.notes, s.editing, s.draft);
      assert s.editing.None? ==> notes == s.notes by {
        if s.editing.None? { ApplyEditNoMatch(s.notes, s.editing, s.draft); }
      }
      AppState(notes, EmptyDraft, None)
    else s
  }

  /** `handleDeleteNote`: the notes carrying `id` leave the list, the others
      keep their order; the form and the edit target are left alone, even
      when the deleted note is the one being edited. */
  function Delete(s: AppState, id: int): (r: AppState)
    ensures forall n :: n in r.notes ==> n.id != id
    ensures forall n: Note :: n.id != id ==> multiset(r.notes)[n] == multiset(s.notes)[n]
    ensures IsSubsequence(r.notes, s.notes)
    ensures Absent(s.notes, id) ==> r == s
    ensures r.draft == s.draft && r.editing == s.editing
  {
    s.(notes := Remove(s.notes, id))
  }

  /** `togglePinNote`: only the pin flag of the notes carrying `id` flips. */
  function TogglePin(s: AppState, id: int): (r: AppState)
    ensures |r.notes| == |s.notes|
    ensures forall i :: 0 <= i < |s.notes| ==>
      && r.notes[i].id == s.notes[i].id
      && r.notes[i].title == s.notes[i].title
      && r.notes[i].content == s.notes[i].content
      && r.notes[i].pinned == (s.notes[i].pinned != (s.notes[i].id == id))
    ensures r.draft == s.draft && r.editing == s.editing
  {
    s.(notes := TogglePinned(s.notes, id))
  }

  /** The submit button: "Add Note" runs `Add` while nothing is being
      edited, "Update Note" runs `Update` otherwise. A submit while composing
      never rewrites an existing note, and a submit while editing never adds one. */
  function Submit(s: AppState, stamp: int): (r: AppState)
    ensures s.editing.None? ==>
      |s.notes| <= |r.notes| <= |s.notes| + 1 && r.notes[..|s.notes|] == s.notes
    ensures s.editing.Some? ==> |r.notes| == |s.notes|
    ensures s.editing.None? ==> r == Add(s, stamp)
    ensures s.editing.Some? ==> r == Update(s)
  {
    if s.editing.None? then Add(s, stamp) else Update(s)
  }

  /** A user action on the page. */
  datatype Event =
    | TypeTitle(title: string)
    | TypeContent(content: string)
    | Press(stamp: int)
    | EditClicked(id: int)
    | DeleteClicked(id: int)
    | PinClicked(id: int)

  /** Pressing "Add Note" on the first render, before typing, changes nothing. */
  lemma FirstSubmitChangesNothing(stamp: int)
    ensures Submit(Init(), stamp) == Init()
  {
  }

  /** The wiring of the page's controls: each event runs the handler its
      control is bound to. Typing and opening a note never change the list;
      deleting and pinning never change the form or the edit target. */
  function Step(s: AppState, e: Event): (r: AppState)
    ensures e.TypeTitle? ==> r == SetTitle(s, e.title)
    ensures e.TypeContent? ==> r == SetContent(s, e.content)
    ensures e.Press? ==> r == Submit(s, e.stamp)
    ensures e.EditClicked? ==> r == BeginEdit(s, e.id)
    ensures e.DeleteClicked? ==> r == Delete(s, e.id)
    ensures e.PinClicked? ==> r == TogglePin(s, e.id)
    ensures e.TypeTitle? || e.TypeContent? || e.EditClicked? ==> r.notes == s.notes
    ensures e.DeleteClicked? || e.PinClicked? ==> r.draft == s.draft && r.editing == s.editing
  {
    match e
    case TypeTitle(t) => SetTitle(s, t)
    case TypeContent(c) => SetContent(s, c)
    case Press(stamp) => Submit(s, stamp)
    case EditClicked(id) => BeginEdit(s, id)
    case DeleteClicked(id) => Delete(s, id)
    case PinClicked(id) => TogglePin(s, id)
  }

  /** The state after the events `es`, in order. */
  function Run(s: AppState, es: seq<Event>): AppState
    decreases |es|
  {
    if es == [] then s else Run(Step(s, es[0]), es[1..])
  }

  ghost predicate Reachable(s: AppState) {
    exists es :: s == Run(Init(), es)
  }

  /** The draft/edit invariant: while composing, the draft is unpinned. Only
      `BeginEdit` can put a pinned flag in the form, and it also sets the edit
      target; every path back to composing clears the form. */
  ghost predicate ComposeUnpinned(s: AppState) {
    s.editing.None? ==> !s.draft.pinned
  }

  lemma StepKeepsComposeUnpinned(s: AppState, e: Event)
    requires ComposeUnpinned(s)
    ensures ComposeUnpinned(Step(s, e))
  {
  }

  lemma {:induction false} RunKeepsComposeUnpinned(s: AppState, es: seq<Event>)
    requires ComposeUnpinned(s)
    ensures ComposeUnpinned(Run(s, es))
    decreases |es|
  {
    if es != [] {
      StepKeepsComposeUnpinned(s, es[0]);
      RunKeepsComposeUnpinned(Step(s, es[0]), es[1..]);
    }
  }

  /** Every reachable state satisfies the draft/edit invariant. */
  lemma ReachableComposeUnpinned(s: AppState)
    requires Reachable(s)
    ensures ComposeUnpinned(s)
  {
    var es :| s == Run(Init(), es);
    RunKeepsComposeUnpinned(Init(), es);
  }

  /** Consequently "Add Note" only ever creates unpinned notes: from any
      reachable state, a submit while composing either changes nothing or
      appends one unpinned note carrying the stamp. */
  lemma ComposedNotesAreUnpinned(es: seq<Event>, stamp: int)
    ensures var s := Run(Init(), es);
      var r := Step(s, Press(stamp));
      s.editing.None? && r != s ==>
        && r.notes == s.notes + [Note(stamp, s.draft.title, s.draft.content, false)]
        && !r.notes[|r.notes| - 1].pinned
  {
    RunKeepsComposeUnpinned(Init(), es);
  }

  /** Events after events: running `a` then `b` is running `a + b`. */
  lemma {:induction false} RunAppend(s: AppState, a: seq<Event>, b: seq<Event>)
    ensures Run(s, a + b) == Run(Run(s, a), b)
    decreases |a|
  {
    if a == [] {
      assert a + b == b;
    } else {
      assert (a + b)[0] == a[0];
      assert (a + b)[1..] == a[1..] + b;
      RunAppend(Step(s, a[0]), a[1..], b);
    }
  }

  /** The events of composing one note: type the title, type the content, press "Add Note". */
  function ComposeEvents(title: string, content: string, stamp: int): seq<Event> {
    [TypeTitle(title), TypeContent(content), Press(stamp)]
  }

  /** Composing a note with a non-blank title and content appends exactly
      that note, unpinned, and returns the form to empty. */
  lemma ComposeAppends(s: AppState, title: string, content: string, stamp: int)
    requires s.editing.None? && ComposeUnpinned(s)
    requires !IsBlank(title) && !IsBlank(content)
    ensures Run(s, ComposeEvents(title, content, stamp)) ==
      AppState(s.notes + [Note(stamp, title, content, false)], EmptyDraft, None)
  {
    var es := ComposeEvents(title, content, stamp);
    var s1 := SetTitle(s, title);
    var s2 := SetContent(s1, content);
    assert Run(s, es) == Run(s1, es[1..]);
    assert Run(s1, es[1..]) == Run(s2, es[2..]);
    assert Run(s2, es[2..]) == Run(Submit(s2, stamp), []);
  }

  /** Composing each of `items` in turn, its id serving as the stamp. */
  function ComposeAll(items: seq<Note>): seq<Event>
  {
    if items == [] then []
    else ComposeEvents(items[0].title, items[0].content, items[0].id) + ComposeAll(items[1..])
  }

  /** Unpinned notes with non-blank titles and contents. */
  ghost predicate Composable(items: seq<Note>) {
    forall i :: 0 <= i < |items| ==>
      !items[i].pinned && !IsBlank(items[i].title) && !IsBlank(items[i].content)
  }

  /** Composing `k` valid notes from the composing state appends exactly
      those `k` notes, in order: the list grows by the number of adds. */
  lemma {:induction false} ComposeAllAppends(s: AppState, items: seq<Note>)
    requires s.editing.None? && ComposeUnpinned(s)
    requires Composable(items)
    ensures Run(s, ComposeAll(items)).notes == s.notes + items
    ensures |Run(s, ComposeAll(items)).notes| == |s.notes| + |items|
    decreases |items|
  {
    if items == [] {
    } else {
      var n, rest := items[0], items[1..];
      var first := ComposeEvents(n.title, n.content, n.id);
      assert !n.pinned && !IsBlank(n.title) && !IsBlank(n.content);
      var s' := AppState(s.notes + [n], EmptyDraft, None);
      assert ComposeAll(items) == first + ComposeAll(rest);
      RunAppend(s, first, ComposeAll(rest));
      ComposeAppends(s, n.title, n.content, n.id);
      assert Run(s, first) == s';
      assert Composable(rest) by {
        forall i | 0 <= i < |rest|
          ensures !rest[i].pinned && !IsBlank(rest[i].title) && !IsBlank(rest[i].content)
        {
          assert rest[i] == items[i + 1];
        }
      }
      ComposeAllAppends(s', rest);
      assert s'.notes + rest == s.notes + items by {
        assert items == [n] + rest;
      }
    }
  }

  /** Opening a note for editing and pressing "Update Note" without typing
      leaves the list as it was, provided no other note shares its id. */
  lemma EditThenSubmitKeepsNotes(s: AppState, id: int)
    requires DistinctIds(s.notes) && !Absent(s.notes, id)
    ensures Update(BeginEdit(s, id)).notes == s.notes
  {
    var e := BeginEdit(s, id);
    var k :| FirstAt(s.notes, id, k) &&
      e.draft == Draft(s.notes[k].title, s.notes[k].content, s.notes[k].pinned);
    var r := Update(e);
    if !IsBlank(e.draft.title) && !IsBlank(e.draft.content) {
      forall i | 0 <= i < |s.notes|
        ensures r.notes[i] == s.notes[i]
      {
        if s.notes[i].id == id {
          assert i == k;
        }
      }
    }
  }

  /** Deleting the note under edit does not leave the edit: a later
      "Update Note" rewrites nothing, yet clears the form and the edit target. */
  lemma UpdateAfterDeletingEdited(s: AppState, id: int)
    requires s.editing == Some(id)
    requires !IsBlank(s.draft.title) && !IsBlank(s.draft.content)
    ensures Delete(s, id).editing == Some(id)
    ensures Update(Delete(s, id)).notes == Delete(s, id).notes
    ensures Update(Delete(s, id)).draft == EmptyDraft
    ensures Update(Delete(s, id)).editing == None
  {
    var d := Delete(s, id);
    ApplyEditNoMatch(d.notes, d.editing, d.draft);
  }

  /** Pinning a note twice restores the state. */
  lemma TogglePinTwice(s: AppState, id: int)
    ensures TogglePin(TogglePin(s, id), id) == s
  {
    TogglePinnedInvolution(s.notes, id);
  }

  /** Every state change except a colliding add keeps the ids distinct. */
  lemma StepKeepsIdsDistinct(s: AppState, e: Event)
    requires DistinctIds(s.notes)
    requires e.Press? && s.editing.None? ==> Absent(s.notes, e.stamp)
    ensures DistinctIds(Step(s, e).notes)
  {
    match e
    case DeleteClicked(id) =>
      RemoveKeepsDistinct(s.notes, id);
    case _ =>
  }
}
