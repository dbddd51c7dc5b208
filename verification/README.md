# Notes component, modelled in Dafny

This project models the note-taking widget `NotesApp` in
`src/components/notes.tsx`. The component keeps a list of notes, a form draft,
and the id of the note being edited. Its handlers add, open for editing,
update, delete and pin notes. The page shows the notes pinned-first.

The React state hooks become one immutable value, `NotesApp.AppState`, with
three parts: `notes`, `draft` and `editing` (`null` is `None`). Every handler
is a pure function from a state to the next state. A user session is a
sequence of `Event`s folded by `Run`.

Modules, one per concern:

- `Text` (`text.dfy`): `String.prototype.trim` over the ECMA-262 white-space
  set, and the blankness test the handlers apply to title and content.
- `Notes` (`notes.dfy`): the `Note` record, the draft, the seed list, and the
  list operations under the handlers. These are `find`, `filter` and the two
  `map`s. Ids come from a clock and may collide, so `filter` and the two
  `map`s act on EVERY note that carries the id, and `find` returns the first
  one.
- `SortedView` (`sorted_view.dfy`): the displayed order,
  `[...notes].sort((a, b) => Number(b.pinned) - Number(a.pinned))`. The model
  uses a stable insertion sort. `StableSortUnique` shows that every stable
  pinned-first rearrangement is the same sequence. So the result does not
  depend on which stable algorithm the engine uses.
- `NotesApp` (`notes_app.dfy`): the state, the handlers, the submit button's
  dispatch, event runs, and the draft/edit invariant.
- `Scenarios` (`scenarios.dfy`): the seed list and concrete runs.

The model follows the code, including where it departs from what the UI suggests:

- Ids are not guaranteed unique. Two adds in the same millisecond share an
  id, and then delete, update and toggle act on both notes
  (`Scenarios.CollidingStamps`). Distinct ids are an invariant only when
  every add gets a fresh stamp (`NotesApp.StepKeepsIdsDistinct`).
- `handleUpdateNote` does not require an edit target. With no target and a
  valid draft it still clears the form, and the list is left unchanged. The
  button only offers it while editing (`NotesApp.Submit`).
- `handleEditNote` copies the FIRST note that carries the id (`Array.prototype.find`).
  `handleUpdateNote` then rewrites EVERY note that carries it.

## Model

| member | source | states |
|---|---|---|
| `Text.Trim` | src/components/notes.tsx:97 | the trimmed string is the slice of the input left after removing only its leading and trailing white space: everything before and after the slice is white space, the slice neither starts nor ends with white space, and it is empty exactly when the input is blank |
| `Text.SliceBetweenBlanks` | src/components/notes.tsx:97 | cutting leading white space and then trailing white space leaves a slice of the original string with only white space around it |
| `Text.HasText` | src/components/notes.tsx:97 | the truthiness test on `s.trim()` (also the guard at line 116) holds exactly when the string is not blank |
| `Text.TrimKeepsInnerSpace` | src/components/notes.tsx:97 | white space inside the text survives trimming: `" a b "` trims to `"a b"` |
| `Notes.FirstIndex` | src/components/notes.tsx:106 | returns the position of the first note carrying the id, or `None` exactly when no note carries it |
| `Notes.Find` | src/components/notes.tsx:106 | `find` returns the first note with the id, and `None` exactly when the id is absent |
| `Notes.Remove` | src/components/notes.tsx:132 | the filter keeps no note with the id, keeps every other note as many times as it occurred, keeps their order (subsequence), and is the identity when the id is absent |
| `Notes.RemoveAppend` | src/components/notes.tsx:132 | the filter acts piecewise on a concatenation, so relative order is kept |
| `Notes.RemoveIdempotent` | src/components/notes.tsx:132 | deleting an id twice is the same as deleting it once |
| `Notes.RemoveDistinctDropsOne` | src/components/notes.tsx:131-133 | when ids are distinct, deleting a present id drops exactly one note |
| `Notes.RemoveKeepsDistinct` | src/components/notes.tsx:131-133 | deleting keeps the ids distinct |
| `Notes.ApplyEdit` | src/components/notes.tsx:117-123 | the map keeps the length and every id; notes whose id is the target take the draft's title, content and pin flag; all other notes are unchanged in place |
| `Notes.ApplyEditNoMatch` | src/components/notes.tsx:118-122 | with no target, or a target no note carries, the map returns the list unchanged |
| `Notes.TogglePinned` | src/components/notes.tsx:142-146 | only the pin flag of notes with the id flips; ids, titles, contents, length and order are kept |
| `Notes.TogglePinnedInvolution` | src/components/notes.tsx:141-147 | toggling the same id twice restores the list |
| `Notes.TogglePinnedAbsent` | src/components/notes.tsx:141-147 | toggling an absent id changes nothing |
| `SortedView.StableSortIsPartition` | src/components/notes.tsx:148 | `StableSort`, the stable sort by the pin comparator `Compare` (`Number(b.pinned) - Number(a.pinned)`), returns the pinned notes and then the unpinned notes, each in list order |
| `SortedView.PartitionIsPermutation` | src/components/notes.tsx:148 | the pinned-then-unpinned split is a permutation of the list |
| `SortedView.PinnedFirstSplits` | src/components/notes.tsx:148 | a pinned-first sequence equals its pinned block followed by its unpinned block |
| `SortedView.StableSortUnique` | src/components/notes.tsx:148 | any stable pinned-first rearrangement of the list equals the pinned notes followed by the unpinned notes |
| `SortedView.View` | src/components/notes.tsx:148 | the displayed order is a permutation of the list, with every pinned note before every unpinned note and each group in list order; it equals filter(pinned) ++ filter(not pinned) |
| `SortedView.InsertIntoPartition` | src/components/notes.tsx:148 | a helper step of the model's own insertion sort (the engine picks the algorithm; `StableSortUnique` makes the choice irrelevant): inserting puts a pinned note at the front and an unpinned note between the pinned and unpinned blocks |
| `NotesApp.Init` | src/components/notes.tsx:78-86 | the first render holds the seed notes, an empty unpinned form and no edit target, and it satisfies the draft/edit invariant |
| `NotesApp.FirstSubmitChangesNothing` | src/components/notes.tsx:78-102 | pressing "Add Note" on the first render, before typing, leaves the state as it is, because the empty form fails the guard |
| `NotesApp.AcceptsIffNotBlank` | src/components/notes.tsx:97 | the submit guard `Accepts` (line 97, and again at 116) passes exactly when neither the title nor the content is blank |
| `NotesApp.SetTitle` | src/components/notes.tsx:165 | the title field takes the typed value; everything else in the state is kept |
| `NotesApp.SetContent` | src/components/notes.tsx:172-174 | the content field takes the typed value; everything else in the state is kept |
| `NotesApp.Add` | src/components/notes.tsx:96-102 | a blank title or content changes nothing; otherwise exactly one note with the stamp and the untrimmed draft is appended, the form is reset to empty, and the edit target is kept |
| `NotesApp.BeginEdit` | src/components/notes.tsx:105-112 | the list is never modified; an absent id changes nothing; otherwise the form holds a copy of the first matching note and the id becomes the edit target |
| `NotesApp.Update` | src/components/notes.tsx:115-128 | a blank title or content changes nothing; otherwise the length and ids are kept, target notes take the draft, other notes stay in place, and the form and target are cleared; with no target the list is unchanged |
| `NotesApp.Delete` | src/components/notes.tsx:131-133 | notes with the id are removed, the others are kept in order, an absent id changes nothing, and the form and edit target are never touched |
| `NotesApp.TogglePin` | src/components/notes.tsx:141-147 | only the pin flag of notes with the id flips, and the form and edit target are kept |
| `NotesApp.Submit` | src/components/notes.tsx:179-188 | while composing, submit runs add and at most appends one note; while editing, it runs update and keeps the list length |
| `NotesApp.Step` | src/components/notes.tsx:165-212 | each event runs the handler its control is bound to: title input (165), content area (172-174), the submit button chosen by the edit target (179-188), and the edit (201), delete (208) and pin (212) buttons; typing and opening a note never change the list, and deleting and pinning never change the form or the edit target |
| `NotesApp.StepKeepsComposeUnpinned` | src/components/notes.tsx:100-126 | every handler keeps the invariant "no edit target implies the draft is unpinned" |
| `NotesApp.RunKeepsComposeUnpinned` | src/components/notes.tsx:80-128 | any run of events keeps the draft/edit invariant |
| `NotesApp.ReachableComposeUnpinned` | src/components/notes.tsx:80-86 | every state reachable from the first render satisfies the draft/edit invariant |
| `NotesApp.ComposedNotesAreUnpinned` | src/components/notes.tsx:179-183 | in any reachable state, "Add Note" either changes nothing or appends one unpinned note with the stamp |
| `NotesApp.ComposeAppends` | src/components/notes.tsx:96-102 | typing a non-blank title and content and pressing "Add Note" appends exactly that unpinned note and empties the form |
| `NotesApp.ComposeAllAppends` | src/components/notes.tsx:96-102 | k valid adds in a row append exactly those k notes in order, so the list grows by k |
| `NotesApp.EditThenSubmitKeepsNotes` | src/components/notes.tsx:105-128 | with distinct ids, opening a note and pressing "Update Note" without typing leaves the list unchanged |
| `NotesApp.UpdateAfterDeletingEdited` | src/components/notes.tsx:115-133 | deleting the note under edit keeps the edit target; a later update rewrites nothing but clears the form and the target |
| `NotesApp.TogglePinTwice` | src/components/notes.tsx:141-147 | pinning twice restores the whole state |
| `NotesApp.StepKeepsIdsDistinct` | src/components/notes.tsx:96-147 | every handler keeps ids distinct, provided an add is stamped with an id not in the list |
| `Scenarios.SeedNotes` | src/components/notes.tsx:18-37 | the seed is three unpinned notes with ids 1, 2, 3, all distinct |
| `Scenarios.SeedView` | src/components/notes.tsx:78-148 | the seed list of the first render (78-86) is already in display order under the pin sort (148), and the first render satisfies the draft/edit invariant |
| `Scenarios.AddBuyMilk` | src/components/notes.tsx:96-102 | adding "Buy milk"/"2%" to the seed gives a four-note view with the new unpinned note last |
| `Scenarios.TogglePinSecondSeedNote` | src/components/notes.tsx:141-147 | pinning seed note 2 flips only its flag and keeps notes 1 and 3 in place |
| `Scenarios.PartitionMiddle` | src/components/notes.tsx:148 | of three notes with only the middle one pinned, the pinned group is the middle note and the unpinned group is the other two in order |
| `Scenarios.ViewMovesMiddle` | src/components/notes.tsx:148 | of three notes with only the middle one pinned, the view shows the middle one first and the other two after it in order |
| `Scenarios.PinSecondSeedNote` | src/components/notes.tsx:141-148 | pinning seed note 2 shows it first, followed by notes 1 and 3 |
| `Scenarios.TwoAddsAppend` | src/components/notes.tsx:98-99 | two adds with the same clock value both append, with equal ids |
| `Scenarios.RemoveDropsPair` | src/components/notes.tsx:132 | deleting an id from a list that lacks it, followed by two notes that carry it, gives back the list |
| `Scenarios.CollidingStamps` | src/components/notes.tsx:98-132 | two same-millisecond adds produce duplicate ids, and one delete then removes both notes |

## Left out

- `useLocalStorage` (src/components/notes.tsx:40-74) is not modelled. It covers browser storage reads and writes, JSON parse and stringify, and error logging. Each handler's result is the new in-memory list; persisting it is a side effect.
- The load of persisted notes at mount (src/components/notes.tsx:46-57) is not modelled. It runs once, in an effect after the first render, and the `isMounted` guard (91-93, 136-138) keeps every control hidden until then. The model starts from the seed list, which is the state when nothing was persisted.
- `Date.now()` (src/components/notes.tsx:98) is a clock read. It is the `stamp` argument of `Add`, `Submit` and the `Press` event, and it is not assumed fresh.
- The `isMounted` guard (src/components/notes.tsx:88-93, 136-138) is not modelled. It belongs to React's rendering lifecycle, not to the state logic.
- JSX rendering, styling, icons and the imported `Button`, `Card` and `DarkModeToggle` components are UI. Their code is not part of this model. The edit, delete and pin buttons appear only as the `EditClicked`, `DeleteClicked` and `PinClicked` events.
- `Text.IsWs` lists the ECMAScript white-space and line-terminator code points. JavaScript strings are UTF-16, but the model uses Unicode scalar values. Lone surrogates are not modelled.
