/**
 The seed list and a few concrete runs of the component, stated as lemmas
 over the model.
 */
module Scenarios {
  import opened Text
  import opened Notes
  import opened SortedView
  import opened NotesApp

  /** The seed: three notes with distinct ids 1, 2, 3, none pinned. */
  lemma SeedNotes()
    ensures |DefaultNotes| == 3
    ensures forall i :: 0 <= i < |DefaultNotes| ==> DefaultNotes[i].id == i + 1 && !DefaultNotes[i].pinned
    ensures DistinctIds(DefaultNotes)
  {
  }

  /** The seed is already in display order, and the first render satisfies
      the draft/edit invariant. */
  lemma SeedView()
    ensures View(DefaultNotes) == DefaultNotes
    ensures ComposeUnpinned(Init())
  {
    SeedNotes();
    PinnedOfAllUnpinned(DefaultNotes);
    assert View(DefaultNotes) == [] + DefaultNotes;
  }

  /** Adding "Buy milk" / "2%" to the seed: the view has four notes and the
      new one, unpinned, comes last. */
  lemma AddBuyMilk(stamp: int)
    ensures var r := Run(Init(), ComposeEvents("Buy milk", "2%", stamp));
      && |View(r.notes)| == 4
      && View(r.notes)[3] == Note(stamp, "Buy milk", "2%", false)
  {
    assert !IsWs("Buy milk"[0]) && !IsWs("2%"[0]);
    ComposeAppends(Init(), "Buy milk", "2%", stamp);
    var notes := DefaultNotes + [Note(stamp, "Buy milk", "2%", false)];
    PinnedOfAllUnpinned(notes);
  }

  /** Pinning note 2 of the seed moves it to the front; 1 and 3 follow in order. */
  lemma PinSecondSeedNote()
    ensures View(TogglePin(Init(), 2).notes) ==
      [DefaultNotes[1].(pinned := true), DefaultNotes[0], DefaultNotes[2]]
  {
    var a, b, c := DefaultNotes[0], DefaultNotes[1].(pinned := true), DefaultNotes[2];
    TogglePinSecondSeedNote();
    ViewMovesMiddle(a, b, c);
  }

  /** Pinning note 2 of the seed flips its flag and nothing else. */
  lemma TogglePinSecondSeedNote()
    ensures TogglePin(Init(), 2).notes ==
      [DefaultNotes[0], DefaultNotes[1].(pinned := true), DefaultNotes[2]]
  {
    SeedNotes();
    var r := TogglePin(Init(), 2).notes;
    assert r[0] == DefaultNotes[0] && r[2] == DefaultNotes[2];
    assert r[1] == DefaultNotes[1].(pinned := true);
  }

  /** The pin split of three notes of which only the middle one is pinned. */
  lemma PartitionMiddle(a: Note, b: Note, c: Note)
    requires !a.pinned && b.pinned && !c.pinned
    ensures Pinned([a, b, c]) == [b] && Unpinned([a, b, c]) == [a, c]
  {
    PinnedSingleton(a);
    PinnedSingleton(b);
    PinnedSingleton(c);
    assert [a, b, c] == [a] + ([b] + [c]);
    PinnedAppend([b], [c]);
    PinnedAppend([a], [b] + [c]);
  }

  /** Of three notes with only the middle one pinned, the view shows the middle one first. */
  lemma ViewMovesMiddle(a: Note, b: Note, c: Note)
    requires !a.pinned && b.pinned && !c.pinned
    ensures View([a, b, c]) == [b, a, c]
  {
    PartitionMiddle(a, b, c);
    assert [b] + [a, c] == [b, a, c];
  }

  /** The events of two adds that read the same clock value. */
  function TwoAddsSameStamp(stamp: int): seq<Event> {
    ComposeEvents("a", "b", stamp) + ComposeEvents("c", "d", stamp)
  }

  /** Both same-stamp adds append their note. */
  lemma TwoAddsAppend(stamp: int)
    ensures Run(Init(), TwoAddsSameStamp(stamp)).notes ==
      DefaultNotes + [Note(stamp, "a", "b", false), Note(stamp, "c", "d", false)]
  {
    assert !IsWs("a"[0]) && !IsWs("b"[0]) && !IsWs("c"[0]) && !IsWs("d"[0]);
    var e1, e2 := ComposeEvents("a", "b", stamp), ComposeEvents("c", "d", stamp);
    RunAppend(Init(), e1, e2);
    ComposeAppends(Init(), "a", "b", stamp);
    ComposeAppends(Run(Init(), e1), "c", "d", stamp);
  }

  /** Deleting an id the list does not carry, from the list followed by two
      notes that do carry it, gives back the list. */
  lemma RemoveDropsPair(notes: seq<Note>, x: Note, y: Note, id: int)
    requires Absent(notes, id) && x.id == id && y.id == id
    ensures Remove(notes + [x, y], id) == notes
  {
    RemoveAppend(notes, [x, y], id);
  }

  /** Two adds stamped in the same millisecond: nothing stops the second id
      from repeating the first, and a single delete then removes both notes. */
  lemma CollidingStamps(stamp: int)
    requires stamp > 3
    ensures |Run(Init(), TwoAddsSameStamp(stamp)).notes| == 5
    ensures !DistinctIds(Run(Init(), TwoAddsSameStamp(stamp)).notes)
    ensures Delete(Run(Init(), TwoAddsSameStamp(stamp)), stamp).notes == DefaultNotes
  {
    var x, y := Note(stamp, "a", "b", false), Note(stamp, "c", "d", false);
    var notes := Run(Init(), TwoAddsSameStamp(stamp)).notes;
    TwoAddsAppend(stamp);
    assert notes[3] == x && notes[4] == y;
    SeedNotes();
    RemoveDropsPair(DefaultNotes, x, y, stamp);
  }
}
