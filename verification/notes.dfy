/**
 The note record, the seed list, and the list operations behind the notes
 component's handlers: `find` by id, `filter` out an id, and the two `map`s
 that overwrite or re-pin every note carrying an id. Ids come from a clock
 and may collide, so nothing here assumes they are distinct.
 */
module Notes {

  datatype Option<T> = None | Some(value: T)

  /** One note; `id` is, for notes created by add, the creation timestamp in
      milliseconds (the seed notes carry 1, 2 and 3). */
  datatype Note = Note(id: int, title: string, content: string, pinned: bool)

  /** The form's contents: a note being composed or a copy of one being edited. */
  datatype Draft = Draft(title: string, content: string, pinned: bool)

  /** The form after a successful submit. */
  const EmptyDraft: Draft := Draft("", "", false)

  /** The three notes the list starts with when nothing was persisted. */
  const DefaultNotes: seq<Note> := [
    Note(1, "Grocery List", "Milk, Eggs, Bread, Apples", false),
    Note(2, "Meeting Notes", "Discuss new project timeline, assign tasks to team", false),
    Note(3, "Idea for App", "Develop a note-taking app with a clean and minimalist design", false)
  ]

  /** No note of `notes` carries `id`. */
  ghost predicate Absent(notes: seq<Note>, id: int) {
    forall i :: 0 <= i < |notes| ==> notes[i].id != id
  }

  /** No two notes of `notes` share an id. */
  ghost predicate DistinctIds(notes: seq<Note>) {
    forall i, j :: 0 <= i < j < |notes| ==> notes[i].id != notes[j].id
  }

  /** The position of the first note carrying `id`, if any. */
  function FirstIndex(notes: seq<Note>, id: int): (r: Option<nat>)
    ensures r.None? <==> Absent(notes, id)
    ensures r.Some? ==> r.value < |notes| && notes[r.value].id == id
    ensures r.Some? ==> forall j :: 0 <= j < r.value ==> notes[j].id != id
  {
    if notes == [] then None
    else if notes[0].id == id then Some(0)
    else match FirstIndex(notes[1..], id)
      case None => None
      case Some(k) => Some(k + 1)
  }

  /** `notes.find(note => note.id === id)`: the first note carrying `id`. */
  function Find(notes: seq<Note>, id: int): (r: Option<Note>)
    ensures r.None? <==> Absent(notes, id)
    ensures r.Some? ==> exists k :: FirstAt(notes, id, k) && notes[k] == r.value
  {
    match FirstIndex(notes, id)
    case None => None
    case Some(k) => assert FirstAt(notes, id, k); Some(notes[k])
  }

  /** Position `k` holds the first note carrying `id`. */
  ghost predicate FirstAt(notes: seq<Note>, id: int, k: int) {
    && 0 <= k < |notes|
    && notes[k].id == id
    && forall j :: 0 <= j < k ==> notes[j].id != id
  }

  /** `a` is obtained from `b` by dropping elements, keeping the order of the rest. */
  ghost predicate IsSubsequence(a: seq<Note>, b: seq<Note>)
    decreases |b|
  {
    if a == [] then true
    else if b == [] then false
    else if a[0] == b[0] then IsSubsequence(a[1..], b[1..])
    else IsSubsequence(a, b[1..])
  }

  /** `notes.filter(note => note.id !== id)`: every note carrying `id` is
      dropped, every other note is kept as often as it occurred, in order. */
  function Remove(notes: seq<Note>, id: int): (r: seq<Note>)
    ensures forall n :: n in r ==> n.id != id && n in notes
    ensures forall n: Note :: n.id != id ==> multiset(r)[n] == multiset(notes)[n]
    ensures IsSubsequence(r, notes)
    ensures Absent(notes, id) ==> r == notes
  {
    if notes == [] then []
    else
      assert notes == [notes[0]] + notes[1..];
      var rest := Remove(notes[1..], id);
      assert Absent(notes, id) ==> rest == notes[1..] by {
        if Absent(notes, id) {
          assert Absent(notes[1..], id) by {
            forall i | 0 <= i < |notes[1..]| ensures notes[1..][i].id != id {
              assert notes[1..][i] == notes[i + 1];
            }
          }
        }
      }
      if notes[0].id == id then rest else [notes[0]] + rest
  }

  /** `notes.map(...)` of the update handler: every note whose id equals the
      edit target takes the draft's title, content and pin flag and keeps its
      id; every other note stays as it is, where it is. */
  function ApplyEdit(notes: seq<Note>, target: Option<int>, d: Draft): (r: seq<Note>)
    ensures |r| == |notes|
    ensures forall i :: 0 <= i < |notes| ==> r[i].id == notes[i].id
    ensures forall i :: 0 <= i < |notes| && target == Some(notes[i].id) ==>
      r[i].title == d.title && r[i].content == d.content && r[i].pinned == d.pinned
    ensures forall i :: 0 <= i < |notes| && target != Some(notes[i].id) ==> r[i] == notes[i]
  {
    if notes == [] then []
    else
      var n := notes[0];
      var n' := if target == Some(n.id) then Note(n.id, d.title, d.content, d.pinned) else n;
      [n'] + ApplyEdit(notes[1..], target, d)
  }

  /** `notes.map(...)` of the pin toggle: every note carrying `id` has its pin
      flag flipped; ids, titles, contents, length and order are kept. */
  function TogglePinned(notes: seq<Note>, id: int): (r: seq<Note>)
    ensures |r| == |notes|
    ensures forall i :: 0 <= i < |notes| ==>
      r[i].id == notes[i].id && r[i].title == notes[i].title && r[i].content == notes[i].content
    ensures forall i :: 0 <= i < |notes| ==>
      r[i].pinned == (if notes[i].id == id then !notes[i].pinned else notes[i].pinned)
  {
    if notes == [] then []
    else
      var n := notes[0];
      [if n.id == id then n.(pinned := !n.pinned) else n] + TogglePinned(notes[1..], id)
  }

  /** Toggling the same id twice restores the list. */
  lemma TogglePinnedInvolution(notes: seq<Note>, id: int)
    ensures TogglePinned(TogglePinned(notes, id), id) == notes
  {
  }

  /** Toggling an id no note carries changes nothing. */
  lemma TogglePinnedAbsent(notes: seq<Note>, id: int)
    requires Absent(notes, id)
    ensures TogglePinned(notes, id) == notes
  {
  }

  /** Editing with no target, or a target no note carries, changes nothing. */
  lemma ApplyEditNoMatch(notes: seq<Note>, target: Option<int>, d: Draft)
    requires target.None? || Absent(notes, target.value)
    ensures ApplyEdit(notes, target, d) == notes
  {
  }

  /** Removing an id twice is the same as removing it once. */
  lemma RemoveIdempotent(notes: seq<Note>, id: int)
    ensures Remove(Remove(notes, id), id) == Remove(notes, id)
  {
  }

  /** With distinct ids, removing a present id drops exactly one note. */
  lemma {:induction false} RemoveDistinctDropsOne(notes: seq<Note>, id: int)
    requires DistinctIds(notes) && !Absent(notes, id)
    ensures |Remove(notes, id)| == |notes| - 1
  {
    if notes[0].id == id {
      assert Absent(notes[1..], id);
    } else {
      RemoveDistinctDropsOne(notes[1..], id);
    }
  }

  /** Removal works piecewise: removing from a concatenation removes from each part. */
  lemma {:induction false} RemoveAppend(a: seq<Note>, b: seq<Note>, id: int)
    ensures Remove(a + b, id) == Remove(a, id) + Remove(b, id)
  {
    if a == [] {
      assert a + b == b;
    } else {
      assert (a + b)[0] == a[0];
      assert (a + b)[1..] == a[1..] + b;
      RemoveAppend(a[1..], b, id);
    }
  }

  /** A note in front of a list whose ids all differ from its own keeps the ids distinct. */
  lemma DistinctCons(head: Note, rest: seq<Note>)
    requires DistinctIds(rest)
    requires forall n :: n in rest ==> n.id != head.id
    ensures DistinctIds([head] + rest)
  {
    var r := [head] + rest;
    forall i, j | 0 <= i < j < |r| ensures r[i].id != r[j].id {
      assert r[j] == rest[j - 1];
      if i > 0 {
        assert r[i] == rest[i - 1];
      }
    }
  }

  /** Removing notes keeps the ids distinct. */
  lemma {:induction false} RemoveKeepsDistinct(notes: seq<Note>, id: int)
    requires DistinctIds(notes)
    ensures DistinctIds(Remove(notes, id))
  {
    if notes != [] {
      var head, tail := notes[0], notes[1..];
      var rest := Remove(tail, id);
      assert DistinctIds(tail) by {
        forall i, j | 0 <= i < j < |tail| ensures tail[i].id != tail[j].id {
          assert tail[i] == notes[i + 1] && tail[j] == notes[j + 1];
        }
      }
      RemoveKeepsDistinct(tail, id);
      if head.id != id {
        assert forall n :: n in rest ==> n.id != head.id;
        DistinctCons(head, rest);
      }
    }
  }
}
