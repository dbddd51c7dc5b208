/**
 The order the notes are displayed in: `[...notes].sort(cmp)` with
 `cmp(a, b) = Number(b.pinned) - Number(a.pinned)`. ECMA-262 has required
 Array.prototype.sort to be stable since its 10th edition (2019) and leaves
 the algorithm open; the model sorts by stable insertion and then
 shows that EVERY stable pinned-first rearrangement is the same sequence, so
 the choice of algorithm does not matter.
 */
module SortedView {
  import opened Notes

  /** `Number(b.pinned) - Number(a.pinned)`: negative when `a` must come before `b`. */
  function Compare(a: Note, b: Note): int {
    (if b.pinned then 1 else 0) - (if a.pinned then 1 else 0)
  }

  /** The pinned notes of `notes`, in their order. */
  function Pinned(notes: seq<Note>): seq<Note> {
    if notes == [] then []
    else (if notes[0].pinned then [notes[0]] else []) + Pinned(notes[1..])
  }

  /** The unpinned notes of `notes`, in their order. */
  function Unpinned(notes: seq<Note>): seq<Note> {
    if notes == [] then []
    else (if notes[0].pinned then [] else [notes[0]]) + Unpinned(notes[1..])
  }

  /** Every pinned note comes before every unpinned note. */
  ghost predicate PinnedFirst(v: seq<Note>) {
    forall i, j :: 0 <= i < j < |v| && v[j].pinned ==> v[i].pinned
  }

  /** `v` is what a stable sort by `Compare` may return for `notes`: pinned
      notes first, and each group in the order it had in `notes`. */
  ghost predicate IsStableSortOf(v: seq<Note>, notes: seq<Note>) {
    && PinnedFirst(v)
    && Pinned(v) == Pinned(notes)
    && Unpinned(v) == Unpinned(notes)
  }

  /** Inserts `x` into `sorted` after the leading elements that must come
      before it. `x` is earlier in the input than everything in `sorted`, so
      it goes in front of every element it ties with. */
  function Insert(x: Note, sorted: seq<Note>): (r: seq<Note>)
  {
    if sorted == [] then [x]
    else if Compare(sorted[0], x) < 0 then
      [sorted[0]] + Insert(x, sorted[1..])
    else [x] + sorted
  }

  /** Stable insertion sort by `Compare`, taking the input from the front. */
  function StableSort(notes: seq<Note>): seq<Note> {
    if notes == [] then []
    else Insert(notes[0], StableSort(notes[1..]))
  }

  lemma {:induction false} PinnedOfAllPinned(p: seq<Note>)
    requires forall i :: 0 <= i < |p| ==> p[i].pinned
    ensures Pinned(p) == p && Unpinned(p) == []
  {
    if p != [] { PinnedOfAllPinned(p[1..]); }
  }

  lemma {:induction false} PinnedOfAllUnpinned(u: seq<Note>)
    requires forall i :: 0 <= i < |u| ==> !u[i].pinned
    ensures Pinned(u) == [] && Unpinned(u) == u
  {
    if u != [] { PinnedOfAllUnpinned(u[1..]); }
  }

  /** Inserting into a pinned block followed by an unpinned block puts a
      pinned `x` at the very front and an unpinned `x` between the blocks. */
  lemma {:induction false} InsertIntoPartition(x: Note, p: seq<Note>, u: seq<Note>)
    requires forall i :: 0 <= i < |p| ==> p[i].pinned
    requires forall i :: 0 <= i < |u| ==> !u[i].pinned
    ensures Insert(x, p + u) == if x.pinned then [x] + p + u else p + [x] + u
  {
    if p == [] {
      assert p + u == u;
    } else if !x.pinned {
      assert (p + u)[0] == p[0];
      assert (p + u)[1..] == p[1..] + u;
      InsertIntoPartition(x, p[1..], u);
      assert p == [p[0]] + p[1..];
    }
  }

  /** The insertion sort returns the pinned notes followed by the unpinned
      ones, each group in input order. */
  lemma {:induction false} StableSortIsPartition(notes: seq<Note>)
    ensures StableSort(notes) == Pinned(notes) + Unpinned(notes)
  {
    if notes != [] {
      var x, p, u := notes[0], Pinned(notes[1..]), Unpinned(notes[1..]);
      StableSortIsPartition(notes[1..]);
      PinnedBlock(notes[1..]);
      InsertIntoPartition(x, p, u);
      calc {
        StableSort(notes);
        Insert(x, StableSort(notes[1..]));
        Insert(x, p + u);
        (if x.pinned then [x] else []) + p + ((if x.pinned then [] else [x]) + u);
        Pinned(notes) + Unpinned(notes);
      }
    }
  }

  /** `Pinned` keeps only pinned notes and `Unpinned` only unpinned ones. */
  lemma {:induction false} PinnedBlock(notes: seq<Note>)
    ensures forall i :: 0 <= i < |Pinned(notes)| ==> Pinned(notes)[i].pinned
    ensures forall i :: 0 <= i < |Unpinned(notes)| ==> !Unpinned(notes)[i].pinned
  {
    if notes != [] { PinnedBlock(notes[1..]); }
  }

  lemma {:induction false} PinnedAppend(a: seq<Note>, b: seq<Note>)
    ensures Pinned(a + b) == Pinned(a) + Pinned(b)
    ensures Unpinned(a + b) == Unpinned(a) + Unpinned(b)
  {
    if a == [] {
      assert a + b == b;
    } else {
      assert (a + b)[0] == a[0];
      assert (a + b)[1..] == a[1..] + b;
      PinnedAppend(a[1..], b);
      var x := a[0];
      var hp, hu := if x.pinned then [x] else [], if x.pinned then [] else [x];
      calc {
        Pinned(a + b);
        hp + Pinned(a[1..] + b);
        hp + (Pinned(a[1..]) + Pinned(b));
        (hp + Pinned(a[1..])) + Pinned(b);
      }
      calc {
        Unpinned(a + b);
        hu + Unpinned(a[1..] + b);
        hu + (Unpinned(a[1..]) + Unpinned(b));
        (hu + Unpinned(a[1..])) + Unpinned(b);
      }
    }
  }

  /** The pin split of a one-note list. */
  lemma PinnedSingleton(x: Note)
    ensures Pinned([x]) == (if x.pinned then [x] else [])
    ensures Unpinned([x]) == (if x.pinned then [] else [x])
  {
    assert [x][1..] == [];
  }

  /** Splitting into the pinned and the unpinned notes loses and adds nothing. */
  lemma {:induction false} PartitionIsPermutation(notes: seq<Note>)
    ensures multiset(Pinned(notes) + Unpinned(notes)) == multiset(notes)
  {
    if notes != [] {
      PartitionIsPermutation(notes[1..]);
      assert notes == [notes[0]] + notes[1..];
    }
  }

  /** A pinned-first sequence is its pinned block followed by its unpinned block. */
  lemma {:induction false} PinnedFirstSplits(v: seq<Note>)
    requires PinnedFirst(v)
    ensures v == Pinned(v) + Unpinned(v)
  {
    if v != [] {
      if v[0].pinned {
        PinnedFirstSplits(v[1..]);
      } else {
        PinnedOfAllUnpinned(v);
      }
    }
  }

  /** Any stable pinned-first sort of `notes` is `Pinned(notes) + Unpinned(notes)`:
      a stable sort by `Compare` has exactly one possible result. */
  lemma StableSortUnique(v: seq<Note>, notes: seq<Note>)
    requires IsStableSortOf(v, notes)
    ensures v == Pinned(notes) + Unpinned(notes)
  {
    PinnedFirstSplits(v);
  }

  /** `sortedNotes`: the displayed order. It is a rearrangement of `notes`
      that puts every pinned note first, keeps each group in list order, and
      equals the pinned notes followed by the unpinned ones. */
  function View(notes: seq<Note>): (r: seq<Note>)
    ensures multiset(r) == multiset(notes)
    ensures IsStableSortOf(r, notes)
    ensures r == Pinned(notes) + Unpinned(notes)
  {
    StableSortIsPartition(notes);
    PartitionIsPermutation(notes);
    PinnedBlock(notes);
    PinnedAppend(Pinned(notes), Unpinned(notes));
    PinnedOfAllPinned(Pinned(notes));
    PinnedOfAllUnpinned(Unpinned(notes));
    StableSort(notes)
  }
}
