/** `list_notes`: the notes in the order `sorted(notes, key=created_at)`
    gives them, that is ascending by timestamp string with notes of equal
    timestamp in store order. */
module Listing {
  import opened Text
  import opened Notes
  import opened Seqs

  /** No note is stamped later than a note after it. */
  predicate Sorted(s: seq<Note>) {
    forall i, j :: 0 <= i < j < |s| ==> !StrLt(s[j].createdAt, s[i].createdAt)
  }

  /** The notes of `s` stamped `k`, in their order in `s`. */
  function StampedAt(s: seq<Note>, k: string): seq<Note> {
    Filter(s, (n: Note) => n.createdAt == k)
  }

  /** The notes stamped `k` are those of `s` with that timestamp. */
  lemma StampedAtMembers(s: seq<Note>, k: string)
    ensures forall n :: n in StampedAt(s, k) <==> n in s && n.createdAt == k
  {
    FilterMembers(s, (n: Note) => n.createdAt == k);
  }

  /** The first note of a sorted sequence is stamped no later than any. */
  lemma SortedHeadIsLeast(s: seq<Note>)
    requires Sorted(s) && s != []
    ensures forall y :: y in s ==> !StrLt(y.createdAt, s[0].createdAt)
  {
    forall y | y in s
      ensures !StrLt(y.createdAt, s[0].createdAt)
    {
      var j :| 0 <= j < |s| && s[j] == y;
      if j == 0 {
        StrLtIrreflexive(y.createdAt);
      }
    }
  }

  /** Puts `x` just before the first note of `s` stamped no earlier than
      `x`. */
  function Insert(x: Note, s: seq<Note>): (r: seq<Note>)
    ensures multiset(r) == multiset(s) + multiset{x}
    decreases |s|
  {
    if s == [] || !StrLt(s[0].createdAt, x.createdAt) then
      [x] + s
    else
      assert s == [s[0]] + s[1..];
      [s[0]] + Insert(x, s[1..])
  }

  /** Filtering `[h] + t` by timestamp looks at `h` first. */
  lemma StampedAtCons(h: Note, t: seq<Note>, k: string)
    ensures StampedAt([h] + t, k) == (if h.createdAt == k then [h] else []) + StampedAt(t, k)
  {
    assert ([h] + t)[0] == h && ([h] + t)[1..] == t;
  }

  /** Among the notes stamped `k`, an inserted note stamped `k` comes before
      the others. */
  lemma {:induction false} InsertStampedAt(x: Note, s: seq<Note>, k: string)
    ensures StampedAt(Insert(x, s), k) == (if x.createdAt == k then [x] else []) + StampedAt(s, k)
    decreases |s|
  {
    if s == [] || !StrLt(s[0].createdAt, x.createdAt) {
      StampedAtCons(x, s, k);
    } else {
      var t := Insert(x, s[1..]);
      var hx := if x.createdAt == k then [x] else [];
      var hs := if s[0].createdAt == k then [s[0]] else [];
      StampedAtCons(s[0], t, k);
      InsertStampedAt(x, s[1..], k);
      StampedAtCons(s[0], s[1..], k);
      assert s == [s[0]] + s[1..];
      StrLtIrreflexive(x.createdAt);
      assert hs == [] || hx == [];
      assert StampedAt(Insert(x, s), k) == hs + (hx + StampedAt(s[1..], k));
    }
  }

  /** Inserting into a sorted sequence keeps it sorted. */
  lemma {:induction false} InsertKeepsSorted(x: Note, s: seq<Note>)
    requires Sorted(s)
    ensures Sorted(Insert(x, s))
    decreases |s|
  {
    if s == [] {
    } else if !StrLt(s[0].createdAt, x.createdAt) {
      SortedHeadIsLeast(s);
      forall y | y in s
        ensures !StrLt(y.createdAt, x.createdAt)
      {
        StrLeTransitive(x.createdAt, s[0].createdAt, y.createdAt);
      }
      SortedCons(x, s);
    } else {
      var t := Insert(x, s[1..]);
      InsertKeepsSorted(x, s[1..]);
      StrLtAsymmetric(s[0].createdAt, x.createdAt);
      SortedHeadIsLeast(s);
      forall y | y in t
        ensures !StrLt(y.createdAt, s[0].createdAt)
      {
        assert y in multiset(t);
        assert y == x || y in multiset(s[1..]);
        if y != x {
          assert y in s by {
            assert s == [s[0]] + s[1..];
          }
        }
      }
      SortedCons(s[0], t);
    }
  }

  /** A note stamped no later than every note of a sorted sequence can be put
      in front of it. */
  lemma SortedCons(h: Note, t: seq<Note>)
    requires Sorted(t)
    requires forall y :: y in t ==> !StrLt(y.createdAt, h.createdAt)
    ensures Sorted([h] + t)
  {
    forall i, j | 0 <= i < j < |[h] + t|
      ensures !StrLt(([h] + t)[j].createdAt, ([h] + t)[i].createdAt)
    {
      if i == 0 {
        assert ([h] + t)[j] in t;
      }
    }
  }

  /** `sorted(notes, key=lambda x: x.created_at)`, a stable insertion sort. */
  function ListNotes(store: seq<Note>): (r: seq<Note>)
    ensures Sorted(r)
    ensures multiset(r) == multiset(store)
  {
    if store == [] then []
    else
      var rest := ListNotes(store[1..]);
      assert store == [store[0]] + store[1..];
      InsertKeepsSorted(store[0], rest);
      Insert(store[0], rest)
  }

  /** The sort is stable: the notes sharing a timestamp appear in store
      order. */
  lemma {:induction false} ListNotesIsStable(store: seq<Note>, k: string)
    ensures StampedAt(ListNotes(store), k) == StampedAt(store, k)
    decreases |store|
  {
    if store != [] {
      ListNotesIsStable(store[1..], k);
      InsertStampedAt(store[0], ListNotes(store[1..]), k);
      assert store == [store[0]] + store[1..];
      StampedAtCons(store[0], store[1..], k);
    }
  }

  /** A sorted store is listed as it is stored. */
  lemma {:induction false} ListNotesOfSorted(s: seq<Note>)
    requires Sorted(s)
    ensures ListNotes(s) == s
    decreases |s|
  {
    if s != [] {
      assert Sorted(s[1..]);
      ListNotesOfSorted(s[1..]);
      if 1 < |s| {
        assert !StrLt(s[1].createdAt, s[0].createdAt);
      }
      assert s == [s[0]] + s[1..];
    }
  }

  /** Listing a listing changes nothing. */
  lemma ListNotesIdempotent(s: seq<Note>)
    ensures ListNotes(ListNotes(s)) == ListNotes(s)
  {
    ListNotesOfSorted(ListNotes(s));
  }

  /** Two sorted sequences that agree, timestamp by timestamp, on which
      notes they hold and in which order, are equal. */
  lemma {:induction false} SortedStableIsUnique(a: seq<Note>, b: seq<Note>)
    requires Sorted(a) && Sorted(b)
    requires forall k :: StampedAt(a, k) == StampedAt(b, k)
    ensures a == b
    decreases |a|
  {
    if a == [] || b == [] {
      if a != [] {
        StampedAtMembers(a, a[0].createdAt);
        StampedAtMembers(b, a[0].createdAt);
      }
      if b != [] {
        StampedAtMembers(a, b[0].createdAt);
        StampedAtMembers(b, b[0].createdAt);
      }
    } else {
      var ka := a[0].createdAt;
      var kb := b[0].createdAt;
      StampedAtMembers(a, kb);
      StampedAtMembers(b, kb);
      StampedAtMembers(a, ka);
      StampedAtMembers(b, ka);
      SortedHeadIsLeast(a);
      SortedHeadIsLeast(b);
      assert b[0] in StampedAt(a, kb);
      assert a[0] in StampedAt(b, ka);
      if ka != kb {
        StrLtTotal(ka, kb);
      }
      assert ka == kb;
      assert a == [a[0]] + a[1..];
      assert b == [b[0]] + b[1..];
      StampedAtCons(a[0], a[1..], ka);
      StampedAtCons(b[0], b[1..], ka);
      var sa := StampedAt(a[1..], ka);
      var sb := StampedAt(b[1..], ka);
      assert [a[0]] + sa == [b[0]] + sb;
      assert a[0] == ([a[0]] + sa)[0] == ([b[0]] + sb)[0] == b[0];
      assert sa == ([a[0]] + sa)[1..] == ([b[0]] + sb)[1..] == sb;
      forall k
        ensures StampedAt(a[1..], k) == StampedAt(b[1..], k)
      {
        StampedAtCons(a[0], a[1..], k);
        StampedAtCons(b[0], b[1..], k);
        var h := if a[0].createdAt == k then [a[0]] else [];
        var xa := StampedAt(a[1..], k);
        var xb := StampedAt(b[1..], k);
        assert h + xa == h + xb;
        assert xa == (h + xa)[|h|..] == (h + xb)[|h|..] == xb;
      }
      assert Sorted(a[1..]) && Sorted(b[1..]);
      SortedStableIsUnique(a[1..], b[1..]);
    }
  }

  /** `ListNotes` is the stable sort: any sorted arrangement of the store that
      keeps the notes of each timestamp in store order is its result. */
  lemma ListNotesIsTheStableSort(store: seq<Note>, r: seq<Note>)
    requires Sorted(r)
    requires forall k :: StampedAt(r, k) == StampedAt(store, k)
    ensures r == ListNotes(store)
  {
    forall k
      ensures StampedAt(r, k) == StampedAt(ListNotes(store), k)
    {
      ListNotesIsStable(store, k);
    }
    SortedStableIsUnique(r, ListNotes(store));
  }
}
