/** `search_notes`: the notes whose lowered title or lowered content contains
    the stripped, lowered query, or whose tags include it exactly, in store
    order. */
module Search {
  import opened Text
  import opened Notes
  import opened Seqs

  /** The query as the source reads it: `input(...).strip().lower()`. */
  function NormalizeQuery(raw: string): (q: string)
    ensures IsLower(q)
    ensures q == [] <==> AllSpace(raw)
  {
    Lower(Strip(raw))
  }

  /** The condition of the source's list comprehension. */
  predicate Matches(n: Note, q: string)
    ensures q == [] ==> Matches(n, q)
    ensures q in n.tags ==> Matches(n, q)
    ensures Matches(n, q) && q !in n.tags ==> |q| <= |n.title| || |q| <= |n.content|
  {
    Contains(Lower(n.title), q) || Contains(Lower(n.content), q) || q in n.tags
  }

  /** `search_notes` for the query line `rawQuery`: the matching notes, each
      as often as it is stored, in store order. */
  function SearchNotes(store: seq<Note>, rawQuery: string): (r: seq<Note>)
    ensures forall n :: n in r <==> n in store && Matches(n, NormalizeQuery(rawQuery))
    ensures forall n :: multiset(r)[n] == if Matches(n, NormalizeQuery(rawQuery)) then multiset(store)[n] else 0
    ensures IsSubsequence(r, store)
  {
    var q := NormalizeQuery(rawQuery);
    var keep := (m: Note) => Matches(m, q);
    FilterMembers(store, keep);
    FilterIsSubsequence(store, keep);
    assert forall n :: multiset(Filter(store, keep))[n] == if Matches(n, q) then multiset(store)[n] else 0 by {
      forall n: Note {
        FilterCounts(store, keep, n);
      }
    }
    Filter(store, keep)
  }

  /** A blank query matches every note, in store order. */
  lemma SearchBlankQueryReturnsAll(store: seq<Note>, rawQuery: string)
    requires AllSpace(rawQuery)
    ensures SearchNotes(store, rawQuery) == store
  {
    forall i | 0 <= i < |store|
      ensures Matches(store[i], [])
    {
      ContainsEmpty(Lower(store[i].title));
    }
    FilterKeepsAll(store, n => Matches(n, []));
  }

  /** A query equal to one of a note's tags finds the note, whatever its
      title and content say. */
  lemma SearchFindsExactTag(store: seq<Note>, rawQuery: string, n: Note)
    requires n in store && NormalizeQuery(rawQuery) in n.tags
    ensures n in SearchNotes(store, rawQuery)
  {
  }

  /** Searching the store extended by more notes returns the old results
      followed by the matches among the new notes. */
  lemma SearchAppend(a: seq<Note>, b: seq<Note>, rawQuery: string)
    ensures SearchNotes(a + b, rawQuery) == SearchNotes(a, rawQuery) + SearchNotes(b, rawQuery)
  {
    FilterAppend(a, b, n => Matches(n, NormalizeQuery(rawQuery)));
  }

  /** Repeating a search on its own results returns them unchanged. */
  lemma SearchIdempotent(store: seq<Note>, rawQuery: string)
    ensures SearchNotes(SearchNotes(store, rawQuery), rawQuery) == SearchNotes(store, rawQuery)
  {
    FilterIdempotent(store, n => Matches(n, NormalizeQuery(rawQuery)));
  }

  /** A store of one note yields that note or nothing. */
  lemma SearchSingleton(n: Note, rawQuery: string)
    ensures SearchNotes([n], rawQuery) == if Matches(n, NormalizeQuery(rawQuery)) then [n] else []
  {
    var q := NormalizeQuery(rawQuery);
    var keep := (m: Note) => Matches(m, q);
    assert SearchNotes([n], rawQuery) == Filter([n], keep);
    assert [n][1..] == [];
    assert Filter([n], keep) == (if keep(n) then [n] else []) + Filter([], keep);
  }
}
