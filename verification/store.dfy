/** The note store of `NoteApp`: adding a note, the records `save_notes`
    writes and `load_notes` reads back, and how adding interacts with search,
    listing and reloading. */
module NoteStore {
  import opened Outcomes
  import opened Text
  import opened Tagging
  import opened Notes
  import opened Search
  import opened Listing

  /** The part-of-speech tagger applied to a note's content. */
  type Tagger = string -> seq<Token>

  /** Every note carries a timestamp, as every note the store creates does. */
  predicate Stamped(store: seq<Note>) {
    forall i :: 0 <= i < |store| ==> store[i].createdAt != ""
  }

  /** `add_note` for the input lines `rawTitle` and `rawContent`, with the
      clock reading `now`: one note is appended, tagged from its stripped
      content, and nothing already stored changes. */
  function AddNote(store: seq<Note>, rawTitle: string, rawContent: string,
                   tagger: Tagger, now: string): (r: seq<Note>)
    ensures |r| == |store| + 1
    ensures r[..|store|] == store
    ensures r[|store|].title == Strip(rawTitle)
    ensures r[|store|].content == Strip(rawContent)
    ensures r[|store|].tags == AutoTag(tagger(r[|store|].content))
    ensures r[|store|].createdAt == now
    ensures Stamped(store) && now != "" ==> Stamped(r)
  {
    var content := Strip(rawContent);
    store + [MakeNote(Strip(rawTitle), content, AutoTag(tagger(content)), "", now)]
  }

  /** The records `save_notes` writes, one per note in store order. */
  function Save(store: seq<Note>): (records: seq<Record>)
    ensures |records| == |store|
    ensures forall i :: 0 <= i < |store| ==> records[i].Keys == FieldNames
  {
    seq(|store|, i requires 0 <= i < |store| => ToRecord(store[i]))
  }

  /** Clock readings that are all non-empty, as `isoformat()` readings are. */
  predicate AllNonEmpty(nows: seq<string>) {
    forall i :: 0 <= i < |nows| ==> nows[i] != ""
  }

  /** Rebuilds one note per record, in order; `nows[i]` is the clock reading
      taken while record `i` is rebuilt.  The first record that `Note(**item)`
      refuses aborts the load with its error. */
  function LoadRecords(items: seq<Record>, nows: seq<string>): (r: Result<seq<Note>, LoadError>)
    requires |nows| == |items|
    ensures r.Ok? <==> forall i :: 0 <= i < |items| ==> FromRecord(items[i], nows[i]).Ok?
    ensures r.Ok? ==> |r.value| == |items|
    ensures r.Ok? ==> forall i :: 0 <= i < |items| ==> FromRecord(items[i], nows[i]) == Ok(r.value[i])
    ensures r.Err? ==> exists i :: && 0 <= i < |items|
                                   && FromRecord(items[i], nows[i]) == Err(r.error)
                                   && forall j :: 0 <= j < i ==> FromRecord(items[j], nows[j]).Ok?
  {
    var r := MapAll(items, nows, FromRecord);
    assert r.Err? ==> exists i :: FirstFailure(items, nows, FromRecord, i, r.error);
    r
  }

  /** `load_notes`: no stored file gives an empty store; otherwise the clock
      is read once per stored record. */
  function Load(stored: Option<seq<Record>>, nows: seq<string>): (r: Result<seq<Note>, LoadError>)
    requires stored.Some? ==> |nows| == |stored.value|
    ensures stored.None? ==> r == Ok([])
    ensures stored.Some? ==> r == LoadRecords(stored.value, nows)
    ensures r.Ok? && AllNonEmpty(nows) ==> Stamped(r.value)
  {
    match stored
    case None => Ok([])
    case Some(items) => LoadRecords(items, nows)
  }

  /** Saving a store whose notes all carry timestamps and loading it again
      gives the same store back, whatever the clock reads meanwhile. */
  lemma SaveLoadRoundTrip(store: seq<Note>, nows: seq<string>)
    requires Stamped(store) && |nows| == |store|
    ensures Load(Some(Save(store)), nows) == Ok(store)
  {
    var items := Save(store);
    forall i | 0 <= i < |items|
      ensures FromRecord(items[i], nows[i]) == Ok(store[i])
    {
      RecordRoundTrip(store[i], nows[i]);
    }
    var r := LoadRecords(items, nows);
    assert r.Ok?;
    assert forall i :: 0 <= i < |store| ==> r.value[i] == FromRecord(items[i], nows[i]).value == store[i];
    assert r.value == store;
  }

  /** After any sequence of additions from a loaded (or empty) store, the file
      written reloads to the store in memory. */
  lemma AddThenReload(store: seq<Note>, rawTitle: string, rawContent: string,
                      tagger: Tagger, now: string, later: seq<string>)
    requires Stamped(store) && now != "" && |later| == |store| + 1
    ensures Load(Some(Save(AddNote(store, rawTitle, rawContent, tagger, now))), later)
            == Ok(AddNote(store, rawTitle, rawContent, tagger, now))
  {
    SaveLoadRoundTrip(AddNote(store, rawTitle, rawContent, tagger, now), later);
  }

  /** Searching after an addition finds what it found before, followed by the
      new note exactly when the new note matches. */
  lemma SearchAfterAdd(store: seq<Note>, rawTitle: string, rawContent: string,
                       tagger: Tagger, now: string, rawQuery: string)
    ensures var r := AddNote(store, rawTitle, rawContent, tagger, now);
            var n := r[|store|];
            SearchNotes(r, rawQuery)
            == SearchNotes(store, rawQuery) + (if Matches(n, NormalizeQuery(rawQuery)) then [n] else [])
  {
    var r := AddNote(store, rawTitle, rawContent, tagger, now);
    var n := r[|store|];
    assert r == store + [n];
    SearchAppend(store, [n], rawQuery);
    SearchSingleton(n, rawQuery);
  }

  /** The listing after an addition holds the new note and every earlier one,
      each as often as before. */
  lemma ListAfterAdd(store: seq<Note>, rawTitle: string, rawContent: string,
                     tagger: Tagger, now: string)
    ensures var r := AddNote(store, rawTitle, rawContent, tagger, now);
            multiset(ListNotes(r)) == multiset(store) + multiset{r[|store|]}
  {
    var r := AddNote(store, rawTitle, rawContent, tagger, now);
    assert r == store + [r[|store|]];
  }
}
