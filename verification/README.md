# AI Note Organizer — a Dafny model

This project models the logic of `ai_note_organizer.py`, a console note
taker. A note has a title, a content, a list of tags and a creation
timestamp. Tags are derived automatically: the words a part-of-speech tagger
labels `NN`, `NNS` or `JJ` are lowered and deduplicated. The note store is an
ordered list of notes. The model covers appending a note, searching by
keyword, listing in timestamp order, and the dictionary form in which notes
are saved and reloaded.

Everything is a pure function over immutable values:

- `outcomes.dfy` (`Outcomes`): `Option`, `Result`, and `MapAll`, a loop that
  stops at the first error.
- `seqs.dfy` (`Seqs`): `Distinct`, `IsSubsequence` and `Filter`, the shape of
  Python's `[x for x in s if cond]`, with their lemmas.
- `text.dfy` (`Text`): `str.lower`, `str.strip`, `q in s` on strings and `<`
  on strings.
- `tagging.dfy` (`Tagging`): `auto_tag` after the tagger has run.
- `notes.dfy` (`Notes`): the `Note` record, its constructor defaults,
  `to_dict`, and `Note(**item)`.
- `search.dfy` (`Search`): `search_notes`.
- `listing.dfy` (`Listing`): `list_notes`, a stable sort on `created_at`.
- `store.dfy` (`NoteStore`): `add_note`, `save_notes` and `load_notes`, and
  lemmas that combine several operations.

Things the program gets from its environment are parameters of the model:

- the tagger's output (`Token` pairs, or a `Tagger` function from text to
  tokens);
- the clock readings: `now` for a note being added, and one reading per
  stored record while loading (`nows`), since each `Note(**item)` reads the
  clock afresh;
- whether the notes file exists (`Option`);
- the records read from the notes file.

Python's truthiness is modelled explicitly. `None`, `""` and `[]` are false,
so `tags or []` and `created_at or now` fall back exactly for them
(`Notes.Falsy`).

Error behaviour follows the code. A record that `Note(**item)` refuses
aborts the load (`LoadRecords`); only a missing file gives an empty store.
The code raises no tagging or persistence errors of its own and accepts any
title, including an empty one. A note's tags are a list, built from a set.

## Model

| member | source | states |
|---|---|---|
| `Tagging.AutoTag` | ai_note_organizer.py:43 | The tags have no duplicates, are lower case and number at most the tokens. Every word labelled NN, NNS or JJ contributes its lowered form. Every tag is the lowered form of such a word. |
| `Tagging.AutoTagEnumeratesTagSet` | ai_note_organizer.py:43 | The returned list holds exactly the members of the source's set comprehension. |
| `Tagging.AutoTagEmptyIff` | ai_note_organizer.py:43 | No tags come out exactly when no word has a kept label. In particular, an empty tagger output gives none. |
| `Tagging.AutoTagIgnoresOtherLabels` | ai_note_organizer.py:43 | Removing a word with any other label leaves the tags unchanged. |
| `Notes.MakeNote` | ai_note_organizer.py:10-14 | Title, content and tags are stored as given, and an empty tag list stays empty. A non-empty `created_at` is kept. An empty or missing one becomes the clock reading. |
| `Notes.FalseValueActsAsAbsent` | ai_note_organizer.py:13-14 | For tags and created_at, a false value (`None`, an empty string or an empty list) gives the same outcome as leaving the key out. |
| `Notes.ToRecord` | ai_note_organizer.py:16-22 | The dictionary has exactly the keys title, content, tags and created_at. |
| `Notes.FromRecord` | ai_note_organizer.py:34 | A record is accepted iff its keys are among the four field names, title and content are present strings, tags is false or a list, and created_at is false or a string. Otherwise an unknown key is refused first, then the missing title and/or content, named in that order. An accepted record's title and content are its strings. A false or absent tags field gives `[]`, and a false or absent created_at gives `now`. Otherwise both are taken from the record. A loaded note is stamped when the clock is. |
| `Notes.RecordRoundTrip` | ai_note_organizer.py:10-22 | Rebuilding a note from its dictionary gives the same note back. A note with an empty timestamp comes back stamped with the clock reading. |
| `Text.Lower` | ai_note_organizer.py:43 | The length is preserved and the result is lower case. Each ASCII capital becomes its lower-case letter, and every other character is unchanged. |
| `Text.LowerIdempotent` | ai_note_organizer.py:65 | Lowering twice is lowering once. |
| `Text.Strip` | ai_note_organizer.py:64 | The result is a contiguous slice of the input. Only white space lies before and after it, and it neither starts nor ends with white space. It is empty exactly when the input is all white space. |
| `Text.StripIdempotent` | ai_note_organizer.py:64 | Stripping twice is stripping once. |
| `Text.Contains` | ai_note_organizer.py:65 | The empty query is in every string, and a string contains only queries no longer than itself. |
| `Text.ContainsHasOccurrence` | ai_note_organizer.py:65 | When `q in s` holds, `q` occurs at some index of `s`. |
| `Text.OccurrenceIsContained` | ai_note_organizer.py:65 | An occurrence of `q` at any index makes `q in s` hold. |
| `Text.ContainsIffOccurs` | ai_note_organizer.py:65 | `q in s` holds exactly when `q` occurs at some index of `s`. |
| `Text.StrLt` | ai_note_organizer.py:60 | No string is less than itself. |
| `Text.StrLtIsLexicographic` | ai_note_organizer.py:60 | String `<` is lexicographic order: `a` is a proper prefix of `b`, or the first differing code point of `a` is smaller. |
| `Text.StrLtTotal` | ai_note_organizer.py:60 | Of two distinct strings, one is less than the other. |
| `Text.StrLeTransitive` | ai_note_organizer.py:60 | "Not later than" on timestamps is transitive. |
| `Search.NormalizeQuery` | ai_note_organizer.py:64 | The query is lower case. It is empty exactly when the input line is blank. |
| `Search.Matches` | ai_note_organizer.py:65 | The empty query matches every note, and a query equal to a tag matches regardless of title and content. Any other match needs a title or content at least as long as the query. |
| `Search.SearchNotes` | ai_note_organizer.py:65 | A note is in the result iff it is stored and the query is in its lowered title, in its lowered content, or equal to one of its tags. Each match occurs as often as it is stored. The result is a subsequence of the store. |
| `Search.SearchBlankQueryReturnsAll` | ai_note_organizer.py:64-65 | A blank query returns the whole store, in store order. |
| `Search.SearchFindsExactTag` | ai_note_organizer.py:65 | A query equal to a tag of a stored note finds that note, whatever its title and content. |
| `Search.SearchAppend` | ai_note_organizer.py:65 | Searching a concatenation gives the results for each part, in order. |
| `Search.SearchIdempotent` | ai_note_organizer.py:65 | Searching the results again with the same query returns them unchanged. |
| `Listing.Insert` | ai_note_organizer.py:60 | Inserting adds exactly the one note. |
| `Listing.InsertStampedAt` | ai_note_organizer.py:60 | Among the notes of one timestamp, the inserted note comes first. |
| `Listing.ListNotes` | ai_note_organizer.py:60 | The listing is a permutation of the store, ordered by `created_at` string order. |
| `Listing.ListNotesIsStable` | ai_note_organizer.py:60 | For every timestamp, the notes with that timestamp appear in store order. |
| `Listing.ListNotesIsTheStableSort` | ai_note_organizer.py:60 | Any sorted arrangement that keeps equal timestamps in store order is the listing. |
| `Listing.ListNotesOfSorted` | ai_note_organizer.py:60 | A store already in timestamp order is listed as stored. |
| `Listing.ListNotesIdempotent` | ai_note_organizer.py:60 | Sorting the listing again changes nothing. |
| `NoteStore.AddNote` | ai_note_organizer.py:47-51 | The store grows by exactly one note, and the earlier notes are unchanged and in order. The new note has the stripped title and content, the tags `auto_tag` gives for that content, and the clock reading. Adding keeps every note stamped. |
| `NoteStore.Save` | ai_note_organizer.py:36-38 | One dictionary with the four fields is written per note. |
| `Outcomes.MapAll` | ai_note_organizer.py:33-34 | The loop succeeds iff every step succeeds, giving one result per element in order. Otherwise its error is that of the first failing step. |
| `NoteStore.LoadRecords` | ai_note_organizer.py:33-34 | Loading succeeds iff every record is accepted with its own clock reading, giving one note per record in order. Otherwise the error is that of the first refused record. |
| `NoteStore.Load` | ai_note_organizer.py:29-34 | A missing file gives an empty store; otherwise the records are loaded. Loaded notes are stamped when every clock reading is non-empty. |
| `NoteStore.SaveLoadRoundTrip` | ai_note_organizer.py:29-38 | Saving a stamped store and loading it back gives the same store, whatever the clock readings during the load. |
| `NoteStore.AddThenReload` | ai_note_organizer.py:49-52 | After an addition, the file written reloads to the store in memory. |
| `NoteStore.SearchAfterAdd` | ai_note_organizer.py:51 | After an addition, a search gives the old results, then the new note iff it matches. |
| `NoteStore.ListAfterAdd` | ai_note_organizer.py:51 | After an addition, the listing holds the earlier notes and the new one. |

## Left out

- Part-of-speech tagging by TextBlob (line 42) is a foreign library. Its `(word, label)` output is an input of the model. The model assumes the tagger always returns. In the source, `blob.tags` can raise, for example when TextBlob's corpus is missing, and `add_note` then stops before the append at line 51.
- `datetime.now().isoformat()` (line 14) reads the clock. The reading is the parameter `now`.
- Opening, reading and writing `notes.json` and `os.path.exists` (lines 29-32, 36-38) are file I/O. The model covers the records written and read. JSON text that does not parse makes the source raise, and that case is not modelled. Neither is JSON that parses but is not a list of objects, such as a top-level object or a list holding a string or a number. There the loop at line 33 or `Note(**item)` at line 34 raises `TypeError`, and `seq<Record>` cannot represent that input.
- `input()`, `print()`, the messages of `list_notes` and `search_notes`, and the menu loop `run` (lines 46-48, 53, 55-59, 61, 66-95) are console interaction. The `.strip()` applied to the input lines is modelled.
- `Text.Lower`: does not model Unicode case mapping. Only the ASCII letters A-Z are folded, whereas `str.lower` maps every cased character.
- `Text.Strip`: does not model non-ASCII white space. Only the ASCII characters `str.isspace` accepts are stripped (9-13 and 28-32).
- `Tagging.AutoTag`: does not fix the source's tag order. Python lists the set in hash order. The model lists tags in order of last occurrence, and its contracts state only membership and distinctness.
- `Notes.FromRecord`: does not model dynamic typing. Python would store a non-string title or content, a non-list tags value or a non-string created_at unchecked, and `list_notes` would later compare such a timestamp. The model refuses such a record with `UnsupportedValue`. Python reports all missing arguments in one `TypeError`, which the model represents as `MissingArguments` with the missing names in order.
- `Notes.FromRecord`: does not cover JSON numbers, booleans or objects, which `Field` cannot represent. Python treats `false`, `0` and `{}` as false, so, for example, `"tags": false` would give `[]`.
- In a functional model the store is a value, so listing and searching cannot modify it.
