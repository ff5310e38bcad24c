/** The note record: its constructor with the source's fall-back defaults,
    its dictionary form (`to_dict`) and its reconstruction from a stored
    dictionary (`Note(**item)`). */
module Notes {
  import opened Outcomes

  datatype Note = Note(title: string, content: string, tags: seq<string>, createdAt: string)

  /** `Note(title, content, tags, created_at)`, with `now` standing for the
      clock reading `datetime.now().isoformat()`.  An omitted `tags` or
      `created_at` (Python's `None`) is passed as the empty value, which the
      source's `or` treats the same way. */
  function MakeNote(title: string, content: string, tags: seq<string>, createdAt: string,
                    now: string): (n: Note)
    ensures n.title == title && n.content == content
    ensures n.tags == tags
    ensures createdAt != "" ==> n.createdAt == createdAt
    ensures createdAt == "" ==> n.createdAt == now
  {
    Note(title, content,
         tags,
         if createdAt == "" then now else createdAt)
  }

  /** A JSON value as it can appear in a stored note dictionary. */
  datatype Field = Null | Str(s: string) | StrList(items: seq<string>)

  /** Python truthiness: `None`, the empty string and the empty list are
      false, so `x or default` yields `default` for them. */
  predicate Falsy(f: Field) {
    f == Null || f == Str("") || f == StrList([])
  }

  /** A stored note: a JSON object, keyed by field name. */
  type Record = map<string, Field>

  const FieldNames: set<string> := {"title", "content", "tags", "created_at"}

  /** `to_dict`. */
  function ToRecord(n: Note): (r: Record)
    ensures r.Keys == FieldNames
  {
    map["title" := Str(n.title), "content" := Str(n.content),
        "tags" := StrList(n.tags), "created_at" := Str(n.createdAt)]
  }

  /** Why `Note(**item)` refuses a stored dictionary.  The first two are the
      `TypeError`s Python raises; `UnsupportedValue` is a value the note's
      fields cannot hold in this model. */
  datatype LoadError =
    | UnexpectedKeyword
    | MissingArguments(names: seq<string>)
    | UnsupportedValue(name: string)

  /** The value bound to a keyword parameter whose default is `None`. */
  function Arg(item: Record, name: string): Field {
    if name in item then item[name] else Null
  }

  /** `Note(**item)`: unknown keys are refused first, then a missing title
      or content; an absent or false `tags` or `created_at` takes its
      default. */
  function FromRecord(item: Record, now: string): (r: Result<Note, LoadError>)
    ensures !(item.Keys <= FieldNames) ==> r == Err(UnexpectedKeyword)
    ensures item.Keys <= FieldNames && !("title" in item && "content" in item) ==>
              r == Err(MissingArguments((if "title" in item then [] else ["title"])
                                        + (if "content" in item then [] else ["content"])))
    ensures r.Ok? <==> && item.Keys <= FieldNames
                       && "title" in item && item["title"].Str?
                       && "content" in item && item["content"].Str?
                       && (Falsy(Arg(item, "tags")) || Arg(item, "tags").StrList?)
                       && (Falsy(Arg(item, "created_at")) || Arg(item, "created_at").Str?)
    ensures r.Ok? ==> && item.Keys <= FieldNames
                      && "title" in item && item["title"] == Str(r.value.title)
                      && "content" in item && item["content"] == Str(r.value.content)
    ensures r.Ok? ==> if Falsy(Arg(item, "tags")) then r.value.tags == []
                      else Arg(item, "tags") == StrList(r.value.tags)
    ensures r.Ok? ==> if Falsy(Arg(item, "created_at")) then r.value.createdAt == now
                      else Arg(item, "created_at") == Str(r.value.createdAt)
    ensures r.Ok? && now != "" ==> r.value.createdAt != ""
  {
    if !(item.Keys <= FieldNames) then Err(UnexpectedKeyword)
    else
      var missing := (if "title" in item then [] else ["title"])
                     + (if "content" in item then [] else ["content"]);
      if missing != [] then Err(MissingArguments(missing))
      else if !item["title"].Str? then Err(UnsupportedValue("title"))
      else if !item["content"].Str? then Err(UnsupportedValue("content"))
      else
        var tags := Arg(item, "tags");
        var createdAt := Arg(item, "created_at");
        if !Falsy(tags) && !tags.StrList? then Err(UnsupportedValue("tags"))
        else if !Falsy(createdAt) && !createdAt.Str? then Err(UnsupportedValue("created_at"))
        else
          Ok(MakeNote(item["title"].s, item["content"].s,
                      if tags.StrList? then tags.items else [],
                      if createdAt.Str? then createdAt.s else "",
                      now))
  }

  /** Rebuilding a note from its dictionary gives the note back; only a note
      without a timestamp comes back stamped with the clock reading. */
  lemma RecordRoundTrip(n: Note, now: string)
    ensures n.createdAt != "" ==> FromRecord(ToRecord(n), now) == Ok(n)
    ensures n.createdAt == "" ==> FromRecord(ToRecord(n), now) == Ok(n.(createdAt := now))
  {
    var item := ToRecord(n);
    assert item.Keys == FieldNames;
  }

  /** For the two parameters the source defaults with `or`, a false value
      behaves exactly like leaving the key out. */
  lemma FalseValueActsAsAbsent(item: Record, key: string, f: Field, now: string)
    requires key == "tags" || key == "created_at"
    requires Falsy(f)
    ensures FromRecord(item[key := f], now) == FromRecord(item - {key}, now)
  {
  }
}
