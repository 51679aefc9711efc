/** `POST /api/ai/book-metadata`: a title and author in, a validated summary and tags or a 400 out. */
module BookMetadataRoute {
  import opened Wrappers
  import opened Json

  /** `BodySchema`'s result. */
  datatype BookRef = BookRef(title: string, author: string)

  /** `BodySchema`: non-empty `title` and `author` strings (white space counts as content). */
  function ParseBody(j: Json): (r: Result<BookRef, Raised>)
    ensures r.Success? <==> (StringField(j, "title").Some? && StringField(j, "title").value != []
                          && StringField(j, "author").Some? && StringField(j, "author").value != [])
    ensures r.Success? ==> j.fields["title"] == JString(r.value.title) && j.fields["author"] == JString(r.value.author)
    ensures r.Failure? ==> r.error == SchemaError
  {
    var title := StringField(j, "title");
    var author := StringField(j, "author");
    if title.Some? && title.value != [] && author.Some? && author.value != [] then
      Success(BookRef(title.value, author.value))
    else Failure(SchemaError)
  }

  /** `OutputSchema`'s result. */
  datatype Metadata = Metadata(summary: string, tags: seq<string>)

  /** What `OutputSchema` accepts: a non-empty summary and at least one tag, each non-empty; no upper bounds. */
  predicate ValidMetadata(m: Metadata) {
    m.summary != [] && |m.tags| >= 1 && forall i :: 0 <= i < |m.tags| ==> m.tags[i] != []
  }

  /** The strings of an array whose every item is a string. */
  function Strings(items: seq<Json>): (r: Option<seq<string>>)
    ensures r.Some? <==> forall i :: 0 <= i < |items| ==> items[i].JString?
    ensures r.Some? ==> |r.value| == |items| && forall i :: 0 <= i < |items| ==> items[i] == JString(r.value[i])
  {
    if items == [] then Some([])
    else if !items[0].JString? then None
    else
      var rest := Strings(items[1..]);
      if rest.None? then None else Some([items[0].s] + rest.value)
  }

  function EncodeStrings(tags: seq<string>): (r: seq<Json>)
    ensures |r| == |tags| && forall i :: 0 <= i < |tags| ==> r[i] == JString(tags[i])
  {
    seq(|tags|, i requires 0 <= i < |tags| => JString(tags[i]))
  }

  /** The metadata as the JSON object the route sends back. */
  function EncodeMetadata(m: Metadata): (j: Json)
    ensures j.JObject? && j.fields.Keys == {"summary", "tags"}
  {
    JObject(map["summary" := JString(m.summary), "tags" := JArray(EncodeStrings(m.tags))])
  }

  /** `OutputSchema.parse`. */
  function ParseMetadata(j: Json): (r: Result<Metadata, Raised>)
    ensures r.Success? ==> ValidMetadata(r.value)
    ensures r.Success? ==> (StringField(j, "summary") == Some(r.value.summary)
                        && ArrayField(j, "tags") == Some(EncodeStrings(r.value.tags)))
    ensures r.Failure? ==> r.error == SchemaError
    ensures r.Success? <==>
      && StringField(j, "summary").Some? && ArrayField(j, "tags").Some?
      && Strings(ArrayField(j, "tags").value).Some?
      && ValidMetadata(Metadata(StringField(j, "summary").value, Strings(ArrayField(j, "tags").value).value))
  {
    var summary := StringField(j, "summary");
    var items := ArrayField(j, "tags");
    if summary.Some? && items.Some? then
      var tags := Strings(items.value);
      if tags.Some? && ValidMetadata(Metadata(summary.value, tags.value)) then
        assert items.value == EncodeStrings(tags.value);
        Success(Metadata(summary.value, tags.value))
      else Failure(SchemaError)
    else Failure(SchemaError)
  }

  /** Exactly the valid metadata survives the schema, unchanged. */
  lemma ParseEncodeMetadata(m: Metadata)
    ensures ParseMetadata(EncodeMetadata(m)) == (if ValidMetadata(m) then Success(m) else Failure(SchemaError))
  {
    var j := EncodeMetadata(m);
    var tags := Strings(ArrayField(j, "tags").value);
    assert tags.Some?;
    assert tags.value == m.tags;
  }

  /** A single one-letter tag is enough; the prompt's five to eight tags are not enforced. */
  lemma OneTagAccepted(summary: string, tag: string)
    requires summary != [] && tag != []
    ensures ParseMetadata(EncodeMetadata(Metadata(summary, [tag]))) == Success(Metadata(summary, [tag]))
  {
    ParseEncodeMetadata(Metadata(summary, [tag]));
  }

  /** The handler; every failure becomes a 400 carrying only `{ error }`. */
  function Post(body: JsonInput, reply: ModelReply): (r: Response<Metadata>)
    ensures r.Ok200? <==>
      && body.Parsed? && ParseBody(body.value).Success?
      && reply.Content? && reply.content.Some? && reply.content.value.Parsed?
      && ParseMetadata(reply.content.value.value).Success?
    ensures r.Ok200? ==> ValidMetadata(r.body) && r.body == ParseMetadata(reply.content.value.value).value
    ensures body.Unparsable? ==> r == Bad400(LibraryMessage(SyntaxError))
    ensures body.Parsed? && ParseBody(body.value).Failure? ==> r == Bad400(LibraryMessage(SchemaError))
    ensures body.Parsed? && ParseBody(body.value).Success? && reply.CallThrew? ==>
              r == Bad400(ErrorMessage(reply.raised, "Failed to generate metadata"))
    ensures body.Parsed? && ParseBody(body.value).Success? && reply == Content(None) ==>
              r == Bad400(LibraryMessage(SchemaError))
  {
    if body.Unparsable? then Bad400(LibraryMessage(SyntaxError))
    else
      match ParseBody(body.value)
      case Failure(e) => Bad400(ErrorMessage(e, "Failed to generate metadata"))
      case Success(_) =>
        match reply
        case CallThrew(e) => Bad400(ErrorMessage(e, "Failed to generate metadata"))
        case Content(c) =>
          match ContentJson(c)
          case Failure(e) => Bad400(ErrorMessage(e, "Failed to generate metadata"))
          case Success(raw) =>
            match ParseMetadata(raw)
            case Failure(e) => Bad400(ErrorMessage(e, "Failed to generate metadata"))
            case Success(m) => Ok200(m)
  }
}
