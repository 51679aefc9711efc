/** `POST /api/ai/extract-event`: free text in, a validated event draft or a 400 out. */
module ExtractEventRoute {
  import opened Wrappers
  import opened Json

  /** `BodySchema`: an object whose `text` is a string of at least five characters. */
  function ParseBody(j: Json): (r: Result<string, Raised>)
    ensures r.Success? <==> j.JObject? && "text" in j.fields && j.fields["text"].JString? && |j.fields["text"].s| >= 5
    ensures r.Success? ==> j.fields["text"] == JString(r.value)
    ensures r.Failure? ==> r.error == SchemaError
  {
    var t := StringField(j, "text");
    if t.Some? && |t.value| >= 5 then Success(t.value) else Failure(SchemaError)
  }

  /** `OutputSchema`'s result; keys other than these five are dropped by the schema. */
  datatype EventDraft = EventDraft(
    title: string,
    location: Option<string>,
    start_time: string,
    end_time: string,
    description: Option<string>)

  function DraftKeys(): set<string> {
    {"title", "location", "start_time", "end_time", "description"}
  }

  /** The draft as the JSON object the route sends back. */
  function EncodeDraft(d: EventDraft): (j: Json)
    ensures j.JObject? && j.fields.Keys == DraftKeys()
  {
    JObject(map[
      "title" := JString(d.title),
      "location" := NullableString(d.location),
      "start_time" := JString(d.start_time),
      "end_time" := JString(d.end_time),
      "description" := NullableString(d.description)])
  }

  /** `OutputSchema.parse`: three strings and two strings-or-null, all five keys present. */
  function ParseDraft(j: Json): (r: Result<EventDraft, Raised>)
    ensures r.Failure? ==> r.error == SchemaError
    ensures r.Success? <==>
      && StringField(j, "title").Some? && StringField(j, "start_time").Some? && StringField(j, "end_time").Some?
      && NullableStringField(j, "location").Some? && NullableStringField(j, "description").Some?
  {
    var title := StringField(j, "title");
    var location := NullableStringField(j, "location");
    var start := StringField(j, "start_time");
    var end := StringField(j, "end_time");
    var description := NullableStringField(j, "description");
    if title.Some? && location.Some? && start.Some? && end.Some? && description.Some? then
      Success(EventDraft(title.value, location.value, start.value, end.value, description.value))
    else Failure(SchemaError)
  }

  /** Every draft the route can send validates back to itself. */
  lemma ParseEncodeDraft(d: EventDraft)
    ensures ParseDraft(EncodeDraft(d)) == Success(d)
  {
  }

  /** A validated draft agrees with the model's object on each of the five keys. */
  lemma ParseDraftAgrees(j: Json)
    requires ParseDraft(j).Success?
    ensures forall k :: k in DraftKeys() ==> k in j.fields && EncodeDraft(ParseDraft(j).value).fields[k] == j.fields[k]
  {
    var d := ParseDraft(j).value;
    var e := EncodeDraft(d);
    if d.location.None? { assert j.fields["location"] == JNull; }
    if d.description.None? { assert j.fields["description"] == JNull; }
  }

  /**
   * The handler: the request body as `req.json()` saw it and the completion
   * call's reply. Every failure becomes a 400 carrying only `{ error }`.
   */
  function Post(body: JsonInput, reply: ModelReply): (r: Response<EventDraft>)
    ensures r.Ok200? <==>
      && body.Parsed? && ParseBody(body.value).Success?
      && reply.Content? && reply.content.Some? && reply.content.value.Parsed?
      && ParseDraft(reply.content.value.value).Success?
    ensures r.Ok200? ==> r.body == ParseDraft(reply.content.value.value).value
    ensures body.Unparsable? ==> r == Bad400(LibraryMessage(SyntaxError))
    ensures body.Parsed? && ParseBody(body.value).Failure? ==> r == Bad400(LibraryMessage(SchemaError))
    ensures body.Parsed? && ParseBody(body.value).Success? && reply.CallThrew? ==>
              r == Bad400(ErrorMessage(reply.raised, "Extraction failed"))
    ensures body.Parsed? && ParseBody(body.value).Success? && reply == Content(None) ==>
              r == Bad400(LibraryMessage(SchemaError))
  {
    if body.Unparsable? then Bad400(LibraryMessage(SyntaxError))
    else
      match ParseBody(body.value)
      case Failure(e) => Bad400(ErrorMessage(e, "Extraction failed"))
      case Success(_) =>
        match reply
        case CallThrew(e) => Bad400(ErrorMessage(e, "Extraction failed"))
        case Content(c) =>
          match ContentJson(c)
          case Failure(e) => Bad400(ErrorMessage(e, "Extraction failed"))
          case Success(raw) =>
            match ParseDraft(raw)
            case Failure(e) => Bad400(ErrorMessage(e, "Extraction failed"))
            case Success(d) => Ok200(d)
  }
}
