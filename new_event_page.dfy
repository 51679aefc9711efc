/** The "Create event" page: its form, the checks before saving, the row written to `events`, and AI fill. */
module NewEventPage {
  import opened Wrappers
  import opened Text
  import opened Store
  import opened Forms
  import opened Json
  import opened ExtractEventRoute

  /** The form's text fields and the chosen status; times are `datetime-local` strings. */
  datatype EventForm = EventForm(
    title: string,
    location: string,
    startTime: string,
    endTime: string,
    description: string,
    status: EventStatus)

  /** `s.slice(0, n)`. */
  function Prefix(s: string, n: nat): (r: string)
    ensures |r| == if |s| < n then |s| else n
    ensures r <= s
  {
    if |s| < n then s else s[..n]
  }

  /** The row `onSave` inserts: start and end are the parsed times; `id` and `created_at` come from the database. */
  function NewEventRow(userId: string, form: EventForm, start: int, end: int, newId: string, createdAt: int): (e: Event)
    ensures e.owner_id == userId && e.title == Trim(form.title) && e.status == form.status
    ensures e.start_time == start && e.end_time == end
    ensures e.location.None? <==> IsBlank(form.location)
    ensures e.location.Some? ==> e.location.value == Trim(form.location)
    ensures e.description.None? <==> IsBlank(form.description)
    ensures e.description.Some? ==> e.description.value == Trim(form.description)
    ensures e.id == newId && e.created_at == createdAt
  {
    Event(newId, userId, Trim(form.title), start, end, BlankToNull(form.location), BlankToNull(form.description),
          form.status, createdAt)
  }

  /**
   * One press of Save. `userId` is the signed-in user's id or null; `parse`
   * stands for `new Date(...)` and gives `None` for an invalid date. Comparing
   * an invalid date is always false, so the order check lets it through, and
   * `toISOString` then throws before anything is inserted.
   */
  function SaveEvent(userId: Option<string>, form: EventForm, parse: string -> Option<int>,
                     events: seq<Event>, newId: string, createdAt: int, insertError: Option<StoreError>)
    : (seq<Event>, SaveOutcome)
  {
    if userId.None? || userId.value == [] then (events, Ignored)
    else if Trim(form.title) == [] || form.startTime == [] || form.endTime == [] then
      (events, Rejected("Title, start time, and end time are required"))
    else
      var start, end := parse(form.startTime), parse(form.endTime);
      if start.Some? && end.Some? && end.value <= start.value then
        (events, Rejected("End time must be after start time"))
      else if start.None? || end.None? then (events, InvalidTime)
      else if insertError.Some? then (events, InsertFailed(insertError.value))
      else (events + [NewEventRow(userId.value, form, start.value, end.value, newId, createdAt)], Saved)
  }

  /**
   * What one press of Save does: nothing without a user; otherwise a row is
   * written exactly when the title is not blank, both times are given and
   * valid, the end comes after the start and the insert succeeds.
   */
  lemma SaveEventOutcomes(userId: Option<string>, form: EventForm, parse: string -> Option<int>,
                          events: seq<Event>, newId: string, createdAt: int, insertError: Option<StoreError>)
    ensures var r := SaveEvent(userId, form, parse, events, newId, createdAt, insertError);
      && (userId.None? || userId.value == [] ==> r == (events, Ignored))
      && (r.1 == Saved <==>
            && userId.Some? && userId.value != [] && !IsBlank(form.title) && form.startTime != [] && form.endTime != []
            && parse(form.startTime).Some? && parse(form.endTime).Some?
            && parse(form.startTime).value < parse(form.endTime).value
            && insertError.None?)
      && (r.1 != Saved ==> r.0 == events)
  {
    var start, end := parse(form.startTime), parse(form.endTime);
    if userId.Some? && userId.value != [] && Trim(form.title) != [] && form.startTime != [] && form.endTime != []
       && !(start.Some? && end.Some? && end.value <= start.value) {
      SaveEventSubmits(userId, form, parse, events, newId, createdAt, insertError);
    }
  }

  /** A successful Save appends one row, owned by the user, titled, and ending after it starts. */
  lemma SaveEventRow(userId: Option<string>, form: EventForm, parse: string -> Option<int>,
                     events: seq<Event>, newId: string, createdAt: int, insertError: Option<StoreError>)
    ensures var r := SaveEvent(userId, form, parse, events, newId, createdAt, insertError);
      r.1 == Saved ==>
        && r.0 == events + [NewEventRow(userId.value, form, parse(form.startTime).value,
                                        parse(form.endTime).value, newId, createdAt)]
        && r.0[|events|].owner_id == userId.value && r.0[|events|].title != []
        && r.0[|events|].start_time < r.0[|events|].end_time
  {
    var start, end := parse(form.startTime), parse(form.endTime);
    if userId.Some? && userId.value != [] && Trim(form.title) != [] && form.startTime != [] && form.endTime != []
       && !(start.Some? && end.Some? && end.value <= start.value) {
      SaveEventSubmits(userId, form, parse, events, newId, createdAt, insertError);
    }
  }

  /**
   * Past the checks, Save comes down to the insert: `None` stands for an
   * invalid date, whose conversion throws before the insert is sent.
   */
  lemma SaveEventSubmits(userId: Option<string>, form: EventForm, parse: string -> Option<int>,
                         events: seq<Event>, newId: string, createdAt: int, insertError: Option<StoreError>)
    requires userId.Some? && userId.value != [] && Trim(form.title) != [] && form.startTime != [] && form.endTime != []
    requires !(parse(form.startTime).Some? && parse(form.endTime).Some?
               && parse(form.endTime).value <= parse(form.startTime).value)
    ensures var start, end := parse(form.startTime), parse(form.endTime);
      SaveEvent(userId, form, parse, events, newId, createdAt, insertError)
      == if start.None? || end.None? then (events, InvalidTime)
         else if insertError.Some? then (events, InsertFailed(insertError.value))
         else (events + [NewEventRow(userId.value, form, start.value, end.value, newId, createdAt)], Saved)
  {
  }

  /** An end that does not come after the start is refused and nothing is written. */
  lemma EndNotAfterStartRejected(userId: string, form: EventForm, parse: string -> Option<int>,
                                  events: seq<Event>, newId: string, createdAt: int, insertError: Option<StoreError>)
    requires userId != [] && !IsBlank(form.title) && form.startTime != [] && form.endTime != []
    requires parse(form.startTime).Some? && parse(form.endTime).Some?
    requires parse(form.endTime).value <= parse(form.startTime).value
    ensures SaveEvent(Some(userId), form, parse, events, newId, createdAt, insertError)
         == (events, Rejected("End time must be after start time"))
  {
  }

  /**
   * The form after an AI reply: on a 200 the five text fields take the
   * draft's values, null becoming "" and times cut to `YYYY-MM-DDTHH:mm`;
   * otherwise (a 400, or a request that threw) nothing changes.
   */
  function AiFill(form: EventForm, reply: Option<Response<EventDraft>>): (r: EventForm)
    ensures r.status == form.status
    ensures reply.None? || reply.value.Bad400? ==> r == form
    ensures reply.Some? && reply.value.Ok200? ==> var d := reply.value.body;
      && r.title == d.title
      && r.location == d.location.GetOr("") && r.description == d.description.GetOr("")
      && r.startTime == Prefix(d.start_time, 16) && r.endTime == Prefix(d.end_time, 16)
  {
    if reply.Some? && reply.value.Ok200? then
      var d := reply.value.body;
      form.(title := d.title, location := d.location.GetOr(""), startTime := Prefix(d.start_time, 16),
            endTime := Prefix(d.end_time, 16), description := d.description.GetOr(""))
    else form
  }

  /** A draft whose times are already sixteen characters or fewer is copied into the form unchanged. */
  lemma AiFillKeepsShortTimes(form: EventForm, d: EventDraft)
    requires |d.start_time| <= 16 && |d.end_time| <= 16
    ensures AiFill(form, Some(Ok200(d))).startTime == d.start_time
    ensures AiFill(form, Some(Ok200(d))).endTime == d.end_time
  {
  }

  /** The page's state. */
  class NewEventPageState {
    var title: string
    var location: string
    var startTime: string
    var endTime: string
    var description: string
    var status: EventStatus
    var saving: bool
    var aiText: string
    var aiLoading: bool

    function Form(): EventForm
      reads this
    {
      EventForm(title, location, startTime, endTime, description, status)
    }

    /** Every text field starts empty, the status starts as upcoming. */
    constructor ()
      ensures Form() == EventForm([], [], [], [], [], Upcoming)
      ensures !saving && aiText == [] && !aiLoading
    {
      title, location, startTime, endTime, description := [], [], [], [], [];
      status := Upcoming;
      saving, aiText, aiLoading := false, [], false;
    }

    /** `onSave`; `saving` is raised around the insert attempt only. */
    method OnSave(userId: Option<string>, parse: string -> Option<int>, db: Database,
                  newId: string, createdAt: int, insertError: Option<StoreError>)
      returns (outcome: SaveOutcome)
      modifies this, db
      ensures (db.events, outcome) == SaveEvent(userId, old(Form()), parse, old(db.events), newId, createdAt, insertError)
      ensures db.books == old(db.books) && db.borrows == old(db.borrows) && db.invitations == old(db.invitations)
      ensures Form() == old(Form()) && aiText == old(aiText) && aiLoading == old(aiLoading)
      ensures outcome.Ignored? || outcome.Rejected? ==> saving == old(saving)
      ensures outcome.Saved? || outcome.InsertFailed? || outcome.InvalidTime? ==> !saving
    {
      var form := Form();
      if userId.None? || userId.value == [] {
        return Ignored;
      }
      if Trim(form.title) == [] || form.startTime == [] || form.endTime == [] {
        return Rejected("Title, start time, and end time are required");
      }
      var start, end := parse(form.startTime), parse(form.endTime);
      if start.Some? && end.Some? && end.value <= start.value {
        return Rejected("End time must be after start time");
      }
      SaveEventSubmits(userId, form, parse, db.events, newId, createdAt, insertError);
      var row := if start.Some? && end.Some? then Some(NewEventRow(userId.value, form, start.value, end.value, newId, createdAt))
                 else None;
      outcome := Submit(db, row, insertError);
    }

    /**
     * The `try` block with `saving` raised around it: `row` is `None` when a
     * date conversion throws before the insert is sent.
     */
    method Submit(db: Database, row: Option<Event>, insertError: Option<StoreError>) returns (outcome: SaveOutcome)
      modifies this, db
      ensures row.None? ==> db.events == old(db.events) && outcome == InvalidTime
      ensures row.Some? && insertError.Some? ==> db.events == old(db.events) && outcome == InsertFailed(insertError.value)
      ensures row.Some? && insertError.None? ==> db.events == old(db.events) + [row.value] && outcome == Saved
      ensures db.books == old(db.books) && db.borrows == old(db.borrows) && db.invitations == old(db.invitations)
      ensures Form() == old(Form()) && aiText == old(aiText) && aiLoading == old(aiLoading) && !saving
    {
      saving := true;
      if row.None? {
        outcome := InvalidTime;
      } else if insertError.Some? {
        outcome := InsertFailed(insertError.value);
      } else {
        db.events := db.events + [row.value];
        outcome := Saved;
      }
      saving := false;
    }

    /** Sets the form's fields, as the `setTitle`, `setLocation`, ... calls do. */
    method SetForm(f: EventForm)
      modifies this
      ensures Form() == f
      ensures saving == old(saving) && aiText == old(aiText) && aiLoading == old(aiLoading)
    {
      title, location, startTime, endTime, description, status :=
        f.title, f.location, f.startTime, f.endTime, f.description, f.status;
    }

    /** The extract button is enabled: no request is running and the text is not blank. */
    predicate CanExtract()
      reads this
    {
      !aiLoading && !IsBlank(aiText)
    }

    /**
     * The "Extract event with AI" button; `reply` is the route's response, or
     * `None` when the request itself threw. The button is disabled while a
     * request runs or while the text is blank, and a click then does nothing.
     */
    method ExtractWithAi(reply: Option<Response<EventDraft>>)
      modifies this
      ensures aiText == old(aiText) && saving == old(saving)
      ensures !old(CanExtract()) ==> Form() == old(Form()) && aiLoading == old(aiLoading)
      ensures old(CanExtract()) ==> Form() == AiFill(old(Form()), reply) && !aiLoading
    {
      if CanExtract() {
        aiLoading := true;
        SetForm(AiFill(Form(), reply));
        aiLoading := false;
      }
    }
  }
}
