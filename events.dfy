/**
 * Events: the list a signed-in user sees (own events and events they
 * accepted an invitation to, narrowed by search and start-time bounds,
 * earliest first), lookup by id, partial update and delete.
 */
module Events {
  import opened Wrappers
  import opened Query
  import opened Text
  import opened Store

  /** The optional arguments of `fetchEvents`; an empty string is passed as `None`. */
  datatype EventFilter = EventFilter(search: Option<string>, startDate: Option<int>, endDate: Option<int>)

  /** The address accepted invitations are matched against: the user's e-mail lower-cased, or "" without one. */
  function ViewerEmail(u: User): (email: string)
    ensures u.email.None? ==> email == []
    ensures u.email.Some? ==> |email| == |u.email.value| && forall i :: 0 <= i < |email| ==> !('A' <= email[i] <= 'Z')
    ensures u.email.Some? ==> forall i :: 0 <= i < |email| ==> email[i] == LowerChar(u.email.value[i])
  {
    if u.email.Some? then ToLower(u.email.value) else []
  }

  predicate IsAcceptedFor(inv: Invitation, email: string) {
    inv.invitee_email == email && inv.status == Accepted
  }

  /** The `event_id`s of the accepted invitations for `email`. */
  function InvitedIds(invitations: seq<Invitation>, email: string): (ids: seq<string>)
  {
    var accepted := Filter(invitations, (inv: Invitation) => IsAcceptedFor(inv, email));
    seq(|accepted|, k requires 0 <= k < |accepted| => accepted[k].event_id)
  }

  /** An event id is invited exactly when some accepted invitation for the address names it. */
  lemma InvitedIdsMember(invitations: seq<Invitation>, email: string, id: string)
    ensures id in InvitedIds(invitations, email)
        <==> exists k :: 0 <= k < |invitations| && IsAcceptedFor(invitations[k], email) && invitations[k].event_id == id
  {
    var p := (inv: Invitation) => IsAcceptedFor(inv, email);
    var accepted := Filter(invitations, p);
    var ids := InvitedIds(invitations, email);
    if id in ids {
      var j :| 0 <= j < |ids| && ids[j] == id;
      FilterMember(invitations, p, accepted[j]);
      var k :| 0 <= k < |invitations| && invitations[k] == accepted[j];
    }
    if exists k :: 0 <= k < |invitations| && IsAcceptedFor(invitations[k], email) && invitations[k].event_id == id {
      var k :| 0 <= k < |invitations| && IsAcceptedFor(invitations[k], email) && invitations[k].event_id == id;
      FilterMember(invitations, p, invitations[k]);
      var j :| 0 <= j < |accepted| && accepted[j] == invitations[k];
      assert ids[j] == id;
    }
  }

  /** `title ilike %term% or location ilike %term%`; a null location matches nothing. */
  predicate MatchesSearch(e: Event, term: Option<string>) {
    term.None?
    || ContainsIgnoreCase(e.title, term.value)
    || (e.location.Some? && ContainsIgnoreCase(e.location.value, term.value))
  }

  /** `start_time >= startDate` and `start_time <= endDate`, each only when given. */
  predicate StartsInRange(e: Event, f: EventFilter) {
    (f.startDate.None? || e.start_time >= f.startDate.value)
    && (f.endDate.None? || e.start_time <= f.endDate.value)
  }

  predicate Selected(e: Event, userId: string, invited: seq<string>, f: EventFilter) {
    (e.owner_id == userId || e.id in invited)
    && MatchesSearch(e, SearchTerm(f.search))
    && StartsInRange(e, f)
  }

  /** There is a signed-in user with a non-empty id. */
  predicate SignedIn(viewer: Option<User>) {
    viewer.Some? && viewer.value.id != []
  }

  /**
   * `fetchEvents`. `viewer` is what `auth.getUser()` returns; `inviteError`
   * and `queryError` are what the two queries return.
   */
  function FetchEvents(viewer: Option<User>, invitations: seq<Invitation>, events: seq<Event>, f: EventFilter,
                       inviteError: Option<StoreError>, queryError: Option<StoreError>)
    : (r: Result<seq<Event>, StoreError>)
    ensures !SignedIn(viewer) ==> r == Success([])
    ensures SignedIn(viewer) && inviteError.Some? ==> r == Failure(inviteError.value)
    ensures SignedIn(viewer) && inviteError.None? && queryError.Some? ==> r == Failure(queryError.value)
    ensures r.Success? ==> forall i, j :: 0 <= i < j < |r.value| ==> r.value[i].start_time <= r.value[j].start_time
    ensures r.Success? ==> multiset(r.value) <= multiset(events)
  {
    if !SignedIn(viewer) then Success([])
    else if inviteError.Some? then Failure(inviteError.value)
    else
      var user := viewer.value;
      var invited := InvitedIds(invitations, ViewerEmail(user));
      if queryError.Some? then Failure(queryError.value)
      else Success(SortBy(Filter(events, (e: Event) => Selected(e, user.id, invited, f)), (e: Event) => e.start_time))
  }

  /**
   * An event is listed exactly when it is the user's own or accepted by the
   * user's address, matches the search term and starts within the bounds.
   */
  lemma FetchEventsMember(user: User, invitations: seq<Invitation>, events: seq<Event>, f: EventFilter, e: Event)
    requires user.id != []
    ensures e in FetchEvents(Some(user), invitations, events, f, None, None).value
        <==> && e in events
             && (e.owner_id == user.id
                 || exists k :: 0 <= k < |invitations| && IsAcceptedFor(invitations[k], ViewerEmail(user)) && invitations[k].event_id == e.id)
             && MatchesSearch(e, SearchTerm(f.search))
             && StartsInRange(e, f)
  {
    var invited := InvitedIds(invitations, ViewerEmail(user));
    var p := (x: Event) => Selected(x, user.id, invited, f);
    var kept := Filter(events, p);
    var r := SortBy(kept, (x: Event) => x.start_time);
    FilterMember(events, p, e);
    InvitedIdsMember(invitations, ViewerEmail(user), e.id);
    assert e in r <==> e in kept by {
      assert e in multiset(r) <==> e in multiset(kept);
    }
  }

  /** A pending or declined invitation never makes an event visible. */
  lemma UnacceptedInvitationIgnored(viewer: Option<User>, invitations: seq<Invitation>, inv: Invitation,
                                    events: seq<Event>, f: EventFilter)
    requires inv.status != Accepted
    ensures FetchEvents(viewer, invitations + [inv], events, f, None, None)
         == FetchEvents(viewer, invitations, events, f, None, None)
  {
    if SignedIn(viewer) {
      var email := ViewerEmail(viewer.value);
      var p := (i: Invitation) => IsAcceptedFor(i, email);
      FilterConcat(invitations, [inv], p);
      assert Filter([inv], p) == [];
      assert InvitedIds(invitations + [inv], email) == InvitedIds(invitations, email);
    }
  }

  /** Search and date bounds only ever drop events from the user's unfiltered list. */
  lemma FiltersOnlyNarrow(viewer: Option<User>, invitations: seq<Invitation>, events: seq<Event>, f: EventFilter)
    ensures var all := FetchEvents(viewer, invitations, events, EventFilter(None, None, None), None, None);
            var some := FetchEvents(viewer, invitations, events, f, None, None);
            multiset(some.value) <= multiset(all.value)
  {
    if SignedIn(viewer) {
      var user := viewer.value;
      var invited := InvitedIds(invitations, ViewerEmail(user));
      FilterNarrows(events, (e: Event) => Selected(e, user.id, invited, f),
                            (e: Event) => Selected(e, user.id, invited, EventFilter(None, None, None)));
    }
  }

  /** A blank search filters nothing. */
  lemma BlankSearchIgnored(viewer: Option<User>, invitations: seq<Invitation>, events: seq<Event>, f: EventFilter, s: string)
    requires IsBlank(s)
    ensures FetchEvents(viewer, invitations, events, f.(search := Some(s)), None, None)
         == FetchEvents(viewer, invitations, events, f.(search := None), None, None)
  {
    if SignedIn(viewer) {
      var user := viewer.value;
      var invited := InvitedIds(invitations, ViewerEmail(user));
      var f1, f2 := f.(search := Some(s)), f.(search := None);
      assert SearchTerm(f1.search) == SearchTerm(f2.search);
      var p1 := (e: Event) => Selected(e, user.id, invited, f1);
      var p2 := (e: Event) => Selected(e, user.id, invited, f2);
      FilterCongruent(events, p1, p2);
      var key := (e: Event) => e.start_time;
      assert FetchEvents(viewer, invitations, events, f1, None, None) == Success(SortBy(Filter(events, p1), key));
      assert FetchEvents(viewer, invitations, events, f2, None, None) == Success(SortBy(Filter(events, p2), key));
    }
  }

  /** `fetchEventById`: the event with that id, or null. */
  function FetchEventById(events: seq<Event>, id: string, readError: Option<StoreError>)
    : (r: Result<Option<Event>, StoreError>)
    ensures readError.Some? <==> r.Failure?
    ensures readError.Some? ==> r.error == readError.value
    ensures r.Success? && r.value.Some? ==> r.value.value in events && r.value.value.id == id
    ensures r.Success? && r.value.None? ==> forall i :: 0 <= i < |events| ==> events[i].id != id
  {
    if readError.Some? then Failure(readError.value)
    else Success(Find(events, (e: Event) => e.id == id))
  }

  /** The fields `updateEvent` may change, each only when supplied; `id`, `owner_id` and `created_at` are not among them. */
  datatype EventPatch = EventPatch(
    title: Option<string>,
    start_time: Option<int>,
    end_time: Option<int>,
    location: Option<Option<string>>,
    description: Option<Option<string>>,
    status: Option<EventStatus>)

  /** One row after a partial update. */
  function ApplyPatch(e: Event, patch: EventPatch): (r: Event)
    ensures r.id == e.id && r.owner_id == e.owner_id && r.created_at == e.created_at
    ensures r.title == patch.title.GetOr(e.title)
    ensures r.start_time == patch.start_time.GetOr(e.start_time)
    ensures r.end_time == patch.end_time.GetOr(e.end_time)
    ensures r.location == patch.location.GetOr(e.location)
    ensures r.description == patch.description.GetOr(e.description)
    ensures r.status == patch.status.GetOr(e.status)
  {
    e.(title := patch.title.GetOr(e.title),
       start_time := patch.start_time.GetOr(e.start_time),
       end_time := patch.end_time.GetOr(e.end_time),
       location := patch.location.GetOr(e.location),
       description := patch.description.GetOr(e.description),
       status := patch.status.GetOr(e.status))
  }

  /** An empty patch changes nothing. */
  lemma EmptyPatch(e: Event)
    ensures ApplyPatch(e, EventPatch(None, None, None, None, None, None)) == e
  {
  }

  /** `update(patch).eq("id", id)` on `events`. */
  function UpdateEvents(events: seq<Event>, id: string, patch: EventPatch): (r: seq<Event>)
    ensures |r| == |events|
    ensures forall i :: 0 <= i < |events| && events[i].id == id ==> r[i] == ApplyPatch(events[i], patch)
    ensures forall i :: 0 <= i < |events| && events[i].id != id ==> r[i] == events[i]
  {
    Update(events, (e: Event) => e.id == id, (e: Event) => ApplyPatch(e, patch))
  }

  /** `delete().eq("id", id)` on `events`: every other row stays, in order. */
  function DeleteEvents(events: seq<Event>, id: string): (r: seq<Event>)
    ensures forall i :: 0 <= i < |r| ==> r[i].id != id
    ensures multiset(r) <= multiset(events)
  {
    Filter(events, (e: Event) => e.id != id)
  }

  /** Deleting keeps every event with another id. */
  lemma DeleteKeepsOthers(events: seq<Event>, id: string, e: Event)
    requires e in events && e.id != id
    ensures e in DeleteEvents(events, id)
  {
    FilterMember(events, (x: Event) => x.id != id, e);
  }

  /** `updateEvent` against the database. */
  method UpdateEvent(db: Database, id: string, patch: EventPatch, updateError: Option<StoreError>)
    returns (r: Outcome<StoreError>)
    modifies db
    ensures updateError.Some? ==> r == Thrown(updateError.value) && db.events == old(db.events)
    ensures updateError.None? ==> r == Done && db.events == UpdateEvents(old(db.events), id, patch)
    ensures db.books == old(db.books) && db.borrows == old(db.borrows) && db.invitations == old(db.invitations)
  {
    if updateError.Some? {
      return Thrown(updateError.value);
    }
    db.events := UpdateEvents(db.events, id, patch);
    r := Done;
  }

  /** `deleteEvent` against the database; invitations of the event are left as they are. */
  method DeleteEvent(db: Database, id: string, deleteError: Option<StoreError>)
    returns (r: Outcome<StoreError>)
    modifies db
    ensures deleteError.Some? ==> r == Thrown(deleteError.value) && db.events == old(db.events)
    ensures deleteError.None? ==> r == Done && db.events == DeleteEvents(old(db.events), id)
    ensures db.books == old(db.books) && db.borrows == old(db.borrows) && db.invitations == old(db.invitations)
  {
    if deleteError.Some? {
      return Thrown(deleteError.value);
    }
    db.events := DeleteEvents(db.events, id);
    r := Done;
  }
}
