/**
 * Event invitations: issuing one (with de-duplication on the stored
 * (event, e-mail) pair), looking them up, and recording the invitee's answer.
 */
module Invitations {
  import opened Wrappers
  import opened Query
  import opened Text
  import opened Store

  predicate IsHexDigit(c: char) {
    ('0' <= c <= '9') || ('a' <= c <= 'f')
  }

  predicate AllHex(s: string) {
    forall i :: 0 <= i < |s| ==> IsHexDigit(s[i])
  }

  /** What `crypto.randomUUID()` returns: groups of 8, 4, 4, 4 and 12 lower-case hex digits joined by `-`. */
  predicate IsUuid(u: string) {
    && |u| == 36
    && u[8] == '-' && u[13] == '-' && u[18] == '-' && u[23] == '-'
    && AllHex(u[0..8]) && AllHex(u[9..13]) && AllHex(u[14..18]) && AllHex(u[19..23]) && AllHex(u[24..36])
  }

  /** `randomToken`: the generated UUID with every `-` removed. */
  function RandomToken(uuid: string): (token: string)
    ensures '-' !in token
    ensures multiset(token) <= multiset(uuid)
  {
    Filter(uuid, (c: char) => c != '-')
  }

  lemma HexSegment(s: string)
    requires AllHex(s)
    ensures RandomToken(s) == s
  {
    FilterAll(s, (c: char) => c != '-');
  }

  lemma TokenAroundHyphen(s: string, k: int)
    requires 0 <= k < |s| && s[k] == '-'
    ensures RandomToken(s) == RandomToken(s[..k]) + RandomToken(s[k + 1..])
  {
    var p := (c: char) => c != '-';
    assert s == s[..k] + ([s[k]] + s[k + 1..]);
    FilterConcat(s[..k], [s[k]] + s[k + 1..], p);
    FilterConcat([s[k]], s[k + 1..], p);
  }

  lemma TokenStep(u: string, from: int, k: int)
    requires 0 <= from && 0 <= k && from + k < |u| && u[from + k] == '-'
    ensures RandomToken(u[from..]) == RandomToken(u[from..from + k]) + RandomToken(u[from + k + 1..])
  {
    var s := u[from..];
    assert s[k] == '-';
    TokenAroundHyphen(s, k);
    assert s[..k] == u[from..from + k];
    assert s[k + 1..] == u[from + k + 1..];
  }

  /** The token is the five hex groups of the UUID, concatenated. */
  lemma UuidTokenGroups(u: string)
    requires IsUuid(u)
    ensures RandomToken(u) == u[0..8] + (u[9..13] + (u[14..18] + (u[19..23] + u[24..36])))
  {
    var g0, g1, g2, g3, g4 := u[0..8], u[9..13], u[14..18], u[19..23], u[24..36];
    assert RandomToken(u[19..]) == g3 + g4 by {
      TokenStep(u, 19, 4);
      HexSegment(g3);
      assert u[24..] == g4;
      HexSegment(g4);
    }
    assert RandomToken(u[14..]) == g2 + (g3 + g4) by {
      TokenStep(u, 14, 4);
      HexSegment(g2);
    }
    assert RandomToken(u[9..]) == g1 + (g2 + (g3 + g4)) by {
      TokenStep(u, 9, 4);
      HexSegment(g1);
    }
    assert RandomToken(u[0..]) == g0 + (g1 + (g2 + (g3 + g4))) by {
      TokenStep(u, 0, 8);
      HexSegment(g0);
    }
    assert u[0..] == u;
  }

  /** A token made from a UUID is 32 hex digits. */
  lemma UuidToken(u: string)
    requires IsUuid(u)
    ensures |RandomToken(u)| == 32
    ensures forall i :: 0 <= i < 32 ==> IsHexDigit(RandomToken(u)[i])
  {
    UuidTokenGroups(u);
    var t := RandomToken(u);
    forall i | 0 <= i < 32 ensures IsHexDigit(t[i]) {
      if i < 8 { assert t[i] == u[0..8][i]; }
      else if i < 12 { assert t[i] == u[9..13][i - 8]; }
      else if i < 16 { assert t[i] == u[14..18][i - 12]; }
      else if i < 20 { assert t[i] == u[19..23][i - 16]; }
      else { assert t[i] == u[24..36][i - 20]; }
    }
  }

  /** The stored form of an invitee address: `trim()` then `toLowerCase()`. */
  function NormalizeEmail(s: string): (r: string)
    ensures forall i :: 0 <= i < |r| ==> !('A' <= r[i] <= 'Z')
    ensures r == [] || (!IsSpace(r[0]) && !IsSpace(r[|r| - 1]))
    ensures |r| == |Trim(s)| && forall i :: 0 <= i < |r| ==> r[i] == LowerChar(Trim(s)[i])
  {
    TrimShape(s);
    ToLower(Trim(s))
  }

  /** Addresses that differ only in surrounding white space are stored alike. */
  lemma NormalizeIgnoresOuterSpace(p: string, s: string, q: string)
    requires AllSpace(p) && AllSpace(q)
    ensures NormalizeEmail(p + s + q) == NormalizeEmail(s)
  {
    TrimIgnoresOuterSpace(p, s, q);
  }

  /** Addresses that differ only in letter case are stored alike. */
  lemma NormalizeIgnoresCase(a: string, b: string)
    requires ToLower(a) == ToLower(b)
    ensures NormalizeEmail(a) == NormalizeEmail(b)
  {
    TrimToLower(a);
    TrimToLower(b);
  }

  /** A stored address normalises to itself. */
  lemma NormalizeIdempotent(s: string)
    ensures NormalizeEmail(NormalizeEmail(s)) == NormalizeEmail(s)
  {
    TrimToLower(Trim(s));
    TrimIdempotent(s);
    ToLowerIdempotent(Trim(s));
  }

  /** The insert failed on the uniqueness constraint: its lower-cased message mentions "duplicate" or "unique". */
  predicate IsDuplicateError(e: StoreError) {
    var msg := ToLower(e.message.GetOr(""));
    Contains(msg, "duplicate") || Contains(msg, "unique")
  }

  /** The row for (event, e-mail): `.eq("event_id", ...).eq("invitee_email", ...).maybeSingle()`. */
  function Existing(rows: seq<Invitation>, eventId: string, email: string): (r: Option<Invitation>)
    ensures r.Some? ==> r.value in rows && r.value.event_id == eventId && r.value.invitee_email == email
    ensures r.None? <==> forall i :: 0 <= i < |rows| ==> !(rows[i].event_id == eventId && rows[i].invitee_email == email)
  {
    Find(rows, (inv: Invitation) => inv.event_id == eventId && inv.invitee_email == email)
  }

  /** What `createInvitation` returns. */
  datatype InviteResult = InviteResult(token: string, alreadyInvited: bool, status: InvitationStatus)

  /** The invitations table after `createInvitation`, and what it returned or threw. */
  datatype Issued = Issued(rows: seq<Invitation>, result: Result<InviteResult, StoreError>)

  /**
   * `createInvitation`. The database supplies the new row's `id` and
   * `created_at` (`newId`, `createdAt`); `insertError` and `lookupError` are
   * what the insert and the follow-up lookup return.
   */
  function Issue(rows: seq<Invitation>, eventId: string, inviteeEmail: string, inviterId: string,
                 uuid: string, newId: string, createdAt: int,
                 insertError: Option<StoreError>, lookupError: Option<StoreError>): (r: Issued)
    ensures insertError.None? ==> r.rows == rows + [Invitation(newId, eventId, inviterId, NormalizeEmail(inviteeEmail), RandomToken(uuid), Pending, createdAt)]
    ensures insertError.None? ==> r.result == Success(InviteResult(RandomToken(uuid), false, Pending))
    ensures insertError.Some? ==> r.rows == rows
    ensures insertError.Some? && !IsDuplicateError(insertError.value) ==> r.result == Failure(insertError.value)
    ensures insertError.Some? && IsDuplicateError(insertError.value) && lookupError.Some? ==> r.result == Failure(lookupError.value)
    ensures insertError.Some? && IsDuplicateError(insertError.value) && lookupError.None? ==>
              var ex := Existing(rows, eventId, NormalizeEmail(inviteeEmail));
              if ex.Some? && ex.value.token != ""
              then r.result == Success(InviteResult(ex.value.token, true, ex.value.status))
              else r.result == Failure(insertError.value)
    ensures r.result.Success? && r.result.value.alreadyInvited ==>
              exists k :: 0 <= k < |rows| && rows[k].event_id == eventId && rows[k].invitee_email == NormalizeEmail(inviteeEmail)
                       && rows[k].token == r.result.value.token && rows[k].status == r.result.value.status
  {
    var email := NormalizeEmail(inviteeEmail);
    var token := RandomToken(uuid);
    if insertError.None? then
      Issued(rows + [Invitation(newId, eventId, inviterId, email, token, Pending, createdAt)],
             Success(InviteResult(token, false, Pending)))
    else if !IsDuplicateError(insertError.value) then Issued(rows, Failure(insertError.value))
    else if lookupError.Some? then Issued(rows, Failure(lookupError.value))
    else
      match Existing(rows, eventId, email)
      case Some(ex) =>
        if ex.token == "" then Issued(rows, Failure(insertError.value))
        else Issued(rows, Success(InviteResult(ex.token, true, ex.status)))
      case None => Issued(rows, Failure(insertError.value))
  }

  /**
   * Issuing an invitation and then issuing it again for the same address
   * (up to case and surrounding white space), when the second insert is
   * refused by the uniqueness constraint, returns the first token with
   * `alreadyInvited` set and adds no second row.
   */
  lemma IssueTwice(rows: seq<Invitation>, eventId: string, email1: string, email2: string,
                   inviter1: string, inviter2: string, uuid1: string, uuid2: string,
                   id1: string, id2: string, at1: int, at2: int, duplicate: StoreError)
    requires IsUuid(uuid1)
    requires forall k :: 0 <= k < |rows| ==> !(rows[k].event_id == eventId && rows[k].invitee_email == NormalizeEmail(email1))
    requires NormalizeEmail(email2) == NormalizeEmail(email1)
    requires IsDuplicateError(duplicate)
    ensures var first := Issue(rows, eventId, email1, inviter1, uuid1, id1, at1, None, None);
            var second := Issue(first.rows, eventId, email2, inviter2, uuid2, id2, at2, Some(duplicate), None);
            && first.result == Success(InviteResult(RandomToken(uuid1), false, Pending))
            && second.result == Success(InviteResult(RandomToken(uuid1), true, Pending))
            && second.rows == first.rows
            && |second.rows| == |rows| + 1
  {
    UuidToken(uuid1);
    var first := Issue(rows, eventId, email1, inviter1, uuid1, id1, at1, None, None);
    var row := Invitation(id1, eventId, inviter1, NormalizeEmail(email1), RandomToken(uuid1), Pending, at1);
    assert first.rows == rows + [row];
    FindUnique(first.rows, (inv: Invitation) => inv.event_id == eventId && inv.invitee_email == NormalizeEmail(email2), |rows|);
  }

  /** `fetchInvitationsForEvent`: the event's invitations, newest `created_at` first. */
  function FetchInvitationsForEvent(rows: seq<Invitation>, eventId: string, readError: Option<StoreError>)
    : (r: Result<seq<Invitation>, StoreError>)
    ensures readError.Some? <==> r.Failure?
    ensures readError.Some? ==> r.error == readError.value
    ensures r.Success? ==> forall i :: 0 <= i < |r.value| ==> r.value[i].event_id == eventId
    ensures r.Success? ==> forall i, j :: 0 <= i < j < |r.value| ==> r.value[i].created_at >= r.value[j].created_at
    ensures r.Success? ==> multiset(r.value) <= multiset(rows)
  {
    if readError.Some? then Failure(readError.value)
    else
      var p := (inv: Invitation) => inv.event_id == eventId;
      var mine := Filter(rows, p);
      var sorted := SortBy(mine, (inv: Invitation) => -inv.created_at);
      AllOfSubMultiset(sorted, mine, p);
      Success(sorted)
  }

  /** Every invitation of the event is listed. */
  lemma FetchInvitationsForEventComplete(rows: seq<Invitation>, eventId: string, inv: Invitation)
    requires inv in rows && inv.event_id == eventId
    ensures inv in FetchInvitationsForEvent(rows, eventId, None).value
  {
    var p := (x: Invitation) => x.event_id == eventId;
    FilterMember(rows, p, inv);
    var mine := Filter(rows, p);
    assert inv in multiset(mine);
  }

  /** `fetchInvitationByToken`: the row with that token, or null. */
  function FetchInvitationByToken(rows: seq<Invitation>, token: string, readError: Option<StoreError>)
    : (r: Result<Option<Invitation>, StoreError>)
    ensures readError.Some? <==> r.Failure?
    ensures readError.Some? ==> r.error == readError.value
    ensures r.Success? && r.value.Some? ==> r.value.value in rows && r.value.value.token == token
    ensures r.Success? && r.value.None? ==> forall i :: 0 <= i < |rows| ==> rows[i].token != token
  {
    if readError.Some? then Failure(readError.value)
    else Success(Find(rows, (inv: Invitation) => inv.token == token))
  }

  /** The two answers an invitee can give. */
  predicate IsAnswer(s: InvitationStatus) {
    s == Accepted || s == InvitationStatus.Declined
  }

  /** `update({ status }).eq("id", id)`: whatever the previous status was. */
  function SetInvitationStatus(rows: seq<Invitation>, id: string, status: InvitationStatus): (r: seq<Invitation>)
    ensures |r| == |rows|
    ensures forall i :: 0 <= i < |rows| && rows[i].id == id ==> r[i] == rows[i].(status := status)
    ensures forall i :: 0 <= i < |rows| && rows[i].id != id ==> r[i] == rows[i]
  {
    Update(rows, (inv: Invitation) => inv.id == id, (inv: Invitation) => inv.(status := status))
  }

  /** No answer is final: a second answer overwrites the first. */
  lemma AnswerOverwrites(rows: seq<Invitation>, id: string, first: InvitationStatus, second: InvitationStatus)
    ensures SetInvitationStatus(SetInvitationStatus(rows, id, first), id, second) == SetInvitationStatus(rows, id, second)
  {
    var mid := SetInvitationStatus(rows, id, first);
    var r := SetInvitationStatus(mid, id, second);
    forall i | 0 <= i < |rows| ensures r[i] == SetInvitationStatus(rows, id, second)[i] {
      assert mid[i].id == rows[i].id;
    }
  }

  /** `createInvitation` against the database: the table and the result are as `Issue` says. */
  method CreateInvitation(db: Database, eventId: string, inviteeEmail: string, inviterId: string,
                          uuid: string, newId: string, createdAt: int,
                          insertError: Option<StoreError>, lookupError: Option<StoreError>)
    returns (r: Result<InviteResult, StoreError>)
    modifies db
    ensures Issued(db.invitations, r)
         == Issue(old(db.invitations), eventId, inviteeEmail, inviterId, uuid, newId, createdAt, insertError, lookupError)
    ensures db.books == old(db.books) && db.borrows == old(db.borrows) && db.events == old(db.events)
  {
    var email := NormalizeEmail(inviteeEmail);
    var token := RandomToken(uuid);
    // try to insert a new invitation
    if insertError.Some? {
      var error := insertError.value;
      if IsDuplicateError(error) {
        if lookupError.Some? {
          return Failure(lookupError.value);
        }
        var existing := Existing(db.invitations, eventId, email);
        if existing.None? || existing.value.token == "" {
          return Failure(error);
        }
        return Success(InviteResult(existing.value.token, true, existing.value.status));
      }
      return Failure(error);
    }
    db.invitations := db.invitations + [Invitation(newId, eventId, inviterId, email, token, Pending, createdAt)];
    r := Success(InviteResult(token, false, Pending));
  }

  /** `updateInvitationStatus` against the database. */
  method UpdateInvitationStatus(db: Database, id: string, status: InvitationStatus, updateError: Option<StoreError>)
    returns (r: Outcome<StoreError>)
    requires IsAnswer(status)
    modifies db
    ensures updateError.Some? ==> r == Thrown(updateError.value) && db.invitations == old(db.invitations)
    ensures updateError.None? ==> r == Done && db.invitations == SetInvitationStatus(old(db.invitations), id, status)
    ensures db.books == old(db.books) && db.borrows == old(db.borrows) && db.events == old(db.events)
  {
    if updateError.Some? {
      return Thrown(updateError.value);
    }
    db.invitations := SetInvitationStatus(db.invitations, id, status);
    r := Done;
  }
}
