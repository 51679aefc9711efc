/**
 * The hosted database as the application sees it: the row types of the
 * `books`, `borrows`, `events` and `event_invitations` tables, the signed-in
 * user record, the error a failing call returns, and the tables themselves.
 * Ids, e-mails and tokens are strings; timestamps are integers.
 */
module Store {
  import opened Wrappers

  datatype BookStatus = Available | Borrowed

  /** A row of `books`; `isbn`, `tags` and `summary` may be null. */
  datatype Book = Book(
    id: string,
    title: string,
    author: string,
    isbn: Option<string>,
    tags: Option<seq<string>>,
    summary: Option<string>,
    status: BookStatus,
    created_at: int)

  /** A row of `borrows`; it is open while `returned_at` is null. */
  datatype Borrow = Borrow(
    id: string,
    book_id: string,
    borrowed_by: string,
    borrowed_at: int,
    returned_at: Option<int>)

  datatype EventStatus = Upcoming | Attending | Maybe | Declined

  /** A row of `events`. */
  datatype Event = Event(
    id: string,
    owner_id: string,
    title: string,
    start_time: int,
    end_time: int,
    location: Option<string>,
    description: Option<string>,
    status: EventStatus,
    created_at: int)

  datatype InvitationStatus = Pending | Accepted | Declined

  /** A row of `event_invitations`. */
  datatype Invitation = Invitation(
    id: string,
    event_id: string,
    inviter_id: string,
    invitee_email: string,
    token: string,
    status: InvitationStatus,
    created_at: int)

  /** The signed-in user as the auth service reports it. */
  datatype User = User(id: string, email: Option<string>)

  /** The error object a database call returns; its `message` may be missing. */
  datatype StoreError = StoreError(message: Option<string>)

  /**
   * The tables, updated in place by the application's writes. A write that
   * returns an error changes nothing.
   */
  class Database {
    var books: seq<Book>
    var borrows: seq<Borrow>
    var events: seq<Event>
    var invitations: seq<Invitation>

    constructor (books: seq<Book>, borrows: seq<Borrow>, events: seq<Event>, invitations: seq<Invitation>)
      ensures this.books == books && this.borrows == borrows
      ensures this.events == events && this.invitations == invitations
    {
      this.books := books;
      this.borrows := borrows;
      this.events := events;
      this.invitations := invitations;
    }
  }
}
