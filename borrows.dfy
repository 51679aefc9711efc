/**
 * Book checkout and return: each is two writes in sequence, first to
 * `borrows` and then to the book's `status`, and a failing write throws
 * before the next one is attempted.
 */
module Borrows {
  import opened Wrappers
  import opened Query
  import opened Store

  /** The two tables the lending operations touch. */
  datatype Lending = Lending(books: seq<Book>, borrows: seq<Borrow>)

  /** An open borrow of `bookId`: `book_id = bookId` and `returned_at is null`. */
  predicate IsOpenFor(b: Borrow, bookId: string) {
    b.book_id == bookId && b.returned_at.None?
  }

  /** `fetchActiveBorrow`: an open borrow of the book, or null when there is none; a read error is thrown. */
  function FetchActiveBorrow(borrows: seq<Borrow>, bookId: string, readError: Option<StoreError>)
    : (r: Result<Option<Borrow>, StoreError>)
    ensures readError.Some? ==> r == Failure(readError.value)
    ensures readError.None? ==> r.Success?
    ensures r.Success? && r.value.Some? ==> r.value.value in borrows && IsOpenFor(r.value.value, bookId)
    ensures r.Success? && r.value.None? <==> r.Success? && forall i :: 0 <= i < |borrows| ==> !IsOpenFor(borrows[i], bookId)
  {
    if readError.Some? then Failure(readError.value)
    else Success(Find(borrows, (b: Borrow) => IsOpenFor(b, bookId)))
  }

  /** `update({ status }).eq("id", bookId)` on `books`. */
  function SetBookStatus(books: seq<Book>, bookId: string, status: BookStatus): (r: seq<Book>)
    ensures |r| == |books|
    ensures forall i :: 0 <= i < |books| && books[i].id == bookId ==> r[i] == books[i].(status := status)
    ensures forall i :: 0 <= i < |books| && books[i].id != bookId ==> r[i] == books[i]
  {
    Update(books, (b: Book) => b.id == bookId, (b: Book) => b.(status := status))
  }

  /** `update({ returned_at: now }).eq("id", borrowId)` on `borrows`. */
  function CloseBorrow(borrows: seq<Borrow>, borrowId: string, now: int): (r: seq<Borrow>)
    ensures |r| == |borrows|
    ensures forall i :: 0 <= i < |borrows| && borrows[i].id == borrowId ==> r[i] == borrows[i].(returned_at := Some(now))
    ensures forall i :: 0 <= i < |borrows| && borrows[i].id != borrowId ==> r[i] == borrows[i]
  {
    Update(borrows, (b: Borrow) => b.id == borrowId, (b: Borrow) => b.(returned_at := Some(now)))
  }

  /**
   * `checkoutBook`: insert an open borrow (the database supplies its id and
   * `borrowed_at`, here `borrowId` and `now`), then mark the book borrowed.
   * `insertError` and `updateError` are what the two writes return.
   */
  function Checkout(l: Lending, bookId: string, userId: string, borrowId: string, now: int,
                    insertError: Option<StoreError>, updateError: Option<StoreError>)
    : (r: (Lending, Outcome<StoreError>))
    ensures r.1.Done? <==> insertError.None? && updateError.None?
    ensures insertError.Some? ==> r == (l, Thrown(insertError.value))
    ensures insertError.None? ==> r.0.borrows == l.borrows + [Borrow(borrowId, bookId, userId, now, None)]
    ensures insertError.None? && updateError.Some? ==> r.0.books == l.books && r.1 == Thrown(updateError.value)
    ensures r.1.Done? ==> |r.0.books| == |l.books|
    ensures r.1.Done? ==> forall i :: 0 <= i < |l.books| && l.books[i].id == bookId ==> r.0.books[i].status == Borrowed
    ensures r.1.Done? ==> forall i :: 0 <= i < |l.books| && l.books[i].id != bookId ==> r.0.books[i] == l.books[i]
    ensures r.1.Done? ==> FetchActiveBorrow(r.0.borrows, bookId, None).value.Some?
  {
    if insertError.Some? then (l, Thrown(insertError.value))
    else
      var borrows := l.borrows + [Borrow(borrowId, bookId, userId, now, None)];
      assert IsOpenFor(borrows[|borrows| - 1], bookId);
      if updateError.Some? then (Lending(l.books, borrows), Thrown(updateError.value))
      else (Lending(SetBookStatus(l.books, bookId, Borrowed), borrows), Done)
  }

  /**
   * `returnBook`: stamp `returned_at` on the borrow with id `borrowId`, then
   * mark the book available. Neither write looks at the other table.
   */
  function Return(l: Lending, bookId: string, borrowId: string, now: int,
                  closeError: Option<StoreError>, updateError: Option<StoreError>)
    : (r: (Lending, Outcome<StoreError>))
    ensures r.1.Done? <==> closeError.None? && updateError.None?
    ensures closeError.Some? ==> r == (l, Thrown(closeError.value))
    ensures closeError.None? ==> |r.0.borrows| == |l.borrows|
    ensures closeError.None? ==> forall i :: 0 <= i < |l.borrows| && l.borrows[i].id == borrowId ==> r.0.borrows[i].returned_at == Some(now)
    ensures closeError.None? ==> forall i :: 0 <= i < |l.borrows| && l.borrows[i].id != borrowId ==> r.0.borrows[i] == l.borrows[i]
    ensures closeError.None? && updateError.Some? ==> r.0.books == l.books && r.1 == Thrown(updateError.value)
    ensures r.1.Done? ==> |r.0.books| == |l.books|
    ensures r.1.Done? ==> forall i :: 0 <= i < |l.books| && l.books[i].id == bookId ==> r.0.books[i].status == Available
    ensures r.1.Done? ==> forall i :: 0 <= i < |l.books| && l.books[i].id != bookId ==> r.0.books[i] == l.books[i]
  {
    if closeError.Some? then (l, Thrown(closeError.value))
    else
      var borrows := CloseBorrow(l.borrows, borrowId, now);
      if updateError.Some? then (Lending(l.books, borrows), Thrown(updateError.value))
      else (Lending(SetBookStatus(l.books, bookId, Available), borrows), Done)
  }

  /** Closing a borrow whose id is fresh in the table stamps exactly that row. */
  lemma CloseFreshBorrow(borrows: seq<Borrow>, b: Borrow, now: int)
    requires forall i :: 0 <= i < |borrows| ==> borrows[i].id != b.id
    ensures CloseBorrow(borrows + [b], b.id, now) == borrows + [b.(returned_at := Some(now))]
  {
    var s := borrows + [b];
    var r := CloseBorrow(s, b.id, now);
    forall i | 0 <= i < |borrows| ensures r[i] == borrows[i] {
      assert s[i] == borrows[i];
    }
    assert s[|borrows|] == b;
  }

  /** Setting a book's status twice is setting it once, to the second value. */
  lemma StatusTwice(books: seq<Book>, bookId: string, first: BookStatus, second: BookStatus)
    ensures SetBookStatus(SetBookStatus(books, bookId, first), bookId, second) == SetBookStatus(books, bookId, second)
  {
    var mid := SetBookStatus(books, bookId, first);
    var r := SetBookStatus(mid, bookId, second);
    forall i | 0 <= i < |books| ensures r[i] == SetBookStatus(books, bookId, second)[i] {
      assert mid[i].id == books[i].id;
    }
  }

  /** Checking a book out and returning that borrow leaves the book available and the borrow closed. */
  lemma CheckoutThenReturn(l: Lending, bookId: string, userId: string, borrowId: string, t0: int, t1: int)
    requires forall i :: 0 <= i < |l.borrows| ==> l.borrows[i].id != borrowId
    ensures Checkout(l, bookId, userId, borrowId, t0, None, None).1 == Done
    ensures Return(Checkout(l, bookId, userId, borrowId, t0, None, None).0, bookId, borrowId, t1, None, None)
         == (Lending(SetBookStatus(l.books, bookId, Available), l.borrows + [Borrow(borrowId, bookId, userId, t0, Some(t1))]), Done)
  {
    var b := Borrow(borrowId, bookId, userId, t0, None);
    var l1 := Lending(SetBookStatus(l.books, bookId, Borrowed), l.borrows + [b]);
    CheckoutSucceeds(l, bookId, userId, borrowId, t0);
    ReturnSucceeds(l1, bookId, borrowId, t1);
    CloseFreshBorrow(l.borrows, b, t1);
    StatusTwice(l.books, bookId, Borrowed, Available);
  }

  /** A book with no other open borrow has none once the borrow is closed again. */
  lemma ReturnLeavesNoOpenBorrow(borrows: seq<Borrow>, bookId: string, b: Borrow, t1: int)
    requires FetchActiveBorrow(borrows, bookId, None) == Success(None)
    ensures FetchActiveBorrow(borrows + [b.(returned_at := Some(t1))], bookId, None) == Success(None)
  {
    var after := borrows + [b.(returned_at := Some(t1))];
    forall i | 0 <= i < |after| ensures !IsOpenFor(after[i], bookId) {
      if i < |borrows| {
        assert after[i] == borrows[i];
      }
    }
  }

  lemma CheckoutSucceeds(l: Lending, bookId: string, userId: string, borrowId: string, now: int)
    ensures Checkout(l, bookId, userId, borrowId, now, None, None)
         == (Lending(SetBookStatus(l.books, bookId, Borrowed), l.borrows + [Borrow(borrowId, bookId, userId, now, None)]), Done)
  {
  }

  lemma ReturnSucceeds(l: Lending, bookId: string, borrowId: string, now: int)
    ensures Return(l, bookId, borrowId, now, None, None)
         == (Lending(SetBookStatus(l.books, bookId, Available), CloseBorrow(l.borrows, borrowId, now)), Done)
  {
  }

  /** `checkoutBook` against the database: the tables end as `Checkout` says, the other tables untouched. */
  method CheckoutBook(db: Database, bookId: string, userId: string, borrowId: string, now: int,
                      insertError: Option<StoreError>, updateError: Option<StoreError>)
    returns (r: Outcome<StoreError>)
    modifies db
    ensures (Lending(db.books, db.borrows), r)
         == Checkout(Lending(old(db.books), old(db.borrows)), bookId, userId, borrowId, now, insertError, updateError)
    ensures db.events == old(db.events) && db.invitations == old(db.invitations)
  {
    // 1) create the borrow record
    if insertError.Some? {
      return Thrown(insertError.value);
    }
    db.borrows := db.borrows + [Borrow(borrowId, bookId, userId, now, None)];
    // 2) mark the book as borrowed
    if updateError.Some? {
      return Thrown(updateError.value);
    }
    db.books := SetBookStatus(db.books, bookId, Borrowed);
    r := Done;
  }

  /** `returnBook` against the database: the tables end as `Return` says, the other tables untouched. */
  method ReturnBook(db: Database, bookId: string, borrowId: string, now: int,
                    closeError: Option<StoreError>, updateError: Option<StoreError>)
    returns (r: Outcome<StoreError>)
    modifies db
    ensures (Lending(db.books, db.borrows), r)
         == Return(Lending(old(db.books), old(db.borrows)), bookId, borrowId, now, closeError, updateError)
    ensures db.events == old(db.events) && db.invitations == old(db.invitations)
  {
    // 1) close the borrow record
    if closeError.Some? {
      return Thrown(closeError.value);
    }
    db.borrows := CloseBorrow(db.borrows, borrowId, now);
    // 2) mark the book as available
    if updateError.Some? {
      return Thrown(updateError.value);
    }
    db.books := SetBookStatus(db.books, bookId, Available);
    r := Done;
  }
}
