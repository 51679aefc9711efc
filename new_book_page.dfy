/** The "Add book" page: the staff check, the form, tag parsing and the row written to `books`. */
module NewBookPage {
  import opened Wrappers
  import opened Query
  import opened Text
  import opened Store
  import opened Forms

  /** `role === "admin" || role === "librarian"`, compared exactly (case matters). */
  predicate CanManage(role: string) {
    role == "admin" || role == "librarian"
  }

  function TrimEach(parts: seq<string>): (r: seq<string>)
    ensures |r| == |parts|
    ensures forall i :: 0 <= i < |r| ==> r[i] == Trim(parts[i])
  {
    if parts == [] then [] else [Trim(parts[0])] + TrimEach(parts[1..])
  }

  /** A stored tag: non-empty, without surrounding white space and without a comma. */
  predicate IsTag(t: string) {
    t != [] && Trim(t) == t && ',' !in t
  }

  /** `tags.split(",").map(t => t.trim()).filter(Boolean)`. */
  function ParseTags(s: string): seq<string> {
    Filter(TrimEach(Split(s, ',')), (t: string) => t != [])
  }

  /**
   * Every parsed tag is a well-formed tag, and each is one of the trimmed
   * comma-separated pieces of the input.
   */
  lemma ParsedTagsAreTags(s: string)
    ensures forall i :: 0 <= i < |ParseTags(s)| ==> IsTag(ParseTags(s)[i])
    ensures multiset(ParseTags(s)) <= multiset(TrimEach(Split(s, ',')))
  {
    var parts := Split(s, ',');
    var trimmed := TrimEach(parts);
    var tags := ParseTags(s);
    forall i | 0 <= i < |tags| ensures IsTag(tags[i]) {
      assert tags[i] in multiset(trimmed);
      var j :| 0 <= j < |trimmed| && trimmed[j] == tags[i];
      TrimIdempotent(parts[j]);
      if ',' in tags[i] {
        TrimKeepsChars(parts[j], ',');
      }
    }
  }

  /** Well-formed tags joined with commas parse back to the same tags, in order. */
  lemma ParseJoinedTags(tags: seq<string>)
    requires |tags| >= 1
    requires forall i :: 0 <= i < |tags| ==> IsTag(tags[i])
    ensures ParseTags(Join(tags, ',')) == tags
  {
    SplitJoin(tags, ',');
    assert TrimEach(tags) == tags;
    FilterAll(tags, (t: string) => t != []);
  }

  /** Input made only of commas and white space (the empty string included) gives no tags. */
  lemma NoTags(s: string)
    requires forall i :: 0 <= i < |s| ==> s[i] == ',' || IsSpace(s[i])
    ensures ParseTags(s) == []
  {
    var parts := Split(s, ',');
    var trimmed := TrimEach(parts);
    forall j | 0 <= j < |parts| ensures trimmed[j] == [] {
      BlankPiece(s, parts[j]);
    }
    FilterNone(trimmed, (t: string) => t != []);
  }

  /** A comma-free piece of such an input is blank. */
  lemma BlankPiece(s: string, piece: string)
    requires forall i :: 0 <= i < |s| ==> s[i] == ',' || IsSpace(s[i])
    requires ',' !in piece && forall c :: c in piece ==> c in s
    ensures Trim(piece) == []
  {
    forall k | 0 <= k < |piece| ensures IsSpace(piece[k]) {
      assert piece[k] in piece;
    }
    BlankIffAllSpace(piece);
  }

  /** The row `onSave` inserts; `id` and `created_at` are set by the database. */
  function NewBookRow(title: string, author: string, isbn: string, tags: string, newId: string, createdAt: int)
    : (b: Book)
    ensures b.status == Available
    ensures b.title == Trim(title) && b.author == Trim(author)
    ensures b.isbn.None? <==> IsBlank(isbn)
    ensures b.isbn.Some? ==> b.isbn.value == Trim(isbn)
    ensures b.tags == Some(ParseTags(tags)) && b.summary.None?
    ensures b.id == newId && b.created_at == createdAt
  {
    Book(newId, Trim(title), Trim(author), BlankToNull(isbn), Some(ParseTags(tags)), None, Available, createdAt)
  }

  /** The form's four text fields. */
  datatype BookFields = BookFields(title: string, author: string, isbn: string, tags: string)

  /**
   * One press of Save, on the form's values and the `books` table:
   * the new table and what the user sees.
   */
  function SaveBook(role: string, f: BookFields, books: seq<Book>, newId: string, createdAt: int,
                    insertError: Option<StoreError>)
    : (seq<Book>, SaveOutcome)
  {
    if !CanManage(role) then (books, Ignored)
    else if Trim(f.title) == [] || Trim(f.author) == [] then (books, Rejected("Title and author are required"))
    else if insertError.Some? then (books, InsertFailed(insertError.value))
    else (books + [NewBookRow(f.title, f.author, f.isbn, f.tags, newId, createdAt)], Saved)
  }

  /**
   * What one press of Save does: nothing without the staff role, an alert
   * and no row for a blank title or author, otherwise exactly one new row,
   * always available, unless the insert fails.
   */
  lemma SaveBookOutcomes(role: string, title: string, author: string, isbn: string, tags: string,
                         books: seq<Book>, newId: string, createdAt: int, insertError: Option<StoreError>)
    ensures var r := SaveBook(role, BookFields(title, author, isbn, tags), books, newId, createdAt, insertError);
      && (!CanManage(role) ==> r == (books, Ignored))
      && (CanManage(role) && (IsBlank(title) || IsBlank(author)) ==> r == (books, Rejected("Title and author are required")))
      && (r.1 == Saved <==> CanManage(role) && !IsBlank(title) && !IsBlank(author) && insertError.None?)
      && (r.1 == Saved ==> r.0 == books + [NewBookRow(title, author, isbn, tags, newId, createdAt)])
      && (r.1 != Saved ==> r.0 == books)
      && (r.1 == Saved ==> r.0[|books|].status == Available && r.0[|books|].title != [] && r.0[|books|].author != [])
  {
  }

  /** Past both checks, Save comes down to the insert. */
  lemma SaveBookSubmits(role: string, f: BookFields, books: seq<Book>, newId: string, createdAt: int,
                        insertError: Option<StoreError>)
    requires CanManage(role) && Trim(f.title) != [] && Trim(f.author) != []
    ensures SaveBook(role, f, books, newId, createdAt, insertError)
         == if insertError.Some? then (books, InsertFailed(insertError.value))
            else (books + [NewBookRow(f.title, f.author, f.isbn, f.tags, newId, createdAt)], Saved)
  {
  }

  /** The page's form state. */
  class NewBookForm {
    var title: string
    var author: string
    var isbn: string
    var tags: string
    var saving: bool

    function Fields(): BookFields
      reads this
    {
      BookFields(title, author, isbn, tags)
    }

    /** Every field starts empty and nothing is being saved. */
    constructor ()
      ensures Fields() == BookFields([], [], [], []) && !saving
    {
      title, author, isbn, tags := [], [], [], [];
      saving := false;
    }

    /**
     * `onSave`. `saving` is raised while the insert runs and lowered
     * afterwards whatever happens; the early returns leave it alone.
     */
    method OnSave(role: string, db: Database, newId: string, createdAt: int, insertError: Option<StoreError>)
      returns (outcome: SaveOutcome)
      modifies this, db
      ensures (db.books, outcome) == SaveBook(role, old(Fields()), old(db.books), newId, createdAt, insertError)
      ensures db.borrows == old(db.borrows) && db.events == old(db.events) && db.invitations == old(db.invitations)
      ensures Fields() == old(Fields())
      ensures outcome.Ignored? || outcome.Rejected? ==> saving == old(saving)
      ensures outcome.Saved? || outcome.InsertFailed? ==> !saving
    {
      var f := Fields();
      if !CanManage(role) {
        return Ignored;
      }
      if Trim(f.title) == [] || Trim(f.author) == [] {
        return Rejected("Title and author are required");
      }
      SaveBookSubmits(role, f, db.books, newId, createdAt, insertError);
      outcome := Submit(db, NewBookRow(f.title, f.author, f.isbn, f.tags, newId, createdAt), insertError);
    }

    /** The insert itself, with `saving` raised around it. */
    method Submit(db: Database, row: Book, insertError: Option<StoreError>) returns (outcome: SaveOutcome)
      modifies this, db
      ensures insertError.Some? ==> db.books == old(db.books) && outcome == InsertFailed(insertError.value)
      ensures insertError.None? ==> db.books == old(db.books) + [row] && outcome == Saved
      ensures db.borrows == old(db.borrows) && db.events == old(db.events) && db.invitations == old(db.invitations)
      ensures Fields() == old(Fields()) && !saving
    {
      saving := true;
      if insertError.Some? {
        outcome := InsertFailed(insertError.value);
      } else {
        db.books := db.books + [row];
        outcome := Saved;
      }
      saving := false;
    }
  }
}
