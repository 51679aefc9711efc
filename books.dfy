/** The book list: `fetchBooks`, newest first, optionally narrowed by title or author. */
module Books {
  import opened Wrappers
  import opened Query
  import opened Text
  import opened Store

  /** `title ilike %term% or author ilike %term%`; no other column is searched. */
  predicate MatchesBookSearch(b: Book, term: Option<string>) {
    term.None? || ContainsIgnoreCase(b.title, term.value) || ContainsIgnoreCase(b.author, term.value)
  }

  /** `fetchBooks(search)` over the `books` table; `readError` is what the query returns. */
  function FetchBooks(books: seq<Book>, search: Option<string>, readError: Option<StoreError>)
    : (r: Result<seq<Book>, StoreError>)
    ensures readError.Some? <==> r.Failure?
    ensures readError.Some? ==> r.error == readError.value
    ensures r.Success? ==> forall i, j :: 0 <= i < j < |r.value| ==> r.value[i].created_at >= r.value[j].created_at
    ensures r.Success? ==> multiset(r.value) <= multiset(books)
    ensures r.Success? ==> forall i :: 0 <= i < |r.value| ==> MatchesBookSearch(r.value[i], SearchTerm(search))
  {
    if readError.Some? then Failure(readError.value)
    else
      var term := SearchTerm(search);
      var p := (b: Book) => MatchesBookSearch(b, term);
      var kept := Filter(books, p);
      var r := SortBy(kept, (b: Book) => -b.created_at);
      AllOfSubMultiset(r, kept, p);
      Success(r)
  }

  /** Without a search term (absent or blank) every book is listed. */
  lemma NoSearchListsAll(books: seq<Book>, search: Option<string>)
    requires search.None? || IsBlank(search.value)
    ensures multiset(FetchBooks(books, search, None).value) == multiset(books)
  {
    FilterAll(books, (b: Book) => MatchesBookSearch(b, SearchTerm(search)));
  }

  /**
   * A book is listed exactly when its title or author contains the trimmed
   * term, ignoring case; `isbn`, `tags` and `summary` play no part.
   */
  lemma FetchBooksMember(books: seq<Book>, search: string, b: Book)
    requires !IsBlank(search)
    ensures b in FetchBooks(books, Some(search), None).value
        <==> b in books && (ContainsIgnoreCase(b.title, Trim(search)) || ContainsIgnoreCase(b.author, Trim(search)))
  {
    var p := (x: Book) => MatchesBookSearch(x, SearchTerm(Some(search)));
    var kept := Filter(books, p);
    var r := SortBy(kept, (x: Book) => -x.created_at);
    FilterMember(books, p, b);
    assert b in r <==> b in kept by {
      assert b in multiset(r) <==> b in multiset(kept);
    }
  }

  /** The search is case-blind: the term's case does not change the list. */
  lemma SearchIgnoresCase(books: seq<Book>, search: string)
    ensures FetchBooks(books, Some(search), None) == FetchBooks(books, Some(ToLower(search)), None)
  {
    TrimToLower(search);
    var t1, t2 := SearchTerm(Some(search)), SearchTerm(Some(ToLower(search)));
    assert t1.Some? <==> t2.Some?;
    var p1 := (x: Book) => MatchesBookSearch(x, t1);
    var p2 := (x: Book) => MatchesBookSearch(x, t2);
    forall i | 0 <= i < |books| ensures p1(books[i]) == p2(books[i]) {
      if t1.Some? {
        IgnoreCaseIsCaseBlind(books[i].title, Trim(search));
        IgnoreCaseIsCaseBlind(books[i].author, Trim(search));
      }
    }
    FilterCongruent(books, p1, p2);
  }
}
