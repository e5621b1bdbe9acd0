/**
 * The in-memory book store: a map from id to book and the counter that
 * hands out the next id.  Every method is one atomic step (the mutex that
 * serialises them in Go is not modelled).
 */
module Repository {
  import opened Wrappers
  import opened Model
  import opened Utils

  // ---------------------------------------------------------------------
  // Reference definition of the filtered query, over the set of stored books
  // ---------------------------------------------------------------------

  /** A year filter string is given but does not parse. */
  predicate Malformed(year: string) {
    year != "" && ParseInt(year).None?
  }

  /** The bound a year filter string imposes: none when it is empty. */
  function YearBound(year: string): Option<int> {
    if year == "" then None else ParseInt(year)
  }

  /** An empty author filter matches every book; otherwise the match is exact. */
  predicate AuthorPasses(b: Book, author: string) {
    author == "" || b.author == author
  }

  /** Inclusive lower bound on the publication year. */
  predicate StartPasses(b: Book, startYear: string) {
    YearBound(startYear).None? || YearBound(startYear).value <= b.publishedYear
  }

  /** Inclusive upper bound on the publication year. */
  predicate EndPasses(b: Book, endYear: string) {
    YearBound(endYear).None? || b.publishedYear <= YearBound(endYear).value
  }

  /** A book satisfies all three filters. */
  predicate Selects(b: Book, author: string, startYear: string, endYear: string) {
    AuthorPasses(b, author) && StartPasses(b, startYear) && EndPasses(b, endYear)
  }

  /**
   * What a query over the stored books answers.  A malformed year is only
   * reported when some book gets as far as the test that parses it: the
   * start year is parsed for every book whose author passes, the end year
   * for every book whose author and start year pass.
   */
  function Query(stored: set<Book>, author: string, startYear: string, endYear: string): (r: Result<set<Book>, Error>)
    ensures r.Success? ==> r.value <= stored
  {
    if Malformed(startYear) && exists b :: b in stored && AuthorPasses(b, author) then
      Failure(InvalidStartYear)
    else if Malformed(endYear) && exists b :: b in stored && AuthorPasses(b, author) && StartPasses(b, startYear) then
      Failure(InvalidEndYear)
    else
      Success(set b | b in stored && Selects(b, author, startYear, endYear))
  }

  /** A result list answers a query: the same error, or the selected books each exactly once, in any order. */
  predicate Answers(r: Result<seq<Book>, Error>, q: Result<set<Book>, Error>) {
    match q
    case Failure(e) => r == Failure(e)
    case Success(selected) => r.Success? && multiset(r.value) == multiset(selected)
  }

  /** The books stored under the keys `ks`. */
  function ValuesAt(books: map<int, Book>, ks: set<int>): set<Book> {
    set k | k in ks && k in books :: books[k]
  }

  /** Every key of the map is the id of the book stored under it. */
  predicate KeyedById(books: map<int, Book>) {
    forall k :: k in books ==> books[k].id == k
  }

  // ---------------------------------------------------------------------
  // The store
  // ---------------------------------------------------------------------

  class BookRepository {
    var books: map<int, Book>
    var nextID: int
    /** Every id handed out so far, including those of deleted books. */
    ghost var issued: set<int>

    /**
     * Each key is its book's id, every stored id was issued, and every
     * issued id lies in [1, nextID).
     */
    ghost predicate Valid()
      reads this
    {
      1 <= nextID &&
      KeyedById(books) &&
      (forall k :: k in books ==> k in issued) &&
      (forall k :: k in issued ==> 1 <= k < nextID)
    }

    /** `NewBookRepository`: an empty store whose first id will be 1. */
    constructor ()
      ensures Valid()
      ensures books == map[] && nextID == 1 && issued == {}
    {
      books := map[];
      nextID := 1;
      issued := {};
    }

    /** Stores a copy of `book` under a fresh id, ignoring the id it came with. */
    method AddBook(book: Book) returns (stored: Book)
      requires Valid()
      modifies this
      ensures Valid()
      ensures stored == book.(id := old(nextID))
      ensures stored.id !in old(issued) && issued == old(issued) + {stored.id}
      ensures books == old(books)[stored.id := stored]
      ensures nextID == old(nextID) + 1
      ensures forall k :: k in old(books) ==> k in books && books[k] == old(books)[k]
    {
      stored := book.(id := nextID);
      books := books[nextID := stored];
      issued := issued + {nextID};
      nextID := nextID + 1;
    }

    /** A snapshot of every stored book, each exactly once, in map order. */
    method GetAllBooks() returns (bookList: seq<Book>)
      requires Valid()
      ensures multiset(bookList) == multiset(books.Values)
      ensures |bookList| == |books|
    {
      bookList := [];
      var todo := books.Keys;
      ghost var done: set<int> := {};
      while todo != {}
        invariant todo !! done && todo + done == books.Keys
        invariant multiset(bookList) == multiset(ValuesAt(books, done))
        invariant |bookList| == |done|
        decreases todo
      {
        HasMember(todo);
        var k :| k in todo;
        ValuesAtInsert(books, done, k);
        MultisetOfInsert(ValuesAt(books, done), books[k]);
        bookList := bookList + [books[k]];
        todo := todo - {k};
        done := done + {k};
      }
      ValuesAtAll(books);
      assert books.Keys == done;
    }

    /** Looks a book up by id; an absent id is `BookNotFound`. */
    method GetBookByID(id: int) returns (r: Result<Book, Error>)
      requires Valid()
      ensures r.Success? <==> id in books
      ensures r.Success? ==> r.value == books[id] && r.value.id == id
      ensures r.Failure? ==> r.error == BookNotFound
    {
      if id !in books {
        return Failure(BookNotFound);
      }
      return Success(books[id]);
    }

    /** Removes the book stored under `id`; an absent id is `BookNotFound` and changes nothing. */
    method DeleteBookByID(id: int) returns (err: Option<Error>)
      requires Valid()
      modifies this
      ensures Valid()
      ensures err.None? <==> id in old(books)
      ensures err.Some? ==> err.value == BookNotFound && books == old(books)
      ensures err.None? ==> books == old(books) - {id}
      ensures nextID == old(nextID) && issued == old(issued)
    {
      if id !in books {
        return Some(BookNotFound);
      }
      books := books - {id};
      return None;
    }

    /**
     * The stored books matching the author and the inclusive year range;
     * an empty filter string imposes no condition.  Visits the books in map
     * order and stops at the first malformed year it has to parse.
     */
    method GetBooks(author: string, startYear: string, endYear: string) returns (r: Result<seq<Book>, Error>)
      requires Valid()
      ensures Answers(r, Query(books.Values, author, startYear, endYear))
    {
      var filteredBooks: seq<Book> := [];
      var todo := books.Keys;
      ghost var done: set<int> := {};
      while todo != {}
        invariant todo !! done && todo + done == books.Keys
        invariant Query(ValuesAt(books, done), author, startYear, endYear).Success?
        invariant multiset(filteredBooks) == multiset(Query(ValuesAt(books, done), author, startYear, endYear).value)
        decreases todo
      {
        HasMember(todo);
        var k :| k in todo;
        var book := books[k];
        ghost var before := ValuesAt(books, done);
        ValuesAtInsert(books, done, k);
        QueryInsert(before, book, author, startYear, endYear);
        ValuesAtAll(books);
        todo := todo - {k};
        done := done + {k};

        if author != "" && book.author != author {
          continue;
        }
        if startYear != "" {
          var startYearInt := ParseInt(startYear);
          if startYearInt.None? {
            QueryFailureGrows(ValuesAt(books, done), books.Values, author, startYear, endYear);
            return Failure(InvalidStartYear);
          }
          if book.publishedYear < startYearInt.value {
            continue;
          }
        }
        if endYear != "" {
          var endYearInt := ParseInt(endYear);
          if endYearInt.None? {
            QueryFailureGrows(ValuesAt(books, done), books.Values, author, startYear, endYear);
            return Failure(InvalidEndYear);
          }
          if book.publishedYear > endYearInt.value {
            continue;
          }
        }
        MultisetOfInsert(Query(before, author, startYear, endYear).value, book);
        filteredBooks := filteredBooks + [book];
      }
      ValuesAtAll(books);
      assert books.Keys == done;
      if |filteredBooks| == 0 {
        return Success([]);
      }
      return Success(filteredBooks);
    }
  }

  // ---------------------------------------------------------------------
  // Properties of the query
  // ---------------------------------------------------------------------

  /** With no filters the query returns the whole collection. */
  lemma QueryWithoutFilters(s: set<Book>)
    ensures Query(s, "", "", "") == Success(s)
  {
    assert (set b | b in s && Selects(b, "", "", "")) == s;
  }

  /** An author filter alone selects exactly the books by that author (case-sensitive, exact). */
  lemma QueryByAuthor(s: set<Book>, author: string)
    requires author != ""
    ensures Query(s, author, "", "") == Success(set b | b in s && b.author == author)
  {
    assert (set b | b in s && Selects(b, author, "", "")) == (set b | b in s && b.author == author);
  }

  /** Two well-formed year bounds select exactly the books published in the inclusive range. */
  lemma QueryYearRange(s: set<Book>, startYear: string, endYear: string, lo: int, hi: int)
    requires ParseInt(startYear) == Some(lo) && ParseInt(endYear) == Some(hi)
    ensures Query(s, "", startYear, endYear) == Success(set b | b in s && lo <= b.publishedYear <= hi)
  {
    assert (set b | b in s && Selects(b, "", startYear, endYear))
        == (set b | b in s && lo <= b.publishedYear <= hi);
  }

  /** Filters whose year strings are empty or parse never make the query fail. */
  lemma QueryWellFormedSucceeds(s: set<Book>, author: string, startYear: string, endYear: string)
    requires !Malformed(startYear) && !Malformed(endYear)
    ensures Query(s, author, startYear, endYear).Success?
    ensures forall b :: b in Query(s, author, startYear, endYear).value <==> b in s && Selects(b, author, startYear, endYear)
  {
  }

  /**
   * Year strings accepted by `IsValidYear` (or left empty) never make the
   * query fail: the parser is the same one.
   */
  lemma ValidYearsNeverFail(s: set<Book>, author: string, startYear: string, endYear: string)
    requires startYear == "" || IsValidYear(startYear)
    requires endYear == "" || IsValidYear(endYear)
    ensures Query(s, author, startYear, endYear).Success?
  {
    QueryWellFormedSucceeds(s, author, startYear, endYear);
  }

  /**
   * When no stored book passes the author filter (in particular on an empty
   * store) no year string is ever parsed: the answer is the empty selection.
   */
  lemma QueryNothingReached(s: set<Book>, author: string, startYear: string, endYear: string)
    requires forall b :: b in s ==> !AuthorPasses(b, author)
    ensures Query(s, author, startYear, endYear) == Success({})
  {
    assert (set b | b in s && Selects(b, author, startYear, endYear)) == {};
  }

  /** A failure names a malformed year that some stored book actually reached. */
  lemma QueryFailureReached(s: set<Book>, author: string, startYear: string, endYear: string)
    requires Query(s, author, startYear, endYear).Failure?
    ensures Query(s, author, startYear, endYear).error == InvalidStartYear ==>
      Malformed(startYear) && exists b :: b in s && AuthorPasses(b, author)
    ensures Query(s, author, startYear, endYear).error == InvalidEndYear ==>
      !Malformed(startYear) && Malformed(endYear) &&
      exists b :: b in s && AuthorPasses(b, author) && StartPasses(b, startYear)
    ensures Query(s, author, startYear, endYear).error in {InvalidStartYear, InvalidEndYear}
  {
  }

  // ---------------------------------------------------------------------
  // Lemmas used by the loops
  // ---------------------------------------------------------------------

  /** Visiting one more key adds its book, which was not among the books visited so far. */
  lemma ValuesAtInsert(books: map<int, Book>, done: set<int>, k: int)
    requires KeyedById(books) && k in books && k !in done
    ensures ValuesAt(books, done + {k}) == ValuesAt(books, done) + {books[k]}
    ensures books[k] !in ValuesAt(books, done)
  {
    forall j | j in done && j in books
      ensures books[j] != books[k]
    {
      assert books[j].id == j != k == books[k].id;
    }
  }

  /** Visiting every key yields every stored book. */
  lemma ValuesAtAll(books: map<int, Book>)
    ensures ValuesAt(books, books.Keys) == books.Values
  {
    forall b | b in books.Values
      ensures b in ValuesAt(books, books.Keys)
    {
      if forall k :: !(k in books && books[k] == b) {
        assert false;
      }
      var k :| k in books && books[k] == b;
    }
  }

  /** A non-empty set has a member to pick. */
  lemma HasMember(s: set<int>)
    requires s != {}
    ensures exists x :: x in s
  {
    if forall x :: x !in s {
      assert false;
    }
  }

  lemma MultisetOfInsert(s: set<Book>, b: Book)
    requires b !in s
    ensures multiset(s + {b}) == multiset(s) + multiset{b}
  {
    assert forall x :: multiset(s + {b})[x] == (multiset(s) + multiset{b})[x];
  }

  /**
   * One more stored book changes a successful query exactly as one loop
   * iteration does: it is skipped by a failing filter, reaches a malformed
   * year and fails, or is added to the selection.
   */
  lemma QueryInsert(s: set<Book>, b: Book, author: string, startYear: string, endYear: string)
    requires Query(s, author, startYear, endYear).Success?
    ensures Query(s + {b}, author, startYear, endYear) ==
      if !AuthorPasses(b, author) then Query(s, author, startYear, endYear)
      else if Malformed(startYear) then Failure(InvalidStartYear)
      else if !StartPasses(b, startYear) then Query(s, author, startYear, endYear)
      else if Malformed(endYear) then Failure(InvalidEndYear)
      else if !EndPasses(b, endYear) then Query(s, author, startYear, endYear)
      else Success(Query(s, author, startYear, endYear).value + {b})
  {
    var t := s + {b};
    if !AuthorPasses(b, author) || (!Malformed(startYear) && !StartPasses(b, startYear))
      || (!Malformed(startYear) && !Malformed(endYear) && !EndPasses(b, endYear))
    {
      assert (set x | x in t && Selects(x, author, startYear, endYear))
          == (set x | x in s && Selects(x, author, startYear, endYear));
    } else if !Malformed(startYear) && !Malformed(endYear) {
      assert (set x | x in t && Selects(x, author, startYear, endYear))
          == (set x | x in s && Selects(x, author, startYear, endYear)) + {b};
    }
  }

  /** A failing query keeps failing, with the same error, when more books are stored. */
  lemma QueryFailureGrows(s: set<Book>, t: set<Book>, author: string, startYear: string, endYear: string)
    requires s <= t
    requires Query(s, author, startYear, endYear).Failure?
    ensures Query(t, author, startYear, endYear) == Query(s, author, startYear, endYear)
  {
    if Malformed(startYear) && exists b :: b in s && AuthorPasses(b, author) {
      var b :| b in s && AuthorPasses(b, author);
      assert b in t;
    } else {
      var b :| b in s && AuthorPasses(b, author) && StartPasses(b, startYear);
      assert b in t;
    }
  }
}
