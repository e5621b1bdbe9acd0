/**
 * Clients of the three classes, checked only through their contracts: the
 * fixture of the handler tests (three books, then queries, lookups and
 * deletions), id non-reuse, and the envelope rules.
 */
module Scenario {
  import opened Wrappers
  import opened Model
  import opened Utils
  import opened Repository
  import opened Service
  import opened Response

  /** The year strings the handler tests send. */
  lemma {:induction false} TestYearsParse()
    ensures ParseInt("2022") == Some(2022)
    ensures ParseInt("2023") == Some(2023)
    ensures ParseInt("2024") == Some(2024)
    ensures ParseInt("invalid") == None
  {
    assert ParseDigits("2022") == Some(2022) by {
      assert DigitsValue("2") == 2 && DigitsValue("20") == 20 && DigitsValue("202") == 202;
      assert "2022"[..3] == "202" && "202"[..2] == "20" && "20"[..1] == "2";
    }
    assert ParseDigits("2023") == Some(2023) by {
      assert DigitsValue("2") == 2 && DigitsValue("20") == 20 && DigitsValue("202") == 202;
      assert "2023"[..3] == "202" && "202"[..2] == "20" && "20"[..1] == "2";
    }
    assert ParseDigits("2024") == Some(2024) by {
      assert DigitsValue("2") == 2 && DigitsValue("20") == 20 && DigitsValue("202") == 202;
      assert "2024"[..3] == "202" && "202"[..2] == "20" && "20"[..1] == "2";
    }
    assert !IsDigit("invalid"[0]);
  }

  const Book1 := Book(1, "Test Book 1", "Test Author 1", 2024)
  const Book2 := Book(2, "Test Book 2", "Test Author 2", 2023)
  const Book3 := Book(3, "Test Book 3", "Test Author 3", 2022)

  /** The handler tests' fixture: three valid books added through the service get ids 1, 2 and 3. */
  method SetupTestBooks() returns (service: BookService)
    ensures fresh(service) && fresh(service.repo) && service.Valid()
    ensures service.repo.books == map[1 := Book1, 2 := Book2, 3 := Book3]
  {
    var repo := new BookRepository();
    service := new BookService(repo);
    var _ := service.AddBook(Book(0, "Test Book 1", "Test Author 1", 2024));
    var _ := service.AddBook(Book(0, "Test Book 2", "Test Author 2", 2023));
    var _ := service.AddBook(Book(0, "Test Book 3", "Test Author 3", 2022));
  }

  lemma FixtureValues()
    ensures map[1 := Book1, 2 := Book2, 3 := Book3].Values == {Book1, Book2, Book3}
  {
    var m := map[1 := Book1, 2 := Book2, 3 := Book3];
    assert m[1] == Book1 && m[2] == Book2 && m[3] == Book3;
  }

  /** Listing the fixture without filters returns all three books. */
  method FixtureListAll() returns (r: Result<seq<Book>, Error>)
    ensures r.Success? && multiset(r.value) == multiset{Book1, Book2, Book3}
  {
    var service := SetupTestBooks();
    FixtureValues();
    r := service.GetBooks("", "", "");
    QueryWithoutFilters({Book1, Book2, Book3});
  }

  /** The author filter finds the one book by "Test Author 1". */
  method FixtureByAuthor() returns (r: Result<seq<Book>, Error>)
    ensures r.Success? && multiset(r.value) == multiset{Book1}
  {
    var service := SetupTestBooks();
    FixtureValues();
    r := service.GetBooks("Test Author 1", "", "");
    QueryByAuthor({Book1, Book2, Book3}, "Test Author 1");
    assert (set b | b in {Book1, Book2, Book3} && b.author == "Test Author 1") == {Book1};
  }

  /** The range 2023-2024 finds the two books published in it. */
  method FixtureByYearRange() returns (r: Result<seq<Book>, Error>)
    ensures r.Success? && multiset(r.value) == multiset{Book1, Book2}
  {
    var service := SetupTestBooks();
    FixtureValues();
    TestYearsParse();
    r := service.GetBooks("", "2023", "2024");
    QueryYearRange({Book1, Book2, Book3}, "2023", "2024", 2023, 2024);
    assert (set b | b in {Book1, Book2, Book3} && 2023 <= b.publishedYear <= 2024) == {Book1, Book2};
    MultisetOfPair(Book1, Book2);
  }

  lemma MultisetOfPair(a: Book, b: Book)
    requires a != b
    ensures multiset({a, b}) == multiset{a, b}
  {
    assert forall x :: multiset({a, b})[x] == multiset{a, b}[x];
  }

  /** A start year that does not parse fails once some book reaches it. */
  method FixtureInvalidYear() returns (r: Result<seq<Book>, Error>)
    ensures r == Failure(InvalidStartYear)
  {
    var service := SetupTestBooks();
    FixtureValues();
    TestYearsParse();
    r := service.GetBooks("", "invalid", "");
    assert Book1 in {Book1, Book2, Book3} && AuthorPasses(Book1, "");
  }

  /** An author nobody matches gives an empty list, not an error. */
  method FixtureNoResults() returns (r: Result<seq<Book>, Error>)
    ensures r == Success([])
  {
    var service := SetupTestBooks();
    FixtureValues();
    r := service.GetBooks("Nonexistent Author", "", "");
    QueryNothingReached({Book1, Book2, Book3}, "Nonexistent Author", "", "");
    assert |multiset(r.value)| == 0;
  }

  /**
   * The handler tests' lookups and deletions: id 1 is found and deleted,
   * id 999 is neither found nor deleted, and id 1 is gone afterwards.
   */
  method FixtureLookups() returns (found: Result<Book, Error>, missing: Result<Book, Error>,
                                   deleted: Option<Error>, notDeleted: Option<Error>, gone: Result<Book, Error>)
    ensures found == Success(Book1)
    ensures missing == Failure(BookNotFound)
    ensures deleted == None
    ensures notDeleted == Some(BookNotFound)
    ensures gone == Failure(BookNotFound)
  {
    var service := SetupTestBooks();
    found := service.GetBookByID(1);
    missing := service.GetBookByID(999);
    deleted := service.DeleteBookByID(1);
    notDeleted := service.DeleteBookByID(999);
    gone := service.GetBookByID(1);
  }

  /** An invalid candidate is rejected and the store stays empty. */
  method RejectsInvalidBooks() returns (noTitle: Result<Book, Error>, noAuthor: Result<Book, Error>,
                                        noYear: Result<Book, Error>, stored: map<int, Book>)
    ensures noTitle == Failure(InvalidBookData)
    ensures noAuthor == Failure(InvalidBookData)
    ensures noYear == Failure(InvalidBookData)
    ensures stored == map[]
  {
    var repo := new BookRepository();
    var service := new BookService(repo);
    noTitle := service.AddBook(Book(0, "", "Test Author", 2024));
    noAuthor := service.AddBook(Book(0, "Test Book", "", 2024));
    noYear := service.AddBook(Book(0, "Test Book", "Test Author", 0));
    stored := repo.books;
  }

  /** After a book is deleted, the next book added never gets its id back. */
  method DeleteThenAdd(repo: BookRepository, id: int, book: Book) returns (err: Option<Error>, stored: Book)
    requires repo.Valid()
    modifies repo
    ensures repo.Valid()
    ensures err.None? ==> stored.id != id
  {
    err := repo.DeleteBookByID(id);
    stored := repo.AddBook(book);
  }

  /**
   * A status set early is overridden by the code passed to `Send`, and no
   * builder call changes the request id or timestamp.
   */
  method SendOverridesStatus<D, T>(requestId: string, timestamp: T, statusText: int -> string,
                                   early: int, code: int, data: D) returns (sent: APIResponse<D, T>)
    ensures sent.status == StatusInfo(code, statusText(code))
    ensures sent.success && sent.data == Some(data) && sent.error == None && sent.meta == None
    ensures sent.requestId == requestId && sent.timestamp == timestamp
  {
    var rb := new ResponseBuilder(requestId, timestamp, statusText);
    rb := rb.WithStatus(early);
    rb := rb.WithSuccess(true);
    rb := rb.WithData(Some(data));
    sent := rb.Send(code);
  }

  /** The builder does not keep data and error apart: both can be set on one envelope. */
  method DataAndErrorTogether<D, T>(requestId: string, timestamp: T, statusText: int -> string,
                                    data: D, code: string, message: string) returns (sent: APIResponse<D, T>)
    ensures sent.data == Some(data) && sent.error == Some(ErrorInfo(code, message, ""))
    ensures !sent.success
  {
    var rb := new ResponseBuilder(requestId, timestamp, statusText);
    rb := rb.WithData(Some(data));
    rb := rb.WithError(code, message, "");
    sent := rb.Send(400);
  }
}
