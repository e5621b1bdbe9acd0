/**
 * The service layer: validates a candidate book before it reaches the
 * repository, and passes every other call straight through.
 */
module Service {
  import opened Wrappers
  import opened Model
  import opened Repository

  /** The domain rule a book must meet before it is stored. */
  predicate IsValidBook(b: Book) {
    b.title != "" && b.author != "" && b.publishedYear > 0
  }

  /** Every stored book meets the domain rule. */
  predicate AllValid(books: map<int, Book>) {
    forall k :: k in books ==> IsValidBook(books[k])
  }

  class BookService {
    const repo: BookRepository

    ghost predicate Valid()
      reads this, repo
    {
      repo.Valid()
    }

    /** `NewBookService`: a service over an existing repository. */
    constructor (repo: BookRepository)
      ensures this.repo == repo
    {
      this.repo := repo;
    }

    /**
     * Rejects a book with an empty title, an empty author or a non-positive
     * year without touching the repository; otherwise stores it.  A store
     * that held only valid books still does afterwards.
     */
    method AddBook(book: Book) returns (r: Result<Book, Error>)
      requires Valid()
      modifies repo
      ensures Valid()
      ensures r.Failure? <==> !IsValidBook(book)
      ensures r.Failure? ==> r.error == InvalidBookData
      ensures r.Failure? ==>
        repo.books == old(repo.books) && repo.nextID == old(repo.nextID) && repo.issued == old(repo.issued)
      ensures r.Success? ==>
        r.value == book.(id := old(repo.nextID)) && r.value.id !in old(repo.issued) &&
        repo.books == old(repo.books)[r.value.id := r.value] &&
        repo.nextID == old(repo.nextID) + 1 && repo.issued == old(repo.issued) + {r.value.id}
      ensures AllValid(old(repo.books)) ==> AllValid(repo.books)
    {
      if book.title == "" || book.author == "" || book.publishedYear <= 0 {
        return Failure(InvalidBookData);
      }
      var stored := repo.AddBook(book);
      return Success(stored);
    }

    /** Passes the lookup through: the repository's book or its `BookNotFound`. */
    method GetBookByID(id: int) returns (r: Result<Book, Error>)
      requires Valid()
      ensures r.Success? <==> id in repo.books
      ensures r.Success? ==> r.value == repo.books[id]
      ensures r.Failure? ==> r.error == BookNotFound
    {
      r := repo.GetBookByID(id);
    }

    /** Passes the deletion through; deleting keeps a store of valid books valid. */
    method DeleteBookByID(id: int) returns (err: Option<Error>)
      requires Valid()
      modifies repo
      ensures Valid()
      ensures err.None? <==> id in old(repo.books)
      ensures err.Some? ==> err.value == BookNotFound && repo.books == old(repo.books)
      ensures err.None? ==> repo.books == old(repo.books) - {id}
      ensures repo.nextID == old(repo.nextID) && repo.issued == old(repo.issued)
      ensures AllValid(old(repo.books)) ==> AllValid(repo.books)
    {
      err := repo.DeleteBookByID(id);
    }

    /** Passes the filtered query through, result and error unchanged. */
    method GetBooks(author: string, startYear: string, endYear: string) returns (r: Result<seq<Book>, Error>)
      requires Valid()
      ensures Answers(r, Query(repo.books.Values, author, startYear, endYear))
    {
      r := repo.GetBooks(author, startYear, endYear);
    }
  }
}
