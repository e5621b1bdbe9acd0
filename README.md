# LibraryGo book store, modelled in Dafny

This project models the core of LibraryGo, a small HTTP service that keeps books in memory. It covers three parts:

- **`BookRepository`** (`book_repository.dfy`, module `Repository`): a class holding a `map<int, Book>` and the `nextID` counter. It covers add, list, lookup, delete and the filtered query by author and inclusive year range. The object invariant `Valid()` says three things:
  - every key is the id of its book;
  - every stored id was issued;
  - every issued id lies in `[1, nextID)`.
  
  The ghost field `issued` records every id ever handed out, deleted ones included. That lets the contracts state plainly that ids are never reused.
- **`BookService`** (`book_service.dfy`, module `Service`): the validation gate in front of the repository. It rejects a book with an empty title, an empty author or a non-positive year, and passes every other call straight through.
- **`ResponseBuilder`** (`response.dfy`, module `Response`): the fluent builder of the `APIResponse` envelope. Each `With*` call overwrites one field and returns the same builder. `Send` forces the mirrored status to the code actually sent.

Supporting modules:

- `wrappers.dfy`: `Option` and `Result`. They stand for Go's nil pointers and `(value, error)` returns.
- `model.dfy`: the `Book`, `Error` and envelope records. `time.Time` and the untyped payload become the type parameters `T` and `D`.
- `utils.dfy`: `ParseInt`, the single integer parser shared by the query's year filters and `IsValidYear`.
- `scenario.dfy`: clients that use the classes only through their contracts. They replay the fixture and the expectations of the handler tests (`tests/books_handler_test.go`), and they show the id non-reuse and envelope rules.

The filtered query has an independent reference definition, `Repository.Query`, over the *set* of stored books. It is declarative:

- if the start year is malformed and some book passes the author filter, the query fails with `InvalidStartYear`;
- otherwise, if the end year is malformed and some book passes the author and start-year filters, it fails with `InvalidEndYear`;
- otherwise it succeeds with exactly the books that pass all three filters.

`GetBooks` visits the map in an arbitrary order (`var k :| k in todo`) and returns at the first malformed year it has to parse, just as the Go loop does. Its contract is that the list it returns `Answers` the query: the same error, or the selected books, each exactly once, in any order. Since Go's map order is unspecified, list results are compared as multisets.

`ParseInt` mirrors `strconv.Atoi` on a 64-bit platform: an optional sign, then at least one decimal digit, and a result within the 64-bit range. No repository or service property depends on this grammar. Each is stated for whatever `ParseInt` answers.

Two behaviours of the code are worth stating plainly:

- The repository parses a year only when a book reaches that test (`internal/repository/book_repository.go:89-104`): the start year for a book whose author passes, the end year for a book whose author and start year pass. So `BookRepository.GetBooks` on its own returns an empty list for a malformed year when the store is empty or no book matches the author. The HTTP handler rejects malformed years before it calls the service (`internal/handler/books_handler.go:49-57`); `Repository.ValidYearsNeverFail` shows that, with the same parser, a query that passed that check never fails.
- The builder does not keep data and error apart: one envelope can carry both (`Scenario.DataAndErrorTogether`).

## Model

| member | source | states |
|---|---|---|
| `Utils.ParseInt` | internal/utils/utils.go:5-8 | the shared stand-in for `strconv.Atoi`; the empty string never parses, and every accepted value lies in the 64-bit signed range |
| `Repository.Query` | internal/repository/book_repository.go:76-120 | reference answer of the filtered query: the start-year error when a malformed start year is reached by an author-matching book, else the end-year error when a malformed end year is reached by a book passing author and start year, else the set of books passing all three filters, which is always a subset of the stored books |
| `Repository.BookRepository.constructor` | internal/repository/book_repository.go:18-23 | a new repository stores no books, has issued no ids and has `nextID == 1` |
| `Repository.BookRepository.AddBook` | internal/repository/book_repository.go:26-35 | the returned book is the input with `id == old(nextID)`, whatever id the caller gave; that id was never issued before; it is stored under that key; `nextID` grows by exactly 1; every other entry is unchanged; the invariant is kept |
| `Repository.BookRepository.GetAllBooks` | internal/repository/book_repository.go:38-47 | the returned list holds exactly the stored books, each once (`multiset(list) == multiset(books.Values)`), its length is the number of keys, and the state is not changed |
| `Repository.BookRepository.GetBookByID` | internal/repository/book_repository.go:50-60 | succeeds if and only if the id is stored, returning the stored book (whose id is that id); otherwise fails with `BookNotFound`; reads only |
| `Repository.BookRepository.DeleteBookByID` | internal/repository/book_repository.go:63-73 | succeeds if and only if the id was stored, removing exactly that key; on an absent id returns `BookNotFound` and leaves the map unchanged; `nextID` and the issued ids are never changed |
| `Repository.BookRepository.GetBooks` | internal/repository/book_repository.go:76-120 | the result answers `Query` over the stored books: the same error, or a list holding exactly the selected books, each once, in any order; an empty selection is an empty list; reads only |
| `Repository.QueryWithoutFilters` | internal/repository/book_repository.go:82-112 | with all three filter strings empty the query returns the whole collection |
| `Repository.QueryByAuthor` | internal/repository/book_repository.go:84-86 | an author filter alone selects exactly the books whose author equals it |
| `Repository.QueryYearRange` | internal/repository/book_repository.go:89-108 | with a start year parsing to `lo` and an end year parsing to `hi`, the query selects exactly the books with `lo <= publishedYear <= hi` |
| `Repository.QueryWellFormedSucceeds` | internal/repository/book_repository.go:89-108 | year strings that are empty or parse never make the query fail, and a book is selected if and only if it passes all three filters |
| `Repository.ValidYearsNeverFail` | internal/handler/books_handler.go:49-62 | year strings that are empty or accepted by `IsValidYear` never make the query fail, so the handler's failure branch after its own year check cannot be taken |
| `Repository.QueryNothingReached` | internal/repository/book_repository.go:82-117 | when no stored book passes the author filter (in particular, on an empty store) the query succeeds with the empty selection, whatever the year strings |
| `Repository.QueryFailureReached` | internal/repository/book_repository.go:89-104 | a failure is one of the two year errors, and names a malformed year that some stored book actually reached |
| `Repository.QueryInsert` | internal/repository/book_repository.go:82-111 | one more stored book changes a successful query exactly as one loop iteration does: skipped by a failing filter, failing at a malformed year it reaches, or added to the selection |
| `Repository.QueryFailureGrows` | internal/repository/book_repository.go:90-104 | a failed query fails with the same error over any larger collection, so the error the loop returns does not depend on the visiting order |
| `Service.BookService.constructor` | internal/service/book_service.go:15-17 | a service wraps exactly the given repository |
| `Service.BookService.AddBook` | internal/service/book_service.go:20-26 | fails with `InvalidBookData` if and only if the title is empty, the author is empty or the year is not positive, leaving the repository (map, counter and issued ids) unchanged; otherwise returns exactly what `repo.AddBook` returns, with the repository updated as `AddBook` states; a store that held only valid books still does |
| `Service.BookService.GetBookByID` | internal/service/book_service.go:29-31 | the repository's lookup result and error, unchanged |
| `Service.BookService.DeleteBookByID` | internal/service/book_service.go:34-36 | the repository's deletion result and effect, unchanged; a store that held only valid books still does |
| `Service.BookService.GetBooks` | internal/service/book_service.go:39-41 | the repository's query result and error, unchanged |
| `Response.ResponseBuilder.constructor` | internal/utils/response.go:18-25 | a new envelope is not successful, has a zero status and no data, error or metadata, and carries the request id and timestamp given at construction |
| `Response.ResponseBuilder.WithSuccess` | internal/utils/response.go:28-31 | overwrites only the success flag and returns the same builder |
| `Response.ResponseBuilder.WithStatus` | internal/utils/response.go:34-40 | sets the status code to `code` and its message to `StatusText(code)`, changes nothing else, and returns the same builder |
| `Response.ResponseBuilder.WithData` | internal/utils/response.go:43-46 | overwrites only the payload and returns the same builder |
| `Response.ResponseBuilder.WithError` | internal/utils/response.go:49-56 | sets the error to exactly `{code, message, details}`, leaves data, metadata and every other field unchanged, and returns the same builder |
| `Response.ResponseBuilder.WithMeta` | internal/utils/response.go:59-62 | overwrites only the metadata and returns the same builder |
| `Response.ResponseBuilder.Send` | internal/utils/response.go:65-70 | the sent envelope is the builder's envelope with the status forced to `{statusCode, StatusText(statusCode)}` and every other field unchanged; request id and timestamp stay fixed |
| `Scenario.TestYearsParse` | tests/books_handler_test.go:119-131 | the year strings used by the tests: "2022", "2023" and "2024" parse to those years, and "invalid" does not parse |
| `Scenario.SetupTestBooks` | tests/books_handler_test.go:279-307 | the three fixture books, added through the service, are stored under ids 1, 2 and 3 |
| `Scenario.FixtureListAll` | tests/books_handler_test.go:105-110 | listing the fixture without filters returns all three books |
| `Scenario.FixtureByAuthor` | tests/books_handler_test.go:112-117 | the author filter "Test Author 1" returns exactly book 1 |
| `Scenario.FixtureByYearRange` | tests/books_handler_test.go:119-124 | the range 2023 to 2024 returns exactly books 1 and 2 |
| `Scenario.FixtureInvalidYear` | tests/books_handler_test.go:126-131 | on the test fixture the repository itself fails with the start-year error for a start year "invalid" (in the test the 400 comes earlier, from the handler's `IsValidYear` check, which is not part of this model) |
| `Scenario.FixtureNoResults` | tests/books_handler_test.go:133-138 | an author nobody matches returns an empty list, not an error |
| `Scenario.FixtureLookups` | tests/books_handler_test.go:180-250 | id 1 is found and then deleted; id 999 is neither found nor deleted; after the deletion id 1 is not found |
| `Scenario.RejectsInvalidBooks` | internal/service/book_service.go:21-22 | (the no-title and no-author cases are the tests at tests/books_handler_test.go:32-49) books without a title, without an author or with year 0 are rejected with `InvalidBookData`, and the store stays empty |
| `Scenario.DeleteThenAdd` | internal/repository/book_repository.go:30-32 | after the book with a given id is deleted, the next book added never receives that id |
| `Scenario.SendOverridesStatus` | internal/utils/response.go:66 | a status set by an earlier `WithStatus` is replaced by the code given to `Send`, and the builder calls leave the request id and timestamp as constructed |
| `Scenario.DataAndErrorTogether` | internal/utils/response.go:49-56 | the builder does not keep data and error apart: one envelope can carry both |

## Left out

- The `sync.Mutex` in the repository: each method is one atomic sequential step, so concurrent interleavings are not modelled.
- Go's `int` width for `nextID` and for book years: these use unbounded integers, so the counter never overflows.
- `Utils.ParseInt`: models the `strconv.Atoi` grammar with the 64-bit range, but not its error values. Failure is a bare `None`.
- `IsValidYear` (`internal/utils/utils.go`): modelled as the predicate `Utils.IsValidYear` over the shared `ParseInt`. It has no contract of its own.
- `uuid.New` and `time.Now` in `NewResponse`: the request id and timestamp are constructor arguments.
- `http.StatusText`: an uninterpreted function given to the builder's constructor.
- `Response.ResponseBuilder.Send`: models only the envelope it encodes. Header writing, `WriteHeader` and the JSON encoder's error are I/O and are not modelled.
- `Response.ResponseBuilder.WithData`: a Go `interface{}` payload becomes `Option<D>`, with `None` standing for a nil interface. A typed nil inside a non-nil interface is not distinguished. The payload is a copied value here, while the Go envelope may hold a pointer, slice or map shared with the caller, so a later change by the caller would show in the Go envelope without any `With*` call; that aliasing is not modelled.
- `Response.ResponseBuilder.WithMeta`: the metadata is a copied `MetaData` value here, while Go stores the caller's `*MetaData` pointer, so the caller's later changes to it show in the Go envelope; that aliasing is not modelled.
- Errors are values of the `Model.Error` datatype. Their Go texts are kept in `Error.Message`. When an error is returned, the Go zero-value `Book{}` and the nil slice are not modelled.
- The HTTP handler, router and `main` are transport glue and are not part of this model, including the handler's up-front `IsValidYear` check of both year strings (`internal/handler/books_handler.go:49-57`), which answers 400 whatever the store holds. The model follows the repository's behaviour: an empty query result is a successful empty list, where the handler answers with a 404.
- `NewBookService`'s nil-repository case: the model always passes a repository.
