/**
 * The plain records of the service: the book entity, the errors the core
 * returns, and the response envelope.  `time.Time` and the untyped payload
 * (`interface{}`) are the type parameters `T` and `D`.
 */
module Model {
  import opened Wrappers

  /** A book; `id` is assigned by the repository. */
  datatype Book = Book(id: int, title: string, author: string, publishedYear: int)

  /** The errors the repository and the service create with `errors.New`. */
  datatype Error = BookNotFound | InvalidStartYear | InvalidEndYear | InvalidBookData
  {
    /** The text each error carries. */
    function Message(): string {
      match this
      case BookNotFound => "book not found"
      case InvalidStartYear => "invalid startYear format"
      case InvalidEndYear => "invalid endYear format"
      case InvalidBookData => "invalid book data"
    }
  }

  /** HTTP status mirrored into the envelope. */
  datatype StatusInfo = StatusInfo(code: int, message: string)

  /** Error detail of an envelope. */
  datatype ErrorInfo = ErrorInfo(code: string, message: string, details: string)

  /** Optional metadata of an envelope; the two page links are nullable pointers in Go. */
  datatype MetaData<T> = MetaData(
    total: int, count: int, page: int, perPage: int, totalPages: int,
    nextPage: Option<int>, prevPage: Option<int>, processedAt: T)

  /** The envelope every reply is wrapped in; `None` is an omitted (nil) field. */
  datatype APIResponse<D, T> = APIResponse(
    success: bool,
    status: StatusInfo,
    data: Option<D>,
    error: Option<ErrorInfo>,
    meta: Option<MetaData<T>>,
    requestId: string,
    timestamp: T)
}
