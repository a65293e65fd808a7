/** The shared value types of the app: loading state, API errors, books and highlights. */
module Models {
  import opened Wrappers

  /** A point in time. Only the order of dates matters to the modelled code. */
  type Date = int

  /** Progress of the data manager's loads, or the message of the last failure. */
  datatype LoadingState = Idle | LoadingBooks | LoadingHighlights | Error(message: string)

  /** `LoadingState.isLoading`: a load is in flight. */
  function IsLoading(s: LoadingState): (r: bool)
    ensures r <==> s == LoadingBooks || s == LoadingHighlights
  {
    match s
    case Idle => false
    case Error(_) => false
    case _ => true
  }

  /** The hand-written `==` on `LoadingState`. */
  function LoadingStateEquals(a: LoadingState, b: LoadingState): (r: bool)
    ensures r <==> a == b
  {
    match (a, b)
    case (Idle, Idle) => true
    case (LoadingBooks, LoadingBooks) => true
    case (LoadingHighlights, LoadingHighlights) => true
    case (Error(m1), Error(m2)) => m1 == m2
    case _ => false
  }

  /** Errors of the remote reading service's client. */
  datatype ValidationError =
    | NoKey
    | InvalidKey
    | NetworkError(detail: string)
    | InvalidResponse
    | ServerError(code: int)
    | InvalidURL
    | NoData

  /** The hand-written `==` on `ValidationError`. */
  function ValidationErrorEquals(a: ValidationError, b: ValidationError): (r: bool)
    ensures r <==> a == b
  {
    match (a, b)
    case (NoKey, NoKey) => true
    case (InvalidKey, InvalidKey) => true
    case (InvalidResponse, InvalidResponse) => true
    case (InvalidURL, InvalidURL) => true
    case (NoData, NoData) => true
    case (ServerError(c1), ServerError(c2)) => c1 == c2
    case (NetworkError(m1), NetworkError(m2)) => m1 == m2
    case _ => false
  }

  /** A book as the UI shows it. */
  datatype BookPreview = BookPreview(
    id: int,
    title: string,
    author: string,
    category: string,
    coverImageURL: Option<string>,
    readwiseId: Option<int>,
    numHighlights: int,
    lastHighlightAt: Option<Date>)

  /** `BookPreview.init`: the identity is the service's id, or -1 when there is none. */
  function NewBookPreview(title: string, author: string, category: string,
                          coverImageURL: Option<string>, readwiseId: Option<int>,
                          numHighlights: int, lastHighlightAt: Option<Date>): (b: BookPreview)
    ensures readwiseId.Some? ==> b.id == readwiseId.value
    ensures readwiseId.None? ==> b.id == -1
    ensures b.readwiseId == readwiseId && b.title == title && b.author == author
    ensures b.category == category && b.coverImageURL == coverImageURL
    ensures b.numHighlights == numHighlights && b.lastHighlightAt == lastHighlightAt
  {
    BookPreview(readwiseId.GetOr(-1), title, author, category, coverImageURL,
                readwiseId, numHighlights, lastHighlightAt)
  }

  /** A highlighted passage as the UI shows it. */
  datatype HighlightItem = HighlightItem(
    text: string,
    page: int,
    chapter: int,
    chapterTitle: string,
    date: Date,
    readwiseId: Option<int>,
    bookId: Option<int>)
}
