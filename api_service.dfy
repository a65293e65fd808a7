/**
 * The client of the remote reading service (`ReadwiseAPIService`): the API
 * key lookup and the classification of a response into a decoded body or a
 * `ValidationError`. The HTTP exchange itself is an input.
 */
module APIService {
  import opened Wrappers
  import opened Text
  import opened Bytes
  import opened Models

  const BaseURL := "https://readwise.io/api/v2/"
  const BooksEndpoint := "books/"
  const HighlightsEndpoint := "highlights/"

  /** What reading the keychain produced: the stored text, or `None` when the read threw. */
  type KeychainRead = Option<string>

  /** `getAPIKey`: any keychain error reads as the empty key. */
  function GetAPIKey(k: KeychainRead): (key: string)
    ensures k.None? ==> key == ""
    ensures k.Some? ==> key == k.value
  {
    k.GetOr("")
  }

  /** `hasAPIKey`: a non-empty key could be read. */
  function HasAPIKey(k: KeychainRead): (r: bool)
    ensures r <==> k.Some? && k.value != ""
  {
    GetAPIKey(k) != ""
  }

  /** The response object the transport handed back. */
  datatype Response = NoResponse | NonHTTPResponse | HTTPResponse(statusCode: int)

  /** One completed data task: the transport error's description, the response and the body. */
  datatype Transport = Transport(error: Option<string>, response: Response, data: Option<Bytes>)

  /** A status in the 2xx (Successful) class of section 15.3 of RFC 9110. */
  predicate IsSuccessStatus(code: int) {
    200 <= code <= 299
  }

  /** The status of section 15.5.2 of RFC 9110, 401 Unauthorized. */
  const Unauthorized := 401

  /**
   * The guard chain of a data task's completion handler: transport error,
   * non-HTTP response, non-2xx status, missing body, undecodable body, in
   * this order; the first that applies decides. `decode` is the JSON decoder.
   */
  function Classify<T>(t: Transport, decode: Bytes -> Option<T>): (r: Result<T, ValidationError>)
    ensures r.Success? <==>
              && t.error.None? && t.response.HTTPResponse?
              && IsSuccessStatus(t.response.statusCode)
              && t.data.Some? && decode(t.data.value).Some?
    ensures r.Success? ==> r.value == decode(t.data.value).value
    ensures t.error.Some? ==> r == Failure(NetworkError(t.error.value))
    ensures r == Failure(InvalidKey) <==> t.error.None? && t.response == HTTPResponse(Unauthorized)
    ensures r.Failure? && r.error.ServerError? <==>
              && t.error.None? && t.response.HTTPResponse?
              && !IsSuccessStatus(t.response.statusCode) && t.response.statusCode != Unauthorized
    ensures r.Failure? && r.error.ServerError? ==> r.error.code == t.response.statusCode
    ensures r.Failure? ==> r.error != NoKey && r.error != InvalidURL
    ensures t.error.None? && !t.response.HTTPResponse? ==> r == Failure(InvalidResponse)
    ensures t.error.None? && t.response.HTTPResponse? && IsSuccessStatus(t.response.statusCode) ==>
              && (t.data.None? ==> r == Failure(NoData))
              && (t.data.Some? && decode(t.data.value).None? ==> r == Failure(InvalidResponse))
  {
    if t.error.Some? then Failure(NetworkError(t.error.value))
    else if !t.response.HTTPResponse? then Failure(InvalidResponse)
    else if !IsSuccessStatus(t.response.statusCode) then
      (if t.response.statusCode == Unauthorized then Failure(InvalidKey)
       else Failure(ServerError(t.response.statusCode)))
    else if t.data.None? then Failure(NoData)
    else match decode(t.data.value)
      case None => Failure(InvalidResponse)
      case Some(body) => Success(body)
  }

  /** What a fetch did: the URL it requested, if it got that far, and its result. */
  datatype Fetch<T> = Fetch(request: Option<string>, result: Result<T, ValidationError>)

  const BooksURL := BaseURL + BooksEndpoint

  /** `fetchBooks`: without a key nothing is requested; otherwise the response is classified. */
  function FetchBooks<T>(k: KeychainRead, t: Transport, decode: Bytes -> Option<T>): (f: Fetch<T>)
    ensures !HasAPIKey(k) ==> f == Fetch(None, Failure(NoKey))
    ensures HasAPIKey(k) ==> f.request == Some(BooksURL) && f.result == Classify(t, decode)
    ensures f.result.Success? ==> HasAPIKey(k) && t.response.HTTPResponse? && IsSuccessStatus(t.response.statusCode)
  {
    if !HasAPIKey(k) then Fetch(None, Failure(NoKey))
    else Fetch(Some(BooksURL), Classify(t, decode))
  }

  /** The query of `fetchHighlightsForBook`: the single item `book_id=<id>`. */
  function HighlightsQuery(bookId: int): (q: seq<(string, string)>)
    ensures |q| == 1 && q[0].0 == "book_id" && q[0].1 == IntToString(bookId)
  {
    [("book_id", IntToString(bookId))]
  }

  /** Different books are asked for with different queries. */
  lemma HighlightsQueryDistinct(a: int, b: int)
    requires a != b
    ensures HighlightsQuery(a) != HighlightsQuery(b)
    ensures HighlightsURL(a) != HighlightsURL(b)
  {
    IntToStringInjective(a, b);
    var prefix := BaseURL + HighlightsEndpoint + "?" + "book_id" + "=";
    assert HighlightsURL(a) == prefix + IntToString(a);
    assert HighlightsURL(b) == prefix + IntToString(b);
    assert HighlightsURL(a)[|prefix|..] == IntToString(a);
    assert HighlightsURL(b)[|prefix|..] == IntToString(b);
  }

  /** The request URL of `fetchHighlightsForBook`. */
  function HighlightsURL(bookId: int): string {
    var q := HighlightsQuery(bookId);
    BaseURL + HighlightsEndpoint + "?" + q[0].0 + "=" + q[0].1
  }

  /** `fetchHighlightsForBook`: the same guards as `fetchBooks`, for one book's highlights. */
  function FetchHighlightsForBook<T>(k: KeychainRead, bookId: int, t: Transport,
                                     decode: Bytes -> Option<T>): (f: Fetch<T>)
    ensures !HasAPIKey(k) ==> f == Fetch(None, Failure(NoKey))
    ensures HasAPIKey(k) ==> f.request == Some(HighlightsURL(bookId)) && f.result == Classify(t, decode)
  {
    if !HasAPIKey(k) then Fetch(None, Failure(NoKey))
    else Fetch(Some(HighlightsURL(bookId)), Classify(t, decode))
  }
}
