/** The request and response records the front end exchanges with the proxy. */
module Requests {
  import opened Wrappers
  import opened Dicts
  import opened JsonValues

  /** The methods the front end can send. */
  datatype HttpMethod = GET | POST | PUT | PATCH | DELETE | HEAD | OPTIONS

  /** The method's name on the wire. */
  function MethodName(m: HttpMethod): (s: string)
    ensures |s| >= 3
  {
    match m
    case GET => "GET"
    case POST => "POST"
    case PUT => "PUT"
    case PATCH => "PATCH"
    case DELETE => "DELETE"
    case HEAD => "HEAD"
    case OPTIONS => "OPTIONS"
  }

  /** What the front end posts to the proxy; `headers` and `body` may be absent. */
  datatype ProxyRequest = ProxyRequest(
    service: string,
    httpMethod: HttpMethod,
    path: string,
    headers: Option<Dict<string>>,
    body: Option<Json>)

  datatype ProxyResponse = ProxyResponse(statusCode: int, headers: Dict<seq<string>>, body: Json)

  /** The editable request form: three string records and the body text. */
  datatype RequestForm = RequestForm(
    pathParams: Dict<string>,
    queryParams: Dict<string>,
    headers: Dict<string>,
    body: string)

  const InitialRequestForm: RequestForm := RequestForm([], [], [], "")

  /**
   * A request kept in the history.  `method` is free text here: it is compared
   * with the operations of a document after lower-casing.
   */
  datatype HistoryEntry = HistoryEntry(
    id: string,
    timestamp: int,
    service: string,
    httpMethod: string,
    path: string,
    request: ProxyRequest,
    response: ProxyResponse,
    status: int)
}
