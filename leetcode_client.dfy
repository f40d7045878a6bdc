/**
 * LeetCodeClient: how a GraphQL reply is classified (session expired, HTTP
 * error, GraphQL error, or usable), and the three fetches the sync pass makes,
 * as replies chosen by an oracle. The HTTP exchange and JSON parsing are not
 * modelled; a reply is described by its status code and the shape of its body.
 */
module LeetCodeClient {

  import opened Text
  import opened Models

  /** The `message` property of the first entry of `errors`. */
  datatype MessageField = NoMessage | NullMessage | StringMessage(text: string) | NonStringMessage

  /** The first entry of `errors`: a JSON object, or some other JSON value. */
  datatype ErrorEntry = ErrorObject(message: MessageField) | NonObjectEntry

  /** The `errors` property of the reply body. */
  datatype ErrorsField = NoErrorsProperty | ErrorArray(entries: seq<ErrorEntry>) | ErrorsNotArray

  /** The reply body as `JsonDocument.Parse` sees it. */
  datatype ResponseBody = InvalidJson | NonObjectRoot | JsonObject(errors: ErrorsField)

  datatype HttpResponse = HttpResponse(statusCode: int, body: ResponseBody)

  /**
   * The failures a LeetCode call can raise: `LeetCodeSessionExpiredException`,
   * `HttpRequestException`, the GraphQL `InvalidOperationException` carrying
   * the first error message, and every other parse or shape failure.
   */
  datatype ApiError = SessionExpired | HttpError(statusCode: int) | GraphQLError(message: string) | BadResponse

  datatype Classification = Proceed | Reject(error: ApiError)

  const Unauthorized: int := 401
  const Forbidden: int := 403

  /** `HttpResponseMessage.IsSuccessStatusCode`. */
  predicate IsSuccessStatusCode(code: int) {
    200 <= code <= 299
  }

  /** The text a GraphQL error message is judged by; `None` when reading it throws. */
  function ErrorMessageText(entry: ErrorEntry): Option<string> {
    match entry
    case NonObjectEntry => None
    case ErrorObject(NoMessage) => Some("Unknown error")
    case ErrorObject(NullMessage) => Some("Unknown error")
    case ErrorObject(StringMessage(text)) => Some(text)
    case ErrorObject(NonStringMessage) => None
  }

  /** An error message that LeetCode uses when the session cookie is no longer valid. */
  predicate MentionsSignIn(message: string) {
    ContainsIgnoreCase(message, "sign in")
    || ContainsIgnoreCase(message, "login")
    || ContainsIgnoreCase(message, "authenticated")
  }

  /** The first error entry of a reply whose body carries a non-empty `errors` array. */
  predicate HasFirstError(r: HttpResponse) {
    r.body.JsonObject? && r.body.errors.ErrorArray? && |r.body.errors.entries| > 0
  }

  /** The status checks and body checks of `SendGraphQLAsync`, in the order the source makes them. */
  function Classify(r: HttpResponse): (c: Classification)
    ensures r.statusCode == Unauthorized || r.statusCode == Forbidden ==> c == Reject(SessionExpired)
    ensures r.statusCode != Unauthorized && r.statusCode != Forbidden && !IsSuccessStatusCode(r.statusCode)
      ==> c == Reject(HttpError(r.statusCode))
    ensures c == Reject(SessionExpired) <==>
      r.statusCode == Unauthorized || r.statusCode == Forbidden
      || (IsSuccessStatusCode(r.statusCode) && HasFirstError(r)
          && ErrorMessageText(r.body.errors.entries[0]).Some?
          && MentionsSignIn(ErrorMessageText(r.body.errors.entries[0]).value))
    ensures c == Proceed <==>
      IsSuccessStatusCode(r.statusCode) && r.body.JsonObject?
      && (r.body.errors.NoErrorsProperty? || r.body.errors == ErrorArray([]))
    ensures c.Reject? && c.error.GraphQLError? ==>
      IsSuccessStatusCode(r.statusCode) && HasFirstError(r)
      && ErrorMessageText(r.body.errors.entries[0]) == Some(c.error.message)
      && !MentionsSignIn(c.error.message)
    ensures IsSuccessStatusCode(r.statusCode) && HasFirstError(r) ==>
      var text := ErrorMessageText(r.body.errors.entries[0]);
      text.Some? && !MentionsSignIn(text.value) ==> c == Reject(GraphQLError(text.value))
    ensures c.Reject? && c.error.HttpError? <==>
      r.statusCode != Unauthorized && r.statusCode != Forbidden && !IsSuccessStatusCode(r.statusCode)
    ensures c.Reject? && c.error.HttpError? ==> c.error.statusCode == r.statusCode
    ensures c == Reject(BadResponse) <==>
      IsSuccessStatusCode(r.statusCode)
      && (|| r.body.InvalidJson?
          || r.body.NonObjectRoot?
          || r.body.errors.ErrorsNotArray?
          || (HasFirstError(r) && ErrorMessageText(r.body.errors.entries[0]).None?))
  {
    if r.statusCode == Unauthorized || r.statusCode == Forbidden then Reject(SessionExpired)
    else if !IsSuccessStatusCode(r.statusCode) then Reject(HttpError(r.statusCode))
    else
      match r.body
      case InvalidJson => Reject(BadResponse)
      case NonObjectRoot => Reject(BadResponse)
      case JsonObject(errors) =>
        match errors
        case NoErrorsProperty => Proceed
        case ErrorsNotArray => Reject(BadResponse)
        case ErrorArray(entries) =>
          if |entries| == 0 then Proceed
          else
            match ErrorMessageText(entries[0])
            case None => Reject(BadResponse)
            case Some(message) =>
              if MentionsSignIn(message) then Reject(SessionExpired) else Reject(GraphQLError(message))
  }

  /** "Unknown error" names none of the sign-in phrases. */
  lemma UnknownErrorIsNotSignIn()
    ensures !MentionsSignIn("Unknown error")
  {
    var lowered := Lower("Unknown error");
    assert lowered == "unknown error";
    NotContainsMissingChar(lowered, Lower("sign in"), 0);
    NotContainsMissingChar(lowered, Lower("login"), 3);
    NotContainsMissingChar(lowered, Lower("authenticated"), 0);
  }

  /**
   * A reply that succeeds at the HTTP level but whose first error has no
   * message, or a null one, is a GraphQL error "Unknown error", never a
   * session expiry.
   */
  lemma MissingMessageIsGraphQLError(r: HttpResponse)
    requires IsSuccessStatusCode(r.statusCode) && HasFirstError(r)
    requires r.body.errors.entries[0] in {ErrorObject(NoMessage), ErrorObject(NullMessage)}
    ensures Classify(r) == Reject(GraphQLError("Unknown error"))
  {
    UnknownErrorIsNotSignIn();
  }

  /** What a data property deserialises to: absent or ill-typed, JSON null, or a value. */
  datatype Payload<+T> = Unreadable | NullPayload | Decoded(value: T)

  /** One GraphQL reply with the part of `data` the caller reads. */
  datatype Reply<+T> = Reply(response: HttpResponse, payload: Payload<T>)

  /**
   * The LeetCode API as the sync pass sees it: the reply to each query it can
   * send. The replies are fixed for the duration of a run.
   */
  datatype LeetCodeApi = LeetCodeApi(
    recentSubmissions: (int, int) -> Reply<seq<Submission>>,
    submissionDetail: int -> Reply<SubmissionDetail>,
    problem: string -> Reply<Problem>)

  /** `GetRecentSubmissionsAsync(offset, limit)`: a null list reads as empty. */
  function GetRecentSubmissions(api: LeetCodeApi, offset: int, limit: int): (r: Result<seq<Submission>, ApiError>)
    ensures Classify(api.recentSubmissions(offset, limit).response).Reject? ==>
      r == Failure(Classify(api.recentSubmissions(offset, limit).response).error)
    ensures var reply := api.recentSubmissions(offset, limit);
      Classify(reply.response) == Proceed && reply.payload.NullPayload? ==> r == Success([])
    ensures var reply := api.recentSubmissions(offset, limit);
      r.Success? <==> (Classify(reply.response) == Proceed && !reply.payload.Unreadable?)
    ensures var reply := api.recentSubmissions(offset, limit);
      Classify(reply.response) == Proceed && reply.payload.Decoded? ==> r == Success(reply.payload.value)
    ensures var reply := api.recentSubmissions(offset, limit);
      Classify(reply.response) == Proceed && reply.payload.Unreadable? ==> r == Failure(BadResponse)
  {
    var reply := api.recentSubmissions(offset, limit);
    match Classify(reply.response)
    case Reject(e) => Failure(e)
    case Proceed =>
      match reply.payload
      case Unreadable => Failure(BadResponse)
      case NullPayload => Success([])
      case Decoded(list) => Success(list)
  }

  /** A single-record fetch: a null record is an error (`?? throw`). */
  function Interpret<T>(reply: Reply<T>): (r: Result<T, ApiError>)
    ensures Classify(reply.response).Reject? ==> r == Failure(Classify(reply.response).error)
    ensures r.Success? <==> Classify(reply.response) == Proceed && reply.payload.Decoded?
    ensures Classify(reply.response) == Proceed && reply.payload.Decoded? ==> r == Success(reply.payload.value)
    ensures Classify(reply.response) == Proceed && !reply.payload.Decoded? ==> r == Failure(BadResponse)
  {
    match Classify(reply.response)
    case Reject(e) => Failure(e)
    case Proceed =>
      match reply.payload
      case Decoded(value) => Success(value)
      case _ => Failure(BadResponse)
  }

  /** `GetSubmissionDetailAsync(id)`: the detail of the reply to the query for `id`, or why there is none. */
  function GetSubmissionDetail(api: LeetCodeApi, id: int): (r: Result<SubmissionDetail, ApiError>)
    ensures var reply := api.submissionDetail(id);
      Classify(reply.response).Reject? ==> r == Failure(Classify(reply.response).error)
    ensures var reply := api.submissionDetail(id);
      r.Success? <==> (Classify(reply.response) == Proceed && reply.payload.Decoded?)
    ensures var reply := api.submissionDetail(id);
      r.Success? ==> r.value == reply.payload.value
    ensures var reply := api.submissionDetail(id);
      Classify(reply.response) == Proceed && !reply.payload.Decoded? ==> r == Failure(BadResponse)
  {
    Interpret(api.submissionDetail(id))
  }

  /** `GetProblemAsync(titleSlug)`: the problem of the reply to the query for `titleSlug`, or why there is none. */
  function GetProblem(api: LeetCodeApi, titleSlug: string): (r: Result<Problem, ApiError>)
    ensures var reply := api.problem(titleSlug);
      Classify(reply.response).Reject? ==> r == Failure(Classify(reply.response).error)
    ensures var reply := api.problem(titleSlug);
      r.Success? <==> (Classify(reply.response) == Proceed && reply.payload.Decoded?)
    ensures var reply := api.problem(titleSlug);
      r.Success? ==> r.value == reply.payload.value
    ensures var reply := api.problem(titleSlug);
      Classify(reply.response) == Proceed && !reply.payload.Decoded? ==> r == Failure(BadResponse)
  {
    Interpret(api.problem(titleSlug))
  }

  /**
   * Any message that embeds one of the three phrases, in any mix of upper and
   * lower case, is judged a session expiry.
   */
  lemma MessageNamingPhraseIsSignIn(before: string, phrase: string, after: string)
    requires Lower(phrase) == "sign in" || Lower(phrase) == "login" || Lower(phrase) == "authenticated"
    ensures MentionsSignIn(before + phrase + after)
  {
    var m := before + phrase + after;
    var i := |before|;
    assert Lower(m)[i..i + |phrase|] == Lower(phrase) by {
      forall k | 0 <= k < |phrase|
        ensures Lower(m)[i..i + |phrase|][k] == Lower(phrase)[k]
      {
        assert m[i + k] == phrase[k];
      }
    }
    LowerIdempotent(phrase);
    assert OccursAt(Lower(m), Lower(Lower(phrase)), i);
  }
}
