/**
 * The REST client for posts: the response-error interceptor that turns a transport
 * failure into one of four user-facing messages, and the request each `postsApi` call sends.
 */
module Api {
  import opened Wrappers
  import opened Text
  import opened Types
  import opened Constants

  /** What the interceptor sees of a failed request: HTTP status (when a response came back), error code and message. */
  datatype AxiosError = AxiosError(status: Option<int>, code: Option<string>, message: Option<string>)

  /** The error kinds the interceptor distinguishes. */
  datatype ErrorKind = NotFound | ServerError | Timeout | Other(message: string)

  const NotFoundMessage: string := "Resource not found"
  const ServerErrorMessage: string := "Server error. Please try again later."
  const TimeoutMessage: string := "Request timeout. Please check your connection."
  const UnexpectedErrorMessage: string := "An unexpected error occurred"
  const TimeoutCode: string := "ECONNABORTED"

  predicate IsServerStatus(status: Option<int>) {
    status.Some? && status.value >= 500
  }

  /** The interceptor's ordered decision: 404, then 5xx, then timeout, then the error's own message. */
  function Classify(e: AxiosError): (k: ErrorKind)
    ensures k == NotFound <==> e.status == Some(404)
    ensures k == ServerError <==> IsServerStatus(e.status)
    ensures k == Timeout <==> e.status != Some(404) && !IsServerStatus(e.status) && e.code == Some(TimeoutCode)
    ensures k.Other? ==> k.message != []
    ensures k.Other? && e.message.Some? && e.message.value != [] ==> k.message == e.message.value
    ensures k.Other? && e.message.GetOr([]) == [] ==> k.message == UnexpectedErrorMessage
  {
    if e.status == Some(404) then NotFound
    else if IsServerStatus(e.status) then ServerError
    else if e.code == Some(TimeoutCode) then Timeout
    else Other(if e.message.GetOr("") != [] then e.message.value else UnexpectedErrorMessage)
  }

  /** The text each kind is reported with; the three rule messages are pairwise distinct. */
  function KindMessage(k: ErrorKind): (msg: string)
    ensures k.Other? ==> msg == k.message
    ensures !k.Other? ==> (msg == NotFoundMessage <==> k == NotFound)
    ensures !k.Other? ==> (msg == ServerErrorMessage <==> k == ServerError)
    ensures !k.Other? ==> (msg == TimeoutMessage <==> k == Timeout)
  {
    match k
    case NotFound => NotFoundMessage
    case ServerError => ServerErrorMessage
    case Timeout => TimeoutMessage
    case Other(m) => m
  }

  /**
   * The message of the `Error` the interceptor throws, rule by rule; it is never empty.
   */
  function ErrorMessage(e: AxiosError): (msg: string)
    ensures msg != []
    ensures e.status == Some(404) ==> msg == NotFoundMessage
    ensures e.status != Some(404) && IsServerStatus(e.status) ==> msg == ServerErrorMessage
    ensures e.status != Some(404) && !IsServerStatus(e.status) && e.code == Some(TimeoutCode)
            ==> msg == TimeoutMessage
    ensures e.status != Some(404) && !IsServerStatus(e.status) && e.code != Some(TimeoutCode)
            ==> msg == (if e.message.GetOr([]) != [] then e.message.value else UnexpectedErrorMessage)
  {
    KindMessage(Classify(e))
  }

  /** A 404 is reported as not found whatever the error code and message say. */
  lemma NotFoundWins(status: Option<int>, code: Option<string>, message: Option<string>)
    requires status == Some(404)
    ensures ErrorMessage(AxiosError(status, code, message)) == NotFoundMessage
  {
  }

  /** The timeout message appears for a timeout code only when no status rule applies. */
  lemma TimeoutOnlyWithoutStatusRule(e: AxiosError)
    requires e.code == Some(TimeoutCode)
    ensures Classify(e) == Timeout <==> e.status != Some(404) && !IsServerStatus(e.status)
  {
  }

  /** The outcome of a request as it reaches the interceptor. */
  datatype Transport<R> = Response(data: R) | Failure(error: AxiosError)

  /** The outcome the caller's promise settles with. */
  datatype Settled<R> = Fulfilled(value: R) | Rejected(message: string)

  /**
   * The response interceptor pair: a response passes through unchanged, and a failure
   * always rejects (the handler throws on every path) with the classified message.
   */
  function Intercept<R>(t: Transport<R>): (s: Settled<R>)
    ensures s.Fulfilled? <==> t.Response?
    ensures t.Response? ==> s.value == t.data
    ensures t.Failure? ==> s.message != [] && s.message == ErrorMessage(t.error)
  {
    match t
    case Response(d) => Fulfilled(d)
    case Failure(e) => Rejected(ErrorMessage(e))
  }

  datatype HttpMethod = Get | PostMethod | Put | Delete

  /** What a request carries: nothing, a new post without id, or a whole post. */
  datatype Payload = NoBody | Draft(title: string, body: string, userId: int) | Whole(post: Post)

  datatype Request = Request(verb: HttpMethod, path: string, payload: Payload)

  /** The operations of `postsApi`. */
  datatype PostsCall =
    | GetAll
    | GetById(id: int)
    | Create(title: string, body: string, userId: int)
    | Update(post: Post)
    | DeleteById(id: int)
  {
    predicate TargetsOnePost() {
      GetById? || Update? || DeleteById?
    }

    function TargetId(): int
      requires TargetsOnePost()
    {
      match this
      case GetById(id) => id
      case Update(p) => p.id
      case DeleteById(id) => id
    }
  }

  /** The path of one post's resource. */
  function PostPath(id: int): (path: string)
    ensures |path| > |PostsEndpoint| + 1 && path[..|PostsEndpoint| + 1] == PostsEndpoint + "/"
    ensures '/' !in path[|PostsEndpoint| + 1..]
  {
    assert (PostsEndpoint + "/" + IntToString(id))[|PostsEndpoint| + 1..] == IntToString(id);
    assert forall k :: 0 <= k < |IntToString(id)| ==> IntToString(id)[k] == '-' || DigitValue(IntToString(id)[k]) < 10;
    PostsEndpoint + "/" + IntToString(id)
  }

  /** The request each `postsApi` operation sends. */
  function RequestFor(call: PostsCall): (r: Request)
    ensures call.TargetsOnePost() <==> r.path != PostsEndpoint
    ensures call.TargetsOnePost() ==> r.path == PostPath(call.TargetId())
    ensures r.verb == Get <==> call.GetAll? || call.GetById?
    ensures r.verb == PostMethod <==> call.Create?
    ensures r.verb == Put <==> call.Update?
    ensures r.verb == Delete <==> call.DeleteById?
    ensures r.payload.NoBody? <==> call.GetAll? || call.GetById? || call.DeleteById?
    ensures call.Create? ==> r.payload == Draft(call.title, call.body, call.userId)
    ensures call.Update? ==> r.payload == Whole(call.post)
  {
    match call
    case GetAll => Request(Get, PostsEndpoint, NoBody)
    case GetById(id) => Request(Get, PostPath(id), NoBody)
    case Create(t, b, u) => Request(PostMethod, PostsEndpoint, Draft(t, b, u))
    case Update(p) => Request(Put, PostPath(p.id), Whole(p))
    case DeleteById(id) => Request(Delete, PostPath(id), NoBody)
  }

  /** The id can be read back from a post's path with `parseInt`. */
  lemma PostPathRoundTrip(id: int)
    ensures |PostPath(id)| > |PostsEndpoint| + 1
    ensures ParseInt(PostPath(id)[|PostsEndpoint| + 1..]) == Num(id)
  {
    assert PostPath(id)[|PostsEndpoint| + 1..] == IntToString(id);
    ParseIntToString(id);
  }

  /** Two single-post calls address the same resource exactly when they name the same id. */
  lemma SamePathIffSameId(c: PostsCall, d: PostsCall)
    requires c.TargetsOnePost() && d.TargetsOnePost()
    ensures RequestFor(c).path == RequestFor(d).path <==> c.TargetId() == d.TargetId()
  {
    var pc, pd := PostPath(c.TargetId()), PostPath(d.TargetId());
    if pc == pd {
      var n := |PostsEndpoint| + 1;
      assert pc[n..] == IntToString(c.TargetId());
      assert pd[n..] == IntToString(d.TargetId());
      IntToStringInjective(c.TargetId(), d.TargetId());
    }
  }
}
