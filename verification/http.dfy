/**
 * The request boundary of the Lambda function: header lookup, the shared
 * secret check, route selection and the shape of the responses it renders.
 * Header maps, method and path arrive already extracted from the API
 * Gateway event; the JSON text of a response body is not modelled, only
 * which payload it carries.
 */
module Http {
  import opened Wrappers
  import opened Text

  /** The header that carries the shared secret. */
  const SecretHeader: string := "X-Workflow-Secret"

  /**
   * `get_header`: the value under `name`, else the value under the
   * lower-cased name, else "". An empty value counts as missing (Python's
   * `or` skips it), and so does a missing header map.
   */
  function GetHeader(headers: Option<map<string, string>>, name: string): (r: string)
    ensures r != "" ==>
              headers.Some? &&
              ((name in headers.value && headers.value[name] == r) ||
               (Lower(name) in headers.value && headers.value[Lower(name)] == r))
    ensures headers.Some? && name in headers.value && headers.value[name] != "" ==> r == headers.value[name]
    ensures r == "" <==>
              (headers.None? ||
               ((name !in headers.value || headers.value[name] == "") &&
                (Lower(name) !in headers.value || headers.value[Lower(name)] == "")))
  {
    match headers
    case None => ""
    case Some(h) =>
      if |h| == 0 then ""
      else if name in h && h[name] != "" then h[name]
      else if Lower(name) in h && h[Lower(name)] != "" then h[Lower(name)]
      else ""
  }

  /**
   * `require_workflow_secret`, with the configured secret passed in:
   * an empty secret authorises every request; otherwise the secret header
   * must carry exactly that secret.
   */
  function RequireWorkflowSecret(headers: Option<map<string, string>>, expected: string): (authorised: bool)
    ensures expected == "" ==> authorised
    ensures expected != "" && authorised ==>
              headers.Some? &&
              ((SecretHeader in headers.value && headers.value[SecretHeader] == expected) ||
               (Lower(SecretHeader) in headers.value && headers.value[Lower(SecretHeader)] == expected))
    ensures expected != "" && headers.Some? && SecretHeader in headers.value && headers.value[SecretHeader] != "" ==>
      (authorised <==> headers.value[SecretHeader] == expected)
    ensures expected != "" ==> (authorised <==> GetHeader(headers, SecretHeader) == expected)
  {
    if expected == "" then true
    else GetHeader(headers, SecretHeader) == expected
  }

  /** The lower-cased fallback name of the secret header. */
  lemma SecretHeaderFallbackName()
    ensures Lower(SecretHeader) == "x-workflow-secret"
  {
    var lower := Lower(SecretHeader);
    assert lower == "x-workflow-secret";
  }

  /**
   * A request that sends the secret only under the lower-case header name
   * (API Gateway's HTTP API lower-cases header names), or with the exact
   * name present but empty, is authorised.
   */
  lemma LowerCaseSecretHeaderAuthorises(h: map<string, string>, expected: string)
    requires expected != ""
    requires SecretHeader !in h || h[SecretHeader] == ""
    requires "x-workflow-secret" in h && h["x-workflow-secret"] == expected
    ensures RequireWorkflowSecret(Some(h), expected)
  {
    SecretHeaderFallbackName();
  }

  /**
   * With a secret configured, a request with no headers, or with neither
   * spelling of the secret header, is refused.
   */
  lemma MissingSecretHeaderRefused(headers: Option<map<string, string>>, expected: string)
    requires expected != ""
    requires headers.Some? ==> SecretHeader !in headers.value && "x-workflow-secret" !in headers.value
    ensures !RequireWorkflowSecret(headers, expected)
  {
    SecretHeaderFallbackName();
  }

  /** The routes `lambda_handler` distinguishes. */
  datatype Route = Preflight | WorkflowFailure | ListTodos | PatchTodo | NoRoute

  /** The request method as `lambda_handler` reads it: missing means "", then upper-cased. */
  function MethodOf(verb: Option<string>): (r: string)
    ensures verb.None? ==> r == ""
    ensures |r| == |verb.GetOr("")|
    ensures forall i :: 0 <= i < |r| ==> !('a' <= r[i] <= 'z')
    ensures Lower(r) == Lower(verb.GetOr(""))
  {
    LowerOfUpper(verb.GetOr(""));
    Upper(verb.GetOr(""))
  }

  /** Methods that differ only in letter case are read as the same method. */
  lemma MethodOfIgnoresCase(v: string, w: string)
    requires Lower(v) == Lower(w)
    ensures MethodOf(Some(v)) == MethodOf(Some(w))
  {
    UpperOfSameLower(v, w);
  }

  /** The request path: `http.path`, else `rawPath`, else "" (empty values are skipped). */
  function PathOf(path: Option<string>, rawPath: Option<string>): (r: string)
    ensures r != "" ==> r == path.GetOr("") || r == rawPath.GetOr("")
    ensures path.Some? && path.value != "" ==> r == path.value
    ensures path.GetOr("") == "" && rawPath.Some? && rawPath.value != "" ==> r == rawPath.value
    ensures r == "" <==> path.GetOr("") == "" && rawPath.GetOr("") == ""
  {
    if path.Some? && path.value != "" then path.value
    else if rawPath.Some? && rawPath.value != "" then rawPath.value
    else ""
  }

  /**
   * Route selection, tried in the source's order: OPTIONS, then POST to a
   * path ending in "/workflow-failure", then GET to a path ending in
   * "/todos", then PATCH to a path containing "/todos/".
   */
  function RouteOf(verb: string, path: string): (r: Route)
    ensures r == Preflight <==> verb == "OPTIONS"
    ensures r == WorkflowFailure <==> verb == "POST" && EndsWith(path, "/workflow-failure")
    ensures r == ListTodos <==> verb == "GET" && EndsWith(path, "/todos")
    ensures r == PatchTodo <==> verb == "PATCH" && Contains(path, "/todos/")
  {
    if verb == "OPTIONS" then Preflight
    else if verb == "POST" && EndsWith(path, "/workflow-failure") then WorkflowFailure
    else if verb == "GET" && EndsWith(path, "/todos") then ListTodos
    else if verb == "PATCH" && Contains(path, "/todos/") then PatchTodo
    else NoRoute
  }

  /**
   * The method is compared after upper-casing, and any stage prefix in front
   * of the route's suffix is accepted: "post", "Post" or "POST" to
   * "/prod/workflow-failure" reaches the failure handler.
   */
  lemma FailureRouteAcceptsAnyCaseAndPrefix(verb: string, prefix: string)
    requires Lower(verb) == "post"
    ensures RouteOf(MethodOf(Some(verb)), prefix + "/workflow-failure") == WorkflowFailure
  {
    EndsWithAfterPrefix(prefix, "/workflow-failure");
    assert Lower("post") == "post";
    MethodOfIgnoresCase(verb, "post");
    assert MethodOf(Some("post")) == "POST";
  }

  /** GET to ".../todos" lists; PATCH to any path holding "/todos/" patches. */
  lemma TodoRoutes(prefix: string, id: string)
    ensures RouteOf("GET", prefix + "/todos") == ListTodos
    ensures RouteOf("PATCH", prefix + "/todos/" + id) == PatchTodo
  {
    EndsWithAfterPrefix(prefix, "/todos");
    ContainsAt(prefix, "/todos/", id);
  }

  /** A failure report sent with the wrong method is not routed. */
  lemma FailureRouteNeedsPost(prefix: string)
    ensures RouteOf("GET", prefix + "/workflow-failure") == NoRoute
    ensures RouteOf("PUT", prefix + "/workflow-failure") == NoRoute
  {
    var p := prefix + "/workflow-failure";
    assert !EndsWith(p, "/todos") by {
      assert p[|p| - 1] == 'e';
    }
  }

  /**
   * Machine-readable error codes, sent as "UNAUTHORIZED", "INVALID_JSON",
   * "VALIDATION_ERROR" and "NOT_FOUND".
   */
  datatype ErrorCode = Unauthorized | InvalidJson | ValidationError | NotFound

  /** What a response's JSON body holds. */
  datatype Payload =
    | ErrorPayload(code: ErrorCode, message: string)        // {"error": {code, message}}
    | IgnoredPayload(repo: string)                          // {"status": "ignored", repo}
    | CreatedPayload(ticketId: string, repo: string)        // {"status": "created", "ticket": {id, repo}}
    | UpdatedPayload(ticketId: string, repo: string)        // {"status": "updated", "ticket": {id, repo}}
    | CreatedNewPayload(previousTicketId: string, newTicketId: string, repo: string)
    | EmptyPayload                                          // {}
    | ItemsPayload                                          // {"items": []}
    | OkPayload                                             // {"status": "ok"}

  datatype Response = Response(statusCode: int, payload: Payload)

  /** `error(code, message, status)`: the given status with an `{"error": {code, message}}` body. */
  function Error(code: ErrorCode, message: string, statusCode: int): (r: Response)
    ensures r.statusCode == statusCode
    ensures r.payload.ErrorPayload? && r.payload.code == code && r.payload.message == message
  {
    Response(statusCode, ErrorPayload(code, message))
  }
}
