/**
 * `handle_workflow_failure` and `lambda_handler`: authorise, read and
 * validate the event, ignore successes, and hand failures to the
 * deduplication decision; route requests by method and path.
 *
 * The clock, the UUID generator and the WORKFLOW_SECRET environment
 * variable become the parameters `now`, `freshId` and `secret`. The JSON
 * body arrives already decoded into `ParsedBody`.
 */
module Handler {
  import opened Wrappers
  import opened Text
  import opened Http
  import opened Tickets
  import opened Deduplication

  const UnauthorizedMessage: string := "Missing or invalid X-Workflow-Secret"
  const InvalidJsonMessage: string := "Request body must be valid JSON"
  const NotAnObjectMessage: string := "Body must be a JSON object"
  const RepoRequiredMessage: string := "`repo` is required"
  const StatusInvalidMessage: string := "`status` must be 'failure' or 'success'"

  /** The fields read from the JSON body; `None` when absent, null or falsy. */
  datatype RequestBody = RequestBody(
    repo: Option<string>,
    status: Option<string>,
    errorMessage: Option<string>,
    runUrl: Option<string>)

  /** What `parse_json_body` makes of the raw body. */
  datatype ParsedBody = InvalidJson | NotAnObject | Object(fields: RequestBody)

  /** `str(body.get(key) or "").strip()`. */
  function Field(v: Option<string>): (r: string)
    ensures Unpadded(r)
    ensures v.None? ==> r == ""
    ensures Unpadded(v.GetOr("")) ==> r == v.GetOr("")
  {
    Strip(v.GetOr(""))
  }

  /** The event after trimming and validation. */
  datatype Validated =
    | Rejected(message: string)
    | Ignore(repo: string)
    | Failure(repo: string, errorMessage: string, runUrl: string)

  /**
   * Trim the four fields, then reject an empty repo, then reject a status
   * other than "failure" or "success" (compared exactly, after trimming).
   */
  function Validate(b: RequestBody): (r: Validated)
    ensures r.Rejected? <==> Field(b.repo) == "" || Field(b.status) !in {"failure", "success"}
    ensures Field(b.repo) == "" ==> r == Rejected(RepoRequiredMessage)
    ensures Field(b.repo) != "" && Field(b.status) !in {"failure", "success"} ==> r == Rejected(StatusInvalidMessage)
    ensures r.Ignore? <==> Field(b.repo) != "" && Field(b.status) == "success"
    ensures r.Failure? <==> Field(b.repo) != "" && Field(b.status) == "failure"
    ensures !r.Rejected? ==> r.repo == Field(b.repo) && r.repo != "" && Unpadded(r.repo)
    ensures r.Failure? ==> r.errorMessage == Field(b.errorMessage) && r.runUrl == Field(b.runUrl)
  {
    var repo := Field(b.repo);
    var status := Field(b.status);
    if repo == "" then Rejected(RepoRequiredMessage)
    else if status != "failure" && status != "success" then Rejected(StatusInvalidMessage)
    else if status == "success" then Ignore(repo)
    else Failure(repo, Field(b.errorMessage), Field(b.runUrl))
  }

  /** The 202 payload for each outcome: its kind, its ticket ids and the repo. */
  function Render(o: Outcome, repo: string): (r: Payload)
    ensures r.CreatedPayload? <==> o.Created?
    ensures r.UpdatedPayload? <==> o.Updated?
    ensures r.CreatedNewPayload? <==> o.CreatedNew?
    ensures r.repo == repo
    ensures r.CreatedNewPayload? ==> r.previousTicketId == o.previousTicketId && r.newTicketId == o.ActiveId()
    ensures !r.CreatedNewPayload? ==> r.ticketId == o.ActiveId()
  {
    match o
    case Created(id) => CreatedPayload(id, repo)
    case Updated(id) => UpdatedPayload(id, repo)
    case CreatedNew(previous, next) => CreatedNewPayload(previous, next, repo)
  }

  datatype Handled = Handled(tickets: Table, response: Response)

  /**
   * `handle_workflow_failure` as a function of the ticket table: the new
   * table and the response.
   */
  ghost function HandleSpec(
    m: Table, headers: Option<map<string, string>>, secret: string, body: ParsedBody, now: string, freshId: string)
    : (r: Handled)
    requires TableInvariant(m) && freshId !in m
    ensures TableInvariant(r.tickets)
    ensures m.Keys <= r.tickets.Keys <= m.Keys + {freshId}
    ensures r.response.statusCode in {202, 400, 401}
    ensures r.tickets != m ==>
              && r.response.statusCode == 202
              && (r.response.payload.CreatedPayload? || r.response.payload.UpdatedPayload? ||
                  r.response.payload.CreatedNewPayload?)
  {
    if !RequireWorkflowSecret(headers, secret) then
      Handled(m, Error(Unauthorized, UnauthorizedMessage, 401))
    else
      match body
      case InvalidJson => Handled(m, Error(ErrorCode.InvalidJson, InvalidJsonMessage, 400))
      case NotAnObject => Handled(m, Error(ErrorCode.InvalidJson, NotAnObjectMessage, 400))
      case Object(b) =>
        match Validate(b)
        case Rejected(message) => Handled(m, Error(ValidationError, message, 400))
        case Ignore(repo) => Handled(m, Response(202, IgnoredPayload(repo)))
        case Failure(repo, errorMessage, runUrl) =>
          var d := Dedup(m, repo, errorMessage, runUrl, now, freshId);
          Handled(d.tickets, Response(202, Render(d.outcome, repo)))
  }

  /**
   * The authorisation check comes first: an unauthorised request gets
   * 401 UNAUTHORIZED whatever its body, even one that is not JSON, and the
   * table is not touched.
   */
  lemma UnauthorisedBeforeAnything(
    m: Table, headers: Option<map<string, string>>, secret: string, body: ParsedBody, now: string, freshId: string)
    requires TableInvariant(m) && freshId !in m
    requires secret != "" && GetHeader(headers, SecretHeader) != secret
    ensures HandleSpec(m, headers, secret, body, now, freshId) == Handled(m, Error(Unauthorized, UnauthorizedMessage, 401))
  {
  }

  /**
   * An authorised request whose body is not JSON, or is JSON but not an
   * object, gets 400 INVALID_JSON and leaves the table as it was.
   */
  lemma UnparsableBodyRejected(
    m: Table, headers: Option<map<string, string>>, secret: string, now: string, freshId: string)
    requires TableInvariant(m) && freshId !in m
    requires RequireWorkflowSecret(headers, secret)
    ensures HandleSpec(m, headers, secret, ParsedBody.InvalidJson, now, freshId)
              == Handled(m, Error(ErrorCode.InvalidJson, InvalidJsonMessage, 400))
    ensures HandleSpec(m, headers, secret, NotAnObject, now, freshId)
              == Handled(m, Error(ErrorCode.InvalidJson, NotAnObjectMessage, 400))
  {
  }

  /**
   * Validation comes before any table access: a missing or whitespace-only
   * repo, or a status other than "failure"/"success", gets 400
   * VALIDATION_ERROR and leaves the table as it was.
   */
  lemma InvalidEventLeavesTable(
    m: Table, headers: Option<map<string, string>>, secret: string, b: RequestBody, now: string, freshId: string)
    requires TableInvariant(m) && freshId !in m
    requires RequireWorkflowSecret(headers, secret)
    requires AllSpace(b.repo.GetOr("")) || Field(b.status) !in {"failure", "success"}
    ensures var r := HandleSpec(m, headers, secret, Object(b), now, freshId);
      && r.tickets == m
      && r.response.statusCode == 400
      && r.response.payload.ErrorPayload?
      && r.response.payload.code == ValidationError
      && (AllSpace(b.repo.GetOr("")) ==> r.response.payload.message == RepoRequiredMessage)
      && (!AllSpace(b.repo.GetOr("")) ==> r.response.payload.message == StatusInvalidMessage)
  {
    StripEmptyIffAllSpace(b.repo.GetOr(""));
  }

  /** A "success" event is acknowledged as ignored and never touches the table. */
  lemma SuccessIsIgnored(
    m: Table, headers: Option<map<string, string>>, secret: string, b: RequestBody, now: string, freshId: string)
    requires TableInvariant(m) && freshId !in m
    requires RequireWorkflowSecret(headers, secret)
    requires Field(b.repo) != "" && Field(b.status) == "success"
    ensures HandleSpec(m, headers, secret, Object(b), now, freshId) == Handled(m, Response(202, IgnoredPayload(Field(b.repo))))
  {
  }

  /**
   * An authorised, valid failure event applies the deduplication decision to
   * the table and renders its outcome with status 202.
   */
  lemma FailureIsDeduplicated(
    m: Table, headers: Option<map<string, string>>, secret: string, b: RequestBody, now: string, freshId: string)
    requires TableInvariant(m) && freshId !in m
    requires RequireWorkflowSecret(headers, secret)
    requires Field(b.repo) != "" && Field(b.status) == "failure"
    ensures var d := Dedup(m, Field(b.repo), Field(b.errorMessage), Field(b.runUrl), now, freshId);
      && HandleSpec(m, headers, secret, Object(b), now, freshId).tickets == d.tickets
      && HandleSpec(m, headers, secret, Object(b), now, freshId).response == Response(202, Render(d.outcome, Field(b.repo)))
      && OpenIds(d.tickets, Field(b.repo)) == {d.outcome.ActiveId()}
  {
  }

  /**
   * Whitespace around the error message does not matter: " E " and "E" lead
   * to the same table and the same response.
   */
  lemma MessagePaddingIsIrrelevant(
    m: Table, headers: Option<map<string, string>>, secret: string, b: RequestBody,
    p: string, e: string, q: string, now: string, freshId: string)
    requires TableInvariant(m) && freshId !in m
    requires AllSpace(p) && AllSpace(q)
    ensures HandleSpec(m, headers, secret, Object(b.(errorMessage := Some(p + e + q))), now, freshId)
         == HandleSpec(m, headers, secret, Object(b.(errorMessage := Some(e))), now, freshId)
  {
    StripIgnoresPadding(p, e, q);
    assert Validate(b.(errorMessage := Some(p + e + q))) == Validate(b.(errorMessage := Some(e)));
  }

  /** A missing error message is handled as the empty message. */
  lemma MissingMessageIsEmpty(
    m: Table, headers: Option<map<string, string>>, secret: string, b: RequestBody, now: string, freshId: string)
    requires TableInvariant(m) && freshId !in m
    ensures HandleSpec(m, headers, secret, Object(b.(errorMessage := None)), now, freshId)
         == HandleSpec(m, headers, secret, Object(b.(errorMessage := Some(""))), now, freshId)
  {
    assert Validate(b.(errorMessage := None)) == Validate(b.(errorMessage := Some("")));
  }

  /** The failure handler on a `TicketStore`, in the source's order of steps. */
  method HandleWorkflowFailure(
    store: TicketStore, headers: Option<map<string, string>>, secret: string, body: ParsedBody,
    now: string, freshId: string)
    returns (response: Response)
    requires store.Valid() && freshId !in store.tickets
    modifies store
    ensures store.Valid()
    ensures Handled(store.tickets, response) == HandleSpec(old(store.tickets), headers, secret, body, now, freshId)
  {
    if !RequireWorkflowSecret(headers, secret) {
      return Error(Unauthorized, UnauthorizedMessage, 401);
    }
    if body.InvalidJson? {
      return Error(ErrorCode.InvalidJson, InvalidJsonMessage, 400);
    }
    if body.NotAnObject? {
      return Error(ErrorCode.InvalidJson, NotAnObjectMessage, 400);
    }
    var event := Validate(body.fields);
    if event.Rejected? {
      return Error(ValidationError, event.message, 400);
    }
    if event.Ignore? {
      return Response(202, IgnoredPayload(event.repo));
    }
    var outcome := RecordFailure(store, event.repo, event.errorMessage, event.runUrl, now, freshId);
    response := Response(202, Render(outcome, event.repo));
  }

  /** The part of the API Gateway event `lambda_handler` reads. */
  datatype Request = Request(
    verb: Option<string>,
    path: Option<string>,
    rawPath: Option<string>,
    headers: Option<map<string, string>>,
    body: ParsedBody)

  /** `lambda_handler` as a function of the ticket table. */
  ghost function LambdaSpec(m: Table, req: Request, secret: string, now: string, freshId: string): (r: Handled)
    requires TableInvariant(m) && freshId !in m
    ensures TableInvariant(r.tickets)
    ensures var route := RouteOf(MethodOf(req.verb), PathOf(req.path, req.rawPath));
      && (route != WorkflowFailure ==> r.tickets == m)
      && (route == Preflight ==> r.response == Response(204, EmptyPayload))
      && (route == ListTodos ==> r.response == Response(200, ItemsPayload))
      && (route == PatchTodo ==> r.response == Response(200, OkPayload))
      && (route == WorkflowFailure ==> r == HandleSpec(m, req.headers, secret, req.body, now, freshId))
      && (route == NoRoute ==>
            r.response == Error(NotFound, "No route for " + MethodOf(req.verb) + " " + PathOf(req.path, req.rawPath), 404))
  {
    var verb := MethodOf(req.verb);
    var path := PathOf(req.path, req.rawPath);
    match RouteOf(verb, path)
    case Preflight => Handled(m, Response(204, EmptyPayload))
    case WorkflowFailure => HandleSpec(m, req.headers, secret, req.body, now, freshId)
    case ListTodos => Handled(m, Response(200, ItemsPayload))
    case PatchTodo => Handled(m, Response(200, OkPayload))
    case NoRoute => Handled(m, Error(NotFound, "No route for " + verb + " " + path, 404))
  }

  /** `lambda_handler` on a `TicketStore`. */
  method LambdaHandler(store: TicketStore, req: Request, secret: string, now: string, freshId: string)
    returns (response: Response)
    requires store.Valid() && freshId !in store.tickets
    modifies store
    ensures store.Valid()
    ensures Handled(store.tickets, response) == LambdaSpec(old(store.tickets), req, secret, now, freshId)
  {
    var verb := MethodOf(req.verb);
    var path := PathOf(req.path, req.rawPath);
    var route := RouteOf(verb, path);
    if route == Preflight {
      response := Response(204, EmptyPayload);
    } else if route == WorkflowFailure {
      response := HandleWorkflowFailure(store, req.headers, secret, req.body, now, freshId);
    } else if route == ListTodos {
      response := Response(200, ItemsPayload);
    } else if route == PatchTodo {
      response := Response(200, OkPayload);
    } else {
      response := Error(NotFound, "No route for " + verb + " " + path, 404);
    }
  }

  /** A report without a run URL. */
  function ReportBody(repo: string, status: string, errorMessage: string): ParsedBody {
    Object(RequestBody(Some(repo), Some(status), Some(errorMessage), None))
  }

  /** With no secret configured, an unpadded report reaches the decision with its values unchanged. */
  lemma ReportReachesDecision(m: Table, repo: string, status: string, errorMessage: string, now: string, freshId: string)
    requires TableInvariant(m) && freshId !in m
    requires repo != "" && Unpadded(repo) && Unpadded(status) && Unpadded(errorMessage)
    ensures var h := HandleSpec(m, None, "", ReportBody(repo, status, errorMessage), now, freshId);
      var d := Dedup(m, repo, errorMessage, "", now, freshId);
      && (status == "success" ==> h == Handled(m, Response(202, IgnoredPayload(repo))))
      && (status == "failure" ==> h == Handled(d.tickets, Response(202, Render(d.outcome, repo))))
  {
    var b := RequestBody(Some(repo), Some(status), Some(errorMessage), None);
    assert Field(b.repo) == repo && Field(b.status) == status && Field(b.errorMessage) == errorMessage;
    assert Field(b.runUrl) == "";
    if status == "success" {
      SuccessIsIgnored(m, None, "", b, now, freshId);
    } else if status == "failure" {
      FailureIsDeduplicated(m, None, "", b, now, freshId);
    }
  }

  /** A failure report for a repository with no open ticket creates its first ticket. */
  lemma ReportCreates(m: Table, repo: string, e: string, now: string, freshId: string)
    requires TableInvariant(m) && freshId !in m
    requires repo != "" && Unpadded(repo) && Unpadded(e) && OpenIds(m, repo) == {}
    ensures var h := HandleSpec(m, None, "", ReportBody(repo, "failure", e), now, freshId);
      && h == Handled(m[freshId := NewTicket(freshId, repo, e, "", now)], Response(202, CreatedPayload(freshId, repo)))
      && TableInvariant(h.tickets)
      && OpenIds(h.tickets, repo) == {freshId}
  {
    ReportReachesDecision(m, repo, "failure", e, now, freshId);
    assert OpenTicketId(m, repo) == None;
  }

  /** A failure report that repeats the open ticket's message bumps that ticket. */
  lemma ReportBumps(m: Table, repo: string, e: string, now: string, freshId: string, id: string)
    requires TableInvariant(m) && freshId !in m
    requires repo != "" && Unpadded(repo) && OpenIds(m, repo) == {id} && m[id].errorMessage == e && Unpadded(e)
    ensures var h := HandleSpec(m, None, "", ReportBody(repo, "failure", e), now, freshId);
      && h == Handled(m[id := Bumped(m[id], now, "")], Response(202, UpdatedPayload(id, repo)))
      && TableInvariant(h.tickets)
      && OpenIds(h.tickets, repo) == {id}
  {
    ReportReachesDecision(m, repo, "failure", e, now, freshId);
    assert OpenTicketId(m, repo) == Some(id);
  }

  /** A failure report with another message than the open ticket's rotates the ticket. */
  lemma ReportRotates(m: Table, repo: string, e: string, now: string, freshId: string, id: string)
    requires TableInvariant(m) && freshId !in m
    requires repo != "" && Unpadded(repo) && OpenIds(m, repo) == {id} && Unpadded(m[id].errorMessage)
    requires Unpadded(e) && m[id].errorMessage != e
    ensures var h := HandleSpec(m, None, "", ReportBody(repo, "failure", e), now, freshId);
      && h == Handled(
             m[id := Closed(m[id], now)][freshId := NewTicket(freshId, repo, e, "", now)],
             Response(202, CreatedNewPayload(id, freshId, repo)))
      && TableInvariant(h.tickets)
      && OpenIds(h.tickets, repo) == {freshId}
  {
    ReportReachesDecision(m, repo, "failure", e, now, freshId);
    assert OpenTicketId(m, repo) == Some(id);
  }

  /**
   * One repository, no secret configured: failure E1, failure E1 again,
   * then failure E2 (E2 != E1). The outcomes are created, updated (two
   * occurrences) and created_new, and the repository ends with one open
   * ticket, the third request's, for E2, with one occurrence.
   */
  lemma FailureSequenceScenario(
    repo: string, e1: string, e2: string, id1: string, id2: string, id3: string,
    t1: string, t2: string, t3: string)
    requires repo != "" && Unpadded(repo) && Unpadded(e1) && Unpadded(e2) && e1 != e2
    requires id2 != id1 && id3 !in {id1, id2}
    ensures var h1 := HandleSpec(map[], None, "", ReportBody(repo, "failure", e1), t1, id1);
      && h1.response == Response(202, CreatedPayload(id1, repo))
      && id2 !in h1.tickets
      && var h2 := HandleSpec(h1.tickets, None, "", ReportBody(repo, "failure", e1), t2, id2);
      && h2.response == Response(202, UpdatedPayload(id1, repo))
      && h2.tickets[id1].occurrenceCount == 2
      && id3 !in h2.tickets
      && var h3 := HandleSpec(h2.tickets, None, "", ReportBody(repo, "failure", e2), t3, id3);
      && h3.response == Response(202, CreatedNewPayload(id1, id3, repo))
      && OpenIds(h3.tickets, repo) == {id3}
      && h3.tickets[id3].errorMessage == e2
      && h3.tickets[id3].occurrenceCount == 1
  {
    var m0: Table := map[];
    var m1 := m0[id1 := NewTicket(id1, repo, e1, "", t1)];
    var m2 := m1[id1 := Bumped(m1[id1], t2, "")];
    var m3 := m2[id1 := Closed(m2[id1], t3)][id3 := NewTicket(id3, repo, e2, "", t3)];
    assert TableInvariant(m0) && OpenIds(m0, repo) == {};
    assert HandleSpec(m0, None, "", ReportBody(repo, "failure", e1), t1, id1)
        == Handled(m1, Response(202, CreatedPayload(id1, repo)))
        && TableInvariant(m1) && OpenIds(m1, repo) == {id1} by {
      ReportCreates(m0, repo, e1, t1, id1);
    }
    assert HandleSpec(m1, None, "", ReportBody(repo, "failure", e1), t2, id2)
        == Handled(m2, Response(202, UpdatedPayload(id1, repo)))
        && TableInvariant(m2) && OpenIds(m2, repo) == {id1} by {
      ReportBumps(m1, repo, e1, t2, id2, id1);
    }
    assert HandleSpec(m2, None, "", ReportBody(repo, "failure", e2), t3, id3)
        == Handled(m3, Response(202, CreatedNewPayload(id1, id3, repo)))
        && TableInvariant(m3) && OpenIds(m3, repo) == {id3} by {
      ReportRotates(m2, repo, e2, t3, id3, id1);
    }
    assert id2 !in m1 && m2[id1].occurrenceCount == 2 && id3 !in m2;
    assert m3[id3].errorMessage == e2 && m3[id3].occurrenceCount == 1;
  }
}
