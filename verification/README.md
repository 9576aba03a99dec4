# Workflow-failure ticket deduplication, in Dafny

This project models the AWS Lambda handler in `app/handler.py`. The handler receives CI workflow outcomes (`POST .../workflow-failure`) and keeps at most one open ticket per repository:

- When a repository fails and has no open ticket, a new ticket is created.
- When the same failure repeats, the open ticket's occurrence count goes up by one. It also takes the newest run URL and time.
- When the failure changes, the open ticket is closed and a new one is opened ("rotation").
- Success reports are acknowledged as ignored.

Around this decision sit some pure request checks:

- the shared-secret header check, with its lower-case header fallback;
- trimming and validation of the body fields;
- route selection by method and path.

Modules:

- `Wrappers`: the `Option` type.
- `Text`: Python's `str.strip()` (over the full `isspace()` set), `lower()`/`upper()`, `endswith()` and `in`, with lemmas about stripping.
- `Http`:
  - `get_header` and `require_workflow_secret`;
  - the method and path reading and the route dispatch of `lambda_handler`;
  - the response payloads.
- `Tickets`:
  - the ticket record and the table `id -> ticket`;
  - the invariant "every ticket is stored under its own id, and at most one ticket per repository is open";
  - `TicketStore`, a class holding the table in its `tickets` map field. It offers the four store operations, each as its docstring describes: the lookup reads the map, and create, update and close update it.
- `Deduplication`:
  - `Dedup`, the create/bump/rotate decision as a function of the table;
  - `RecordFailure`, the imperative failure path on a `TicketStore`, proved to compute exactly `Dedup`;
  - lemmas for each branch, for confinement to one repository, for history and counts, for trimmed comparison, and for any sequence of events.
- `Handler`:
  - validation;
  - `HandleSpec`, the whole `handle_workflow_failure` as a function;
  - the methods `HandleWorkflowFailure` and `LambdaHandler` on a store, proved equal to their specification functions;
  - lemmas on the order of the checks, and a create/update/rotate scenario.

Some inputs become parameters:

- the clock becomes the parameter `now`;
- `uuid.uuid4()` becomes `freshId`, required not to be a key of the table yet;
- the `WORKFLOW_SECRET` environment variable becomes `secret`.

## Model

| member | source | states |
|---|---|---|
| Text.Strip | app/handler.py:264-267 | the stripped value is no longer than the input and neither starts nor ends with a whitespace character; an unpadded string is returned unchanged |
| Text.StripSplit | app/handler.py:264-267 | every string is its stripped value with whitespace-only text before and after it, so stripping removes only end whitespace |
| Text.StripPadded | app/handler.py:264-267 | an unpadded string with any whitespace added at either end strips back to itself |
| Text.StripIgnoresPadding | app/handler.py:266 | adding whitespace at either end never changes the stripped value (" E " and "E" strip alike) |
| Text.StripIdempotent | app/handler.py:286 | stripping an already stripped value changes nothing |
| Text.StripEmptyIffAllSpace | app/handler.py:270 | a value strips to "" exactly when it consists of whitespace only |
| Text.EndsWithAfterPrefix | app/handler.py:351 | `endswith(suffix)` holds whatever stage prefix precedes the suffix |
| Text.ContainsAt | app/handler.py:358 | `sub in s` holds wherever `sub` sits inside `s` |
| Text.ContainsWitness | app/handler.py:358 | conversely, when `sub in s` holds there is a position of `s` where `sub` sits |
| Text.EndsWithSplits | app/handler.py:351 | conversely, a string that ends with the suffix is a prefix followed by the suffix |
| Text.Lower | app/handler.py:85 | `lower()` keeps the length, turns each upper-case ASCII letter into its lower-case letter (code point + 32) and changes nothing else |
| Text.Upper | app/handler.py:333 | `upper()` keeps the length, turns each lower-case ASCII letter into its upper-case letter (code point - 32) and changes nothing else |
| Text.LowerOfUpper | app/handler.py:333 | upper-casing a string keeps its lower-case form |
| Text.UpperOfSameLower | app/handler.py:333 | two strings with the same lower-case form have the same upper-case form |
| Http.GetHeader | app/handler.py:83-85 | a non-empty result is the value under the exact name or under the lower-cased name; a non-empty exact value wins; "" exactly when there are no headers or both spellings are missing or empty |
| Http.RequireWorkflowSecret | app/handler.py:103-107 | an empty secret authorises; with a secret configured, authorised iff the looked-up header equals it, so an authorised request carries it under one of the two spellings, and a non-empty exact header decides alone |
| Http.SecretHeaderFallbackName | app/handler.py:106 | the fallback name of `X-Workflow-Secret` is `x-workflow-secret` |
| Http.LowerCaseSecretHeaderAuthorises | app/handler.py:85 | a secret sent under the lower-case header name is accepted when the exact name is absent or empty |
| Http.MissingSecretHeaderRefused | app/handler.py:103-107 | with a secret configured, no headers or neither spelling of the header means refusal |
| Http.MethodOf | app/handler.py:333 | a missing method is ""; the method keeps its length, holds no lower-case ASCII letter and has the same lower-case form as the request's method, so it is that method upper-cased |
| Http.MethodOfIgnoresCase | app/handler.py:333 | methods that differ only in letter case are read as the same method |
| Http.PathOf | app/handler.py:334 | the path is `http.path` when non-empty, otherwise the non-empty `rawPath`; "" exactly when both are missing or empty |
| Http.RouteOf | app/handler.py:348-362 | each route is chosen exactly when its method/path condition holds (OPTIONS; POST ending "/workflow-failure"; GET ending "/todos"; PATCH containing "/todos/") |
| Http.FailureRouteAcceptsAnyCaseAndPrefix | app/handler.py:333 | a method spelled "post" in any letter case, to any path ending in "/workflow-failure", reaches the failure handler |
| Http.TodoRoutes | app/handler.py:354-360 | GET ".../todos" lists and PATCH ".../todos/<id>" patches, whatever the prefix |
| Http.Error | app/handler.py:55-68 | an error response has the given status and an error body carrying the given code and message |
| Http.FailureRouteNeedsPost | app/handler.py:351-362 | GET or PUT to ".../workflow-failure" falls through to 404 |
| Tickets.OpenIdsSingleton | app/handler.py:140-141 | under the invariant, the (repo, status open) lookup has at most one answer |
| Tickets.InsertOpenKeepsInvariant | app/handler.py:204-209 | inserting a new open ticket for a repository without one keeps the invariant, makes it that repository's only open ticket and leaves other repositories' lookups alone |
| Tickets.BumpKeepsInvariant | app/handler.py:165-169 | an occurrence bump keeps the invariant and changes no open-ticket lookup |
| Tickets.CloseKeepsInvariant | app/handler.py:185-186 | closing keeps the invariant and removes exactly that ticket from the open lookup |
| Tickets.TicketStore.FindOpenTicketForRepo | app/handler.py:139-146 | returns nothing iff the repository has no open ticket, else the stored open ticket of that repository (the unique one) |
| Tickets.TicketStore.CreateTicket | app/handler.py:203-228 | the table gains exactly the new ticket: fresh id, repo, open, count 1, message, run URL, all three timestamps `now` |
| Tickets.TicketStore.UpdateOccurrence | app/handler.py:164-169 | only that ticket changes: count + 1, lastSeenAt = updatedAt = now, runUrl = latest; the store invariant is kept |
| Tickets.TicketStore.CloseTicket | app/handler.py:184-191 | only that ticket changes: no longer open, updatedAt = now, stays in the table; the store invariant is kept |
| Deduplication.Dedup | app/handler.py:279-304 | the decision keeps the invariant, adds a key only when it creates, and leaves the repository with exactly one open ticket, the outcome's active one |
| Deduplication.DedupCreatesFirstTicket | app/handler.py:279-283 | with no open ticket: outcome created with the fresh id, exactly one ticket added with every field as created, all others unchanged |
| Deduplication.DedupBumpsMatchingTicket | app/handler.py:285-290 | with an open ticket whose trimmed message equals the new one: outcome updated with its id, count + 1, times and run URL renewed, everything else and every other ticket unchanged, no key added |
| Deduplication.DedupRotatesOnNewError | app/handler.py:292-304 | with a different trimmed message: outcome created_new(old, fresh) with old != fresh; the old ticket is superseded with updatedAt = now and its history kept; the new ticket is open with count 1 and the new message |
| Deduplication.DedupConfinedToRepo | app/handler.py:279-304 | tickets of other repositories and their open lookups are unchanged |
| Deduplication.DedupKeepsHistory | app/handler.py:184-186 | no ticket is deleted; ids, repos and creation times never change; a closed ticket is never changed again |
| Deduplication.DedupCountsGrowOnlyOnMatch | app/handler.py:285-290 | counts never decrease, and one grows only on a ticket that stays open with an unchanged message |
| Deduplication.DedupComparesTrimmedMessages | app/handler.py:286-288 | a stored message with whitespace around it dedupes with the same message sent bare |
| Deduplication.Replay | app/handler.py:292 | replaying failure events in order keeps the invariant and never loses a ticket |
| Deduplication.ReplayLeavesOneOpenTicket | app/handler.py:292 | after any event sequence, a repository that had one open ticket or received an event has exactly one |
| Deduplication.RecordFailure | app/handler.py:279-304 | the store-level failure path (find, then create, or bump, or close and create) yields exactly the table and outcome of `Dedup`, and keeps the store valid |
| Handler.Field | app/handler.py:264-267 | a body field is read as an unpadded string; a missing field is "" and an unpadded value is kept as it is |
| Handler.Validate | app/handler.py:264-277 | rejected iff the trimmed repo is empty or the trimmed status is neither "failure" nor "success" (empty repo reported first with "`repo` is required", otherwise "`status` must be 'failure' or 'success'"); ignored iff status is "success"; a failure carries the trimmed fields |
| Handler.Render | app/handler.py:283-304 | the 202 body is created, updated or created_new exactly as the outcome is, and carries the repo, the active ticket id and, on rotation, the previous id |
| Handler.HandleSpec | app/handler.py:257-304 | the handler keeps the invariant, adds at most the fresh key, answers 202, 400 or 401, and changes the table only with a created/updated/created_new 202 answer |
| Handler.UnparsableBodyRejected | app/handler.py:260-262 | an authorised body that is not JSON, or not a JSON object, gets 400 INVALID_JSON with its message and leaves the table alone |
| Handler.UnauthorisedBeforeAnything | app/handler.py:257-258 | an unauthorised request gets 401 UNAUTHORIZED whatever its body and leaves the table alone |
| Handler.InvalidEventLeavesTable | app/handler.py:270-274 | a whitespace-only repo or a bad status gets 400 VALIDATION_ERROR with the repo message if the repo is whitespace-only and the status message otherwise, and leaves the table alone |
| Handler.SuccessIsIgnored | app/handler.py:276-277 | a valid success report gets 202 ignored with its repo and leaves the table alone |
| Handler.FailureIsDeduplicated | app/handler.py:279-304 | a valid failure report applies `Dedup` to the trimmed fields and renders its outcome with 202 |
| Handler.MessagePaddingIsIrrelevant | app/handler.py:266 | " E " and "E" as errorMessage give the same table and response |
| Handler.MissingMessageIsEmpty | app/handler.py:266 | an absent errorMessage is handled as "" |
| Handler.HandleWorkflowFailure | app/handler.py:232-304 | the method's new table and response are those of `HandleSpec`, and the store stays valid |
| Handler.LambdaSpec | app/handler.py:332-362 | only the failure route can change the table, and it is answered exactly as `handle_workflow_failure` answers; OPTIONS answers 204, list 200 items, patch 200 ok, anything else 404 NOT_FOUND "No route for <METHOD> <path>" |
| Handler.LambdaHandler | app/handler.py:307-362 | the method's new table and response are those of `LambdaSpec` |
| Handler.ReportReachesDecision | app/handler.py:264-277 | a report with unpadded fields is ignored on success and decided by `Dedup` on failure |
| Handler.ReportCreates | app/handler.py:281-283 | a failure report for a repository with no open ticket answers created and adds the new ticket |
| Handler.ReportBumps | app/handler.py:288-290 | a failure report repeating the open ticket's message answers updated and bumps that ticket |
| Handler.ReportRotates | app/handler.py:292-304 | a failure report with a new message answers created_new, closes the old ticket and adds the new one |
| Handler.FailureSequenceScenario | app/handler.py:279-304 | failure E1, E1 again, then E2 answer created, updated (count 2) and created_new; the repository ends with one open ticket, for E2, with count 1 |

## Left out

- JSON decoding (`parse_json_body`) and encoding (`json.dumps` in `response`) are not modelled. The body arrives as `ParsedBody`: invalid JSON, a non-object, or an object. An object's fields are optional strings, already passed through `str()`. A missing, null or falsy field is `None`. An empty body is the object with no fields.
- Response headers (Content-Type and CORS) and the `print` request log carry no logic and are not modelled.
- DynamoDB is not modelled, because the four store functions are placeholders. The store is an in-memory map and follows their docstrings, not their stub bodies (the stub lookup always returns `None`).
- Tickets.TicketStore.CloseTicket: sets status `superseded`. The source leaves "done" or "superseded" open, and this close only happens on rotation.
- Tickets.TicketStore.UpdateOccurrence: requires the ticket id to be in the table. The handler calls it only with the id it just found. It does not model a DynamoDB update creating a missing item. The `repo` argument, described in the source as useful for logging and safety checks, is unused.
- Tickets.TicketStore.CloseTicket also requires the ticket id to be in the table, for the same reason.
- Concurrent delivery, conditional writes and retry on conflict are not modelled. The code has none of them, and the model follows the code. It proves the one-open-ticket invariant for sequential handling only.
- Text.Lower and Text.Upper map only the ASCII letters. Python's full Unicode case mapping is not modelled. Header names and HTTP methods are ASCII.
- The GET /todos and PATCH /todos/{id} handlers are placeholders returning constant answers. They are modelled as those constants.
- Handler.FailureSequenceScenario: stops after the three failure reports. A success report that follows would leave the table alone and answer ignored; `Handler.SuccessIsIgnored` states this for every table.
