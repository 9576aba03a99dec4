/**
 * The deduplication decision for one failure event (the part of
 * `handle_workflow_failure` after validation). Relative to the repository's
 * open ticket, if any, it creates a ticket, bumps the open one, or closes
 * the open one and creates a replacement.
 *
 * `Dedup` is the decision as a function of the table; `RecordFailure` is
 * the handler's step-by-step version against a `TicketStore`, proved to
 * end in the state and outcome `Dedup` gives.
 */
module Deduplication {
  import opened Wrappers
  import opened Text
  import opened Tickets

  /** The three things a failure event can do: "created", "updated", "created_new". */
  datatype Outcome =
    | Created(ticketId: string)
    | Updated(ticketId: string)
    | CreatedNew(previousTicketId: string, newTicketId: string)
  {
    /** The ticket left open for the repository. */
    function ActiveId(): string {
      match this
      case Created(id) => id
      case Updated(id) => id
      case CreatedNew(_, id) => id
    }
  }

  datatype Decision = Decision(tickets: Table, outcome: Outcome)

  /**
   * One failure event for `repo`, with `errorMessage` and `runUrl` already
   * trimmed. The stored message is trimmed before the comparison too.
   * `freshId` is the id a created ticket gets.
   */
  ghost function Dedup(m: Table, repo: string, errorMessage: string, runUrl: string, now: string, freshId: string)
    : (r: Decision)
    requires TableInvariant(m) && freshId !in m
    ensures TableInvariant(r.tickets)
    ensures r.tickets.Keys == if r.outcome.Updated? then m.Keys else m.Keys + {freshId}
    ensures OpenIds(r.tickets, repo) == {r.outcome.ActiveId()}
  {
    match OpenTicketId(m, repo)
    case None =>
      var t := NewTicket(freshId, repo, errorMessage, runUrl, now);
      InsertOpenKeepsInvariant(m, t);
      Decision(m[freshId := t], Created(freshId))
    case Some(id) =>
      OpenIdsSingleton(m, repo, id);
      if errorMessage == Strip(m[id].errorMessage) then
        BumpKeepsInvariant(m, id, now, runUrl);
        Decision(m[id := Bumped(m[id], now, runUrl)], Updated(id))
      else
        var closed := m[id := Closed(m[id], now)];
        CloseKeepsInvariant(m, id, now);
        var t := NewTicket(freshId, repo, errorMessage, runUrl, now);
        InsertOpenKeepsInvariant(closed, t);
        Decision(closed[freshId := t], CreatedNew(id, freshId))
  }

  /** No open ticket: exactly one ticket is added, open, with one occurrence, and nothing else changes. */
  lemma DedupCreatesFirstTicket(m: Table, repo: string, errorMessage: string, runUrl: string, now: string, freshId: string)
    requires TableInvariant(m) && freshId !in m
    requires forall id :: id in m ==> !OpenFor(m[id], repo)
    ensures var r := Dedup(m, repo, errorMessage, runUrl, now, freshId);
      && r.outcome == Created(freshId)
      && r.tickets.Keys == m.Keys + {freshId}
      && r.tickets[freshId].id == freshId
      && r.tickets[freshId].repo == repo
      && r.tickets[freshId].status == Open
      && r.tickets[freshId].occurrenceCount == 1
      && r.tickets[freshId].errorMessage == errorMessage
      && r.tickets[freshId].runUrl == runUrl
      && r.tickets[freshId].createdAt == now
      && r.tickets[freshId].lastSeenAt == now
      && r.tickets[freshId].updatedAt == now
      && (forall id :: id in m ==> r.tickets[id] == m[id])
  {
    assert OpenIds(m, repo) == {};
  }

  /**
   * An open ticket with the same (trimmed) message: that ticket gets one more
   * occurrence, is seen and updated at `now`, takes the latest run URL, and
   * keeps everything else; no ticket is created or closed.
   */
  lemma DedupBumpsMatchingTicket(
    m: Table, repo: string, errorMessage: string, runUrl: string, now: string, freshId: string, id: string)
    requires TableInvariant(m) && freshId !in m
    requires id in m && OpenFor(m[id], repo) && Strip(m[id].errorMessage) == errorMessage
    ensures var r := Dedup(m, repo, errorMessage, runUrl, now, freshId);
      && r.outcome == Updated(id)
      && r.tickets.Keys == m.Keys
      && r.tickets[id].occurrenceCount == m[id].occurrenceCount + 1
      && r.tickets[id].lastSeenAt == now
      && r.tickets[id].updatedAt == now
      && r.tickets[id].runUrl == runUrl
      && r.tickets[id].status == Open
      && r.tickets[id].id == id
      && r.tickets[id].repo == repo
      && r.tickets[id].errorMessage == m[id].errorMessage
      && r.tickets[id].createdAt == m[id].createdAt
      && (forall other :: other in m && other != id ==> r.tickets[other] == m[other])
  {
    OpenIdsSingleton(m, repo, id);
  }

  /**
   * An open ticket with a different (trimmed) message: the old ticket stays
   * in the table, no longer open, updated at `now`, its history intact; a new
   * open ticket with one occurrence replaces it, under a different id.
   */
  lemma DedupRotatesOnNewError(
    m: Table, repo: string, errorMessage: string, runUrl: string, now: string, freshId: string, id: string)
    requires TableInvariant(m) && freshId !in m
    requires id in m && OpenFor(m[id], repo) && Strip(m[id].errorMessage) != errorMessage
    ensures var r := Dedup(m, repo, errorMessage, runUrl, now, freshId);
      && r.outcome == CreatedNew(id, freshId)
      && id != freshId
      && r.tickets.Keys == m.Keys + {freshId}
      && r.tickets[id].status == Superseded
      && r.tickets[id].updatedAt == now
      && r.tickets[id].id == id
      && r.tickets[id].repo == repo
      && r.tickets[id].errorMessage == m[id].errorMessage
      && r.tickets[id].runUrl == m[id].runUrl
      && r.tickets[id].occurrenceCount == m[id].occurrenceCount
      && r.tickets[id].createdAt == m[id].createdAt
      && r.tickets[id].lastSeenAt == m[id].lastSeenAt
      && r.tickets[freshId] == NewTicket(freshId, repo, errorMessage, runUrl, now)
      && r.tickets[freshId].status == Open
      && r.tickets[freshId].occurrenceCount == 1
      && (forall other :: other in m && other != id ==> r.tickets[other] == m[other])
  {
    OpenIdsSingleton(m, repo, id);
    assert OpenTicketId(m, repo) == Some(id);
    var closed := m[id := Closed(m[id], now)];
    var t := NewTicket(freshId, repo, errorMessage, runUrl, now);
    var r := Dedup(m, repo, errorMessage, runUrl, now, freshId);
    assert r == Decision(closed[freshId := t], CreatedNew(id, freshId));
    assert r.tickets[freshId] == t;
    forall other | other in m && other != id
      ensures r.tickets[other] == m[other]
    {
    }
  }

  /**
   * An event touches only its own repository: every ticket of another
   * repository is unchanged, and so is every other repository's open ticket.
   */
  lemma DedupConfinedToRepo(
    m: Table, repo: string, errorMessage: string, runUrl: string, now: string, freshId: string, other: string)
    requires TableInvariant(m) && freshId !in m
    requires other != repo
    ensures var r := Dedup(m, repo, errorMessage, runUrl, now, freshId);
      && (forall id :: id in m && m[id].repo != repo ==> id in r.tickets && r.tickets[id] == m[id])
      && OpenIds(r.tickets, other) == OpenIds(m, other)
  {
    var r := Dedup(m, repo, errorMessage, runUrl, now, freshId);
    match OpenTicketId(m, repo)
    case None =>
    case Some(id) =>
      OpenIdsSingleton(m, repo, id);
  }

  /**
   * Tickets are history: none is deleted, ids, repos and creation times never
   * change, and a ticket that is no longer open is never changed again.
   */
  lemma DedupKeepsHistory(
    m: Table, repo: string, errorMessage: string, runUrl: string, now: string, freshId: string)
    requires TableInvariant(m) && freshId !in m
    ensures var r := Dedup(m, repo, errorMessage, runUrl, now, freshId);
      forall id :: id in m ==>
        && id in r.tickets
        && r.tickets[id].id == m[id].id
        && r.tickets[id].repo == m[id].repo
        && r.tickets[id].createdAt == m[id].createdAt
        && (m[id].status != Open ==> r.tickets[id] == m[id])
  {
    var r := Dedup(m, repo, errorMessage, runUrl, now, freshId);
    match OpenTicketId(m, repo)
    case None =>
      assert r.tickets == m[freshId := NewTicket(freshId, repo, errorMessage, runUrl, now)];
    case Some(id) =>
      OpenIdsSingleton(m, repo, id);
      if errorMessage == Strip(m[id].errorMessage) {
        assert r.tickets == m[id := Bumped(m[id], now, runUrl)];
      } else {
        var t := NewTicket(freshId, repo, errorMessage, runUrl, now);
        assert r.tickets == m[id := Closed(m[id], now)][freshId := t];
      }
  }

  /**
   * Occurrence counts never go down, and one only goes up on a ticket that
   * stays open with the message it had.
   */
  lemma DedupCountsGrowOnlyOnMatch(
    m: Table, repo: string, errorMessage: string, runUrl: string, now: string, freshId: string)
    requires TableInvariant(m) && freshId !in m
    ensures var r := Dedup(m, repo, errorMessage, runUrl, now, freshId);
      forall id :: id in m ==>
        && r.tickets[id].occurrenceCount >= m[id].occurrenceCount
        && (r.tickets[id].occurrenceCount > m[id].occurrenceCount ==>
              && m[id].status == Open
              && r.tickets[id].status == Open
              && r.tickets[id].errorMessage == m[id].errorMessage)
  {
    match OpenTicketId(m, repo)
    case None =>
      forall x | x in m
        ensures !OpenFor(m[x], repo)
      {
        assert x !in OpenIds(m, repo);
      }
      DedupCreatesFirstTicket(m, repo, errorMessage, runUrl, now, freshId);
    case Some(id) =>
      if Strip(m[id].errorMessage) == errorMessage {
        DedupBumpsMatchingTicket(m, repo, errorMessage, runUrl, now, freshId, id);
      } else {
        DedupRotatesOnNewError(m, repo, errorMessage, runUrl, now, freshId, id);
      }
  }

  /**
   * Messages are compared trimmed on both sides: a stored message with
   * whitespace around it dedupes with the same message sent bare.
   */
  lemma DedupComparesTrimmedMessages(
    m: Table, repo: string, e: string, p: string, q: string, runUrl: string, now: string, freshId: string, id: string)
    requires TableInvariant(m) && freshId !in m
    requires AllSpace(p) && AllSpace(q) && Unpadded(e)
    requires id in m && OpenFor(m[id], repo) && m[id].errorMessage == p + e + q
    ensures Dedup(m, repo, e, runUrl, now, freshId).outcome == Updated(id)
  {
    StripPadded(p, e, q);
    DedupBumpsMatchingTicket(m, repo, e, runUrl, now, freshId, id);
  }

  /** A failure event as the decision sees it, with the id a new ticket would get. */
  datatype FailureEvent = FailureEvent(repo: string, errorMessage: string, runUrl: string, now: string, freshId: string)

  /** Every event's id is new to the table and to the other events. */
  ghost predicate FreshIds(m: Table, events: seq<FailureEvent>) {
    && (forall i :: 0 <= i < |events| ==> events[i].freshId !in m)
    && (forall i, j :: 0 <= i < j < |events| ==> events[i].freshId != events[j].freshId)
  }

  /** The table after handling `events` in order. */
  ghost function Replay(m: Table, events: seq<FailureEvent>): (r: Table)
    requires TableInvariant(m) && FreshIds(m, events)
    ensures TableInvariant(r)
    ensures m.Keys <= r.Keys
    decreases |events|
  {
    if events == [] then m
    else
      var e := events[0];
      var d := Dedup(m, e.repo, e.errorMessage, e.runUrl, e.now, e.freshId);
      assert FreshIds(d.tickets, events[1..]) by {
        forall i | 0 <= i < |events[1..]|
          ensures events[1..][i].freshId !in d.tickets
        {
          assert events[1..][i] == events[i + 1];
        }
      }
      Replay(d.tickets, events[1..])
  }

  /**
   * After any sequence of failure events, a repository that had one open
   * ticket, or that any event was about, has exactly one open ticket.
   */
  lemma {:induction false} ReplayLeavesOneOpenTicket(m: Table, events: seq<FailureEvent>, repo: string)
    requires TableInvariant(m) && FreshIds(m, events)
    requires |OpenIds(m, repo)| == 1 || exists i :: 0 <= i < |events| && events[i].repo == repo
    ensures |OpenIds(Replay(m, events), repo)| == 1
    decreases |events|
  {
    if events == [] {
    } else {
      var e := events[0];
      var d := Dedup(m, e.repo, e.errorMessage, e.runUrl, e.now, e.freshId);
      assert FreshIds(d.tickets, events[1..]) by {
        forall i | 0 <= i < |events[1..]|
          ensures events[1..][i].freshId !in d.tickets
        {
          assert events[1..][i] == events[i + 1];
        }
      }
      assert Replay(m, events) == Replay(d.tickets, events[1..]);
      if e.repo == repo {
        assert |OpenIds(d.tickets, repo)| == 1;
      } else {
        DedupConfinedToRepo(m, e.repo, e.errorMessage, e.runUrl, e.now, e.freshId, repo);
        if |OpenIds(m, repo)| != 1 {
          var i :| 0 <= i < |events| && events[i].repo == repo;
          assert events[1..][i - 1].repo == repo;
        }
      }
      ReplayLeavesOneOpenTicket(d.tickets, events[1..], repo);
    }
  }

  /**
   * The failure path of `handle_workflow_failure`: look up the open ticket,
   * then create, bump, or close and create, through the store's operations.
   */
  method RecordFailure(
    store: TicketStore, repo: string, errorMessage: string, runUrl: string, now: string, freshId: string)
    returns (outcome: Outcome)
    requires store.Valid() && freshId !in store.tickets
    modifies store
    ensures store.Valid()
    ensures Decision(store.tickets, outcome) == Dedup(old(store.tickets), repo, errorMessage, runUrl, now, freshId)
  {
    var existing := store.FindOpenTicketForRepo(repo);
    if existing.None? {
      InsertOpenKeepsInvariant(store.tickets, NewTicket(freshId, repo, errorMessage, runUrl, now));
      var created := store.CreateTicket(repo, errorMessage, runUrl, now, freshId);
      outcome := Created(created.id);
      return;
    }
    var existingId := existing.value.id;
    var existingError := Strip(existing.value.errorMessage);
    if errorMessage == existingError {
      BumpKeepsInvariant(store.tickets, existingId, now, runUrl);
      store.UpdateOccurrence(existingId, repo, now, runUrl);
      outcome := Updated(existingId);
      return;
    }
    // Close the old open ticket first, so the repository keeps one active ticket.
    OpenIdsSingleton(store.tickets, repo, existingId);
    CloseKeepsInvariant(store.tickets, existingId, now);
    store.CloseTicket(existingId, now);
    InsertOpenKeepsInvariant(store.tickets, NewTicket(freshId, repo, errorMessage, runUrl, now));
    var created := store.CreateTicket(repo, errorMessage, runUrl, now, freshId);
    outcome := CreatedNew(existingId, created.id);
  }
}
