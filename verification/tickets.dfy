/**
 * The ticket table. A ticket is the record the handler keeps per unresolved
 * failure of a repository; the table maps a ticket's `id` (its primary key)
 * to the ticket. `TicketStore` holds the table in memory and offers the four
 * operations the failure handler uses, each doing what the corresponding
 * DynamoDB placeholder promises.
 */
module Tickets {
  import opened Wrappers

  /** "open", or one of the two "no longer open" values. */
  datatype Status = Open | Done | Superseded

  datatype Ticket = Ticket(
    id: string,
    repo: string,
    status: Status,
    errorMessage: string,
    runUrl: string,
    occurrenceCount: nat,
    createdAt: string,
    lastSeenAt: string,
    updatedAt: string)

  type Table = map<string, Ticket>

  /** The item `db_create_ticket` builds. */
  function NewTicket(id: string, repo: string, errorMessage: string, runUrl: string, now: string): Ticket {
    Ticket(id, repo, Open, errorMessage, runUrl, 1, now, now, now)
  }

  /** The update `db_update_occurrence` applies. */
  function Bumped(t: Ticket, now: string, runUrl: string): Ticket {
    t.(occurrenceCount := t.occurrenceCount + 1, lastSeenAt := now, updatedAt := now, runUrl := runUrl)
  }

  /** The update `db_close_ticket` applies. */
  function Closed(t: Ticket, now: string): Ticket {
    t.(status := Superseded, updatedAt := now)
  }

  predicate OpenFor(t: Ticket, repo: string) {
    t.status == Open && t.repo == repo
  }

  /** The ids the (repo, status = "open") lookup can return. */
  function OpenIds(m: Table, repo: string): set<string> {
    set id | id in m && OpenFor(m[id], repo)
  }

  /** Every ticket is stored under its own id. */
  ghost predicate WellKeyed(m: Table) {
    forall id :: id in m ==> m[id].id == id
  }

  /** `a` and `b` are both open tickets of one repository. */
  ghost predicate OpenTogether(m: Table, a: string, b: string) {
    a in m && b in m && m[a].status == Open && m[b].status == Open && m[a].repo == m[b].repo
  }

  /** At most one ticket with status open per repository. */
  ghost predicate AtMostOneOpenPerRepo(m: Table) {
    forall a, b {:trigger OpenTogether(m, a, b)} :: OpenTogether(m, a, b) ==> a == b
  }

  ghost predicate TableInvariant(m: Table) {
    WellKeyed(m) && AtMostOneOpenPerRepo(m)
  }

  /** Under the invariant, the open-ticket lookup has at most one answer. */
  lemma OpenIdsSingleton(m: Table, repo: string, id: string)
    requires AtMostOneOpenPerRepo(m) && id in OpenIds(m, repo)
    ensures OpenIds(m, repo) == {id}
  {
    forall x | x in OpenIds(m, repo)
      ensures x == id
    {
      assert OpenTogether(m, x, id);
    }
  }

  /**
   * Creating a ticket for a repository with no open ticket keeps the
   * invariant, makes the new ticket that repository's only open ticket and
   * leaves every other repository's open ticket as it was.
   */
  lemma InsertOpenKeepsInvariant(m: Table, t: Ticket)
    requires TableInvariant(m) && t.id !in m && t.status == Open
    requires OpenIds(m, t.repo) == {}
    ensures TableInvariant(m[t.id := t])
    ensures OpenIds(m[t.id := t], t.repo) == {t.id}
    ensures forall other :: other != t.repo ==> OpenIds(m[t.id := t], other) == OpenIds(m, other)
  {
    var m' := m[t.id := t];
    assert forall x :: x in m && OpenFor(m[x], t.repo) ==> x in OpenIds(m, t.repo);
    forall a, b | OpenTogether(m', a, b)
      ensures a == b
    {
      if a != t.id && b != t.id {
        assert OpenTogether(m, a, b);
      }
    }
    forall other | other != t.repo
      ensures OpenIds(m', other) == OpenIds(m, other)
    {
    }
  }

  /** Bumping an occurrence changes neither the invariant nor any open-ticket lookup. */
  lemma BumpKeepsInvariant(m: Table, id: string, now: string, runUrl: string)
    requires TableInvariant(m) && id in m
    ensures TableInvariant(m[id := Bumped(m[id], now, runUrl)])
    ensures forall repo :: OpenIds(m[id := Bumped(m[id], now, runUrl)], repo) == OpenIds(m, repo)
  {
    var m' := m[id := Bumped(m[id], now, runUrl)];
    forall a, b | OpenTogether(m', a, b)
      ensures a == b
    {
      assert OpenTogether(m, a, b);
    }
    forall repo
      ensures OpenIds(m', repo) == OpenIds(m, repo)
    {
    }
  }

  /** Closing a ticket keeps the invariant and removes it from its repository's open lookup, and only there. */
  lemma CloseKeepsInvariant(m: Table, id: string, now: string)
    requires TableInvariant(m) && id in m
    ensures TableInvariant(m[id := Closed(m[id], now)])
    ensures forall repo :: OpenIds(m[id := Closed(m[id], now)], repo) == OpenIds(m, repo) - {id}
  {
    var m' := m[id := Closed(m[id], now)];
    forall a, b | OpenTogether(m', a, b)
      ensures a == b
    {
      assert OpenTogether(m, a, b);
    }
    forall repo
      ensures OpenIds(m', repo) == OpenIds(m, repo) - {id}
    {
    }
  }

  /** The id of the repository's open ticket, if any. */
  ghost function OpenTicketId(m: Table, repo: string): Option<string> {
    if OpenIds(m, repo) == {} then None else Some(var id :| id in OpenIds(m, repo); id)
  }

  /** An in-memory ticket table, standing in for the DynamoDB table. */
  class TicketStore {
    var tickets: Table

    ghost predicate Valid()
      reads this
    {
      TableInvariant(tickets)
    }

    constructor ()
      ensures Valid() && tickets == map[]
    {
      tickets := map[];
    }

    /**
     * `db_find_open_ticket_for_repo`: the ticket with this repo and status
     * open, or nothing when there is none.
     */
    method FindOpenTicketForRepo(repo: string) returns (found: Option<Ticket>)
      requires Valid()
      ensures found.None? <==> OpenIds(tickets, repo) == {}
      ensures found.Some? ==>
                && found.value.id in tickets
                && tickets[found.value.id] == found.value
                && found.value.status == Open
                && found.value.repo == repo
      ensures found.Some? <==> OpenTicketId(tickets, repo).Some?
      ensures found.Some? ==> found.value.id == OpenTicketId(tickets, repo).value
    {
      var ids := OpenIds(tickets, repo);
      if ids == {} {
        found := None;
      } else {
        var id :| id in ids;
        OpenIdsSingleton(tickets, repo, id);
        found := Some(tickets[id]);
      }
    }

    /**
     * `db_create_ticket`: inserts a new open ticket with one occurrence and
     * all three timestamps set to `now`. The id, a fresh UUID in the
     * source, is passed in.
     */
    method CreateTicket(repo: string, errorMessage: string, runUrl: string, now: string, freshId: string)
      returns (created: Ticket)
      requires freshId !in tickets
      modifies this
      ensures created == NewTicket(freshId, repo, errorMessage, runUrl, now)
      ensures tickets == old(tickets)[freshId := created]
    {
      created := NewTicket(freshId, repo, errorMessage, runUrl, now);
      tickets := tickets[freshId := created];
    }

    /**
     * `db_update_occurrence`: one more occurrence of the existing ticket,
     * seen at `now`, with the latest run URL. `repo`, meant for logging and
     * safety checks in the source, is not used.
     */
    method UpdateOccurrence(ticketId: string, repo: string, now: string, runUrl: string)
      requires Valid() && ticketId in tickets
      modifies this
      ensures Valid()
      ensures tickets == old(tickets)[ticketId := Bumped(old(tickets)[ticketId], now, runUrl)]
    {
      BumpKeepsInvariant(tickets, ticketId, now, runUrl);
      tickets := tickets[ticketId := Bumped(tickets[ticketId], now, runUrl)];
    }

    /** `db_close_ticket`: the ticket stays in the table, no longer open. */
    method CloseTicket(ticketId: string, now: string)
      requires Valid() && ticketId in tickets
      modifies this
      ensures Valid()
      ensures tickets == old(tickets)[ticketId := Closed(old(tickets)[ticketId], now)]
    {
      CloseKeepsInvariant(tickets, ticketId, now);
      tickets := tickets[ticketId := Closed(tickets[ticketId], now)];
    }
  }
}
