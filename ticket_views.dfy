/**
 * The read side of Controllers/TicketController.cs: a user's own ticket list
 * and the details page, with the owner-or-admin visibility rule.
 */
module TicketViews {
  import opened Wrappers
  import opened Models
  import opened Listing
  import TimeTracking

  /** `Tickets.Where(t => t.UserId == u)`: the stored tickets one user owns, in table order. */
  function Owned(tickets: map<TicketId, Ticket>, u: UserId): (r: seq<Ticket>)
    ensures forall t :: t in r <==> t in tickets.Values && OwnedBy(t, u)
    ensures KeyedById(tickets) ==> Unique(r)
  {
    var owns := (t: Ticket) => OwnedBy(t, u);
    WhereUnique(Rows(tickets), owns);
    Where(Rows(tickets), owns)
  }

  /** `Tickets.Count(t => t.UserId == u)`: one row per stored ticket the user owns. */
  lemma OwnedCount(tickets: map<TicketId, Ticket>, u: UserId)
    ensures |Owned(tickets, u)| == |set k | k in tickets && OwnedBy(tickets[k], u)|
  {
    var owns := (t: Ticket) => OwnedBy(t, u);
    WhereRowsCount(tickets, owns);
    SameOwnedKeys(tickets, owns, u);
  }

  lemma SameOwnedKeys(tickets: map<TicketId, Ticket>, owns: Ticket -> bool, u: UserId)
    requires forall t :: owns(t) == OwnedBy(t, u)
    ensures (set k | k in tickets && owns(tickets[k])) == (set k | k in tickets && OwnedBy(tickets[k], u))
  {
  }

  /** `MyTickets`: the caller's tickets, newest first. */
  function MyTickets(actor: Actor, tickets: map<TicketId, Ticket>): (r: seq<Ticket>)
    ensures forall t :: t in r <==> t in tickets.Values && OwnedBy(t, actor.id)
    ensures forall i, j :: 0 <= i < j < |r| ==> r[i].createdAt >= r[j].createdAt
    ensures KeyedById(tickets) ==> Unique(r)
  {
    NewestFirst(Owned(tickets, actor.id))
  }

  /** The comments table rows of one ticket, in the order they were added. */
  function CommentsOf(comments: seq<TicketComment>, id: TicketId): (r: seq<TicketComment>)
    ensures forall c :: c in r <==> c in comments && c.ticketId == id
    ensures (forall c :: c in comments ==> c.ticketId != id) ==> r == []
  {
    var about := (c: TicketComment) => c.ticketId == id;
    WhereNone(comments, about);
    Where(comments, about)
  }

  /** The model behind the details page (ViewModels/TicketDetailsViewModel.cs). */
  datatype DetailsView = DetailsView(ticket: Ticket, comments: seq<TicketComment>, isAdmin: bool, isOwner: bool)
  {
    /** Recomputed on every read, never stored. */
    function TotalMinutes(): int {
      TimeTracking.TotalMinutes(ticket.timeEntries)
    }

    function TotalTimeFormatted(): string {
      TimeTracking.FormatTotal(TotalMinutes())
    }
  }

  /** `Details(id)`: not found, forbidden to strangers, or the ticket with its comments. */
  function Details(actor: Actor, tickets: map<TicketId, Ticket>, comments: seq<TicketComment>, id: TicketId): (r: Result<DetailsView>)
    ensures r == Err(NotFound) <==> id !in tickets
    ensures r == Err(Forbidden) <==> id in tickets && !actor.isAdmin && tickets[id].userId != Some(actor.id)
    ensures r.Ok? <==> id in tickets && MayAccess(actor, tickets[id])
    ensures r.Ok? ==> r.value.ticket == tickets[id] && r.value.isAdmin == actor.isAdmin
    ensures r.Ok? ==> (r.value.isOwner <==> tickets[id].userId == Some(actor.id))
    ensures r.Ok? ==> forall c :: c in r.value.comments <==> c in comments && c.ticketId == id
  {
    if id !in tickets then Err(NotFound)
    else
      var t := tickets[id];
      if !actor.isAdmin && t.userId != Some(actor.id) then Err(Forbidden)
      else Ok(DetailsView(t, CommentsOf(comments, id), actor.isAdmin, t.userId == Some(actor.id)))
  }

  /** A non-admin can open exactly the tickets their own list shows. */
  lemma DetailsAgreesWithMyTickets(actor: Actor, tickets: map<TicketId, Ticket>, comments: seq<TicketComment>, id: TicketId)
    requires id in tickets && !actor.isAdmin
    ensures Details(actor, tickets, comments, id).Ok? <==> tickets[id] in MyTickets(actor, tickets)
  {
  }

  /** The details page reports the sum of the ticket's logged minutes, and "0m" when nothing is logged. */
  lemma DetailsTotals(actor: Actor, tickets: map<TicketId, Ticket>, comments: seq<TicketComment>, id: TicketId)
    requires Details(actor, tickets, comments, id).Ok?
    ensures var v := Details(actor, tickets, comments, id).value;
            TimeTracking.ParseTotal(v.TotalTimeFormatted()) == Some(TimeTracking.TotalMinutes(tickets[id].timeEntries))
    ensures tickets[id].timeEntries == [] ==> Details(actor, tickets, comments, id).value.TotalTimeFormatted() == "0m"
  {
    var v := Details(actor, tickets, comments, id).value;
    TimeTracking.FormatTotalRoundTrip(v.TotalMinutes());
    TimeTracking.FormatExamples();
  }
}
