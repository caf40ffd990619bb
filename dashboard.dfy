/**
 * The dashboard (Controllers/HomeController.cs): the tickets the caller may
 * see, counted by status, and the ten newest of them.
 */
module Dashboard {
  import opened Wrappers
  import opened Models
  import opened Listing
  import opened TicketViews

  /** `Take(10)`. */
  const RecentLimit: nat := 10

  /** The model behind the dashboard (ViewModels/DashboardViewModel.cs). */
  datatype DashboardView = DashboardView(
    totalTickets: nat,
    openTickets: nat,
    inProgressTickets: nat,
    resolvedTickets: nat,
    closedTickets: nat,
    recentTickets: seq<Ticket>)

  /** The tickets the caller sees: every ticket for an admin, their own otherwise. */
  function Visible(actor: Actor, tickets: map<TicketId, Ticket>): (r: seq<Ticket>)
    ensures forall t :: t in r <==> t in tickets.Values && MayAccess(actor, t)
    ensures KeyedById(tickets) ==> Unique(r)
  {
    if actor.isAdmin then Rows(tickets) else Owned(tickets, actor.id)
  }

  /** Counting the visible rows counts the stored tickets the caller may see. */
  lemma VisibleCount(actor: Actor, tickets: map<TicketId, Ticket>)
    ensures |Visible(actor, tickets)| == |set k | k in tickets && MayAccess(actor, tickets[k])|
  {
    var seen := set k | k in tickets && MayAccess(actor, tickets[k]);
    if actor.isAdmin {
      assert seen == tickets.Keys;
    } else {
      OwnedCount(tickets, actor.id);
      assert seen == set k | k in tickets && OwnedBy(tickets[k], actor.id);
    }
  }

  /** Counting one status among the visible rows counts the visible stored tickets with that status. */
  lemma VisibleStatusCount(actor: Actor, tickets: map<TicketId, Ticket>, status: TicketStatus)
    ensures CountStatus(Visible(actor, tickets), status) ==
            |set k | k in tickets && MayAccess(actor, tickets[k]) && tickets[k].status == status|
  {
    var shown := if actor.isAdmin then (t: Ticket) => true else (t: Ticket) => OwnedBy(t, actor.id);
    if actor.isAdmin {
      WhereAll(Rows(tickets), shown);
    }
    assert Visible(actor, tickets) == Where(Rows(tickets), shown);
    CountStatusWhereRows(tickets, shown, status);
    VisibleStatusKeys(actor, tickets, shown, status);
  }

  lemma VisibleStatusKeys(actor: Actor, tickets: map<TicketId, Ticket>, shown: Ticket -> bool, status: TicketStatus)
    requires forall t :: shown(t) == MayAccess(actor, t)
    ensures (set k | k in tickets && shown(tickets[k]) && tickets[k].status == status) ==
            (set k | k in tickets && MayAccess(actor, tickets[k]) && tickets[k].status == status)
  {
  }

  /** The first `n` rows of a newest-first list: nothing left out is newer than anything kept. */
  lemma TakeNewest(s: seq<Ticket>, n: nat)
    requires n <= |s|
    requires forall i, j :: 0 <= i < j < |s| ==> s[i].createdAt >= s[j].createdAt
    ensures forall t, i :: t in s && t !in s[..n] && 0 <= i < n ==> t.createdAt <= s[..n][i].createdAt
    ensures Unique(s) ==> Unique(s[..n])
  {
    assert forall k :: 0 <= k < n ==> s[k] in s[..n] by {
      forall k | 0 <= k < n ensures s[k] in s[..n] {
        assert s[..n][k] == s[k];
      }
    }
    forall t, i | t in s && t !in s[..n] && 0 <= i < n ensures t.createdAt <= s[..n][i].createdAt {
      var j :| 0 <= j < |s| && s[j] == t;
      assert n <= j;
      assert s[..n][i] == s[i];
    }
    assert s == s[..n] + s[n..];
    assert multiset(s) == multiset(s[..n]) + multiset(s[n..]);
    assert forall x :: multiset(s[..n])[x] <= multiset(s)[x];
  }

  /**
   * `Index()`: the number of visible tickets, how many have each status, and
   * the ten newest of them, newest first.
   */
  function Index(actor: Actor, tickets: map<TicketId, Ticket>): (r: DashboardView)
    ensures r.totalTickets == |set k | k in tickets && MayAccess(actor, tickets[k])|
    ensures r.openTickets == |set k | k in tickets && MayAccess(actor, tickets[k]) && tickets[k].status == Open|
    ensures r.inProgressTickets == |set k | k in tickets && MayAccess(actor, tickets[k]) && tickets[k].status == InProgress|
    ensures r.resolvedTickets == |set k | k in tickets && MayAccess(actor, tickets[k]) && tickets[k].status == Resolved|
    ensures r.closedTickets == |set k | k in tickets && MayAccess(actor, tickets[k]) && tickets[k].status == Closed|
    ensures r.openTickets + r.inProgressTickets + r.resolvedTickets + r.closedTickets == r.totalTickets
    ensures |r.recentTickets| == if r.totalTickets < RecentLimit then r.totalTickets else RecentLimit
    ensures forall t :: t in r.recentTickets ==> t in tickets.Values && MayAccess(actor, t)
    ensures forall i, j :: 0 <= i < j < |r.recentTickets| ==> r.recentTickets[i].createdAt >= r.recentTickets[j].createdAt
    ensures forall t, i :: t in tickets.Values && MayAccess(actor, t) && t !in r.recentTickets && 0 <= i < |r.recentTickets| ==>
              t.createdAt <= r.recentTickets[i].createdAt
    ensures KeyedById(tickets) ==> Unique(r.recentTickets)
  {
    var visible := Visible(actor, tickets);
    VisibleCount(actor, tickets);
    VisibleStatusCount(actor, tickets, Open);
    VisibleStatusCount(actor, tickets, InProgress);
    VisibleStatusCount(actor, tickets, Resolved);
    VisibleStatusCount(actor, tickets, Closed);
    StatusCountsPartition(visible);
    var newest := NewestFirst(visible);
    var n := if |newest| < RecentLimit then |newest| else RecentLimit;
    TakeNewest(newest, n);
    DashboardView(
      |visible|,
      CountStatus(visible, Open),
      CountStatus(visible, InProgress),
      CountStatus(visible, Resolved),
      CountStatus(visible, Closed),
      newest[..n])
  }

  /**
   * A non-admin's recent tickets are the head of their own ticket list, up to
   * tickets created at the same instant: both lists here break such ties by
   * ascending id, while the source leaves their order to the database.
   */
  lemma RecentHeadsMyTickets(actor: Actor, tickets: map<TicketId, Ticket>)
    requires !actor.isAdmin
    ensures var mine := MyTickets(actor, tickets);
            Index(actor, tickets).recentTickets == mine[..if |mine| < RecentLimit then |mine| else RecentLimit]
  {
  }

  /** The dashboard counts exactly the tickets whose details page the caller may open. */
  lemma VisibleMeansOpenable(actor: Actor, tickets: map<TicketId, Ticket>, comments: seq<TicketComment>, id: TicketId)
    requires id in tickets
    ensures tickets[id] in Visible(actor, tickets) <==> Details(actor, tickets, comments, id).Ok?
  {
  }
}
