/**
 * The read side of Controllers/AdminController.cs: every ticket under the
 * optional status, priority and owner filters, with summary counts over the
 * whole table and the owner dropdown, and the per-user summaries of the users
 * page. The whole controller is restricted to the Admin role.
 */
module AdminViews {
  import opened Wrappers
  import opened Models
  import opened Listing
  import opened TicketViews

  /** `string.IsNullOrEmpty`. */
  predicate IsNullOrEmpty(s: Option<string>) {
    s.None? || |s.value| == 0
  }

  /** The status a status filter selects: only a non-empty text naming a status selects one. */
  function StatusChoice(filter: Option<string>): (r: Option<TicketStatus>)
    ensures r.Some? <==> !IsNullOrEmpty(filter) && ParseStatus(filter.value).Some?
    ensures r.Some? ==> StatusName(r.value) == filter.value || (r.value == Resolved && filter.value == "Completed")
  {
    if IsNullOrEmpty(filter) then None else ParseStatus(filter.value)
  }

  /** The priority a priority filter selects: only a non-empty text naming a priority selects one. */
  function PriorityChoice(filter: Option<string>): (r: Option<Priority>)
    ensures r.Some? <==> !IsNullOrEmpty(filter) && ParsePriority(filter.value).Some?
    ensures r.Some? ==> PriorityName(r.value) == filter.value
  {
    if IsNullOrEmpty(filter) then None else ParsePriority(filter.value)
  }

  /** The three filters together: each one that selects something must hold. */
  predicate Selected(t: Ticket, statusFilter: Option<string>, priorityFilter: Option<string>, userFilter: Option<string>) {
    && (StatusChoice(statusFilter).Some? ==> t.status == StatusChoice(statusFilter).value)
    && (PriorityChoice(priorityFilter).Some? ==> t.priority == PriorityChoice(priorityFilter).value)
    && (!IsNullOrEmpty(userFilter) ==> t.userId == userFilter)
  }

  /** The status filter's `Where`, when it selects a status. */
  function ByStatus(rows: seq<Ticket>, statusFilter: Option<string>): (r: seq<Ticket>)
    ensures forall t :: t in r <==> t in rows && (StatusChoice(statusFilter).Some? ==> t.status == StatusChoice(statusFilter).value)
    ensures Unique(rows) ==> Unique(r)
  {
    match StatusChoice(statusFilter)
    case None => rows
    case Some(s) =>
      var keep := (t: Ticket) => t.status == s;
      WhereUnique(rows, keep);
      Where(rows, keep)
  }

  /** The priority filter's `Where`, when it selects a priority. */
  function ByPriority(rows: seq<Ticket>, priorityFilter: Option<string>): (r: seq<Ticket>)
    ensures forall t :: t in r <==> t in rows && (PriorityChoice(priorityFilter).Some? ==> t.priority == PriorityChoice(priorityFilter).value)
    ensures Unique(rows) ==> Unique(r)
  {
    match PriorityChoice(priorityFilter)
    case None => rows
    case Some(p) =>
      var keep := (t: Ticket) => t.priority == p;
      WhereUnique(rows, keep);
      Where(rows, keep)
  }

  /** The owner filter's `Where`, when it is not empty. */
  function ByOwner(rows: seq<Ticket>, userFilter: Option<string>): (r: seq<Ticket>)
    ensures forall t :: t in r <==> t in rows && (!IsNullOrEmpty(userFilter) ==> t.userId == userFilter)
    ensures Unique(rows) ==> Unique(r)
  {
    if IsNullOrEmpty(userFilter) then rows
    else
      var keep := (t: Ticket) => t.userId == userFilter;
      WhereUnique(rows, keep);
      Where(rows, keep)
  }

  /** The query as the controller builds it: one `Where` per filter that applies, in turn. */
  function Filtered(rows: seq<Ticket>, statusFilter: Option<string>, priorityFilter: Option<string>, userFilter: Option<string>): (r: seq<Ticket>)
    ensures forall t :: t in r <==> t in rows && Selected(t, statusFilter, priorityFilter, userFilter)
    ensures Unique(rows) ==> Unique(r)
  {
    ByOwner(ByPriority(ByStatus(rows, statusFilter), priorityFilter), userFilter)
  }

  /** An entry of the owner dropdown (`UserSelectionItem`). */
  datatype UserItem = UserItem(id: UserId, fullName: string)

  /** The entry the dropdown shows for an existing user. */
  function ItemFor(u: UserId, accounts: map<UserId, Account>): UserItem
    requires u in accounts
  {
    UserItem(u, FullName(accounts[u]))
  }

  /** `OrderBy(u => u.FullName)`, with names compared by character code. */
  predicate NameLe(a: UserItem, b: UserItem) {
    TextLe(a.fullName, b.fullName)
  }

  lemma NameLeOrders()
    ensures TotalPreorder(NameLe)
  {
    forall a: UserItem, b: UserItem ensures NameLe(a, b) || NameLe(b, a) {
      TextLeTotal(a.fullName, b.fullName);
    }
    forall a: UserItem, b: UserItem, c: UserItem | NameLe(a, b) && NameLe(b, c) ensures NameLe(a, c) {
      TextLeTransitive(a.fullName, b.fullName, c.fullName);
    }
  }

  /**
   * The owners of the given rows that exist as users, one entry each, in the
   * order they first appear (`Select`, `Distinct`, `GroupBy(u => u.Id)` and
   * `First`).
   */
  function OwnerItems(rows: seq<Ticket>, accounts: map<UserId, Account>): (r: seq<UserItem>)
    ensures forall it :: it in r ==> it.id in accounts && it == ItemFor(it.id, accounts)
    ensures forall it :: it in r ==> exists t :: t in rows && t.userId == Some(it.id)
    ensures forall t :: t in rows && t.userId.Some? && t.userId.value in accounts ==> ItemFor(t.userId.value, accounts) in r
    ensures Unique(r)
  {
    if rows == [] then []
    else
      var init := rows[..|rows| - 1];
      var t := rows[|rows| - 1];
      assert rows == init + [t];
      var rest := OwnerItems(init, accounts);
      if t.userId.Some? && t.userId.value in accounts && ItemFor(t.userId.value, accounts) !in rest then
        rest + [ItemFor(t.userId.value, accounts)]
      else rest
  }

  /** Entries that are determined by their id and occur once have distinct ids. */
  lemma DistinctIds(r: seq<UserItem>, accounts: map<UserId, Account>)
    requires forall it :: it in r ==> it.id in accounts && it == ItemFor(it.id, accounts)
    requires Unique(r)
    ensures forall i, j :: 0 <= i < j < |r| ==> r[i].id != r[j].id
  {
    forall i, j | 0 <= i < j < |r| ensures r[i].id != r[j].id {
      if r[i].id == r[j].id {
        assert r[i] == ItemFor(r[i].id, accounts) == r[j];
        RepeatedTwice(r, i, j);
      }
    }
  }

  /** The owner dropdown: one entry per user who owns a stored ticket, sorted by full name. */
  function UserDropdown(tickets: map<TicketId, Ticket>, accounts: map<UserId, Account>): (r: seq<UserItem>)
    ensures forall it :: it in r ==> it.id in accounts && it == ItemFor(it.id, accounts)
    ensures forall it :: it in r ==> exists t :: t in tickets.Values && t.userId == Some(it.id)
    ensures forall t :: t in tickets.Values && t.userId.Some? && t.userId.value in accounts ==> ItemFor(t.userId.value, accounts) in r
    ensures forall i, j :: 0 <= i < j < |r| ==> r[i].id != r[j].id
    ensures forall i, j :: 0 <= i < j < |r| ==> TextLe(r[i].fullName, r[j].fullName)
  {
    var items := OwnerItems(Rows(tickets), accounts);
    NameLeOrders();
    SortKeepsMembers(items, NameLe);
    var r := SortBy(items, NameLe);
    DistinctIds(r, accounts);
    assert forall i, j :: 0 <= i < j < |r| ==> NameLe(r[i], r[j]);
    r
  }

  /** The model behind the all-tickets page (ViewModels/AdminTicketsViewModel.cs). */
  datatype AdminTicketsView = AdminTicketsView(
    tickets: seq<Ticket>,
    totalTickets: nat,
    openTickets: nat,
    inProgressTickets: nat,
    completedTickets: nat,
    closedTickets: nat,
    statusFilter: Option<string>,
    priorityFilter: Option<string>,
    userFilter: Option<string>,
    users: seq<UserItem>)

  /**
   * `AllTickets(statusFilter, priorityFilter, userFilter)`: refused to
   * non-admins; otherwise the selected tickets newest first, the counts over
   * every stored ticket, the filters echoed back and the owner dropdown.
   */
  function AllTickets(actor: Actor, tickets: map<TicketId, Ticket>, accounts: map<UserId, Account>,
                      statusFilter: Option<string>, priorityFilter: Option<string>, userFilter: Option<string>): (r: Result<AdminTicketsView>)
    ensures r.Err? <==> !actor.isAdmin
    ensures r.Err? ==> r.failure == Forbidden
    ensures r.Ok? ==> forall t :: t in r.value.tickets <==> t in tickets.Values && Selected(t, statusFilter, priorityFilter, userFilter)
    ensures r.Ok? ==> forall i, j :: 0 <= i < j < |r.value.tickets| ==> r.value.tickets[i].createdAt >= r.value.tickets[j].createdAt
    ensures r.Ok? && KeyedById(tickets) ==> Unique(r.value.tickets)
    ensures r.Ok? ==> r.value.totalTickets == |tickets|
    ensures r.Ok? ==> r.value.openTickets == |set k | k in tickets && tickets[k].status == Open|
    ensures r.Ok? ==> r.value.inProgressTickets == |set k | k in tickets && tickets[k].status == InProgress|
    ensures r.Ok? ==> r.value.completedTickets == |set k | k in tickets && tickets[k].status == Resolved|
    ensures r.Ok? ==> r.value.closedTickets == |set k | k in tickets && tickets[k].status == Closed|
    ensures r.Ok? ==> r.value.openTickets + r.value.inProgressTickets + r.value.completedTickets + r.value.closedTickets == r.value.totalTickets
    ensures r.Ok? ==> r.value.statusFilter == statusFilter && r.value.priorityFilter == priorityFilter && r.value.userFilter == userFilter
    ensures r.Ok? ==> r.value.users == UserDropdown(tickets, accounts)
  {
    if !actor.isAdmin then Err(Forbidden)
    else
      var all := Rows(tickets);
      CountStatusRows(tickets, Open);
      CountStatusRows(tickets, InProgress);
      CountStatusRows(tickets, Resolved);
      CountStatusRows(tickets, Closed);
      StatusCountsPartition(all);
      Ok(AdminTicketsView(
        NewestFirst(Filtered(all, statusFilter, priorityFilter, userFilter)),
        |all|,
        CountStatus(all, Open),
        CountStatus(all, InProgress),
        CountStatus(all, Resolved),
        CountStatus(all, Closed),
        statusFilter, priorityFilter, userFilter,
        UserDropdown(tickets, accounts)))
  }

  /** A status or priority filter that is empty or names nothing is ignored, not rejected. */
  lemma MeaninglessFiltersIgnored(actor: Actor, tickets: map<TicketId, Ticket>, accounts: map<UserId, Account>,
                                  statusFilter: Option<string>, priorityFilter: Option<string>, userFilter: Option<string>)
    requires actor.isAdmin
    requires StatusChoice(statusFilter).None? && PriorityChoice(priorityFilter).None?
    ensures AllTickets(actor, tickets, accounts, statusFilter, priorityFilter, userFilter).value.tickets ==
            AllTickets(actor, tickets, accounts, None, None, userFilter).value.tickets
  {
  }

  /** The summary counts and the dropdown do not depend on the filters. */
  lemma SummaryIgnoresFilters(actor: Actor, tickets: map<TicketId, Ticket>, accounts: map<UserId, Account>,
                              statusFilter: Option<string>, priorityFilter: Option<string>, userFilter: Option<string>)
    requires actor.isAdmin
    ensures var a := AllTickets(actor, tickets, accounts, statusFilter, priorityFilter, userFilter).value;
            var b := AllTickets(actor, tickets, accounts, None, None, None).value;
            a.totalTickets == b.totalTickets && a.openTickets == b.openTickets &&
            a.inProgressTickets == b.inProgressTickets && a.completedTickets == b.completedTickets &&
            a.closedTickets == b.closedTickets && a.users == b.users
  {
  }

  /** A row of the users page (ViewModels/AdminUserViewModel.cs). */
  datatype UserSummary = UserSummary(
    id: UserId,
    firstName: string,
    lastName: string,
    email: string,
    department: string,
    isAdmin: bool,
    ticketCount: nat,
    lastTicketDate: Option<Timestamp>)

  /** One iteration of the users page loop: the user's details, ticket count and latest ticket date. */
  function Summary(id: UserId, a: Account, tickets: map<TicketId, Ticket>): (r: UserSummary)
    ensures r.id == id && r.firstName == a.firstName && r.lastName == a.lastName && r.department == a.department
    ensures r.email == (if a.email.Some? then a.email.value else "")
    ensures r.isAdmin <==> AdminRole in a.roles
    ensures r.lastTicketDate.None? <==> r.ticketCount == 0
  {
    var owned := Owned(tickets, id);
    var newest := NewestFirst(owned);
    UserSummary(id, a.firstName, a.lastName, a.email.GetOr(""), a.department, AdminRole in a.roles, |owned|,
      if newest == [] then None else Some(newest[0].createdAt))
  }

  /**
   * A user's row counts the stored tickets they own and dates the newest of
   * them, or has no date when they own none.
   */
  lemma SummaryReports(id: UserId, a: Account, tickets: map<TicketId, Ticket>)
    ensures var r := Summary(id, a, tickets);
            && r.id == id && r.firstName == a.firstName && r.lastName == a.lastName && r.department == a.department
            && r.email == (if a.email.Some? then a.email.value else "")
            && (r.isAdmin <==> AdminRole in a.roles)
            && r.ticketCount == |set k | k in tickets && OwnedBy(tickets[k], id)|
            && (r.lastTicketDate.None? <==> forall t :: t in tickets.Values ==> !OwnedBy(t, id))
            && (r.lastTicketDate.Some? ==>
                  (exists t :: t in tickets.Values && OwnedBy(t, id) && t.createdAt == r.lastTicketDate.value) &&
                  forall t :: t in tickets.Values && OwnedBy(t, id) ==> t.createdAt <= r.lastTicketDate.value)
  {
    var owned := Owned(tickets, id);
    OwnedCount(tickets, id);
    NewestFirstHead(owned);
  }

  /**
   * The state of the users page loop: `rows` are the summaries of the
   * distinct users `ids`, and every user is either listed or still pending.
   */
  ghost predicate Listed(rows: seq<UserSummary>, ids: seq<UserId>, remaining: set<UserId>,
                         accounts: map<UserId, Account>, tickets: map<TicketId, Ticket>) {
    && remaining <= accounts.Keys
    && |rows| == |ids| && |ids| + |remaining| == |accounts|
    && (forall i :: 0 <= i < |ids| ==> ids[i] in accounts && ids[i] !in remaining)
    && (forall i :: 0 <= i < |ids| ==> rows[i] == Summary(ids[i], accounts[ids[i]], tickets))
    && (forall i, j :: 0 <= i < j < |ids| ==> ids[i] != ids[j])
    && (forall v :: v in accounts && v !in remaining ==> v in ids)
  }

  /** Moving one user from the pending set to the listed ids keeps the ids distinct and the counts matched. */
  lemma ListUser(ids: seq<UserId>, u: UserId, accounts: map<UserId, Account>, remaining: set<UserId>)
    requires remaining <= accounts.Keys && u in remaining
    requires |ids| + |remaining| == |accounts|
    requires forall i :: 0 <= i < |ids| ==> ids[i] in accounts && ids[i] !in remaining
    requires forall i, j :: 0 <= i < j < |ids| ==> ids[i] != ids[j]
    requires forall v :: v in accounts && v !in remaining ==> v in ids
    ensures var ids', remaining' := ids + [u], remaining - {u};
            && remaining' <= accounts.Keys
            && |ids'| + |remaining'| == |accounts|
            && (forall i :: 0 <= i < |ids'| ==> ids'[i] in accounts && ids'[i] !in remaining')
            && (forall i, j :: 0 <= i < j < |ids'| ==> ids'[i] != ids'[j])
            && (forall v :: v in accounts && v !in remaining' ==> v in ids')
  {
    assert remaining == (remaining - {u}) + {u};
  }

  /** Appending the next user's summary keeps every row the summary of its user. */
  lemma ListRow(rows: seq<UserSummary>, ids: seq<UserId>, u: UserId, accounts: map<UserId, Account>, tickets: map<TicketId, Ticket>)
    requires u in accounts && |rows| == |ids|
    requires forall i :: 0 <= i < |ids| ==> ids[i] in accounts && rows[i] == Summary(ids[i], accounts[ids[i]], tickets)
    ensures var rows', ids' := rows + [Summary(u, accounts[u], tickets)], ids + [u];
            forall i :: 0 <= i < |ids'| ==> ids'[i] in accounts && rows'[i] == Summary(ids'[i], accounts[ids'[i]], tickets)
  {
  }

  /** One iteration of the users page loop. */
  lemma ListNext(rows: seq<UserSummary>, ids: seq<UserId>, remaining: set<UserId>, u: UserId,
                 accounts: map<UserId, Account>, tickets: map<TicketId, Ticket>)
    requires Listed(rows, ids, remaining, accounts, tickets) && u in remaining
    ensures Listed(rows + [Summary(u, accounts[u], tickets)], ids + [u], remaining - {u}, accounts, tickets)
  {
    ListUser(ids, u, accounts, remaining);
    ListRow(rows, ids, u, accounts, tickets);
  }

  /** Once nobody is pending, the rows cover every user once. */
  lemma ListedAll(rows: seq<UserSummary>, ids: seq<UserId>, accounts: map<UserId, Account>, tickets: map<TicketId, Ticket>)
    requires Listed(rows, ids, {}, accounts, tickets)
    ensures |rows| == |accounts|
    ensures forall i :: 0 <= i < |rows| ==> rows[i].id in accounts && rows[i] == Summary(rows[i].id, accounts[rows[i].id], tickets)
    ensures forall i, j :: 0 <= i < j < |rows| ==> rows[i].id != rows[j].id
    ensures forall u :: u in accounts ==> exists i :: 0 <= i < |rows| && rows[i].id == u
  {
    assert forall i :: 0 <= i < |rows| ==> rows[i].id == ids[i];
    forall u | u in accounts ensures exists i :: 0 <= i < |rows| && rows[i].id == u {
      var i :| 0 <= i < |ids| && ids[i] == u;
      assert rows[i].id == u;
    }
  }

  /** `Users()`: refused to non-admins; otherwise one summary per user, each user once. */
  method Users(actor: Actor, accounts: map<UserId, Account>, tickets: map<TicketId, Ticket>) returns (r: Result<seq<UserSummary>>)
    ensures r.Err? <==> !actor.isAdmin
    ensures r.Err? ==> r.failure == Forbidden
    ensures r.Ok? ==> |r.value| == |accounts|
    ensures r.Ok? ==> forall i :: 0 <= i < |r.value| ==>
              r.value[i].id in accounts && r.value[i] == Summary(r.value[i].id, accounts[r.value[i].id], tickets)
    ensures r.Ok? ==> forall i, j :: 0 <= i < j < |r.value| ==> r.value[i].id != r.value[j].id
    ensures r.Ok? ==> forall u :: u in accounts ==> exists i :: 0 <= i < |r.value| && r.value[i].id == u
  {
    if !actor.isAdmin {
      return Err(Forbidden);
    }
    var remaining := accounts.Keys;
    var rows: seq<UserSummary> := [];
    ghost var ids: seq<UserId> := [];
    while remaining != {}
      invariant Listed(rows, ids, remaining, accounts, tickets)
      decreases remaining
    {
      if forall u :: u !in remaining {
        assert false;
      }
      var u :| u in remaining;
      ListNext(rows, ids, remaining, u, accounts, tickets);
      rows := rows + [Summary(u, accounts[u], tickets)];
      ids := ids + [u];
      remaining := remaining - {u};
    }
    ListedAll(rows, ids, accounts, tickets);
    r := Ok(rows);
  }
}
