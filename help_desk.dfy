/**
 * The write side of the controllers: a store holding the tickets table, the
 * comments table and the user accounts, with one method per action that
 * changes them (Controllers/TicketController.cs and
 * Controllers/AdminController.cs). Each method reports its outcome as a
 * `Result`; every refusal leaves the store as it was.
 */
module HelpDesk {
  import opened Wrappers
  import opened Models
  import opened Listing
  import opened TicketViews

  /** The fields of the create form (ViewModels/CreateTicketViewModel.cs). */
  datatype TicketForm = TicketForm(title: Option<string>, description: Option<string>, priority: Priority, categoryId: int)

  /** `[Required]` together with `[StringLength(max, MinimumLength = min)]`. */
  predicate RequiredLength(s: Option<string>, min: nat, max: nat) {
    !IsBlank(s) && min <= |s.value| <= max
  }

  /** `ModelState.IsValid` for the create form: a 5-100 character title and a 10-1000 character description. */
  predicate FormValid(form: TicketForm): (r: bool)
    ensures r <==>
              && form.title.Some? && 5 <= |form.title.value| <= 100
              && (exists c :: c in form.title.value && !IsWhiteSpace(c))
              && form.description.Some? && 10 <= |form.description.value| <= 1000
              && (exists c :: c in form.description.value && !IsWhiteSpace(c))
  {
    RequiredLength(form.title, 5, 100) && RequiredLength(form.description, 10, 1000)
  }

  /** The ticket `Create` stores for a valid form: the form's fields, owned by the caller, open, created now. */
  function Submitted(form: TicketForm, actor: Actor, now: Timestamp, id: TicketId): (t: Ticket)
    requires FormValid(form)
    ensures t.id == id && t.userId == Some(actor.id)
    ensures t.title == form.title.value && t.description == form.description.value
    ensures t.priority == form.priority && t.categoryId == form.categoryId
    ensures t.status == Open && t.createdAt == now && t.updatedAt == None && t.timeEntries == []
  {
    NewTicket(now).(id := id, title := form.title.value, description := form.description.value,
                    priority := form.priority, categoryId := form.categoryId, userId := Some(actor.id),
                    status := Open, createdAt := now)
  }

  /** A submitted ticket is on its author's own list once stored. */
  lemma SubmittedIsListed(form: TicketForm, actor: Actor, now: Timestamp, id: TicketId, tickets: map<TicketId, Ticket>)
    requires FormValid(form)
    ensures Submitted(form, actor, now, id) in MyTickets(actor, tickets[id := Submitted(form, actor, now, id)])
  {
    var t := Submitted(form, actor, now, id);
    assert tickets[id := t][id] == t;
  }

  /** `ToggleAdmin` on a user's roles: an admin becomes a User, anyone else becomes an Admin. */
  function ToggledRoles(roles: set<string>): (r: set<string>)
    ensures AdminRole in r <==> AdminRole !in roles
    ensures UserRole in r <==> AdminRole in roles
    ensures forall x :: x != AdminRole && x != UserRole ==> (x in r <==> x in roles)
  {
    if AdminRole in roles then roles - {AdminRole} + {UserRole}
    else roles - {UserRole} + {AdminRole}
  }

  /** Toggling twice gives Admin back exactly to those who had it. */
  lemma ToggleTwiceRestoresAdmin(roles: set<string>)
    ensures AdminRole in ToggledRoles(ToggledRoles(roles)) <==> AdminRole in roles
    ensures AdminRole in roles ==> ToggledRoles(ToggledRoles(roles)) == roles - {UserRole} + {AdminRole}
  {
  }

  /** Toggling twice is not the identity on role sets: a user with no role comes back with the User role. */
  lemma ToggleTwiceAddsUserRole()
    ensures ToggledRoles(ToggledRoles({})) == {UserRole}
  {
    assert ToggledRoles({}) == {AdminRole};
  }

  /** The tickets left after deleting user `u`'s tickets: every ticket `u` does not own, unchanged. */
  function TicketsKept(tickets: map<TicketId, Ticket>, u: UserId): (r: map<TicketId, Ticket>)
    ensures forall k :: k in r <==> k in tickets && !OwnedBy(tickets[k], u)
    ensures forall k :: k in r ==> r[k] == tickets[k]
  {
    map k | k in tickets && !OwnedBy(tickets[k], u) :: tickets[k]
  }

  /** Deleting `u`'s tickets leaves `u` with none and every other owner's tickets in place. */
  lemma DeletionKeepsOthers(tickets: map<TicketId, Ticket>, u: UserId, v: UserId)
    ensures |Owned(TicketsKept(tickets, u), u)| == 0
    ensures v != u ==> forall t :: OwnedBy(t, v) ==> (t in TicketsKept(tickets, u).Values <==> t in tickets.Values)
  {
    var kept := TicketsKept(tickets, u);
    OwnedCount(kept, u);
    var none: set<TicketId> := {};
    assert forall k :: k in (set k | k in kept && OwnedBy(kept[k], u)) <==> k in none;
    if v != u {
      forall t | OwnedBy(t, v) ensures t in kept.Values <==> t in tickets.Values {
        if t in tickets.Values {
          var k :| k in tickets && tickets[k] == t;
          assert k in kept;
        }
        if t in kept.Values {
          var k :| k in kept && kept[k] == t;
          assert tickets[k] == t;
        }
      }
    }
  }

  /** Whether a comment belongs to a ticket that deleting `u` removes. */
  predicate OnDeletedTicket(c: TicketComment, tickets: map<TicketId, Ticket>, u: UserId) {
    c.ticketId in tickets && OwnedBy(tickets[c.ticketId], u)
  }

  /** The comments left after deleting `u`'s tickets: those comments go with their tickets. */
  function CommentsKept(comments: seq<TicketComment>, tickets: map<TicketId, Ticket>, u: UserId): (r: seq<TicketComment>)
    ensures forall c :: c in r <==> c in comments && !OnDeletedTicket(c, tickets, u)
    ensures Sorted(comments, IdBefore) ==> Sorted(r, IdBefore)
  {
    var keep := (c: TicketComment) => !OnDeletedTicket(c, tickets, u);
    WhereKeepsOrder(comments, keep, IdBefore);
    Where(comments, keep)
  }

  /**
   * Deleting keeps what the store's invariant asks of the surviving tickets
   * and comments: in particular, no comment is left without its ticket.
   */
  lemma DeletionKeepsInvariant(tickets: map<TicketId, Ticket>, comments: seq<TicketComment>, u: UserId, nextTicketId: int, nextCommentId: int)
    requires KeyedById(tickets) && forall k :: k in tickets ==> 0 < k < nextTicketId
    requires forall i :: 0 <= i < |comments| ==> 0 < comments[i].id < nextCommentId
    requires forall c :: c in comments ==> c.ticketId in tickets
    requires Sorted(comments, IdBefore)
    ensures KeyedById(TicketsKept(tickets, u)) && forall k :: k in TicketsKept(tickets, u) ==> 0 < k < nextTicketId
    ensures forall i :: 0 <= i < |CommentsKept(comments, tickets, u)| ==> 0 < CommentsKept(comments, tickets, u)[i].id < nextCommentId
    ensures forall c :: c in CommentsKept(comments, tickets, u) ==> c.ticketId in TicketsKept(tickets, u)
    ensures Sorted(CommentsKept(comments, tickets, u), IdBefore)
  {
    var kept := CommentsKept(comments, tickets, u);
    forall i | 0 <= i < |kept| ensures 0 < kept[i].id < nextCommentId {
      assert kept[i] in comments;
    }
  }

  /** Appending a comment extends its ticket's thread by that comment and leaves every other thread alone. */
  lemma CommentAppended(comments: seq<TicketComment>, c: TicketComment, id: TicketId)
    ensures CommentsOf(comments + [c], id) == CommentsOf(comments, id) + (if c.ticketId == id then [c] else [])
  {
    var about := (x: TicketComment) => x.ticketId == id;
    WhereAppend(comments, [c], about);
    WhereCons(c, [], about);
    assert [c] + [] == [c];
  }

  /** Comment ids in the order the comments were added. */
  predicate IdBefore(a: TicketComment, b: TicketComment) {
    a.id < b.id
  }

  /** The help desk's state: the tickets table, the comments table and the user accounts. */
  class Store {
    var tickets: map<TicketId, Ticket>
    var comments: seq<TicketComment>
    var accounts: map<UserId, Account>
    /** The next value of the tickets table's identity column. */
    var nextTicketId: TicketId
    /** The next value of the comments table's identity column. */
    var nextCommentId: int

    /**
     * Tickets are stored under their ids, which the identity column has
     * handed out; comment ids increase, and every comment's ticket exists.
     */
    ghost predicate Valid()
      reads this
    {
      && KeyedById(tickets)
      && 0 < nextTicketId && 0 < nextCommentId
      && (forall k :: k in tickets ==> 0 < k < nextTicketId)
      && (forall i :: 0 <= i < |comments| ==> 0 < comments[i].id < nextCommentId)
      && (forall c :: c in comments ==> c.ticketId in tickets)
      && Sorted(comments, IdBefore)
    }

    /** An empty help desk with the given user accounts. */
    constructor(accounts: map<UserId, Account>)
      ensures Valid()
      ensures this.tickets == map[] && this.comments == [] && this.accounts == accounts
    {
      this.tickets := map[];
      this.comments := [];
      this.accounts := accounts;
      this.nextTicketId := 1;
      this.nextCommentId := 1;
    }

    /** `Create(model)`: stores a new open ticket for the caller when the form is valid. */
    method Create(actor: Actor, form: TicketForm, now: Timestamp) returns (r: Result<TicketId>)
      requires Valid()
      modifies this`tickets, this`nextTicketId
      ensures Valid()
      ensures !FormValid(form) ==> r == Err(Invalid) && tickets == old(tickets) && nextTicketId == old(nextTicketId)
      ensures FormValid(form) ==>
                && r == Ok(old(nextTicketId))
                && old(nextTicketId) !in old(tickets)
                && tickets == old(tickets)[old(nextTicketId) := Submitted(form, actor, now, old(nextTicketId))]
                && nextTicketId == old(nextTicketId) + 1
      ensures r.Ok? ==> CommentsOf(comments, r.value) == []
    {
      if !FormValid(form) {
        return Err(Invalid);
      }
      var id := nextTicketId;
      assert forall c :: c in comments ==> c.ticketId != id;
      tickets := tickets[id := Submitted(form, actor, now, id)];
      nextTicketId := id + 1;
      r := Ok(id);
    }

    /** `Close(id)`: the owner or an admin closes the ticket, whatever its status was. */
    method Close(actor: Actor, id: TicketId, now: Timestamp) returns (r: Result<()>)
      requires Valid()
      modifies this`tickets
      ensures Valid()
      ensures id !in old(tickets) ==> r == Err(NotFound) && tickets == old(tickets)
      ensures id in old(tickets) && !MayAccess(actor, old(tickets)[id]) ==> r == Err(Forbidden) && tickets == old(tickets)
      ensures id in old(tickets) && MayAccess(actor, old(tickets)[id]) ==>
                r == Ok(()) && tickets == old(tickets)[id := old(tickets)[id].(status := Closed, updatedAt := Some(now))]
    {
      if id !in tickets {
        return Err(NotFound);
      }
      var t := tickets[id];
      if t.userId != Some(actor.id) && !actor.isAdmin {
        return Err(Forbidden);
      }
      tickets := tickets[id := t.(status := Closed, updatedAt := Some(now))];
      r := Ok(());
    }

    /**
     * `AddComment(ticketId, content)`: blank content is refused, and so is a
     * comment on a ticket that does not exist (the database rejects it, as the
     * comment's ticket is a required foreign key); otherwise anyone may
     * comment, and the ticket is marked as updated.
     */
    method AddComment(actor: Actor, ticketId: TicketId, content: Option<string>, now: Timestamp) returns (r: Result<int>)
      requires Valid()
      modifies this`tickets, this`comments, this`nextCommentId
      ensures Valid()
      ensures IsBlank(content) ==>
                r == Err(Invalid) && tickets == old(tickets) && comments == old(comments) && nextCommentId == old(nextCommentId)
      ensures !IsBlank(content) && ticketId !in old(tickets) ==>
                r == Err(NotFound) && tickets == old(tickets) && comments == old(comments) && nextCommentId == old(nextCommentId)
      ensures !IsBlank(content) && ticketId in old(tickets) ==>
                && r == Ok(old(nextCommentId))
                && comments == old(comments) + [TicketComment(old(nextCommentId), content.value, now, ticketId, Some(actor.id))]
                && nextCommentId == old(nextCommentId) + 1
                && tickets == old(tickets)[ticketId := old(tickets)[ticketId].(updatedAt := Some(now))]
    {
      if IsBlank(content) {
        return Err(Invalid);
      }
      if ticketId !in tickets {
        return Err(NotFound);
      }
      var id := nextCommentId;
      var c := TicketComment(id, content.value, now, ticketId, Some(actor.id));
      ghost var before := comments;
      comments := comments + [c];
      assert forall i :: 0 <= i < |before| ==> comments[i] == before[i];
      nextCommentId := id + 1;
      tickets := tickets[ticketId := tickets[ticketId].(updatedAt := Some(now))];
      r := Ok(id);
    }

    /** Sets an existing ticket's status to a parseable status name and marks it as updated. */
    method SetStatus(actor: Actor, ticketId: TicketId, status: string, now: Timestamp) returns (r: Result<()>)
      requires Valid()
      modifies this`tickets
      ensures Valid()
      ensures !actor.isAdmin ==> r == Err(Forbidden) && tickets == old(tickets)
      ensures actor.isAdmin && ticketId !in old(tickets) ==> r == Err(NotFound) && tickets == old(tickets)
      ensures actor.isAdmin && ticketId in old(tickets) && ParseStatus(status).None? ==>
                r == Err(Invalid) && tickets == old(tickets)
      ensures actor.isAdmin && ticketId in old(tickets) && ParseStatus(status).Some? ==>
                && r == Ok(())
                && tickets == old(tickets)[ticketId := old(tickets)[ticketId].(status := ParseStatus(status).value, updatedAt := Some(now))]
    {
      if !actor.isAdmin {
        return Err(Forbidden);
      }
      if ticketId !in tickets {
        return Err(NotFound);
      }
      match ParseStatus(status) {
        case None =>
          r := Err(Invalid);
        case Some(s) =>
          tickets := tickets[ticketId := tickets[ticketId].(status := s, updatedAt := Some(now))];
          r := Ok(());
      }
    }

    /** `UpdateStatus(ticketId, status)` from the all-tickets page. */
    method UpdateStatus(actor: Actor, ticketId: TicketId, status: string, now: Timestamp) returns (r: Result<()>)
      requires Valid()
      modifies this`tickets
      ensures Valid()
      ensures !actor.isAdmin ==> r == Err(Forbidden) && tickets == old(tickets)
      ensures actor.isAdmin && ticketId !in old(tickets) ==> r == Err(NotFound) && tickets == old(tickets)
      ensures actor.isAdmin && ticketId in old(tickets) && ParseStatus(status).None? ==>
                r == Err(Invalid) && tickets == old(tickets)
      ensures actor.isAdmin && ticketId in old(tickets) && ParseStatus(status).Some? ==>
                && r == Ok(())
                && tickets == old(tickets)[ticketId := old(tickets)[ticketId].(status := ParseStatus(status).value, updatedAt := Some(now))]
    {
      r := SetStatus(actor, ticketId, status, now);
    }

    /** `UpdateTicketStatus(ticketId, newStatus)` from the details page: the same change. */
    method UpdateTicketStatus(actor: Actor, ticketId: TicketId, newStatus: string, now: Timestamp) returns (r: Result<()>)
      requires Valid()
      modifies this`tickets
      ensures Valid()
      ensures !actor.isAdmin ==> r == Err(Forbidden) && tickets == old(tickets)
      ensures actor.isAdmin && ticketId !in old(tickets) ==> r == Err(NotFound) && tickets == old(tickets)
      ensures actor.isAdmin && ticketId in old(tickets) && ParseStatus(newStatus).None? ==>
                r == Err(Invalid) && tickets == old(tickets)
      ensures actor.isAdmin && ticketId in old(tickets) && ParseStatus(newStatus).Some? ==>
                && r == Ok(())
                && tickets == old(tickets)[ticketId := old(tickets)[ticketId].(status := ParseStatus(newStatus).value, updatedAt := Some(now))]
    {
      r := SetStatus(actor, ticketId, newStatus, now);
    }

    /** `ToggleAdmin(userId)`: flips another user between Admin and User. */
    method ToggleAdmin(actor: Actor, userId: UserId) returns (r: Result<()>)
      requires Valid()
      modifies this`accounts
      ensures Valid()
      ensures !actor.isAdmin ==> r == Err(Forbidden) && accounts == old(accounts)
      ensures actor.isAdmin && userId !in old(accounts) ==> r == Err(NotFound) && accounts == old(accounts)
      ensures actor.isAdmin && userId in old(accounts) && userId == actor.id ==> r == Err(SelfTarget) && accounts == old(accounts)
      ensures actor.isAdmin && userId in old(accounts) && userId != actor.id ==>
                && r == Ok(())
                && accounts == old(accounts)[userId := old(accounts)[userId].(roles := ToggledRoles(old(accounts)[userId].roles))]
    {
      if !actor.isAdmin {
        return Err(Forbidden);
      }
      if userId !in accounts {
        return Err(NotFound);
      }
      if userId == actor.id {
        return Err(SelfTarget);
      }
      var a := accounts[userId];
      accounts := accounts[userId := a.(roles := ToggledRoles(a.roles))];
      r := Ok(());
    }

    /** `DeleteUser(userId)`: removes another user's tickets, with their comments, and then the user. */
    method DeleteUser(actor: Actor, userId: UserId) returns (r: Result<()>)
      requires Valid()
      modifies this`tickets, this`comments, this`accounts
      ensures Valid()
      ensures !actor.isAdmin || userId !in old(accounts) || userId == actor.id ==>
                tickets == old(tickets) && comments == old(comments) && accounts == old(accounts)
      ensures !actor.isAdmin ==> r == Err(Forbidden)
      ensures actor.isAdmin && userId !in old(accounts) ==> r == Err(NotFound)
      ensures actor.isAdmin && userId in old(accounts) && userId == actor.id ==> r == Err(SelfTarget)
      ensures actor.isAdmin && userId in old(accounts) && userId != actor.id ==>
                && r == Ok(())
                && tickets == TicketsKept(old(tickets), userId)
                && comments == CommentsKept(old(comments), old(tickets), userId)
                && accounts == old(accounts) - {userId}
    {
      if !actor.isAdmin {
        return Err(Forbidden);
      }
      if userId !in accounts {
        return Err(NotFound);
      }
      if userId == actor.id {
        return Err(SelfTarget);
      }
      DeletionKeepsInvariant(tickets, comments, userId, nextTicketId, nextCommentId);
      comments := CommentsKept(comments, tickets, userId);
      tickets := TicketsKept(tickets, userId);
      accounts := accounts - {userId};
      r := Ok(());
    }
  }
}
