/**
 * The entities of the help desk (Models/Ticket.cs and the records it refers to):
 * priorities, statuses, tickets with their time entries, comments, user
 * accounts, the acting user, and the outcomes the controllers report.
 */
module Models {
  import opened Wrappers

  /** Identity user ids are strings. */
  type UserId = string
  /** Ticket ids are database identity values. */
  type TicketId = int
  /** A `DateTime`, as a count of ticks. */
  type Timestamp = int

  datatype Priority = Low | Medium | High | Critical

  /**
   * The third value is `Resolved` in Models/Ticket.cs and `Completed` in the
   * revision that AdminController.cs was written against: one value here.
   */
  datatype TicketStatus = Open | InProgress | Resolved | Closed

  const AllPriorities: seq<Priority> := [Low, Medium, High, Critical]
  const AllStatuses: seq<TicketStatus> := [Open, InProgress, Resolved, Closed]

  /** The enum has exactly the four values, each listed once. */
  lemma PriorityHasFourValues(p: Priority)
    ensures p in AllPriorities
    ensures |AllPriorities| == 4
    ensures forall i, j :: 0 <= i < j < |AllPriorities| ==> AllPriorities[i] != AllPriorities[j]
  {
  }

  /** The enum has exactly the four values, each listed once. */
  lemma StatusHasFourValues(s: TicketStatus)
    ensures s in AllStatuses
    ensures |AllStatuses| == 4
    ensures forall i, j :: 0 <= i < j < |AllStatuses| ==> AllStatuses[i] != AllStatuses[j]
  {
  }

  function PriorityName(p: Priority): string {
    match p
    case Low => "Low"
    case Medium => "Medium"
    case High => "High"
    case Critical => "Critical"
  }

  function StatusName(s: TicketStatus): string {
    match s
    case Open => "Open"
    case InProgress => "InProgress"
    case Resolved => "Resolved"
    case Closed => "Closed"
  }

  /** `Enum.TryParse<Priority>`: an exact, case-sensitive member name. */
  function ParsePriority(text: string): (r: Option<Priority>)
    ensures forall p :: r == Some(p) <==> text == PriorityName(p)
  {
    if text == "Low" then Some(Low)
    else if text == "Medium" then Some(Medium)
    else if text == "High" then Some(High)
    else if text == "Critical" then Some(Critical)
    else None
  }

  /**
   * `Enum.TryParse<TicketStatus>`: an exact, case-sensitive member name; the
   * third value answers to both of its spellings.
   */
  function ParseStatus(text: string): (r: Option<TicketStatus>)
    ensures forall s :: r == Some(s) <==> text == StatusName(s) || (s == Resolved && text == "Completed")
  {
    if text == "Open" then Some(Open)
    else if text == "InProgress" then Some(InProgress)
    else if text == "Resolved" || text == "Completed" then Some(Resolved)
    else if text == "Closed" then Some(Closed)
    else None
  }

  /** A time entry (Models/TimeEntry.cs). */
  datatype TimeEntry = TimeEntry(
    id: int,
    startTime: Timestamp,
    endTime: Timestamp,
    durationMinutes: int,
    note: Option<string>,
    isManualEntry: bool,
    ticketId: TicketId,
    userId: Option<UserId>,
    createdAt: Timestamp)

  /** A row of the comments table (Models/TicketComment.cs). */
  datatype TicketComment = TicketComment(
    id: int,
    content: string,
    createdAt: Timestamp,
    ticketId: TicketId,
    userId: Option<UserId>)

  /**
   * A ticket. Its comments are the rows of the comments table that name its
   * id; its time entries travel with it.
   */
  datatype Ticket = Ticket(
    id: TicketId,
    title: string,
    description: string,
    priority: Priority,
    status: TicketStatus,
    createdAt: Timestamp,
    updatedAt: Option<Timestamp>,
    userId: Option<UserId>,
    categoryId: int,
    timeEntries: seq<TimeEntry>)

  /**
   * `new Ticket()`: the property initialisers, with `DateTime.Now` read as
   * `now`; the id stays 0 until the database assigns one.
   */
  function NewTicket(now: Timestamp): (t: Ticket)
    ensures t.priority == Low && t.status == Open
    ensures t.createdAt == now && t.updatedAt == None
    ensures t.userId == None && t.timeEntries == []
  {
    Ticket(0, "", "", Low, Open, now, None, None, 0, [])
  }

  /** The table's primary key: every ticket is stored under its own id. */
  ghost predicate KeyedById(m: map<TicketId, Ticket>) {
    forall k :: k in m ==> m[k].id == k
  }

  /** `t.UserId == u`; a ticket without an owner is owned by nobody. */
  predicate OwnedBy(t: Ticket, u: UserId) {
    t.userId == Some(u)
  }

  /** The calling user, as the identity layer resolves it for one request. */
  datatype Actor = Actor(id: UserId, isAdmin: bool)

  /** The owner-or-admin test shared by `Details` and `Close`. */
  predicate MayAccess(actor: Actor, t: Ticket) {
    actor.isAdmin || OwnedBy(t, actor.id)
  }

  const AdminRole: string := "Admin"
  const UserRole: string := "User"

  /** An identity user (Models/ApplicationUser.cs) with the roles it holds. */
  datatype Account = Account(
    firstName: string,
    lastName: string,
    email: Option<string>,
    department: string,
    roles: set<string>)

  function FullName(a: Account): string {
    a.firstName + " " + a.lastName
  }

  /** Why a controller action did not do what was asked. */
  datatype Failure =
    | NotFound     // the ticket or user does not exist
    | Forbidden    // the caller is neither owner nor admin, or not an admin
    | Invalid      // blank content, an invalid form or an unknown status name
    | SelfTarget   // an admin acting on their own account

  datatype Result<+T> = Ok(value: T) | Err(failure: Failure)

  /** `char.IsWhiteSpace`: the Unicode separators and the control characters 9-13 and 0x85. */
  predicate IsWhiteSpace(c: char) {
    || c == ' ' || ('\t' <= c <= '\r') || c == '\U{0085}' || c == '\U{00A0}'
    || c == '\U{1680}' || ('\U{2000}' <= c <= '\U{200A}') || c == '\U{2028}'
    || c == '\U{2029}' || c == '\U{202F}' || c == '\U{205F}' || c == '\U{3000}'
  }

  /** `string.IsNullOrWhiteSpace`: missing, or without a single visible character. */
  predicate IsBlank(s: Option<string>): (r: bool)
    ensures s.None? ==> r
    ensures s == Some("") ==> r
    ensures !r <==> s.Some? && exists c :: c in s.value && !IsWhiteSpace(c)
  {
    s.None? || forall i :: 0 <= i < |s.value| ==> IsWhiteSpace(s.value[i])
  }
}
