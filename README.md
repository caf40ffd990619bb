# TechDesk help desk, modelled in Dafny

TechDesk is an ASP.NET Core help desk. Users submit support tickets, follow
them and close them. Admins see every ticket. They filter the ticket list,
change a ticket's status, comment on tickets, and manage the user accounts:
they can promote or demote a user and delete a user together with that
user's tickets. This project models the controllers that do this
(`TicketController`, `AdminController`, `HomeController`), the ticket
entity, and the time totals on the details page.

The database becomes values held by one object:

- `HelpDesk.Store` is a class. Its fields are the tickets table (a map from
  id to ticket), the comments table (a sequence in insertion order), the
  user accounts (a map from user id to account, roles included) and the two
  identity counters. Every action that writes to the database is a method
  of `Store`. Each method returns a `Result` and states the whole new state.
  Every refusal leaves the store unchanged. `Store.Valid()` is the invariant
  every method keeps: tickets are stored under their own ids, ids come from
  the counters, comment ids increase, and every comment's ticket exists
  (the comments table's foreign key to the tickets table).
- Read-only pages are functions of the tables:
  - `TicketViews`: "my tickets" and the details page.
  - `AdminViews`: all tickets with filters, counts and the owner dropdown;
    the users page.
  - `Dashboard`: the home page.
- Three things come in as parameters: the signed-in user (`Actor`, an id
  and whether that user is in the Admin role), the clock (`now`), and the
  posted form.
- `Listing` holds the LINQ operators the controllers use, over sequences:
  `Where`, `OrderBy`/`OrderByDescending`, `Count`, and the rows of a table.
  A table's rows come in ascending key order, and the sorts keep the order
  of equal keys, so tickets created at the same instant stay in ascending
  id order. The source leaves that order to the database.
- `TimeTracking` holds the sum of a ticket's time entries and its "2h 30m"
  rendering, with C#'s truncating `/` and `%`. It also has a reader that
  recovers the total from the text; the round-trip lemma uses it to show
  that the rendering is lossless.

The status enum's third value is `Resolved` in `Models/Ticket.cs` (the
dashboard counts `Resolved`). `AdminController.cs` names it `Completed`.
`Ticket.cs` also lacks the `TimeEntries` collection that
`TicketDetailsViewModel.cs` reads. The files come from different revisions,
so the model follows the code that uses each item:

- There is one third status value, named `Resolved`. `ParseStatus` accepts
  both spellings.
- The admin page's `completedTickets` counts that value.
- Time entries travel with the ticket.

## Model

| member | source | states |
|---|---|---|
| `Models.PriorityHasFourValues` | Models/Ticket.cs:3-9 | a priority is one of exactly four distinct values: Low, Medium, High, Critical |
| `Models.StatusHasFourValues` | Models/Ticket.cs:11-17 | a status is one of exactly four distinct values: Open, InProgress, Resolved, Closed |
| `Models.ParsePriority` | Controllers/AdminController.cs:41-42 | parsing gives priority p exactly when the text is p's member name; any other text fails |
| `Models.ParseStatus` | Controllers/AdminController.cs:109 | parsing gives status s exactly when the text is s's name; the third value also answers to "Completed"; any other text fails |
| `Models.IsBlank` | Controllers/TicketController.cs:156 | missing text and the empty text are blank; text is not blank exactly when it holds a character that is not white space |
| `Models.NewTicket` | Models/Ticket.cs:19-32 | a new ticket starts with priority Low and status Open, is created now, has never been updated, and has no owner and no time entries |
| `TimeTracking.TotalMinutes` | ViewModels/TicketDetailsViewModel.cs:13 | the total of no entries is 0; with non-negative durations, the total is non-negative and at least each entry's duration |
| `TimeTracking.TotalMinutesAppend` | ViewModels/TicketDetailsViewModel.cs:13 | the total of two lists of entries is the sum of their totals |
| `TimeTracking.HoursMinutesSplit` | ViewModels/TicketDetailsViewModel.cs:20-21 | the displayed hours times 60 plus the displayed minutes give back the total; minutes are in 0..59 for a non-negative total and in -59..0 for a negative one |
| `TimeTracking.FormatTotal` | ViewModels/TicketDetailsViewModel.cs:16-26 | the text has an hours part exactly when the whole hours are non-zero, and a minutes part exactly when there are no whole hours or the leftover minutes are non-zero |
| `TimeTracking.FormatExamples` | ViewModels/TicketDetailsViewModel.cs:16-26 | 0 is shown as "0m", 45 as "45m", 120 as "2h" and 150 as "2h 30m" |
| `TimeTracking.FormatTotalRoundTrip` | ViewModels/TicketDetailsViewModel.cs:16-26 | reading the formatted total back gives the total, for every integer including negative ones |
| `TimeTracking.FormatTotalInjective` | ViewModels/TicketDetailsViewModel.cs:22-24 | two different totals are never shown as the same text |
| `TicketViews.Owned` | Controllers/TicketController.cs:27-28 | the rows are exactly the stored tickets whose owner is the user, each once |
| `TicketViews.OwnedCount` | Controllers/AdminController.cs:129-130 | the number of the user's rows is the number of stored tickets the user owns |
| `TicketViews.MyTickets` | Controllers/TicketController.cs:23-34 | the list holds exactly the caller's stored tickets, each once, newest first |
| `TicketViews.CommentsOf` | Controllers/TicketController.cs:105 | a ticket's comments are exactly the stored comments on that ticket; a ticket no comment refers to has none |
| `TicketViews.Details` | Controllers/TicketController.cs:97-126 | NotFound exactly when no ticket has the id; Forbidden exactly when the caller is neither an admin nor the owner; otherwise the ticket, all of its comments, the caller's admin flag, and an owner flag that holds exactly when the caller owns the ticket |
| `TicketViews.DetailsAgreesWithMyTickets` | Controllers/TicketController.cs:114-116 | a non-admin can open a ticket's details exactly when the ticket is on that user's own list |
| `TicketViews.DetailsTotals` | ViewModels/TicketDetailsViewModel.cs:13-26 | the details page's time text reads back as the sum of the ticket's logged minutes, and is "0m" when nothing is logged |
| `AdminViews.StatusChoice` | Controllers/AdminController.cs:34-35 | a status filter selects a status exactly when it is non-empty and parses; the status selected is the one it names |
| `AdminViews.PriorityChoice` | Controllers/AdminController.cs:41-42 | a priority filter selects a priority exactly when it is non-empty and parses; the priority selected is the one it names |
| `AdminViews.ByStatus` | Controllers/AdminController.cs:34-38 | with a status filter that selects a status, a row is kept exactly when it has that status; otherwise every row is kept; no row is duplicated |
| `AdminViews.ByPriority` | Controllers/AdminController.cs:41-45 | with a priority filter that selects a priority, a row is kept exactly when it has that priority; otherwise every row is kept; no row is duplicated |
| `AdminViews.ByOwner` | Controllers/AdminController.cs:48-51 | with a non-empty user filter, a row is kept exactly when its owner id equals the filter; otherwise every row is kept; no row is duplicated |
| `AdminViews.Filtered` | Controllers/AdminController.cs:33-51 | a row is kept exactly when it meets every filter that applies (status, priority, owner id); no row is duplicated |
| `AdminViews.OwnerItems` | Controllers/AdminController.cs:61-75 | every owner of a listed ticket who exists as a user appears once, with the full name "First Last"; no other entries appear |
| `AdminViews.UserDropdown` | Controllers/AdminController.cs:60-77 | the dropdown has one entry per existing user who owns a stored ticket, with distinct ids, in full-name order |
| `AdminViews.AllTickets` | Controllers/AdminController.cs:25-94 | non-admins are refused; otherwise the list is exactly the filtered stored tickets, each once, newest first; the total and the four status counts cover the whole table regardless of the filters and add up to the total; the filters are echoed back and the dropdown is attached |
| `AdminViews.MeaninglessFiltersIgnored` | Controllers/AdminController.cs:34-45 | an empty or unparseable status or priority filter lists the same tickets as no filter |
| `AdminViews.SummaryIgnoresFilters` | Controllers/AdminController.cs:57-58 | the counts and the dropdown are the same whatever filters are given |
| `AdminViews.Summary` | Controllers/AdminController.cs:128-150 | a user's row carries the user's id and the account's names and department, the email or "" when there is none, an admin flag that holds exactly when the user has the Admin role, and no last ticket date exactly when the ticket count is 0 |
| `AdminViews.SummaryReports` | Controllers/AdminController.cs:128-150 | a user's row copies the account's fields, uses "" for a missing email, and is an admin exactly when the user has the Admin role; the ticket count is the number of stored tickets the user owns; the last ticket date is absent exactly when the user owns none, and otherwise is the creation date of the newest one |
| `AdminViews.Users` | Controllers/AdminController.cs:121-154 | non-admins are refused; otherwise there is one row per user account, each user exactly once, and every row is that user's summary |
| `Dashboard.Visible` | Controllers/HomeController.cs:28-44 | an admin sees every stored ticket; anyone else sees exactly their own; each ticket appears once |
| `Dashboard.Index` | Controllers/HomeController.cs:23-57 | the total and the four status counts are the numbers of visible stored tickets, and the status counts add up to the total; the recent list holds the min(10, total) newest visible tickets, newest first, each once, and no visible ticket left out is newer than one shown |
| `Dashboard.RecentHeadsMyTickets` | Controllers/HomeController.cs:53 | for a non-admin, the recent list is the first ten entries of that user's own ticket list, up to the order of tickets created at the same instant |
| `Dashboard.VisibleMeansOpenable` | Controllers/HomeController.cs:36-42 | the dashboard counts a ticket exactly when the caller may open its details |
| `HelpDesk.FormValid` | ViewModels/CreateTicketViewModel.cs:9-17 | the form is valid exactly when the title is present, 5 to 100 characters long and not all white space, and the description is present, 10 to 1000 characters long and not all white space |
| `HelpDesk.Submitted` | Controllers/TicketController.cs:58-67 | the stored ticket carries the form's title, description, priority and category; it is owned by the caller, open, created now and never updated |
| `HelpDesk.SubmittedIsListed` | Controllers/TicketController.cs:69-73 | once stored, a submitted ticket is on its author's own list |
| `HelpDesk.ToggledRoles` | Controllers/AdminController.cs:177-188 | the user holds Admin afterwards exactly when the user did not before; the user holds User afterwards exactly when the user was an Admin; no other role changes |
| `HelpDesk.ToggleTwiceRestoresAdmin` | Controllers/AdminController.cs:177-188 | toggling twice gives Admin back to exactly those who had it, and drops User from an admin |
| `HelpDesk.ToggleTwiceAddsUserRole` | Controllers/AdminController.cs:185-186 | toggling a user with no roles twice leaves the user with the User role, so toggling twice does not always restore the roles |
| `HelpDesk.TicketsKept` | Controllers/AdminController.cs:214-219 | the tickets left are exactly those the deleted user did not own, each unchanged |
| `HelpDesk.DeletionKeepsOthers` | Controllers/AdminController.cs:214-220 | afterwards the deleted user owns no ticket, and every other user keeps exactly the tickets that user had |
| `HelpDesk.CommentsKept` | Models/TicketComment.cs:12-13 | the comments left are exactly those not on a deleted ticket, still in insertion order |
| `HelpDesk.DeletionKeepsInvariant` | Controllers/AdminController.cs:214-220 | after the deletion, tickets are still stored under their own ids below the counter, and comment ids are still below the counter and increasing, and no comment is left without its ticket |
| `HelpDesk.CommentAppended` | Controllers/TicketController.cs:164-172 | a new comment extends the comment list of its own ticket by itself, at the end, and leaves every other ticket's comments unchanged |
| `HelpDesk.Store.constructor` | Data/ApplicationDbContext.cs:12-15 | an empty help desk holds no tickets and no comments, holds the given accounts, and is valid |
| `HelpDesk.Store.Create` | Controllers/TicketController.cs:50-94 | an invalid form is refused with nothing stored; a valid one stores the submitted ticket under the next unused id and returns that id, and the new ticket has no comments |
| `HelpDesk.Store.Close` | Controllers/TicketController.cs:131-149 | NotFound for an unknown id; Forbidden unless the caller owns the ticket or is an admin; otherwise the ticket becomes Closed and is updated now, and nothing else changes |
| `HelpDesk.Store.AddComment` | Controllers/TicketController.cs:154-184 | blank content is refused with nothing changed; a comment on a ticket that does not exist is refused as NotFound with nothing changed; otherwise the comment is appended with the next id, the caller as author and the time now, and the ticket is marked as updated now |
| `HelpDesk.Store.UpdateStatus` | Controllers/AdminController.cs:99-118 | non-admins are refused; an unknown ticket gives NotFound; a status that does not parse changes nothing; otherwise the ticket gets the parsed status and is updated now |
| `HelpDesk.Store.UpdateTicketStatus` | Controllers/AdminController.cs:232-251 | the same outcomes as `UpdateStatus`, from the details page |
| `HelpDesk.Store.ToggleAdmin` | Controllers/AdminController.cs:159-191 | non-admins are refused; an unknown user gives NotFound; an admin cannot toggle their own account; otherwise only the target user's roles change, as `ToggledRoles` says |
| `HelpDesk.Store.DeleteUser` | Controllers/AdminController.cs:196-227 | non-admins, an unknown user and the caller's own account are refused with nothing changed; otherwise the user's tickets and those tickets' comments are removed, then the account, and the store stays valid |

## Left out

- Entity Framework, ASP.NET Identity and the web layer are not modelled:
  queries, `Include`, async calls, `SaveChangesAsync`, views, `TempData`
  messages, redirects, anti-forgery tokens and sign-in. An outcome that the
  source shows through a redirect and a message is a `Result` here.
- Authentication is not modelled. The signed-in user is a parameter and
  always exists. The source's null-forgiving `currentUser!` is not modelled.
- The clock (`DateTime.Now`) is the parameter `now`, an integer. One action
  reads the clock once in the model. The source may read it at slightly
  different moments.
- HelpDesk.Store.Create: the `catch` around saving is not modelled, because a
  failed database write is outside the model. The categories list that the
  form page loads (`GetCategoriesAsync`) is not modelled, and the category
  id is not checked against a categories table.
- Models.ParsePriority accepts only exact member names. `Enum.TryParse` also
  accepts numbers, comma lists and surrounding white space. Those inputs are
  outside the model.
- Models.ParseStatus accepts only exact member names, as `ParsePriority`
  does.
- AdminViews.UserDropdown orders full names by character code. The
  source's `OrderBy` uses the current culture's string comparison.
- AdminViews.Users states nothing about row order. The model visits
  accounts in an arbitrary order, and the source takes the order the
  database returns.
- HelpDesk.Store.UpdateStatus reports an unparseable status as `Invalid`.
  The source redirects without a message. The state is unchanged either way.
- HelpDesk.Store.UpdateTicketStatus reports an unparseable status as
  `Invalid`, as `UpdateStatus` does.
- HelpDesk.Store.AddComment refuses a comment on a ticket that does not
  exist. The controller does not check the id itself. The comments table's
  required foreign key (Models/TicketComment.cs:12-13) makes the database
  reject the save, which throws instead of redirecting. The model reports
  that as `NotFound`.
- Dashboard.RecentHeadsMyTickets holds only up to the order of tickets
  created at the same instant. Both lists break such ties by ascending id
  in the model. The source's two queries each leave that order to the
  database.
- HelpDesk.Store.DeleteUser:
  - Comments on the deleted user's tickets are removed with those tickets,
    by the database's cascade.
  - Comments and time entries that the user wrote on other people's tickets
    stay. Their optional author link is not cleared.
  - Identity's failures in `DeleteAsync`, `AddToRoleAsync` and
    `RemoveFromRoleAsync` are not modelled. The role and account changes
    always succeed.
- Integers are unbounded. The source's 32-bit `int` ticket ids, counts and
  `Sum` (a checked addition that can throw on overflow) are not bounded.
- String lengths for the form's `StringLength` rules count characters, not
  UTF-16 code units.
- The seeding code, migrations, the registration form and the category
  entity are not part of this model. No controller adds time entries or
  changes a ticket's title or description, so the model has no such
  operations either.
