# Event registration backend — a Dafny model

This project models the domain logic of an event registration and ticket check-in
backend (NestJS services over TypeORM repositories on SQLite). It covers:

- the **event catalog**: events with a capacity and a registration counter;
- the **registration ledger**: one registration per user and event, capacity-checked;
- the **ticket issuer and verifier**: QR tickets, checked in at most once;
- the **user directory**: unique emails, hashed passwords, roles, an active flag, statistics;
- the **authentication decisions**: credential checks, login, self-registration, token validation;
- the **announcement broadcaster**: a mail to an event's registrants, recorded with its recipient count;
- the **entity records and request bodies** (`dto.ts`) with their class-validator checks.

## How the model is built

- **The store.** Every repository is one table of the single relational store. A table
  is a `map<int, Row>` keyed by the generated id, plus the counter ids are drawn from.
  Ids start at 1 and are never reused, as with SQLite `AUTOINCREMENT`.
  - `Store.Db` is the whole store as a value.
  - `Store.Wf` is its invariant: ids below the counters, the unique `(eventId, userId)`
    and `uuid` and email columns, non-negative counters, every registration naming an
    event id already handed out, and a ticket's `verifiedAt` present exactly when it is verified.
  - `Store.Database` is the same store as a class whose fields the service methods update in place.
- **Queries.** `find`/`findOne`/`count` with a `where` on one column are `Tables.Where`,
  `Tables.FindOne` and `Tables.Matching`. A query answers with every matching row, each once.
  The source's queries have no ORDER BY, so the model chooses an order: ascending id.
- **Operations.** Each service operation is two members:
  - a pure step function `XxxStep(s, …)` that returns the answer and the store after it,
    as a `Store.Step`. Its contract states the error cases, the new row and "nothing else changes";
  - a method on `Database` that follows the source's sequence of `await`s, proved to
    do exactly what the step function says. A method that calls another service calls
    that service's method (registration calls the event counter's increment).
- **Errors.** Each thrown Nest exception is an `Error` value. The mail transport's
  failure, which the mail service rethrows, is `MailFailed`.
- **Parameters for what lies outside the store.**
  - bcrypt hashing and comparison: `hash` and `matches`;
  - JWT signing and verification: `sign` and `verify`;
  - QR rendering: `render`;
  - mail delivery: `deliver` (success or failure);
  - the clock: `now`;
  - a generated uuid: supplied, and required to be absent from the table;
  - the users table's default for the active flag: `initialActive`.
- **`Backend`.** This module routes every state-changing request to its step.
  `Backend.Reachable` proves that in every store reachable from the empty one:
  - each event's counter is non-negative and equals its number of registrations;
  - every ticket is either active and unverified, or checked in and verified.

  The requests are the typed ones: each body carries only its declared fields. The counter
  facts do not hold for bodies with extra keys (see "## Left out").

  The user update is the one route where the whole-backend model runs the corrected code
  (see "## Findings"). The update as written can store a duplicate email, which breaks the
  unique-email part of `Store.Wf`, so the invariants would not hold for it.

Behaviour of the code worth noting, which the model follows:

- `validateUser` compares the password before it looks at the active flag, so a wrong
  password on a deactivated account gives "no user", not "deactivated".
- `verifyTicket` sends no confirmation mail.
- A failed announcement send is rethrown, not swallowed, and nothing is stored. The log line written before the rethrow is not modelled.
- A duplicate registration is a BadRequest.
- `registrationCount <= capacity` is not an invariant: `update` may lower the capacity
  below the counter (`EventService.UpdateMayOverbook`).
- Deleting an event removes its tickets and announcements (their `onDelete: 'CASCADE'`).
  It does not remove its registrations: their relation declares no `onDelete`.

## Model

| member | source | states |
|---|---|---|
| `Dto.ParseCreateEvent` | backend/src/dto.ts:3-26 | a create-event body passes validation exactly when title, description, date, time and location are strings, capacity is a positive integer and organizerId is absent or an integer; the typed input then has a positive capacity and every field's value from the body, organizerId present exactly when the body holds one |
| `Dto.CreateEventRoundTrip` | backend/src/dto.ts:3-26 | every typed create input with a positive capacity, sent as JSON, comes back unchanged from validation |
| `Dto.ParseUpdateEvent` | backend/src/dto.ts:28-57 | an update body is valid exactly when every present field has its type and a present capacity is a positive integer; every field of the typed update is absent exactly when its key is, and otherwise holds the body's value |
| `Dto.EmptyUpdateIsValid` | backend/src/dto.ts:28-57 | the empty body is a valid update that sets no field |
| `Dto.ParseRegister` | backend/src/dto.ts:59-68 | a register body is valid exactly when userId is an integer and userEmail and userName are strings, and the typed input carries those values |
| `Dto.RegisterRoundTrip` | backend/src/dto.ts:59-68 | every typed register input survives the trip through JSON and validation |
| `Dto.ParseVerifyTicket` | backend/src/dto.ts:81-84 | a verify body is valid exactly when uuid is a string, and the input carries it |
| `Store.Database.constructor` | backend/src/app.module.ts:13-19 | the synchronised schema starts with every table empty, which satisfies every table invariant |
| `Tables.WhereAnswers` | backend/src/registrations/registration.service.ts:55-67 | `find({ where })` on one column returns exactly the stored rows that match, each once, in the model's ascending id order |
| `Tables.WhereCount` | backend/src/registrations/registration.service.ts:86-90 | `count({ where })` equals the number of matching ids |
| `Tables.FindOneNone` | backend/src/users/user.service.ts:62-66 | `findOne({ where })` finds nothing exactly when no row matches |
| `Tables.FindOneFirst` | backend/src/tickets/ticket.service.ts:45-56 | `findOne({ where })` returns a stored match with the lowest id of all matches |
| `EventService.FindById` | backend/src/events/event.service.ts:29-38 | NotFound exactly when the id is absent; otherwise the stored event, whose counter is non-negative |
| `EventService.FindAll` | backend/src/events/event.service.ts:23-27 | every stored event, each the row under its id, once each, in the model's id order |
| `EventService.GetAvailableCapacity` | backend/src/events/event.service.ts:68-71 | NotFound for an absent event; otherwise capacity minus counter, positive exactly when the counter is below capacity |
| `EventService.CreateStep` | backend/src/events/event.service.ts:14-21 | one event is added under the next id with counter 0, status "pending" and every other field from the input; nothing else changes |
| `EventService.CreatedWithinCapacity` | backend/src/events/event.service.ts:14-21 | a created event starts with `0 <= registrationCount`, and below capacity exactly when the input passed validation |
| `EventService.UpdateStep` | backend/src/events/event.service.ts:40-44 | NotFound changes nothing; otherwise only the given fields of that event change; id, counter and organizer are kept |
| `EventService.UpdateMayOverbook` | backend/src/events/event.service.ts:40-44 | a valid update can set the capacity below the counter, leaving an available capacity of -1 |
| `EventService.DeleteStep` | backend/src/events/event.service.ts:46-49 | NotFound changes nothing; otherwise the event and, by cascade, exactly its tickets and announcements are removed, and the registrations are kept |
| `EventService.IncrementStep` | backend/src/events/event.service.ts:51-58 | NotFound; "Event is at full capacity" with no change when the counter has reached capacity; otherwise that counter alone rises by one and stays within capacity |
| `EventService.DecrementStep` | backend/src/events/event.service.ts:60-66 | NotFound; otherwise that counter alone falls by one, floored at 0, and at 0 nothing changes |
| `EventService.DecrementUndoesIncrement` | backend/src/events/event.service.ts:51-66 | a decrement after a successful increment restores the store |
| `EventService.Create` | backend/src/events/event.service.ts:14-21 | performs `CreateStep` on the store in place |
| `EventService.Update` | backend/src/events/event.service.ts:40-44 | performs `UpdateStep` on the store in place |
| `EventService.Delete` | backend/src/events/event.service.ts:46-49 | performs `DeleteStep` on the store in place |
| `EventService.IncrementRegistrationCount` | backend/src/events/event.service.ts:51-58 | performs `IncrementStep` on the store in place |
| `EventService.DecrementRegistrationCount` | backend/src/events/event.service.ts:60-66 | performs `DecrementStep` on the store in place |
| `RegistrationService.FindExisting` | backend/src/registrations/registration.service.ts:20-23 | the duplicate check finds a row exactly when the (eventId, userId) pair is registered, and it is that stored row |
| `RegistrationService.ByEvent` | backend/src/registrations/registration.service.ts:55-60 | exactly the event's registrations, each once, in the model's id order |
| `RegistrationService.ByUser` | backend/src/registrations/registration.service.ts:62-67 | exactly the user's registrations, each once, in the model's id order |
| `RegistrationService.FindById` | backend/src/registrations/registration.service.ts:69-78 | NotFound exactly when the id is absent; otherwise the stored row |
| `RegistrationService.GetRegistrationCount` | backend/src/registrations/registration.service.ts:86-90 | the number of rows naming the event |
| `RegistrationService.InsertedWf` | backend/src/registrations/registration.entity.ts:5 | saving a row for a pair not yet taken keeps the unique (eventId, userId) constraint |
| `RegistrationService.RegisterStep` | backend/src/registrations/registration.service.ts:16-53 | a registered pair gives "User is already registered for this event", then an absent event NotFound, then a full event "Event is at full capacity", each with no change; otherwise one row is saved with the input's fields and status "registered", and the counter rises by one without passing capacity, so the increment's own guard never fires |
| `RegistrationService.CancelStep` | backend/src/registrations/registration.service.ts:80-84 | NotFound changes nothing; otherwise exactly that row goes and its event's counter falls by one, floored at 0; when the event is gone, NotFound comes after the row is already deleted |
| `RegistrationService.CountAgrees` | backend/src/registrations/registration.service.ts:86-90 | with matching counters, `getRegistrationCount` equals the stored counter |
| `RegistrationService.EmptyCountsMatch` | backend/src/events/event.entity.ts:28-29 | the empty store has matching counters |
| `RegistrationService.RegisterKeepsCounts` | backend/src/registrations/registration.service.ts:45-50 | registering keeps every event's counter equal to its number of rows |
| `RegistrationService.CancelKeepsCounts` | backend/src/registrations/registration.service.ts:80-84 | cancelling keeps every event's counter equal to its number of rows |
| `RegistrationService.CreateEventKeepsCounts` | backend/src/events/event.service.ts:14-21 | a new event, counter 0, has no rows yet, so the counters keep matching |
| `RegistrationService.UpdateEventKeepsCounts` | backend/src/events/event.service.ts:40-44 | updating an event keeps the counters matching |
| `RegistrationService.DeleteEventKeepsCounts` | backend/src/events/event.service.ts:46-49 | deleting an event keeps the remaining counters matching |
| `RegistrationService.RegisterTwiceRefused` | backend/src/registrations/registration.service.ts:20-29 | registering the same user for the same event again is refused and changes nothing |
| `RegistrationService.CancelUndoesRegister` | backend/src/registrations/registration.service.ts:16-53 | cancelling the registration just made restores the store, except for the used-up id |
| `RegistrationService.LastSeatTaken` | backend/src/registrations/registration.service.ts:31-36 | once the last seat is taken, another user's registration is refused for capacity |
| `RegistrationService.CapacityOneScenario` | backend/src/registrations/registration.service.ts:16-84 | in an event of capacity 1: A registers, B is refused, A cancels and the counter is 0, then B registers |
| `RegistrationService.RegisterForEvent` | backend/src/registrations/registration.service.ts:16-53 | performs `RegisterStep` in place, through the event service's increment |
| `RegistrationService.CancelRegistration` | backend/src/registrations/registration.service.ts:80-84 | performs `CancelStep` in place, through the event service's decrement |
| `TicketService.FindByUuid` | backend/src/tickets/ticket.service.ts:34-43 | NotFound exactly when no ticket holds the uuid; otherwise the one stored ticket holding it |
| `TicketService.FindByRegistrationId` | backend/src/tickets/ticket.service.ts:45-56 | NotFound exactly when no ticket names the registration; otherwise its stored ticket with the lowest id |
| `TicketService.GetTicketsByEvent` | backend/src/tickets/ticket.service.ts:58-63 | exactly the event's tickets, each once, in the model's id order |
| `TicketService.GetTicketStatus` | backend/src/tickets/ticket.service.ts:83-85 | the same answer as the uuid lookup, and nothing is written |
| `TicketService.GenerateStep` | backend/src/tickets/ticket.service.ts:15-32 | always succeeds: the service looks up neither registration nor event, and the database's foreign-key refusal of a missing event is not modelled; the new ticket has the given ids, the fresh uuid, its rendered QR code, status "active", unverified, no verification time; nothing else changes |
| `TicketService.VerifyStep` | backend/src/tickets/ticket.service.ts:65-81 | unknown uuid: NotFound; verified: "Ticket has already been verified", checked first; not active: "Ticket is not active"; each with no change. Otherwise only that ticket becomes verified, `verifiedAt = now`, "checked-in"; verified tickets never change |
| `TicketService.VerifyAtMostOnce` | backend/src/tickets/ticket.service.ts:65-81 | a second verification of the same uuid is refused as already verified and keeps the first check-in time |
| `TicketService.EmptyTwoState` | backend/src/tickets/ticket.entity.ts:21-28 | the empty store satisfies the two-state invariant |
| `TicketService.GenerateKeepsTwoState` | backend/src/tickets/ticket.service.ts:22-29 | a new ticket is active and unverified, so every ticket stays in one of the two states |
| `TicketService.VerifyKeepsTwoState` | backend/src/tickets/ticket.service.ts:76-80 | a check-in moves a ticket from the first state to the second |
| `TicketService.DeleteEventKeepsTwoState` | backend/src/tickets/ticket.entity.ts:33 | the cascade only removes tickets, so the two states are kept |
| `TicketService.NotActiveUnreachable` | backend/src/tickets/ticket.service.ts:72-74 | when every ticket is in one of the two states, "Ticket is not active" is never the answer |
| `TicketService.TwoTicketsOneRegistration` | backend/src/tickets/ticket.entity.ts:12-13 | two tickets generated for one registration both stay in the table |
| `TicketService.GenerateTicket` | backend/src/tickets/ticket.service.ts:15-32 | performs `GenerateStep` on the store in place |
| `TicketService.VerifyTicket` | backend/src/tickets/ticket.service.ts:65-81 | performs `VerifyStep` on the store in place |
| `UserService.FindByEmail` | backend/src/users/user.service.ts:62-66 | nothing exactly when no user holds the email; otherwise the one stored user holding it |
| `UserService.FindById` | backend/src/users/user.service.ts:49-60 | NotFound exactly when the id is absent; otherwise the stored user without its password |
| `UserService.FindAll` | backend/src/users/user.service.ts:43-47 | every user without its password, one per stored user, in the model's id order |
| `UserService.FindByRole` | backend/src/users/user.service.ts:68-73 | exactly the users of the role, without passwords, each once, in the model's id order |
| `UserService.GetStatistics` | backend/src/users/user.service.ts:123-147 | total is the number of users; the three role counts add up to it; active counts the active users; inactive is total minus active and equals the number of inactive users |
| `UserService.RolesPartition` | backend/src/users/user.service.ts:131-137 | every user is counted under exactly one role |
| `UserService.ActivePartition` | backend/src/users/user.service.ts:136-145 | every user is counted as active or as inactive |
| `UserService.CreateStep` | backend/src/users/user.service.ts:14-41 | Conflict with no change exactly when the email is taken; otherwise one user is added with the hash of the password, the given role or attendee, and the default active flag |
| `UserService.UpdateStep` | backend/src/users/user.service.ts:75-101 | NotFound; Conflict with no change exactly when a new email, different from the user's own, is held by someone; otherwise the given fields are merged and the password is kept; emails stay unique |
| `UserService.UpdateStepAsWritten` | backend/src/users/user.service.ts:89-99 | the update as written skips the conflict check for an empty email and merges it; for any other input it is the update above |
| `UserService.EmptyEmailDuplicates` | backend/src/users/user.service.ts:89 | an empty email, given as an update, makes two users share an email where the corrected update answers Conflict |
| `UserService.UpdatePasswordStep` | backend/src/users/user.service.ts:103-106 | always succeeds; an existing user's password becomes the hash of the new one; an absent id changes nothing |
| `UserService.ToggleActiveStep` | backend/src/users/user.service.ts:108-112 | NotFound; otherwise only that user's flag is negated |
| `UserService.ToggleTwice` | backend/src/users/user.service.ts:108-112 | toggling twice restores the store |
| `UserService.DeleteStep` | backend/src/users/user.service.ts:114-117 | NotFound changes nothing; otherwise exactly that user is removed |
| `UserService.CreateTwiceConflicts` | backend/src/users/user.service.ts:22-29 | a second create with the same email is refused with Conflict |
| `UserService.Create` | backend/src/users/user.service.ts:14-41 | performs `CreateStep` on the store in place |
| `UserService.Update` | backend/src/users/user.service.ts:75-101 | performs the corrected `UpdateStep` on the store in place |
| `UserService.UpdatePassword` | backend/src/users/user.service.ts:103-106 | performs `UpdatePasswordStep` on the store in place |
| `UserService.ToggleActive` | backend/src/users/user.service.ts:108-112 | performs `ToggleActiveStep` on the store in place |
| `UserService.Delete` | backend/src/users/user.service.ts:114-117 | performs `DeleteStep` on the store in place |
| `AuthService.ValidateUser` | backend/src/auth/auth.service.ts:13-34 | unknown email: no user; wrong password: no user, whatever the flag; right password on a deactivated account: "Account is deactivated"; otherwise the stored, active user |
| `AuthService.Login` | backend/src/auth/auth.service.ts:36-66 | "Invalid credentials" exactly when no user is validated, the deactivation error propagated; otherwise a token signed over id, email and role, and the user's id, email, name and role |
| `AuthService.RegisterStep` | backend/src/auth/auth.service.ts:68-104 | user creation with the attendee role, its Conflict propagated; otherwise a token over the new user's id, email and attendee role |
| `AuthService.ValidateToken` | backend/src/auth/auth.service.ts:106-112 | the claims of a token that verifies; "Invalid token" exactly for the others |
| `AuthService.RegisterThenLogin` | backend/src/auth/auth.service.ts:36-104 | after self-registration, login with the same credentials returns the same session when accounts start active, and "Account is deactivated" otherwise |
| `AuthService.RegisterIsAttendee` | backend/src/auth/auth.service.ts:83-87 | self-registration only ever adds attendees |
| `AuthService.Register` | backend/src/auth/auth.service.ts:68-104 | performs `RegisterStep` in place, through user creation |
| `AnnouncementService.Recipients` | backend/src/announcements/announcement.service.ts:29-33 | one address per registration of the event, in the order of `ByEvent`, as many as `getRegistrationCount` |
| `AnnouncementService.Outbox` | backend/src/announcements/announcement.service.ts:26-43 | a mail goes out exactly when the event exists and has registrations, to all of them, with the event's title |
| `AnnouncementService.CreateStep` | backend/src/announcements/announcement.service.ts:19-56 | NotFound, or a failed send, changes nothing; otherwise one record is added with the inputs, `sentAt = now` and the number of recipients |
| `AnnouncementService.FindById` | backend/src/announcements/announcement.service.ts:65-76 | NotFound exactly when the id is absent; otherwise the stored record |
| `AnnouncementService.DeleteStep` | backend/src/announcements/announcement.service.ts:78-81 | NotFound changes nothing; otherwise exactly that record is removed |
| `AnnouncementService.FindByEvent` | backend/src/announcements/announcement.service.ts:58-63 | exactly the event's announcements, newest `sentAt` first |
| `AnnouncementService.SortNewestFirst` | backend/src/announcements/announcement.service.ts:61 | the ordering is newest first and a permutation of the rows |
| `AnnouncementService.NoRecipientsNoMail` | backend/src/announcements/announcement.service.ts:36-43 | with no registrations the transport is not consulted: any two transports give the same outcome |
| `AnnouncementService.RecipientCountIsCounter` | backend/src/announcements/announcement.service.ts:46-53 | with matching counters, the recorded recipient count is the event's registration counter |
| `AnnouncementService.DeleteUndoesCreate` | backend/src/announcements/announcement.service.ts:78-81 | deleting the record just created restores the store, except for the used-up id |
| `AnnouncementService.Create` | backend/src/announcements/announcement.service.ts:19-56 | performs `CreateStep` on the store in place |
| `AnnouncementService.Delete` | backend/src/announcements/announcement.service.ts:78-81 | performs `DeleteStep` on the store in place |
| `Backend.HandleKeepsConsistent` | backend/src/registrations/registration.service.ts:16-84 | every state-changing request keeps the counters matching their rows and every ticket in one of its two states |
| `Backend.RunKeepsConsistent` | backend/src/registrations/registration.service.ts:16-84 | so does every sequence of requests |
| `Backend.Reachable` | backend/src/events/event.service.ts:51-66 | in every reachable store each counter is non-negative and equals `getRegistrationCount`, and no verification answers "Ticket is not active" |

## Left out

- Row order of `find`: the source's queries carry no ORDER BY, and SQLite may answer
  through an index (for registrations filtered on eventId, the unique (eventId, userId)
  index, giving userId order). The model fixes ascending id order. Which rows come back
  is modelled; the order of `getRegistrationsByEvent`, of the tickets and users lists,
  and of the announcement's recipient list is not.
- `UserService.Update`: runs the corrected `UserService.UpdateStep`, and so does
  `Backend.Handle`. The code as written is `UserService.UpdateStepAsWritten`, which the
  whole-backend invariants do not cover.
- Concurrency. The model is sequential. The check-then-act sequences of registration
  and verification are not claimed to be atomic.
- HTTP routing, guards and roles (the controllers), and the `JwtAuthGuard`/`RolesGuard`
  code, which is not part of this model.
- Relation loading (`relations: [...]`), `createdAt`/`updatedAt` columns, and the
  `createdAt` of the user projections.
- Password hashing, JWT signing and verification, QR rendering, uuid generation, mail
  transport and templates, and the clock. Each is a parameter, as listed above.
- Request bodies beyond the declared fields. The validation pipe has no whitelist, so
  extra keys reach the repositories. The typed inputs here carry only the declared fields,
  and the invariants `Backend.Reachable` proves hold only for such bodies. Three paths:
  - backend/src/events/event.service.ts:42 passes the update body to `update` as it is,
    so `{"registrationCount": -5}` makes a counter negative and unequal to its rows;
  - in backend/src/registrations/registration.service.ts:39-43 a body `eventId` overrides
    the path's, so the row is saved under another event while the duplicate check,
    the capacity check and the increment use the path's event;
  - in a user update, `Object.assign` would store a `password` key unhashed.
- JSON `null` for an optional field is modelled as the field being absent.
- Path parameters are modelled as integers; the conversion of the path string is not modelled.
- `EventService.UpdateStep`: an update with no field at all is modelled as a change to
  nothing. TypeORM's `update` with an empty set of values raises an error, which is not part of this model.
- `EventService.DeleteStep`: registrations of a deleted event are kept. Whether the database
  refuses the deletion through its foreign key is ORM behaviour this model leaves out.
- `TicketService.GenerateStep`: requires the generated uuid to be fresh, the property a v4
  uuid is relied on for. `Backend.Handle` treats a collision as refused by the unique index.
- `TicketService.GenerateStep`: saves the ticket whatever its `eventId`. TypeORM's SQLite
  driver turns foreign keys on, so the database refuses a ticket whose `eventId` names no
  event, with a database error; that refusal is not modelled. The announcement service
  looks its event up first, so the same gap does not arise there.
- `AnnouncementService.FindByEvent`: only the newest-first order is stated. The order
  among records with the same `sentAt` is not.
- The tables this deployment registers are only events, registrations and tickets
  (backend/src/app.module.ts:16). The model still keeps the users and announcements
  tables, as their services describe them.
- The user entity file is not part of this model. Its columns are taken from the services,
  its roles from the user controller, and the default of `isActive` is the parameter `initialActive`.
- The front-ends and `frontend/api.ts`: presentation only.

## Findings

| source | as written | input that shows it | evidently intended | confidence | as-written member | corrected member |
|---|---|---|---|---|---|---|
| backend/src/users/user.service.ts:89 | the email conflict check is guarded by `updateData.email && …`, so the empty string skips it and `Object.assign` stores it | user 1 has email "", user 2 is updated with `{ email: "" }`: the update succeeds and two users share "" | check every given email that differs from the user's own, answering Conflict for one already in use | medium, not executed; a unique index on the users table, which is not part of this model, would refuse the save with a database error instead | `UserService.UpdateStepAsWritten`, `UserService.EmptyEmailDuplicates` | `UserService.UpdateStep` |
