/**
 * The single relational store behind every repository: one table per entity, each an
 * id-keyed map with the counter its generated ids are drawn from (ids start at 1 and
 * are never reused). `Db` is a value of the whole store; `Database` is the store the
 * service methods update in place.
 */
module Store {
  import opened Common
  import opened Tables
  import EventEntity
  import RegistrationEntity
  import TicketEntity
  import UserEntity
  import AnnouncementEntity

  datatype Db = Db(
    events: map<int, EventEntity.Event>,
    nextEventId: int,
    registrations: map<int, RegistrationEntity.Registration>,
    nextRegistrationId: int,
    tickets: map<int, TicketEntity.Ticket>,
    nextTicketId: int,
    users: map<int, UserEntity.User>,
    nextUserId: int,
    announcements: map<int, AnnouncementEntity.Announcement>,
    nextAnnouncementId: int)

  /** What an operation returns, together with the store it leaves behind. */
  datatype Step<+T> = Step(result: Result<T>, after: Db)

  /** The store before any request. */
  const Empty: Db := Db(map[], 1, map[], 1, map[], 1, map[], 1, map[], 1)

  /** Every row sits under its own id, drawn from the counter. */
  predicate Keyed<T>(rows: map<int, T>, idOf: T -> int, next: int) {
    1 <= next && forall id :: id in rows ==> 1 <= id < next && idOf(rows[id]) == id
  }

  predicate EventsWf(s: Db) {
    && Keyed(s.events, EventEntity.IdOf, s.nextEventId)
    && forall id :: id in s.events ==> s.events[id].registrationCount >= 0
  }

  /** The unique (eventId, userId) constraint, and every row names an event id already handed out. */
  predicate RegistrationsWf(s: Db) {
    && Keyed(s.registrations, RegistrationEntity.IdOf, s.nextRegistrationId)
    && UniqueKey(s.registrations, RegistrationEntity.PairOf)
    && forall id :: id in s.registrations ==> s.registrations[id].eventId < s.nextEventId
  }

  /** The unique uuid column; a ticket carries a verification time exactly when it is verified. */
  predicate TicketsWf(s: Db) {
    && Keyed(s.tickets, TicketEntity.IdOf, s.nextTicketId)
    && UniqueKey(s.tickets, TicketEntity.UuidOf)
    && forall id :: id in s.tickets ==> (s.tickets[id].verified <==> s.tickets[id].verifiedAt.Some?)
  }

  /** No two users share an email. */
  predicate UsersWf(s: Db) {
    && Keyed(s.users, UserEntity.IdOf, s.nextUserId)
    && UniqueKey(s.users, UserEntity.EmailOf)
  }

  predicate AnnouncementsWf(s: Db) {
    Keyed(s.announcements, AnnouncementEntity.IdOf, s.nextAnnouncementId)
  }

  /** The invariant every operation keeps. */
  predicate Wf(s: Db) {
    EventsWf(s) && RegistrationsWf(s) && TicketsWf(s) && UsersWf(s) && AnnouncementsWf(s)
  }

  lemma KeyedBelow<T>(rows: map<int, T>, idOf: T -> int, next: int)
    requires Keyed(rows, idOf, next)
    ensures Below(rows, next) && next !in rows
  {
  }

  class Database {
    var events: map<int, EventEntity.Event>
    var nextEventId: int
    var registrations: map<int, RegistrationEntity.Registration>
    var nextRegistrationId: int
    var tickets: map<int, TicketEntity.Ticket>
    var nextTicketId: int
    var users: map<int, UserEntity.User>
    var nextUserId: int
    var announcements: map<int, AnnouncementEntity.Announcement>
    var nextAnnouncementId: int

    /** The store's current contents as a value. */
    function Snapshot(): Db
      reads this
    {
      Db(events, nextEventId, registrations, nextRegistrationId, tickets, nextTicketId,
         users, nextUserId, announcements, nextAnnouncementId)
    }

    ghost predicate Valid()
      reads this
    {
      Wf(Snapshot())
    }

    /** The schema freshly synchronised: every table empty. */
    constructor ()
      ensures Snapshot() == Empty && Valid()
    {
      events, nextEventId := map[], 1;
      registrations, nextRegistrationId := map[], 1;
      tickets, nextTicketId := map[], 1;
      users, nextUserId := map[], 1;
      announcements, nextAnnouncementId := map[], 1;
    }
  }
}
