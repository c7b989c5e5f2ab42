/** The `events` table (backend/src/events/event.entity.ts). Creation and update timestamps are not modelled. */
module EventEntity {
  import opened Common

  datatype Event = Event(
    id: int,
    title: string,
    description: string,
    date: string,
    time: string,
    location: string,
    capacity: int,
    registrationCount: int,
    status: string,
    organizerId: Option<int>)   // nullable column

  const DefaultRegistrationCount: int := 0
  const DefaultEventStatus: string := "pending"

  function IdOf(e: Event): int { e.id }
}

/** The `registrations` table, unique on (eventId, userId) (backend/src/registrations/registration.entity.ts). */
module RegistrationEntity {

  /** A registration keeps a snapshot of the registrant's email and name; `registeredAt` is the insertion time. */
  datatype Registration = Registration(
    id: int,
    eventId: int,
    userId: int,
    status: string,
    userEmail: string,
    userName: string,
    registeredAt: int)

  const DefaultRegistrationStatus: string := "registered"

  function IdOf(r: Registration): int { r.id }
  function EventIdOf(r: Registration): int { r.eventId }
  function UserIdOf(r: Registration): int { r.userId }
  /** The columns of the table's unique constraint. */
  function PairOf(r: Registration): (int, int) { (r.eventId, r.userId) }
}

/** The `tickets` table, unique on uuid (backend/src/tickets/ticket.entity.ts). Its creation time is not modelled. */
module TicketEntity {
  import opened Common

  /** `registrationId` carries no unique constraint: a registration may hold several tickets. */
  datatype Ticket = Ticket(
    id: int,
    eventId: int,
    registrationId: int,
    uuid: string,
    qrCode: string,
    status: string,
    verified: bool,
    verifiedAt: Option<int>)   // null until verification

  const DefaultTicketStatus: string := "active"
  const DefaultVerified: bool := false

  function IdOf(t: Ticket): int { t.id }
  function EventIdOf(t: Ticket): int { t.eventId }
  function RegistrationIdOf(t: Ticket): int { t.registrationId }
  function UuidOf(t: Ticket): string { t.uuid }
}

/** The `announcements` table (backend/src/announcements/announcement.entity.ts). */
module AnnouncementEntity {

  /** `sentBy` and `sentByName` identify the sender; `sentAt` is the insertion time. */
  datatype Announcement = Announcement(
    id: int,
    eventId: int,
    subject: string,
    message: string,
    sentBy: int,
    sentByName: string,
    recipientCount: int,
    sentAt: int)

  function IdOf(a: Announcement): int { a.id }
  function EventIdOf(a: Announcement): int { a.eventId }
}

/**
 * The `users` table. Its entity file is not part of this model: the columns are the ones
 * the user and auth services read and write, and the roles are the three the user
 * controller offers.
 */
module UserEntity {
  import opened Common

  datatype Role = Admin | Organizer | Attendee

  /** `password` holds the stored hash, never the plain password. */
  datatype User = User(
    id: int,
    email: string,
    name: string,
    role: Role,
    password: string,
    isActive: bool,
    phone: Option<string>,
    company: Option<string>)

  /** The columns `findAll`, `findById` and `findByRole` select: everything except the password. */
  datatype PublicUser = PublicUser(
    id: int,
    email: string,
    name: string,
    role: Role,
    isActive: bool,
    phone: Option<string>,
    company: Option<string>)

  function Public(u: User): PublicUser {
    PublicUser(u.id, u.email, u.name, u.role, u.isActive, u.phone, u.company)
  }

  function IdOf(u: User): int { u.id }
  function EmailOf(u: User): string { u.email }
  function RoleOf(u: User): Role { u.role }
  function IsActiveOf(u: User): bool { u.isActive }
}
