/**
 * The backend as a whole: every request that changes the store, routed to its service
 * step. The invariants the services keep one by one hold together in every store that
 * a sequence of requests reaches from the empty one.
 */
module Backend {
  import opened Common
  import opened Dto
  import opened Store
  import EventService
  import RegistrationService
  import TicketService
  import UserService
  import AuthService
  import AnnouncementService

  /** The state-changing routes, with the values the request carries (or the clock supplies). */
  datatype Request =
    | CreateEvent(create: CreateEventDto)
    | UpdateEvent(eventId: int, patch: UpdateEventDto)
    | DeleteEvent(eventId: int)
    | RegisterForEvent(eventId: int, registration: RegisterForEventDto, now: int)
    | CancelRegistration(registrationId: int)
    | GenerateTicket(ticketEventId: int, ticketRegistrationId: int, uuid: string)
    | VerifyTicket(verifyUuid: string, verifyNow: int)
    | CreateUser(newUser: UserService.CreateUserInput)
    | UpdateUser(userId: int, userPatch: UserService.UpdateUserInput)
    | UpdatePassword(passwordUserId: int, newPassword: string)
    | ToggleActive(toggleUserId: int)
    | DeleteUser(deleteUserId: int)
    | SignUp(signUp: AuthService.RegisterInput)
    | Announce(announceEventId: int, subject: string, message: string, sentBy: int, sentByName: string, sentAt: int)
    | DeleteAnnouncement(announcementId: int)

  /** What lies outside the store: hashing, QR rendering, token signing, mail delivery, the active-flag default. */
  datatype Env = Env(hash: string -> string, render: string -> string, sign: AuthService.Payload -> string,
                     deliver: AnnouncementService.Mail -> bool, initialActive: bool)

  /** Counters match their rows, and every ticket is in one of its two states. */
  predicate Consistent(s: Db) {
    Wf(s) && RegistrationService.CountsMatch(s) && TicketService.TwoState(s)
  }

  /**
   * The store a request leaves behind. A generated uuid that collides with a stored one
   * is refused by the column's unique index and changes nothing.
   */
  function Handle(s: Db, env: Env, req: Request): (r: Db)
    requires Wf(s)
    ensures Wf(r)
  {
    match req
    case CreateEvent(dto) => EventService.CreateStep(s, dto).after
    case UpdateEvent(id, dto) => EventService.UpdateStep(s, id, dto).after
    case DeleteEvent(id) => EventService.DeleteStep(s, id).after
    case RegisterForEvent(eventId, dto, now) => RegistrationService.RegisterStep(s, eventId, dto, now).after
    case CancelRegistration(id) => RegistrationService.CancelStep(s, id).after
    case GenerateTicket(eventId, registrationId, uuid) =>
      if TicketService.FreshUuid(s, uuid) then TicketService.GenerateStep(s, eventId, registrationId, uuid, env.render).after
      else s
    case VerifyTicket(uuid, now) => TicketService.VerifyStep(s, uuid, now).after
    case CreateUser(input) => UserService.CreateStep(s, input, env.hash, env.initialActive).after
    case UpdateUser(id, input) => UserService.UpdateStep(s, id, input).after
    case UpdatePassword(id, pw) => UserService.UpdatePasswordStep(s, id, pw, env.hash).after
    case ToggleActive(id) => UserService.ToggleActiveStep(s, id).after
    case DeleteUser(id) => UserService.DeleteStep(s, id).after
    case SignUp(input) => AuthService.RegisterStep(s, input, env.hash, env.initialActive, env.sign).after
    case Announce(eventId, subject, message, sentBy, sentByName, now) =>
      AnnouncementService.CreateStep(s, eventId, subject, message, sentBy, sentByName, now, env.deliver).after
    case DeleteAnnouncement(id) => AnnouncementService.DeleteStep(s, id).after
  }

  /** The requests handled one after another. */
  function Run(s: Db, env: Env, reqs: seq<Request>): (r: Db)
    requires Wf(s)
    ensures Wf(r)
    decreases |reqs|
  {
    if |reqs| == 0 then s else Run(Handle(s, env, reqs[0]), env, reqs[1..])
  }

  lemma HandleKeepsConsistent(s: Db, env: Env, req: Request)
    requires Consistent(s)
    ensures Consistent(Handle(s, env, req))
  {
    match req
    case CreateEvent(dto) =>
      RegistrationService.CreateEventKeepsCounts(s, dto);
    case UpdateEvent(id, dto) =>
      RegistrationService.UpdateEventKeepsCounts(s, id, dto);
    case DeleteEvent(id) =>
      RegistrationService.DeleteEventKeepsCounts(s, id);
      TicketService.DeleteEventKeepsTwoState(s, id);
    case RegisterForEvent(eventId, dto, now) =>
      RegistrationService.RegisterKeepsCounts(s, eventId, dto, now);
    case CancelRegistration(id) =>
      RegistrationService.CancelKeepsCounts(s, id);
    case GenerateTicket(eventId, registrationId, uuid) =>
      if TicketService.FreshUuid(s, uuid) {
        TicketService.GenerateKeepsTwoState(s, eventId, registrationId, uuid, env.render);
      }
    case VerifyTicket(uuid, now) =>
      TicketService.VerifyKeepsTwoState(s, uuid, now);
    case _ =>
      OthersKeepConsistent(s, env, req);
  }

  /** A store whose events, registrations and tickets are those of a consistent one is consistent. */
  lemma UntouchedKeepsConsistent(s: Db, t: Db)
    requires Consistent(s) && Wf(t)
    requires t.events == s.events && t.registrations == s.registrations && t.tickets == s.tickets
    ensures Consistent(t)
  {
  }

  /** The user and announcement routes leave the events, registrations and tickets alone. */
  lemma OthersKeepConsistent(s: Db, env: Env, req: Request)
    requires Consistent(s)
    requires req.CreateUser? || req.UpdateUser? || req.UpdatePassword? || req.ToggleActive? ||
             req.DeleteUser? || req.SignUp? || req.Announce? || req.DeleteAnnouncement?
    ensures Consistent(Handle(s, env, req))
  {
    UntouchedKeepsConsistent(s, Handle(s, env, req));
  }

  lemma {:induction false} RunKeepsConsistent(s: Db, env: Env, reqs: seq<Request>)
    requires Consistent(s)
    ensures Consistent(Run(s, env, reqs))
    decreases |reqs|
  {
    if |reqs| > 0 {
      HandleKeepsConsistent(s, env, reqs[0]);
      RunKeepsConsistent(Handle(s, env, reqs[0]), env, reqs[1..]);
    }
  }

  /**
   * In every reachable store each event's counter is non-negative and equals its number
   * of registrations, and no verification is refused as "not active".
   */
  lemma Reachable(env: Env, reqs: seq<Request>, uuid: string, now: int)
    ensures var s := Run(Empty, env, reqs);
      && Consistent(s)
      && (forall id :: id in s.events ==>
            s.events[id].registrationCount >= 0 &&
            s.events[id].registrationCount == RegistrationService.GetRegistrationCount(s, id))
      && TicketService.VerifyStep(s, uuid, now).result != Err(BadRequest(TicketService.NotActive))
  {
    RegistrationService.EmptyCountsMatch();
    TicketService.EmptyTwoState();
    RunKeepsConsistent(Empty, env, reqs);
    var s := Run(Empty, env, reqs);
    TicketService.NotActiveUnreachable(s, uuid, now);
  }
}
