/**
 * The ticket issuer and verifier (backend/src/tickets/ticket.service.ts). A ticket is a
 * two-state machine: issued active and unverified, it is checked in exactly once.
 */
module TicketService {
  import opened Common
  import opened Tables
  import opened TicketEntity
  import opened Store
  import EventService

  const AlreadyVerified: string := "Ticket has already been verified"
  const NotActive: string := "Ticket is not active"
  const CheckedIn: string := "checked-in"

  /** No ticket in the store holds this uuid: the freshness a v4 uuid is relied on for. */
  predicate FreshUuid(s: Db, uuid: string) {
    forall id :: id in s.tickets ==> s.tickets[id].uuid != uuid
  }

  /**
   * Every ticket is in one of the machine's two states: active and unverified, or
   * checked in and verified.
   */
  predicate TwoState(s: Db) {
    forall id :: id in s.tickets ==>
      if s.tickets[id].verified then s.tickets[id].status == CheckedIn
      else s.tickets[id].status == DefaultTicketStatus
  }

  /** The row `generateTicket` saves: its QR code renders the uuid; status and flag at their defaults. */
  function NewTicket(id: int, eventId: int, registrationId: int, uuid: string, render: string -> string): Ticket {
    Ticket(id, eventId, registrationId, uuid, render(uuid), DefaultTicketStatus, DefaultVerified, None)
  }

  /** The ticket after a check-in at time `now`. */
  function CheckIn(t: Ticket, now: int): Ticket {
    t.(verified := true, verifiedAt := Some(now), status := CheckedIn)
  }

  // ----- reads -----

  /** `findByUuid`: the one ticket holding the uuid, or NotFound. */
  function FindByUuid(s: Db, uuid: string): (r: Result<Ticket>)
    requires Wf(s)
    ensures r.Err? <==> FreshUuid(s, uuid)
    ensures r.Err? ==> r.error == NotFound
    ensures r.Ok? ==> r.value.uuid == uuid && r.value.id in s.tickets && s.tickets[r.value.id] == r.value
    ensures r.Ok? ==> forall id :: id in s.tickets && s.tickets[id].uuid == uuid ==> id == r.value.id
  {
    KeyedBelow(s.tickets, IdOf, s.nextTicketId);
    FindOneNone(s.tickets, UuidOf, uuid, s.nextTicketId);
    FindOneFirst(s.tickets, IdOf, UuidOf, uuid, s.nextTicketId);
    match FindOne(s.tickets, UuidOf, uuid, s.nextTicketId)
    case None => Err(NotFound)
    case Some(t) => Ok(t)
  }

  /**
   * `findByRegistrationId`: the lowest-id ticket of the registration, or NotFound; a
   * registration may hold several tickets.
   */
  function FindByRegistrationId(s: Db, registrationId: int): (r: Result<Ticket>)
    requires Wf(s)
    ensures r.Err? <==> forall id :: id in s.tickets ==> s.tickets[id].registrationId != registrationId
    ensures r.Err? ==> r.error == NotFound
    ensures r.Ok? ==> r.value.registrationId == registrationId && r.value.id in s.tickets && s.tickets[r.value.id] == r.value
    ensures r.Ok? ==> forall id :: id in s.tickets && s.tickets[id].registrationId == registrationId ==> r.value.id <= id
  {
    KeyedBelow(s.tickets, IdOf, s.nextTicketId);
    FindOneNone(s.tickets, RegistrationIdOf, registrationId, s.nextTicketId);
    FindOneFirst(s.tickets, IdOf, RegistrationIdOf, registrationId, s.nextTicketId);
    match FindOne(s.tickets, RegistrationIdOf, registrationId, s.nextTicketId)
    case None => Err(NotFound)
    case Some(t) => Ok(t)
  }

  /** `getTicketsByEvent`: exactly the event's tickets, in id order. */
  function GetTicketsByEvent(s: Db, eventId: int): (r: seq<Ticket>)
    requires Wf(s)
    ensures Answers(s.tickets, IdOf, EventIdOf, eventId, r)
  {
    WhereAnswers(s.tickets, IdOf, EventIdOf, eventId, s.nextTicketId);
    Where(s.tickets, EventIdOf, eventId, s.nextTicketId)
  }

  /** `getTicketStatus`: the lookup of `findByUuid`, with nothing written. */
  function GetTicketStatus(s: Db, uuid: string): (r: Result<Ticket>)
    requires Wf(s)
    ensures r.Err? <==> FreshUuid(s, uuid)
    ensures r.Err? ==> r.error == NotFound
    ensures r.Ok? ==> r.value.uuid == uuid && r.value.id in s.tickets && s.tickets[r.value.id] == r.value
  {
    FindByUuid(s, uuid)
  }

  // ----- steps -----

  /**
   * `generateTicket`: always succeeds. Neither the registration nor the event is looked
   * up, and a registration that already holds a ticket gets another.
   */
  function GenerateStep(s: Db, eventId: int, registrationId: int, uuid: string, render: string -> string): (r: Step<Ticket>)
    requires Wf(s) && FreshUuid(s, uuid)
    ensures Wf(r.after)
    ensures r.result.Ok?
    ensures var t := r.result.value;
      && t.id == s.nextTicketId && t.id !in s.tickets
      && t.eventId == eventId && t.registrationId == registrationId && t.uuid == uuid && t.qrCode == render(uuid)
      && t.status == "active" && !t.verified && t.verifiedAt.None?
      && r.after == s.(tickets := s.tickets[t.id := t], nextTicketId := t.id + 1)
  {
    var t := NewTicket(s.nextTicketId, eventId, registrationId, uuid, render);
    Step(Ok(t), s.(tickets := s.tickets[t.id := t], nextTicketId := t.id + 1))
  }

  /**
   * `verifyTicket`: NotFound for an unknown uuid; refused if already verified, which is
   * checked first; refused if not active; otherwise that ticket alone is checked in.
   */
  function VerifyStep(s: Db, uuid: string, now: int): (r: Step<Ticket>)
    requires Wf(s)
    ensures Wf(r.after)
    ensures FreshUuid(s, uuid) ==> r == Step(Err(NotFound), s)
    ensures !FreshUuid(s, uuid) ==>
      var t := FindByUuid(s, uuid).value;
      && (t.verified ==> r == Step(Err(BadRequest(AlreadyVerified)), s))
      && (!t.verified && t.status != "active" ==> r == Step(Err(BadRequest(NotActive)), s))
      && (!t.verified && t.status == "active" ==>
            && r.result == Ok(CheckIn(t, now))
            && r.result.value.verified && r.result.value.verifiedAt == Some(now) && r.result.value.status == "checked-in"
            && r.after == s.(tickets := s.tickets[t.id := CheckIn(t, now)]))
    ensures r.result.Ok? <==> !FreshUuid(s, uuid) && !FindByUuid(s, uuid).value.verified && FindByUuid(s, uuid).value.status == "active"
    ensures forall id :: id in s.tickets && s.tickets[id].verified ==> id in r.after.tickets && r.after.tickets[id] == s.tickets[id]
  {
    match FindByUuid(s, uuid)
    case Err(err) => Step(Err(err), s)
    case Ok(t) =>
      if t.verified then Step(Err(BadRequest(AlreadyVerified)), s)
      else if t.status != DefaultTicketStatus then Step(Err(BadRequest(NotActive)), s)
      else
        var checkedIn := CheckIn(t, now);
        Step(Ok(checkedIn), s.(tickets := s.tickets[t.id := checkedIn]))
  }

  // ----- the state machine -----

  /** A second verification of a checked-in uuid is refused and keeps the first check-in time. */
  lemma VerifyAtMostOnce(s: Db, uuid: string, now: int, later: int)
    requires Wf(s) && VerifyStep(s, uuid, now).result.Ok?
    ensures var t := VerifyStep(s, uuid, now).after;
      && VerifyStep(t, uuid, later) == Step(Err(BadRequest(AlreadyVerified)), t)
      && FindByUuid(t, uuid).value.verifiedAt == Some(now)
  {
    var t := VerifyStep(s, uuid, now).after;
    var ticket := VerifyStep(s, uuid, now).result.value;
    assert t.tickets[ticket.id] == ticket;
  }

  lemma EmptyTwoState()
    ensures TwoState(Empty)
  {
  }

  lemma GenerateKeepsTwoState(s: Db, eventId: int, registrationId: int, uuid: string, render: string -> string)
    requires Wf(s) && FreshUuid(s, uuid) && TwoState(s)
    ensures TwoState(GenerateStep(s, eventId, registrationId, uuid, render).after)
  {
  }

  lemma VerifyKeepsTwoState(s: Db, uuid: string, now: int)
    requires Wf(s) && TwoState(s)
    ensures TwoState(VerifyStep(s, uuid, now).after)
  {
  }

  /** Deleting an event only removes tickets, so the remaining ones keep their states. */
  lemma DeleteEventKeepsTwoState(s: Db, eventId: int)
    requires Wf(s) && TwoState(s)
    ensures TwoState(EventService.DeleteStep(s, eventId).after)
  {
  }

  /** From tickets in the two states, "Ticket is not active" is never the answer. */
  lemma NotActiveUnreachable(s: Db, uuid: string, now: int)
    requires Wf(s) && TwoState(s)
    ensures VerifyStep(s, uuid, now).result != Err(BadRequest(NotActive))
  {
    if !FreshUuid(s, uuid) {
      var t := FindByUuid(s, uuid).value;
      assert s.tickets[t.id] == t;
    }
  }

  /** Two tickets generated in a row for one registration both stay in the table. */
  lemma TwoTicketsOneRegistration(s: Db, eventId: int, registrationId: int, u1: string, u2: string, render: string -> string)
    requires Wf(s) && FreshUuid(s, u1) && FreshUuid(s, u2) && u1 != u2
    ensures var r1 := GenerateStep(s, eventId, registrationId, u1, render);
      && FreshUuid(r1.after, u2)
      && var r2 := GenerateStep(r1.after, eventId, registrationId, u2, render);
      && r1.result.value.id != r2.result.value.id
      && r2.after.tickets[r1.result.value.id].registrationId == registrationId
      && r2.after.tickets[r2.result.value.id].registrationId == registrationId
      && FindByRegistrationId(r2.after, registrationId).Ok?
  {
    var r1 := GenerateStep(s, eventId, registrationId, u1, render);
    var r2 := GenerateStep(r1.after, eventId, registrationId, u2, render);
    assert r2.after.tickets[r1.result.value.id].registrationId == registrationId;
  }

  // ----- the service, on the store in place -----

  method GenerateTicket(db: Database, eventId: int, registrationId: int, uuid: string, render: string -> string)
    returns (r: Result<Ticket>)
    requires db.Valid() && FreshUuid(db.Snapshot(), uuid)
    modifies db`tickets, db`nextTicketId
    ensures db.Valid()
    ensures Step(r, db.Snapshot()) == GenerateStep(old(db.Snapshot()), eventId, registrationId, uuid, render)
  {
    var qrCode := render(uuid);
    var ticket := Ticket(db.nextTicketId, eventId, registrationId, uuid, qrCode, DefaultTicketStatus, DefaultVerified, None);
    db.tickets := db.tickets[ticket.id := ticket];
    db.nextTicketId := db.nextTicketId + 1;
    r := Ok(ticket);
  }

  method VerifyTicket(db: Database, uuid: string, now: int) returns (r: Result<Ticket>)
    requires db.Valid()
    modifies db`tickets
    ensures db.Valid()
    ensures Step(r, db.Snapshot()) == VerifyStep(old(db.Snapshot()), uuid, now)
  {
    var found := FindByUuid(db.Snapshot(), uuid);
    if found.Err? {
      return Err(found.error);
    }
    var ticket := found.value;
    if ticket.verified {
      return Err(BadRequest(AlreadyVerified));
    }
    if ticket.status != DefaultTicketStatus {
      return Err(BadRequest(NotActive));
    }
    ticket := ticket.(verified := true);
    ticket := ticket.(verifiedAt := Some(now));
    ticket := ticket.(status := CheckedIn);
    db.tickets := db.tickets[ticket.id := ticket];
    r := Ok(ticket);
  }
}
