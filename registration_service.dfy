/**
 * The registration ledger (backend/src/registrations/registration.service.ts): who is
 * registered for which event. Registering checks for a duplicate, then for capacity,
 * then saves the row and bumps the event's counter; cancelling deletes the row and
 * lowers the counter.
 */
module RegistrationService {
  import opened Common
  import opened Tables
  import opened Dto
  import opened RegistrationEntity
  import opened Store
  import EventEntity
  import EventService

  const AlreadyRegistered: string := "User is already registered for this event"

  /** Some registration holds the pair (eventId, userId). */
  predicate IsRegistered(s: Db, eventId: int, userId: int) {
    exists id :: id in s.registrations && s.registrations[id].eventId == eventId && s.registrations[id].userId == userId
  }

  /** The row `registerForEvent` saves: the path's event, the input's fields, the default status. */
  function NewRegistration(id: int, eventId: int, dto: RegisterForEventDto, now: int): Registration {
    Registration(id, eventId, dto.userId, DefaultRegistrationStatus, dto.userEmail, dto.userName, now)
  }

  /** The store after `save` of a new row under the next id. */
  function Inserted(s: Db, reg: Registration): Db {
    s.(registrations := s.registrations[reg.id := reg], nextRegistrationId := reg.id + 1)
  }

  /** The counter of every event equals its number of registration rows. */
  predicate CountsMatch(s: Db) {
    forall id :: id in s.events ==> s.events[id].registrationCount == |Matching(s.registrations, EventIdOf, id)|
  }

  // ----- reads -----

  /** The duplicate check: `findOne({ where: { eventId, userId } })`. */
  function FindExisting(s: Db, eventId: int, userId: int): (r: Option<Registration>)
    requires Wf(s)
    ensures r.None? <==> !IsRegistered(s, eventId, userId)
    ensures r.Some? ==> r.value.id in s.registrations && s.registrations[r.value.id] == r.value
    ensures r.Some? ==> r.value.eventId == eventId && r.value.userId == userId
  {
    KeyedBelow(s.registrations, IdOf, s.nextRegistrationId);
    FindOneNone(s.registrations, PairOf, (eventId, userId), s.nextRegistrationId);
    WhereStored(s.registrations, IdOf, PairOf, (eventId, userId), s.nextRegistrationId);
    FindOne(s.registrations, PairOf, (eventId, userId), s.nextRegistrationId)
  }

  /** `getRegistrationsByEvent`: exactly the event's rows, in id order. */
  function ByEvent(s: Db, eventId: int): (r: seq<Registration>)
    requires Wf(s)
    ensures Answers(s.registrations, IdOf, EventIdOf, eventId, r)
  {
    WhereAnswers(s.registrations, IdOf, EventIdOf, eventId, s.nextRegistrationId);
    Where(s.registrations, EventIdOf, eventId, s.nextRegistrationId)
  }

  /** `getRegistrationsByUser`: exactly the user's rows, in id order. */
  function ByUser(s: Db, userId: int): (r: seq<Registration>)
    requires Wf(s)
    ensures Answers(s.registrations, IdOf, UserIdOf, userId, r)
  {
    WhereAnswers(s.registrations, IdOf, UserIdOf, userId, s.nextRegistrationId);
    Where(s.registrations, UserIdOf, userId, s.nextRegistrationId)
  }

  function FindById(s: Db, id: int): (r: Result<Registration>)
    requires Wf(s)
    ensures r.Err? <==> id !in s.registrations
    ensures r.Err? ==> r.error == NotFound
    ensures r.Ok? ==> r.value.id == id && r.value == s.registrations[id]
  {
    if id in s.registrations then Ok(s.registrations[id]) else Err(NotFound)
  }

  /** `getRegistrationCount`: the number of the event's rows, counted in the table. */
  function GetRegistrationCount(s: Db, eventId: int): (r: int)
    requires Wf(s)
    ensures r == |Matching(s.registrations, EventIdOf, eventId)|
    ensures r == |ByEvent(s, eventId)|
  {
    KeyedBelow(s.registrations, IdOf, s.nextRegistrationId);
    WhereCount(s.registrations, EventIdOf, eventId, s.nextRegistrationId);
    |Where(s.registrations, EventIdOf, eventId, s.nextRegistrationId)|
  }

  // ----- steps -----

  /** Saving a row for an existing event and a pair not yet taken keeps the store well formed. */
  lemma InsertedWf(s: Db, eventId: int, dto: RegisterForEventDto, now: int)
    requires Wf(s) && eventId in s.events && !IsRegistered(s, eventId, dto.userId)
    ensures Wf(Inserted(s, NewRegistration(s.nextRegistrationId, eventId, dto, now)))
  {
    var reg := NewRegistration(s.nextRegistrationId, eventId, dto, now);
    var t := Inserted(s, reg);
    forall i, j | i in t.registrations && j in t.registrations && PairOf(t.registrations[i]) == PairOf(t.registrations[j])
      ensures i == j
    {
      if i != reg.id && j != reg.id {
        assert UniqueKey(s.registrations, PairOf);
      }
    }
  }

  /**
   * `registerForEvent`: refused for a pair already registered, then NotFound for an
   * absent event, then refused when no capacity is left; otherwise one row is saved and
   * the event's counter rises by one (the increment's own capacity guard cannot fire).
   */
  function RegisterStep(s: Db, eventId: int, dto: RegisterForEventDto, now: int): (r: Step<Registration>)
    requires Wf(s)
    ensures Wf(r.after)
    ensures IsRegistered(s, eventId, dto.userId) ==> r == Step(Err(BadRequest(AlreadyRegistered)), s)
    ensures !IsRegistered(s, eventId, dto.userId) && eventId !in s.events ==> r == Step(Err(NotFound), s)
    ensures !IsRegistered(s, eventId, dto.userId) && eventId in s.events &&
            s.events[eventId].registrationCount >= s.events[eventId].capacity ==>
      r == Step(Err(BadRequest(EventService.FullCapacity)), s)
    ensures r.result.Ok? <==>
      !IsRegistered(s, eventId, dto.userId) && eventId in s.events &&
      s.events[eventId].registrationCount < s.events[eventId].capacity
    ensures r.result.Ok? ==>
      var (reg, e) := (r.result.value, s.events[eventId]);
      && reg.id == s.nextRegistrationId && reg.id !in s.registrations
      && reg.eventId == eventId && reg.userId == dto.userId && reg.status == "registered"
      && reg.userEmail == dto.userEmail && reg.userName == dto.userName && reg.registeredAt == now
      && r.after == s.(registrations := s.registrations[reg.id := reg], nextRegistrationId := reg.id + 1,
                       events := s.events[eventId := e.(registrationCount := e.registrationCount + 1)])
      && r.after.events[eventId].registrationCount <= r.after.events[eventId].capacity
  {
    match FindExisting(s, eventId, dto.userId)
    case Some(_) => Step(Err(BadRequest(AlreadyRegistered)), s)
    case None =>
      match EventService.GetAvailableCapacity(s, eventId)
      case Err(err) => Step(Err(err), s)
      case Ok(available) =>
        if available <= 0 then Step(Err(BadRequest(EventService.FullCapacity)), s)
        else
          var reg := NewRegistration(s.nextRegistrationId, eventId, dto, now);
          InsertedWf(s, eventId, dto, now);
          var inc := EventService.IncrementStep(Inserted(s, reg), eventId);
          match inc.result
          case Err(err) => Step(Err(err), inc.after)
          case Ok(_) => Step(Ok(reg), inc.after)
  }

  /**
   * `cancelRegistration`: NotFound for an absent id; otherwise the row is deleted and its
   * event's counter lowered (floored at 0). When the event itself is gone, the lowering
   * fails with NotFound after the row has already been deleted.
   */
  function CancelStep(s: Db, id: int): (r: Step<()>)
    requires Wf(s)
    ensures Wf(r.after)
    ensures id !in s.registrations ==> r == Step(Err(NotFound), s)
    ensures id in s.registrations ==>
      var e := s.registrations[id].eventId;
      && r.after.registrations == s.registrations - {id}
      && r.after == s.(registrations := s.registrations - {id}, events := r.after.events)
      && (e !in s.events ==> r == Step(Err(NotFound), s.(registrations := s.registrations - {id})))
      && (e in s.events ==>
            var count := s.events[e].registrationCount;
            && r.result.Ok?
            && r.after.events == s.events[e := s.events[e].(registrationCount := if count > 0 then count - 1 else 0)])
  {
    match FindById(s, id)
    case Err(err) => Step(Err(err), s)
    case Ok(reg) =>
      var deleted := s.(registrations := s.registrations - {id});
      EventService.DecrementStep(deleted, reg.eventId)
  }

  // ----- the counter and the rows -----

  /** With matching counters, `getRegistrationCount` and the stored counter agree. */
  lemma CountAgrees(s: Db, eventId: int)
    requires Wf(s) && CountsMatch(s) && eventId in s.events
    ensures GetRegistrationCount(s, eventId) == s.events[eventId].registrationCount
  {
  }

  /** A fresh store has matching counters. */
  lemma EmptyCountsMatch()
    ensures Wf(Empty) && CountsMatch(Empty)
  {
  }

  lemma {:induction false} RegisterKeepsCounts(s: Db, eventId: int, dto: RegisterForEventDto, now: int)
    requires Wf(s) && CountsMatch(s)
    ensures CountsMatch(RegisterStep(s, eventId, dto, now).after)
  {
    var r := RegisterStep(s, eventId, dto, now);
    if r.result.Ok? {
      var reg := r.result.value;
      forall id | id in r.after.events
        ensures r.after.events[id].registrationCount == |Matching(r.after.registrations, EventIdOf, id)|
      {
        MatchingInsert(s.registrations, EventIdOf, id, reg.id, reg);
      }
    }
  }

  lemma {:induction false} CancelKeepsCounts(s: Db, id: int)
    requires Wf(s) && CountsMatch(s)
    ensures CountsMatch(CancelStep(s, id).after)
  {
    var r := CancelStep(s, id);
    if id in s.registrations {
      var e := s.registrations[id].eventId;
      forall ev | ev in r.after.events
        ensures r.after.events[ev].registrationCount == |Matching(r.after.registrations, EventIdOf, ev)|
      {
        MatchingRemove(s.registrations, EventIdOf, ev, id);
        if ev == e {
          assert id in Matching(s.registrations, EventIdOf, ev);
        }
      }
    }
  }

  /** Creating an event keeps the counters matching: no row names the fresh id yet. */
  lemma {:induction false} CreateEventKeepsCounts(s: Db, dto: CreateEventDto)
    requires Wf(s) && CountsMatch(s)
    ensures CountsMatch(EventService.CreateStep(s, dto).after)
  {
    forall id | id in s.registrations
      ensures EventIdOf(s.registrations[id]) != s.nextEventId
    {
    }
    assert Matching(s.registrations, EventIdOf, s.nextEventId) == {};
  }

  lemma UpdateEventKeepsCounts(s: Db, id: int, dto: UpdateEventDto)
    requires Wf(s) && CountsMatch(s)
    ensures CountsMatch(EventService.UpdateStep(s, id, dto).after)
  {
  }

  lemma DeleteEventKeepsCounts(s: Db, id: int)
    requires Wf(s) && CountsMatch(s)
    ensures CountsMatch(EventService.DeleteStep(s, id).after)
  {
  }

  // ----- scenarios -----

  /** A second registration of the same user for the same event is refused and changes nothing. */
  lemma RegisterTwiceRefused(s: Db, eventId: int, dto: RegisterForEventDto, now: int, later: int)
    requires Wf(s) && RegisterStep(s, eventId, dto, now).result.Ok?
    ensures var t := RegisterStep(s, eventId, dto, now).after;
      RegisterStep(t, eventId, dto, later) == Step(Err(BadRequest(AlreadyRegistered)), t)
  {
    var t := RegisterStep(s, eventId, dto, now).after;
    var reg := RegisterStep(s, eventId, dto, now).result.value;
    assert t.registrations[reg.id] == reg;
  }

  /** Cancelling the registration just made restores the store, except that the id is used up. */
  lemma CancelUndoesRegister(s: Db, eventId: int, dto: RegisterForEventDto, now: int)
    requires Wf(s) && RegisterStep(s, eventId, dto, now).result.Ok?
    ensures var r := RegisterStep(s, eventId, dto, now);
      CancelStep(r.after, r.result.value.id) == Step(Ok(()), s.(nextRegistrationId := s.nextRegistrationId + 1))
  {
    var r := RegisterStep(s, eventId, dto, now);
    var reg := r.result.value;
    assert r.after.registrations - {reg.id} == s.registrations;
    var e := s.events[eventId];
    assert s.events[eventId := e] == s.events;
  }

  /**
   * The registration that takes the last seat leaves the event full: another user's
   * registration is then refused for capacity.
   */
  lemma LastSeatTaken(s: Db, eventId: int, dto: RegisterForEventDto, other: RegisterForEventDto, now: int, later: int)
    requires Wf(s) && RegisterStep(s, eventId, dto, now).result.Ok?
    requires s.events[eventId].registrationCount + 1 == s.events[eventId].capacity
    requires other.userId != dto.userId && !IsRegistered(s, eventId, other.userId)
    ensures var t := RegisterStep(s, eventId, dto, now).after;
      RegisterStep(t, eventId, other, later) == Step(Err(BadRequest(EventService.FullCapacity)), t)
  {
  }

  /**
   * An event of capacity 1: A registers and takes the seat, B is refused for capacity,
   * A cancels and the counter is back at 0, and now B registers.
   */
  lemma CapacityOneScenario(s: Db, dto: CreateEventDto, a: RegisterForEventDto, b: RegisterForEventDto,
                            t1: int, t2: int, t3: int)
    requires Wf(s) && dto.capacity == 1 && a.userId != b.userId
    ensures
      var s1 := EventService.CreateStep(s, dto);
      var e := s1.result.value.id;
      var s2 := RegisterStep(s1.after, e, a, t1);
      && s2.result.Ok? && s2.after.events[e].registrationCount == 1
      && var s3 := RegisterStep(s2.after, e, b, t2);
      && s3 == Step(Err(BadRequest(EventService.FullCapacity)), s2.after)
      && var s4 := CancelStep(s3.after, s2.result.value.id);
      && s4.result.Ok? && s4.after.events[e].registrationCount == 0
      && RegisterStep(s4.after, e, b, t3).result.Ok?
  {
    var s1 := EventService.CreateStep(s, dto);
    var e := s1.result.value.id;
    assert !IsRegistered(s1.after, e, a.userId);
    var s2 := RegisterStep(s1.after, e, a, t1);
    var s4 := CancelStep(s2.after, s2.result.value.id);
    assert s4.after.registrations == s1.after.registrations;
    assert !IsRegistered(s4.after, e, b.userId);
  }

  // ----- the service, on the store in place -----

  method RegisterForEvent(db: Database, eventId: int, dto: RegisterForEventDto, now: int) returns (r: Result<Registration>)
    requires db.Valid()
    modifies db`registrations, db`nextRegistrationId, db`events
    ensures db.Valid()
    ensures Step(r, db.Snapshot()) == RegisterStep(old(db.Snapshot()), eventId, dto, now)
  {
    var existing := FindExisting(db.Snapshot(), eventId, dto.userId);
    if existing.Some? {
      return Err(BadRequest(AlreadyRegistered));
    }
    var available := EventService.GetAvailableCapacity(db.Snapshot(), eventId);
    if available.Err? {
      return Err(available.error);
    }
    if available.value <= 0 {
      return Err(BadRequest(EventService.FullCapacity));
    }
    var reg := NewRegistration(db.nextRegistrationId, eventId, dto, now);
    InsertedWf(db.Snapshot(), eventId, dto, now);
    db.registrations := db.registrations[reg.id := reg];
    db.nextRegistrationId := db.nextRegistrationId + 1;
    var incremented := EventService.IncrementRegistrationCount(db, eventId);
    match incremented
    case Err(err) => r := Err(err);
    case Ok(_) => r := Ok(reg);
  }

  method CancelRegistration(db: Database, id: int) returns (r: Result<()>)
    requires db.Valid()
    modifies db`registrations, db`events
    ensures db.Valid()
    ensures Step(r, db.Snapshot()) == CancelStep(old(db.Snapshot()), id)
  {
    var found := FindById(db.Snapshot(), id);
    if found.Err? {
      return Err(found.error);
    }
    db.registrations := db.registrations - {id};
    r := EventService.DecrementRegistrationCount(db, found.value.eventId);
  }
}
