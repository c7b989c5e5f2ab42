/**
 * The event catalog (backend/src/events/event.service.ts): events and the counter of
 * their registrations against a capacity. Each operation is a step on the store value
 * (`...Step`) and a method that performs it on the `Database` in place.
 */
module EventService {
  import opened Common
  import opened Tables
  import opened Dto
  import opened EventEntity
  import opened Store
  import TicketEntity
  import AnnouncementEntity

  const FullCapacity: string := "Event is at full capacity"

  /** The row `create` saves: the input's fields, with the counter and the status at their defaults. */
  function NewEvent(id: int, dto: CreateEventDto): Event {
    Event(id, dto.title, dto.description, dto.date, dto.time, dto.location, dto.capacity,
          DefaultRegistrationCount, DefaultEventStatus, dto.organizerId)
  }

  /** `Object.assign`-style merge done by `update`: the fields given replace the stored ones. */
  function Merged(e: Event, dto: UpdateEventDto): Event {
    e.(title := dto.title.GetOr(e.title),
       description := dto.description.GetOr(e.description),
       date := dto.date.GetOr(e.date),
       time := dto.time.GetOr(e.time),
       location := dto.location.GetOr(e.location),
       capacity := dto.capacity.GetOr(e.capacity),
       status := dto.status.GetOr(e.status))
  }

  // ----- reads -----

  function FindById(s: Db, id: int): (r: Result<Event>)
    requires Wf(s)
    ensures r.Err? <==> id !in s.events
    ensures r.Err? ==> r.error == NotFound
    ensures r.Ok? ==> r.value.id == id && r.value == s.events[id] && r.value.registrationCount >= 0
  {
    if id in s.events then Ok(s.events[id]) else Err(NotFound)
  }

  /** `findAll`: every event, in id order (the loaded relations are not modelled). */
  function FindAll(s: Db): (r: seq<Event>)
    requires Wf(s)
    ensures forall id :: id in s.events ==> s.events[id] in r
    ensures forall i :: 0 <= i < |r| ==> r[i].id in s.events && s.events[r[i].id] == r[i]
    ensures forall i, j :: 0 <= i < j < |r| ==> r[i].id < r[j].id
  {
    KeyedBelow(s.events, IdOf, s.nextEventId);
    WhereStored(s.events, IdOf, Any, true, s.nextEventId);
    WhereAscending(s.events, IdOf, Any, true, s.nextEventId);
    WhereComplete(s.events, Any, true, s.nextEventId);
    Where(s.events, Any, true, s.nextEventId)
  }

  /** `getAvailableCapacity`: capacity minus the counter, negative when the capacity was lowered below it. */
  function GetAvailableCapacity(s: Db, id: int): (r: Result<int>)
    requires Wf(s)
    ensures r.Err? <==> id !in s.events
    ensures r.Err? ==> r.error == NotFound
    ensures r.Ok? ==> r.value + s.events[id].registrationCount == s.events[id].capacity
    ensures r.Ok? ==> r.value <= s.events[id].capacity
    ensures r.Ok? ==> (r.value > 0 <==> s.events[id].registrationCount < s.events[id].capacity)
  {
    match FindById(s, id)
    case Err(e) => Err(e)
    case Ok(event) => Ok(event.capacity - event.registrationCount)
  }

  // ----- steps -----

  function CreateStep(s: Db, dto: CreateEventDto): (r: Step<Event>)
    requires Wf(s)
    ensures Wf(r.after)
    ensures r.result.Ok?
    ensures var e := r.result.value;
      && e.id == s.nextEventId && e.id !in s.events
      && r.after == s.(events := s.events[e.id := e], nextEventId := e.id + 1)
      && e.registrationCount == 0 && e.status == "pending"
      && e.title == dto.title && e.description == dto.description && e.date == dto.date
      && e.time == dto.time && e.location == dto.location && e.capacity == dto.capacity
      && e.organizerId == dto.organizerId
  {
    var e := NewEvent(s.nextEventId, dto);
    Step(Ok(e), s.(events := s.events[e.id := e], nextEventId := e.id + 1))
  }

  /** `update`: no check of the new capacity against the counter; nothing but the given fields changes. */
  function UpdateStep(s: Db, id: int, dto: UpdateEventDto): (r: Step<Event>)
    requires Wf(s)
    ensures Wf(r.after)
    ensures id !in s.events ==> r == Step(Err(NotFound), s)
    ensures id in s.events ==> r.result.Ok? && r.after == s.(events := s.events[id := r.result.value])
    ensures r.result.Ok? ==>
      var (before, e) := (s.events[id], r.result.value);
      && e == Merged(before, dto)
      && e.id == id && e.registrationCount == before.registrationCount && e.organizerId == before.organizerId
      && (dto.capacity.Some? ==> e.capacity == dto.capacity.value)
      && (dto.capacity.None? ==> e.capacity == before.capacity)
  {
    match FindById(s, id)
    case Err(err) => Step(Err(err), s)
    case Ok(before) =>
      var e := Merged(before, dto);
      Step(Ok(e), s.(events := s.events[id := e]))
  }

  /**
   * `delete`: the event goes, and with it (ON DELETE CASCADE) its tickets and
   * announcements; its registrations stay.
   */
  function DeleteStep(s: Db, id: int): (r: Step<()>)
    requires Wf(s)
    ensures Wf(r.after)
    ensures id !in s.events ==> r == Step(Err(NotFound), s)
    ensures id in s.events ==>
      && r.result.Ok?
      && r.after == s.(events := s.events - {id},
                       tickets := DeleteWhere(s.tickets, TicketEntity.EventIdOf, id),
                       announcements := DeleteWhere(s.announcements, AnnouncementEntity.EventIdOf, id))
    ensures r.result.Ok? ==>
      && (forall t :: t in r.after.tickets ==> r.after.tickets[t].eventId != id)
      && (forall a :: a in r.after.announcements ==> r.after.announcements[a].eventId != id)
      && (forall t :: t in s.tickets && s.tickets[t].eventId != id ==> t in r.after.tickets)
      && r.after.registrations == s.registrations
  {
    match FindById(s, id)
    case Err(err) => Step(Err(err), s)
    case Ok(_) =>
      Step(Ok(()), s.(events := s.events - {id},
                      tickets := DeleteWhere(s.tickets, TicketEntity.EventIdOf, id),
                      announcements := DeleteWhere(s.announcements, AnnouncementEntity.EventIdOf, id)))
  }

  /** `incrementRegistrationCount`: refused at or above capacity; otherwise the counter rises by one. */
  function IncrementStep(s: Db, id: int): (r: Step<()>)
    requires Wf(s)
    ensures Wf(r.after)
    ensures id !in s.events ==> r == Step(Err(NotFound), s)
    ensures id in s.events && s.events[id].registrationCount >= s.events[id].capacity ==>
      r == Step(Err(BadRequest(FullCapacity)), s)
    ensures id in s.events && s.events[id].registrationCount < s.events[id].capacity ==>
      && r.result.Ok?
      && r.after == s.(events := s.events[id := s.events[id].(registrationCount := s.events[id].registrationCount + 1)])
    ensures r.result.Ok? ==> r.after.events[id].registrationCount <= r.after.events[id].capacity
  {
    match FindById(s, id)
    case Err(err) => Step(Err(err), s)
    case Ok(e) =>
      if e.registrationCount >= e.capacity then Step(Err(BadRequest(FullCapacity)), s)
      else Step(Ok(()), s.(events := s.events[id := e.(registrationCount := e.registrationCount + 1)]))
  }

  /** `decrementRegistrationCount`: the counter falls by one, but never below zero. */
  function DecrementStep(s: Db, id: int): (r: Step<()>)
    requires Wf(s)
    ensures Wf(r.after)
    ensures id !in s.events ==> r == Step(Err(NotFound), s)
    ensures id in s.events ==> r.result.Ok? && r.after.events.Keys == s.events.Keys
    ensures id in s.events ==>
      var (before, now) := (s.events[id].registrationCount, r.after.events[id].registrationCount);
      && now >= 0
      && (before > 0 ==> now == before - 1)
      && (before == 0 ==> r.after == s)
    ensures id in s.events ==>
      r.after == s.(events := s.events[id := s.events[id].(registrationCount := r.after.events[id].registrationCount)])
  {
    match FindById(s, id)
    case Err(err) => Step(Err(err), s)
    case Ok(e) =>
      if e.registrationCount > 0 then
        Step(Ok(()), s.(events := s.events[id := e.(registrationCount := e.registrationCount - 1)]))
      else Step(Ok(()), s)
  }

  // ----- properties relating several steps -----

  /** A decrement undoes an increment that succeeded. */
  lemma DecrementUndoesIncrement(s: Db, id: int)
    requires Wf(s) && IncrementStep(s, id).result.Ok?
    ensures DecrementStep(IncrementStep(s, id).after, id).after == s
  {
    var e := s.events[id];
    assert s.events[id := e] == s.events;
  }

  /** A created event starts within its capacity exactly when the input passed validation. */
  lemma CreatedWithinCapacity(s: Db, dto: CreateEventDto)
    requires Wf(s)
    ensures var e := CreateStep(s, dto).result.value;
      0 <= e.registrationCount && (e.registrationCount < e.capacity <==> ValidCreateEvent(dto))
  {
  }

  /**
   * `update` may lower the capacity below the counter: from an event with capacity 2
   * and two registrations, a capacity of 1 leaves an available capacity of -1.
   */
  lemma UpdateMayOverbook()
    ensures var s := Empty.(events := map[1 := Event(1, "t", "d", "2025-01-01", "10:00", "hall", 2, 2, "pending", None)],
                           nextEventId := 2);
      && Wf(s)
      && var u := UpdateStep(s, 1, UpdateEventDto(None, None, None, None, None, Some(1), None));
      && ValidUpdateEvent(UpdateEventDto(None, None, None, None, None, Some(1), None))
      && GetAvailableCapacity(u.after, 1) == Ok(-1)
  {
  }

  // ----- the service, on the store in place -----

  method Create(db: Database, dto: CreateEventDto) returns (r: Result<Event>)
    requires db.Valid()
    modifies db`events, db`nextEventId
    ensures db.Valid()
    ensures Step(r, db.Snapshot()) == CreateStep(old(db.Snapshot()), dto)
  {
    var e := NewEvent(db.nextEventId, dto);
    db.events := db.events[e.id := e];
    db.nextEventId := db.nextEventId + 1;
    r := Ok(e);
  }

  method Update(db: Database, id: int, dto: UpdateEventDto) returns (r: Result<Event>)
    requires db.Valid()
    modifies db`events
    ensures db.Valid()
    ensures Step(r, db.Snapshot()) == UpdateStep(old(db.Snapshot()), id, dto)
  {
    var found := FindById(db.Snapshot(), id);
    if found.Err? {
      return Err(found.error);
    }
    db.events := db.events[id := Merged(found.value, dto)];
    r := FindById(db.Snapshot(), id);
  }

  method Delete(db: Database, id: int) returns (r: Result<()>)
    requires db.Valid()
    modifies db`events, db`tickets, db`announcements
    ensures db.Valid()
    ensures Step(r, db.Snapshot()) == DeleteStep(old(db.Snapshot()), id)
  {
    var found := FindById(db.Snapshot(), id);
    if found.Err? {
      return Err(found.error);
    }
    db.events := db.events - {id};
    db.tickets := DeleteWhere(db.tickets, TicketEntity.EventIdOf, id);
    db.announcements := DeleteWhere(db.announcements, AnnouncementEntity.EventIdOf, id);
    r := Ok(());
  }

  method IncrementRegistrationCount(db: Database, id: int) returns (r: Result<()>)
    requires db.Valid()
    modifies db`events
    ensures db.Valid()
    ensures Step(r, db.Snapshot()) == IncrementStep(old(db.Snapshot()), id)
  {
    var found := FindById(db.Snapshot(), id);
    if found.Err? {
      return Err(found.error);
    }
    var event := found.value;
    if event.registrationCount >= event.capacity {
      return Err(BadRequest(FullCapacity));
    }
    event := event.(registrationCount := event.registrationCount + 1);
    db.events := db.events[id := event];
    r := Ok(());
  }

  method DecrementRegistrationCount(db: Database, id: int) returns (r: Result<()>)
    requires db.Valid()
    modifies db`events
    ensures db.Valid()
    ensures Step(r, db.Snapshot()) == DecrementStep(old(db.Snapshot()), id)
  {
    var found := FindById(db.Snapshot(), id);
    if found.Err? {
      return Err(found.error);
    }
    var event := found.value;
    if event.registrationCount > 0 {
      event := event.(registrationCount := event.registrationCount - 1);
      db.events := db.events[id := event];
    }
    r := Ok(());
  }
}
