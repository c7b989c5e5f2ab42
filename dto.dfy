/**
 * The request bodies of backend/src/dto.ts and the checks their class-validator
 * decorators make before a body reaches a service. A body is a JSON object; a key it
 * does not hold is `undefined`.
 */
module Dto {
  import opened Common

  /** A JSON value as the validators see it; the contents of arrays and objects are not inspected. */
  datatype Json = JNull | JBool(b: bool) | JNumber(n: real) | JString(s: string) | JStructured

  type Body = map<string, Json>

  /** @IsString */
  predicate IsString(v: Json) { v.JString? }

  /** @IsInt: a number with no fractional part. */
  predicate IsInt(v: Json) { v.JNumber? && v.n.Floor as real == v.n }

  /** @IsPositive: a number above zero. */
  predicate IsPositive(v: Json) { v.JNumber? && v.n > 0.0 }

  /** @IsOptional lets a key that is undefined or null skip the field's other checks. */
  predicate Absent(body: Body, k: string) { k !in body || body[k] == JNull }

  predicate StringField(body: Body, k: string) { k in body && IsString(body[k]) }
  predicate IntField(body: Body, k: string) { k in body && IsInt(body[k]) }
  predicate PositiveIntField(body: Body, k: string) { k in body && IsInt(body[k]) && IsPositive(body[k]) }
  predicate OptionalString(body: Body, k: string) { Absent(body, k) || IsString(body[k]) }
  predicate OptionalInt(body: Body, k: string) { Absent(body, k) || IsInt(body[k]) }
  predicate OptionalPositiveInt(body: Body, k: string) { Absent(body, k) || (IsInt(body[k]) && IsPositive(body[k])) }

  function Str(body: Body, k: string): string
    requires StringField(body, k)
  {
    body[k].s
  }

  function Int(body: Body, k: string): int
    requires IntField(body, k)
  {
    body[k].n.Floor
  }

  function OptStr(body: Body, k: string): Option<string>
    requires OptionalString(body, k)
  {
    if Absent(body, k) then None else Some(body[k].s)
  }

  function OptInt(body: Body, k: string): Option<int>
    requires OptionalInt(body, k)
  {
    if Absent(body, k) then None else Some(body[k].n.Floor)
  }

  // ----- CreateEventDto -----

  datatype CreateEventDto = CreateEventDto(
    title: string,
    description: string,
    date: string,
    time: string,
    location: string,
    capacity: int,
    organizerId: Option<int>)

  /** What the decorators demand of a typed create input: a strictly positive capacity. */
  predicate ValidCreateEvent(dto: CreateEventDto) { dto.capacity > 0 }

  predicate ValidCreateEventBody(body: Body) {
    && StringField(body, "title")
    && StringField(body, "description")
    && StringField(body, "date")
    && StringField(body, "time")
    && StringField(body, "location")
    && PositiveIntField(body, "capacity")
    && OptionalInt(body, "organizerId")
  }

  /** The validation pipe on a create-event body: the typed input, or a rejection. */
  function ParseCreateEvent(body: Body): (r: Option<CreateEventDto>)
    ensures r.Some? <==> ValidCreateEventBody(body)
    ensures r.Some? ==> ValidCreateEvent(r.value)
    ensures r.Some? ==> r.value.title == body["title"].s && r.value.description == body["description"].s
    ensures r.Some? ==> r.value.date == body["date"].s && r.value.time == body["time"].s
    ensures r.Some? ==> r.value.location == body["location"].s
    ensures r.Some? ==> r.value.capacity as real == body["capacity"].n
    ensures r.Some? ==> (r.value.organizerId.Some? <==> !Absent(body, "organizerId"))
    ensures r.Some? && r.value.organizerId.Some? ==> r.value.organizerId.value as real == body["organizerId"].n
  {
    if ValidCreateEventBody(body) then
      Some(CreateEventDto(Str(body, "title"), Str(body, "description"), Str(body, "date"),
                          Str(body, "time"), Str(body, "location"), Int(body, "capacity"),
                          OptInt(body, "organizerId")))
    else None
  }

  /** The body a client sends for a typed create input. */
  function CreateEventBody(dto: CreateEventDto): Body {
    map["title" := JString(dto.title), "description" := JString(dto.description),
        "date" := JString(dto.date), "time" := JString(dto.time),
        "location" := JString(dto.location), "capacity" := JNumber(dto.capacity as real),
        "organizerId" := if dto.organizerId.Some? then JNumber(dto.organizerId.value as real) else JNull]
  }

  /** Every valid typed input survives the trip through JSON and the validation pipe. */
  lemma CreateEventRoundTrip(dto: CreateEventDto)
    requires ValidCreateEvent(dto)
    ensures ParseCreateEvent(CreateEventBody(dto)) == Some(dto)
  {
    var body := CreateEventBody(dto);
    assert (dto.capacity as real).Floor == dto.capacity;
    assert dto.organizerId.Some? ==> (dto.organizerId.value as real).Floor == dto.organizerId.value;
    assert ValidCreateEventBody(body);
  }

  // ----- UpdateEventDto -----

  /** Every field is optional; a field left out is left unchanged. */
  datatype UpdateEventDto = UpdateEventDto(
    title: Option<string>,
    description: Option<string>,
    date: Option<string>,
    time: Option<string>,
    location: Option<string>,
    capacity: Option<int>,
    status: Option<string>)

  predicate ValidUpdateEvent(dto: UpdateEventDto) { dto.capacity.Some? ==> dto.capacity.value > 0 }

  predicate ValidUpdateEventBody(body: Body) {
    && OptionalString(body, "title")
    && OptionalString(body, "description")
    && OptionalString(body, "date")
    && OptionalString(body, "time")
    && OptionalString(body, "location")
    && OptionalPositiveInt(body, "capacity")
    && OptionalString(body, "status")
  }

  /** An optional string key as sent: nothing when absent, otherwise the string the body holds there. */
  ghost function OptionalValue(body: Body, k: string): Option<string> {
    if Absent(body, k) then None else if body[k].JString? then Some(body[k].s) else None
  }

  function ParseUpdateEvent(body: Body): (r: Option<UpdateEventDto>)
    ensures r.Some? <==> ValidUpdateEventBody(body)
    ensures r.Some? ==> ValidUpdateEvent(r.value)
    ensures r.Some? ==> r.value.title == OptionalValue(body, "title")
    ensures r.Some? ==> r.value.description == OptionalValue(body, "description")
    ensures r.Some? ==> r.value.date == OptionalValue(body, "date")
    ensures r.Some? ==> r.value.time == OptionalValue(body, "time")
    ensures r.Some? ==> r.value.location == OptionalValue(body, "location")
    ensures r.Some? ==> r.value.status == OptionalValue(body, "status")
    ensures r.Some? ==> (r.value.capacity.None? <==> Absent(body, "capacity"))
    ensures r.Some? && r.value.capacity.Some? ==> r.value.capacity.value as real == body["capacity"].n
  {
    if ValidUpdateEventBody(body) then
      Some(UpdateEventDto(OptStr(body, "title"), OptStr(body, "description"), OptStr(body, "date"),
                          OptStr(body, "time"), OptStr(body, "location"), OptInt(body, "capacity"),
                          OptStr(body, "status")))
    else None
  }

  /** The empty body is a valid update that changes nothing. */
  lemma EmptyUpdateIsValid()
    ensures ParseUpdateEvent(map[]) == Some(UpdateEventDto(None, None, None, None, None, None, None))
  {
  }

  // ----- RegisterForEventDto -----

  datatype RegisterForEventDto = RegisterForEventDto(userId: int, userEmail: string, userName: string)

  predicate ValidRegisterBody(body: Body) {
    IntField(body, "userId") && StringField(body, "userEmail") && StringField(body, "userName")
  }

  function ParseRegister(body: Body): (r: Option<RegisterForEventDto>)
    ensures r.Some? <==> ValidRegisterBody(body)
    ensures r.Some? ==> r.value.userId as real == body["userId"].n && r.value.userEmail == body["userEmail"].s
    ensures r.Some? ==> r.value.userName == body["userName"].s
  {
    if ValidRegisterBody(body) then
      Some(RegisterForEventDto(Int(body, "userId"), Str(body, "userEmail"), Str(body, "userName")))
    else None
  }

  function RegisterBody(dto: RegisterForEventDto): Body {
    map["userId" := JNumber(dto.userId as real), "userEmail" := JString(dto.userEmail),
        "userName" := JString(dto.userName)]
  }

  lemma RegisterRoundTrip(dto: RegisterForEventDto)
    ensures ParseRegister(RegisterBody(dto)) == Some(dto)
  {
    assert (dto.userId as real).Floor == dto.userId;
  }

  // ----- VerifyTicketDto -----

  datatype VerifyTicketDto = VerifyTicketDto(uuid: string)

  function ParseVerifyTicket(body: Body): (r: Option<VerifyTicketDto>)
    ensures r.Some? <==> StringField(body, "uuid")
    ensures r.Some? ==> r.value.uuid == body["uuid"].s
  {
    if StringField(body, "uuid") then Some(VerifyTicketDto(Str(body, "uuid"))) else None
  }
}
