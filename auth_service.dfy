/**
 * The authentication decisions (backend/src/auth/auth.service.ts): credential checks,
 * login, self-registration and token validation. bcrypt's comparison is the parameter
 * `matches(password, hash)`; JWT signing and verification are the parameters `sign` and
 * `verify`.
 */
module AuthService {
  import opened Common
  import opened UserEntity
  import opened Store
  import UserService

  const AccountDeactivated: string := "Account is deactivated"
  const InvalidCredentials: string := "Invalid credentials"
  const InvalidToken: string := "Invalid token"

  /** The claims a token carries: the user's id (as `sub`), email and role. */
  datatype Payload = Payload(sub: int, email: string, role: Role)

  /** The user as `login` and `register` describe it: no password, no flags. */
  datatype UserSummary = UserSummary(id: int, email: string, name: string, role: Role)

  datatype Session = Session(accessToken: string, user: UserSummary)

  /** The fields self-registration accepts; there is no role among them. */
  datatype RegisterInput = RegisterInput(email: string, password: string, name: string, phone: Option<string>, company: Option<string>)

  function PayloadOf(u: User): Payload { Payload(u.id, u.email, u.role) }
  function SummaryOf(u: User): UserSummary { UserSummary(u.id, u.email, u.name, u.role) }

  /**
   * `validateUser`: no user (an unknown email) for an unknown email or a wrong password,
   * whatever the account's flag; Unauthorized for the right password on a deactivated
   * account; the user otherwise.
   */
  function ValidateUser(s: Db, email: string, password: string, matches: (string, string) -> bool): (r: Result<Option<User>>)
    requires Wf(s)
    ensures !UserService.EmailTaken(s, email) ==> r == Ok(None)
    ensures UserService.EmailTaken(s, email) ==>
      var u := UserService.FindByEmail(s, email).value;
      && (!matches(password, u.password) ==> r == Ok(None))
      && (matches(password, u.password) && !u.isActive ==> r == Err(Unauthorized(AccountDeactivated)))
      && (matches(password, u.password) && u.isActive ==> r == Ok(Some(u)))
    ensures r.Ok? && r.value.Some? ==>
      var u := r.value.value;
      u.email == email && u.id in s.users && s.users[u.id] == u && u.isActive && matches(password, u.password)
  {
    match UserService.FindByEmail(s, email)
    case None => Ok(None)
    case Some(u) =>
      if !matches(password, u.password) then Ok(None)
      else if !u.isActive then Err(Unauthorized(AccountDeactivated))
      else Ok(Some(u))
  }

  /** `login`: Unauthorized whenever `validateUser` finds no user; otherwise a token over the user's claims. */
  function Login(s: Db, email: string, password: string, matches: (string, string) -> bool, sign: Payload -> string): (r: Result<Session>)
    requires Wf(s)
    ensures ValidateUser(s, email, password, matches) == Ok(None) ==> r == Err(Unauthorized(InvalidCredentials))
    ensures ValidateUser(s, email, password, matches).Err? ==> r == Err(ValidateUser(s, email, password, matches).error)
    ensures r.Ok? <==> ValidateUser(s, email, password, matches).Ok? && ValidateUser(s, email, password, matches).value.Some?
    ensures r.Ok? ==>
      var u := ValidateUser(s, email, password, matches).value.value;
      && r.value.accessToken == sign(Payload(u.id, u.email, u.role))
      && r.value.user == UserSummary(u.id, u.email, u.name, u.role)
      && u.email == email && u.isActive
  {
    match ValidateUser(s, email, password, matches)
    case Err(err) => Err(err)
    case Ok(None) => Err(Unauthorized(InvalidCredentials))
    case Ok(Some(u)) => Ok(Session(sign(PayloadOf(u)), SummaryOf(u)))
  }

  /** The input `register` hands to user creation: the caller's fields with the role forced to attendee. */
  function AttendeeInput(input: RegisterInput): UserService.CreateUserInput {
    UserService.CreateUserInput(input.email, input.password, input.name, Some(Attendee), input.phone, input.company)
  }

  /** `register`: user creation with the attendee role (its Conflict propagates), then a token. */
  function RegisterStep(s: Db, input: RegisterInput, hash: string -> string, initialActive: bool, sign: Payload -> string): (r: Step<Session>)
    requires Wf(s)
    ensures Wf(r.after)
    ensures UserService.EmailTaken(s, input.email) ==> r == Step(Err(Conflict(UserService.EmailExists)), s)
    ensures r.result.Ok? <==> !UserService.EmailTaken(s, input.email)
    ensures r.result.Ok? ==>
      var id := s.nextUserId;
      && r.after == UserService.CreateStep(s, AttendeeInput(input), hash, initialActive).after
      && id in r.after.users && r.after.users[id].role == Attendee && r.after.users[id].password == hash(input.password)
      && r.result.value.user == UserSummary(id, input.email, input.name, Attendee)
      && r.result.value.accessToken == sign(Payload(id, input.email, Attendee))
  {
    var created := UserService.CreateStep(s, AttendeeInput(input), hash, initialActive);
    match created.result
    case Err(err) => Step(Err(err), created.after)
    case Ok(u) => Step(Ok(Session(sign(PayloadOf(u)), SummaryOf(u))), created.after)
  }

  /** `validateToken`: the claims of a token that verifies, and Unauthorized for any other. */
  function ValidateToken(token: string, verify: string -> Option<Payload>): (r: Result<Payload>)
    ensures verify(token).None? <==> r == Err(Unauthorized(InvalidToken))
    ensures verify(token).Some? ==> r == Ok(verify(token).value)
  {
    match verify(token)
    case None => Err(Unauthorized(InvalidToken))
    case Some(p) => Ok(p)
  }

  // ----- properties relating several calls -----

  /**
   * After a successful self-registration, logging in with the same email and password
   * (for a hash that `matches` accepts) yields the same user and the same token, as long
   * as new accounts start active; if they start deactivated, login is refused as such.
   */
  lemma RegisterThenLogin(s: Db, input: RegisterInput, hash: string -> string, initialActive: bool,
                          matches: (string, string) -> bool, sign: Payload -> string)
    requires Wf(s) && RegisterStep(s, input, hash, initialActive, sign).result.Ok?
    requires matches(input.password, hash(input.password))
    ensures var r := RegisterStep(s, input, hash, initialActive, sign);
      && (initialActive ==> Login(r.after, input.email, input.password, matches, sign) == Ok(r.result.value))
      && (!initialActive ==> Login(r.after, input.email, input.password, matches, sign) == Err(Unauthorized(AccountDeactivated)))
  {
    var r := RegisterStep(s, input, hash, initialActive, sign);
    var id := s.nextUserId;
    assert UserService.EmailTaken(r.after, input.email) by {
      assert r.after.users[id].email == input.email;
    }
  }

  /** Self-registration never yields an account with any role but attendee. */
  lemma RegisterIsAttendee(s: Db, input: RegisterInput, hash: string -> string, initialActive: bool, sign: Payload -> string)
    requires Wf(s)
    ensures var r := RegisterStep(s, input, hash, initialActive, sign);
      r.result.Ok? ==>
        && r.result.value.user.role == Attendee
        && forall id :: id in r.after.users && id !in s.users ==> r.after.users[id].role == Attendee
  {
  }

  method Register(db: Database, input: RegisterInput, hash: string -> string, initialActive: bool, sign: Payload -> string)
    returns (r: Result<Session>)
    requires db.Valid()
    modifies db`users, db`nextUserId
    ensures db.Valid()
    ensures Step(r, db.Snapshot()) == RegisterStep(old(db.Snapshot()), input, hash, initialActive, sign)
  {
    var created := UserService.Create(db, AttendeeInput(input), hash, initialActive);
    match created
    case Err(err) => r := Err(err);
    case Ok(u) => r := Ok(Session(sign(PayloadOf(u)), SummaryOf(u)));
  }
}
