/**
 * The user directory (backend/src/users/user.service.ts): accounts with a unique email,
 * a stored password hash, a role and an active flag. Hashing (bcrypt) is the parameter
 * `hash`; the initial value of the active flag, a column default of the users table, is
 * the parameter `initialActive`.
 */
module UserService {
  import opened Common
  import opened Tables
  import opened UserEntity
  import opened Store

  const EmailExists: string := "User with this email already exists"
  const EmailInUse: string := "Email already in use"

  /** The fields `create` accepts; `role`, `phone` and `company` may be left out. */
  datatype CreateUserInput = CreateUserInput(
    email: string,
    password: string,
    name: string,
    role: Option<Role>,
    phone: Option<string>,
    company: Option<string>)

  /** The fields `update` accepts, each optional; a field left out is left unchanged. */
  datatype UpdateUserInput = UpdateUserInput(
    name: Option<string>,
    email: Option<string>,
    role: Option<Role>,
    phone: Option<string>,
    company: Option<string>,
    isActive: Option<bool>)

  datatype Statistics = Statistics(total: int, admins: int, organizers: int, attendees: int, active: int, inactive: int)

  /** Some user holds this email. */
  predicate EmailTaken(s: Db, email: string) {
    exists id :: id in s.users && s.users[id].email == email
  }

  /** The row `create` saves: the input with its password hashed and the role defaulted to attendee. */
  function NewUser(id: int, input: CreateUserInput, hash: string -> string, initialActive: bool): User {
    User(id, input.email, input.name, input.role.GetOr(Attendee), hash(input.password), initialActive,
         input.phone, input.company)
  }

  /** `Object.assign(user, updateData)`: the given fields replace the stored ones; the password stays. */
  function MergedUser(u: User, input: UpdateUserInput): User {
    u.(name := input.name.GetOr(u.name),
       email := input.email.GetOr(u.email),
       role := input.role.GetOr(u.role),
       phone := if input.phone.Some? then input.phone else u.phone,
       company := if input.company.Some? then input.company else u.company,
       isActive := input.isActive.GetOr(u.isActive))
  }

  /** The listed projection of a sequence of rows. */
  function Project(rows: seq<User>): (r: seq<PublicUser>)
    ensures |r| == |rows| && forall i :: 0 <= i < |r| ==> r[i] == Public(rows[i])
  {
    seq(|rows|, i requires 0 <= i < |rows| => Public(rows[i]))
  }

  // ----- reads -----

  /** `findByEmail`: the full row, password hash included, of the one user with this email. */
  function FindByEmail(s: Db, email: string): (r: Option<User>)
    requires Wf(s)
    ensures r.None? <==> !EmailTaken(s, email)
    ensures r.Some? ==> r.value.email == email && r.value.id in s.users && s.users[r.value.id] == r.value
    ensures r.Some? ==> forall id :: id in s.users && s.users[id].email == email ==> id == r.value.id
  {
    KeyedBelow(s.users, IdOf, s.nextUserId);
    FindOneNone(s.users, EmailOf, email, s.nextUserId);
    FindOneFirst(s.users, IdOf, EmailOf, email, s.nextUserId);
    FindOne(s.users, EmailOf, email, s.nextUserId)
  }

  /** `findById`: the user without its password, or NotFound. */
  function FindById(s: Db, id: int): (r: Result<PublicUser>)
    requires Wf(s)
    ensures r.Err? <==> id !in s.users
    ensures r.Err? ==> r.error == NotFound
    ensures r.Ok? ==> r.value == Public(s.users[id]) && r.value.id == id
  {
    if id in s.users then Ok(Public(s.users[id])) else Err(NotFound)
  }

  /** `findAll`: every user, without passwords, in id order. */
  function FindAll(s: Db): (r: seq<PublicUser>)
    requires Wf(s)
    ensures |r| == |s.users|
    ensures forall i :: 0 <= i < |r| ==> r[i].id in s.users && r[i] == Public(s.users[r[i].id])
    ensures forall i, j :: 0 <= i < j < |r| ==> r[i].id < r[j].id
    ensures forall id :: id in s.users ==> Public(s.users[id]) in r
  {
    KeyedBelow(s.users, IdOf, s.nextUserId);
    WhereAnswers(s.users, IdOf, Any, true, s.nextUserId);
    WhereCount(s.users, Any, true, s.nextUserId);
    assert Matching(s.users, Any, true) == s.users.Keys;
    var rows := Where(s.users, Any, true, s.nextUserId);
    forall id | id in s.users
      ensures Public(s.users[id]) in Project(rows)
    {
      var k :| 0 <= k < |rows| && rows[k] == s.users[id];
      assert Project(rows)[k] == Public(s.users[id]);
    }
    Project(rows)
  }

  /** `findByRole`: the users holding the role, without passwords, in id order. */
  function FindByRole(s: Db, role: Role): (r: seq<PublicUser>)
    requires Wf(s)
    ensures |r| == |Matching(s.users, RoleOf, role)|
    ensures forall i :: 0 <= i < |r| ==> r[i].role == role && r[i].id in s.users && r[i] == Public(s.users[r[i].id])
    ensures forall i, j :: 0 <= i < j < |r| ==> r[i].id < r[j].id
    ensures forall id :: id in s.users && s.users[id].role == role ==> Public(s.users[id]) in r
  {
    KeyedBelow(s.users, IdOf, s.nextUserId);
    WhereAnswers(s.users, IdOf, RoleOf, role, s.nextUserId);
    WhereCount(s.users, RoleOf, role, s.nextUserId);
    var rows := Where(s.users, RoleOf, role, s.nextUserId);
    forall id | id in s.users && s.users[id].role == role
      ensures Public(s.users[id]) in Project(rows)
    {
      var k :| 0 <= k < |rows| && rows[k] == s.users[id];
      assert Project(rows)[k] == Public(s.users[id]);
    }
    Project(rows)
  }

  /** `getStatistics`: five counts over the table, and the inactive users as the difference. */
  function GetStatistics(s: Db): (r: Statistics)
    ensures r.total == |s.users|
    ensures r.admins + r.organizers + r.attendees == r.total
    ensures r.admins == |Matching(s.users, RoleOf, Admin)| && r.organizers == |Matching(s.users, RoleOf, Organizer)|
    ensures r.attendees == |Matching(s.users, RoleOf, Attendee)|
    ensures r.active == |Matching(s.users, IsActiveOf, true)| && r.inactive == |Matching(s.users, IsActiveOf, false)|
    ensures 0 <= r.active <= r.total && r.inactive == r.total - r.active
  {
    var total := |s.users|;
    var active := |Matching(s.users, IsActiveOf, true)|;
    RolesPartition(s);
    ActivePartition(s);
    Statistics(total, |Matching(s.users, RoleOf, Admin)|, |Matching(s.users, RoleOf, Organizer)|,
               |Matching(s.users, RoleOf, Attendee)|, active, total - active)
  }

  /** Every user holds exactly one of the three roles. */
  lemma RolesPartition(s: Db)
    ensures |Matching(s.users, RoleOf, Admin)| + |Matching(s.users, RoleOf, Organizer)| + |Matching(s.users, RoleOf, Attendee)| == |s.users|
  {
    var (a, o, t) := (Matching(s.users, RoleOf, Admin), Matching(s.users, RoleOf, Organizer), Matching(s.users, RoleOf, Attendee));
    assert a * o == {};
    assert |a + o| == |a| + |o|;
    assert (a + o) * t == {};
    assert |a + o + t| == |a + o| + |t|;
    forall id | id in s.users
      ensures id in a + o + t
    {
      match s.users[id].role
      case Admin => assert id in a;
      case Organizer => assert id in o;
      case Attendee => assert id in t;
    }
    assert a + o + t == s.users.Keys;
  }

  /** Every user is either active or not. */
  lemma ActivePartition(s: Db)
    ensures |Matching(s.users, IsActiveOf, true)| + |Matching(s.users, IsActiveOf, false)| == |s.users|
  {
    var (y, n) := (Matching(s.users, IsActiveOf, true), Matching(s.users, IsActiveOf, false));
    assert y * n == {};
    assert y + n == s.users.Keys;
  }

  // ----- steps -----

  /** `create`: Conflict when the email is taken; otherwise one user is saved under the next id. */
  function CreateStep(s: Db, input: CreateUserInput, hash: string -> string, initialActive: bool): (r: Step<User>)
    requires Wf(s)
    ensures Wf(r.after)
    ensures EmailTaken(s, input.email) ==> r == Step(Err(Conflict(EmailExists)), s)
    ensures r.result.Ok? <==> !EmailTaken(s, input.email)
    ensures r.result.Ok? ==>
      var u := r.result.value;
      && u.id == s.nextUserId && u.id !in s.users
      && u.email == input.email && u.name == input.name && u.phone == input.phone && u.company == input.company
      && u.password == hash(input.password)
      && (input.role.Some? ==> u.role == input.role.value) && (input.role.None? ==> u.role == Attendee)
      && u.isActive == initialActive
      && r.after == s.(users := s.users[u.id := u], nextUserId := u.id + 1)
  {
    if FindByEmail(s, input.email).Some? then Step(Err(Conflict(EmailExists)), s)
    else
      var u := NewUser(s.nextUserId, input, hash, initialActive);
      Step(Ok(u), s.(users := s.users[u.id := u], nextUserId := u.id + 1))
  }

  /**
   * `update`: NotFound for an absent id; Conflict when a new email, different from the
   * user's own, belongs to another user; otherwise the given fields are merged. The
   * answer is the user without its password, as `findById` loaded it.
   */
  function UpdateStep(s: Db, id: int, input: UpdateUserInput): (r: Step<PublicUser>)
    requires Wf(s)
    ensures Wf(r.after)
    ensures id !in s.users ==> r == Step(Err(NotFound), s)
    ensures id in s.users && input.email.Some? && input.email.value != s.users[id].email && EmailTaken(s, input.email.value) ==>
      r == Step(Err(Conflict(EmailInUse)), s)
    ensures r.result.Ok? <==>
      id in s.users && !(input.email.Some? && input.email.value != s.users[id].email && EmailTaken(s, input.email.value))
    ensures r.result.Ok? ==> id in r.after.users
    ensures r.result.Ok? ==>
      var (before, after) := (s.users[id], r.after.users[id]);
      && r.after == s.(users := s.users[id := after])
      && r.result.value == Public(after)
      && after == MergedUser(before, input)
      && after.id == id && after.password == before.password
      && (input.email.Some? ==> after.email == input.email.value) && (input.email.None? ==> after.email == before.email)
  {
    match FindById(s, id)
    case Err(err) => Step(Err(err), s)
    case Ok(found) =>
      if input.email.Some? && input.email.value != found.email && FindByEmail(s, input.email.value).Some? then
        Step(Err(Conflict(EmailInUse)), s)
      else
        var u := MergedUser(s.users[id], input);
        Step(Ok(Public(u)), s.(users := s.users[id := u]))
  }

  /**
   * `update` as written: the conflict check runs only for a truthy email, so an empty
   * string skips it and is merged whoever else holds it.
   */
  function UpdateStepAsWritten(s: Db, id: int, input: UpdateUserInput): (r: Step<PublicUser>)
    requires Wf(s)
    ensures id !in s.users ==> r == Step(Err(NotFound), s)
    ensures input.email == Some("") && id in s.users ==>
      r.result.Ok? && r.after == s.(users := s.users[id := MergedUser(s.users[id], input)])
    ensures input.email != Some("") ==> r == UpdateStep(s, id, input)
  {
    match FindById(s, id)
    case Err(err) => Step(Err(err), s)
    case Ok(found) =>
      if input.email.Some? && input.email.value != "" && input.email.value != found.email && FindByEmail(s, input.email.value).Some? then
        Step(Err(Conflict(EmailInUse)), s)
      else
        var u := MergedUser(s.users[id], input);
        Step(Ok(Public(u)), s.(users := s.users[id := u]))
  }

  /** `updatePassword`: a plain `update` by id, so an absent id is not an error and changes nothing. */
  function UpdatePasswordStep(s: Db, id: int, newPassword: string, hash: string -> string): (r: Step<()>)
    requires Wf(s)
    ensures Wf(r.after)
    ensures r.result.Ok?
    ensures id !in s.users ==> r.after == s
    ensures id in s.users ==> r.after == s.(users := s.users[id := s.users[id].(password := hash(newPassword))])
  {
    if id in s.users then Step(Ok(()), s.(users := s.users[id := s.users[id].(password := hash(newPassword))]))
    else Step(Ok(()), s)
  }

  /** `toggleActive`: NotFound for an absent id; otherwise the flag is negated and nothing else changes. */
  function ToggleActiveStep(s: Db, id: int): (r: Step<PublicUser>)
    requires Wf(s)
    ensures Wf(r.after)
    ensures id !in s.users ==> r == Step(Err(NotFound), s)
    ensures id in s.users ==>
      && id in r.after.users
      && r.result == Ok(Public(r.after.users[id]))
      && r.after.users[id].isActive == !s.users[id].isActive
      && r.after == s.(users := s.users[id := s.users[id].(isActive := !s.users[id].isActive)])
  {
    match FindById(s, id)
    case Err(err) => Step(Err(err), s)
    case Ok(found) =>
      var u := s.users[id].(isActive := !found.isActive);
      Step(Ok(Public(u)), s.(users := s.users[id := u]))
  }

  /** `delete`: NotFound for an absent id; otherwise exactly that user is removed. */
  function DeleteStep(s: Db, id: int): (r: Step<()>)
    requires Wf(s)
    ensures Wf(r.after)
    ensures id !in s.users ==> r == Step(Err(NotFound), s)
    ensures id in s.users ==> r == Step(Ok(()), s.(users := s.users - {id}))
  {
    match FindById(s, id)
    case Err(err) => Step(Err(err), s)
    case Ok(_) => Step(Ok(()), s.(users := s.users - {id}))
  }

  // ----- properties relating several steps -----

  /** Toggling twice restores the store. */
  lemma ToggleTwice(s: Db, id: int)
    requires Wf(s)
    ensures ToggleActiveStep(ToggleActiveStep(s, id).after, id).after == s
  {
    if id in s.users {
      assert s.users[id := s.users[id]] == s.users;
    }
  }

  /** A second `create` with the same email is refused. */
  lemma CreateTwiceConflicts(s: Db, a: CreateUserInput, b: CreateUserInput, hash: string -> string, initialActive: bool)
    requires Wf(s) && a.email == b.email && CreateStep(s, a, hash, initialActive).result.Ok?
    ensures var t := CreateStep(s, a, hash, initialActive).after;
      CreateStep(t, b, hash, initialActive) == Step(Err(Conflict(EmailExists)), t)
  {
    var t := CreateStep(s, a, hash, initialActive).after;
    var u := CreateStep(s, a, hash, initialActive).result.value;
    assert t.users[u.id].email == b.email;
  }

  /**
   * The empty-email update as written: with user 1 holding "" and user 2 holding "b",
   * giving user 2 the email "" succeeds and leaves two users sharing an email, where the
   * corrected update answers Conflict.
   */
  lemma EmptyEmailDuplicates()
    ensures var s := Empty.(users := map[1 := User(1, "", "a", Attendee, "h1", true, None, None),
                                        2 := User(2, "b", "b", Attendee, "h2", true, None, None)],
                            nextUserId := 3);
      var input := UpdateUserInput(None, Some(""), None, None, None, None);
      && Wf(s)
      && UpdateStepAsWritten(s, 2, input).result.Ok?
      && !UsersWf(UpdateStepAsWritten(s, 2, input).after)
      && UpdateStep(s, 2, input) == Step(Err(Conflict(EmailInUse)), s)
  {
    var s := Empty.(users := map[1 := User(1, "", "a", Attendee, "h1", true, None, None),
                                2 := User(2, "b", "b", Attendee, "h2", true, None, None)],
                    nextUserId := 3);
    var after := UpdateStepAsWritten(s, 2, UpdateUserInput(None, Some(""), None, None, None, None)).after;
    assert after.users[1].email == after.users[2].email;
    assert EmailTaken(s, "");
  }

  // ----- the service, on the store in place -----

  method Create(db: Database, input: CreateUserInput, hash: string -> string, initialActive: bool) returns (r: Result<User>)
    requires db.Valid()
    modifies db`users, db`nextUserId
    ensures db.Valid()
    ensures Step(r, db.Snapshot()) == CreateStep(old(db.Snapshot()), input, hash, initialActive)
  {
    var existing := FindByEmail(db.Snapshot(), input.email);
    if existing.Some? {
      return Err(Conflict(EmailExists));
    }
    var hashed := hash(input.password);
    var u := User(db.nextUserId, input.email, input.name, input.role.GetOr(Attendee), hashed, initialActive,
                  input.phone, input.company);
    db.users := db.users[u.id := u];
    db.nextUserId := db.nextUserId + 1;
    r := Ok(u);
  }

  method Update(db: Database, id: int, input: UpdateUserInput) returns (r: Result<PublicUser>)
    requires db.Valid()
    modifies db`users
    ensures db.Valid()
    ensures Step(r, db.Snapshot()) == UpdateStep(old(db.Snapshot()), id, input)
  {
    var found := FindById(db.Snapshot(), id);
    if found.Err? {
      return Err(found.error);
    }
    if input.email.Some? && input.email.value != found.value.email {
      var existing := FindByEmail(db.Snapshot(), input.email.value);
      if existing.Some? {
        return Err(Conflict(EmailInUse));
      }
    }
    var u := MergedUser(db.users[id], input);
    db.users := db.users[id := u];
    r := Ok(Public(u));
  }

  method UpdatePassword(db: Database, id: int, newPassword: string, hash: string -> string) returns (r: Result<()>)
    requires db.Valid()
    modifies db`users
    ensures db.Valid()
    ensures Step(r, db.Snapshot()) == UpdatePasswordStep(old(db.Snapshot()), id, newPassword, hash)
  {
    var hashed := hash(newPassword);
    if id in db.users {
      db.users := db.users[id := db.users[id].(password := hashed)];
    }
    r := Ok(());
  }

  method ToggleActive(db: Database, id: int) returns (r: Result<PublicUser>)
    requires db.Valid()
    modifies db`users
    ensures db.Valid()
    ensures Step(r, db.Snapshot()) == ToggleActiveStep(old(db.Snapshot()), id)
  {
    var found := FindById(db.Snapshot(), id);
    if found.Err? {
      return Err(found.error);
    }
    var u := db.users[id].(isActive := !found.value.isActive);
    db.users := db.users[id := u];
    r := Ok(Public(u));
  }

  method Delete(db: Database, id: int) returns (r: Result<()>)
    requires db.Valid()
    modifies db`users
    ensures db.Valid()
    ensures Step(r, db.Snapshot()) == DeleteStep(old(db.Snapshot()), id)
  {
    var found := FindById(db.Snapshot(), id);
    if found.Err? {
      return Err(found.error);
    }
    db.users := db.users - {id};
    r := Ok(());
  }
}
