/** The user service over the `users` table: registration, partial update, lookup,
    listing and removal.  A clash on the unique e-mail column is reported as an
    already-registered e-mail. */
module UserService {
  import opened Common
  import opened Domain
  import opened Database

  const NoSuchUser: Error := NotFound("Такого пользователя нет.")

  /** The refusal of a save that broke a column constraint, naming the e-mail that
      was sent (null when none was). */
  function AlreadyRegistered(email: Option<string>): Error
  {
    AlreadyExisted("Пользователь с " + NullableText(email) + " уже зарегистрирован")
  }

  /** UserMapper.toUserDtoFromUser. */
  function ToUserDto(u: User): UserDto
  {
    UserDto(u.id, u.name, u.email)
  }

  /** createUser: name and e-mail are NOT NULL and the e-mail is unique; any violation
      is reported as an already-registered e-mail and saves nothing. */
  method CreateUser(db: Store, dto: CreateUpdateUserDto) returns (r: Result<UserDto>)
    requires db.Valid()
    modifies db
    ensures db.Valid()
    ensures r.Err? <==> dto.name.None? || dto.email.None? || EmailTaken(old(db.tables).users, dto.email.value)
    ensures r.Err? ==> r.error == AlreadyRegistered(dto.email) && db.tables == old(db.tables)
    ensures r.Ok? ==>
      var u := User(old(db.tables).nextUserId, dto.name.value, dto.email.value);
      && db.tables == old(db.tables).(users := old(db.tables).users + [u],
                                      nextUserId := old(db.tables).nextUserId + 1)
      && r.value == UserDto(u.id, u.name, u.email)
    ensures BookingsSound(old(db.tables)) ==> BookingsSound(db.tables)
  {
    var saved := db.InsertUser(dto.name, dto.email);
    if saved.Err? {
      return Err(AlreadyRegistered(dto.email));
    }
    r := Ok(ToUserDto(saved.value));
  }

  /** A registered user is found under the new id with the name and e-mail sent. */
  lemma CreatedUserFound(t: Tables, name: string, email: string)
    requires Consistent(t)
    ensures var u := User(t.nextUserId, name, email);
      var t' := t.(users := t.users + [u], nextUserId := t.nextUserId + 1);
      GetUserById(t', t.nextUserId) == Ok(UserDto(t.nextUserId, name, email))
  {
    var u := User(t.nextUserId, name, email);
    AppendWellKeyed(t.users, u, UserKey, t.nextUserId);
    FindAt(t.users + [u], UserKey, |t.users|);
  }

  /** The partial update: the name and the e-mail change only when given and not blank. */
  function PatchUser(u: User, dto: CreateUpdateUserDto): (r: User)
    ensures r.id == u.id
    ensures r.name == (if Given(dto.name) then dto.name.value else u.name)
    ensures r.email == (if Given(dto.email) then dto.email.value else u.email)
  {
    var named := if Given(dto.name) then u.(name := dto.name.value) else u;
    if Given(dto.email) then named.(email := dto.email.value) else named
  }

  /** A patch of nulls and blanks leaves the user as it was. */
  lemma PatchUserOfNothing(u: User, dto: CreateUpdateUserDto)
    requires !Given(dto.name) && !Given(dto.email)
    ensures PatchUser(u, dto) == u
  {
  }

  /** Applying the same patch twice is applying it once. */
  lemma PatchUserIdempotent(u: User, dto: CreateUpdateUserDto)
    ensures PatchUser(PatchUser(u, dto), dto) == PatchUser(u, dto)
  {
  }

  /** updateUser: the user must exist; the patched user is saved unless its e-mail
      belongs to another user. */
  method UpdateUser(db: Store, userId: int, dto: CreateUpdateUserDto) returns (r: Result<UserDto>)
    requires db.Valid()
    modifies db
    ensures db.Valid()
    ensures userId !in Ids(old(db.tables).users, UserKey) ==> r == Err(NoSuchUser) && db.tables == old(db.tables)
    ensures userId in Ids(old(db.tables).users, UserKey) ==>
      var u := PatchUser(FindUser(old(db.tables), userId).value, dto);
      && (r.Err? <==> EmailTakenByOther(old(db.tables).users, userId, u.email))
      && (r.Err? ==> r.error == AlreadyRegistered(dto.email) && db.tables == old(db.tables))
      && (r.Ok? ==>
            && r.value == ToUserDto(u)
            && db.tables == old(db.tables).(users := old(db.tables).users[IndexOf(old(db.tables).users, UserKey, userId) := u])
            && FindUser(db.tables, userId) == Some(u))
    ensures BookingsSound(old(db.tables)) ==> BookingsSound(db.tables)
  {
    var found := FindUser(db.tables, userId);
    if found.None? {
      return Err(NoSuchUser);
    }
    var u := PatchUser(found.value, dto);
    var saved := db.UpdateUser(u);
    if saved.Err? {
      return Err(AlreadyRegistered(dto.email));
    }
    FindAt(db.tables.users, UserKey, IndexOf(old(db.tables).users, UserKey, userId));
    r := Ok(ToUserDto(saved.value));
  }

  /** Keeping one's own e-mail, or sending none, never clashes with another user. */
  lemma KeepingOwnEmailAllowed(t: Tables, userId: int, dto: CreateUpdateUserDto)
    requires Consistent(t) && userId in Ids(t.users, UserKey)
    requires !Given(dto.email) || dto.email.value == FindUser(t, userId).value.email
    ensures !EmailTakenByOther(t.users, userId, PatchUser(FindUser(t, userId).value, dto).email)
  {
    var u := FindUser(t, userId).value;
    var j :| 0 <= j < |t.users| && t.users[j] == u;
    forall i | 0 <= i < |t.users| && t.users[i].id != userId
      ensures t.users[i].email != u.email
    {
      assert i != j;
    }
  }

  /** getUserById. */
  function GetUserById(t: Tables, id: int): (r: Result<UserDto>)
    ensures r.Err? <==> id !in Ids(t.users, UserKey)
    ensures r.Err? ==> r.error == NoSuchUser
    ensures r.Ok? ==> r.value.id == id && exists u :: u in t.users && u.id == id && r.value == ToUserDto(u)
  {
    if FindUser(t, id).None? then Err(NoSuchUser)
    else Ok(ToUserDto(FindUser(t, id).value))
  }

  /** getAllUsers: one view per stored user, in table order. */
  method GetAllUsers(t: Tables) returns (r: seq<UserDto>)
    ensures |r| == |t.users|
    ensures forall k :: 0 <= k < |r| ==> r[k] == ToUserDto(t.users[k])
    ensures forall u :: u in t.users ==> ToUserDto(u) in r
  {
    var users := t.users;
    r := [];
    var i := 0;
    while i < |users|
      invariant 0 <= i <= |users|
      invariant |r| == i
      invariant forall k :: 0 <= k < i ==> r[k] == ToUserDto(users[k])
    {
      r := r + [ToUserDto(users[i])];
      i := i + 1;
    }
    forall u | u in t.users ensures ToUserDto(u) in r {
      var k :| 0 <= k < |users| && users[k] == u;
      assert r[k] == ToUserDto(u);
    }
  }

  /** Every listed user is found by id with the same view. */
  lemma ListedUsersFound(t: Tables, k: int)
    requires Consistent(t) && 0 <= k < |t.users|
    ensures GetUserById(t, t.users[k].id) == Ok(ToUserDto(t.users[k]))
  {
    FindAt(t.users, UserKey, k);
  }

  /** deleteUser: the user must exist; the delete of a user still referenced by an
      item, booking, comment or request fails on the foreign key. */
  method DeleteUser(db: Store, userId: int) returns (r: Result<()>)
    requires db.Valid()
    modifies db
    ensures db.Valid()
    ensures userId !in Ids(old(db.tables).users, UserKey) ==> r == Err(NoSuchUser) && db.tables == old(db.tables)
    ensures userId in Ids(old(db.tables).users, UserKey) ==>
      && (r.Err? <==> UserReferenced(old(db.tables), userId))
      && (r.Err? ==> r.error == DataIntegrityViolation && db.tables == old(db.tables))
    ensures r.Ok? ==>
      && Ids(db.tables.users, UserKey) == Ids(old(db.tables).users, UserKey) - {userId}
      && db.tables == old(db.tables).(users := db.tables.users)
    ensures r.Ok? ==>
      var i := IndexOf(old(db.tables).users, UserKey, userId);
      db.tables == old(db.tables).(users := old(db.tables).users[..i] + old(db.tables).users[i + 1..])
    ensures BookingsSound(old(db.tables)) ==> BookingsSound(db.tables)
  {
    var found := FindUser(db.tables, userId);
    if found.None? {
      return Err(NoSuchUser);
    }
    var i := IndexOf(db.tables.users, UserKey, found.value.id);
    IdsOfRemove(db.tables.users, i, UserKey);
    r := db.DeleteUser(found.value.id);
  }
}
