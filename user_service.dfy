/** UserService: registration with a unique email, login by email and
    password (the password is stored and compared as given), lookup by id,
    and the friends list. */
module UserService {
  import opened Wrappers
  import opened Seqs
  import opened Store
  import opened UserRepository

  /** The registration payload: name, email and password. */
  datatype UserRequest = UserRequest(name: string, email: string, password: string)

  datatype UserResponse = UserResponse(id: UserId, name: string, email: string)

  /** UserService.mapToResponse: the user without the password. */
  function ToResponse(u: User): (r: UserResponse)
    ensures r.id == u.id && r.name == u.name && r.email == u.email
  {
    UserResponse(u.id, u.name, u.email)
  }

  /** UserService.register. `newId` stands for the generated UUID. */
  method Register(db: Database, req: UserRequest, newId: UserId) returns (r: Result<UserResponse>)
    requires db.Valid()
    requires newId !in UserIds(db.users)
    modifies db`users
    ensures db.Valid()
    ensures r.Err? <==> req.email in Emails(old(db.users))
    ensures r.Err? ==> r.message == "Email already exists" && db.users == old(db.users)
    ensures r.Ok? ==> db.users == old(db.users) + [User(newId, req.name, req.email, req.password)]
    ensures r.Ok? ==> r.value == UserResponse(newId, req.name, req.email)
  {
    if FindUserByEmail(db.users, req.email).Some? {
      return Err("Email already exists");
    }
    var user := User(newId, req.name, req.email, req.password);
    UserInserted(db.users, db.groups, db.members, db.expenses, db.splits, db.settlements, user);
    db.users := db.users + [user];
    r := Ok(ToResponse(user));
  }

  /** UserService.login. */
  function Login(users: seq<User>, email: string, password: string): (r: Result<UserResponse>)
    ensures r.Err? && email !in Emails(users) ==> r.message == "User not found"
    ensures r.Err? && email in Emails(users) ==> r.message == "Invalid password"
    ensures r.Ok? ==> exists i :: 0 <= i < |users| && users[i].email == email &&
                                 users[i].passwordHash == password && r.value == ToResponse(users[i])
  {
    match FindUserByEmail(users, email)
    case None => Err("User not found")
    case Some(user) =>
      if user.passwordHash != password then Err("Invalid password")
      else Ok(ToResponse(user))
  }

  /** With unique emails, login succeeds exactly when a stored user has that
      email and that password. */
  lemma LoginSucceedsIff(users: seq<User>, email: string, password: string)
    requires Distinct(Emails(users))
    ensures Login(users, email, password).Ok? <==>
      exists i :: 0 <= i < |users| && users[i].email == email && users[i].passwordHash == password
  {
    if exists i :: 0 <= i < |users| && users[i].email == email && users[i].passwordHash == password {
      var i :| 0 <= i < |users| && users[i].email == email && users[i].passwordHash == password;
      FindUserByEmailUnique(users, i);
    }
  }

  /** Logging in right after registering, with the same email and password,
      returns the registered user. */
  lemma LoginAfterRegister(users: seq<User>, newId: UserId, req: UserRequest)
    requires Distinct(Emails(users)) && req.email !in Emails(users)
    ensures Login(users + [User(newId, req.name, req.email, req.password)], req.email, req.password)
      == Ok(UserResponse(newId, req.name, req.email))
  {
    var user := User(newId, req.name, req.email, req.password);
    var users' := users + [user];
    assert Emails(users') == Emails(users) + [req.email];
    DistinctAppend(Emails(users), req.email);
    FindUserByEmailUnique(users', |users|);
  }

  /** UserService.findById. */
  function FindById(users: seq<User>, id: UserId): (r: Result<User>)
    ensures r.Ok? <==> id in UserIds(users)
    ensures r.Ok? ==> r.value in users && r.value.id == id
    ensures r.Err? ==> r.message == "User not found"
  {
    match FindUserById(users, id)
    case None => Err("User not found")
    case Some(user) => Ok(user)
  }

  /** UserService.getFriends: the friends query, mapped to responses. The
      user is not looked up first, so an unknown id yields an empty list. */
  function GetFriends(users: seq<User>, members: seq<GroupMember>, u: UserId): (r: seq<UserResponse>)
    ensures |r| == |FindFriendsByUserId(users, members, u)|
    ensures forall k :: 0 <= k < |r| ==> r[k] == ToResponse(FindFriendsByUserId(users, members, u)[k])
  {
    var friends := FindFriendsByUserId(users, members, u);
    seq(|friends|, k requires 0 <= k < |friends| => ToResponse(friends[k]))
  }

  /** An id that is stored as no member has no friends. */
  lemma UnknownUserHasNoFriends(db: Database, u: UserId)
    requires db.Valid() && u !in UserIds(db.users)
    ensures GetFriends(db.users, db.members, u) == []
  {
    NoGroupNoFriends(db.users, db.members, u);
  }
}
