/** Registration and login. Password hashing and hash checking are the framework's: they are
    parameters here (`hash` stores a password, `checkHash` compares a stored hash with a
    submitted password), and nothing is assumed about them unless a lemma says so. */
module AuthenApis {
  import opened Common
  import opened Models
  import opened Responses
  import opened Store

  const MinPasswordLength: int := 6
  const UserRoleName: string := "user"
  const UserRoleDescription: string := "Regular user role"

  // ---------------------------------------------------------------------------------------
  // Register

  datatype Registered = Registered(userId: int, name: string, email: string, userRole: string)

  /** The ids of the roles with the given name. */
  function RolesNamed(roles: map<int, Role>, name: string): (ids: set<int>)
    ensures forall r :: r in ids <==> r in roles && roles[r].name == name
  {
    set r | r in roles && roles[r].name == name
  }

  /** A set whose members are all equal has at most one member. */
  lemma AtMostOne(s: set<int>)
    requires forall a, b :: a in s && b in s ==> a == b
    ensures |s| <= 1
  {
    if s != {} {
      Inhabited(s);
      var a :| a in s;
      forall x
        ensures x in s <==> x == a
      {
      }
      assert s == {a};
    }
  }

  /** While role names are unique, at most one role has a given name, so the first role of
      that name is the only one. */
  lemma RolesNamedAtMostOne(roles: map<int, Role>, name: string)
    requires UniqueRoleNames(roles)
    ensures |RolesNamed(roles, name)| <= 1
  {
    AtMostOne(RolesNamed(roles, name));
  }

  /** Is the name taken by some user? */
  predicate NameTaken(users: map<int, User>, name: string)
  {
    exists u :: u in users && users[u].name == name
  }

  /** Is the e-mail registered by some user? */
  predicate EmailTaken(users: map<int, User>, email: string)
  {
    exists u :: u in users && users[u].email == email
  }

  /** Adding a user under a fresh name and a fresh e-mail keeps names and e-mails unique. */
  lemma AddUserKeepsUnique(users: map<int, User>, id: int, user: User)
    requires UniqueNames(users) && UniqueEmails(users) && id !in users
    requires !NameTaken(users, user.name) && !EmailTaken(users, user.email)
    ensures UniqueNames(users[id := user]) && UniqueEmails(users[id := user])
  {
    var users' := users[id := user];
    forall a, b | a in users' && b in users' && users'[a].name == users'[b].name
      ensures a == b
    {
    }
    forall a, b | a in users' && b in users' && users'[a].email == users'[b].email
      ensures a == b
    {
    }
  }

  /** Adding a role under a name no role has keeps role names unique. */
  lemma AddRoleKeepsUnique(roles: map<int, Role>, id: int, role: Role)
    requires UniqueRoleNames(roles) && id !in roles && RolesNamed(roles, role.name) == {}
    ensures UniqueRoleNames(roles[id := role])
  {
    var roles' := roles[id := role];
    forall a, b | a in roles' && b in roles' && roles'[a].name == roles'[b].name
      ensures a == b
    {
      assert a !in RolesNamed(roles, role.name) && b !in RolesNamed(roles, role.name);
    }
  }

  /** The `user` role's id, creating the role first when no role has that name. */
  method EnsureUserRole(db: Database) returns (roleId: int)
    requires db.Valid()
    modifies db`roles, db`nextRoleId
    ensures db.Valid()
    ensures old(db.roles).Keys <= db.roles.Keys && forall r :: r in old(db.roles) ==> db.roles[r] == old(db.roles[r])
    ensures old(RolesNamed(db.roles, UserRoleName)) != {} ==> unchanged(db)
    ensures old(RolesNamed(db.roles, UserRoleName)) == {} ==>
              db.roles == old(db.roles)[old(db.nextRoleId) := Role(UserRoleName, UserRoleDescription)]
              && db.nextRoleId == old(db.nextRoleId) + 1
    ensures RolesNamed(db.roles, UserRoleName) == {roleId}
  {
    var existing := RolesNamed(db.roles, UserRoleName);
    if existing == {} {
      roleId := db.nextRoleId;
      AddRoleKeepsUnique(db.roles, roleId, Role(UserRoleName, UserRoleDescription));
      db.roles := db.roles[roleId := Role(UserRoleName, UserRoleDescription)];
      db.nextRoleId := roleId + 1;
      assert UserRolesReference(db.users, db.roles, db.userRoles);
      forall x
        ensures x in RolesNamed(db.roles, UserRoleName) <==> x == roleId
      {
      }
    } else {
      roleId := Least(existing);
      forall x
        ensures x in existing <==> x == roleId
      {
      }
    }
  }

  /** Stores a new user under the next user key and links it to the role `roleId`. */
  method AddUser(db: Database, name: string, email: string, passwordHash: string, roleId: int) returns (id: int)
    requires db.Valid() && roleId in db.roles && db.roles[roleId].name == UserRoleName
    requires !NameTaken(db.users, name) && !EmailTaken(db.users, email)
    modifies db`users, db`nextUserId, db`userRoles, db`nextUserRoleId
    ensures db.Valid()
    ensures id == old(db.nextUserId) && id !in old(db.users)
    ensures db.users == old(db.users)[id := NewUser(name, email, passwordHash)]
    ensures db.userRoles == old(db.userRoles)[old(db.nextUserRoleId) := UserRole(id, roleId)]
    ensures db.CallerHasRole(id, UserRoleName)
  {
    id := db.nextUserId;
    var user := NewUser(name, email, passwordHash);
    AddUserKeepsUnique(db.users, id, user);
    db.users := db.users[id := user];
    db.nextUserId := id + 1;
    var link := db.nextUserRoleId;
    db.userRoles := db.userRoles[link := UserRole(id, roleId)];
    db.nextUserRoleId := link + 1;
    assert db.userRoles[link].userId == id && db.roles[db.userRoles[link].roleId].name == UserRoleName;
    assert ReservationsReferenceUsers(db.users, db.reservations);
    assert UserRolesReference(db.users, db.roles, db.userRoles);
  }

  /** RegisterAPI.post. The checks come in this order: a missing username, email or password
      (400); a taken username (409); a registered e-mail (409); a password shorter than six
      characters (400). Each refusal changes nothing. Otherwise the "user" role is created if
      no role has that name, and exactly one user is added, storing the hash of the password
      and holding the "user" role; names and e-mails stay unique. */
  method Register(db: Database, username: Option<string>, email: Option<string>, password: Option<string>,
                  hash: string -> string)
    returns (out: Outcome<Registered>)
    requires db.Valid()
    modifies db`users, db`nextUserId, db`roles, db`nextRoleId, db`userRoles, db`nextUserRoleId
    ensures db.Valid()
    ensures out.Fail? ==> unchanged(db)
    ensures out == Fail(RegistrationFieldsRequired) <==> username.None? || email.None? || password.None?
    ensures out == Fail(UsernameExists) <==>
              username.Some? && email.Some? && password.Some? && old(NameTaken(db.users, username.value))
    ensures out == Fail(EmailRegistered) <==>
              username.Some? && email.Some? && password.Some? && !old(NameTaken(db.users, username.value))
              && old(EmailTaken(db.users, email.value))
    ensures out == Fail(PasswordTooShort) <==>
              username.Some? && email.Some? && password.Some? && !old(NameTaken(db.users, username.value))
              && !old(EmailTaken(db.users, email.value)) && |password.value| < MinPasswordLength
    ensures out.Ok? <==>
              username.Some? && email.Some? && password.Some? && !old(NameTaken(db.users, username.value))
              && !old(EmailTaken(db.users, email.value)) && |password.value| >= MinPasswordLength
    ensures out.Ok? ==>
              var id := old(db.nextUserId);
              && username.Some? && email.Some? && password.Some?
              && id !in old(db.users)
              && db.users == old(db.users)[id := NewUser(username.value, email.value, hash(password.value))]
              && out.value == Registered(id, username.value, email.value, UserRoleName)
              && db.CallerHasRole(id, UserRoleName)
              && (old(RolesNamed(db.roles, UserRoleName)) != {} ==> db.roles == old(db.roles))
              && (old(RolesNamed(db.roles, UserRoleName)) == {} ==>
                    db.roles == old(db.roles)[old(db.nextRoleId) := Role(UserRoleName, UserRoleDescription)])
              && |RolesNamed(db.roles, UserRoleName)| == 1
              && db.userRoles == old(db.userRoles)[old(db.nextUserRoleId) := UserRole(id, Least(RolesNamed(db.roles, UserRoleName)))]
  {
    if username.None? || email.None? || password.None? {
      return Fail(RegistrationFieldsRequired);
    }
    var name, mail, pw := username.value, email.value, password.value;
    if NameTaken(db.users, name) {
      return Fail(UsernameExists);
    }
    if EmailTaken(db.users, mail) {
      return Fail(EmailRegistered);
    }
    if |pw| < MinPasswordLength {
      return Fail(PasswordTooShort);
    }
    var roleId := EnsureUserRole(db);
    assert Least({roleId}) == roleId;
    var id := AddUser(db, name, mail, hash(pw), roleId);
    out := Ok(Registered(id, name, mail, UserRoleName));
  }

  // ---------------------------------------------------------------------------------------
  // Login

  /** The users whose e-mail or name is the submitted login. */
  function Matches(users: map<int, User>, login: string): (ids: set<int>)
    ensures forall u :: u in ids <==> u in users && (users[u].email == login || users[u].name == login)
  {
    set u | u in users && (users[u].email == login || users[u].name == login)
  }

  /** While e-mails and names are unique, a login matches at most one user by e-mail and at
      most one by name, so at most two users in all. */
  lemma MatchesAtMostTwo(users: map<int, User>, login: string)
    requires UniqueEmails(users) && UniqueNames(users)
    ensures |Matches(users, login)| <= 2
  {
    var byEmail := set u | u in users && users[u].email == login;
    var byName := set u | u in users && users[u].name == login;
    AtMostOne(byEmail);
    AtMostOne(byName);
    assert Matches(users, login) == byEmail + byName;
  }

  /** LoginAPI.post: a missing username or password is refused (400); otherwise the first
      user (lowest id) whose e-mail or name equals the submitted username is looked up
      (404 when there is none) and their stored hash is checked against the password (401
      when it does not match). */
  function Login(users: map<int, User>, username: Option<string>, password: Option<string>,
                 checkHash: (string, string) -> bool): (out: Outcome<int>)
    ensures out == Fail(CredentialsRequired) <==> username.None? || password.None?
    ensures out == Fail(UserDoesNotExist) <==>
              username.Some? && password.Some? && Matches(users, username.value) == {}
    ensures out == Fail(InvalidPassword) <==>
              username.Some? && password.Some? && Matches(users, username.value) != {}
              && !checkHash(users[Least(Matches(users, username.value))].password, password.value)
    ensures out.Ok? <==>
              username.Some? && password.Some? && Matches(users, username.value) != {}
              && checkHash(users[Least(Matches(users, username.value))].password, password.value)
    ensures out.Ok? ==> out.value == Least(Matches(users, username.value))
    ensures out.Ok? ==>
              && username.Some? && password.Some?
              && out.value in users
              && (users[out.value].email == username.value || users[out.value].name == username.value)
              && (forall u :: u in Matches(users, username.value) ==> out.value <= u)
              && checkHash(users[out.value].password, password.value)
  {
    if username.None? || password.None? then Fail(CredentialsRequired)
    else
      var found := Matches(users, username.value);
      if found == {} then Fail(UserDoesNotExist)
      else
        var u := Least(found);
        if !checkHash(users[u].password, password.value) then Fail(InvalidPassword)
        else Ok(u)
  }

  /** A user just registered can log in with their name and with their e-mail, provided the
      hash check accepts a password against its own hash and no earlier user's e-mail or name
      equals the login used. */
  lemma RegisteredUserCanLogIn(users: map<int, User>, next: int, name: string, email: string, pw: string,
                               hash: string -> string, checkHash: (string, string) -> bool)
    requires KeysBelow(users, next)
    requires checkHash(hash(pw), pw)
    ensures var users' := users[next := NewUser(name, email, hash(pw))];
      && (Matches(users, name) == {} ==> Login(users', Some(name), Some(pw), checkHash) == Ok(next))
      && (Matches(users, email) == {} ==> Login(users', Some(email), Some(pw), checkHash) == Ok(next))
  {
    var users' := users[next := NewUser(name, email, hash(pw))];
    forall login | login == name || login == email
      ensures Matches(users, login) == {} ==> Matches(users', login) == {next}
    {
      if Matches(users, login) == {} {
        forall x
          ensures x in Matches(users', login) <==> x == next
        {
          if x in users && x != next {
            assert x !in Matches(users, login);
          }
        }
      }
    }
  }

  /** Names and e-mails are checked for uniqueness separately, so a login can match one
      user's e-mail and an earlier user's name at once; the earlier user wins. */
  lemma LoginPrefersEarlierUser(checkHash: (string, string) -> bool)
    requires checkHash("h1", "secret")
    ensures var users := map[1 := User("alice", "bob", "h1", true), 2 := User("bob", "bob@example.com", "h2", true)];
      Login(users, Some("bob"), Some("secret"), checkHash) == Ok(1)
  {
    var users := map[1 := User("alice", "bob", "h1", true), 2 := User("bob", "bob@example.com", "h2", true)];
    forall x
      ensures x in Matches(users, "bob") <==> x == 1 || x == 2
    {
    }
    assert Matches(users, "bob") == {1, 2};
  }
}
