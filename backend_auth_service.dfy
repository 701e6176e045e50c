/** Accounts of the .NET backend: registration that refuses a taken email or username and stores a
    salted password hash, login by email and password, and lookup by id. The password hash (BCrypt) is
    given as a pair of functions, and its random salt as an argument. */
module BackendAuthService {
  import opened Common
  import Tables

  /** A row of the `Users` table. */
  datatype User = User(id: Id, username: string, email: string, passwordHash: string)

  /** The user holds the email or the username. */
  predicate Clashes(u: User, username: string, email: string) {
    u.email == email || u.username == username
  }

  function ClashFilter(username: string, email: string): User -> bool {
    (u: User) => Clashes(u, username, email)
  }

  /** No two users share an email or a username. */
  predicate UniqueCredentials(users: map<Id, User>) {
    forall a, b :: a in users && b in users && a != b ==>
      users[a].email != users[b].email && users[a].username != users[b].username
  }

  predicate WellFormed(users: map<Id, User>, bound: nat) {
    && Tables.Bounded(users, bound)
    && (forall k :: k in users ==> users[k].id == k)
    && UniqueCredentials(users)
  }

  /** Some stored user holds the email or the username. */
  predicate Taken(users: map<Id, User>, username: string, email: string) {
    exists k :: k in users && Clashes(users[k], username, email)
  }

  /** `Login`: the user with this email, provided the password verifies against its hash; otherwise `null`. */
  function Login(users: map<Id, User>, bound: nat, email: string, password: string, verify: (string, string) -> bool)
    : (r: Option<User>)
    requires WellFormed(users, bound)
    ensures r.Some? ==> r.value.id in users && users[r.value.id] == r.value
    ensures r.Some? ==> r.value.email == email && verify(password, r.value.passwordHash)
    ensures r.None? <==> forall k :: k in users && users[k].email == email ==> !verify(password, users[k].passwordHash)
  {
    match Tables.FirstWhere(users, bound, (u: User) => u.email == email)
    case None => None
    case Some(k) => if verify(password, users[k].passwordHash) then Some(users[k]) else None
  }

  /** `GetUserById`: the user, or `null`. */
  function GetUserById(users: map<Id, User>, bound: nat, id: Id): (r: Option<User>)
    requires WellFormed(users, bound)
    ensures r.Some? <==> id in users
    ensures r.Some? ==> r.value == users[id]
  {
    match Tables.FirstWhere(users, bound, (u: User) => u.id == id)
    case None => None
    case Some(k) => Some(users[k])
  }

  /** Whoever knows a stored user's password logs in as that user and no other. */
  lemma LoginFindsOwner(users: map<Id, User>, bound: nat, id: Id, password: string, verify: (string, string) -> bool)
    requires WellFormed(users, bound) && id in users && verify(password, users[id].passwordHash)
    ensures Login(users, bound, users[id].email, password, verify) == Some(users[id])
  {
    var r := Login(users, bound, users[id].email, password, verify);
    assert r.Some?;
    assert r.value.id == id;
  }

  /** A user added under a fresh key with an email and a username nobody holds keeps credentials unique. */
  lemma AddKeepsCredentialsUnique(users: map<Id, User>, u: User)
    requires UniqueCredentials(users) && u.id !in users && !Taken(users, u.username, u.email)
    ensures UniqueCredentials(users[u.id := u])
  {
    var m := users[u.id := u];
    forall a, b | a in m && b in m && a != b
      ensures m[a].email != m[b].email && m[a].username != m[b].username
    {
      if a == u.id {
        assert !Clashes(users[b], u.username, u.email);
      } else if b == u.id {
        assert !Clashes(users[a], u.username, u.email);
      }
    }
  }

  /** The authentication service: the `Users` table and the password hash it registers with. */
  class AuthService {
    var users: map<Id, User>
    var nextId: Id
    const hash: (string, nat) -> string
    const verify: (string, string) -> bool

    ghost predicate Valid()
      reads this
    {
      WellFormed(users, nextId)
    }

    /** Identity columns start at 1. */
    constructor (hash: (string, nat) -> string, verify: (string, string) -> bool)
      ensures Valid() && users == map[] && nextId == 1
      ensures this.hash == hash && this.verify == verify
    {
      users := map[];
      nextId := 1;
      this.hash := hash;
      this.verify := verify;
    }

    /** `RegisterAsync`: an email or username already held is refused with InvalidOperationException
        and nothing is stored; otherwise the user is stored with the hash of the password under `salt`. */
    method RegisterAsync(username: string, email: string, password: string, salt: nat) returns (r: Result<User>)
      requires Valid()
      modifies this
      ensures Valid()
      ensures Taken(old(users), username, email) ==>
        r == Err(InvalidOperation) && users == old(users) && nextId == old(nextId)
      ensures !Taken(old(users), username, email) ==>
        && r == Ok(User(old(nextId), username, email, hash(password, salt)))
        && old(nextId) !in old(users)
        && users == old(users)[old(nextId) := r.value]
    {
      var existing := Tables.FirstWhere(users, nextId, ClashFilter(username, email));
      if existing.Some? {
        return Err(InvalidOperation);
      }
      var user := User(nextId, username, email, hash(password, salt));
      AddKeepsCredentialsUnique(users, user);
      users := users[nextId := user];
      nextId := nextId + 1;
      r := Ok(user);
    }
  }

  /** With a hash whose verification accepts exactly the hashed password: a registered user logs in with
      the right password and not with a wrong one; the same email or the same username cannot register twice. */
  method RegisterLoginScenario()
    returns (registered: Result<User>, sameEmail: Result<User>, sameName: Result<User>,
             good: Option<User>, bad: Option<User>)
    ensures registered.Ok? && registered.value.username == "alice"
    ensures sameEmail == Err(InvalidOperation) && sameName == Err(InvalidOperation)
    ensures good == Some(registered.value) && bad == None
  {
    var hash := (p: string, salt: nat) => "$2a$" + p;
    var verify := (p: string, h: string) => h == "$2a$" + p;
    var service := new AuthService(hash, verify);
    registered := service.RegisterAsync("alice", "alice@example.com", "secret", 1);
    assert Clashes(service.users[registered.value.id], "other", "alice@example.com");
    sameEmail := service.RegisterAsync("other", "alice@example.com", "pw", 2);
    assert Clashes(service.users[registered.value.id], "alice", "other@example.com");
    sameName := service.RegisterAsync("alice", "other@example.com", "pw", 3);
    LoginFindsOwner(service.users, service.nextId, registered.value.id, "secret", verify);
    good := Login(service.users, service.nextId, "alice@example.com", "secret", verify);
    assert |"$2a$secret"| != |"$2a$" + "wrong"|;
    bad := Login(service.users, service.nextId, "alice@example.com", "wrong", verify);
  }
}
