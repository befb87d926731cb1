/** The account service of routes/auth.js as a pure model: the user table is a
    value, register is a step from a table to a response and the next table,
    and login is a read-only lookup. Password hashing and token signing are
    foreign libraries: the hasher is a pair of functions supplied by the
    caller, and a token is a value that carries the user id it was signed for. */
module Accounts {
  import opened Api

  /** A stored user; `password` holds the encoded hash, never the plaintext. */
  datatype User = User(id: UserId, username: string, password: string)

  /** The fields register and login read from req.body. */
  datatype Credentials = Credentials(username: Option<string>, password: Option<string>)

  /** The `acccessToken` of a successful response: signed for one user id. */
  datatype Token = Token(userId: UserId)

  /** The salt the hash call draws at random, taken here as an input. */
  type Salt = nat

  /** argon2.hash and argon2.verify. */
  datatype Hasher = Hasher(hash: (Salt, string) -> string, verify: (string, string) -> bool)

  /** The one property the handlers rely on: every hash of a password
      verifies against that password, whatever salt it was made with. */
  ghost predicate Sound(h: Hasher)
  {
    forall salt, password :: h.verify(h.hash(salt, password), password)
  }

  /** The user collection in the store's order, and the id the store hands
      to the next saved user. */
  datatype Users = Users(users: seq<User>, nextId: UserId)

  /** What one register call answers and leaves behind. */
  datatype Step = Step(response: Response<Token>, table: Users)

  const MissingCredentialsMessage := "Missing username and/or password"
  const UsernameTakenMessage := "Username has been registered"
  const RegisteredMessage := "User created successfully"
  const IncorrectCredentialsMessage := "Incorrect username or password"
  const LoggedInMessage := "Logged in successfully"

  /** Store invariant: ids unique and below the next id, usernames non-empty
      and unique. */
  predicate WellFormed(t: Users)
  {
    && (forall i :: 0 <= i < |t.users| ==> t.users[i].id < t.nextId && t.users[i].username != "")
    && (forall i, j :: 0 <= i < j < |t.users| ==> t.users[i].id != t.users[j].id)
    && (forall i, j :: 0 <= i < j < |t.users| ==> t.users[i].username != t.users[j].username)
  }

  /** Some user in `s` has this username. */
  predicate Registered(s: seq<User>, username: string)
  {
    exists i :: 0 <= i < |s| && s[i].username == username
  }

  /** `User.findOne({ username })`: the position of the first user with that
      username. */
  function FindByUsername(s: seq<User>, username: string): (r: Option<nat>)
    ensures r.Some? ==> r.value < |s| && s[r.value].username == username
    ensures r.Some? ==> forall j :: 0 <= j < r.value ==> s[j].username != username
    ensures r.None? <==> !Registered(s, username)
  {
    if s == [] then None
    else if s[0].username == username then Some(0)
    else match FindByUsername(s[1..], username)
      case None => None
      case Some(k) => Some(k + 1)
  }

  /** POST /register: both fields present, username new, then one user is
      saved with the hashed password and a token for its id is returned. */
  function Register(t: Users, h: Hasher, salt: Salt, body: Credentials): (r: Step)
    ensures Missing(body.username) || Missing(body.password) ==>
      r == Step(Rejected(400, MissingCredentialsMessage), t)
    ensures !Missing(body.username) && !Missing(body.password) && Registered(t.users, body.username.value) ==>
      r == Step(Rejected(400, UsernameTakenMessage), t)
    ensures r.response.success <==>
      !Missing(body.username) && !Missing(body.password) && !Registered(t.users, body.username.value)
    ensures r.response.success ==>
      && r.response == Accepted(RegisteredMessage, Token(t.nextId))
      && r.table.users == t.users + [User(t.nextId, body.username.value, h.hash(salt, body.password.value))]
      && (WellFormed(t) ==> forall u :: u in t.users ==> u.id != t.nextId)
    ensures WellFormed(t) ==> WellFormed(r.table)
  {
    if Missing(body.username) || Missing(body.password) then
      Step(Rejected(400, MissingCredentialsMessage), t)
    else match FindByUsername(t.users, body.username.value)
      case Some(_) => Step(Rejected(400, UsernameTakenMessage), t)
      case None =>
        var user := User(t.nextId, body.username.value, h.hash(salt, body.password.value));
        Step(Accepted(RegisteredMessage, Token(user.id)), Users(t.users + [user], t.nextId + 1))
  }

  /** POST /login: both fields present, then the first user with that
      username, then the password check; an unknown username and a wrong
      password give the same 400 answer. */
  function Login(t: Users, h: Hasher, body: Credentials): (r: Response<Token>)
    ensures Missing(body.username) || Missing(body.password) ==> r == Rejected(400, MissingCredentialsMessage)
    ensures !Missing(body.username) && !Missing(body.password) && !r.success ==>
      r == Rejected(400, IncorrectCredentialsMessage)
    ensures r.success ==>
      exists i :: 0 <= i < |t.users| && t.users[i].username == body.username.value
        && h.verify(t.users[i].password, body.password.value)
        && r == Accepted(LoggedInMessage, Token(t.users[i].id))
    ensures WellFormed(t) && !Missing(body.username) && !Missing(body.password) ==>
      (r.success <==> (exists i :: 0 <= i < |t.users| && t.users[i].username == body.username.value
                                 && h.verify(t.users[i].password, body.password.value)))
  {
    if Missing(body.username) || Missing(body.password) then
      Rejected(400, MissingCredentialsMessage)
    else match FindByUsername(t.users, body.username.value)
      case None => Rejected(400, IncorrectCredentialsMessage)
      case Some(k) =>
        if !h.verify(t.users[k].password, body.password.value) then Rejected(400, IncorrectCredentialsMessage)
        else Accepted(LoggedInMessage, Token(t.users[k].id))
  }

  /** The table left after applying a sequence of register requests, each
      to the table the previous one left. */
  function RegisterAll(t: Users, h: Hasher, requests: seq<(Salt, Credentials)>): Users
    decreases |requests|
  {
    if requests == [] then t
    else RegisterAll(Register(t, h, requests[0].0, requests[0].1).table, h, requests[1..])
  }

  /** Usernames stay unique whatever sequence of registrations is made. */
  lemma {:induction false} RegisterAllKeepsUsernamesUnique(t: Users, h: Hasher, requests: seq<(Salt, Credentials)>)
    requires WellFormed(t)
    ensures WellFormed(RegisterAll(t, h, requests))
    ensures forall i, j :: 0 <= i < j < |RegisterAll(t, h, requests).users| ==>
      RegisterAll(t, h, requests).users[i].username != RegisterAll(t, h, requests).users[j].username
    decreases |requests|
  {
    if requests != [] {
      RegisterAllKeepsUsernamesUnique(Register(t, h, requests[0].0, requests[0].1).table, h, requests[1..]);
    }
  }

  /** Registrations never remove a user, so a username once taken stays taken. */
  lemma {:induction false} RegisterAllKeepsUsers(t: Users, h: Hasher, requests: seq<(Salt, Credentials)>)
    ensures t.users <= RegisterAll(t, h, requests).users
    decreases |requests|
  {
    if requests != [] {
      var next := Register(t, h, requests[0].0, requests[0].1).table;
      RegisterAllKeepsUsers(next, h, requests[1..]);
    }
  }

  /** Once a username has been registered, every later register with that
      username, after any other registrations, answers 400 "Username has
      been registered" and changes nothing. */
  lemma SecondRegisterFails(t: Users, h: Hasher, salt: Salt, body: Credentials,
                            between: seq<(Salt, Credentials)>, salt2: Salt, password2: string)
    requires Register(t, h, salt, body).response.success
    requires password2 != ""
    ensures var later := RegisterAll(Register(t, h, salt, body).table, h, between);
            var again := Credentials(body.username, Some(password2));
            Register(later, h, salt2, again) == Step(Rejected(400, UsernameTakenMessage), later)
  {
    var first := Register(t, h, salt, body).table;
    var later := RegisterAll(first, h, between);
    RegisterAllKeepsUsers(first, h, between);
    var n := |t.users|;
    assert first.users[n].username == body.username.value;
    assert later.users[n] == first.users[n];
  }

  /** With a sound hasher, logging in with the credentials just registered
      succeeds and yields a token for the new user's id. */
  lemma RegisterThenLogin(t: Users, h: Hasher, salt: Salt, body: Credentials)
    requires Sound(h)
    requires Register(t, h, salt, body).response.success
    ensures Login(Register(t, h, salt, body).table, h, body) == Accepted(LoggedInMessage, Token(t.nextId))
  {
    var after := Register(t, h, salt, body).table;
    var n := |t.users|;
    var name := body.username.value;
    assert after.users[n].username == name;
    assert forall j :: 0 <= j < n ==> after.users[j] == t.users[j];
    assert h.verify(h.hash(salt, body.password.value), body.password.value);
  }

  /** Login does not reveal whether a username exists: an unknown username
      and a known one with the wrong password get identical answers. */
  lemma LoginFailuresIndistinguishable(t: Users, h: Hasher, unknown: string, known: string, password: string)
    requires WellFormed(t)
    requires unknown != "" && password != ""
    requires !Registered(t.users, unknown)
    requires exists i :: 0 <= i < |t.users| && t.users[i].username == known && !h.verify(t.users[i].password, password)
    ensures Login(t, h, Credentials(Some(unknown), Some(password)))
         == Login(t, h, Credentials(Some(known), Some(password)))
         == Rejected(400, IncorrectCredentialsMessage)
  {
    var i :| 0 <= i < |t.users| && t.users[i].username == known && !h.verify(t.users[i].password, password);
    assert Registered(t.users, known);
    assert FindByUsername(t.users, known) == Some(i);
    assert Login(t, h, Credentials(Some(known), Some(password))) == Rejected(400, IncorrectCredentialsMessage);
    assert FindByUsername(t.users, unknown).None?;
  }
}
