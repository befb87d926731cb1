/** The handlers of routes/auth.js over a user collection. Register saves a
    new user in place; login only reads. Each contract ties the handler to the
    function of the same name in module Accounts. */
module AuthRoutes {
  import opened Api
  import opened Accounts

  class UserStore {
    var users: seq<User>
    var nextId: UserId

    /** The collection as a value. */
    function State(): Users
      reads this
    {
      Users(users, nextId)
    }

    ghost predicate Valid()
      reads this
    {
      WellFormed(State())
    }

    constructor ()
      ensures Valid() && State() == Users([], 0)
    {
      users := [];
      nextId := 0;
    }

    /** POST /register: validation, the check for an existing username, then
        hashing, saving and signing. Usernames stay unique. */
    method Register(h: Hasher, salt: Salt, body: Credentials) returns (resp: Response<Token>)
      requires Valid()
      modifies this
      ensures Valid()
      ensures Step(resp, State()) == Accounts.Register(old(State()), h, salt, body)
    {
      if Missing(body.username) || Missing(body.password) {
        return Rejected(400, MissingCredentialsMessage);
      }
      var existing := FindByUsername(users, body.username.value);
      if existing.Some? {
        return Rejected(400, UsernameTakenMessage);
      }
      var hashed := h.hash(salt, body.password.value);
      var user := User(nextId, body.username.value, hashed);
      users := users + [user];
      nextId := nextId + 1;
      resp := Accepted(RegisteredMessage, Token(user.id));
    }

    /** POST /login: a read-only lookup followed by the password check. */
    method Login(h: Hasher, body: Credentials) returns (resp: Response<Token>)
      ensures resp == Accounts.Login(State(), h, body)
    {
      if Missing(body.username) || Missing(body.password) {
        return Rejected(400, MissingCredentialsMessage);
      }
      var found := FindByUsername(users, body.username.value);
      if found.None? {
        return Rejected(400, IncorrectCredentialsMessage);
      }
      var user := users[found.value];
      var passwordValid := h.verify(user.password, body.password.value);
      if !passwordValid {
        return Rejected(400, IncorrectCredentialsMessage);
      }
      resp := Accepted(LoggedInMessage, Token(user.id));
    }
  }
}
