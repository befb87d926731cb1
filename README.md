# Posts and accounts API, modelled in Dafny

This project models the two Express route files of a small learning-posts
API. `routes/post.js` holds ownership-scoped create, list, update and delete
handlers over a post collection. `routes/auth.js` holds the register and
login handlers over a user collection. Each handler is one atomic,
sequential step over an in-memory store. It answers with a response record:
the HTTP status, `success`, an optional `message` and an optional payload
(`post`, `posts` or `acccessToken`).

Layout:

- `api.dfy` (module `Api`) defines request-body fields with JavaScript
  falsiness and the response record. An absent field is `None`, and a field
  counts as missing when it is `None` or `""`.
- `posts.dfy` (module `Posts`) is the pure model of `routes/post.js`. The
  post table is a value: a sequence in the store's insertion order plus the
  next id the store hands out. Each handler is a function from a table to a
  response and the next table. The lemmas cover url normalisation and
  ownership isolation.
- `post_routes.dfy` (module `PostRoutes`) holds class `PostStore`. Its
  handlers update the collection in place. Each handler's `ensures` ties its
  response and the new collection to the matching function in `Posts`,
  and it keeps the store invariant: post ids are unique and below the next
  id.
- `accounts.dfy` (module `Accounts`) is the pure model of `routes/auth.js`.
  argon2 is a `Hasher`, a pair of functions the caller supplies. The hash
  takes the random salt as an explicit input. The only assumption is
  `Sound(h)`, which says every hash of a password verifies against that
  password. A JWT is `Token(userId)`, a value bound to the id it was signed
  for.
- `auth_routes.dfy` (module `AuthRoutes`) holds class `UserStore`. Its
  register handler saves in place and its login handler only reads. The
  store invariant says ids are unique and usernames are non-empty and unique.
- `scenario.dfy` (module `Scenario`) chains the two services in one lemma,
  starting from empty stores.

`req.userId`, which the token middleware sets, is a parameter of every post
handler.

The model follows the code in three places where a reader might expect
otherwise.

- Create stores `description` as sent (`routes/post.js:35`), so a created
  post keeps an absent description. Only update defaults it to `""`
  (`routes/post.js:61`).
- A create or update with a title but no `url` answers 500 "Server error"
  and saves nothing (`routes/post.js:36`, `routes/post.js:62`): the code
  calls `url.startsWith` on the absent url, which throws inside the `try`.
  `Posts.CreatePost` and `Posts.UpdatePost` return `ServerError()` and leave
  the table unchanged in that case. On update this comes before the
  (id, owner) lookup, so a missing url beats a 401.
- The title message is spelled "Title is requied" (`routes/post.js:30`).

## Model

| member | source | states |
|---|---|---|
| `Api.OrElse` | routes/post.js:37 | JavaScript's `field or fallback`: the fallback exactly when the field is absent or empty, otherwise the field itself (never empty) |
| `Posts.NormaliseUrl` | routes/post.js:36 | the stored url always starts with "https://"; it equals the input exactly when the input already starts with "https://", and is otherwise "https://" + input |
| `Posts.NormaliseUrlIdempotent` | routes/post.js:36 | normalising a normalised url leaves it unchanged |
| `Posts.UpdateUrlFallbackUnused` | routes/post.js:62 | the normalised url is never empty, so the empty-string fallback after the update handler's url expression never applies |
| `Posts.IndexOf` | routes/post.js:66-67 | the post the (id, owner) filter picks: a position holding a matching post with no earlier match, and no position exactly when no post matches |
| `Posts.OwnedBy` | routes/post.js:15 | `Post.find({ user })`: a post is in the result exactly when it is in the table and owned by the user, each of the user's posts appears exactly as many times as in the table and no other post appears; never longer than the table |
| `Posts.ListPosts` | routes/post.js:13-21 | GET answers 200 with `success`, no message and a `posts` list that holds exactly the caller's posts, each as many times as the table holds it, and no other post |
| `Posts.CreatePost` | routes/post.js:26-47 | a missing title gives 400 "Title is requied" and an absent url gives 500 "Server error", both with the table unchanged; success exactly otherwise, answering 200 "Happy learning" with the post and appending one post that is returned, owned by the caller, has a fresh id, the given title and description, the normalised url and the given status or "TO LEARN" when it is missing; the store invariant is kept |
| `Posts.UpdatePost` | routes/post.js:52-78 | 400 and 500 as for create, then 401 "Post not found or user not authorised" with the table unchanged when no post matches (id, owner); success exactly when one does, answering 200 "Update succesfully" with the post's new state with the same id and owner, the new title, description (default ""), normalised url and status (default "TO LEARN"); every non-matching post and the next id are unchanged; the store invariant is kept |
| `Posts.DeletePost` | routes/post.js:83-97 | 401 with the table unchanged when no post matches (id, owner); success exactly when one does, answering 200 "Delete succesfully" with the removed post's prior state; the table loses exactly that one post, keeps every non-matching post, and in a well-formed table no longer holds a match |
| `Posts.RemovalKeepsOthers` | routes/post.js:85-86 | removing the matched post leaves one copy fewer of it, keeps every other post and, in a well-formed table, leaves nothing matching the filter |
| `Posts.RemovalWellFormed` | routes/post.js:86 | removing a post keeps ids unique and below the next id |
| `Posts.ForeignPostIndistinguishable` | routes/post.js:66-73 | for update and delete, an id owned by another user gives exactly the same answer and table as an id that does not exist; for delete that answer is 401 with the table unchanged |
| `Posts.OwnershipIsolation` | routes/post.js:66-92 | right after one user creates a post, another user's update (with a title and a url) or delete of its id answers 401 and leaves the table unchanged |
| `PostRoutes.PostStore.List` | routes/post.js:13-21 | the read-only GET handler answers exactly `Posts.ListPosts` of the current collection: the caller's posts, each with its multiplicity in the collection, and nothing else |
| `PostRoutes.PostStore.Create` | routes/post.js:26-47 | the in-place create answers and leaves the collection as `Posts.CreatePost` says, and keeps ids unique |
| `PostRoutes.PostStore.Update` | routes/post.js:52-78 | the in-place find-and-update answers and leaves the collection as `Posts.UpdatePost` says, and keeps ids unique |
| `PostRoutes.PostStore.Delete` | routes/post.js:83-97 | the in-place find-and-delete answers and leaves the collection as `Posts.DeletePost` says, and keeps ids unique |
| `Accounts.FindByUsername` | routes/auth.js:21 | `User.findOne({ username })`: the position of the first user with that username, and none exactly when no user has it |
| `Accounts.Register` | routes/auth.js:12-40 | a missing or empty username or password gives 400 "Missing username and/or password"; otherwise a taken username gives 400 "Username has been registered"; both leave the table unchanged; success exactly otherwise, appending one user with that username and the hash of the password and answering with a token for the new, fresh id; usernames stay unique |
| `Accounts.Login` | routes/auth.js:45-71 | missing fields give 400 "Missing username and/or password"; any other failure is exactly 400 "Incorrect username or password"; success only for a user with that username whose stored hash verifies the password, with a token for that user's id, and in a well-formed table success exactly when such a user exists |
| `Accounts.RegisterAllKeepsUsernamesUnique` | routes/auth.js:21-31 | after any sequence of register calls from a well-formed table, the store invariant holds and usernames are unique |
| `Accounts.RegisterAllKeepsUsers` | routes/auth.js:31 | register calls never remove or change a stored user |
| `Accounts.SecondRegisterFails` | routes/auth.js:16-24 | once a username is registered, a later register of it (after any other registrations, with any non-empty password) answers 400 "Username has been registered" and changes nothing |
| `Accounts.RegisterThenLogin` | routes/auth.js:26-66 | with a sound hasher, login with the credentials of a successful register succeeds with a token for the new user's id |
| `Accounts.LoginFailuresIndistinguishable` | routes/auth.js:55-63 | an unknown username and a known username with a wrong password get identical answers: 400 "Incorrect username or password" |
| `AuthRoutes.UserStore.Register` | routes/auth.js:12-40 | the in-place register answers and leaves the collection as `Accounts.Register` says, and keeps usernames unique |
| `AuthRoutes.UserStore.Login` | routes/auth.js:45-71 | the read-only login answers exactly `Accounts.Login` of the current collection |
| `Scenario.EndToEnd` | routes/post.js:13-97 | from empty stores: two registrations succeed with distinct ids; a post created with a bare host name gets status "TO LEARN" and url "https://example.com"; listing shows exactly that post; the other user's delete answers 401 and changes nothing; the owner's delete empties the table |

## Left out

- Express routing, `dotenv`, console logging and the request and response
  objects beyond status, `success`, `message` and payload: transport
  plumbing.
- The token middleware (`../middleware/auth`) is not part of this model.
  The caller's id arrives as the `user` parameter, and JWT signing and the
  signing secret are reduced to the value `Token(userId)`.
- argon2 internals, salts and constant-time comparison: the hasher is a
  pair of caller-supplied functions, and the salt is an input.
- Failures inside the store or the hasher (a lost connection, a malformed
  stored hash) that would answer 500: the store and hasher calls here
  always succeed. The only 500 modelled is the absent url.
- A `:id` that is not a valid ObjectId makes the store throw a cast error,
  which answers 500. In the model, ids are natural numbers, and every id is
  either present or absent.
- Request-body values that are not strings (numbers, objects) and the
  schema validation and defaults of the Post and User models: the models
  are not part of this model.
- `populate('user', ['username'])` in the list handler, a store-side join
  that adds the owner's username: `posts` holds the stored posts
  themselves.
- Concurrent requests and `async`/`await`: each handler is one atomic step,
  so the check-then-insert race of register is not represented.
- The unused `verify` and `jwt` imports of `routes/post.js`.
