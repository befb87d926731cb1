/** The handlers of routes/post.js over a post collection that they update in
    place. Each handler is one atomic step; its contract ties the response and
    the new collection to the matching step in module Posts. */
module PostRoutes {
  import opened Api
  import opened Posts

  class PostStore {
    var posts: seq<Post>
    var nextId: PostId

    /** The collection as a value. */
    function State(): Table
      reads this
    {
      Table(posts, nextId)
    }

    ghost predicate Valid()
      reads this
    {
      WellFormed(State())
    }

    constructor ()
      ensures Valid() && State() == Table([], 0)
    {
      posts := [];
      nextId := 0;
    }

    /** GET /: read-only query for the caller's posts. */
    method List(user: UserId) returns (resp: Response<Payload>)
      ensures resp == ListPosts(State(), user)
      ensures forall p :: p in resp.payload.value.posts <==> p in posts && p.owner == user
      ensures forall p :: multiset(resp.payload.value.posts)[p] == if p.owner == user then multiset(posts)[p] else 0
    {
      var mine := OwnedBy(posts, user);
      resp := Response(200, true, None, Some(ManyPosts(mine)));
    }

    /** POST /: the title check comes first; a missing url throws before
        anything is saved; otherwise one new post is appended. */
    method Create(user: UserId, body: PostBody) returns (resp: Response<Payload>)
      requires Valid()
      modifies this
      ensures Valid()
      ensures Step(resp, State()) == CreatePost(old(State()), user, body)
    {
      if Missing(body.title) {
        return Rejected(400, TitleRequiredMessage);
      }
      if body.url.None? {
        return ServerError();
      }
      var post := NewPost(nextId, user, body.title.value, body);
      posts := posts + [post];
      nextId := nextId + 1;
      resp := Accepted(CreatedMessage, OnePost(post));
    }

    /** PUT /:id: find-and-update filtered by (id, owner), answering with
        the post's new state. */
    method Update(user: UserId, id: PostId, body: PostBody) returns (resp: Response<Payload>)
      requires Valid()
      modifies this
      ensures Valid()
      ensures Step(resp, State()) == UpdatePost(old(State()), user, id, body)
    {
      if Missing(body.title) {
        return Rejected(400, TitleRequiredMessage);
      }
      if body.url.None? {
        return ServerError();
      }
      var found := IndexOf(posts, id, user);
      if found.None? {
        return Rejected(401, NotFoundMessage);
      }
      var k := found.value;
      var updated := Revised(posts[k], body.title.value, body);
      posts := posts[k := updated];
      resp := Accepted(UpdatedMessage, OnePost(updated));
    }

    /** DELETE /:id: find-and-delete filtered by (id, owner), answering with
        the post's state before removal. */
    method Delete(user: UserId, id: PostId) returns (resp: Response<Payload>)
      requires Valid()
      modifies this
      ensures Valid()
      ensures Step(resp, State()) == DeletePost(old(State()), user, id)
    {
      var found := IndexOf(posts, id, user);
      if found.None? {
        return Rejected(401, NotFoundMessage);
      }
      var k := found.value;
      var removed := posts[k];
      RemovalKeepsOthers(State(), k, id, user);
      posts := posts[..k] + posts[k + 1..];
      resp := Accepted(DeletedMessage, OnePost(removed));
    }
  }

  /** A client's view: one user's post stays out of another user's reach.
      It models no handler of its own; it only shows that the handlers'
      contracts alone fix every answer and the state after each call. */
  method IsolationScenario(owner: UserId, other: UserId)
    requires owner != other
  {
    var store := new PostStore();
    var created := store.Create(owner, PostBody(Some("Learn Go"), None, Some("go.dev"), None));
    assert created.payload.value.post.url == "https://go.dev";
    assert created.payload.value.post.status == "TO LEARN";
    var id := created.payload.value.post.id;
    var mine := store.List(owner);
    var theirs := store.List(other);
    assert created.payload.value.post in mine.payload.value.posts;
    assert theirs.payload.value.posts == [];
    var edit := store.Update(other, id, PostBody(Some("Mine now"), None, Some("x"), None));
    assert edit == Rejected(401, NotFoundMessage);
    var gone := store.Delete(other, id);
    assert gone == Rejected(401, NotFoundMessage);
    var back := store.Delete(owner, id);
    assert back.success && back.payload.value.post == created.payload.value.post;
    assert store.posts == [];
  }
}
