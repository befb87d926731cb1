/** The post resource service of routes/post.js as a pure model: the post
    table is a value, and each handler is a step from a table to a response
    and the next table. PostRoutes.PostStore runs the same steps in place. */
module Posts {
  import opened Api

  /** The store-assigned `_id` of a post. */
  type PostId = nat

  /** A stored post; `owner` is the `user` field the handlers filter on. */
  datatype Post = Post(id: PostId, title: string, description: Option<string>, url: string, status: string, owner: UserId)

  /** The fields a create or update request reads from req.body. */
  datatype PostBody = PostBody(title: Option<string>, description: Option<string>, url: Option<string>, status: Option<string>)

  /** The `post` or `posts` field of a successful response. */
  datatype Payload = OnePost(post: Post) | ManyPosts(posts: seq<Post>)

  /** The post collection in the store's natural (insertion) order, and the
      id the store hands to the next saved post. */
  datatype Table = Table(posts: seq<Post>, nextId: PostId)

  /** What one handler call answers and leaves behind. */
  datatype Step = Step(response: Response<Payload>, table: Table)

  const HttpsPrefix := "https://"
  const DefaultStatus := "TO LEARN"
  const TitleRequiredMessage := "Title is requied"
  const NotFoundMessage := "Post not found or user not authorised"
  const CreatedMessage := "Happy learning"
  const UpdatedMessage := "Update succesfully"
  const DeletedMessage := "Delete succesfully"

  /** Store invariant: ids are unique and all below the next id to hand out. */
  predicate WellFormed(t: Table)
  {
    && (forall i :: 0 <= i < |t.posts| ==> t.posts[i].id < t.nextId)
    && (forall i, j :: 0 <= i < j < |t.posts| ==> t.posts[i].id != t.posts[j].id)
  }

  /** The filter `{ _id: req.params.id, user: req.userId }`. */
  predicate Matches(p: Post, id: PostId, user: UserId)
  {
    p.id == id && p.owner == user
  }

  /** Some post in `s` passes the (id, owner) filter. */
  predicate Owns(s: seq<Post>, id: PostId, user: UserId)
  {
    exists i :: 0 <= i < |s| && Matches(s[i], id, user)
  }

  /** The url a handler stores: prefixed with "https://" unless it already
      starts with it. */
  function NormaliseUrl(url: string): (r: string)
    ensures HttpsPrefix <= r
    ensures r == url <==> HttpsPrefix <= url
    ensures r == url || r == HttpsPrefix + url
  {
    if HttpsPrefix <= url then url else HttpsPrefix + url
  }

  /** The position of the post that findOneAndUpdate / findOneAndDelete
      would pick: the first one passing the filter. */
  function IndexOf(s: seq<Post>, id: PostId, user: UserId): (r: Option<nat>)
    ensures r.Some? ==> r.value < |s| && Matches(s[r.value], id, user)
    ensures r.Some? ==> forall j :: 0 <= j < r.value ==> !Matches(s[j], id, user)
    ensures r.None? <==> !Owns(s, id, user)
  {
    if s == [] then None
    else if Matches(s[0], id, user) then Some(0)
    else match IndexOf(s[1..], id, user)
      case None => None
      case Some(k) => Some(k + 1)
  }

  /** `Post.find({ user: req.userId })`, keeping the store's order. */
  function OwnedBy(s: seq<Post>, user: UserId): (r: seq<Post>)
    ensures forall p :: p in r <==> p in s && p.owner == user
    ensures forall p :: multiset(r)[p] == if p.owner == user then multiset(s)[p] else 0
    ensures |r| <= |s|
  {
    if s == [] then []
    else
      assert s == [s[0]] + s[1..];
      (if s[0].owner == user then [s[0]] else []) + OwnedBy(s[1..], user)
  }

  /** The record the create handler builds and saves. */
  function NewPost(id: PostId, user: UserId, title: string, body: PostBody): Post
    requires body.url.Some?
  {
    Post(id, title, body.description, NormaliseUrl(body.url.value), OrElse(body.status, DefaultStatus), user)
  }

  /** The record after the update handler's replacement of title,
      description, url and status. The `|| ""` after the url expression is
      kept as written; UpdateUrlFallbackUnused shows it never applies. */
  function Revised(p: Post, title: string, body: PostBody): Post
    requires body.url.Some?
  {
    p.(title := title,
       description := Some(OrElse(body.description, "")),
       url := OrElse(Some(NormaliseUrl(body.url.value)), ""),
       status := OrElse(body.status, DefaultStatus))
  }

  /** GET /: the caller's own posts, with no message field. */
  function ListPosts(t: Table, user: UserId): (r: Response<Payload>)
    ensures r.status == 200 && r.success && r.message.None? && r.payload.Some? && r.payload.value.ManyPosts?
    ensures forall p :: p in r.payload.value.posts <==> p in t.posts && p.owner == user
    ensures forall p :: multiset(r.payload.value.posts)[p] == if p.owner == user then multiset(t.posts)[p] else 0
  {
    Response(200, true, None, Some(ManyPosts(OwnedBy(t.posts, user))))
  }

  /** POST /: validate the title, then build, save and return a new post. */
  function CreatePost(t: Table, user: UserId, body: PostBody): (r: Step)
    ensures Missing(body.title) ==> r == Step(Rejected(400, TitleRequiredMessage), t)
    ensures !Missing(body.title) && body.url.None? ==> r == Step(ServerError(), t)
    ensures r.response.success <==> !Missing(body.title) && body.url.Some?
    ensures r.response.success ==>
      && r.response.payload.Some? && r.response.payload.value.OnePost?
      && var p := r.response.payload.value.post;
      && r.response == Accepted(CreatedMessage, OnePost(p))
      && r.table.posts == t.posts + [p]
      && p.owner == user
      && p.title == body.title.value
      && p.description == body.description
      && p.url == NormaliseUrl(body.url.value)
      && p.status == OrElse(body.status, DefaultStatus)
      && (WellFormed(t) ==> !(exists q :: q in t.posts && q.id == p.id))
    ensures WellFormed(t) ==> WellFormed(r.table)
  {
    if Missing(body.title) then Step(Rejected(400, TitleRequiredMessage), t)
    else if body.url.None? then Step(ServerError(), t)
    else
      var p := NewPost(t.nextId, user, body.title.value, body);
      Step(Accepted(CreatedMessage, OnePost(p)), Table(t.posts + [p], t.nextId + 1))
  }

  /** PUT /:id: validate the title, then replace the fields of the post that
      passes the (id, owner) filter and return its new state. */
  function UpdatePost(t: Table, user: UserId, id: PostId, body: PostBody): (r: Step)
    ensures Missing(body.title) ==> r == Step(Rejected(400, TitleRequiredMessage), t)
    ensures !Missing(body.title) && body.url.None? ==> r == Step(ServerError(), t)
    ensures !Missing(body.title) && body.url.Some? && !Owns(t.posts, id, user) ==>
      r == Step(Rejected(401, NotFoundMessage), t)
    ensures r.response.success <==> !Missing(body.title) && body.url.Some? && Owns(t.posts, id, user)
    ensures r.response.success ==>
      && r.response.payload.Some? && r.response.payload.value.OnePost?
      && var p := r.response.payload.value.post;
      && r.response == Accepted(UpdatedMessage, OnePost(p))
      && p in r.table.posts
      && p.id == id && p.owner == user
      && p.title == body.title.value
      && p.description == Some(OrElse(body.description, ""))
      && p.url == NormaliseUrl(body.url.value)
      && p.status == OrElse(body.status, DefaultStatus)
      && r.table.nextId == t.nextId
      && |r.table.posts| == |t.posts|
      && (forall j :: 0 <= j < |t.posts| && !Matches(t.posts[j], id, user) ==> r.table.posts[j] == t.posts[j])
    ensures WellFormed(t) ==> WellFormed(r.table)
  {
    if Missing(body.title) then Step(Rejected(400, TitleRequiredMessage), t)
    else if body.url.None? then Step(ServerError(), t)
    else match IndexOf(t.posts, id, user)
      case None => Step(Rejected(401, NotFoundMessage), t)
      case Some(k) =>
        var p := Revised(t.posts[k], body.title.value, body);
        assert t.posts[k := p][k] == p;
        Step(Accepted(UpdatedMessage, OnePost(p)), Table(t.posts[k := p], t.nextId))
  }

  /** DELETE /:id: remove the post that passes the (id, owner) filter and
      return its state before removal. */
  function DeletePost(t: Table, user: UserId, id: PostId): (r: Step)
    ensures !Owns(t.posts, id, user) ==> r == Step(Rejected(401, NotFoundMessage), t)
    ensures r.response.success <==> Owns(t.posts, id, user)
    ensures r.response.success ==>
      && r.response.payload.Some? && r.response.payload.value.OnePost?
      && var p := r.response.payload.value.post;
      && r.response == Accepted(DeletedMessage, OnePost(p))
      && p in t.posts && Matches(p, id, user)
      && multiset(r.table.posts) + multiset{p} == multiset(t.posts)
      && r.table.nextId == t.nextId
      && (forall q :: q in t.posts && !Matches(q, id, user) ==> q in r.table.posts)
      && (WellFormed(t) ==> !Owns(r.table.posts, id, user))
    ensures WellFormed(t) ==> WellFormed(r.table)
  {
    match IndexOf(t.posts, id, user)
    case None => Step(Rejected(401, NotFoundMessage), t)
    case Some(k) =>
      RemovalKeepsOthers(t, k, id, user);
      Step(Accepted(DeletedMessage, OnePost(t.posts[k])), Table(t.posts[..k] + t.posts[k + 1..], t.nextId))
  }

  /** What taking the matching post at position k out of the table leaves:
      one copy of that post fewer, every other post still there, and (in a
      well-formed table) no post passing the filter any more. */
  lemma RemovalKeepsOthers(t: Table, k: nat, id: PostId, user: UserId)
    requires k < |t.posts| && Matches(t.posts[k], id, user)
    ensures var rest := t.posts[..k] + t.posts[k + 1..];
      && multiset(rest) + multiset{t.posts[k]} == multiset(t.posts)
      && (forall q :: q in t.posts && !Matches(q, id, user) ==> q in rest)
      && (WellFormed(t) ==> WellFormed(Table(rest, t.nextId)) && !Owns(rest, id, user))
  {
    var rest := t.posts[..k] + t.posts[k + 1..];
    assert t.posts == t.posts[..k] + [t.posts[k]] + t.posts[k + 1..];
    forall q | q in t.posts && !Matches(q, id, user) ensures q in rest {
      var j :| 0 <= j < |t.posts| && t.posts[j] == q;
      assert j != k;
      if j < k { assert rest[j] == q; } else { assert rest[j - 1] == q; }
    }
    if WellFormed(t) {
      RemovalWellFormed(t, k);
      forall j | 0 <= j < |rest| ensures !Matches(rest[j], id, user) {
        var i := if j < k then j else j + 1;
        assert rest[j] == t.posts[i];
      }
    }
  }

  /** Removing one post keeps the ids unique and below the next id. */
  lemma RemovalWellFormed(t: Table, k: nat)
    requires WellFormed(t) && k < |t.posts|
    ensures WellFormed(Table(t.posts[..k] + t.posts[k + 1..], t.nextId))
  {
    var rest := t.posts[..k] + t.posts[k + 1..];
    forall i, j | 0 <= i < j < |rest| ensures rest[i].id != rest[j].id {
      var i', j' := if i < k then i else i + 1, if j < k then j else j + 1;
      assert rest[i] == t.posts[i'] && rest[j] == t.posts[j'];
    }
    forall i | 0 <= i < |rest| ensures rest[i].id < t.nextId {
      assert rest[i] == t.posts[if i < k then i else i + 1];
    }
  }

  /** Normalising an already normalised url changes nothing. */
  lemma NormaliseUrlIdempotent(url: string)
    ensures NormaliseUrl(NormaliseUrl(url)) == NormaliseUrl(url)
  {
  }

  /** The `|| ""` fallback of the update handler's url is dead code: the
      normalised url is never empty. */
  lemma UpdateUrlFallbackUnused(url: string)
    ensures NormaliseUrl(url) != ""
    ensures OrElse(Some(NormaliseUrl(url)), "") == NormaliseUrl(url)
  {
  }

  /** A post that belongs to someone else is invisible to the (id, owner)
      filter, exactly like an id that is not in the table at all, so update
      and delete give the same answer in both cases and change nothing. */
  lemma ForeignPostIndistinguishable(t: Table, user: UserId, foreign: PostId, absent: PostId, body: PostBody)
    requires WellFormed(t)
    requires exists i :: 0 <= i < |t.posts| && t.posts[i].id == foreign && t.posts[i].owner != user
    requires forall i :: 0 <= i < |t.posts| ==> t.posts[i].id != absent
    ensures UpdatePost(t, user, foreign, body) == UpdatePost(t, user, absent, body)
    ensures DeletePost(t, user, foreign) == DeletePost(t, user, absent)
    ensures DeletePost(t, user, foreign) == Step(Rejected(401, NotFoundMessage), t)
  {
    var i :| 0 <= i < |t.posts| && t.posts[i].id == foreign && t.posts[i].owner != user;
    assert !Owns(t.posts, foreign, user) by {
      forall j | 0 <= j < |t.posts| ensures !Matches(t.posts[j], foreign, user) {
        if j != i {
          assert t.posts[j].id != t.posts[i].id by {
            if j < i { } else { }
          }
        }
      }
    }
    assert !Owns(t.posts, absent, user);
  }

  /** Another user cannot update or delete a post that was just created:
      both requests get the 401 answer and leave the table as it was. */
  lemma OwnershipIsolation(t: Table, owner: UserId, other: UserId, created: PostBody, edit: PostBody)
    requires WellFormed(t)
    requires owner != other
    requires CreatePost(t, owner, created).response.success
    requires !Missing(edit.title) && edit.url.Some?
    ensures var s := CreatePost(t, owner, created);
            var id := s.response.payload.value.post.id;
            && UpdatePost(s.table, other, id, edit) == Step(Rejected(401, NotFoundMessage), s.table)
            && DeletePost(s.table, other, id) == Step(Rejected(401, NotFoundMessage), s.table)
  {
    var s := CreatePost(t, owner, created);
    var p := s.response.payload.value.post;
    var n := |t.posts|;
    assert s.table.posts[n] == p;
    forall j | 0 <= j < |s.table.posts| ensures !Matches(s.table.posts[j], p.id, other) {
      if j < n {
        assert s.table.posts[j] == t.posts[j];
        assert t.posts[j] in t.posts;
      }
    }
  }
}
