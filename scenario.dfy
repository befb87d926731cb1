/** The two services together: the token from register identifies the caller
    of the post handlers (the token middleware's req.userId). */
module Scenario {
  import opened Api
  import Accounts
  import Posts

  /** Starting from empty stores: alice registers and gets a token for her
      id; she creates a post with only a title and a bare host name and gets
      the default status and an https url; listing with her token shows
      exactly that post; bob, registered next, gets 401 deleting it, and
      alice's own delete removes it. */
  lemma EndToEnd(h: Accounts.Hasher, salt1: Accounts.Salt, salt2: Accounts.Salt)
    ensures var alice := Accounts.Register(Accounts.Users([], 0), h, salt1, Accounts.Credentials(Some("alice"), Some("pw1")));
            var bob := Accounts.Register(alice.table, h, salt2, Accounts.Credentials(Some("bob"), Some("pw2")));
            var aliceId := alice.response.payload.value.userId;
            var bobId := bob.response.payload.value.userId;
            var created := Posts.CreatePost(Posts.Table([], 0), aliceId, Posts.PostBody(Some("Learn Go"), None, Some("example.com"), None));
            var post := created.response.payload.value.post;
            && alice.response.success && bob.response.success && aliceId != bobId
            && post.status == "TO LEARN" && post.url == "https://example.com"
            && Posts.ListPosts(created.table, aliceId).payload.value.posts == [post]
            && Posts.DeletePost(created.table, bobId, post.id) == Posts.Step(Rejected(401, Posts.NotFoundMessage), created.table)
            && Posts.DeletePost(created.table, aliceId, post.id).table.posts == []
  {
    var alice := Accounts.Register(Accounts.Users([], 0), h, salt1, Accounts.Credentials(Some("alice"), Some("pw1")));
    assert alice.table.users[0].username == "alice";
    assert "bob" != "alice" by { assert "bob"[0] != "alice"[0]; }
    assert !Accounts.Registered(alice.table.users, "bob");
    var created := Posts.CreatePost(Posts.Table([], 0), 0, Posts.PostBody(Some("Learn Go"), None, Some("example.com"), None));
    assert !(Posts.HttpsPrefix <= "example.com") by { assert "example.com"[0] != Posts.HttpsPrefix[0]; }
    assert created.table.posts == [created.response.payload.value.post];
  }
}
