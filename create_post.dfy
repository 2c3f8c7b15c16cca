/**
 * POST /api/posts: one INSERT INTO posts with `type || 'social'` as the
 * category and no validation of the body beyond what the database itself
 * enforces. The reply is the new row id, or a server error when the
 * foreign key on `user_id` rejects the insert.
 */
module Posting {
  import opened Wrappers
  import opened Schema
  import opened Queries

  /** The JSON body `{user_id, content, image?, type?}`; a missing field is None. */
  datatype NewPost = NewPost(userId: Option<int>, content: Option<string>, image: Option<string>, postType: Option<string>)

  /** The message of the exception that better-sqlite3 raises on a dangling user_id. */
  const ForeignKeyFailed: string := "FOREIGN KEY constraint failed"

  /** `type || 'social'`: the stored category is never falsy. */
  function StoredType(postType: Option<string>): (r: string)
    ensures r != ""
    ensures Truthy(postType) ==> r == postType.value
  {
    if Truthy(postType) then postType.value else DefaultPostType
  }

  /** The tables after the handler ran: the insert took effect, or it failed and nothing changed. */
  function AfterCreatePost(t: Tables, body: NewPost, now: int): (r: Tables)
    ensures r.users == t.users && r.products == t.products && r.messages == t.messages
    ensures !ForeignKeyHolds(t.users, body.userId) ==> r == t
  {
    match InsertPost(t, body.userId, body.content, body.image, StoredType(body.postType), now)
    case Some(s) => s
    case None => t
  }

  /** `lastInsertRowid` of a successful insert: above every id already assigned. */
  function NewPostId(t: Tables): (r: int)
    ensures Valid(t) ==> r > 0 && forall p :: p in t.posts ==> p.id < r
  {
    assert Valid(t) ==> forall p :: p in t.posts ==> 1 <= p.id < t.nextPostId by {
      if Valid(t) {
        PostIdsBelowCounter(t);
      }
    }
    t.nextPostId
  }

  /** The handler's reply: `{id}`, or status 500 when the insert threw. */
  function CreatePostReply(t: Tables, body: NewPost): (r: Reply<int>)
    ensures r.Ok? <==> ForeignKeyHolds(t.users, body.userId)
    ensures Valid(t) && r.Ok? ==> r.body > 0 && forall p :: p in t.posts ==> p.id < r.body
    ensures r.Fail? ==> r.Status() == 500 && r.error == ForeignKeyFailed
  {
    if ForeignKeyHolds(t.users, body.userId) then Ok(NewPostId(t)) else Fail(500, ForeignKeyFailed)
  }

  /** The post that creating `body` at `now` stores. */
  function CreatedPost(t: Tables, body: NewPost, now: int): Post
  {
    Post(NewPostId(t), body.userId, body.content, body.image, StoredType(body.postType), DefaultLikes, now)
  }

  /**
   * When the foreign key holds, create post appends exactly one post, with
   * the returned id, likes 0 and the body's fields unchanged, and keeps the
   * invariant.
   */
  lemma CreatePostAppendsOne(t: Tables, body: NewPost, now: int)
    requires Valid(t)
    ensures var s := AfterCreatePost(t, body, now);
      && Valid(s)
      && (ForeignKeyHolds(t.users, body.userId) ==>
            && s.posts == t.posts + [CreatedPost(t, body, now)]
            && CreatePostReply(t, body) == Ok(s.posts[|t.posts|].id)
            && s.posts[|t.posts|].likes == 0
            && s.posts[|t.posts|].content == body.content && s.posts[|t.posts|].image == body.image)
  {
  }

  /**
   * A user_id that names no user makes the INSERT throw: the reply is a
   * server error and no table changes.
   */
  lemma CreatePostRejectsDanglingUser(t: Tables, body: NewPost, now: int)
    requires body.userId.Some?
    requires forall u :: u in t.users ==> u.id != body.userId.value
    ensures AfterCreatePost(t, body, now) == t
    ensures CreatePostReply(t, body) == Fail(500, "FOREIGN KEY constraint failed")
  {
    assert !ForeignKeyHolds(t.users, body.userId) by {
      forall i | 0 <= i < |t.users|
        ensures t.users[i].id != body.userId.value
      {
        assert t.users[i] in t.users;
      }
    }
  }

  /** The category is the given one when truthy, and 'social' when absent or empty. */
  lemma CreatePostTypeDefault(t: Tables, body: NewPost, now: int)
    requires ForeignKeyHolds(t.users, body.userId)
    ensures var stored := AfterCreatePost(t, body, now).posts[|t.posts|].postType;
      && (Truthy(body.postType) ==> stored == body.postType.value)
      && (body.postType == None || body.postType == Some("") ==> stored == "social")
  {
  }

  /**
   * Creating a post changes the listing by at most the new post: a row is
   * listed afterwards exactly when it was listed before or it joins the new
   * post with an existing user and passes the filter.
   */
  lemma CreatePostListing(t: Tables, body: NewPost, now: int, filter: Option<string>)
    requires Valid(t)
    ensures var s := AfterCreatePost(t, body, now);
      forall row :: row in ListPosts(s, filter) <==>
        row in ListPosts(t, filter)
        || (row.post == CreatedPost(t, body, now) && Selected(filter, row.post)
            && exists u :: u in t.users && AuthoredBy(row, u))
  {
    var s := AfterCreatePost(t, body, now);
    if ForeignKeyHolds(t.users, body.userId) {
      assert s.posts == t.posts + [CreatedPost(t, body, now)];
      assert forall p :: p in s.posts <==> p in t.posts || p == CreatedPost(t, body, now);
    } else {
      assert body.userId.Some?;
      assert forall u :: u in t.users ==> u.id != body.userId.value;
    }
  }

  /**
   * A post by an existing user reads back: it is listed unfiltered and
   * under its own category, with the content and image it was given.
   */
  lemma CreatedPostReadBack(t: Tables, body: NewPost, now: int, u: User)
    requires Valid(t)
    requires u in t.users && body.userId == Some(u.id)
    ensures var s := AfterCreatePost(t, body, now);
      var row := RowOf(CreatedPost(t, body, now), u);
      && row in ListPosts(s, None)
      && row in ListPosts(s, Some(StoredType(body.postType)))
      && row.post.id == NewPostId(t) && row.post.content == body.content && row.post.image == body.image
  {
    CreatePostListing(t, body, now, None);
    CreatePostListing(t, body, now, Some(StoredType(body.postType)));
    assert AuthoredBy(RowOf(CreatedPost(t, body, now), u), u);
  }

  /**
   * A NULL or missing user_id passes the foreign key: the post is stored,
   * but the inner join leaves it out of every listing.
   */
  lemma OrphanPostNotListed(t: Tables, body: NewPost, now: int, filter: Option<string>)
    requires Valid(t)
    requires body.userId == None
    ensures CreatedPost(t, body, now) in AfterCreatePost(t, body, now).posts
    ensures CreatePostReply(t, body) == Ok(NewPostId(t))
    ensures forall row :: row in ListPosts(AfterCreatePost(t, body, now), filter) ==> row.post.id != NewPostId(t)
  {
    CreatePostListing(t, body, now, filter);
    PostIdsBelowCounter(t);
  }

  /**
   * With a non-decreasing clock, a post just created by an existing user
   * has the largest timestamp, so the unfiltered listing starts with a row
   * carrying that timestamp.
   */
  lemma CreatedPostIsNewest(t: Tables, body: NewPost, now: int, u: User)
    requires Valid(t)
    requires forall p :: p in t.posts ==> p.createdAt <= now
    requires u in t.users && body.userId == Some(u.id)
    ensures var r := ListPosts(AfterCreatePost(t, body, now), None);
      r != [] && r[0].post.createdAt == now
  {
    var s := AfterCreatePost(t, body, now);
    var created := CreatedPost(t, body, now);
    assert s.posts == t.posts + [created] by {
      var i :| 0 <= i < |t.users| && t.users[i] == u;
      assert ForeignKeyHolds(t.users, body.userId);
    }
    assert forall p :: p in s.posts ==> p.createdAt <= now;
    var r := ListPosts(s, None);
    CreatedPostReadBack(t, body, now, u);
    assert RowOf(created, u) in r;
    HeadIsNewest(r);
    assert r[0] in r;
    assert r[0].post in s.posts;
  }

}
