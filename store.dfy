/**
 * The module-level `db` handle: the four tables as sequence fields, one
 * AUTOINCREMENT counter per table and the latest clock reading used by an
 * insert. Seeding and post creation change it by successive inserts.
 */
module Store {
  import opened Wrappers
  import opened Schema
  import opened Queries
  import opened Seeding
  import opened Posting

  class Database {
    var users: seq<User>
    var posts: seq<Post>
    var products: seq<Product>
    var messages: seq<Message>
    var nextUserId: int
    var nextPostId: int
    var nextProductId: int
    var nextMessageId: int
    /** The latest CURRENT_TIMESTAMP an insert has taken; the clock never runs backwards. */
    var clock: int

    function Snapshot(): Tables
      reads this
    {
      Tables(users, posts, products, messages, nextUserId, nextPostId, nextProductId, nextMessageId)
    }

    ghost predicate Valid()
      reads this
    {
      Schema.Valid(Snapshot()) && forall p :: p in posts ==> p.createdAt <= clock
    }

    /** Opening a new database file: CREATE TABLE IF NOT EXISTS makes four empty tables. */
    constructor (now: int)
      ensures Valid() && Snapshot() == Empty() && clock == now
    {
      users, posts, products, messages := [], [], [], [];
      nextUserId, nextPostId, nextProductId, nextMessageId := 1, 1, 1, 1;
      clock := now;
    }

    /** INSERT INTO users; a taken username violates UNIQUE and inserts nothing. */
    method InsertUser(username: string, displayName: string, avatar: string, bio: string) returns (ok: bool)
      requires Valid()
      modifies this
      ensures Valid() && clock == old(clock)
      ensures ok == !UsernameTaken(old(users), username)
      ensures Snapshot() == if ok then WithUser(old(Snapshot()), username, displayName, avatar, bio) else old(Snapshot())
    {
      ok := !UsernameTaken(users, username);
      if ok {
        ghost var next := Schema.InsertUser(Snapshot(), username, displayName, avatar, bio).value;
        users := users + [User(nextUserId, username, displayName, avatar, bio)];
        nextUserId := nextUserId + 1;
        assert Snapshot() == next;
      }
    }

    /**
     * INSERT INTO posts, returning `lastInsertRowid`; a user_id naming no
     * user violates the foreign key, and the failed statement changes nothing.
     */
    method InsertPost(userId: Option<int>, content: Option<string>, image: Option<string>,
                      postType: string, now: int) returns (id: Option<int>)
      requires Valid() && clock <= now
      modifies this
      ensures Valid()
      ensures id.Some? <==> ForeignKeyHolds(old(users), userId)
      ensures id.Some? ==>
        && id.value == old(nextPostId) && clock == now
        && Snapshot() == WithPost(old(Snapshot()), userId, content, image, postType, now)
      ensures id.None? ==> Snapshot() == old(Snapshot()) && clock == old(clock)
    {
      if ForeignKeyHolds(users, userId) {
        assert Schema.InsertPost(Snapshot(), userId, content, image, postType, now).Some?;
        id := Some(nextPostId);
        posts := posts + [Post(nextPostId, userId, content, image, postType, DefaultLikes, now)];
        nextPostId := nextPostId + 1;
        clock := now;
      } else {
        id := None;
      }
    }

    /** INSERT INTO products, returning `lastInsertRowid`. */
    method InsertProduct(name: string, description: string, price: real, image: string, category: string)
      returns (id: int)
      requires Valid()
      modifies this
      ensures Valid() && clock == old(clock)
      ensures id == old(nextProductId)
      ensures Snapshot() == WithProduct(old(Snapshot()), name, description, price, image, category)
    {
      WithProductKeepsValid(Snapshot(), name, description, price, image, category);
      id := nextProductId;
      products := products + [Product(id, name, description, price, image, category, DefaultRating)];
      nextProductId := nextProductId + 1;
    }

    /** seed(): count the users, and only when there are none insert the demonstration rows. */
    method Seed(now: int)
      requires Valid() && clock <= now
      modifies this
      ensures Valid()
      ensures Snapshot() == AfterSeed(old(Snapshot()), now)
      ensures clock == if |old(users)| == 0 then now else old(clock)
    {
      var userCount := |users|;
      if userCount == 0 {
        var ok := InsertUser(JohnDoe.username, JohnDoe.displayName, JohnDoe.avatar, JohnDoe.bio);
        assert ok;
        ok := InsertUser(JaneDoe.username, JaneDoe.displayName, JaneDoe.avatar, JaneDoe.bio);
        assert users[0].username == JohnDoe.username;
        assert ok;
        SeedUsersStage(old(Snapshot()));
        assert Snapshot() == AddSeedUsers(old(Snapshot()));
        assert users[0].id == 1 && users[1].id == 2;
        var post := InsertPost(Some(1), Some(LaunchText),
                               Some(LaunchImage), "social", now);
        assert post.Some?;
        post := InsertPost(Some(2), Some(CityText),
                           Some(CityImage), "social", now);
        assert post.Some?;
        post := InsertPost(Some(1), Some(HiringText),
                           None, "professional", now);
        assert post.Some?;
        assert Snapshot() == AddSeedPosts(AddSeedUsers(old(Snapshot())), now);
        var id := InsertProduct(HeadphonesName, HeadphonesText, 199.99,
                            HeadphonesImage, "Electronics");
        id := InsertProduct(WatchName, WatchText, 249.50,
                            WatchImage, "Electronics");
        id := InsertProduct(WalletName, WalletText, 45.00,
                            WalletImage, "Accessories");
      }
    }

    /**
     * POST /api/posts: inserts the body as given, with `type || 'social'`,
     * and replies with the new id; an insert the foreign key rejects throws,
     * which Express answers with status 500.
     */
    method CreatePost(body: NewPost, now: int) returns (reply: Reply<int>)
      requires Valid() && clock <= now
      modifies this
      ensures Valid()
      ensures reply == CreatePostReply(old(Snapshot()), body)
      ensures Snapshot() == AfterCreatePost(old(Snapshot()), body, now)
      ensures clock == if reply.Ok? then now else old(clock)
      ensures users == old(users) && products == old(products) && messages == old(messages)
    {
      var id := InsertPost(body.userId, body.content, body.image, StoredType(body.postType), now);
      if id.Some? {
        reply := Ok(id.value);
      } else {
        reply := Fail(500, ForeignKeyFailed);
      }
    }
  }

  /** Booting twice: the second seed finds the users and leaves every table as the first seed left it. */
  method SeedTwice(db: Database, now: int, later: int)
    requires db.Valid() && db.clock <= now <= later
    modifies db
    ensures db.Valid()
    ensures db.Snapshot() == AfterSeed(old(db.Snapshot()), now)
    ensures |db.users| > 0
  {
    db.Seed(now);
    if |old(db.users)| == 0 {
      SeedPopulatesEmptyStore(old(db.Snapshot()), now);
    }
    ghost var once := db.Snapshot();
    db.Seed(later);
    assert db.Snapshot() == once;
  }
}
