/**
 * The four tables of the `nexus` database (users, posts, products, messages),
 * as sequences of rows in rowid order, together with each table's
 * AUTOINCREMENT counter, and the effect of one INSERT on them.
 */
module Schema {
  import opened Wrappers

  /** A row of `users`; `username` is UNIQUE. */
  datatype User = User(id: int, username: string, displayName: string, avatar: string, bio: string)

  /**
   * A row of `posts`. `userId`, `content` and `image` are NULL (None) when
   * the insert supplied no value; `createdAt` is the clock reading taken
   * at insert time.
   */
  datatype Post = Post(
    id: int,
    userId: Option<int>,
    content: Option<string>,
    image: Option<string>,
    postType: string,
    likes: int,
    createdAt: int)

  /** A row of `products`; REAL columns are modelled as exact reals. */
  datatype Product = Product(
    id: int,
    name: string,
    description: string,
    price: real,
    image: string,
    category: string,
    rating: real)

  /** A row of `messages`; nothing reads or writes this table. */
  datatype Message = Message(
    id: int,
    senderId: Option<int>,
    receiverId: Option<int>,
    content: Option<string>,
    createdAt: int)

  /** Column defaults of the schema. */
  const DefaultPostType: string := "social"
  const DefaultLikes: int := 0
  const DefaultRating: real := 4.5

  /** JavaScript truthiness of an optional string: present and non-empty. */
  predicate Truthy(s: Option<string>)
  {
    s.Some? && s.value != ""
  }

  /** The whole database at one moment. */
  datatype Tables = Tables(
    users: seq<User>,
    posts: seq<Post>,
    products: seq<Product>,
    messages: seq<Message>,
    nextUserId: int,
    nextPostId: int,
    nextProductId: int,
    nextMessageId: int)

  /** The database right after CREATE TABLE on a new file. */
  function Empty(): Tables
  {
    Tables([], [], [], [], 1, 1, 1, 1)
  }

  /**
   * Rows are only ever inserted and AUTOINCREMENT starts at 1, so the i-th
   * row of each table has id i + 1 and the counter is one past the last id.
   */
  predicate UserIdsDense(users: seq<User>)
  {
    forall i :: 0 <= i < |users| ==> users[i].id == i + 1
  }

  predicate PostIdsDense(posts: seq<Post>)
  {
    forall i :: 0 <= i < |posts| ==> posts[i].id == i + 1
  }

  predicate ProductIdsDense(products: seq<Product>)
  {
    forall i :: 0 <= i < |products| ==> products[i].id == i + 1
  }

  predicate MessageIdsDense(messages: seq<Message>)
  {
    forall i :: 0 <= i < |messages| ==> messages[i].id == i + 1
  }

  /** The UNIQUE constraint on `users.username`. */
  predicate UniqueUsernames(users: seq<User>)
  {
    forall i, j :: 0 <= i < j < |users| ==> users[i].username != users[j].username
  }

  predicate UsernameTaken(users: seq<User>, username: string)
  {
    exists i :: 0 <= i < |users| && users[i].username == username
  }

  /** User ids are pairwise distinct (the PRIMARY KEY). */
  predicate UserIdsDistinct(users: seq<User>)
  {
    forall i, j :: 0 <= i < j < |users| ==> users[i].id != users[j].id
  }

  /**
   * FOREIGN KEY(user_id) REFERENCES users(id), as better-sqlite3 enforces it:
   * a NULL user_id passes, any other value must be the id of a stored user.
   */
  predicate ForeignKeyHolds(users: seq<User>, userId: Option<int>)
  {
    userId.None? || exists i :: 0 <= i < |users| && users[i].id == userId.value
  }

  predicate Valid(t: Tables)
  {
    && UserIdsDense(t.users) && t.nextUserId == |t.users| + 1
    && PostIdsDense(t.posts) && t.nextPostId == |t.posts| + 1
    && ProductIdsDense(t.products) && t.nextProductId == |t.products| + 1
    && MessageIdsDense(t.messages) && t.nextMessageId == |t.messages| + 1
    && UniqueUsernames(t.users)
    && (forall i :: 0 <= i < |t.posts| ==> ForeignKeyHolds(t.users, t.posts[i].userId))
  }

  /** INSERT INTO users without constraints. */
  function WithUser(t: Tables, username: string, displayName: string, avatar: string, bio: string): Tables
  {
    t.(users := t.users + [User(t.nextUserId, username, displayName, avatar, bio)],
       nextUserId := t.nextUserId + 1)
  }

  /** INSERT INTO users under the UNIQUE constraint: fails on a taken username. */
  function InsertUser(t: Tables, username: string, displayName: string, avatar: string, bio: string): (r: Option<Tables>)
    ensures r.None? <==> UsernameTaken(t.users, username)
    ensures r.Some? ==>
      && r.value.users == t.users + [User(t.nextUserId, username, displayName, avatar, bio)]
      && r.value.nextUserId == t.nextUserId + 1
      && r.value.posts == t.posts && r.value.products == t.products && r.value.messages == t.messages
      && r.value.nextPostId == t.nextPostId && r.value.nextProductId == t.nextProductId
      && r.value.nextMessageId == t.nextMessageId
    ensures Valid(t) && r.Some? ==> Valid(r.value)
  {
    if UsernameTaken(t.users, username) then None
    else
      var s := WithUser(t, username, displayName, avatar, bio);
      assert Valid(t) ==> forall i :: 0 <= i < |s.posts| ==> ForeignKeyHolds(s.users, s.posts[i].userId) by {
        if Valid(t) {
          forall i | 0 <= i < |s.posts|
            ensures ForeignKeyHolds(s.users, s.posts[i].userId)
          {
            assert ForeignKeyHolds(t.users, t.posts[i].userId);
            if s.posts[i].userId.Some? {
              var k :| 0 <= k < |t.users| && t.users[k].id == t.posts[i].userId.value;
              assert s.users[k] == t.users[k];
            }
          }
        }
      }
      Some(s)
  }

  /** INSERT INTO posts without constraints; `likes` takes its default and `createdAt` the clock reading. */
  function WithPost(t: Tables, userId: Option<int>, content: Option<string>, image: Option<string>,
                    postType: string, now: int): Tables
  {
    t.(posts := t.posts + [Post(t.nextPostId, userId, content, image, postType, DefaultLikes, now)],
       nextPostId := t.nextPostId + 1)
  }

  /** INSERT INTO posts under the foreign key: fails when a non-NULL user_id names no user. */
  function InsertPost(t: Tables, userId: Option<int>, content: Option<string>, image: Option<string>,
                      postType: string, now: int): (r: Option<Tables>)
    ensures r.None? <==> !ForeignKeyHolds(t.users, userId)
    ensures r.Some? ==>
      && r.value.posts == t.posts + [Post(t.nextPostId, userId, content, image, postType, 0, now)]
      && r.value.nextPostId == t.nextPostId + 1
      && r.value.users == t.users && r.value.products == t.products && r.value.messages == t.messages
      && r.value.nextUserId == t.nextUserId && r.value.nextProductId == t.nextProductId
      && r.value.nextMessageId == t.nextMessageId
    ensures Valid(t) && r.Some? ==> Valid(r.value)
  {
    if !ForeignKeyHolds(t.users, userId) then None
    else Some(WithPost(t, userId, content, image, postType, now))
  }

  /** INSERT INTO products; `rating` takes its default. */
  function WithProduct(t: Tables, name: string, description: string, price: real,
                       image: string, category: string): Tables
  {
    t.(products := t.products + [Product(t.nextProductId, name, description, price, image, category, DefaultRating)],
       nextProductId := t.nextProductId + 1)
  }

  /** INSERT INTO users appends one row with the next id and changes nothing else. */
  lemma WithUserAppendsOne(t: Tables, username: string, displayName: string, avatar: string, bio: string)
    ensures var r := WithUser(t, username, displayName, avatar, bio);
      && |r.users| == |t.users| + 1 && r.users[..|t.users|] == t.users
      && r.users[|t.users|] == User(t.nextUserId, username, displayName, avatar, bio)
      && r.nextUserId == t.nextUserId + 1
      && r.posts == t.posts && r.products == t.products && r.messages == t.messages
      && r.nextPostId == t.nextPostId && r.nextProductId == t.nextProductId && r.nextMessageId == t.nextMessageId
  {
  }

  /** INSERT INTO posts appends one row with the next id, likes 0 and the clock reading, and changes nothing else. */
  lemma WithPostAppendsOne(t: Tables, userId: Option<int>, content: Option<string>, image: Option<string>,
                           postType: string, now: int)
    ensures var r := WithPost(t, userId, content, image, postType, now);
      && |r.posts| == |t.posts| + 1 && r.posts[..|t.posts|] == t.posts
      && r.posts[|t.posts|] == Post(t.nextPostId, userId, content, image, postType, 0, now)
      && r.nextPostId == t.nextPostId + 1
      && r.users == t.users && r.products == t.products && r.messages == t.messages
      && r.nextUserId == t.nextUserId && r.nextProductId == t.nextProductId && r.nextMessageId == t.nextMessageId
  {
  }

  /** INSERT INTO products appends one row with the next id and rating 4.5, and changes nothing else. */
  lemma WithProductAppendsOne(t: Tables, name: string, description: string, price: real,
                              image: string, category: string)
    ensures var r := WithProduct(t, name, description, price, image, category);
      && |r.products| == |t.products| + 1 && r.products[..|t.products|] == t.products
      && r.products[|t.products|] == Product(t.nextProductId, name, description, price, image, category, 4.5)
      && r.nextProductId == t.nextProductId + 1
      && r.users == t.users && r.posts == t.posts && r.messages == t.messages
      && r.nextUserId == t.nextUserId && r.nextPostId == t.nextPostId && r.nextMessageId == t.nextMessageId
  {
  }

  /** Every id already in `posts` is below the counter, so the next one is fresh. */
  lemma PostIdsBelowCounter(t: Tables)
    requires Valid(t)
    ensures forall p :: p in t.posts ==> 1 <= p.id < t.nextPostId
  {
    forall p | p in t.posts
      ensures 1 <= p.id < t.nextPostId
    {
      var i :| 0 <= i < |t.posts| && t.posts[i] == p;
    }
  }

  /** Dense ids are distinct ids, so the posts of a valid store are pairwise distinct rows. */
  lemma DenseIdsDistinct(t: Tables)
    requires Valid(t)
    ensures UserIdsDistinct(t.users)
    ensures forall i, j :: 0 <= i < j < |t.posts| ==> t.posts[i] != t.posts[j]
  {
  }

  lemma WithProductKeepsValid(t: Tables, name: string, description: string, price: real,
                              image: string, category: string)
    requires Valid(t)
    ensures Valid(WithProduct(t, name, description, price, image, category))
  {
  }
}
