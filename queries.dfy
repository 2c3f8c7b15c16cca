/**
 * The three read-only route handlers: GET /api/posts, GET /api/products and
 * GET /api/users/:username, as functions of the current tables.
 */
module Queries {
  import opened Wrappers
  import opened Schema

  /** A handler's response: 200 with a body, or an error status with `{error}`. */
  datatype Reply<T> = Ok(body: T) | Fail(status: int, error: string)
  {
    function Status(): int
    {
      if Ok? then 200 else status
    }
  }

  const UserNotFound: string := "User not found"

  /** One row of `SELECT posts.*, users.display_name, users.username, users.avatar`. */
  datatype PostRow = PostRow(post: Post, displayName: string, username: string, avatar: string)

  function RowOf(p: Post, u: User): PostRow
  {
    PostRow(p, u.displayName, u.username, u.avatar)
  }

  /** `row` is the join of its post with user `u` on `posts.user_id = users.id`. */
  predicate AuthoredBy(row: PostRow, u: User)
  {
    row.post.userId == Some(u.id) && row == RowOf(row.post, u)
  }

  /** The WHERE clause is added only for a truthy `type`. */
  predicate Selected(filter: Option<string>, p: Post)
  {
    !Truthy(filter) || p.postType == filter.value
  }

  /** Reference definition of the rows GET /api/posts returns, in any order. */
  ghost predicate Listed(t: Tables, filter: Option<string>, row: PostRow)
  {
    row.post in t.posts && Selected(filter, row.post) && exists u :: u in t.users && AuthoredBy(row, u)
  }

  /** Rows ordered by `created_at`, newest first; ties in any order. */
  predicate NewestFirst(rows: seq<PostRow>)
  {
    forall i, j :: 0 <= i < j < |rows| ==> rows[i].post.createdAt >= rows[j].post.createdAt
  }

  /** No element occurs twice. */
  predicate Distinct<T(==)>(s: seq<T>)
  {
    forall i, j :: 0 <= i < j < |s| ==> s[i] != s[j]
  }

  /**
   * The inner join of one post with every user whose id equals its
   * `user_id`; with distinct user ids that is at most one row.
   */
  function RowsFor(p: Post, users: seq<User>): (r: seq<PostRow>)
    ensures forall row :: row in r <==> row.post == p && exists u :: u in users && AuthoredBy(row, u)
    ensures (forall u :: u in users ==> p.userId != Some(u.id)) ==> r == []
    ensures UserIdsDistinct(users) ==> |r| <= 1
  {
    if users == [] then []
    else
      var head := if p.userId == Some(users[0].id) then [RowOf(p, users[0])] else [];
      var rest := RowsFor(p, users[1..]);
      AuthorsSplit(users);
      DistinctTail(users);
      assert forall row :: row in head <==> row.post == p && AuthoredBy(row, users[0]);
      head + rest
  }

  /** A user of a non-empty table is its first row or one of the rest. */
  lemma AuthorsSplit(users: seq<User>)
    requires users != []
    ensures forall row :: (exists u :: u in users && AuthoredBy(row, u)) <==>
      (AuthoredBy(row, users[0]) || exists u :: u in users[1..] && AuthoredBy(row, u))
  {
    forall row | exists u :: u in users && AuthoredBy(row, u)
      ensures AuthoredBy(row, users[0]) || exists u :: u in users[1..] && AuthoredBy(row, u)
    {
      var u :| u in users && AuthoredBy(row, u);
      if u != users[0] {
        assert u in users[1..];
      }
    }
    forall row, u | u in users[1..] && AuthoredBy(row, u)
      ensures exists u' :: u' in users && AuthoredBy(row, u')
    {
      assert u in users;
    }
  }

  /** With distinct ids, the first user's id is not the id of any later user. */
  lemma DistinctTail(users: seq<User>)
    requires users != []
    ensures UserIdsDistinct(users) ==> UserIdsDistinct(users[1..]) && forall u :: u in users[1..] ==> u.id != users[0].id
  {
    if UserIdsDistinct(users) {
      forall u | u in users[1..]
        ensures u.id != users[0].id
      {
        var k :| 0 <= k < |users[1..]| && users[1..][k] == u;
        assert users[k + 1] == u;
      }
    }
  }

  /**
   * FROM posts JOIN users ON posts.user_id = users.id. With distinct posts
   * and distinct user ids no row occurs twice.
   */
  function Join(posts: seq<Post>, users: seq<User>): (r: seq<PostRow>)
    ensures forall row :: row in r <==> row.post in posts && exists u :: u in users && AuthoredBy(row, u)
    ensures Distinct(posts) && UserIdsDistinct(users) ==> forall row :: multiset(r)[row] <= 1
  {
    if posts == [] then []
    else
      assert forall p :: p in posts <==> p == posts[0] || p in posts[1..];
      var head := RowsFor(posts[0], users);
      var rest := Join(posts[1..], users);
      assert Distinct(posts) && UserIdsDistinct(users) ==> forall row :: multiset(head + rest)[row] <= 1 by {
        if Distinct(posts) && UserIdsDistinct(users) {
          assert Distinct(posts[1..]);
          assert posts[0] !in posts[1..] by {
            forall k | 0 <= k < |posts[1..]|
              ensures posts[1..][k] != posts[0]
            {
              assert posts[1..][k] == posts[k + 1];
            }
          }
          forall row
            ensures multiset(head + rest)[row] <= 1
          {
            assert multiset(head + rest)[row] == multiset(head)[row] + multiset(rest)[row];
            if row.post == posts[0] {
              assert row !in rest;
            } else {
              assert row !in head;
            }
          }
        }
      }
      head + rest
  }

  /** WHERE posts.type = ? keeps exactly the posts of that type, each once if it was stored once. */
  function WhereType(posts: seq<Post>, postType: string): (r: seq<Post>)
    ensures forall p :: p in r <==> p in posts && p.postType == postType
    ensures Distinct(posts) ==> Distinct(r)
  {
    if posts == [] then []
    else
      assert forall p :: p in posts <==> p == posts[0] || p in posts[1..];
      var rest := WhereType(posts[1..], postType);
      assert Distinct(posts) ==> posts[0] !in rest by {
        if Distinct(posts) {
          forall k | 0 <= k < |posts[1..]|
            ensures posts[1..][k] != posts[0]
          {
            assert posts[1..][k] == posts[k + 1];
          }
        }
      }
      (if posts[0].postType == postType then [posts[0]] else []) + rest
  }

  /** The first row of a listing ordered newest first is at least as new as every row. */
  lemma HeadIsNewest(rows: seq<PostRow>)
    requires NewestFirst(rows) && rows != []
    ensures forall x :: x in rows ==> x.post.createdAt <= rows[0].post.createdAt
  {
    forall x | x in rows
      ensures x.post.createdAt <= rows[0].post.createdAt
    {
      var k :| 0 <= k < |rows| && rows[k] == x;
      if k > 0 {
        assert rows[0].post.createdAt >= rows[k].post.createdAt;
      }
    }
  }

  /** A row at least as new as every row of a newest-first sequence may go in front of it. */
  lemma PrependNewest(x: PostRow, rows: seq<PostRow>)
    requires NewestFirst(rows)
    requires forall y :: y in rows ==> y.post.createdAt <= x.post.createdAt
    ensures NewestFirst([x] + rows)
  {
    forall i, j | 0 <= i < j < |[x] + rows|
      ensures ([x] + rows)[i].post.createdAt >= ([x] + rows)[j].post.createdAt
    {
      if i == 0 {
        assert ([x] + rows)[j] == rows[j - 1];
      }
    }
  }

  /** Places `row` into rows already ordered newest first. */
  function InsertByTime(row: PostRow, rows: seq<PostRow>): (r: seq<PostRow>)
    requires NewestFirst(rows)
    ensures NewestFirst(r)
    ensures multiset(r) == multiset(rows) + multiset{row}
  {
    if rows == [] || rows[0].post.createdAt <= row.post.createdAt then
      assert forall x :: x in rows ==> x.post.createdAt <= row.post.createdAt by {
        if rows != [] {
          HeadIsNewest(rows);
        }
      }
      PrependNewest(row, rows);
      [row] + rows
    else
      var rest := InsertByTime(row, rows[1..]);
      KeepHeadInFront(row, rows, rest);
      [rows[0]] + rest
  }

  /** When `row` goes behind the first row, that row stays in front of the rest. */
  lemma KeepHeadInFront(row: PostRow, rows: seq<PostRow>, rest: seq<PostRow>)
    requires NewestFirst(rows) && rows != [] && row.post.createdAt < rows[0].post.createdAt
    requires NewestFirst(rest) && multiset(rest) == multiset(rows[1..]) + multiset{row}
    ensures NewestFirst([rows[0]] + rest)
    ensures multiset([rows[0]] + rest) == multiset(rows) + multiset{row}
  {
    assert rows == [rows[0]] + rows[1..];
    HeadIsNewest(rows);
    forall x | x in rest
      ensures x.post.createdAt <= rows[0].post.createdAt
    {
      assert x in multiset(rest);
      assert x == row || x in rows[1..];
    }
    PrependNewest(rows[0], rest);
  }

  /** ORDER BY created_at DESC */
  function ByNewest(rows: seq<PostRow>): (r: seq<PostRow>)
    ensures NewestFirst(r)
    ensures multiset(r) == multiset(rows)
  {
    if rows == [] then []
    else
      assert rows == [rows[0]] + rows[1..];
      InsertByTime(rows[0], ByNewest(rows[1..]))
  }

  /** A permutation of a sequence without repeats holds each of its members exactly once. */
  lemma CountsAreMembership(rows: seq<PostRow>, joined: seq<PostRow>, t: Tables, filter: Option<string>)
    requires multiset(rows) == multiset(joined)
    requires forall row :: row in joined <==> Listed(t, filter, row)
    ensures forall row :: row in rows <==> Listed(t, filter, row)
    ensures (forall row :: multiset(joined)[row] <= 1) ==>
      forall row :: multiset(rows)[row] == if Listed(t, filter, row) then 1 else 0
  {
    forall row
      ensures row in rows <==> row in joined
    {
      assert row in rows <==> multiset(rows)[row] > 0;
      assert row in joined <==> multiset(joined)[row] > 0;
    }
  }

  /** The posts the WHERE clause keeps: all of them for a falsy `type`. */
  function FilteredPosts(t: Tables, filter: Option<string>): seq<Post>
  {
    if Truthy(filter) then WhereType(t.posts, filter.value) else t.posts
  }

  /** Which rows the join of the filtered posts holds, and in a valid store how often. */
  lemma JoinedRows(t: Tables, filter: Option<string>)
    ensures var joined := Join(FilteredPosts(t, filter), t.users);
      && (forall row :: row in joined <==> Listed(t, filter, row))
      && (Valid(t) ==> forall row :: multiset(joined)[row] <= 1)
  {
    if Valid(t) {
      DenseIdsDistinct(t);
      assert Distinct(t.posts);
    }
  }

  /**
   * GET /api/posts?type=...: newest first; on a valid store every listed
   * row occurs exactly once and every other row not at all.
   */
  function ListPosts(t: Tables, filter: Option<string>): (r: seq<PostRow>)
    ensures NewestFirst(r)
    ensures forall row :: row in r <==> Listed(t, filter, row)
    ensures Valid(t) ==> forall row :: multiset(r)[row] == if Listed(t, filter, row) then 1 else 0
  {
    var joined := Join(FilteredPosts(t, filter), t.users);
    var rows := ByNewest(joined);
    JoinedRows(t, filter);
    CountsAreMembership(rows, joined, t, filter);
    rows
  }

  /** GET /api/products: every row of `products`, unfiltered, in rowid order. */
  function ListProducts(t: Tables): (r: seq<Product>)
    ensures |r| == |t.products| && forall i :: 0 <= i < |r| ==> r[i] == t.products[i]
  {
    t.products
  }

  /** `.get()` on SELECT * FROM users WHERE username = ?: the first matching row. */
  function FindUser(users: seq<User>, username: string): (r: Option<User>)
    ensures r.Some? ==> r.value in users && r.value.username == username
    ensures r.None? <==> !UsernameTaken(users, username)
  {
    if users == [] then None
    else if users[0].username == username then Some(users[0])
    else
      var r := FindUser(users[1..], username);
      assert UsernameTaken(users[1..], username) ==> UsernameTaken(users, username) by {
        if UsernameTaken(users[1..], username) {
          var i :| 0 <= i < |users[1..]| && users[1..][i].username == username;
          assert users[i + 1].username == username;
        }
      }
      r
  }

  /** GET /api/users/:username */
  function GetUser(t: Tables, username: string): (r: Reply<User>)
    ensures r.Ok? <==> UsernameTaken(t.users, username)
    ensures r.Ok? ==> r.Status() == 200 && r.body in t.users && r.body.username == username
    ensures r.Fail? ==> r.Status() == 404 && r.error == UserNotFound
  {
    match FindUser(t.users, username)
    case Some(u) => Ok(u)
    case None => Fail(404, UserNotFound)
  }

  /** Usernames are unique, so the user found is the only one with that name. */
  lemma GetUserUnique(t: Tables, u: User)
    requires UniqueUsernames(t.users)
    requires u in t.users
    ensures GetUser(t, u.username) == Ok(u)
  {
    var i :| 0 <= i < |t.users| && t.users[i] == u;
    assert UsernameTaken(t.users, u.username);
    var r := GetUser(t, u.username);
    var j :| 0 <= j < |t.users| && t.users[j] == r.body;
    assert i == j;
  }

  /** User ids are unique, so a listed row carries the columns of the one user with its `user_id`. */
  lemma ListedRowCarriesAuthor(t: Tables, filter: Option<string>, row: PostRow, u: User)
    requires Valid(t)
    requires row in ListPosts(t, filter)
    requires u in t.users && row.post.userId == Some(u.id)
    ensures row == RowOf(row.post, u)
  {
    var v :| v in t.users && AuthoredBy(row, v);
    var i :| 0 <= i < |t.users| && t.users[i] == u;
    var j :| 0 <= j < |t.users| && t.users[j] == v;
    assert i == j;
  }

  /**
   * A non-empty type returns the unfiltered rows of that type; the empty
   * string is falsy and filters nothing.
   */
  lemma FilteredListingIsSubset(t: Tables, postType: string)
    ensures forall row :: row in ListPosts(t, Some(postType)) ==> row in ListPosts(t, None)
    ensures forall row :: row in ListPosts(t, None) && row.post.postType == postType ==> row in ListPosts(t, Some(postType))
    ensures postType != "" ==> forall row :: row in ListPosts(t, Some(postType)) ==> row.post.postType == postType
    ensures postType == "" ==> forall row :: row in ListPosts(t, Some(postType)) <==> row in ListPosts(t, None)
  {
  }
}
