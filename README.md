# Nexus demo server: store and API handlers

A model of the backend of the Nexus social/marketplace demo (`server.ts`). The
embedded SQLite database `nexus.db` becomes an in-memory store, the class
`Store.Database`. It holds the four tables `users`, `posts`, `products` and
`messages` as sequences of rows in rowid order. It also keeps one
AUTOINCREMENT counter per table and an abstract clock that never runs
backwards and stands in for `CURRENT_TIMESTAMP`.

- `Schema`: the row types, the column defaults (`type` 'social', `likes` 0,
  `rating` 4.5), the invariant `Valid`, and the effect of one INSERT on the
  tables. `Valid` says that ids are 1, 2, 3, … in insertion order, that each
  counter is one past the last id, that usernames are unique, and that every
  post's `user_id` is NULL or names a stored user. This holds because rows
  are only ever inserted. An insert that violates UNIQUE or the foreign key
  fails and changes nothing (`Schema.InsertUser`, `Schema.InsertPost`).
- `Seeding`: `seed()` as a function of the tables (`AfterSeed`, insert by
  insert, as the source does it). It is split into three stages: users, then
  posts, then products. It comes with an independent list of the rows that
  seeding produces, and lemmas for idempotence and exact contents.
- `Queries`: the three read-only handlers. GET /api/posts is an inner join of
  posts with users, an optional `type` filter and `ORDER BY created_at DESC`.
  GET /api/products and GET /api/users/:username are the other two. The post
  listing's contract relates it to the reference definitions `Listed` and
  `NewestFirst`, and says that each listed row appears exactly once. The user
  lookup's contract relates it to `UsernameTaken`. The product listing is the product table
  itself.
- `Posting`: POST /api/posts, with `type || 'social'` and the new id as
  reply. better-sqlite3 enforces foreign keys by default, so a `user_id`
  that names no user makes the INSERT throw. Express then answers with
  status 500 and no table changes. The lemmas cover the frame, the fresh id,
  the default, the rejected insert and the effect on the listing.
- `Store`: the `Database` class. `Seed` and `CreatePost` change its fields
  by successive inserts. Each is proved equal to the matching `Seeding` or
  `Posting` function of the old state.

SQL NULL and a missing JSON field are `None`. JavaScript truthiness of the
`type` string is `Truthy`: present and not empty. Handler replies are
`Queries.Reply` values: `Ok(body)` (status 200) or `Fail(status, error)`.

Two points where the code is looser than the schema comments suggest, and
where the model follows the code:
- Any truthy `type` is stored. Nothing restricts it to social, professional
  or story.
- Rows with equal `created_at` come back in an order the model leaves open.
  The contract says only that the order is non-increasing. It does not
  promise store order among ties.

## Model

| member | source | states |
|---|---|---|
| `Schema.InsertUser` | server.ts:14-20 | an insert fails exactly when the username is already taken (UNIQUE); a successful insert appends the user with the next id, advances only the user counter, leaves the other tables alone and keeps the invariant |
| `Schema.InsertPost` | server.ts:22-31 | an insert fails exactly when a non-NULL user_id names no stored user (FOREIGN KEY); a successful insert appends the post with the next id, likes 0 and the clock reading, changes nothing else and keeps the invariant |
| `Schema.WithUserAppendsOne` | server.ts:14-20 | an unconstrained INSERT INTO users appends one row with the next id at the end, keeps the earlier rows, and changes no other table or counter |
| `Schema.WithPostAppendsOne` | server.ts:22-31 | an unconstrained INSERT INTO posts appends one row with the next id, likes 0 and the clock reading, and changes nothing else |
| `Schema.WithProductAppendsOne` | server.ts:33-41 | an INSERT INTO products appends one row with the next id and rating 4.5, and changes nothing else |
| `Schema.PostIdsBelowCounter` | server.ts:22-24 | every existing post id lies in 1 .. counter-1, so the next AUTOINCREMENT id is fresh |
| `Schema.DenseIdsDistinct` | server.ts:14-24 | in a valid store user ids are distinct (PRIMARY KEY) and no post row occurs twice |
| `Schema.WithProductKeepsValid` | server.ts:33-41 | inserting a product keeps ids dense and the counter one past the last id |
| `Queries.RowsFor` | server.ts:96-98 | the joined rows of one post are exactly that post paired with each user whose id equals its user_id; none when no user matches, at most one when user ids are distinct |
| `Queries.Join` | server.ts:96-98 | a row is in the inner join iff its post is in the table and it carries the display_name, username and avatar of a user whose id equals the post's user_id; with distinct posts and user ids no row occurs twice |
| `Queries.WhereType` | server.ts:100-101 | keeps exactly the posts whose type equals the given one, and keeps them distinct |
| `Queries.InsertByTime` | server.ts:103 | inserting into a newest-first sequence keeps it newest first and adds exactly that row (multiset) |
| `Queries.ByNewest` | server.ts:103 | the result is ordered by created_at non-increasing and is a permutation of the input |
| `Queries.ListPosts` | server.ts:93-107 | the listing is ordered newest first; a row is listed iff its post is stored, passes the truthy-type filter (no filter when type is falsy) and joins an existing user; in a valid store each such row appears exactly once |
| `Queries.ListedRowCarriesAuthor` | server.ts:96-98 | since user ids are unique, a listed row carries the columns of the one user its user_id names |
| `Queries.FilteredListingIsSubset` | server.ts:100-105 | the filtered listing is a subset of the unfiltered one and holds every unfiltered row of that type; for a non-empty (truthy) type every filtered row has that type, so it is exactly the set of unfiltered rows of that type; for the empty string, which is falsy, the listing is the unfiltered one |
| `Queries.ListProducts` | server.ts:109-112 | every product row, unfiltered, in store order |
| `Queries.FindUser` | server.ts:115 | finds a user with that username exactly when one exists |
| `Queries.GetUser` | server.ts:114-121 | 200 with a user whose username matches iff one exists, otherwise status 404 with error "User not found" |
| `Queries.GetUserUnique` | server.ts:115-117 | since usernames are unique, the user returned is the one stored under that name |
| `Seeding.AfterSeed` | server.ts:53-83 | with at least one user present, seed leaves every table unchanged; afterwards there is always a user, and messages are untouched |
| `Seeding.SeedUsersStage` | server.ts:56-61 | on a valid store with no users, the two user inserts give exactly johndoe (id 1) and janedoe (id 2) and keep the invariant |
| `Seeding.SeedPostsStage` | server.ts:63-71 | once johndoe and janedoe exist, the three post inserts pass the foreign key, append the three seeded posts and keep the invariant |
| `Seeding.SeedProductsStage` | server.ts:73-81 | the three product inserts append the three seeded products and keep the invariant |
| `Seeding.SeedPopulatesEmptyStore` | server.ts:55-81 | with no users, seed adds exactly johndoe and janedoe and appends the three posts and three products, and leaves messages unchanged |
| `Seeding.SeedFreshStore` | server.ts:56-81 | on a new database seed yields 2 users, 3 posts (two social, one professional without image) and 3 products, with ids from 1 |
| `Seeding.SeedKeepsValid` | server.ts:53-83 | seeding keeps the table invariant |
| `Seeding.SeedIdempotent` | server.ts:54-55 | seeding twice equals seeding once, whatever the second clock reading |
| `Seeding.SeededPostsListed` | server.ts:63-71 | the seeded posts' hard-coded user ids 1 and 2 join johndoe and janedoe; the professional filter keeps the third post and drops the first |
| `Seeding.SeedThenGetUser` | server.ts:114-121 | after seeding, "johndoe" is found and "nouser" gets 404 "User not found" |
| `Seeding.SeedThenListProducts` | server.ts:73-81 | after seeding, the product listing is the three products in insert order, each with rating 4.5 |
| `Posting.StoredType` | server.ts:126 | `type \|\| 'social'` is never empty, and is the given type whenever that is truthy |
| `Posting.AfterCreatePost` | server.ts:123-127 | create post never changes users, products or messages; when the foreign key rejects the user_id, nothing changes at all |
| `Posting.NewPostId` | server.ts:128 | in a valid store the id of the next post is positive and above every stored post id |
| `Posting.CreatePostReply` | server.ts:123-128 | the reply is `{id}` exactly when the foreign key holds, with a positive id above every stored one; otherwise status 500 with the FOREIGN KEY message |
| `Posting.CreatePostAppendsOne` | server.ts:123-127 | create post keeps the invariant; when the foreign key holds it appends exactly one post with likes 0 and the body's content and image, and replies with that post's id |
| `Posting.CreatePostRejectsDanglingUser` | server.ts:123-128 | a user_id that names no user leaves every table unchanged and gets status 500 "FOREIGN KEY constraint failed" |
| `Posting.CreatePostTypeDefault` | server.ts:126 | the stored type is the given one when truthy, and 'social' when absent or empty |
| `Posting.CreatePostListing` | server.ts:123-129 | after create post a row is listed iff it was listed before, or it is the new post joined with an existing user and passes the filter |
| `Posting.CreatedPostReadBack` | server.ts:123-129 | a post by an existing user is listed unfiltered and under its stored type, with the new id, content and image as given |
| `Posting.OrphanPostNotListed` | server.ts:124-127 | a post whose user_id is NULL or missing passes the foreign key and is stored with the returned id, but no listing shows it |
| `Posting.CreatedPostIsNewest` | server.ts:29 | with a non-decreasing clock, the unfiltered listing after creating a post by an existing user starts with a row carrying the new timestamp |
| `Store.Database.constructor` | server.ts:13-50 | a new database has four empty tables and counters at 1 |
| `Store.Database.InsertUser` | server.ts:56-61 | inserts the user unless the username is taken, in which case nothing changes |
| `Store.Database.InsertPost` | server.ts:63-71 | appends one post with the next id, likes 0 and the clock reading and returns the id, unless a non-NULL user_id names no user, in which case nothing changes |
| `Store.Database.InsertProduct` | server.ts:73-81 | appends one product with the next id and rating 4.5; returns the id |
| `Store.Database.Seed` | server.ts:53-83 | the new state is `AfterSeed` of the old one, and the invariant is kept |
| `Store.Database.CreatePost` | server.ts:123-129 | the new state is `AfterCreatePost` of the old one and the reply is `CreatePostReply` (the new id, or 500 on a foreign-key failure); users, products and messages are unchanged |
| `Store.SeedTwice` | server.ts:53-84 | a second seed leaves the state the first one produced |

## Left out

- Express wiring, `express.json()`, `res.json` serialisation and `app.listen` are transport only (server.ts:86-90, 145-150). Handler results are `Reply` values and sequences of rows.
- The Vite dev middleware and the production static / SPA fallback (server.ts:131-143) only serve assets.
- The SQL text (`let query` and `+=`) is left out. Its only effect, whether the WHERE clause is added, is modelled by `Truthy`.
- A failed POST /api/posts is modelled as status 500 with the exception message. The HTML error page that Express's default handler sends is not modelled.
- better-sqlite3's internals and the `nexus.db` file are not modelled; only the constraints it enforces (UNIQUE, and FOREIGN KEY, which it switches on by default) are. Storage faults are not modelled either, nor is reopening an existing file or a row order for `SELECT *` other than rowid order.
- `price` and `rating` are exact Dafny reals. No arithmetic is done on them, and the rounding of a binary float is not modelled.
- `CURRENT_TIMESTAMP` is an integer clock reading. Only `posts` has a timestamp column, so only a post insert takes one, and the readings must be non-decreasing. Its second-resolution text form is not modelled.
- Store.Database.Seed: the three seeded posts share one clock reading. The source evaluates CURRENT_TIMESTAMP once per post insert, which usually gives the same second.
- JSON bodies and query strings with non-string values are not modelled. This covers a numeric `type`, a string `user_id` compared under SQLite affinity, and a repeated `?type=` that gives an array. `user_id` is an optional integer and the other fields are optional strings.
- The `messages` table is only a frame field: no operation reads or writes it.
- The schema default 'social' on `posts.type` is never applied by an insert, because every insert supplies a type. The default the model applies is the `type || 'social'` of the handler.
- Concurrency: two processes seeding at the same time are out of scope. Each operation is modelled as one atomic step.
- src/App.tsx is not part of this model (React UI only).
