/**
 * The one-time seed: two users, three posts and three products, inserted
 * only while `users` is empty. AfterSeed follows the source insert by
 * insert, in three stages; SeedUsers, SeedPosts and SeedProducts list the
 * resulting rows independently.
 */
module Seeding {
  import opened Wrappers
  import opened Schema
  import opened Queries

  /** The literal text of the seeded posts and products. */
  const LaunchText: string := "Just launched my new project on Nexus! #tech #launch"
  const LaunchImage: string := "https://picsum.photos/seed/project/800/600"
  const CityText: string := "Beautiful morning in the city."
  const CityImage: string := "https://picsum.photos/seed/city/800/600"
  const HiringText: string := "Looking for a Senior React Developer to join our team! #hiring #jobs"
  const HeadphonesName: string := "Wireless Headphones"
  const HeadphonesText: string := "High-quality noise-canceling headphones."
  const HeadphonesImage: string := "https://picsum.photos/seed/headphones/400"
  const WatchName: string := "Smart Watch"
  const WatchText: string := "Track your fitness and stay connected."
  const WatchImage: string := "https://picsum.photos/seed/watch/400"
  const WalletName: string := "Leather Wallet"
  const WalletText: string := "Classic slim design made from genuine leather."
  const WalletImage: string := "https://picsum.photos/seed/wallet/400"

  /** The two user inserts. */
  function AddSeedUsers(t: Tables): Tables
  {
    var t1 := WithUser(t, JohnDoe.username, JohnDoe.displayName, JohnDoe.avatar, JohnDoe.bio);
    WithUser(t1, JaneDoe.username, JaneDoe.displayName, JaneDoe.avatar, JaneDoe.bio)
  }

  /** The three post inserts; the third supplies no image. */
  function AddSeedPosts(t: Tables, now: int): Tables
  {
    var t1 := WithPost(t, Some(1), Some(LaunchText),
                       Some(LaunchImage), "social", now);
    var t2 := WithPost(t1, Some(2), Some(CityText),
                       Some(CityImage), "social", now);
    WithPost(t2, Some(1), Some(HiringText),
             None, "professional", now)
  }

  /** The three product inserts; `rating` is left to its default. */
  function AddSeedProducts(t: Tables): Tables
  {
    var t1 := WithProduct(t, HeadphonesName, HeadphonesText, 199.99,
                          HeadphonesImage, "Electronics");
    var t2 := WithProduct(t1, WatchName, WatchText, 249.50,
                          WatchImage, "Electronics");
    WithProduct(t2, WalletName, WalletText, 45.00,
                WalletImage, "Accessories")
  }

  /** The effect of seed(), given the one clock reading its inserts take. */
  function AfterSeed(t: Tables, now: int): (r: Tables)
    ensures |t.users| != 0 ==> r == t
    ensures |r.users| > 0 && r.messages == t.messages
  {
    if |t.users| != 0 then t
    else AddSeedProducts(AddSeedPosts(AddSeedUsers(t), now))
  }

  const JohnDoe: User := User(1, "johndoe", "John Doe", "https://picsum.photos/seed/john/200", "Tech enthusiast & traveler")
  const JaneDoe: User := User(2, "janedoe", "Jane Smith", "https://picsum.photos/seed/jane/200", "Designer & Coffee Lover")

  function SeedUsers(): seq<User>
  {
    [JohnDoe, JaneDoe]
  }

  /** The seeded posts when the first one gets id `first`. */
  function SeedPosts(first: int, now: int): seq<Post>
  {
    [ Post(first, Some(1), Some(LaunchText),
           Some(LaunchImage), "social", 0, now),
      Post(first + 1, Some(2), Some(CityText),
           Some(CityImage), "social", 0, now),
      Post(first + 2, Some(1), Some(HiringText),
           None, "professional", 0, now) ]
  }

  /** The seeded products when the first one gets id `first`. */
  function SeedProducts(first: int): seq<Product>
  {
    [ Product(first, HeadphonesName, HeadphonesText, 199.99,
              HeadphonesImage, "Electronics", 4.5),
      Product(first + 1, WatchName, WatchText, 249.50,
              WatchImage, "Electronics", 4.5),
      Product(first + 2, WalletName, WalletText, 45.00,
              WalletImage, "Accessories", 4.5) ]
  }

  lemma SeedUsersStage(t: Tables)
    requires Valid(t) && t.users == []
    ensures AddSeedUsers(t) == t.(users := SeedUsers(), nextUserId := 3)
    ensures Valid(AddSeedUsers(t))
  {
    assert forall i :: 0 <= i < |t.posts| ==> t.posts[i].userId == None;
  }

  lemma SeedPostsStage(t: Tables, now: int)
    requires Valid(t) && t.users == SeedUsers()
    ensures AddSeedPosts(t, now) == t.(posts := t.posts + SeedPosts(t.nextPostId, now), nextPostId := t.nextPostId + 3)
    ensures Valid(AddSeedPosts(t, now))
  {
    var s := AddSeedPosts(t, now);
    assert s.posts == t.posts + SeedPosts(t.nextPostId, now);
    assert ForeignKeyHolds(t.users, Some(1)) && ForeignKeyHolds(t.users, Some(2)) by {
      assert t.users[0].id == 1 && t.users[1].id == 2;
    }
    forall i | 0 <= i < |s.posts|
      ensures ForeignKeyHolds(s.users, s.posts[i].userId)
    {
      if i < |t.posts| {
        assert s.posts[i] == t.posts[i];
      }
    }
  }

  lemma SeedProductsStage(t: Tables)
    requires Valid(t)
    ensures AddSeedProducts(t) == t.(products := t.products + SeedProducts(t.nextProductId), nextProductId := t.nextProductId + 3)
    ensures Valid(AddSeedProducts(t))
  {
  }

  /**
   * On a store with no users, seed adds exactly the two users, appends the
   * three posts and three products, and leaves `messages` alone.
   */
  lemma SeedPopulatesEmptyStore(t: Tables, now: int)
    requires Valid(t) && t.users == []
    ensures var s := AfterSeed(t, now);
      && s.users == SeedUsers()
      && s.posts == t.posts + SeedPosts(t.nextPostId, now)
      && s.products == t.products + SeedProducts(t.nextProductId)
      && s.messages == t.messages
      && Valid(s)
  {
    SeedUsersStage(t);
    var t1 := AddSeedUsers(t);
    SeedPostsStage(t1, now);
    SeedProductsStage(AddSeedPosts(t1, now));
  }

  /** Seeding a new database gives 2 users, 3 posts (two social, one professional without image) and 3 products. */
  lemma SeedFreshStore(now: int)
    ensures var s := AfterSeed(Empty(), now);
      && s == Tables(SeedUsers(), SeedPosts(1, now), SeedProducts(1), [], 3, 4, 4, 1)
      && |s.users| == 2 && |s.posts| == 3 && |s.products| == 3
      && s.posts[0].postType == "social" && s.posts[1].postType == "social"
      && s.posts[2].postType == "professional" && s.posts[2].image == None
  {
    SeedPopulatesEmptyStore(Empty(), now);
  }

  lemma {:induction false} SeedKeepsValid(t: Tables, now: int)
    requires Valid(t)
    ensures Valid(AfterSeed(t, now))
  {
    if t.users == [] {
      SeedPopulatesEmptyStore(t, now);
    }
  }

  /** Running seed a second time, at any later clock reading, changes nothing. */
  lemma SeedIdempotent(t: Tables, now: int, later: int)
    ensures AfterSeed(AfterSeed(t, now), later) == AfterSeed(t, now)
  {
  }

  /** Every seeded post joins its author, so the unfiltered listing shows all three. */
  lemma SeededPostsListed(now: int)
    ensures var s := AfterSeed(Empty(), now);
      && Listed(s, None, RowOf(s.posts[0], JohnDoe))
      && Listed(s, None, RowOf(s.posts[1], JaneDoe))
      && Listed(s, None, RowOf(s.posts[2], JohnDoe))
      && Listed(s, Some("professional"), RowOf(s.posts[2], JohnDoe))
      && !Listed(s, Some("professional"), RowOf(s.posts[0], JohnDoe))
  {
    SeedFreshStore(now);
    var s := AfterSeed(Empty(), now);
    assert JohnDoe in s.users && JaneDoe in s.users by {
      assert s.users[0] == JohnDoe && s.users[1] == JaneDoe;
    }
    assert s.posts[0] in s.posts && s.posts[1] in s.posts && s.posts[2] in s.posts;
    assert AuthoredBy(RowOf(s.posts[0], JohnDoe), JohnDoe);
    assert AuthoredBy(RowOf(s.posts[1], JaneDoe), JaneDoe);
    assert AuthoredBy(RowOf(s.posts[2], JohnDoe), JohnDoe);
  }

  /** After seeding, johndoe is found and an unknown handle is a 404. */
  lemma SeedThenGetUser(now: int)
    ensures GetUser(AfterSeed(Empty(), now), "johndoe") == Ok(JohnDoe)
    ensures GetUser(AfterSeed(Empty(), now), "nouser") == Fail(404, "User not found")
  {
    SeedFreshStore(now);
    GetUserUnique(AfterSeed(Empty(), now), JohnDoe);
  }

  /** After seeding, the product listing is the three seeded products, each with the default rating. */
  lemma SeedThenListProducts(now: int)
    ensures var r := ListProducts(AfterSeed(Empty(), now));
      r == SeedProducts(1) && forall i :: 0 <= i < |r| ==> r[i].rating == DefaultRating
  {
    SeedFreshStore(now);
  }
}
