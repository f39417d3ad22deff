/**
 * The SQL database behind the Azure Functions: the Users, Photos, Comments
 * and Likes tables, each statement the handlers issue as a function from
 * tables to tables, and the Db object the handlers update in place.
 *
 * Keys are IDENTITY columns: a new row takes the next unused key. Foreign
 * keys, NOT NULL constraints and column defaults other than those named
 * here are not part of the repository and are not modelled.
 */
module Store {
  import opened Wrappers

  type UserId = nat
  type PhotoId = nat
  type CommentId = nat

  const ConsumerRole: string := "consumer"
  const CreatorRole: string := "creator"
  const AdminRole: string := "admin"

  /** The three roles the application knows. */
  predicate IsRole(r: string) {
    r == ConsumerRole || r == CreatorRole || r == AdminRole
  }

  /** What a verified Google ID token says about its holder. */
  datatype Identity = Identity(googleId: string, email: string, name: string, picture: string)

  /** A row of Users. */
  datatype User = User(googleId: string, email: string, name: string, picture: string, role: string, createdAt: nat)

  /** A row of Photos; the text columns are nullable. */
  datatype Photo = Photo(
    userId: UserId,
    title: Option<string>, caption: Option<string>, location: Option<string>,
    imageUrl: Option<string>, thumbnailUrl: Option<string>,
    views: nat, likes: int, isPublished: bool, createdAt: nat, updatedAt: nat)

  /** A row of Comments. */
  datatype Comment = Comment(photoId: PhotoId, userId: UserId, text: string, createdAt: nat)

  /** A row of Likes: one user liking one photo. */
  datatype LikeKey = LikeKey(photoId: PhotoId, userId: UserId)

  /** The columns an upload supplies. */
  datatype PhotoFields = PhotoFields(
    title: Option<string>, caption: Option<string>, location: Option<string>,
    imageUrl: Option<string>, thumbnailUrl: Option<string>)

  /**
   * IsPublished of a freshly inserted photo. No handler sets the column and
   * every listing filters on it, so the column default is taken to be 1.
   */
  const PublishedOnInsert: bool := true

  /** The row the sign-in handlers insert for an unknown Google account. */
  function NewConsumer(g: Identity, now: nat): User {
    User(g.googleId, g.email, g.name, g.picture, ConsumerRole, now)
  }

  /** The row an upload inserts: no views, no likes, created and updated now. */
  function NewPhoto(owner: UserId, f: PhotoFields, now: nat): Photo {
    Photo(owner, f.title, f.caption, f.location, f.imageUrl, f.thumbnailUrl, 0, 0, PublishedOnInsert, now, now)
  }

  datatype Tables = Tables(
    users: map<UserId, User>,
    photos: map<PhotoId, Photo>,
    comments: map<CommentId, Comment>,
    likes: set<LikeKey>,
    nextUserId: nat,
    nextPhotoId: nat,
    nextCommentId: nat)
  {
    /** Every key is below its table's next IDENTITY value and GoogleId is unique. */
    ghost predicate WellFormed() {
      (forall id :: id in users ==> id < nextUserId) &&
      (forall id :: id in photos ==> id < nextPhotoId) &&
      (forall id :: id in comments ==> id < nextCommentId) &&
      (forall a, b :: a in users && b in users && users[a].googleId == users[b].googleId ==> a == b)
    }

    /** SELECT * FROM Users WHERE GoogleId = @googleId. */
    ghost function UserByGoogleId(g: string): (r: Option<UserId>)
      ensures r.Some? ==> r.value in users && users[r.value].googleId == g
      ensures r.None? ==> forall id :: id in users ==> users[id].googleId != g
    {
      if exists id :: id in users && users[id].googleId == g then
        var id :| id in users && users[id].googleId == g;
        Some(id)
      else
        None
    }

    /** The rows of Likes for photo `p`. */
    function LikesOf(p: PhotoId): set<LikeKey> {
      set k | k in likes && k.photoId == p
    }

    /** Every photo's Likes column equals the number of its rows in Likes. */
    ghost predicate LikesConsistent() {
      forall p :: p in photos ==> photos[p].likes == |LikesOf(p)|
    }

    /** INSERT INTO Users ... OUTPUT INSERTED.* */
    function InsertUser(u: User): Tables {
      this.(users := users[nextUserId := u], nextUserId := nextUserId + 1)
    }

    /** UPDATE Users SET Role = @role WHERE UserId = @id. */
    function SetRole(id: UserId, role: string): Tables {
      if id in users then this.(users := users[id := users[id].(role := role)]) else this
    }

    /** UPDATE Photos SET Views = Views + 1 WHERE PhotoId = @id. */
    function AddView(id: PhotoId): Tables {
      if id in photos then this.(photos := photos[id := photos[id].(views := photos[id].views + 1)]) else this
    }

    /** UPDATE Photos SET Likes = Likes + @delta WHERE PhotoId = @id. */
    function AddLikes(id: PhotoId, delta: int): Tables {
      if id in photos then this.(photos := photos[id := photos[id].(likes := photos[id].likes + delta)]) else this
    }

    /** INSERT INTO Likes (PhotoId, UserId). */
    function InsertLike(k: LikeKey): Tables {
      this.(likes := likes + {k})
    }

    /** DELETE FROM Likes WHERE PhotoId = @photoId AND UserId = @userId. */
    function DeleteLike(k: LikeKey): Tables {
      this.(likes := likes - {k})
    }

    /** INSERT INTO Comments ... OUTPUT INSERTED.CommentId. */
    function InsertComment(c: Comment): Tables {
      this.(comments := comments[nextCommentId := c], nextCommentId := nextCommentId + 1)
    }

    /** DELETE FROM Comments WHERE CommentId = @id. */
    function DeleteComment(id: CommentId): Tables {
      this.(comments := comments - {id})
    }

    /** INSERT INTO Photos ... OUTPUT INSERTED.PhotoId. */
    function InsertPhoto(p: Photo): Tables {
      this.(photos := photos[nextPhotoId := p], nextPhotoId := nextPhotoId + 1)
    }

    /** UPDATE Photos SET Title, Caption, Location, UpdatedAt = now WHERE PhotoId = @id. */
    function EditPhoto(id: PhotoId, title: Option<string>, caption: Option<string>, location: Option<string>, now: nat): Tables {
      if id in photos then
        this.(photos := photos[id := photos[id].(title := title, caption := caption, location := location, updatedAt := now)])
      else this
    }

    /** DELETE FROM Photos WHERE PhotoId = @id. */
    function DeletePhoto(id: PhotoId): Tables {
      this.(photos := photos - {id})
    }
  }

  /** The database before any request. */
  const EmptyTables: Tables := Tables(map[], map[], map[], {}, 1, 1, 1)

  // ---------------------------------------------------------------------------
  // Facts about single statements
  // ---------------------------------------------------------------------------

  /** Inserting an account that is not there yet keeps the tables well formed and adds exactly one user. */
  lemma InsertUserAddsOne(t: Tables, u: User)
    requires t.WellFormed() && t.UserByGoogleId(u.googleId).None?
    ensures var t' := t.InsertUser(u);
      t'.WellFormed() && t.nextUserId !in t.users &&
      t'.users.Keys == t.users.Keys + {t.nextUserId} && |t'.users| == |t.users| + 1 &&
      t'.UserByGoogleId(u.googleId) == Some(t.nextUserId)
  {
    InsertedUserKeys(t, u);
    InsertedGoogleIdUnique(t, u);
    InsertedUserFound(t, u);
  }

  /** The insert adds one key, the next IDENTITY value, which was unused. */
  lemma InsertedUserKeys(t: Tables, u: User)
    requires t.WellFormed()
    ensures var t' := t.InsertUser(u);
      t.nextUserId !in t.users && t'.users.Keys == t.users.Keys + {t.nextUserId} && |t'.users| == |t.users| + 1 &&
      (forall id :: id in t'.users ==> id < t'.nextUserId)
  {
    var t' := t.InsertUser(u);
    var n := t.nextUserId;
    assert n !in t.users;
    assert t'.users.Keys == t.users.Keys + {n};
    assert |t'.users.Keys| == |t.users.Keys| + 1;
  }

  /** After the insert, the lookup by the new GoogleId finds the new row. */
  lemma InsertedUserFound(t: Tables, u: User)
    requires var us := t.InsertUser(u).users;
      forall a, b :: a in us && b in us && us[a].googleId == us[b].googleId ==> a == b
    ensures t.InsertUser(u).UserByGoogleId(u.googleId) == Some(t.nextUserId)
  {
    var t' := t.InsertUser(u);
    var n := t.nextUserId;
    assert n in t'.users && t'.users[n].googleId == u.googleId;
    var found := t'.UserByGoogleId(u.googleId);
    assert found.Some? && t'.users[found.value].googleId == t'.users[n].googleId;
  }

  /** The new row's GoogleId is unused, so GoogleId stays unique after the insert. */
  lemma InsertedGoogleIdUnique(t: Tables, u: User)
    requires t.WellFormed() && t.UserByGoogleId(u.googleId).None?
    ensures var t' := t.InsertUser(u);
      forall a, b :: a in t'.users && b in t'.users && t'.users[a].googleId == t'.users[b].googleId ==> a == b
  {
    var t' := t.InsertUser(u);
    var n := t.nextUserId;
    forall a, b | a in t'.users && b in t'.users && t'.users[a].googleId == t'.users[b].googleId
      ensures a == b
    {
      if a != n && b != n {
        assert t.users[a].googleId == t.users[b].googleId;
      }
    }
  }

  /** Adding a row of Likes for `k` adds one to k's photo's count and changes no other photo's count. */
  lemma {:induction false} LikesOfInsert(t: Tables, k: LikeKey, p: PhotoId)
    requires k !in t.likes
    ensures |t.InsertLike(k).LikesOf(p)| == |t.LikesOf(p)| + (if k.photoId == p then 1 else 0)
  {
    if k.photoId == p {
      assert t.InsertLike(k).LikesOf(p) == t.LikesOf(p) + {k};
    } else {
      assert t.InsertLike(k).LikesOf(p) == t.LikesOf(p);
    }
  }

  /** Removing the row of Likes for `k` takes one from k's photo's count and changes no other photo's count. */
  lemma {:induction false} LikesOfDelete(t: Tables, k: LikeKey, p: PhotoId)
    requires k in t.likes
    ensures |t.DeleteLike(k).LikesOf(p)| == |t.LikesOf(p)| - (if k.photoId == p then 1 else 0)
  {
    if k.photoId == p {
      assert t.DeleteLike(k).LikesOf(p) == t.LikesOf(p) - {k};
    } else {
      assert t.DeleteLike(k).LikesOf(p) == t.LikesOf(p);
    }
  }

  /** Two view increments add two views. */
  lemma AddViewTwice(t: Tables, id: PhotoId)
    requires id in t.photos
    ensures var t' := t.AddView(id).AddView(id);
      id in t'.photos && t'.photos[id].views == t.photos[id].views + 2 &&
      t'.photos[id] == t.photos[id].(views := t.photos[id].views + 2) &&
      t'.users == t.users && t'.comments == t.comments && t'.likes == t.likes &&
      t'.photos.Keys == t.photos.Keys
  {
  }

  // ---------------------------------------------------------------------------
  // The database object
  // ---------------------------------------------------------------------------

  /** The connection pool's view of the database: the tables, updated statement by statement. */
  class Db {
    var users: map<UserId, User>
    var photos: map<PhotoId, Photo>
    var comments: map<CommentId, Comment>
    var likes: set<LikeKey>
    var nextUserId: nat
    var nextPhotoId: nat
    var nextCommentId: nat

    /** The current contents of the tables. */
    function T(): Tables
      reads this
    {
      Tables(users, photos, comments, likes, nextUserId, nextPhotoId, nextCommentId)
    }

    ghost predicate Valid()
      reads this
    {
      T().WellFormed()
    }

    constructor ()
      ensures Valid() && T() == EmptyTables
    {
      users, photos, comments, likes := map[], map[], map[], {};
      nextUserId, nextPhotoId, nextCommentId := 1, 1, 1;
    }

    /** SELECT * FROM Users WHERE GoogleId = @googleId: at most one row, by the uniqueness of GoogleId. */
    method FindByGoogleId(g: string) returns (r: Option<UserId>)
      requires Valid()
      ensures r == T().UserByGoogleId(g)
      ensures r.Some? ==> r.value in users && users[r.value].googleId == g
    {
      if exists id :: id in users && users[id].googleId == g {
        var id :| id in users && users[id].googleId == g;
        var chosen := T().UserByGoogleId(g);
        assert chosen.Some? && users[chosen.value].googleId == users[id].googleId;
        r := Some(id);
      } else {
        r := None;
      }
    }

    method InsertUser(u: User) returns (id: UserId)
      requires Valid() && T().UserByGoogleId(u.googleId).None?
      modifies this
      ensures Valid()
      ensures id == old(nextUserId) && id !in old(users) && id in users && users[id] == u
      ensures T() == old(T()).InsertUser(u)
    {
      var t := T();
      InsertUserAddsOne(t, u);
      id := nextUserId;
      users := users[id := u];
      nextUserId := nextUserId + 1;
      assert T() == t.InsertUser(u);
    }

    method SetRole(id: UserId, role: string)
      modifies this
      ensures T() == old(T()).SetRole(id, role)
    {
      if id in users {
        users := users[id := users[id].(role := role)];
      }
    }

    method AddView(id: PhotoId)
      modifies this
      ensures T() == old(T()).AddView(id)
    {
      if id in photos {
        photos := photos[id := photos[id].(views := photos[id].views + 1)];
      }
    }

    method AddLikes(id: PhotoId, delta: int)
      modifies this
      ensures T() == old(T()).AddLikes(id, delta)
    {
      if id in photos {
        photos := photos[id := photos[id].(likes := photos[id].likes + delta)];
      }
    }

    method InsertLike(k: LikeKey)
      modifies this
      ensures T() == old(T()).InsertLike(k)
    {
      likes := likes + {k};
    }

    method DeleteLike(k: LikeKey)
      modifies this
      ensures T() == old(T()).DeleteLike(k)
    {
      likes := likes - {k};
    }

    method InsertComment(c: Comment) returns (id: CommentId)
      modifies this
      ensures id == old(nextCommentId)
      ensures T() == old(T()).InsertComment(c)
    {
      id := nextCommentId;
      comments := comments[id := c];
      nextCommentId := nextCommentId + 1;
    }

    method DeleteComment(id: CommentId)
      modifies this
      ensures T() == old(T()).DeleteComment(id)
    {
      comments := comments - {id};
    }

    method InsertPhoto(p: Photo) returns (id: PhotoId)
      modifies this
      ensures id == old(nextPhotoId)
      ensures T() == old(T()).InsertPhoto(p)
    {
      id := nextPhotoId;
      photos := photos[id := p];
      nextPhotoId := nextPhotoId + 1;
    }

    method EditPhoto(id: PhotoId, title: Option<string>, caption: Option<string>, location: Option<string>, now: nat)
      modifies this
      ensures T() == old(T()).EditPhoto(id, title, caption, location, now)
    {
      if id in photos {
        photos := photos[id := photos[id].(title := title, caption := caption, location := location, updatedAt := now)];
      }
    }

    method DeletePhoto(id: PhotoId)
      modifies this
      ensures T() == old(T()).DeletePhoto(id)
    {
      photos := photos - {id};
    }
  }
}
