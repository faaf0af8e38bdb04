/** The write side of the store: the module-level `users`, `posts` and
    `comments` arrays as the fields of one `Store` object, and the six
    `Mutation` resolvers as its methods. A mutation either fails before
    touching anything (the source's `throw new Error(...)`, here an `Err`
    result) or updates the sequences and returns the record it created or
    removed. Fresh ids, which the source draws from `uuidv4()`, are passed in. */
module RecordStore {
  import opened Seqs
  import opened Records
  import opened Integrity
  import opened Resolvers

  /** One error per message the mutations throw. */
  datatype Error =
    | EmailTaken           // 'Email taken'
    | UserNotFound         // 'User not found'
    | PostNotFound         // 'Post not found'
    | UserAndPostNotFound  // 'Unable to find user and post'
    | CommentNotFound      // 'Comment not found'

  datatype Result<+T> = Ok(value: T) | Err(error: Error)

  class Store {
    var users: seq<User>
    var posts: seq<Post>
    var comments: seq<Comment>

    /** Unique ids in each sequence, unique user emails, and no dangling foreign key. */
    ghost predicate Valid()
      reads this
    {
      WellFormed(users, posts, comments)
    }

    /** The store as the module loads it: the demo data. */
    constructor ()
      ensures users == SeedUsers && posts == SeedPosts && comments == SeedComments
      ensures Valid()
    {
      users := SeedUsers;
      posts := SeedPosts;
      comments := SeedComments;
      SeedWellFormed();
    }

    /** `createUser`: refuses an email some user already has; otherwise
        appends the new user. `id` stands for the `uuidv4()` the source calls. */
    method CreateUser(id: Id, data: UserInput) returns (r: Result<User>)
      requires Valid() && !HasUser(users, id)
      modifies this
      ensures Valid()
      ensures r.Err? <==> EmailInUse(old(users), data.email)
      ensures r.Err? ==> r.error == EmailTaken && unchanged(this)
      ensures r.Ok? ==> r.value == NewUser(id, data) && users == old(users) + [r.value]
      ensures r.Ok? ==> posts == old(posts) && comments == old(comments)
    {
      var emailTaken := EmailInUse(users, data.email);
      if emailTaken {
        return Err(EmailTaken);
      }
      var user := NewUser(id, data);
      CreateUserKeepsWellFormed(users, posts, comments, user);
      users := users + [user];
      return Ok(user);
    }

    /** `deleteUser`: refuses an unknown id; otherwise removes the first user
        with that id, every post that user wrote, every comment on those posts
        and every comment the user wrote, keeping the order of what is left. */
    method DeleteUser(id: Id) returns (r: Result<User>)
      requires Valid()
      modifies this
      ensures Valid()
      ensures r.Err? <==> !HasUser(old(users), id)
      ensures r.Err? ==> r.error == UserNotFound && unchanged(this)
      ensures r.Ok? ==>
        var i := FindIndex(old(users), UserIdIs(id));
        && r.value == old(users)[i]
        && users == RemoveAt(old(users), i)
        && posts == Filter(old(posts), Not(PostByAuthor(id)))
        && comments == Filter(old(comments), SurvivesUserDelete(old(posts), id))
      ensures r.Ok? ==>
        !HasUser(users, id) && UserPosts(posts, r.value) == [] && UserComments(comments, r.value) == []
    {
      var userIndex := FindIndex(users, UserIdIs(id));
      if userIndex == -1 {
        return Err(UserNotFound);
      }
      ghost var users0, posts0, comments0 := users, posts, comments;
      DeleteUserKeepsWellFormed(users0, posts0, comments0, userIndex);
      RemoveAtDropsKey(users, userIndex, UserId);
      var deleted := users[userIndex];
      users := RemoveAt(users, userIndex);

      var kept, remaining := FilterPostsCascading(posts, comments, id);
      posts := kept;
      comments := remaining;

      CascadeFinish(comments0, posts0, id);
      comments := Filter(comments, Not(CommentByAuthor(id)));
      FilterNone(posts, PostByAuthor(id));
      FilterNone(comments, CommentByAuthor(id));
      return Ok(deleted);
    }

    /** `createPost`: refuses an author id that names no user; otherwise
        appends the new post, whose `Post.author` then resolves to that user. */
    method CreatePost(id: Id, data: PostInput) returns (r: Result<Post>)
      requires Valid() && !HasPost(posts, id)
      modifies this
      ensures Valid()
      ensures r.Err? <==> !HasUser(old(users), data.author)
      ensures r.Err? ==> r.error == UserNotFound && unchanged(this)
      ensures r.Ok? ==> r.value == NewPost(id, data) && posts == old(posts) + [r.value]
      ensures r.Ok? ==> users == old(users) && comments == old(comments)
      ensures r.Ok? ==> PostAuthor(users, r.value).Some? && PostAuthor(users, r.value).value.id == data.author
    {
      var userExists := HasUser(users, data.author);
      if !userExists {
        return Err(UserNotFound);
      }
      var post := NewPost(id, data);
      CreatePostKeepsWellFormed(users, posts, comments, post);
      posts := posts + [post];
      return Ok(post);
    }

    /** `deletePost`: refuses an unknown id; otherwise removes the first post
        with that id and every comment attached to that id. */
    method DeletePost(id: Id) returns (r: Result<Post>)
      requires Valid()
      modifies this
      ensures Valid()
      ensures r.Err? <==> !HasPost(old(posts), id)
      ensures r.Err? ==> r.error == PostNotFound && unchanged(this)
      ensures r.Ok? ==>
        var i := FindIndex(old(posts), PostIdIs(id));
        && r.value == old(posts)[i]
        && users == old(users)
        && posts == RemoveAt(old(posts), i)
        && comments == Filter(old(comments), Not(CommentOnPost(id)))
      ensures r.Ok? ==> !HasPost(posts, id) && PostComments(comments, r.value) == []
    {
      var postIndex := FindIndex(posts, PostIdIs(id));
      if postIndex == -1 {
        return Err(PostNotFound);
      }
      DeletePostKeepsWellFormed(users, posts, comments, postIndex);
      RemoveAtDropsKey(posts, postIndex, PostId);
      var deleted := posts[postIndex];
      posts := RemoveAt(posts, postIndex);
      comments := Filter(comments, Not(CommentOnPost(id)));
      FilterNone(comments, CommentOnPost(id));
      return Ok(deleted);
    }

    /** `createComment`: refuses unless the author names a user and the post
        names a published post (one error for both); otherwise appends the
        new comment. */
    method CreateComment(id: Id, data: CommentInput) returns (r: Result<Comment>)
      requires Valid() && !HasComment(comments, id)
      modifies this
      ensures Valid()
      ensures r.Err? <==> !HasUser(old(users), data.author) || !HasPublishedPost(old(posts), data.post)
      ensures r.Err? ==> r.error == UserAndPostNotFound && unchanged(this)
      ensures r.Ok? ==> r.value == NewComment(id, data) && comments == old(comments) + [r.value]
      ensures r.Ok? ==> users == old(users) && posts == old(posts)
    {
      var userExists := HasUser(users, data.author);
      var postExists := HasPublishedPost(posts, data.post);
      if !userExists || !postExists {
        return Err(UserAndPostNotFound);
      }
      var comment := NewComment(id, data);
      CreateCommentKeepsWellFormed(users, posts, comments, comment);
      comments := comments + [comment];
      return Ok(comment);
    }

    /** `deleteComment`: refuses an unknown id; otherwise splices out the first
        comment with that id and then filters out any other with the same id,
        which in a valid store is the single removal at that index. */
    method DeleteComment(id: Id) returns (r: Result<Comment>)
      requires Valid()
      modifies this
      ensures Valid()
      ensures r.Err? <==> !HasComment(old(comments), id)
      ensures r.Err? ==> r.error == CommentNotFound && unchanged(this)
      ensures r.Ok? ==>
        var i := FindIndex(old(comments), CommentIdIs(id));
        && r.value == old(comments)[i]
        && users == old(users)
        && posts == old(posts)
        && comments == Filter(old(comments), Not(CommentIdIs(id)))
        && comments == RemoveAt(old(comments), i)
      ensures r.Ok? ==> !HasComment(comments, id)
    {
      var commentIndex := FindIndex(comments, CommentIdIs(id));
      if commentIndex == -1 {
        return Err(CommentNotFound);
      }
      DeleteCommentKeepsWellFormed(users, posts, comments, commentIndex);
      FilterRemoveAt(comments, commentIndex, Not(CommentIdIs(id)));
      FilterUniqueKey(comments, commentIndex, CommentId, Not(CommentIdIs(id)));
      var deleted := comments[commentIndex];
      comments := RemoveAt(comments, commentIndex);
      comments := Filter(comments, Not(CommentIdIs(id)));
      return Ok(deleted);
    }
  }

  /** The `posts.filter(...)` of `deleteUser`: keeps the posts not written by
      `uid`, and its callback drops the comments of each post it rejects, so
      that afterwards no comment is attached to a post by `uid`. */
  method FilterPostsCascading(posts: seq<Post>, comments: seq<Comment>, uid: Id)
    returns (kept: seq<Post>, remaining: seq<Comment>)
    ensures kept == Filter(posts, Not(PostByAuthor(uid)))
    ensures remaining == Filter(comments, Not(OnPostBy(posts, uid)))
  {
    kept, remaining := [], comments;
    var k := 0;
    FilterAll(comments, Not(OnPostBy(posts[..0], uid)));
    while k < |posts|
      invariant 0 <= k <= |posts|
      invariant kept == Filter(posts[..k], Not(PostByAuthor(uid)))
      invariant remaining == Filter(comments, Not(OnPostBy(posts[..k], uid)))
    {
      var post := posts[k];
      if post.author == uid {
        FilterPrefixDrop(posts, k, Not(PostByAuthor(uid)));
        CascadeStep(comments, posts, k, uid);
        remaining := Filter(remaining, Not(CommentOnPost(post.id)));
      } else {
        FilterPrefixKeep(posts, k, Not(PostByAuthor(uid)));
        CascadeSkip(comments, posts, k, uid);
        kept := kept + [post];
      }
      k := k + 1;
    }
    assert posts[..k] == posts;
  }

  /** The cascade of `deleteUser("1")` on the demo data, step by step. */
  lemma DeleteJohnDoeCascade()
    ensures FindIndex(SeedUsers, UserIdIs("1")) == 0
    ensures Filter(SeedPosts, Not(PostByAuthor("1"))) == [SeedPosts[2]]
    ensures Filter(SeedComments, SurvivesUserDelete(SeedPosts, "1")) == [SeedComments[3]]
  {
    SeedPostsWithoutJohnDoe();
    SeedCommentsWithoutJohnDoe();
  }

  /** Of the demo posts, only post 3 is not by user "1". */
  lemma SeedPostsWithoutJohnDoe()
    ensures Filter(SeedPosts, Not(PostByAuthor("1"))) == [SeedPosts[2]]
  {
  }

  /** Of the demo comments, only comment 4 is neither by user "1" nor on a post by them. */
  lemma SeedCommentsWithoutJohnDoe()
    ensures Filter(SeedComments, SurvivesUserDelete(SeedPosts, "1")) == [SeedComments[3]]
  {
    var ps := SeedPosts;
    var keepComment := SurvivesUserDelete(ps, "1");
    var cs := SeedComments;
    assert OnPostBy(ps, "1")(cs[0]) by { assert ps[0] in ps; }
    assert OnPostBy(ps, "1")(cs[1]) by { assert ps[0] in ps; }
    assert OnPostBy(ps, "1")(cs[2]) by { assert ps[1] in ps; }
    assert !OnPostBy(ps, "1")(cs[3]);
    assert !keepComment(cs[0]) && !keepComment(cs[1]) && !keepComment(cs[2]) && keepComment(cs[3]);
    assert Filter(cs[3..], keepComment) == [cs[3]] + Filter(cs[4..], keepComment);
    assert Filter(cs[2..], keepComment) == Filter(cs[3..], keepComment);
    assert Filter(cs[1..], keepComment) == Filter(cs[2..], keepComment);
  }

  /** Deleting `johnDoe` (id "1") from the demo data removes his posts 1 and 2,
      the comments 1, 2 and 3 on them, and leaves `janeDoe`, post 3 and comment 4. */
  method DeleteJohnDoeFromSeed() returns (r: Result<User>, users: seq<User>, posts: seq<Post>, comments: seq<Comment>)
    ensures r == Ok(SeedUsers[0])
    ensures users == [SeedUsers[1]] && posts == [SeedPosts[2]] && comments == [SeedComments[3]]
  {
    var store := new Store();
    r := store.DeleteUser("1");
    users, posts, comments := store.users, store.posts, store.comments;
    DeleteJohnDoeCascade();
  }

  /** A comment on a post that exists but is not published is refused, even
      from an existing author: post 2 of the demo data is unpublished. */
  method CommentOnUnpublishedSeedPost() returns (r: Result<Comment>, comments: seq<Comment>)
    ensures r == Err(UserAndPostNotFound) && comments == SeedComments
  {
    var store := new Store();
    r := store.CreateComment("5", CommentInput("fifth comment", "1", "2"));
    comments := store.comments;
  }

  /** A second user with `johnDoe`'s email is refused. */
  method DuplicateSeedEmail() returns (r: Result<User>, users: seq<User>)
    ensures r == Err(EmailTaken) && users == SeedUsers
  {
    var store := new Store();
    r := store.CreateUser("3", UserInput("johnny", "johndoe@example.com", 30));
    users := store.users;
  }
}
