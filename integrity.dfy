/** What the store's three sequences keep true between mutations: ids are
    unique within each sequence, no two users share an email, and every
    stored foreign key (a post's
    author, a comment's author and post) names a record that is present.
    The mutations check foreign keys only when a record is created, but the
    hand-written cascades of the deletes remove every record that would be
    left dangling, so the property holds of every reachable store. */
module Integrity {
  import opened Seqs
  import opened Records

  ghost predicate UniqueIds(users: seq<User>, posts: seq<Post>, comments: seq<Comment>)
  {
    UniqueBy(users, UserId) && UniqueBy(posts, PostId) && UniqueBy(comments, CommentId)
  }

  /** `createUser` refuses an email already in use, and nothing changes a
      stored user's email, so no two users share one. */
  ghost predicate UniqueEmails(users: seq<User>)
  {
    UniqueBy(users, UserEmail)
  }

  ghost predicate Linked(users: seq<User>, posts: seq<Post>, comments: seq<Comment>)
  {
    (forall p :: p in posts ==> HasUser(users, p.author)) &&
    (forall c :: c in comments ==> HasUser(users, c.author) && HasPost(posts, c.post))
  }

  ghost predicate WellFormed(users: seq<User>, posts: seq<Post>, comments: seq<Comment>)
  {
    UniqueIds(users, posts, comments) && UniqueEmails(users) && Linked(users, posts, comments)
  }

  /** The comment is attached to one of `posts` written by `uid`. */
  function OnPostBy(posts: seq<Post>, uid: Id): Comment -> bool
  {
    (c: Comment) => exists p :: p in posts && p.author == uid && p.id == c.post
  }

  /** The comments `deleteUser(uid)` keeps: those not written by `uid` and not
      attached to a post written by `uid`. */
  function SurvivesUserDelete(posts: seq<Post>, uid: Id): Comment -> bool
  {
    (c: Comment) => !OnPostBy(posts, uid)(c) && c.author != uid
  }

  /** One step of `deleteUser`'s walk over the posts, when post `k` is by
      `uid`: having dropped the comments of the matching posts among the first
      `k`, dropping the comments of post `k` extends that to the first `k + 1`. */
  lemma CascadeStep(comments: seq<Comment>, posts: seq<Post>, k: nat, uid: Id)
    requires k < |posts| && posts[k].author == uid
    ensures Filter(Filter(comments, Not(OnPostBy(posts[..k], uid))), Not(CommentOnPost(posts[k].id)))
      == Filter(comments, Not(OnPostBy(posts[..k + 1], uid)))
  {
  }

  /** One step of the same walk, when post `k` is by someone else: its
      comments are not dropped, and none of them is on a post by `uid`. */
  lemma CascadeSkip(comments: seq<Comment>, posts: seq<Post>, k: nat, uid: Id)
    requires k < |posts| && posts[k].author != uid
    ensures Filter(comments, Not(OnPostBy(posts[..k], uid))) == Filter(comments, Not(OnPostBy(posts[..k + 1], uid)))
  {
  }

  /** The last step of `deleteUser`: dropping the user's own comments after
      those on their posts leaves exactly the comments that survive the delete. */
  lemma CascadeFinish(comments: seq<Comment>, posts: seq<Post>, uid: Id)
    ensures Filter(Filter(comments, Not(OnPostBy(posts, uid))), Not(CommentByAuthor(uid)))
      == Filter(comments, SurvivesUserDelete(posts, uid))
  {
  }

  /** The seed data is well formed. */
  lemma SeedWellFormed()
    ensures WellFormed(SeedUsers, SeedPosts, SeedComments)
  {
    SeedUnique();
    SeedLinked();
  }

  /** The demo ids are unique in each sequence, and the two demo emails differ. */
  lemma SeedUnique()
    ensures UniqueIds(SeedUsers, SeedPosts, SeedComments) && UniqueEmails(SeedUsers)
  {
  }

  /** Every author and post id in the demo data names a demo record. */
  lemma SeedLinked()
    ensures Linked(SeedUsers, SeedPosts, SeedComments)
  {
    var us, ps, cs := SeedUsers, SeedPosts, SeedComments;
    assert HasUser(us, "1") by { assert us[0] in us; }
    assert HasUser(us, "2") by { assert us[1] in us; }
    assert HasPost(ps, "1") by { assert ps[0] in ps; }
    assert HasPost(ps, "2") by { assert ps[1] in ps; }
    assert HasPost(ps, "3") by { assert ps[2] in ps; }
    forall p | p in ps ensures HasUser(us, p.author) {
      assert p == ps[0] || p == ps[1] || p == ps[2];
    }
    forall c | c in cs ensures HasUser(us, c.author) && HasPost(ps, c.post) {
      assert c == cs[0] || c == cs[1] || c == cs[2] || c == cs[3];
    }
  }

  /** `createUser` with a fresh id and an email not in use keeps the store well formed. */
  lemma CreateUserKeepsWellFormed(users: seq<User>, posts: seq<Post>, comments: seq<Comment>, u: User)
    requires WellFormed(users, posts, comments) && !HasUser(users, u.id) && !EmailInUse(users, u.email)
    ensures WellFormed(users + [u], posts, comments)
  {
    AppendKeepsUnique(users, u, UserId);
    AppendKeepsUnique(users, u, UserEmail);
  }

  /** `createPost` with a fresh id and an existing author keeps the store well formed. */
  lemma CreatePostKeepsWellFormed(users: seq<User>, posts: seq<Post>, comments: seq<Comment>, p: Post)
    requires WellFormed(users, posts, comments) && !HasPost(posts, p.id) && HasUser(users, p.author)
    ensures WellFormed(users, posts + [p], comments)
  {
  }

  /** `createComment` with a fresh id, an existing author and an existing
      published post keeps the store well formed. */
  lemma CreateCommentKeepsWellFormed(users: seq<User>, posts: seq<Post>, comments: seq<Comment>, c: Comment)
    requires WellFormed(users, posts, comments) && !HasComment(comments, c.id)
    requires HasUser(users, c.author) && HasPublishedPost(posts, c.post)
    ensures WellFormed(users, posts, comments + [c])
  {
  }

  /** `deleteUser` keeps the store well formed: removing the user at `i`, the
      posts they wrote, the comments on those posts and the comments they wrote
      leaves no foreign key dangling. */
  lemma DeleteUserKeepsWellFormed(users: seq<User>, posts: seq<Post>, comments: seq<Comment>, i: nat)
    requires WellFormed(users, posts, comments) && i < |users|
    ensures WellFormed(RemoveAt(users, i), Filter(posts, Not(PostByAuthor(users[i].id))),
                       Filter(comments, SurvivesUserDelete(posts, users[i].id)))
  {
    var uid := users[i].id;
    var users' := RemoveAt(users, i);
    var posts' := Filter(posts, Not(PostByAuthor(uid)));
    var comments' := Filter(comments, SurvivesUserDelete(posts, uid));
    RemoveAtKeepsUnique(users, i, UserId);
    RemoveAtKeepsUnique(users, i, UserEmail);
    FilterKeepsUnique(posts, Not(PostByAuthor(uid)), PostId);
    FilterKeepsUnique(comments, SurvivesUserDelete(posts, uid), CommentId);
    forall id | HasUser(users, id) && id != uid ensures HasUser(users', id) {
      var v :| v in users && v.id == id;
      var j :| 0 <= j < |users| && users[j] == v;
      assert j != i;
      if j < i { assert users'[j] == v; } else { assert users'[j - 1] == v; }
    }
    forall c | c in comments' ensures HasPost(posts', c.post) {
      var q :| q in posts && q.id == c.post;
      assert !OnPostBy(posts, uid)(c);
      assert q.author != uid;
      assert q in posts';
    }
  }

  /** `deletePost` keeps the store well formed: removing the post at `i` and
      every comment on its id leaves no foreign key dangling. */
  lemma DeletePostKeepsWellFormed(users: seq<User>, posts: seq<Post>, comments: seq<Comment>, i: nat)
    requires WellFormed(users, posts, comments) && i < |posts|
    ensures WellFormed(users, RemoveAt(posts, i), Filter(comments, Not(CommentOnPost(posts[i].id))))
  {
    var pid := posts[i].id;
    var posts' := RemoveAt(posts, i);
    var comments' := Filter(comments, Not(CommentOnPost(pid)));
    RemoveAtKeepsUnique(posts, i, PostId);
    FilterKeepsUnique(comments, Not(CommentOnPost(pid)), CommentId);
    forall c | c in comments' ensures HasPost(posts', c.post) {
      var q :| q in posts && q.id == c.post;
      var j :| 0 <= j < |posts| && posts[j] == q;
      assert j != i;
      if j < i { assert posts'[j] == q; } else { assert posts'[j - 1] == q; }
    }
  }

  /** `deleteComment` keeps the store well formed. */
  lemma DeleteCommentKeepsWellFormed(users: seq<User>, posts: seq<Post>, comments: seq<Comment>, i: nat)
    requires WellFormed(users, posts, comments) && i < |comments|
    ensures WellFormed(users, posts, Filter(RemoveAt(comments, i), Not(CommentIdIs(comments[i].id))))
  {
    RemoveAtKeepsUnique(comments, i, CommentId);
    FilterKeepsUnique(RemoveAt(comments, i), Not(CommentIdIs(comments[i].id)), CommentId);
    forall c | c in RemoveAt(comments, i) ensures c in comments {
      var j :| 0 <= j < |RemoveAt(comments, i)| && RemoveAt(comments, i)[j] == c;
      if j < i { assert comments[j] == c; } else { assert comments[j + 1] == c; }
    }
  }

  /** What `deleteUser(uid)` removes, exactly: every post written by `uid`;
      every comment written by `uid` or attached to one of those posts; and
      nothing else. */
  lemma DeleteUserRemovesExactly(posts: seq<Post>, comments: seq<Comment>, uid: Id)
    ensures forall p :: p in Filter(posts, Not(PostByAuthor(uid))) <==> p in posts && p.author != uid
    ensures forall c :: c in Filter(comments, SurvivesUserDelete(posts, uid)) <==>
      c in comments && c.author != uid && !exists p :: p in posts && p.author == uid && p.id == c.post
  {
    forall c: Comment
      ensures SurvivesUserDelete(posts, uid)(c) <==>
        c.author != uid && !exists p :: p in posts && p.author == uid && p.id == c.post
    {
      assert OnPostBy(posts, uid)(c) <==> exists p :: p in posts && p.author == uid && p.id == c.post;
    }
  }
}
