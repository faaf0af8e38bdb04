/** The read side of the store: the `Query` resolvers `users`, `posts` and
    `comments`, and the field resolvers of `Post`, `Comment` and `User`, as
    functions of the store's current sequences. */
module Resolvers {
  import opened Seqs
  import opened Text
  import opened Records

  /** `!args.query`: the search text is absent, or the empty string. */
  predicate NoQuery(query: Option<string>)
  {
    query.None? || query.value == ""
  }

  /** `user.name.toLowerCase().includes(q.toLowerCase())` */
  function NameMatches(q: string): User -> bool
  {
    (u: User) => Contains(LowerStr(u.name), LowerStr(q))
  }

  /** The title or the body contains the query, ignoring case. */
  function TitleOrBodyMatches(q: string): Post -> bool
  {
    (p: Post) => Contains(LowerStr(p.title), LowerStr(q)) || Contains(LowerStr(p.body), LowerStr(q))
  }

  /** `Query.users`: every user when there is no search text; otherwise the
      users whose name contains it, ignoring case; always in store order. */
  function Users(users: seq<User>, query: Option<string>): (r: seq<User>)
    ensures NoQuery(query) ==> r == users
    ensures !NoQuery(query) ==>
      forall u :: u in r <==> u in users && Contains(LowerStr(u.name), LowerStr(query.value))
    ensures !NoQuery(query) ==>
      forall u :: multiset(r)[u] ==
        if Contains(LowerStr(u.name), LowerStr(query.value)) then multiset(users)[u] else 0
    ensures IsSubsequence(r, users)
  {
    if NoQuery(query) then SubsequenceOfItself(users); users
    else
      FilterIsSubsequence(users, NameMatches(query.value));
      FilterCounts(users, NameMatches(query.value));
      Filter(users, NameMatches(query.value))
  }

  /** `Query.posts`: every post when there is no search text; otherwise the
      posts whose title or body contains it, ignoring case; in store order. */
  function Posts(posts: seq<Post>, query: Option<string>): (r: seq<Post>)
    ensures NoQuery(query) ==> r == posts
    ensures !NoQuery(query) ==>
      forall p :: p in r <==>
        p in posts &&
        (Contains(LowerStr(p.title), LowerStr(query.value)) || Contains(LowerStr(p.body), LowerStr(query.value)))
    ensures !NoQuery(query) ==>
      forall p :: multiset(r)[p] ==
        if Contains(LowerStr(p.title), LowerStr(query.value)) || Contains(LowerStr(p.body), LowerStr(query.value))
        then multiset(posts)[p] else 0
    ensures IsSubsequence(r, posts)
  {
    if NoQuery(query) then SubsequenceOfItself(posts); posts
    else
      FilterIsSubsequence(posts, TitleOrBodyMatches(query.value));
      FilterCounts(posts, TitleOrBodyMatches(query.value));
      Filter(posts, TitleOrBodyMatches(query.value))
  }

  /** `Query.comments`: the stored comments, unfiltered. */
  function Comments(comments: seq<Comment>): (r: seq<Comment>)
    ensures r == comments
  {
    comments
  }

  /** Two search texts that differ only in the case of their letters select the same users. */
  lemma UsersIgnoresQueryCase(users: seq<User>, q1: string, q2: string)
    requires LowerStr(q1) == LowerStr(q2)
    ensures Users(users, Some(q1)) == Users(users, Some(q2))
  {
  }

  /** Two search texts that differ only in the case of their letters select the same posts. */
  lemma PostsIgnoresQueryCase(posts: seq<Post>, q1: string, q2: string)
    requires LowerStr(q1) == LowerStr(q2)
    ensures Posts(posts, Some(q1)) == Posts(posts, Some(q2))
  {
  }

  /** `users(query: "JOHN")` and `users(query: "john")` answer alike. */
  lemma UsersJohnInAnyCase(users: seq<User>)
    ensures Users(users, Some("JOHN")) == Users(users, Some("john"))
  {
    assert LowerStr("JOHN") == "john" == LowerStr("john");
    UsersIgnoresQueryCase(users, "JOHN", "john");
  }

  /** `Post.author`: the first user whose id is the post's author, or nothing
      when the reference dangles. */
  function PostAuthor(users: seq<User>, post: Post): (r: Option<User>)
    ensures r.None? <==> !HasUser(users, post.author)
    ensures r.Some? ==> r.value in users && r.value.id == post.author
  {
    Find(users, UserIdIs(post.author))
  }

  /** `Post.comments`: the comments attached to the post, in store order. */
  function PostComments(comments: seq<Comment>, post: Post): (r: seq<Comment>)
    ensures forall c :: c in r <==> c in comments && c.post == post.id
    ensures forall c :: multiset(r)[c] == if c.post == post.id then multiset(comments)[c] else 0
    ensures IsSubsequence(r, comments)
  {
    FilterIsSubsequence(comments, CommentOnPost(post.id));
    FilterCounts(comments, CommentOnPost(post.id));
    Filter(comments, CommentOnPost(post.id))
  }

  /** `Comment.author`: the first user whose id is the comment's author, or nothing. */
  function CommentAuthor(users: seq<User>, comment: Comment): (r: Option<User>)
    ensures r.None? <==> !HasUser(users, comment.author)
    ensures r.Some? ==> r.value in users && r.value.id == comment.author
  {
    Find(users, UserIdIs(comment.author))
  }

  /** `Comment.post`: the first post whose id is the comment's post, or nothing. */
  function CommentPost(posts: seq<Post>, comment: Comment): (r: Option<Post>)
    ensures r.None? <==> !HasPost(posts, comment.post)
    ensures r.Some? ==> r.value in posts && r.value.id == comment.post
  {
    Find(posts, PostIdIs(comment.post))
  }

  /** `User.posts`: the posts the user wrote, in store order. */
  function UserPosts(posts: seq<Post>, user: User): (r: seq<Post>)
    ensures forall p :: p in r <==> p in posts && p.author == user.id
    ensures forall p :: multiset(r)[p] == if p.author == user.id then multiset(posts)[p] else 0
    ensures IsSubsequence(r, posts)
  {
    FilterIsSubsequence(posts, PostByAuthor(user.id));
    FilterCounts(posts, PostByAuthor(user.id));
    Filter(posts, PostByAuthor(user.id))
  }

  /** `User.comments`: the comments the user wrote, in store order. */
  function UserComments(comments: seq<Comment>, user: User): (r: seq<Comment>)
    ensures forall c :: c in r <==> c in comments && c.author == user.id
    ensures forall c :: multiset(r)[c] == if c.author == user.id then multiset(comments)[c] else 0
    ensures IsSubsequence(r, comments)
  {
    FilterIsSubsequence(comments, CommentByAuthor(user.id));
    FilterCounts(comments, CommentByAuthor(user.id));
    Filter(comments, CommentByAuthor(user.id))
  }

  /** With unique user ids, `User.posts` and `Post.author` are inverse:
      a post is among a stored user's posts exactly when its author resolves to that user. */
  lemma UserPostsMatchPostAuthor(users: seq<User>, posts: seq<Post>, user: User)
    requires UniqueBy(users, UserId) && user in users
    ensures forall p :: p in UserPosts(posts, user) <==> p in posts && PostAuthor(users, p) == Some(user)
  {
  }

  /** With unique post ids, `Post.comments` and `Comment.post` are inverse:
      a comment is among a stored post's comments exactly when its post resolves to that post. */
  lemma PostCommentsMatchCommentPost(posts: seq<Post>, comments: seq<Comment>, post: Post)
    requires UniqueBy(posts, PostId) && post in posts
    ensures forall c :: c in PostComments(comments, post) <==> c in comments && CommentPost(posts, c) == Some(post)
  {
  }
}
