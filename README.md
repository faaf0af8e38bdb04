# In-memory record store of a GraphQL tutorial server, in Dafny

The server keeps three module-level arrays: `users`, `posts` and `comments`.
It starts them with a small demo data set. Its resolvers read and change
those arrays:

- the `Query` resolvers `users(query)`, `posts(query)` and `comments` list
  records, with case-insensitive substring search on a user's name, or on a
  post's title or body;
- the `Mutation` resolvers `createUser`, `createPost` and `createComment`
  check the new record's references, then append it;
- `deleteUser`, `deletePost` and `deleteComment` find a record by id, remove
  it, and remove by hand the records that depend on it;
- the field resolvers `Post.author`, `Post.comments`, `Comment.author`,
  `Comment.post`, `User.posts` and `User.comments` follow the stored ids.

The model has six modules:

- `Seqs` (`seqs.dfy`) holds the array operations the resolvers use.
  `Filter` is `filter`, `FindIndex` is `findIndex`, `Find` is `find` and
  `RemoveAt` is `splice(i, 1)`. Each has a contract, and lemmas relate them
  (order and multiplicity kept by a filter, filtering after a splice,
  uniqueness of keys).
- `Text` (`text.dfy`) holds `toLowerCase` (ASCII letters only) and `includes`.
- `Records` (`records.dfy`) holds the `User`, `Post` and `Comment` records,
  the three mutation inputs, the demo data, and the `some(...)` tests the
  mutations guard on.
- `Resolvers` (`resolvers.dfy`) holds the queries and field resolvers. They
  are pure functions of the current sequences.
- `Integrity` (`integrity.dfy`) holds `WellFormed`. It says that ids are
  unique in each sequence, that no two users share an email, and that no
  post or comment refers to a record that is absent. One lemma per mutation proves that the mutation keeps it.
- `RecordStore` (`store.dfy`) holds the class `Store`. Its three `seq`
  fields stand for the module-level arrays, and it has one method per
  mutation. Each method either fails and changes nothing, or states its
  whole new state in terms of the old one. The `posts.filter` of
  `deleteUser`, whose callback drops comments as it goes, is the loop of
  `FilterPostsCascading`. A thrown `Error` becomes an `Err` result that carries one
  `Error` value per message.

The checks in the source run only at creation time, but the cascades in the
deletes remove every record that would be left dangling, and `createUser`
refuses an email that is already in use while nothing changes a stored
user's email. So
`WellFormed` holds of the demo data and is kept by every mutation:
`Post.author`, `Comment.author` and `Comment.post` always resolve. It is the
`Valid()` invariant of `Store`. The constructor establishes it, and every
method requires it and keeps it. Whether a comment's post is published is
checked when the comment is created, but it is not an invariant: demo
comment 3 is attached to demo post 2, which is unpublished.

## Model

| member | source | states |
|---|---|---|
| `Seqs.Filter` | src/old-index.js:212-222 | `filter` keeps exactly the elements that pass the test, and never more than it was given |
| `Seqs.FilterIsSubsequence` | src/old-index.js:144-146 | the result of `filter` keeps the passing elements in their original order (a subsequence of the input) |
| `Seqs.FilterCounts` | src/old-index.js:144-146 | `filter` keeps every copy of a passing element and no copy of a failing one |
| `Seqs.FindIndex` | src/old-index.js:204-206 | `findIndex` is -1 exactly when no element passes; otherwise the element at the returned index passes and none before it does |
| `Seqs.Find` | src/old-index.js:307-309 | `find` yields nothing (`undefined`) exactly when no element passes; otherwise the first element that passes |
| `Seqs.RemoveAt` | src/old-index.js:210 | `splice(i, 1)` shortens the array by one and shifts every element after `i` down by one place, keeping the ones before `i` |
| `Seqs.FilterAppend` | src/old-index.js:212-220 | filtering one more element on the right appends it to the earlier result exactly when it passes |
| `Seqs.FilterPrefixKeep` | src/old-index.js:212-220 | when the next post passes the `posts.filter` test, the filtered prefix grows by exactly that post |
| `Seqs.FilterPrefixDrop` | src/old-index.js:212-220 | when the next post fails the `posts.filter` test, the filtered prefix stays the same |
| `Seqs.FilterRemoveAt` | src/old-index.js:298-300 | splicing out an element the filter would drop, then filtering, gives the same result as filtering alone |
| `Seqs.FilterUniqueKey` | src/old-index.js:298-300 | with unique ids, filtering out the id of the element at `i` removes exactly that element |
| `Seqs.FilterKeepsUnique` | src/old-index.js:212-222 | filtering keeps ids unique |
| `Seqs.RemoveAtDropsKey` | src/old-index.js:210 | with unique ids, after the splice no element carries the removed element's id |
| `Text.Lower` | src/old-index.js:145 | `toLowerCase` maps `A`..`Z` to `a`..`z`, leaves other characters alone, and never yields an upper-case ASCII letter |
| `Text.LowerStr` | src/old-index.js:145 | `toLowerCase` on a string keeps its length and lower-cases it character by character (`Text.Lower`); used on names, titles, bodies and the query at lines 145 and 154-155 |
| `Text.Contains` | src/old-index.js:145 | `includes` holds exactly when the needle occurs at some position of the string; the empty needle occurs everywhere |
| `Resolvers.Users` | src/old-index.js:139-147 | with no search text or an empty one (`!args.query`, the predicate `Resolvers.NoQuery`), every user; otherwise exactly the users whose lower-cased name contains the lower-cased text, each as often as it is stored, in store order |
| `Resolvers.Posts` | src/old-index.js:148-158 | with no search text or an empty one (`Resolvers.NoQuery`), every post; otherwise exactly the posts whose lower-cased title or body contains the lower-cased text, each as often as it is stored, in store order |
| `Resolvers.Comments` | src/old-index.js:159-161 | every stored comment, unfiltered and in store order |
| `Resolvers.UsersIgnoresQueryCase` | src/old-index.js:144-146 | search texts that differ only in the case of their letters select the same users |
| `Resolvers.PostsIgnoresQueryCase` | src/old-index.js:153-157 | search texts that differ only in the case of their letters select the same posts |
| `Resolvers.UsersJohnInAnyCase` | src/old-index.js:145 | `users(query: "JOHN")` equals `users(query: "john")` on any store |
| `Resolvers.PostAuthor` | src/old-index.js:306-310 | `Post.author` is absent exactly when no user has the post's author id; otherwise a stored user with that id |
| `Resolvers.PostComments` | src/old-index.js:311-315 | `Post.comments` is exactly the comments attached to the post's id, each as often as it is stored, in store order |
| `Resolvers.CommentAuthor` | src/old-index.js:318-322 | `Comment.author` is absent exactly when no user has the comment's author id; otherwise a stored user with that id |
| `Resolvers.CommentPost` | src/old-index.js:323-327 | `Comment.post` is absent exactly when no post has the comment's post id; otherwise a stored post with that id |
| `Resolvers.UserPosts` | src/old-index.js:330-334 | `User.posts` is exactly the posts whose author is the user's id, each as often as it is stored, in store order |
| `Resolvers.UserComments` | src/old-index.js:335-339 | `User.comments` is exactly the comments whose author is the user's id, each as often as it is stored, in store order |
| `Resolvers.UserPostsMatchPostAuthor` | src/old-index.js:306-334 | with unique user ids, a post is among a stored user's `posts` exactly when its `author` resolves to that user |
| `Resolvers.PostCommentsMatchCommentPost` | src/old-index.js:311-327 | with unique post ids, a comment is among a stored post's `comments` exactly when its `post` resolves to that post |
| `Integrity.SeedWellFormed` | src/old-index.js:8-68 | the demo data is well formed |
| `Integrity.SeedUnique` | src/old-index.js:8-68 | the demo ids are unique in each array, and `johnDoe` and `janeDoe` have different emails |
| `Integrity.SeedLinked` | src/old-index.js:8-68 | every author and post reference in the demo data resolves |
| `Integrity.CreateUserKeepsWellFormed` | src/old-index.js:181-199 | appending a user with a fresh id and an email no user has (`Records.EmailInUse` is false) keeps ids and emails unique and the store well formed |
| `Integrity.CreatePostKeepsWellFormed` | src/old-index.js:229-248 | appending a post with a fresh id and an existing author (`Records.HasUser`) keeps the store well formed |
| `Integrity.CreateCommentKeepsWellFormed` | src/old-index.js:268-287 | appending a comment with a fresh id, an existing author (`Records.HasUser`) and an existing published post (`Records.HasPublishedPost`) keeps the store well formed |
| `Integrity.DeleteUserKeepsWellFormed` | src/old-index.js:210-222 | removing a user, their posts, the comments on those posts and their own comments leaves no reference dangling, ids unique and emails unique |
| `Integrity.DeletePostKeepsWellFormed` | src/old-index.js:259-261 | removing a post and every comment on its id leaves no reference dangling and ids unique |
| `Integrity.DeleteCommentKeepsWellFormed` | src/old-index.js:298-300 | removing a comment keeps the store well formed |
| `Integrity.CascadeStep` | src/old-index.js:214-217 | when the next post is by the deleted user, dropping its comments extends "no comment on a matched post" from the posts walked so far to one more |
| `Integrity.CascadeSkip` | src/old-index.js:212-220 | when the next post is by someone else, the comments already kept are exactly those with no matched post among one more post |
| `Integrity.CascadeFinish` | src/old-index.js:222 | dropping the user's own comments after those on their posts leaves exactly the comments that survive `deleteUser` |
| `Integrity.DeleteUserRemovesExactly` | src/old-index.js:210-222 | `deleteUser` keeps exactly the posts by other authors, and exactly the comments that are by another author and not attached to a post by the deleted user |
| `RecordStore.Store.constructor` | src/old-index.js:8-68 | the store starts with the demo users, posts and comments, and is well formed |
| `RecordStore.Store.CreateUser` | src/old-index.js:180-202 | fails with `EmailTaken`, changing nothing, exactly when some user has the same email (`Records.EmailInUse`, an exact match); otherwise appends `{id, ...data}` (`Records.NewUser`) and returns it, leaving posts and comments alone, and the store stays well formed (emails unique) |
| `RecordStore.Store.DeleteUser` | src/old-index.js:203-225 | fails with `UserNotFound`, changing nothing, exactly when no user has the id; otherwise returns the first such user, splices it out, keeps the posts by other authors, keeps the comments that survive the cascade, all in order; afterwards the user, their posts and their comments are gone |
| `RecordStore.FilterPostsCascading` | src/old-index.js:212-220 | the `posts.filter` of `deleteUser` keeps exactly the posts by other authors, and its callback leaves exactly the comments not attached to a post by the deleted user |
| `RecordStore.Store.CreatePost` | src/old-index.js:228-251 | fails with `UserNotFound`, changing nothing, exactly when no user has the author id (`Records.HasUser`); otherwise appends `{id, ...data}` (`Records.NewPost`) and returns it, and its `Post.author` resolves to a user with that id |
| `RecordStore.Store.DeletePost` | src/old-index.js:252-264 | fails with `PostNotFound`, changing nothing, exactly when no post has the id (`Records.HasPost`); otherwise returns the first such post, splices it out and drops every comment on that id, leaving users alone |
| `RecordStore.Store.CreateComment` | src/old-index.js:267-290 | fails with `UserAndPostNotFound`, changing nothing, exactly when the author names no user (`Records.HasUser`) or the post names no published post (`Records.HasPublishedPost`); otherwise appends `{id, ...data}` (`Records.NewComment`) and returns it |
| `RecordStore.Store.DeleteComment` | src/old-index.js:291-303 | fails with `CommentNotFound`, changing nothing, exactly when no comment has the id (`Records.HasComment`); otherwise returns the first such comment, and the splice followed by the filter equals both removing every comment with that id and removing just the one at the found index |
| `RecordStore.DeleteJohnDoeCascade` | src/old-index.js:203-225 | on the demo data, `deleteUser("1")` finds the user at index 0, keeps only post 3 and keeps only comment 4 |
| `RecordStore.SeedPostsWithoutJohnDoe` | src/old-index.js:212-220 | of the demo posts, the `posts.filter` of `deleteUser("1")` keeps only post 3 |
| `RecordStore.SeedCommentsWithoutJohnDoe` | src/old-index.js:212-222 | of the demo comments, only comment 4 survives `deleteUser("1")` |
| `RecordStore.DeleteJohnDoeFromSeed` | src/old-index.js:8-68 | deleting user "1" from the demo data returns `johnDoe` and leaves exactly `janeDoe`, post 3 and comment 4 |
| `RecordStore.CommentOnUnpublishedSeedPost` | src/old-index.js:268-273 | a comment by an existing user on the existing but unpublished demo post 2 is refused and changes nothing |
| `RecordStore.DuplicateSeedEmail` | src/old-index.js:181-185 | a new user with `johnDoe`'s email is refused and changes nothing |

## Left out

- The GraphQL server construction and start-up (src/old-index.js:344-352) are left out. They are transport and I/O done by an external library.
- The `typeDefs` schema string (src/old-index.js:72-134) is left out. It is data for the GraphQL library. The model's record and input types follow it.
- The placeholder resolvers `me` and `post` (src/old-index.js:162-176) are left out. They return fixed records and contain no logic.
- `uuidv4()` is a random generator. The caller passes the new id instead, and the create methods require that no record of that kind already has it (`Records.HasUser`, `Records.HasPost`, `Records.HasComment`). The source leaves uuid collisions to chance.
- `Text.Lower`: only ASCII letters are lower-cased. JavaScript's Unicode case mapping is not modelled, including mappings that change a string's length.
- The resolvers' unused `parent`, `ctx` and `info` parameters are left out. `args` becomes plain parameters.
- A missing search text (`undefined` or `null`) becomes `None`. Both it and the empty string mean "no filter", as `!args.query` does.
- Every `Store` method requires `Valid()`. The source demands nothing of its callers. `Valid()` holds of every store the constructor and the methods can produce, so no caller is excluded.
- `User.age` is an `int`. The schema's output type allows it to be absent, but every user, seeded or created, has one.
- `RecordStore.FilterPostsCascading`: the callback of `posts.filter` reassigns the module-level `comments` as it goes. The model updates a local sequence instead, and `Store.DeleteUser` stores it when the walk ends. Nothing reads `comments` in between, so the end state is the same.
- Concurrency is left out. The server runs resolvers one at a time.
- Thrown errors become `Err` results with one `Error` value per message. The message text itself is not modelled.
