/** The three kinds of record the store keeps, the mutation inputs, the demo
    data the store starts with, and the `some(...)` lookups the mutations
    guard on. */
module Records {

  /** Record ids are opaque strings (`ID` in the schema). */
  type Id = string

  datatype User = User(id: Id, name: string, email: string, age: int)

  /** `author` is the id of a user, copied when the post is created. */
  datatype Post = Post(id: Id, title: string, body: string, published: bool, author: Id)

  /** `author` is a user id and `post` a post id, both copied at creation. */
  datatype Comment = Comment(id: Id, text: string, author: Id, post: Id)

  /** `CreateUserInput`, `CreatePostInput` and `CreateCommentInput`: the
      fields a new record takes besides its id. */
  datatype UserInput = UserInput(name: string, email: string, age: int)
  datatype PostInput = PostInput(title: string, body: string, published: bool, author: Id)
  datatype CommentInput = CommentInput(text: string, author: Id, post: Id)

  /** `{ id, ...data }`: a new record is its id followed by the input's fields. */
  function NewUser(id: Id, data: UserInput): User
  {
    User(id, data.name, data.email, data.age)
  }

  function NewPost(id: Id, data: PostInput): Post
  {
    Post(id, data.title, data.body, data.published, data.author)
  }

  function NewComment(id: Id, data: CommentInput): Comment
  {
    Comment(id, data.text, data.author, data.post)
  }

  /** The keys and tests the resolvers pass to `find`, `findIndex` and `filter`. */
  function UserId(u: User): Id { u.id }
  function PostId(p: Post): Id { p.id }
  function CommentId(c: Comment): Id { c.id }
  /** The key `createUser` refuses to repeat. */
  function UserEmail(u: User): string { u.email }

  function UserIdIs(id: Id): User -> bool { (u: User) => u.id == id }
  function PostIdIs(id: Id): Post -> bool { (p: Post) => p.id == id }
  function CommentIdIs(id: Id): Comment -> bool { (c: Comment) => c.id == id }

  /** `post.author === uid` */
  function PostByAuthor(uid: Id): Post -> bool { (p: Post) => p.author == uid }
  /** `comment.author === uid` */
  function CommentByAuthor(uid: Id): Comment -> bool { (c: Comment) => c.author == uid }
  /** `comment.post === pid` */
  function CommentOnPost(pid: Id): Comment -> bool { (c: Comment) => c.post == pid }

  /** The demo data the module-level arrays are initialised with. */
  const SeedUsers: seq<User> := [
    User("1", "johnDoe", "johndoe@example.com", 100),
    User("2", "janeDoe", "janedoe@example.com", 100)
  ]

  const SeedPosts: seq<Post> := [
    Post("1", "Top front-end framework?", "React.JS is Awesome!", true, "1"),
    Post("2", "Favorite Programming Language?", "Javascript :D!!", false, "1"),
    Post("3", "GraphQL?", "Work in Progress....", true, "2")
  ]

  const SeedComments: seq<Comment> := [
    Comment("1", "first comment", "1", "1"),
    Comment("2", "second comment", "1", "1"),
    Comment("3", "third comment", "2", "2"),
    Comment("4", "fourth comment", "2", "3")
  ]

  /** `users.some(user => user.id === id)` */
  predicate HasUser(users: seq<User>, id: Id)
  {
    exists u :: u in users && u.id == id
  }

  /** `users.some(user => user.email === email)`: an exact, case-sensitive match. */
  predicate EmailInUse(users: seq<User>, email: string)
  {
    exists u :: u in users && u.email == email
  }

  /** `posts.some(post => post.id === id)` */
  predicate HasPost(posts: seq<Post>, id: Id)
  {
    exists p :: p in posts && p.id == id
  }

  /** `posts.some(post => post.id === id && post.published)` */
  predicate HasPublishedPost(posts: seq<Post>, id: Id)
  {
    exists p :: p in posts && p.id == id && p.published
  }

  /** `comments.some(comment => comment.id === id)` */
  predicate HasComment(comments: seq<Comment>, id: Id)
  {
    exists c :: c in comments && c.id == id
  }
}
