/** The documents of the four collections (users, articles, comments and
    categories) and the state of the whole database as one value. Timestamps
    are integer milliseconds; references are ids. */
module Records {
  import opened Util

  datatype Role = USER | ADMIN

  datatype Gender = MALE | FEMALE

  /** A user document. `password` holds what is stored (a hash once saved);
      the two lists reference articles. */
  datatype User = User(
    name: string,
    email: string,
    password: Option<string>,
    role: Role,
    gender: Option<Gender>,
    avatar: Option<string>,
    age: Option<int>,
    favouriteArticles: seq<Id>,
    myArticles: seq<Id>,
    createdAt: int)

  /** The sub-document describing an uploaded picture. */
  datatype Image = Image(publicId: string, createdAt: string, url: string, secureUrl: string)

  /** An article document: single references to its author and category, id
      lists of the users who like it and of its top-level comments. */
  datatype Article = Article(
    image: Image,
    title: string,
    description: string,
    author: Id,
    category: Id,
    likes: seq<Id>,
    comments: seq<Id>,
    createdAt: int)

  /** A comment document. `parent` and `mainParent` are optional single
      references (both absent on a top-level comment); `replies` lists the
      direct replies; `likes` is None on a document that has no likes array. */
  datatype Comment = Comment(
    text: string,
    author: Id,
    article: Id,
    parent: Option<Id>,
    mainParent: Option<Id>,
    replies: seq<Id>,
    likes: Option<seq<Id>>,
    createdAt: int)

  datatype Category = Category(name: string, createdAt: int)

  /** The four collections. `nextId` is the id the next insert receives: every
      insert in any collection takes a new one, as ObjectIds never repeat. */
  datatype DbState = DbState(
    users: map<Id, User>,
    articles: map<Id, Article>,
    comments: map<Id, Comment>,
    categories: map<Id, Category>,
    nextId: Id)

  /** The unique indexes on `name` and `email`: no two users share either. */
  ghost predicate UniqueKeys(users: map<Id, User>) {
    forall a, b :: a in users && b in users && a != b ==>
      users[a].name != users[b].name && users[a].email != users[b].email
  }

  /** Every id in use, as a key or as a thread reference, is below `nextId`. */
  ghost predicate Fresh(s: DbState) {
    && (forall k :: k in s.users ==> k < s.nextId)
    && (forall k :: k in s.articles ==> k < s.nextId)
    && (forall k :: k in s.categories ==> k < s.nextId)
    && (forall k :: k in s.comments ==>
          && k < s.nextId
          && (s.comments[k].mainParent.Some? ==> s.comments[k].mainParent.value < s.nextId)
          && (s.comments[k].parent.Some? ==> s.comments[k].parent.value < s.nextId))
  }

  /** A comment is top-level exactly when it has no `parent`, and a reply's
      `mainParent`, while it exists, is a top-level comment. */
  ghost predicate ThreadsFlat(comments: map<Id, Comment>) {
    forall k :: k in comments ==>
      && (comments[k].parent.None? <==> comments[k].mainParent.None?)
      && (comments[k].mainParent.Some? && comments[k].mainParent.value in comments ==>
            comments[comments[k].mainParent.value].mainParent.None?)
  }

  /** The invariant every service call preserves. */
  ghost predicate Consistent(s: DbState) {
    Fresh(s) && UniqueKeys(s.users) && ThreadsFlat(s.comments)
  }
}
