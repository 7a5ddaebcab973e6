/** The article service's state-changing operations: creating and removing
    articles, the favourite and like toggles, top-level comments, replies and
    comment deletion. Each operation is a method on the database whose effect
    is the matching `...Step` function of the old state; the cloud image store
    is represented by the outcome of its call (the uploaded image, or whether
    the delete succeeded). */
module ArticleService {
  import opened Util
  import opened Errors
  import opened Records
  import opened Store
  import CommentModel
  import ArticleModel

  /** A reference in a request: absent (or empty), not a well-formed id, or an id. */
  datatype IdInput = Missing | Malformed | Given(id: Id)

  /** The request body of article creation; an absent string is "". */
  datatype ArticleInput = ArticleInput(title: string, description: string, category: IdInput)

  /** The created article as returned to its author. */
  datatype CreatedArticle = CreatedArticle(id: Id, article: Article, isAuthor: bool, isLiked: bool)

  /** A newly stored comment and its id. */
  datatype StoredComment = StoredComment(id: Id, comment: Records.Comment)

  function NotFound(message: string): ErrorRecord {
    ErrorResponse(message, Some(404), "")
  }

  function Plain(message: string): ErrorRecord {
    ErrorResponse(message, None, "")
  }

  // ---------------------------------------------------------------------------
  // Create
  // ---------------------------------------------------------------------------

  /** The checks of `Create`, in order; the first failure is the error. */
  function CreateChecks(s: DbState, input: ArticleInput, upload: Option<Image>): (r: Outcome)
    ensures r.Pass? <==> input.title != "" && input.description != "" && input.category.Given?
                         && input.category.id in s.categories && upload.Some?
    ensures input.title == "" ==> r == Fail(Plain("The article does not contain a title"))
    ensures input.title != "" && input.description == "" ==> r == Fail(Plain("Describe you article"))
    ensures input.title != "" && input.description != "" && input.category.Missing? ==>
              r == Fail(Plain("You must specify a category for your article"))
    ensures input.title != "" && input.description != "" && input.category.Malformed? ==>
              r == Fail(Plain("An error occurred when the server tried to find the category"))
    ensures (input.title != "" && input.description != "" && input.category.Given?
             && input.category.id !in s.categories) ==> r == Fail(Plain("The category not found"))
    ensures (input.title != "" && input.description != "" && input.category.Given?
             && input.category.id in s.categories && upload.None?) ==>
              r == Fail(Plain("An error occurred with uploading image"))
  {
    if input.title == "" then Fail(Plain("The article does not contain a title"))
    else if input.description == "" then Fail(Plain("Describe you article"))
    else if input.category.Missing? then Fail(Plain("You must specify a category for your article"))
    else if input.category.Malformed? then Fail(Plain("An error occurred when the server tried to find the category"))
    else if input.category.id !in s.categories then Fail(Plain("The category not found"))
    else if upload.None? then Fail(Plain("An error occurred with uploading image"))
    else Pass
  }

  /** `Create`: after the checks, the article is stored under a new id and that
      id is set-inserted into the author's `myArticles`. A failed check changes
      nothing. */
  function CreateStep(s: DbState, input: ArticleInput, upload: Option<Image>, author: Id, now: int): (out: (DbState, Result<CreatedArticle>))
    ensures CreateChecks(s, input, upload).Fail? ==> out == (s, Failure(CreateChecks(s, input, upload).error))
    ensures out.1.Success? <==> CreateChecks(s, input, upload).Pass?
    ensures out.1.Success? ==>
              var c := out.1.value;
              && c.id == s.nextId && c.isAuthor && !c.isLiked
              && c.article == Article(upload.value, input.title, input.description, author,
                                      input.category.id, [], [], now)
              && out.0.articles == s.articles[c.id := c.article]
              && out.0.comments == s.comments && out.0.categories == s.categories
              && out.0.nextId == s.nextId + 1
              && out.0.users.Keys == s.users.Keys
              && (author in s.users ==>
                    out.0.users[author].myArticles == AddToSet(s.users[author].myArticles, c.id)
                    && c.id in out.0.users[author].myArticles
                    && out.0.users[author].(myArticles := s.users[author].myArticles) == s.users[author])
              && (forall u :: u in s.users && u != author ==> out.0.users[u] == s.users[u])
  {
    var checks := CreateChecks(s, input, upload);
    if checks.Fail? then (s, Failure(checks.error))
    else
      var id := s.nextId;
      var article := Article(upload.value, input.title, input.description, author, input.category.id, [], [], now);
      var users := if author in s.users
                   then s.users[author := s.users[author].(myArticles := AddToSet(s.users[author].myArticles, id))]
                   else s.users;
      (s.(articles := s.articles[id := article], users := users, nextId := id + 1),
       Success(CreatedArticle(id, article, true, false)))
  }

  method Create(db: Db, input: ArticleInput, upload: Option<Image>, author: Id, now: int) returns (r: Result<CreatedArticle>)
    modifies db
    ensures (db.State(), r) == CreateStep(old(db.State()), input, upload, author, now)
  {
    var checks := CreateChecks(db.State(), input, upload);
    if checks.Fail? {
      return Failure(checks.error);
    }
    var article := Article(upload.value, input.title, input.description, author, input.category.id, [], [], now);
    var id := db.CreateArticle(article);
    if author in db.users {
      db.UpdateUser(author, db.users[author].(myArticles := AddToSet(db.users[author].myArticles, id)));
    }
    r := Success(CreatedArticle(id, article, true, false));
  }

  /** Creating an article keeps the store consistent. */
  lemma {:induction false} CreateKeepsConsistent(s: DbState, input: ArticleInput, upload: Option<Image>, author: Id, now: int)
    requires Consistent(s)
    ensures Consistent(CreateStep(s, input, upload, author, now).0)
  {
    var r := CreateStep(s, input, upload, author, now).0;
    if CreateChecks(s, input, upload).Pass? {
      forall u | u in r.users
        ensures r.users[u].name == s.users[u].name && r.users[u].email == s.users[u].email
      {
        if u == author {
          assert r.users[u].(myArticles := s.users[u].myArticles) == s.users[u];
        }
      }
      assert UniqueKeys(r.users);
      assert Fresh(r);
    }
  }

  // ---------------------------------------------------------------------------
  // RemoveArticle
  // ---------------------------------------------------------------------------

  /** `RemoveArticle`: only the author may remove an article, and only after
      its image was deleted; the removal runs the article hook. */
  function RemoveArticleStep(s: DbState, articleId: Id, caller: Id, imageDeleted: bool): (out: (DbState, Outcome))
    ensures articleId !in s.articles ==> out == (s, Fail(Plain("Article not found")))
    ensures articleId in s.articles && s.articles[articleId].author != caller ==>
              out == (s, Fail(Plain("You are not author of this article")))
    ensures articleId in s.articles && s.articles[articleId].author == caller && !imageDeleted ==>
              out == (s, Fail(Plain("The error occurred with deleting photo")))
    ensures out.1.Pass? <==> articleId in s.articles && s.articles[articleId].author == caller && imageDeleted
    ensures out.1.Pass? ==> out.0 == ArticleModel.Deleted(s, articleId) && articleId !in out.0.articles
  {
    if articleId !in s.articles then (s, Fail(Plain("Article not found")))
    else if s.articles[articleId].author != caller then (s, Fail(Plain("You are not author of this article")))
    else if !imageDeleted then (s, Fail(Plain("The error occurred with deleting photo")))
    else (ArticleModel.Deleted(s, articleId), Pass)
  }

  method RemoveArticle(db: Db, articleId: Id, caller: Id, imageDeleted: bool) returns (r: Outcome)
    modifies db
    ensures (db.State(), r) == RemoveArticleStep(old(db.State()), articleId, caller, imageDeleted)
  {
    if articleId !in db.articles {
      return Fail(Plain("Article not found"));
    }
    if db.articles[articleId].author != caller {
      return Fail(Plain("You are not author of this article"));
    }
    if !imageDeleted {
      return Fail(Plain("The error occurred with deleting photo"));
    }
    var _ := db.FindByIdAndDeleteArticle(articleId);
    r := Pass;
  }

  /** Removing an article keeps the store consistent. */
  lemma {:induction false} RemoveArticleKeepsConsistent(s: DbState, articleId: Id, caller: Id, imageDeleted: bool)
    requires Consistent(s)
    ensures Consistent(RemoveArticleStep(s, articleId, caller, imageDeleted).0)
  {
    if articleId in s.articles && s.articles[articleId].author == caller && imageDeleted {
      ArticleModel.DeletedKeepsConsistent(s, articleId);
    }
  }

  /** Creating an article and removing it again restores the articles, the
      comments and the categories; the author's `myArticles` no longer holds
      the id. */
  lemma {:induction false} CreateThenRemove(s: DbState, input: ArticleInput, image: Image, author: Id, now: int)
    requires Consistent(s)
    requires CreateChecks(s, input, Some(image)).Pass?
    ensures var created := CreateStep(s, input, Some(image), author, now);
            var removed := RemoveArticleStep(created.0, created.1.value.id, author, true);
            && removed.1.Pass?
            && removed.0.articles == s.articles
            && removed.0.comments == s.comments
            && removed.0.categories == s.categories
            && (author in s.users ==> s.nextId !in removed.0.users[author].myArticles)
  {
    var created := CreateStep(s, input, Some(image), author, now);
    var id := created.1.value.id;
    assert id == s.nextId && id !in s.articles;
    assert created.0.articles[id].comments == [];
    var removed := RemoveArticleStep(created.0, id, author, true);
    assert removed.0.articles == s.articles;
    assert removed.0.comments == s.comments;
  }

  // ---------------------------------------------------------------------------
  // Toggles
  // ---------------------------------------------------------------------------

  /** `FavouriteArticle`: the article's membership in the caller's
      `favouriteArticles` becomes `toFavorite`; nothing else changes, and
      nothing at all when it already had that value. */
  function FavouriteArticleStep(s: DbState, articleId: Id, caller: Id, toFavorite: bool): (out: (DbState, Outcome))
    requires caller in s.users
    ensures articleId !in s.articles ==> out == (s, Fail(NotFound("Article not found")))
    ensures articleId in s.articles ==> out.1.Pass?
    ensures (articleId in s.users[caller].favouriteArticles) == toFavorite ==> out.0 == s
    ensures out.0.(users := s.users) == s && out.0.users.Keys == s.users.Keys
    ensures forall u :: u in s.users && u != caller ==> out.0.users[u] == s.users[u]
    ensures out.0.users[caller].(favouriteArticles := s.users[caller].favouriteArticles) == s.users[caller]
    ensures out.1.Pass? ==> (articleId in out.0.users[caller].favouriteArticles) == toFavorite
    ensures forall a :: a != articleId ==>
              (a in out.0.users[caller].favouriteArticles <==> a in s.users[caller].favouriteArticles)
  {
    if articleId !in s.articles then (s, Fail(NotFound("Article not found")))
    else
      var user := s.users[caller];
      var favourites := SetMembership(user.favouriteArticles, articleId, toFavorite);
      if favourites == user.favouriteArticles then (s, Pass)
      else (s.(users := s.users[caller := user.(favouriteArticles := favourites)]), Pass)
  }

  method FavouriteArticle(db: Db, articleId: Id, caller: Id, toFavorite: bool) returns (r: Outcome)
    requires caller in db.users
    modifies db
    ensures (db.State(), r) == FavouriteArticleStep(old(db.State()), articleId, caller, toFavorite)
  {
    if articleId !in db.articles {
      return Fail(NotFound("Article not found"));
    }
    var user := db.users[caller];
    var isSaved := articleId in user.favouriteArticles;
    if toFavorite && !isSaved {
      db.UpdateUser(caller, user.(favouriteArticles := AddToSet(user.favouriteArticles, articleId)));
    }
    if isSaved && !toFavorite {
      db.UpdateUser(caller, user.(favouriteArticles := Pull(user.favouriteArticles, articleId)));
    }
    r := Pass;
  }

  /** `LikeArticle`: the caller's membership in the article's `likes` becomes
      `toLike`; nothing else changes. */
  function LikeArticleStep(s: DbState, articleId: Id, caller: Id, toLike: bool): (out: (DbState, Outcome))
    ensures articleId !in s.articles ==> out == (s, Fail(NotFound("Article not found")))
    ensures articleId in s.articles ==> out.1.Pass?
    ensures articleId in s.articles && (caller in s.articles[articleId].likes) == toLike ==> out.0 == s
    ensures out.0.(articles := s.articles) == s && out.0.articles.Keys == s.articles.Keys
    ensures forall a :: a in s.articles && a != articleId ==> out.0.articles[a] == s.articles[a]
    ensures out.1.Pass? ==>
              (caller in out.0.articles[articleId].likes) == toLike
              && out.0.articles[articleId].(likes := s.articles[articleId].likes) == s.articles[articleId]
              && forall u :: u != caller ==> (u in out.0.articles[articleId].likes <==> u in s.articles[articleId].likes)
  {
    if articleId !in s.articles then (s, Fail(NotFound("Article not found")))
    else
      var article := s.articles[articleId];
      var likes := SetMembership(article.likes, caller, toLike);
      if likes == article.likes then (s, Pass)
      else (s.(articles := s.articles[articleId := article.(likes := likes)]), Pass)
  }

  method LikeArticle(db: Db, articleId: Id, caller: Id, toLike: bool) returns (r: Outcome)
    modifies db
    ensures (db.State(), r) == LikeArticleStep(old(db.State()), articleId, caller, toLike)
  {
    if articleId !in db.articles {
      return Fail(NotFound("Article not found"));
    }
    var article := db.articles[articleId];
    var isLiked := caller in article.likes;
    if toLike && !isLiked {
      db.UpdateArticle(articleId, article.(likes := AddToSet(article.likes, caller)));
    }
    if isLiked && !toLike {
      db.UpdateArticle(articleId, article.(likes := Pull(article.likes, caller)));
    }
    r := Pass;
  }

  /** Whether the caller likes a comment; a comment without a likes array is not liked. */
  predicate CommentLiked(c: Records.Comment, caller: Id) {
    c.likes.Some? && caller in c.likes.value
  }

  /** `LikeComment`: like `LikeArticle` on the comment's `likes`, where an
      absent array counts as empty and `$addToSet` creates it. */
  function LikeCommentStep(s: DbState, commentId: Id, caller: Id, toLike: bool): (out: (DbState, Outcome))
    ensures commentId !in s.comments ==> out == (s, Fail(NotFound("Comment not found")))
    ensures commentId in s.comments ==> out.1.Pass?
    ensures commentId in s.comments && CommentLiked(s.comments[commentId], caller) == toLike ==> out.0 == s
    ensures out.0.(comments := s.comments) == s && out.0.comments.Keys == s.comments.Keys
    ensures forall c :: c in s.comments && c != commentId ==> out.0.comments[c] == s.comments[c]
    ensures out.1.Pass? ==>
              CommentLiked(out.0.comments[commentId], caller) == toLike
              && out.0.comments[commentId].(likes := s.comments[commentId].likes) == s.comments[commentId]
              && forall u :: u != caller ==>
                   (CommentLiked(out.0.comments[commentId], u) <==> CommentLiked(s.comments[commentId], u))
  {
    if commentId !in s.comments then (s, Fail(NotFound("Comment not found")))
    else
      var comment := s.comments[commentId];
      var liked := CommentLiked(comment, caller);
      if toLike && !liked then
        (s.(comments := s.comments[commentId := comment.(likes := Some(AddToSet(comment.likes.GetOr([]), caller)))]), Pass)
      else if !toLike && liked then
        (s.(comments := s.comments[commentId := comment.(likes := Some(Pull(comment.likes.value, caller)))]), Pass)
      else (s, Pass)
  }

  method LikeComment(db: Db, commentId: Id, caller: Id, toLike: bool) returns (r: Outcome)
    modifies db
    ensures (db.State(), r) == LikeCommentStep(old(db.State()), commentId, caller, toLike)
  {
    if commentId !in db.comments {
      return Fail(NotFound("Comment not found"));
    }
    var comment := db.comments[commentId];
    var isCommentLiked := CommentLiked(comment, caller);
    if toLike && !isCommentLiked {
      db.UpdateComment(commentId, comment.(likes := Some(AddToSet(comment.likes.GetOr([]), caller))));
    }
    if !toLike && isCommentLiked {
      db.UpdateComment(commentId, comment.(likes := Some(Pull(comment.likes.value, caller))));
    }
    r := Pass;
  }

  /** Repeating a toggle changes nothing: each is idempotent. */
  lemma {:induction false} TogglesIdempotent(s: DbState, id: Id, caller: Id, want: bool)
    ensures var once := LikeArticleStep(s, id, caller, want).0;
            LikeArticleStep(once, id, caller, want).0 == once
    ensures var once := LikeCommentStep(s, id, caller, want).0;
            LikeCommentStep(once, id, caller, want).0 == once
    ensures caller in s.users ==>
              var once := FavouriteArticleStep(s, id, caller, want).0;
              FavouriteArticleStep(once, id, caller, want).0 == once
  {
  }

  /** Liking and then unliking an article removes the caller from its likes
      altogether, even when the list held the caller more than once. */
  lemma {:induction false} LikeThenUnlike(s: DbState, articleId: Id, caller: Id)
    requires articleId in s.articles
    ensures var liked := LikeArticleStep(s, articleId, caller, true).0;
            var unliked := LikeArticleStep(liked, articleId, caller, false).0;
            unliked.articles[articleId].likes == Pull(s.articles[articleId].likes, caller)
            && unliked.articles[articleId].(likes := s.articles[articleId].likes) == s.articles[articleId]
  {
    var likes := s.articles[articleId].likes;
    PullUndoesAddToSet(likes, caller);
  }

  // ---------------------------------------------------------------------------
  // Comments
  // ---------------------------------------------------------------------------

  /** `Comment`: a new top-level comment on an existing article, appended to
      the end of the article's `comments`. */
  function CommentStep(s: DbState, articleId: Id, author: Id, text: string, now: int): (out: (DbState, Result<StoredComment>))
    ensures articleId !in s.articles ==> out == (s, Failure(NotFound("Article not found")))
    ensures articleId in s.articles && text == "" ==>
              out == (s, Failure(ValidationError("Comment validation failed", [PathError("text", "Please add comment text")])))
    ensures out.1.Success? <==> articleId in s.articles && text != ""
    ensures out.1.Success? ==>
              var c := out.1.value;
              && c.id == s.nextId
              && c.comment == CommentModel.NewComment(text, author, articleId, None, None, now)
              && out.0.comments == s.comments[c.id := c.comment]
              && out.0.articles == s.articles[articleId := s.articles[articleId].(comments := s.articles[articleId].comments + [c.id])]
              && out.0.users == s.users && out.0.categories == s.categories && out.0.nextId == c.id + 1
  {
    if articleId !in s.articles then (s, Failure(NotFound("Article not found")))
    else
      var comment := CommentModel.NewComment(text, author, articleId, None, None, now);
      var valid := CommentModel.ValidateComment(comment);
      if valid.Fail? then (s, Failure(valid.error))
      else
        var id := s.nextId;
        var article := s.articles[articleId];
        (s.(comments := s.comments[id := comment],
            articles := s.articles[articleId := article.(comments := article.comments + [id])],
            nextId := id + 1),
         Success(StoredComment(id, comment)))
  }

  method Comment(db: Db, articleId: Id, author: Id, text: string, now: int) returns (r: Result<StoredComment>)
    modifies db
    ensures (db.State(), r) == CommentStep(old(db.State()), articleId, author, text, now)
  {
    if articleId !in db.articles {
      return Failure(NotFound("Article not found"));
    }
    var comment := CommentModel.NewComment(text, author, articleId, None, None, now);
    var valid := CommentModel.ValidateComment(comment);
    if valid.Fail? {
      return Failure(valid.error);
    }
    var id := db.CreateComment(comment);
    var article := db.articles[articleId];
    db.UpdateArticle(articleId, article.(comments := article.comments + [id]));
    r := Success(StoredComment(id, comment));
  }

  /** The `mainParent` a reply to `parent` receives: the parent's own
      `mainParent`, or the parent itself when it is top-level. */
  function ThreadRoot(parent: Records.Comment, parentId: Id): Id {
    parent.mainParent.GetOr(parentId)
  }

  /** `CreateCommentReply`: a reply under an existing comment, on the same
      article, appended to the direct parent's `replies` only. */
  function ReplyStep(s: DbState, parentId: Id, author: Id, text: string, now: int): (out: (DbState, Result<StoredComment>))
    ensures parentId !in s.comments ==> out == (s, Failure(NotFound("Comment not found")))
    ensures parentId in s.comments && text == "" ==>
              out == (s, Failure(ValidationError("Comment validation failed", [PathError("text", "Please add comment text")])))
    ensures out.1.Success? <==> parentId in s.comments && text != ""
    ensures out.1.Success? ==>
              var c := out.1.value;
              var parent := s.comments[parentId];
              && c.id == s.nextId
              && c.comment.parent == Some(parentId)
              && c.comment.mainParent == Some(if parent.mainParent.Some? then parent.mainParent.value else parentId)
              && c.comment.article == parent.article
              && c.comment.author == author && c.comment.text == text
              && c.comment.replies == [] && c.comment.likes == Some([])
              && out.0.comments == s.comments[c.id := c.comment][parentId := parent.(replies := parent.replies + [c.id])]
              && out.0.articles == s.articles && out.0.users == s.users
              && out.0.categories == s.categories && out.0.nextId == c.id + 1
  {
    if parentId !in s.comments then (s, Failure(NotFound("Comment not found")))
    else
      var parent := s.comments[parentId];
      var comment := CommentModel.NewComment(text, author, parent.article, Some(parentId), Some(ThreadRoot(parent, parentId)), now);
      var valid := CommentModel.ValidateComment(comment);
      if valid.Fail? then (s, Failure(valid.error))
      else
        var id := s.nextId;
        (s.(comments := s.comments[id := comment][parentId := parent.(replies := parent.replies + [id])],
            nextId := id + 1),
         Success(StoredComment(id, comment)))
  }

  method CreateCommentReply(db: Db, parentId: Id, author: Id, text: string, now: int) returns (r: Result<StoredComment>)
    modifies db
    ensures (db.State(), r) == ReplyStep(old(db.State()), parentId, author, text, now)
  {
    if parentId !in db.comments {
      return Failure(NotFound("Comment not found"));
    }
    var parent := db.comments[parentId];
    var comment := CommentModel.NewComment(text, author, parent.article, Some(parentId), Some(ThreadRoot(parent, parentId)), now);
    var valid := CommentModel.ValidateComment(comment);
    if valid.Fail? {
      return Failure(valid.error);
    }
    var id := db.CreateComment(comment);
    db.UpdateComment(parentId, parent.(replies := parent.replies + [id]));
    r := Success(StoredComment(id, comment));
  }

  /** In a consistent store the new id is fresh, so the reply is stored as
      given and the parent gains exactly it at the end of its `replies`. */
  lemma {:induction false} ReplyAppendsToParent(s: DbState, parentId: Id, author: Id, text: string, now: int)
    requires Consistent(s) && parentId in s.comments && text != ""
    ensures var out := ReplyStep(s, parentId, author, text, now);
            && out.1.value.id !in s.comments
            && out.0.comments[out.1.value.id] == out.1.value.comment
            && out.0.comments[parentId].replies == s.comments[parentId].replies + [out.1.value.id]
            && out.0.comments.Keys == s.comments.Keys + {out.1.value.id}
  {
    var out := ReplyStep(s, parentId, author, text, now);
    assert out.1.value.id == s.nextId;
    assert s.nextId != parentId;
  }

  /** A reply's `mainParent`, while it exists, is a top-level comment, and
      threads stay flat: adding a reply keeps the store consistent. */
  lemma {:induction false} ReplyKeepsConsistent(s: DbState, parentId: Id, author: Id, text: string, now: int)
    requires Consistent(s)
    ensures var out := ReplyStep(s, parentId, author, text, now);
            && Consistent(out.0)
            && (out.1.Success? ==>
                  var root := out.1.value.comment.mainParent.value;
                  root in out.0.comments ==>
                    out.0.comments[root].mainParent.None? && out.0.comments[root].parent.None?)
  {
    var out := ReplyStep(s, parentId, author, text, now);
    if out.1.Success? {
      var id := s.nextId;
      assert id != parentId;
      forall k | k in out.0.comments && k != id
        ensures out.0.comments[k].parent == s.comments[k].parent
        ensures out.0.comments[k].mainParent == s.comments[k].mainParent
      {
      }
      assert Fresh(out.0);
      assert ThreadsFlat(out.0.comments);
    }
  }

  /** Adding a top-level comment keeps the store consistent. */
  lemma {:induction false} CommentKeepsConsistent(s: DbState, articleId: Id, author: Id, text: string, now: int)
    requires Consistent(s)
    ensures Consistent(CommentStep(s, articleId, author, text, now).0)
  {
    var out := CommentStep(s, articleId, author, text, now);
    if out.1.Success? {
      assert Fresh(out.0);
      assert ThreadsFlat(out.0.comments);
    }
  }

  // ---------------------------------------------------------------------------
  // DeleteComment
  // ---------------------------------------------------------------------------

  /** `DeleteComment`: only the author may delete a comment; the deletion runs
      the comment hook. */
  function DeleteCommentStep(s: DbState, commentId: Id, caller: Id): (out: (DbState, Outcome))
    ensures commentId !in s.comments ==> out == (s, Fail(NotFound("Comment not found")))
    ensures commentId in s.comments && s.comments[commentId].author != caller ==>
              out == (s, Fail(ErrorResponse("You are not the author of the comment", Some(400), "")))
    ensures out.1.Pass? <==> commentId in s.comments && s.comments[commentId].author == caller
    ensures out.1.Pass? ==> out.0 == CommentModel.Deleted(s, commentId) && commentId !in out.0.comments
  {
    if commentId !in s.comments then (s, Fail(NotFound("Comment not found")))
    else if s.comments[commentId].author != caller then
      (s, Fail(ErrorResponse("You are not the author of the comment", Some(400), "")))
    else (CommentModel.Deleted(s, commentId), Pass)
  }

  method DeleteComment(db: Db, commentId: Id, caller: Id) returns (r: Outcome)
    modifies db
    ensures (db.State(), r) == DeleteCommentStep(old(db.State()), commentId, caller)
  {
    if commentId !in db.comments {
      return Fail(NotFound("Comment not found"));
    }
    if db.comments[commentId].author != caller {
      return Fail(ErrorResponse("You are not the author of the comment", Some(400), ""));
    }
    var _ := db.FindOneAndDeleteComment(commentId);
    r := Pass;
  }

  /** Deleting a comment keeps the store consistent. */
  lemma {:induction false} DeleteCommentKeepsConsistent(s: DbState, commentId: Id, caller: Id)
    requires Consistent(s)
    ensures Consistent(DeleteCommentStep(s, commentId, caller).0)
  {
    if commentId in s.comments && s.comments[commentId].author == caller {
      CommentModel.DeletedKeepsConsistent(s, commentId);
    }
  }

  /** A comment posted and then deleted by its author leaves the comments as
      they were and the article's `comments` without the new id. */
  lemma {:induction false} CommentThenDelete(s: DbState, articleId: Id, author: Id, text: string, now: int)
    requires Consistent(s) && articleId in s.articles && text != ""
    ensures var posted := CommentStep(s, articleId, author, text, now);
            var deleted := DeleteCommentStep(posted.0, posted.1.value.id, author);
            && deleted.1.Pass?
            && deleted.0.comments.Keys == s.comments.Keys
            && deleted.0.articles[articleId].comments == Pull(s.articles[articleId].comments, posted.1.value.id)
  {
    var posted := CommentStep(s, articleId, author, text, now);
    var id := s.nextId;
    assert id !in s.comments;
    CommentModel.DeletedLeaf(posted.0, id, articleId, s.articles[articleId].comments);
  }
}
