/** The database the services are given: the four Mongoose models as one
    object holding an id-keyed map per collection. Its methods are the model
    operations the services call; the two deletes run the post hooks of the
    comment and article schemas. */
module Store {
  import opened Util
  import opened Records
  import CommentModel
  import ArticleModel

  class Db {
    var users: map<Id, User>
    var articles: map<Id, Article>
    var comments: map<Id, Comment>
    var categories: map<Id, Category>
    var nextId: Id

    /** The collections as one value. */
    function State(): DbState
      reads this
    {
      DbState(users, articles, comments, categories, nextId)
    }

    /** An empty database. */
    constructor ()
      ensures State() == DbState(map[], map[], map[], map[], 0)
      ensures Consistent(State())
    {
      users, articles, comments, categories, nextId := map[], map[], map[], map[], 0;
    }

    /** `User.create` after validation: the document is stored under a new id. */
    method CreateUser(u: User) returns (id: Id)
      modifies this
      ensures id == old(nextId)
      ensures State() == old(State()).(users := old(users)[id := u], nextId := id + 1)
    {
      id := nextId;
      users := users[id := u];
      nextId := nextId + 1;
    }

    /** `Article.create`. */
    method CreateArticle(a: Article) returns (id: Id)
      modifies this
      ensures id == old(nextId)
      ensures State() == old(State()).(articles := old(articles)[id := a], nextId := id + 1)
    {
      id := nextId;
      articles := articles[id := a];
      nextId := nextId + 1;
    }

    /** `Comment.create` after validation. */
    method CreateComment(c: Comment) returns (id: Id)
      modifies this
      ensures id == old(nextId)
      ensures State() == old(State()).(comments := old(comments)[id := c], nextId := id + 1)
    {
      id := nextId;
      comments := comments[id := c];
      nextId := nextId + 1;
    }

    /** `Category.create`. */
    method CreateCategory(c: Category) returns (id: Id)
      modifies this
      ensures id == old(nextId)
      ensures State() == old(State()).(categories := old(categories)[id := c], nextId := id + 1)
    {
      id := nextId;
      categories := categories[id := c];
      nextId := nextId + 1;
    }

    /** `User.findByIdAndUpdate`: replaces the stored user; a missing id changes nothing. */
    method UpdateUser(id: Id, u: User)
      modifies this
      ensures State() == old(State()).(users := if id in old(users) then old(users)[id := u] else old(users))
    {
      if id in users {
        users := users[id := u];
      }
    }

    /** `Article.findByIdAndUpdate`. */
    method UpdateArticle(id: Id, a: Article)
      modifies this
      ensures State() == old(State()).(articles := if id in old(articles) then old(articles)[id := a] else old(articles))
    {
      if id in articles {
        articles := articles[id := a];
      }
    }

    /** `Comment.findByIdAndUpdate`. */
    method UpdateComment(id: Id, c: Comment)
      modifies this
      ensures State() == old(State()).(comments := if id in old(comments) then old(comments)[id := c] else old(comments))
    {
      if id in comments {
        comments := comments[id := c];
      }
    }

    /** `Comment.findOneAndDelete` followed by its post hook, in the hook's order.
        For an absent id the hook would read a null document; the services look
        the comment up first, so that case never reaches here and is modelled
        as a no-op. */
    method FindOneAndDeleteComment(id: Id) returns (doc: Option<Comment>)
      modifies this
      ensures doc == if id in old(comments) then Some(old(comments)[id]) else None
      ensures State() == if id in old(comments) then CommentModel.Deleted(old(State()), id) else old(State())
    {
      if id !in comments {
        return None;
      }
      var d := comments[id];
      comments := comments - {id};
      articles := CommentModel.PullFromArticles(articles, id);
      comments := CommentModel.PullFromReplies(comments, id);
      if |d.replies| > 0 {
        comments := comments - Elements(d.replies);
      }
      doc := Some(d);
    }

    /** `Article.findByIdAndDelete` followed by its post hook. For an absent id
        the hook would read a null document; the services look the article up
        first, so that case never reaches here and is modelled as a no-op. */
    method FindByIdAndDeleteArticle(id: Id) returns (doc: Option<Article>)
      modifies this
      ensures doc == if id in old(articles) then Some(old(articles)[id]) else None
      ensures State() == if id in old(articles) then ArticleModel.Deleted(old(State()), id) else old(State())
    {
      if id !in articles {
        return None;
      }
      var d := articles[id];
      articles := articles - {id};
      comments := comments - Elements(d.comments);
      users := ArticleModel.PullFromUsers(users, id);
      doc := Some(d);
    }
  }
}
