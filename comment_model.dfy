/** The comment schema and its `findOneAndDelete` post hook. The hook pulls
    the deleted id from every article's `comments` and every comment's
    `replies`, then bulk-deletes the direct replies; the bulk delete runs no
    hook, so the cascade stops one level down. */
module CommentModel {
  import opened Util
  import opened Errors
  import opened Records

  /** The `required` validator of `text`, run when a comment is created. */
  function ValidateComment(c: Comment): (r: Outcome)
    ensures r.Pass? <==> c.text != ""
    ensures r.Fail? ==> r.error == ValidationError("Comment validation failed",
                                                   [PathError("text", "Please add comment text")])
  {
    if c.text == "" then
      Fail(ValidationError("Comment validation failed", [PathError("text", "Please add comment text")]))
    else Pass
  }

  /** A new comment with the schema defaults: no replies and an empty likes array. */
  function NewComment(text: string, author: Id, article: Id, parent: Option<Id>, mainParent: Option<Id>, now: int): (c: Comment)
    ensures c.replies == [] && c.likes == Some([])
    ensures c.text == text && c.author == author && c.article == article
    ensures c.parent == parent && c.mainParent == mainParent && c.createdAt == now
  {
    Comment(text, author, article, parent, mainParent, [], Some([]), now)
  }

  /** `Article.updateMany` with `$pull` of `id` from `comments`. */
  function PullFromArticles(articles: map<Id, Article>, id: Id): (r: map<Id, Article>)
    ensures r.Keys == articles.Keys
    ensures forall a :: a in r ==> id !in r[a].comments
    ensures forall a :: a in r ==> multiset(r[a].comments) == multiset(articles[a].comments)[id := 0]
    ensures forall a :: a in r ==> r[a].(comments := articles[a].comments) == articles[a]
  {
    map a | a in articles :: articles[a].(comments := Pull(articles[a].comments, id))
  }

  /** `Comment.updateMany` with `$pull` of `id` from `replies`. */
  function PullFromReplies(comments: map<Id, Comment>, id: Id): (r: map<Id, Comment>)
    ensures r.Keys == comments.Keys
    ensures forall c :: c in r ==> id !in r[c].replies
    ensures forall c :: c in r ==> multiset(r[c].replies) == multiset(comments[c].replies)[id := 0]
    ensures forall c :: c in r ==> r[c].(replies := comments[c].replies) == comments[c]
  {
    map c | c in comments :: comments[c].(replies := Pull(comments[c].replies, id))
  }

  /** The state after `findOneAndDelete` removed comment `id` and its post hook
      ran. The comments that disappear are exactly the deleted one and its
      direct replies; every survivor keeps all its fields except that `id`
      leaves its `replies`; every article keeps all its fields except that `id`
      leaves its `comments`. */
  function Deleted(s: DbState, id: Id): (r: DbState)
    requires id in s.comments
    ensures r.users == s.users && r.categories == s.categories && r.nextId == s.nextId
    ensures r.articles.Keys == s.articles.Keys
    ensures forall a :: a in r.articles ==>
              id !in r.articles[a].comments
              && multiset(r.articles[a].comments) == multiset(s.articles[a].comments)[id := 0]
              && r.articles[a].(comments := s.articles[a].comments) == s.articles[a]
    ensures r.comments.Keys == s.comments.Keys - {id} - Elements(s.comments[id].replies)
    ensures forall c :: c in r.comments ==>
              id !in r.comments[c].replies
              && multiset(r.comments[c].replies) == multiset(s.comments[c].replies)[id := 0]
              && r.comments[c].(replies := s.comments[c].replies) == s.comments[c]
  {
    var doc := s.comments[id];
    var articles := PullFromArticles(s.articles, id);
    var comments := PullFromReplies(s.comments - {id}, id);
    var comments := if |doc.replies| > 0 then comments - Elements(doc.replies) else comments;
    s.(articles := articles, comments := comments)
  }

  /** The hook keeps the store consistent: survivors keep their thread
      references, and a reference that now dangles constrains nothing. */
  lemma {:induction false} DeletedKeepsConsistent(s: DbState, id: Id)
    requires id in s.comments && Consistent(s)
    ensures Consistent(Deleted(s, id))
  {
    var r := Deleted(s, id);
    forall k | k in r.comments
      ensures r.comments[k].parent == s.comments[k].parent
      ensures r.comments[k].mainParent == s.comments[k].mainParent
    {
      assert r.comments[k].(replies := s.comments[k].replies) == s.comments[k];
    }
    assert Fresh(r);
    assert ThreadsFlat(r.comments);
  }

  /** Deleting a comment without replies removes only that comment, and pulls
      it from the list it was appended to. */
  lemma {:induction false} DeletedLeaf(s: DbState, id: Id, articleId: Id, before: seq<Id>)
    requires id in s.comments && s.comments[id].replies == []
    requires articleId in s.articles && s.articles[articleId].comments == before + [id]
    ensures Deleted(s, id).comments.Keys == s.comments.Keys - {id}
    ensures articleId in Deleted(s, id).articles
    ensures Deleted(s, id).articles[articleId].comments == Pull(before, id)
  {
    assert Elements(s.comments[id].replies) == {};
    PullAppended(before, id);
  }

  /** The cascade is one level deep: a reply to a deleted reply survives, and
      its `parent` now names a comment that no longer exists. */
  lemma {:induction false} GrandchildSurvives(s: DbState, id: Id, child: Id, grandchild: Id)
    requires id in s.comments && child in s.comments[id].replies
    requires grandchild in s.comments && s.comments[grandchild].parent == Some(child)
    requires grandchild != id && grandchild !in s.comments[id].replies
    ensures grandchild in Deleted(s, id).comments
    ensures Deleted(s, id).comments[grandchild].parent == Some(child)
    ensures child !in Deleted(s, id).comments
  {
  }

  /** Deleting a top-level comment leaves no trace of its id in any article
      and removes its whole one-level thread. */
  lemma {:induction false} TopLevelDeleteClearsArticles(s: DbState, id: Id)
    requires id in s.comments && s.comments[id].parent.None?
    ensures forall a :: a in Deleted(s, id).articles ==> id !in Deleted(s, id).articles[a].comments
    ensures forall c :: c in s.comments && c in s.comments[id].replies ==> c !in Deleted(s, id).comments
  {
  }
}
