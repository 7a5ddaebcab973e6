/** The article schema's `findOneAndDelete` post hook: it bulk-deletes the
    comments the article lists (without running the comment hook) and pulls the
    article id from every user's `myArticles` and `favouriteArticles`. */
module ArticleModel {
  import opened Util
  import opened Records

  /** `User.updateMany({}, { $pull: { myArticles: id, favouriteArticles: id } })`. */
  function PullFromUsers(users: map<Id, User>, id: Id): (r: map<Id, User>)
    ensures r.Keys == users.Keys
    ensures forall u :: u in r ==> id !in r[u].myArticles && id !in r[u].favouriteArticles
    ensures forall u :: u in r ==>
              && multiset(r[u].myArticles) == multiset(users[u].myArticles)[id := 0]
              && multiset(r[u].favouriteArticles) == multiset(users[u].favouriteArticles)[id := 0]
    ensures forall u :: u in r ==>
              r[u].(myArticles := users[u].myArticles, favouriteArticles := users[u].favouriteArticles) == users[u]
  {
    map u | u in users ::
      users[u].(myArticles := Pull(users[u].myArticles, id),
                favouriteArticles := Pull(users[u].favouriteArticles, id))
  }

  /** The state after `findByIdAndDelete` removed article `id` and its post
      hook ran. The comments that disappear are exactly those the article
      lists; every other comment is untouched, even one whose `parent` or
      `replies` names a deleted comment. */
  function Deleted(s: DbState, id: Id): (r: DbState)
    requires id in s.articles
    ensures r.articles == s.articles - {id}
    ensures r.comments.Keys == s.comments.Keys - Elements(s.articles[id].comments)
    ensures forall c :: c in r.comments ==> r.comments[c] == s.comments[c]
    ensures r.users == PullFromUsers(s.users, id)
    ensures r.users.Keys == s.users.Keys
    ensures forall u :: u in r.users ==>
              id !in r.users[u].myArticles && id !in r.users[u].favouriteArticles
              && r.users[u].name == s.users[u].name && r.users[u].email == s.users[u].email
    ensures r.categories == s.categories && r.nextId == s.nextId
  {
    var doc := s.articles[id];
    s.(articles := s.articles - {id},
       comments := s.comments - Elements(doc.comments),
       users := PullFromUsers(s.users, id))
  }

  /** The hook keeps the store consistent. */
  lemma {:induction false} DeletedKeepsConsistent(s: DbState, id: Id)
    requires id in s.articles && Consistent(s)
    ensures Consistent(Deleted(s, id))
  {
    var r := Deleted(s, id);
    assert Fresh(r);
    assert UniqueKeys(r.users) by {
      forall a, b | a in r.users && b in r.users && a != b
        ensures r.users[a].name != r.users[b].name && r.users[a].email != r.users[b].email
      {
        assert s.users[a].name != s.users[b].name && s.users[a].email != s.users[b].email;
      }
    }
    assert ThreadsFlat(r.comments) by {
      forall k | k in r.comments
        ensures r.comments[k].mainParent.Some? && r.comments[k].mainParent.value in r.comments ==>
                  r.comments[r.comments[k].mainParent.value].mainParent.None?
      {
        assert r.comments[k] == s.comments[k];
      }
    }
  }

  /** Replies to the deleted top-level comments are not deleted: the bulk
      delete runs no hook, so they stay with a dangling `parent`. */
  lemma {:induction false} RepliesOfDeletedCommentsSurvive(s: DbState, id: Id, top: Id, reply: Id)
    requires id in s.articles && top in s.articles[id].comments
    requires reply in s.comments && s.comments[reply].parent == Some(top)
    requires reply !in s.articles[id].comments
    ensures reply in Deleted(s, id).comments
    ensures Deleted(s, id).comments[reply] == s.comments[reply]
    ensures top !in Deleted(s, id).comments
  {
  }

  /** The pull targets only the deleted id: every other entry of every user's
      lists keeps its number of occurrences. */
  lemma {:induction false} OtherListEntriesKept(s: DbState, id: Id, u: Id, other: Id)
    requires id in s.articles && u in s.users && other != id
    ensures multiset(Deleted(s, id).users[u].myArticles)[other] == multiset(s.users[u].myArticles)[other]
    ensures multiset(Deleted(s, id).users[u].favouriteArticles)[other]
         == multiset(s.users[u].favouriteArticles)[other]
  {
    assert Deleted(s, id).users == PullFromUsers(s.users, id);
  }
}
