# live-articles: a Dafny model of the back end's data rules

This project models the data rules of the live-articles Express/Mongoose back end. Articles, users, comments and categories live in MongoDB collections. The model represents them as one store: a class `Store.Db` holding four id-keyed maps and an id counter. Each Mongoose update operator becomes a plain function on lists of ids:

- `$addToSet` is `Util.AddToSet`;
- `$pull` is `Util.Pull`;
- `$push` is sequence append;
- `deleteMany` is map removal, and runs no hook.

Every service that changes the database has two parts:

- a method that takes the store (`db: Db`) and modifies it, whose `ensures` ties the new state and the result to a pure step function of the old state;
- the step function itself (`CreateStep`, `ReplyStep`, `UpdateUserDataStep`, …), which states the error order, the new records and what stays unchanged.

Lemmas beside each step prove that the step keeps the store `Consistent`. They also prove round trips, idempotence and what the cascade hooks reach. `Consistent` means three things: ids below the counter, unique user names and emails, and every reply's thread root being top-level.

The modules follow the server's layout:

- `Util`: ids, list operators, string helpers, sorting and paging;
- `Errors`: `ErrorResponse`, validation and duplicate-key errors, `Result`;
- `ExpressErrors`: the 404 fallback and the error handler;
- `IsAuth`: the Authorization header parser;
- `Records`: the schema records;
- `UserModel`, `CommentModel`, `ArticleModel`: the schemas' validators and hooks;
- `Store`: the collections;
- `ArticleService` and `ArticleQueries`: the article service;
- `AuthService`, `UserService`, `CategoryService`: the remaining services.

Some things are parameters, not modelled code:

- bcrypt becomes `hash` and `compare`;
- `jwt.sign` becomes `sign`, and `jwt.verify` becomes `verify`;
- the clock becomes `now`, in milliseconds;
- Cloudinary becomes the uploaded `Image` and the `imageDeleted` flag.

Some modelling choices:

- ObjectIds are handed out in increasing order, so a query without a sort returns documents in ascending id order (`Util.NaturalKey`).
- `findOne` returns the first match in that order (`Util.First`).

## Model

| member | source | states |
|---|---|---|
| Util.AddToSet | server/src/services/article.ts:89-92 | the id is present afterwards, nothing else is added, the old list is a prefix, an id already present leaves the list unchanged, and no duplicates are created |
| Util.Pull | server/src/models/article.ts:49-52 | every occurrence of the id is gone, every other id keeps its count (multiset), and a list without the id is unchanged |
| Util.PullKeepsNoDuplicates | server/src/models/article.ts:49-52 | pulling from a list without duplicates leaves a list without duplicates |
| Util.PullUndoesAddToSet | server/src/services/article.ts:303-326 | `$addToSet` followed by `$pull` of the same id equals pulling it at once |
| Util.SetMembership | server/src/services/article.ts:303-326 | the toggle primitive: membership becomes the wanted value, other ids keep their membership, and a list already in the wanted state is unchanged |
| Util.SetMembershipKeepsNoDuplicates | server/src/services/article.ts:303-326 | toggling keeps a duplicate-free list duplicate-free |
| Util.ToLower | server/src/services/auth.ts:16 | same length, each character lowered, and no upper-case ASCII letter left |
| Util.ToLowerIdempotent | server/src/services/auth.ts:28 | lowering twice equals lowering once, so a stored lower-cased email matches its own lower-casing |
| Util.IsInfix | server/src/services/article.ts:154-156 | true exactly when the text occurs at some position of the title |
| Util.Trim | server/src/services/category.ts:14 | the result is a slice of the input with leading and trailing white space removed; it is empty exactly when the input is all white space, and otherwise starts and ends with non-space |
| Util.TrimIdempotent | server/src/services/category.ts:14 | trimming twice equals trimming once |
| Util.Split | server/src/api/middlewares/isAuth.ts:9-14 | at least one part, and no part contains the separator |
| Util.Join | server/src/dependecies/express.ts:51 | a single part joins to itself |
| Util.JoinSplit | server/src/api/middlewares/isAuth.ts:9-14 | joining the parts of a split with the separator gives the text back |
| Util.SplitAfterWord | server/src/api/middlewares/isAuth.ts:9-14 | the first part of `word + " " + rest` is the word, and the remaining parts are those of `rest` |
| Util.SplitWithoutSeparator | server/src/api/middlewares/isAuth.ts:14 | a text without a space splits into itself alone |
| Util.First | server/src/services/auth.ts:29-31 | the element of a non-empty set that precedes every other element in the order |
| Util.SortBy | server/src/services/article.ts:197 | the listing is a permutation of the set (same elements, same size) in the given order |
| Util.SortByUnique | server/src/services/article.ts:197 | any sorted listing of exactly the set equals the sorted listing, so the order is total |
| Util.Page | server/src/services/article.ts:198-199 | `skip` then `limit` (0 = none): the exact length, and element i is element offset+i of the listing |
| Util.PageKeepsOrder | server/src/services/article.ts:197-199 | a page of a sorted listing is sorted |
| Util.PagesAdjoin | server/src/services/article.ts:198-199 | a page followed by everything after it equals everything from the page's start |
| ExpressErrors.NotFound | server/src/dependecies/express.ts:28-32 | the fallback error has status 404 and message "Not Found" |
| ExpressErrors.StatusOr | server/src/dependecies/express.ts:83 | JavaScript's `status \|\| fallback`: a missing or zero status falls back |
| ExpressErrors.DuplicateFields | server/src/dependecies/express.ts:113-119 | one field entry per duplicate key, each naming its key |
| ExpressErrors.Classify | server/src/dependecies/express.ts:35-122 | the handler's branch order: `data.message` decides exactly when it is set; the default branch is reached only when no `data.message`, `data.name`, `data.text`, `data.error` or first `body.errors` entry is present, the error is not an `UnauthorizedError` and its code is not 11000 |
| ExpressErrors.HandleError | server/src/dependecies/express.ts:34-141 | for each branch the status, the message and the field list: the upstream status with `data.message`, the ", "-joined `data.name` or `data.text`, or `data.error`; the first `body.errors` entry; 401 passes the error on; 409 with "An account with that <keys joined by ','> already exists." and one entry per key, or the generic message and an empty list without keys; otherwise the error's status or 500, its message, and a one-entry list exactly when it names a field |
| ExpressErrors.NotFoundResponse | server/src/dependecies/express.ts:28-32 | an unmatched route is answered 404 "Not Found" with no field list |
| ExpressErrors.ErrorResponseAnswer | server/src/dependecies/express.ts:124-140 | a service's `ErrorResponse` is answered with its status (500 when absent), its message, and a one-entry field list exactly when it names a field |
| ExpressErrors.DuplicateKeyAnswer | server/src/dependecies/express.ts:101-122 | a duplicate-key error on one key is a 409 naming that key |
| ExpressErrors.DuplicateWithoutKeys | server/src/dependecies/express.ts:101-122 | a duplicate-key error without `keyValue` is the generic 409 with an empty field list |
| ExpressErrors.DataMessageDecides | server/src/dependecies/express.ts:35-44 | with `response.data.message` set, the rest of the error does not affect the response |
| IsAuth.GetTokenFromHeader | server/src/api/middlewares/isAuth.ts:6-22 | a missing header, or one whose first part is not exactly `Token` or `Bearer`, is 401 "User not authenticated"; otherwise the result is the verifier's on the second part |
| IsAuth.BearerToken | server/src/api/middlewares/isAuth.ts:9-14 | `Bearer <token>` and `Token <token>` hand exactly the token to the verifier |
| IsAuth.ExtraPartsIgnored | server/src/api/middlewares/isAuth.ts:14 | parts after the second are ignored |
| IsAuth.LowerCaseSchemeRejected | server/src/api/middlewares/isAuth.ts:9-12 | the scheme is compared case-sensitively: `bearer` is rejected |
| IsAuth.BareScheme | server/src/api/middlewares/isAuth.ts:14 | a bare scheme passes an undefined token to the verifier |
| UserModel.Strip | server/src/services/auth.ts:264-269 | the public user keeps the id and, with the password put back, is the stored user: only the password is removed |
| UserModel.RequiredFailures | server/src/models/user.ts:9-19 | `name` and `email` each fail their `required` validator exactly when empty, with that path and its message |
| UserModel.PasswordFailures | server/src/models/user.ts:21-25 | a present password shorter than 6 fails; an absent one is not checked |
| UserModel.ValidateUser | server/src/models/user.ts:7-57 | a new user passes exactly when name and email are non-empty and the password is absent or at least 6 long; a failure is a `ValidationError` without status |
| UserModel.NewUser | server/src/models/user.ts:27-31 | a new document has role USER, empty article lists and no optional fields |
| UserModel.HashOnSave | server/src/models/user.ts:59-65 | the stored password is the hash of the supplied one; every other field is kept |
| UserModel.MatchPassword | server/src/models/user.ts:73-82 | no stored password (or an empty one) matches anything; otherwise bcrypt's `compare` decides |
| UserModel.SavedPasswordMatches | server/src/models/user.ts:59-82 | a password saved through the hook matches itself, given that bcrypt accepts a password against its own hash |
| UserModel.PasswordlessAcceptsAnything | server/src/models/user.ts:77-81 | a user saved without a password accepts every entered password |
| CommentModel.ValidateComment | server/src/models/comment.ts:7-10 | a comment passes exactly when its text is non-empty; the failure is "Comment validation failed" on `text` |
| CommentModel.NewComment | server/src/models/comment.ts:5-50 | a new comment has no replies and an empty likes array, and carries the given text, author, article, parent and root |
| CommentModel.PullFromArticles | server/src/models/comment.ts:54-57 | every article loses every occurrence of the id from `comments`, and nothing else changes |
| CommentModel.PullFromReplies | server/src/models/comment.ts:59-62 | every comment loses every occurrence of the id from `replies`, and nothing else changes |
| CommentModel.Deleted | server/src/models/comment.ts:52-66 | exactly the deleted comment and its direct replies disappear; survivors and articles change only by losing the id from their lists |
| CommentModel.DeletedKeepsConsistent | server/src/models/comment.ts:52-66 | the hook keeps the store consistent |
| CommentModel.DeletedLeaf | server/src/models/comment.ts:52-66 | deleting a comment without replies removes only it, and pulls it from the list it was appended to |
| CommentModel.GrandchildSurvives | server/src/models/comment.ts:63-65 | the cascade is one level deep: a reply to a deleted reply survives with a dangling `parent` |
| CommentModel.TopLevelDeleteClearsArticles | server/src/models/comment.ts:54-65 | after deleting a top-level comment no article lists it, and its direct replies are gone |
| ArticleModel.PullFromUsers | server/src/models/article.ts:49-52 | every user loses the id from both lists, and every other list entry keeps its count |
| ArticleModel.Deleted | server/src/models/article.ts:45-53 | the article is removed; exactly the comments it lists are deleted, others are untouched; users are exactly the old users with the id pulled from both lists |
| ArticleModel.DeletedKeepsConsistent | server/src/models/article.ts:45-53 | the hook keeps the store consistent |
| ArticleModel.RepliesOfDeletedCommentsSurvive | server/src/models/article.ts:48 | replies to the deleted top-level comments survive unchanged (the bulk delete runs no hook) |
| ArticleModel.OtherListEntriesKept | server/src/models/article.ts:51 | the pull targets only the deleted id: every other entry keeps its number of occurrences |
| Store.Db.CreateUser | server/src/services/auth.ts:243-249 | stores the user under the next id and advances the counter; nothing else changes |
| Store.Db.CreateArticle | server/src/services/article.ts:81-87 | stores the article under the next id; nothing else changes |
| Store.Db.CreateComment | server/src/services/article.ts:381-385 | stores the comment under the next id; nothing else changes |
| Store.Db.CreateCategory | server/src/services/category.ts:21 | stores the category under the next id; nothing else changes |
| Store.Db.UpdateUser | server/src/services/user.ts:40-46 | replaces an existing user; a missing id changes nothing |
| Store.Db.UpdateArticle | server/src/services/article.ts:344-365 | replaces an existing article; a missing id changes nothing |
| Store.Db.UpdateComment | server/src/services/article.ts:451-468 | replaces an existing comment; a missing id changes nothing |
| Store.Db.FindOneAndDeleteComment | server/src/services/article.ts:479 | returns the deleted document; the new state is `CommentModel.Deleted` (the hook ran), or unchanged when absent |
| Store.Db.FindByIdAndDeleteArticle | server/src/services/article.ts:219 | returns the deleted document; the new state is `ArticleModel.Deleted`, or unchanged when absent |
| ArticleService.CreateChecks | server/src/services/article.ts:36-66 | the checks in order (title, description, category given, category well-formed, category exists, upload); passes exactly when all hold, each failure with its message |
| ArticleService.CreateStep | server/src/services/article.ts:29-102 | a failed check changes nothing; otherwise the article is stored under a new id with empty likes and comments, the author's `myArticles` becomes the old list with the id set-inserted, other users are unchanged, and the result has `isAuthor` and not `isLiked` |
| ArticleService.Create | server/src/services/article.ts:29-102 | the store and result follow `CreateStep` |
| ArticleService.CreateKeepsConsistent | server/src/services/article.ts:81-95 | creation keeps the store consistent |
| ArticleService.RemoveArticleStep | server/src/services/article.ts:206-220 | missing ⇒ "Article not found"; not the author ⇒ refused; image not deleted ⇒ refused and nothing removed; otherwise the article hook's state |
| ArticleService.RemoveArticle | server/src/services/article.ts:206-220 | the store and result follow `RemoveArticleStep` |
| ArticleService.RemoveArticleKeepsConsistent | server/src/services/article.ts:206-220 | removal keeps the store consistent |
| ArticleService.CreateThenRemove | server/src/services/article.ts:206-220 | creating and then removing an article restores articles, comments and categories, and the author's `myArticles` no longer holds the id |
| ArticleService.FavouriteArticleStep | server/src/services/article.ts:289-327 | unknown article ⇒ 404; otherwise membership in the caller's favourites becomes the wanted value, nothing else changes, and nothing at all when it already had it |
| ArticleService.FavouriteArticle | server/src/services/article.ts:289-327 | the store and result follow `FavouriteArticleStep` |
| ArticleService.LikeArticleStep | server/src/services/article.ts:329-366 | unknown article ⇒ 404; otherwise the caller's membership in `likes` becomes the wanted value; every other like and article is kept |
| ArticleService.LikeArticle | server/src/services/article.ts:329-366 | the store and result follow `LikeArticleStep` |
| ArticleService.LikeCommentStep | server/src/services/article.ts:433-469 | as `LikeArticleStep` on a comment, where a comment without a likes array counts as not liked |
| ArticleService.LikeComment | server/src/services/article.ts:433-469 | the store and result follow `LikeCommentStep` |
| ArticleService.TogglesIdempotent | server/src/services/article.ts:289-366 | repeating any of the three toggles changes nothing |
| ArticleService.LikeThenUnlike | server/src/services/article.ts:344-365 | liking then unliking removes the caller from `likes` altogether and leaves the rest of the article as it was |
| ArticleService.CommentStep | server/src/services/article.ts:368-394 | unknown article ⇒ 404; empty text ⇒ validation error; otherwise a top-level comment under a new id, appended to the end of the article's `comments` |
| ArticleService.Comment | server/src/services/article.ts:368-394 | the store and result follow `CommentStep` |
| ArticleService.ReplyStep | server/src/services/article.ts:406-431 | unknown parent ⇒ 404; otherwise a reply with `parent` the given id, `mainParent` the parent's root or the parent, the parent's article, appended only to the direct parent's `replies` |
| ArticleService.CreateCommentReply | server/src/services/article.ts:406-431 | the store and result follow `ReplyStep` |
| ArticleService.ReplyAppendsToParent | server/src/services/article.ts:426-428 | in a consistent store the reply's id is new and ends the parent's `replies` |
| ArticleService.ReplyKeepsConsistent | server/src/services/article.ts:417-424 | a reply's `mainParent`, while it exists, is top-level, and the store stays consistent |
| ArticleService.CommentKeepsConsistent | server/src/services/article.ts:381-391 | a top-level comment keeps the store consistent |
| ArticleService.DeleteCommentStep | server/src/services/article.ts:471-480 | missing ⇒ 404; not the author ⇒ 400 and nothing changes; otherwise the comment hook's state |
| ArticleService.DeleteComment | server/src/services/article.ts:471-480 | the store and result follow `DeleteCommentStep` |
| ArticleService.DeleteCommentKeepsConsistent | server/src/services/article.ts:479 | deletion keeps the store consistent |
| ArticleService.CommentThenDelete | server/src/services/article.ts:471-480 | posting and then deleting a comment restores the comment ids and pulls the id from the article's `comments` |
| ArticleQueries.Listing | server/src/services/article.ts:197 | the listing has one entry per matching article |
| ArticleQueries.ListingSorted | server/src/services/article.ts:197 | the listing holds exactly the matches, sorted on creation time |
| ArticleQueries.GetAllArticles | server/src/services/article.ts:144-204 | `total` counts every match; the page is at most `limit` long and lies within the matches after `offset`; with no paging it is everything |
| ArticleQueries.ListedArticlesMatch | server/src/services/article.ts:148-156 | every listed article exists, is in the category when one is given, and has the text in its title ignoring case |
| ArticleQueries.ListedInOrder | server/src/services/article.ts:197 | a page is newest first exactly when `sort` is 1, oldest first otherwise |
| ArticleQueries.ResultsAdjoin | server/src/services/article.ts:198-199 | on one query, the page of length `limit` at `offset` followed by everything after it is everything from `offset` |
| ArticleQueries.ListPagesAdjoin | server/src/services/article.ts:198-199 | consecutive pages lose or repeat no article |
| ArticleQueries.ListOrderIsCanonical | server/src/services/article.ts:197-199 | any listing of exactly the matches in the required order gives the same page |
| ArticleQueries.AuthorFilter | server/src/services/article.ts:234-239 | `user_id` wins when given; otherwise the caller when `myArticles` is set; otherwise no author filter |
| ArticleQueries.UserListing | server/src/services/article.ts:246-282 | one entry per matching article |
| ArticleQueries.UserListingSorted | server/src/services/article.ts:246-282 | the user listing holds exactly the matches, in ascending id order |
| ArticleQueries.GetUserArticles | server/src/services/article.ts:222-287 | `total` counts every match; the page is bounded by `limit` and lies after `offset` |
| ArticleQueries.UserListedArticlesMatch | server/src/services/article.ts:229-239 | every listed article is among the caller's favourites when asked, and by the `user_id` author, or else by the caller when `myArticles` is set |
| ArticleQueries.UserListedInIdOrder | server/src/services/article.ts:246-282 | without a sort the page is in ascending id order |
| ArticleQueries.UserListOrderIsCanonical | server/src/services/article.ts:246-282 | any listing of exactly the matches in ascending id order gives the same page, so the page holds precisely the matches that `skip` and `limit` select |
| ArticleQueries.UserIdOverridesMyArticles | server/src/services/article.ts:234-239 | with `user_id` present, `myArticles` changes nothing |
| ArticleQueries.GetTheMostPopularArticle | server/src/services/article.ts:396-404 | none exactly when no article is from the last 30 days; otherwise a recent article with the most likes, the earliest of those with as many |
| ArticleQueries.OldArticlesIgnored | server/src/services/article.ts:397-399 | adding an article older than 30 days does not change the winner |
| AuthService.GetToken | server/src/services/auth.ts:260-270 | the token is signed over id and role, the user is the stored one without its password, and the auth type is passed on |
| AuthService.TokenIgnoresPassword | server/src/services/auth.ts:264-269 | what a caller receives does not depend on the stored password |
| AuthService.SignUpDocument | server/src/services/auth.ts:16-20 | the created document has the lower-cased email, role USER and empty lists |
| AuthService.SignUpStep | server/src/services/auth.ts:13-22 | validation error, then duplicate name, then duplicate email, each changing nothing; otherwise the user is stored with a hashed password and a SIGNUP token is returned |
| AuthService.SignUp | server/src/services/auth.ts:13-22 | the store and result follow `SignUpStep` |
| AuthService.SignUpKeepsConsistent | server/src/models/user.ts:9-19 | the unique indexes keep names and emails distinct |
| AuthService.SignInMatches | server/src/services/auth.ts:28-31 | a user matches exactly when their email equals the lower-cased input or their name equals the input as typed |
| AuthService.SignIn | server/src/services/auth.ts:24-44 | no match ⇒ 401 on `email`; otherwise the first match in natural order, with a SIGNIN token when the password matches and 401 on `password` when it does not |
| AuthService.SignUpThenSignIn | server/src/services/auth.ts:13-44 | a user who signed up signs in with the same password and any email whose lower-cased form equals that of the sign-up email, unless an earlier user is named exactly like the email typed |
| AuthService.NameShadowsEmail | server/src/services/auth.ts:28-31 | an earlier user named like another user's email is the one signed in with that email |
| AuthService.PasswordlessSignIn | server/src/services/auth.ts:37-40 | a matched user without a password signs in with any password |
| UserService.GetUserById | server/src/services/user.ts:9-16 | the stored user (without password) exactly when the id exists, 404 "User not found" otherwise |
| UserService.Apply | server/src/services/user.ts:40-46 | `$set`: every present path overwrites and every absent one keeps its value |
| UserService.PatchFailures | server/src/services/user.ts:45 | the update validators on the present paths: empty name or email, or a password shorter than 6 |
| UserService.UpdateUserDataStep | server/src/services/user.ts:18-49 | caller not found by name ⇒ 404; a non-empty new name held by anyone ⇒ refused; then a failed validator ⇒ that validation error; then a caller whose id has gone ⇒ nothing, no change; then another user's email ⇒ duplicate key on `email`; a failure changes nothing; on success exactly the caller's document becomes the patched one |
| UserService.UpdateUserData | server/src/services/user.ts:18-49 | the store and result follow `UpdateUserDataStep` |
| UserService.UpdateKeepsConsistent | server/src/services/user.ts:40-46 | the update keeps names and emails unique |
| UserService.SameNameRefused | server/src/services/user.ts:28-38 | renaming oneself to one's own name is refused, since the check does not exclude the caller |
| UserService.EmptyPatchKeepsUser | server/src/services/user.ts:40-46 | an empty patch leaves the store unchanged |
| UserService.PatchGrantsAdmin | server/src/services/user.ts:40-46 | as written, a body with `role: ADMIN` would make its sender an administrator (latent: the `/user` router is not mounted) |
| UserService.PatchStoresRawPassword | server/src/services/user.ts:40-46 | as written, a password set by the update is stored unhashed |
| UserService.CapitalisedEmailLocksOut | server/src/services/user.ts:40-46 | as written, an email set with capitals is stored with them, and sign-in with it then finds no user |
| UserService.Permitted | server/src/services/user.ts:20 | the declared input type: name, lower-cased email, gender and age; every other path is dropped |
| UserService.PermittedUpdateStep | server/src/services/user.ts:18-49 | the corrected update keeps role, password, avatar and both article lists, and stores the email lower-cased |
| UserService.PermittedEmailSignsIn | server/src/services/user.ts:40-46 | after the corrected update, signing in with the new email as typed reaches the caller |
| CategoryService.CreateStep | server/src/services/category.ts:13-27 | fails with "Category name does not provided" exactly when the trimmed name is empty, changing nothing; otherwise stores the trimmed name under a new id |
| CategoryService.Create | server/src/services/category.ts:13-27 | the store and result follow `CreateStep` |
| CategoryService.BlankNameRefused | server/src/services/category.ts:14-17 | a name of white space only is refused and nothing is stored |
| CategoryService.StoredNameIsTrimmed | server/src/services/category.ts:14-21 | the stored name is already trimmed, so creating from it stores it unchanged |
| CategoryService.SameNameTwice | server/src/services/category.ts:13-27 | there is no duplicate check: the same name twice gives two categories with distinct ids |
| CategoryService.CreateKeepsConsistent | server/src/services/category.ts:21 | creation keeps the store consistent |
| CategoryService.GetAllCategories | server/src/services/category.ts:29-37 | every stored category exactly once, in ascending id order |
| CategoryService.GreatestIsLast | server/src/services/category.ts:29-37 | the category with the greatest id is listed last |
| CategoryService.CreatedIsListedLast | server/src/services/category.ts:13-37 | a newly created category is listed last |

## Left out

- In a few places the code does less than one might expect; the model follows the code:
  - `RemoveArticle` rethrows when deleting the image fails, so the article stays. It is not a best-effort cleanup.
  - The delete cascades are one level deep, not recursive (`CommentModel.GrandchildSurvives`, `ArticleModel.RepliesOfDeletedCommentsSurvive`).
  - `DeleteComment` pulls the id from every article and every comment, not only from its own parent.
  - In `GetUserArticles`, `user_id` overwrites the `myArticles` author.
  - Category names may repeat.
- Network, Cloudinary, bcrypt and JWT are parameters, as listed above. Population (`populate`, `lean`) and the nested sort of populated comments are not modelled: results are ids.
- Failures of the database itself are not modelled. That covers "The error occurred with creating article", "Something went wrong with creating article" and the category service's catch blocks. Also not modelled are the cast errors Mongoose raises on a malformed id in a query parameter. The one cast error that `Create` turns into a message is modelled (`Malformed`).
- `toLowerCase` covers ASCII letters only. The `$regex` search with option `i` is a case-insensitive substring search, so the regex syntax in `text` is not interpreted.
- `moment().subtract(30, 'days')` is taken as exactly 30 × 86 400 000 ms before `now`. Daylight-saving shifts are not modelled.
- Without a sort, the model assumes MongoDB's natural order equals insertion (ascending id) order. Ties in the `createdAt` sort are assumed to fall in the same order. JavaScript's `Array.prototype.sort` is stable, which the popularity ranking relies on.
- The pre-save hook calls `next()` for an unmodified password but does not return. It then hashes `undefined`. The model takes the outcome to be a user stored without a password, which is what makes `matchPassword` accept anything for such a user.
- The unique-index checks report `name` before `email` when both collide. MongoDB names only the first index violated, and which one that is is not fixed here.
- UserService.PatchFailures: an invalid enum string for `gender` or `role` in an update body is not modelled; the patch carries only valid values.
- Only administrators reach `CategoryService.Create` (`isAdmin` middleware). This is a precondition, not a modelled check. Routes, controllers and the `attachCurrentUser` lookup are not modelled. The caller of `FavouriteArticle` and `GetUserArticles` is assumed to be stored.
- `GetArticleById`, `multerGetFile` and `uploadFile` are not modelled beyond the upload outcome that `Create` receives. The commented-out flows in the auth service (Apple sign-in, confirmation codes, password reset) are not modelled.
- Logging (`console.log`) and the `success: false` constant of the error body are not modelled.
- Concurrency between requests is not modelled: each service runs alone on the store.
- The API mounts only the auth and article routers (`server/src/api/index.ts:7-8`); the `/user`, `/category` and `/comment` routers are defined but unreachable. The services behind them are modelled as if called, so the findings on `UpdateUserData` are latent.
- ArticleQueries.GetAllArticles: `limit` and `offset` are non-negative numbers here. `+params.limit` and `+params.offset` (`server/src/services/article.ts:145-146`, `226-227`) can be negative or `NaN`; MongoDB reads a negative limit as its absolute value and rejects a negative skip, and neither case is modelled.
- ArticleQueries.GetUserArticles: the same holds for its `limit` and `offset`.
- CategoryService.CreateStep: the name is always a string. A body without `name` makes `body.name.trim()` (`server/src/services/category.ts:14`) throw a `TypeError`, which is not modelled.

## Findings

| source | as written | input that shows it | evidently intended | confidence | as-written member | corrected member |
|---|---|---|---|---|---|---|
| server/src/services/user.ts:40-46 | the whole request body is `$set` on the caller's document | a profile update whose body carries `role: "ADMIN"`; latent, since `server/src/api/index.ts:7-8` mounts only the auth and article routers, so `/user` is unreachable | only the declared update fields (name, email, gender, age) are written; the role is kept | high, not executed | UserService.PatchGrantsAdmin | UserService.PermittedUpdateStep |
| server/src/services/user.ts:40-46 | a `password` in the body is stored as sent; the hashing hook runs only on `save` | a profile update with `password: "secret1"` | the password is not changed through this route, so the stored hash is kept | high, not executed | UserService.PatchStoresRawPassword | UserService.PermittedUpdateStep |
| server/src/services/user.ts:40-46 | a new email is stored as typed, while sign-up stores and sign-in looks up lower-cased emails | a profile update with `email: "Ann@X.io"`, then sign-in with "Ann@X.io" | the email is lower-cased as at sign-up, so the user can still sign in with it | medium, not executed | UserService.CapitalisedEmailLocksOut | UserService.PermittedEmailSignsIn |
