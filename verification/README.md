# Articles feed API: article reactions, feed and user registry in Dafny

This project models the request handlers of an article-feed backend. Users register and
edit their profile. Articles are created, edited and deleted by their owner. Any user may
like, unlike or block an article. A user's feed is the date-sorted article list, filtered by
blocks and then by the user's article-type preferences.

The two document collections (users and articles) are classes holding a map from id to
document. A `nextId` counter stands for the database's id generator. Each handler is a
method that returns a `Response`: either `Ok(body)` (status 200) or
`Err(status, messages)` with status 400, 401 or 500. In the article handlers, a missing
article, or a missing author on create, makes the original handler throw. That throw is
caught and answered with 500, and the model does the same, leaving the store unchanged. On
the feed a missing user throws only when an article that passed the block filter has a
type; otherwise the answer is an empty feed. The user edit checks for a missing user and
answers 400.

Modules:

- `Wrappers`: `Option`.
- `Http`: `Status`, `Response` and the shared 500 message.
- `Sequences`: `Last`, `Init`, `NoDuplicates` and `IsSubsequence` (order-preserving
  selection), shared by the reaction and feed modules.
- `Users` (routes/api/users.js, models/User.js): the user record, the request checks, and
  `UserStore` with `Register` and `Edit`.
- `ArticleModel` (models/Article.js): the article record and the create/edit request body.
- `Reactions`: like, unlike and block as functions on one article (`Liked`, `Unliked`),
  list filtering (`Without`), and the per-article invariant (`WellFormed`): no user has two
  block entries or two reactions.
- `Feed`: the feed handler. Its two nested-loop phases are methods proved against the
  specification functions `BlockFiltered` and `Preferred`.
- `Articles`: `ArticleStore` with the create, edit, delete, like, unlike and block handlers.

The block filter is modelled exactly as written. An article is pushed once for every block
entry made by somebody other than the requester. So an article the requester blocked still
reaches the requester's feed when someone else also blocked it (`Feed.BlockedArticleStillShown`).
The later `includes` test removes the repeated pushes.

## Model

| member | source | states |
|---|---|---|
| `Users.ProfileErrors` | routes/api/users.js:18-27 | the failed-check messages are empty exactly when first and last name are non-empty, the e-mail is valid, the phone is numeric, and the date of birth and the preference list are non-empty |
| `Users.IsEmail` | routes/api/users.js:20 | an accepted address has at least five characters, an '@' and a '.'; the simplified grammar is listed under Left out |
| `Users.IsNumeric` | routes/api/users.js:21 | an accepted phone ends in a digit and every character after the first (which may be a sign) is a digit or a dot; every non-empty all-digit string is accepted |
| `Users.Utf16Length` | routes/api/users.js:142-146 | JavaScript's `length` of a string lies between its number of code points and twice that, and equals the code-point count when no character is outside the Basic Multilingual Plane |
| `Users.ValidatorLength` | routes/api/users.js:28-30 | the validator's `isLength` count is at most the code-point count (itself at most the UTF-16 length), and equals it when no variation selector occurs |
| `Users.RegisterErrors` | routes/api/users.js:18-37 | registration is refused by validation exactly when a profile check fails or the password's validator length is below 6; the profile messages come first |
| `Users.PasswordRejected` | routes/api/users.js:142 | a supplied password is refused only when it is non-empty and shorter than 6 characters; for text without astral characters that condition is exact (non-empty and fewer than 6 code points) |
| `Users.PasswordRulesDiffer` | routes/api/users.js:142-146 | a password of three emoji passes the edit's length rule (six UTF-16 units) but fails registration's (three characters) |
| `Users.Edited` | routes/api/users.js:156-167 | after an edit the six profile fields equal the form's; the hash changes to hash(password) only when a non-empty password is supplied; verification state, OTP and creation date are kept |
| `Users.EditsCompose` | routes/api/users.js:156-169 | two edits equal the second edit alone; if the second supplies no password, they equal one edit carrying the first edit's password |
| `Users.InsertKeepsContactsUnique` | routes/api/users.js:51-82 | inserting a user whose e-mail and phone are both unused keeps e-mails and phones unique across users |
| `Users.UserStore.Register` | routes/api/users.js:33-82 | validation failure gives 400 with the messages; then a taken e-mail gives 400; then a taken phone gives 400; each leaves the store untouched. Otherwise exactly one user is added under a fresh id, with the form's fields, the hashed password, unverified and without OTP. Unique contacts are preserved |
| `Users.UserStore.Edit` | routes/api/users.js:124-178 | validation failure gives 400; then a supplied password whose UTF-16 length is below 6 gives 400 before any lookup; then a missing user gives 400; each changes nothing. Otherwise only the requester's record changes (to `Edited`), and the answer echoes the six profile fields without the password |
| `Reactions.Without` | routes/api/articles.js:159-161 | the filtered list has no entry of the user, the same count of everyone else, keeps the kept entries in their original order (a subsequence of the input), and is the input itself when the user had no entry |
| `Reactions.Liked` | routes/api/articles.js:158-189 | a like touches only the two reaction lists; afterwards the requester has a like exactly when they had none; an existing like is withdrawn (every entry, unlikes unchanged); otherwise one like is prepended and every unlike of the requester is removed. Further properties are in LikeToggles, LikeWithdraws and LikeSwitches |
| `Reactions.Unliked` | routes/api/articles.js:204-235 | the mirror of `Liked`: an existing unlike is withdrawn (likes unchanged); otherwise one unlike is prepended and every like of the requester is removed; nothing but the two lists changes |
| `Reactions.LikeToggles` | routes/api/articles.js:158-189 | liking from neutral prepends exactly one like and leaves the unlikes unchanged; liking twice from neutral restores the article |
| `Reactions.LikeWithdraws` | routes/api/articles.js:158-165 | liking when already liked removes every like of the requester, keeps everyone else's likes, and leaves the unlikes unchanged |
| `Reactions.LikeSwitches` | routes/api/articles.js:169-182 | liking after unliking removes all the requester's unlikes and prepends exactly one like |
| `Reactions.UnlikeMirrorsLike` | routes/api/articles.js:199-240 | unlike is like with the likes and unlikes lists exchanged |
| `Reactions.UnlikeToggles` | routes/api/articles.js:204-235 | unliking from neutral prepends exactly one unlike; unliking twice from neutral restores the article |
| `Reactions.ReactionsTouchOnlyRequester` | routes/api/articles.js:153-240 | with the requester's entries removed, both lists are equal to before (same entries, same order) after a like or unlike; no other field changes |
| `Reactions.ReactionCounts` | routes/api/articles.js:158-235 | like and unlike leave every other user's reaction count unchanged; a requester with at most one reaction keeps at most one |
| `Reactions.ReactionsKeepWellFormed` | routes/api/articles.js:153-240 | like and unlike preserve "at most one block entry and at most one reaction per user" |
| `Reactions.BlockKeepsNoRepeats` | routes/api/articles.js:250-253 | prepending a block for a user with no block entry keeps the block list free of repeats and gives that user exactly one entry |
| `Feed.CountOthers` | routes/api/articles.js:63-69 | the number of block entries by others is at most the list length, and is positive exactly when some entry is by someone else |
| `Feed.PushCount` | routes/api/articles.js:62-72 | an article is pushed at most once when nobody blocked it and at most once per block entry otherwise, and is pushed at least once exactly when it has no blocks or some block entry is by someone other than the requester |
| `Feed.BlockFiltered` | routes/api/articles.js:61-73 | an article is in the block-filtered list exactly when it is in the sorted list and is pushed at least once |
| `Feed.Preferred` | routes/api/articles.js:75-88 | the preference filter holds no article twice, and holds an article exactly when it is in its input and shares a type with the preferences |
| `Feed.FilterBlocked` | routes/api/articles.js:58-73 | the nested loop builds exactly `BlockFiltered`: one push for an unblocked article, one per block entry by another user otherwise |
| `Feed.PreferredArticles` | routes/api/articles.js:75-90 | with preferences, the triple loop yields exactly `Preferred`; with the user missing, it answers 500 when some article reaches the preference read (has a type), else an empty feed |
| `Feed.GetFeed` | routes/api/articles.js:54-95 | the feed of an existing user is `FeedOf(sorted, requester, preferences)`; for a missing user it is 500 exactly when some article passing the block filter has a type, else empty; when the sorted list has distinct ids, so does the feed |
| `Feed.FeedDocumentsDistinct` | routes/api/articles.js:82-83 | from a list of distinct documents (distinct ids), the feed never holds the same document twice |
| `Feed.PreferredRepeat` | routes/api/articles.js:75-88 | repeated pushes of one article add it to the feed at most once: exactly when it matches and is new |
| `Feed.FeedIsSubsequence` | routes/api/articles.js:56-88 | the feed is a subsequence of the date-sorted list: it keeps the date order |
| `Feed.FeedProperties` | routes/api/articles.js:56-90 | the feed is duplicate-free and in date order; an article is in it exactly when it is in the list, passes the block filter and shares a type with the preferences |
| `Feed.BlockFilterRule` | routes/api/articles.js:61-73 | an article with no blocks passes; one whose blocks are all by the requester is dropped; one with a block by someone else passes |
| `Feed.BlockedArticleStillShown` | routes/api/articles.js:60-73 | an article the requester blocked still reaches the requester's feed when another user also blocked it and it matches a preference |
| `Articles.FormErrors` | routes/api/articles.js:18-20 | the failed-check messages are empty exactly when text, name and type are all present |
| `Articles.ArticleStore.Create` | routes/api/articles.js:24-43 | validation failure gives 400; a missing author gives 500; each leaves the store untouched. Otherwise one article is added under a fresh id, owned by the requester, with username "first last" and empty likes, unlikes and blocks |
| `Articles.ArticleStore.Delete` | routes/api/articles.js:131-148 | a missing article gives 500 and a non-owner gives 401, both without change; the owner's delete removes exactly that article |
| `Articles.ArticleStore.Edit` | routes/api/articles.js:279-298 | validation failure gives 400, a missing article 500, a non-owner 400, all without change; the owner's edit replaces only text, name and types |
| `Articles.ArticleStore.Like` | routes/api/articles.js:153-194 | a missing article gives 500 without change; otherwise the article becomes `Liked` and is returned; no user gets two reactions |
| `Articles.ArticleStore.Unlike` | routes/api/articles.js:199-240 | a missing article gives 500 without change; otherwise the article becomes `Unliked` and is returned |
| `Articles.ArticleStore.Block` | routes/api/articles.js:245-262 | a missing article gives 500; an existing block by the requester gives 400; neither changes anything. Otherwise exactly one block is prepended, and the requester then has exactly one block entry |

## Left out

- The job layer (jobs/*), the mail and image services, and their configuration. They wrap an
  outside queue library and network calls.
- Token issuing and checking, and the login route. `Register` answers with the new user's
  id, which is what the issued token carries. The error thrown inside the signing callback
  is not modelled.
- bcrypt. `hash` is a deterministic stand-in for bcrypt; the per-call salt is not modelled
  (see the Users.EditsCompose line).
- Users.EditsCompose: its equalities hold for a deterministic `hash`; bcrypt salts each call
  afresh, so in the running system two edits with the same password store different hashes.
- `checkObjectId` middleware is not part of this model. Ids are natural numbers and are
  never malformed.
- `GET /me` and `GET /:id`. They are plain queries with no logic of their own.
- Sorting by date is done by the database. The feed takes the article list already sorted.
- The feed's `includes` test compares document objects. The model compares article values.
  These agree when the sorted list holds each document once, which the collection's primary
  key guarantees; `Feed.GetFeed` states the distinct-ids result only under that condition.
- The feed's five `for ... in` loops (routes/api/articles.js:61, 63, 75, 76, 77) are
  modelled as visiting indices 0 to n-1 in order. Those at lines 61 and 75 run over plain
  arrays; those at lines 63, 76 and 77 run over Mongoose document arrays, whose inherited
  enumerable properties are not modelled.
- The `created_at` and `updated_at` timestamps the user schema adds (models/User.js:51).
- The database's unique indexes on e-mail and phone. `Users.UserStore.Edit` does not recheck
  uniqueness, so the model lets an edit reuse another user's e-mail. In the real system
  the database would reject that save and the handler would answer 500.
- Mongoose casting. Phone is kept as the submitted string, not cast to a Number, so "007"
  and "7" are different phones here. The date of birth is kept as a string, so a
  date-cast failure on save is not modelled.
- Users.ValidatorLength: assumes the `isLength` behaviour of recent releases of the validator
  library, which does not count the variation selectors U+FE0E and U+FE0F. Earlier releases
  count every code point, so "abcd" + U+2764 + U+FE0F (six code points) is refused at
  registration here but would be accepted by such a release. No package manifest fixes the
  release.
- `Users.IsEmail`: a simplified stand-in for the validator library's e-mail grammar (one
  '@', a non-empty local part, a dot inside the domain). Length limits and allowed
  characters are not modelled.
- Array-valued fields (`article_type`, `article_preferences`) count as "empty" when the list
  is empty. Whatever the validator library does per element is not modelled.
- Concurrent requests, database failures other than a missing document, and the
  `console` logging.
