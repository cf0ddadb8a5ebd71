# Comment controller of a Koa blog: a Dafny model

This project models the comment controller of a Koa/Mongoose blog back end
(`src/controller/comments.ts`). The controller lists, creates, updates and deletes
comments on articles. It keeps one derived field per article, `meta.comments`,
which should equal the article's number of published comments (state 1).

The store and the framework are abstracted away:

- the comment collection is a `seq<Comment>`;
- the article collection is a map from article id to `meta.comments`;
- every store call becomes a parameter holding its reply.

The model has six modules:

- `JsValues` (`jsvalues.dfy`): the JavaScript semantics the controller relies on.
  It covers optional fields, truthiness (`!!x`), numbers that may be NaN, and `Number(...)`.
- `Comments` (`comments.dfy`): comment records and the store's read side.
  `PublishedCount` counts the published comments of one article.
  `GroupCounts` is the `$match`/`$group` aggregation. `FindComment` is `findOne({ id })`.
- `Recount` (`recount.dfy`): `updateArticleCommentCount`. `Targets` is the dedup-and-filter
  of the ids. `Recomputed` is the settled article table. The class `ArticleTable` holds the
  table and updates it in place, one `Article.update` per grouped row, in a loop.
- `ListQuery` (`listquery.dfy`): the predicate and options that `getComments` builds before
  it calls the store, as a method that sets the fields one by one.
- `Notify` (`notify.dfy`): the permalink choice in `postComment`, and the recipients and
  contents of the mails that `sendMailToAdminAndTargetUser` sends.
- `Lifecycle` (`lifecycle.dfy`): the outcome of create, update and delete for each store reply,
  and the follow-up effects each one triggers. Lemmas run those effects against the article table.

The code does not always keep `meta.comments` exact, and the model states what it does:

- After a recount whose grouped result is non-empty, a target with no published comment keeps
  its stale count. The code only zeroes `postIds[0]`, and only when the grouped result is
  empty (lines 26-37). `Recount.CountBranch` and `Recount.StaleCountSurvives` state this.
  Every caller in this file passes exactly one id. `Recount.SingleTarget` proves that for one
  id the recount is exact.
- A rejected update is thrown with status 401, and the model calls it `ClientError`.
  A store write that resolves to `null` gives `handleError`; the model calls it `NotFound`.
  This holds for create too, not only for delete and update.

## Model

| member | source | states |
|---|---|---|
| `JsValues.ToNumber` | src/controller/comments.ts:211 | `Number(...)` of a field; `JsValues.NumberOfDecimalText` states that it inverts the decimal text of an id |
| `JsValues.NumberOfDecimalText` | src/controller/comments.ts:211 | `Number` of the decimal text of a post id is that id, and the text is truthy |
| `Comments.PublishedCount` | src/controller/comments.ts:21-23 | the number of comments on one post in state 1; `PublishedCountZero`, `PublishedCountAdd`, `PublishedCountRemove` and `PublishedCountConcat` state its properties |
| `Comments.PublishedCountZero` | src/controller/comments.ts:22 | an article's published count is zero exactly when none of its comments is in state 1 |
| `Comments.PublishedCountAdd` | src/controller/comments.ts:22 | a new comment raises its own article's count by one if it is published; no other count changes |
| `Comments.PublishedCountRemove` | src/controller/comments.ts:22 | removing a comment lowers its article's count by one if it was published; no other count changes |
| `Comments.PublishedCountConcat` | src/controller/comments.ts:22 | the count over two concatenated stores is the sum of their counts |
| `Comments.GroupCounts` | src/controller/comments.ts:21-24 | the `$match`/`$group` aggregation; `GroupCountsSound`, `GroupCountsComplete`, `GroupCountsDistinct` and `GroupCountsEmpty` state what its rows are |
| `Comments.GroupCountsSound` | src/controller/comments.ts:21-24 | every grouped row is a target with its positive number of published comments |
| `Comments.GroupCountsComplete` | src/controller/comments.ts:21-24 | every target with a published comment has a row |
| `Comments.GroupCountsDistinct` | src/controller/comments.ts:23 | distinct targets give rows with distinct post ids |
| `Comments.GroupCountsEmpty` | src/controller/comments.ts:21-26 | the grouped result is empty exactly when no target has a published comment |
| `Comments.FindComment` | src/controller/comments.ts:58 | `findOne({ id })` returns a stored comment with that id, and returns nothing exactly when no stored comment has it |
| `Recount.Distinct` | src/controller/comments.ts:19 | `[...new Set(ids)]` keeps every input value exactly once, with the first input value first |
| `Recount.TruthyIds` | src/controller/comments.ts:19 | the filter keeps exactly the ids that are neither 0 nor NaN |
| `Recount.Targets` | src/controller/comments.ts:19 | the dedup-then-filter of the ids; `TargetsMembers`, `TargetsNonEmpty` and `TargetsHead` state its contents and its first element |
| `Recount.TargetsMembers` | src/controller/comments.ts:19 | the targets are the non-zero input ids, each exactly once |
| `Recount.TargetsNonEmpty` | src/controller/comments.ts:19-20 | there is a target exactly when some input id is truthy |
| `Recount.TargetsHead` | src/controller/comments.ts:19 | `postIds[0]` is the first truthy id of the input; every id before it is 0 or NaN |
| `Recount.NoTargetsNoChange` | src/controller/comments.ts:19-20 | with only 0 and NaN ids there are no targets and no article changes |
| `Recount.ZeroBranch` | src/controller/comments.ts:26-27 | when no target has a published comment, only the first truthy id's article is written (set to 0); all others are unchanged |
| `Recount.SetIfPresent` | src/controller/comments.ts:27-30 | one `Article.update` by article id: writes an existing article only; `Recount.ArticleTable.SetCommentCount` and `Recount.ApplyRowsAt` state its effect |
| `Recount.ApplyRows` | src/controller/comments.ts:29-37 | the `forEach` over the grouped rows; `Recount.ApplyRowsAt` states its result key by key |
| `Recount.ApplyRowsAt` | src/controller/comments.ts:29-37 | writing rows with distinct ids sets each existing article named by a row to that row's count and leaves all other articles alone, in any row order; no article is added |
| `Recount.CountBranch` | src/controller/comments.ts:28-38 | when some target has a published comment, an existing article gets its published count exactly when it is such a target; every other article keeps its value; the key set is unchanged |
| `Recount.Recomputed` | src/controller/comments.ts:18-44 | the settled article table; `NoTargetsNoChange`, `ZeroBranch`, `CountBranch`, `SingleTarget` and `StaleCountSurvives` state it key by key |
| `Recount.SingleTarget` | src/controller/comments.ts:18-44 | a recount of one non-zero id sets that article (if it exists) to its published count and changes nothing else |
| `Recount.StaleCountSurvives` | src/controller/comments.ts:29-37 | with ids [5, 6] and only article 5 having a published comment, article 6 keeps its stale count 1 |
| `Recount.ArticleTable.SetCommentCount` | src/controller/comments.ts:30 | an update by article id writes `meta.comments` of an existing article and creates none |
| `Recount.ArticleTable.UpdateArticleCommentCount` | src/controller/comments.ts:18-44 | the aggregation is issued exactly when some id is truthy; the table afterwards is the settled table `Recomputed` |
| `ListQuery.BuildListQuery` | src/controller/comments.ts:77-136 | page and limit default to 1 and 20; sort 1 or -1 gives `{_id: sort}`, 2 gives `{likes: -1}`, any other value `{_id: sort}`, default -1; an unprivileged caller always gets state 1 and sees only published comments; a privileged caller gets a state filter exactly for "0"/"1"/"2", matching only that state; `$or` is present exactly for a non-empty keyword; the post id filter is present exactly when `post_id` is given |
| `Notify.Permalink` | src/controller/comments.ts:185-191 | the permalink choice; `Notify.PermalinkNamesArticle` states its three cases and its inverse |
| `Notify.PermalinkNamesArticle` | src/controller/comments.ts:185-191 | post id 0 gives the about page; a non-zero id links to exactly the article key found; the link is empty exactly when a non-zero id finds no article |
| `Notify.Notifications` | src/controller/comments.ts:51-67 | the first mail goes to the owner; a second mail, a reply notice to the parent's author, exists exactly when `pid` is non-zero and the parent was found; every mail carries the commenter, the content and the permalink |
| `Notify.Recipients` | src/controller/comments.ts:52-62 | the recipients are the mails' addresses in sending order |
| `Notify.ReplyReachesParentAuthor` | src/controller/comments.ts:57-67 | when the parent is looked up in the store: the owner is first; a second recipient exists exactly when `pid` is non-zero and some stored comment has that id, and it is that comment's author email |
| `Lifecycle.PostComment` | src/controller/comments.ts:185-204 | a thrown save is a store failure and a null save is a failure, both without effects; a saved record triggers the mails with the permalink, then a recount of `[res.post_id]` |
| `Lifecycle.DeletePostIds` | src/controller/comments.ts:211 | `Array.of(Number(ctx.query.post_ids))`; `DeleteRestoresCount` and `DeleteWithoutPostIdsRecountsNothing` state its effect on the recount |
| `Lifecycle.DeleteComment` | src/controller/comments.ts:211-220 | effects follow only a removed record; the recount list is `[Number(post_ids)]` from the query, not the removed record's post id |
| `Lifecycle.UpdateAccepted` | src/controller/comments.ts:229 | the fail-fast check of `state` and `post_ids`; `Lifecycle.PutComment` and `Lifecycle.UpdateRejectedBeforeStore` state its consequence |
| `Lifecycle.PutComment` | src/controller/comments.ts:229-247 | a missing or falsy `state` or `post_ids` is a client error whatever the store would say; otherwise effects follow only an updated record, and the recount list is `[Number(post_ids)]` |
| `Lifecycle.UpdateRejectedBeforeStore` | src/controller/comments.ts:229-232 | a rejected update gives the same client error for every store reply, with no effects |
| `Lifecycle.CreateRestoresCount` | src/controller/comments.ts:199-203 | after a create on an article settles, that article counts its published comments in the new store (one more if the new comment is published); nothing else changes |
| `Lifecycle.AboutCommentTouchesNoArticle` | src/controller/comments.ts:186-203 | a comment on the about page (post id 0) leaves the article table unchanged |
| `Lifecycle.DeleteRestoresCount` | src/controller/comments.ts:211-218 | a delete whose `post_ids` names the removed comment's article sets that article to its new count (one less if the comment was published); nothing else changes |
| `Lifecycle.DeleteWithoutPostIdsRecountsNothing` | src/controller/comments.ts:211 | a delete without `post_ids` recounts `[NaN]`, which changes no article |
| `Lifecycle.DeleteWithWrongPostIdLeavesStale` | src/controller/comments.ts:211-218 | deleting article 5's only published comment while naming article 6 leaves article 5 at its stale count 1 |
| `Lifecycle.UpdateRestoresCount` | src/controller/comments.ts:238-245 | an accepted update that names the record's article sets that article to its published count in the updated store |
| `Lifecycle.ThreeCommentsOnePending` | src/controller/comments.ts:199-203 | two published comments and one pending on article 5: after the last create settles, article 5 counts 2 |

## Left out

- Koa context handling, `ctx.throw`, `handleSuccess` and `handleError`: only the outcome kind of each request is modelled.
- The response of `getComments` after the store call (pagination shaping, and the failure when `paginate` resolves to nothing): the model stops at the predicate and options it builds.
- IP extraction from the request headers, the `'::ffff:'` stripping, the user agent and the `geoip.lookup` enrichment of a new comment: these are string handling of opaque input and a foreign library call.
- `JSON.parse` of `author` on create and update, and the contents of the update patch: parsing of opaque input; only the fields the controller branches on are modelled.
- The keyword regex: JavaScript regex semantics are not modelled. `ListQuery.Query` keeps the keyword, and `ListQuery.Matches` takes the regex outcome as a boolean.
- Sending mail, and the subjects, bodies and HTML of the mails: I/O. A mail is its recipient, its kind, the commenter, the content and the permalink.
- Mongoose `paginate`, `aggregate`, `findOne`, `findByIdAndRemove`, `findByIdAndUpdate` and `update` internals. The aggregation is the function `GroupCounts`. Article and parent lookups and write replies are parameters.
- The order of the aggregation's rows: the store promises none. `GroupCounts` lists rows in target order, and `Recount.ApplyRowsAt` shows that the settled table does not depend on the order.
- Detached promises and timing, the swallowed failure of each article write, a rejected article lookup in `postComment`, and races between concurrent recounts (last write wins): these are concurrency and async concerns. Every `Article.update` is modelled as succeeding, and effects run one after another once they settle. The zeroing update of the empty-result branch (line 27) is called without a callback, `.then` or `.exec`; with Mongoose's lazy queries it may never be sent, but the model assumes it is written, as the code intends.
- `JsValues.ToNumber`: simpler than JavaScript's `Number` on strings. Text of decimal digits (and "") gives its value; any other text gives NaN, including text that JavaScript reads as a number (surrounding spaces, a sign, hex, an exponent).
- Query parameters are plain integers where the code calls `Number(...)` on them (page, page size, sort). The post id of a new comment comes from the request body and is taken as an integer too. NaN from malformed text is not modelled there. A parameter sent twice (an array) is not modelled either.
- `ListQuery.ListRequest.postId`: the list filter `post_id` is the raw query string, which the store casts; the model takes it as the integer it casts to.
- `JsValues.Value` has no boolean or null: a body field such as `post_ids: true` (truthy, `Number(true) == 1`) or `null` is not modelled.
- The owner address and the site URLs are the constants of the code, not configuration.
