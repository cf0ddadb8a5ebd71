/** The orchestration of `postComment`, `putComment` and `deleteComment`: which
    outcome each request gets from the store's reply, and which follow-up effects
    (mails, recounts) it triggers. */
module Lifecycle {
  import opened JsValues
  import opened Comments
  import opened Recount
  import Notify

  /** What a store write gave back: it threw (caught as a 500), it resolved to null, or a record. */
  datatype StoreReply<T> = Threw | Null | Doc(doc: T)

  /** A detached follow-up: the new-comment mails, or a recount of the listed post ids. */
  datatype Effect = SendMails(comment: Comment, link: string) | RecountArticles(postIds: seq<JsNumber>)

  /** ClientError: rejected before the store (the controller throws 401); StoreFailure: the store
      threw (500); NotFound: the store returned no record (`handleError`); Ok: success. */
  datatype Outcome = ClientError | StoreFailure | NotFound | Ok(effects: seq<Effect>)

  function EffectsOf(o: Outcome): seq<Effect> {
    if o.Ok? then o.effects else []
  }

  /** `postComment` from the permalink on: the permalink is chosen from the request's
      post id before the save; the mails and the recount follow only a saved record and
      use the saved record's own fields. */
  function PostComment(requestPostId: int, articleKey: Option<string>, saved: StoreReply<Comment>): (o: Outcome)
    ensures o.Ok? <==> saved.Doc?
    ensures saved.Threw? ==> o == StoreFailure
    ensures saved.Null? ==> o == NotFound
    ensures saved.Doc? ==> o.effects == [
      SendMails(saved.doc, Notify.Permalink(requestPostId, articleKey)),
      RecountArticles([Finite(saved.doc.postId)])]
  {
    var link := Notify.Permalink(requestPostId, articleKey);
    match saved
    case Threw => StoreFailure
    case Null => NotFound
    case Doc(res) => Ok([SendMails(res, link), RecountArticles([Finite(res.postId)])])
  }

  /** `Array.of(Number(ctx.query.post_ids))`: the query parameter is a string when sent. */
  function DeletePostIds(postIdsParam: Option<string>): seq<JsNumber> {
    [ToNumber(if postIdsParam.Some? then Some(Text(postIdsParam.value)) else None)]
  }

  /** `deleteComment`: the recount list comes from the caller's `post_ids`, not from the removed record. */
  function DeleteComment(postIdsParam: Option<string>, removed: StoreReply<Comment>): (o: Outcome)
    ensures o.Ok? <==> removed.Doc?
    ensures removed.Threw? ==> o == StoreFailure
    ensures removed.Null? ==> o == NotFound
    ensures removed.Doc? ==> o.effects == [RecountArticles(DeletePostIds(postIdsParam))]
  {
    match removed
    case Threw => StoreFailure
    case Null => NotFound
    case Doc(_) => Ok([RecountArticles(DeletePostIds(postIdsParam))])
  }

  /** The fields of an update body that the controller inspects. */
  datatype UpdateRequest = UpdateRequest(state: Option<Value>, postIds: Option<Value>)

  /** The fail-fast check of `putComment`: `state` and `post_ids` must both be truthy. */
  predicate UpdateAccepted(req: UpdateRequest) {
    IsTruthy(req.state) && IsTruthy(req.postIds)
  }

  /** `putComment`: validation first; only an accepted request reaches the store. */
  function PutComment(req: UpdateRequest, updated: StoreReply<Comment>): (o: Outcome)
    ensures !UpdateAccepted(req) <==> o == ClientError
    ensures o.Ok? <==> UpdateAccepted(req) && updated.Doc?
    ensures UpdateAccepted(req) && updated.Threw? ==> o == StoreFailure
    ensures UpdateAccepted(req) && updated.Null? ==> o == NotFound
    ensures o.Ok? ==> o.effects == [RecountArticles([ToNumber(req.postIds)])]
  {
    if !UpdateAccepted(req) then ClientError
    else
      match updated
      case Threw => StoreFailure
      case Null => NotFound
      case Doc(_) => Ok([RecountArticles([ToNumber(req.postIds)])])
  }

  /** A rejected update does not depend on the store at all: whatever the store would
      have answered, the request is a client error with no effects. */
  lemma UpdateRejectedBeforeStore(req: UpdateRequest, r1: StoreReply<Comment>, r2: StoreReply<Comment>)
    requires !IsTruthy(req.state) || !IsTruthy(req.postIds)
    ensures PutComment(req, r1) == PutComment(req, r2) == ClientError
    ensures EffectsOf(PutComment(req, r1)) == []
  {
  }

  /** The article table once every effect of a request has run, in order, against `store`. */
  function ApplyEffects(table: map<int, int>, store: seq<Comment>, effects: seq<Effect>): map<int, int>
    decreases |effects|
  {
    if |effects| == 0 then table
    else
      var next := match effects[0]
        case RecountArticles(ids) => Recomputed(table, store, ids)
        case SendMails(_, _) => table;
      ApplyEffects(next, store, effects[1..])
  }

  /** Mails leave the table alone; a recount is `Recomputed`. */
  lemma ApplyOneEffect(table: map<int, int>, store: seq<Comment>, e: Effect, rest: seq<Effect>)
    ensures e.SendMails? ==> ApplyEffects(table, store, [e] + rest) == ApplyEffects(table, store, rest)
    ensures e.RecountArticles? ==>
      ApplyEffects(table, store, [e] + rest) == ApplyEffects(Recomputed(table, store, e.postIds), store, rest)
  {
  }

  /** After a comment is created on an article and its effects have settled, that
      article's count equals its number of published comments and nothing else changed. */
  lemma CreateRestoresCount(
    table: map<int, int>, store: seq<Comment>, c: Comment, requestPostId: int, articleKey: Option<string>)
    requires c.postId != 0
    ensures var after := store + [c];
      ApplyEffects(table, after, EffectsOf(PostComment(requestPostId, articleKey, Doc(c))))
        == SetIfPresent(table, c.postId, PublishedCount(store, c.postId) + (if c.state == Published then 1 else 0))
  {
    var after := store + [c];
    var link := Notify.Permalink(requestPostId, articleKey);
    var recount := RecountArticles([Finite(c.postId)]);
    ApplyOneEffect(table, after, SendMails(c, link), [recount]);
    ApplyOneEffect(table, after, recount, []);
    assert [SendMails(c, link), recount] == [SendMails(c, link)] + [recount];
    assert [recount] == [recount] + [];
    SingleTarget(table, after, c.postId);
    PublishedCountAdd(store, c, c.postId);
  }

  /** A comment on the about page (post id 0) never touches the article table. */
  lemma AboutCommentTouchesNoArticle(
    table: map<int, int>, store: seq<Comment>, c: Comment, articleKey: Option<string>)
    requires c.postId == 0
    ensures ApplyEffects(table, store, EffectsOf(PostComment(0, articleKey, Doc(c)))) == table
  {
    var link := Notify.Permalink(0, articleKey);
    var recount := RecountArticles([Finite(0)]);
    ApplyOneEffect(table, store, SendMails(c, link), [recount]);
    ApplyOneEffect(table, store, recount, []);
    assert [SendMails(c, link), recount] == [SendMails(c, link)] + [recount];
    assert [recount] == [recount] + [];
    NoTargetsNoChange(table, store, [Finite(0)]);
  }

  /** Deleting the comment at `i` with the caller naming its article restores that article's
      count (one less if the comment was published) and changes nothing else. */
  lemma DeleteRestoresCount(table: map<int, int>, store: seq<Comment>, i: nat)
    requires i < |store| && store[i].postId > 0
    ensures var p := store[i].postId;
      var after := store[..i] + store[i + 1..];
      ApplyEffects(table, after, EffectsOf(DeleteComment(Some(DecimalText(p)), Doc(store[i]))))
        == SetIfPresent(table, p, PublishedCount(store, p) - (if store[i].state == Published then 1 else 0))
  {
    var p := store[i].postId;
    var after := store[..i] + store[i + 1..];
    NumberOfDecimalText(p);
    var recount := RecountArticles([Finite(p)]);
    assert DeleteComment(Some(DecimalText(p)), Doc(store[i])) == Ok([recount]);
    ApplyOneEffect(table, after, recount, []);
    assert [recount] == [recount] + [];
    SingleTarget(table, after, p);
    PublishedCountRemove(store, i, p);
  }

  /** A delete without `post_ids` recounts `[NaN]`, which is dropped: no article changes. */
  lemma DeleteWithoutPostIdsRecountsNothing(table: map<int, int>, store: seq<Comment>, removed: Comment)
    ensures ApplyEffects(table, store, EffectsOf(DeleteComment(None, Doc(removed)))) == table
  {
    var recount := RecountArticles([NaN]);
    ApplyOneEffect(table, store, recount, []);
    assert [recount] == [recount] + [];
    NoTargetsNoChange(table, store, [NaN]);
  }

  /** Deleting the only published comment of article 5 while the caller names article 6:
      article 6 is recounted and article 5 keeps its stale count of 1. */
  lemma DeleteWithWrongPostIdLeavesStale()
    ensures var removed := Comment(1, 5, 0, Published, Author("a", "a@x"), "hi");
      var table := map[5 := 1, 6 := 0];
      ApplyEffects(table, [], EffectsOf(DeleteComment(Some("6"), Doc(removed)))) == table
      && PublishedCount([], 5) == 0
  {
  }

  /** An accepted update whose record exists, with the caller naming the record's article
      as a number, leaves that article's count equal to its published comments in the updated store. */
  lemma UpdateRestoresCount(table: map<int, int>, store: seq<Comment>, i: nat, patched: Comment, state: Value)
    requires i < |store| && patched.postId == store[i].postId && patched.postId != 0
    requires IsTruthy(Some(state))
    ensures var after := store[i := patched];
      var req := UpdateRequest(Some(state), Some(Num(patched.postId)));
      ApplyEffects(table, after, EffectsOf(PutComment(req, Doc(patched))))
        == SetIfPresent(table, patched.postId, PublishedCount(after, patched.postId))
  {
    var after := store[i := patched];
    var recount := RecountArticles([Finite(patched.postId)]);
    ApplyOneEffect(table, after, recount, []);
    assert [recount] == [recount] + [];
    SingleTarget(table, after, patched.postId);
  }

  /** Three comments on article 5, two published and one pending: after the create of the
      last one has settled, article 5 counts 2. */
  lemma ThreeCommentsOnePending()
    ensures var a := Author("a", "a@x");
      var store := [Comment(1, 5, 0, Published, a, "x"), Comment(2, 5, 0, Published, a, "y")];
      var pending := Comment(3, 5, 0, Pending, a, "z");
      ApplyEffects(map[5 := 0], store + [pending], EffectsOf(PostComment(5, Some("k"), Doc(pending))))
        == map[5 := 2]
  {
    var a := Author("a", "a@x");
    var store := [Comment(1, 5, 0, Published, a, "x"), Comment(2, 5, 0, Published, a, "y")];
    var pending := Comment(3, 5, 0, Pending, a, "z");
    CreateRestoresCount(map[5 := 0], store, pending, 5, Some("k"));
    assert store == [store[0]] + [store[1]];
    PublishedCountAdd([], store[0], 5);
    assert [] + [store[0]] == [store[0]];
    PublishedCountAdd([store[0]], store[1], 5);
    assert PublishedCount(store, 5) == 2;
  }
}
