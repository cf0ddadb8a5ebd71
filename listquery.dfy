/** The query construction of `getComments`: from the request's paging, filter and
    sort parameters and the caller's privilege to a store predicate and options. */
module ListQuery {
  import opened JsValues
  import opened Comments

  /** The query-string parameters; `None` is a parameter that was not sent. */
  datatype ListRequest = ListRequest(
    currentPage: Option<int>,
    pageSize: Option<int>,
    keyword: Option<string>,
    postId: Option<int>,
    state: Option<string>,
    sort: Option<int>)

  /** `{ _id: order }` (creation order) or `{ likes: order }`. */
  datatype SortKey = ById(order: int) | ByLikes(order: int)

  datatype Options = Options(sort: SortKey, page: int, limit: int)

  /** The state filter: the request's own string for a privileged caller, the number 1 otherwise. */
  datatype StateValue = StateText(text: string) | StateNumber(n: int)

  /** The predicate; `keywordOr` is the keyword behind the `$or` regex clause, kept opaque. */
  datatype Query = Query(state: Option<StateValue>, keywordOr: Option<string>, postId: Option<int>)

  const DefaultPage: int := 1
  const DefaultPageSize: int := 20
  const DefaultSort: int := -1

  /** The state strings a privileged caller may filter on, and the state each one selects. */
  function StateCode(text: string): Option<int> {
    if text == "0" then Some(Pending)
    else if text == "1" then Some(Published)
    else if text == "2" then Some(Rejected)
    else None
  }

  /** Whether comment `c` satisfies `q`; `keywordHit` stands for the outcome of the
      keyword regex on the comment's content, author name or author email. */
  predicate Matches(q: Query, c: Comment, keywordHit: bool) {
    && (match q.state
        case None => true
        case Some(StateNumber(n)) => c.state == n
        case Some(StateText(t)) => StateCode(t) == Some(c.state))
    && (q.keywordOr.Some? ==> keywordHit)
    && (q.postId.Some? ==> c.postId == q.postId.value)
  }

  /** Builds `querys` and `options` as `getComments` does before calling the store. */
  method BuildListQuery(req: ListRequest, privileged: bool) returns (query: Query, options: Options)
    ensures options.page == req.currentPage.GetOr(DefaultPage)
    ensures options.limit == req.pageSize.GetOr(DefaultPageSize)
    ensures var s := req.sort.GetOr(DefaultSort);
      && (s == 1 || s == -1 ==> options.sort == ById(s))
      && (s == 2 ==> options.sort == ByLikes(-1))
      && (s != 1 && s != -1 && s != 2 ==> options.sort == ById(s))
    ensures !privileged ==> query.state == Some(StateNumber(Published))
    ensures privileged ==>
      (query.state.Some? <==> req.state.Some? && StateCode(req.state.value).Some?)
    ensures privileged && query.state.Some? ==> query.state == Some(StateText(req.state.value))
    ensures query.keywordOr.Some? <==> req.keyword.Some? && req.keyword.value != ""
    ensures query.keywordOr.Some? ==> query.keywordOr == req.keyword
    ensures query.postId == req.postId
    ensures !privileged ==> forall c: Comment, hit: bool :: Matches(query, c, hit) ==> c.state == Published
    ensures privileged && query.state.Some? ==>
      forall c: Comment, hit: bool :: Matches(query, c, hit) ==> StateCode(req.state.value) == Some(c.state)
  {
    var keyword := req.keyword.GetOr("");
    var sort := req.sort.GetOr(DefaultSort);
    options := Options(ById(sort), req.currentPage.GetOr(DefaultPage), req.pageSize.GetOr(DefaultPageSize));

    if sort == 1 || sort == -1 {
      options := options.(sort := ById(sort));
    } else if sort == 2 {
      options := options.(sort := ByLikes(-1));
    }

    query := Query(None, None, None);

    if req.state.Some? && req.state.value != "" && req.state.value in ["0", "1", "2"] {
      query := query.(state := Some(StateText(req.state.value)));
    }

    if !privileged {
      query := query.(state := Some(StateNumber(Published)));
    }

    if keyword != "" {
      query := query.(keywordOr := Some(keyword));
    }

    if req.postId.Some? {
      query := query.(postId := req.postId);
    }
  }
}
