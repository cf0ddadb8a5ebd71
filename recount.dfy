/** `updateArticleCommentCount`: recompute the `meta.comments` aggregate of the
    articles touched by a comment mutation from the published comments. */
module Recount {
  import opened JsValues
  import opened Comments

  /** `[...new Set(ids)]`: every value once, in order of first occurrence. */
  function Distinct(ids: seq<JsNumber>): (r: seq<JsNumber>)
    ensures forall x :: x in r <==> x in ids
    ensures NoDuplicates(r)
    ensures |ids| > 0 ==> |r| > 0 && r[0] == ids[0]
  {
    if |ids| == 0 then []
    else
      var init := ids[..|ids| - 1];
      var x := ids[|ids| - 1];
      var seen := Distinct(init);
      assert ids == init + [x];
      if x in seen then seen else seen + [x]
  }

  /** `.filter(id => !!id)`: the truthy numbers, as integers, in order. */
  function TruthyIds(ids: seq<JsNumber>): (r: seq<int>)
    ensures forall k :: k in r <==> Finite(k) in ids && k != 0
  {
    if |ids| == 0 then []
    else
      var init := ids[..|ids| - 1];
      var x := ids[|ids| - 1];
      assert ids == init + [x];
      TruthyIds(init) + (if IsTruthyNumber(x) then [x.n] else [])
  }

  /** The articles a recount touches: the distinct non-zero ids of the input. */
  function Targets(ids: seq<JsNumber>): seq<int> {
    TruthyIds(Distinct(ids))
  }

  /** Filtering keeps distinct values distinct. */
  lemma {:induction false} TruthyIdsNoDuplicates(d: seq<JsNumber>)
    requires NoDuplicates(d)
    ensures NoDuplicates(TruthyIds(d))
  {
    if |d| > 0 {
      var init := d[..|d| - 1];
      assert NoDuplicates(init) by {
        forall i, j | 0 <= i < j < |init| ensures init[i] != init[j] {
          assert init[i] == d[i] && init[j] == d[j];
        }
      }
      TruthyIdsNoDuplicates(init);
      var x := d[|d| - 1];
      if IsTruthyNumber(x) {
        assert x !in init;
        assert x.n !in TruthyIds(init);
      }
    }
  }

  /** `TruthyIds` of a longer list extends that of its prefix. */
  lemma TruthyIdsSnoc(d: seq<JsNumber>, x: JsNumber)
    ensures TruthyIds(d + [x]) == TruthyIds(d) + (if IsTruthyNumber(x) then [x.n] else [])
  {
  }

  /** Targets: each distinct non-zero input id exactly once. */
  lemma TargetsMembers(ids: seq<JsNumber>)
    ensures forall k :: k in Targets(ids) <==> Finite(k) in ids && k != 0
    ensures NoDuplicates(Targets(ids))
  {
    TruthyIdsNoDuplicates(Distinct(ids));
  }

  /** The first target is the first truthy id of the input: every id before it is 0 or NaN. */
  lemma {:induction false} TargetsHead(ids: seq<JsNumber>)
    requires |Targets(ids)| > 0
    ensures exists i ::
      && 0 <= i < |ids|
      && ids[i] == Finite(Targets(ids)[0])
      && (forall j :: 0 <= j < i ==> !IsTruthyNumber(ids[j]))
  {
    var init := ids[..|ids| - 1];
    var x := ids[|ids| - 1];
    assert ids == init + [x];
    var seen := Distinct(init);
    TruthyIdsSnoc(seen, x);
    assert Targets(ids) == Targets(init) || Targets(ids) == Targets(init) + [x.n];
    if |Targets(init)| > 0 {
      TargetsHead(init);
      var i :| 0 <= i < |init| && init[i] == Finite(Targets(init)[0])
        && forall j :: 0 <= j < i ==> !IsTruthyNumber(init[j]);
      assert ids[i] == init[i];
      assert forall j :: 0 <= j < i ==> ids[j] == init[j];
    } else {
      assert Targets(ids) == [x.n];
      forall j | 0 <= j < |init| ensures !IsTruthyNumber(ids[j]) {
        assert ids[j] == init[j];
        assert init[j] in init;
      }
      assert ids[|ids| - 1] == Finite(Targets(ids)[0]);
    }
  }

  /** `Article.update({ id }, { $set: { 'meta.comments': n } })`: only an existing article is written. */
  function SetIfPresent(table: map<int, int>, id: int, n: int): map<int, int> {
    if id in table then table[id := n] else table
  }

  /** The `counts.forEach` of the grouped rows, one update per row, in row order. */
  function ApplyRows(table: map<int, int>, rows: seq<CountRow>): map<int, int> {
    if |rows| == 0 then table
    else
      var last := rows[|rows| - 1];
      SetIfPresent(ApplyRows(table, rows[..|rows| - 1]), last.postId, last.num)
  }

  /** The article table after `updateArticleCommentCount(ids)` has settled. */
  function Recomputed(table: map<int, int>, store: seq<Comment>, ids: seq<JsNumber>): map<int, int> {
    var targets := Targets(ids);
    if |targets| == 0 then table
    else
      var counts := GroupCounts(store, targets);
      if |counts| == 0 then SetIfPresent(table, targets[0], 0)
      else ApplyRows(table, counts)
  }

  /** Applying rows with distinct ids writes each existing article named by a row with
      that row's count, and no other article: the order of the rows does not matter. */
  lemma {:induction false} ApplyRowsAt(table: map<int, int>, rows: seq<CountRow>, k: int)
    requires DistinctRowIds(rows)
    ensures (k in ApplyRows(table, rows)) == (k in table)
    ensures k in table && (forall i :: 0 <= i < |rows| ==> rows[i].postId != k) ==>
      ApplyRows(table, rows)[k] == table[k]
    ensures forall i :: 0 <= i < |rows| && rows[i].postId == k && k in table ==>
      ApplyRows(table, rows)[k] == rows[i].num
  {
    if |rows| > 0 {
      var init := rows[..|rows| - 1];
      assert DistinctRowIds(init) by {
        forall i, j | 0 <= i < j < |init| ensures init[i].postId != init[j].postId {
          assert init[i] == rows[i] && init[j] == rows[j];
        }
      }
      ApplyRowsAt(table, init, k);
      assert forall i :: 0 <= i < |init| ==> init[i] == rows[i];
    }
  }

  /** There is something to recount exactly when some input id is truthy. */
  lemma TargetsNonEmpty(ids: seq<JsNumber>)
    ensures |Targets(ids)| > 0 <==> exists i :: 0 <= i < |ids| && IsTruthyNumber(ids[i])
  {
    TargetsMembers(ids);
    if |Targets(ids)| > 0 {
      var k := Targets(ids)[0];
      assert Finite(k) in ids;
      var i :| 0 <= i < |ids| && ids[i] == Finite(k);
    }
    forall i | 0 <= i < |ids| && IsTruthyNumber(ids[i]) ensures |Targets(ids)| > 0 {
      assert ids[i] in ids;
      assert ids[i].n in Targets(ids);
    }
  }

  /** With no truthy id (only 0s and NaNs) nothing is queried and nothing is written. */
  lemma NoTargetsNoChange(table: map<int, int>, store: seq<Comment>, ids: seq<JsNumber>)
    requires forall i :: 0 <= i < |ids| ==> !IsTruthyNumber(ids[i])
    ensures |Targets(ids)| == 0
    ensures Recomputed(table, store, ids) == table
  {
    TargetsNonEmpty(ids);
  }

  /** When no target has a published comment, exactly one article is written: the first
      truthy id of the input is set to 0, and every other article, other targets included, is unchanged. */
  lemma ZeroBranch(table: map<int, int>, store: seq<Comment>, ids: seq<JsNumber>, first: int)
    requires 0 <= first < |ids| && IsTruthyNumber(ids[first])
    requires forall j :: 0 <= j < first ==> !IsTruthyNumber(ids[j])
    requires forall i :: 0 <= i < |ids| && IsTruthyNumber(ids[i]) ==> PublishedCount(store, ids[i].n) == 0
    ensures Recomputed(table, store, ids) == SetIfPresent(table, ids[first].n, 0)
  {
    var targets := Targets(ids);
    TargetsMembers(ids);
    assert ids[first].n in targets;
    TargetsHead(ids);
    var i :| 0 <= i < |ids| && ids[i] == Finite(targets[0]) && forall j :: 0 <= j < i ==> !IsTruthyNumber(ids[j]);
    assert targets[0] in targets;
    assert IsTruthyNumber(ids[i]);
    assert i == first;
    forall k | k in targets ensures PublishedCount(store, k) == 0 {
      var m :| 0 <= m < |ids| && ids[m] == Finite(k);
      assert IsTruthyNumber(ids[m]);
    }
    GroupCountsEmpty(store, targets);
  }

  /** When some target has a published comment, each existing article that is a target with
      published comments gets exactly its published count; every other article keeps its value,
      including targets with no published comment (their stale count survives). */
  lemma CountBranch(table: map<int, int>, store: seq<Comment>, ids: seq<JsNumber>, w: int, k: int)
    requires Finite(w) in ids && w != 0 && PublishedCount(store, w) > 0
    ensures (k in Recomputed(table, store, ids)) == (k in table)
    ensures k in table ==>
      Recomputed(table, store, ids)[k] ==
        (if Finite(k) in ids && k != 0 && PublishedCount(store, k) > 0 then PublishedCount(store, k) else table[k])
  {
    var targets := Targets(ids);
    TargetsMembers(ids);
    var rows := GroupCounts(store, targets);
    GroupCountsComplete(store, targets, w);
    GroupCountsSound(store, targets);
    GroupCountsDistinct(store, targets);
    ApplyRowsAt(table, rows, k);
    if k in table && Finite(k) in ids && k != 0 && PublishedCount(store, k) > 0 {
      GroupCountsComplete(store, targets, k);
    }
  }

  /** A single id (what every caller in the controller passes) restores the invariant exactly:
      the article's count becomes its number of published comments and nothing else changes. */
  lemma SingleTarget(table: map<int, int>, store: seq<Comment>, p: int)
    requires p != 0
    ensures Recomputed(table, store, [Finite(p)]) == SetIfPresent(table, p, PublishedCount(store, p))
  {
    assert Distinct([Finite(p)]) == [Finite(p)];
    assert TruthyIds([Finite(p)]) == [p] by {
      assert [Finite(p)][..0] == [];
    }
    assert GroupCounts(store, [p][1..]) == [] by {
      assert [p][1..] == [];
    }
    assert Targets([Finite(p)]) == [p];
    if PublishedCount(store, p) > 0 {
      var rows := [CountRow(p, PublishedCount(store, p))];
      assert GroupCounts(store, [p]) == rows;
      assert rows[..0] == [];
      assert ApplyRows(table, rows) == SetIfPresent(ApplyRows(table, []), p, PublishedCount(store, p));
      assert Recomputed(table, store, [Finite(p)]) == ApplyRows(table, rows);
    } else {
      assert GroupCounts(store, [p]) == [];
    }
  }

  /** The settled table when the input holds several ids and only some of them still have
      published comments: the other target keeps its stale count. */
  lemma StaleCountSurvives()
    ensures var store := [Comment(1, 5, 0, Published, Author("a", "a@x"), "hi")];
      var table := map[5 := 3, 6 := 1];
      Recomputed(table, store, [Finite(5), Finite(6)]) == map[5 := 1, 6 := 1]
      && PublishedCount(store, 6) == 0
  {
    var c := Comment(1, 5, 0, Published, Author("a", "a@x"), "hi");
    var store := [c];
    var table := map[5 := 3, 6 := 1];
    var ids := [Finite(5), Finite(6)];
    assert store[..0] == [];
    assert PublishedCount(store, 5) == 1;
    assert PublishedCount(store, 6) == 0;
    assert Finite(5) in ids && Finite(6) in ids;
    var r := Recomputed(table, store, ids);
    CountBranch(table, store, ids, 5, 5);
    CountBranch(table, store, ids, 5, 6);
    forall k | k in r ensures k in table {
      CountBranch(table, store, ids, 5, k);
    }
    assert r.Keys == table.Keys;
    assert r == map[5 := 1, 6 := 1];
  }

  /** The article table, `meta.comments` by article id. */
  class ArticleTable {
    var commentCounts: map<int, int>

    constructor (initial: map<int, int>)
      ensures commentCounts == initial
    {
      commentCounts := initial;
    }

    /** `Article.update({ id }, { $set: { 'meta.comments': n } })`. */
    method SetCommentCount(id: int, n: int)
      modifies this
      ensures commentCounts == SetIfPresent(old(commentCounts), id, n)
    {
      if id in commentCounts {
        commentCounts := commentCounts[id := n];
      }
    }

    /** `updateArticleCommentCount(postIds)` against `store`; `queried` says whether the
        aggregation was issued at all. */
    method UpdateArticleCommentCount(store: seq<Comment>, postIds: seq<JsNumber>) returns (queried: bool)
      modifies this
      ensures queried <==> exists i :: 0 <= i < |postIds| && IsTruthyNumber(postIds[i])
      ensures commentCounts == Recomputed(old(commentCounts), store, postIds)
    {
      var postIdsSet := Targets(postIds);
      TargetsNonEmpty(postIds);
      queried := |postIdsSet| > 0;
      if queried {
        var counts := GroupCounts(store, postIdsSet);
        if |counts| == 0 {
          SetCommentCount(postIdsSet[0], 0);
        } else {
          var i := 0;
          while i < |counts|
            invariant 0 <= i <= |counts|
            invariant commentCounts == ApplyRows(old(commentCounts), counts[..i])
          {
            assert counts[..i + 1][..i] == counts[..i];
            SetCommentCount(counts[i].postId, counts[i].num);
            i := i + 1;
          }
          assert counts[..|counts|] == counts;
        }
      }
    }
  }
}
