/** The comment records and the read primitives of the comment store that the
    controller uses: the published-count aggregation and `findOne` by id. */
module Comments {
  import opened JsValues

  /** Comment states: 0 pending, 1 published, 2 rejected. */
  const Pending: int := 0
  const Published: int := 1
  const Rejected: int := 2

  datatype Author = Author(name: string, email: string)

  /** A stored comment; `postId` 0 is the about page and `pid` 0 means "no parent". */
  datatype Comment = Comment(id: int, postId: int, pid: int, state: int, author: Author, content: string)

  predicate CountsFor(c: Comment, postId: int) {
    c.postId == postId && c.state == Published
  }

  /** Number of comments of `store` on article `postId` whose state is published. */
  function PublishedCount(store: seq<Comment>, postId: int): nat {
    if |store| == 0 then 0
    else PublishedCount(store[..|store| - 1], postId) + (if CountsFor(store[|store| - 1], postId) then 1 else 0)
  }

  /** The count is zero exactly when no comment of the store counts for the article. */
  lemma {:induction false} PublishedCountZero(store: seq<Comment>, postId: int)
    ensures PublishedCount(store, postId) == 0 <==> forall i :: 0 <= i < |store| ==> !CountsFor(store[i], postId)
  {
    if |store| > 0 {
      var init := store[..|store| - 1];
      PublishedCountZero(init, postId);
      assert forall i :: 0 <= i < |init| ==> init[i] == store[i];
    }
  }

  /** Counting distributes over concatenation of stores. */
  lemma {:induction false} PublishedCountConcat(a: seq<Comment>, b: seq<Comment>, postId: int)
    ensures PublishedCount(a + b, postId) == PublishedCount(a, postId) + PublishedCount(b, postId)
  {
    if |b| == 0 {
      assert a + b == a;
    } else {
      assert (a + b)[..|a + b| - 1] == a + b[..|b| - 1];
      PublishedCountConcat(a, b[..|b| - 1], postId);
    }
  }

  /** Adding a comment raises the count of its article by one if it is published, and changes no other count. */
  lemma PublishedCountAdd(store: seq<Comment>, c: Comment, postId: int)
    ensures PublishedCount(store + [c], postId) == PublishedCount(store, postId) + (if CountsFor(c, postId) then 1 else 0)
  {
  }

  /** Removing the comment at `i` lowers the count of its article by one if it was published, and changes no other count. */
  lemma PublishedCountRemove(store: seq<Comment>, i: nat, postId: int)
    requires i < |store|
    ensures PublishedCount(store[..i] + store[i + 1..], postId)
            == PublishedCount(store, postId) - (if CountsFor(store[i], postId) then 1 else 0)
  {
    assert store == store[..i] + [store[i]] + store[i + 1..];
    PublishedCountConcat(store[..i] + [store[i]], store[i + 1..], postId);
    PublishedCountConcat(store[..i], [store[i]], postId);
    PublishedCountConcat(store[..i], store[i + 1..], postId);
    assert [store[i]][..0] == [];
  }

  /** One row of the grouped aggregation: `{ _id: post_id, num_tutorial }`. */
  datatype CountRow = CountRow(postId: int, num: nat)

  predicate DistinctRowIds(rows: seq<CountRow>) {
    forall i, j :: 0 <= i < j < |rows| ==> rows[i].postId != rows[j].postId
  }

  predicate NoDuplicates<T(==)>(s: seq<T>) {
    forall i, j :: 0 <= i < j < |s| ==> s[i] != s[j]
  }

  /** The aggregation `$match { state: 1, post_id: { $in: targets } }` followed by
      `$group` on `post_id`: one row per target that has a published comment. */
  function GroupCounts(store: seq<Comment>, targets: seq<int>): seq<CountRow> {
    if |targets| == 0 then []
    else
      var rest := GroupCounts(store, targets[1..]);
      var n := PublishedCount(store, targets[0]);
      if n > 0 then [CountRow(targets[0], n)] + rest else rest
  }

  /** Every row is a target paired with its (positive) published count. */
  lemma {:induction false} GroupCountsSound(store: seq<Comment>, targets: seq<int>)
    ensures forall i :: 0 <= i < |GroupCounts(store, targets)| ==>
      var row := GroupCounts(store, targets)[i];
      row.postId in targets && row.num == PublishedCount(store, row.postId) && row.num > 0
  {
    if |targets| > 0 {
      var rest := GroupCounts(store, targets[1..]);
      var rows := GroupCounts(store, targets);
      GroupCountsSound(store, targets[1..]);
      forall i | 0 <= i < |rows|
        ensures rows[i].postId in targets && rows[i].num == PublishedCount(store, rows[i].postId) && rows[i].num > 0
      {
        if PublishedCount(store, targets[0]) > 0 {
          if i > 0 {
            assert rows[i] == rest[i - 1];
            assert rest[i - 1].postId in targets[1..];
          }
        } else {
          assert rows[i] == rest[i];
          assert rest[i].postId in targets[1..];
        }
      }
    }
  }

  /** Every target with a published comment has a row. */
  lemma {:induction false} GroupCountsComplete(store: seq<Comment>, targets: seq<int>, k: int)
    requires k in targets && PublishedCount(store, k) > 0
    ensures exists i :: 0 <= i < |GroupCounts(store, targets)| && GroupCounts(store, targets)[i].postId == k
  {
    var rows := GroupCounts(store, targets);
    var rest := GroupCounts(store, targets[1..]);
    if targets[0] == k {
      assert rows == [CountRow(k, PublishedCount(store, k))] + rest;
      assert rows[0].postId == k;
    } else {
      assert k in targets[1..];
      GroupCountsComplete(store, targets[1..], k);
      var i :| 0 <= i < |rest| && rest[i].postId == k;
      if PublishedCount(store, targets[0]) > 0 {
        assert rows[i + 1] == rest[i];
      } else {
        assert rows[i] == rest[i];
      }
    }
  }

  /** Distinct targets give rows with distinct ids. */
  lemma {:induction false} GroupCountsDistinct(store: seq<Comment>, targets: seq<int>)
    requires NoDuplicates(targets)
    ensures DistinctRowIds(GroupCounts(store, targets))
  {
    if |targets| > 0 {
      var rest := GroupCounts(store, targets[1..]);
      assert NoDuplicates(targets[1..]) by {
        forall i, j | 0 <= i < j < |targets[1..]| ensures targets[1..][i] != targets[1..][j] {
          assert targets[1..][i] == targets[i + 1] && targets[1..][j] == targets[j + 1];
        }
      }
      GroupCountsDistinct(store, targets[1..]);
      GroupCountsSound(store, targets[1..]);
      if PublishedCount(store, targets[0]) > 0 {
        var rows := GroupCounts(store, targets);
        assert targets[0] !in targets[1..];
        forall i, j | 0 <= i < j < |rows| ensures rows[i].postId != rows[j].postId {
          assert rows[j] == rest[j - 1];
          assert rest[j - 1].postId in targets[1..];
          if i > 0 {
            assert rows[i] == rest[i - 1];
          } else {
            assert rows[i].postId == targets[0];
          }
        }
      }
    }
  }

  /** The grouped result is empty exactly when no target has a published comment. */
  lemma GroupCountsEmpty(store: seq<Comment>, targets: seq<int>)
    ensures |GroupCounts(store, targets)| == 0 <==> forall k :: k in targets ==> PublishedCount(store, k) == 0
  {
    var rows := GroupCounts(store, targets);
    GroupCountsSound(store, targets);
    if |rows| > 0 {
      assert rows[0].postId in targets && PublishedCount(store, rows[0].postId) > 0;
    }
    forall k | k in targets && PublishedCount(store, k) > 0 ensures |rows| > 0 {
      GroupCountsComplete(store, targets, k);
    }
  }

  /** `Comment.findOne({ id })`: the first stored comment with that id, if any. */
  function FindComment(store: seq<Comment>, id: int): (r: Option<Comment>)
    ensures r.Some? ==> r.value in store && r.value.id == id
    ensures r.None? <==> forall i :: 0 <= i < |store| ==> store[i].id != id
  {
    if |store| == 0 then None
    else if store[0].id == id then Some(store[0])
    else
      var r := FindComment(store[1..], id);
      assert forall i :: 0 < i < |store| ==> store[i] == store[1..][i - 1];
      r
  }
}
