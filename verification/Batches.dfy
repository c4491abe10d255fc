/** Reading ids in ascending batches, as `id > ? ORDER BY id LIMIT n` does. */
module Batches {
  import opened Pick

  ghost predicate Ascending(s: seq<int>) {
    forall i, j | 0 <= i < j < |s| :: s[i] < s[j]
  }

  function Elements(s: seq<int>): set<int> {
    set x | x in s
  }

  method Smallest(ids: set<int>) returns (m: int)
    requires ids != {}
    ensures m in ids && forall x | x in ids :: m <= x
  {
    m := Any(ids);
    var todo := ids - {m};
    while todo != {}
      invariant todo <= ids && m in ids
      invariant forall x | x in ids && x !in todo :: m <= x
      decreases todo
    {
      var x := Any(todo);
      todo := todo - {x};
      if x < m {
        m := x;
      }
    }
  }

  /** The smallest `limit` ids in ascending order. */
  method FirstIds(ids: set<int>, limit: nat) returns (batch: seq<int>)
    ensures Ascending(batch) && |batch| <= limit
    ensures forall x | x in batch :: x in ids
    ensures forall x, y | x in batch && y in ids && y !in batch :: x < y
    ensures |batch| < limit ==> forall x | x in ids :: x in batch
  {
    batch := [];
    var todo := ids;
    while todo != {} && |batch| < limit
      invariant Ascending(batch) && |batch| <= limit
      invariant forall x :: x in ids <==> x in batch || x in todo
      invariant forall x, y | x in batch && y in todo :: x < y
      decreases todo
    {
      var m := Smallest(todo);
      forall i | 0 <= i < |batch| ensures batch[i] < m {
        assert batch[i] in batch;
      }
      batch := batch + [m];
      todo := todo - {m};
    }
  }

  lemma AppendAscending(a: seq<int>, b: seq<int>)
    requires Ascending(a) && Ascending(b) && forall x, y | x in a && y in b :: x < y
    ensures Ascending(a + b) && Elements(a + b) == Elements(a) + Elements(b)
  {
    forall i, j | 0 <= i < j < |a + b| ensures (a + b)[i] < (a + b)[j] {
      if i < |a| <= j {
        assert (a + b)[i] in a && (a + b)[j] in b;
      }
    }
  }

  /** What has been read and what is still to come. */
  ghost predicate Reading(all: set<int>, done: seq<int>, rest: set<int>) {
    Ascending(done) && all == Elements(done) + rest && forall x, y | x in done && y in rest :: x < y
  }

  lemma BatchRead(all: set<int>, done: seq<int>, rest: set<int>, batch: seq<int>)
    requires Reading(all, done, rest) && Ascending(batch)
    requires forall x | x in batch :: x in rest
    requires forall x, y | x in batch && y in rest && y !in batch :: x < y
    ensures Reading(all, done + batch, rest - Elements(batch))
    ensures (forall x | x in rest :: x in batch) ==> rest - Elements(batch) == {} && Elements(done + batch) == all
  {
    AppendAscending(done, batch);
    forall x, y | x in done + batch && y in rest - Elements(batch) ensures x < y {
      assert x in done || x in batch;
    }
    if forall x | x in rest :: x in batch {
      forall x ensures x !in rest - Elements(batch) {}
    }
  }

  lemma AllRead(order: seq<int>, ids: set<int>)
    requires Ascending(order) && |order| <= |ids|
    requires forall x | x in order :: x in ids
    requires |order| < |ids| ==> forall x | x in ids :: x in order
    ensures Elements(order) == ids
  {
    AscendingCount(order);
    if |order| == |ids| {
      SameBySize(Elements(order), ids);
    }
  }

  lemma AscendingCount(s: seq<int>)
    requires Ascending(s)
    ensures |Elements(s)| == |s|
  {
    if s != [] {
      var init, last := s[..|s| - 1], s[|s| - 1];
      AscendingCount(init);
      assert s == init + [last];
      assert Elements(s) == Elements(init) + {last};
    }
  }

  /** All ids in ascending order. */
  method AllIds(ids: set<int>) returns (order: seq<int>)
    ensures Ascending(order) && Elements(order) == ids
  {
    order := FirstIds(ids, |ids|);
    AllRead(order, ids);
  }
}
