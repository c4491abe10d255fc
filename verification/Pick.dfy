/** Iteration over a Go map or over the rows of a query without ORDER BY: any element comes next. */
module Pick {
  lemma Element<T>(s: set<T>) returns (x: T)
    requires s != {}
    ensures x in s
  {
    x :| x in s;
  }

  lemma Common<T>(a: set<T>, b: set<T>) returns (x: T)
    requires !(a !! b)
    ensures x in a && x in b
  {
    forall y | y in a && y in b ensures y in a * b {}
    x := Element(a * b);
  }

  lemma SubsetSize<T>(a: set<T>, b: set<T>)
    requires a <= b
    ensures |a| <= |b|
  {
    assert b == a + (b - a) && a !! (b - a);
  }

  lemma SameBySize<T>(a: set<T>, b: set<T>)
    requires a <= b && |a| == |b|
    ensures a == b
  {
    assert b == a + (b - a) && a !! (b - a);
  }

  method Any<T>(s: set<T>) returns (x: T)
    requires s != {}
    ensures x in s
  {
    x :| x in s;
  }

  /** Taking one element off the rest adds it to what is done. */
  lemma OneLess<T>(all: set<T>, todo: set<T>, x: T)
    requires todo <= all && x in todo
    ensures all - (todo - {x}) == all - todo + {x}
    ensures x in all && x !in all - todo
  {}

  lemma NoneDone<T>(all: set<T>)
    ensures all - all == {} && all - {} == all
  {}

  /** The same for the rows of a table: one more row has been read. */
  lemma OneMoreRow<K, V>(rows: map<K, V>, todo: set<K>, k: K)
    requires todo <= rows.Keys && k in todo
    ensures rows - (todo - {k}) == (rows - todo)[k := rows[k]]
    ensures k in rows && k !in rows - todo
  {}

  lemma NoRowsRead<K, V>(rows: map<K, V>)
    ensures rows - rows.Keys == map[] && rows - {} == rows
  {}
}
