/** Sorting by a comparison, as the library sort does. */
module Sorting {
  ghost predicate Ordered<T(!new)>(s: seq<T>, before: (T, T) -> bool) {
    forall i, j | 0 <= i < j < |s| :: before(s[i], s[j])
  }

  /** A strict total order on the elements of `s`, which are distinct. */
  ghost predicate Comparable<T(!new)>(s: seq<T>, before: (T, T) -> bool) {
    && (forall i, j | 0 <= i < j < |s| :: s[i] != s[j])
    && (forall x, y | x in s && y in s && x != y :: before(x, y) || before(y, x))
    && (forall x, y, z | x in s && y in s && z in s && before(x, y) && before(y, z) :: before(x, z))
  }

  lemma Insertion<T(!new)>(t: seq<T>, j: nat, x: T, before: (T, T) -> bool)
    requires j <= |t| && Ordered(t, before)
    requires forall k | 0 <= k < j :: before(t[k], x)
    requires forall k | j <= k < |t| :: before(x, t[k])
    ensures Ordered(t[..j] + [x] + t[j..], before)
    ensures forall y :: y in t[..j] + [x] + t[j..] <==> y in t || y == x
  {
    assert t == t[..j] + t[j..];
    forall y ensures y in t <==> y in t[..j] || y in t[j..] {}
  }

  method Sort<T(!new)>(s: seq<T>, before: (T, T) -> bool) returns (t: seq<T>)
    requires Comparable(s, before)
    ensures Ordered(t, before) && |t| == |s|
    ensures forall x :: x in t <==> x in s
  {
    t := [];
    for i := 0 to |s|
      invariant Ordered(t, before) && |t| == i
      invariant forall x :: x in t <==> x in s[..i]
    {
      var j := i;
      assert s[i] in s && s[i] !in s[..i];
      while j > 0 && !before(t[j - 1], s[i])
        invariant 0 <= j <= i
        invariant forall k | j <= k < i :: before(s[i], t[k])
        decreases j
      {
        assert t[j - 1] in s[..i] && t[j - 1] in s;
        j := j - 1;
      }
      forall k | 0 <= k < j ensures before(t[k], s[i]) {
        assert t[k] in s[..i] && t[j - 1] in s[..i];
        assert t[k] in s && t[j - 1] in s;
      }
      Insertion(t, j, s[i], before);
      t := t[..j] + [s[i]] + t[j..];
      assert s[..i + 1] == s[..i] + [s[i]];
    }
    assert s[..|s|] == s;
  }

  /** One set of elements has one sorted list. */
  lemma {:induction false} OrderedIsUnique<T(!new)>(s: seq<T>, t: seq<T>, before: (T, T) -> bool)
    requires Ordered(s, before) && Ordered(t, before)
    requires forall x :: x in s <==> x in t
    requires forall x, y | x in s && y in s :: !(before(x, y) && before(y, x))
    ensures s == t
  {
    BothEmpty(s, t);
    if s != [] {
      SameFirst(s, t, before);
      assert s == [s[0]] + s[1..] && t == [t[0]] + t[1..];
      forall x ensures x in s[1..] <==> x in t[1..] {
        NotFirst(s, x, before);
        NotFirst(t, x, before);
      }
      OrderedIsUnique(s[1..], t[1..], before);
    }
  }

  lemma BothEmpty<T(!new)>(s: seq<T>, t: seq<T>)
    requires forall x :: x in s <==> x in t
    ensures s == [] <==> t == []
    ensures s != [] ==> s[0] in t && t[0] in s
  {
    if s != [] {
      assert s[0] in t;
    }
    if t != [] {
      assert t[0] in s;
    }
  }

  lemma NotFirst<T(!new)>(s: seq<T>, x: T, before: (T, T) -> bool)
    requires Ordered(s, before) && s != []
    requires forall x, y | x in s && y in s :: !(before(x, y) && before(y, x))
    ensures x in s[1..] <==> x in s && x != s[0]
  {
    assert s == [s[0]] + s[1..];
    if x in s[1..] {
      var i :| 0 <= i < |s[1..]| && s[1..][i] == x;
      assert before(s[0], s[i + 1]);
    }
  }

  lemma SameFirst<T(!new)>(s: seq<T>, t: seq<T>, before: (T, T) -> bool)
    requires Ordered(s, before) && Ordered(t, before) && s != [] && t != []
    requires s[0] in t && t[0] in s
    requires forall x, y | x in s && y in s :: !(before(x, y) && before(y, x))
    ensures s[0] == t[0]
  {
    FirstBefore(s, t[0], before);
    FirstBefore(t, s[0], before);
  }

  lemma FirstBefore<T(!new)>(s: seq<T>, x: T, before: (T, T) -> bool)
    requires Ordered(s, before) && x in s
    ensures x == s[0] || before(s[0], x)
  {
    var i :| 0 <= i < |s| && s[i] == x;
    assert i > 0 ==> before(s[0], s[i]);
  }
}
