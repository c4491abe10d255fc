/** The two views of a path: its components and its text. */
module PathComponents {
  import opened PathText
  import opened FolderRename

  /** Names as they occur in clean paths. */
  predicate Clean(p: seq<string>) {
    p != [] && forall i | 0 <= i < |p| :: p[i] != "" && '/' !in p[i]
  }

  function Join(p: seq<string>): string {
    if |p| == 0 then "" else if |p| == 1 then p[0] else p[0] + "/" + Join(p[1..])
  }

  lemma SlashIndex(x: string, s: string)
    requires '/' !in x
    ensures var u := x + "/" + s; u[|x|] == '/' && forall i | 0 <= i < |x| :: u[i] != '/'
  {}

  lemma FirstSlash(x: string, y: string, s: string, t: string)
    requires '/' !in x && '/' !in y
    requires x + "/" + s == y + "/" + t
    ensures x == y && s == t
  {
    var u := x + "/" + s;
    SlashIndex(x, s);
    SlashIndex(y, t);
    assert |x| == |y|;
    assert x == u[..|x|] && y == u[..|y|] && s == u[|x| + 1..] && t == u[|y| + 1..];
  }

  lemma PrefixHasSlash(x: string, s: string)
    requires x + "/" <= s
    ensures '/' in s
  {
    assert s[|x|] == '/';
  }

  lemma NoSlashInFirst(p: seq<string>)
    requires Clean(p)
    ensures |p| == 1 <==> '/' !in Join(p)
  {
    if |p| > 1 {
      assert Join(p)[|p[0]|] == '/';
    }
  }

  /** Text containment is component containment. */
  lemma {:induction false} UnderIsPrefix(a: seq<string>, b: seq<string>)
    requires Clean(a) && Clean(b)
    ensures Under(Join(a), Join(b)) <==> a <= b
  {
    if |a| == 1 || |b| == 1 {
      ShortUnder(a, b);
    } else {
      var x, y := Join(a[1..]), Join(b[1..]);
      UnderIsPrefix(a[1..], b[1..]);
      if Under(Join(a), Join(b)) {
        var rest := Join(b)[|Join(a)|..];
        assert Join(b) == Join(a) + rest;
        assert a[0] + "/" + (x + rest) == b[0] + "/" + y;
        FirstSlash(a[0], b[0], x + rest, y);
        assert rest == "" || rest[0] == '/';
        assert Under(x, y);
        assert a == [a[0]] + a[1..] && b == [b[0]] + b[1..];
      }
      if a <= b {
        assert a[0] == b[0] && a[1..] <= b[1..];
        assert Under(x, y);
        var rest := y[|x|..];
        assert y == x + rest && (rest == "" || rest[0] == '/');
        assert Join(b) == Join(a) + rest;
      }
    }
  }

  lemma ShortUnder(a: seq<string>, b: seq<string>)
    requires Clean(a) && Clean(b) && (|a| == 1 || |b| == 1)
    ensures Under(Join(a), Join(b)) <==> a <= b
  {
    NoSlashInFirst(a);
    NoSlashInFirst(b);
    if Join(a) + "/" <= Join(b) {
      PrefixHasSlash(Join(a), Join(b));
    }
    if |a| == 1 && |b| == 1 {
      assert a[0] == b[0] ==> a == b;
    } else if |a| == 1 && a[0] + "/" <= Join(b) {
      var t := Join(b)[|a[0]| + 1..];
      assert Join(b) == a[0] + "/" + t;
      FirstSlash(a[0], b[0], t, Join(b[1..]));
    }
  }

  /** The parent in text is the path without its last component. */
  lemma {:induction false} ParentOfJoin(p: seq<string>)
    requires Clean(p)
    ensures Parent(Join(p)) == Join(p[..|p| - 1]) && Base(Join(p)) == p[|p| - 1]
  {
    if |p| == 1 {
      ParentBaseSplit(p[0]);
      assert p[..0] == [];
    } else {
      var q := p[1..];
      ParentOfJoin(q);
      FolderAdded(p[0], Join(q), q);
      JoinFront(p);
      NoSlashInFirst(q);
      assert q[|q| - 1] == p[|p| - 1];
    }
  }

  lemma FolderAdded(d: string, s: string, q: seq<string>)
    requires Clean(q) && s == Join(q)
    ensures Base(d + "/" + s) == Base(s)
    ensures Parent(d + "/" + s) == if '/' in s then d + "/" + Parent(s) else d
  {
    JoinNonempty(q);
    var w := "/" + s;
    SlashParent(s);
    SlashFirst(s);
    ParentBelow(d, w);
    Regroup(d, s);
    Regroup(d, Parent(s));
  }

  lemma SlashFirst(s: string)
    ensures '/' in "/" + s
  {
    assert ("/" + s)[0] == '/';
  }

  lemma Regroup(d: string, s: string)
    ensures d + "/" + s == d + ("/" + s) && d + "" == d
  {}

  lemma JoinNonempty(p: seq<string>)
    requires Clean(p)
    ensures Join(p) != ""
  {}

  lemma JoinFront(p: seq<string>)
    requires |p| > 1
    ensures Join(p[..|p| - 1]) == if |p| == 2 then p[0] else p[0] + "/" + Join(p[1..][..|p| - 2])
  {
    assert p[..|p| - 1][1..] == p[1..][..|p| - 2];
  }

  lemma {:induction false} SlashParent(s: string)
    requires s != ""
    ensures Base("/" + s) == Base(s)
    ensures Parent("/" + s) == if '/' in s then "/" + Parent(s) else ""
  {
    var u := "/" + s;
    assert u[|u| - 1] == s[|s| - 1] && u[..|u| - 1] == "/" + s[..|s| - 1];
    assert s == s[..|s| - 1] + [s[|s| - 1]];
    if s[|s| - 1] != '/' && |s| > 1 {
      SlashParent(s[..|s| - 1]);
    } else if s[|s| - 1] != '/' {
      assert s[..|s| - 1] == "";
    }
  }
}
