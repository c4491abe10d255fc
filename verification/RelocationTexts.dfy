/** The contradictions of relocations on the texts of the paths, as the ancestor walk compares them. */
module RelocationTexts {
  import opened PathText
  import opened PathComponents
  import opened RelocationRecognition

  predicate CleanMove(m: Move) {
    Clean(m.source) && Clean(m.target)
  }

  /** The paths that the walk visits: parent after parent, but not the library folder itself. */
  function Ancestors(p: string): seq<string>
    decreases |p|
  {
    if p == "" || Parent(p) == "" then [] else [Parent(p)] + Ancestors(Parent(p))
  }

  /** An outer move whose source is an ancestor, and which sends the inner source elsewhere. */
  predicate TextElsewhere(outerSource: string, outerTarget: string, source: string, target: string) {
    outerSource in Ancestors(source) && |outerSource| <= |source| && outerTarget + source[|outerSource|..] != target
  }

  predicate TextMismatch(outer: Move, inner: Move) {
    || TextElsewhere(Join(outer.source), Join(outer.target), Join(inner.source), Join(inner.target))
    || TextElsewhere(Join(outer.target), Join(outer.source), Join(inner.target), Join(inner.source))
  }

  lemma JoinIsInjective(a: seq<string>, b: seq<string>)
    requires Clean(a) && Clean(b) && Join(a) == Join(b)
    ensures a == b
  {
    UnderIsPrefix(a, b);
    UnderIsPrefix(b, a);
  }

  lemma JoinHead(x: string, rest: seq<string>)
    requires Clean([x]) && Clean(rest)
    ensures Clean([x] + rest) && Join([x] + rest) == x + "/" + Join(rest)
  {
    assert ([x] + rest)[1..] == rest;
  }

  lemma {:induction false} JoinAppend(a: seq<string>, rest: seq<string>)
    requires Clean(a) && Clean(rest)
    ensures Clean(a + rest) && Join(a + rest) == Join(a) + ("/" + Join(rest))
  {
    hide Join;
    assert Clean([a[0]]) && a == [a[0]] + a[1..];
    if |a| == 1 {
      JoinOne(a[0]);
      JoinHead(a[0], rest);
      assert a == [a[0]];
      ThreeTexts(a[0], "/", Join(rest));
    } else {
      JoinAppend(a[1..], rest);
      JoinHead(a[0], a[1..]);
      JoinHead(a[0], a[1..] + rest);
      assert a + rest == [a[0]] + (a[1..] + rest);
      ThreeTexts(a[0] + "/", Join(a[1..]), "/" + Join(rest));
    }
  }

  lemma JoinOne(x: string)
    ensures Join([x]) == x
  {}

  lemma ThreeTexts(a: string, b: string, c: string)
    ensures a + (b + c) == a + b + c
  {}

  /** The ancestors in text are the proper beginnings of the path. */
  lemma {:induction false} AncestorsArePrefixes(a: seq<string>, p: seq<string>)
    requires Clean(a) && Clean(p)
    ensures Join(a) in Ancestors(Join(p)) <==> a < p
  {
    hide Join;
    JoinNonempty(a);
    JoinNonempty(p);
    ParentOfJoin(p);
    var up := p[..|p| - 1];
    if |p| > 1 {
      JoinNonempty(up);
      AncestorsArePrefixes(a, up);
      if Join(a) == Join(up) {
        JoinIsInjective(a, up);
      }
      assert p == up + [p[|p| - 1]];
      assert a < p <==> a < up || a == up;
    } else {
      assert up == [];
      JoinEmpty();
      assert a < p ==> |a| < 1;
    }
  }

  lemma JoinEmpty()
    ensures Join([]) == ""
  {}

  lemma ElsewhereInText(outer: Move, inner: Move)
    requires CleanMove(outer) && CleanMove(inner)
    ensures TextElsewhere(Join(outer.source), Join(outer.target), Join(inner.source), Join(inner.target)) <==>
      Elsewhere(outer, inner)
  {
    hide Join;
    hide Ancestors;
    AncestorsArePrefixes(outer.source, inner.source);
    if outer.source < inner.source {
      var rest := inner.source[|outer.source|..];
      assert inner.source == outer.source + rest && Clean(rest);
      JoinAppend(outer.source, rest);
      JoinAppend(outer.target, rest);
      assert Join(inner.source)[|Join(outer.source)|..] == "/" + Join(rest);
      if Join(outer.target + rest) == Join(inner.target) {
        JoinIsInjective(outer.target + rest, inner.target);
      }
    }
  }

  lemma MismatchInText(outer: Move, inner: Move)
    requires CleanMove(outer) && CleanMove(inner)
    ensures TextMismatch(outer, inner) <==> Mismatch(outer, inner)
  {
    ElsewhereInText(outer, inner);
    ElsewhereInText(Flip(outer), Flip(inner));
  }

  /** Comparing texts along the ancestors marks exactly the moves that some pair of texts contradicts. */
  method MarkTextContradictions(moves: seq<Move>) returns (marks: set<int>)
    requires forall i | 0 <= i < |moves| :: CleanMove(moves[i])
    ensures forall i | 0 <= i < |moves| ::
      i in marks <==>
        exists j :: 0 <= j < |moves| && (TextMismatch(moves[j], moves[i]) || TextMismatch(moves[i], moves[j]))
    ensures forall i | i in marks :: 0 <= i < |moves|
  {
    marks := MarkContradictions(moves);
    forall i, j | 0 <= i < |moves| && 0 <= j < |moves|
      ensures TextMismatch(moves[j], moves[i]) <==> Mismatch(moves[j], moves[i])
    {
      MismatchInText(moves[j], moves[i]);
    }
  }
}
