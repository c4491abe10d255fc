/** The compiled condition means the expression, on every row. */
module PersonFilterMeaning {
  import opened SqlText
  import opened PersonFilters

  /** A primary fragment is a fragment of every level. */
  lemma Lift(t: Text, a: Args, row: Row, v: Value)
    requires Means(0, t, a, row, v) && t != [] && t[0] != Not
    ensures Means(3, t, a, row, v) && Means(4, t, a, row, v) && Means(5, t, a, row, v)
  {
    Levels(0, t, a, row, v);
    Levels(1, t, a, row, v);
    Levels(2, t, a, row, v);
    Levels(3, t, a, row, v);
    Levels(4, t, a, row, v);
  }

  lemma LeafLifted(c: Cond, a: Args, row: Row)
    requires |a| == Arity(c)
    ensures Means(3, [Leaf(c)], a, row, row(c, a)) && Means(4, [Leaf(c)], a, row, row(c, a))
      && Means(5, [Leaf(c)], a, row, row(c, a))
  {
    LeafMeans(c, a, row);
    Lift([Leaf(c)], a, row, row(c, a));
  }

  lemma TwoLeaves(c: Cond, a: Args, d: Cond, b: Args, level: nat, row: Row)
    requires |a| == Arity(c) && |b| == Arity(d) && (level == 4 || level == 5)
    ensures Means(level, [Leaf(c), Joiner(level), Leaf(d)], a + b, row, Combine(level, row(c, a), row(d, b)))
  {
    LeafLifted(c, a, row);
    LeafLifted(d, b, row);
    JoinMeans(level, [Leaf(c)], a, row(c, a), [Leaf(d)], b, row(d, b), row);
    assert [Leaf(c)] + [Joiner(level)] + [Leaf(d)] == [Leaf(c), Joiner(level), Leaf(d)];
  }

  lemma NoArgs()
    ensures var none: Args := []; none + none == none
  {}

  lemma PlainMeans(f: Field, row: Row)
    requires Plain(f).Some?
    ensures Means(4, Plain(f).value.text, Plain(f).value.args, row, PlainValue(f, row))
  {
    match f
    case Person(p) => LeafLifted(PersonLike, [p, p], row);
    case MediaType(k) => LeafLifted(TypeIs, [k.value], row);
    case Gps(falsey) =>
      if falsey {
        TwoLeaves(LatitudeNull, [], LongitudeNull, [], 5, row);
        var t := [Leaf(LatitudeNull), Or, Leaf(LongitudeNull)];
        NoArgs();
        ParenMeans(t, [], row, PlainValue(f, row));
        assert [Open] + t + [Close] == Plain(f).value.text;
        Lift([Open] + t + [Close], [], row, PlainValue(f, row));
      } else {
        TwoLeaves(LatitudeSet, [], LongitudeSet, [], 4, row);
        NoArgs();
      }
    case Directory(d) => LeafLifted(DirectoryLike, [d.value], row);
    case FileName(p) => LeafLifted(NameLike, [p], row);
    case Year(first, next) =>
      TwoLeaves(DateFrom, [first], DateBefore, [next], 4, row);
      assert [first] + [next] == [first, next];
    case DatePrefix(p) => LeafLifted(DateLike, [p], row);
    case Orientation(v) => LeafLifted(OrientationIs, [v], row);
    case Resolution(b) => ResolutionMeans(b.value, row);
  }

  lemma ResolutionMeans(b: Bound, row: Row)
    ensures Means(4, [Leaf(WidthPositive), And, Leaf(HeightPositive), And, Leaf(PixelsCompare(b.op))], [b.threshold],
      row,
                  PlainValue(Resolution(Some(b)), row))
  {
    var pixels, last := PixelsCompare(b.op), [b.threshold];
    LeafLifted(WidthPositive, [], row);
    TwoLeaves(HeightPositive, [], pixels, last, 4, row);
    var rest := [Leaf(HeightPositive), And, Leaf(pixels)];
    assert [] + last == last;
    JoinMeans(4, [Leaf(WidthPositive)], [], row(WidthPositive, []), rest, last,
      Both(row(HeightPositive, []), row(pixels, last)), row);
    assert [Leaf(WidthPositive)] + [And] + rest == [Leaf(WidthPositive), And, Leaf(HeightPositive), And, Leaf(pixels)];
  }

  lemma SignedMeans(f: Field, negated: bool, row: Row)
    requires Plain(f).Some?
    ensures var p := Signed(Plain(f).value, negated);
      Means(4, p.text, p.args, row, if negated then Negate(PlainValue(f, row)) else PlainValue(f, row))
  {
    PlainMeans(f, row);
    if negated {
      var p, v := Plain(f).value, PlainValue(f, row);
      Levels(4, p.text, p.args, row, v);
      ParenMeans(p.text, p.args, row, v);
      Lift([Open] + p.text + [Close], p.args, row, v);
      NotMeans([Open] + p.text + [Close], p.args, row, v);
      assert [Not] + ([Open] + p.text + [Close]) == [Not, Open] + p.text + [Close];
      Levels(3, [Not, Open] + p.text + [Close], p.args, row, Negate(v));
    }
  }

  lemma TagsMean(t: Term, row: Row)
    requires t.field.Tag? && t.field.tags != []
    ensures Means(4, Joined(Conditions(t), 4).text, Joined(Conditions(t), 4).args, row,
      Folded(TagValues(t.field.tags, t.negated, row), 4))
  {
    var parts, values := Conditions(t), TagValues(t.field.tags, t.negated, row);
    forall i | 0 <= i < |parts| ensures Means(3, parts[i].text, parts[i].args, row, values[i]) {
      LeafLifted(if t.negated then LacksTag else HasTag, [t.field.tags[i]], row);
    }
    JoinedMeans(parts, values, 4, row);
  }

  /** The SQL of a term takes its own arguments and has the value of the term. */
  lemma TermMeans(t: Term, row: Row)
    requires TermSql(t).Some?
    ensures Means(0, TermSql(t).value.text, TermSql(t).value.args, row, TermValue(t, row))
  {
    var joined := Joined(Conditions(t), 4);
    assert Means(4, joined.text, joined.args, row, TermValue(t, row)) by {
      if t.field.Tag? {
        if t.field.tags == [] {
          NumberMeans(0, row);
          Lift([Number(0)], [], row, Int(0));
        } else {
          TagsMean(t, row);
        }
      } else {
        SignedMeans(t.field, t.negated, row);
      }
    }
    Levels(4, joined.text, joined.args, row, TermValue(t, row));
    ParenMeans(joined.text, joined.args, row, TermValue(t, row));
  }

  // ---- N of several terms ----

  lemma {:induction false} CountsAre(terms: seq<Term>, i: nat)
    requires Counts(terms).Some? && i < |terms|
    ensures TermSql(terms[i]).Some? && Counts(terms).value[i] == Counted(TermSql(terms[i]).value)
  {
    if i < |terms| - 1 {
      CountsAre(terms[..|terms| - 1], i);
    }
  }

  function Marks(terms: seq<Term>, row: Row): (v: seq<Value>)
    ensures |v| == |terms|
  {
    seq(|terms|, i requires 0 <= i < |terms| => Truth(Holds(terms[i], row)))
  }

  lemma {:induction false} MarksAddUp(terms: seq<Term>, row: Row)
    requires terms != []
    ensures Folded(Marks(terms, row), 1) == Int(HowMany(terms, row))
    decreases |terms|
  {
    if |terms| > 1 {
      MarksAddUp(terms[1..], row);
      assert Marks(terms, row)[1..] == Marks(terms[1..], row);
    } else {
      assert HowMany(terms[1..], row) == 0;
    }
  }

  lemma CountedMeans(t: Term, row: Row)
    requires TermSql(t).Some?
    ensures var p := Counted(TermSql(t).value); Means(0, p.text, p.args, row, Truth(Holds(t, row)))
  {
    var p := TermSql(t).value;
    TermMeans(t, row);
    Lift(p.text, p.args, row, TermValue(t, row));
    CaseMeans(p.text, p.args, row, TermValue(t, row));
  }

  lemma CountsMean(terms: seq<Term>, row: Row)
    requires Counts(terms).Some? && terms != []
    ensures var sum := Joined(Counts(terms).value, 1);
      Means(1, sum.text, sum.args, row, Int(HowMany(terms, row))) && sum.text != [] && sum.text[0] == Case
  {
    var parts := Counts(terms).value;
    forall i | 0 <= i < |parts| ensures Means(0, parts[i].text, parts[i].args, row, Marks(terms, row)[i]) {
      CountsAre(terms, i);
      CountedMeans(terms[i], row);
    }
    JoinedMeans(parts, Marks(terms, row), 1, row);
    MarksAddUp(terms, row);
    CountsAre(terms, 0);
  }

  // ---- nodes, groups, the expression ----

  lemma NodeMeans(n: Node, row: Row) returns (v: Value)
    requires NodeSql(n).Some?
    ensures var p := NodeSql(n).value; Means(0, p.text, p.args, row, v) && p.text != [] && p.text[0] == Open
    ensures IsTrue(v) <==> NodeHolds(n, row)
  {
    if n.nOf == 0 {
      TermMeans(n.term, row);
      v := TermValue(n.term, row);
    } else {
      CountsMean(n.terms, row);
      var sum := Joined(Counts(n.terms).value, 1);
      v := Truth(HowMany(n.terms, row) >= n.nOf);
      ReachesMeans(sum.text, sum.args, row, Int(HowMany(n.terms, row)), n.nOf);
      var t := sum.text + [AtLeast, Number(n.nOf)];
      Levels(2, t, sum.args, row, v);
      Levels(3, t, sum.args, row, v);
      Levels(4, t, sum.args, row, v);
      ParenMeans(t, sum.args, row, v);
      assert [Open] + t + [Close] == NodeSql(n).value.text;
    }
  }

  ghost predicate PartsMean(parts: seq<Part>, values: seq<Value>, row: Row) {
    |parts| == |values| && forall i | 0 <= i < |parts| ::
      Means(0, parts[i].text, parts[i].args, row, values[i]) && parts[i].text != [] && parts[i].text[0] == Open
  }

  ghost predicate AllHold(group: seq<Node>, row: Row) {
    forall n | n in group && !n.skip :: NodeHolds(n, row)
  }

  lemma {:induction false} NodesMean(group: seq<Node>, row: Row) returns (values: seq<Value>)
    requires Nodes(group).Some?
    ensures PartsMean(Nodes(group).value, values, row)
    ensures (forall v | v in values :: IsTrue(v)) <==> AllHold(group, row)
  {
    values := [];
    if group != [] {
      var init, last := group[..|group| - 1], group[|group| - 1];
      assert group == init + [last];
      values := NodesMean(init, row);
      if !last.skip {
        var v := NodeMeans(last, row);
        values := values + [v];
      }
      assert AllHold(group, row) <==> AllHold(init, row) && (last.skip || NodeHolds(last, row));
    }
  }

  lemma {:induction false} AllTrue(values: seq<Value>)
    requires values != []
    ensures IsTrue(Folded(values, 4)) <==> forall v | v in values :: IsTrue(v)
    decreases |values|
  {
    assert values == [values[0]] + values[1..];
    if |values| > 1 {
      AllTrue(values[1..]);
    }
  }

  lemma {:induction false} SomeTrue(values: seq<Value>)
    requires values != []
    ensures IsTrue(Folded(values, 5)) <==> exists i :: 0 <= i < |values| && IsTrue(values[i])
    decreases |values|
  {
    if |values| > 1 {
      SomeTrue(values[1..]);
      assert forall i | 0 <= i < |values| - 1 :: values[1..][i] == values[i + 1];
      if i :| 0 < i < |values| && IsTrue(values[i]) {
        assert IsTrue(values[1..][i - 1]);
      }
    }
  }

  lemma GroupMeans(group: seq<Node>, row: Row) returns (v: Value)
    requires GroupSql(group).Some?
    ensures var p := GroupSql(group).value; Means(0, p.text, p.args, row, v) && p.text != [] && p.text[0] == Open
    ensures IsTrue(v) <==> AllHold(group, row)
  {
    var parts := Nodes(group).value;
    var values := NodesMean(group, row);
    forall i | 0 <= i < |parts| ensures Means(3, parts[i].text, parts[i].args, row, values[i]) {
      Lift(parts[i].text, parts[i].args, row, values[i]);
    }
    JoinedMeans(parts, values, 4, row);
    AllTrue(values);
    v := Folded(values, 4);
    var joined := Joined(parts, 4);
    Levels(4, joined.text, joined.args, row, v);
    ParenMeans(joined.text, joined.args, row, v);
  }

  lemma {:induction false} GroupsMean(e: Expression, row: Row) returns (values: seq<Value>)
    requires Groups(e).Some?
    ensures PartsMean(Groups(e).value, values, row) && |values| == |e|
    ensures forall i | 0 <= i < |e| :: IsTrue(values[i]) <==> AllHold(e[i], row)
  {
    values := [];
    if e != [] {
      values := GroupsMean(e[..|e| - 1], row);
      var v := GroupMeans(e[|e| - 1], row);
      values := values + [v];
    }
  }

  /** Evaluating the compiled text with its positional arguments consumes both completely and is
      true exactly for the rows the expression selects. */
  lemma ExpressionMeans(e: Expression, row: Row) returns (v: Value)
    requires ExpressionSql(e).Some?
    ensures EvalOr(ExpressionSql(e).value.text, ExpressionSql(e).value.args, row) == Some(Out(v, [], []))
    ensures IsTrue(v) <==> Selects(e, row)
  {
    var parts := Groups(e).value;
    var values := GroupsMean(e, row);
    forall i | 0 <= i < |parts| ensures Means(4, parts[i].text, parts[i].args, row, values[i]) {
      Lift(parts[i].text, parts[i].args, row, values[i]);
    }
    JoinedMeans(parts, values, 5, row);
    SomeTrue(values);
    v := Folded(values, 5);
    var joined := Joined(parts, 5);
    ParenMeans(joined.text, joined.args, row, v);
    var p := ExpressionSql(e).value;
    Lift(p.text, p.args, row, v);
    assert p.text + [] == p.text && p.args + [] == p.args;
    assert Ends(5, []);
    assert Eval(5, p.text + [], p.args + [], row) == Some(Out(v, [], []));
    SelectsByGroup(e, values, row);
  }

  lemma SelectsByGroup(e: Expression, values: seq<Value>, row: Row)
    requires |values| == |e| && forall i | 0 <= i < |e| :: IsTrue(values[i]) <==> AllHold(e[i], row)
    ensures (exists i :: 0 <= i < |values| && IsTrue(values[i])) <==> Selects(e, row)
  {
    if i :| 0 <= i < |values| && IsTrue(values[i]) {
      assert e[i] in e && AllHold(e[i], row);
    }
    if g :| g in e && AllHold(g, row) {
      var i :| 0 <= i < |e| && e[i] == g;
      assert IsTrue(values[i]);
    }
  }

  // ---- placeholders ----

  function Placeholders(t: Text): nat {
    if t == [] then 0 else (if t[0].Leaf? then Arity(t[0].c) else 0) + Placeholders(t[1..])
  }

  lemma {:induction false} Skipped(t: Text, n: nat)
    requires n <= |t| && forall i | 0 <= i < n :: !t[i].Leaf?
    ensures Placeholders(t) == Placeholders(t[n..])
  {
    if n > 0 {
      Skipped(t[1..], n - 1);
      assert t[1..][n - 1..] == t[n..];
    }
  }

  /** Every placeholder that is passed takes one argument, at every level of the grammar. */
  lemma {:induction false} EachTakesOne(level: nat, t: Text, a: Args, row: Row)
    requires level <= 5 && Eval(level, t, a, row).Some?
    ensures var o := Eval(level, t, a, row).value;
      |o.args| <= |a| && Placeholders(t) - Placeholders(o.rest) == |a| - |o.args|
    decreases |t|, level + 1
  {
    if level == 0 {
      PrimaryTakesOne(t, a, row);
    } else if level == 3 && t != [] && t[0] == Not {
      EachTakesOne(3, t[1..], a, row);
    } else {
      EachTakesOne(level - 1, t, a, row);
      var l := Eval(level - 1, t, a, row).value;
      if l.rest != [] && (level == 1 || level == 4 || level == 5) && l.rest[0] == Joiner(level) {
        EachTakesOne(level, l.rest[1..], l.args, row);
      } else if level == 2 && l.rest != [] && l.rest[0] == AtLeast {
        Skipped(l.rest, 2);
      }
    }
  }

  lemma PrimaryTakesOne(t: Text, a: Args, row: Row)
    requires EvalPrimary(t, a, row).Some?
    ensures var o := EvalPrimary(t, a, row).value;
      |o.args| <= |a| && Placeholders(t) - Placeholders(o.rest) == |a| - |o.args|
    decreases |t|, 0
  {
    match t[0]
    case Open => EachTakesOne(5, t[1..], a, row);
    case Case =>
      EachTakesOne(5, t[2..], a, row);
      Skipped(t, 2);
      Skipped(EvalOr(t[2..], a, row).value.rest, 5);
    case _ =>
  }

  /** As many placeholders as arguments. */
  lemma PlaceholdersMatch(e: Expression)
    requires ExpressionSql(e).Some?
    ensures Placeholders(ExpressionSql(e).value.text) == |ExpressionSql(e).value.args|
  {
    var row: Row := (c, a) => Null;
    var v := ExpressionMeans(e, row);
    EachTakesOne(5, ExpressionSql(e).value.text, ExpressionSql(e).value.args, row);
  }
}
